/** The local accelerator: one call prepares the kernels, runs the simulator and decodes its counts. */
module LocalIBMAccelerator {
  import opened Wrappers
  import opened Lexing
  import opened Json
  import opened GateIR
  import opened OpenQasm
  import opened OpenQasmText
  import opened Emission
  import opened OperationsJson
  import opened BitStrings
  import opened Histograms
  import opened KernelWalk
  import opened TextAndJson
  import OpenQasmVisitor

  ghost function Decoder(supports: seq<nat>, size: nat): string -> string {
    bits => if Placeable(bits, supports, size) then Decode(bits, supports, size) else bits
  }

  // ----- what the histogram of a kernel is -----

  lemma DecoderIsInjective(counts: Counts, supports: seq<nat>, size: nat)
    requires DistinctKeys(counts) && Distinct(supports) && InRange(supports, size)
    requires forall i :: 0 <= i < |counts| ==> |counts[i].0| == |supports|
    ensures InjectiveOn(counts, Decoder(supports, size))
  {
    forall i, j | 0 <= i < j < |counts|
      ensures Decoder(supports, size)(counts[i].0) != Decoder(supports, size)(counts[j].0)
    {
      if Decode(counts[i].0, supports, size) == Decode(counts[j].0, supports, size) {
        DecodeIsInjective(counts[i].0, counts[j].0, supports, size);
      }
    }
  }

  /** With one bit per measured qubit and no qubit measured twice, outcomes never merge: every
      scattered outcome has its raw count, nothing else is counted, and no shot is lost. */
  lemma HistogramIsImage(counts: Counts, supports: seq<nat>, size: nat)
    requires DistinctKeys(counts) && Distinct(supports) && InRange(supports, size)
    requires forall i :: 0 <= i < |counts| ==> |counts[i].0| == |supports|
    ensures var h := Collected(map[], counts, Decoder(supports, size));
            && (forall i :: 0 <= i < |counts| ==> Count(h, Decode(counts[i].0, supports, size)) == counts[i].1)
            && (forall d :: (forall i :: 0 <= i < |counts| ==> Decode(counts[i].0, supports, size) != d) ==>
                  Count(h, d) == 0)
            && Sum(h, k => 1) == CountsSum(counts, k => 1)
  {
    var f, one := Decoder(supports, size), (k: string) => 1;
    DecoderIsInjective(counts, supports, size);
    CollectedImage(map[], counts, f);
    CollectedSum(map[], counts, f, one);
    CountsSumSame(counts, k => one(f(k)), one);
    hide Decode, Sum, CountsSum, Collected;
    assert forall i :: 0 <= i < |counts| ==> f(counts[i].0) == Decode(counts[i].0, supports, size);
  }

  /** A kernel can be prepared if it is translated without error and its operation list parses. */
  predicate Preparable(insts: seq<Inst>) {
    var em := VisitAll(insts, 0, map[]);
    em.Ok? && ReadOps(Closed("[" + OpsText(em.value.ops))) != None
  }

  predicate AllPreparable(functions: seq<KernelInput>) {
    forall k :: 0 <= k < |functions| ==> Preparable(functions[k].insts)
  }

  /** Exactly those kernels can be prepared that the visitor accepts, in which an instruction outside
      conditionals emits an operation, and in which the parameter texts there are literals of JSON. */
  lemma PreparableIff(insts: seq<Inst>)
    requires PrintableInsts(insts)
    ensures Preparable(insts) <==> AllSupported(insts) && SomeOps(insts) && LiteralInsts(insts)
  {
    hide VisitAll, ReadOps, OpsText, LiteralOps, LiteralInsts, SomeOps, AllSupported;
    VisitAllAcceptsIff(insts, 0, map[]);
    if AllSupported(insts) {
      VisitsArePrintable(insts, 0, map[]);
      VisitsLiteralIff(insts, 0, map[]);
      ReadOpsInvertsIff(VisitAll(insts, 0, map[]).value.ops);
    }
  }

  /** A rotation by a named parameter is translated, but its operation list does not parse. */
  lemma NamedParameterIsNotPreparable()
    ensures var insts := [Rx(0, Sym("theta"))];
            PrintableInsts(insts) && VisitAll(insts, 0, map[]).Ok? && !Preparable(insts)
  {
    var insts := [Rx(0, Sym("theta"))];
    VisitAllOne(insts[0], 0, map[]);
    assert insts[1..] == [];
    assert IsWord("theta") && !IsLiteral("theta");
    PreparableIff(insts);
    assert !LiteralInst(insts[0]);
  }

  class Accelerator {
    var measurementSupports: Supports
    ghost var run: seq<Event>

    /** The table is what the run so far has made of it. */
    ghost predicate Valid()
      reads this
    {
      ValidRun(run) && measurementSupports == TableAfter(run)
    }

    constructor ()
      ensures Valid() && run == []
    {
      measurementSupports := map[];
      run := [];
    }

    /** One kernel; what was recorded before an error stays. */
    method PrepareKernel(size: nat, kernelCounter: nat, kernel: KernelInput) returns (ok: bool)
      modifies this`measurementSupports
      ensures ok <==> Preparable(kernel.insts)
      ensures measurementSupports
           == old(measurementSupports)[kernelCounter := Entry(old(measurementSupports), kernelCounter)
                                                        + Walked(kernel.insts)]
    {
      hide Text, OpsText, VisitAll, Walked, ReadOps;
      var visitor := new OpenQasmVisitor.Visitor(size, false);
      if kernelCounter !in measurementSupports {
        measurementSupports := measurementSupports[kernelCounter := []];
      }
      var entry;
      ok, entry := WalkKernel(visitor, measurementSupports[kernelCounter], kernel.insts);
      measurementSupports := measurementSupports[kernelCounter := entry];
      if ok {
        var opsStr := visitor.operationsJsonStr[..|visitor.operationsJsonStr| - 1] + "]";
        ok := ReadOps(opsStr) != None;
      }
    }

    /** Decoding the counts of one kernel; every outcome is appended as often as it occurred. */
    method DecodeCounts(size: nat, supports: seq<nat>, counts: Counts) returns (h: Histogram)
      requires forall j :: 0 <= j < |counts| ==> Placeable(counts[j].0, supports, size)
      ensures h == Collected(map[], counts, Decoder(supports, size))
    {
      ghost var f := Decoder(supports, size);
      h := map[];
      var j := 0;
      assert counts[..0] == [];
      while j < |counts|
        invariant j <= |counts| && h == Collected(map[], counts[..j], f)
      {
        var bitString := DecodeSimulator(counts[j].0, supports, size);
        assert bitString == f(counts[j].0);
        CollectedSnoc(map[], counts[..j + 1], f);
        assert counts[..j + 1][..j] == counts[..j];
        h := AppendTimes(h, bitString, counts[j].1);
        j := j + 1;
      }
      assert counts[..j] == counts;
    }

    /** The kernels' histograms; `response` is what the simulator returned, or its failure. On an
        error the call ends where it is, without clearing the table: `entered` kernels were walked. */
    method Execute(size: nat, functions: seq<KernelInput>, response: Option<seq<Counts>>)
      returns (ok: bool, buffers: seq<(string, Histogram)>, ghost entered: nat)
      requires Valid()
      requires response.Some? ==> |response.value| == |functions|
      requires response.Some? ==>
                 forall i, j :: 0 <= i < |functions| && 0 <= j < |response.value[i]| ==>
                   Placeable(response.value[i][j].0, Entry(AfterInput(measurementSupports, functions), i), size)
      modifies this
      ensures Valid() && entered <= |functions|
      ensures run == old(run) + [Enter(functions, entered)] + (if ok then [Clear] else [])
      ensures ok <==> response.Some? && AllPreparable(functions)
      ensures if AllPreparable(functions) then entered == |functions|
              else entered > 0 && !Preparable(functions[entered - 1].insts) && AllPreparable(functions[..entered - 1])
      ensures ok ==> |buffers| == |functions|
                     && forall i :: 0 <= i < |functions| ==>
                          buffers[i] == (functions[i].name,
                                         Collected(map[], response.value[i],
                                                   Decoder(Entry(AfterInput(TableAfter(old(run)), functions), i), size)))
    {
      hide Preparable, AfterFirst, Walked, TableAfter, Decoder, Placeable;
      buffers := [];
      var names: seq<string> := [];
      var kernelCounter := 0;
      assert functions[..0] == [];
      AfterNone(measurementSupports, functions);
      while kernelCounter < |functions|
        invariant kernelCounter <= |functions| && names == Names(functions[..kernelCounter]) && run == old(run)
        invariant forall k :: 0 <= k < kernelCounter ==> Preparable(functions[k].insts)
        invariant measurementSupports == AfterFirst(old(measurementSupports), functions, kernelCounter)
      {
        var kernel := functions[kernelCounter];
        AfterFirstStep(old(measurementSupports), functions, kernelCounter);
        assert Names(functions[..kernelCounter + 1]) == Names(functions[..kernelCounter]) + [kernel.name];
        names := names + [kernel.name];
        ok := PrepareKernel(size, kernelCounter, kernel);
        kernelCounter := kernelCounter + 1;
        if !ok {
          entered := kernelCounter;
          Entering(functions, entered);
          return;
        }
      }
      entered := kernelCounter;
      Entering(functions, entered);
      assert functions[..kernelCounter] == functions;
      if response == None {
        return false, [], entered;
      }
      var results := response.value;
      for i := 0 to |results|
        invariant |buffers| == i && Valid() && run == old(run) + [Enter(functions, entered)]
        invariant measurementSupports == AfterInput(old(measurementSupports), functions)
        invariant forall k :: 0 <= k < i ==>
                    buffers[k] == (names[k], Collected(map[], results[k], Decoder(Entry(measurementSupports, k), size)))
      {
        var supports := if i in measurementSupports then measurementSupports[i] else [];
        var h := DecodeCounts(size, supports, results[i]);
        buffers := buffers + [(names[i], h)];
      }
      measurementSupports := map[];
      TableStep(run, Clear);
      run := run + [Clear];
      return true, buffers, entered;
    }

    /** The run has come to the end of the walks of a job. */
    ghost method Entering(functions: seq<KernelInput>, entered: nat)
      requires ValidRun(run) && entered <= |functions|
      requires measurementSupports == AfterFirst(TableAfter(run), functions, entered)
      modifies this`run
      ensures Valid() && run == old(run) + [Enter(functions, entered)]
    {
      TableStep(run, Enter(functions, entered));
      run := run + [Enter(functions, entered)];
    }

    /** Executing one kernel: its histogram is added to what the caller's buffer already holds. */
    method ExecuteOne(size: nat, kernel: KernelInput, response: Option<seq<Counts>>, buffer: Histogram)
      returns (ok: bool, newBuffer: Histogram)
      requires Valid()
      requires response.Some? ==> |response.value| == 1
      requires response.Some? ==>
                 forall j :: 0 <= j < |response.value[0]| ==>
                   Placeable(response.value[0][j].0, Entry(AfterInput(measurementSupports, [kernel]), 0), size)
      modifies this
      ensures Valid() && run == old(run) + [Enter([kernel], 1)] + (if ok then [Clear] else [])
      ensures ok <==> response.Some? && Preparable(kernel.insts)
      ensures ok ==> var h := Collected(map[], response.value[0],
                                        Decoder(Entry(AfterInput(TableAfter(old(run)), [kernel]), 0), size));
                     forall k :: Count(newBuffer, k) == Count(buffer, k) + Count(h, k)
      ensures !ok ==> newBuffer == buffer
    {
      hide AfterFirst, TableAfter, Decoder, Placeable, Preparable;
      newBuffer := buffer;
      var buffers;
      ghost var entered;
      ok, buffers, entered := Execute(size, [kernel], response);
      assert AllPreparable([kernel]) <==> Preparable(kernel.insts) by {
        assert [kernel][0] == kernel;
      }
      assert entered == 1;
      if !ok {
        return;
      }
      newBuffer := AppendAll(buffer, buffers[0].1);
    }
  }

  /** Appending every outcome of one histogram to another, as often as it occurred. */
  method AppendAll(h: Histogram, counts: Histogram) returns (r: Histogram)
    ensures forall k :: Count(r, k) == Count(h, k) + Count(counts, k)
  {
    r := h;
    var rest := counts.Keys;
    while rest != {}
      invariant rest <= counts.Keys
      invariant forall k :: Count(r, k) == Count(h, k) + if k in rest then 0 else Count(counts, k)
      decreases |rest|
    {
      var k :| k in rest;
      r := AppendTimes(r, k, counts[k]);
      rest := rest - {k};
    }
  }

  /** appendMeasurement, n times. */
  method AppendTimes(h: Histogram, k: string, n: nat) returns (r: Histogram)
    ensures r == Append(h, k, n)
  {
    r := h;
    for i := 0 to n
      invariant r == Append(h, k, i)
    {
      r := Append(r, k, 1);
    }
  }
}
