/** The walk both accelerators make over a kernel: translating it and collecting the qubits it
    measures, in the order in which the visitor numbers their classical bits. */
module KernelWalk {
  import opened Wrappers
  import opened GateIR
  import opened OpenQasm
  import opened OpenQasmText
  import opened Emission
  import opened OperationsJson
  import opened BitStrings
  import opened Sequences
  import OpenQasmVisitor

  /** A kernel as the walk presents it: its enabled instructions in order. */
  datatype KernelInput = KernelInput(name: string, insts: seq<Inst>)

  type Supports = map<nat, seq<nat>>

  /** The qubits of the Measure instructions, in walk order. */
  function Measured(insts: seq<Inst>): seq<nat> {
    if insts == [] then [] else (if insts[0].Measure? then [insts[0].q] else []) + Measured(insts[1..])
  }

  lemma {:induction false} MeasuredAppend(a: seq<Inst>, b: seq<Inst>)
    ensures Measured(a + b) == Measured(a) + Measured(b)
  {
    if a == [] {
      assert a + b == b;
    } else {
      assert (a + b)[1..] == a[1..] + b;
      MeasuredAppend(a[1..], b);
      Assoc(if a[0].Measure? then [a[0].q] else [], Measured(a[1..]), Measured(b));
    }
  }

  /** How many instructions are visited before one is an error. */
  function Accepted(insts: seq<Inst>, counter: nat, index: Index): (n: nat)
    ensures n <= |insts|
    ensures n == |insts| <==> VisitAll(insts, counter, index).Ok?
  {
    if insts == [] then 0
    else
      match Visit(insts[0], counter, index)
      case Err(_) => 0
      case Ok(first) => 1 + Accepted(insts[1..], first.counter, first.index)
  }

  /** The walk ends at the first instruction that is not supported. */
  lemma {:induction false} EndsAtUnsupported(insts: seq<Inst>, counter: nat, index: Index)
    ensures var n := Accepted(insts, counter, index);
            (n < |insts| ==> !Supported(insts[n])) && forall i :: 0 <= i < n ==> Supported(insts[i])
  {
    if insts != [] {
      VisitAcceptsIff(insts[0], counter, index);
      hide Visit, Supported;
      if Visit(insts[0], counter, index).Ok? {
        var first := Visit(insts[0], counter, index).value;
        EndsAtUnsupported(insts[1..], first.counter, first.index);
        assert forall i :: 0 <= i < |insts[1..]| ==> insts[1..][i] == insts[i + 1];
      }
    }
  }

  lemma {:induction false} AcceptedConcat(a: seq<Inst>, b: seq<Inst>, counter: nat, index: Index)
    requires VisitAll(a, counter, index).Ok?
    ensures Accepted(a + b, counter, index)
         == |a| + Accepted(b, VisitAll(a, counter, index).value.counter, VisitAll(a, counter, index).value.index)
  {
    if a == [] {
      VisitAllNone(counter, index);
      assert a + b == b;
    } else {
      VisitAllStep(a, counter, index);
      hide Visit, VisitAll;
      var first := Visit(a[0], counter, index).value;
      assert (a + b)[0] == a[0] && (a + b)[1..] == a[1..] + b;
      AcceptedConcat(a[1..], b, first.counter, first.index);
    }
  }

  /** The qubits a walk records, also one that ends in an error. */
  function Walked(insts: seq<Inst>): seq<nat> {
    Measured(insts[..Accepted(insts, 0, map[])])
  }

  lemma WalkedAll(insts: seq<Inst>)
    requires VisitAll(insts, 0, map[]).Ok?
    ensures Walked(insts) == Measured(insts)
  {
    assert insts[..|insts|] == insts;
  }

  // ----- the table of measured qubits, by kernel number -----

  function Names(functions: seq<KernelInput>): seq<string> {
    seq(|functions|, i requires 0 <= i < |functions| => functions[i].name)
  }

  function Entry(supports: Supports, k: nat): seq<nat> {
    if k in supports then supports[k] else []
  }

  predicate AllAccepted(functions: seq<KernelInput>) {
    forall k :: 0 <= k < |functions| ==> VisitAll(functions[k].insts, 0, map[]).Ok?
  }

  lemma AllAcceptedIff(functions: seq<KernelInput>)
    ensures AllAccepted(functions) <==> forall k :: 0 <= k < |functions| ==> AllSupported(functions[k].insts)
  {
    hide VisitAll, AllSupported;
    forall k | 0 <= k < |functions|
      ensures VisitAll(functions[k].insts, 0, map[]).Ok? <==> AllSupported(functions[k].insts)
    {
      VisitAllAcceptsIff(functions[k].insts, 0, map[]);
    }
  }

  /** The table after walking the first n kernels of a job: map::insert keeps an old entry, and what
      the walk records is appended to it. */
  function AfterFirst(supports: Supports, functions: seq<KernelInput>, n: nat): Supports
    requires n <= |functions|
  {
    if n == 0 then supports
    else
      var before := AfterFirst(supports, functions, n - 1);
      before[n - 1 := Entry(before, n - 1) + Walked(functions[n - 1].insts)]
  }

  function AfterInput(supports: Supports, functions: seq<KernelInput>): Supports {
    AfterFirst(supports, functions, |functions|)
  }

  /** The table a job should have: one entry per kernel, listing its measured qubits. */
  function Table(functions: seq<KernelInput>): Supports {
    map k: nat | 0 <= k < |functions| :: Measured(functions[k].insts)
  }

  lemma {:induction false} AfterFirstEntry(supports: Supports, functions: seq<KernelInput>, n: nat, k: nat)
    requires n <= |functions|
    ensures k in AfterFirst(supports, functions, n) <==> k in supports || k < n
    ensures Entry(AfterFirst(supports, functions, n), k)
         == if k < n then Entry(supports, k) + Walked(functions[k].insts) else Entry(supports, k)
  {
    hide Walked;
    if n > 0 {
      AfterFirstEntry(supports, functions, n - 1, k);
    }
  }

  /** Every kernel's measured qubits are appended to what the table held for its number; entries
      for larger numbers stay. */
  lemma AfterInputEntries(supports: Supports, functions: seq<KernelInput>)
    requires AllAccepted(functions)
    ensures forall k: nat :: k in AfterInput(supports, functions) <==> k in supports || k < |functions|
    ensures forall k: nat :: Entry(AfterInput(supports, functions), k)
                          == if k < |functions| then Entry(supports, k) + Measured(functions[k].insts)
                             else Entry(supports, k)
  {
    hide Measured, Walked, AfterFirst, Entry, VisitAll;
    forall k: nat
      ensures k in AfterInput(supports, functions) <==> k in supports || k < |functions|
      ensures Entry(AfterInput(supports, functions), k)
           == if k < |functions| then Entry(supports, k) + Measured(functions[k].insts) else Entry(supports, k)
    {
      AfterFirstEntry(supports, functions, |functions|, k);
      if k < |functions| {
        WalkedAll(functions[k].insts);
      }
    }
  }

  lemma AfterFirstStep(supports: Supports, functions: seq<KernelInput>, n: nat)
    requires n < |functions|
    ensures var before := AfterFirst(supports, functions, n);
            AfterFirst(supports, functions, n + 1) == before[n := Entry(before, n) + Walked(functions[n].insts)]
  {
  }

  lemma AfterNone(supports: Supports, functions: seq<KernelInput>)
    ensures AfterFirst(supports, functions, 0) == supports
  {
  }

  /** Every kernel of a job gets exactly its own measured qubits, whatever the job measures, exactly
      if no entry was left over for its number. */
  lemma OwnSupportsIff(supports: Supports, functions: seq<KernelInput>)
    requires AllAccepted(functions)
    ensures (forall k: nat :: k < |functions| ==>
               Entry(AfterInput(supports, functions), k) == Measured(functions[k].insts))
            <==> (forall k: nat :: k < |functions| ==> Entry(supports, k) == [])
  {
    AfterInputEntries(supports, functions);
    hide AfterInput, Entry, Measured, AllAccepted;
    forall k: nat | k < |functions|
      ensures Entry(AfterInput(supports, functions), k) == Measured(functions[k].insts) <==> Entry(supports, k) == []
    {
      AddsNothingIff(Entry(supports, k), Measured(functions[k].insts));
    }
  }

  lemma EmptyGivesTable(functions: seq<KernelInput>)
    requires AllAccepted(functions)
    ensures AfterInput(map[], functions) == Table(functions)
  {
    hide AfterInput, Entry, Measured, AllAccepted;
    AfterInputEntries(map[], functions);
    var after := AfterInput(map[], functions);
    forall k: nat | k < |functions|
      ensures after[k] == Measured(functions[k].insts)
    {
      EmptyHasNoEntry(k);
      EntryIs(after, k);
      NothingAdded(Measured(functions[k].insts));
    }
  }

  lemma EmptyHasNoEntry(k: nat)
    ensures Entry(map[], k) == []
  {
  }

  lemma EntryIs(supports: Supports, k: nat)
    requires k in supports
    ensures Entry(supports, k) == supports[k]
  {
  }

  lemma NothingAdded(s: seq<nat>)
    ensures [] + s == s
  {
  }

  // ----- whole runs -----

  /** What happens to the table: the walk of the first `entered` kernels of a job, the last of them
      perhaps up to an error, and the clearing after a job's results were decoded. A job that fails
      after its walk, for instance because its response is an error, clears nothing. */
  datatype Event = Enter(job: seq<KernelInput>, entered: nat) | Clear

  predicate ValidRun(run: seq<Event>) {
    forall i :: 0 <= i < |run| && run[i].Enter? ==> run[i].entered <= |run[i].job|
  }

  function TableAfter(run: seq<Event>): Supports
    requires ValidRun(run)
  {
    if run == [] then map[]
    else
      var n := |run| - 1;
      match run[n]
      case Clear => map[]
      case Enter(job, entered) => AfterFirst(TableAfter(run[..n]), job, entered)
  }

  lemma ValidPrefix(run: seq<Event>)
    requires run != [] && ValidRun(run)
    ensures ValidRun(run[..|run| - 1])
  {
  }

  lemma TableStep(run: seq<Event>, e: Event)
    requires ValidRun(run) && (e.Enter? ==> e.entered <= |e.job|)
    ensures ValidRun(run + [e])
    ensures TableAfter(run + [e]) == if e.Clear? then map[] else AfterFirst(TableAfter(run), e.job, e.entered)
  {
    assert (run + [e])[..|run|] == run;
  }

  /** The position after the last Clear. */
  function LastClear(run: seq<Event>): (n: nat)
    ensures n <= |run|
  {
    if run == [] then 0
    else if run[|run| - 1].Clear? then |run|
    else LastClear(run[..|run| - 1])
  }

  /** No job since the last Clear recorded a qubit for kernel number k. */
  predicate NothingLeft(run: seq<Event>, k: nat)
    requires ValidRun(run)
  {
    forall i :: LastClear(run) <= i < |run| && run[i].Enter? && k < run[i].entered ==>
      Walked(run[i].job[k].insts) == []
  }

  lemma {:induction false} EntryEmptyIff(run: seq<Event>, k: nat)
    requires ValidRun(run)
    ensures Entry(TableAfter(run), k) == [] <==> NothingLeft(run, k)
    decreases |run|
  {
    if run != [] && run[|run| - 1].Enter? {
      var n := |run| - 1;
      var before, job, entered := run[..n], run[n].job, run[n].entered;
      ValidPrefix(run);
      EntryEmptyIff(before, k);
      AfterFirstEntry(TableAfter(before), job, entered, k);
      hide Walked, AfterFirst, Entry;
      assert LastClear(run) == LastClear(before);
      assert forall i :: 0 <= i < n ==> before[i] == run[i];
      assert NothingLeft(run, k) <==> NothingLeft(before, k) && (k < entered ==> Walked(job[k].insts) == []);
      if k < entered {
        EmptySum(Entry(TableAfter(before), k), Walked(job[k].insts));
      }
    }
  }

  lemma EmptySum(a: seq<nat>, b: seq<nat>)
    ensures a + b == [] <==> a == [] && b == []
  {
    assert |a + b| == |a| + |b|;
  }

  /** After any run, a job is decoded with exactly the qubits that its own kernels measure if and
      only if no job since the last Clear recorded a qubit for one of its kernel numbers. */
  lemma OwnSupportsAfterRunIff(run: seq<Event>, next: seq<KernelInput>)
    requires ValidRun(run) && AllAccepted(next)
    ensures ValidRun(run + [Enter(next, |next|)])
    ensures (forall k: nat :: k < |next| ==>
               Entry(TableAfter(run + [Enter(next, |next|)]), k) == Measured(next[k].insts))
            <==> (forall k: nat :: k < |next| ==> NothingLeft(run, k))
  {
    hide Entry, Measured, AfterFirst, NothingLeft, AllAccepted;
    TableStep(run, Enter(next, |next|));
    OwnSupportsIff(TableAfter(run), next);
    forall k: nat | k < |next|
      ensures Entry(TableAfter(run), k) == [] <==> NothingLeft(run, k)
    {
      EntryEmptyIff(run, k);
    }
  }

  /** The same kernel again after a job whose results were never decoded: its qubits count twice. */
  lemma FailedJobDoublesSupports(kernel: KernelInput)
    requires VisitAll(kernel.insts, 0, map[]).Ok?
    ensures var run := [Enter([kernel], 1), Enter([kernel], 1)];
            ValidRun(run) && Entry(TableAfter(run), 0) == Measured(kernel.insts) + Measured(kernel.insts)
  {
    hide VisitAll, Measured, Walked, AfterFirst;
    var e := Enter([kernel], 1);
    assert [e] == [] + [e] && [e, e] == [e] + [e];
    TableStep([], e);
    TableStep([e], e);
    AfterFirstEntry(map[], [kernel], 1, 0);
    AfterFirstEntry(TableAfter([e]), [kernel], 1, 0);
    WalkedAll(kernel.insts);
    assert [] + Measured(kernel.insts) == Measured(kernel.insts);
  }

  /** A run of jobs that were all decoded. */
  function Decoded(jobs: seq<seq<KernelInput>>): (run: seq<Event>)
    ensures ValidRun(run) && (run != [] ==> run[|run| - 1].Clear?)
  {
    if jobs == [] then []
    else
      var n := |jobs| - 1;
      Decoded(jobs[..n]) + [Enter(jobs[n], |jobs[n]|), Clear]
  }

  /** If every job was decoded, the table is empty between jobs, and a job that waits for its
      results has exactly its own measured qubits. */
  lemma SupportsFollowJobs(jobs: seq<seq<KernelInput>>, next: seq<KernelInput>)
    requires AllAccepted(next)
    ensures TableAfter(Decoded(jobs)) == map[]
    ensures ValidRun(Decoded(jobs) + [Enter(next, |next|)])
    ensures TableAfter(Decoded(jobs) + [Enter(next, |next|)]) == Table(next)
  {
    TableStep(Decoded(jobs), Enter(next, |next|));
    EmptyGivesTable(next);
  }

  // ----- measurements and classical bits -----

  function MeasureOps(ops: seq<Op>): seq<Op> {
    if ops == [] then [] else (if ops[0].clbits != [] then [ops[0]] else []) + MeasureOps(ops[1..])
  }

  lemma {:induction false} MeasureOpsAppend(a: seq<Op>, b: seq<Op>)
    ensures MeasureOps(a + b) == MeasureOps(a) + MeasureOps(b)
  {
    if a == [] {
      assert a + b == b;
    } else {
      assert (a + b)[1..] == a[1..] + b;
      MeasureOpsAppend(a[1..], b);
    }
  }

  function Numbered(qubits: seq<nat>, counter: nat): seq<Op> {
    seq(|qubits|, i requires 0 <= i < |qubits| => Op("measure", [], [qubits[i]], [counter + i]))
  }

  lemma VisitMeasures(inst: Inst, counter: nat, index: Index)
    requires Visit(inst, counter, index).Ok?
    ensures var em := Visit(inst, counter, index).value;
            && MeasureOps(em.ops) == Numbered(Measured([inst]), counter)
            && em.counter == counter + |Measured([inst])|
  {
    var ops := Visit(inst, counter, index).value.ops;
    MeasuredOne(inst);
    hide Measured, MeasureOps;
    if inst.Measure? {
      MeasureOpsOne(ops[0]);
      assert ops == [ops[0]] && Numbered([inst.q], counter) == ops;
    } else {
      assert Numbered([], counter) == [];
      if inst.Swap? {
        MeasureOpsOfThree(ops[0], ops[1], ops[2]);
        assert ops == [ops[0], ops[1], ops[2]];
      } else if IsGate(inst) {
        MeasureOpsOne(ops[0]);
        assert ops == [ops[0]];
      } else {
        MeasureOpsOfNone();
      }
    }
  }

  lemma MeasuredOne(inst: Inst)
    ensures Measured([inst]) == if inst.Measure? then [inst.q] else []
  {
    assert [inst][1..] == [];
  }

  lemma MeasureOpsOfNone()
    ensures MeasureOps([]) == []
  {
  }

  lemma MeasureOpsOne(op: Op)
    ensures MeasureOps([op]) == if op.clbits != [] then [op] else []
  {
    assert [op][1..] == [];
  }

  lemma MeasureOpsOfThree(a: Op, b: Op, c: Op)
    requires a.clbits == b.clbits == c.clbits == []
    ensures MeasureOps([a, b, c]) == []
  {
    assert [a, b, c][1..] == [b, c] && [b, c][1..] == [c] && [c][1..] == [];
    assert MeasureOps([c]) == [] && MeasureOps([b, c]) == [];
  }

  lemma NumberedAppend(a: seq<nat>, b: seq<nat>, counter: nat)
    ensures Numbered(a + b, counter) == Numbered(a, counter) + Numbered(b, counter + |a|)
  {
  }

  /** The k-th measured qubit is measured into classical bit k: the table order is the bit order. */
  lemma {:induction false} MeasurementsAreNumbered(insts: seq<Inst>, counter: nat, index: Index)
    requires VisitAll(insts, counter, index).Ok?
    ensures MeasureOps(VisitAll(insts, counter, index).value.ops) == Numbered(Measured(insts), counter)
  {
    if insts == [] {
      assert Numbered(Measured(insts), counter) == [];
    } else {
      VisitMeasures(insts[0], counter, index);
      hide Visit, Numbered, MeasureOps, Measured;
      var first := Visit(insts[0], counter, index).value;
      MeasurementsAreNumbered(insts[1..], first.counter, first.index);
      NumberedAppend(Measured([insts[0]]), Measured(insts[1..]), counter);
      MeasureOpsAppend(first.ops, VisitAll(insts[1..], first.counter, first.index).value.ops);
      MeasuredAppend([insts[0]], insts[1..]);
      assert [insts[0]] + insts[1..] == insts;
    }
  }

  /** The bit numbered k by the visitor is the k-th of the table, and bits in that order are decoded
      to their own qubits exactly if the circuit measures in increasing order. */
  lemma OwnOutcomesIffInOrder(insts: seq<Inst>, size: nat)
    requires VisitAll(insts, 0, map[]).Ok?
    requires Distinct(Measured(insts)) && InRange(Measured(insts), size) && |Measured(insts)| <= size
    ensures MeasureOps(VisitAll(insts, 0, map[]).value.ops) == Numbered(Measured(insts), 0)
    ensures ShowsOwnOutcomes(Measured(insts), size) <==> StrictlyAscending(Measured(insts))
  {
    MeasurementsAreNumbered(insts, 0, map[]);
    ShowsOwnOutcomesIff(Measured(insts), size);
  }

  /** The walk over one kernel: the visitor is shown every instruction, and measured qubits are
      appended to the kernel's entry in the table. */
  method WalkKernel(visitor: OpenQasmVisitor.Visitor, entry: seq<nat>, insts: seq<Inst>)
    returns (ok: bool, supports: seq<nat>)
    requires visitor.Valid() && visitor.pieces == [] && visitor.ops == []
    requires visitor.classicalBitCounter == 0 && visitor.qubitToClassicalBitIndex == map[]
    modifies visitor
    ensures ok <==> AllSupported(insts)
    ensures ok <==> VisitAll(insts, 0, map[]).Ok?
    ensures supports == entry + Walked(insts)
    ensures ok ==> visitor.Valid()
                   && visitor.pieces == VisitAll(insts, 0, map[]).value.pieces
                   && visitor.ops == VisitAll(insts, 0, map[]).value.ops
  {
    hide Text, OpsText, Visit, VisitAll, Accepted, Supported, AllSupported;
    VisitAllAcceptsIff(insts, 0, map[]);
    ghost var soFar := Emission([], [], 0, map[]);
    VisitAllNone(0, map[]);
    assert insts[..0] == [];
    supports := entry;
    assert entry + [] == entry;
    var i := 0;
    while i < |insts|
      invariant i <= |insts| && visitor.Valid()
      invariant VisitAll(insts[..i], 0, map[]) == Ok(soFar)
      invariant visitor.pieces == soFar.pieces && visitor.ops == soFar.ops
      invariant visitor.classicalBitCounter == soFar.counter && visitor.qubitToClassicalBitIndex == soFar.index
      invariant supports == entry + Measured(insts[..i])
    {
      var nextInst := insts[i];
      VisitAllConcat(insts[..i], insts[i..], 0, map[]);
      AcceptedConcat(insts[..i], insts[i..], 0, map[]);
      assert insts[..i] + insts[i..] == insts;
      VisitAllConcat(insts[..i], [nextInst], 0, map[]);
      assert insts[..i] + [nextInst] == insts[..i + 1];
      VisitAllOne(nextInst, soFar.counter, soFar.index);
      MeasuredAppend(insts[..i], [nextInst]);
      assert [nextInst][1..] == [];
      ghost var step := Visit(nextInst, soFar.counter, soFar.index);
      if step.Err? {
        VisitAllFails(insts[i..], soFar.counter, soFar.index);
        AcceptsNone(insts[i..], soFar.counter, soFar.index);
      }
      ok := visitor.Accept(nextInst);
      if !ok {
        return;
      }
      assert Measured(insts[..i]) + [] == Measured(insts[..i]);
      if nextInst.Measure? {
        assert (entry + Measured(insts[..i])) + [nextInst.q] == entry + (Measured(insts[..i]) + [nextInst.q]);
        supports := supports + [nextInst.q];
      }
      soFar := Then(soFar, step).value;
      i := i + 1;
    }
    assert insts[..i] == insts;
    WalkedAll(insts);
    return true, supports;
  }

  lemma AcceptsNone(insts: seq<Inst>, counter: nat, index: Index)
    requires insts != [] && Visit(insts[0], counter, index).Err?
    ensures Accepted(insts, counter, index) == 0
  {
  }
}
