/** The remote accelerator: per-kernel tables of measured qubits filled when a job is prepared and
    used, then cleared, when its response is decoded. */
module IBMAccelerator {
  import opened Wrappers
  import opened GateIR
  import opened OpenQasm
  import opened OpenQasmText
  import opened Emission
  import opened BitStrings
  import opened Histograms
  import opened KernelWalk
  import opened JobText
  import opened Lexing
  import OpenQasmVisitor

  // ----- kernel names over whole runs -----

  /** A kernel's name is appended after its walk, so not for the one at which a walk failed. */
  function NamesOf(e: Event): seq<string>
    requires e.Enter? ==> e.entered <= |e.job|
  {
    match e
    case Clear => []
    case Enter(job, n) =>
      if n > 0 && VisitAll(job[n - 1].insts, 0, map[]).Err? then Names(job[..n - 1]) else Names(job[..n])
  }

  /** The names are never cleared. */
  function NamesAfter(run: seq<Event>): seq<string>
    requires ValidRun(run)
  {
    if run == [] then []
    else
      ValidPrefix(run);
      NamesAfter(run[..|run| - 1]) + NamesOf(run[|run| - 1])
  }

  lemma NamesStep(run: seq<Event>, e: Event)
    requires ValidRun(run) && (e.Enter? ==> e.entered <= |e.job|)
    ensures ValidRun(run + [e]) && NamesAfter(run + [e]) == NamesAfter(run) + NamesOf(e)
  {
    assert (run + [e])[..|run|] == run;
  }

  lemma NamesOfJob(run: seq<Event>, next: seq<KernelInput>)
    requires ValidRun(run) && AllAccepted(next)
    ensures ValidRun(run + [Enter(next, |next|)])
    ensures NamesAfter(run + [Enter(next, |next|)]) == NamesAfter(run) + Names(next)
  {
    NamesStep(run, Enter(next, |next|));
    assert next[..|next|] == next;
  }

  /** A job that fails at a kernel leaves the names of the kernels before it, and not that one's. */
  lemma FailedKernelIsNotNamed(run: seq<Event>, job: seq<KernelInput>, n: nat)
    requires ValidRun(run) && n < |job| && !AllSupported(job[n].insts)
    ensures ValidRun(run + [Enter(job, n + 1)])
    ensures |NamesAfter(run + [Enter(job, n + 1)])| == |NamesAfter(run)| + n
    ensures forall i :: 0 <= i < n ==> NamesAfter(run + [Enter(job, n + 1)])[|NamesAfter(run)| + i] == job[i].name
  {
    VisitAllAcceptsIff(job[n].insts, 0, map[]);
    hide VisitAll, AllSupported, NamesAfter;
    var e := Enter(job, n + 1);
    NamesStep(run, e);
    assert NamesOf(e) == Names(job[..n]);
    hide NamesOf, Names;
    NamesAre(job, n);
  }

  lemma NamesAre(job: seq<KernelInput>, n: nat)
    requires n <= |job|
    ensures |Names(job[..n])| == n && forall i :: 0 <= i < n ==> Names(job[..n])[i] == job[i].name
  {
  }

  /** All buffers of a job carry the names of its own kernels if and only if its list of names is a
      prefix of all names so far, its own included. */
  lemma NamesAreOwnIff(run: seq<Event>, next: seq<KernelInput>)
    requires ValidRun(run) && AllAccepted(next)
    ensures ValidRun(run + [Enter(next, |next|)]) && |NamesAfter(run + [Enter(next, |next|)])| >= |next|
    ensures (forall i :: 0 <= i < |next| ==> NamesAfter(run + [Enter(next, |next|)])[i] == next[i].name)
            <==> Names(next) <= NamesAfter(run) + Names(next)
  {
    NamesOfJob(run, next);
    hide NamesAfter, AllAccepted;
    var all := NamesAfter(run) + Names(next);
    assert Names(next) <= all <==> Names(next) == all[..|next|];
    assert (forall i :: 0 <= i < |next| ==> all[i] == next[i].name) ==> all[..|next|] == Names(next);
  }

  /** The names an earlier job left come first: a later job's buffers take them. */
  lemma NamesAreStale(run: seq<Event>, next: seq<KernelInput>, i: nat)
    requires ValidRun(run) && AllAccepted(next) && i < |NamesAfter(run)|
    ensures ValidRun(run + [Enter(next, |next|)]) && i < |NamesAfter(run + [Enter(next, |next|)])|
    ensures NamesAfter(run + [Enter(next, |next|)])[i] == NamesAfter(run)[i]
  {
    NamesOfJob(run, next);
  }

  /** After a job that was decoded, all buffers of a job that is no longer carry its names. */
  lemma SecondJobIsMisnamed(first: seq<KernelInput>, second: seq<KernelInput>)
    requires AllAccepted(first) && AllAccepted(second) && |second| <= |first|
    ensures var run := [Enter(first, |first|), Clear, Enter(second, |second|)];
            && ValidRun(run) && |NamesAfter(run)| == |first| + |second|
            && forall i :: 0 <= i < |second| ==> NamesAfter(run)[i] == first[i].name
  {
    hide AllAccepted;
    var a, b := Enter(first, |first|), Enter(second, |second|);
    assert [a] == [] + [a] && [a, Clear] == [a] + [Clear] && [a, Clear, b] == [a, Clear] + [b];
    NamesOfJob([], first);
    NamesStep([a], Clear);
    NamesOfJob([a, Clear], second);
    assert NamesAfter([]) == [] && [] + Names(first) + [] == Names(first);
  }

  // ----- decoding a response -----

  predicate IsSpaceChar(c: char) {
    c == ' ' || '\t' <= c <= '\r'
  }

  function Stripped(s: string): string {
    if s == "" then "" else (if IsSpaceChar(s[0]) then "" else [s[0]]) + Stripped(s[1..])
  }

  lemma {:induction false} StrippedAppend(a: string, b: string)
    ensures Stripped(a + b) == Stripped(a) + Stripped(b)
  {
    if a == "" {
      assert a + b == b;
    } else {
      assert (a + b)[1..] == a[1..] + b;
      StrippedAppend(a[1..], b);
    }
  }

  method StripSpaces(s: string) returns (r: string)
    ensures r == Stripped(s)
  {
    r := "";
    assert s[..0] == "";
    for i := 0 to |s|
      invariant r == Stripped(s[..i])
    {
      StrippedAppend(s[..i], [s[i]]);
      assert s[..i] + [s[i]] == s[..i + 1] && [s[i]][1..] == "";
      if !IsSpaceChar(s[i]) {
        r := r + [s[i]];
      }
    }
    assert s[..|s|] == s;
  }

  // ----- what stripping means -----

  /** The white space of the C locale. */
  predicate IsBlank(c: char) {
    c == ' ' || c == '\t' || c == '\n' || c == '\r' || c as int == 11 || c as int == 12
  }

  predicate AllBlank(s: string) {
    forall i :: 0 <= i < |s| ==> IsBlank(s[i])
  }

  predicate NoBlank(s: string) {
    forall i :: 0 <= i < |s| ==> !IsBlank(s[i])
  }

  function Blanks(s: string): nat {
    if s == "" then 0 else (if IsBlank(s[0]) then 1 else 0) + Blanks(s[1..])
  }

  /** The parts that are not blank, joined. */
  function Joined(parts: seq<string>): string {
    if parts == [] then "" else (if AllBlank(parts[0]) then "" else parts[0]) + Joined(parts[1..])
  }

  lemma {:induction false} BlankIsStripped(s: string)
    requires AllBlank(s)
    ensures Stripped(s) == ""
  {
    if s != "" {
      BlankIsStripped(s[1..]);
    }
  }

  /** A string without white space is unchanged. */
  lemma {:induction false} StrippedUnchanged(s: string)
    requires NoBlank(s)
    ensures Stripped(s) == s
  {
    if s != "" {
      StrippedUnchanged(s[1..]);
      assert s == [s[0]] + s[1..];
    }
  }

  /** Registers joined by any white space are stripped to their concatenation. */
  lemma {:induction false} StrippedIsJoined(parts: seq<string>)
    requires forall i :: 0 <= i < |parts| ==> AllBlank(parts[i]) || NoBlank(parts[i])
    ensures Stripped(Concat(parts)) == Joined(parts)
  {
    hide AllBlank, NoBlank, Stripped;
    if parts == [] {
      assert Stripped("") == "" by { StrippedNothing(); }
    } else {
      StrippedIsJoined(parts[1..]);
      StrippedAppend(parts[0], Concat(parts[1..]));
      if AllBlank(parts[0]) {
        BlankIsStripped(parts[0]);
      } else {
        StrippedUnchanged(parts[0]);
      }
    }
  }

  lemma StrippedNothing()
    ensures Stripped("") == ""
  {
  }

  lemma {:induction false} StrippedCounts(s: string)
    ensures Blanks(s) <= |s| && |Stripped(s)| == |s| - Blanks(s)
    ensures Ones(Stripped(s)) == Ones(s)
  {
    if s != "" {
      StrippedCounts(s[1..]);
      var c, rest := s[0], s[1..];
      assert s == [c] + rest;
      OnesConcat([c], rest);
      OnesConcat([c], Stripped(rest));
      OneChar(c);
      assert "" + Stripped(rest) == Stripped(rest);
    }
  }

  lemma OneChar(c: char)
    ensures Ones([c]) == (if c == '1' then 1 else 0) && (IsSpaceChar(c) <==> IsBlank(c)) && !IsBlank('1')
    ensures Stripped([c]) == if IsBlank(c) then "" else [c]
  {
    assert [c][1..] == "" && Stripped("") == "";
  }

  /** How an outcome of a kernel with these supports is recorded when a job has several kernels. */
  function Decoded(isSimulator: bool, supports: seq<nat>, size: nat, outcome: string): string {
    if isSimulator then
      var bits := Stripped(outcome);
      if Placeable(bits, supports, size) then Decode(bits, supports, size) else bits
    else Mask(Trim(outcome, size), supports)
  }

  ghost function Decoder(isSimulator: bool, supports: seq<nat>, size: nat): string -> string {
    outcome => Decoded(isSimulator, supports, size, outcome)
  }

  /** How an outcome is recorded when a job has one kernel: neither scattered, trimmed nor masked. */
  function Undecoded(isSimulator: bool, outcome: string): string {
    if isSimulator then Stripped(outcome) else outcome
  }

  ghost function SingleDecoder(isSimulator: bool): string -> string {
    outcome => Undecoded(isSimulator, outcome)
  }

  /** For one kernel the record differs from that in a larger job except in these cases. */
  lemma SingleKernelAgreesIff(isSimulator: bool, supports: seq<nat>, size: nat, outcome: string)
    requires isSimulator ==> Placeable(Stripped(outcome), supports, size)
    ensures Undecoded(isSimulator, outcome) == Decoded(isSimulator, supports, size, outcome)
            <==> if isSimulator then |outcome| - Blanks(outcome) >= size
                 else |outcome| <= size
                      && forall i :: 0 <= i < |outcome| && |outcome| - 1 - i !in supports ==> outcome[i] == '0'
  {
    if isSimulator {
      SimulatorAgreesIff(supports, size, outcome);
    } else if size < |outcome| {
      assert |Mask(Trim(outcome, size), supports)| == size;
    }
  }

  lemma SimulatorAgreesIff(supports: seq<nat>, size: nat, outcome: string)
    requires Placeable(Stripped(outcome), supports, size)
    ensures Undecoded(true, outcome) == Decoded(true, supports, size, outcome) <==> |outcome| - Blanks(outcome) >= size
  {
    hide Stripped, Blanks, Sort, Scattered, Ones;
    StrippedCounts(outcome);
    var bits := Stripped(outcome);
    if |bits| < size {
      SortInRange(supports, size);
      assert |Decode(bits, supports, size)| == size;
    }
  }

  /** On a simulator the registers, joined, are scattered: the k-th bit from the right stands at the
      k-th smallest measured qubit, '0' everywhere else. */
  lemma SimulatorRecord(parts: seq<string>, supports: seq<nat>, size: nat)
    requires forall i :: 0 <= i < |parts| ==> AllBlank(parts[i]) || NoBlank(parts[i])
    requires |Joined(parts)| == |supports| < size && InRange(supports, size) && Distinct(supports)
    ensures var d, s, bits := Decoder(true, supports, size)(Concat(parts)), Sort(supports), Joined(parts);
            && |d| == size && |s| == |bits| && InRange(s, size)
            && (forall q :: 0 <= q < size && q !in supports ==> d[size - 1 - q] == '0')
            && (forall k :: 0 <= k < |s| ==> d[size - 1 - s[k]] == bits[|bits| - 1 - k])
  {
    hide Stripped, Joined, Sort, Decode, Gather, StrictlyAscending;
    StrippedIsJoined(parts);
    ScatterIsExact(Joined(parts), supports, size);
  }

  /** On hardware the bits of the measured qubits of the buffer are kept, '0' stands everywhere else. */
  lemma HardwareRecord(outcome: string, supports: seq<nat>, size: nat)
    ensures var d := Decoder(false, supports, size)(outcome);
            && |d| == (if |outcome| < size then |outcome| else size)
            && forall q :: 0 <= q < |d| ==>
                 d[|d| - 1 - q] == if q in supports then outcome[|outcome| - 1 - q] else '0'
  {
  }

  /** With one kernel the registers are joined on a simulator, and nothing is done on hardware. */
  lemma SingleRecord(parts: seq<string>, outcome: string)
    requires forall i :: 0 <= i < |parts| ==> AllBlank(parts[i]) || NoBlank(parts[i])
    ensures SingleDecoder(true)(Concat(parts)) == Joined(parts) && SingleDecoder(false)(outcome) == outcome
  {
    hide Stripped;
    StrippedIsJoined(parts);
  }

  function Sign(ones: nat): int {
    if ones % 2 == 0 then 1 else -1
  }

  /** On hardware the parity-signed sum over the recorded histogram is the signed sum of the raw
      counts by the parity of the measured qubits, and no shot is lost. */
  lemma PhysicalParity(counts: Counts, supports: seq<nat>, size: nat)
    ensures var h := Collected(map[], counts, Decoder(false, supports, size));
            && Sum(h, k => Sign(Ones(k))) == CountsSum(counts, k => Sign(MeasuredOnes(k, supports, size)))
            && Sum(h, k => 1) == CountsSum(counts, k => 1)
  {
    var f := Decoder(false, supports, size);
    var signed, one := (k: string) => Sign(Ones(k)), (k: string) => 1;
    var raw := (k: string) => Sign(MeasuredOnes(k, supports, size));
    CollectedSum(map[], counts, f, signed);
    CollectedSum(map[], counts, f, one);
    forall i | 0 <= i < |counts|
      ensures (k => signed(f(k)))(counts[i].0) == raw(counts[i].0)
    {
      MaskedOnes(counts[i].0, supports, size);
    }
    CountsSumSame(counts, k => signed(f(k)), raw);
    CountsSumSame(counts, k => one(f(k)), one);
  }

  /** The same for a simulator whose outcomes have one character per measured qubit, and white space. */
  lemma SimulatorParity(counts: Counts, supports: seq<nat>, size: nat)
    requires Distinct(supports) && InRange(supports, size)
    requires forall i :: 0 <= i < |counts| ==> |counts[i].0| - Blanks(counts[i].0) == |supports|
    ensures var h := Collected(map[], counts, Decoder(true, supports, size));
            && Sum(h, k => Sign(Ones(k))) == CountsSum(counts, k => Sign(Ones(k)))
            && Sum(h, k => 1) == CountsSum(counts, k => 1)
  {
    var f := Decoder(true, supports, size);
    var signed, one := (k: string) => Sign(Ones(k)), (k: string) => 1;
    CollectedSum(map[], counts, f, signed);
    CollectedSum(map[], counts, f, one);
    forall i | 0 <= i < |counts|
      ensures (k => signed(f(k)))(counts[i].0) == signed(counts[i].0)
    {
      StrippedCounts(counts[i].0);
      DecodeKeepsOnes(Stripped(counts[i].0), supports, size);
    }
    CountsSumSame(counts, k => signed(f(k)), signed);
    CountsSumSame(counts, k => one(f(k)), one);
  }

  /** The text is a JSON object with the single field "qasm", whose string is the program of the
      kernel, unless a parameter text has a quote or a backslash or cannot be read back. */
  predicate HoldsProgram(text: string, size: nat, insts: seq<Inst>) {
    var em := VisitAll(insts, 0, map[]);
    em.Ok? && AllPrintable(em.value.pieces) && AllPlain(em.value.pieces) ==>
      ReadEntry(text) == Some(("qasm", Program(size, Text(em.value.pieces))))
  }

  // ----- the accelerator itself -----

  class Accelerator {
    var measurementSupports: Supports
    var kernelNames: seq<string>
    const isSimulator: bool
    ghost var run: seq<Event>

    /** The fields are what the run so far has made of them. */
    ghost predicate Valid()
      reads this
    {
      ValidRun(run) && measurementSupports == TableAfter(run) && kernelNames == NamesAfter(run)
    }

    constructor (isSimulator: bool)
      ensures Valid() && run == [] && this.isSimulator == isSimulator
    {
      measurementSupports := map[];
      kernelNames := [];
      run := [];
      this.isSimulator := isSimulator;
    }

    /** One kernel of a job; what was recorded before an error stays. */
    method PrepareKernel(size: nat, kernelCounter: nat, kernel: KernelInput) returns (ok: bool, text: string)
      modifies this`measurementSupports, this`kernelNames
      ensures ok <==> AllSupported(kernel.insts)
      ensures ok <==> VisitAll(kernel.insts, 0, map[]).Ok?
      ensures ok ==> text == Quoted(OpenQasmVisitor.Preamble(size) + Text(VisitAll(kernel.insts, 0, map[]).value.pieces))
      ensures ok ==> HoldsProgram(text, size, kernel.insts)
      ensures kernelNames == old(kernelNames) + if ok then [kernel.name] else []
      ensures measurementSupports
           == old(measurementSupports)[kernelCounter := Entry(old(measurementSupports), kernelCounter)
                                                        + Walked(kernel.insts)]
    {
      hide Text, VisitAll, Walked, ReadEntry, Program, Escaped, AllPrintable, AllPlain, AllSupported;
      var visitor := new OpenQasmVisitor.Visitor(size, false);
      if kernelCounter !in measurementSupports {
        measurementSupports := measurementSupports[kernelCounter := []];
      }
      var entry;
      ok, entry := WalkKernel(visitor, measurementSupports[kernelCounter], kernel.insts);
      measurementSupports := measurementSupports[kernelCounter := entry];
      assert kernelNames + [] == kernelNames;
      if !ok {
        return false, "";
      }
      var qasmStr := EscapeNewlines(visitor.native);
      text := "{\"qasm\": \"" + qasmStr + "\"}";
      ghost var pieces := VisitAll(kernel.insts, 0, map[]).value.pieces;
      if AllPrintable(pieces) && AllPlain(pieces) {
        EntryHoldsProgram(size, pieces);
      }
      kernelNames := kernelNames + [kernel.name];
    }

    /** Preparing a job: the JSON texts of its kernels' programs, or an error at kernel number
        `entered` - 1, before which the fields were already changed. */
    method ProcessInput(size: nat, functions: seq<KernelInput>)
      returns (ok: bool, texts: seq<string>, ghost entered: nat)
      requires Valid()
      modifies this
      ensures Valid() && run == old(run) + [Enter(functions, entered)] && entered <= |functions|
      ensures ok <==> forall k :: 0 <= k < |functions| ==> AllSupported(functions[k].insts)
      ensures ok <==> AllAccepted(functions)
      ensures ok ==> entered == |functions|
      ensures !ok ==> entered > 0 && VisitAll(functions[entered - 1].insts, 0, map[]).Err?
                      && AllAccepted(functions[..entered - 1])
      ensures ok ==> |texts| == |functions|
                     && forall k :: 0 <= k < |functions| ==>
                          texts[k] == Quoted(OpenQasmVisitor.Preamble(size)
                                             + Text(VisitAll(functions[k].insts, 0, map[]).value.pieces))
      ensures ok ==> forall k :: 0 <= k < |functions| ==> HoldsProgram(texts[k], size, functions[k].insts)
    {
      AllAcceptedIff(functions);
      hide Text, VisitAll, AfterFirst, Walked, TableAfter, NamesAfter, Quoted, AllSupported, HoldsProgram;
      texts := [];
      var kernelCounter := 0;
      assert functions[..0] == [];
      AfterNone(measurementSupports, functions);
      assert kernelNames + Names([]) == kernelNames;
      while kernelCounter < |functions|
        invariant kernelCounter <= |functions| && |texts| == kernelCounter && run == old(run)
        invariant forall k :: 0 <= k < kernelCounter ==> VisitAll(functions[k].insts, 0, map[]).Ok?
        invariant forall k :: 0 <= k < kernelCounter ==>
                    texts[k] == Quoted(OpenQasmVisitor.Preamble(size)
                                       + Text(VisitAll(functions[k].insts, 0, map[]).value.pieces))
        invariant forall k :: 0 <= k < kernelCounter ==> HoldsProgram(texts[k], size, functions[k].insts)
        invariant measurementSupports == AfterFirst(old(measurementSupports), functions, kernelCounter)
        invariant kernelNames == old(kernelNames) + Names(functions[..kernelCounter])
      {
        var kernel := functions[kernelCounter];
        AfterFirstStep(old(measurementSupports), functions, kernelCounter);
        assert Names(functions[..kernelCounter + 1]) == Names(functions[..kernelCounter]) + [kernel.name];
        var text;
        ok, text := PrepareKernel(size, kernelCounter, kernel);
        if !ok {
          entered := kernelCounter + 1;
          TableStep(run, Enter(functions, entered));
          NamesStep(run, Enter(functions, entered));
          run := run + [Enter(functions, entered)];
          return;
        }
        texts := texts + [text];
        kernelCounter := kernelCounter + 1;
      }
      entered := kernelCounter;
      TableStep(run, Enter(functions, entered));
      NamesOfJob(run, functions);
      assert functions[..kernelCounter] == functions;
      run := run + [Enter(functions, entered)];
      return true, texts, entered;
    }

    method DecodeOne(supports: seq<nat>, size: nat, outcome: string) returns (bitStr: string)
      requires isSimulator ==> Placeable(Stripped(outcome), supports, size)
      ensures bitStr == Decoder(isSimulator, supports, size)(outcome)
    {
      if isSimulator {
        bitStr := StripSpaces(outcome);
        bitStr := DecodeSimulator(bitStr, supports, size);
      } else {
        bitStr := TrimAndMask(outcome, supports, size);
      }
    }

    /** Recording the outcomes of kernel i of a job with several kernels. */
    method DecodeCounts(i: nat, size: nat, counts: Counts) returns (h: Histogram)
      requires isSimulator ==>
                 forall j :: 0 <= j < |counts| ==> Placeable(Stripped(counts[j].0), Entry(measurementSupports, i), size)
      ensures h == Collected(map[], counts, Decoder(isSimulator, Entry(measurementSupports, i), size))
    {
      hide Decoder, Placeable, Stripped;
      var supports := if i in measurementSupports then measurementSupports[i] else [];
      ghost var f := Decoder(isSimulator, supports, size);
      h := map[];
      var j := 0;
      assert counts[..0] == [];
      while j < |counts|
        invariant j <= |counts| && h == Collected(map[], counts[..j], f)
      {
        var (bitStr, nOccurrences) := counts[j];
        bitStr := DecodeOne(supports, size, bitStr);
        CollectedSnoc(map[], counts[..j + 1], f);
        assert counts[..j + 1][..j] == counts[..j];
        h := Append(h, bitStr, nOccurrences);
        j := j + 1;
      }
      assert counts[..j] == counts;
    }

    /** Recording the outcomes of a job with one kernel. */
    method RecordSingle(counts: Counts, buffer: Histogram) returns (newBuffer: Histogram)
      ensures newBuffer == Collected(buffer, counts, SingleDecoder(isSimulator))
    {
      newBuffer := buffer;
      ghost var f := SingleDecoder(isSimulator);
      var j := 0;
      assert counts[..0] == [];
      while j < |counts|
        invariant j <= |counts| && newBuffer == Collected(buffer, counts[..j], f)
      {
        var (bitStr, nOccurrences) := counts[j];
        if isSimulator {
          bitStr := StripSpaces(bitStr);
        }
        assert bitStr == f(counts[j].0);
        CollectedSnoc(buffer, counts[..j + 1], f);
        assert counts[..j + 1][..j] == counts[..j];
        newBuffer := Append(newBuffer, bitStr, nOccurrences);
        j := j + 1;
      }
      assert counts[..j] == counts;
    }

    /** Decoding a response; None is an error response, after which nothing is cleared. With one kernel
        the outcomes go to the caller's buffer undecoded; with several each kernel gets a buffer of
        its own, named from kernelNames. */
    method ProcessResponse(size: nat, response: Option<seq<Counts>>, buffer: Histogram)
      returns (ok: bool, newBuffer: Histogram, buffers: seq<(string, Histogram)>)
      requires Valid()
      requires response.Some? && |response.value| != 1 ==> |response.value| <= |kernelNames|
      requires response.Some? && |response.value| != 1 && isSimulator ==>
                 forall i, j :: 0 <= i < |response.value| && 0 <= j < |response.value[i]| ==>
                   Placeable(Stripped(response.value[i][j].0), Entry(measurementSupports, i), size)
      modifies this
      ensures Valid() && run == old(run) + (if ok then [Clear] else [])
      ensures ok <==> response.Some?
      ensures !ok ==> newBuffer == buffer && buffers == []
      ensures ok && |response.value| == 1 ==>
                buffers == [] && newBuffer == Collected(buffer, response.value[0], SingleDecoder(isSimulator))
      ensures ok && |response.value| != 1 ==>
                newBuffer == buffer && |buffers| == |response.value|
                && forall i :: 0 <= i < |response.value| ==>
                     buffers[i] == (NamesAfter(old(run))[i],
                                    Collected(map[], response.value[i],
                                              Decoder(isSimulator, Entry(TableAfter(old(run)), i), size)))
    {
      hide TableAfter, NamesAfter, Decoder, SingleDecoder, Placeable, Stripped, Collected;
      newBuffer, buffers := buffer, [];
      if response == None {
        assert run + [] == run;
        return false, newBuffer, buffers;
      }
      var results := response.value;
      if |results| == 1 {
        newBuffer := RecordSingle(results[0], buffer);
      } else {
        for i := 0 to |results|
          invariant |buffers| == i && Valid() && run == old(run)
          invariant forall k :: 0 <= k < i ==>
                      buffers[k] == (kernelNames[k],
                                     Collected(map[], results[k],
                                               Decoder(isSimulator, Entry(measurementSupports, k), size)))
        {
          var h := DecodeCounts(i, size, results[i]);
          buffers := buffers + [(kernelNames[i], h)];
        }
      }
      measurementSupports := map[];
      TableStep(run, Clear);
      NamesStep(run, Clear);
      assert kernelNames + [] == kernelNames;
      run := run + [Clear];
      return true, newBuffer, buffers;
    }
  }
}
