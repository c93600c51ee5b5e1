/** From a circuit to the decoded string: running what is emitted, reading the registers with c0
    rightmost as the back ends return them, and decoding with the qubits the walk recorded. */
module Outcomes {
  import opened Wrappers
  import opened GateIR
  import opened Quantum
  import opened OpenQasm
  import opened Emission
  import opened TranslationMeaning
  import opened BitStrings
  import opened KernelWalk

  /** The registers c0 to c(k-1) as a string; a missing one reads 0. */
  function RegisterString(regs: map<nat, bool>, k: nat): (r: string)
    ensures |r| == k
  {
    seq(k, j requires 0 <= j < k => BitStrings.Bit(k - 1 - j in regs && regs[k - 1 - j]))
  }

  /** The decoded string has every measured qubit's recorded outcome at that qubit's place. */
  ghost predicate ShowsRecord(t: Trig, oracle: nat -> bool, n: nat, insts: seq<Inst>, s: State, size: nat)
    requires |Measured(insts)| <= size && InRange(Measured(insts), size)
  {
    var em := VisitAll(insts, 0, map[]);
    em.Ok? &&
    var end := Exec(t, oracle, n, em.value.pieces, QMachine(s, map[], 0));
    end.Some? && end.value.measured == |Measured(insts)| &&
    var decoded := Decode(RegisterString(end.value.regs, end.value.measured), Measured(insts), size);
    var record := Run(t, oracle, n, insts, Machine(s, map[], 0)).record;
    && |decoded| == size
    && forall k: nat :: k < |Measured(insts)| ==> ShowsAt(decoded, record, Measured(insts)[k])
  }

  predicate ShowsAt(decoded: string, record: map<nat, bool>, q: nat) {
    q < |decoded| && q in record && decoded[|decoded| - 1 - q] == BitStrings.Bit(record[q])
  }

  // ----- measurement numbers -----

  lemma MeasuredStep(insts: seq<Inst>)
    requires insts != []
    ensures Measured(insts) == (if insts[0].Measure? then [insts[0].q] else []) + Measured(insts[1..])
  {
  }

  lemma {:induction false} CounterIs(insts: seq<Inst>, counter: nat, index: Index)
    requires VisitAll(insts, counter, index).Ok?
    ensures VisitAll(insts, counter, index).value.counter == counter + |Measured(insts)|
  {
    if insts == [] {
      VisitAllNone(counter, index);
    } else {
      VisitAllStep(insts, counter, index);
      VisitMeasures(insts[0], counter, index);
      assert [insts[0]][1..] == [];
      MeasuredStep(insts);
      hide Visit, VisitAll;
      var first := Visit(insts[0], counter, index).value;
      CounterIs(insts[1..], first.counter, first.index);
    }
  }

  /** The k-th qubit of the order is mapped to counter + k, other qubits as before. */
  ghost predicate Numbers(after: map<nat, nat>, order: seq<nat>, counter: nat, last: map<nat, nat>) {
    && (forall k: nat :: k < |order| ==> order[k] in after && after[order[k]] == counter + k)
    && (forall q: nat :: q !in order ==> (q in after <==> q in last) && (q in last ==> after[q] == last[q]))
  }

  lemma NumbersCons(after: map<nat, nat>, q: nat, rest: seq<nat>, counter: nat, last: map<nat, nat>)
    requires q !in rest && Numbers(after, rest, counter + 1, last[q := counter])
    ensures Numbers(after, [q] + rest, counter, last)
  {
    var all := [q] + rest;
    forall k: nat | k < |all|
      ensures all[k] in after && after[all[k]] == counter + k
    {
      assert k > 0 ==> all[k] == rest[k - 1];
    }
    forall p: nat | p !in all
      ensures p !in rest && p != q
    {
      assert all[0] == q && forall j :: 0 <= j < |rest| ==> all[j + 1] == rest[j];
    }
  }

  lemma DistinctTail(q: nat, rest: seq<nat>)
    requires Distinct([q] + rest)
    ensures Distinct(rest) && q !in rest
  {
    var all := [q] + rest;
    forall j | 0 <= j < |rest|
      ensures rest[j] != q
    {
      assert all[j + 1] == rest[j] && all[0] == q;
    }
    forall i, j | 0 <= i < j < |rest|
      ensures rest[i] != rest[j]
    {
      assert all[i + 1] == rest[i] && all[j + 1] == rest[j];
    }
  }

  /** With no qubit measured twice, the k-th measured qubit's last measurement is number k. */
  lemma {:induction false} LastIsOwn(insts: seq<Inst>, counter: nat, last: map<nat, nat>)
    requires Distinct(Measured(insts))
    ensures Numbers(LastAfter(insts, counter, last), Measured(insts), counter, last)
  {
    if insts != [] {
      var inst, more := insts[0], insts[1..];
      MeasuredStep(insts);
      hide Numbers, Distinct, Measured;
      if inst.Measure? {
        DistinctTail(inst.q, Measured(more));
        LastIsOwn(more, counter + 1, last[inst.q := counter]);
        NumbersCons(LastAfter(insts, counter, last), inst.q, Measured(more), counter, last);
      } else {
        assert Measured(insts) == Measured(more);
        LastIsOwn(more, counter, last);
      }
    }
  }

  // ----- oracles and outcomes of qubits -----

  function Place(order: seq<nat>, q: nat): nat {
    if order == [] || order[0] == q then 0 else 1 + Place(order[1..], q)
  }

  lemma {:induction false} PlaceIs(order: seq<nat>, k: nat)
    requires Distinct(order) && k < |order|
    ensures Place(order, order[k]) == k
  {
    if k > 0 {
      assert order[1..][k - 1] == order[k] && order[0] != order[k];
      PlaceIs(order[1..], k - 1);
    }
  }

  /** The outcome of each qubit when measurement k has outcome oracle(k). */
  function OutcomeOf(order: seq<nat>, oracle: nat -> bool): nat -> bool {
    (q: nat) => oracle(Place(order, q))
  }

  /** Raw strings depend only on the outcomes of the qubits that are measured. */
  lemma SameRaw(order: seq<nat>, a: nat -> bool, b: nat -> bool)
    requires forall k :: 0 <= k < |order| ==> a(order[k]) == b(order[k])
    ensures Raw(order, a) == Raw(order, b)
  {
  }

  lemma RegistersAreRaw(order: seq<nat>, oracle: nat -> bool, regs: map<nat, bool>)
    requires Distinct(order)
    requires forall k: nat :: k < |order| ==> k in regs && regs[k] == oracle(k)
    ensures RegisterString(regs, |order|) == Raw(order, OutcomeOf(order, oracle))
  {
    forall j | 0 <= j < |order|
      ensures RegisterString(regs, |order|)[j] == Raw(order, OutcomeOf(order, oracle))[j]
    {
      PlaceIs(order, |order| - 1 - j);
    }
  }

  /** Register k of the executed program and the record of the k-th measured qubit hold outcome k. */
  lemma ExecutedRecord(t: Trig, oracle: nat -> bool, n: nat, insts: seq<Inst>, s: State) returns (qm: QMachine)
    requires ValidTrig(t) && AllFit(insts, n) && IsState(s, n) && KeptCircuit(insts)
    requires Distinct(Measured(insts))
    ensures VisitAll(insts, 0, map[]).Ok?
    ensures Exec(t, oracle, n, VisitAll(insts, 0, map[]).value.pieces, QMachine(s, map[], 0)) == Some(qm)
    ensures qm.measured == |Measured(insts)|
    ensures var record := Run(t, oracle, n, insts, Machine(s, map[], 0)).record;
            forall k: nat :: k < |Measured(insts)| ==>
              && k in qm.regs && qm.regs[k] == oracle(k)
              && Measured(insts)[k] in record && record[Measured(insts)[k]] == oracle(k)
  {
    hide Exec, Run, VisitAll, KeptCircuit, AllFit, Scale, Distinct;
    var c;
    c, qm := TranslationKeepsMeaning(t, oracle, n, insts, s);
    CounterIs(insts, 0, map[]);
    LastIsOwn(insts, 0, map[]);
    hide LastAfter, Measured;
    var record, last := Run(t, oracle, n, insts, Machine(s, map[], 0)).record, LastAfter(insts, 0, map[]);
    forall k: nat | k < |Measured(insts)|
      ensures k in qm.regs && qm.regs[k] == oracle(k)
      ensures Measured(insts)[k] in record && record[Measured(insts)[k]] == oracle(k)
    {
      var q := Measured(insts)[k];
      assert q in last && last[q] == k;
      assert q in record;
    }
  }

  /** For one sequence of outcomes, the executed program's decoded string shows the record exactly
      if the decoding puts every qubit's outcome in its place. */
  lemma ShowsRecordIff(t: Trig, oracle: nat -> bool, n: nat, insts: seq<Inst>, s: State, size: nat)
    requires ValidTrig(t) && AllFit(insts, n) && IsState(s, n) && KeptCircuit(insts)
    requires Distinct(Measured(insts)) && InRange(Measured(insts), size) && |Measured(insts)| <= size
    ensures ShowsRecord(t, oracle, n, insts, s, size)
            <==> forall k: nat :: k < |Measured(insts)| ==>
                   ShowsOwn(Measured(insts), size, OutcomeOf(Measured(insts), oracle), k)
  {
    hide Exec, Run, VisitAll, KeptCircuit, AllFit, IsState, ValidTrig, Decode, Raw, ShowsAt, Distinct,
         RegisterString, Place, Measured;
    var order := Measured(insts);
    var outcome := OutcomeOf(order, oracle);
    var qm := ExecutedRecord(t, oracle, n, insts, s);
    var record := Run(t, oracle, n, insts, Machine(s, map[], 0)).record;
    RegistersAreRaw(order, oracle, qm.regs);
    var decoded := Decode(Raw(order, outcome), order, size);
    RawLength(order, outcome);
    DecodedLength(Raw(order, outcome), order, size);
    forall k: nat | k < |order|
      ensures ShowsAt(decoded, record, order[k]) <==> ShowsOwn(order, size, outcome, k)
    {
      PlaceIs(order, k);
      ShowsAtIs(decoded, record, order[k]);
    }
  }

  lemma RawLength(order: seq<nat>, outcome: nat -> bool)
    ensures |Raw(order, outcome)| == |order|
  {
  }

  lemma ShowsAtIs(decoded: string, record: map<nat, bool>, q: nat)
    requires q < |decoded| && q in record
    ensures ShowsAt(decoded, record, q) <==> decoded[|decoded| - 1 - q] == BitStrings.Bit(record[q])
  {
  }

  lemma DecodedLength(bits: string, order: seq<nat>, size: nat)
    requires |bits| == |order| <= size && InRange(order, size)
    ensures |Decode(bits, order, size)| == size
  {
    if |bits| < size {
      SortInRange(order, size);
    }
  }

  /** End to end: running the emitted program and decoding its registers shows every measured qubit's
      recorded outcome, whatever the outcomes, if and only if the circuit measures its qubits in
      increasing order. */
  lemma ExecutedOutcomesShownIff(t: Trig, n: nat, insts: seq<Inst>, s: State, size: nat)
    requires ValidTrig(t) && AllFit(insts, n) && IsState(s, n) && KeptCircuit(insts)
    requires Distinct(Measured(insts)) && InRange(Measured(insts), size) && |Measured(insts)| <= size
    ensures (forall oracle: nat -> bool :: ShowsRecord(t, oracle, n, insts, s, size))
            <==> StrictlyAscending(Measured(insts))
  {
    hide ShowsRecord, ShowsOwn, KeptCircuit, AllFit, IsState, ValidTrig, InRange, StrictlyAscending, Measured;
    var order := Measured(insts);
    ShowsOwnOutcomesIff(order, size);
    if StrictlyAscending(order) {
      forall oracle: nat -> bool
        ensures ShowsRecord(t, oracle, n, insts, s, size)
      {
        ShowsRecordIff(t, oracle, n, insts, s, size);
      }
    } else if forall oracle: nat -> bool :: ShowsRecord(t, oracle, n, insts, s, size) {
      forall outcome: nat -> bool, k: nat | k < |order|
        ensures ShowsOwn(order, size, outcome, k)
      {
        var oracle := (k: nat) => k < |order| && outcome(order[k]);
        ShowsRecordIff(t, oracle, n, insts, s, size);
        SameShown(order, size, oracle, outcome, k);
      }
    }
  }

  lemma SameShown(order: seq<nat>, size: nat, oracle: nat -> bool, outcome: nat -> bool, k: nat)
    requires |order| <= size && InRange(order, size) && Distinct(order) && k < |order|
    requires forall j: nat :: j < |order| ==> oracle(j) == outcome(order[j])
    ensures ShowsOwn(order, size, OutcomeOf(order, oracle), k) <==> ShowsOwn(order, size, outcome, k)
  {
    forall j | 0 <= j < |order|
      ensures OutcomeOf(order, oracle)(order[j]) == outcome(order[j])
    {
      PlaceIs(order, j);
    }
    SameRaw(order, OutcomeOf(order, oracle), outcome);
  }
}
