/** Translating a kernel: the scan for the highest qubit and the visitor walk. */
module OQASMCompiler {
  import opened Wrappers
  import opened Amplitudes
  import opened GateIR
  import opened Quantum
  import opened OpenQasm
  import opened OpenQasmText
  import opened Emission
  import opened TranslationMeaning
  import opened TextAndJson
  import OpenQasmVisitor

  // ----- the walk through called kernels -----

  lemma {:induction false} WalkAppend(a: seq<Node>, b: seq<Node>)
    ensures Walk(a + b) == Walk(a) + Walk(b)
  {
    if a == [] {
      assert a + b == b;
    } else {
      assert (a + b)[1..] == a[1..] + b;
      WalkAppend(a[1..], b);
    }
  }

  /** Putting the body of a called kernel in place of the call, anywhere, changes nothing of what
      is visited, and so nothing of what is emitted: registers are numbered on across the call. */
  lemma InliningCall(before: seq<Node>, name: string, body: seq<Node>, after: seq<Node>)
    ensures Walk(before + [Call(name, body)] + after) == Walk(before + body + after)
    ensures Translation(before + [Call(name, body)] + after) == Translation(before + body + after)
  {
    WalkOfCall(name, body);
    hide Walk, Enabled, MaxBit, VisitAll;
    WalkOfThree(before, [Call(name, body)], after);
    WalkOfThree(before, body, after);
  }

  lemma WalkOfCall(name: string, body: seq<Node>)
    ensures Walk([Call(name, body)]) == Walk(body)
  {
    assert [Call(name, body)][1..] == [];
    assert Walk([Call(name, body)]) == Walk(body) + [];
  }

  lemma WalkOfThree(a: seq<Node>, b: seq<Node>, c: seq<Node>)
    ensures Walk(a + b + c) == Walk(a) + Walk(b) + Walk(c)
  {
    hide Walk;
    WalkAppend(a + b, c);
    WalkAppend(a, b);
  }

  lemma {:induction false} WalkIsLeaves(nodes: seq<Node>)
    ensures forall i :: 0 <= i < |Walk(nodes)| ==> Walk(nodes)[i].Leaf?
    decreases nodes
  {
    if nodes != [] {
      WalkIsLeaves(nodes[1..]);
      if nodes[0].Call? {
        WalkIsLeaves(nodes[0].children);
      }
    }
  }

  lemma {:induction false} WalkOfLeaves(leaves: seq<Node>)
    requires forall i :: 0 <= i < |leaves| ==> leaves[i].Leaf?
    ensures Walk(leaves) == leaves
  {
    if leaves != [] {
      WalkOfLeaves(leaves[1..]);
    }
  }

  /** A kernel is translated like its fully inlined gate list. */
  lemma TranslationOfInlined(nodes: seq<Node>)
    ensures Translation(nodes) == Translation(Walk(nodes))
  {
    hide Walk, Enabled, MaxBit, VisitAll;
    WalkIsLeaves(nodes);
    WalkOfLeaves(Walk(nodes));
  }

  // ----- the register size -----

  /** The largest qubit index, 0 if there is none. */
  function MaxBit(insts: seq<Inst>): nat {
    if insts == [] then 0 else Max(MaxOf(Bits(insts[0])), MaxBit(insts[1..]))
  }

  function MaxOf(bits: seq<nat>): nat {
    if bits == [] then 0 else Max(bits[0], MaxOf(bits[1..]))
  }

  function Max(a: nat, b: nat): nat {
    if a > b then a else b
  }

  /** The smallest register that holds every qubit of the instructions, with at least one qubit. */
  predicate IsRegisterSize(n: nat, insts: seq<Inst>) {
    && n > 0
    && (forall i, b :: 0 <= i < |insts| && b in Bits(insts[i]) ==> b < n)
    && (n == 1 || exists i :: 0 <= i < |insts| && n - 1 in Bits(insts[i]))
  }

  lemma RegisterSizeIsUnique(m: nat, n: nat, insts: seq<Inst>)
    requires IsRegisterSize(m, insts) && IsRegisterSize(n, insts)
    ensures m == n
  {
  }

  lemma {:induction false} MaxOfIsLargest(bits: seq<nat>)
    ensures forall b :: b in bits ==> b <= MaxOf(bits)
    ensures if bits == [] then MaxOf(bits) == 0 else MaxOf(bits) in bits
  {
    if bits != [] {
      MaxOfIsLargest(bits[1..]);
      assert bits == [bits[0]] + bits[1..];
    }
  }

  lemma {:induction false} MaxBitIsLargest(insts: seq<Inst>)
    ensures IsRegisterSize(MaxBit(insts) + 1, insts)
  {
    if insts != [] {
      var more := insts[1..];
      MaxBitIsLargest(more);
      MaxOfIsLargest(Bits(insts[0]));
      hide MaxOf, Bits;
      assert forall i :: 0 <= i < |more| ==> more[i] == insts[i + 1];
      if MaxBit(insts) > 0 {
        if MaxBit(insts) == MaxOf(Bits(insts[0])) {
          assert MaxBit(insts) in Bits(insts[0]);
        } else {
          var i :| 0 <= i < |more| && MaxBit(more) in Bits(more[i]);
          assert MaxBit(insts) in Bits(insts[i + 1]);
        }
      }
    }
  }

  /** The declared size is that of the smallest register for the enabled instructions. */
  lemma DeclaredSizeIs(nodes: seq<Node>)
    ensures IsRegisterSize(Translation(nodes).0, Enabled(Walk(nodes)))
  {
    hide MaxBit, Enabled, Walk, IsRegisterSize;
    MaxBitIsLargest(Enabled(Walk(nodes)));
  }

  /** What translate returns: the declared number of qubits and the emission. */
  function Translation(nodes: seq<Node>): (nat, Result<Emission>) {
    var insts := Enabled(Walk(nodes));
    (MaxBit(insts) + 1, VisitAll(insts, 0, map[]))
  }

  predicate CondFree(insts: seq<Inst>) {
    forall i :: 0 <= i < |insts| ==> !insts[i].Cond?
  }

  /** Two-qubit gates act on two different qubits. */
  predicate ProperGate(inst: Inst) {
    |Bits(inst)| == 2 ==> Bits(inst)[0] != Bits(inst)[1]
  }

  lemma {:induction false} BitsBelowMax(insts: seq<Inst>, i: nat)
    requires i < |insts|
    ensures forall b: nat :: b in Bits(insts[i]) ==> b <= MaxBit(insts)
  {
    var bits := Bits(insts[i]);
    if i == 0 {
      if |bits| == 2 {
        assert bits[1..][1..] == [] && MaxOf(bits[1..]) >= bits[1];
        assert bits == [bits[0], bits[1]];
      }
    } else {
      BitsBelowMax(insts[1..], i - 1);
    }
  }

  /** Without conditionals, every instruction fits in the declared register. */
  lemma {:induction false} AllFitDeclared(insts: seq<Inst>, n: nat)
    requires CondFree(insts) && n > MaxBit(insts)
    requires forall i :: 0 <= i < |insts| ==> ProperGate(insts[i])
    ensures AllFit(insts, n)
  {
    if insts != [] {
      BitsBelowMax(insts, 0);
      var bits := Bits(insts[0]);
      assert forall i :: 0 <= i < |bits| ==> bits[i] in bits;
      AllFitDeclared(insts[1..], n);
    }
  }

  /** The qubits a piece of text names. */
  function QubitsNamed(p: Piece): seq<nat> {
    match p
    case Line(Apply(_, _, qubits)) => qubits
    case Line(MeasureTo(q, _)) => [q]
    case _ => []
  }

  predicate NamesBelowIn(p: Piece, n: nat) {
    forall q: nat :: q in QubitsNamed(p) ==> q < n
  }

  predicate NamesBelow(pieces: seq<Piece>, n: nat) {
    forall p :: p in pieces ==> NamesBelowIn(p, n)
  }

  /** The qubits named by what is emitted for an instruction. Nothing is emitted for a controlled
      phase; a conditional names the qubits of its body. */
  function NamedBits(inst: Inst): seq<nat> {
    match inst
    case CPhase(_, _, _) => []
    case Cond(_, body) => if body == [] then [] else NamedBits(body[0])
    case _ => Bits(inst)
  }

  predicate AllBelow(bits: seq<nat>, n: nat) {
    forall b :: b in bits ==> b < n
  }

  lemma NamesOne(p: Piece, n: nat)
    ensures NamesBelow([p], n) <==> NamesBelowIn(p, n)
  {
    assert p in [p];
  }

  lemma NamesAppend(a: seq<Piece>, b: seq<Piece>, n: nat)
    ensures NamesBelow(a + b, n) <==> NamesBelow(a, n) && NamesBelow(b, n)
  {
    hide NamesBelowIn;
    assert forall p :: p in a + b <==> p in a || p in b;
  }

  lemma SwapNames(a: nat, b: nat, n: nat)
    ensures var c1, c2 := Line(Apply("cx", [], [a, b])), Line(Apply("cx", [], [b, a]));
            NamesBelow([c1, c2, c1], n) <==> a < n && b < n
  {
    var c1, c2 := Line(Apply("cx", [], [a, b])), Line(Apply("cx", [], [b, a]));
    assert QubitsNamed(c1) == [a, b] && QubitsNamed(c2) == [b, a];
    assert a in [a, b] && b in [a, b] && c1 in [c1, c2, c1];
  }

  lemma MeasureNames(q: nat, k: nat, n: nat)
    ensures NamesBelow([Line(Creg(k)), Line(MeasureTo(q, k))], n) <==> q < n
  {
    var a, b := Line(Creg(k)), Line(MeasureTo(q, k));
    assert QubitsNamed(a) == [] && QubitsNamed(b) == [q];
    assert q in [q] && b in [a, b];
  }

  lemma {:induction false} VisitNamesIff(inst: Inst, counter: nat, index: Index, n: nat)
    requires Visit(inst, counter, index).Ok?
    ensures NamesBelow(Visit(inst, counter, index).value.pieces, n) <==> AllBelow(NamedBits(inst), n)
    decreases inst
  {
    hide NamesBelow, NamesBelowIn;
    if inst.Cond? {
      var guard := Guard(Lookup(index, inst.q));
      VisitCondBody(inst.q, inst.body, counter, index);
      NamesOne(guard, n);
      GuardNamesNothing(Lookup(index, inst.q), n);
      NamesAppend([guard], VisitAll(inst.body, 0, map[]).value.pieces, n);
      if inst.body == [] {
        VisitAllNone(0, map[]);
        NamesNothing(n);
      } else {
        assert inst.body == [inst.body[0]];
        VisitAllOne(inst.body[0], 0, map[]);
        VisitNamesIff(inst.body[0], 0, map[], n);
      }
    } else if inst.Swap? {
      SwapNames(inst.a, inst.b, n);
      PairBelow(inst.a, inst.b, n);
    } else if inst.Measure? {
      MeasureNames(inst.q, counter, n);
      assert inst.q in Bits(inst);
    } else if inst.CPhase? {
      NamesNothing(n);
    } else {
      NamesOne(Line(GateStmt(inst)), n);
      GateNames(inst, n);
    }
  }

  lemma GuardNamesNothing(k: nat, n: nat)
    ensures NamesBelowIn(Guard(k), n)
  {
  }

  lemma NamesNothing(n: nat)
    ensures NamesBelow([], n)
  {
  }

  lemma PairBelow(a: nat, b: nat, n: nat)
    ensures AllBelow([a, b], n) <==> a < n && b < n
  {
    assert a in [a, b] && b in [a, b];
  }

  lemma GateNames(inst: Inst, n: nat)
    requires IsGate(inst)
    ensures NamesBelowIn(Line(GateStmt(inst)), n) <==> AllBelow(NamedBits(inst), n)
  {
    assert QubitsNamed(Line(GateStmt(inst))) == Bits(inst) == NamedBits(inst);
  }

  lemma {:induction false} VisitsNameIff(insts: seq<Inst>, counter: nat, index: Index, n: nat)
    requires VisitAll(insts, counter, index).Ok?
    ensures NamesBelow(VisitAll(insts, counter, index).value.pieces, n)
            <==> forall i :: 0 <= i < |insts| ==> AllBelow(NamedBits(insts[i]), n)
  {
    if insts == [] {
      VisitAllNone(counter, index);
    } else {
      VisitAllStep(insts, counter, index);
      VisitNamesIff(insts[0], counter, index, n);
      hide Visit, VisitAll, NamesBelow, AllBelow;
      var first, more := Visit(insts[0], counter, index).value, insts[1..];
      VisitsNameIff(more, first.counter, first.index, n);
      NamesAppend(first.pieces, VisitAll(more, first.counter, first.index).value.pieces, n);
      assert forall i :: 0 <= i < |more| ==> more[i] == insts[i + 1];
      if forall i :: 0 <= i < |more| ==> AllBelow(NamedBits(more[i]), n) {
        forall i | 0 < i < |insts|
          ensures AllBelow(NamedBits(insts[i]), n)
        {
          assert AllBelow(NamedBits(more[i - 1]), n);
        }
      }
      if forall i :: 0 <= i < |insts| ==> AllBelow(NamedBits(insts[i]), n) {
        forall i | 0 <= i < |more|
          ensures AllBelow(NamedBits(more[i]), n)
        {
          assert AllBelow(NamedBits(insts[i + 1]), n);
        }
      }
    }
  }

  /** Every emitted q[i] is inside the declared register exactly if the qubits of the conditionals'
      bodies are: the declared size is counted without them. */
  lemma QubitsAreDeclared(nodes: seq<Node>)
    requires Translation(nodes).1.Ok?
    ensures var insts := Enabled(Walk(nodes));
            NamesBelow(Translation(nodes).1.value.pieces, Translation(nodes).0)
            <==> forall i :: 0 <= i < |insts| && insts[i].Cond? ==> AllBelow(NamedBits(insts[i]), MaxBit(insts) + 1)
  {
    hide NamesBelow, AllBelow, Enabled, Walk;
    var insts := Enabled(Walk(nodes));
    var n := MaxBit(insts) + 1;
    VisitsNameIff(insts, 0, map[], n);
    forall i | 0 <= i < |insts| && !insts[i].Cond?
      ensures AllBelow(NamedBits(insts[i]), n)
    {
      UnguardedBelow(insts, i);
    }
    if forall i :: 0 <= i < |insts| && insts[i].Cond? ==> AllBelow(NamedBits(insts[i]), n) {
      assert forall i :: 0 <= i < |insts| ==> AllBelow(NamedBits(insts[i]), n);
    }
  }

  lemma UnguardedBelow(insts: seq<Inst>, i: nat)
    requires i < |insts| && !insts[i].Cond?
    ensures AllBelow(NamedBits(insts[i]), MaxBit(insts) + 1)
  {
    BitsBelowMax(insts, i);
    hide MaxBit;
  }

  lemma EnabledTwo(a: Inst, b: Inst)
    ensures Enabled(Walk([Leaf(a, true), Leaf(b, true)])) == [a, b]
  {
    var nodes := [Leaf(a, true), Leaf(b, true)];
    WalkOfLeaves(nodes);
    hide Walk, Enabled;
    assert nodes == [nodes[0]] + [nodes[1]];
    EnabledConcat([nodes[0]], [nodes[1]]);
    EnabledOne(nodes[0]);
    EnabledOne(nodes[1]);
  }

  lemma GuardedIsVisited(q: nat, g: Inst)
    requires IsGate(g)
    ensures VisitAll([Measure(q, 0), Cond(q, [g])], 0, map[]).Ok?
  {
    var cond := Cond(q, [g]);
    VisitCond(q, g, 1, map[q := 0]);
    assert [Measure(q, 0), cond][1..] == [cond];
    VisitAllOne(cond, 1, map[q := 0]);
  }

  lemma GuardedMaxBit(q: nat, g: Inst)
    ensures MaxBit([Measure(q, 0), Cond(q, [g])]) == q
  {
    var m, cond := Measure(q, 0), Cond(q, [g]);
    MaxBitOne(m);
    MaxBitOne(cond);
    MaxOfOne(q);
    hide MaxBit;
    assert [m] + [cond] == [m, cond];
    MaxBitAppend([m], [cond]);
  }

  lemma GuardedIsNotBelow(q: nat, b: nat)
    requires q < b
    ensures !AllBelow(NamedBits(Cond(q, [X(b)])), q + 1)
  {
    assert NamedBits(Cond(q, [X(b)])) == NamedBits(X(b)) == [b];
    assert b in [b];
  }

  /** A gate inside a conditional, on a larger qubit than all others, is emitted but not declared. */
  lemma GuardedQubitIsUndeclared(q: nat, b: nat)
    requires q < b
    ensures var nodes := [Leaf(Measure(q, 0), true), Leaf(Cond(q, [X(b)]), true)];
            && Translation(nodes).0 == q + 1 && Translation(nodes).1.Ok?
            && !NamesBelow(Translation(nodes).1.value.pieces, Translation(nodes).0)
  {
    hide Walk, Enabled, NamesBelow, AllBelow;
    var nodes := [Leaf(Measure(q, 0), true), Leaf(Cond(q, [X(b)]), true)];
    EnabledTwo(Measure(q, 0), Cond(q, [X(b)]));
    GuardedIsVisited(q, X(b));
    GuardedMaxBit(q, X(b));
    GuardedIsNotBelow(q, b);
    QubitsAreDeclared(nodes);
    assert Enabled(Walk(nodes))[1] == Cond(q, [X(b)]);
  }

  /** A conditional adds nothing to the declared size, neither its qubit nor its body. */
  lemma ConditionalsAreNotCounted(before: seq<Inst>, q: nat, body: seq<Inst>)
    ensures MaxBit(before + [Cond(q, body)]) == MaxBit(before)
  {
    MaxBitAppend(before, [Cond(q, body)]);
    MaxBitOne(Cond(q, body));
  }

  // ----- translate -----

  lemma MaxBitStep(leaves: seq<Node>, i: nat)
    requires i < |leaves| && leaves[i].Leaf?
    ensures MaxBit(Enabled(leaves[..i + 1]))
         == if leaves[i].enabled then Max(MaxBit(Enabled(leaves[..i])), MaxOf(Bits(leaves[i].inst)))
            else MaxBit(Enabled(leaves[..i]))
  {
    EnabledOne(leaves[i]);
    MaxBitOne(leaves[i].inst);
    hide Enabled, MaxBit, MaxOf, Bits, Max;
    assert leaves[..i] + [leaves[i]] == leaves[..i + 1];
    EnabledConcat(leaves[..i], [leaves[i]]);
    if leaves[i].enabled {
      MaxBitAppend(Enabled(leaves[..i]), [leaves[i].inst]);
    } else {
      assert Enabled(leaves[..i]) + [] == Enabled(leaves[..i]);
    }
  }

  lemma MaxOfStep(bits: seq<nat>, j: nat)
    requires j < |bits|
    ensures MaxOf(bits[..j + 1]) == Max(MaxOf(bits[..j]), bits[j])
  {
    MaxOfAppend(bits[..j], [bits[j]]);
    MaxOfOne(bits[j]);
    assert bits[..j] + [bits[j]] == bits[..j + 1];
  }

  /** The first loop of translate. */
  method HighestQubit(leaves: seq<Node>) returns (maxBit: nat)
    requires forall i :: 0 <= i < |leaves| ==> leaves[i].Leaf?
    ensures maxBit == MaxBit(Enabled(leaves))
    ensures forall i, b :: 0 <= i < |leaves| && leaves[i].enabled && b in Bits(leaves[i].inst) ==> b <= maxBit
    ensures maxBit == 0 || exists i :: 0 <= i < |leaves| && leaves[i].enabled && maxBit in Bits(leaves[i].inst)
  {
    maxBit := 0;
    var i := 0;
    assert leaves[..0] == [];
    assert MaxBit(Enabled([])) == 0;
    hide MaxBit, Enabled;
    while i < |leaves|
      invariant i <= |leaves| && maxBit == MaxBit(Enabled(leaves[..i]))
    {
      MaxBitStep(leaves, i);
      if leaves[i].enabled {
        ghost var before := maxBit;
        var bits := Bits(leaves[i].inst);
        assert bits[..0] == [];
        for j := 0 to |bits|
          invariant maxBit == Max(before, MaxOf(bits[..j]))
        {
          MaxOfStep(bits, j);
          if bits[j] > maxBit {
            maxBit := bits[j];
          }
        }
        assert bits[..|bits|] == bits;
      }
      i := i + 1;
    }
    assert leaves[..i] == leaves;
    LargestOfLeaves(leaves);
  }

  lemma {:induction false} EnabledMembers(leaves: seq<Node>, inst: Inst)
    requires forall i :: 0 <= i < |leaves| ==> leaves[i].Leaf?
    ensures inst in Enabled(leaves) <==> Leaf(inst, true) in leaves
  {
    if leaves != [] {
      EnabledMembers(leaves[1..], inst);
      assert leaves == [leaves[0]] + leaves[1..];
    }
  }

  lemma LargestOfLeaves(leaves: seq<Node>)
    requires forall i :: 0 <= i < |leaves| ==> leaves[i].Leaf?
    ensures var maxBit := MaxBit(Enabled(leaves));
            && (forall i, b :: 0 <= i < |leaves| && leaves[i].enabled && b in Bits(leaves[i].inst) ==> b <= maxBit)
            && (maxBit == 0 || exists i :: 0 <= i < |leaves| && leaves[i].enabled && maxBit in Bits(leaves[i].inst))
  {
    var insts := Enabled(leaves);
    MaxBitIsLargest(insts);
    hide MaxBit, Enabled, Bits;
    forall i, b | 0 <= i < |leaves| && leaves[i].enabled && b in Bits(leaves[i].inst)
      ensures b <= MaxBit(insts)
    {
      EnabledMembers(leaves, leaves[i].inst);
      assert leaves[i] == Leaf(leaves[i].inst, true);
    }
    if MaxBit(insts) > 0 {
      var k :| 0 <= k < |insts| && MaxBit(insts) in Bits(insts[k]);
      EnabledMembers(leaves, insts[k]);
      assert insts[k] in insts;
      var i :| 0 <= i < |leaves| && leaves[i] == Leaf(insts[k], true);
    }
  }

  method Translate(nodes: seq<Node>) returns (r: Result<string>)
    ensures r.Ok? <==> AllSupported(Enabled(Walk(nodes)))
    ensures r.Ok? <==> Translation(nodes).1.Ok?
    ensures IsRegisterSize(Translation(nodes).0, Enabled(Walk(nodes)))
    ensures r.Ok? ==> r.value == OpenQasmVisitor.Preamble(Translation(nodes).0) + Text(Translation(nodes).1.value.pieces)
  {
    hide Text, VisitAll, MaxBit, Walk, Enabled;
    DeclaredSizeIs(nodes);
    hide IsRegisterSize, AllSupported;
    WalkIsLeaves(nodes);
    var maxBit := HighestQubit(Walk(nodes));
    var nQubits := maxBit + 1;
    var visitor := new OpenQasmVisitor.Visitor(nQubits, false);
    var ok := visitor.AcceptAll(Enabled(Walk(nodes)));
    if !ok {
      return Err("not translatable");
    }
    assert visitor.pieces == Translation(nodes).1.value.pieces;
    return Ok(visitor.native);
  }

  lemma EnabledOne(leaf: Node)
    requires leaf.Leaf?
    ensures Enabled([leaf]) == if leaf.enabled then [leaf.inst] else []
  {
    assert [leaf][1..] == [];
  }

  lemma MaxOfOne(b: nat)
    ensures MaxOf([b]) == b
  {
    assert [b][1..] == [];
  }

  lemma MaxBitOne(inst: Inst)
    ensures MaxBit([inst]) == MaxOf(Bits(inst))
  {
    assert [inst][1..] == [];
  }

  lemma {:induction false} MaxOfAppend(a: seq<nat>, b: seq<nat>)
    ensures MaxOf(a + b) == Max(MaxOf(a), MaxOf(b))
  {
    if a == [] {
      assert a + b == b;
    } else {
      assert (a + b)[1..] == a[1..] + b;
      MaxOfAppend(a[1..], b);
    }
  }

  lemma {:induction false} MaxBitAppend(a: seq<Inst>, b: seq<Inst>)
    ensures MaxBit(a + b) == Max(MaxBit(a), MaxBit(b))
  {
    if a == [] {
      assert a + b == b;
    } else {
      assert (a + b)[1..] == a[1..] + b;
      MaxBitAppend(a[1..], b);
    }
  }

  /** End to end: the statements read from the text that translate returns, run on the declared
      register from any state, give the kernel's final state up to a global phase and every
      qubit's last outcome. */
  lemma TranslatedTextKeepsMeaning(t: Trig, oracle: nat -> bool, nodes: seq<Node>, s: State)
    returns (c: Complex, qm: QMachine)
    requires var insts, n := Enabled(Walk(nodes)), Translation(nodes).0;
             && ValidTrig(t) && IsState(s, n)
             && KeptCircuit(insts) && PrintableInsts(insts) && AllFit(insts, n)
    ensures Translation(nodes).1.Ok?
    ensures var insts, n := Enabled(Walk(nodes)), Translation(nodes).0;
            var im := Run(t, oracle, n, insts, Machine(s, map[], 0));
            var read := ReadText(Text(Translation(nodes).1.value.pieces));
            && read.Some?
            && Exec(t, oracle, n, read.value, QMachine(s, map[], 0)) == Some(qm)
            && IsPhase(c) && qm.state == Scale(c, n, im.state)
            && (forall q :: q in im.record ==>
                  q in LastAfter(insts, 0, map[]) && LastAfter(insts, 0, map[])[q] in qm.regs
                  && qm.regs[LastAfter(insts, 0, map[])[q]] == im.record[q])
  {
    hide Exec, Run, VisitAll, Scale, LastAfter, KeptCircuit, ReadText, Text;
    var insts, n := Enabled(Walk(nodes)), Translation(nodes).0;
    c, qm := TranslationKeepsMeaning(t, oracle, n, insts, s);
    OutputsAgreeIff(insts);
  }
}
