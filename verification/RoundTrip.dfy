/** Printing instructions as OpenQASM and compiling the statements again. */
module RoundTrip {
  import opened Wrappers
  import opened Amplitudes
  import opened GateIR
  import opened Quantum
  import opened OpenQasm
  import opened Emission
  import opened TranslationMeaning
  import opened Sequences
  import L = OQASMListener

  // ----- statements as the listener's constructs -----

  /** "U" is a keyword of the grammar; every other gate is a named gate. */
  function StmtSource(s: Stmt): L.Source {
    match s
    case Apply(name, params, qubits) =>
      if name == "U" && |qubits| == 1 then L.UGate(params, qubits[0]) else L.NamedGate(name, params, qubits)
    case Creg(_) => L.Unhandled
    case MeasureTo(q, _) => L.Measurement(q, 0)
  }

  /** A guard belongs to the statement after it; anything else is not a program. */
  function SourceOf(pieces: seq<Piece>): Option<seq<L.Source>>
    decreases |pieces|
  {
    if pieces == [] then Some([])
    else if pieces[0].Guard? && (|pieces| == 1 || pieces[1].Guard?) then None
    else
      var one := if pieces[0].Guard? then L.If(StmtSource(pieces[1].stmt)) else StmtSource(pieces[0].stmt);
      match SourceOf(pieces[if pieces[0].Guard? then 2 else 1..])
      case None => None
      case Some(rest) => Some([one] + rest)
  }

  /** Print and compile again: the constructs of the printed statements, as the listener makes them. */
  function Recompiled(insts: seq<Inst>, table: map<string, nat>, gates: set<string>): Option<Result<seq<L.Instr>>> {
    match VisitAll(insts, 0, map[])
    case Err(_) => None
    case Ok(em) =>
      match SourceOf(em.pieces)
      case None => None
      case Some(src) => Some(L.CompileBody(src, table, gates))
  }

  // ----- what comes back -----

  /** The instructions that come back for one instruction: only U, CNOT and Measure, every angle
      triple as OpenQASM defines the gate, every classical index 0. A conditional comes back as its
      body, without the condition. */
  function Normal(inst: Inst): seq<Inst> {
    match inst
    case H(q) => [U(q, HalfPi, Zero, Pi)]
    case X(q) => [U(q, Pi, Zero, Pi)]
    case Y(q) => [U(q, Pi, HalfPi, Pi)]
    case Z(q) => [U(q, Zero, Zero, Pi)]
    case Rx(q, a) => [U(q, a, MinusHalfPi, HalfPi)]
    case Ry(q, a) => [U(q, a, Zero, Zero)]
    case Rz(q, a) => [U(q, Zero, Zero, a)]
    case Swap(a, b) => [CNOT(a, b), CNOT(b, a), CNOT(a, b)]
    case Measure(q, _) => [Measure(q, 0)]
    case CPhase(_, _, _) => []
    case Cond(_, body) => if |body| == 1 then Normal(body[0]) else []
    case _ => [inst]
  }

  function NormalAll(insts: seq<Inst>): seq<Inst> {
    if insts == [] then [] else Normal(insts[0]) + NormalAll(insts[1..])
  }

  /** What the listener makes of a U, CNOT or Measure. */
  function MadeOf(inst: Inst): L.Instr {
    match inst
    case U(q, a, b, c) =>
      L.Gate(L.Made("U", [q], map[0 := L.AngleParam(a), 1 := L.AngleParam(b), 2 := L.AngleParam(c)]))
    case CNOT(s, x) => L.Gate(L.Made("CNOT", [s, x], map[]))
    case Measure(q, k) => L.Gate(L.Made("Measure", [q], map[0 := L.IntParam(k)]))
    case _ => L.CallOf(0)
  }

  function MadeAll(insts: seq<Inst>): seq<L.Instr> {
    seq(|insts|, i requires 0 <= i < |insts| => MadeOf(insts[i]))
  }

  /** Instructions whose statements the listener understands: all but the identity gate, which is
      compiled to a gate called Id, and CZ, which is not translated. */
  predicate ComesBack(inst: Inst) {
    || (IsGate(inst) && !inst.Id?) || inst.Swap? || inst.Measure? || inst.CPhase?
    || (inst.Cond? && |inst.body| == 1 && IsGate(inst.body[0]) && !inst.body[0].Id?)
  }

  predicate AllComeBack(insts: seq<Inst>) {
    forall i :: 0 <= i < |insts| ==> ComesBack(insts[i])
  }

  /** The gate registry knows the three gates that come back. */
  predicate CanCreate(gates: set<string>) {
    "U" in gates && "CNOT" in gates && "Measure" in gates
  }

  lemma SetThree(name: string, qubits: seq<nat>, a: Angle, b: Angle, c: Angle)
    ensures L.SetParams(L.Made(name, qubits, map[]), 0, [a, b, c])
         == L.Made(name, qubits, map[0 := L.AngleParam(a), 1 := L.AngleParam(b), 2 := L.AngleParam(c)])
    ensures L.SetParams(L.Made(name, qubits, map[0 := L.AngleParam(a)]), 1, [b, c])
         == L.Made(name, qubits, map[0 := L.AngleParam(a), 1 := L.AngleParam(b), 2 := L.AngleParam(c)])
    ensures L.SetParams(L.Made(name, qubits, map[0 := L.AngleParam(a), 1 := L.AngleParam(b)]), 2, [c])
         == L.Made(name, qubits, map[0 := L.AngleParam(a), 1 := L.AngleParam(b), 2 := L.AngleParam(c)])
  {
    var m0: map<nat, L.Param> := map[];
    var m1, m2 := map[0 := L.AngleParam(a)], map[0 := L.AngleParam(a), 1 := L.AngleParam(b)];
    var m3 := map[0 := L.AngleParam(a), 1 := L.AngleParam(b), 2 := L.AngleParam(c)];
    assert m0[0 := L.AngleParam(a)] == m1 && m1[1 := L.AngleParam(b)] == m2 && m2[2 := L.AngleParam(c)] == m3;
    assert [a, b, c][1..] == [b, c] && [b, c][1..] == [c] && [c][1..] == [];
    assert L.SetParams(L.Made(name, qubits, m3), 3, []) == L.Made(name, qubits, m3);
    assert L.SetParams(L.Made(name, qubits, m2), 2, [c]) == L.Made(name, qubits, m3);
    assert L.SetParams(L.Made(name, qubits, m1), 1, [b, c]) == L.SetParams(L.Made(name, qubits, m2), 2, [c]);
  }

  /** One gate statement through the listener. */
  lemma GateComesBack(inst: Inst, table: map<string, nat>, gates: set<string>)
    requires CanCreate(gates)
    requires IsGate(inst) && !inst.Id?
    ensures |Normal(inst)| == 1
    ensures L.CompileOne(StmtSource(GateStmt(inst)), table, gates) == Ok([MadeOf(Normal(inst)[0])])
  {
    var s := GateStmt(inst);
    if inst.CNOT? {
      assert L.Capitalised("cx") == "Cx";
    } else {
      var n := Normal(inst)[0];
      SetThree("U", [n.q], n.theta, n.phi, n.lambda);
      assert [n.theta, n.phi, n.lambda][..3] == [n.theta, n.phi, n.lambda];
      assert L.Capitalised("u1") == "U1" && L.Capitalised("u2") == "U2" && L.Capitalised("u3") == "U3";
    }
  }

  /** The identity gate is compiled to a gate named Id, if the registry has one. */
  lemma IdentityComesBackIff(q: nat, table: map<string, nat>, gates: set<string>)
    ensures var compiled := L.CompileOne(StmtSource(GateStmt(Id(q))), table, gates);
            && (compiled.Ok? <==> "Id" in gates)
            && (compiled.Ok? ==> compiled.value == [L.Gate(L.Made("Id", [q], map[]))])
  {
    assert L.Capitalised("id") == "Id";
  }

  lemma {:induction false} SourceOfAppend(a: seq<Piece>, b: seq<Piece>)
    requires SourceOf(a).Some? && SourceOf(b).Some?
    ensures SourceOf(a + b) == Some(SourceOf(a).value + SourceOf(b).value)
    decreases |a|
  {
    if a == [] {
      assert a + b == b;
      assert [] + SourceOf(b).value == SourceOf(b).value;
    } else {
      hide StmtSource;
      var n := if a[0].Guard? then 2 else 1;
      assert (a + b)[0] == a[0] && (a + b)[n..] == a[n..] + b;
      assert a[0].Guard? ==> (a + b)[1] == a[1];
      SourceOfAppend(a[n..], b);
      var one := if a[0].Guard? then L.If(StmtSource(a[1].stmt)) else StmtSource(a[0].stmt);
      var x, y := SourceOf(a[n..]).value, SourceOf(b).value;
      assert SourceOf(a) == Some([one] + x) && SourceOf(a + b) == Some([one] + (x + y));
      Assoc([one], x, y);
    }
  }

  lemma SourceOfLine(s: Stmt)
    ensures SourceOf([Line(s)]) == Some([StmtSource(s)])
  {
    assert [Line(s)][1..] == [];
    assert [StmtSource(s)] + [] == [StmtSource(s)];
  }

  lemma SourceOfGuarded(k: nat, s: Stmt)
    ensures SourceOf([Guard(k), Line(s)]) == Some([L.If(StmtSource(s))])
  {
    assert [Guard(k), Line(s)][2..] == [];
    assert [L.If(StmtSource(s))] + [] == [L.If(StmtSource(s))];
  }

  /** The pieces are a program that compiles to these instructions. */
  predicate CompilesTo(pieces: seq<Piece>, table: map<string, nat>, gates: set<string>, instrs: seq<L.Instr>) {
    SourceOf(pieces).Some? && L.CompileBody(SourceOf(pieces).value, table, gates) == Ok(instrs)
  }

  lemma CompilesToAppend(a: seq<Piece>, x: seq<L.Instr>, b: seq<Piece>, y: seq<L.Instr>,
                         table: map<string, nat>, gates: set<string>)
    requires CompilesTo(a, table, gates, x) && CompilesTo(b, table, gates, y)
    ensures CompilesTo(a + b, table, gates, x + y)
  {
    SourceOfAppend(a, b);
    L.CompileBodyAppend(SourceOf(a).value, SourceOf(b).value, table, gates);
  }

  lemma LineCompilesTo(s: Stmt, table: map<string, nat>, gates: set<string>, instrs: seq<L.Instr>)
    requires L.CompileOne(StmtSource(s), table, gates) == Ok(instrs)
    ensures CompilesTo([Line(s)], table, gates, instrs)
  {
    SourceOfLine(s);
    L.CompileBodyOne(StmtSource(s), table, gates);
  }

  lemma SwapComesBack(a: nat, b: nat, counter: nat, index: Index, table: map<string, nat>, gates: set<string>)
    requires CanCreate(gates)
    ensures CompilesTo(Visit(Swap(a, b), counter, index).value.pieces, table, gates, MadeAll(Normal(Swap(a, b))))
  {
    var c1, c2 := CNOT(a, b), CNOT(b, a);
    var p1, p2, m1, m2 := Line(GateStmt(c1)), Line(GateStmt(c2)), MadeOf(c1), MadeOf(c2);
    assert [p1] + [p2] + [p1] == Visit(Swap(a, b), counter, index).value.pieces;
    assert MadeAll(Normal(Swap(a, b))) == [m1] + [m2] + [m1];
    GateComesBack(c1, table, gates);
    GateComesBack(c2, table, gates);
    LineCompilesTo(GateStmt(c1), table, gates, [m1]);
    LineCompilesTo(GateStmt(c2), table, gates, [m2]);
    hide CompilesTo;
    CompilesToAppend([p1], [m1], [p2], [m2], table, gates);
    CompilesToAppend([p1] + [p2], [m1] + [m2], [p1], [m1], table, gates);
  }

  lemma VisitComesBack(inst: Inst, counter: nat, index: Index, table: map<string, nat>, gates: set<string>)
    requires CanCreate(gates)
    requires ComesBack(inst)
    ensures Visit(inst, counter, index).Ok?
    ensures CompilesTo(Visit(inst, counter, index).value.pieces, table, gates, MadeAll(Normal(inst)))
  {
    if IsGate(inst) {
      GateComesBack(inst, table, gates);
      LineCompilesTo(GateStmt(inst), table, gates, [MadeOf(Normal(inst)[0])]);
      assert MadeAll(Normal(inst)) == [MadeOf(Normal(inst)[0])];
    } else if inst.Swap? {
      SwapComesBack(inst.a, inst.b, counter, index, table, gates);
    } else if inst.Measure? {
      var p1, p2 := Line(Creg(counter)), Line(MeasureTo(inst.q, counter));
      LineCompilesTo(p1.stmt, table, gates, []);
      LineCompilesTo(p2.stmt, table, gates, [MadeOf(Measure(inst.q, 0))]);
      CompilesToAppend([p1], [], [p2], [MadeOf(Measure(inst.q, 0))], table, gates);
      assert [p1] + [p2] == [p1, p2];
      assert MadeAll(Normal(inst)) == [] + [MadeOf(Measure(inst.q, 0))];
    } else if inst.Cond? {
      var g := inst.body[0];
      assert inst.body == [g];
      VisitCond(inst.q, g, counter, index);
      GateComesBack(g, table, gates);
      var k := Lookup(index, inst.q);
      SourceOfGuarded(k, GateStmt(g));
      L.CompileBodyOne(L.If(StmtSource(GateStmt(g))), table, gates);
      assert MadeAll(Normal(inst)) == [MadeOf(Normal(g)[0])];
    } else {
      assert MadeAll(Normal(inst)) == [];
    }
  }

  lemma MadeAllAppend(a: seq<Inst>, b: seq<Inst>)
    ensures MadeAll(a + b) == MadeAll(a) + MadeAll(b)
  {
    hide MadeOf;
  }

  lemma {:induction false} VisitsComeBack(insts: seq<Inst>, counter: nat, index: Index,
                                          table: map<string, nat>, gates: set<string>)
    requires CanCreate(gates)
    requires AllComeBack(insts)
    ensures VisitAll(insts, counter, index).Ok?
    ensures CompilesTo(VisitAll(insts, counter, index).value.pieces, table, gates, MadeAll(NormalAll(insts)))
  {
    if insts == [] {
      assert MadeAll(NormalAll(insts)) == [];
    } else {
      VisitComesBack(insts[0], counter, index, table, gates);
      hide CompilesTo, Visit, Normal, ComesBack, MadeAll;
      var first := Visit(insts[0], counter, index).value;
      assert forall i :: 0 <= i < |insts[1..]| ==> insts[1..][i] == insts[i + 1];
      VisitsComeBack(insts[1..], first.counter, first.index, table, gates);
      var rest := VisitAll(insts[1..], first.counter, first.index).value;
      CompilesToAppend(first.pieces, MadeAll(Normal(insts[0])), rest.pieces, MadeAll(NormalAll(insts[1..])),
                       table, gates);
      MadeAllAppend(Normal(insts[0]), NormalAll(insts[1..]));
    }
  }

  /** Printing and compiling gives U, CNOT and Measure instructions only: those of NormalAll. */
  lemma PrintThenCompile(insts: seq<Inst>, table: map<string, nat>, gates: set<string>)
    requires CanCreate(gates)
    requires AllComeBack(insts)
    ensures Recompiled(insts, table, gates) == Some(Ok(MadeAll(NormalAll(insts))))
  {
    VisitsComeBack(insts, 0, map[], table, gates);
  }

  // ----- a second round trip -----

  lemma NormalAllCons(inst: Inst, rest: seq<Inst>)
    ensures NormalAll([inst] + rest) == Normal(inst) + NormalAll(rest)
  {
    assert ([inst] + rest)[1..] == rest;
  }

  lemma NormalOfNormal(inst: Inst)
    requires ComesBack(inst)
    ensures NormalAll(Normal(inst)) == Normal(inst)
    ensures forall i :: 0 <= i < |Normal(inst)| ==> ComesBack(Normal(inst)[i])
  {
    if inst.Swap? {
      var c1, c2 := CNOT(inst.a, inst.b), CNOT(inst.b, inst.a);
      NormalAllCons(c1, []);
      NormalAllCons(c2, [c1]);
      NormalAllCons(c1, [c2, c1]);
      assert [c1] + [] == [c1] && [c2] + [c1] == [c2, c1] && [c1] + [c2, c1] == [c1, c2, c1];
    } else if !inst.CPhase? {
      var one := Normal(inst);
      assert |one| == 1 && one[1..] == [] && Normal(one[0]) == [one[0]];
    }
  }

  lemma {:induction false} NormalAllAppend(a: seq<Inst>, b: seq<Inst>)
    ensures NormalAll(a + b) == NormalAll(a) + NormalAll(b)
  {
    hide Normal;
    if a == [] {
      assert a + b == b;
    } else {
      assert (a + b)[1..] == a[1..] + b;
      NormalAllAppend(a[1..], b);
    }
  }

  lemma {:induction false} NormalIsStable(insts: seq<Inst>)
    requires AllComeBack(insts)
    ensures NormalAll(NormalAll(insts)) == NormalAll(insts) && AllComeBack(NormalAll(insts))
  {
    if insts != [] {
      NormalOfNormal(insts[0]);
      hide Normal, ComesBack;
      assert forall i :: 0 <= i < |insts[1..]| ==> insts[1..][i] == insts[i + 1];
      NormalIsStable(insts[1..]);
      NormalAllAppend(Normal(insts[0]), NormalAll(insts[1..]));
    }
  }

  /** Printing and compiling what came back changes nothing any more. */
  lemma SecondRoundTripChangesNothing(insts: seq<Inst>, table: map<string, nat>, gates: set<string>)
    requires CanCreate(gates)
    requires AllComeBack(insts)
    ensures Recompiled(NormalAll(insts), table, gates) == Recompiled(insts, table, gates)
         == Some(Ok(MadeAll(NormalAll(insts))))
  {
    NormalIsStable(insts);
    PrintThenCompile(insts, table, gates);
    PrintThenCompile(NormalAll(insts), table, gates);
  }

  // ----- the meaning of what comes back -----

  /** No conditional, no Y and no controlled phase. */
  predicate KeepsMeaning(inst: Inst) {
    (IsFaithfulGate(inst) && !inst.Id?) || inst.Swap? || inst.Measure?
  }

  lemma NormalMatrix(t: Trig, inst: Inst)
    requires ValidTrig(t) && IsFaithfulGate(inst) && IsOneQubit(inst) && !inst.Id?
    ensures GateMat(t, Normal(inst)[0]) == ScaleMat(PhaseOf(inst), GateMat(t, inst))
  {
    hide UMat, Hadamard, RotX, RotY, RotZ, ScaleMat, ValidTrig;
    GateMatrix(t, inst);
  }

  /** One instruction and what comes back for it, from states that differ by a phase. */
  lemma NormalStep(t: Trig, oracle: nat -> bool, n: nat, inst: Inst, c: Complex, m: Machine, m': Machine)
    returns (c': Complex)
    requires ValidTrig(t) && KeepsMeaning(inst) && Fits(inst, n) && IsPhase(c) && IsState(m.state, n)
    requires m' == m.(state := Scale(c, n, m.state))
    ensures IsPhase(c')
    ensures var r := Step(t, oracle, n, inst, m);
            Run(t, oracle, n, Normal(inst), m') == r.(state := Scale(c', n, r.state))
  {
    hide One, Controlled, Exchanged, Project, Scale, GateMat, ScaleMat, IsState, ValidTrig, Mul, IsPhase;
    c' := c;
    if inst.Swap? {
      var a, b := inst.a, inst.b;
      var p := [CNOT(a, b), CNOT(b, a), CNOT(a, b)];
      var m1 := Step(t, oracle, n, CNOT(a, b), m');
      var m2 := Step(t, oracle, n, CNOT(b, a), m1);
      assert p[1..] == [CNOT(b, a), CNOT(a, b)] && p[1..][1..] == [CNOT(a, b)];
      assert Run(t, oracle, n, p, m') == Run(t, oracle, n, p[1..], m1) == Run(t, oracle, n, p[1..][1..], m2);
      RunOne(t, oracle, n, CNOT(a, b), m2);
      var s := m.state;
      ControlledScaled(c, a, b, n, s);
      ControlledScaled(c, b, a, n, Controlled(a, b, n, s));
      ControlledScaled(c, a, b, n, Controlled(b, a, n, Controlled(a, b, n, s)));
      SwapIsThreeControlled(a, b, n, s);
    } else if inst.Measure? {
      RunOne(t, oracle, n, Measure(inst.q, 0), m');
      ProjectScaled(c, inst.q, oracle(m.measured), n, m.state);
    } else if inst.CNOT? {
      RunOne(t, oracle, n, inst, m');
      ControlledScaled(c, inst.source, inst.target, n, m.state);
    } else {
      var p, u := PhaseOf(inst), Normal(inst)[0];
      RunOne(t, oracle, n, u, m');
      NormalMatrix(t, inst);
      assert Normal(inst) == [u];
      c' := Mul(c, p);
      OneScaled(c, GateMat(t, u), inst.q, n, m.state);
      OneScaled(p, GateMat(t, inst), inst.q, n, m.state);
      ScaleTwice(c, p, n, One(GateMat(t, inst), inst.q, n, m.state));
      PhaseIsPhase(inst);
      PhasesMultiply(c, p);
    }
  }

  /** What comes back runs like the original from every state: the same outcomes and record, and the
      same state up to a global phase. */
  lemma {:induction false} RoundTripKeepsMeaning(t: Trig, oracle: nat -> bool, n: nat, insts: seq<Inst>,
                                                 c: Complex, m: Machine, m': Machine)
    returns (c': Complex)
    requires ValidTrig(t) && AllFit(insts, n) && IsPhase(c) && IsState(m.state, n)
    requires forall i :: 0 <= i < |insts| ==> KeepsMeaning(insts[i])
    requires m' == m.(state := Scale(c, n, m.state))
    ensures IsPhase(c')
    ensures var r := Run(t, oracle, n, insts, m);
            Run(t, oracle, n, NormalAll(insts), m') == r.(state := Scale(c', n, r.state))
    decreases |insts|
  {
    hide Scale, IsPhase, IsState, KeepsMeaning, ValidTrig, Normal;
    if insts == [] {
      c' := c;
    } else {
      assert forall i :: 0 <= i < |insts[1..]| ==> insts[1..][i] == insts[i + 1];
      var c1 := NormalStep(t, oracle, n, insts[0], c, m, m');
      var m1 := Step(t, oracle, n, insts[0], m);
      RunConcat(t, oracle, n, Normal(insts[0]), NormalAll(insts[1..]), m');
      c' := RoundTripKeepsMeaning(t, oracle, n, insts[1..], c1, m1, m1.(state := Scale(c1, n, m1.state)));
    }
  }

  // ----- conditionals -----

  /** The instructions with every conditional replaced by its body. */
  function Erased(insts: seq<Inst>): seq<Inst> {
    if insts == [] then []
    else (if insts[0].Cond? then insts[0].body else [insts[0]]) + Erased(insts[1..])
  }

  lemma NormalAllOne(inst: Inst)
    ensures NormalAll([inst]) == Normal(inst)
  {
    assert [inst][1..] == [];
    assert Normal(inst) + [] == Normal(inst);
  }

  lemma {:induction false} ErasedComesBack(insts: seq<Inst>)
    requires AllComeBack(insts)
    ensures AllComeBack(Erased(insts)) && NormalAll(Erased(insts)) == NormalAll(insts)
  {
    if insts != [] {
      var inst, more := insts[0], insts[1..];
      var first := if inst.Cond? then inst.body else [inst];
      assert forall i :: 0 <= i < |more| ==> more[i] == insts[i + 1];
      ErasedComesBack(more);
      NormalAllOne(first[0]);
      assert first == [first[0]] && ComesBack(first[0]);
      hide Normal, ComesBack;
      NormalAllAppend(first, Erased(more));
    }
  }

  /** Conditionals do not survive: every circuit comes back as the circuit in which the conditions
      are erased and the bodies are done whatever the outcomes. */
  lemma ConditionalComesBackUnconditional(insts: seq<Inst>, table: map<string, nat>, gates: set<string>)
    requires CanCreate(gates)
    requires AllComeBack(insts)
    ensures Recompiled(insts, table, gates) == Recompiled(Erased(insts), table, gates)
  {
    ErasedComesBack(insts);
    PrintThenCompile(insts, table, gates);
    PrintThenCompile(Erased(insts), table, gates);
  }

  /** The state of n qubits that are all 0. */
  ghost function Ground(n: nat): (s: State)
    ensures IsState(s, n)
  {
    imap b: seq<bool> | |b| == n :: if forall i :: 0 <= i < n ==> !b[i] then ONE else ZERO
  }

  lemma CondCircuitRuns(t: Trig, oracle: nat -> bool, m: Machine)
    requires !oracle(0) && m.measured == 0
    ensures Run(t, oracle, 2, [Measure(0, 0), Cond(0, [X(1)])], m).state == Project(0, false, 2, m.state)
  {
    hide Project;
    var insts := [Measure(0, 0), Cond(0, [X(1)])];
    assert insts == [insts[0]] + [insts[1]];
    RunConcat(t, oracle, 2, [insts[0]], [insts[1]], m);
    RunOne(t, oracle, 2, insts[0], m);
    RunOne(t, oracle, 2, insts[1], Step(t, oracle, 2, insts[0], m));
  }

  lemma ErasedCircuitRuns(t: Trig, oracle: nat -> bool, m: Machine)
    requires !oracle(0) && m.measured == 0
    ensures Run(t, oracle, 2, Erased([Measure(0, 0), Cond(0, [X(1)])]), m).state
         == One(PAULI_X, 1, 2, Project(0, false, 2, m.state))
  {
    hide Project, One;
    var insts := [Measure(0, 0), Cond(0, [X(1)])];
    assert insts[1..] == [insts[1]] && insts[1..][1..] == [];
    assert Erased(insts[1..]) == [X(1)] + [];
    assert Erased(insts) == [Measure(0, 0)] + [X(1)];
    RunConcat(t, oracle, 2, [Measure(0, 0)], [X(1)], m);
    RunOne(t, oracle, 2, Measure(0, 0), m);
    RunOne(t, oracle, 2, X(1), Step(t, oracle, 2, Measure(0, 0), m));
  }

  /** Erasing a condition can change the program: with outcome 0 the state stays, but for the erased
      circuit it is another one, under any global phase. */
  lemma ErasingChangesMeaning(t: Trig, c: Complex)
    requires IsPhase(c)
    ensures var insts, oracle, m := [Measure(0, 0), Cond(0, [X(1)])], (k: nat) => false, Machine(Ground(2), map[], 0);
            Run(t, oracle, 2, Erased(insts), m).state != Scale(c, 2, Run(t, oracle, 2, insts, m).state)
  {
    hide One, Project, Scale, Run, Ground, At, Mul, IsPhase, Erased;
    var oracle, s := (k: nat) => false, Ground(2);
    var m := Machine(s, map[], 0);
    CondCircuitRuns(t, oracle, m);
    ErasedCircuitRuns(t, oracle, m);
    var p, zero := Project(0, false, 2, s), [false, false];
    ProjectedGround(p);
    FlippedGround(p);
    ScaleAt(c, 2, p, zero);
    MulZero(c);
    assert c != ZERO by { PhaseIsNotZero(c); }
  }

  lemma PhaseIsNotZero(c: Complex)
    requires IsPhase(c)
    ensures c != ZERO
  {
  }

  lemma ProjectedGround(p: State)
    requires p == Project(0, false, 2, Ground(2))
    ensures At(p, [false, false]) == ONE && At(p, [false, true]) == ZERO
  {
    var s, zero, one := Ground(2), [false, false], [false, true];
    assert !Bit(zero, 0) && !Bit(one, 0) && one[1];
    assert At(s, zero) == ONE && At(s, one) == ZERO;
  }

  lemma FlippedGround(p: State)
    requires At(p, [false, true]) == ZERO
    ensures At(One(PAULI_X, 1, 2, p), [false, false]) == ZERO
  {
    hide One, At, Mul;
    var zero := [false, false];
    OneAt(PAULI_X, 1, 2, p, zero);
    assert Set(zero, 1, true) == [false, true];
    MulZero(At(p, Set(zero, 1, false)));
    MulZero(ONE);
    MulZero(ZERO);
  }
}
