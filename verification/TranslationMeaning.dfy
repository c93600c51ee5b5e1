/** Running what the OpenQASM visitor emits gives what running the instructions gives. */
module TranslationMeaning {
  import opened Wrappers
  import opened Amplitudes
  import opened GateIR
  import opened Quantum
  import opened OpenQasm
  import opened Emission

  // ----- single gates -----

  /** The two matrices have the same effect on states up to a global phase. */
  ghost predicate EqualUpToPhase(a: Mat, b: Mat) {
    exists c :: IsPhase(c) && a == ScaleMat(c, b)
  }

  /** The phase by which the emitted gate differs from the instruction. */
  function PhaseOf(inst: Inst): Complex {
    if inst.H? || inst.X? || inst.Z? then MINUS_I else ONE
  }

  ghost function StmtMat(t: Trig, s: Stmt): Mat
    requires s.Apply? && OneQubitMat(t, s.name, s.params).Some?
  {
    OneQubitMat(t, s.name, s.params).value
  }

  lemma ConstantProducts(a: Complex, r: real)
    requires 2.0 * r * r == 1.0
    ensures Mul(Complex(r, r), Complex(r, -r)) == Mul(Complex(r, -r), Complex(r, r)) == ONE
    ensures Mul(Complex(r, r), Complex(r, r)) == I && Mul(Complex(r, -r), Complex(r, -r)) == MINUS_I
    ensures Mul(MINUS_I, a) == Complex(a.im, -a.re) && Mul(I, a) == Complex(-a.im, a.re)
    ensures Mul(ONE, a) == Mul(a, ONE) == a && Mul(ZERO, a) == Mul(a, ZERO) == ZERO
  {
    assert r * r + r * r == 1.0;
  }

  lemma EmittedH(t: Trig)
    requires ValidTrig(t)
    ensures UMat(t, HalfPi, Zero, Pi) == ScaleMat(MINUS_I, Hadamard(t))
  {
    hide Mul;
    ConstantProducts(I, t.r);
    ConstantProducts(MINUS_I, t.r);
    ConstantProducts(Real(t.r), t.r);
    ConstantProducts(Real(-t.r), t.r);
  }

  lemma EmittedX(t: Trig)
    requires ValidTrig(t)
    ensures UMat(t, Pi, Zero, Pi) == ScaleMat(MINUS_I, PAULI_X)
  {
    hide Mul;
    ConstantProducts(I, t.r);
    ConstantProducts(MINUS_I, t.r);
    ConstantProducts(ZERO, t.r);
    ConstantProducts(ONE, t.r);
    ConstantProducts(Neg(ONE), t.r);
  }

  lemma ConjOne()
    ensures Conj(ONE) == ONE
  {
  }

  lemma ConjI()
    ensures Conj(I) == MINUS_I
  {
  }

  lemma RealOne()
    ensures Real(ONE.re) == ONE
  {
  }

  lemma RealZero()
    ensures Real(ONE.im) == ZERO
  {
  }

  lemma RealMinusZero()
    ensures Real(-ONE.im) == ZERO
  {
  }

  lemma MinusIMinusOne()
    ensures Mul(MINUS_I, Neg(ONE)) == I
  {
  }

  lemma EmittedZ(t: Trig)
    requires ValidTrig(t)
    ensures UMat(t, Zero, Zero, Pi) == ScaleMat(MINUS_I, PAULI_Z)
  {
    hide Mul, Conj, Real, Neg;
    ConjOne();
    ConjI();
    RealOne();
    RealZero();
    RealMinusZero();
    MinusIMinusOne();
    MulZero(MINUS_I);
    MulZero(I);
    MulZero(ONE);
  }

  lemma EmittedRx(t: Trig, a: Angle)
    requires ValidTrig(t)
    ensures UMat(t, a, MinusHalfPi, HalfPi) == RotX(t, a)
  {
    hide Mul;
    ConstantProducts(Real(t.half(a).re), t.r);
    ConstantProducts(Real(-t.half(a).im), t.r);
    ConstantProducts(Real(t.half(a).im), t.r);
  }

  lemma EmittedRy(t: Trig, a: Angle)
    requires ValidTrig(t)
    ensures UMat(t, a, Zero, Zero) == RotY(t, a)
  {
    hide Mul;
    ConstantProducts(ONE, t.r);
    ConstantProducts(Real(t.half(a).re), t.r);
    ConstantProducts(Real(-t.half(a).im), t.r);
    ConstantProducts(Real(t.half(a).im), t.r);
  }

  lemma EmittedRz(t: Trig, a: Angle)
    requires ValidTrig(t)
    ensures UMat(t, Zero, Zero, a) == RotZ(t, a)
  {
    hide Mul;
    ConstantProducts(t.half(a), t.r);
    ConstantProducts(Conj(t.half(a)), t.r);
    ConstantProducts(ONE, t.r);
  }

  lemma EmittedId(t: Trig)
    requires ValidTrig(t)
    ensures UMat(t, Zero, Zero, Zero) == IDENTITY
  {
  }

  lemma ScaledByOne(m: Mat)
    ensures ScaleMat(ONE, m) == m
  {
  }

  /** The emitted statement applies the instruction's matrix times the phase PhaseOf. */
  lemma GateMatrix(t: Trig, inst: Inst)
    requires ValidTrig(t) && IsGate(inst) && IsOneQubit(inst) && !inst.Y?
    ensures OneQubitMat(t, GateStmt(inst).name, GateStmt(inst).params).Some?
    ensures StmtMat(t, GateStmt(inst)) == ScaleMat(PhaseOf(inst), GateMat(t, inst))
  {
    hide UMat, Hadamard, RotX, RotY, RotZ, ScaleMat, ValidTrig;
    ScaledByOne(GateMat(t, inst));
    match inst
    case H(_) => EmittedH(t);
    case Id(_) => EmittedId(t);
    case X(_) => EmittedX(t);
    case Z(_) => EmittedZ(t);
    case Rx(_, a) => EmittedRx(t, a);
    case Ry(_, a) => EmittedRy(t, a);
    case Rz(_, a) => EmittedRz(t, a);
    case U(_, _, _, _) =>
  }

  lemma EmittedY(t: Trig)
    requires ValidTrig(t)
    ensures var m := UMat(t, Pi, HalfPi, Pi);
            m.m01 == Complex(-t.r, -t.r) && m.m10 == Complex(t.r, -t.r)
  {
    hide Mul;
    ConstantProducts(Complex(t.r, t.r), t.r);
    ConstantProducts(Complex(t.r, -t.r), t.r);
    ConstantProducts(Neg(ONE), t.r);
    MulComm(Complex(t.r, -t.r), I);
    MulComm(Complex(t.r, t.r), MINUS_I);
    assert Conj(I) == MINUS_I;
    NegatedByReal(Complex(t.r, t.r));
    MulZero(Complex(t.r, -t.r));
  }

  lemma NegatedByReal(a: Complex)
    ensures Mul(a, Real(-1.0)) == Neg(a) && Mul(a, Real(1.0)) == a
  {
  }

  /** No phase makes the matrix emitted for Y the Pauli Y. */
  lemma EmittedYIsNotY(t: Trig)
    requires ValidTrig(t)
    ensures !EqualUpToPhase(UMat(t, Pi, HalfPi, Pi), PAULI_Y)
  {
    hide UMat, Mul;
    var m := UMat(t, Pi, HalfPi, Pi);
    EmittedY(t);
    forall c | m == ScaleMat(c, PAULI_Y)
      ensures false
    {
      ConstantProducts(c, t.r);
      MulComm(c, MINUS_I);
      MulComm(c, I);
    }
  }

  lemma EmittedYDiagonal(t: Trig)
    requires ValidTrig(t)
    ensures UMat(t, Pi, HalfPi, Pi).m00 == ZERO && UMat(t, Pi, HalfPi, Pi).m11 == ZERO
  {
    hide Mul;
    var p, l := t.half(HalfPi), t.half(Pi);
    MulZero(Mul(Conj(p), Conj(l)));
    MulZero(Mul(p, l));
  }

  lemma AntiDiagonalSquare(a: Complex, b: Complex)
    ensures MatMul(Mat(ZERO, a, b, ZERO), Mat(ZERO, a, b, ZERO)) == Mat(Mul(a, b), ZERO, ZERO, Mul(b, a))
  {
    hide Mul;
    MulZero(a);
    MulZero(b);
    MulZero(ZERO);
    MulZero(Mul(a, b));
    MulZero(Mul(b, a));
  }

  lemma EmittedYProduct(r: real)
    requires 2.0 * r * r == 1.0
    ensures Mul(Complex(-r, -r), Complex(r, -r)) == Mul(Complex(r, -r), Complex(-r, -r)) == Neg(ONE)
  {
    assert r * r + r * r == 1.0;
  }

  lemma MinusOneIsPhase()
    ensures IsPhase(Neg(ONE))
  {
  }

  lemma ImaginaryProducts()
    ensures Mul(MINUS_I, I) == ONE && Mul(I, MINUS_I) == ONE
  {
  }

  lemma MinusIdentity()
    ensures ScaleMat(Neg(ONE), MatMul(PAULI_Y, PAULI_Y)) == Mat(Neg(ONE), ZERO, ZERO, Neg(ONE))
  {
    hide Mul, MatMul, Neg;
    ImaginaryProducts();
    AntiDiagonalSquare(MINUS_I, I);
    MulZero(Neg(ONE));
  }

  /** A second Y undoes the damage of the first, so a circuit with Ys may still be kept. */
  lemma TwoEmittedYsAreTwoYs(t: Trig)
    requires ValidTrig(t)
    ensures var m := UMat(t, Pi, HalfPi, Pi);
            EqualUpToPhase(MatMul(m, m), MatMul(PAULI_Y, PAULI_Y))
  {
    hide UMat, Mul, MatMul, ScaleMat, IsPhase;
    EmittedY(t);
    EmittedYDiagonal(t);
    AntiDiagonalSquare(Complex(-t.r, -t.r), Complex(t.r, -t.r));
    EmittedYProduct(t.r);
    MinusIdentity();
    MinusOneIsPhase();
  }

  /** Among the one-qubit gates, the emitted statement has the gate's own effect, up to a global
      phase, exactly if the gate is not Y. */
  lemma GateKeptIffNotY(t: Trig, inst: Inst)
    requires ValidTrig(t) && IsGate(inst) && IsOneQubit(inst)
    ensures OneQubitMat(t, GateStmt(inst).name, GateStmt(inst).params).Some?
    ensures EqualUpToPhase(StmtMat(t, GateStmt(inst)), GateMat(t, inst)) <==> !inst.Y?
  {
    hide UMat, Hadamard, RotX, RotY, RotZ, ScaleMat, ValidTrig;
    if inst.Y? {
      EmittedYIsNotY(t);
    } else {
      GateMatrix(t, inst);
      assert IsPhase(PhaseOf(inst));
    }
  }

  // ----- circuits -----

  /** A gate whose emitted statement means the same. */
  predicate IsFaithfulGate(inst: Inst) {
    IsGate(inst) && !inst.Y?
  }

  /** The circuits the translation keeps: gates other than Y, swaps, measurements, and conditionals
      with one gate as their body on a qubit for which the visitor's map names the register of its
      last measurement. `last` maps every qubit measured so far to its last measurement number. */
  predicate Translatable(insts: seq<Inst>, counter: nat, index: Index, last: map<nat, nat>) {
    insts == [] ||
    (match insts[0]
     case Swap(_, _) => Translatable(insts[1..], counter, index, last)
     case Measure(q, _) => Translatable(insts[1..], counter + 1, Insert(index, q, counter), last[q := counter])
     case Cond(q, body) =>
       && q in last && Lookup(index, q) == last[q]
       && |body| == 1 && IsFaithfulGate(body[0])
       && Translatable(insts[1..], counter, Insert(index, q, 0), last)
     case g => IsFaithfulGate(g) && Translatable(insts[1..], counter, index, last))
  }

  /** Last measurement numbers after the instructions. */
  function LastAfter(insts: seq<Inst>, counter: nat, last: map<nat, nat>): map<nat, nat> {
    if insts == [] then last
    else if insts[0].Measure? then LastAfter(insts[1..], counter + 1, last[insts[0].q := counter])
    else LastAfter(insts[1..], counter, last)
  }

  /** The two machines agree: the states up to the phase c, register k holds outcome k, and the
      record of every measured qubit is the outcome of its last measurement. */
  ghost predicate Agree(oracle: nat -> bool, n: nat, c: Complex, counter: nat, last: map<nat, nat>,
                        im: Machine, qm: QMachine)
  {
    && IsPhase(c) && IsState(im.state, n) && qm.state == Scale(c, n, im.state)
    && im.measured == counter == qm.measured
    && (forall k: nat :: k in qm.regs <==> k < counter)
    && (forall k :: k in qm.regs ==> qm.regs[k] == oracle(k))
    && im.record.Keys == last.Keys
    && (forall q :: q in last ==> last[q] < counter && im.record[q] == oracle(last[q]))
  }

  lemma ProjectScaled(c: Complex, q: nat, o: bool, n: nat, s: State)
    ensures Project(q, o, n, Scale(c, n, s)) == Scale(c, n, Project(q, o, n, s))
  {
    var l, r := Project(q, o, n, Scale(c, n, s)), Scale(c, n, Project(q, o, n, s));
    forall b: seq<bool> {:trigger At(l, b)} | |b| == n
      ensures At(l, b) == At(r, b)
    {
      MulZero(c);
    }
    Extensional(n, l, r);
  }

  lemma ControlledScaled(c: Complex, x: nat, y: nat, n: nat, s: State)
    requires y < n
    ensures Controlled(x, y, n, Scale(c, n, s)) == Scale(c, n, Controlled(x, y, n, s))
  {
    hide Mul;
    var l, r := Controlled(x, y, n, Scale(c, n, s)), Scale(c, n, Controlled(x, y, n, s));
    forall b: seq<bool> {:trigger At(l, b)} | |b| == n
      ensures At(l, b) == At(r, b)
    {
      ControlledAt(x, y, n, Scale(c, n, s), b);
      assert |Toggled(b, x, y)| == n;
      ScaleAt(c, n, s, Toggled(b, x, y));
    }
    Extensional(n, l, r);
  }

  /** One gate, on agreeing machines. */
  lemma GateAgrees(t: Trig, oracle: nat -> bool, n: nat, inst: Inst, counter: nat, last: map<nat, nat>,
                   c: Complex, im: Machine, qm: QMachine)
    returns (c': Complex, qm': QMachine)
    requires ValidTrig(t) && IsFaithfulGate(inst) && Fits(inst, n)
    requires Agree(oracle, n, c, counter, last, im, qm)
    ensures ExecStmt(t, oracle, n, GateStmt(inst), qm) == Some(qm')
    ensures Agree(oracle, n, c', counter, last, Step(t, oracle, n, inst, im), qm')
    ensures qm'.regs == qm.regs && qm'.measured == qm.measured
  {
    hide One, Controlled, Scale, GateMat, OneQubitMat, ScaleMat, IsState, ValidTrig, Mul, IsPhase;
    if inst.CNOT? {
      c' := c;
      qm' := qm.(state := Controlled(inst.source, inst.target, n, qm.state));
      ControlledScaled(c, inst.source, inst.target, n, im.state);
    } else {
      var p := PhaseOf(inst);
      GateMatrix(t, inst);
      var m := StmtMat(t, GateStmt(inst));
      qm' := qm.(state := One(m, inst.q, n, qm.state));
      c' := Mul(c, p);
      OneScaled(c, m, inst.q, n, im.state);
      OneScaled(p, GateMat(t, inst), inst.q, n, im.state);
      ScaleTwice(c, p, n, One(GateMat(t, inst), inst.q, n, im.state));
      PhaseIsPhase(inst);
      PhasesMultiply(c, p);
    }
  }

  lemma PhaseIsPhase(inst: Inst)
    ensures IsPhase(PhaseOf(inst))
  {
  }

  lemma ExecLine(t: Trig, oracle: nat -> bool, n: nat, s: Stmt, rest: seq<Piece>, m: QMachine, m': QMachine)
    requires ExecStmt(t, oracle, n, s, m) == Some(m')
    ensures Exec(t, oracle, n, [Line(s)] + rest, m) == Exec(t, oracle, n, rest, m')
  {
    assert ([Line(s)] + rest)[1..] == rest;
  }

  lemma ExecGuarded(t: Trig, oracle: nat -> bool, n: nat, k: nat, s: Stmt, rest: seq<Piece>, m: QMachine, m': QMachine)
    requires k in m.regs && !s.Creg?
    requires if m.regs[k] then ExecStmt(t, oracle, n, s, m) == Some(m') else m' == m
    ensures Exec(t, oracle, n, [Guard(k), Line(s)] + rest, m) == Exec(t, oracle, n, rest, m')
  {
    var all := [Guard(k), Line(s)] + rest;
    assert all[1..] == [Line(s)] + rest && all[2..] == rest;
    if m.regs[k] {
      ExecLine(t, oracle, n, s, rest, m, m');
    }
  }

  lemma SwapAgrees(t: Trig, oracle: nat -> bool, n: nat, a: nat, b: nat, counter: nat, index: Index, last: map<nat, nat>,
                   c: Complex, im: Machine, qm: QMachine, rest: seq<Piece>)
    returns (qm': QMachine)
    requires Fits(Swap(a, b), n) && Agree(oracle, n, c, counter, last, im, qm)
    ensures Exec(t, oracle, n, Visit(Swap(a, b), counter, index).value.pieces + rest, qm)
         == Exec(t, oracle, n, rest, qm')
    ensures Agree(oracle, n, c, counter, last, Step(t, oracle, n, Swap(a, b), im), qm')
  {
    hide Exec, Controlled, Exchanged, Scale, IsState, IsPhase;
    var s0, s := qm.state, im.state;
    var s1 := Controlled(a, b, n, s0);
    var s2 := Controlled(b, a, n, s1);
    var s3 := Controlled(a, b, n, s2);
    qm' := qm.(state := s3);
    var c1, c2 := Line(Apply("cx", [], [a, b])), Line(Apply("cx", [], [b, a]));
    ExecLine(t, oracle, n, c1.stmt, [c2, c1] + rest, qm, qm.(state := s1));
    ExecLine(t, oracle, n, c2.stmt, [c1] + rest, qm.(state := s1), qm.(state := s2));
    ExecLine(t, oracle, n, c1.stmt, rest, qm.(state := s2), qm');
    assert [c1] + ([c2, c1] + rest) == [c1, c2, c1] + rest && [c2] + ([c1] + rest) == [c2, c1] + rest;
    ControlledScaled(c, a, b, n, s);
    ControlledScaled(c, b, a, n, Controlled(a, b, n, s));
    ControlledScaled(c, a, b, n, Controlled(b, a, n, Controlled(a, b, n, s)));
    SwapIsThreeControlled(a, b, n, s);
  }

  lemma MeasureAgrees(t: Trig, oracle: nat -> bool, n: nat, q: nat, cbit: nat, counter: nat, index: Index,
                      last: map<nat, nat>, c: Complex, im: Machine, qm: QMachine, rest: seq<Piece>)
    returns (qm': QMachine)
    requires q < n && Agree(oracle, n, c, counter, last, im, qm)
    ensures Exec(t, oracle, n, Visit(Measure(q, cbit), counter, index).value.pieces + rest, qm)
         == Exec(t, oracle, n, rest, qm')
    ensures Agree(oracle, n, c, counter + 1, last[q := counter], Step(t, oracle, n, Measure(q, cbit), im), qm')
  {
    hide Exec, Project, Scale, IsState, IsPhase, Agree;
    var o := oracle(counter);
    assert qm.measured == counter && counter !in qm.regs by { AgreeCounts(oracle, n, c, counter, last, im, qm); }
    var qm1 := qm.(regs := qm.regs[counter := false]);
    qm' := QMachine(Project(q, o, n, qm.state), qm1.regs[counter := o], counter + 1);
    var p1, p2 := Line(Creg(counter)), Line(MeasureTo(q, counter));
    ExecLine(t, oracle, n, p1.stmt, [p2] + rest, qm, qm1);
    ExecLine(t, oracle, n, p2.stmt, rest, qm1, qm');
    assert [p1] + ([p2] + rest) == [p1, p2] + rest;
    assert qm1.regs[counter := o] == qm.regs[counter := o];
    MeasuredAgrees(t, oracle, n, q, cbit, counter, last, c, im, qm);
  }

  lemma AgreeCounts(oracle: nat -> bool, n: nat, c: Complex, counter: nat, last: map<nat, nat>,
                    im: Machine, qm: QMachine)
    requires Agree(oracle, n, c, counter, last, im, qm)
    ensures qm.measured == counter && counter !in qm.regs
  {
  }

  lemma MeasuredAgrees(t: Trig, oracle: nat -> bool, n: nat, q: nat, cbit: nat, counter: nat,
                       last: map<nat, nat>, c: Complex, im: Machine, qm: QMachine)
    requires q < n && Agree(oracle, n, c, counter, last, im, qm)
    ensures var o := oracle(counter);
            Agree(oracle, n, c, counter + 1, last[q := counter], Step(t, oracle, n, Measure(q, cbit), im),
                  QMachine(Project(q, o, n, qm.state), qm.regs[counter := o], counter + 1))
  {
    hide Project, Scale, IsPhase;
    ProjectScaled(c, q, oracle(counter), n, im.state);
  }

  lemma CondAgrees(t: Trig, oracle: nat -> bool, n: nat, q: nat, g: Inst, counter: nat, index: Index,
                   last: map<nat, nat>, c: Complex, im: Machine, qm: QMachine, rest: seq<Piece>)
    returns (c': Complex, qm': QMachine)
    requires ValidTrig(t) && IsFaithfulGate(g) && Fits(g, n)
    requires q in last && Lookup(index, q) == last[q]
    requires Agree(oracle, n, c, counter, last, im, qm)
    ensures Visit(Cond(q, [g]), counter, index)
         == Ok(Emission([Guard(last[q]), Line(GateStmt(g))], [], counter, Insert(index, q, 0)))
    ensures Exec(t, oracle, n, [Guard(last[q]), Line(GateStmt(g))] + rest, qm) == Exec(t, oracle, n, rest, qm')
    ensures Agree(oracle, n, c', counter, last, Step(t, oracle, n, Cond(q, [g]), im), qm')
  {
    hide Exec, Agree, GateStmt, ExecStmt;
    VisitCond(q, g, counter, index);
    assert last[q] in qm.regs && qm.regs[last[q]] == oracle(last[q]) == im.record[q] && q in im.record by {
      AgreeRecord(oracle, n, c, counter, last, im, qm, q);
    }
    if im.record[q] {
      c', qm' := GateAgrees(t, oracle, n, g, counter, last, c, im, qm);
      RunOne(t, oracle, n, g, im);
    } else {
      c', qm' := c, qm;
    }
    assert !GateStmt(g).Creg? by { GateStmtApplies(g); }
    ExecGuarded(t, oracle, n, last[q], GateStmt(g), rest, qm, qm');
  }

  lemma GateStmtApplies(g: Inst)
    requires IsGate(g)
    ensures GateStmt(g).Apply?
  {
  }

  lemma AgreeRecord(oracle: nat -> bool, n: nat, c: Complex, counter: nat, last: map<nat, nat>,
                    im: Machine, qm: QMachine, q: nat)
    requires Agree(oracle, n, c, counter, last, im, qm) && q in last
    ensures q in im.record && last[q] in qm.regs && qm.regs[last[q]] == oracle(last[q]) == im.record[q]
  {
  }

  /** A conditional with one gate as its body: the guard and the gate's statement. */
  lemma VisitCond(q: nat, g: Inst, counter: nat, index: Index)
    requires IsGate(g)
    ensures Visit(Cond(q, [g]), counter, index)
         == Ok(Emission([Guard(Lookup(index, q)), Line(GateStmt(g))], [], counter, Insert(index, q, 0)))
  {
    var nothing := VisitAll([], 0, map[]);
    assert [g][1..] == [];
    assert VisitAll([g], 0, map[]) == Then(Visit(g, 0, map[]).value, nothing);
    assert [Line(GateStmt(g))] + [] == [Line(GateStmt(g))];
    assert VisitAll([g], 0, map[]).value.pieces == [Line(GateStmt(g))];
    assert [Guard(Lookup(index, q))] + [Line(GateStmt(g))] == [Guard(Lookup(index, q)), Line(GateStmt(g))];
  }

  function LastAfterOne(inst: Inst, counter: nat, last: map<nat, nat>): map<nat, nat> {
    if inst.Measure? then last[inst.q := counter] else last
  }

  lemma VisitFirst(insts: seq<Inst>, counter: nat, index: Index, last: map<nat, nat>)
    requires insts != [] && Translatable(insts, counter, index, last)
    ensures Visit(insts[0], counter, index).Ok?
    ensures var first := Visit(insts[0], counter, index).value;
            && Translatable(insts[1..], first.counter, first.index, LastAfterOne(insts[0], counter, last))
            && LastAfter(insts, counter, last)
               == LastAfter(insts[1..], first.counter, LastAfterOne(insts[0], counter, last))
  {
    if insts[0].Cond? {
      assert insts[0].body == [insts[0].body[0]];
      VisitCond(insts[0].q, insts[0].body[0], counter, index);
    }
  }

  lemma RunOne(t: Trig, oracle: nat -> bool, n: nat, g: Inst, m: Machine)
    ensures Run(t, oracle, n, [g], m) == Step(t, oracle, n, g, m)
  {
    assert [g][1..] == [];
  }

  /** The simulation: on agreeing machines a translatable circuit is accepted by the visitor, what
      is emitted runs without error, and the machines agree afterwards. */
  lemma {:induction false} TranslationAgrees(t: Trig, oracle: nat -> bool, n: nat, insts: seq<Inst>,
                                             counter: nat, index: Index, last: map<nat, nat>,
                                             c: Complex, im: Machine, qm: QMachine)
    returns (c': Complex, qm': QMachine)
    requires ValidTrig(t) && AllFit(insts, n)
    requires Translatable(insts, counter, index, last)
    requires Agree(oracle, n, c, counter, last, im, qm)
    ensures VisitAll(insts, counter, index).Ok?
    ensures var em := VisitAll(insts, counter, index).value;
            && Exec(t, oracle, n, em.pieces, qm) == Some(qm')
            && Agree(oracle, n, c', em.counter, LastAfter(insts, counter, last), Run(t, oracle, n, insts, im), qm')
    decreases |insts|
  {
    hide Exec, Agree, GateStmt;
    if insts == [] {
      c', qm' := c, qm;
      ExecNothing(t, oracle, n, qm);
    } else {
      VisitFirst(insts, counter, index, last);
      var inst, more, last1 := insts[0], insts[1..], LastAfterOne(insts[0], counter, last);
      var first := Visit(inst, counter, index).value;
      var next := VisitAll(more, first.counter, first.index);
      var rest: seq<Piece> := if next.Ok? then next.value.pieces else [];
      var c1, qm1 := FirstAgrees(t, oracle, n, insts, counter, index, last, c, im, qm, rest);
      c', qm' := TranslationAgrees(t, oracle, n, more, first.counter, first.index, last1,
                                   c1, Step(t, oracle, n, inst, im), qm1);
    }
  }

  lemma FirstAgrees(t: Trig, oracle: nat -> bool, n: nat, insts: seq<Inst>, counter: nat, index: Index,
                    last: map<nat, nat>, c: Complex, im: Machine, qm: QMachine, rest: seq<Piece>)
    returns (c1: Complex, qm1: QMachine)
    requires insts != [] && ValidTrig(t) && AllFit(insts, n)
    requires Translatable(insts, counter, index, last)
    requires Agree(oracle, n, c, counter, last, im, qm)
    ensures Visit(insts[0], counter, index).Ok?
    ensures var first := Visit(insts[0], counter, index).value;
            && Exec(t, oracle, n, first.pieces + rest, qm) == Exec(t, oracle, n, rest, qm1)
            && Agree(oracle, n, c1, first.counter, LastAfterOne(insts[0], counter, last),
                     Step(t, oracle, n, insts[0], im), qm1)
  {
    hide Exec, Agree, GateStmt;
    VisitFirst(insts, counter, index, last);
    var inst := insts[0];
    if inst.Swap? {
      c1 := c;
      qm1 := SwapAgrees(t, oracle, n, inst.a, inst.b, counter, index, last, c, im, qm, rest);
    } else if inst.Measure? {
      c1 := c;
      qm1 := MeasureAgrees(t, oracle, n, inst.q, inst.cbit, counter, index, last, c, im, qm, rest);
    } else if inst.Cond? {
      var g := inst.body[0];
      assert inst.body == [g] && AllFit(inst.body, n) && Fits(g, n);
      c1, qm1 := CondAgrees(t, oracle, n, inst.q, g, counter, index, last, c, im, qm, rest);
    } else {
      c1, qm1 := GateAgrees(t, oracle, n, inst, counter, last, c, im, qm);
      ExecLine(t, oracle, n, GateStmt(inst), rest, qm, qm1);
    }
  }

  lemma ExecNothing(t: Trig, oracle: nat -> bool, n: nat, m: QMachine)
    ensures Exec(t, oracle, n, [], m) == Some(m)
  {
  }

  // ----- which register a conditional tests -----

  /** The numbers, in order, of the measurements of q among the instructions. */
  function MeasureNumbers(insts: seq<Inst>, q: nat, counter: nat): seq<nat> {
    if insts == [] then []
    else if insts[0].Measure? then
      (if insts[0].q == q then [counter] else []) + MeasureNumbers(insts[1..], q, counter + 1)
    else MeasureNumbers(insts[1..], q, counter)
  }

  /** A conditional on q comes before any measurement of q. */
  predicate TestedFirst(insts: seq<Inst>, q: nat) {
    insts != [] &&
    (if insts[0].Cond? && insts[0].q == q then true
     else if insts[0].Measure? && insts[0].q == q then false
     else TestedFirst(insts[1..], q))
  }

  lemma {:induction false} IndexStays(insts: seq<Inst>, counter: nat, index: Index, q: nat)
    requires VisitAll(insts, counter, index).Ok? && q in index
    ensures q in VisitAll(insts, counter, index).value.index
    ensures VisitAll(insts, counter, index).value.index[q] == index[q]
  {
    if insts != [] {
      var first := Visit(insts[0], counter, index).value;
      IndexStays(insts[1..], first.counter, first.index, q);
    }
  }

  lemma {:induction false} NumbersIncrease(insts: seq<Inst>, q: nat, counter: nat)
    ensures forall i :: 0 <= i < |MeasureNumbers(insts, q, counter)| ==> counter <= MeasureNumbers(insts, q, counter)[i]
    ensures forall i, j :: 0 <= i < j < |MeasureNumbers(insts, q, counter)| ==>
              MeasureNumbers(insts, q, counter)[i] < MeasureNumbers(insts, q, counter)[j]
  {
    if insts != [] {
      NumbersIncrease(insts[1..], q, if insts[0].Measure? then counter + 1 else counter);
    }
  }

  lemma {:induction false} LastIsLast(insts: seq<Inst>, q: nat, counter: nat, last: map<nat, nat>)
    ensures var numbers, after := MeasureNumbers(insts, q, counter), LastAfter(insts, counter, last);
            if numbers == [] then (q in after <==> q in last) && (q in last ==> after[q] == last[q])
            else q in after && after[q] == numbers[|numbers| - 1]
  {
    if insts != [] {
      if insts[0].Measure? {
        LastIsLast(insts[1..], q, counter + 1, last[insts[0].q := counter]);
      } else {
        LastIsLast(insts[1..], q, counter, last);
      }
    }
  }

  lemma {:induction false} IndexIsFirst(insts: seq<Inst>, q: nat, counter: nat, index: Index)
    requires VisitAll(insts, counter, index).Ok? && q !in index
    ensures var numbers := MeasureNumbers(insts, q, counter);
            Lookup(VisitAll(insts, counter, index).value.index, q)
            == if TestedFirst(insts, q) || numbers == [] then 0 else numbers[0]
  {
    if insts != [] {
      var first := Visit(insts[0], counter, index).value;
      if q in first.index {
        IndexStays(insts[1..], first.counter, first.index, q);
      } else {
        IndexIsFirst(insts[1..], q, first.counter, first.index);
      }
    }
  }

  /** After any accepted instructions, the register a conditional on q would test is the one of q's
      last measurement exactly if q was measured once and either was not tested before that
      or its measurement is the very first of the circuit. */
  lemma RegisterIsLastIff(insts: seq<Inst>, q: nat)
    requires VisitAll(insts, 0, map[]).Ok?
    ensures var em, last := VisitAll(insts, 0, map[]).value, LastAfter(insts, 0, map[]);
            var numbers := MeasureNumbers(insts, q, 0);
            (q in last && Lookup(em.index, q) == last[q])
            <==> |numbers| == 1 && (TestedFirst(insts, q) ==> numbers[0] == 0)
  {
    IndexIsFirst(insts, q, 0, map[]);
    LastIsLast(insts, q, 0, map[]);
    NumbersIncrease(insts, q, 0);
  }

  /** A conditional on a qubit that was never measured silently tests register c0. */
  lemma UnmeasuredTestsFirstRegister(insts: seq<Inst>, q: nat)
    requires VisitAll(insts, 0, map[]).Ok? && MeasureNumbers(insts, q, 0) == []
    ensures Lookup(VisitAll(insts, 0, map[]).value.index, q) == 0
  {
    IndexIsFirst(insts, q, 0, map[]);
  }

  /** A qubit measured twice: the conditional tests the register of the first measurement. */
  lemma SecondMeasurementIsNotTested()
    ensures var insts := [Measure(0, 0), Measure(0, 0)];
            && VisitAll(insts, 0, map[]).Ok?
            && Lookup(VisitAll(insts, 0, map[]).value.index, 0) == 0
            && LastAfter(insts, 0, map[]) == map[0 := 1]
  {
  }

  // ----- the circuits the translation keeps, by their instructions -----

  /** After these instructions a conditional on q tests the register of q's last measurement: q was
      measured once, and was not tested before that unless it was measured first of all. */
  predicate TestsLast(before: seq<Inst>, q: nat) {
    var numbers := MeasureNumbers(before, q, 0);
    |numbers| == 1 && (TestedFirst(before, q) ==> numbers[0] == 0)
  }

  /** A gate other than Y, a swap, a measurement, or a conditional around one gate other than Y. */
  predicate IsKept(inst: Inst) {
    || IsFaithfulGate(inst) || inst.Swap? || inst.Measure?
    || (inst.Cond? && |inst.body| == 1 && IsFaithfulGate(inst.body[0]))
  }

  predicate KeptCircuit(insts: seq<Inst>) {
    && (forall i :: 0 <= i < |insts| ==> IsKept(insts[i]))
    && (forall i :: 0 <= i < |insts| && insts[i].Cond? ==> TestsLast(insts[..i], insts[i].q))
  }

  /** One instruction is translatable in the visitor's present state. */
  predicate TranslatableOne(inst: Inst, index: Index, last: map<nat, nat>) {
    IsKept(inst) && (inst.Cond? ==> inst.q in last && Lookup(index, inst.q) == last[inst.q])
  }

  lemma TranslatableStep(insts: seq<Inst>, counter: nat, index: Index, last: map<nat, nat>)
    requires insts != [] && Visit(insts[0], counter, index).Ok?
    ensures var first := Visit(insts[0], counter, index).value;
            Translatable(insts, counter, index, last)
            <==> TranslatableOne(insts[0], index, last)
                 && Translatable(insts[1..], first.counter, first.index, LastAfterOne(insts[0], counter, last))
  {
    var inst := insts[0];
    if inst.Cond? {
      VisitCondBody(inst.q, inst.body, counter, index);
    }
  }

  lemma LastAfterStep(insts: seq<Inst>, counter: nat, index: Index, last: map<nat, nat>)
    requires insts != [] && Visit(insts[0], counter, index).Ok?
    ensures LastAfter(insts, counter, last)
         == LastAfter(insts[1..], Visit(insts[0], counter, index).value.counter, LastAfterOne(insts[0], counter, last))
  {
    if insts[0].Cond? {
      VisitCondBody(insts[0].q, insts[0].body, counter, index);
    }
  }

  lemma {:induction false} TranslatableSnoc(insts: seq<Inst>, inst: Inst, counter: nat, index: Index,
                                            last: map<nat, nat>)
    requires VisitAll(insts, counter, index).Ok? && Visit(inst, counter, index).Ok?
    requires Visit(inst, VisitAll(insts, counter, index).value.counter, VisitAll(insts, counter, index).value.index).Ok?
    ensures Translatable(insts + [inst], counter, index, last)
            <==> Translatable(insts, counter, index, last)
                 && TranslatableOne(inst, VisitAll(insts, counter, index).value.index, LastAfter(insts, counter, last))
  {
    hide Visit, Translatable, TranslatableOne, LastAfter, LastAfterOne;
    if insts == [] {
      VisitAllNone(counter, index);
      TranslatableNone(counter, index, last);
      assert insts + [inst] == [inst] && [inst][1..] == [];
      TranslatableStep([inst], counter, index, last);
      var first := Visit(inst, counter, index).value;
      TranslatableNone(first.counter, first.index, LastAfterOne(inst, counter, last));
    } else {
      VisitAllStep(insts, counter, index);
      var all, more := insts + [inst], insts[1..];
      assert all[0] == insts[0] && all[1..] == more + [inst];
      var first := Visit(insts[0], counter, index).value;
      VisitNeverDepends(inst, counter, index, first.counter, first.index);
      TranslatableStep(insts, counter, index, last);
      TranslatableStep(all, counter, index, last);
      LastAfterStep(insts, counter, index, last);
      TranslatableSnoc(more, inst, first.counter, first.index, LastAfterOne(insts[0], counter, last));
    }
  }

  lemma TranslatableNone(counter: nat, index: Index, last: map<nat, nat>)
    ensures Translatable([], counter, index, last) && LastAfter([], counter, last) == last
  {
  }

  /** Whether a visit is an error depends on the instruction alone. */
  lemma VisitNeverDepends(inst: Inst, counter: nat, index: Index, counter': nat, index': Index)
    ensures Visit(inst, counter, index).Ok? <==> Visit(inst, counter', index').Ok?
  {
    if inst.Cond? {
      VisitCondBody(inst.q, inst.body, counter, index);
      VisitCondBody(inst.q, inst.body, counter', index');
    }
  }

  lemma KeptIsVisited(inst: Inst, counter: nat, index: Index)
    requires IsKept(inst)
    ensures Visit(inst, counter, index).Ok?
  {
    if inst.Cond? {
      assert inst.body == [inst.body[0]];
      VisitCond(inst.q, inst.body[0], counter, index);
    }
  }

  lemma {:induction false} KeptAreVisited(insts: seq<Inst>, counter: nat, index: Index)
    requires forall i :: 0 <= i < |insts| ==> IsKept(insts[i])
    ensures VisitAll(insts, counter, index).Ok?
  {
    if insts != [] {
      KeptIsVisited(insts[0], counter, index);
      hide Visit, IsKept;
      var first := Visit(insts[0], counter, index).value;
      assert forall i :: 0 <= i < |insts[1..]| ==> insts[1..][i] == insts[i + 1];
      KeptAreVisited(insts[1..], first.counter, first.index);
    }
  }

  lemma {:induction false} TranslatableKinds(insts: seq<Inst>, counter: nat, index: Index, last: map<nat, nat>)
    requires Translatable(insts, counter, index, last)
    ensures forall i :: 0 <= i < |insts| ==> IsKept(insts[i])
  {
    if insts != [] {
      VisitFirst(insts, counter, index, last);
      var first := Visit(insts[0], counter, index).value;
      TranslatableStep(insts, counter, index, last);
      TranslatableKinds(insts[1..], first.counter, first.index, LastAfterOne(insts[0], counter, last));
    }
  }

  lemma KeptSnoc(insts: seq<Inst>)
    requires insts != []
    ensures var n := |insts| - 1;
            KeptCircuit(insts) <==> KeptCircuit(insts[..n]) && IsKept(insts[n])
                                    && (insts[n].Cond? ==> TestsLast(insts[..n], insts[n].q))
  {
    hide IsKept, TestsLast;
    var n := |insts| - 1;
    assert forall i :: 0 <= i < n ==> insts[..n][i] == insts[i] && insts[..n][..i] == insts[..i];
  }

  /** The condition on the visitor's map is a condition on the circuit: every conditional comes
      after exactly one measurement of its qubit, and after no test of the qubit before that
      measurement unless the measurement is the first of the circuit. */
  lemma {:induction false} TranslatableIffKept(insts: seq<Inst>)
    ensures Translatable(insts, 0, map[], map[]) <==> KeptCircuit(insts)
    decreases |insts|
  {
    hide Translatable, IsKept, TestsLast, VisitAll, Visit, LastAfter, TranslatableOne, KeptCircuit;
    if insts == [] {
      TranslatableNone(0, map[], map[]);
      assert KeptCircuit([]) by { KeptNone(); }
    } else {
      var n := |insts| - 1;
      var before, inst := insts[..n], insts[n];
      assert insts == before + [inst];
      TranslatableIffKept(before);
      KeptSnoc(insts);
      if KeptCircuit(before) && IsKept(inst) {
        LastTranslatable(before, inst);
      } else if Translatable(insts, 0, map[], map[]) {
        PrefixTranslatable(before, inst);
        assert false;
      }
    }
  }

  lemma KeptNone()
    ensures KeptCircuit([])
  {
  }

  lemma LastTranslatable(before: seq<Inst>, inst: Inst)
    requires KeptCircuit(before) && IsKept(inst)
    ensures Translatable(before + [inst], 0, map[], map[])
            <==> Translatable(before, 0, map[], map[]) && (inst.Cond? ==> TestsLast(before, inst.q))
  {
    KeptAreVisited(before, 0, map[]);
    var em := VisitAll(before, 0, map[]).value;
    KeptIsVisited(inst, 0, map[]);
    KeptIsVisited(inst, em.counter, em.index);
    TranslatableSnoc(before, inst, 0, map[], map[]);
    if inst.Cond? {
      RegisterIsLastIff(before, inst.q);
    }
  }

  lemma PrefixTranslatable(before: seq<Inst>, inst: Inst)
    requires Translatable(before + [inst], 0, map[], map[])
    ensures Translatable(before, 0, map[], map[]) && IsKept(inst)
  {
    var all := before + [inst];
    TranslatableKinds(all, 0, map[], map[]);
    assert all[|before|] == inst && forall i :: 0 <= i < |before| ==> all[i] == before[i];
    KeptAreVisited(before, 0, map[]);
    var em := VisitAll(before, 0, map[]).value;
    KeptIsVisited(inst, 0, map[]);
    KeptIsVisited(inst, em.counter, em.index);
    TranslatableSnoc(before, inst, 0, map[], map[]);
  }

  // ----- circuits that measure every qubit at most once -----

  lemma {:induction false} MeasuredAtMostOnce(insts: seq<Inst>, q: nat, counter: nat)
    requires forall i, j :: 0 <= i < j < |insts| && insts[i].Measure? && insts[j].Measure? ==> insts[i].q != insts[j].q
    ensures |MeasureNumbers(insts, q, counter)| <= 1
    ensures MeasureNumbers(insts, q, counter) != []
            <==> exists i :: 0 <= i < |insts| && insts[i].Measure? && insts[i].q == q
  {
    if insts != [] {
      var more := insts[1..];
      assert forall i :: 0 <= i < |more| ==> more[i] == insts[i + 1];
      MeasuredAtMostOnce(more, q, if insts[0].Measure? then counter + 1 else counter);
      if i :| 0 <= i < |insts| && insts[i].Measure? && insts[i].q == q {
        assert i > 0 ==> more[i - 1] == insts[i];
      }
    }
  }

  lemma {:induction false} NotTestedFirst(insts: seq<Inst>, q: nat)
    requires forall i :: 0 <= i < |insts| && insts[i].Cond? && insts[i].q == q ==>
               exists j :: 0 <= j < i && insts[j].Measure? && insts[j].q == q
    ensures !TestedFirst(insts, q)
  {
    if insts != [] && !(insts[0].Measure? && insts[0].q == q) {
      var more := insts[1..];
      assert forall i :: 0 <= i < |more| ==> more[i] == insts[i + 1];
      forall i | 0 <= i < |more| && more[i].Cond? && more[i].q == q
        ensures exists j :: 0 <= j < i && more[j].Measure? && more[j].q == q
      {
        var j :| 0 <= j < i + 1 && insts[j].Measure? && insts[j].q == q;
        assert more[j - 1] == insts[j];
      }
      NotTestedFirst(more, q);
    }
  }

  /** Circuits that measure no qubit twice and test only qubits already measured are kept. */
  lemma SingleMeasurementsAreKept(insts: seq<Inst>)
    requires forall i :: 0 <= i < |insts| ==> IsKept(insts[i])
    requires forall i, j :: 0 <= i < j < |insts| && insts[i].Measure? && insts[j].Measure? ==> insts[i].q != insts[j].q
    requires forall i :: 0 <= i < |insts| && insts[i].Cond? ==>
               exists j :: 0 <= j < i && insts[j].Measure? && insts[j].q == insts[i].q
    ensures KeptCircuit(insts)
  {
    hide IsKept;
    forall i | 0 <= i < |insts| && insts[i].Cond?
      ensures TestsLast(insts[..i], insts[i].q)
    {
      var before, q := insts[..i], insts[i].q;
      assert forall k :: 0 <= k < i ==> before[k] == insts[k];
      MeasuredAtMostOnce(before, q, 0);
      NotTestedFirst(before, q);
      var j :| 0 <= j < i && insts[j].Measure? && insts[j].q == q;
      assert before[j] == insts[j];
    }
  }

  // ----- the main theorem -----

  /** Main theorem: for every circuit that is kept, initial state and sequence of outcomes, the
      emitted program runs, ends in the circuit's state up to a global phase, has register k equal
      to outcome k, and so has every measured qubit's last outcome in the register `last` names. */
  lemma TranslationKeepsMeaning(t: Trig, oracle: nat -> bool, n: nat, insts: seq<Inst>, s: State)
    returns (c: Complex, qm: QMachine)
    requires ValidTrig(t) && AllFit(insts, n) && IsState(s, n)
    requires KeptCircuit(insts)
    ensures VisitAll(insts, 0, map[]).Ok?
    ensures Exec(t, oracle, n, VisitAll(insts, 0, map[]).value.pieces, QMachine(s, map[], 0)) == Some(qm)
    ensures var im := Run(t, oracle, n, insts, Machine(s, map[], 0));
            && IsPhase(c) && qm.state == Scale(c, n, im.state)
            && qm.measured == im.measured == VisitAll(insts, 0, map[]).value.counter
            && (forall k: nat :: k in qm.regs <==> k < qm.measured)
            && (forall k :: k in qm.regs ==> qm.regs[k] == oracle(k))
            && (forall q :: q in im.record <==> q in LastAfter(insts, 0, map[]))
            && (forall q :: q in im.record ==>
                  var k := LastAfter(insts, 0, map[])[q]; k in qm.regs && qm.regs[k] == im.record[q])
  {
    TranslatableIffKept(insts);
    var im0, qm0 := Machine(s, map[], 0), QMachine(s, map[], 0);
    ScaledOnce(n, s);
    hide Exec, Run, VisitAll, Scale, LastAfter, Translatable, KeptCircuit;
    assert IsPhase(ONE);
    assert qm0.state == Scale(ONE, n, im0.state);
    var none: map<nat, nat> := map[];
    assert im0.record.Keys == none.Keys;
    assert forall k: nat :: k in qm0.regs <==> k < 0;
    c, qm := TranslationAgrees(t, oracle, n, insts, 0, map[], none, ONE, im0, qm0);
  }
}
