/** Meaning of circuits: states of n qubits as amplitudes indexed by bit strings, gates as
    matrices, and measurement as projection on an outcome supplied by an oracle. */
module Quantum {
  import opened Amplitudes
  import opened GateIR

  type State = imap<seq<bool>, Complex>

  datatype Mat = Mat(m00: Complex, m01: Complex, m10: Complex, m11: Complex)

  /** An interpretation of angles: half(a) stands for e^(i a/2) and r for 1/sqrt 2. */
  datatype Trig = Trig(half: Angle -> Complex, r: real)

  ghost predicate ValidTrig(t: Trig) {
    && 2.0 * t.r * t.r == 1.0
    && t.half(Zero) == ONE
    && t.half(Pi) == I
    && t.half(HalfPi) == Complex(t.r, t.r)
    && t.half(MinusHalfPi) == Complex(t.r, -t.r)
  }

  ghost predicate IsState(s: State, n: nat) {
    forall b {:trigger b in s} :: b in s <==> |b| == n
  }

  /** Amplitude of basis state b; basis states of another length have none. */
  ghost function At(s: State, b: seq<bool>): Complex {
    if b in s then s[b] else ZERO
  }

  predicate Bit(b: seq<bool>, q: nat) {
    q < |b| && b[q]
  }

  function Set(b: seq<bool>, q: nat, v: bool): seq<bool> {
    if q < |b| then b[q := v] else b
  }

  // ----- gates on states of n qubits -----

  /** Row `bit` of m times the column (x, y). */
  function Row(m: Mat, bit: bool, x: Complex, y: Complex): Complex {
    if bit then Add(Mul(m.m10, x), Mul(m.m11, y)) else Add(Mul(m.m00, x), Mul(m.m01, y))
  }

  ghost function One(m: Mat, q: nat, n: nat, s: State): (r: State)
    ensures IsState(r, n)
  {
    imap b: seq<bool> | |b| == n :: Row(m, Bit(b, q), At(s, Set(b, q, false)), At(s, Set(b, q, true)))
  }

  function Toggled(b: seq<bool>, c: nat, t: nat): seq<bool> {
    if Bit(b, c) then Set(b, t, !Bit(b, t)) else b
  }

  ghost function Controlled(c: nat, t: nat, n: nat, s: State): (r: State)
    ensures IsState(r, n)
  {
    imap b: seq<bool> | |b| == n :: At(s, Toggled(b, c, t))
  }

  /** Multiplies the amplitudes of the basis states with both qubits set. */
  ghost function ControlledPhase(p: Complex, c: nat, t: nat, n: nat, s: State): (r: State)
    ensures IsState(r, n)
  {
    imap b: seq<bool> | |b| == n :: if Bit(b, c) && Bit(b, t) then Mul(p, At(s, b)) else At(s, b)
  }

  ghost function Exchanged(x: nat, y: nat, n: nat, s: State): (r: State)
    ensures IsState(r, n)
  {
    imap b: seq<bool> | |b| == n :: At(s, Set(Set(b, x, Bit(b, y)), y, Bit(b, x)))
  }

  ghost function Project(q: nat, o: bool, n: nat, s: State): (r: State)
    ensures IsState(r, n)
  {
    imap b: seq<bool> | |b| == n :: if Bit(b, q) == o then At(s, b) else ZERO
  }

  ghost function Scale(c: Complex, n: nat, s: State): (r: State)
    ensures IsState(r, n)
  {
    imap b: seq<bool> | |b| == n :: Mul(c, At(s, b))
  }

  // ----- textbook matrices -----

  ghost function Hadamard(t: Trig): Mat {
    Mat(Real(t.r), Real(t.r), Real(t.r), Real(-t.r))
  }

  const PAULI_X := Mat(ZERO, ONE, ONE, ZERO)
  const PAULI_Y := Mat(ZERO, MINUS_I, I, ZERO)
  const PAULI_Z := Mat(ONE, ZERO, ZERO, Neg(ONE))
  const IDENTITY := Mat(ONE, ZERO, ZERO, ONE)

  ghost function RotX(t: Trig, a: Angle): Mat {
    var h := t.half(a);
    Mat(Real(h.re), Complex(0.0, -h.im), Complex(0.0, -h.im), Real(h.re))
  }

  ghost function RotY(t: Trig, a: Angle): Mat {
    var h := t.half(a);
    Mat(Real(h.re), Real(-h.im), Real(h.im), Real(h.re))
  }

  ghost function RotZ(t: Trig, a: Angle): Mat {
    Mat(Conj(t.half(a)), ZERO, ZERO, t.half(a))
  }

  /** The built-in gate U(theta, phi, lambda) = Rz(phi) Ry(theta) Rz(lambda) of OpenQASM 2.0, section 3.1
      of arXiv:1707.03429. */
  ghost function UMat(t: Trig, theta: Angle, phi: Angle, lambda: Angle): Mat {
    var h, p, l := t.half(theta), t.half(phi), t.half(lambda);
    Mat(Mul(Mul(Conj(p), Conj(l)), Real(h.re)),
        Mul(Mul(Conj(p), l), Real(-h.im)),
        Mul(Mul(p, Conj(l)), Real(h.im)),
        Mul(Mul(p, l), Real(h.re)))
  }

  ghost function MatMul(a: Mat, b: Mat): Mat {
    Mat(Add(Mul(a.m00, b.m00), Mul(a.m01, b.m10)), Add(Mul(a.m00, b.m01), Mul(a.m01, b.m11)),
        Add(Mul(a.m10, b.m00), Mul(a.m11, b.m10)), Add(Mul(a.m10, b.m01), Mul(a.m11, b.m11)))
  }

  ghost function ScaleMat(c: Complex, m: Mat): Mat {
    Mat(Mul(c, m.m00), Mul(c, m.m01), Mul(c, m.m10), Mul(c, m.m11))
  }

  lemma DiagonalProduct(a: Complex, d: Complex, m: Mat)
    ensures MatMul(Mat(a, ZERO, ZERO, d), m) == Mat(Mul(a, m.m00), Mul(a, m.m01), Mul(d, m.m10), Mul(d, m.m11))
    ensures MatMul(m, Mat(a, ZERO, ZERO, d)) == Mat(Mul(m.m00, a), Mul(m.m01, d), Mul(m.m10, a), Mul(m.m11, d))
  {
    MulZero(Mul(a, m.m00)); MulZero(Mul(a, m.m01)); MulZero(Mul(d, m.m10)); MulZero(Mul(d, m.m11));
    MulZero(Mul(m.m00, a)); MulZero(Mul(m.m01, d)); MulZero(Mul(m.m10, a)); MulZero(Mul(m.m11, d));
    MulZero(m.m00); MulZero(m.m01); MulZero(m.m10); MulZero(m.m11);
  }

  /** UMat is the product of rotations that OpenQASM 2.0 defines it to be. */
  lemma UIsZYZ(t: Trig, theta: Angle, phi: Angle, lambda: Angle)
    ensures UMat(t, theta, phi, lambda) == MatMul(RotZ(t, phi), MatMul(RotY(t, theta), RotZ(t, lambda)))
  {
    var h, p, l := t.half(theta), t.half(phi), t.half(lambda);
    DiagonalProduct(Conj(l), l, RotY(t, theta));
    DiagonalProduct(Conj(p), p, MatMul(RotY(t, theta), RotZ(t, lambda)));
    Rearranged(Conj(p), Conj(l), Real(h.re));
    Rearranged(Conj(p), l, Real(-h.im));
    Rearranged(p, Conj(l), Real(h.im));
    Rearranged(p, l, Real(h.re));
  }

  lemma Rearranged(p: Complex, l: Complex, x: Complex)
    ensures Mul(Mul(p, l), x) == Mul(p, Mul(x, l))
  {
    MulAssoc(p, l, x);
    MulComm(l, x);
  }

  // ----- running instructions -----

  /** What an execution knows: the (unnormalised) state, the last outcome of every measured qubit,
      and how many measurements were made. Outcome k of a run is oracle(k). */
  datatype Machine = Machine(state: State, record: map<nat, bool>, measured: nat)

  predicate Fits(inst: Inst, n: nat) {
    match inst
    case CNOT(s, t) => s < n && t < n && s != t
    case CZ(s, t) => s < n && t < n && s != t
    case CPhase(s, t, _) => s < n && t < n && s != t
    case Swap(a, b) => a < n && b < n && a != b
    case Cond(q, body) => q < n && AllFit(body, n)
    case _ => inst.q < n
  }

  predicate AllFit(insts: seq<Inst>, n: nat) {
    insts == [] || (Fits(insts[0], n) && AllFit(insts[1..], n))
  }

  lemma {:induction false} AllFitConcat(a: seq<Inst>, b: seq<Inst>, n: nat)
    ensures AllFit(a + b, n) <==> AllFit(a, n) && AllFit(b, n)
  {
    if a == [] {
      assert a + b == b;
    } else {
      assert (a + b)[1..] == a[1..] + b;
      AllFitConcat(a[1..], b, n);
    }
  }

  /** The matrix of a one-qubit gate. */
  ghost function GateMat(t: Trig, inst: Inst): Mat
    requires IsOneQubit(inst)
  {
    match inst
    case H(_) => Hadamard(t)
    case X(_) => PAULI_X
    case Y(_) => PAULI_Y
    case Z(_) => PAULI_Z
    case Rx(_, a) => RotX(t, a)
    case Ry(_, a) => RotY(t, a)
    case Rz(_, a) => RotZ(t, a)
    case U(_, a, b, c) => UMat(t, a, b, c)
    case _ => IDENTITY
  }

  predicate IsOneQubit(inst: Inst) {
    inst.H? || inst.Id? || inst.X? || inst.Y? || inst.Z? || inst.Rx? || inst.Ry? || inst.Rz? || inst.U?
  }

  /** One instruction. A conditional on a qubit with no recorded outcome is not taken. */
  ghost function Step(t: Trig, oracle: nat -> bool, n: nat, inst: Inst, m: Machine): (r: Machine)
    ensures IsState(m.state, n) ==> IsState(r.state, n)
    decreases inst, 0
  {
    match inst
    case CNOT(c, x) => m.(state := Controlled(c, x, n, m.state))
    case CZ(c, x) => m.(state := ControlledPhase(Neg(ONE), c, x, n, m.state))
    case CPhase(c, x, a) => m.(state := ControlledPhase(Mul(t.half(a), t.half(a)), c, x, n, m.state))
    case Swap(x, y) => m.(state := Exchanged(x, y, n, m.state))
    case Measure(q, _) =>
      var o := oracle(m.measured);
      Machine(Project(q, o, n, m.state), m.record[q := o], m.measured + 1)
    case Cond(q, body) =>
      if q in m.record && m.record[q] then Run(t, oracle, n, body, m) else m
    case _ => m.(state := One(GateMat(t, inst), inst.q, n, m.state))
  }

  ghost function Run(t: Trig, oracle: nat -> bool, n: nat, insts: seq<Inst>, m: Machine): (r: Machine)
    ensures IsState(m.state, n) ==> IsState(r.state, n)
    decreases insts
  {
    if insts == [] then m
    else Run(t, oracle, n, insts[1..], Step(t, oracle, n, insts[0], m))
  }

  lemma {:induction false} RunConcat(t: Trig, oracle: nat -> bool, n: nat, a: seq<Inst>, b: seq<Inst>, m: Machine)
    ensures Run(t, oracle, n, a + b, m) == Run(t, oracle, n, b, Run(t, oracle, n, a, m))
  {
    if a == [] {
      assert a + b == b;
    } else {
      assert (a + b)[1..] == a[1..] + b;
      RunConcat(t, oracle, n, a[1..], b, Step(t, oracle, n, a[0], m));
    }
  }

  // ----- the gates, one amplitude at a time -----

  lemma Extensional(n: nat, s: State, r: State)
    requires IsState(s, n) && IsState(r, n)
    requires forall b {:trigger At(s, b)} | |b| == n :: At(s, b) == At(r, b)
    ensures s == r
  {
    forall b | b in s
      ensures s[b] == r[b]
    {
      assert At(s, b) == At(r, b);
    }
  }

  lemma OneAt(m: Mat, q: nat, n: nat, s: State, b: seq<bool>)
    requires |b| == n
    ensures At(One(m, q, n, s), b) == Row(m, Bit(b, q), At(s, Set(b, q, false)), At(s, Set(b, q, true)))
  {
  }

  lemma ControlledAt(c: nat, t: nat, n: nat, s: State, b: seq<bool>)
    requires |b| == n
    ensures At(Controlled(c, t, n, s), b) == At(s, Toggled(b, c, t))
  {
  }

  lemma ExchangedAt(x: nat, y: nat, n: nat, s: State, b: seq<bool>)
    requires |b| == n
    ensures At(Exchanged(x, y, n, s), b) == At(s, Set(Set(b, x, Bit(b, y)), y, Bit(b, x)))
  {
  }

  lemma ScaleAt(c: Complex, n: nat, s: State, b: seq<bool>)
    requires |b| == n
    ensures At(Scale(c, n, s), b) == Mul(c, At(s, b))
  {
  }

  // ----- algebra of gates on states -----

  lemma OneScaled(c: Complex, m: Mat, q: nat, n: nat, s: State)
    ensures One(m, q, n, Scale(c, n, s)) == Scale(c, n, One(m, q, n, s))
    ensures One(ScaleMat(c, m), q, n, s) == Scale(c, n, One(m, q, n, s))
  {
    hide One, Scale, Row, ScaleMat, Mul, At;
    var l1, l2, r := One(m, q, n, Scale(c, n, s)), One(ScaleMat(c, m), q, n, s), Scale(c, n, One(m, q, n, s));
    forall b: seq<bool> {:trigger At(l1, b)} {:trigger At(l2, b)} | |b| == n
      ensures At(l1, b) == At(l2, b) == At(r, b)
    {
      OneAt(m, q, n, Scale(c, n, s), b);
      OneAt(ScaleMat(c, m), q, n, s, b);
      OneAt(m, q, n, s, b);
      ScaleAt(c, n, One(m, q, n, s), b);
      ScaleAt(c, n, s, Set(b, q, false));
      ScaleAt(c, n, s, Set(b, q, true));
      RowScaled(c, m, Bit(b, q), At(s, Set(b, q, false)), At(s, Set(b, q, true)));
    }
    Extensional(n, l1, r);
    Extensional(n, l2, r);
  }

  lemma RowScaled(c: Complex, m: Mat, bit: bool, x: Complex, y: Complex)
    ensures Row(m, bit, Mul(c, x), Mul(c, y)) == Row(ScaleMat(c, m), bit, x, y) == Mul(c, Row(m, bit, x, y))
  {
    if bit {
      DotScaled(c, m.m10, m.m11, x, y);
    } else {
      DotScaled(c, m.m00, m.m01, x, y);
    }
  }

  lemma ScaleTwice(c: Complex, d: Complex, n: nat, s: State)
    ensures Scale(c, n, Scale(d, n, s)) == Scale(Mul(c, d), n, s)
  {
    hide Scale, Mul, At;
    var l, r := Scale(c, n, Scale(d, n, s)), Scale(Mul(c, d), n, s);
    forall b: seq<bool> {:trigger At(l, b)} | |b| == n
      ensures At(l, b) == At(r, b)
    {
      ScaleAt(c, n, Scale(d, n, s), b);
      ScaleAt(d, n, s, b);
      ScaleAt(Mul(c, d), n, s, b);
      MulAssoc(c, d, At(s, b));
    }
    Extensional(n, l, r);
  }

  lemma ScaledOnce(n: nat, s: State)
    requires IsState(s, n)
    ensures Scale(ONE, n, s) == s
  {
    forall b: seq<bool> {:trigger At(s, b)} | |b| == n
      ensures At(s, b) == At(Scale(ONE, n, s), b)
    {
      MulZero(At(s, b));
    }
    Extensional(n, s, Scale(ONE, n, s));
  }

  /** A swap is three alternating CNOTs. */
  lemma SwapIsThreeControlled(x: nat, y: nat, n: nat, s: State)
    requires x < n && y < n && x != y
    ensures Controlled(x, y, n, Controlled(y, x, n, Controlled(x, y, n, s))) == Exchanged(x, y, n, s)
  {
    hide Controlled, Exchanged, At, Toggled, Set;
    var s1 := Controlled(x, y, n, s);
    var s2 := Controlled(y, x, n, s1);
    var s3, r := Controlled(x, y, n, s2), Exchanged(x, y, n, s);
    forall b: seq<bool> {:trigger At(s3, b)} | |b| == n
      ensures At(s3, b) == At(r, b)
    {
      ThreeToggles(b, x, y);
      ControlledAt(x, y, n, s2, b);
      ControlledAt(y, x, n, s1, Toggled(b, x, y));
      ControlledAt(x, y, n, s, Toggled(Toggled(b, x, y), y, x));
      ExchangedAt(x, y, n, s, b);
    }
    Extensional(n, s3, r);
  }

  lemma ThreeToggles(b: seq<bool>, x: nat, y: nat)
    requires x < |b| && y < |b| && x != y
    ensures |Toggled(b, x, y)| == |Toggled(Toggled(b, x, y), y, x)| == |b|
    ensures Toggled(Toggled(Toggled(b, x, y), y, x), x, y) == Set(Set(b, x, Bit(b, y)), y, Bit(b, x))
  {
    var b1 := Toggled(b, x, y);
    var b2 := Toggled(b1, y, x);
    assert b1[x] == b[x] && b1[y] == (b[x] != b[y]);
    assert b2[x] == b[y] && b2[y] == b1[y];
  }

  function Signed(minus: bool, x: real): real {
    if minus then -x else x
  }

  /** v is the amplitude a Hadamard makes out of x and y, in real arithmetic. */
  ghost predicate HadamardRow(r: real, bit: bool, x: Complex, y: Complex, v: Complex) {
    && v.re == r * (x.re + Signed(bit, y.re))
    && v.im == r * (x.im + Signed(bit, y.im))
  }

  lemma HadamardMatRow(t: Trig, bit: bool, x: Complex, y: Complex)
    ensures HadamardRow(t.r, bit, x, y, Row(Hadamard(t), bit, x, y))
  {
    RealDot(t.r, x, y);
  }

  /** v is the amplitude that Hadamards on two qubits make out of the four corners. */
  ghost predicate TwoRow(bitX: bool, bitY: bool, a00: Complex, a01: Complex, a10: Complex, a11: Complex, v: Complex) {
    && 2.0 * v.re == a00.re + Signed(bitX, a10.re) + Signed(bitY, a01.re + Signed(bitX, a11.re))
    && 2.0 * v.im == a00.im + Signed(bitX, a10.im) + Signed(bitY, a01.im + Signed(bitX, a11.im))
  }

  lemma ComposedRows(t: Trig, bitX: bool, bitY: bool, a00: Complex, a01: Complex, a10: Complex, a11: Complex)
    requires 2.0 * t.r * t.r == 1.0
    ensures var h := Hadamard(t);
            TwoRow(bitX, bitY, a00, a01, a10, a11, Row(h, bitY, Row(h, bitX, a00, a10), Row(h, bitX, a01, a11)))
  {
    hide Row, Hadamard, Signed;
    var h := Hadamard(t);
    var u, w := Row(h, bitX, a00, a10), Row(h, bitX, a01, a11);
    var v := Row(h, bitY, u, w);
    HadamardMatRow(t, bitX, a00, a10);
    HadamardMatRow(t, bitX, a01, a11);
    HadamardMatRow(t, bitY, u, w);
    HalfTwice(t.r, a00.re + Signed(bitX, a10.re), a01.re + Signed(bitX, a11.re), u.re, w.re, v.re, bitY);
    HalfTwice(t.r, a00.im + Signed(bitX, a10.im), a01.im + Signed(bitX, a11.im), u.im, w.im, v.im, bitY);
  }

  lemma HalfTwice(r: real, a: real, b: real, ra: real, rb: real, v: real, minus: bool)
    requires 2.0 * r * r == 1.0
    requires ra == r * a && rb == r * b && v == r * (ra + Signed(minus, rb))
    ensures 2.0 * v == a + Signed(minus, b)
  {
    var c := Signed(minus, b);
    assert r * (r * a + r * c) == (r * r) * (a + c);
    assert 2.0 * ((r * r) * (a + c)) == (2.0 * r * r) * (a + c);
  }

  /** Amplitude of the basis state that agrees with b except that qubits x and y are u and v. */
  ghost function Corner(s: State, b: seq<bool>, x: nat, y: nat, u: bool, v: bool): Complex {
    At(s, Set(Set(b, x, u), y, v))
  }

  lemma SetsCommute(b: seq<bool>, x: nat, y: nat)
    requires x != y
    ensures forall u, v :: Set(Set(b, y, v), x, u) == Set(Set(b, x, u), y, v)
  {
  }

  lemma TwoHadamards(t: Trig, x: nat, y: nat, n: nat, s: State, b: seq<bool>)
    requires 2.0 * t.r * t.r == 1.0
    requires x < n && y < n && x != y && |b| == n
    ensures TwoRow(b[x], b[y], Corner(s, b, x, y, false, false), Corner(s, b, x, y, false, true),
                   Corner(s, b, x, y, true, false), Corner(s, b, x, y, true, true),
                   At(One(Hadamard(t), y, n, One(Hadamard(t), x, n, s)), b))
  {
    hide Row, One, Hadamard, TwoRow, At;
    var h := Hadamard(t);
    var s1 := One(h, x, n, s);
    var low, high := Set(b, y, false), Set(b, y, true);
    SetsCommute(b, x, y);
    OneAt(h, y, n, s1, b);
    OneAt(h, x, n, s, low);
    OneAt(h, x, n, s, high);
    assert Bit(low, x) == Bit(high, x) == b[x];
    ComposedRows(t, b[x], b[y], Corner(s, b, x, y, false, false), Corner(s, b, x, y, false, true),
                 Corner(s, b, x, y, true, false), Corner(s, b, x, y, true, true));
  }

  /** The four corners of b are the four corners of each of its corners. */
  lemma CornersOfCorner(s: State, b: seq<bool>, x: nat, y: nat, u: bool, v: bool)
    requires x != y
    ensures forall p, q :: Corner(s, Set(Set(b, x, u), y, v), x, y, p, q) == Corner(s, b, x, y, p, q)
  {
    forall p, q ensures Set(Set(Set(Set(b, x, u), y, v), x, p), y, q) == Set(Set(b, x, p), y, q) {
    }
  }

  lemma TwoHadamardsCorner(t: Trig, x: nat, y: nat, n: nat, s: State, b: seq<bool>, u: bool, v: bool)
    requires 2.0 * t.r * t.r == 1.0
    requires x < n && y < n && x != y && |b| == n
    ensures TwoRow(u, v, Corner(s, b, x, y, false, false), Corner(s, b, x, y, false, true),
                   Corner(s, b, x, y, true, false), Corner(s, b, x, y, true, true),
                   Corner(One(Hadamard(t), y, n, One(Hadamard(t), x, n, s)), b, x, y, u, v))
  {
    hide One;
    CornersOfCorner(s, b, x, y, u, v);
    TwoHadamards(t, x, y, n, s, Set(Set(b, x, u), y, v));
  }

  lemma ControlledCorner(x: nat, y: nat, n: nat, s: State, b: seq<bool>, u: bool, v: bool)
    requires x < n && y < n && x != y && |b| == n
    ensures Corner(Controlled(x, y, n, s), b, x, y, u, v) == Corner(s, b, x, y, u, u != v)
    ensures Corner(Controlled(y, x, n, s), b, x, y, u, v) == Corner(s, b, x, y, u != v, v)
  {
    SetsCommute(b, x, y);
    var c := Set(Set(b, x, u), y, v);
    assert Set(c, y, !v) == Set(Set(b, x, u), y, !v);
    assert Set(c, x, !u) == Set(Set(b, x, !u), y, v);
  }

  lemma ConjugatedRow(bitX: bool, bitY: bool, a00: Complex, a01: Complex, a10: Complex, a11: Complex,
                      w00: Complex, w01: Complex, w10: Complex, w11: Complex, v: Complex)
    requires TwoRow(false, false, a00, a01, a10, a11, w00) && TwoRow(false, true, a00, a01, a10, a11, w01)
    requires TwoRow(true, false, a00, a01, a10, a11, w10) && TwoRow(true, true, a00, a01, a10, a11, w11)
    requires TwoRow(bitX, bitY, w00, w11, w10, w01, v)
    ensures v == if bitX then (if bitY then a10 else a11) else (if bitY then a01 else a00)
  {
  }

  /** H H CX(t,s) H H is CX(s,t) on every state of n qubits: conjugating a CNOT by Hadamards
      exchanges its roles. */
  lemma ReversedControlled(t: Trig, x: nat, y: nat, n: nat, s: State)
    requires 2.0 * t.r * t.r == 1.0
    requires x < n && y < n && x != y
    ensures var h := Hadamard(t);
            One(h, y, n, One(h, x, n, Controlled(y, x, n, One(h, y, n, One(h, x, n, s)))))
            == Controlled(x, y, n, s)
  {
    var h := Hadamard(t);
    var s1 := One(h, y, n, One(h, x, n, s));
    var s3 := One(h, y, n, One(h, x, n, Controlled(y, x, n, s1)));
    var r := Controlled(x, y, n, s);
    hide One, Controlled;
    forall b: seq<bool> {:trigger s3[b]} | |b| == n
      ensures s3[b] == r[b]
    {
      ConjugatedAt(t, x, y, n, s, b);
    }
  }

  lemma ConjugatedAt(t: Trig, x: nat, y: nat, n: nat, s: State, b: seq<bool>)
    requires 2.0 * t.r * t.r == 1.0
    requires x < n && y < n && x != y && |b| == n
    ensures var h := Hadamard(t);
            At(One(h, y, n, One(h, x, n, Controlled(y, x, n, One(h, y, n, One(h, x, n, s))))), b)
            == At(Controlled(x, y, n, s), b)
  {
    var h := Hadamard(t);
    var s1 := One(h, y, n, One(h, x, n, s));
    var s2 := Controlled(y, x, n, s1);
    hide One, Hadamard, Controlled;
    TwoHadamards(t, x, y, n, s2, b);
    forall u, v
      ensures Corner(s2, b, x, y, u, v) == Corner(s1, b, x, y, u != v, v)
    {
      ControlledCorner(x, y, n, s1, b, u, v);
    }
    TwoHadamardsCorner(t, x, y, n, s, b, false, false);
    TwoHadamardsCorner(t, x, y, n, s, b, false, true);
    TwoHadamardsCorner(t, x, y, n, s, b, true, false);
    TwoHadamardsCorner(t, x, y, n, s, b, true, true);
    ConjugatedRow(b[x], b[y], Corner(s, b, x, y, false, false), Corner(s, b, x, y, false, true),
                  Corner(s, b, x, y, true, false), Corner(s, b, x, y, true, true),
                  Corner(s1, b, x, y, false, false), Corner(s1, b, x, y, false, true),
                  Corner(s1, b, x, y, true, false), Corner(s1, b, x, y, true, true),
                  At(One(h, y, n, One(h, x, n, s2)), b));
    ControlledCorner(x, y, n, s, b, b[x], b[y]);
    assert Set(Set(b, x, b[x]), y, b[y]) == b;
  }
}
