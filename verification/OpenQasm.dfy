/** The fragment of OpenQASM 2.0 the translators write: statements and their meaning as
    given by Table 1 of arXiv:1707.03429 and the gate definitions of qelib1.inc. */
module OpenQasm {
  import opened Wrappers
  import opened Amplitudes
  import opened GateIR
  import opened Quantum

  datatype Stmt =
    | Apply(name: string, params: seq<Angle>, qubits: seq<nat>)  // name(params) q[..], q[..];
    | Creg(reg: nat)                                             // creg c<reg>[1];
    | MeasureTo(q: nat, reg: nat)                                // measure q[q] -> c<reg>[0];

  /** Text is emitted in pieces: complete statements, and the prefix "if (c<reg> == 1) " which
      guards whatever statement follows it in the text. */
  datatype Piece = Guard(reg: nat) | Line(stmt: Stmt)

  // ----- meaning -----

  datatype QMachine = QMachine(state: State, regs: map<nat, bool>, measured: nat)

  /** The matrix of a one-qubit gate application, by the definitions of qelib1.inc:
      u3 is U, u2(phi, lambda) is U(pi/2, phi, lambda), u1(lambda) is U(0, 0, lambda). */
  ghost function OneQubitMat(t: Trig, name: string, params: seq<Angle>): Option<Mat> {
    if (name == "U" || name == "u3") && |params| == 3 then Some(UMat(t, params[0], params[1], params[2]))
    else if name == "u2" && |params| == 2 then Some(UMat(t, HalfPi, params[0], params[1]))
    else if name == "u1" && |params| == 1 then Some(UMat(t, Zero, Zero, params[0]))
    else if name == "id" && |params| == 0 then Some(UMat(t, Zero, Zero, Zero))
    else None
  }

  ghost function ExecStmt(t: Trig, oracle: nat -> bool, n: nat, s: Stmt, m: QMachine): Option<QMachine> {
    match s
    case Apply(name, params, qubits) =>
      if name == "cx" && params == [] && |qubits| == 2 then
        if qubits[0] < n && qubits[1] < n && qubits[0] != qubits[1] then
          Some(m.(state := Controlled(qubits[0], qubits[1], n, m.state)))
        else None
      else if |qubits| == 1 && qubits[0] < n && OneQubitMat(t, name, params).Some? then
        Some(m.(state := One(OneQubitMat(t, name, params).value, qubits[0], n, m.state)))
      else None
    case Creg(k) => if k in m.regs then None else Some(m.(regs := m.regs[k := false]))
    case MeasureTo(q, k) =>
      if q < n && k in m.regs then
        var o := oracle(m.measured);
        Some(QMachine(Project(q, o, n, m.state), m.regs[k := o], m.measured + 1))
      else None
  }

  /** A guard must be followed by a quantum operation, which is done or left out. None is an error:
      a register used before it is declared or declared twice, an unknown gate, a qubit out of range. */
  ghost function Exec(t: Trig, oracle: nat -> bool, n: nat, pieces: seq<Piece>, m: QMachine): Option<QMachine>
    decreases |pieces|
  {
    if pieces == [] then Some(m)
    else
      match pieces[0]
      case Line(s) =>
        (match ExecStmt(t, oracle, n, s, m)
         case None => None
         case Some(m') => Exec(t, oracle, n, pieces[1..], m'))
      case Guard(k) =>
        if k !in m.regs || |pieces| == 1 || !pieces[1].Line? || pieces[1].stmt.Creg? then None
        else if m.regs[k] then Exec(t, oracle, n, pieces[1..], m)
        else Exec(t, oracle, n, pieces[2..], m)
  }
}
