/** The exact characters of every statement and operation the visitor writes, as lists of tokens. */
module WrittenForms {
  import opened Lexing
  import opened GateIR
  import opened OpenQasm
  import opened OpenQasmText
  import opened Emission
  import opened OperationsJson

  lemma {:induction false} ConcatNothing(ts: seq<string>)
    ensures Concat(ts + []) == Concat(ts)
  {
    assert ts + [] == ts;
  }

  lemma TextOne(p: Piece)
    ensures Text([p]) == Concat(PieceTokens(p))
  {
    hide Concat, PieceTokens;
    assert [p][1..] == [];
    assert Tokens([p]) == PieceTokens(p) + [];
    ConcatNothing(PieceTokens(p));
  }

  function On(q: nat): seq<string> {
    [" ", "q", "[", Dec(q), "]", ";", "\n"]
  }

  function OnTwo(a: nat, b: nat): seq<string> {
    [" ", "q", "[", Dec(a), "]", ",", " ", "q", "[", Dec(b), "]", ";", "\n"]
  }

  lemma OneQubitTokens(q: nat)
    ensures QubitTokens([q]) == ["q", "[", Dec(q), "]"]
  {
  }

  lemma TwoQubitTokens(a: nat, b: nat)
    ensures QubitTokens([a, b]) == ["q", "[", Dec(a), "]", ",", " ", "q", "[", Dec(b), "]"]
  {
    assert [a, b][1..] == [b];
    OneQubitTokens(b);
  }

  lemma FewParamTokens(a: Angle, b: Angle, c: Angle)
    ensures ParamTokens([a]) == [AngleText(a)]
    ensures ParamTokens([a, b]) == [AngleText(a), ",", " ", AngleText(b)]
    ensures ParamTokens([a, b, c]) == [AngleText(a), ",", " ", AngleText(b), ",", " ", AngleText(c)]
  {
    hide AngleText;
    assert [c][1..] == [] && [b, c][1..] == [c] && [a, b, c][1..] == [b, c] && [a, b][1..] == [b];
    assert ParamTokens([c]) == [AngleText(c)] && ParamTokens([b]) == [AngleText(b)];
    assert ParamTokens([b, c]) == [AngleText(b), ",", " ", AngleText(c)];
  }

  /** The characters written for each gate. */
  function Written(inst: Inst): seq<string>
    requires IsGate(inst)
  {
    match inst
    case H(q) => ["u2", "(", "0", ",", " ", "3.14159", ")"] + On(q)
    case Id(q) => ["id"] + On(q)
    case X(q) => ["u3", "(", "3.14159", ",", " ", "0", ",", " ", "3.14159", ")"] + On(q)
    case Y(q) => ["u3", "(", "3.14159", ",", " ", "1.5708", ",", " ", "3.14159", ")"] + On(q)
    case Z(q) => ["u1", "(", "3.14159", ")"] + On(q)
    case Rx(q, a) => ["u3", "(", AngleText(a), ",", " ", "-1.5708", ",", " ", "1.5708", ")"] + On(q)
    case Ry(q, a) => ["u3", "(", AngleText(a), ",", " ", "0", ",", " ", "0", ")"] + On(q)
    case Rz(q, a) => ["u1", "(", AngleText(a), ")"] + On(q)
    case U(q, a, b, c) => ["U", "(", AngleText(a), ",", " ", AngleText(b), ",", " ", AngleText(c), ")"] + On(q)
    case CNOT(s, x) => ["cx"] + OnTwo(s, x)
  }

  lemma ConstantTexts(text: string)
    ensures AngleText(Zero) == "0" && AngleText(Pi) == "3.14159" && AngleText(Sym(text)) == text
    ensures AngleText(HalfPi) == "1.5708" && AngleText(MinusHalfPi) == "-1.5708"
  {
  }

  /** The text of every gate. */
  lemma GateIsWritten(inst: Inst)
    requires IsGate(inst)
    ensures Text([Line(GateStmt(inst))]) == Concat(Written(inst))
  {
    hide Text, Concat;
    TextOne(Line(GateStmt(inst)));
    GateTokensAre(inst);
  }

  lemma NoParams(name: string, q: nat)
    ensures StmtTokens(Apply(name, [], [q])) == [name] + On(q)
  {
    hide Dec;
    OneQubitTokens(q);
  }

  lemma OneParam(name: string, a: Angle, q: nat)
    ensures StmtTokens(Apply(name, [a], [q])) == [name, "(", AngleText(a), ")"] + On(q)
  {
    hide Dec, AngleText, ParamTokens, QubitTokens;
    OneQubitTokens(q);
    FewParamTokens(a, a, a);
  }

  lemma TwoParams(name: string, a: Angle, b: Angle, q: nat)
    ensures StmtTokens(Apply(name, [a, b], [q])) == [name, "(", AngleText(a), ",", " ", AngleText(b), ")"] + On(q)
  {
    hide Dec, AngleText, ParamTokens, QubitTokens;
    OneQubitTokens(q);
    FewParamTokens(a, b, b);
  }

  lemma ThreeParams(name: string, a: Angle, b: Angle, c: Angle, q: nat)
    ensures StmtTokens(Apply(name, [a, b, c], [q]))
         == [name, "(", AngleText(a), ",", " ", AngleText(b), ",", " ", AngleText(c), ")"] + On(q)
  {
    hide Dec, AngleText, ParamTokens, QubitTokens;
    OneQubitTokens(q);
    FewParamTokens(a, b, c);
  }

  lemma TwoQubits(name: string, a: nat, b: nat)
    ensures StmtTokens(Apply(name, [], [a, b])) == [name] + OnTwo(a, b)
  {
    hide Dec, QubitTokens;
    TwoQubitTokens(a, b);
  }

  lemma GateTokensAre(inst: Inst)
    requires IsGate(inst)
    ensures StmtTokens(GateStmt(inst)) == Written(inst)
  {
    hide AngleText, StmtTokens, On, OnTwo;
    ConstantTexts("");
    match inst
    case H(q) => TwoParams("u2", Zero, Pi, q);
    case Id(q) => NoParams("id", q);
    case X(q) => ThreeParams("u3", Pi, Zero, Pi, q);
    case Y(q) => ThreeParams("u3", Pi, HalfPi, Pi, q);
    case Z(q) => OneParam("u1", Pi, q);
    case Rx(q, a) => ThreeParams("u3", a, MinusHalfPi, HalfPi, q);
    case Ry(q, a) => ThreeParams("u3", a, Zero, Zero, q);
    case Rz(q, a) => OneParam("u1", a, q);
    case U(q, a, b, c) => ThreeParams("U", a, b, c, q);
    case CNOT(s, x) => TwoQubits("cx", s, x);
  }

  /** The text of the other pieces. */
  lemma OthersAreWritten(q: nat, k: nat)
    ensures Text([Line(Creg(k))]) == Concat(["creg", " ", "c" + Dec(k), "[", "1", "]", ";", "\n"])
    ensures Text([Line(MeasureTo(q, k))])
         == Concat(["measure", " ", "q", "[", Dec(q), "]", " ", "->", " ", "c" + Dec(k), "[", "0", "]", ";", "\n"])
    ensures Text([Guard(k)]) == Concat(["if", " ", "(", "c" + Dec(k), " ", "==", " ", "1", ")", " "])
  {
    hide Text, Concat, Dec;
    TextOne(Line(Creg(k)));
    TextOne(Line(MeasureTo(q, k)));
    TextOne(Guard(k));
    assert PieceTokens(Line(Creg(k))) == ["creg", " ", "c" + Dec(k), "[", "1", "]", ";", "\n"];
    assert PieceTokens(Line(MeasureTo(q, k)))
        == ["measure", " ", "q", "[", Dec(q), "]", " ", "->", " ", "c" + Dec(k), "[", "0", "]", ";", "\n"];
    assert PieceTokens(Guard(k)) == ["if", " ", "(", "c" + Dec(k), " ", "==", " ", "1", ")", " "];
  }

  // ----- the operations -----

  const Q := "\""

  lemma OneNumber(n: nat)
    ensures NumberTokens([n]) == [Dec(n)]
  {
  }

  lemma TwoNumbers(a: nat, b: nat)
    ensures NumberTokens([a, b]) == [Dec(a), ",", " ", Dec(b)]
  {
    hide Dec;
    assert [a, b][1..] == [b];
    OneNumber(b);
  }

  lemma FewAngles(name: string, a: Angle, b: Angle, c: Angle)
    requires name != "u2"
    ensures AngleTokens(name, [a]) == [AngleText(a)]
    ensures AngleTokens(name, [a, b, c]) == [AngleText(a), ",", " ", AngleText(b), ",", " ", AngleText(c)]
  {
    hide AngleText;
    assert [c][1..] == [] && [b, c][1..] == [c] && [a, b, c][1..] == [b, c];
    assert AngleTokens(name, [c]) == [AngleText(c)];
    assert AngleTokens(name, [b, c]) == [AngleText(b), ",", " ", AngleText(c)];
  }

  lemma HadamardAngles()
    ensures AngleTokens("u2", [Zero, Pi]) == ["0.0", ",", "3.14159"]
  {
    assert [Zero, Pi][1..] == [Pi];
    assert AngleTokens("u2", [Pi]) == ["3.14159"];
  }

  function Member(key: string): seq<string> {
    [Q, key, Q, ":"]
  }

  /** The characters of a gate's entry, for the lists of its parameters and its qubits. */
  function GateEntry(name: string, params: seq<string>, qubits: seq<string>): seq<string> {
    ["{"] + Member("name") + [Q, name, Q] + [","] + Member("params") + [" ", "["] + params + ["]"] + [","]
    + Member("qubits") + ["["] + qubits + ["]"] + ["}"]
  }

  lemma GateEntryIs(name: string, params: seq<Angle>, qubits: seq<nat>)
    ensures OpTokens(Op(name, params, qubits, [])) == GateEntry(name, AngleTokens(name, params), NumberTokens(qubits))
  {
    hide AngleTokens, NumberTokens;
  }

  /** The characters of every gate's entry. */
  lemma GateOpIsWritten(inst: Inst)
    requires IsGate(inst)
    ensures OpTokens(StmtOp(GateStmt(inst)))
         == match inst
            case H(q) => GateEntry("u2", ["0.0", ",", "3.14159"], [Dec(q)])
            case Id(q) => GateEntry("id", [], [Dec(q)])
            case X(q) => GateEntry("u3", ["3.14159", ",", " ", "0", ",", " ", "3.14159"], [Dec(q)])
            case Y(q) => GateEntry("u3", ["3.14159", ",", " ", "1.5708", ",", " ", "3.14159"], [Dec(q)])
            case Z(q) => GateEntry("u1", ["3.14159"], [Dec(q)])
            case Rx(q, a) => GateEntry("u3", [AngleText(a), ",", " ", "-1.5708", ",", " ", "1.5708"], [Dec(q)])
            case Ry(q, a) => GateEntry("u3", [AngleText(a), ",", " ", "0", ",", " ", "0"], [Dec(q)])
            case Rz(q, a) => GateEntry("u1", [AngleText(a)], [Dec(q)])
            case U(q, a, b, c) =>
              GateEntry("U", [AngleText(a), ",", " ", AngleText(b), ",", " ", AngleText(c)], [Dec(q)])
            case CNOT(s, x) => GateEntry("cx", [], [Dec(s), ",", " ", Dec(x)])
  {
    hide AngleText, OpTokens, GateEntry, Dec;
    ConstantTexts("");
    var s := GateStmt(inst);
    GateEntryIs(s.name, s.params, s.qubits);
    if inst.CNOT? {
      TwoNumbers(inst.source, inst.target);
    } else {
      OneNumber(inst.q);
    }
    match inst
    case H(_) => HadamardAngles();
    case X(_) => FewAngles("u3", Pi, Zero, Pi);
    case Y(_) => FewAngles("u3", Pi, HalfPi, Pi);
    case Z(_) => FewAngles("u1", Pi, Pi, Pi);
    case Rx(_, a) => FewAngles("u3", a, MinusHalfPi, HalfPi);
    case Ry(_, a) => FewAngles("u3", a, Zero, Zero);
    case Rz(_, a) => FewAngles("u1", a, a, a);
    case U(_, a, b, c) => FewAngles("U", a, b, c);
    case Id(_) =>
    case CNOT(_, _) =>
  }

  /** The characters of a measurement's entry. */
  lemma MeasureOpIsWritten(q: nat, k: nat)
    ensures OpTokens(Op("measure", [], [q], [k]))
         == ["{"] + Member("clbits") + ["[", Dec(k), "]"] + [","] + Member("name") + [Q, "measure", Q] + [","]
            + Member("qubits") + ["[", Dec(q), "]"] + ["}"]
  {
    hide Dec, NumberTokens;
    OneNumber(q);
    OneNumber(k);
  }
}
