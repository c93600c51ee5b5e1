/** The visitor in its own form: an object that appends text and JSON as it is shown one
    instruction after another, allocates classical registers and remembers which qubit was
    measured into which. */
module OpenQasmVisitor {
  import opened Wrappers
  import opened Lexing
  import opened GateIR
  import opened OpenQasm
  import opened OpenQasmText
  import opened Emission
  import opened OperationsJson

  /** The text before the first statement; the quotes of the include are escaped for embedding in JSON. */
  function Preamble(nQubits: nat): string {
    "\ninclude \\\"qelib1.inc\\\";\nqreg q[" + Dec(nQubits) + "];\n"
  }

  class Visitor {
    const nQubits: nat
    const preamble: string
    var native: string
    var operationsJsonStr: string
    var classicalBitCounter: nat
    var qubitToClassicalBitIndex: Index
    ghost var pieces: seq<Piece>
    ghost var ops: seq<Op>

    ghost predicate Valid()
      reads this
    {
      && native == preamble + Text(pieces)
      && operationsJsonStr == "[" + OpsText(ops)
    }

    constructor (nQubits: nat, skipPreamble: bool)
      ensures Valid() && pieces == [] && ops == []
      ensures this.nQubits == nQubits && preamble == if skipPreamble then "" else Preamble(nQubits)
      ensures classicalBitCounter == 0 && qubitToClassicalBitIndex == map[]
    {
      this.nQubits := nQubits;
      preamble := if skipPreamble then "" else Preamble(nQubits);
      native := if skipPreamble then "" else Preamble(nQubits);
      operationsJsonStr := "[";
      classicalBitCounter := 0;
      qubitToClassicalBitIndex := map[];
      pieces := [];
      ops := [];
    }

    /** The visitor has appended exactly this emission. */
    twostate predicate Appended(em: Emission)
      reads this
    {
      && Valid()
      && pieces == old(pieces) + em.pieces
      && ops == old(ops) + em.ops
      && classicalBitCounter == em.counter
      && qubitToClassicalBitIndex == em.index
    }

    /** native += text; operationsJsonStr += json */
    method Append(text: string, json: string, ghost newPieces: seq<Piece>, ghost newOps: seq<Op>)
      requires Valid() && text == Text(newPieces) && json == OpsText(newOps)
      modifies this`native, this`operationsJsonStr, this`pieces, this`ops
      ensures Valid() && pieces == old(pieces) + newPieces && ops == old(ops) + newOps
    {
      TextAppend(pieces, newPieces);
      OpsTextAppend(ops, newOps);
      hide Text, OpsText;
      assert preamble + Text(pieces) + text == preamble + (Text(pieces) + text);
      assert "[" + OpsText(ops) + json == "[" + (OpsText(ops) + json);
      native := native + text;
      operationsJsonStr := operationsJsonStr + json;
      pieces := pieces + newPieces;
      ops := ops + newOps;
    }

    /** The visit methods of the gates that become one statement. */
    method VisitGate(gate: Inst)
      requires Valid() && IsGate(gate)
      modifies this
      ensures Appended(Emission([Line(GateStmt(gate))], [StmtOp(GateStmt(gate))],
                                old(classicalBitCounter), old(qubitToClassicalBitIndex)))
    {
      var s := GateStmt(gate);
      Append(Text([Line(s)]), OpsText([StmtOp(s)]), [Line(s)], [StmtOp(s)]);
    }

    /** visit(Swap&): three CNOTs of alternating direction. */
    method VisitSwap(a: nat, b: nat)
      requires Valid()
      modifies this
      ensures Appended(Visit(Swap(a, b), old(classicalBitCounter), old(qubitToClassicalBitIndex)).value)
    {
      hide Text, OpsText;
      VisitGate(CNOT(a, b));
      VisitGate(CNOT(b, a));
      VisitGate(CNOT(a, b));
    }

    method VisitMeasure(q: nat)
      requires Valid()
      modifies this
      ensures Appended(Visit(Measure(q, 0), old(classicalBitCounter), old(qubitToClassicalBitIndex)).value)
    {
      var lines := [Line(Creg(classicalBitCounter)), Line(MeasureTo(q, classicalBitCounter))];
      var op := Op("measure", [], [q], [classicalBitCounter]);
      Append(Text(lines), OpsText([op]), lines, [op]);
      if q !in qubitToClassicalBitIndex {
        qubitToClassicalBitIndex := qubitToClassicalBitIndex[q := classicalBitCounter];
      }
      classicalBitCounter := classicalBitCounter + 1;
    }

    /** visit(ConditionalFunction&): the body is visited by a fresh visitor without preamble, of
        which only the text is used. */
    method VisitConditional(q: nat, body: seq<Inst>) returns (ok: bool)
      requires Valid()
      modifies this
      ensures ok <==> Visit(Cond(q, body), old(classicalBitCounter), old(qubitToClassicalBitIndex)).Ok?
      ensures ok ==> Appended(Visit(Cond(q, body), old(classicalBitCounter), old(qubitToClassicalBitIndex)).value)
      ensures !ok ==> native == old(native) && operationsJsonStr == old(operationsJsonStr)
      decreases body, 2
    {
      VisitCondBody(q, body, classicalBitCounter, qubitToClassicalBitIndex);
      hide Text, OpsText, Visit, VisitAll;
      var visitor := new Visitor(nQubits, true);
      if q !in qubitToClassicalBitIndex {
        qubitToClassicalBitIndex := qubitToClassicalBitIndex[q := 0];
      }
      var classicalBitIdx := qubitToClassicalBitIndex[q];
      if |body| > 1 {
        return false;
      }
      ok := visitor.AcceptAll(body);
      if ok {
        assert visitor.native == Text(visitor.pieces);
        TextAppend([Guard(classicalBitIdx)], visitor.pieces);
        OpsTextNone();
        Append(Text([Guard(classicalBitIdx)]) + visitor.native, "", [Guard(classicalBitIdx)] + visitor.pieces, []);
      }
    }

    method Accept(inst: Inst) returns (ok: bool)
      requires Valid()
      modifies this
      ensures ok <==> Supported(inst)
      ensures ok <==> Visit(inst, old(classicalBitCounter), old(qubitToClassicalBitIndex)).Ok?
      ensures ok ==> Appended(Visit(inst, old(classicalBitCounter), old(qubitToClassicalBitIndex)).value)
      ensures !ok ==> native == old(native) && operationsJsonStr == old(operationsJsonStr)
      decreases inst, 0
    {
      VisitAcceptsIff(inst, classicalBitCounter, qubitToClassicalBitIndex);
      match inst
      case CZ(_, _) =>
        return false;
      case CPhase(_, _, _) =>
        return true;
      case Swap(a, b) =>
        VisitSwap(a, b);
        return true;
      case Measure(q, _) =>
        VisitMeasure(q);
        return true;
      case Cond(q, body) =>
        ok := VisitConditional(q, body);
      case _ =>
        VisitGate(inst);
        return true;
    }

    /** The instructions of a walk, one after another; stops at the first error. */
    method AcceptAll(insts: seq<Inst>) returns (ok: bool)
      requires Valid()
      modifies this
      ensures ok <==> AllSupported(insts)
      ensures ok <==> VisitAll(insts, old(classicalBitCounter), old(qubitToClassicalBitIndex)).Ok?
      ensures ok ==> Appended(VisitAll(insts, old(classicalBitCounter), old(qubitToClassicalBitIndex)).value)
      decreases insts, 1
    {
      hide Text, OpsText, Visit, VisitAll;
      ghost var counter0, index0 := classicalBitCounter, qubitToClassicalBitIndex;
      VisitAllAcceptsIff(insts, counter0, index0);
      hide Supported, AllSupported;
      ghost var soFar := Emission([], [], counter0, index0);
      VisitAllNone(counter0, index0);
      assert insts[..0] == [];
      var i := 0;
      ok := true;
      while i < |insts|
        invariant i <= |insts| && ok
        invariant VisitAll(insts[..i], counter0, index0) == Ok(soFar) && Appended(soFar)
      {
        VisitAllConcat(insts[..i], insts[i..], counter0, index0);
        assert insts[..i] + insts[i..] == insts;
        VisitAllConcat(insts[..i], [insts[i]], counter0, index0);
        assert insts[..i] + [insts[i]] == insts[..i + 1];
        VisitAllOne(insts[i], classicalBitCounter, qubitToClassicalBitIndex);
        ghost var step := Visit(insts[i], classicalBitCounter, qubitToClassicalBitIndex);
        if step.Err? {
          VisitAllFails(insts[i..], classicalBitCounter, qubitToClassicalBitIndex);
        }
        ok := Accept(insts[i]);
        if !ok {
          return;
        }
        soFar := Then(soFar, step).value;
        i := i + 1;
      }
      assert insts[..i] == insts;
    }

    method GetOpenQasmString() returns (s: string)
      requires Valid()
      ensures s == preamble + Text(pieces)
      ensures AllPrintable(pieces) ==> ReadText(s[|preamble|..]) == Some(pieces)
    {
      s := native;
      assert s[|preamble|..] == Text(pieces);
      if AllPrintable(pieces) {
        ReadTextInvertsText(pieces);
      }
    }

    method GetOperationsJsonString() returns (s: string)
      requires Valid()
      ensures s == Closed("[" + OpsText(ops))
      ensures AllPrintableOps(ops) ==> (ReadOps(s) == Some(ops) <==> ops != [] && LiteralOps(ops))
      ensures AllPrintableOps(ops) ==> (ReadOps(s) == None <==> ops == [] || !LiteralOps(ops))
    {
      s := operationsJsonStr[..|operationsJsonStr| - 1] + "]";
      if AllPrintableOps(ops) {
        ReadOpsInvertsIff(ops);
      }
    }
  }
}
