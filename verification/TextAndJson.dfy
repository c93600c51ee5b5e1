/** The two outputs of one visit run: when the text and the JSON list describe the same operations. */
module TextAndJson {
  import opened Wrappers
  import opened Lexing
  import opened GateIR
  import opened OpenQasm
  import opened OpenQasmText
  import opened Emission
  import opened OperationsJson

  // ----- printable instructions give printable output -----

  predicate PrintableInst(inst: Inst)
    decreases inst, 0
  {
    match inst
    case Rx(_, a) => Printable(a)
    case Ry(_, a) => Printable(a)
    case Rz(_, a) => Printable(a)
    case U(_, a, b, c) => Printable(a) && Printable(b) && Printable(c)
    case Cond(_, body) => PrintableInsts(body)
    case _ => true
  }

  predicate PrintableInsts(insts: seq<Inst>)
    decreases insts, 1
  {
    insts == [] || (PrintableInst(insts[0]) && PrintableInsts(insts[1..]))
  }

  lemma {:induction false} VisitIsPrintable(inst: Inst, counter: nat, index: Index)
    requires PrintableInst(inst) && Visit(inst, counter, index).Ok?
    ensures AllPrintable(Visit(inst, counter, index).value.pieces)
    ensures AllPrintableOps(Visit(inst, counter, index).value.ops)
    decreases inst, 0
  {
    assert IsWord("measure");
    if inst.Cond? {
      VisitCondBody(inst.q, inst.body, counter, index);
      VisitsArePrintable(inst.body, 0, map[]);
    } else if IsGate(inst) {
      GateIsPrintable(inst);
    }
  }

  lemma GateIsPrintable(inst: Inst)
    requires PrintableInst(inst) && IsGate(inst)
    ensures PrintablePiece(Line(GateStmt(inst))) && PrintableOp(StmtOp(GateStmt(inst)))
  {
    assert IsWord("u1") && IsWord("u2") && IsWord("u3") && IsWord("U") && IsWord("id") && IsWord("cx");
  }

  lemma {:induction false} VisitsArePrintable(insts: seq<Inst>, counter: nat, index: Index)
    requires PrintableInsts(insts) && VisitAll(insts, counter, index).Ok?
    ensures AllPrintable(VisitAll(insts, counter, index).value.pieces)
    ensures AllPrintableOps(VisitAll(insts, counter, index).value.ops)
    decreases insts, 1
  {
    hide PrintablePiece, PrintableOp, Visit;
    if insts != [] {
      VisitIsPrintable(insts[0], counter, index);
      var first := Visit(insts[0], counter, index).value;
      VisitsArePrintable(insts[1..], first.counter, first.index);
    }
  }

  // ----- the operations named by the text -----

  /** The operations of the statements, guarded or not; declarations are not operations. */
  function OpsOf(pieces: seq<Piece>): seq<Op> {
    if pieces == [] then []
    else
      (match pieces[0]
       case Line(Apply(name, params, qubits)) => [Op(name, params, qubits, [])]
       case Line(MeasureTo(q, k)) => [Op("measure", [], [q], [k])]
       case _ => []) + OpsOf(pieces[1..])
  }

  lemma {:induction false} OpsOfAppend(a: seq<Piece>, b: seq<Piece>)
    ensures OpsOf(a + b) == OpsOf(a) + OpsOf(b)
  {
    if a == [] {
      assert a + b == b;
    } else {
      assert (a + b)[1..] == a[1..] + b;
      OpsOfAppend(a[1..], b);
    }
  }

  lemma OpsOfOne(p: Piece)
    ensures OpsOf([p]) == match p
                          case Line(Apply(name, params, qubits)) => [Op(name, params, qubits, [])]
                          case Line(MeasureTo(q, k)) => [Op("measure", [], [q], [k])]
                          case _ => []
  {
    assert [p][1..] == [];
  }

  /** Emits no statement: a controlled phase, or a conditional around nothing. */
  predicate IsSilent(inst: Inst) {
    inst.CPhase? || (inst.Cond? && (inst.body == [] || IsSilent(inst.body[0])))
  }

  /** No conditional guards a statement. */
  predicate CondsAreSilent(insts: seq<Inst>) {
    forall i :: 0 <= i < |insts| && insts[i].Cond? ==> IsSilent(insts[i])
  }

  lemma {:induction false} VisitOps(inst: Inst, counter: nat, index: Index)
    requires Visit(inst, counter, index).Ok?
    ensures var em := Visit(inst, counter, index).value;
            && (OpsOf(em.pieces) == [] <==> IsSilent(inst))
            && em.ops == if inst.Cond? then [] else OpsOf(em.pieces)
    decreases inst
  {
    match inst
    case CZ(_, _) =>
    case CPhase(_, _, _) =>
    case Swap(a, b) =>
      var c1, c2 := Line(Apply("cx", [], [a, b])), Line(Apply("cx", [], [b, a]));
      OpsOfOne(c1);
      OpsOfOne(c2);
      OpsOfAppend([c1], [c2]);
      OpsOfAppend([c1] + [c2], [c1]);
      assert [c1, c2, c1] == [c1] + [c2] + [c1];
    case Measure(q, _) =>
      var p1, p2 := Line(Creg(counter)), Line(MeasureTo(q, counter));
      OpsOfOne(p1);
      OpsOfOne(p2);
      OpsOfAppend([p1], [p2]);
      assert [p1, p2] == [p1] + [p2];
    case Cond(q, body) =>
      VisitCondBody(q, body, counter, index);
      OpsOfOne(Guard(Lookup(index, q)));
      OpsOfAppend([Guard(Lookup(index, q))], VisitAll(body, 0, map[]).value.pieces);
      if body != [] {
        assert body == [body[0]];
        VisitAllOne(body[0], 0, map[]);
        VisitOps(body[0], 0, map[]);
      }
    case _ =>
      OpsOfOne(Line(GateStmt(inst)));
  }

  /** The JSON list never has more operations than the text, and has the same ones exactly if no
      conditional guards a statement. */
  lemma {:induction false} JsonOpsAreTextOpsIff(insts: seq<Inst>, counter: nat, index: Index)
    requires VisitAll(insts, counter, index).Ok?
    ensures var em := VisitAll(insts, counter, index).value;
            && |em.ops| <= |OpsOf(em.pieces)|
            && (em.ops == OpsOf(em.pieces) <==> CondsAreSilent(insts))
  {
    if insts != [] {
      VisitOps(insts[0], counter, index);
      hide Visit, IsSilent;
      var first := Visit(insts[0], counter, index).value;
      JsonOpsAreTextOpsIff(insts[1..], first.counter, first.index);
      var rest := VisitAll(insts[1..], first.counter, first.index).value;
      OpsOfAppend(first.pieces, rest.pieces);
      assert CondsAreSilent(insts) <==> (insts[0].Cond? ==> IsSilent(insts[0])) && CondsAreSilent(insts[1..]) by {
        assert forall i :: 0 <= i < |insts[1..]| ==> insts[1..][i] == insts[i + 1];
      }
      SameParts(first.ops, OpsOf(first.pieces), rest.ops, OpsOf(rest.pieces));
    }
  }

  lemma SameParts(a: seq<Op>, a': seq<Op>, b: seq<Op>, b': seq<Op>)
    requires |a| <= |a'| && |b| <= |b'|
    ensures a + b == a' + b' <==> a == a' && b == b'
  {
    if a + b == a' + b' {
      assert |a| == |a'|;
      assert (a + b)[..|a|] == a && (a' + b')[..|a|] == a' && (a + b)[|a|..] == b && (a' + b')[|a|..] == b';
    }
  }

  /** The instruction adds operations to the JSON list. */
  predicate EmitsOps(inst: Inst) {
    !inst.Cond? && !inst.CPhase?
  }

  predicate LiteralInst(inst: Inst) {
    match inst
    case Rx(_, a) => LiteralAngle(a)
    case Ry(_, a) => LiteralAngle(a)
    case Rz(_, a) => LiteralAngle(a)
    case U(_, a, b, c) => LiteralAngle(a) && LiteralAngle(b) && LiteralAngle(c)
    case _ => true
  }

  predicate SomeOps(insts: seq<Inst>) {
    exists i :: 0 <= i < |insts| && EmitsOps(insts[i])
  }

  /** The parameter texts outside conditionals are literals of JSON. */
  predicate LiteralInsts(insts: seq<Inst>) {
    forall i :: 0 <= i < |insts| ==> LiteralInst(insts[i])
  }

  lemma VisitLiteralIff(inst: Inst, counter: nat, index: Index)
    requires Visit(inst, counter, index).Ok?
    ensures var ops := Visit(inst, counter, index).value.ops;
            (ops != [] <==> EmitsOps(inst)) && (LiteralOps(ops) <==> LiteralInst(inst))
  {
    var ops := Visit(inst, counter, index).value.ops;
    hide LiteralAngle;
    assert forall a: Angle :: a.Zero? || a.Pi? || a.HalfPi? || a.MinusHalfPi? ==> LiteralAngle(a) by {
      ConstantsAreLiteral();
    }
    if IsGate(inst) {
      var s := GateStmt(inst);
      assert ops == [StmtOp(s)] && ops[0] in ops;
      assert forall i :: 0 <= i < |s.params| ==> s.params[i] in ops[0].params;
      if inst.U? {
        assert s.params[0] == inst.theta && s.params[1] == inst.phi && s.params[2] == inst.lambda;
      } else if inst.Rx? || inst.Ry? || inst.Rz? {
        assert s.params[0] == inst.angle;
      }
    }
  }

  lemma ConstantsAreLiteral()
    ensures forall a: Angle :: a.Zero? || a.Pi? || a.HalfPi? || a.MinusHalfPi? ==> LiteralAngle(a)
  {
  }

  lemma LiteralOpsAppend(a: seq<Op>, b: seq<Op>)
    ensures LiteralOps(a + b) <==> LiteralOps(a) && LiteralOps(b)
  {
    hide LiteralAngle;
    assert forall op :: op in a + b <==> op in a || op in b;
  }

  lemma {:induction false} VisitsLiteralIff(insts: seq<Inst>, counter: nat, index: Index)
    requires VisitAll(insts, counter, index).Ok?
    ensures var ops := VisitAll(insts, counter, index).value.ops;
            (ops != [] <==> SomeOps(insts)) && (LiteralOps(ops) <==> LiteralInsts(insts))
  {
    if insts == [] {
      VisitAllNone(counter, index);
    } else {
      VisitAllStep(insts, counter, index);
      VisitLiteralIff(insts[0], counter, index);
      hide Visit, VisitAll, LiteralInst, EmitsOps, LiteralOps;
      var first, more := Visit(insts[0], counter, index).value, insts[1..];
      VisitsLiteralIff(more, first.counter, first.index);
      LiteralOpsAppend(first.ops, VisitAll(more, first.counter, first.index).value.ops);
      assert forall i :: 0 <= i < |more| ==> more[i] == insts[i + 1];
      if SomeOps(insts) {
        var i :| 0 <= i < |insts| && EmitsOps(insts[i]);
        assert i > 0 ==> EmitsOps(more[i - 1]);
      }
      if SomeOps(more) {
        var i :| 0 <= i < |more| && EmitsOps(more[i]);
        assert EmitsOps(insts[i + 1]);
      }
      if LiteralInsts(insts) {
        assert LiteralInst(insts[0]);
      }
      if LiteralInst(insts[0]) && LiteralInsts(more) {
        forall i | 0 <= i < |insts|
          ensures LiteralInst(insts[i])
        {
          assert i > 0 ==> LiteralInst(more[i - 1]);
        }
      }
    }
  }

  /** Parsing the JSON string gives the operations that reading the text gives, exactly if an
      instruction outside conditionals emits one, the parameter texts there are literals of JSON,
      and no conditional guards a statement. */
  lemma OutputsAgreeIff(insts: seq<Inst>)
    requires PrintableInsts(insts) && VisitAll(insts, 0, map[]).Ok?
    ensures var em := VisitAll(insts, 0, map[]).value;
            var text, json := ReadText(Text(em.pieces)), ReadOps(Closed("[" + OpsText(em.ops)));
            && text == Some(em.pieces)
            && (json == Some(OpsOf(text.value)) <==> SomeOps(insts) && LiteralInsts(insts) && CondsAreSilent(insts))
  {
    hide VisitAll, ReadText, Text, ReadOps, OpsText, LiteralOps, LiteralInsts, SomeOps;
    var em := VisitAll(insts, 0, map[]).value;
    VisitsArePrintable(insts, 0, map[]);
    VisitsLiteralIff(insts, 0, map[]);
    ReadTextInvertsText(em.pieces);
    ReadOpsInvertsIff(em.ops);
    JsonOpsAreTextOpsIff(insts, 0, map[]);
  }
}
