/** The classical registers a translation declares and uses. */
module Registers {
  import opened Wrappers
  import opened GateIR
  import opened OpenQasm
  import opened Emission

  /** The registers declared by the pieces, in order. */
  function Declared(pieces: seq<Piece>): seq<nat> {
    if pieces == [] then []
    else (if pieces[0].Line? && pieces[0].stmt.Creg? then [pieces[0].stmt.reg] else []) + Declared(pieces[1..])
  }

  /** The registers a piece reads or writes. */
  function Used(p: Piece): Option<nat> {
    match p
    case Guard(k) => Some(k)
    case Line(MeasureTo(_, k)) => Some(k)
    case _ => None
  }

  /** With registers 0..k declared before: the next declarations are k, k+1, ..., and every register
      is declared before it is used. */
  predicate DeclaredInOrder(pieces: seq<Piece>, k: nat) {
    pieces == [] ||
    if pieces[0].Line? && pieces[0].stmt.Creg? then pieces[0].stmt.reg == k && DeclaredInOrder(pieces[1..], k + 1)
    else (Used(pieces[0]).Some? ==> Used(pieces[0]).value < k) && DeclaredInOrder(pieces[1..], k)
  }

  lemma {:induction false} DeclaredAppend(a: seq<Piece>, b: seq<Piece>)
    ensures Declared(a + b) == Declared(a) + Declared(b)
  {
    if a == [] {
      assert a + b == b;
    } else {
      assert (a + b)[1..] == a[1..] + b;
      DeclaredAppend(a[1..], b);
    }
  }

  lemma {:induction false} InOrderAppend(a: seq<Piece>, b: seq<Piece>, k: nat)
    ensures DeclaredInOrder(a + b, k) <==> DeclaredInOrder(a, k) && DeclaredInOrder(b, k + |Declared(a)|)
  {
    if a == [] {
      assert a + b == b;
    } else {
      assert (a + b)[1..] == a[1..] + b;
      InOrderAppend(a[1..], b, if a[0].Line? && a[0].stmt.Creg? then k + 1 else k);
    }
  }

  lemma {:induction false} InOrderDeclares(pieces: seq<Piece>, k: nat)
    requires DeclaredInOrder(pieces, k)
    ensures forall i :: 0 <= i < |Declared(pieces)| ==> Declared(pieces)[i] == k + i
  {
    if pieces != [] {
      InOrderDeclares(pieces[1..], if pieces[0].Line? && pieces[0].stmt.Creg? then k + 1 else k);
    }
  }

  // ----- what decides it -----

  /** A measurement stands inside the conditional bodies. */
  predicate MeasuresInside(body: seq<Inst>) {
    body != [] && (body[0].Measure? || (body[0].Cond? && MeasuresInside(body[0].body)))
  }

  /** Every conditional comes after some measurement and none measures in its body. */
  predicate Ordered(insts: seq<Inst>, counter: nat) {
    insts == [] ||
    if insts[0].Measure? then Ordered(insts[1..], counter + 1)
    else (insts[0].Cond? ==> counter > 0 && !MeasuresInside(insts[0].body)) && Ordered(insts[1..], counter)
  }

  /** Every entry is the number of a measurement already made, or the 0 of a missing one. */
  ghost predicate Bounded(index: Index, counter: nat) {
    forall q :: q in index ==> index[q] < counter || index[q] == 0
  }

  lemma InOrderOne(p: Piece, k: nat)
    ensures DeclaredInOrder([p], k)
            <==> if p.Line? && p.stmt.Creg? then p.stmt.reg == k else Used(p).Some? ==> Used(p).value < k
    ensures Declared([p]) == if p.Line? && p.stmt.Creg? then [p.stmt.reg] else []
  {
    assert [p][1..] == [];
  }

  lemma InOrderMeasure(q: nat, reg: nat, k: nat)
    ensures DeclaredInOrder([Line(Creg(reg)), Line(MeasureTo(q, reg))], k) <==> reg == k
    ensures Declared([Line(Creg(reg)), Line(MeasureTo(q, reg))]) == [reg]
  {
    var a, b := Line(Creg(reg)), Line(MeasureTo(q, reg));
    InOrderOne(b, k + 1);
    assert [a, b][1..] == [b];
    if reg == k {
      assert DeclaredInOrder([b], k + 1);
    }
  }

  lemma InOrderSwap(a: nat, b: nat, k: nat)
    ensures var c1, c2 := Line(Apply("cx", [], [a, b])), Line(Apply("cx", [], [b, a]));
            DeclaredInOrder([c1, c2, c1], k) && Declared([c1, c2, c1]) == []
  {
    var c1, c2 := Line(Apply("cx", [], [a, b])), Line(Apply("cx", [], [b, a]));
    InOrderOne(c1, k);
    assert [c1, c2, c1][1..] == [c2, c1] && [c2, c1][1..] == [c1];
  }

  /** The body of a conditional is translated with its own numbering from 0, so it must not declare. */
  lemma {:induction false} BodyInOrderIff(body: seq<Inst>, k: nat)
    requires k > 0 && |body| <= 1 && VisitAll(body, 0, map[]).Ok?
    ensures DeclaredInOrder(VisitAll(body, 0, map[]).value.pieces, k) <==> !MeasuresInside(body)
    ensures !MeasuresInside(body) ==> Declared(VisitAll(body, 0, map[]).value.pieces) == []
    decreases body
  {
    if body == [] {
      VisitAllNone(0, map[]);
    } else {
      assert body == [body[0]];
      VisitAllOne(body[0], 0, map[]);
      VisitInOrderIff(body[0], 0, map[], k);
    }
  }

  /** One instruction, visited with `counter` registers of its own numbering and k declared. */
  lemma {:induction false} VisitInOrderIff(inst: Inst, counter: nat, index: Index, k: nat)
    requires Visit(inst, counter, index).Ok? && (k == counter || (counter == 0 && k > 0)) && Bounded(index, counter)
    ensures var em := Visit(inst, counter, index).value;
            && (DeclaredInOrder(em.pieces, k)
                <==> if inst.Measure? then k == counter else inst.Cond? ==> k > 0 && !MeasuresInside(inst.body))
            && (inst.Measure? ==> Declared(em.pieces) == [counter])
            && (DeclaredInOrder(em.pieces, k) && !inst.Measure? ==> Declared(em.pieces) == [])
            && em.counter == (if inst.Measure? then counter + 1 else counter)
            && Bounded(em.index, em.counter)
    decreases inst
  {
    if inst.Swap? {
      InOrderSwap(inst.a, inst.b, k);
    } else if inst.Measure? {
      InOrderMeasure(inst.q, counter, k);
    } else if inst.Cond? {
      VisitCondBody(inst.q, inst.body, counter, index);
      var guard := Guard(Lookup(index, inst.q));
      var inner := VisitAll(inst.body, 0, map[]).value;
      InOrderOne(guard, k);
      InOrderAppend([guard], inner.pieces, k);
      DeclaredAppend([guard], inner.pieces);
      if k > 0 {
        BodyInOrderIff(inst.body, k);
      }
    } else if IsGate(inst) {
      InOrderOne(Line(GateStmt(inst)), k);
    }
  }

  lemma {:induction false} VisitsInOrderIff(insts: seq<Inst>, counter: nat, index: Index)
    requires VisitAll(insts, counter, index).Ok? && Bounded(index, counter)
    ensures DeclaredInOrder(VisitAll(insts, counter, index).value.pieces, counter) <==> Ordered(insts, counter)
    ensures Ordered(insts, counter) ==>
              counter + |Declared(VisitAll(insts, counter, index).value.pieces)|
              == VisitAll(insts, counter, index).value.counter
    ensures Bounded(VisitAll(insts, counter, index).value.index, VisitAll(insts, counter, index).value.counter)
  {
    if insts == [] {
      VisitAllNone(counter, index);
    } else {
      VisitAllStep(insts, counter, index);
      VisitInOrderIff(insts[0], counter, index, counter);
      hide Visit, VisitAll, Declared, DeclaredInOrder, Bounded, MeasuresInside;
      var first := Visit(insts[0], counter, index).value;
      VisitsInOrderIff(insts[1..], first.counter, first.index);
      var rest := VisitAll(insts[1..], first.counter, first.index).value;
      InOrderAppend(first.pieces, rest.pieces, counter);
      DeclaredAppend(first.pieces, rest.pieces);
    }
  }

  /** The registers are declared as c0, c1, ..., each once and before any use, exactly if every
      conditional comes after some measurement and none measures in its body; there are then as many
      as the visitor's counter says, and every entry of the map names one of them or is 0. */
  lemma RegistersInOrderIff(insts: seq<Inst>)
    requires VisitAll(insts, 0, map[]).Ok?
    ensures var em := VisitAll(insts, 0, map[]).value;
            && (DeclaredInOrder(em.pieces, 0) <==> Ordered(insts, 0))
            && (Ordered(insts, 0) ==> Declared(em.pieces) == seq(em.counter, i => i))
            && Bounded(em.index, em.counter)
  {
    VisitsInOrderIff(insts, 0, map[]);
    var em := VisitAll(insts, 0, map[]).value;
    if Ordered(insts, 0) {
      InOrderDeclares(em.pieces, 0);
    }
  }

  /** A conditional before any measurement reads a register that is not declared. */
  lemma TestBeforeMeasurement(q: nat, g: Inst)
    requires IsGate(g)
    ensures var insts := [Cond(q, [g])];
            VisitAll(insts, 0, map[]).Ok? && !DeclaredInOrder(VisitAll(insts, 0, map[]).value.pieces, 0)
  {
    var insts := [Cond(q, [g])];
    VisitAllOne(g, 0, map[]);
    VisitCondBody(q, [g], 0, map[]);
    VisitAllOne(insts[0], 0, map[]);
    hide VisitAll, Visit;
    RegistersInOrderIff(insts);
  }

  /** A measurement inside a conditional declares c0 a second time. */
  lemma MeasurementInside(p: nat, q: nat)
    ensures var insts := [Measure(p, 0), Cond(p, [Measure(q, 0)])];
            VisitAll(insts, 0, map[]).Ok? && !DeclaredInOrder(VisitAll(insts, 0, map[]).value.pieces, 0)
  {
    var m, cond := Measure(p, 0), Cond(p, [Measure(q, 0)]);
    var insts := [m, cond];
    VisitAllOne(Measure(q, 0), 0, map[]);
    VisitCondBody(p, [Measure(q, 0)], 1, map[p := 0]);
    VisitAllOne(cond, 1, map[p := 0]);
    assert insts[1..] == [cond];
    assert VisitAll(insts, 0, map[]).Ok?;
    hide VisitAll, Visit;
    RegistersInOrderIff(insts);
    assert !Ordered([cond], 1);
  }
}
