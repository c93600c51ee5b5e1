/** What the OpenQASM visitor appends for each instruction, as functions of its two pieces of
    state: the number of classical registers so far and the qubit-to-register map. */
module Emission {
  import opened Wrappers
  import opened GateIR
  import opened OpenQasm

  /** One entry of the JSON operation list. */
  datatype Op = Op(name: string, params: seq<Angle>, qubits: seq<nat>, clbits: seq<nat>)

  type Index = map<nat, nat>

  /** Pieces and operations appended by a visit, and the visitor's state after it. */
  datatype Emission = Emission(pieces: seq<Piece>, ops: seq<Op>, counter: nat, index: Index)

  /** Instructions translated to exactly one statement. */
  predicate IsGate(inst: Inst) {
    inst.H? || inst.Id? || inst.X? || inst.Y? || inst.Z? || inst.Rx? || inst.Ry? || inst.Rz? || inst.U? || inst.CNOT?
  }

  function GateStmt(inst: Inst): Stmt
    requires IsGate(inst)
  {
    match inst
    case H(q) => Apply("u2", [Zero, Pi], [q])
    case Id(q) => Apply("id", [], [q])
    case X(q) => Apply("u3", [Pi, Zero, Pi], [q])
    case Y(q) => Apply("u3", [Pi, HalfPi, Pi], [q])
    case Z(q) => Apply("u1", [Pi], [q])
    case Rx(q, a) => Apply("u3", [a, MinusHalfPi, HalfPi], [q])
    case Ry(q, a) => Apply("u3", [a, Zero, Zero], [q])
    case Rz(q, a) => Apply("u1", [a], [q])
    case U(q, a, b, c) => Apply("U", [a, b, c], [q])
    case CNOT(s, x) => Apply("cx", [], [s, x])
  }

  function StmtOp(s: Stmt): Op
    requires s.Apply?
  {
    Op(s.name, s.params, s.qubits, [])
  }

  /** map::insert: the first entry of a key stays. */
  function Insert(index: Index, q: nat, k: nat): Index {
    if q in index then index else index[q := k]
  }

  /** map::operator[]: a missing key reads as 0. */
  function Lookup(index: Index, q: nat): nat {
    if q in index then index[q] else 0
  }

  /** A conditional on q around what a fresh visitor emitted for its body; only the text is kept. */
  function Guarded(q: nat, body: Result<Emission>, counter: nat, index: Index): Result<Emission> {
    match body
    case Err(e) => Err(e)
    case Ok(inner) => Ok(Emission([Guard(Lookup(index, q))] + inner.pieces, [], counter, Insert(index, q, 0)))
  }

  function Visit(inst: Inst, counter: nat, index: Index): Result<Emission>
    decreases inst, 0
  {
    match inst
    case CZ(_, _) => Err("cz not supported")
    case CPhase(_, _, _) => Ok(Emission([], [], counter, index))
    case Swap(a, b) =>
      var c1, c2 := Apply("cx", [], [a, b]), Apply("cx", [], [b, a]);
      Ok(Emission([Line(c1), Line(c2), Line(c1)], [StmtOp(c1), StmtOp(c2), StmtOp(c1)], counter, index))
    case Measure(q, _) =>
      Ok(Emission([Line(Creg(counter)), Line(MeasureTo(q, counter))], [Op("measure", [], [q], [counter])],
                  counter + 1, Insert(index, q, counter)))
    case Cond(q, body) =>
      if |body| > 1 then Err("IBM only supports single conditional operations.")
      else Guarded(q, VisitAll(body, 0, map[]), counter, index)
    case _ => Ok(Emission([Line(GateStmt(inst))], [StmtOp(GateStmt(inst))], counter, index))
  }

  /** The emission of a visit followed by that of the visits after it. */
  function Then(first: Emission, rest: Result<Emission>): Result<Emission> {
    match rest
    case Err(e) => Err(e)
    case Ok(r) => Ok(Emission(first.pieces + r.pieces, first.ops + r.ops, r.counter, r.index))
  }

  function VisitAll(insts: seq<Inst>, counter: nat, index: Index): Result<Emission>
    decreases insts, 1
  {
    if insts == [] then Ok(Emission([], [], counter, index))
    else
      match Visit(insts[0], counter, index)
      case Err(e) => Err(e)
      case Ok(first) => Then(first, VisitAll(insts[1..], first.counter, first.index))
  }

  lemma VisitAllStep(insts: seq<Inst>, counter: nat, index: Index)
    requires insts != [] && VisitAll(insts, counter, index).Ok?
    ensures Visit(insts[0], counter, index).Ok?
    ensures var first := Visit(insts[0], counter, index).value;
            var rest := VisitAll(insts[1..], first.counter, first.index);
            rest.Ok? && VisitAll(insts, counter, index) == Then(first, rest)
  {
  }

  lemma {:induction false} VisitAllConcat(a: seq<Inst>, b: seq<Inst>, counter: nat, index: Index)
    ensures VisitAll(a + b, counter, index)
         == match VisitAll(a, counter, index)
            case Err(e) => Err(e)
            case Ok(first) => Then(first, VisitAll(b, first.counter, first.index))
  {
    if a == [] {
      assert a + b == b;
      ThenNothing(VisitAll(b, counter, index), counter, index);
    } else {
      assert (a + b)[0] == a[0] && (a + b)[1..] == a[1..] + b;
      hide Then;
      match Visit(a[0], counter, index)
      case Err(_) =>
      case Ok(first) =>
        VisitAllConcat(a[1..], b, first.counter, first.index);
        match VisitAll(a[1..], first.counter, first.index)
        case Err(e) =>
          ThenErr(first, e);
        case Ok(mid) =>
          ThenAssoc(first, mid, VisitAll(b, mid.counter, mid.index));
    }
  }

  lemma ThenNothing(rest: Result<Emission>, counter: nat, index: Index)
    ensures Then(Emission([], [], counter, index), rest) == rest
  {
    if rest.Ok? {
      assert [] + rest.value.pieces == rest.value.pieces && [] + rest.value.ops == rest.value.ops;
    }
  }

  lemma VisitAllOne(inst: Inst, counter: nat, index: Index)
    ensures VisitAll([inst], counter, index) == Visit(inst, counter, index)
  {
    var nothing: seq<Inst> := [];
    assert [inst][1..] == nothing;
    match Visit(inst, counter, index)
    case Err(_) =>
    case Ok(first) =>
      assert first.pieces + [] == first.pieces && first.ops + [] == first.ops;
      assert VisitAll(nothing, first.counter, first.index) == Ok(Emission([], [], first.counter, first.index));
  }

  lemma VisitAllNone(counter: nat, index: Index)
    ensures VisitAll([], counter, index) == Ok(Emission([], [], counter, index))
  {
  }

  lemma VisitAllFails(insts: seq<Inst>, counter: nat, index: Index)
    requires insts != [] && Visit(insts[0], counter, index).Err?
    ensures VisitAll(insts, counter, index).Err?
  {
  }

  lemma VisitCondBody(q: nat, body: seq<Inst>, counter: nat, index: Index)
    ensures Visit(Cond(q, body), counter, index)
         == if |body| > 1 then Err("IBM only supports single conditional operations.")
            else Guarded(q, VisitAll(body, 0, map[]), counter, index)
  {
  }

  lemma ThenErr(first: Emission, e: string)
    ensures Then(first, Err(e)) == Err(e)
  {
  }

  lemma ThenAssoc(a: Emission, b: Emission, c: Result<Emission>)
    ensures Then(a, Ok(b)).Ok?
    ensures Then(a, Then(b, c)) == Then(Then(a, Ok(b)).value, c)
    ensures Then(a, Ok(b)).value.counter == b.counter && Then(a, Ok(b)).value.index == b.index
  {
    if c.Ok? {
      assert a.pieces + (b.pieces + c.value.pieces) == (a.pieces + b.pieces) + c.value.pieces;
      assert a.ops + (b.ops + c.value.ops) == (a.ops + b.ops) + c.value.ops;
    }
  }

  // ----- which circuits are accepted -----

  /** No CZ, and conditionals with at most one instruction, of the same kind, as their body. */
  predicate Supported(inst: Inst)
    decreases inst, 0
  {
    match inst
    case CZ(_, _) => false
    case Cond(_, body) => |body| <= 1 && AllSupported(body)
    case _ => true
  }

  predicate AllSupported(insts: seq<Inst>)
    decreases insts, 1
  {
    forall i :: 0 <= i < |insts| ==> Supported(insts[i])
  }

  lemma AllSupportedCons(insts: seq<Inst>)
    requires insts != []
    ensures AllSupported(insts) <==> Supported(insts[0]) && AllSupported(insts[1..])
  {
    var more := insts[1..];
    assert forall i :: 0 <= i < |more| ==> more[i] == insts[i + 1];
    if Supported(insts[0]) && AllSupported(more) {
      forall i | 0 <= i < |insts|
        ensures Supported(insts[i])
      {
        assert i > 0 ==> Supported(more[i - 1]);
      }
    }
  }

  /** The visitor accepts exactly the supported instructions, in any state. */
  lemma {:induction false} VisitAcceptsIff(inst: Inst, counter: nat, index: Index)
    ensures Visit(inst, counter, index).Ok? <==> Supported(inst)
    decreases inst, 0
  {
    if inst.Cond? {
      VisitCondBody(inst.q, inst.body, counter, index);
      VisitAllAcceptsIff(inst.body, 0, map[]);
    }
  }

  lemma {:induction false} VisitAllAcceptsIff(insts: seq<Inst>, counter: nat, index: Index)
    ensures VisitAll(insts, counter, index).Ok? <==> AllSupported(insts)
    decreases insts, 1
  {
    if insts == [] {
      VisitAllNone(counter, index);
    } else {
      VisitAcceptsIff(insts[0], counter, index);
      AllSupportedCons(insts);
      hide Visit, Supported, AllSupported;
      if Visit(insts[0], counter, index).Ok? {
        var first := Visit(insts[0], counter, index).value;
        VisitAllAcceptsIff(insts[1..], first.counter, first.index);
      }
    }
  }
}
