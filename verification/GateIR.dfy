/** The gate intermediate representation: instructions, kernels as trees of nodes, and the pre-order walk. */
module GateIR {

  /** A gate parameter. The four constants are the ones the translators write as literals; every
      other parameter is kept as the text InstructionParameter::toString() returns. */
  datatype Angle = Zero | Pi | HalfPi | MinusHalfPi | Sym(text: string)

  datatype Inst =
    | H(q: nat)
    | Id(q: nat)
    | X(q: nat)
    | Y(q: nat)
    | Z(q: nat)
    | Rx(q: nat, angle: Angle)
    | Ry(q: nat, angle: Angle)
    | Rz(q: nat, angle: Angle)
    | U(q: nat, theta: Angle, phi: Angle, lambda: Angle)
    | CNOT(source: nat, target: nat)
    | CZ(source: nat, target: nat)
    | CPhase(source: nat, target: nat, angle: Angle)
    | Swap(a: nat, b: nat)
    | Measure(q: nat, cbit: nat)
    | Cond(q: nat, body: seq<Inst>)

  /** A kernel is a list of nodes: instructions with their enabled flag, or calls of other kernels. */
  datatype Node =
    | Leaf(inst: Inst, enabled: bool)
    | Call(name: string, children: seq<Node>)

  /** The leaves in the order InstructionIterator visits them. Visiting a composite node itself
      has no effect on any visitor of this project, so only leaves are listed. */
  function Walk(nodes: seq<Node>): seq<Node> {
    if nodes == [] then []
    else
      (match nodes[0]
       case Leaf(_, _) => [nodes[0]]
       case Call(_, children) => Walk(children)) + Walk(nodes[1..])
  }

  /** The instructions a visitor is shown: the enabled leaves in walk order. */
  function Enabled(leaves: seq<Node>): seq<Inst> {
    if leaves == [] then []
    else
      (if leaves[0].Leaf? && leaves[0].enabled then [leaves[0].inst] else []) + Enabled(leaves[1..])
  }

  lemma {:induction false} EnabledConcat(a: seq<Node>, b: seq<Node>)
    ensures Enabled(a + b) == Enabled(a) + Enabled(b)
  {
    if a == [] {
      assert a + b == b;
    } else {
      assert (a + b)[1..] == a[1..] + b;
      EnabledConcat(a[1..], b);
    }
  }

  function Bits(inst: Inst): seq<nat> {
    match inst
    case CNOT(s, t) => [s, t]
    case CZ(s, t) => [s, t]
    case CPhase(s, t, _) => [s, t]
    case Swap(a, b) => [a, b]
    case Cond(_, _) => []
    case _ => [inst.q]
  }
}
