/** Kernels that call kernels. The walk descends into a called kernel and advances the index for every
    enabled instruction in it, while the edit is made in the calling kernel. The transformation
    relies on the visited CNOT being the instruction at the index. */
module NestedKernels {
  import opened Wrappers
  import opened GateIR
  import opened Sequences
  import opened CnotReversal

  /** The uncoupled CNOTs of the called kernels. */
  predicate CallsUncoupled(cs: Couplers, node: Node) {
    node.Call? && HasUncoupled(cs, Walk(node.children))
  }

  /** How far a node moves the index when it is not replaced. */
  function Advance(node: Node): nat {
    |Enabled(Walk([node]))|
  }

  /** The walk over `rest` in the kernel done + rest, with the index at idx: the final kernel, or
      None as soon as an uncoupled CNOT is not the instruction at the index. */
  function EditFound(cs: Couplers, done: seq<Node>, rest: seq<Node>, idx: nat): Option<seq<Node>>
    decreases |rest|
  {
    if rest == [] then Some(done)
    else if CallsUncoupled(cs, rest[0]) then None
    else if IsUncoupled(cs, rest[0]) then
      if idx == |done| then
        EditFound(cs, done + Replacement(rest[0].inst.source, rest[0].inst.target), rest[1..], idx + 5)
      else None
    else EditFound(cs, done + [rest[0]], rest[1..], idx + Advance(rest[0]))
  }

  /** From node i on, no called kernel has an uncoupled CNOT, and before every uncoupled CNOT the
      enabled instructions, counted through the calls, are as many as the nodes. */
  predicate AlignedFrom(cs: Couplers, nodes: seq<Node>, i: nat) {
    && (forall j :: i <= j < |nodes| ==> !CallsUncoupled(cs, nodes[j]))
    && (forall j :: i <= j < |nodes| && IsUncoupled(cs, nodes[j]) ==> |Enabled(Walk(nodes[..j]))| == j)
  }

  predicate TreeAligned(cs: Couplers, nodes: seq<Node>) {
    AlignedFrom(cs, nodes, 0)
  }

  lemma {:induction false} WalkConcat(a: seq<Node>, b: seq<Node>)
    ensures Walk(a + b) == Walk(a) + Walk(b)
  {
    if a == [] {
      assert a + b == b;
    } else {
      assert (a + b)[1..] == a[1..] + b;
      WalkConcat(a[1..], b);
      Assoc(match a[0] case Leaf(_, _) => [a[0]] case Call(_, children) => Walk(children), Walk(a[1..]), Walk(b));
    }
  }

  /** Counting the enabled instructions of a prefix node by node. */
  lemma PrefixAdvance(nodes: seq<Node>, i: nat)
    requires i < |nodes|
    ensures |Enabled(Walk(nodes[..i + 1]))| == |Enabled(Walk(nodes[..i]))| + Advance(nodes[i])
  {
    hide Walk, Enabled;
    assert nodes[..i + 1] == nodes[..i] + [nodes[i]];
    WalkConcat(nodes[..i], [nodes[i]]);
    EnabledConcat(Walk(nodes[..i]), Walk([nodes[i]]));
  }

  lemma WalkOfLeaf(node: Node)
    requires node.Leaf?
    ensures Walk([node]) == [node]
  {
    assert [node][1..] == [];
    assert Walk([node]) == [node] + [];
  }

  lemma LeafAdvance(node: Node)
    requires node.Leaf?
    ensures Advance(node) == if node.enabled then 1 else 0
  {
    WalkOfLeaf(node);
    assert [node][1..] == [];
    assert Enabled([node]) == (if node.enabled then [node.inst] else []) + [];
  }

  lemma RewritePrefix(cs: Couplers, nodes: seq<Node>, i: nat)
    requires i < |nodes|
    ensures Rewrite(cs, nodes[..i + 1]) == Rewrite(cs, nodes[..i]) + Rewritten(cs, nodes[i])
  {
    assert nodes[..i + 1] == nodes[..i] + [nodes[i]];
    RewriteConcat(cs, nodes[..i], [nodes[i]]);
    assert [nodes[i]][1..] == [];
    assert Rewrite(cs, [nodes[i]]) == Rewritten(cs, nodes[i]) + [];
  }

  /** Where the walk stands after i nodes if every uncoupled CNOT was found at the index so far. */
  function IndexAfter(cs: Couplers, nodes: seq<Node>, i: nat): nat
    requires i <= |nodes|
  {
    |Enabled(Walk(nodes[..i]))| + 4 * CountUncoupled(cs, nodes[..i])
  }

  lemma {:induction false} CountConcat(cs: Couplers, a: seq<Node>, b: seq<Node>)
    ensures CountUncoupled(cs, a + b) == CountUncoupled(cs, a) + CountUncoupled(cs, b)
  {
    if a == [] {
      assert a + b == b;
    } else {
      assert (a + b)[1..] == a[1..] + b;
      CountConcat(cs, a[1..], b);
    }
  }

  lemma IndexStep(cs: Couplers, nodes: seq<Node>, i: nat)
    requires i < |nodes|
    ensures IndexAfter(cs, nodes, i + 1)
         == IndexAfter(cs, nodes, i) + if IsUncoupled(cs, nodes[i]) then 5 else Advance(nodes[i])
  {
    PrefixAdvance(nodes, i);
    assert nodes[..i + 1] == nodes[..i] + [nodes[i]];
    CountConcat(cs, nodes[..i], [nodes[i]]);
    assert [nodes[i]][1..] == [];
    if IsUncoupled(cs, nodes[i]) {
      LeafAdvance(nodes[i]);
    }
  }

  lemma AlignedFromStep(cs: Couplers, nodes: seq<Node>, i: nat)
    requires i < |nodes|
    ensures AlignedFrom(cs, nodes, i)
            <==> && !CallsUncoupled(cs, nodes[i])
                 && (IsUncoupled(cs, nodes[i]) ==> |Enabled(Walk(nodes[..i]))| == i)
                 && AlignedFrom(cs, nodes, i + 1)
  {
    hide Enabled, Walk, CallsUncoupled, IsUncoupled;
  }

  lemma FoundStep(cs: Couplers, done: seq<Node>, nodes: seq<Node>, i: nat, idx: nat)
    requires i < |nodes|
    ensures EditFound(cs, done, nodes[i..], idx)
         == if CallsUncoupled(cs, nodes[i]) || (IsUncoupled(cs, nodes[i]) && idx != |done|) then None
            else EditFound(cs, done + Rewritten(cs, nodes[i]), nodes[i + 1..],
                           idx + if IsUncoupled(cs, nodes[i]) then 5 else Advance(nodes[i]))
  {
    hide CallsUncoupled, Advance;
    assert nodes[i..][0] == nodes[i] && nodes[i..][1..] == nodes[i + 1..];
  }

  lemma AtTheIndex(cs: Couplers, nodes: seq<Node>, i: nat)
    requires i <= |nodes|
    ensures IndexAfter(cs, nodes, i) == |Rewrite(cs, nodes[..i])| <==> |Enabled(Walk(nodes[..i]))| == i
  {
    RewriteLength(cs, nodes[..i]);
  }

  /** What the walk makes of the kernel from node i on, if all went well before. */
  function FoundAfter(cs: Couplers, nodes: seq<Node>, i: nat): Option<seq<Node>>
    requires i <= |nodes|
  {
    EditFound(cs, Rewrite(cs, nodes[..i]), nodes[i..], IndexAfter(cs, nodes, i))
  }

  lemma FoundAfterStep(cs: Couplers, nodes: seq<Node>, i: nat)
    requires i < |nodes|
    ensures FoundAfter(cs, nodes, i)
         == if CallsUncoupled(cs, nodes[i]) || (IsUncoupled(cs, nodes[i]) && |Enabled(Walk(nodes[..i]))| != i) then None
            else FoundAfter(cs, nodes, i + 1)
  {
    hide Rewrite, EditFound, IndexAfter, Enabled, Walk, CallsUncoupled, Advance, Rewritten, IsUncoupled;
    AtTheIndex(cs, nodes, i);
    RewritePrefix(cs, nodes, i);
    IndexStep(cs, nodes, i);
    FoundStep(cs, Rewrite(cs, nodes[..i]), nodes, i, IndexAfter(cs, nodes, i));
  }

  lemma {:induction false} FoundFrom(cs: Couplers, nodes: seq<Node>, i: nat)
    requires i <= |nodes|
    ensures FoundAfter(cs, nodes, i) == if AlignedFrom(cs, nodes, i) then Some(Rewrite(cs, nodes)) else None
    decreases |nodes| - i
  {
    if i == |nodes| {
      assert nodes[..i] == nodes && nodes[i..] == [];
    } else {
      hide FoundAfter, Rewrite, AlignedFrom, Enabled, Walk, CallsUncoupled, IsUncoupled;
      AlignedFromStep(cs, nodes, i);
      FoundAfterStep(cs, nodes, i);
      FoundFrom(cs, nodes, i + 1);
    }
  }

  /** Every uncoupled CNOT is the instruction at the index when it is visited if and only if the
      kernel is aligned, through all its calls; and then the kernel becomes the intended rewriting. */
  lemma FoundIffTreeAligned(cs: Couplers, nodes: seq<Node>)
    ensures EditFound(cs, [], nodes, 0) == if TreeAligned(cs, nodes) then Some(Rewrite(cs, nodes)) else None
  {
    assert nodes[..0] == [] && nodes[0..] == nodes;
    FoundFrom(cs, nodes, 0);
  }

  // ----- flat kernels again -----

  lemma {:induction false} FlatCount(nodes: seq<Node>)
    requires Flat(nodes)
    ensures |Enabled(Walk(nodes))| <= |nodes|
    ensures |Enabled(Walk(nodes))| == |nodes| <==> forall i :: 0 <= i < |nodes| ==> !Skipped(nodes[i])
  {
    if nodes != [] {
      assert forall i :: 0 <= i < |nodes[1..]| ==> nodes[1..][i] == nodes[i + 1];
      FlatCount(nodes[1..]);
      assert Walk(nodes) == [nodes[0]] + Walk(nodes[1..]);
      assert ([nodes[0]] + Walk(nodes[1..]))[1..] == Walk(nodes[1..]);
    }
  }

  /** On flat kernels this is the condition under which the unchecked edit is the intended one. */
  lemma FlatTreeAligned(cs: Couplers, nodes: seq<Node>)
    requires Flat(nodes)
    ensures TreeAligned(cs, nodes) <==> Aligned(cs, nodes)
    ensures EditFound(cs, [], nodes, 0).Some? <==> Edit(cs, nodes, nodes, 0, 0) == Rewrite(cs, nodes)
  {
    hide Edit, EditFound, Enabled, Walk, Rewrite;
    forall j | 0 <= j < |nodes|
      ensures |Enabled(Walk(nodes[..j]))| == j <==> forall i :: 0 <= i < j ==> !Skipped(nodes[i])
    {
      FlatCount(nodes[..j]);
      assert forall i :: 0 <= i < j ==> nodes[..j][i] == nodes[i];
    }
    FoundIffTreeAligned(cs, nodes);
    EditIsRewriteIffAligned(cs, nodes);
  }

  /** The CNOT of a called kernel is looked for in the caller, where the index is past the end. */
  lemma NestedCnotIsNotFound()
    ensures EditFound([(1, 0)], [], [Call("f", [Leaf(X(0), true), Leaf(CNOT(0, 1), true)])], 0) == None
  {
    var cs: Couplers := [(1, 0)];
    var children := [Leaf(X(0), true), Leaf(CNOT(0, 1), true)];
    assert children[1..] == [children[1]] && children[1..][1..] == [];
    assert Walk(children[1..]) == [children[1]] + [];
    assert Walk(children) == [children[0]] + Walk(children[1..]);
    assert IsUncoupled(cs, Walk(children)[1]);
  }

  /** A call of one enabled instruction advances the index like an instruction. */
  lemma CallOfOneIsAligned()
    ensures var nodes := [Call("f", [Leaf(X(0), true)]), Leaf(CNOT(0, 1), true)];
            EditFound([(1, 0)], [], nodes, 0) == Some(Rewrite([(1, 0)], nodes))
  {
    var cs: Couplers := [(1, 0)];
    var x := Leaf(X(0), true);
    var f := Call("f", [x]);
    var nodes := [f, Leaf(CNOT(0, 1), true)];
    assert nodes[..1] == [f] && [f][1..] == [] && [x][1..] == [];
    assert Walk([x]) == [x] + [] && Walk([f]) == Walk([x]) + [];
    assert Walk([x]) == [x] && Enabled([x]) == [X(0)];
    assert nodes[..0] == [];
    assert forall i :: 0 <= i < |nodes| && IsUncoupled(cs, nodes[i]) ==> i == 1;
    assert forall i :: 0 <= i < |Walk([x])| ==> Walk([x])[i] == x;
    FoundIffTreeAligned(cs, nodes);
  }
}
