/** The rewriting of uncoupled CNOTs as a function on kernel contents: what the in-place edit of
    IBMIRTransformation does for every input, when that is the intended rewriting, and what the
    rewriting means. */
module CnotReversal {
  import opened GateIR
  import opened Quantum
  import opened Sequences

  type Couplers = seq<(nat, nat)>

  /** A CNOT the visitor disables and replaces. */
  predicate IsUncoupled(cs: Couplers, node: Node) {
    node.Leaf? && node.enabled && node.inst.CNOT? && (node.inst.source, node.inst.target) !in cs
  }

  function Replacement(source: nat, target: nat): seq<Node> {
    [Leaf(H(source), true), Leaf(H(target), true), Leaf(CNOT(target, source), true),
     Leaf(H(source), true), Leaf(H(target), true)]
  }

  function Rewritten(cs: Couplers, node: Node): seq<Node> {
    if IsUncoupled(cs, node) then Replacement(node.inst.source, node.inst.target) else [node]
  }

  /** The intended result: every uncoupled CNOT replaced where it stands. */
  function Rewrite(cs: Couplers, nodes: seq<Node>): seq<Node> {
    if nodes == [] then [] else Rewritten(cs, nodes[0]) + Rewrite(cs, nodes[1..])
  }

  /** A node that does not advance the index. For calls, whose bodies do, see NestedKernels. */
  predicate Skipped(node: Node) {
    !(node.Leaf? && node.enabled)
  }

  /** The kernel after the CNOT at `place` was disabled, whatever stood at idx was removed, and the
      replacement was inserted at idx. */
  function Edited(cs: Couplers, kernel: seq<Node>, cnot: Node, idx: nat, place: nat): (r: seq<Node>)
    requires IsUncoupled(cs, cnot) && idx <= place < |kernel|
    ensures |r| == |kernel| + 4
  {
    var disabled := kernel[place := Leaf(cnot.inst, false)];
    disabled[..idx] + Replacement(cnot.inst.source, cnot.inst.target) + disabled[idx + 1..]
  }

  /** What is left to do when the walk still has to visit `walk`, the transformation's index is
      `idx`, and `skipped` visited nodes did not advance it: the node being visited is at
      idx + skipped, but the removal and the insertions happen at idx. */
  function Edit(cs: Couplers, kernel: seq<Node>, walk: seq<Node>, idx: nat, skipped: nat): seq<Node>
    requires idx + skipped + |walk| == |kernel|
    decreases |walk|
  {
    if walk == [] then kernel
    else if Skipped(walk[0]) then Edit(cs, kernel, walk[1..], idx, skipped + 1)
    else if IsUncoupled(cs, walk[0]) then
      Edit(cs, Edited(cs, kernel, walk[0], idx, idx + skipped), walk[1..], idx + 5, skipped)
    else Edit(cs, kernel, walk[1..], idx + 1, skipped)
  }

  lemma EditStep(cs: Couplers, kernel: seq<Node>, walk: seq<Node>, idx: nat, skipped: nat)
    requires idx + skipped + |walk| == |kernel| && walk != []
    ensures Edit(cs, kernel, walk, idx, skipped)
         == if Skipped(walk[0]) then Edit(cs, kernel, walk[1..], idx, skipped + 1)
            else if IsUncoupled(cs, walk[0]) then
              Edit(cs, Edited(cs, kernel, walk[0], idx, idx + skipped), walk[1..], idx + 5, skipped)
            else Edit(cs, kernel, walk[1..], idx + 1, skipped)
  {
  }

  // ----- when the in-place edit is the intended rewriting -----

  predicate HasUncoupled(cs: Couplers, nodes: seq<Node>) {
    exists i :: 0 <= i < |nodes| && IsUncoupled(cs, nodes[i])
  }

  /** No disabled instruction stands before an uncoupled CNOT. */
  predicate Aligned(cs: Couplers, nodes: seq<Node>) {
    forall i, j :: 0 <= i < j < |nodes| && Skipped(nodes[i]) ==> !IsUncoupled(cs, nodes[j])
  }

  lemma {:induction false} NothingUncoupled(cs: Couplers, kernel: seq<Node>, walk: seq<Node>, idx: nat, skipped: nat)
    requires idx + skipped + |walk| == |kernel|
    requires !HasUncoupled(cs, walk)
    ensures Edit(cs, kernel, walk, idx, skipped) == kernel
    ensures Rewrite(cs, walk) == walk
    decreases |walk|
  {
    if walk != [] {
      assert !IsUncoupled(cs, walk[0]);
      assert !HasUncoupled(cs, walk[1..]) by {
        assert forall i :: 0 <= i < |walk[1..]| ==> walk[1..][i] == walk[i + 1];
      }
      if Skipped(walk[0]) {
        NothingUncoupled(cs, kernel, walk[1..], idx, skipped + 1);
      } else {
        NothingUncoupled(cs, kernel, walk[1..], idx + 1, skipped);
      }
    }
  }

  /** Once a disabled instruction has been passed, the last uncoupled CNOT of the walk is left in
      the kernel, disabled, at the place where Rewrite has the last Hadamard of its replacement. */
  lemma {:induction false} MisalignedEdit(cs: Couplers, kernel: seq<Node>, walk: seq<Node>, idx: nat, skipped: nat,
                                          done: seq<Node>)
    requires idx + skipped + |walk| == |kernel|
    requires skipped > 0 && HasUncoupled(cs, walk) && |done| == idx + skipped
    ensures Edit(cs, kernel, walk, idx, skipped) != done + Rewrite(cs, walk)
    decreases |walk|
  {
    var first, rest := walk[0], walk[1..];
    var head := Rewritten(cs, first);
    EditStep(cs, kernel, walk, idx, skipped);
    RewriteStep(cs, walk);
    Assoc(done, head, Rewrite(cs, rest));
    hide Edit, Rewrite, Replacement;
    if !IsUncoupled(cs, first) {
      assert HasUncoupled(cs, rest) by { UncoupledLater(cs, walk); }
      assert head == [first];
      if Skipped(first) {
        MisalignedEdit(cs, kernel, rest, idx, skipped + 1, done + head);
      } else {
        MisalignedEdit(cs, kernel, rest, idx + 1, skipped, done + head);
      }
    } else {
      ReplacementLength(first.inst.source, first.inst.target);
      var edited := Edited(cs, kernel, first, idx, idx + skipped);
      if HasUncoupled(cs, rest) {
        MisalignedEdit(cs, edited, rest, idx + 5, skipped, done + head);
      } else {
        NothingUncoupled(cs, edited, rest, idx + 5, skipped);
        LastIsLeftDisabled(cs, kernel, first, idx, idx + skipped);
        assert ((done + head) + Rewrite(cs, rest))[idx + skipped + 4] == head[4];
      }
    }
  }

  lemma UncoupledLater(cs: Couplers, walk: seq<Node>)
    requires HasUncoupled(cs, walk) && !IsUncoupled(cs, walk[0])
    ensures HasUncoupled(cs, walk[1..])
  {
    hide IsUncoupled;
    var i :| 0 <= i < |walk| && IsUncoupled(cs, walk[i]);
    assert walk[1..][i - 1] == walk[i];
  }

  lemma ReplacementLength(source: nat, target: nat)
    ensures |Replacement(source, target)| == 5 && Replacement(source, target)[4] == Leaf(H(target), true)
  {
  }

  /** The CNOT, disabled, ends up four places later if something before it was removed instead. */
  lemma LastIsLeftDisabled(cs: Couplers, kernel: seq<Node>, cnot: Node, idx: nat, place: nat)
    requires IsUncoupled(cs, cnot) && idx < place < |kernel|
    ensures Edited(cs, kernel, cnot, idx, place)[place + 4] == Leaf(cnot.inst, false)
  {
  }

  lemma AlignedCons(cs: Couplers, nodes: seq<Node>)
    requires nodes != []
    ensures Aligned(cs, nodes)
            <==> if Skipped(nodes[0]) then !HasUncoupled(cs, nodes[1..]) else Aligned(cs, nodes[1..])
  {
    var rest := nodes[1..];
    assert forall i :: 0 <= i < |rest| ==> rest[i] == nodes[i + 1];
    if HasUncoupled(cs, rest) {
      var j :| 0 <= j < |rest| && IsUncoupled(cs, rest[j]);
      assert IsUncoupled(cs, nodes[j + 1]);
    }
    if !Aligned(cs, rest) {
      var i, j :| 0 <= i < j < |rest| && Skipped(rest[i]) && IsUncoupled(cs, rest[j]);
      assert Skipped(nodes[i + 1]) && IsUncoupled(cs, nodes[j + 1]);
    }
    if !Aligned(cs, nodes) {
      var i, j :| 0 <= i < j < |nodes| && Skipped(nodes[i]) && IsUncoupled(cs, nodes[j]);
      assert IsUncoupled(cs, rest[j - 1]);
      assert i > 0 ==> Skipped(rest[i - 1]);
    }
  }

  lemma EditedInPlace(cs: Couplers, done: seq<Node>, walk: seq<Node>)
    requires walk != [] && IsUncoupled(cs, walk[0])
    ensures Edited(cs, done + walk, walk[0], |done|, |done|)
         == (done + Replacement(walk[0].inst.source, walk[0].inst.target)) + walk[1..]
  {
  }

  lemma RewriteStep(cs: Couplers, walk: seq<Node>)
    requires walk != []
    ensures Rewrite(cs, walk) == Rewritten(cs, walk[0]) + Rewrite(cs, walk[1..])
    ensures Skipped(walk[0]) ==> Rewritten(cs, walk[0]) == [walk[0]]
  {
  }

  /** A disabled instruction at the front: from there on the edit is misaligned. */
  lemma EditFromSkipped(cs: Couplers, done: seq<Node>, walk: seq<Node>)
    requires walk != [] && Skipped(walk[0])
    ensures Edit(cs, done + walk, walk, |done|, 0) == done + Rewrite(cs, walk) <==> !HasUncoupled(cs, walk[1..])
  {
    var first, rest := walk[0], walk[1..];
    EditStep(cs, done + walk, walk, |done|, 0);
    RewriteStep(cs, walk);
    hide Edit, Rewrite, Rewritten, HasUncoupled, IsUncoupled;
    Assoc(done, [first], Rewrite(cs, rest));
    if HasUncoupled(cs, rest) {
      MisalignedEdit(cs, done + walk, rest, |done|, 1, done + [first]);
    } else {
      NothingUncoupled(cs, done + walk, rest, |done|, 1);
      HeadTail(walk);
    }
  }

  lemma EditFromEnabled(cs: Couplers, done: seq<Node>, walk: seq<Node>)
    requires walk != [] && !Skipped(walk[0])
    ensures var head, rest := Rewritten(cs, walk[0]), walk[1..];
            Edit(cs, done + walk, walk, |done|, 0) == Edit(cs, (done + head) + rest, rest, |done + head|, 0)
  {
    EditStep(cs, done + walk, walk, |done|, 0);
    hide Edit, Edited;
    if IsUncoupled(cs, walk[0]) {
      EditedInPlace(cs, done, walk);
    } else {
      assert done + walk == (done + [walk[0]]) + walk[1..];
    }
  }

  /** After an enabled prefix the kernel is the rewritten prefix and the untouched rest, and the
      index is the length of the rewritten prefix. */
  lemma {:induction false} EditAfterPrefix(cs: Couplers, done: seq<Node>, prefix: seq<Node>, rest: seq<Node>)
    requires forall i :: 0 <= i < |prefix| ==> !Skipped(prefix[i])
    ensures var now := done + Rewrite(cs, prefix);
            Edit(cs, done + (prefix + rest), prefix + rest, |done|, 0) == Edit(cs, now + rest, rest, |now|, 0)
    decreases |prefix|
  {
    if prefix == [] {
      assert prefix + rest == rest && done + Rewrite(cs, prefix) == done;
    } else {
      var head, more := Rewritten(cs, prefix[0]), prefix[1..];
      RewriteStep(cs, prefix);
      hide Edit, Rewrite, Rewritten, Skipped;
      assert (prefix + rest)[0] == prefix[0] && (prefix + rest)[1..] == more + rest;
      assert forall i :: 0 <= i < |more| ==> more[i] == prefix[i + 1];
      EditFromEnabled(cs, done, prefix + rest);
      EditAfterPrefix(cs, done + head, more, rest);
      Assoc(done, head, Rewrite(cs, more));
    }
  }

  lemma {:induction false} EditFrom(cs: Couplers, done: seq<Node>, walk: seq<Node>)
    ensures Edit(cs, done + walk, walk, |done|, 0) == done + Rewrite(cs, walk) <==> Aligned(cs, walk)
    decreases |walk|
  {
    if walk != [] {
      AlignedCons(cs, walk);
      RewriteStep(cs, walk);
      hide Edit, Rewrite, Rewritten, Aligned, HasUncoupled, IsUncoupled;
      if Skipped(walk[0]) {
        EditFromSkipped(cs, done, walk);
      } else {
        var head, rest := Rewritten(cs, walk[0]), walk[1..];
        EditFromEnabled(cs, done, walk);
        EditFrom(cs, done + head, rest);
        Assoc(done, head, Rewrite(cs, rest));
      }
    }
  }

  /** A flat kernel: instructions only, no calls. */
  predicate Flat(nodes: seq<Node>) {
    forall i :: 0 <= i < |nodes| ==> nodes[i].Leaf?
  }

  /** On flat kernels the in-place edit is the intended rewriting exactly if no disabled instruction
      precedes an uncoupled CNOT. */
  lemma EditIsRewriteIffAligned(cs: Couplers, nodes: seq<Node>)
    requires Flat(nodes)
    ensures Edit(cs, nodes, nodes, 0, 0) == Rewrite(cs, nodes) <==> Aligned(cs, nodes)
  {
    assert [] + nodes == nodes && [] + Rewrite(cs, nodes) == Rewrite(cs, nodes);
    EditFrom(cs, [], nodes);
  }

  /** A kernel without disabled instructions and calls is rewritten as intended, and no disabled
      instruction is left in it. */
  lemma {:induction false} EnabledKernel(cs: Couplers, nodes: seq<Node>)
    requires forall i :: 0 <= i < |nodes| ==> !Skipped(nodes[i])
    ensures Edit(cs, nodes, nodes, 0, 0) == Rewrite(cs, nodes)
    ensures forall i :: 0 <= i < |Rewrite(cs, nodes)| ==> !Skipped(Rewrite(cs, nodes)[i])
  {
    EditIsRewriteIffAligned(cs, nodes);
    if nodes != [] {
      assert forall i :: 0 <= i < |nodes[1..]| ==> nodes[1..][i] == nodes[i + 1];
      EnabledKernel(cs, nodes[1..]);
    }
  }

  /** The misalignment can change the program: here the X gate, not the CNOT, is removed. */
  lemma MisalignmentLosesGate()
    ensures var k := [Leaf(Z(0), false), Leaf(X(0), true), Leaf(CNOT(0, 1), true)];
            && Edit([(1, 0)], k, k, 0, 0)
               == [Leaf(Z(0), false)] + Replacement(0, 1) + [Leaf(CNOT(0, 1), false)]
            && Leaf(X(0), true) !in Edit([(1, 0)], k, k, 0, 0)
            && Leaf(X(0), true) in Rewrite([(1, 0)], k)
  {
    var cs: Couplers := [(1, 0)];
    var k := [Leaf(Z(0), false), Leaf(X(0), true), Leaf(CNOT(0, 1), true)];
    var w1, w2 := k[1..], k[1..][1..];
    assert w1 == [Leaf(X(0), true), Leaf(CNOT(0, 1), true)] && w2 == [Leaf(CNOT(0, 1), true)];
    var disabled := k[2 := Leaf(CNOT(0, 1), false)];
    var edited := disabled[..1] + Replacement(0, 1) + disabled[2..];
    assert edited == [Leaf(Z(0), false)] + Replacement(0, 1) + [Leaf(CNOT(0, 1), false)];
    calc {
      Edit(cs, k, k, 0, 0);
      Edit(cs, k, w1, 0, 1);
      Edit(cs, k, w2, 1, 1);
      Edit(cs, edited, w2[1..], 6, 1);
      edited;
    }
    assert Rewrite(cs, k) == [k[0]] + ([k[1]] + Rewrite(cs, w2));
    assert Rewrite(cs, k)[1] == k[1];
  }

  // ----- size, coupling, idempotence -----

  function CountUncoupled(cs: Couplers, nodes: seq<Node>): nat {
    if nodes == [] then 0 else (if IsUncoupled(cs, nodes[0]) then 1 else 0) + CountUncoupled(cs, nodes[1..])
  }

  lemma {:induction false} RewriteLength(cs: Couplers, nodes: seq<Node>)
    ensures |Rewrite(cs, nodes)| == |nodes| + 4 * CountUncoupled(cs, nodes)
  {
    if nodes != [] {
      RewriteLength(cs, nodes[1..]);
    }
  }

  lemma {:induction false} RewriteConcat(cs: Couplers, a: seq<Node>, b: seq<Node>)
    ensures Rewrite(cs, a + b) == Rewrite(cs, a) + Rewrite(cs, b)
  {
    if a == [] {
      assert a + b == b;
    } else {
      assert (a + b)[1..] == a[1..] + b;
      RewriteConcat(cs, a[1..], b);
    }
  }

  /** Every enabled CNOT is coupled in one of its two directions. */
  predicate Connected(cs: Couplers, nodes: seq<Node>) {
    forall i :: 0 <= i < |nodes| && IsUncoupled(cs, nodes[i]) ==> (nodes[i].inst.target, nodes[i].inst.source) in cs
  }

  /** After the rewriting every enabled CNOT is coupled in its own direction exactly if before it
      every enabled CNOT was coupled in one direction or the other. */
  lemma {:induction false} CoupledIffConnected(cs: Couplers, nodes: seq<Node>)
    ensures !HasUncoupled(cs, Rewrite(cs, nodes)) <==> Connected(cs, nodes)
  {
    if nodes != [] {
      var first, rest, out := nodes[0], nodes[1..], Rewrite(cs, nodes);
      CoupledIffConnected(cs, rest);
      assert Connected(cs, nodes) <==>
             Connected(cs, rest) && (IsUncoupled(cs, first) ==> (first.inst.target, first.inst.source) in cs) by {
        assert forall i :: 0 <= i < |rest| ==> rest[i] == nodes[i + 1];
      }
      var head := Rewritten(cs, first);
      HasUncoupledConcat(cs, head, Rewrite(cs, rest));
      if IsUncoupled(cs, first) {
        assert head[2] == Leaf(CNOT(first.inst.target, first.inst.source), true);
      }
    }
  }

  lemma HasUncoupledConcat(cs: Couplers, a: seq<Node>, b: seq<Node>)
    ensures HasUncoupled(cs, a + b) <==> HasUncoupled(cs, a) || HasUncoupled(cs, b)
  {
    if HasUncoupled(cs, a) {
      var i :| 0 <= i < |a| && IsUncoupled(cs, a[i]);
      assert (a + b)[i] == a[i];
    }
    if HasUncoupled(cs, b) {
      var i :| 0 <= i < |b| && IsUncoupled(cs, b[i]);
      assert (a + b)[|a| + i] == b[i];
    }
  }

  lemma {:induction false} UnchangedIffCoupled(cs: Couplers, nodes: seq<Node>)
    ensures Rewrite(cs, nodes) == nodes <==> !HasUncoupled(cs, nodes)
  {
    if HasUncoupled(cs, nodes) {
      RewriteLength(cs, nodes);
      CountPositive(cs, nodes);
    } else {
      NothingUncoupled(cs, nodes, nodes, 0, 0);
    }
  }

  lemma {:induction false} CountPositive(cs: Couplers, nodes: seq<Node>)
    requires HasUncoupled(cs, nodes)
    ensures CountUncoupled(cs, nodes) > 0
  {
    var i :| 0 <= i < |nodes| && IsUncoupled(cs, nodes[i]);
    if i > 0 {
      assert nodes[1..][i - 1] == nodes[i];
      CountPositive(cs, nodes[1..]);
    }
  }

  /** A second rewriting changes nothing exactly if every enabled CNOT was coupled in one
      direction or the other. */
  lemma IdempotentIffConnected(cs: Couplers, nodes: seq<Node>)
    ensures Rewrite(cs, Rewrite(cs, nodes)) == Rewrite(cs, nodes) <==> Connected(cs, nodes)
  {
    UnchangedIffCoupled(cs, Rewrite(cs, nodes));
    CoupledIffConnected(cs, nodes);
  }

  // ----- meaning -----

  /** The rewritten kernel runs exactly like the original: same final state for every initial
      state, same outcome record, whatever the coupler list and the measurement outcomes. */
  lemma {:induction false} RewriteKeepsMeaning(t: Trig, oracle: nat -> bool, n: nat, cs: Couplers, nodes: seq<Node>,
                                               m: Machine)
    requires 2.0 * t.r * t.r == 1.0
    requires AllFit(Enabled(nodes), n)
    ensures Run(t, oracle, n, Enabled(Rewrite(cs, nodes)), m) == Run(t, oracle, n, Enabled(nodes), m)
  {
    if nodes != [] {
      var first, rest := nodes[0], nodes[1..];
      var head := Rewritten(cs, first);
      assert nodes == [first] + rest;
      EnabledConcat([first], rest);
      EnabledConcat(head, Rewrite(cs, rest));
      AllFitConcat(Enabled([first]), Enabled(rest), n);
      RunConcat(t, oracle, n, Enabled([first]), Enabled(rest), m);
      RunConcat(t, oracle, n, Enabled(head), Enabled(Rewrite(cs, rest)), m);
      if IsUncoupled(cs, first) {
        var s, x := first.inst.source, first.inst.target;
        ReplacementEnabled(s, x);
        assert Enabled([first]) == [CNOT(s, x)];
        ReplacementMeaning(t, oracle, n, s, x, m);
      }
      RewriteKeepsMeaning(t, oracle, n, cs, rest, Run(t, oracle, n, Enabled([first]), m));
    }
  }

  lemma ReplacementEnabled(s: nat, x: nat)
    ensures Enabled(Replacement(s, x)) == [H(s), H(x), CNOT(x, s), H(s), H(x)]
  {
    var r := Replacement(s, x);
    assert Enabled(r[4..]) == [H(x)] by { assert r[4..][1..] == []; }
    assert Enabled(r[3..]) == [H(s), H(x)] by { assert r[3..][1..] == r[4..]; }
    assert Enabled(r[2..]) == [CNOT(x, s), H(s), H(x)] by { assert r[2..][1..] == r[3..]; }
    assert Enabled(r[1..]) == [H(x), CNOT(x, s), H(s), H(x)] by { assert r[1..][1..] == r[2..]; }
  }

  lemma ReplacementMeaning(t: Trig, oracle: nat -> bool, n: nat, s: nat, x: nat, m: Machine)
    requires 2.0 * t.r * t.r == 1.0
    requires s < n && x < n && s != x
    ensures Run(t, oracle, n, [H(s), H(x), CNOT(x, s), H(s), H(x)], m) == Run(t, oracle, n, [CNOT(s, x)], m)
  {
    hide One, Controlled, Hadamard;
    var p := [H(s), H(x), CNOT(x, s), H(s), H(x)];
    var p1, p2, p3, p4 := p[1..], p[1..][1..], p[1..][1..][1..], p[1..][1..][1..][1..];
    assert p1 == [H(x), CNOT(x, s), H(s), H(x)] && p2 == [CNOT(x, s), H(s), H(x)];
    assert p3 == [H(s), H(x)] && p4 == [H(x)];
    var m1 := Step(t, oracle, n, H(s), m);
    var m2 := Step(t, oracle, n, H(x), m1);
    var m3 := Step(t, oracle, n, CNOT(x, s), m2);
    var m4 := Step(t, oracle, n, H(s), m3);
    assert Run(t, oracle, n, p, m) == Run(t, oracle, n, p1, m1) == Run(t, oracle, n, p2, m2)
        == Run(t, oracle, n, p3, m3) == Run(t, oracle, n, p4, m4) == Step(t, oracle, n, H(x), m4);
    ReversedControlled(t, s, x, n, m.state);
  }
}
