/** The CNOT transformation in its own form: instruction objects with an enabled flag, kernels whose
    instruction list is edited in place, and a visitor whose fields carry the edit position and the
    pending replacements from one visit to the next. */
module IBMIRTransformation {
  import opened GateIR
  import opened CnotReversal

  class Instruction {
    const inst: Inst
    var enabled: bool

    constructor (inst: Inst)
      ensures this.inst == inst && enabled
    {
      this.inst := inst;
      enabled := true;
    }

    method Disable()
      modifies this
      ensures !enabled
    {
      enabled := false;
    }

    ghost function View(): Node
      reads this
    {
      Leaf(inst, enabled)
    }
  }

  ghost function Views(instructions: seq<Instruction>): (r: seq<Node>)
    reads instructions
    ensures |r| == |instructions|
    ensures forall i {:trigger r[i]} :: 0 <= i < |r| ==> r[i] == instructions[i].View()
  {
    seq(|instructions|, i requires 0 <= i < |instructions| reads instructions => instructions[i].View())
  }

  class Kernel {
    var instructions: seq<Instruction>

    constructor (instructions: seq<Instruction>)
      ensures this.instructions == instructions
    {
      this.instructions := instructions;
    }

    ghost function Contents(): seq<Node>
      reads this, instructions
    {
      Views(instructions)
    }

    method RemoveInstruction(idx: nat)
      requires idx < |instructions|
      modifies this
      ensures instructions == old(instructions)[..idx] + old(instructions)[idx + 1..]
    {
      instructions := instructions[..idx] + instructions[idx + 1..];
    }

    method InsertInstruction(idx: nat, inst: Instruction)
      requires idx <= |instructions|
      modifies this
      ensures instructions == old(instructions)[..idx] + [inst] + old(instructions)[idx..]
    {
      instructions := instructions[..idx] + [inst] + instructions[idx..];
    }
  }

  /** No CNOT that the transformation would disable occurs twice in the list: an object that is
      shared would be seen disabled the second time. Other instructions may be shared. */
  ghost predicate Distinct(cs: Couplers, instructions: seq<Instruction>, views: seq<Node>)
    requires |views| == |instructions|
  {
    forall i, j :: 0 <= i < |instructions| && 0 <= j < |instructions| && i != j && IsUncoupled(cs, views[i])
      ==> instructions[i] != instructions[j]
  }

  ghost predicate DistinctCnots(cs: Couplers, instructions: seq<Instruction>)
    reads instructions
  {
    Distinct(cs, instructions, Views(instructions))
  }

  /** The walk has visited snapshot[..n]; what it has still to visit stands, in order, from `place`
      to the end of the kernel, and no CNOT still to be replaced stands before it. */
  ghost predicate Visiting(cs: Couplers, instructions: seq<Instruction>, place: nat,
                           snapshot: seq<Instruction>, before: seq<Node>, n: nat)
  {
    && |before| == |snapshot| && n <= |snapshot|
    && place + (|snapshot| - n) == |instructions|
    && (forall k {:trigger before[k]} :: n <= k < |snapshot| ==> instructions[place + (k - n)] == snapshot[k])
    && (forall k, p {:trigger before[k], instructions[p]} ::
          n <= k < |snapshot| && IsUncoupled(cs, before[k]) && 0 <= p < place ==> instructions[p] != snapshot[k])
  }

  lemma VisitingStarts(cs: Couplers, snapshot: seq<Instruction>, before: seq<Node>)
    requires |before| == |snapshot|
    ensures Visiting(cs, snapshot, 0, snapshot, before, 0)
  {
  }

  /** The next instruction to visit stands nowhere else. */
  lemma OnlyHere(cs: Couplers, instructions: seq<Instruction>, place: nat,
                 snapshot: seq<Instruction>, before: seq<Node>, n: nat)
    requires Visiting(cs, instructions, place, snapshot, before, n) && n < |snapshot|
    requires Distinct(cs, snapshot, before)
    ensures place + (|snapshot| - n) == |instructions| && instructions[place] == snapshot[n]
    ensures IsUncoupled(cs, before[n]) ==>
              forall p :: 0 <= p < |instructions| && p != place ==> instructions[p] != snapshot[n]
    ensures IsUncoupled(cs, before[n]) ==>
              forall k :: 0 <= k < |snapshot| && k != n ==> snapshot[k] != snapshot[n]
  {
    assert before[n] == before[n];
    forall p | place < p < |instructions|
      ensures instructions[p] == snapshot[n + (p - place)]
    {
      assert before[n + (p - place)] == before[n + (p - place)];
    }
  }

  lemma EditEnds(cs: Couplers, kernel: seq<Node>, walk: seq<Node>, idx: nat, skipped: nat)
    requires walk == [] && idx + skipped == |kernel|
    ensures Edit(cs, kernel, walk, idx, skipped) == kernel
  {
  }

  lemma VisitedOne(cs: Couplers, was: seq<Instruction>, now: seq<Instruction>, place: nat, place': nat,
                   snapshot: seq<Instruction>, before: seq<Node>, n: nat)
    requires Visiting(cs, was, place, snapshot, before, n) && n < |snapshot|
    requires Distinct(cs, snapshot, before)
    requires place' <= |now| && now[place'..] == was[place + 1..]
    requires forall p :: 0 <= p < place' ==> now[p] in was[..place + 1] || now[p] !in snapshot
    ensures Visiting(cs, now, place', snapshot, before, n + 1)
  {
    forall k | n + 1 <= k < |snapshot|
      ensures now[place' + (k - n - 1)] == snapshot[k]
    {
      assert before[k] == before[k];
      assert now[place'..][k - n - 1] == was[place + 1..][k - n - 1];
    }
    forall k, p | n + 1 <= k < |snapshot| && IsUncoupled(cs, before[k]) && 0 <= p < place'
      ensures now[p] != snapshot[k]
    {
      if now[p] in was[..place + 1] {
        var q :| 0 <= q < place + 1 && was[q] == now[p];
        assert before[n] == before[n];
        assert q == place ==> was[q] == snapshot[n];
      }
    }
  }

  lemma Spliced(was: seq<Instruction>, now: seq<Instruction>, idx: nat, five: seq<Instruction>, place: nat)
    requires idx <= place < |was| && |five| == 5
    requires now == was[..idx] + five + was[idx + 1..]
    ensures |now| == |was| + 4 && now[place + 5..] == was[place + 1..]
    ensures forall p :: 0 <= p < place + 5 ==> now[p] in was[..place + 1] || now[p] in five
  {
    forall p | 0 <= p < place + 5
      ensures now[p] in was[..place + 1] || now[p] in five
    {
      if p < idx {
        assert was[..place + 1][p] == now[p];
      } else if p < idx + 5 {
        assert five[p - idx] == now[p];
      } else {
        assert was[..place + 1][p - 4] == now[p];
      }
    }
  }

  lemma SplicedViews(was: seq<Instruction>, now: seq<Instruction>, idx: nat, five: seq<Instruction>)
    requires idx < |was| && now == was[..idx] + five + was[idx + 1..]
    ensures Views(now) == Views(was)[..idx] + Views(five) + Views(was)[idx + 1..]
  {
  }

  class Transformation {
    const couplers: Couplers
    var currentKernelInstructionIdx: nat
    var newInstructions: seq<Instruction>

    constructor (couplers: Couplers)
      ensures this.couplers == couplers && currentKernelInstructionIdx == 0 && newInstructions == []
    {
      this.couplers := couplers;
      currentKernelInstructionIdx := 0;
      newInstructions := [];
    }

    method IsCouplingAvailable(src: nat, tgt: nat) returns (available: bool)
      ensures available <==> (src, tgt) in couplers
    {
      for i := 0 to |couplers|
        invariant (src, tgt) !in couplers[..i]
      {
        if couplers[i].0 == src && couplers[i].1 == tgt {
          return true;
        }
      }
      return false;
    }

    /** Visiting a CNOT. If it is not coupled it is disabled and its replacement is left in
        newInstructions; both Hadamard objects occur twice in it. */
    method Visit(cnot: Instruction)
      requires cnot.inst.CNOT? && newInstructions == []
      modifies this`newInstructions, cnot
      ensures var (s, t) := (cnot.inst.source, cnot.inst.target);
              if (s, t) in couplers then
                cnot.enabled == old(cnot.enabled) && newInstructions == []
              else
                && !cnot.enabled
                && Views(newInstructions) == Replacement(s, t)
                && fresh(set i | i in newInstructions)
    {
      var source, target := cnot.inst.source, cnot.inst.target;
      var available := IsCouplingAvailable(source, target);
      if !available {
        cnot.Disable();
        var h0 := new Instruction(H(source));
        var h1 := new Instruction(H(target));
        var revCnot := new Instruction(CNOT(target, source));
        newInstructions := newInstructions + [h0];
        newInstructions := newInstructions + [h1];
        newInstructions := newInstructions + [revCnot];
        newInstructions := newInstructions + [h0];
        newInstructions := newInstructions + [h1];
        assert newInstructions == [h0, h1, revCnot, h0, h1];
      }
    }

    /** Removes the instruction at the current index and puts newInstructions there, one by one. */
    method Splice(kernel: Kernel)
      requires currentKernelInstructionIdx < |kernel.instructions| && newInstructions != []
      modifies this`currentKernelInstructionIdx, kernel
      ensures kernel.instructions == old(kernel.instructions)[..old(currentKernelInstructionIdx)] + newInstructions
                                   + old(kernel.instructions)[old(currentKernelInstructionIdx) + 1..]
      ensures currentKernelInstructionIdx == old(currentKernelInstructionIdx) + |newInstructions| - 1
    {
      kernel.RemoveInstruction(currentKernelInstructionIdx);
      ghost var idx := currentKernelInstructionIdx;
      ghost var left, right := kernel.instructions[..idx], kernel.instructions[idx..];
      var count := 0;
      while count < |newInstructions|
        invariant count <= |newInstructions| && currentKernelInstructionIdx == idx
        invariant kernel.instructions == left + newInstructions[..count] + right
      {
        kernel.InsertInstruction(currentKernelInstructionIdx + count, newInstructions[count]);
        count := count + 1;
      }
      currentKernelInstructionIdx := currentKernelInstructionIdx + count - 1;
    }

    /** One enabled instruction of the walk, standing at `place` in the kernel. */
    method VisitNext(kernel: Kernel, nextInst: Instruction, ghost place: nat)
      requires newInstructions == [] && nextInst.enabled
      requires currentKernelInstructionIdx <= place < |kernel.instructions| && kernel.instructions[place] == nextInst
      requires IsUncoupled(couplers, nextInst.View()) ==>
                 forall p :: 0 <= p < |kernel.instructions| && p != place ==> kernel.instructions[p] != nextInst
      modifies this, kernel, nextInst
      ensures newInstructions == []
      ensures var (idx, was, now) := (old(currentKernelInstructionIdx), old(kernel.instructions), kernel.instructions);
              if old(IsUncoupled(couplers, nextInst.View())) then
                && !nextInst.enabled
                && currentKernelInstructionIdx == idx + 5
                && |now| == |was| + 4 && now[place + 5..] == was[place + 1..]
                && (forall p :: 0 <= p < place + 5 ==> now[p] in was[..place + 1] || fresh(now[p]))
                && kernel.Contents() == Edited(couplers, old(kernel.Contents()), old(nextInst.View()), idx, place)
              else
                && nextInst.enabled && currentKernelInstructionIdx == idx + 1 && now == was
                && kernel.Contents() == old(kernel.Contents())
    {
      if nextInst.inst.CNOT? {
        Visit(nextInst);
      }
      if !nextInst.enabled && nextInst.inst.CNOT? {
        ghost var idx, was, five := currentKernelInstructionIdx, kernel.instructions, newInstructions;
        assert kernel.Contents() == old(kernel.Contents())[place := Leaf(nextInst.inst, false)];
        Splice(kernel);
        Spliced(was, kernel.instructions, idx, five, place);
        SplicedViews(was, kernel.instructions, idx, five);
      }
      newInstructions := [];
      currentKernelInstructionIdx := currentKernelInstructionIdx + 1;
    }

    /** The state between two iterations of the walk over `snapshot`, n instructions into it. */
    ghost predicate Walking(kernel: Kernel, snapshot: seq<Instruction>, before: seq<Node>, place: nat, n: nat)
      reads this, kernel, kernel.instructions, snapshot
    {
      && |before| == |snapshot| && n <= |snapshot|
      && newInstructions == []
      && currentKernelInstructionIdx <= place && place + (|snapshot| - n) == |kernel.instructions|
      && Visiting(couplers, kernel.instructions, place, snapshot, before, n)
      && (forall k :: 0 <= k < n ==>
            before[k].Leaf? && snapshot[k].enabled == (before[k].enabled && !IsUncoupled(couplers, before[k])))
      && (forall k :: n <= k < |snapshot| ==> snapshot[k].View() == before[k])
      && Edit(couplers, kernel.Contents(), before[n..], currentKernelInstructionIdx,
              place - currentKernelInstructionIdx)
         == Edit(couplers, before, before, 0, 0)
    }

    method WalkOne(kernel: Kernel, snapshot: seq<Instruction>, n: nat, ghost before: seq<Node>, ghost place: nat)
      returns (ghost place': nat)
      requires Walking(kernel, snapshot, before, place, n) && n < |snapshot|
      requires Distinct(couplers, snapshot, before)
      modifies this, kernel, snapshot[n]
      ensures Walking(kernel, snapshot, before, place', n + 1)
      ensures forall i :: i in kernel.instructions ==> i in old(kernel.instructions) || fresh(i)
    {
      hide Edit, Edited, Visiting, Distinct;
      var nextInst := snapshot[n];
      ghost var was := kernel.instructions;
      assert before[n..][0] == before[n] && before[n..][1..] == before[n + 1..];
      OnlyHere(couplers, was, place, snapshot, before, n);
      EditStep(couplers, kernel.Contents(), before[n..], currentKernelInstructionIdx,
               place - currentKernelInstructionIdx);
      place' := place + 1;
      if nextInst.enabled {
        VisitNext(kernel, nextInst, place);
        place' := if IsUncoupled(couplers, before[n]) then place + 5 else place + 1;
      }
      VisitedOne(couplers, was, kernel.instructions, place, place', snapshot, before, n);
    }

    lemma WalkingStarts(kernel: Kernel)
      requires newInstructions == [] && currentKernelInstructionIdx == 0
      ensures Walking(kernel, kernel.instructions, kernel.Contents(), 0, 0)
    {
      hide Edit;
      var before := kernel.Contents();
      VisitingStarts(couplers, kernel.instructions, before);
      assert before[0..] == before;
    }

    lemma WalkingEnds(kernel: Kernel, snapshot: seq<Instruction>, before: seq<Node>, place: nat)
      requires Walking(kernel, snapshot, before, place, |snapshot|)
      ensures newInstructions == []
      ensures kernel.Contents() == Edit(couplers, before, before, 0, 0)
      ensures |before| == |snapshot|
      ensures forall k :: 0 <= k < |snapshot| ==>
                before[k].Leaf? && snapshot[k].enabled == (before[k].enabled && !IsUncoupled(couplers, before[k]))
    {
      hide Visiting;
      EditEnds(couplers, kernel.Contents(), before[|snapshot|..], currentKernelInstructionIdx,
               place - currentKernelInstructionIdx);
    }

    /** One kernel: the loop over the snapshot of its instructions. */
    method TransformKernel(kernel: Kernel)
      requires newInstructions == []
      requires DistinctCnots(couplers, kernel.instructions)
      modifies this, kernel, kernel.instructions
      ensures newInstructions == []
      ensures kernel.Contents() == Edit(couplers, old(kernel.Contents()), old(kernel.Contents()), 0, 0)
      ensures Aligned(couplers, old(kernel.Contents())) ==>
                kernel.Contents() == Rewrite(couplers, old(kernel.Contents()))
      ensures forall k :: 0 <= k < |old(kernel.instructions)| ==>
                old(kernel.instructions)[k].enabled
                == (old(kernel.Contents())[k].enabled && !IsUncoupled(couplers, old(kernel.Contents())[k]))
      ensures forall i :: i in kernel.instructions ==> i in old(kernel.instructions) || fresh(i)
    {
      hide Edit, Rewrite, Aligned, Walking, Distinct, IsUncoupled;
      currentKernelInstructionIdx := 0;
      var snapshot := kernel.instructions;
      ghost var before := kernel.Contents();
      ghost var place: nat := 0;
      EditIsRewriteIffAligned(couplers, before);
      WalkingStarts(kernel);
      var n := 0;
      while n < |snapshot|
        invariant n <= |snapshot| && Walking(kernel, snapshot, before, place, n)
        invariant forall i :: i in kernel.instructions ==> i in snapshot || fresh(i)
      {
        place := WalkOne(kernel, snapshot, n, before, place);
        n := n + 1;
      }
      WalkingEnds(kernel, snapshot, before, place);
    }

    /** All kernels of an intermediate representation; the kernels returned are the same objects. */
    method Transform(kernels: seq<Kernel>, ghost objects: set<Instruction>) returns (newKernels: seq<Kernel>)
      requires newInstructions == []
      requires forall j, k :: 0 <= j < k < |kernels| ==> kernels[j] != kernels[k]
      requires forall k :: 0 <= k < |kernels| ==> DistinctCnots(couplers, kernels[k].instructions)
      requires forall k :: 0 <= k < |kernels| ==> NotShared(couplers, kernels, k)
      requires forall k, i :: 0 <= k < |kernels| && i in kernels[k].instructions ==> i in objects
      modifies this, kernels, objects
      ensures newKernels == kernels
      ensures forall k {:trigger kernels[k]} :: 0 <= k < |kernels| ==>
                var before := old(kernels[k].Contents());
                && kernels[k].Contents() == Edit(couplers, before, before, 0, 0)
                && (Aligned(couplers, before) ==> kernels[k].Contents() == Rewrite(couplers, before))
    {
      hide Edit, Rewrite, Aligned, Distinct;
      newKernels := [];
      for n := 0 to |kernels|
        invariant newInstructions == [] && newKernels == kernels[..n]
        invariant forall k :: n <= k < |kernels| ==>
                    && kernels[k].instructions == old(kernels[k].instructions)
                    && kernels[k].Contents() == old(kernels[k].Contents())
        invariant forall j, i :: 0 <= j < n && i in kernels[j].instructions ==>
                    i in old(kernels[j].instructions) || fresh(i)
        invariant forall k {:trigger kernels[k]} :: 0 <= k < n ==>
                    var before := old(kernels[k].Contents());
                    && kernels[k].Contents() == Edit(couplers, before, before, 0, 0)
                    && (Aligned(couplers, before) ==> kernels[k].Contents() == Rewrite(couplers, before))
      {
        label Before:
        assert forall i :: i in kernels[n].instructions ==> i in old(kernels[n].instructions);
        TransformKernel(kernels[n]);
        forall k | 0 <= k < |kernels| && k != n
          ensures kernels[k].instructions == old@Before(kernels[k].instructions)
          ensures kernels[k].Contents() == old@Before(kernels[k].Contents())
        {
          forall p | 0 <= p < |kernels[k].instructions|
            ensures kernels[k].instructions[p].enabled == old@Before(kernels[k].instructions[p].enabled)
          {
            var i := kernels[k].instructions[p];
            if i in old(kernels[n].instructions) {
              assert i in old(kernels[k].instructions);
              var q :| 0 <= q < |old(kernels[n].instructions)| && old(kernels[n].instructions)[q] == i;
              assert old(i.View()) == old(kernels[n].Contents())[q];
              assert old(NotShared(couplers, kernels, n));
            }
          }
        }
        newKernels := newKernels + [kernels[n]];
      }
    }
  }

  /** No CNOT of kernel k that would be disabled belongs to another kernel as well. */
  ghost predicate NotShared(cs: Couplers, kernels: seq<Kernel>, k: nat)
    requires k < |kernels|
    reads kernels, set j, i | 0 <= j < |kernels| && i in kernels[j].instructions :: i
  {
    forall j, i :: 0 <= j < |kernels| && j != k && i in kernels[j].instructions && i in kernels[k].instructions
      ==> !IsUncoupled(cs, i.View())
  }
}
