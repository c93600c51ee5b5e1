/** Compiling OpenQASM source to kernels: a listener that is told of each construct the parser has
    recognised, in source order. */
module OQASMListener {
  import opened Wrappers
  import opened GateIR

  // ----- the constructs the listener is told of -----

  datatype Source =
    | UGate(params: seq<Angle>, qubit: nat)                      // U(a, b, c) q[i]
    | CXGate(control: nat, target: nat)                          // CX q[i], q[j]
    | NamedGate(name: string, params: seq<Angle>, qubits: seq<nat>)
    | Measurement(qubit: nat, cbit: nat)                         // measure q[i] -> c[j]
    | KernelCall(name: string)
    | If(action: Source)                                         // no handler of its own
    | Unhandled                                                  // declarations, barriers, comments

  datatype KernelSource = KernelSource(name: string, params: seq<string>, body: seq<Source>)

  // ----- what it builds -----

  datatype Param = AngleParam(angle: Angle) | IntParam(value: nat)

  /** An instruction object of the gate registry, with the parameters that were set. */
  datatype Made = Made(name: string, qubits: seq<nat>, params: map<nat, Param>)

  /** Kernels are numbered in the order they are created; a call holds the number of its callee. */
  datatype Instr = Gate(made: Made) | CallOf(callee: nat)

  datatype Kernel = Kernel(name: string, params: seq<string>, instructions: seq<Instr>)

  /** map::insert keeps the first kernel of a name. */
  function Register(table: map<string, nat>, name: string, k: nat): map<string, nat> {
    if name in table then table else table[name := k]
  }

  function ToUpper(c: char): char {
    if 'a' <= c <= 'z' then (c as int - 'a' as int + 'A' as int) as char else c
  }

  function Capitalised(name: string): string {
    if name == "" then "" else [ToUpper(name[0])] + name[1..]
  }

  /** Sets parameters from position `count` on. */
  function SetParams(made: Made, count: nat, params: seq<Angle>): Made
    decreases |params|
  {
    if params == [] then made
    else SetParams(made.(params := made.params[count := AngleParam(params[0])]), count + 1, params[1..])
  }

  /** The instruction a gate construct becomes; None for constructs that are not gates. A U gate
      needs its three parameters, a gate name is not empty: the grammar sees to the latter. */
  function MakeGate(s: Source): Option<Made> {
    match s
    case UGate(params, q) =>
      if |params| < 3 then None
      else Some(SetParams(Made("U", [q], map[]), 0, params[..3]))
    case CXGate(c, x) => Some(Made("CNOT", [c, x], map[]))
    case NamedGate(name, params, qubits) =>
      var gateName := Capitalised(name);
      if gateName == "Cx" then Some(Made("CNOT", qubits, map[]))
      else if gateName == "U2" then Some(SetParams(Made("U", qubits, map[0 := AngleParam(HalfPi)]), 1, params))
      else if gateName == "U1" then
        Some(SetParams(Made("U", qubits, map[0 := AngleParam(Zero), 1 := AngleParam(Zero)]), 2, params))
      else if gateName == "U3" then Some(SetParams(Made("U", qubits, map[]), 0, params))
      else Some(SetParams(Made(gateName, qubits, map[]), 0, params))
    case Measurement(q, cbit) => Some(Made("Measure", [q], map[0 := IntParam(cbit)]))
    case _ => None
  }

  // ----- compiling as functions -----

  /** The instructions one construct adds, or the error of an undefined kernel, a malformed U or a
      gate that is not among those the registry can create. */
  function CompileOne(s: Source, table: map<string, nat>, gates: set<string>): Result<seq<Instr>> {
    match s
    case KernelCall(name) =>
      if name in table then Ok([CallOf(table[name])]) else Err("Tried calling undefined kernel.")
    case If(action) => CompileOne(action, table, gates)
    case Unhandled => Ok([])
    case g =>
      if MakeGate(g) == None then Err("U needs three parameters.")
      else if MakeGate(g).value.name !in gates then Err("Invalid instruction name.")
      else Ok([Gate(MakeGate(g).value)])
  }

  function CompileBody(body: seq<Source>, table: map<string, nat>, gates: set<string>): Result<seq<Instr>> {
    if body == [] then Ok([])
    else
      match CompileOne(body[0], table, gates)
      case Err(e) => Err(e)
      case Ok(first) =>
        match CompileBody(body[1..], table, gates)
        case Err(e) => Err(e)
        case Ok(rest) => Ok(first + rest)
  }

  lemma {:induction false} CompileBodyAppend(a: seq<Source>, b: seq<Source>, table: map<string, nat>,
                                             gates: set<string>)
    requires CompileBody(a, table, gates).Ok? && CompileBody(b, table, gates).Ok?
    ensures CompileBody(a + b, table, gates)
         == Ok(CompileBody(a, table, gates).value + CompileBody(b, table, gates).value)
  {
    if a == [] {
      assert a + b == b;
      assert [] + CompileBody(b, table, gates).value == CompileBody(b, table, gates).value;
    } else {
      assert (a + b)[0] == a[0] && (a + b)[1..] == a[1..] + b;
      CompileBodyAppend(a[1..], b, table, gates);
      var first, mid := CompileOne(a[0], table, gates).value, CompileBody(a[1..], table, gates).value;
      var rest := CompileBody(b, table, gates).value;
      assert first + (mid + rest) == (first + mid) + rest;
    }
  }

  lemma CompileBodyOne(s: Source, table: map<string, nat>, gates: set<string>)
    ensures CompileBody([s], table, gates) == CompileOne(s, table, gates)
  {
    assert [s][1..] == [];
    if CompileOne(s, table, gates).Ok? {
      assert CompileOne(s, table, gates).value + [] == CompileOne(s, table, gates).value;
    }
  }

  /** The name table while kernel j is compiled: kernels 0..j have been entered. */
  function TableAt(src: seq<KernelSource>, j: nat): map<string, nat>
    requires j < |src|
  {
    Register(if j == 0 then map[] else TableAt(src, j - 1), src[j].name, j)
  }

  function CompileKernel(src: seq<KernelSource>, j: nat, gates: set<string>): Result<Kernel>
    requires j < |src|
  {
    match CompileBody(src[j].body, TableAt(src, j), gates)
    case Err(e) => Err(e)
    case Ok(instructions) => Ok(Kernel(src[j].name, src[j].params, instructions))
  }

  /** kernels are what src compiles to. */
  ghost predicate Compiles(src: seq<KernelSource>, kernels: seq<Kernel>, gates: set<string>) {
    |kernels| == |src| && forall j :: 0 <= j < |src| ==> CompileKernel(src, j, gates) == Ok(kernels[j])
  }

  // ----- which kernel a call means -----

  /** Kernel i is the first definition of its name. */
  predicate IsFirst(src: seq<KernelSource>, i: nat)
    requires i < |src|
  {
    forall k :: 0 <= k < i ==> src[k].name != src[i].name
  }

  lemma {:induction false} TableIsFirst(src: seq<KernelSource>, j: nat, name: string)
    requires j < |src|
    ensures name in TableAt(src, j) <==> exists i :: 0 <= i <= j && src[i].name == name
    ensures name in TableAt(src, j) ==>
              var i := TableAt(src, j)[name]; i <= j && src[i].name == name && IsFirst(src, i)
  {
    if j > 0 {
      TableIsFirst(src, j - 1, name);
      TableIsFirst(src, j - 1, src[j].name);
    }
  }

  /** The calls of a body, looking inside conditionals. */
  function CalledName(s: Source): Option<string> {
    match s
    case KernelCall(name) => Some(name)
    case If(action) => CalledName(action)
    case _ => None
  }

  predicate Calls(body: seq<Source>, name: string) {
    exists i :: 0 <= i < |body| && CalledName(body[i]) == Some(name)
  }

  lemma CompileOneCalls(s: Source, table: map<string, nat>, gates: set<string>)
    requires CompileOne(s, table, gates).Ok?
    ensures match CalledName(s)
            case Some(name) => name in table && CompileOne(s, table, gates).value == [CallOf(table[name])]
            case None => forall k: nat :: CallOf(k) !in CompileOne(s, table, gates).value
  {
  }

  lemma {:induction false} CompiledCalls(body: seq<Source>, table: map<string, nat>, gates: set<string>, k: nat)
    requires CompileBody(body, table, gates).Ok?
    ensures CallOf(k) in CompileBody(body, table, gates).value
            <==> exists name :: name in table && table[name] == k && Calls(body, name)
  {
    if body != [] {
      CompileOneCalls(body[0], table, gates);
      CompiledCalls(body[1..], table, gates, k);
      var first, rest := CompileOne(body[0], table, gates).value, CompileBody(body[1..], table, gates).value;
      assert CallOf(k) in first + rest <==> CallOf(k) in first || CallOf(k) in rest;
      forall name
        ensures Calls(body, name) <==> CalledName(body[0]) == Some(name) || Calls(body[1..], name)
      {
        if Calls(body[1..], name) {
          var i :| 0 <= i < |body[1..]| && CalledName(body[1..][i]) == Some(name);
          assert CalledName(body[i + 1]) == Some(name);
        }
        if Calls(body, name) && CalledName(body[0]) != Some(name) {
          var i :| 0 <= i < |body| && CalledName(body[i]) == Some(name);
          assert CalledName(body[1..][i - 1]) == Some(name);
        }
      }
    }
  }

  /** Kernel j calls kernel k in the result exactly if its source calls k's name and k is the first
      definition of that name, at or before j. */
  lemma CallsMeanFirstDefinition(src: seq<KernelSource>, kernels: seq<Kernel>, gates: set<string>, j: nat, k: nat)
    requires Compiles(src, kernels, gates) && j < |src|
    ensures CallOf(k) in kernels[j].instructions
            <==> k <= j && IsFirst(src, k) && Calls(src[j].body, src[k].name)
  {
    var table := TableAt(src, j);
    assert CompileKernel(src, j, gates) == Ok(kernels[j]);
    CompiledCalls(src[j].body, table, gates, k);
    if CallOf(k) in kernels[j].instructions {
      var name :| name in table && table[name] == k && Calls(src[j].body, name);
      TableIsFirst(src, j, name);
    }
    if k <= j && IsFirst(src, k) && Calls(src[j].body, src[k].name) {
      var name := src[k].name;
      TableIsFirst(src, j, name);
      var i := table[name];
      assert i == k;
    }
  }

  /** All calls go to strictly earlier kernels. */
  ghost predicate CallsGoBack(kernels: seq<Kernel>) {
    forall j, k: nat :: 0 <= j < |kernels| && CallOf(k) in kernels[j].instructions ==> k < j
  }

  /** The call graph is ordered by kernel number exactly if no kernel that is the first of its name
      calls its own name. */
  lemma CallsGoBackIff(src: seq<KernelSource>, kernels: seq<Kernel>, gates: set<string>)
    requires Compiles(src, kernels, gates)
    ensures CallsGoBack(kernels) <==> forall j :: 0 <= j < |src| && IsFirst(src, j) ==> !Calls(src[j].body, src[j].name)
  {
    hide Compiles, Calls, IsFirst;
    if !CallsGoBack(kernels) {
      var j, k: nat :| 0 <= j < |kernels| && CallOf(k) in kernels[j].instructions && k >= j;
      assert |kernels| == |src| by { CompilesLength(src, kernels, gates); }
      CallsMeanFirstDefinition(src, kernels, gates, j, k);
    }
    if exists j :: 0 <= j < |src| && IsFirst(src, j) && Calls(src[j].body, src[j].name) {
      var j :| 0 <= j < |src| && IsFirst(src, j) && Calls(src[j].body, src[j].name);
      assert |kernels| == |src| by { CompilesLength(src, kernels, gates); }
      CallsMeanFirstDefinition(src, kernels, gates, j, j);
    }
  }

  lemma CompilesLength(src: seq<KernelSource>, kernels: seq<Kernel>, gates: set<string>)
    requires Compiles(src, kernels, gates)
    ensures |kernels| == |src|
  {
  }

  // ----- inlining -----

  /** The gates of a list of instructions with every call replaced by its callee's gates; the
      callees are numbered below j. */
  ghost function Inlined(kernels: seq<Kernel>, instrs: seq<Instr>, j: nat): seq<Made>
    requires CallsGoBack(kernels) && j <= |kernels|
    requires forall k: nat :: CallOf(k) in instrs ==> k < j
    decreases j, |instrs|
  {
    if instrs == [] then []
    else
      (match instrs[0]
       case Gate(made) => [made]
       case CallOf(k) => Inlined(kernels, kernels[k].instructions, k))
      + Inlined(kernels, instrs[1..], j)
  }

  /** The tree of nodes the kernel objects form, for a given reading of gates as instructions. */
  ghost function Tree(kernels: seq<Kernel>, instrs: seq<Instr>, j: nat, inst: Made -> Inst): seq<Node>
    requires CallsGoBack(kernels) && j <= |kernels|
    requires forall k: nat :: CallOf(k) in instrs ==> k < j
    decreases j, |instrs|
  {
    if instrs == [] then []
    else
      [match instrs[0]
       case Gate(made) => Leaf(inst(made), true)
       case CallOf(k) => Call(kernels[k].name, Tree(kernels, kernels[k].instructions, k, inst))]
      + Tree(kernels, instrs[1..], j, inst)
  }

  function Leaves(gates: seq<Made>, inst: Made -> Inst): seq<Node> {
    if gates == [] then [] else [Leaf(inst(gates[0]), true)] + Leaves(gates[1..], inst)
  }

  lemma {:induction false} LeavesAppend(a: seq<Made>, b: seq<Made>, inst: Made -> Inst)
    ensures Leaves(a + b, inst) == Leaves(a, inst) + Leaves(b, inst)
  {
    if a == [] {
      assert a + b == b;
    } else {
      assert (a + b)[1..] == a[1..] + b;
      LeavesAppend(a[1..], b, inst);
    }
  }

  /** Walking the kernel tree visits the inlined gates in order. */
  lemma {:induction false} WalkIsInlined(kernels: seq<Kernel>, instrs: seq<Instr>, j: nat, inst: Made -> Inst)
    requires CallsGoBack(kernels) && j <= |kernels|
    requires forall k: nat :: CallOf(k) in instrs ==> k < j
    ensures Walk(Tree(kernels, instrs, j, inst)) == Leaves(Inlined(kernels, instrs, j), inst)
    decreases j, |instrs|
  {
    if instrs != [] {
      WalkIsInlined(kernels, instrs[1..], j, inst);
      var rest := Inlined(kernels, instrs[1..], j);
      assert Tree(kernels, instrs, j, inst)[1..] == Tree(kernels, instrs[1..], j, inst);
      match instrs[0]
      case Gate(made) =>
        LeavesAppend([made], rest, inst);
        assert [made][1..] == [];
      case CallOf(k) =>
        assert CallOf(k) in instrs;
        WalkIsInlined(kernels, kernels[k].instructions, k, inst);
        LeavesAppend(Inlined(kernels, kernels[k].instructions, k), rest, inst);
    }
  }

  /** A U has its three parameters, and a gate is one that the registry knows. */
  predicate IsWellFormed(s: Source, gates: set<string>) {
    match s
    case KernelCall(_) => true
    case If(action) => IsWellFormed(action, gates)
    case Unhandled => true
    case g => MakeGate(g).Some? && MakeGate(g).value.name in gates
  }

  /** Compiling fails exactly if the body calls a name not defined at or before it, has a U without
      three parameters, or names a gate the registry does not know. */
  lemma {:induction false} BodyCompilesIff(body: seq<Source>, table: map<string, nat>, gates: set<string>)
    ensures CompileBody(body, table, gates).Ok?
            <==> (forall i :: 0 <= i < |body| ==> IsWellFormed(body[i], gates))
                 && (forall name :: Calls(body, name) ==> name in table)
  {
    if body != [] {
      OneCompilesIff(body[0], table, gates);
      BodyCompilesIff(body[1..], table, gates);
      var rest := body[1..];
      assert forall i :: 0 <= i < |rest| ==> rest[i] == body[i + 1];
      if CompileBody(body, table, gates).Ok? {
        forall name | Calls(body, name)
          ensures name in table
        {
          var i :| 0 <= i < |body| && CalledName(body[i]) == Some(name);
          if i > 0 {
            assert CalledName(rest[i - 1]) == Some(name);
          }
        }
      }
      if (forall i :: 0 <= i < |body| ==> IsWellFormed(body[i], gates))
         && (forall name :: Calls(body, name) ==> name in table) {
        assert CalledName(body[0]).Some? ==> Calls(body, CalledName(body[0]).value);
        forall name | Calls(rest, name)
          ensures Calls(body, name)
        {
          var i :| 0 <= i < |rest| && CalledName(rest[i]) == Some(name);
          assert CalledName(body[i + 1]) == Some(name);
        }
      }
    }
  }

  lemma OneCompilesIff(s: Source, table: map<string, nat>, gates: set<string>)
    ensures CompileOne(s, table, gates).Ok?
            <==> IsWellFormed(s, gates) && (CalledName(s).Some? ==> CalledName(s).value in table)
  {
  }

  // ----- the listener itself -----

  class Listener {
    const gates: set<string>  // the names the gate registry can create
    var functions: map<string, nat>
    var kernels: seq<Kernel>  // every kernel created, the current one last
    var ir: seq<nat>          // the numbers of the kernels added to the result

    constructor (gates: set<string>)
      ensures this.gates == gates && functions == map[] && kernels == [] && ir == []
    {
      this.gates := gates;
      functions := map[];
      kernels := [];
      ir := [];
    }

    method EnterXacckernel(name: string, params: seq<string>)
      modifies this
      ensures kernels == old(kernels) + [Kernel(name, params, [])]
      ensures functions == Register(old(functions), name, |old(kernels)|)
      ensures ir == old(ir)
    {
      kernels := kernels + [Kernel(name, params, [])];
      if name !in functions {
        functions := functions[name := |kernels| - 1];
      }
    }

    method ExitXacckernel()
      requires kernels != []
      modifies this`ir
      ensures ir == old(ir) + [|kernels| - 1]
    {
      ir := ir + [|kernels| - 1];
    }

    /** curFunc->addInstruction */
    method AddInstruction(instr: Instr)
      requires kernels != []
      modifies this`kernels
      ensures var k := |old(kernels)| - 1;
              kernels == old(kernels)[k := old(kernels)[k].(instructions := old(kernels)[k].instructions + [instr])]
    {
      var k := |kernels| - 1;
      kernels := kernels[k := kernels[k].(instructions := kernels[k].instructions + [instr])];
    }

    /** The exit handler of one construct; false for an error. */
    method ExitConstruct(s: Source) returns (ok: bool)
      requires kernels != []
      modifies this`kernels
      ensures ok <==> CompileOne(s, functions, gates).Ok?
      ensures var k := |old(kernels)| - 1;
              kernels == old(kernels)[k := old(kernels)[k].(instructions := old(kernels)[k].instructions
                                                              + if ok then CompileOne(s, functions, gates).value else [])]
      decreases s
    {
      var k := |kernels| - 1;
      assert kernels[k].instructions + [] == kernels[k].instructions;
      assert kernels == kernels[k := kernels[k].(instructions := kernels[k].instructions + [])];
      match s
      case KernelCall(name) =>
        if name in functions {
          AddInstruction(CallOf(functions[name]));
          return true;
        }
        return false;
      case If(action) =>
        ok := ExitConstruct(action);
      case Unhandled =>
        return true;
      case _ =>
        var made := MakeGate(s);
        if made == None || made.value.name !in gates {
          return false;
        }
        AddInstruction(Gate(made.value));
        return true;
    }

    /** One kernel of the source. */
    method WalkKernel(decl: KernelSource) returns (ok: bool)
      modifies this
      ensures functions == Register(old(functions), decl.name, |old(kernels)|)
      ensures var body := CompileBody(decl.body, functions, gates);
              && (ok <==> body.Ok?)
              && (ok ==> kernels == old(kernels) + [Kernel(decl.name, decl.params, body.value)]
                         && ir == old(ir) + [|old(kernels)|])
    {
      EnterXacckernel(decl.name, decl.params);
      ghost var before, result := old(kernels), CompileBody(decl.body, functions, gates);
      ghost var done: seq<Instr> := [];
      var i := 0;
      assert decl.body[0..] == decl.body;
      while i < |decl.body|
        invariant i <= |decl.body| && functions == Register(old(functions), decl.name, |before|) && ir == old(ir)
        invariant kernels == before + [Kernel(decl.name, decl.params, done)]
        invariant result.Ok? <==> CompileBody(decl.body[i..], functions, gates).Ok?
        invariant result.Ok? ==> result.value == done + CompileBody(decl.body[i..], functions, gates).value
      {
        ghost var one := CompileOne(decl.body[i], functions, gates);
        assert decl.body[i..][0] == decl.body[i] && decl.body[i..][1..] == decl.body[i + 1..];
        ok := ExitConstruct(decl.body[i]);
        if !ok {
          return;
        }
        done := done + one.value;
        i := i + 1;
      }
      assert done + [] == done;
      ExitXacckernel();
      return true;
    }

    /** The whole source, on a new listener. */
    method WalkSource(src: seq<KernelSource>) returns (ok: bool)
      requires functions == map[] && kernels == [] && ir == []
      modifies this
      ensures ok <==> forall j :: 0 <= j < |src| ==> CompileKernel(src, j, gates).Ok?
      ensures ok ==> Compiles(src, kernels, gates) && ir == seq(|src|, i => i)
    {
      var j := 0;
      while j < |src|
        invariant j <= |src| && |kernels| == j && ir == seq(j, i => i)
        invariant functions == if j == 0 then map[] else TableAt(src, j - 1)
        invariant forall i :: 0 <= i < j ==> CompileKernel(src, i, gates) == Ok(kernels[i])
      {
        ok := WalkKernel(src[j]);
        if !ok {
          assert CompileKernel(src, j, gates).Err?;
          return;
        }
        j := j + 1;
      }
      return true;
    }
  }
}
