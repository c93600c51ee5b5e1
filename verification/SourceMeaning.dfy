/** What the gates of an OpenQASM source mean, and that the listener makes instructions that mean it. */
module SourceMeaning {
  import opened Wrappers
  import opened Amplitudes
  import opened GateIR
  import opened Quantum
  import opened OpenQasm
  import opened TranslationMeaning
  import L = OQASMListener

  // ----- arguments -----

  /** made with the angles at count, count + 1, ...; everything else as in base. */
  ghost predicate HasAngles(made: L.Made, base: L.Made, count: nat, angles: seq<Angle>) {
    && made.name == base.name && made.qubits == base.qubits
    && (forall k: nat :: k in made.params <==> k in base.params || count <= k < count + |angles|)
    && (forall i: nat :: i < |angles| ==> made.params[count + i] == L.AngleParam(angles[i]))
    && (forall k: nat :: k in base.params && !(count <= k < count + |angles|) ==> made.params[k] == base.params[k])
  }

  lemma {:induction false} SetParamsHasAngles(made: L.Made, count: nat, angles: seq<Angle>)
    ensures HasAngles(L.SetParams(made, count, angles), made, count, angles)
    decreases |angles|
  {
    if angles != [] {
      var first := made.(params := made.params[count := L.AngleParam(angles[0])]);
      SetParamsHasAngles(first, count + 1, angles[1..]);
      var all := L.SetParams(made, count, angles);
      assert all == L.SetParams(first, count + 1, angles[1..]);
      forall i: nat | i < |angles|
        ensures count + i in all.params && all.params[count + i] == L.AngleParam(angles[i])
      {
        if i > 0 {
          assert angles[1..][i - 1] == angles[i];
          assert all.params[(count + 1) + (i - 1)] == L.AngleParam(angles[1..][i - 1]);
        }
      }
    }
  }

  /** The name of a gate's instruction: the first letter is a capital. */
  predicate Capital(made: string, name: string) {
    && |made| == |name|
    && (name != "" ==>
          && made[1..] == name[1..]
          && made[0] as int == if 'a' <= name[0] <= 'z' then name[0] as int - 32 else name[0] as int)
  }

  lemma CapitalisedIs(name: string)
    ensures Capital(L.Capitalised(name), name)
    ensures forall c: char, d: char, e: char :: c as int == d as int - 32 && 'a' <= d <= 'z' ==>
              (L.Capitalised(name) == [c, e] <==> name == [d, e] || name == [c, e])
  {
    if name != "" {
      assert name == [name[0]] + name[1..];
      var made := L.Capitalised(name);
      forall c: char, d: char, e: char | c as int == d as int - 32 && 'a' <= d <= 'z'
        ensures made == [c, e] <==> name == [d, e] || name == [c, e]
      {
        assert made == [c, e] <==> made[0] == c && made[1..] == [e];
        assert name == [d, e] <==> name[0] == d && name[1..] == [e];
        assert name == [c, e] <==> name[0] == c && name[1..] == [e];
      }
    }
  }

  /** A named gate keeps its qubits in order, and its parameters in order after those that u1 and u2
      fix; cx has none. */
  lemma NamedGateArguments(name: string, params: seq<Angle>, qubits: seq<nat>)
    ensures var made := L.MakeGate(L.NamedGate(name, params, qubits));
            && made.Some? && made.value.qubits == qubits
            && (if name == "cx" || name == "Cx" then made.value.name == "CNOT" && made.value.params == map[]
                else if name == "u1" || name == "U1" then
                  HasAngles(made.value, L.Made("U", qubits, map[0 := L.AngleParam(Zero), 1 := L.AngleParam(Zero)]), 2,
                            params)
                else if name == "u2" || name == "U2" then
                  HasAngles(made.value, L.Made("U", qubits, map[0 := L.AngleParam(HalfPi)]), 1, params)
                else if name == "u3" || name == "U3" then HasAngles(made.value, L.Made("U", qubits, map[]), 0, params)
                else Capital(made.value.name, name)
                     && HasAngles(made.value, L.Made(made.value.name, qubits, map[]), 0, params))
  {
    CapitalisedIs(name);
    assert L.Capitalised(name) == "Cx" <==> name == "cx" || name == "Cx" by {
      assert "Cx" == ['C', 'x'] && "cx" == ['c', 'x'];
    }
    assert L.Capitalised(name) == "U1" <==> name == "u1" || name == "U1" by {
      assert "U1" == ['U', '1'] && "u1" == ['u', '1'];
    }
    assert L.Capitalised(name) == "U2" <==> name == "u2" || name == "U2" by {
      assert "U2" == ['U', '2'] && "u2" == ['u', '2'];
    }
    assert L.Capitalised(name) == "U3" <==> name == "u3" || name == "U3" by {
      assert "U3" == ['U', '3'] && "u3" == ['u', '3'];
    }
    hide L.Capitalised, Capital, L.SetParams, HasAngles;
    var gate := L.Capitalised(name);
    SetParamsHasAngles(L.Made("U", qubits, map[0 := L.AngleParam(Zero), 1 := L.AngleParam(Zero)]), 2, params);
    SetParamsHasAngles(L.Made("U", qubits, map[0 := L.AngleParam(HalfPi)]), 1, params);
    SetParamsHasAngles(L.Made("U", qubits, map[]), 0, params);
    SetParamsHasAngles(L.Made(gate, qubits, map[]), 0, params);
    HasBase(L.SetParams(L.Made("U", qubits, map[0 := L.AngleParam(Zero), 1 := L.AngleParam(Zero)]), 2, params),
            L.Made("U", qubits, map[0 := L.AngleParam(Zero), 1 := L.AngleParam(Zero)]), 2, params);
    HasBase(L.SetParams(L.Made("U", qubits, map[0 := L.AngleParam(HalfPi)]), 1, params),
            L.Made("U", qubits, map[0 := L.AngleParam(HalfPi)]), 1, params);
    HasBase(L.SetParams(L.Made("U", qubits, map[]), 0, params), L.Made("U", qubits, map[]), 0, params);
    HasBase(L.SetParams(L.Made(gate, qubits, map[]), 0, params), L.Made(gate, qubits, map[]), 0, params);
  }

  lemma HasBase(made: L.Made, base: L.Made, count: nat, angles: seq<Angle>)
    requires HasAngles(made, base, count, angles)
    ensures made.name == base.name && made.qubits == base.qubits
  {
  }

  // ----- the instruction an object of the registry is -----

  function AngleAt(m: L.Made, k: nat): Option<Angle> {
    if k in m.params && m.params[k].AngleParam? then Some(m.params[k].angle) else None
  }

  function InstOf(m: L.Made): Option<Inst> {
    if m.name == "CNOT" && |m.qubits| == 2 then Some(CNOT(m.qubits[0], m.qubits[1]))
    else if |m.qubits| != 1 then None
    else
      var q := m.qubits[0];
      if m.name == "H" then Some(H(q))
      else if m.name == "X" then Some(X(q))
      else if m.name == "Y" then Some(Y(q))
      else if m.name == "Z" then Some(Z(q))
      else if m.name == "Id" then Some(Id(q))
      else if m.name == "Measure" && 0 in m.params && m.params[0].IntParam? then Some(Measure(q, m.params[0].value))
      else if AngleAt(m, 0) == None then None
      else if m.name == "Rx" then Some(Rx(q, AngleAt(m, 0).value))
      else if m.name == "Ry" then Some(Ry(q, AngleAt(m, 0).value))
      else if m.name == "Rz" then Some(Rz(q, AngleAt(m, 0).value))
      else if m.name == "U" && AngleAt(m, 1).Some? && AngleAt(m, 2).Some? then
        Some(U(q, AngleAt(m, 0).value, AngleAt(m, 1).value, AngleAt(m, 2).value))
      else None
  }

  // ----- the meaning of source gates -----

  /** The one-qubit gates of qelib1.inc, each by its definition there through u1, u2 and u3. */
  ghost function QelibMat(t: Trig, name: string, params: seq<Angle>): Option<Mat> {
    if name == "h" && params == [] then Some(UMat(t, HalfPi, Zero, Pi))
    else if name == "x" && params == [] then Some(UMat(t, Pi, Zero, Pi))
    else if name == "y" && params == [] then Some(UMat(t, Pi, HalfPi, HalfPi))
    else if name == "z" && params == [] then Some(UMat(t, Zero, Zero, Pi))
    else if name == "rx" && |params| == 1 then Some(UMat(t, params[0], MinusHalfPi, HalfPi))
    else if name == "ry" && |params| == 1 then Some(UMat(t, params[0], Zero, Zero))
    else if name == "rz" && |params| == 1 then Some(UMat(t, Zero, Zero, params[0]))
    else if name == "U" then None  // a built-in gate, not one of the library
    else OneQubitMat(t, name, params)
  }

  /** The state after a gate or a measurement of the source; None for anything else. */
  ghost function SourceState(t: Trig, oracle: nat -> bool, n: nat, s: L.Source, m: Machine): Option<State> {
    match s
    case UGate(params, q) =>
      if |params| == 3 then Some(One(UMat(t, params[0], params[1], params[2]), q, n, m.state)) else None
    case CXGate(control, target) => Some(Controlled(control, target, n, m.state))
    case NamedGate(name, params, qubits) =>
      if name == "cx" && params == [] && |qubits| == 2 then Some(Controlled(qubits[0], qubits[1], n, m.state))
      else if |qubits| == 1 && QelibMat(t, name, params).Some? then
        Some(One(QelibMat(t, name, params).value, qubits[0], n, m.state))
      else None
    case Measurement(q, _) => Some(Project(q, oracle(m.measured), n, m.state))
    case _ => None
  }

  // ----- the listener's instructions mean it -----

  lemma MadeAngles(made: L.Made, base: L.Made, count: nat, angles: seq<Angle>, i: nat)
    requires HasAngles(made, base, count, angles) && i < |angles|
    ensures AngleAt(made, count + i) == Some(angles[i])
  {
  }

  /** U(a, b, c) q and CX c, t become the built-in gates on the same qubits; a U with more parameters
      has its first three; a measurement keeps both of its indices. */
  lemma BuiltInsAre(params: seq<Angle>, q: nat, target: nat, cbit: nat)
    ensures |params| >= 3 ==>
              var made := L.MakeGate(L.UGate(params, q));
              && made.Some? && InstOf(made.value) == Some(U(q, params[0], params[1], params[2]))
              && forall k: nat :: k in made.value.params <==> k < 3
    ensures var made := L.MakeGate(L.CXGate(q, target)); made.Some? && InstOf(made.value) == Some(CNOT(q, target))
    ensures var made := L.MakeGate(L.Measurement(q, cbit)); made.Some? && InstOf(made.value) == Some(Measure(q, cbit))
  {
    if |params| >= 3 {
      var base, three := L.Made("U", [q], map[]), params[..3];
      SetParamsHasAngles(base, 0, three);
      var made := L.SetParams(base, 0, three);
      MadeAngles(made, base, 0, three, 0);
      MadeAngles(made, base, 0, three, 1);
      MadeAngles(made, base, 0, three, 2);
    }
  }

  /** The instruction a library gate is compiled to. */
  function LibraryInst(name: string, params: seq<Angle>, q: nat): Option<Inst> {
    if name == "h" && params == [] then Some(H(q))
    else if name == "x" && params == [] then Some(X(q))
    else if name == "y" && params == [] then Some(Y(q))
    else if name == "z" && params == [] then Some(Z(q))
    else if name == "id" && params == [] then Some(Id(q))
    else if name == "rx" && |params| == 1 then Some(Rx(q, params[0]))
    else if name == "ry" && |params| == 1 then Some(Ry(q, params[0]))
    else if name == "rz" && |params| == 1 then Some(Rz(q, params[0]))
    else if name == "u1" && |params| == 1 then Some(U(q, Zero, Zero, params[0]))
    else if name == "u2" && |params| == 2 then Some(U(q, HalfPi, params[0], params[1]))
    else if name == "u3" && |params| == 3 then Some(U(q, params[0], params[1], params[2]))
    else None
  }

  lemma LibraryGateIs(name: string, params: seq<Angle>, q: nat)
    requires LibraryInst(name, params, q).Some?
    ensures var made := L.MakeGate(L.NamedGate(name, params, [q]));
            made.Some? && InstOf(made.value) == LibraryInst(name, params, q)
  {
    NamedGateArguments(name, params, [q]);
    hide L.MakeGate;
    var made := L.MakeGate(L.NamedGate(name, params, [q])).value;
    if name == "u1" {
      MadeAngles(made, L.Made("U", [q], map[0 := L.AngleParam(Zero), 1 := L.AngleParam(Zero)]), 2, params, 0);
    } else if name == "u2" {
      MadeAngles(made, L.Made("U", [q], map[0 := L.AngleParam(HalfPi)]), 1, params, 0);
      MadeAngles(made, L.Made("U", [q], map[0 := L.AngleParam(HalfPi)]), 1, params, 1);
    } else if name == "u3" {
      MadeAngles(made, L.Made("U", [q], map[]), 0, params, 0);
      MadeAngles(made, L.Made("U", [q], map[]), 0, params, 1);
      MadeAngles(made, L.Made("U", [q], map[]), 0, params, 2);
    } else {
      NameIs(name, made.name);
      if |params| == 1 {
        MadeAngles(made, L.Made(made.name, [q], map[]), 0, params, 0);
      }
    }
  }

  lemma NameIs(name: string, made: string)
    requires Capital(made, name)
    ensures name == "h" ==> made == "H"
    ensures name == "x" ==> made == "X"
    ensures name == "y" ==> made == "Y"
    ensures name == "z" ==> made == "Z"
    ensures name == "id" ==> made == "Id"
    ensures name == "rx" ==> made == "Rx"
    ensures name == "ry" ==> made == "Ry"
    ensures name == "rz" ==> made == "Rz"
  {
    if name != "" {
      assert made == [made[0]] + made[1..];
    }
  }

  lemma YFactors(t: Trig)
    requires ValidTrig(t)
    ensures UMat(t, Pi, HalfPi, HalfPi) == Mat(ZERO, Neg(ONE), ONE, ZERO)
  {
    hide Mul;
    ConstantProducts(ONE, t.r);
    NegatedByReal(ONE);
    MulZero(MINUS_I);
    MulZero(I);
  }

  lemma YScaled()
    ensures ScaleMat(MINUS_I, PAULI_Y) == Mat(ZERO, Neg(ONE), ONE, ZERO)
  {
    hide Mul;
    MulZero(MINUS_I);
    MinusISquared();
    MinusITimesI();
  }

  lemma MinusISquared()
    ensures Mul(MINUS_I, MINUS_I) == Neg(ONE)
  {
  }

  lemma MinusITimesI()
    ensures Mul(MINUS_I, I) == ONE
  {
  }

  lemma LibraryHas(t: Trig, name: string, params: seq<Angle>, q: nat)
    ensures QelibMat(t, name, params).Some? <==> LibraryInst(name, params, q).Some?
  {
    hide UMat;
  }

  /** A library gate's matrix is that of its instruction, up to a phase. */
  lemma LibraryMatrix(t: Trig, name: string, params: seq<Angle>, q: nat) returns (c: Complex)
    requires ValidTrig(t) && LibraryInst(name, params, q).Some?
    ensures IsOneQubit(LibraryInst(name, params, q).value) && QelibMat(t, name, params).Some?
    ensures IsPhase(c)
    ensures QelibMat(t, name, params).value == ScaleMat(c, GateMat(t, LibraryInst(name, params, q).value))
  {
    hide UMat, Hadamard, RotX, RotY, RotZ, ScaleMat, ValidTrig, IsPhase;
    var inst := LibraryInst(name, params, q).value;
    PhaseIsPhase(H(q));
    PhaseIsPhase(U(q, Zero, Zero, Zero));
    ScaledByOne(GateMat(t, inst));
    if name == "h" {
      c := MINUS_I;
      EmittedH(t);
    } else if name == "x" {
      c := MINUS_I;
      EmittedX(t);
    } else if name == "y" {
      c := MINUS_I;
      YFactors(t);
      YScaled();
    } else if name == "z" {
      c := MINUS_I;
      EmittedZ(t);
    } else {
      c := ONE;
      if name == "rx" {
        EmittedRx(t, params[0]);
      } else if name == "ry" {
        EmittedRy(t, params[0]);
      } else if name == "rz" {
        EmittedRz(t, params[0]);
      } else if name == "id" {
        EmittedId(t);
      }
    }
  }

  lemma OneCompiles(s: L.Source, table: map<string, nat>, gates: set<string>)
    requires L.CompileOne(s, table, gates).Ok? && (s.UGate? || s.CXGate? || s.NamedGate? || s.Measurement?)
    ensures L.MakeGate(s).Some? && L.CompileOne(s, table, gates) == Ok([L.Gate(L.MakeGate(s).value)])
  {
  }

  /** The compiled instruction of every built-in gate, library gate and measurement does what the
      source says, up to a global phase. */
  lemma CompiledMeansSource(t: Trig, oracle: nat -> bool, n: nat, s: L.Source, table: map<string, nat>,
                            gates: set<string>, m: Machine)
    returns (inst: Inst, c: Complex)
    requires ValidTrig(t) && IsState(m.state, n)
    requires L.CompileOne(s, table, gates).Ok? && SourceState(t, oracle, n, s, m).Some?
    ensures exists made :: L.CompileOne(s, table, gates) == Ok([L.Gate(made)]) && InstOf(made) == Some(inst)
    ensures IsPhase(c)
    ensures SourceState(t, oracle, n, s, m).value == Scale(c, n, Step(t, oracle, n, inst, m).state)
  {
    hide One, Controlled, Project, Scale, UMat, ScaleMat, QelibMat, LibraryInst, InstOf, L.MakeGate, IsPhase, GateMat,
         ValidTrig;
    OneCompiles(s, table, gates);
    hide L.CompileOne;
    PhaseIsPhase(U(0, Zero, Zero, Zero));
    c := ONE;
    if s.UGate? {
      BuiltInsAre(s.params, s.qubit, 0, 0);
      inst := U(s.qubit, s.params[0], s.params[1], s.params[2]);
      GateMatOfU(t, inst);
      ScaledOnce(n, Step(t, oracle, n, inst, m).state);
    } else if s.CXGate? {
      BuiltInsAre([], s.control, s.target, 0);
      inst := CNOT(s.control, s.target);
      ScaledOnce(n, Step(t, oracle, n, inst, m).state);
    } else if s.Measurement? {
      BuiltInsAre([], s.qubit, 0, s.cbit);
      inst := Measure(s.qubit, s.cbit);
      ScaledOnce(n, Step(t, oracle, n, inst, m).state);
    } else if s.name == "cx" && s.params == [] && |s.qubits| == 2 {
      NamedGateArguments(s.name, s.params, s.qubits);
      inst := CNOT(s.qubits[0], s.qubits[1]);
      InstOfCnot(L.MakeGate(s).value);
      ScaledOnce(n, Step(t, oracle, n, inst, m).state);
    } else {
      var q := s.qubits[0];
      assert s.qubits == [q];
      LibraryHas(t, s.name, s.params, q);
      c := LibraryMatrix(t, s.name, s.params, q);
      LibraryGateIs(s.name, s.params, q);
      inst := LibraryInst(s.name, s.params, q).value;
      OneScaled(c, GateMat(t, inst), q, n, m.state);
      LibraryStep(t, oracle, n, s.name, s.params, q, m);
    }
    var made := L.MakeGate(s).value;
    assert L.CompileOne(s, table, gates) == Ok([L.Gate(made)]) && InstOf(made) == Some(inst);
  }

  lemma InstOfCnot(made: L.Made)
    requires made.name == "CNOT" && |made.qubits| == 2
    ensures InstOf(made) == Some(CNOT(made.qubits[0], made.qubits[1]))
  {
  }

  lemma GateMatOfU(t: Trig, inst: Inst)
    requires inst.U?
    ensures GateMat(t, inst) == UMat(t, inst.theta, inst.phi, inst.lambda)
  {
  }

  lemma LibraryStep(t: Trig, oracle: nat -> bool, n: nat, name: string, params: seq<Angle>, q: nat, m: Machine)
    requires LibraryInst(name, params, q).Some? && IsOneQubit(LibraryInst(name, params, q).value)
    ensures var inst := LibraryInst(name, params, q).value;
            Step(t, oracle, n, inst, m).state == One(GateMat(t, inst), q, n, m.state)
  {
    hide One, GateMat;
  }
}
