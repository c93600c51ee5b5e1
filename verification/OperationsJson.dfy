/** The JSON operation list as the visitor writes it, and the proof that parsing it gives the
    operations back. */
module OperationsJson {
  import opened Wrappers
  import opened Lexing
  import opened Json
  import opened GateIR
  import opened OpenQasm
  import opened OpenQasmText
  import opened Emission
  import opened Sequences

  // ----- writing -----

  /** Hadamard entries write 0.0 and separate their parameters by "," alone. */
  function JsonAngle(name: string, a: Angle): string {
    if name == "u2" && a == Zero then "0.0" else AngleText(a)
  }

  function Separator(name: string): seq<string> {
    if name == "u2" then [","] else [",", " "]
  }

  function AngleTokens(name: string, params: seq<Angle>): seq<string> {
    if params == [] then []
    else if |params| == 1 then [JsonAngle(name, params[0])]
    else [JsonAngle(name, params[0])] + Separator(name) + AngleTokens(name, params[1..])
  }

  function NumberTokens(ns: seq<nat>): seq<string> {
    if ns == [] then []
    else if |ns| == 1 then [Dec(ns[0])]
    else [Dec(ns[0])] + Separator("") + NumberTokens(ns[1..])
  }

  function Key(k: string): seq<string> {
    [QUOTE, k] + [QUOTE, ":"]
  }

  function Quoted(s: string): seq<string> {
    [QUOTE, s] + [QUOTE]
  }

  function Bracketed(ts: seq<string>): seq<string> {
    ["["] + ts + ["]"]
  }

  function Braced(f: seq<string>, g: seq<string>, h: seq<string>): seq<string> {
    ["{"] + f + [","] + g + ([","] + h) + ["}"]
  }

  function OpTokens(op: Op): seq<string> {
    if op.clbits != [] then
      Braced(Key("clbits") + Bracketed(NumberTokens(op.clbits)), Key("name") + Quoted(op.name),
             Key("qubits") + Bracketed(NumberTokens(op.qubits)))
    else
      Braced(Key("name") + Quoted(op.name), Key("params") + [" "] + Bracketed(AngleTokens(op.name, op.params)),
             Key("qubits") + Bracketed(NumberTokens(op.qubits)))
  }

  /** Each operation is followed by a comma, the last one too. */
  function OpsTokens(ops: seq<Op>): seq<string> {
    if ops == [] then [] else OpTokens(ops[0]) + [","] + OpsTokens(ops[1..])
  }

  function OpsText(ops: seq<Op>): string {
    Concat(OpsTokens(ops))
  }

  lemma {:induction false} OpsTokensAppend(a: seq<Op>, b: seq<Op>)
    ensures OpsTokens(a + b) == OpsTokens(a) + OpsTokens(b)
  {
    hide OpTokens;
    if a == [] {
      assert a + b == b;
    } else {
      assert (a + b)[1..] == a[1..] + b;
      OpsTokensAppend(a[1..], b);
    }
  }

  lemma OpsTextAppend(a: seq<Op>, b: seq<Op>)
    ensures OpsText(a + b) == OpsText(a) + OpsText(b)
  {
    OpsTokensAppend(a, b);
    ConcatAppend(OpsTokens(a), OpsTokens(b));
  }

  /** getOperationsJsonString(): the last character gives way to the closing bracket. */
  function Closed(operationsJsonStr: string): string
    requires operationsJsonStr != ""
  {
    operationsJsonStr[..|operationsJsonStr| - 1] + "]"
  }

  // ----- reading -----

  function AngleLits(name: string, params: seq<Angle>): seq<Json> {
    seq(|params|, i requires 0 <= i < |params| => Lit(JsonAngle(name, params[i])))
  }

  function NumberLits(ns: seq<nat>): seq<Json> {
    seq(|ns|, i requires 0 <= i < |ns| => Lit(Dec(ns[i])))
  }

  function OpJson(op: Op): Json {
    if op.clbits != [] then
      Obj([Field("clbits", Arr(NumberLits(op.clbits))), Field("name", Str(op.name)),
           Field("qubits", Arr(NumberLits(op.qubits)))])
    else
      Obj([Field("name", Str(op.name)), Field("params", Arr(AngleLits(op.name, op.params))),
           Field("qubits", Arr(NumberLits(op.qubits)))])
  }

  function Find(fields: seq<Field>, key: string): Option<Json> {
    if fields == [] then None
    else if fields[0].key == key then Some(fields[0].value)
    else Find(fields[1..], key)
  }

  function ReadAngles(items: seq<Json>): Option<seq<Angle>> {
    if items == [] then Some([])
    else if !items[0].Lit? then None
    else
      match ReadAngles(items[1..])
      case None => None
      case Some(rest) => Some([ReadAngle(items[0].text)] + rest)
  }

  function ReadNumbers(items: seq<Json>): Option<seq<nat>> {
    if items == [] then Some([])
    else if !items[0].Lit? || Numeral(items[0].text) == None then None
    else
      match ReadNumbers(items[1..])
      case None => None
      case Some(rest) => Some([Numeral(items[0].text).value] + rest)
  }

  function NumbersOf(field: Option<Json>): Option<seq<nat>> {
    match field
    case Some(Arr(items)) => ReadNumbers(items)
    case None => Some([])
    case _ => None
  }

  function AnglesOf(field: Option<Json>): Option<seq<Angle>> {
    match field
    case Some(Arr(items)) => ReadAngles(items)
    case None => Some([])
    case _ => None
  }

  /** The operation an object describes, whatever the order of its members; "params" and "clbits"
      may be missing. */
  function JsonOp(v: Json): Option<Op> {
    if !v.Obj? then None
    else
      var params, qubits := AnglesOf(Find(v.fields, "params")), NumbersOf(Find(v.fields, "qubits"));
      var clbits := NumbersOf(Find(v.fields, "clbits"));
      match Find(v.fields, "name")
      case Some(Str(name)) =>
        if params.Some? && qubits.Some? && clbits.Some? then Some(Op(name, params.value, qubits.value, clbits.value))
        else None
      case _ => None
  }

  function JsonOps(items: seq<Json>): Option<seq<Op>> {
    if items == [] then Some([])
    else
      match JsonOp(items[0])
      case None => None
      case Some(op) =>
        match JsonOps(items[1..])
        case None => None
        case Some(rest) => Some([op] + rest)
  }

  function ReadOps(s: string): Option<seq<Op>> {
    match Parse(Significant(Lex(s)))
    case Some((Arr(items), rest)) => if rest == [] then JsonOps(items) else None
    case _ => None
  }

  // ----- reading inverts writing -----

  predicate PrintableOp(op: Op) {
    && IsWord(op.name)
    && (op.clbits != [] ==> op.params == [])
    && forall a :: a in op.params ==> Printable(a)
  }

  lemma JsonAngleIsWord(name: string, a: Angle)
    requires Printable(a)
    ensures IsWord(JsonAngle(name, a)) && ReadAngle(JsonAngle(name, a)) == a
  {
    AngleTextIsWord(a);
  }

  lemma {:induction false} ReadAnglesInverts(name: string, params: seq<Angle>)
    requires forall a :: a in params ==> Printable(a)
    ensures ReadAngles(AngleLits(name, params)) == Some(params)
  {
    if params != [] {
      JsonAngleIsWord(name, params[0]);
      assert AngleLits(name, params)[1..] == AngleLits(name, params[1..]);
      ReadAnglesInverts(name, params[1..]);
      assert [params[0]] + params[1..] == params;
    }
  }

  lemma {:induction false} ReadNumbersInverts(ns: seq<nat>)
    ensures ReadNumbers(NumberLits(ns)) == Some(ns)
  {
    if ns != [] {
      NumeralInvertsDec(ns[0]);
      assert NumberLits(ns)[1..] == NumberLits(ns[1..]);
      ReadNumbersInverts(ns[1..]);
      assert [ns[0]] + ns[1..] == ns;
    }
  }

  lemma FindThree(a: Field, b: Field, c: Field, key: string)
    ensures Find([a, b, c], key)
         == if a.key == key then Some(a.value) else if b.key == key then Some(b.value)
            else if c.key == key then Some(c.value) else None
  {
    assert Find([c], key) == if c.key == key then Some(c.value) else None;
    assert [b, c][1..] == [c];
    assert Find([b, c], key) == if b.key == key then Some(b.value) else Find([c], key);
    assert [a, b, c][1..] == [b, c];
  }

  lemma JsonOpInverts(op: Op)
    requires PrintableOp(op)
    ensures JsonOp(OpJson(op)) == Some(op)
  {
    ReadAnglesInverts(op.name, op.params);
    ReadNumbersInverts(op.qubits);
    ReadNumbersInverts(op.clbits);
    var fs := OpJson(op).fields;
    assert fs == [fs[0], fs[1], fs[2]];
    FindThree(fs[0], fs[1], fs[2], "name");
    FindThree(fs[0], fs[1], fs[2], "params");
    FindThree(fs[0], fs[1], fs[2], "qubits");
    FindThree(fs[0], fs[1], fs[2], "clbits");
  }

  // ----- the text reads as the printed JSON -----

  lemma SeparatorReads(name: string)
    ensures Reads(Separator(name), [","]) && Separator(name) != []
    ensures IsMark(Separator(name)[0]) && IsMark(Separator(name)[|Separator(name)| - 1])
  {
    SignificantMarks();
    SignificantOne(",");
    ReadsMarks(Separator(name));
  }

  /** An item before a list of which more is known. */
  lemma ItemRead(w: string, separator: seq<string>, tail: seq<string>, sig: seq<string>)
    requires IsWord(w) && Reads(tail, sig)
    requires Reads(separator, [","]) && separator != [] && IsMark(separator[0]) && IsMark(separator[|separator| - 1])
    ensures Reads([w] + separator + tail, [w] + [","] + sig)
  {
    ReadsWord(w);
    hide Reads, IsWord, IsMark;
    ReadsAppend([w], [w], separator, [","]);
    assert ([w] + separator)[|[w] + separator| - 1] == separator[|separator| - 1];
    ReadsAppend([w] + separator, [w] + [","], tail, sig);
  }

  lemma LastItemRead(w: string)
    requires IsWord(w)
    ensures Reads([w] + ["]"], [w] + ["]"])
  {
    ReadsWord(w);
    SignificantOne("]");
    ReadsMarks(["]"]);
    ReadsAppend([w], [w], ["]"], ["]"]);
  }

  /** The printed items of a list of literals, from its first word and the rest. */
  lemma PrintedItems(items: seq<Json>, w: string)
    requires items != [] && items[0] == Lit(w)
    ensures PrintItems(items) == if |items| == 1 then [w] + ["]"] else [w] + [","] + PrintItems(items[1..])
  {
    assert Print(Lit(w)) == [w];
    if |items| > 1 {
      Assoc([w], [","], PrintItems(items[1..]));
    }
  }

  lemma AngleTokensStep(name: string, params: seq<Angle>)
    requires |params| > 1 && IsWord(JsonAngle(name, params[0]))
    requires Reads(AngleTokens(name, params[1..]) + ["]"], PrintItems(AngleLits(name, params[1..])))
    ensures Reads(AngleTokens(name, params) + ["]"], PrintItems(AngleLits(name, params)))
  {
    hide IsWord, Reads, PrintItems, Separator, JsonAngle, IsMark;
    var w, more := JsonAngle(name, params[0]), params[1..];
    PrintedItems(AngleLits(name, params), w);
    assert AngleLits(name, params)[1..] == AngleLits(name, more);
    SeparatorReads(name);
    ItemRead(w, Separator(name), AngleTokens(name, more) + ["]"], PrintItems(AngleLits(name, more)));
    Assoc([w] + Separator(name), AngleTokens(name, more), ["]"]);
  }

  lemma {:induction false} AngleTokensRead(name: string, params: seq<Angle>)
    requires params != [] && forall a :: a in params ==> Printable(a)
    ensures Reads(AngleTokens(name, params) + ["]"], PrintItems(AngleLits(name, params)))
    decreases |params|
  {
    hide IsWord, Reads, PrintItems, Separator, JsonAngle, Printable;
    JsonAngleIsWord(name, params[0]);
    if |params| == 1 {
      PrintedItems(AngleLits(name, params), JsonAngle(name, params[0]));
      LastItemRead(JsonAngle(name, params[0]));
    } else {
      AngleTokensRead(name, params[1..]);
      AngleTokensStep(name, params);
    }
  }

  lemma NumberTokensStep(ns: seq<nat>)
    requires |ns| > 1 && IsWord(Dec(ns[0]))
    requires Reads(NumberTokens(ns[1..]) + ["]"], PrintItems(NumberLits(ns[1..])))
    ensures Reads(NumberTokens(ns) + ["]"], PrintItems(NumberLits(ns)))
  {
    hide Dec, IsWord, Reads, PrintItems, Separator, IsMark;
    var w, more := Dec(ns[0]), ns[1..];
    PrintedItems(NumberLits(ns), w);
    assert NumberLits(ns)[1..] == NumberLits(more);
    SeparatorReads("");
    ItemRead(w, Separator(""), NumberTokens(more) + ["]"], PrintItems(NumberLits(more)));
    Assoc([w] + Separator(""), NumberTokens(more), ["]"]);
  }

  lemma {:induction false} NumberTokensRead(ns: seq<nat>)
    requires ns != []
    ensures Reads(NumberTokens(ns) + ["]"], PrintItems(NumberLits(ns)))
    decreases |ns|
  {
    hide Dec, IsWord, Reads, PrintItems, Separator;
    DecIsWord(ns[0]);
    if |ns| == 1 {
      PrintedItems(NumberLits(ns), Dec(ns[0]));
      LastItemRead(Dec(ns[0]));
    } else {
      NumberTokensRead(ns[1..]);
      NumberTokensStep(ns);
    }
  }

  lemma NumbersBracketed(ns: seq<nat>)
    ensures ReadsClosed(Bracketed(NumberTokens(ns)), Print(Arr(NumberLits(ns))))
  {
    OneMark("[");
    OneMark("]");
    if ns == [] {
      assert Bracketed(NumberTokens(ns)) == ["["] + ["]"];
      ClosedAppend(["["], ["["], ["]"], ["]"]);
    } else {
      NumberTokensRead(ns);
      assert Bracketed(NumberTokens(ns)) == ["["] + (NumberTokens(ns) + ["]"]);
      ReadsAppend(["["], ["["], NumberTokens(ns) + ["]"], PrintItems(NumberLits(ns)));
    }
  }

  lemma AnglesBracketed(name: string, params: seq<Angle>)
    requires forall a :: a in params ==> Printable(a)
    ensures ReadsClosed(Bracketed(AngleTokens(name, params)), Print(Arr(AngleLits(name, params))))
  {
    OneMark("[");
    OneMark("]");
    if params == [] {
      assert Bracketed(AngleTokens(name, params)) == ["["] + ["]"];
      ClosedAppend(["["], ["["], ["]"], ["]"]);
    } else {
      AngleTokensRead(name, params);
      assert Bracketed(AngleTokens(name, params)) == ["["] + (AngleTokens(name, params) + ["]"]);
      ReadsAppend(["["], ["["], AngleTokens(name, params) + ["]"], PrintItems(AngleLits(name, params)));
    }
  }

  lemma KeyRead(k: string)
    requires IsWord(k)
    ensures ReadsClosed(Key(k), Key(k))
  {
    OneMark(QUOTE);
    WordMark(k, QUOTE);
    WordMark(k, QUOTE);
    OneMark(":");
    ReadsWord(k);
    ReadsAppend([QUOTE], [QUOTE], [k], [k]);
    assert [QUOTE] + [k] == [QUOTE, k];
    ReadsMarks([QUOTE, ":"]);
    AllSignificant([QUOTE, ":"]);
    ReadsAppend([QUOTE, k], [QUOTE, k], [QUOTE, ":"], [QUOTE, ":"]);
  }

  lemma QuotedRead(s: string)
    requires IsWord(s)
    ensures ReadsClosed(Quoted(s), Print(Str(s)))
  {
    OneMark(QUOTE);
    ReadsWord(s);
    ReadsAppend([QUOTE], [QUOTE], [s], [s]);
    assert [QUOTE] + [s] == [QUOTE, s];
    ReadsAppend([QUOTE, s], [QUOTE, s], [QUOTE], [QUOTE]);
    assert [QUOTE, s] + [QUOTE] == Print(Str(s));
  }

  lemma BraceMarks()
    ensures ReadsClosed(["{"], ["{"]) && ReadsClosed([","], [","]) && ReadsClosed(["}"], ["}"])
  {
    OneMark("{");
    OneMark(",");
    OneMark("}");
    hide ReadsClosed;
  }

  lemma BracedRead(f: Chunk, g: Chunk, h: Chunk)
    requires OpenQasmText.Good(f) && OpenQasmText.Good(g) && OpenQasmText.Good(h)
    ensures ReadsClosed(Braced(f.tokens, g.tokens, h.tokens), Braced(f.sig, g.sig, h.sig))
  {
    hide ReadsClosed, IsMark, IsSpace;
    BraceMarks();
    var t, s := ["{"] + f.tokens, ["{"] + f.sig;
    ClosedAppend(["{"], ["{"], f.tokens, f.sig);
    ClosedAppend(t, s, [","], [","]);
    ClosedAppend(t + [","], s + [","], g.tokens, g.sig);
    ClosedAppend([","], [","], h.tokens, h.sig);
    ClosedAppend(t + [","] + g.tokens, s + [","] + g.sig, [","] + h.tokens, [","] + h.sig);
    ClosedAppend(t + [","] + g.tokens + ([","] + h.tokens), s + [","] + g.sig + ([","] + h.sig), ["}"], ["}"]);
  }

  lemma PrintThree(a: Field, b: Field, c: Field)
    ensures Print(Obj([a, b, c]))
         == Braced(Key(a.key) + Print(a.value), Key(b.key) + Print(b.value), Key(c.key) + Print(c.value))
  {
    hide Print;
    assert [a, b, c][1..] == [b, c] && [b, c][1..] == [c];
    FieldTokens(a);
    FieldTokens(b);
    FieldTokens(c);
    var fa, fb, fc := Key(a.key) + Print(a.value), Key(b.key) + Print(b.value), Key(c.key) + Print(c.value);
    assert PrintFields([c]) == fc + ["}"];
    assert PrintFields([b, c]) == fb + ([","] + (fc + ["}"]));
    assert PrintFields([a, b, c]) == fa + ([","] + (fb + ([","] + (fc + ["}"]))));
    PrintObj([a, b, c]);
    Regroup(["{"], fa, [","], fb, fc, ["}"]);
  }

  lemma PrintObj(fields: seq<Field>)
    ensures Print(Obj(fields)) == ["{"] + PrintFields(fields)
  {
  }

  lemma FieldTokens(f: Field)
    ensures [QUOTE, f.key, QUOTE, ":"] + Print(f.value) == Key(f.key) + Print(f.value)
  {
    assert [QUOTE, f.key, QUOTE, ":"] == Key(f.key);
  }

  lemma Regroup(l: seq<string>, f: seq<string>, c: seq<string>, g: seq<string>, h: seq<string>, r: seq<string>)
    ensures l + (f + (c + (g + (c + (h + r))))) == l + f + c + g + (c + h) + r
  {
  }

  lemma OpRead(op: Op)
    requires PrintableOp(op)
    ensures ReadsClosed(OpTokens(op), Print(OpJson(op)))
  {
    assert IsWord("name") && IsWord("params") && IsWord("qubits") && IsWord("clbits");
    KeyRead("name");
    KeyRead("qubits");
    QuotedRead(op.name);
    NumbersBracketed(op.qubits);
    var name := Chunk(Key("name") + Quoted(op.name), Key("name") + Print(Str(op.name)));
    var qubits := Chunk(Key("qubits") + Bracketed(NumberTokens(op.qubits)),
                        Key("qubits") + Print(Arr(NumberLits(op.qubits))));
    ClosedAppend(Key("name"), Key("name"), Quoted(op.name), Print(Str(op.name)));
    ClosedAppend(Key("qubits"), Key("qubits"), Bracketed(NumberTokens(op.qubits)), Print(Arr(NumberLits(op.qubits))));
    if op.clbits != [] {
      MeasureOpRead(op, name, qubits);
    } else {
      GateOpRead(op, name, qubits);
    }
  }

  lemma MeasureOpRead(op: Op, name: Chunk, qubits: Chunk)
    requires op.clbits != [] && OpenQasmText.Good(name) && OpenQasmText.Good(qubits)
    requires name == Chunk(Key("name") + Quoted(op.name), Key("name") + Print(Str(op.name)))
    requires qubits == Chunk(Key("qubits") + Bracketed(NumberTokens(op.qubits)),
                             Key("qubits") + Print(Arr(NumberLits(op.qubits))))
    ensures ReadsClosed(OpTokens(op), Print(OpJson(op)))
  {
    assert IsWord("clbits");
    KeyRead("clbits");
    NumbersBracketed(op.clbits);
    hide ReadsClosed, Print, Key, Bracketed, Quoted, Braced;
    var tokens, sig := Bracketed(NumberTokens(op.clbits)), Print(Arr(NumberLits(op.clbits)));
    ClosedAppend(Key("clbits"), Key("clbits"), tokens, sig);
    BracedRead(Chunk(Key("clbits") + tokens, Key("clbits") + sig), name, qubits);
    PrintThree(Field("clbits", Arr(NumberLits(op.clbits))), Field("name", Str(op.name)),
               Field("qubits", Arr(NumberLits(op.qubits))));
  }

  lemma GateOpRead(op: Op, name: Chunk, qubits: Chunk)
    requires op.clbits == [] && OpenQasmText.Good(name) && OpenQasmText.Good(qubits) && PrintableOp(op)
    requires name == Chunk(Key("name") + Quoted(op.name), Key("name") + Print(Str(op.name)))
    requires qubits == Chunk(Key("qubits") + Bracketed(NumberTokens(op.qubits)),
                             Key("qubits") + Print(Arr(NumberLits(op.qubits))))
    ensures ReadsClosed(OpTokens(op), Print(OpJson(op)))
  {
    assert IsWord("params");
    KeyRead("params");
    OneMark(" ");
    AnglesBracketed(op.name, op.params);
    hide ReadsClosed, Print, Key, Bracketed, Quoted, Braced;
    var tokens, sig := Bracketed(AngleTokens(op.name, op.params)), Print(Arr(AngleLits(op.name, op.params)));
    TwoMore(Chunk(Key("params"), Key("params")), Chunk([" "], []), Chunk(tokens, sig));
    assert Key("params") + [] == Key("params");
    BracedRead(name, Chunk(Key("params") + [" "] + tokens, Key("params") + sig), qubits);
    PrintThree(Field("name", Str(op.name)), Field("params", Arr(AngleLits(op.name, op.params))),
               Field("qubits", Arr(NumberLits(op.qubits))));
  }

  // ----- the whole list -----

  function OpJsons(ops: seq<Op>): seq<Json> {
    if ops == [] then [] else [OpJson(ops[0])] + OpJsons(ops[1..])
  }

  /** The operations separated by commas, and the closing bracket. */
  function ListTokens(ops: seq<Op>): seq<string>
    requires ops != []
  {
    OpTokens(ops[0]) + (if |ops| == 1 then ["]"] else [","] + ListTokens(ops[1..]))
  }

  predicate AllPrintableOps(ops: seq<Op>) {
    forall op :: op in ops ==> PrintableOp(op)
  }

  lemma {:induction false} ListRead(ops: seq<Op>)
    requires ops != [] && AllPrintableOps(ops)
    ensures Reads(ListTokens(ops), PrintItems(OpJsons(ops)))
  {
    hide OpTokens, OpJson;
    OpRead(ops[0]);
    OneMark("]");
    OneMark(",");
    var more := ops[1..];
    assert OpJsons(ops)[0] == OpJson(ops[0]) && OpJsons(ops)[1..] == OpJsons(more);
    if more == [] {
      ReadsAppend(OpTokens(ops[0]), Print(OpJson(ops[0])), ["]"], ["]"]);
    } else {
      ListRead(more);
      ReadsAppend([","], [","], ListTokens(more), PrintItems(OpJsons(more)));
      ReadsAppend(OpTokens(ops[0]), Print(OpJson(ops[0])), [","] + ListTokens(more), [","] + PrintItems(OpJsons(more)));
    }
  }

  lemma CommaClosed(a: string)
    ensures a + "," + "" != "" && Closed(a + "," + "") == a + "]"
  {
    assert a + "," + "" == a + ",";
  }

  lemma ClosedAfter(a: string, b: string)
    requires b != ""
    ensures a + b != "" && Closed(a + b) == a + Closed(b)
  {
    Assoc(a, b[..|b| - 1], "]");
    assert (a + b)[..|a + b| - 1] == a + b[..|b| - 1];
  }

  lemma {:induction false} ClosedList(ops: seq<Op>)
    requires ops != []
    ensures OpsText(ops) != "" && Closed(OpsText(ops)) == Concat(ListTokens(ops))
  {
    var first, more := OpTokens(ops[0]), ops[1..];
    MarkTexts();
    OpsTextStep(ops);
    hide OpTokens, OpsText, Concat, OpsTokens, Closed;
    if |ops| == 1 {
      ConcatAppend(first, ["]"]);
      OpsTextNone();
      CommaClosed(Concat(first));
    } else {
      ClosedList(more);
      ConcatAppend([","], ListTokens(more));
      ConcatAppend(first, [","] + ListTokens(more));
      Assoc(Concat(first), ",", Closed(OpsText(more)));
      ClosedAfter(Concat(first) + ",", OpsText(more));
    }
  }

  lemma MarkTexts()
    ensures Concat([","]) == "," && Concat(["]"]) == "]"
  {
    assert "," + "" == "," && "]" + "" == "]";
    assert [","][1..] == [] && ["]"][1..] == [];
  }

  lemma OpsTextNone()
    ensures OpsText([]) == ""
  {
  }

  lemma OpsTextStep(ops: seq<Op>)
    requires ops != []
    ensures OpsText(ops) == (Concat(OpTokens(ops[0])) + ",") + OpsText(ops[1..])
  {
    MarkTexts();
    hide OpTokens, Concat;
    ConcatAppend(OpTokens(ops[0]) + [","], OpsTokens(ops[1..]));
    ConcatAppend(OpTokens(ops[0]), [","]);
  }

  lemma {:induction false} JsonOpsInverts(ops: seq<Op>)
    requires AllPrintableOps(ops)
    ensures JsonOps(OpJsons(ops)) == Some(ops) && PlainItems(OpJsons(ops))
  {
    hide OpJson, JsonOp, Plain, PrintableOp;
    if ops != [] {
      JsonOpInverts(ops[0]);
      OpIsPlain(ops[0]);
      assert OpJsons(ops)[1..] == OpJsons(ops[1..]);
      JsonOpsInverts(ops[1..]);
      assert [ops[0]] + ops[1..] == ops;
    }
  }

  lemma OpIsPlain(op: Op)
    requires PrintableOp(op)
    ensures Plain(OpJson(op))
  {
    NumbersArePlain(op.qubits);
    NumbersArePlain(op.clbits);
    AnglesArePlain(op.name, op.params);
    assert IsWord("name") && IsWord("params") && IsWord("qubits") && IsWord("clbits");
    hide IsWord;
    if op.clbits != [] {
      PlainThree(Field("clbits", Arr(NumberLits(op.clbits))), Field("name", Str(op.name)),
                 Field("qubits", Arr(NumberLits(op.qubits))));
    } else {
      PlainThree(Field("name", Str(op.name)), Field("params", Arr(AngleLits(op.name, op.params))),
                 Field("qubits", Arr(NumberLits(op.qubits))));
    }
  }

  lemma PlainThree(a: Field, b: Field, c: Field)
    requires IsWord(a.key) && IsWord(b.key) && IsWord(c.key) && Plain(a.value) && Plain(b.value) && Plain(c.value)
    ensures Plain(Obj([a, b, c]))
  {
    hide IsWord;
    assert [c][1..] == [] && PlainFields([c]);
    assert [b, c][1..] == [c] && PlainFields([b, c]);
    assert [a, b, c][1..] == [b, c];
  }

  lemma {:induction false} NumbersArePlain(ns: seq<nat>)
    ensures PlainItems(NumberLits(ns))
  {
    if ns != [] {
      DecIsWord(ns[0]);
      assert NumberLits(ns)[1..] == NumberLits(ns[1..]);
      NumbersArePlain(ns[1..]);
    }
  }

  lemma {:induction false} AnglesArePlain(name: string, params: seq<Angle>)
    requires forall a :: a in params ==> Printable(a)
    ensures PlainItems(AngleLits(name, params))
  {
    if params != [] {
      JsonAngleIsWord(name, params[0]);
      assert AngleLits(name, params)[1..] == AngleLits(name, params[1..]);
      AnglesArePlain(name, params[1..]);
    }
  }

  // ----- literals -----

  /** The parameter is a constant, or its text is a literal of JSON. */
  predicate LiteralAngle(a: Angle) {
    a.Sym? ==> IsLiteral(a.text)
  }

  predicate LiteralOps(ops: seq<Op>) {
    forall op, a :: op in ops && a in op.params ==> LiteralAngle(a)
  }

  lemma ZeroTextsAreLiteral()
    ensures IsLiteral("0") && IsLiteral("0.0")
  {
    DecIsLiteral(0);
    DecimalIsLiteral("0", "0");
    hide IsLiteral;
    assert Dec(0) == "0" && "0" + ("." + "0") == "0.0";
  }

  lemma PiIsLiteral()
    ensures IsLiteral("3.14159")
  {
    DecimalIsLiteral("3", "14159");
    hide IsLiteral;
    assert "3" + ("." + "14159") == "3.14159";
  }

  lemma HalfPiIsLiteral()
    ensures IsLiteral("1.5708")
  {
    DecimalIsLiteral("1", "5708");
    hide IsLiteral;
    assert "1" + ("." + "5708") == "1.5708";
  }

  lemma MinusHalfPiIsLiteral()
    ensures IsLiteral("-1.5708")
  {
    DecimalIsLiteral("1", "5708");
    hide IsLiteral;
    assert "-" + ("1" + ("." + "5708")) == "-1.5708";
  }

  lemma JsonAngleLiteral(name: string, a: Angle)
    ensures IsLiteral(JsonAngle(name, a)) <==> LiteralAngle(a)
  {
    hide IsLiteral;
    ZeroTextsAreLiteral();
    PiIsLiteral();
    HalfPiIsLiteral();
    MinusHalfPiIsLiteral();
  }

  lemma {:induction false} NumbersAreLiteral(ns: seq<nat>)
    ensures LiteralItems(NumberLits(ns))
  {
    if ns != [] {
      DecIsLiteral(ns[0]);
      hide IsLiteral, Dec;
      assert NumberLits(ns)[0] == Lit(Dec(ns[0])) && NumberLits(ns)[1..] == NumberLits(ns[1..]);
      NumbersAreLiteral(ns[1..]);
    }
  }

  lemma {:induction false} AnglesLiteralIff(name: string, params: seq<Angle>)
    ensures LiteralItems(AngleLits(name, params)) <==> forall a :: a in params ==> LiteralAngle(a)
  {
    if params != [] {
      hide IsLiteral, JsonAngle, LiteralAngle;
      JsonAngleLiteral(name, params[0]);
      assert AngleLits(name, params)[0] == Lit(JsonAngle(name, params[0]));
      assert AngleLits(name, params)[1..] == AngleLits(name, params[1..]);
      AnglesLiteralIff(name, params[1..]);
      HeadTail(params);
    }
  }

  lemma LiteralThree(a: Field, b: Field, c: Field)
    ensures Literal(Obj([a, b, c])) <==> Literal(a.value) && Literal(b.value) && Literal(c.value)
  {
    hide IsLiteral;
    assert [c][1..] == [] && (LiteralFields([c]) <==> Literal(c.value));
    assert [b, c][1..] == [c] && (LiteralFields([b, c]) <==> Literal(b.value) && LiteralFields([c]));
    assert [a, b, c][1..] == [b, c];
  }

  lemma OpLiteralIff(op: Op)
    requires PrintableOp(op)
    ensures Literal(OpJson(op)) <==> forall a :: a in op.params ==> LiteralAngle(a)
  {
    NumbersAreLiteral(op.qubits);
    NumbersAreLiteral(op.clbits);
    AnglesLiteralIff(op.name, op.params);
    hide IsLiteral, IsWord, LiteralAngle, Printable, NumberLits, AngleLits;
    if op.clbits != [] {
      LiteralThree(Field("clbits", Arr(NumberLits(op.clbits))), Field("name", Str(op.name)),
                   Field("qubits", Arr(NumberLits(op.qubits))));
    } else {
      LiteralThree(Field("name", Str(op.name)), Field("params", Arr(AngleLits(op.name, op.params))),
                   Field("qubits", Arr(NumberLits(op.qubits))));
    }
  }

  lemma {:induction false} OpsLiteralIff(ops: seq<Op>)
    requires AllPrintableOps(ops)
    ensures LiteralItems(OpJsons(ops)) <==> LiteralOps(ops)
  {
    hide OpJson, Literal, PrintableOp, LiteralAngle;
    if ops != [] {
      OpLiteralIff(ops[0]);
      assert OpJsons(ops)[0] == OpJson(ops[0]) && OpJsons(ops)[1..] == OpJsons(ops[1..]);
      OpsLiteralIff(ops[1..]);
      HeadTail(ops);
    }
  }

  // ----- reading the operation string -----

  /** The operation string parses, and to the operations emitted, exactly if at least one was
      emitted and every parameter text in it is a literal of JSON. */
  lemma ReadOpsInvertsIff(ops: seq<Op>)
    requires AllPrintableOps(ops)
    ensures var read := ReadOps(Closed("[" + OpsText(ops)));
            && (read == Some(ops) <==> ops != [] && LiteralOps(ops))
            && (read == None <==> ops == [] || !LiteralOps(ops))
  {
    if ops == [] {
      NoOpsText();
    } else {
      ReadOpsInverts(ops);
    }
  }

  lemma NoOpsText()
    ensures Closed("[" + OpsText([])) == "]" && ReadOps("]") == None
  {
    assert Concat(["]"]) == "]" + "";
    LexInvertsConcat(["]"]);
    SignificantOne("]");
    assert !IsDigit(']');
  }

  lemma ReadOpsInverts(ops: seq<Op>)
    requires ops != [] && AllPrintableOps(ops)
    ensures ReadOps(Closed("[" + OpsText(ops))) == if LiteralOps(ops) then Some(ops) else None
  {
    hide ListTokens, OpJsons, PrintItems, OpsText, JsonOps, LiteralOps, LiteralItems, PlainItems;
    var tokens, v := ["["] + ListTokens(ops), Arr(OpJsons(ops));
    assert Reads(tokens, Print(v)) by {
      OneMark("[");
      ListRead(ops);
      ReadsAppend(["["], ["["], ListTokens(ops), PrintItems(OpJsons(ops)));
    }
    assert Closed("[" + OpsText(ops)) == Concat(tokens) by {
      ConcatAppend(["["], ListTokens(ops));
      assert Concat(["["]) == "[" + "";
      ClosedList(ops);
    }
    LexInvertsConcat(tokens);
    JsonOpsInverts(ops);
    OpsLiteralIff(ops);
    assert Plain(v) && (Literal(v) <==> LiteralOps(ops));
    hide Print, Plain, Literal;
    assert Print(v) + [] == Print(v);
    ParseInvertsPrint(v, []);
  }
}
