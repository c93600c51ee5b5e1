/** A program as a string inside the JSON of a job: newlines are escaped, and the quotes of the
    preamble were written escaped. */
module JobText {
  import opened Wrappers
  import opened Lexing
  import opened Sequences
  import opened GateIR
  import opened OpenQasm
  import opened OpenQasmText
  import OpenQasmVisitor

  /** Every newline replaced by a backslash and an n. */
  function Escaped(s: string): string {
    if s == "" then "" else (if s[0] == '\n' then "\\n" else [s[0]]) + Escaped(s[1..])
  }

  function Quoted(program: string): string {
    "{\"qasm\": \"" + Escaped(program) + "\"}"
  }

  lemma {:induction false} EscapedAppend(a: string, b: string)
    ensures Escaped(a + b) == Escaped(a) + Escaped(b)
  {
    if a == "" {
      assert a + b == b;
    } else {
      assert (a + b)[1..] == a[1..] + b;
      EscapedAppend(a[1..], b);
      Assoc(if a[0] == '\n' then "\\n" else [a[0]], Escaped(a[1..]), Escaped(b));
    }
  }

  method EscapeNewlines(s: string) returns (r: string)
    ensures r == Escaped(s)
  {
    r := "";
    assert s[..0] == "";
    for i := 0 to |s|
      invariant r == Escaped(s[..i])
    {
      EscapedAppend(s[..i], [s[i]]);
      assert s[..i] + [s[i]] == s[..i + 1] && [s[i]][1..] == "";
      r := r + if s[i] == '\n' then "\\n" else [s[i]];
    }
    assert s[..|s|] == s;
  }

  // ----- what a JSON reader makes of it -----

  /** The contents of a JSON string, for the escapes that occur; None if it is not one. */
  function Unescaped(s: string): Option<string> {
    if s == "" then Some("")
    else if s[0] == '"' || s[0] == '\n' then None
    else if s[0] != '\\' then Before([s[0]], Unescaped(s[1..]))
    else if |s| > 1 && s[1] == 'n' then Before("\n", Unescaped(s[2..]))
    else if |s| > 1 && s[1] == '"' then Before("\"", Unescaped(s[2..]))
    else None
  }

  function Before(a: string, rest: Option<string>): Option<string> {
    match rest
    case None => None
    case Some(b) => Some(a + b)
  }

  /** No quote and no backslash. */
  predicate PlainChars(s: string) {
    forall i :: 0 <= i < |s| ==> s[i] != '"' && s[i] != '\\'
  }

  lemma BeforeAssoc(a: string, b: string, rest: Option<string>)
    ensures Before(a, Before(b, rest)) == Before(a + b, rest)
  {
    if rest.Some? {
      Assoc(a, b, rest.value);
    }
  }

  lemma NewlineReads(rest: string)
    ensures Unescaped("\\n" + rest) == Before("\n", Unescaped(rest))
  {
    assert ("\\n" + rest)[2..] == rest;
  }

  lemma QuoteReads(rest: string)
    ensures Unescaped("\\\"" + rest) == Before("\"", Unescaped(rest))
  {
    assert ("\\\"" + rest)[2..] == rest;
  }

  lemma CharReads(c: char, rest: string)
    requires c != '"' && c != '\\' && c != '\n'
    ensures Unescaped([c] + rest) == Before([c], Unescaped(rest))
  {
    assert ([c] + rest)[1..] == rest;
  }

  lemma {:induction false} PlainReads(a: string, rest: string)
    requires PlainChars(a)
    ensures Unescaped(Escaped(a) + rest) == Before(a, Unescaped(rest))
  {
    hide Unescaped, Before;
    if a == "" {
      assert Escaped(a) + rest == rest;
      BeforeNothing(Unescaped(rest));
    } else {
      PlainReads(a[1..], rest);
      var more := Escaped(a[1..]) + rest;
      if a[0] == '\n' {
        Assoc("\\n", Escaped(a[1..]), rest);
        NewlineReads(more);
      } else {
        Assoc([a[0]], Escaped(a[1..]), rest);
        CharReads(a[0], more);
      }
      BeforeAssoc([a[0]], a[1..], Unescaped(rest));
      HeadTail(a);
    }
  }

  lemma BeforeNothing(rest: Option<string>)
    ensures Before("", rest) == rest
  {
    if rest.Some? {
      assert "" + rest.value == rest.value;
    }
  }

  lemma QuoteEscaped()
    ensures Escaped("\\\"") == "\\\""
  {
    assert "\\\""[1..] == "\"" && "\""[1..] == "";
    assert Escaped("\"") == "\"" + "";
    assert Escaped("\\\"") == "\\" + Escaped("\"");
  }

  /** The segments of a string that are plain, and escaped quotes between them. */
  lemma PlainThenQuote(a: string, rest: string)
    requires PlainChars(a)
    ensures Unescaped(Escaped(a + "\\\"" + rest)) == Before(a + "\"", Unescaped(Escaped(rest)))
  {
    hide Unescaped, Escaped, Before;
    EscapedAppend(a + "\\\"", rest);
    EscapedAppend(a, "\\\"");
    QuoteEscaped();
    Assoc(Escaped(a), "\\\"", Escaped(rest));
    PlainReads(a, "\\\"" + Escaped(rest));
    QuoteReads(Escaped(rest));
    BeforeAssoc(a, "\"", Unescaped(Escaped(rest)));
  }

  lemma PlainAlone(a: string)
    requires PlainChars(a)
    ensures Unescaped(Escaped(a)) == Some(a)
  {
    assert Escaped(a) + "" == Escaped(a) && a + "" == a;
    PlainReads(a, "");
  }

  /** Two quotes inside plain text. */
  lemma QuotedReads(a: string, b: string, c: string)
    requires PlainChars(a) && PlainChars(b) && PlainChars(c)
    ensures Unescaped(Escaped(a + "\\\"" + (b + "\\\"" + c))) == Some((a + "\"") + ((b + "\"") + c))
  {
    PlainThenQuote(a, b + "\\\"" + c);
    PlainThenQuote(b, c);
    PlainAlone(c);
  }

  const INCLUDE := "\ninclude "
  const QELIB := "qelib1.inc"

  function Declaration(nQubits: nat): string {
    ";\nqreg q[" + Dec(nQubits) + "];\n"
  }

  /** The program as the server reads it: the preamble with its quotes, and the statements. */
  function Program(nQubits: nat, text: string): string {
    "\ninclude \"qelib1.inc\";\nqreg q[" + Dec(nQubits) + "];\n" + text
  }

  lemma ProgramIs(nQubits: nat, text: string)
    ensures Program(nQubits, text) == (INCLUDE + "\"") + ((QELIB + "\"") + (Declaration(nQubits) + text))
  {
    hide Dec;
    assert "\ninclude \"qelib1.inc\";\nqreg q[" == (INCLUDE + "\"") + ((QELIB + "\"") + ";\nqreg q[");
  }

  lemma PreambleIs(nQubits: nat)
    ensures OpenQasmVisitor.Preamble(nQubits) == INCLUDE + "\\\"" + (QELIB + "\\\"" + Declaration(nQubits))
  {
    hide Dec;
    assert "\ninclude \\\"qelib1.inc\\\";\nqreg q[" == INCLUDE + "\\\"" + (QELIB + "\\\"" + ";\nqreg q[");
  }

  lemma DeclarationIsPlain(nQubits: nat)
    ensures PlainChars(Declaration(nQubits))
  {
    DecIsPlain(nQubits);
  }

  lemma ConstantsArePlain()
    ensures PlainChars(INCLUDE) && PlainChars(QELIB)
  {
  }

  lemma PlainCharsAppend(a: string, b: string)
    requires PlainChars(a) && PlainChars(b)
    ensures PlainChars(a + b)
  {
  }

  /** The string in the job's JSON stands for the program, if no parameter brings in a quote or a
      backslash of its own. */
  lemma JobHoldsProgram(nQubits: nat, pieces: seq<Piece>)
    requires AllPrintable(pieces) && AllPlain(pieces)
    ensures Unescaped(Escaped(OpenQasmVisitor.Preamble(nQubits) + Text(pieces))) == Some(Program(nQubits, Text(pieces)))
  {
    TextIsPlain(pieces);
    DeclarationIsPlain(nQubits);
    ConstantsArePlain();
    PreambleIs(nQubits);
    ProgramIs(nQubits, Text(pieces));
    hide Program, Unescaped, Escaped, Text, Declaration, PlainChars, OpenQasmVisitor.Preamble;
    var a, b, d, text := INCLUDE, QELIB, Declaration(nQubits), Text(pieces);
    PlainCharsAppend(d, text);
    Assoc(a + "\\\"", b + "\\\"" + d, text);
    Assoc(b + "\\\"", d, text);
    QuotedReads(a, b, d + text);
  }

  // ----- the entry of the job -----

  /** The characters of a JSON string up to its closing quote, and what follows the quote. */
  function ReadChars(s: string): Option<(string, string)> {
    if s == "" || s[0] == '\n' then None
    else if s[0] == '"' then Some(("", s[1..]))
    else if s[0] != '\\' then Prefixed(s[0], ReadChars(s[1..]))
    else if |s| > 1 && s[1] == 'n' then Prefixed('\n', ReadChars(s[2..]))
    else if |s| > 1 && s[1] == '"' then Prefixed('"', ReadChars(s[2..]))
    else None
  }

  function Prefixed(c: char, r: Option<(string, string)>): Option<(string, string)> {
    match r
    case None => None
    case Some((a, rest)) => Some(([c] + a, rest))
  }

  /** An object with a single field whose value is a string: the field and the value. */
  function ReadEntry(s: string): Option<(string, string)> {
    if |s| < 2 || s[..2] != "{\"" then None
    else
      match ReadChars(s[2..])
      case None => None
      case Some((key, rest)) =>
        if |rest| < 3 || rest[..3] != ": \"" then None
        else
          match ReadChars(rest[3..])
          case None => None
          case Some((value, end)) => if end == "}" then Some((key, value)) else None
  }

  lemma {:induction false} ReadCharsInverts(e: string, v: string, rest: string)
    requires Unescaped(e) == Some(v)
    ensures ReadChars(e + ("\"" + rest)) == Some((v, rest))
    decreases |e|
  {
    var s := e + ("\"" + rest);
    if e == "" {
      assert s == "\"" + rest && s[1..] == rest;
    } else {
      var n := if e[0] == '\\' then 2 else 1;
      assert |e| >= n && s[0] == e[0] && s[n..] == e[n..] + ("\"" + rest);
      assert n == 2 ==> s[1] == e[1];
      var w := Unescaped(e[n..]).value;
      ReadCharsInverts(e[n..], w, rest);
    }
  }

  lemma KeyReads(rest: string)
    ensures ReadChars("qasm\"" + rest) == Some(("qasm", rest))
  {
    assert PlainChars("qasm");
    PlainAlone("qasm");
    assert Escaped("qasm") == "qasm" by { QasmEscaped(); }
    ReadCharsInverts("qasm", "qasm", rest);
    Assoc("qasm", "\"", rest);
    assert "qasm" + "\"" == "qasm\"";
  }

  lemma QasmEscaped()
    ensures Escaped("qasm") == "qasm"
  {
    assert "qasm"[1..] == "asm" && "asm"[1..] == "sm" && "sm"[1..] == "m" && "m"[1..] == "";
    assert Escaped("m") == "m" && Escaped("sm") == "sm" && Escaped("asm") == "asm";
  }

  lemma EntryReads(program: string, v: string)
    requires Unescaped(Escaped(program)) == Some(v)
    ensures ReadEntry(Quoted(program)) == Some(("qasm", v))
  {
    hide Escaped, Unescaped, ReadChars;
    var e := Escaped(program);
    var value := e + ("\"" + "}");
    var s := Quoted(program);
    assert "{\"qasm\": \"" == "{\"" + ("qasm\"" + ": \"");
    assert "\"" + "}" == "\"}";
    assert s == "{\"" + ("qasm\"" + (": \"" + value));
    assert s[..2] == "{\"" && s[2..] == "qasm\"" + (": \"" + value);
    KeyReads(": \"" + value);
    var rest := ": \"" + value;
    assert |": \""| == 3 && rest[..3] == ": \"" && rest[3..] == value;
    ReadCharsInverts(e, v, "}");
  }

  /** The entry of a kernel in the job is an object with the single field "qasm", and the string there
      is the kernel's program. */
  lemma EntryHoldsProgram(nQubits: nat, pieces: seq<Piece>)
    requires AllPrintable(pieces) && AllPlain(pieces)
    ensures ReadEntry(Quoted(OpenQasmVisitor.Preamble(nQubits) + Text(pieces)))
         == Some(("qasm", Program(nQubits, Text(pieces))))
  {
    hide ReadEntry, Quoted, Escaped, Unescaped, Text, Program;
    JobHoldsProgram(nQubits, pieces);
    EntryReads(OpenQasmVisitor.Preamble(nQubits) + Text(pieces), Program(nQubits, Text(pieces)));
  }

  // ----- the text of plain pieces is plain -----

  predicate PlainAngle(a: Angle) {
    a.Sym? ==> PlainChars(a.text)
  }

  predicate PlainPiece(p: Piece) {
    p.Line? && p.stmt.Apply? ==> forall a :: a in p.stmt.params ==> PlainAngle(a)
  }

  predicate AllPlain(pieces: seq<Piece>) {
    forall p :: p in pieces ==> PlainPiece(p)
  }

  predicate PlainTokens(ts: seq<string>) {
    forall t :: t in ts ==> PlainChars(t)
  }

  lemma DecIsPlain(n: nat)
    ensures PlainChars(Dec(n))
  {
    assert forall i :: 0 <= i < |Dec(n)| ==> IsDigit(Dec(n)[i]);
  }

  lemma PlainTokensAppend(a: seq<string>, b: seq<string>)
    ensures PlainTokens(a + b) <==> PlainTokens(a) && PlainTokens(b)
  {
    hide PlainChars;
    assert forall t :: t in a + b <==> t in a || t in b;
  }

  lemma {:induction false} ConcatIsPlain(ts: seq<string>)
    requires PlainTokens(ts)
    ensures PlainChars(Concat(ts))
  {
    if ts != [] {
      assert ts[0] in ts && forall t :: t in ts[1..] ==> t in ts;
      ConcatIsPlain(ts[1..]);
      PlainCharsAppend(ts[0], Concat(ts[1..]));
    }
  }

  lemma AngleTextIsPlain(a: Angle)
    requires PlainAngle(a)
    ensures PlainChars(AngleText(a))
  {
  }

  lemma {:induction false} ParamTokensPlain(params: seq<Angle>)
    requires forall a :: a in params ==> PlainAngle(a)
    ensures PlainTokens(ParamTokens(params))
  {
    if params != [] {
      assert params[0] in params && forall a :: a in params[1..] ==> a in params;
      ParamTokensPlain(params[1..]);
      AngleTextIsPlain(params[0]);
    }
  }

  lemma {:induction false} QubitTokensPlain(qubits: seq<nat>)
    ensures PlainTokens(QubitTokens(qubits))
  {
    if qubits != [] {
      QubitTokensPlain(qubits[1..]);
      DecIsPlain(qubits[0]);
      assert PlainTokens(["q", "[", Dec(qubits[0]), "]"]) && PlainTokens(["q", "[", Dec(qubits[0]), "]", ",", " "]);
      hide Dec, PlainTokens;
      PlainTokensAppend(["q", "[", Dec(qubits[0]), "]", ",", " "], QubitTokens(qubits[1..]));
    }
  }

  lemma GateTokensPlain(name: string, params: seq<Angle>, qubits: seq<nat>)
    requires IsGateName(name) && forall a :: a in params ==> PlainAngle(a)
    ensures PlainTokens(StmtTokens(Apply(name, params, qubits)))
  {
    ParamTokensPlain(params);
    QubitTokensPlain(qubits);
    hide ParamTokens, QubitTokens, PlainAngle;
    var ps := if params == [] then [] else ["("] + ParamTokens(params) + [")"];
    assert PlainTokens([name]) && PlainTokens([" "]) && PlainTokens([";", "\n"]);
    assert PlainTokens(["("]) && PlainTokens([")"]) && PlainTokens([]);
    hide PlainTokens;
    PlainTokensAppend(["("], ParamTokens(params));
    PlainTokensAppend(["("] + ParamTokens(params), [")"]);
    PlainTokensAppend([name], ps);
    PlainTokensAppend([name] + ps, [" "]);
    PlainTokensAppend([name] + ps + [" "], QubitTokens(qubits));
    PlainTokensAppend([name] + ps + [" "] + QubitTokens(qubits), [";", "\n"]);
  }

  lemma RegisterNameIsPlain(k: nat)
    ensures PlainChars(RegisterName(k))
  {
    DecIsPlain(k);
  }

  lemma PieceTokensPlain(p: Piece)
    requires PrintablePiece(p) && PlainPiece(p)
    ensures PlainTokens(PieceTokens(p))
  {
    if p.Line? && p.stmt.Apply? {
      GateTokensPlain(p.stmt.name, p.stmt.params, p.stmt.qubits);
    } else {
      var k := if p.Guard? then p.reg else p.stmt.reg;
      RegisterNameIsPlain(k);
      if p.Line? && p.stmt.MeasureTo? {
        DecIsPlain(p.stmt.q);
      }
      hide RegisterName, Dec;
    }
  }

  lemma {:induction false} TokensPlain(pieces: seq<Piece>)
    requires AllPrintable(pieces) && AllPlain(pieces)
    ensures PlainTokens(Tokens(pieces))
  {
    if pieces != [] {
      hide PrintablePiece, PlainPiece, PieceTokens, PlainTokens;
      assert pieces[0] in pieces && forall p :: p in pieces[1..] ==> p in pieces;
      PieceTokensPlain(pieces[0]);
      TokensPlain(pieces[1..]);
      PlainTokensAppend(PieceTokens(pieces[0]), Tokens(pieces[1..]));
    } else {
      NoTokensPlain();
    }
  }

  lemma NoTokensPlain()
    ensures PlainTokens([])
  {
  }

  lemma TextIsPlain(pieces: seq<Piece>)
    requires AllPrintable(pieces) && AllPlain(pieces)
    ensures PlainChars(Text(pieces))
  {
    TokensPlain(pieces);
    ConcatIsPlain(Tokens(pieces));
  }
}
