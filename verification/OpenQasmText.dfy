/** The text of OpenQASM statements as the visitor writes it, a reader for that text, and the proof
    that reading inverts writing, character by character. */
module OpenQasmText {
  import opened Wrappers
  import opened Lexing
  import opened Sequences
  import opened GateIR
  import opened OpenQasm

  // ----- writing -----

  /** Constants are printed with the six digits of a default output stream. */
  function AngleText(a: Angle): string {
    match a
    case Zero => "0"
    case Pi => "3.14159"
    case HalfPi => "1.5708"
    case MinusHalfPi => "-1.5708"
    case Sym(text) => text
  }

  function ParamTokens(params: seq<Angle>): seq<string> {
    if params == [] then []
    else if |params| == 1 then [AngleText(params[0])]
    else [AngleText(params[0]), ",", " "] + ParamTokens(params[1..])
  }

  function QubitTokens(qubits: seq<nat>): seq<string> {
    if qubits == [] then []
    else if |qubits| == 1 then ["q", "[", Dec(qubits[0]), "]"]
    else ["q", "[", Dec(qubits[0]), "]", ",", " "] + QubitTokens(qubits[1..])
  }

  function RegisterName(k: nat): string {
    "c" + Dec(k)
  }

  function StmtTokens(s: Stmt): seq<string> {
    match s
    case Apply(name, params, qubits) =>
      [name] + (if params == [] then [] else ["("] + ParamTokens(params) + [")"])
      + [" "] + QubitTokens(qubits) + [";", "\n"]
    case Creg(k) => ["creg", " "] + [RegisterName(k), "["] + ["1", "]"] + [";", "\n"]
    case MeasureTo(q, k) =>
      ["measure", " "] + ["q", "["] + [Dec(q), "]"] + [" "] + ["->", " "]
      + [RegisterName(k), "["] + ["0", "]"] + [";", "\n"]
  }

  function PieceTokens(p: Piece): seq<string> {
    match p
    case Guard(k) => ["if", " "] + ["("] + [RegisterName(k), " "] + ["==", " "] + ["1", ")"] + [" "]
    case Line(s) => StmtTokens(s)
  }

  function Tokens(pieces: seq<Piece>): seq<string> {
    if pieces == [] then [] else PieceTokens(pieces[0]) + Tokens(pieces[1..])
  }

  function Text(pieces: seq<Piece>): string {
    Concat(Tokens(pieces))
  }

  lemma {:induction false} TokensAppend(a: seq<Piece>, b: seq<Piece>)
    ensures Tokens(a + b) == Tokens(a) + Tokens(b)
  {
    if a == [] {
      assert a + b == b;
    } else {
      assert (a + b)[1..] == a[1..] + b;
      TokensAppend(a[1..], b);
    }
  }

  lemma TextAppend(a: seq<Piece>, b: seq<Piece>)
    ensures Text(a + b) == Text(a) + Text(b)
  {
    TokensAppend(a, b);
    ConcatAppend(Tokens(a), Tokens(b));
  }

  // ----- reading -----

  function ReadAngle(s: string): Angle {
    if s == "0" || s == "0.0" then Zero
    else if s == "3.14159" then Pi
    else if s == "1.5708" then HalfPi
    else if s == "-1.5708" then MinusHalfPi
    else Sym(s)
  }

  function ReadRegister(s: string): Option<nat> {
    if s != "" && s[0] == 'c' then Numeral(s[1..]) else None
  }

  /** Parameters up to and including the closing parenthesis. */
  function ReadParams(ts: seq<string>): Option<(seq<Angle>, seq<string>)> {
    if |ts| < 2 then None
    else if ts[1] == ")" then Some(([ReadAngle(ts[0])], ts[2..]))
    else if ts[1] == "," then
      match ReadParams(ts[2..])
      case None => None
      case Some((params, rest)) => Some(([ReadAngle(ts[0])] + params, rest))
    else None
  }

  /** Qubit arguments up to and including the semicolon. */
  function ReadQubits(ts: seq<string>): Option<(seq<nat>, seq<string>)> {
    if |ts| < 5 || ts[0] != "q" || ts[1] != "[" || Numeral(ts[2]) == None || ts[3] != "]" then None
    else if ts[4] == ";" then Some(([Numeral(ts[2]).value], ts[5..]))
    else if ts[4] == "," then
      match ReadQubits(ts[5..])
      case None => None
      case Some((qubits, rest)) => Some(([Numeral(ts[2]).value] + qubits, rest))
    else None
  }

  function ReadGate(ts: seq<string>): Option<(Piece, seq<string>)> {
    if |ts| < 2 then None
    else if ts[1] == "(" then
      match ReadParams(ts[2..])
      case None => None
      case Some((params, rest)) =>
        match ReadQubits(rest)
        case None => None
        case Some((qubits, rest')) => Some((Line(Apply(ts[0], params, qubits)), rest'))
    else
      match ReadQubits(ts[1..])
      case None => None
      case Some((qubits, rest)) => Some((Line(Apply(ts[0], [], qubits)), rest))
  }

  function ReadPiece(ts: seq<string>): Option<(Piece, seq<string>)> {
    if ts == [] then None
    else if ts[0] == "if" then
      if |ts| >= 6 && ts[1] == "(" && ReadRegister(ts[2]).Some? && ts[3..6] == ["==", "1", ")"] then
        Some((Guard(ReadRegister(ts[2]).value), ts[6..]))
      else None
    else if ts[0] == "creg" then
      if |ts| >= 6 && ReadRegister(ts[1]).Some? && ts[2..6] == ["[", "1", "]", ";"] then
        Some((Line(Creg(ReadRegister(ts[1]).value)), ts[6..]))
      else None
    else if ts[0] == "measure" then
      if |ts| >= 10 && ts[1..3] == ["q", "["] && Numeral(ts[3]).Some? && ts[4..6] == ["]", "->"]
         && ReadRegister(ts[6]).Some? && ts[7..10] == ["[", "0", "]"] && |ts| >= 11 && ts[10] == ";" then
        Some((Line(MeasureTo(Numeral(ts[3]).value, ReadRegister(ts[6]).value)), ts[11..]))
      else None
    else ReadGate(ts)
  }

  function ReadPieces(ts: seq<string>): Option<seq<Piece>>
    decreases |ts|
  {
    if ts == [] then Some([])
    else
      match ReadPiece(ts)
      case None => None
      case Some((p, rest)) =>
        if |rest| >= |ts| then None
        else
          match ReadPieces(rest)
          case None => None
          case Some(ps) => Some([p] + ps)
  }

  /** Reads the pieces from text; white space separates tokens and means nothing else. */
  function ReadText(s: string): Option<seq<Piece>> {
    ReadPieces(Significant(Lex(s)))
  }

  // ----- reading inverts writing -----

  /** The parameter's text is one word and is not the text of a constant. */
  predicate Printable(a: Angle) {
    a.Sym? ==> IsWord(a.text) && ReadAngle(a.text) == a
  }

  predicate IsGateName(name: string) {
    name == "u1" || name == "u2" || name == "u3" || name == "U" || name == "id" || name == "cx"
  }

  predicate PrintablePiece(p: Piece) {
    p.Line? && p.stmt.Apply? ==>
      && IsGateName(p.stmt.name) && p.stmt.qubits != []
      && forall a :: a in p.stmt.params ==> Printable(a)
  }

  predicate AllPrintable(pieces: seq<Piece>) {
    forall p :: p in pieces ==> PrintablePiece(p)
  }

  lemma AngleTextIsWord(a: Angle)
    requires Printable(a)
    ensures IsWord(AngleText(a)) && !IsSpace(AngleText(a)) && ReadAngle(AngleText(a)) == a
  {
    if a.Sym? {
      assert !IsDelimiter(a.text[0]);
    }
  }

  lemma RegisterNameIsWord(k: nat)
    ensures IsWord(RegisterName(k)) && !IsSpace(RegisterName(k)) && ReadRegister(RegisterName(k)) == Some(k)
  {
    var s := RegisterName(k);
    NumeralInvertsDec(k);
    assert s[1..] == Dec(k);
    assert forall i :: 0 < i < |s| ==> s[i] == Dec(k)[i - 1];
  }

  function SigParams(params: seq<Angle>): seq<string> {
    if params == [] then []
    else if |params| == 1 then [AngleText(params[0])]
    else [AngleText(params[0]), ","] + SigParams(params[1..])
  }

  function SigQubits(qubits: seq<nat>): seq<string> {
    if qubits == [] then []
    else if |qubits| == 1 then ["q", "[", Dec(qubits[0]), "]"]
    else ["q", "[", Dec(qubits[0]), "]", ","] + SigQubits(qubits[1..])
  }

  /** ts is the token list of separated text whose significant tokens are sig, ending in a mark. */
  predicate Reads(ts: seq<string>, sig: seq<string>) {
    Separated(ts) && Significant(ts) == sig
  }

  lemma ReadsAppend(a: seq<string>, sigA: seq<string>, b: seq<string>, sigB: seq<string>)
    requires Reads(a, sigA) && Reads(b, sigB)
    requires a == [] || b == [] || IsMark(a[|a| - 1]) || IsMark(b[0])
    ensures Reads(a + b, sigA + sigB)
  {
    SeparatedAppend(a, b);
    SignificantAppend(a, b);
  }

  lemma ReadsWord(w: string)
    requires IsWord(w)
    ensures Reads([w], [w]) && !IsSpace(w)
  {
    assert !IsDelimiter(w[0]);
    SignificantOne(w);
  }

  lemma ReadsMarks(ts: seq<string>)
    requires forall t :: t in ts ==> IsMark(t)
    ensures Reads(ts, Significant(ts))
  {
  }

  lemma SignificantMarks()
    ensures Significant([",", " "]) == [","] && Significant([";", "\n"]) == [";"] && Significant([" "]) == []
    ensures Significant(["("]) == ["("] && Significant([")"]) == [")"]
  {
    assert [",", " "][1..] == [" "] && [";", "\n"][1..] == ["\n"];
    SignificantOne(" ");
    SignificantOne("\n");
    SignificantOne("(");
    SignificantOne(")");
  }

  lemma {:induction false} ParamsRead(params: seq<Angle>)
    requires params != [] && forall a :: a in params ==> Printable(a)
    ensures Reads(ParamTokens(params), SigParams(params)) && ParamTokens(params) != []
  {
    var t := AngleText(params[0]);
    AngleTextIsWord(params[0]);
    ReadsWord(t);
    if |params| > 1 {
      ParamsRead(params[1..]);
      SignificantMarks();
      ReadsMarks([",", " "]);
      ReadsAppend([t], [t], [",", " "], [","]);
      ReadsAppend([t] + [",", " "], [t] + [","], ParamTokens(params[1..]), SigParams(params[1..]));
      assert [t, ",", " "] == [t] + [",", " "] && [t, ","] == [t] + [","];
    }
  }

  lemma QubitRead(q: nat)
    ensures Reads(["q", "[", Dec(q), "]"], ["q", "[", Dec(q), "]"])
  {
    DecIsWord(q);
    AllSignificant(["q", "[", Dec(q), "]"]);
  }

  lemma {:induction false} QubitsRead(qubits: seq<nat>)
    requires qubits != []
    ensures Reads(QubitTokens(qubits), SigQubits(qubits))
    ensures QubitTokens(qubits) != [] && IsMark(QubitTokens(qubits)[|QubitTokens(qubits)| - 1])
  {
    var t := ["q", "[", Dec(qubits[0]), "]"];
    QubitRead(qubits[0]);
    if |qubits| > 1 {
      QubitsRead(qubits[1..]);
      SignificantMarks();
      ReadsMarks([",", " "]);
      ReadsAppend(t, t, [",", " "], [","]);
      ReadsAppend(t + [",", " "], t + [","], QubitTokens(qubits[1..]), SigQubits(qubits[1..]));
      assert ["q", "[", Dec(qubits[0]), "]", ",", " "] == t + [",", " "];
      assert ["q", "[", Dec(qubits[0]), "]", ","] == t + [","];
    }
  }

  function SigPiece(p: Piece): seq<string> {
    match p
    case Guard(k) => ["if"] + ["("] + [RegisterName(k)] + ["=="] + ["1", ")"] + []
    case Line(Apply(name, params, qubits)) =>
      [name] + (if params == [] then [] else ["("] + SigParams(params) + [")"]) + SigQubits(qubits) + [";"]
    case Line(Creg(k)) => ["creg"] + [RegisterName(k), "["] + ["1", "]"] + [";"]
    case Line(MeasureTo(q, k)) =>
      ["measure"] + ["q", "["] + [Dec(q), "]"] + [] + ["->"] + [RegisterName(k), "["] + ["0", "]"] + [";"]
  }

  /** The tokens are separated text with these significant tokens, and end in a mark. */
  predicate ReadsClosed(ts: seq<string>, sig: seq<string>) {
    Reads(ts, sig) && ts != [] && IsMark(ts[|ts| - 1])
  }

  lemma ClosedAppend(a: seq<string>, sigA: seq<string>, b: seq<string>, sigB: seq<string>)
    requires ReadsClosed(a, sigA) && ReadsClosed(b, sigB)
    ensures ReadsClosed(a + b, sigA + sigB)
  {
    ReadsAppend(a, sigA, b, sigB);
  }

  lemma ClosedParams(params: seq<Angle>)
    requires params != [] && forall a :: a in params ==> Printable(a)
    ensures ReadsClosed(["("] + ParamTokens(params) + [")"], ["("] + SigParams(params) + [")"])
    ensures IsMark((["("] + ParamTokens(params) + [")"])[0])
  {
    SignificantMarks();
    ReadsMarks(["("]);
    ReadsMarks([")"]);
    ParamsRead(params);
    ReadsAppend(["("], ["("], ParamTokens(params), SigParams(params));
    ReadsAppend(["("] + ParamTokens(params), ["("] + SigParams(params), [")"], [")"]);
  }

  lemma ClosedHead(name: string, params: seq<Angle>)
    requires IsGateName(name) && forall a :: a in params ==> Printable(a)
    ensures ReadsClosed([name] + (if params == [] then [] else ["("] + ParamTokens(params) + [")"]) + [" "],
                        [name] + (if params == [] then [] else ["("] + SigParams(params) + [")"]))
  {
    ReadsWord(name);
    SignificantMarks();
    ReadsMarks([" "]);
    var ps := if params == [] then [] else ["("] + ParamTokens(params) + [")"];
    var sig := if params == [] then [] else ["("] + SigParams(params) + [")"];
    if params == [] {
      assert [name] + ps == [name] && [name] + sig == [name];
    } else {
      ClosedParams(params);
      ReadsAppend([name], [name], ps, sig);
    }
    ReadsAppend([name] + ps, [name] + sig, [" "], []);
    assert ([name] + sig) + [] == [name] + sig;
  }

  lemma GateRead(name: string, params: seq<Angle>, qubits: seq<nat>)
    requires PrintablePiece(Line(Apply(name, params, qubits)))
    ensures var p := Line(Apply(name, params, qubits)); ReadsClosed(PieceTokens(p), SigPiece(p))
  {
    ClosedHead(name, params);
    QubitsRead(qubits);
    assert ReadsClosed([";", "\n"], [";"]) by {
      SignificantMarks();
      ReadsMarks([";", "\n"]);
    }
    hide ReadsClosed, ParamTokens, QubitTokens, SigParams, SigQubits;
    var head := [name] + (if params == [] then [] else ["("] + ParamTokens(params) + [")"]) + [" "];
    var sig := [name] + (if params == [] then [] else ["("] + SigParams(params) + [")"]);
    assert ReadsClosed(QubitTokens(qubits), SigQubits(qubits)) by { ClosedQubits(qubits); }
    ClosedAppend(head, sig, QubitTokens(qubits), SigQubits(qubits));
    ClosedAppend(head + QubitTokens(qubits), sig + SigQubits(qubits), [";", "\n"], [";"]);
  }

  lemma ClosedQubits(qubits: seq<nat>)
    requires qubits != []
    ensures ReadsClosed(QubitTokens(qubits), SigQubits(qubits))
  {
    QubitsRead(qubits);
  }

  lemma WordSpace(w: string)
    requires IsWord(w)
    ensures ReadsClosed([w, " "], [w])
  {
    ReadsWord(w);
    assert [w] + [" "] == [w, " "] && [w] + [] == [w];
    SignificantOne(" ");
    ReadsMarks([" "]);
    ReadsAppend([w], [w], [" "], []);
  }

  lemma WordMark(w: string, m: string)
    requires IsWord(w) && IsMark(m) && !IsSpace(m)
    ensures ReadsClosed([w, m], [w, m])
  {
    ReadsWord(w);
    assert [w] + [m] == [w, m];
    SignificantOne(m);
    ReadsMarks([m]);
    ReadsAppend([w], [w], [m], [m]);
  }

  lemma OneMark(m: string)
    requires IsMark(m)
    ensures ReadsClosed([m], if IsSpace(m) then [] else [m])
  {
    SignificantOne(m);
    ReadsMarks([m]);
  }

  lemma EndOfLine()
    ensures ReadsClosed([";", "\n"], [";"])
  {
    SignificantMarks();
    ReadsMarks([";", "\n"]);
  }

  datatype Chunk = Chunk(tokens: seq<string>, sig: seq<string>)

  predicate Good(c: Chunk) {
    ReadsClosed(c.tokens, c.sig)
  }

  lemma FourChunks(a: Chunk, b: Chunk, c: Chunk, d: Chunk)
    requires Good(a) && Good(b) && Good(c) && Good(d)
    ensures Good(Chunk(a.tokens + b.tokens + c.tokens + d.tokens, a.sig + b.sig + c.sig + d.sig))
  {
    hide ReadsClosed;
    ClosedAppend(a.tokens, a.sig, b.tokens, b.sig);
    ClosedAppend(a.tokens + b.tokens, a.sig + b.sig, c.tokens, c.sig);
    ClosedAppend(a.tokens + b.tokens + c.tokens, a.sig + b.sig + c.sig, d.tokens, d.sig);
  }

  lemma Keywords()
    ensures IsWord("creg") && IsWord("if") && IsWord("measure") && IsWord("q")
    ensures IsWord("==") && IsWord("->") && IsWord("0") && IsWord("1")
  {
  }

  lemma Marks()
    ensures IsMark("[") && IsMark("]") && IsMark("(") && IsMark(")") && IsMark(" ")
    ensures !IsSpace("[") && !IsSpace("]") && !IsSpace("(") && !IsSpace(")") && IsSpace(" ")
  {
  }

  lemma CregRead(k: nat)
    ensures ReadsClosed(PieceTokens(Line(Creg(k))), SigPiece(Line(Creg(k))))
  {
    hide ReadsClosed, IsWord, IsMark, IsSpace, RegisterName, Dec;
    Keywords();
    Marks();
    var c := RegisterName(k);
    RegisterNameIsWord(k);
    WordSpace("creg");
    WordMark(c, "[");
    WordMark("1", "]");
    EndOfLine();
    FourChunks(Chunk(["creg", " "], ["creg"]), Chunk([c, "["], [c, "["]), Chunk(["1", "]"], ["1", "]"]),
               Chunk([";", "\n"], [";"]));
  }

  lemma GuardRead(k: nat)
    ensures ReadsClosed(PieceTokens(Guard(k)), SigPiece(Guard(k)))
  {
    hide ReadsClosed, IsWord, IsMark, IsSpace, RegisterName, Dec;
    Keywords();
    Marks();
    var c := RegisterName(k);
    RegisterNameIsWord(k);
    WordSpace("if");
    OneMark("(");
    WordSpace(c);
    WordSpace("==");
    WordMark("1", ")");
    OneMark(" ");
    var four := Chunk(["if", " "] + ["("] + [c, " "] + ["==", " "], ["if"] + ["("] + [c] + ["=="]);
    FourChunks(Chunk(["if", " "], ["if"]), Chunk(["("], ["("]), Chunk([c, " "], [c]), Chunk(["==", " "], ["=="]));
    TwoMore(four, Chunk(["1", ")"], ["1", ")"]), Chunk([" "], []));
  }

  lemma TwoMore(a: Chunk, b: Chunk, c: Chunk)
    requires Good(a) && Good(b) && Good(c)
    ensures Good(Chunk(a.tokens + b.tokens + c.tokens, a.sig + b.sig + c.sig))
  {
    hide ReadsClosed;
    ClosedAppend(a.tokens, a.sig, b.tokens, b.sig);
    ClosedAppend(a.tokens + b.tokens, a.sig + b.sig, c.tokens, c.sig);
  }

  lemma MeasureRead(q: nat, k: nat)
    ensures ReadsClosed(PieceTokens(Line(MeasureTo(q, k))), SigPiece(Line(MeasureTo(q, k))))
  {
    hide ReadsClosed, IsWord, IsMark, IsSpace, RegisterName, Dec;
    Keywords();
    Marks();
    var c, d := RegisterName(k), Dec(q);
    RegisterNameIsWord(k);
    DecIsWord(q);
    WordSpace("measure");
    WordMark("q", "[");
    WordMark(d, "]");
    OneMark(" ");
    WordSpace("->");
    WordMark(c, "[");
    WordMark("0", "]");
    EndOfLine();
    var four := Chunk(["measure", " "] + ["q", "["] + [d, "]"] + [" "], ["measure"] + ["q", "["] + [d, "]"] + []);
    FourChunks(Chunk(["measure", " "], ["measure"]), Chunk(["q", "["], ["q", "["]), Chunk([d, "]"], [d, "]"]),
               Chunk([" "], []));
    var six := Chunk(four.tokens + ["->", " "] + [c, "["], four.sig + ["->"] + [c, "["]);
    TwoMore(four, Chunk(["->", " "], ["->"]), Chunk([c, "["], [c, "["]));
    TwoMore(six, Chunk(["0", "]"], ["0", "]"]), Chunk([";", "\n"], [";"]));
  }

  lemma PieceRead(p: Piece)
    requires PrintablePiece(p)
    ensures ReadsClosed(PieceTokens(p), SigPiece(p))
  {
    match p
    case Guard(k) => GuardRead(k);
    case Line(Apply(name, params, qubits)) => GateRead(name, params, qubits);
    case Line(Creg(k)) => CregRead(k);
    case Line(MeasureTo(q, k)) => MeasureRead(q, k);
  }

  function SigPieces(pieces: seq<Piece>): seq<string> {
    if pieces == [] then [] else SigPiece(pieces[0]) + SigPieces(pieces[1..])
  }

  lemma {:induction false} PiecesRead(pieces: seq<Piece>)
    requires AllPrintable(pieces)
    ensures Reads(Tokens(pieces), SigPieces(pieces))
  {
    if pieces != [] {
      PieceRead(pieces[0]);
      PiecesRead(pieces[1..]);
      ReadsAppend(PieceTokens(pieces[0]), SigPiece(pieces[0]), Tokens(pieces[1..]), SigPieces(pieces[1..]));
    }
  }

  // ----- the reader on significant tokens -----

  lemma {:induction false} ReadParamsInverts(params: seq<Angle>, rest: seq<string>)
    requires params != [] && forall a :: a in params ==> Printable(a)
    ensures ReadParams(SigParams(params) + ([")"] + rest)) == Some((params, rest))
  {
    var ts := SigParams(params) + ([")"] + rest);
    AngleTextIsWord(params[0]);
    if |params| == 1 {
      assert ts[2..] == rest && [params[0]] == params;
    } else {
      assert ts[2..] == SigParams(params[1..]) + ([")"] + rest);
      ReadParamsInverts(params[1..], rest);
      assert [params[0]] + params[1..] == params;
    }
  }

  lemma SigQubitsStep(qubits: seq<nat>, rest: seq<string>)
    requires qubits != []
    ensures var ts := SigQubits(qubits) + ([";"] + rest);
            && |ts| >= 5 && ts[..4] == ["q", "[", Dec(qubits[0]), "]"]
            && ts[4] == (if |qubits| == 1 then ";" else ",")
            && ts[5..] == if |qubits| == 1 then rest else SigQubits(qubits[1..]) + ([";"] + rest)
  {
    hide Dec;
    if |qubits| > 1 {
      Assoc(["q", "[", Dec(qubits[0]), "]", ","], SigQubits(qubits[1..]), [";"] + rest);
    }
  }

  lemma {:induction false} ReadQubitsInverts(qubits: seq<nat>, rest: seq<string>)
    requires qubits != []
    ensures ReadQubits(SigQubits(qubits) + ([";"] + rest)) == Some((qubits, rest))
  {
    hide Numeral, Dec, SigQubits;
    var ts := SigQubits(qubits) + ([";"] + rest);
    NumeralInvertsDec(qubits[0]);
    SigQubitsStep(qubits, rest);
    assert ts[0] == ts[..4][0] && ts[1] == ts[..4][1] && ts[2] == ts[..4][2] && ts[3] == ts[..4][3];
    if |qubits| == 1 {
      assert ts[4] == ";" && qubits == [qubits[0]];
    } else {
      assert ts[4] == ",";
      ReadQubitsInverts(qubits[1..], rest);
      HeadTail(qubits);
    }
  }

  lemma PlainGateInverts(name: string, qubits: seq<nat>, rest: seq<string>)
    requires qubits != []
    ensures ReadGate([name] + (SigQubits(qubits) + ([";"] + rest))) == Some((Line(Apply(name, [], qubits)), rest))
  {
    ReadQubitsInverts(qubits, rest);
    SigQubitsStep(qubits, rest);
    hide ReadQubits, SigQubits, Dec;
    var tail := SigQubits(qubits) + ([";"] + rest);
    var ts := [name] + tail;
    assert tail[0] == tail[..4][0] == "q";
    assert |ts| >= 2 && ts[0] == name && ts[1] == "q" && ts[1..] == tail;
  }

  lemma ParamGateInverts(name: string, params: seq<Angle>, qubits: seq<nat>, rest: seq<string>)
    requires params != [] && qubits != [] && forall a :: a in params ==> Printable(a)
    ensures ReadGate([name, "("] + (SigParams(params) + ([")"] + (SigQubits(qubits) + ([";"] + rest)))))
         == Some((Line(Apply(name, params, qubits)), rest))
  {
    var tail := SigQubits(qubits) + ([";"] + rest);
    ReadQubitsInverts(qubits, rest);
    ReadParamsInverts(params, tail);
    hide ReadQubits, ReadParams, SigQubits, SigParams, Printable;
    var inner := SigParams(params) + ([")"] + tail);
    var ts := [name, "("] + inner;
    assert |ts| >= 2 && ts[0] == name && ts[1] == "(" && ts[2..] == inner;
  }

  lemma ReadGateInverts(name: string, params: seq<Angle>, qubits: seq<nat>, rest: seq<string>)
    requires PrintablePiece(Line(Apply(name, params, qubits)))
    ensures var p := Line(Apply(name, params, qubits)); ReadGate(SigPiece(p) + rest) == Some((p, rest))
  {
    var p := Line(Apply(name, params, qubits));
    var ts := SigPiece(p) + rest;
    hide ReadGate, SigQubits, SigParams, Printable;
    if params == [] {
      assert ts == [name] + (SigQubits(qubits) + ([";"] + rest));
      PlainGateInverts(name, qubits, rest);
    } else {
      assert ts == [name, "("] + (SigParams(params) + ([")"] + (SigQubits(qubits) + ([";"] + rest))));
      ParamGateInverts(name, params, qubits, rest);
    }
  }

  lemma ReadGuardInverts(k: nat, rest: seq<string>)
    ensures ReadPiece(SigPiece(Guard(k)) + rest) == Some((Guard(k), rest))
  {
    var ts := SigPiece(Guard(k)) + rest;
    RegisterNameIsWord(k);
    assert ts[3..6] == ["==", "1", ")"] && ts[6..] == rest;
  }

  lemma ReadCregInverts(k: nat, rest: seq<string>)
    ensures ReadPiece(SigPiece(Line(Creg(k))) + rest) == Some((Line(Creg(k)), rest))
  {
    var ts := SigPiece(Line(Creg(k))) + rest;
    RegisterNameIsWord(k);
    assert ts[2..6] == ["[", "1", "]", ";"] && ts[6..] == rest;
  }

  lemma ReadMeasureInverts(q: nat, k: nat, rest: seq<string>)
    ensures ReadPiece(SigPiece(Line(MeasureTo(q, k))) + rest) == Some((Line(MeasureTo(q, k)), rest))
  {
    var ts := SigPiece(Line(MeasureTo(q, k))) + rest;
    RegisterNameIsWord(k);
    NumeralInvertsDec(q);
    assert ts[1..3] == ["q", "["] && ts[4..6] == ["]", "->"] && ts[7..10] == ["[", "0", "]"] && ts[11..] == rest;
  }

  lemma ReadPieceInverts(p: Piece, rest: seq<string>)
    requires PrintablePiece(p)
    ensures ReadPiece(SigPiece(p) + rest) == Some((p, rest)) && SigPiece(p) != []
  {
    match p
    case Guard(k) => ReadGuardInverts(k, rest);
    case Line(Creg(k)) => ReadCregInverts(k, rest);
    case Line(MeasureTo(q, k)) => ReadMeasureInverts(q, k, rest);
    case Line(Apply(name, params, qubits)) =>
      assert (SigPiece(p) + rest)[0] == name;
      ReadGateInverts(name, params, qubits, rest);
  }

  lemma {:induction false} ReadPiecesInverts(pieces: seq<Piece>)
    requires AllPrintable(pieces)
    ensures ReadPieces(SigPieces(pieces)) == Some(pieces)
  {
    if pieces != [] {
      ReadPieceInverts(pieces[0], SigPieces(pieces[1..]));
      ReadPiecesInverts(pieces[1..]);
      assert [pieces[0]] + pieces[1..] == pieces;
    }
  }

  /** Reading the written text gives back the statements and guards, in order. */
  lemma ReadTextInvertsText(pieces: seq<Piece>)
    requires AllPrintable(pieces)
    ensures ReadText(Text(pieces)) == Some(pieces)
  {
    PiecesRead(pieces);
    LexInvertsConcat(Tokens(pieces));
    ReadPiecesInverts(pieces);
  }
}
