/** JSON values over the tokens of Lexing: printing, parsing, and the round trip. */
module Json {
  import opened Wrappers
  import opened Lexing
  import opened Sequences

  datatype Json =
    | Lit(text: string)
    | Str(text: string)
    | Arr(items: seq<Json>)
    | Obj(fields: seq<Field>)

  datatype Field = Field(key: string, value: Json)

  const QUOTE := "\""

  // ----- tokens of a value, without white space -----

  function Print(v: Json): seq<string>
    decreases v, 1
  {
    match v
    case Lit(text) => [text]
    case Str(text) => [QUOTE, text, QUOTE]
    case Arr(items) => ["["] + PrintItems(items)
    case Obj(fields) => ["{"] + PrintFields(fields)
  }

  /** The items and the closing bracket. */
  function PrintItems(items: seq<Json>): seq<string>
    decreases items, 0
  {
    if items == [] then ["]"]
    else Print(items[0]) + (if |items| == 1 then ["]"] else [","] + PrintItems(items[1..]))
  }

  function PrintFields(fields: seq<Field>): seq<string>
    decreases fields, 0
  {
    if fields == [] then ["}"]
    else [QUOTE, fields[0].key, QUOTE, ":"] + Print(fields[0].value)
         + (if |fields| == 1 then ["}"] else [","] + PrintFields(fields[1..]))
  }

  // ----- literals -----

  /** The number of digits s starts with. */
  function DigitCount(s: string): (n: nat)
    ensures n <= |s|
  {
    if s != "" && IsDigit(s[0]) then 1 + DigitCount(s[1..]) else 0
  }

  /** Nothing, or an exponent. */
  predicate IsExponent(s: string) {
    s == "" ||
    (|s| > 1 && (s[0] == 'e' || s[0] == 'E') &&
     var digits := if s[1] == '+' || s[1] == '-' then s[2..] else s[1..];
     digits != "" && DigitCount(digits) == |digits|)
  }

  /** Nothing, or a fraction, or an exponent, or both. */
  predicate IsFraction(s: string) {
    if s != "" && s[0] == '.' then
      var n := DigitCount(s[1..]);
      n > 0 && IsExponent(s[1 + n..])
    else IsExponent(s)
  }

  /** An integer without superfluous leading zeros, and a fraction. */
  predicate IsUnsigned(s: string) {
    var n := DigitCount(s);
    n > 0 && (n > 1 ==> s[0] != '0') && IsFraction(s[n..])
  }

  /** The numbers of RFC 8259, section 6. */
  predicate IsNumber(s: string) {
    IsUnsigned(if s != "" && s[0] == '-' then s[1..] else s)
  }

  predicate IsLiteral(s: string) {
    s == "true" || s == "false" || s == "null" || IsNumber(s)
  }

  lemma {:induction false} AllDigitsCount(s: string)
    requires forall i :: 0 <= i < |s| ==> IsDigit(s[i])
    ensures DigitCount(s) == |s|
  {
    if s != "" {
      AllDigitsCount(s[1..]);
    }
  }

  lemma {:induction false} DigitsThenOther(d: string, other: string)
    requires forall i :: 0 <= i < |d| ==> IsDigit(d[i])
    requires other == "" || !IsDigit(other[0])
    ensures DigitCount(d + other) == |d|
  {
    if d == "" {
      assert d + other == other;
    } else {
      assert (d + other)[1..] == d[1..] + other;
      DigitsThenOther(d[1..], other);
    }
  }

  /** A decimal number, with or without a sign. */
  lemma DecimalIsLiteral(d: string, f: string)
    requires d != "" && f != "" && (|d| > 1 ==> d[0] != '0')
    requires forall i :: 0 <= i < |d| ==> IsDigit(d[i])
    requires forall i :: 0 <= i < |f| ==> IsDigit(f[i])
    ensures IsLiteral(d + ("." + f)) && IsLiteral("-" + (d + ("." + f)))
  {
    var s := d + ("." + f);
    DigitsThenOther(d, "." + f);
    AllDigitsCount(f);
    hide DigitCount, IsExponent;
    assert IsExponent("") by { ExponentMayBeMissing(); }
    assert s[|d|..] == "." + f && ("." + f)[1..] == f && ("." + f)[1 + |f|..] == "";
    assert IsUnsigned(s) && s[0] != '-' && ("-" + s)[1..] == s;
  }

  lemma ExponentMayBeMissing()
    ensures IsExponent("")
  {
  }

  lemma {:induction false} DecStart(n: nat)
    ensures n == 0 || Dec(n)[0] != '0'
  {
    if n >= 10 {
      DecStart(n / 10);
    }
  }

  lemma DecIsLiteral(n: nat)
    ensures IsLiteral(Dec(n))
  {
    var s := Dec(n);
    AllDigitsCount(s);
    DecStart(n);
    assert s[|s|..] == "" && s[0] != '-';
    assert n == 0 ==> |s| == 1;
  }

  /** Signs, leading zeros, bare points and bare exponents are refused. */
  lemma NotLiterals(s: string)
    ensures !IsLiteral("") && !IsLiteral("-") && !IsLiteral("+" + s)
    ensures s != "" && IsDigit(s[0]) ==> !IsLiteral("0" + s)
    ensures !IsLiteral("." + s)
  {
    var plus, zero, point := "+" + s, "0" + s, "." + s;
    assert plus[0] == '+' && zero[0] == '0' && point[0] == '.';
    assert DigitCount(plus) == 0 && DigitCount(point) == 0;
    assert zero[1..] == s;
    assert DigitCount(zero) == 1 + DigitCount(s);
    assert "-"[1..] == "";
  }

  // ----- parsing -----

  function Parse(ts: seq<string>): (r: Option<(Json, seq<string>)>)
    ensures r.Some? ==> |r.value.1| < |ts|
    decreases |ts|, 0
  {
    if ts == [] then None
    else if ts[0] == QUOTE then
      if |ts| >= 3 && IsWord(ts[1]) && ts[2] == QUOTE then Some((Str(ts[1]), ts[3..])) else None
    else if ts[0] == "[" then
      if |ts| >= 2 && ts[1] == "]" then Some((Arr([]), ts[2..]))
      else
        match ParseItems(ts[1..])
        case None => None
        case Some((items, rest)) => Some((Arr(items), rest))
    else if ts[0] == "{" then
      if |ts| >= 2 && ts[1] == "}" then Some((Obj([]), ts[2..]))
      else
        match ParseFields(ts[1..])
        case None => None
        case Some((fields, rest)) => Some((Obj(fields), rest))
    else if IsLiteral(ts[0]) then Some((Lit(ts[0]), ts[1..]))
    else None
  }

  function ParseItems(ts: seq<string>): (r: Option<(seq<Json>, seq<string>)>)
    ensures r.Some? ==> |r.value.1| < |ts|
    decreases |ts|, 1
  {
    match Parse(ts)
    case None => None
    case Some((v, rest)) =>
      if rest == [] then None
      else if rest[0] == "]" then Some(([v], rest[1..]))
      else if rest[0] == "," then
        match ParseItems(rest[1..])
        case None => None
        case Some((vs, rest')) => Some(([v] + vs, rest'))
      else None
  }

  function ParseFields(ts: seq<string>): (r: Option<(seq<Field>, seq<string>)>)
    ensures r.Some? ==> |r.value.1| < |ts|
    decreases |ts|, 1
  {
    if |ts| < 4 || ts[0] != QUOTE || !IsWord(ts[1]) || ts[2] != QUOTE || ts[3] != ":" then None
    else
      match Parse(ts[4..])
      case None => None
      case Some((v, rest)) =>
        if rest == [] then None
        else if rest[0] == "}" then Some(([Field(ts[1], v)], rest[1..]))
        else if rest[0] == "," then
          match ParseFields(rest[1..])
          case None => None
          case Some((fs, rest')) => Some(([Field(ts[1], v)] + fs, rest'))
        else None
  }

  // ----- the round trip -----

  /** Literals, strings and keys are single words. */
  predicate Plain(v: Json)
    decreases v, 1
  {
    match v
    case Lit(text) => IsWord(text)
    case Str(text) => IsWord(text)
    case Arr(items) => PlainItems(items)
    case Obj(fields) => PlainFields(fields)
  }

  predicate PlainItems(items: seq<Json>)
    decreases items, 0
  {
    items == [] || (Plain(items[0]) && PlainItems(items[1..]))
  }

  predicate PlainFields(fields: seq<Field>)
    decreases fields, 0
  {
    fields == [] || (IsWord(fields[0].key) && Plain(fields[0].value) && PlainFields(fields[1..]))
  }

  /** Every literal is one of the JSON grammar. */
  predicate Literal(v: Json)
    decreases v, 1
  {
    match v
    case Lit(text) => IsLiteral(text)
    case Str(_) => true
    case Arr(items) => LiteralItems(items)
    case Obj(fields) => LiteralFields(fields)
  }

  predicate LiteralItems(items: seq<Json>)
    decreases items, 0
  {
    items == [] || (Literal(items[0]) && LiteralItems(items[1..]))
  }

  predicate LiteralFields(fields: seq<Field>)
    decreases fields, 0
  {
    fields == [] || (Literal(fields[0].value) && LiteralFields(fields[1..]))
  }

  lemma WordStart(s: string)
    requires IsWord(s)
    ensures s != QUOTE && s != "[" && s != "{" && s != "]" && s != "}"
  {
    assert !IsDelimiter(s[0]);
  }

  lemma FirstToken(v: Json)
    requires Plain(v)
    ensures Print(v) != [] && Print(v)[0] != "]" && Print(v)[0] != "}"
  {
    if v.Lit? {
      WordStart(v.text);
    }
  }

  lemma ParseLit(text: string, rest: seq<string>)
    requires IsWord(text)
    ensures Parse([text] + rest) == if IsLiteral(text) then Some((Lit(text), rest)) else None
  {
    WordStart(text);
    hide IsLiteral;
    var ts := [text] + rest;
    assert |ts| > 0 && ts[0] == text && ts[1..] == rest;
  }

  lemma ParseStr(text: string, rest: seq<string>)
    requires IsWord(text)
    ensures Parse([QUOTE, text, QUOTE] + rest) == Some((Str(text), rest))
  {
    hide IsWord;
    var ts := [QUOTE, text, QUOTE] + rest;
    assert |ts| >= 3 && ts[0] == QUOTE && ts[1] == text && ts[2] == QUOTE && ts[3..] == rest;
  }

  lemma ParseArr(ts: seq<string>)
    requires ts != []
    ensures Parse(["["] + ts)
         == if ts[0] == "]" then Some((Arr([]), ts[1..]))
            else match ParseItems(ts) case None => None case Some((items, rest)) => Some((Arr(items), rest))
  {
    var all := ["["] + ts;
    assert |all| == 1 + |ts| && all[0] == "[" && all[1] == ts[0] && all[1..] == ts && all[2..] == ts[1..];
  }

  lemma ParseObj(ts: seq<string>)
    requires ts != []
    ensures Parse(["{"] + ts)
         == if ts[0] == "}" then Some((Obj([]), ts[1..]))
            else match ParseFields(ts) case None => None case Some((fields, rest)) => Some((Obj(fields), rest))
  {
    var all := ["{"] + ts;
    assert |all| == 1 + |ts| && all[0] == "{" && all[1] == ts[0] && all[1..] == ts && all[2..] == ts[1..];
  }

  lemma PrintItemsStart(items: seq<Json>, rest: seq<string>)
    requires items != [] && PlainItems(items)
    ensures PrintItems(items) != [] && (PrintItems(items) + rest)[0] != "]"
  {
    FirstToken(items[0]);
    hide Print;
    assert PrintItems(items)[0] == Print(items[0])[0];
  }

  /** Parsing a printed value gives the value and the tokens after it exactly if all its literals
      are literals of JSON; otherwise it fails. */
  lemma {:induction false} ParseInvertsPrint(v: Json, rest: seq<string>)
    requires Plain(v)
    ensures Parse(Print(v) + rest) == if Literal(v) then Some((v, rest)) else None
    decreases v, 1
  {
    hide IsWord, IsLiteral, Parse;
    match v
    case Lit(text) =>
      ParseLit(text, rest);
    case Str(text) =>
      ParseStr(text, rest);
    case Arr(items) =>
      Assoc(["["], PrintItems(items), rest);
      ParseArr(PrintItems(items) + rest);
      if items == [] {
        assert (["]"] + rest)[1..] == rest;
      } else {
        PrintItemsStart(items, rest);
        ParseItemsInverts(items, rest);
      }
    case Obj(fields) =>
      Assoc(["{"], PrintFields(fields), rest);
      ParseObj(PrintFields(fields) + rest);
      if fields == [] {
        assert (["}"] + rest)[1..] == rest;
      } else {
        FieldsTail(fields, rest);
        ParseFieldsInverts(fields, rest);
      }
  }

  lemma ItemsTail(items: seq<Json>, rest: seq<string>)
    requires items != []
    ensures var more := items[1..];
            PrintItems(items) + rest
            == Print(items[0]) + ((if more == [] then ["]"] else [","] + PrintItems(more)) + rest)
  {
    hide Print;
    var more := items[1..];
    var c := if more == [] then ["]"] else [","] + PrintItems(more);
    assert PrintItems(items) == Print(items[0]) + c;
    Assoc(Print(items[0]), c, rest);
  }

  lemma {:induction false} ParseItemsInverts(items: seq<Json>, rest: seq<string>)
    requires items != [] && PlainItems(items)
    ensures ParseItems(PrintItems(items) + rest) == if LiteralItems(items) then Some((items, rest)) else None
    decreases items, 0
  {
    hide Print, Parse, Plain, Literal;
    var v, more := items[0], items[1..];
    var tail := (if more == [] then ["]"] else [","] + PrintItems(more)) + rest;
    ItemsTail(items, rest);
    ParseInvertsPrint(v, tail);
    if more == [] {
      assert tail[0] == "]" && tail[1..] == rest && items == [v];
    } else {
      Assoc([","], PrintItems(more), rest);
      assert tail[0] == "," && tail[1..] == PrintItems(more) + rest;
      ParseItemsInverts(more, rest);
      HeadTail(items);
    }
  }

  lemma FieldsTail(fields: seq<Field>, rest: seq<string>)
    requires fields != []
    ensures var more := fields[1..];
            PrintFields(fields) + rest
            == [QUOTE, fields[0].key, QUOTE, ":"]
               + (Print(fields[0].value) + ((if more == [] then ["}"] else [","] + PrintFields(more)) + rest))
  {
    hide Print;
    var more := fields[1..];
    var a, b, c := [QUOTE, fields[0].key, QUOTE, ":"], Print(fields[0].value),
                   if more == [] then ["}"] else [","] + PrintFields(more);
    assert PrintFields(fields) == a + b + c;
    Assoc(a + b, c, rest);
    Assoc(a, b, c + rest);
  }

  /** One field and what follows its value. */
  lemma ParseField(key: string, ts: seq<string>)
    requires IsWord(key)
    ensures ParseFields([QUOTE, key, QUOTE, ":"] + ts)
         == match Parse(ts)
            case None => None
            case Some((v, rest)) =>
              if rest == [] then None
              else if rest[0] == "}" then Some(([Field(key, v)], rest[1..]))
              else if rest[0] == "," then
                (match ParseFields(rest[1..])
                 case None => None
                 case Some((fs, rest')) => Some(([Field(key, v)] + fs, rest')))
              else None
  {
    hide IsWord, Parse;
    var all := [QUOTE, key, QUOTE, ":"] + ts;
    assert |all| == 4 + |ts| && all[0] == QUOTE && all[1] == key && all[2] == QUOTE && all[3] == ":" && all[4..] == ts;
  }

  lemma {:induction false} ParseFieldsInverts(fields: seq<Field>, rest: seq<string>)
    requires fields != [] && PlainFields(fields)
    ensures ParseFields(PrintFields(fields) + rest) == if LiteralFields(fields) then Some((fields, rest)) else None
    decreases fields, 0
  {
    hide Print, Parse, Plain, Literal, IsWord;
    var Field(k, v) := fields[0];
    var more := fields[1..];
    var tail := (if more == [] then ["}"] else [","] + PrintFields(more)) + rest;
    FieldsTail(fields, rest);
    ParseField(k, Print(v) + tail);
    ParseInvertsPrint(v, tail);
    if more == [] {
      assert tail[0] == "}" && tail[1..] == rest && fields == [Field(k, v)];
    } else {
      Assoc([","], PrintFields(more), rest);
      assert tail[0] == "," && tail[1..] == PrintFields(more) + rest;
      ParseFieldsInverts(more, rest);
      HeadTail(fields);
    }
  }
}
