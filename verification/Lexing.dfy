/** Text as a sequence of tokens: delimiters of one character, and words without delimiters.
    Also decimal numerals. */
module Lexing {
  import opened Wrappers

  predicate IsDelimiter(c: char) {
    || c == ' ' || c == '\n' || c == '\t' || c == '\r'
    || c == '(' || c == ')' || c == '[' || c == ']' || c == '{' || c == '}'
    || c == ',' || c == ';' || c == ':' || c == '"'
  }

  predicate IsWord(s: string) {
    s != "" && forall i :: 0 <= i < |s| ==> !IsDelimiter(s[i])
  }

  predicate IsMark(s: string) {
    |s| == 1 && IsDelimiter(s[0])
  }

  /** Every element is a token and no two words touch. */
  predicate Separated(ts: seq<string>) {
    && (forall i :: 0 <= i < |ts| ==> IsWord(ts[i]) || IsMark(ts[i]))
    && (forall i :: 0 <= i < |ts| - 1 ==> IsMark(ts[i]) || IsMark(ts[i + 1]))
  }

  function Concat(ts: seq<string>): string {
    if ts == [] then "" else ts[0] + Concat(ts[1..])
  }

  lemma {:induction false} ConcatAppend(a: seq<string>, b: seq<string>)
    ensures Concat(a + b) == Concat(a) + Concat(b)
  {
    if a == [] {
      assert a + b == b;
    } else {
      assert (a + b)[1..] == a[1..] + b;
      ConcatAppend(a[1..], b);
    }
  }

  /** Length of the longest word at the start of s. */
  function WordLength(s: string): (n: nat)
    ensures n <= |s|
    ensures forall i :: 0 <= i < n ==> !IsDelimiter(s[i])
    ensures n < |s| ==> IsDelimiter(s[n])
  {
    if s == "" || IsDelimiter(s[0]) then 0 else 1 + WordLength(s[1..])
  }

  function Lex(s: string): seq<string>
    decreases |s|
  {
    if s == "" then []
    else if IsDelimiter(s[0]) then [s[..1]] + Lex(s[1..])
    else
      var n := WordLength(s);
      [s[..n]] + Lex(s[n..])
  }

  lemma LexMark(m: string, rest: string)
    requires IsMark(m)
    ensures Lex(m + rest) == [m] + Lex(rest)
  {
    var s := m + rest;
    assert s[..1] == m && s[1..] == rest;
  }

  lemma {:induction false} WordThenOther(w: string, rest: string)
    requires forall i :: 0 <= i < |w| ==> !IsDelimiter(w[i])
    requires rest == "" || IsDelimiter(rest[0])
    ensures WordLength(w + rest) == |w|
  {
    hide IsDelimiter;
    if w == "" {
      assert w + rest == rest;
    } else {
      assert (w + rest)[0] == w[0] && (w + rest)[1..] == w[1..] + rest;
      WordThenOther(w[1..], rest);
    }
  }

  lemma LexWord(w: string, rest: string)
    requires IsWord(w) && (rest == "" || IsDelimiter(rest[0]))
    ensures Lex(w + rest) == [w] + Lex(rest)
  {
    hide IsDelimiter;
    var s := w + rest;
    WordThenOther(w, rest);
    assert s[0] == w[0] && s[..|w|] == w && s[|w|..] == rest;
  }

  /** Lexing the text of separated tokens gives the tokens back. */
  lemma {:induction false} LexInvertsConcat(ts: seq<string>)
    requires Separated(ts)
    ensures Lex(Concat(ts)) == ts
  {
    if ts != [] {
      hide IsDelimiter, Lex;
      var first, more := ts[0], ts[1..];
      assert forall i :: 0 <= i < |more| ==> more[i] == ts[i + 1];
      LexInvertsConcat(more);
      assert ts == [first] + more;
      if IsMark(first) {
        LexMark(first, Concat(more));
      } else {
        if more != [] {
          assert IsMark(more[0]) && Concat(more)[0] == more[0][0];
        }
        LexWord(first, Concat(more));
      }
    } else {
      LexNothing();
    }
  }

  lemma LexNothing()
    ensures Lex("") == []
  {
  }

  lemma SeparatedAppend(a: seq<string>, b: seq<string>)
    requires Separated(a) && Separated(b)
    requires a == [] || b == [] || IsMark(a[|a| - 1]) || IsMark(b[0])
    ensures Separated(a + b)
  {
    var ts := a + b;
    forall i | 0 <= i < |ts| - 1
      ensures IsMark(ts[i]) || IsMark(ts[i + 1])
    {
      if i + 1 < |a| {
        assert ts[i] == a[i] && ts[i + 1] == a[i + 1];
      } else if i >= |a| {
        assert ts[i] == b[i - |a|] && ts[i + 1] == b[i + 1 - |a|];
      } else {
        assert ts[i] == a[|a| - 1] && ts[i + 1] == b[0];
      }
    }
  }

  predicate IsSpace(t: string) {
    t == " " || t == "\n" || t == "\t" || t == "\r"
  }

  /** The tokens other than white space. */
  function Significant(ts: seq<string>): seq<string> {
    if ts == [] then []
    else (if IsSpace(ts[0]) then [] else [ts[0]]) + Significant(ts[1..])
  }

  lemma {:induction false} SignificantAppend(a: seq<string>, b: seq<string>)
    ensures Significant(a + b) == Significant(a) + Significant(b)
  {
    if a == [] {
      assert a + b == b;
    } else {
      assert (a + b)[1..] == a[1..] + b;
      SignificantAppend(a[1..], b);
    }
  }

  lemma SignificantOne(t: string)
    ensures Significant([t]) == if IsSpace(t) then [] else [t]
  {
    assert [t][1..] == [];
  }

  /** A list without white space is significant as it is. */
  lemma {:induction false} AllSignificant(ts: seq<string>)
    requires forall t :: t in ts ==> !IsSpace(t)
    ensures Significant(ts) == ts
  {
    if ts != [] {
      AllSignificant(ts[1..]);
    }
  }

  // ----- decimal numerals -----

  predicate IsDigit(c: char) {
    '0' <= c <= '9'
  }

  function Dec(n: nat): (s: string)
    ensures s != "" && forall i :: 0 <= i < |s| ==> IsDigit(s[i])
  {
    if n < 10 then [('0' as int + n) as char] else Dec(n / 10) + [('0' as int + n % 10) as char]
  }

  lemma DecIsWord(n: nat)
    ensures IsWord(Dec(n)) && !IsSpace(Dec(n))
  {
    assert forall i :: 0 <= i < |Dec(n)| ==> IsDigit(Dec(n)[i]);
  }

  function Numeral(s: string): Option<nat> {
    if s == "" || !IsDigit(s[|s| - 1]) then None
    else
      var d := s[|s| - 1] as int - '0' as int;
      if |s| == 1 then Some(d)
      else
        match Numeral(s[..|s| - 1])
        case None => None
        case Some(m) => Some(10 * m + d)
  }

  lemma {:induction false} NumeralInvertsDec(n: nat)
    ensures Numeral(Dec(n)) == Some(n)
  {
    if n >= 10 {
      NumeralInvertsDec(n / 10);
      var s := Dec(n);
      assert s[..|s| - 1] == Dec(n / 10);
    }
  }
}
