/**
 * Models of the Python `str` operations the bot's command parsers rely on:
 * `strip()`, `split()`, `split(maxsplit=1)`, `" ".join(...)`, `lower()`,
 * `isdigit()`, `replace(".", "", 1)`, `str(int)` and the `<=` order on strings.
 */
module Text {

  /** The characters for which Python's `str.isspace()` holds: the separators of `split()` and `strip()`. */
  predicate IsSpace(c: char) {
    || c == ' '
    || ('\t' <= c <= '\r')
    || ('\U{1C}' <= c <= '\U{1F}')
    || c == '\U{85}' || c == '\U{A0}' || c == '\U{1680}'
    || ('\U{2000}' <= c <= '\U{200A}')
    || c == '\U{2028}' || c == '\U{2029}' || c == '\U{202F}' || c == '\U{205F}' || c == '\U{3000}'
  }

  predicate NoSpace(s: string) {
    forall i :: 0 <= i < |s| ==> !IsSpace(s[i])
  }

  /** `s.lstrip()` */
  function TrimStart(s: string): (r: string)
    ensures |r| <= |s| && r == s[|s| - |r|..]
    ensures r == [] || !IsSpace(r[0])
    ensures forall i :: 0 <= i < |s| - |r| ==> IsSpace(s[i])
  {
    if s != [] && IsSpace(s[0]) then TrimStart(s[1..]) else s
  }

  /** `s.rstrip()` */
  function TrimEnd(s: string): (r: string)
    ensures |r| <= |s| && r == s[..|r|]
    ensures r == [] || !IsSpace(r[|r| - 1])
    ensures forall i :: |r| <= i < |s| ==> IsSpace(s[i])
  {
    if s != [] && IsSpace(s[|s| - 1]) then TrimEnd(s[..|s| - 1]) else s
  }

  /** `s.strip()`: whitespace removed from both ends, nothing else touched. */
  function Strip(s: string): (r: string)
  {
    TrimEnd(TrimStart(s))
  }

  /** Stripping twice is stripping once. */
  lemma StripIdempotent(s: string)
    ensures Strip(Strip(s)) == Strip(s)
  {
    var r := Strip(s);
    assert r == [] || !IsSpace(r[0]);
  }

  /** Length of the run of non-space characters at the front of `s`. */
  function TokenEnd(s: string): (k: nat)
    ensures k <= |s| && NoSpace(s[..k]) && (k == |s| || IsSpace(s[k]))
  {
    if s == [] || IsSpace(s[0]) then 0 else 1 + TokenEnd(s[1..])
  }

  /** `s.split()`: the maximal runs of non-space characters, in order. */
  function Split(s: string): (r: seq<string>)
    ensures forall t :: t in r ==> t != [] && NoSpace(t)
    decreases |s|
  {
    var u := TrimStart(s);
    if u == [] then []
    else
      var k := TokenEnd(u);
      assert k > 0 by { assert !IsSpace(u[0]); }
      var rest := Split(u[k..]);
      assert forall t :: t in [u[..k]] + rest ==> t == u[..k] || t in rest;
      [u[..k]] + rest
  }

  /**
   * `s.split(maxsplit=1)`: the first token and, when anything but whitespace
   * follows it, the remainder with its leading whitespace removed.
   */
  function SplitOnce(s: string): (r: seq<string>)
    ensures |r| <= 2
    ensures |r| >= 1 <==> Split(s) != []
    ensures |r| >= 1 ==> r[0] == Split(s)[0]
    ensures |r| == 2 <==> |Split(s)| >= 2
    ensures |r| == 2 ==> Split(r[1]) == Split(s)[1..]
  {
    var u := TrimStart(s);
    if u == [] then []
    else
      var k := TokenEnd(u);
      var rest := TrimStart(u[k..]);
      assert Split(u[k..]) == Split(rest) by { TrimStartIdempotent(u[k..]); }
      if rest == [] then [u[..k]] else [u[..k], rest]
  }

  lemma TrimStartIdempotent(s: string)
    ensures TrimStart(TrimStart(s)) == TrimStart(s)
  {
    var r := TrimStart(s);
    assert r == [] || !IsSpace(r[0]);
  }

  /** `" ".join(tokens)` */
  function Join(tokens: seq<string>): string
  {
    if tokens == [] then []
    else if |tokens| == 1 then tokens[0]
    else tokens[0] + " " + Join(tokens[1..])
  }

  /** Joining non-empty space-free tokens with single spaces and splitting again gives them back. */
  lemma {:induction false} SplitJoin(tokens: seq<string>)
    requires forall t :: t in tokens ==> t != [] && NoSpace(t)
    ensures Split(Join(tokens)) == tokens
  {
    if tokens == [] {
    } else if |tokens| == 1 {
      assert tokens[0] in tokens;
      SplitWord(tokens[0], []);
      assert tokens[0] + [] == tokens[0];
    } else {
      var t, more := tokens[0], tokens[1..];
      assert t in tokens;
      assert forall u :: u in more ==> u in tokens;
      SplitJoin(more);
      SplitCommand(t, Join(more));
      assert tokens == [t] + more;
    }
  }

  /** A leading separator does not change the tokens. */
  lemma SplitSpace(s: string)
    ensures Split(" " + s) == Split(s)
  {
    assert TrimStart(" " + s) == TrimStart(s) by {
      assert (" " + s)[1..] == s;
    }
  }

  /** A word followed by nothing or by white space splits off as the first token. */
  lemma SplitWord(t: string, rest: string)
    requires t != [] && NoSpace(t)
    requires rest == [] || IsSpace(rest[0])
    ensures Split(t + rest) == [t] + Split(rest)
  {
    var s := t + rest;
    TokenEndOfWord(t, rest);
    assert TrimStart(s) == s;
    assert s[..|t|] == t;
    assert s[|t|..] == rest;
  }

  /** A word, a space and anything: the word is the first token and the rest splits as before. */
  lemma SplitCommand(word: string, rest: string)
    requires word != [] && NoSpace(word)
    ensures Split(word + " " + rest) == [word] + Split(rest)
  {
    assert word + " " + rest == word + (" " + rest);
    SplitWord(word, " " + rest);
    SplitSpace(rest);
  }

  lemma {:induction false} TokenEndOfWord(t: string, rest: string)
    requires NoSpace(t)
    requires rest == [] || IsSpace(rest[0])
    ensures TokenEnd(t + rest) == |t|
  {
    if t != [] {
      assert (t + rest)[1..] == t[1..] + rest;
      TokenEndOfWord(t[1..], rest);
    } else {
      assert t + rest == rest;
    }
  }

  /** ASCII case folding: the part of Python's `str.lower()` this model covers. */
  function LowerChar(c: char): char {
    if 'A' <= c <= 'Z' then (c as int + 32) as char else c
  }

  /** `s.lower()` */
  function Lower(s: string): string {
    seq(|s|, i requires 0 <= i < |s| => LowerChar(s[i]))
  }

  /** `Lower` leaves white space where it was, so it commutes with `Strip`. */
  lemma LowerKeepsSpace(c: char)
    ensures IsSpace(LowerChar(c)) == IsSpace(c)
  {
  }

  predicate IsDigit(c: char) {
    '0' <= c <= '9'
  }

  /** `s.isdigit()` for a non-empty ASCII string */
  predicate AllDigits(s: string) {
    forall i :: 0 <= i < |s| ==> IsDigit(s[i])
  }

  function DigitValue(c: char): nat
    requires IsDigit(c)
  {
    c as int - '0' as int
  }

  function DigitChar(n: nat): (c: char)
    requires n < 10
    ensures IsDigit(c) && DigitValue(c) == n
  {
    ('0' as int + n) as char
  }

  /** The number a string of decimal digits spells (0 for the empty string). */
  function DigitsValue(s: string): nat
    requires AllDigits(s)
  {
    if s == [] then 0 else 10 * DigitsValue(s[..|s| - 1]) + DigitValue(s[|s| - 1])
  }

  /** `str(n)` for a non-negative `int` */
  function NatToString(n: nat): (r: string)
    ensures r != [] && AllDigits(r)
  {
    if n < 10 then [DigitChar(n)] else NatToString(n / 10) + [DigitChar(n % 10)]
  }

  /** Reading back the decimal rendering of `n` gives `n`. */
  lemma {:induction false} DigitsRoundTrip(n: nat)
    ensures DigitsValue(NatToString(n)) == n
  {
    if n >= 10 {
      var s := NatToString(n);
      assert s[..|s| - 1] == NatToString(n / 10);
      DigitsRoundTrip(n / 10);
    }
  }

  /** `str(i)` for any `int` */
  function IntToString(i: int): string {
    if i < 0 then "-" + NatToString(-i) else NatToString(i)
  }

  /** `s.replace(c, "", 1)`: the first occurrence of `c` removed. */
  function RemoveFirst(s: string, c: char): (r: string)
  {
    if s == [] then []
    else if s[0] == c then s[1..]
    else [s[0]] + RemoveFirst(s[1..], c)
  }

  /** Python's `a <= b` on `str`: lexicographic by code point, a proper prefix before its extensions. */
  predicate StrLe(a: string, b: string) {
    a == [] || (b != [] && (a[0] < b[0] || (a[0] == b[0] && StrLe(a[1..], b[1..]))))
  }

  /** Python's `a < b` on `str` */
  predicate StrLt(a: string, b: string) {
    !StrLe(b, a)
  }

  lemma {:induction false} StrLeTotal(a: string, b: string)
    ensures StrLe(a, b) || StrLe(b, a)
  {
    if a != [] && b != [] && a[0] == b[0] {
      StrLeTotal(a[1..], b[1..]);
    }
  }

  lemma {:induction false} StrLeTrans(a: string, b: string, c: string)
    requires StrLe(a, b) && StrLe(b, c)
    ensures StrLe(a, c)
  {
    if a != [] && a[0] == b[0] && b[0] == c[0] {
      StrLeTrans(a[1..], b[1..], c[1..]);
    }
  }

  lemma {:induction false} StrLeAntisym(a: string, b: string)
    requires StrLe(a, b) && StrLe(b, a)
    ensures a == b
  {
    if a != [] {
      StrLeAntisym(a[1..], b[1..]);
      assert a == [a[0]] + a[1..];
      assert b == [b[0]] + b[1..];
    }
  }

  lemma {:induction false} StrLeRefl(a: string)
    ensures StrLe(a, a)
  {
    if a != [] {
      StrLeRefl(a[1..]);
    }
  }

  /** Stripping a string that starts with a non-space character keeps that character in front. */
  lemma StripWord(s: string)
    requires s != [] && !IsSpace(s[0])
    ensures Strip(s) != [] && Strip(s)[0] == s[0]
  {
    assert TrimStart(s) == s;
  }

  /** `s.startswith(p)` */
  predicate StartsWith(s: string, p: string) {
    |p| <= |s| && s[..|p|] == p
  }

  /** A stripped string that is not empty begins and ends with a non-space character. */
  lemma StripEnds(s: string)
    ensures Strip(s) != [] ==> !IsSpace(Strip(s)[0]) && !IsSpace(Strip(s)[|Strip(s)| - 1])
  {
    var u := TrimStart(s);
    var r := TrimEnd(u);
    if r != [] {
      assert r[0] == u[0];
    }
  }

  /** A string holding a non-space character has a token. */
  lemma SplitNotEmpty(s: string, i: nat)
    requires i < |s| && !IsSpace(s[i])
    ensures Split(s) != []
  {
    assert TrimStart(s) != [];
  }

  /** A string holding a non-space character does not strip to nothing. */
  lemma StripNotEmpty(s: string, i: nat)
    requires i < |s| && !IsSpace(s[i])
    ensures Strip(s) != []
  {
    var u := TrimStart(s);
    assert u[i - (|s| - |u|)] == s[i];
  }

  /** A string already free of white space at both ends strips to itself. */
  lemma StripClean(s: string)
    requires s != [] && !IsSpace(s[0]) && !IsSpace(s[|s| - 1])
    ensures Strip(s) == s
  {
    assert TrimStart(s) == s;
  }

  /** Joined non-empty space-free tokens begin and end with a non-space character. */
  lemma {:induction false} JoinEnds(tokens: seq<string>)
    requires |tokens| >= 1
    requires forall t :: t in tokens ==> t != [] && NoSpace(t)
    ensures var s := Join(tokens); s != [] && !IsSpace(s[0]) && !IsSpace(s[|s| - 1])
  {
    assert tokens[0] in tokens;
    if |tokens| > 1 {
      assert forall t :: t in tokens[1..] ==> t in tokens;
      JoinEnds(tokens[1..]);
    }
  }

  /** Joining one more token appends a space and that token. */
  lemma {:induction false} JoinSnoc(tokens: seq<string>, t: string)
    requires |tokens| >= 1
    ensures Join(tokens + [t]) == Join(tokens) + " " + t
  {
    if |tokens| > 1 {
      assert (tokens + [t])[1..] == tokens[1..] + [t];
      JoinSnoc(tokens[1..], t);
    }
  }

  /** A word, then white space, then a last character that is not white space: at least two tokens. */
  lemma SplitAtLeastTwo(s: string, j: nat)
    requires s != [] && !IsSpace(s[0])
    requires j < |s| - 1 && IsSpace(s[j])
    requires !IsSpace(s[|s| - 1])
    ensures |Split(s)| >= 2
  {
    assert TrimStart(s) == s;
    var k := TokenEnd(s);
    assert k <= j;
    var rest := s[k..];
    assert rest[|rest| - 1] == s[|s| - 1];
    SplitNotEmpty(rest, |rest| - 1);
    assert Split(s) == [s[..k]] + Split(rest);
  }
}
