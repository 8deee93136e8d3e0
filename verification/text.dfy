/**
 * The handful of Python string operations the converter relies on:
 * `str.strip()`, `str.split()` with no separator, `' '.join(...)`,
 * `int(token)` and `str(n)` for integers.
 */
module Text {
  import opened Results

  /** The characters Python's `str.isspace()` accepts. */
  const SpaceChars: set<char> :=
    {' ', '\t', '\n', '\U{0B}', '\U{0C}', '\r', '\U{1C}', '\U{1D}', '\U{1E}', '\U{1F}', '\U{85}', '\U{A0}',
     '\U{1680}', '\U{2000}', '\U{2001}', '\U{2002}', '\U{2003}', '\U{2004}', '\U{2005}', '\U{2006}',
     '\U{2007}', '\U{2008}', '\U{2009}', '\U{200A}', '\U{2028}', '\U{2029}', '\U{202F}', '\U{205F}',
     '\U{3000}'}

  /** What `strip()` removes and `split()` separates on. */
  predicate IsSpace(c: char) {
    c in SpaceChars
  }

  /** A non-empty run of non-space characters: what `split()` can return as one field. */
  predicate IsToken(s: string) {
    |s| > 0 && forall i :: 0 <= i < |s| ==> !IsSpace(s[i])
  }

  predicate AllTokens(ts: seq<string>) {
    forall i :: 0 <= i < |ts| ==> IsToken(ts[i])
  }

  /** `lstrip()`: drop the leading whitespace and nothing else. */
  function DropLeading(s: string): (r: string)
    ensures |r| <= |s| && r == s[|s| - |r|..]
    ensures forall k :: 0 <= k < |s| - |r| ==> IsSpace(s[k])
    ensures r == [] || !IsSpace(r[0])
    decreases |s|
  {
    if s != [] && IsSpace(s[0]) then DropLeading(s[1..]) else s
  }

  /** `rstrip()`: drop the trailing whitespace and nothing else. */
  function DropTrailing(s: string): (r: string)
    ensures |r| <= |s| && r == s[..|r|]
    ensures forall k :: |r| <= k < |s| ==> IsSpace(s[k])
    ensures r == [] || !IsSpace(r[|r| - 1])
    decreases |s|
  {
    if s != [] && IsSpace(s[|s| - 1]) then DropTrailing(s[..|s| - 1]) else s
  }

  /** `strip()`. */
  function Strip(s: string): string {
    DropTrailing(DropLeading(s))
  }

  /** Stripping keeps a first character that is not whitespace. */
  lemma StripKeepsFirst(s: string)
    requires s != [] && !IsSpace(s[0])
    ensures Strip(s) != [] && Strip(s)[0] == s[0]
  {
    assert DropLeading(s) == s;
  }

  /** A token has nothing to strip. */
  lemma StripToken(t: string)
    requires IsToken(t)
    ensures Strip(t) == t
  {
    assert DropLeading(t) == t;
  }

  /** The maximal whitespace-free prefix of `s`. */
  function Word(s: string): (w: string)
    ensures |w| <= |s| && w == s[..|w|]
    ensures forall i :: 0 <= i < |w| ==> !IsSpace(w[i])
    ensures |w| == |s| || IsSpace(s[|w|])
    decreases |s|
  {
    if s == [] || IsSpace(s[0]) then [] else [s[0]] + Word(s[1..])
  }

  /** `split()` with no argument: the maximal whitespace-free runs of `s`, in order. */
  function Split(s: string): (ws: seq<string>)
    ensures AllTokens(ws)
    decreases |s|
  {
    if s == [] then []
    else if IsSpace(s[0]) then Split(s[1..])
    else
      var w := Word(s);
      [w] + Split(s[|w|..])
  }

  /** `' '.join(ts)`. */
  function Join(ts: seq<string>): string
    decreases |ts|
  {
    if |ts| == 0 then ""
    else if |ts| == 1 then ts[0]
    else ts[0] + " " + Join(ts[1..])
  }

  /** `x` and `y` with one space between them, as an f-string writes `f"{x} {y}"`. */
  function Spaced(x: string, y: string): string {
    x + " " + y
  }

  /** A whitespace character ends the word before it. */
  lemma {:induction false} WordStopsAtSpace(x: string, c: char, y: string)
    requires IsSpace(c)
    ensures Word(x + [c] + y) == Word(x)
    decreases |x|
  {
    var s := x + [c] + y;
    if x == [] {
      assert s[0] == c;
    } else if IsSpace(x[0]) {
      assert s[0] == x[0];
    } else {
      assert s[0] == x[0] && s[1..] == x[1..] + [c] + y;
      WordStopsAtSpace(x[1..], c, y);
    }
  }

  /** A whitespace character splits the text into two independently split halves. */
  lemma {:induction false} SplitAtSpace(x: string, c: char, y: string)
    requires IsSpace(c)
    ensures Split(x + [c] + y) == Split(x) + Split(y)
    decreases |x|
  {
    var s := x + [c] + y;
    if x == [] {
      assert s[0] == c && s[1..] == y;
    } else if IsSpace(x[0]) {
      assert s[0] == x[0] && s[1..] == x[1..] + [c] + y;
      SplitAtSpace(x[1..], c, y);
    } else {
      assert s[0] == x[0];
      WordStopsAtSpace(x, c, y);
      var w := Word(x);
      assert s[|w|..] == x[|w|..] + [c] + y;
      SplitAtSpace(x[|w|..], c, y);
    }
  }

  /** The fields of `f"{x} {y}"` are those of `x` followed by those of `y`. */
  lemma SplitSpaced(x: string, y: string)
    ensures Split(Spaced(x, y)) == Split(x) + Split(y)
  {
    assert Spaced(x, y) == x + [' '] + y;
    SplitAtSpace(x, ' ', y);
  }

  /** A trailing space adds no field. */
  lemma SplitTrailingSpace(x: string)
    ensures Split(x + " ") == Split(x)
  {
    SplitAtSpace(x, ' ', []);
    assert x + [' '] + [] == x + " ";
  }

  /** A token followed by a space is the first field. */
  lemma SplitFirst(a: string, y: string)
    requires IsToken(a)
    ensures Split(Spaced(a, y)) == [a] + Split(y)
  {
    SplitSpaced(a, y);
    SplitToken(a);
  }

  /** Three tokens, each followed by a space, are the first three fields. */
  lemma ThreeFirst(a: string, b: string, c: string, y: string)
    requires IsToken(a) && IsToken(b) && IsToken(c)
    ensures Split(Spaced(a, Spaced(b, Spaced(c, y)))) == [a] + ([b] + ([c] + Split(y)))
  {
    SplitFirst(a, Spaced(b, Spaced(c, y)));
    SplitFirst(b, Spaced(c, y));
    SplitFirst(c, y);
  }

  /** A single token splits into itself. */
  lemma SplitToken(t: string)
    requires IsToken(t)
    ensures Split(t) == [t]
  {
    assert Word(t) == t;
    assert t[|t|..] == [];
  }

  /** Splitting a space-joined list of tokens gives the list back. */
  lemma {:induction false} SplitJoin(ts: seq<string>)
    requires AllTokens(ts)
    ensures Split(Join(ts)) == ts
    decreases |ts|
  {
    if |ts| == 1 {
      SplitToken(ts[0]);
    } else if |ts| > 1 {
      SplitAtSpace(ts[0], ' ', Join(ts[1..]));
      assert ts[0] + " " + Join(ts[1..]) == ts[0] + [' '] + Join(ts[1..]);
      SplitToken(ts[0]);
      SplitJoin(ts[1..]);
    }
  }

  /** Leading whitespace does not change the fields. */
  lemma {:induction false} SplitDropLeading(s: string)
    ensures Split(DropLeading(s)) == Split(s)
    decreases |s|
  {
    if s != [] && IsSpace(s[0]) {
      SplitDropLeading(s[1..]);
    }
  }

  /** Trailing whitespace does not change the fields. */
  lemma {:induction false} SplitDropTrailing(s: string)
    ensures Split(DropTrailing(s)) == Split(s)
    decreases |s|
  {
    if s != [] && IsSpace(s[|s| - 1]) {
      var p := s[..|s| - 1];
      SplitAtSpace(p, s[|s| - 1], []);
      assert p + [s[|s| - 1]] + [] == s;
      SplitDropTrailing(p);
    }
  }

  /** `line.strip().split()` and `line.split()` give the same fields. */
  lemma SplitStrip(s: string)
    ensures Split(Strip(s)) == Split(s)
  {
    SplitDropTrailing(DropLeading(s));
    SplitDropLeading(s);
  }

  predicate IsDigit(c: char) {
    '0' <= c <= '9'
  }

  predicate IsDigits(s: string) {
    |s| > 0 && forall i :: 0 <= i < |s| ==> IsDigit(s[i])
  }

  /** The decimal value of a run of digits, most significant first. */
  function DigitsValue(s: string): nat
    requires forall i :: 0 <= i < |s| ==> IsDigit(s[i])
    decreases |s|
  {
    if s == [] then 0
    else
      assert IsDigit(s[|s| - 1]);
      DigitsValue(s[..|s| - 1]) * 10 + (s[|s| - 1] as int - '0' as int)
  }

  /** `int(token)` for a token without whitespace: an optional sign and decimal digits. */
  function ParseInt(s: string): Option<int> {
    if |s| > 0 && (s[0] == '+' || s[0] == '-') then
      if IsDigits(s[1..]) then
        var magnitude: int := DigitsValue(s[1..]);
        Some(if s[0] == '-' then -magnitude else magnitude)
      else None
    else if IsDigits(s) then Some(DigitsValue(s))
    else None
  }

  /** The decimal digits of `n` without leading zeros. */
  function ShowNat(n: nat): (s: string)
    ensures IsDigits(s)
    ensures DigitsValue(s) == n
    ensures s[0] == '0' ==> n == 0
    decreases n
  {
    var d := [(('0' as int) + n % 10) as char];
    if n < 10 then d
    else
      var s := ShowNat(n / 10) + d;
      assert s[..|s| - 1] == ShowNat(n / 10);
      s
  }

  /** A decimal digit is not whitespace. */
  lemma DigitNotSpace(c: char)
    requires IsDigit(c)
    ensures !IsSpace(c)
  {
  }

  /** `int()` reads the digits of `n` back as `n`. */
  lemma ParseShowNat(n: nat)
    ensures ParseInt(ShowNat(n)) == Some(n)
  {
    assert IsDigit(ShowNat(n)[0]);
  }

  /** `int()` reads a minus sign and the digits of `n` back as `-n`. */
  lemma ParseNegated(n: nat)
    ensures ParseInt("-" + ShowNat(n)) == Some(-(n as int))
  {
    var s := "-" + ShowNat(n);
    assert s[1..] == ShowNat(n);
  }

  /** `str(n)`: the text `int()` reads back as `n`, with no whitespace in it. */
  function ShowInt(n: int): (s: string)
    ensures ParseInt(s) == Some(n)
    ensures IsToken(s)
  {
    forall c | IsDigit(c)
      ensures !IsSpace(c)
    {
      DigitNotSpace(c);
    }
    if n < 0 then
      ParseNegated(-n);
      "-" + ShowNat(-n)
    else
      ParseShowNat(n);
      ShowNat(n)
  }

  /** `str(n)` of a single digit is that digit. */
  lemma ShowDigit(n: int)
    requires 0 <= n < 10
    ensures ShowInt(n) == [(('0' as int) + n) as char]
  {
  }
}
