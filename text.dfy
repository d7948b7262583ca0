/**
 * The small part of Python's `str` behaviour that the three scripts rely on:
 * `isspace`, `strip`/`lstrip` with and without a character set, `split` on one
 * separator, `in` on strings, `startswith`, `lower` (as far as it can matter
 * for ASCII extension tables) and the decimal rendering of a non-negative int.
 */
module Text {

  /** The characters for which Python's `str.isspace()` is true; `str.strip()`
      without arguments removes exactly these. */
  predicate IsSpace(c: char) {
    c in {'\t', '\n', '\U{0B}', '\U{0C}', '\r', '\U{1C}', '\U{1D}', '\U{1E}', '\U{1F}', ' ',
     '\U{85}', '\U{A0}', '\U{1680}', '\U{2000}', '\U{2001}', '\U{2002}', '\U{2003}',
     '\U{2004}', '\U{2005}', '\U{2006}', '\U{2007}', '\U{2008}', '\U{2009}', '\U{200A}',
     '\U{2028}', '\U{2029}', '\U{202F}', '\U{205F}', '\U{3000}'}
  }

  /** The same characters as a set, for the strip functions. */
  const Whitespace: set<char> := set c: char | IsSpace(c)

  /** `not s.strip()`: the string holds only whitespace (or nothing). */
  predicate IsBlank(s: string) {
    forall i :: 0 <= i < |s| ==> s[i] in Whitespace
  }

  predicate StartsWith(s: string, prefix: string) {
    |prefix| <= |s| && s[..|prefix|] == prefix
  }

  /** `s.lstrip(chars)`: drop the longest prefix made of characters in `chars`. */
  function LStrip(s: string, chars: set<char>): (r: string)
    ensures |r| <= |s| && r == s[|s| - |r|..]
    ensures forall i :: 0 <= i < |s| - |r| ==> s[i] in chars
    ensures r == [] || r[0] !in chars
  {
    if |s| > 0 && s[0] in chars then
      var r := LStrip(s[1..], chars);
      assert forall i :: 1 <= i < |s| - |r| ==> s[i] == s[1..][i - 1];
      r
    else
      s
  }

  /** `s.rstrip(chars)`: drop the longest suffix made of characters in `chars`. */
  function RStrip(s: string, chars: set<char>): (r: string)
    ensures |r| <= |s| && r == s[..|r|]
    ensures forall i :: |r| <= i < |s| ==> s[i] in chars
    ensures r == [] || r[|r| - 1] !in chars
  {
    if |s| > 0 && s[|s| - 1] in chars then RStrip(s[..|s| - 1], chars) else s
  }

  /** Neither end of `s` is a character of `chars`. */
  predicate Stripped(s: string, chars: set<char>) {
    s == [] || (s[0] !in chars && s[|s| - 1] !in chars)
  }

  /** `s.strip(chars)`; `Strip(s, Whitespace)` is `s.strip()`. */
  function Strip(s: string, chars: set<char>): (r: string)
    ensures Stripped(r, chars)
    ensures Stripped(s, chars) ==> r == s
    ensures r == [] <==> forall i :: 0 <= i < |s| ==> s[i] in chars
  {
    var l := LStrip(s, chars);
    var r := RStrip(l, chars);
    assert r != [] ==> r[0] == l[0];
    StripEmptyIffAllStripped(s, chars, l, r);
    r
  }

  lemma {:induction false} StripEmptyIffAllStripped(s: string, chars: set<char>, l: string, r: string)
    requires l == LStrip(s, chars) && r == RStrip(l, chars)
    ensures r == [] <==> forall i :: 0 <= i < |s| ==> s[i] in chars
  {
    var off := |s| - |l|;
    assert l != [] ==> l[0] == s[off];
    assert forall i :: off <= i < |s| ==> s[i] == l[i - off];
  }

  /** Stripping `x + " " + y` when both sides are already stripped only ever
      removes the joining blank, and only when `x` is empty. */
  lemma {:induction false} StripJoinedWithBlank(x: string, y: string)
    requires Stripped(x, Whitespace) && Stripped(y, Whitespace) && y != []
    ensures Strip(x + " " + y, Whitespace) == if x == [] then y else x + " " + y
  {
    if x == [] {
      var s := x + " " + y;
      assert s[1..] == y;
      assert LStrip(s, Whitespace) == LStrip(y, Whitespace);
      assert LStrip(y, Whitespace) == y;
    } else {
      var s := x + " " + y;
      assert s[0] == x[0] && s[|s| - 1] == y[|y| - 1];
    }
  }

  predicate NoSeparator(parts: seq<string>, sep: char) {
    forall k :: 0 <= k < |parts| ==> sep !in parts[k]
  }

  /** `sep.join(parts)` for a one-character separator. */
  function Join(parts: seq<string>, sep: char): string
    requires |parts| >= 1
  {
    if |parts| == 1 then parts[0] else parts[0] + [sep] + Join(parts[1..], sep)
  }

  /** `s.split(sep)` for a one-character separator: Python never returns an
      empty list here, the parts hold no separator, and joining them back
      with the separator gives `s` again. */
  function Split(s: string, sep: char): (parts: seq<string>)
    ensures |parts| >= 1
    ensures NoSeparator(parts, sep)
    ensures Join(parts, sep) == s
  {
    if |s| == 0 then
      [""]
    else
      var rest := Split(s[1..], sep);
      if s[0] == sep then
        assert Join([""] + rest, sep) == "" + [sep] + Join(rest, sep);
        [""] + rest
      else
        var parts := [[s[0]] + rest[0]] + rest[1..];
        assert parts[1..] == rest[1..];
        assert sep !in parts[0];
        parts
  }

  /** Python's `t in s` for strings. */
  function Contains(s: string, t: string): bool
    decreases |s|
  {
    if |s| < |t| then false else s[..|t|] == t || Contains(s[1..], t)
  }

  predicate OccursAt(s: string, t: string, i: int) {
    0 <= i <= |s| - |t| && s[i..i + |t|] == t
  }

  /** `t in s` holds exactly when `t` occurs at some position of `s`. */
  lemma {:induction false} ContainsIffOccurs(s: string, t: string)
    ensures Contains(s, t) <==> exists i :: OccursAt(s, t, i)
    decreases |s|
  {
    if |s| >= |t| && s[..|t|] != t {
      ContainsIffOccurs(s[1..], t);
      if Contains(s[1..], t) {
        var i :| OccursAt(s[1..], t, i);
        assert s[i + 1..i + 1 + |t|] == s[1..][i..i + |t|];
        assert OccursAt(s, t, i + 1);
      }
      if i :| OccursAt(s, t, i) {
        assert i != 0;
        assert s[1..][i - 1..i - 1 + |t|] == s[i..i + |t|];
        assert OccursAt(s[1..], t, i - 1);
      }
    } else if |s| >= |t| {
      assert OccursAt(s, t, 0);
    }
  }

  /** Concatenation regroups freely; shared by the proofs that rebuild an
      output one piece at a time. */
  lemma {:induction false} AppendAssociative<T>(a: seq<T>, b: seq<T>, c: seq<T>)
    ensures a + b + c == a + (b + c)
  {
  }

  /** `t in s` whenever `s` is built around `t`. */
  lemma {:induction false} ContainsInside(a: string, t: string, b: string)
    ensures Contains(a + t + b, t)
  {
    var s := a + t + b;
    assert s[|a|..|a| + |t|] == t;
    assert OccursAt(s, t, |a|);
    ContainsIffOccurs(s, t);
  }

  /** What `str.lower()` does to one character, as far as it matters for
      matching against ASCII text: ASCII capitals and the Kelvin sign U+212A
      (Python lowers it to 'k') become lower-case ASCII letters; every other
      character that Python would change lowers to text that holds a
      non-ASCII character, and is kept as it is here. */
  function LowerChar(c: char): (d: char)
    ensures 'A' <= c <= 'Z' ==> 'a' <= d <= 'z'
    ensures !('A' <= c <= 'Z') && c != '\U{212A}' ==> d == c
  {
    if 'A' <= c <= 'Z' then (c as int + 32) as char
    else if c == '\U{212A}' then 'k'
    else c
  }

  function Lower(s: string): (r: string)
    ensures |r| == |s| && forall i :: 0 <= i < |s| ==> r[i] == LowerChar(s[i])
  {
    seq(|s|, i requires 0 <= i < |s| => LowerChar(s[i]))
  }

  predicate IsDigit(c: char) {
    '0' <= c <= '9'
  }

  predicate AllDigits(s: string) {
    forall i :: 0 <= i < |s| ==> IsDigit(s[i])
  }

  function DigitChar(d: nat): (c: char)
    requires d < 10
    ensures IsDigit(c) && c as int - '0' as int == d
  {
    ('0' as int + d) as char
  }

  /** The value of a string of decimal digits (leading zeros allowed). */
  function DecimalValue(s: string): nat
    requires AllDigits(s)
  {
    if s == [] then 0 else 10 * DecimalValue(s[..|s| - 1]) + (s[|s| - 1] as int - '0' as int)
  }

  /** `str(n)` for a non-negative int: digits only, no leading zero, and it
      reads back as `n`. */
  function Decimal(n: nat): (r: string)
    ensures |r| >= 1 && AllDigits(r)
    ensures |r| == 1 || r[0] != '0'
    ensures DecimalValue(r) == n
  {
    if n < 10 then
      [DigitChar(n)]
    else
      var prefix := Decimal(n / 10);
      var r := prefix + [DigitChar(n % 10)];
      assert r[..|r| - 1] == prefix;
      r
  }

  /** Numbers below 1000 have at most three digits. */
  lemma {:induction false} FewDigits(n: nat)
    ensures n < 1000 ==> |Decimal(n)| <= 3
    ensures n < 100 ==> |Decimal(n)| <= 2
    ensures n < 10 ==> |Decimal(n)| == 1
  {
    if n >= 10 {
      FewDigits(n / 10);
    }
  }

  function Repeat(c: char, k: nat): (r: string)
    ensures |r| == k && forall i :: 0 <= i < k ==> r[i] == c
  {
    if k == 0 then [] else [c] + Repeat(c, k - 1)
  }

  /** Leading zeros do not change the value of a digit string. */
  lemma {:induction false} LeadingZerosNeutral(k: nat, s: string)
    requires AllDigits(s)
    ensures AllDigits(Repeat('0', k) + s)
    ensures DecimalValue(Repeat('0', k) + s) == DecimalValue(s)
    decreases |s|
  {
    var t := Repeat('0', k) + s;
    if s == [] {
      assert t == Repeat('0', k);
      ZerosHaveNoValue(k);
    } else {
      assert t[..|t| - 1] == Repeat('0', k) + s[..|s| - 1];
      LeadingZerosNeutral(k, s[..|s| - 1]);
    }
  }

  lemma {:induction false} ZerosHaveNoValue(k: nat)
    ensures DecimalValue(Repeat('0', k)) == 0
  {
    if k > 0 {
      var z := Repeat('0', k);
      assert z[..k - 1] == Repeat('0', k - 1);
      ZerosHaveNoValue(k - 1);
    }
  }

  /** Python's `f"{n:0{width}d}"` for a non-negative `n`. */
  function ZeroPadded(n: nat, width: nat): (r: string)
    ensures AllDigits(r) && |r| == if |Decimal(n)| < width then width else |Decimal(n)|
    ensures DecimalValue(r) == n
  {
    var d := Decimal(n);
    var pad := if |d| < width then width - |d| else 0;
    LeadingZerosNeutral(pad, d);
    Repeat('0', pad) + d
  }

  /** Python's `f"{n:0{width}d}"` for any int: a negative number keeps its
      sign in front, and the sign counts towards the width. */
  function ZeroPaddedInt(n: int, width: nat): (r: string)
    ensures r != [] && '/' !in r
    ensures n >= 0 ==> AllDigits(r) && DecimalValue(r) == n
    ensures n >= 0 ==> |r| == if |Decimal(n)| < width then width else |Decimal(n)|
    ensures n < 0 ==> r[0] == '-' && AllDigits(r[1..]) && DecimalValue(r[1..]) == -n
    ensures n < 0 ==> |r| == if |Decimal(-n)| + 1 < width then width else |Decimal(-n)| + 1
  {
    if n >= 0 then
      var r := ZeroPadded(n, width);
      assert forall i :: 0 <= i < |r| ==> r[i] != '/';
      r
    else
      var d := ZeroPadded(-n, if width > 0 then width - 1 else 0);
      var r := "-" + d;
      assert r[1..] == d;
      assert forall i :: 0 <= i < |r| ==> r[i] != '/';
      r
  }

  /** Distinct numbers are formatted differently. */
  lemma {:induction false} ZeroPaddedIntInjective(a: int, b: int, width: nat)
    ensures ZeroPaddedInt(a, width) == ZeroPaddedInt(b, width) ==> a == b
  {
    var ra, rb := ZeroPaddedInt(a, width), ZeroPaddedInt(b, width);
    assert (a >= 0) == (ra[0] != '-');
    assert (b >= 0) == (rb[0] != '-');
  }

  /** A common prefix can be cancelled. */
  lemma {:induction false} CancelPrefix(h: string, u: string, v: string)
    ensures h + u == h + v <==> u == v
  {
    if h + u == h + v {
      assert u == (h + u)[|h|..] && v == (h + v)[|h|..];
    }
  }

  /** A common suffix can be cancelled. */
  lemma {:induction false} CancelSuffix(u: string, v: string, t: string)
    ensures u + t == v + t <==> u == v
  {
    if u + t == v + t {
      assert u == (u + t)[..|u|] && v == (v + t)[..|v|];
    }
  }

  /** `Path(p).name` for a file path: the longest suffix without '/', that
      is, all of the path after its last '/' (or all of it if it has none). */
  function BaseName(path: string): (name: string)
    ensures |name| <= |path| && name == path[|path| - |name|..]
    ensures '/' !in name
    ensures |name| == |path| || path[|path| - |name| - 1] == '/'
  {
    if path == [] || path[|path| - 1] == '/' then []
    else BaseName(path[..|path| - 1]) + [path[|path| - 1]]
  }

  /** A path without '/' is its own base name. */
  lemma {:induction false} BaseNameOfPlainName(p: string)
    ensures '/' !in p ==> BaseName(p) == p
    decreases |p|
  {
    if p != [] && '/' !in p {
      var n := |p| - 1;
      assert p[n] in p;
      assert forall c :: c in p[..n] ==> c in p;
      BaseNameOfPlainName(p[..n]);
      assert p[..n] + [p[n]] == p;
    }
  }

  /** The base name holds no character the path does not. */
  lemma {:induction false} BaseNameChars(p: string)
    ensures forall c :: c in BaseName(p) ==> c in p
    decreases |p|
  {
    if p != [] && p[|p| - 1] != '/' {
      var pre := p[..|p| - 1];
      BaseNameChars(pre);
      assert forall c :: c in pre ==> c in p;
      assert p[|p| - 1] in p;
    }
  }
}
