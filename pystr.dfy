/**
 * The parts of Python's `str` and `int` that the name, record and route code
 * relies on: `lower`, `isspace`, `strip`, `split`, `join`, `startswith`,
 * `replace`, `str(int)`, `int(str)`, string ordering and `sorted(set(...))`.
 * Case mapping covers ASCII letters only; whitespace is Python's full set of
 * whitespace code points.
 */
module PyStr {

  import opened Wrappers

  // ---------------------------------------------------------------------
  // Characters

  /** The characters `str.isspace`, `str.split()` and `str.strip()` treat as whitespace. */
  predicate IsSpace(c: char) {
    ('\t' <= c <= '\r') || ('\U{001C}' <= c <= ' ') || c == '\U{0085}' || c == '\U{00A0}' ||
    c == '\U{1680}' || ('\U{2000}' <= c <= '\U{200A}') || c == '\U{2028}' || c == '\U{2029}' ||
    c == '\U{202F}' || c == '\U{205F}' || c == '\U{3000}'
  }

  /** `str.isprintable` on the characters up to U+00FF; every later character counts as printable. */
  predicate IsPrintable(c: char) {
    (' ' <= c <= '~') || (c > '\U{00A0}' && c != '\U{00AD}')
  }

  /** An ASCII decimal digit; `str.isdigit` and `int()` also accept other Unicode digits. */
  predicate IsDigit(c: char) {
    '0' <= c <= '9'
  }

  /** `str.lower` on one character (ASCII letters only). */
  function Lower(c: char): (r: char)
    ensures IsDigit(c) ==> r == c
    ensures IsSpace(c) ==> r == c
  {
    if 'A' <= c <= 'Z' then (c as int + 32) as char else c
  }

  /** `str.lower`. */
  function LowerStr(s: string): (r: string)
    ensures |r| == |s|
    ensures forall i :: 0 <= i < |s| ==> r[i] == Lower(s[i])
  {
    seq(|s|, i requires 0 <= i < |s| => Lower(s[i]))
  }

  predicate IsLowered(s: string) {
    forall i :: 0 <= i < |s| ==> Lower(s[i]) == s[i]
  }

  lemma LowerStrOfLowered(s: string)
    requires IsLowered(s)
    ensures LowerStr(s) == s
  {
  }

  lemma LowerIdempotent(s: string)
    ensures IsLowered(LowerStr(s))
  {
  }

  // ---------------------------------------------------------------------
  // Stripping and splitting on whitespace

  /** Length of the leading run of whitespace. */
  function SpanSpace(s: string): (n: nat)
    ensures n <= |s|
    ensures forall i :: 0 <= i < n ==> IsSpace(s[i])
    ensures n < |s| ==> !IsSpace(s[n])
  {
    if s == [] || !IsSpace(s[0]) then 0 else 1 + SpanSpace(s[1..])
  }

  /** Length of the leading run of non-whitespace. */
  function SpanNonSpace(s: string): (n: nat)
    ensures n <= |s|
    ensures forall i :: 0 <= i < n ==> !IsSpace(s[i])
    ensures n < |s| ==> IsSpace(s[n])
  {
    if s == [] || IsSpace(s[0]) then 0 else 1 + SpanNonSpace(s[1..])
  }

  /** Length of the trailing run of whitespace. */
  function TrailingSpace(s: string): (n: nat)
    ensures n <= |s|
    ensures forall i :: |s| - n <= i < |s| ==> IsSpace(s[i])
    ensures n < |s| ==> !IsSpace(s[|s| - n - 1])
  {
    if s == [] || !IsSpace(s[|s| - 1]) then 0 else 1 + TrailingSpace(s[..|s| - 1])
  }

  /** `str.strip()`. */
  function Strip(s: string): (r: string)
    ensures r == [] || (!IsSpace(r[0]) && !IsSpace(r[|r| - 1]))
  {
    var t := s[SpanSpace(s)..];
    t[..|t| - TrailingSpace(t)]
  }

  /** A string with no whitespace at either end is its own strip. */
  lemma StripOfStripped(s: string)
    requires s == [] || (!IsSpace(s[0]) && !IsSpace(s[|s| - 1]))
    ensures Strip(s) == s
  {
  }

  lemma StripIdempotent(s: string)
    ensures Strip(Strip(s)) == Strip(s)
  {
    StripOfStripped(Strip(s));
  }

  predicate NoSpace(s: string) {
    forall i :: 0 <= i < |s| ==> !IsSpace(s[i])
  }

  /** `str.split()`: the maximal runs of non-whitespace, in order. */
  function SplitWs(s: string): (r: seq<string>)
    ensures forall i :: 0 <= i < |r| ==> r[i] != [] && NoSpace(r[i])
    decreases |s|
  {
    var t := s[SpanSpace(s)..];
    if t == [] then []
    else
      var n := SpanNonSpace(t);
      [t[..n]] + SplitWs(t[n..])
  }

  /**
   * `str.split(maxsplit=1)`: the first run of non-whitespace and, when
   * anything but whitespace follows it, the rest of the string from its next
   * non-whitespace character on (trailing whitespace kept).
   */
  function SplitWsOnce(s: string): (r: seq<string>)
    ensures |r| <= 2
    ensures |r| >= 1 ==> r[0] != [] && NoSpace(r[0])
    ensures |r| == 2 ==> r[1] != [] && !IsSpace(r[1][0])
    ensures r == [] <==> NoneButSpace(s)
  {
    var t := s[SpanSpace(s)..];
    if t == [] then []
    else
      var n := SpanNonSpace(t);
      var rest := t[n..];
      var r := rest[SpanSpace(rest)..];
      if r == [] then [t[..n]] else [t[..n], r]
  }

  predicate NoneButSpace(s: string) {
    forall i :: 0 <= i < |s| ==> IsSpace(s[i])
  }

  lemma {:induction false} SpanSpaceConcat(w: string, y: string)
    requires NoneButSpace(w)
    requires y == [] || !IsSpace(y[0])
    ensures SpanSpace(w + y) == |w|
  {
    if w != [] {
      assert (w + y)[1..] == w[1..] + y;
      SpanSpaceConcat(w[1..], y);
    } else {
      assert w + y == y;
    }
  }

  lemma {:induction false} SpanNonSpaceConcat(f: string, y: string)
    requires NoSpace(f)
    requires y == [] || IsSpace(y[0])
    ensures SpanNonSpace(f + y) == |f|
  {
    if f != [] {
      assert (f + y)[1..] == f[1..] + y;
      SpanNonSpaceConcat(f[1..], y);
    } else {
      assert f + y == y;
    }
  }

  /** `(" " + g + tail).split(maxsplit=1)` for a token `g` and a tail that is empty or a space and more text. */
  lemma SplitWsOnceOfToken(g: string, tail: string)
    requires g != [] && NoSpace(g)
    requires tail == [] || (|tail| >= 2 && tail[0] == ' ' && !IsSpace(tail[1]))
    ensures SplitWsOnce(" " + g + tail) == if tail == [] then [g] else [g, tail[1..]]
  {
    var s := " " + g + tail;
    SpanSpaceConcat(" ", g + tail);
    assert s == " " + (g + tail);
    var t := s[1..];
    assert t == g + tail;
    SpanNonSpaceConcat(g, tail);
    assert t[..|g|] == g;
    assert t[|g|..] == tail;
    if tail != [] {
      SpanSpaceConcat(" ", tail[1..]);
      assert tail == " " + tail[1..];
    }
  }

  /**
   * `t` cut as `split(maxsplit=1)` sees it: leading whitespace `w1`, the
   * first token `g`, the whitespace `w2` after it and the rest `m`, which is
   * empty or starts with a non-space.  An empty `g` means `t` is all
   * whitespace.
   */
  predicate WsSplit(t: string, w1: string, g: string, w2: string, m: string) {
    t == w1 + g + w2 + m && NoneButSpace(w1) && NoSpace(g) && NoneButSpace(w2) &&
    (m == [] || !IsSpace(m[0])) &&
    (m != [] ==> g != [] && w2 != []) &&
    (g == [] ==> w2 == [] && m == [])
  }

  /** Every string has such a cut, and `SplitWsOnce` returns its token and its rest. */
  lemma WsSplitOf(t: string) returns (w1: string, g: string, w2: string, m: string)
    ensures WsSplit(t, w1, g, w2, m)
    ensures SplitWsOnce(t) == if g == [] then [] else if m == [] then [g] else [g, m]
  {
    var u;
    w1, u := SpaceRun(t);
    if u == [] {
      w1, g, w2, m := t, [], [], [];
      return;
    }
    var rest;
    g, rest := TokenRun(u);
    w2, m := SpaceRun(rest);
    assert rest != [] ==> IsSpace(rest[0]) && w2 != [];
    Concat4(w1, g, w2, m);
  }

  /** `s` cut after its leading whitespace. */
  lemma SpaceRun(s: string) returns (w: string, y: string)
    ensures w == s[..SpanSpace(s)] && y == s[SpanSpace(s)..]
    ensures s == w + y && NoneButSpace(w) && (y == [] || !IsSpace(y[0]))
  {
    w, y := s[..SpanSpace(s)], s[SpanSpace(s)..];
    assert forall j :: 0 <= j < |w| ==> w[j] == s[j];
  }

  /** `s` cut after its leading non-whitespace. */
  lemma TokenRun(s: string) returns (g: string, y: string)
    ensures g == s[..SpanNonSpace(s)] && y == s[SpanNonSpace(s)..]
    ensures s == g + y && NoSpace(g) && (y == [] || IsSpace(y[0]))
    ensures s != [] && !IsSpace(s[0]) ==> g != []
  {
    g, y := s[..SpanNonSpace(s)], s[SpanNonSpace(s)..];
    assert forall j :: 0 <= j < |g| ==> g[j] == s[j];
  }

  lemma Concat4(a: string, b: string, c: string, d: string)
    ensures a + (b + (c + d)) == a + b + c + d
  {
  }

  /** Conversely, any such cut with a token is the one `SplitWsOnce` makes. */
  lemma SplitWsOnceOf(w1: string, g: string, w2: string, m: string)
    requires WsSplit(w1 + g + w2 + m, w1, g, w2, m) && g != []
    ensures SplitWsOnce(w1 + g + w2 + m) == if m == [] then [g] else [g, m]
  {
    var s := w1 + g + w2 + m;
    assert s == w1 + (g + w2 + m);
    SpanSpaceConcat(w1, g + w2 + m);
    var t := s[|w1|..];
    assert t == g + (w2 + m);
    SpanNonSpaceConcat(g, w2 + m);
    assert t[..|g|] == g;
    assert t[|g|..] == w2 + m;
    SpanSpaceConcat(w2, m);
    assert (w2 + m)[|w2|..] == m;
  }

  lemma LowerStrConcat(a: string, b: string)
    ensures LowerStr(a + b) == LowerStr(a) + LowerStr(b)
  {
  }

  // ---------------------------------------------------------------------
  // Splitting on a separator and joining

  /** Index of the first occurrence of `c`. */
  function IndexOf(s: string, c: char): (r: Option<nat>)
    ensures r.Some? ==> r.value < |s| && s[r.value] == c && c !in s[..r.value]
    ensures r.None? ==> c !in s
  {
    if s == [] then None
    else if s[0] == c then Some(0)
    else match IndexOf(s[1..], c)
      case None => None
      case Some(i) => assert s[..i + 1] == [s[0]] + s[1..][..i]; Some(i + 1)
  }

  /** `str.split(c, maxsplit=1)`. */
  function SplitOnce(s: string, c: char): (r: seq<string>)
    ensures 1 <= |r| <= 2
    ensures c !in r[0]
    ensures |r| == 1 <==> c !in s
    ensures |r| == 1 ==> r[0] == s
    ensures |r| == 2 ==> s == r[0] + [c] + r[1]
  {
    match IndexOf(s, c)
    case None => [s]
    case Some(i) => assert s == s[..i] + [c] + s[i + 1..]; [s[..i], s[i + 1..]]
  }

  /** `str.split(c)`. */
  function Split(s: string, c: char): (r: seq<string>)
    ensures |r| >= 1
    ensures forall i :: 0 <= i < |r| ==> c !in r[i]
    decreases |s|
  {
    match IndexOf(s, c)
    case None => [s]
    case Some(i) => [s[..i]] + Split(s[i + 1..], c)
  }

  /** `sep.join(xs)`. */
  function Join(xs: seq<string>, sep: string): string {
    if xs == [] then ""
    else if |xs| == 1 then xs[0]
    else xs[0] + sep + Join(xs[1..], sep)
  }

  lemma {:induction false} SplitJoin(xs: seq<string>, c: char)
    requires xs != []
    requires forall i :: 0 <= i < |xs| ==> c !in xs[i]
    ensures Split(Join(xs, [c]), c) == xs
  {
    if |xs| == 1 {
      assert IndexOf(xs[0], c) == None;
    } else {
      var j := Join(xs[1..], [c]);
      var s := xs[0] + [c] + j;
      assert Join(xs, [c]) == s;
      IndexAfterFreePrefix(xs[0], c, j);
      assert s[|xs[0]| + 1..] == j;
      assert s[..|xs[0]|] == xs[0];
      SplitJoin(xs[1..], c);
    }
  }

  lemma {:induction false} IndexAfterFreePrefix(p: string, c: char, rest: string)
    requires c !in p
    ensures IndexOf(p + [c] + rest, c) == Some(|p|)
  {
    if p != [] {
      assert (p + [c] + rest)[1..] == p[1..] + [c] + rest;
      IndexAfterFreePrefix(p[1..], c, rest);
    }
  }

  /** `(p + c + rest).split(c, maxsplit=1)` when `p` holds no `c`. */
  lemma SplitOnceAt(p: string, c: char, rest: string)
    requires c !in p
    ensures SplitOnce(p + [c] + rest, c) == [p, rest]
  {
    IndexAfterFreePrefix(p, c, rest);
    var s := p + [c] + rest;
    assert s[..|p|] == p && s[|p| + 1..] == rest;
  }

  lemma {:induction false} JoinFree(xs: seq<string>, c: char, d: char)
    requires forall i :: 0 <= i < |xs| ==> d !in xs[i]
    requires c != d
    ensures d !in Join(xs, [c])
  {
    if |xs| > 1 {
      JoinFree(xs[1..], c, d);
    }
  }

  // ---------------------------------------------------------------------
  // Substrings

  predicate StartsWith(s: string, p: string) {
    |p| <= |s| && s[..|p|] == p
  }

  /** `s.replace(pat, rep)`: every non-overlapping occurrence, left to right. */
  function Replace(s: string, pat: string, rep: string): (r: string)
    requires pat != []
    decreases |s|
  {
    if |s| < |pat| then s
    else if s[..|pat|] == pat then rep + Replace(s[|pat|..], pat, rep)
    else [s[0]] + Replace(s[1..], pat, rep)
  }

  lemma {:induction false} ReplaceRemoves(s: string, pat: string, rep: string)
    requires pat != [] && |rep| < |pat|
    ensures |Replace(s, pat, rep)| <= |s|
    decreases |s|
  {
    if |s| >= |pat| {
      if s[..|pat|] == pat {
        ReplaceRemoves(s[|pat|..], pat, rep);
      } else {
        ReplaceRemoves(s[1..], pat, rep);
      }
    }
  }

  /** `s.replace(c, '')` for a single character. */
  function RemoveChar(s: string, c: char): (r: string)
    ensures c !in r
    ensures forall x :: x in r ==> x in s
  {
    if s == [] then [] else (if s[0] == c then [] else [s[0]]) + RemoveChar(s[1..], c)
  }

  // ---------------------------------------------------------------------
  // Integers

  function DigitChar(d: nat): (c: char)
    requires d < 10
    ensures IsDigit(c)
  {
    ('0' as int + d) as char
  }

  function DigitValue(c: char): (d: nat)
    requires IsDigit(c)
    ensures d < 10
  {
    c as int - '0' as int
  }

  /** `str(n)` for a natural number: its decimal digits, no leading zero. */
  function NatToString(n: nat): (s: string)
    ensures s != []
    ensures forall i :: 0 <= i < |s| ==> IsDigit(s[i])
    decreases n
  {
    if n < 10 then [DigitChar(n)] else NatToString(n / 10) + [DigitChar(n % 10)]
  }

  /** `str(n)`. */
  function IntToString(n: int): (s: string)
    ensures s != []
    ensures ',' !in s
  {
    if n < 0 then "-" + NatToString(-n) else NatToString(n)
  }

  /**
   * The digits of a Python integer literal as `int()` accepts them: digits,
   * with single underscores allowed between two digits.
   */
  predicate DigitGroups(d: string) {
    d != [] && IsDigit(d[0]) && forall i :: 0 <= i < |d| ==> GroupChar(d, i)
  }

  /** Position `i` holds a digit, or an underscore followed by a digit. */
  predicate GroupChar(d: string, i: nat)
    requires i < |d|
  {
    IsDigit(d[i]) || (d[i] == '_' && i + 1 < |d| && IsDigit(d[i + 1]))
  }

  lemma DigitGroupsChars(d: string)
    requires DigitGroups(d)
    ensures forall i :: 0 <= i < |d| ==> IsDigit(d[i]) || d[i] == '_'
  {
    forall i | 0 <= i < |d| ensures IsDigit(d[i]) || d[i] == '_' {
      assert GroupChar(d, i);
    }
  }

  /** The decimal value of the digits, with the underscores (anything not a digit) skipped. */
  function GroupsValue(d: string): nat
  {
    if d == [] then 0
    else if !IsDigit(d[|d| - 1]) then GroupsValue(d[..|d| - 1])
    else GroupsValue(d[..|d| - 1]) * 10 + DigitValue(d[|d| - 1])
  }

  /**
   * `int(s)` for base-10 text: surrounding whitespace, an optional sign, digit groups; `None`
   * where Python raises `ValueError`, and also for decimal digits outside ASCII, which Python
   * accepts.
   */
  function ParseInt(s: string): (r: Option<int>)
    ensures r.Some? ==> Strip(s) != []
  {
    var t := Strip(s);
    if t == [] then None else ParseSigned(t)
  }

  /** `int()` of stripped, non-empty text: an optional sign, then digit groups. */
  function ParseSigned(t: string): Option<int>
    requires t != []
  {
    var neg := t[0] == '-';
    var d := if t[0] == '-' || t[0] == '+' then t[1..] else t;
    if !DigitGroups(d) then None
    else
      var v: int := GroupsValue(d);
      Some(if neg then -v else v)
  }

  predicate IsInt(s: string) {
    ParseInt(s).Some?
  }

  lemma {:induction false} NatToStringValue(n: nat)
    ensures GroupsValue(NatToString(n)) == n
    decreases n
  {
    if n >= 10 {
      var s := NatToString(n);
      assert s[..|s| - 1] == NatToString(n / 10);
      NatToStringValue(n / 10);
    }
  }

  /** `int(str(n)) == n`. */
  lemma IntToStringRoundTrip(n: int)
    ensures ParseInt(IntToString(n)) == Some(n)
  {
    if n < 0 {
      ParseNegative(n);
    } else {
      ParseNatural(n);
    }
  }

  lemma ParseNatural(n: int)
    requires n >= 0
    ensures ParseInt(IntToString(n)) == Some(n)
  {
    var d := NatToString(n);
    assert IntToString(n) == d;
    AllDigitsGroups(d);
    StripOfStripped(d);
    NatToStringValue(n);
  }

  lemma ParseNegative(n: int)
    requires n < 0
    ensures ParseInt(IntToString(n)) == Some(n)
  {
    var m: nat := -n;
    var d := NatToString(m);
    assert IntToString(n) == "-" + d;
    NatToStringValue(m);
    AllDigitsGroups(d);
    ParseMinusGroups(d);
  }

  /** A minus sign before digit groups parses to minus their value. */
  lemma ParseMinusGroups(d: string)
    requires DigitGroups(d)
    ensures ParseInt("-" + d) == Some(-(GroupsValue(d) as int))
  {
    var s := "-" + d;
    LastGroupDigit(d);
    assert s[|s| - 1] == d[|d| - 1];
    StripOfStripped(s);
    assert s[1..] == d;
    ParseMinus(s);
  }

  /** Digit groups end in a digit. */
  lemma LastGroupDigit(d: string)
    requires DigitGroups(d)
    ensures IsDigit(d[|d| - 1])
  {
    assert GroupChar(d, |d| - 1);
  }

  lemma ParseMinus(t: string)
    requires t != [] && t[0] == '-' && DigitGroups(t[1..])
    ensures ParseSigned(t) == Some(-(GroupsValue(t[1..]) as int))
  {
  }

  lemma AllDigitsGroups(d: string)
    requires d != [] && forall i :: 0 <= i < |d| ==> IsDigit(d[i])
    ensures DigitGroups(d) && !IsSpace(d[0]) && !IsSpace(d[|d| - 1]) && d[0] != '-' && d[0] != '+'
  {
    assert forall i :: 0 <= i < |d| ==> GroupChar(d, i);
  }

  /** The characters the modelled `int()` can accept at all: whitespace, ASCII digits, signs and underscores. */
  predicate IntChar(c: char) {
    IsSpace(c) || IsDigit(c) || c == '+' || c == '-' || c == '_'
  }

  /** Text that the modelled `int()` accepts is made of such characters only. */
  lemma ParseIntChars(s: string)
    requires IsInt(s)
    ensures forall i :: 0 <= i < |s| ==> IntChar(s[i])
  {
    var a := SpanSpace(s);
    var t := s[a..];
    var b := |t| - TrailingSpace(t);
    var u := Strip(s);
    assert u == t[..b];
    var d := if u[0] == '-' || u[0] == '+' then u[1..] else u;
    DigitGroupsChars(d);
    forall i | 0 <= i < |s| ensures IntChar(s[i]) {
      if i < a {
      } else if i - a >= b {
        assert t[i - a] == s[i];
      } else if i - a == 0 {
        assert u[0] == s[i];
        if u[0] != '-' && u[0] != '+' { assert d[0] == s[i]; }
      } else {
        assert u[i - a] == s[i];
        if u[0] == '-' || u[0] == '+' { assert d[i - a - 1] == s[i]; } else { assert d[i - a] == s[i]; }
      }
    }
  }

  /** Text that the modelled `int()` accepts holds at least one digit. */
  lemma ParseIntHasDigit(s: string)
    requires IsInt(s)
    ensures exists i :: 0 <= i < |s| && IsDigit(s[i])
  {
    var a := SpanSpace(s);
    var t := s[a..];
    var b := |t| - TrailingSpace(t);
    var u := Strip(s);
    assert u == t[..b];
    var signed := u[0] == '-' || u[0] == '+';
    var d := if signed then u[1..] else u;
    var j := if signed then a + 1 else a;
    assert d[0] == s[j];
  }

  /** A four-digit number is written with four characters. */
  lemma FourDigits(n: nat)
    requires 1000 <= n <= 9999
    ensures |NatToString(n)| == 4
  {
    var a := n / 10;
    var b := a / 10;
    var c := b / 10;
    assert 100 <= a <= 999 && 10 <= b <= 99 && 1 <= c <= 9;
    NatToStringStep(n);
    NatToStringStep(a);
    NatToStringStep(b);
  }

  lemma NatToStringStep(n: nat)
    requires n >= 10
    ensures |NatToString(n)| == |NatToString(n / 10)| + 1
  {
  }

  // ---------------------------------------------------------------------
  // Ordering and sorted(set(...))

  /** Python's `<` on strings: lexicographic by code point, a proper prefix first. */
  predicate StrLt(a: string, b: string) {
    if a == [] then b != []
    else if b == [] then false
    else if a[0] != b[0] then a[0] < b[0]
    else StrLt(a[1..], b[1..])
  }

  lemma {:induction false} StrLtIrreflexive(a: string)
    ensures !StrLt(a, a)
  {
    if a != [] {
      StrLtIrreflexive(a[1..]);
    }
  }

  lemma {:induction false} StrLtTransitive(a: string, b: string, c: string)
    requires StrLt(a, b) && StrLt(b, c)
    ensures StrLt(a, c)
  {
    if a != [] && b != [] && c != [] && a[0] == b[0] && b[0] == c[0] {
      StrLtTransitive(a[1..], b[1..], c[1..]);
    }
  }

  lemma {:induction false} StrLtTotal(a: string, b: string)
    requires a != b
    ensures StrLt(a, b) || StrLt(b, a)
  {
    if a != [] && b != [] && a[0] == b[0] {
      assert a == [a[0]] + a[1..] && b == [b[0]] + b[1..];
      StrLtTotal(a[1..], b[1..]);
    }
  }

  lemma StrLtAsymmetric(a: string, b: string)
    requires StrLt(a, b)
    ensures !StrLt(b, a)
  {
    if StrLt(b, a) {
      StrLtTransitive(a, b, a);
      StrLtIrreflexive(a);
    }
  }

  predicate StrictlySorted(s: seq<string>) {
    forall i, j :: 0 <= i < j < |s| ==> StrLt(s[i], s[j])
  }

  function Elements(s: seq<string>): set<string> {
    set i | 0 <= i < |s| :: s[i]
  }

  lemma ElementsEmpty(s: seq<string>)
    ensures Elements(s) == {} <==> s == []
  {
    if s != [] { assert s[0] in Elements(s); }
  }

  lemma ElementsCons(x: string, s: seq<string>)
    ensures Elements([x] + s) == {x} + Elements(s)
  {
    var r := [x] + s;
    assert r[0] == x;
    forall y | y in Elements(r) ensures y in {x} + Elements(s) {
      var k :| 0 <= k < |r| && r[k] == y;
      if k > 0 { assert s[k - 1] == y; }
    }
    forall y | y in Elements(s) ensures y in Elements(r) {
      var k :| 0 <= k < |s| && s[k] == y;
      assert r[k + 1] == y;
    }
  }

  lemma ElementsSnoc(s: seq<string>, x: string)
    ensures Elements(s + [x]) == Elements(s) + {x}
  {
    var r := s + [x];
    assert r[|s|] == x;
    forall y | y in Elements(r) ensures y in Elements(s) + {x} {
      var k :| 0 <= k < |r| && r[k] == y;
      if k < |s| { assert s[k] == y; }
    }
    forall y | y in Elements(s) ensures y in Elements(r) {
      var k :| 0 <= k < |s| && s[k] == y;
      assert r[k] == y;
    }
  }

  /** Inserts `x` into a strictly sorted list unless it is already there. */
  function Insert(x: string, s: seq<string>): (r: seq<string>)
    requires StrictlySorted(s)
    ensures StrictlySorted(r)
    ensures Elements(r) == {x} + Elements(s)
  {
    if s == [] then
      assert Elements([x]) == {x} by { assert [x][0] == x; }
      [x]
    else
      SplitHead(s);
      if x == s[0] then s
      else if StrLt(x, s[0]) then
        BelowHead(x, s);
        [x] + s
      else
        StrLtTotal(x, s[0]);
        var t := Insert(x, s[1..]);
        AboveHead(s, x, t);
        [s[0]] + t
  }

  lemma SplitHead(s: seq<string>)
    requires s != []
    ensures s == [s[0]] + s[1..]
    ensures Elements(s) == {s[0]} + Elements(s[1..])
  {
    assert s == [s[0]] + s[1..];
    ElementsCons(s[0], s[1..]);
  }

  /** An element below the head of a strictly sorted list goes in front of it. */
  lemma BelowHead(x: string, s: seq<string>)
    requires StrictlySorted(s) && s != [] && StrLt(x, s[0])
    ensures StrictlySorted([x] + s)
    ensures Elements([x] + s) == {x} + Elements(s)
  {
    assert forall j :: 0 < j < |s| ==> StrLt(x, s[j]) by {
      forall j | 0 < j < |s| { StrLtTransitive(x, s[0], s[j]); }
    }
    ElementsCons(x, s);
  }

  /** The head stays in front of the tail with an element above it inserted. */
  lemma AboveHead(s: seq<string>, x: string, t: seq<string>)
    requires StrictlySorted(s) && s != [] && StrLt(s[0], x)
    requires StrictlySorted(t) && Elements(t) == {x} + Elements(s[1..])
    ensures StrictlySorted([s[0]] + t)
    ensures Elements([s[0]] + t) == {s[0]} + Elements(t)
  {
    assert forall j :: 0 <= j < |t| ==> StrLt(s[0], t[j]) by {
      forall j | 0 <= j < |t| ensures StrLt(s[0], t[j]) {
        assert t[j] in Elements(t);
        if t[j] != x {
          var k :| 0 <= k < |s[1..]| && s[1..][k] == t[j];
          assert s[k + 1] == t[j];
        }
      }
    }
    ElementsCons(s[0], t);
  }

  /** `sorted(set(xs))`: the distinct elements of `xs` in ascending order. */
  function SortedUnique(xs: seq<string>): (r: seq<string>)
    ensures StrictlySorted(r)
    ensures Elements(r) == Elements(xs)
  {
    if xs == [] then []
    else
      assert xs == xs[..|xs| - 1] + [xs[|xs| - 1]];
      ElementsSnoc(xs[..|xs| - 1], xs[|xs| - 1]);
      Insert(xs[|xs| - 1], SortedUnique(xs[..|xs| - 1]))
  }

  /** A strictly sorted list holds no element twice. */
  lemma StrictlySortedDistinct(s: seq<string>)
    requires StrictlySorted(s)
    ensures forall i, j :: 0 <= i < j < |s| ==> s[i] != s[j]
  {
    forall i, j | 0 <= i < j < |s| ensures s[i] != s[j] {
      if s[i] == s[j] { StrLtIrreflexive(s[i]); }
    }
  }

  /** Two strictly sorted lists with the same elements are equal: `sorted(set(...))` is canonical. */
  lemma {:induction false} StrictlySortedUnique(a: seq<string>, b: seq<string>)
    requires StrictlySorted(a) && StrictlySorted(b)
    requires Elements(a) == Elements(b)
    ensures a == b
    decreases |a|
  {
    ElementsEmpty(a);
    ElementsEmpty(b);
    if a != [] && b != [] {
      assert a[0] in Elements(b) && b[0] in Elements(a);
      var i :| 0 <= i < |b| && b[i] == a[0];
      var j :| 0 <= j < |a| && a[j] == b[0];
      if a[0] != b[0] {
        StrLtAsymmetric(b[0], b[i]);
        assert false;
      }
      assert Elements(a[1..]) == Elements(b[1..]) by {
        assert a == [a[0]] + a[1..] && b == [b[0]] + b[1..];
        ElementsCons(a[0], a[1..]);
        ElementsCons(b[0], b[1..]);
        assert a[0] !in Elements(a[1..]) by {
          if a[0] in Elements(a[1..]) {
            var k :| 0 <= k < |a[1..]| && a[1..][k] == a[0];
            assert StrLt(a[0], a[k + 1]);
            StrLtIrreflexive(a[0]);
            assert false;
          }
        }
        assert b[0] !in Elements(b[1..]) by {
          if b[0] in Elements(b[1..]) {
            var k :| 0 <= k < |b[1..]| && b[1..][k] == b[0];
            assert StrLt(b[0], b[k + 1]);
            StrLtIrreflexive(b[0]);
            assert false;
          }
        }
      }
      StrictlySortedUnique(a[1..], b[1..]);
      assert a == [a[0]] + a[1..] && b == [b[0]] + b[1..];
    }
  }
}
