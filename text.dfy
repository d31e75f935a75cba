/**
 * The pieces of Python's `str` behaviour the pipeline relies on: whitespace as
 * `str.isspace()` defines it, `strip()`, `''.join(s.split())`, `sep.join(parts)`,
 * `int(s)`, `str(n)`, `sorted(...)` on strings and integers, and the way a file
 * opened in text mode is read line by line.
 */
module Text {
  import opened Wrappers

  function Min(a: int, b: int): int { if a <= b then a else b }

  // ---------------------------------------------------------------------------
  // Whitespace
  // ---------------------------------------------------------------------------

  /**
   * The characters for which Python's `str.isspace()` is true. `str.split()`,
   * `str.strip()` and the `\s` class of a `re` pattern on `str` all use this set.
   */
  predicate IsSpace(c: char) {
    c == ' ' || ('\t' <= c <= '\r') || ('\U{1c}' <= c <= '\U{1f}')
    || c == '\U{85}' || c == '\U{a0}' || c == '\U{1680}' || ('\U{2000}' <= c <= '\U{200a}')
    || c == '\U{2028}' || c == '\U{2029}' || c == '\U{202f}' || c == '\U{205f}' || c == '\U{3000}'
  }

  predicate NoSpace(s: string) {
    forall i :: 0 <= i < |s| ==> !IsSpace(s[i])
  }

  predicate AllSpace(s: string) {
    forall i :: 0 <= i < |s| ==> IsSpace(s[i])
  }

  predicate StartsWith(s: string, prefix: string) {
    |prefix| <= |s| && s[..|prefix|] == prefix
  }

  /** Python's `s[lo:hi]` for non-negative bounds: both ends are clipped to the string. */
  function Slice(s: string, lo: nat, hi: nat): (r: string)
    ensures lo <= hi <= |s| ==> r == s[lo..hi]
    ensures |s| <= lo ==> r == ""
    ensures lo <= |s| <= hi ==> r == s[lo..]
  {
    var h := Min(hi, |s|);
    s[Min(lo, h)..h]
  }

  /** `s.lstrip()` */
  function TrimStart(s: string): string {
    if |s| > 0 && IsSpace(s[0]) then TrimStart(s[1..]) else s
  }

  /** `s.rstrip()` */
  function TrimEnd(s: string): string {
    if |s| > 0 && IsSpace(s[|s| - 1]) then TrimEnd(s[..|s| - 1]) else s
  }

  /** `s.strip()`: the string without its leading and trailing whitespace. */
  function Strip(s: string): string {
    TrimEnd(TrimStart(s))
  }

  /** `lstrip` removes a prefix of whitespace and stops at the first other character. */
  lemma {:induction false} TrimStartShape(s: string)
    ensures var r := TrimStart(s);
      && |r| <= |s| && r == s[|s| - |r|..]
      && AllSpace(s[..|s| - |r|])
      && (|r| > 0 ==> !IsSpace(r[0]))
  {
    if |s| > 0 && IsSpace(s[0]) {
      TrimStartShape(s[1..]);
      var r := TrimStart(s);
      assert s[..|s| - |r|] == [s[0]] + s[1..][..|s| - 1 - |r|];
    }
  }

  /** `rstrip` removes a suffix of whitespace and stops at the last other character. */
  lemma {:induction false} TrimEndShape(s: string)
    ensures var r := TrimEnd(s);
      && |r| <= |s| && r == s[..|r|]
      && AllSpace(s[|r|..])
      && (|r| > 0 ==> !IsSpace(r[|r| - 1]))
  {
    if |s| > 0 && IsSpace(s[|s| - 1]) {
      TrimEndShape(s[..|s| - 1]);
      var r := TrimEnd(s);
      assert s[|r|..] == s[..|s| - 1][|r|..] + [s[|s| - 1]];
    }
  }

  /** The stripped string is no longer, and neither starts nor ends with whitespace. */
  lemma {:induction false} StripShape(s: string)
    ensures var r := Strip(s);
      && |r| <= |s|
      && (|r| > 0 ==> !IsSpace(r[0]) && !IsSpace(r[|r| - 1]))
  {
    var t := TrimStart(s);
    TrimStartShape(s);
    TrimEndShape(t);
    var r := TrimEnd(t);
    if |r| > 0 { assert r[0] == t[0]; }
  }

  /** Stripping an unspaced string gives it back; stripping an all-space string gives "". */
  lemma {:induction false} StripCases(s: string)
    ensures NoSpace(s) ==> Strip(s) == s
    ensures Strip(s) == "" <==> AllSpace(s)
  {
    var t := TrimStart(s);
    TrimStartShape(s);
    TrimEndShape(t);
    if NoSpace(s) {
      if |s| > 0 { assert t == s; }
      if |t| > 0 { assert TrimEnd(t) == t; }
    }
    if AllSpace(s) {
      AllSpaceTrimStart(s);
    }
    if Strip(s) == "" {
      assert AllSpace(t) by { assert t[|TrimEnd(t)|..] == t; }
      assert |t| == 0;
      forall i | 0 <= i < |s| ensures IsSpace(s[i]) {
        assert s[..|s| - |t|][i] == s[i];
      }
    }
  }

  lemma {:induction false} AllSpaceTrimStart(s: string)
    requires AllSpace(s)
    ensures TrimStart(s) == ""
  {
    if |s| > 0 { AllSpaceTrimStart(s[1..]); }
  }

  /**
   * `''.join(s.split())`: `split()` cuts at runs of whitespace and drops the empty
   * pieces, so joining the pieces back is the string with every space removed.
   */
  function RemoveSpace(s: string): (r: string)
    ensures NoSpace(r) && |r| <= |s|
    ensures forall c :: c in r ==> c in s
  {
    if s == [] then []
    else (if IsSpace(s[0]) then [] else [s[0]]) + RemoveSpace(s[1..])
  }

  lemma {:induction false} RemoveSpaceConcat(a: string, b: string)
    ensures RemoveSpace(a + b) == RemoveSpace(a) + RemoveSpace(b)
  {
    if a != [] {
      assert (a + b)[1..] == a[1..] + b;
      RemoveSpaceConcat(a[1..], b);
    } else {
      assert a + b == b;
    }
  }

  /** `''.join(s.split())` is empty exactly when `s` is blank. */
  lemma {:induction false} RemoveSpaceEmpty(s: string)
    ensures RemoveSpace(s) == "" <==> AllSpace(s)
  {
    if s != [] {
      RemoveSpaceEmpty(s[1..]);
      if AllSpace(s[1..]) && IsSpace(s[0]) {
        forall i | 0 <= i < |s| ensures IsSpace(s[i]) {
          if i > 0 { assert s[i] == s[1..][i - 1]; }
        }
      }
      if AllSpace(s) {
        forall i | 0 <= i < |s| - 1 ensures IsSpace(s[1..][i]) {
          assert s[1..][i] == s[i + 1];
        }
      }
    }
  }

  lemma {:induction false} RemoveSpaceOfUnspaced(s: string)
    requires NoSpace(s)
    ensures RemoveSpace(s) == s
  {
    if s != [] { RemoveSpaceOfUnspaced(s[1..]); }
  }

  // ---------------------------------------------------------------------------
  // str.join
  // ---------------------------------------------------------------------------

  /** `sep.join(parts)` */
  function Join(parts: seq<string>, sep: string): string
  {
    if |parts| == 0 then ""
    else if |parts| == 1 then parts[0]
    else parts[0] + sep + Join(parts[1..], sep)
  }

  /** Appending one more part to a non-empty list adds the separator and that part. */
  lemma {:induction false} JoinSnoc(parts: seq<string>, p: string, sep: string)
    requires |parts| > 0
    ensures Join(parts + [p], sep) == Join(parts, sep) + sep + p
  {
    if |parts| == 1 {
      assert parts + [p] == [parts[0], p];
    } else {
      assert (parts + [p])[1..] == parts[1..] + [p];
      JoinSnoc(parts[1..], p, sep);
    }
  }

  /** Each part with the separator in front of it. */
  function Prefixed(parts: seq<string>, sep: string): (r: seq<string>)
    ensures |r| == |parts|
  {
    if parts == [] then [] else [sep + parts[0]] + Prefixed(parts[1..], sep)
  }

  /** The total length of the parts. */
  function SumLengths(parts: seq<string>): nat {
    if parts == [] then 0 else |parts[0]| + SumLengths(parts[1..])
  }

  lemma {:induction false} ConcatLength(parts: seq<string>)
    ensures |Concat(parts)| == SumLengths(parts)
  {
    if parts != [] { ConcatLength(parts[1..]); }
  }

  /** `sep.join(parts)` is the first part followed by every later part with the separator in front. */
  lemma {:induction false} JoinPrefixed(parts: seq<string>, sep: string)
    requires |parts| > 0
    ensures Join(parts, sep) == parts[0] + Concat(Prefixed(parts[1..], sep))
  {
    if |parts| > 1 {
      JoinPrefixed(parts[1..], sep);
      assert parts[1..][1..] == parts[2..];
      assert Prefixed(parts[1..], sep) == [sep + parts[1]] + Prefixed(parts[2..], sep);
    }
  }

  /** The length of `sep.join(parts)`: all the parts plus one separator between each two. */
  lemma {:induction false} JoinLength(parts: seq<string>, sep: string)
    requires |parts| > 0
    ensures |Join(parts, sep)| == SumLengths(parts) + (|parts| - 1) * |sep|
  {
    if |parts| > 1 {
      JoinLength(parts[1..], sep);
    }
  }

  // ---------------------------------------------------------------------------
  // Decimal numbers: str(n) and int(s)
  // ---------------------------------------------------------------------------

  predicate IsDigit(c: char) { '0' <= c <= '9' }

  function DigitChar(d: nat): (c: char)
    requires d < 10
    ensures IsDigit(c) && c as int - '0' as int == d
  {
    ('0' as int + d) as char
  }

  /** `str(n)` for a non-negative integer: its decimal digits, no leading zero. */
  function NatToString(n: nat): (r: string)
    ensures |r| > 0 && forall i :: 0 <= i < |r| ==> IsDigit(r[i])
    ensures r[0] == '0' ==> n == 0
  {
    if n < 10 then [DigitChar(n)] else NatToString(n / 10) + [DigitChar(n % 10)]
  }

  /**
   * The body of an integer literal as `int()` accepts it: ASCII digits, with single
   * underscores allowed between two digits (`"1_000"`).
   */
  predicate IsDigitGroup(s: string) {
    && |s| > 0 && IsDigit(s[0]) && IsDigit(s[|s| - 1])
    && forall i :: 0 <= i < |s| ==> IsDigit(s[i]) || (s[i] == '_' && i + 1 < |s| && IsDigit(s[i + 1]))
  }

  /** The number the digits of `s` spell, underscores skipped. */
  function DecimalValue(s: string): nat {
    if s == [] then 0
    else
      var c := s[|s| - 1];
      if IsDigit(c) then DecimalValue(s[..|s| - 1]) * 10 + (c as int - '0' as int)
      else DecimalValue(s[..|s| - 1])
  }

  /**
   * `int(s)` on a `str`: surrounding whitespace is ignored, then an optional sign and
   * a digit group; anything else raises `ValueError`, modelled as `None`.
   */
  function ParseInt(s: string): Option<int> {
    var t := Strip(s);
    if |t| > 0 && (t[0] == '+' || t[0] == '-') then
      if IsDigitGroup(t[1..]) then
        var v: int := DecimalValue(t[1..]);
        Some(if t[0] == '-' then -v else v)
      else None
    else if IsDigitGroup(t) then Some(DecimalValue(t))
    else None
  }

  /** `int(str(n)) == n`: the decimal rendering is read back by the `int()` model. */
  lemma {:induction false} ParseIntOfNatToString(n: nat)
    ensures ParseInt(NatToString(n)) == Some(n)
  {
    var r := NatToString(n);
    assert NoSpace(r) by {
      forall i | 0 <= i < |r| ensures !IsSpace(r[i]) { assert IsDigit(r[i]); }
    }
    StripCases(r);
    assert Strip(r) == r;
    assert !(r[0] == '+' || r[0] == '-') by { assert IsDigit(r[0]); }
    assert IsDigitGroup(r) by {
      forall i | 0 <= i < |r| ensures IsDigit(r[i]) { }
    }
    DecimalValueOfNatToString(n);
  }

  lemma {:induction false} DecimalValueOfNatToString(n: nat)
    ensures DecimalValue(NatToString(n)) == n
  {
    if n >= 10 {
      var r := NatToString(n);
      assert r[..|r| - 1] == NatToString(n / 10);
      DecimalValueOfNatToString(n / 10);
    }
  }

  // ---------------------------------------------------------------------------
  // Ordering and sorting (Python's `sorted` on str / int keys)
  // ---------------------------------------------------------------------------

  /** Python's `a <= b` on strings: lexicographic by code point. */
  predicate StrLe(a: string, b: string) {
    |a| == 0 || (|b| > 0 && (a[0] < b[0] || (a[0] == b[0] && StrLe(a[1..], b[1..]))))
  }

  predicate StrLt(a: string, b: string) { StrLe(a, b) && a != b }

  lemma {:induction false} StrLeTotal(a: string, b: string)
    ensures StrLe(a, b) || StrLe(b, a)
  {
    if |a| > 0 && |b| > 0 && a[0] == b[0] { StrLeTotal(a[1..], b[1..]); }
  }

  lemma {:induction false} StrLeAntisymmetric(a: string, b: string)
    requires StrLe(a, b) && StrLe(b, a)
    ensures a == b
  {
    if |a| > 0 && |b| > 0 {
      StrLeAntisymmetric(a[1..], b[1..]);
      assert a == [a[0]] + a[1..] && b == [b[0]] + b[1..];
    }
  }

  lemma {:induction false} StrLeTransitive(a: string, b: string, c: string)
    requires StrLe(a, b) && StrLe(b, c)
    ensures StrLe(a, c)
  {
    if |a| > 0 && |b| > 0 && |c| > 0 && a[0] == b[0] == c[0] {
      StrLeTransitive(a[1..], b[1..], c[1..]);
    }
  }

  predicate StrAscending(xs: seq<string>) {
    forall i, j :: 0 <= i < j < |xs| ==> StrLt(xs[i], xs[j])
  }

  predicate IntAscending(xs: seq<int>) {
    forall i, j :: 0 <= i < j < |xs| ==> xs[i] < xs[j]
  }

  lemma {:induction false} StrLeReflexive(a: string)
    ensures StrLe(a, a)
  {
    if |a| > 0 { StrLeReflexive(a[1..]); }
  }

  /** `m` is no greater than any element of `s`. */
  predicate StrLowerBound(m: string, s: set<string>) {
    forall x :: x in s ==> StrLe(m, x)
  }

  lemma {:induction false} StrMinExists(s: set<string>)
    requires s != {}
    ensures exists m :: m in s && StrLowerBound(m, s)
  {
    var y :| y in s;
    var rest := s - {y};
    if s == {y} {
      forall x | x in s ensures StrLe(y, x) {
        StrLeReflexive(y);
      }
      assert y in s && StrLowerBound(y, s);
    } else {
      StrMinExists(rest);
      var m :| m in rest && StrLowerBound(m, rest);
      StrLeTotal(m, y);
      if StrLe(m, y) {
        forall x | x in s ensures StrLe(m, x) {
          if x != y { assert x in rest; }
        }
        assert m in s && StrLowerBound(m, s);
      } else {
        forall x | x in s ensures StrLe(y, x) {
          if x == y { StrLeReflexive(y); } else { assert x in rest; StrLeTransitive(y, m, x); }
        }
        assert y in s && StrLowerBound(y, s);
      }
    }
  }

  /** The smallest string of a non-empty set. */
  function StrMin(s: set<string>): (m: string)
    requires s != {}
    ensures m in s && StrLowerBound(m, s)
  {
    StrMinExists(s);
    assert forall a, b :: a in s && b in s && StrLe(a, b) && StrLe(b, a) ==> a == b by {
      forall a, b | a in s && b in s && StrLe(a, b) && StrLe(b, a) ensures a == b {
        StrLeAntisymmetric(a, b);
      }
    }
    var m :| m in s && StrLowerBound(m, s);
    m
  }

  /** `sorted(s)` for a set of strings: every element once, in ascending order. */
  function SortedStrings(s: set<string>): (r: seq<string>)
    ensures |r| == |s| && (forall x :: x in r <==> x in s) && StrAscending(r)
    decreases |s|
  {
    if s == {} then []
    else
      var m := StrMin(s);
      var rest := SortedStrings(s - {m});
      var r := [m] + rest;
      assert forall x :: x in r <==> x == m || x in rest;
      assert StrAscending(r) by {
        forall i, j | 0 <= i < j < |r| ensures StrLt(r[i], r[j]) {
          assert r[j] == rest[j - 1] && r[j] in s - {m};
          if i > 0 { assert r[i] == rest[i - 1]; }
        }
      }
      r
  }

  /** A non-empty set of integers has an element (found through its image as singleton sequences). */
  lemma {:induction false} IntSetHasElement(s: set<int>)
    requires s != {}
    ensures exists m :: m in s
  {
    var singletons := set x | x in s :: [x];
    assert singletons != {} by { assert forall x :: x in s ==> [x] in singletons; }
    var y :| y in singletons;
  }

  /** `m` is no greater than any element of `s`. */
  predicate IntLowerBound(m: int, s: set<int>) {
    forall x :: x in s ==> m <= x
  }

  lemma {:induction false} IntMinExists(s: set<int>)
    requires s != {}
    ensures exists m :: m in s && IntLowerBound(m, s)
  {
    IntSetHasElement(s);
    var y :| y in s;
    var rest := s - {y};
    if s == {y} {
      assert y in s && IntLowerBound(y, s);
    } else {
      IntMinExists(rest);
      var m :| m in rest && IntLowerBound(m, rest);
      assert forall x :: x in s ==> x == y || x in rest;
      if m <= y {
        assert m in s && IntLowerBound(m, s);
      } else {
        assert y in s && IntLowerBound(y, s);
      }
    }
  }

  function IntMin(s: set<int>): (m: int)
    requires s != {}
    ensures m in s && IntLowerBound(m, s)
  {
    IntMinExists(s);
    var m :| m in s && IntLowerBound(m, s);
    m
  }

  /** `sorted(s)` for a set of integers: every element once, in ascending order. */
  function SortedInts(s: set<int>): (r: seq<int>)
    ensures |r| == |s| && (forall x :: x in r <==> x in s) && IntAscending(r)
    decreases |s|
  {
    if s == {} then []
    else
      var m := IntMin(s);
      var rest := SortedInts(s - {m});
      var r := [m] + rest;
      assert forall x :: x in r <==> x == m || x in rest;
      assert IntAscending(r) by {
        forall i, j | 0 <= i < j < |r| ensures r[i] < r[j] {
          assert r[j] == rest[j - 1] && r[j] in s - {m};
          if i > 0 { assert r[i] == rest[i - 1]; }
        }
      }
      r
  }

  // ---------------------------------------------------------------------------
  // os.path.join
  // ---------------------------------------------------------------------------

  /** `os.path.join(dir, name)` with `/` as the separator: an absolute `name` replaces `dir`. */
  function JoinPath(dir: string, name: string): string {
    if StartsWith(name, "/") then name
    else if dir == [] || dir[|dir| - 1] == '/' then dir + name
    else dir + "/" + name
  }

  /** The joined path ends with the name, and starts with the directory when the name is relative. */
  lemma JoinPathShape(dir: string, name: string)
    ensures var p := JoinPath(dir, name);
            |name| <= |p| && p[|p| - |name|..] == name
            && (!StartsWith(name, "/") ==> StartsWith(p, dir))
  {
  }

  // ---------------------------------------------------------------------------
  // Reading a text file
  // ---------------------------------------------------------------------------

  /**
   * What a file opened with `open(path, 'r')` yields when read: universal-newline
   * mode turns every `"\r\n"` and every lone `"\r"` into `"\n"`.
   */
  function TranslateNewlines(s: string): (r: string)
    ensures '\r' !in r
    ensures '\r' !in s ==> r == s
  {
    if s == [] then []
    else if s[0] == '\r' then "\n" + TranslateNewlines(if |s| > 1 && s[1] == '\n' then s[2..] else s[1..])
    else [s[0]] + TranslateNewlines(s[1..])
  }

  /** Index of the first `'\n'` in `s`, or `|s|` when there is none. */
  function NewlineIndex(s: string): (k: nat)
    ensures k <= |s| && '\n' !in s[..k] && (k < |s| ==> s[k] == '\n')
  {
    if s == [] || s[0] == '\n' then 0
    else
      var k := 1 + NewlineIndex(s[1..]);
      assert s[..k] == [s[0]] + s[1..][..k - 1];
      k
  }

  /**
   * The lines `for line in f` produces from already translated text: each line keeps
   * its `'\n'`; a last line without one is produced as it is; no empty lines.
   */
  function SplitLines(s: string): (r: seq<string>)
    ensures forall i :: 0 <= i < |r| ==> |r[i]| > 0
    decreases |s|
  {
    if s == [] then []
    else
      var k := NewlineIndex(s);
      if k == |s| then [s] else [s[..k + 1]] + SplitLines(s[k + 1..])
  }

  function Concat(xs: seq<string>): string {
    if xs == [] then "" else xs[0] + Concat(xs[1..])
  }

  /** A line that ends in its only newline. */
  predicate EndsAtNewline(line: string) {
    |line| > 0 && line[|line| - 1] == '\n' && '\n' !in line[..|line| - 1]
  }

  /** Joining the lines back gives the text; every line but the last ends in its only newline. */
  lemma {:induction false} SplitLinesConcat(s: string)
    ensures Concat(SplitLines(s)) == s
    ensures forall i :: 0 <= i < |SplitLines(s)| - 1 ==> EndsAtNewline(SplitLines(s)[i])
    decreases |s|
  {
    if s != [] {
      var k := NewlineIndex(s);
      if k < |s| {
        var head, tail := s[..k + 1], s[k + 1..];
        SplitLinesConcat(tail);
        var r := SplitLines(s);
        assert r == [head] + SplitLines(tail);
        assert s == head + tail;
        assert head[..k] == s[..k];
        assert EndsAtNewline(head);
        forall i | 0 <= i < |r| - 1 ensures EndsAtNewline(r[i]) {
          if i > 0 { assert r[i] == SplitLines(tail)[i - 1]; }
        }
      }
    }
  }

  /** The lines of the file whose stored text is `stored`, as the Python loop sees them. */
  function FileLines(stored: string): seq<string> {
    SplitLines(TranslateNewlines(stored))
  }
}
