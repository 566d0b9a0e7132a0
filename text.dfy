/** String primitives the application relies on, stated with the exact
    behaviour of the JavaScript and Python built-ins they stand for:
    String.prototype.trim and the regex class \s, ASCII case mapping,
    decimal rendering of integers, Python's str.zfill, and join/split on a
    separator. */
module Text {

  /** ECMAScript WhiteSpace and LineTerminator code points: what `trim()`
      strips and what the regex class `\s` matches. */
  predicate IsJsSpace(c: char) {
    c == '\t' || c == '\n' || c == '\U{000B}' || c == '\U{000C}' || c == '\r' ||
    c == ' ' || c == '\U{00A0}' || c == '\U{1680}' ||
    ('\U{2000}' <= c <= '\U{200A}') ||
    c == '\U{2028}' || c == '\U{2029}' || c == '\U{202F}' || c == '\U{205F}' ||
    c == '\U{3000}' || c == '\U{FEFF}'
  }

  predicate AllSpace(s: string) {
    forall k :: 0 <= k < |s| ==> IsJsSpace(s[k])
  }

  /** Length of the run of white space at the start of `s`. */
  function LeadingSpace(s: string): (n: nat)
    ensures n <= |s|
    ensures AllSpace(s[..n])
    ensures n < |s| ==> !IsJsSpace(s[n])
  {
    if s == [] || !IsJsSpace(s[0]) then 0
    else
      var k := LeadingSpace(s[1..]);
      k + 1
  }

  /** Length of the run of white space at the end of `s`. */
  function TrailingSpace(s: string): (n: nat)
    ensures n <= |s|
    ensures AllSpace(s[|s| - n..])
    ensures n < |s| ==> !IsJsSpace(s[|s| - n - 1])
  {
    if s == [] || !IsJsSpace(s[|s| - 1]) then 0
    else
      var k := TrailingSpace(s[..|s| - 1]);
      k + 1
  }

  /** `r` is the slice of `s` at `i` with only white space around it. */
  predicate TrimmedAt(s: string, r: string, i: int) {
    0 <= i <= |s| - |r| && r == s[i..i + |r|] && AllSpace(s[..i]) && AllSpace(s[i + |r|..])
  }

  /** Cutting a run of white space off each end leaves a slice with only
      white space around it. */
  lemma TrimSlice(s: string, n: nat, m: nat)
    requires n + m <= |s|
    requires AllSpace(s[..n]) && AllSpace(s[n..][|s| - n - m..])
    ensures TrimmedAt(s, s[n..|s| - m], n)
  {
    assert s[|s| - m..] == s[n..][|s| - n - m..];
  }

  /** When the runs cut are maximal, what is left neither starts nor ends
      with white space. */
  lemma TrimEnds(s: string, n: nat, m: nat)
    requires n + m <= |s|
    requires n < |s| ==> !IsJsSpace(s[n])
    requires m < |s| - n ==> !IsJsSpace(s[n..][|s| - n - m - 1])
    ensures var r := s[n..|s| - m];
            r != [] ==> !IsJsSpace(r[0]) && !IsJsSpace(r[|r| - 1])
  {
    if n + m < |s| {
      assert s[n..|s| - m][0] == s[n];
      assert s[n..|s| - m][|s| - m - n - 1] == s[n..][|s| - n - m - 1];
    }
  }

  /** `s.trim()`: the slice of `s` left after cutting white space off both
      ends; what is cut is white space, and what is left neither starts nor
      ends with it. */
  function Trim(s: string): (r: string)
    ensures |r| <= |s|
    ensures exists i :: TrimmedAt(s, r, i)
    ensures r != [] ==> !IsJsSpace(r[0]) && !IsJsSpace(r[|r| - 1])
  {
    var n := LeadingSpace(s);
    var m := TrailingSpace(s[n..]);
    TrimSlice(s, n, m);
    TrimEnds(s, n, m);
    s[n..|s| - m]
  }

  /** A string trims to nothing exactly when it is all white space. */
  lemma TrimEmptyIff(s: string)
    ensures Trim(s) == [] <==> AllSpace(s)
  {
    var n := LeadingSpace(s);
    if Trim(s) == [] {
      assert n == |s|;
      assert s[..n] == s;
    }
  }

  /** Trimming a trimmed string changes nothing. */
  lemma TrimIdempotent(s: string)
    ensures Trim(Trim(s)) == Trim(s)
  {
    var r := Trim(s);
    if r != [] {
      assert LeadingSpace(r) == 0;
      assert TrailingSpace(r) == 0;
    }
  }

  function LowerChar(c: char): char {
    if 'A' <= c <= 'Z' then (c as int + 32) as char else c
  }

  function UpperChar(c: char): char {
    if 'a' <= c <= 'z' then (c as int - 32) as char else c
  }

  /** `toLowerCase()` on the ASCII range. */
  function Lower(s: string): (r: string)
    ensures |r| == |s|
    ensures forall k :: 0 <= k < |s| ==> r[k] == LowerChar(s[k])
  {
    if s == [] then [] else [LowerChar(s[0])] + Lower(s[1..])
  }

  /** Python's `str.upper()` on the ASCII range. */
  function Upper(s: string): (r: string)
    ensures |r| == |s|
    ensures forall k :: 0 <= k < |s| ==> r[k] == UpperChar(s[k])
  {
    if s == [] then [] else [UpperChar(s[0])] + Upper(s[1..])
  }

  predicate IsDigit(c: char) { '0' <= c <= '9' }

  predicate AllDigits(s: string) {
    forall k :: 0 <= k < |s| ==> IsDigit(s[k])
  }

  function DigitChar(d: nat): char
    requires d < 10
  {
    (48 + d) as char
  }

  /** `str(n)` / `String(n)` for a non-negative integer. */
  function NatToString(n: nat): (r: string)
    ensures |r| >= 1 && AllDigits(r)
    ensures r[0] == '0' ==> n == 0
  {
    if n < 10 then [DigitChar(n)] else NatToString(n / 10) + [DigitChar(n % 10)]
  }

  /** `String(i)` for any integer. */
  function IntToString(i: int): (r: string)
    ensures i >= 0 ==> r == NatToString(i)
    ensures i < 0 ==> r == "-" + NatToString(-i)
  {
    if i < 0 then "-" + NatToString(-i) else NatToString(i)
  }

  /** The number a string of decimal digits denotes. */
  function DigitsValue(s: string): nat
    requires AllDigits(s)
  {
    if s == [] then 0
    else DigitsValue(s[..|s| - 1]) * 10 + (s[|s| - 1] as int - 48)
  }

  /** Reading back a rendered number gives the number. */
  lemma {:induction false} NatToStringValue(n: nat)
    ensures DigitsValue(NatToString(n)) == n
  {
    if n >= 10 {
      var s := NatToString(n);
      assert s[..|s| - 1] == NatToString(n / 10);
      NatToStringValue(n / 10);
    }
  }

  /** Rendering is injective. */
  lemma NatToStringInjective(n: nat, m: nat)
    requires NatToString(n) == NatToString(m)
    ensures n == m
  {
    NatToStringValue(n);
    NatToStringValue(m);
  }

  function Repeat(c: char, k: nat): (r: string)
    ensures |r| == k && forall j :: 0 <= j < k ==> r[j] == c
  {
    if k == 0 then [] else [c] + Repeat(c, k - 1)
  }

  /** Python's `str.zfill(width)` on an unsigned digit string. */
  function ZFill(s: string, width: nat): (r: string)
    ensures |r| == if |s| < width then width else |s|
    ensures r[|r| - |s|..] == s
    ensures forall j :: 0 <= j < |r| - |s| ==> r[j] == '0'
  {
    if |s| < width then Repeat('0', width - |s|) + s else s
  }

  /** Leading zeros do not change the value of a digit string. */
  lemma {:induction false} LeadingZeroValue(s: string)
    requires AllDigits(s)
    ensures AllDigits("0" + s) && DigitsValue("0" + s) == DigitsValue(s)
  {
    if s != [] {
      var t := "0" + s;
      assert t[..|t| - 1] == "0" + s[..|s| - 1];
      LeadingZeroValue(s[..|s| - 1]);
    }
  }

  lemma {:induction false} ZFillValue(s: string, width: nat)
    requires AllDigits(s)
    ensures AllDigits(ZFill(s, width)) && DigitsValue(ZFill(s, width)) == DigitsValue(s)
    decreases width
  {
    if |s| < width {
      assert ZFill(s, width) == "0" + ZFill(s, width - 1);
      ZFillValue(s, width - 1);
      LeadingZeroValue(ZFill(s, width - 1));
    }
  }

  /** `parts.join(sep)`. */
  function Join(parts: seq<string>, sep: string): string {
    if parts == [] then ""
    else if |parts| == 1 then parts[0]
    else parts[0] + sep + Join(parts[1..], sep)
  }

  /** A character that is in no part and not in the separator is not in
      the join. */
  lemma {:induction false} JoinAvoids(parts: seq<string>, sep: string, c: char)
    requires c !in sep
    requires forall k :: 0 <= k < |parts| ==> c !in parts[k]
    ensures c !in Join(parts, sep)
  {
    if |parts| > 1 {
      JoinAvoids(parts[1..], sep, c);
    }
  }

  /** Joining four parts is writing them out with the separator between. */
  lemma Join4(a: string, b: string, c: string, d: string, sep: string)
    ensures Join([a, b, c, d], sep) == a + sep + b + sep + c + sep + d
  {
    var parts := [a, b, c, d];
    assert parts[1..] == [b, c, d];
    assert parts[1..][1..] == [c, d];
    assert parts[1..][1..][1..] == [d];
    assert Join([c, d], sep) == c + sep + d;
    assert Join([b, c, d], sep) == b + sep + (c + sep + d);
    assert a + sep + (b + sep + (c + sep + d)) == a + sep + b + sep + c + sep + d;
  }

  /** `s.split(c)` for a one-character separator. */
  function Split(s: string, c: char): (r: seq<string>)
    ensures |r| >= 1
    decreases |s|
  {
    if s == [] then [""]
    else
      var rest := Split(s[1..], c);
      if s[0] == c then [""] + rest else [[s[0]] + rest[0]] + rest[1..]
  }

  lemma {:induction false} SplitNoSep(p: string, c: char)
    requires c !in p
    ensures Split(p, c) == [p]
    decreases |p|
  {
    if p != [] {
      SplitNoSep(p[1..], c);
      assert [p[0]] + p[1..] == p;
    }
  }

  lemma {:induction false} SplitCons(p: string, c: char, t: string)
    requires c !in p
    ensures Split(p + [c] + t, c) == [p] + Split(t, c)
    decreases |p|
  {
    var s := p + [c] + t;
    if p == [] {
      assert s[1..] == t;
    } else {
      assert s[1..] == p[1..] + [c] + t;
      SplitCons(p[1..], c, t);
      assert [p[0]] + p[1..] == p;
    }
  }

  /** Splitting a join on a separator that no part contains gives the parts back. */
  lemma {:induction false} SplitJoin(parts: seq<string>, c: char)
    requires |parts| >= 1
    requires forall k :: 0 <= k < |parts| ==> c !in parts[k]
    ensures Split(Join(parts, [c]), c) == parts
  {
    if |parts| == 1 {
      SplitNoSep(parts[0], c);
    } else {
      SplitCons(parts[0], c, Join(parts[1..], [c]));
      SplitJoin(parts[1..], c);
    }
  }

  /** The text after the last occurrence of `c` (all of `s` if there is none). */
  function LastField(s: string, c: char): (r: string)
    ensures |r| <= |s| && c !in r
  {
    if s == [] || s[|s| - 1] == c then ""
    else LastField(s[..|s| - 1], c) + [s[|s| - 1]]
  }

  lemma {:induction false} LastFieldAfter(p: string, c: char, t: string)
    requires c !in t
    ensures LastField(p + [c] + t, c) == t
    decreases |t|
  {
    var s := p + [c] + t;
    if t != [] {
      assert s[..|s| - 1] == p + [c] + t[..|t| - 1];
      LastFieldAfter(p, c, t[..|t| - 1]);
    }
  }

  predicate IsPrefix(pre: string, s: string) {
    |pre| <= |s| && s[..|pre|] == pre
  }

  /** `s.includes(sub)`. */
  predicate Contains(s: string, sub: string)
    decreases |s|
  {
    IsPrefix(sub, s) || (s != [] && Contains(s[1..], sub))
  }

  lemma {:induction false} ContainsAt(s: string, sub: string, i: nat)
    requires i + |sub| <= |s| && s[i..i + |sub|] == sub
    ensures Contains(s, sub)
  {
    if i > 0 {
      assert s[1..][i - 1..i - 1 + |sub|] == sub;
      ContainsAt(s[1..], sub, i - 1);
    }
  }

  /** A string ends with, and so contains, its own suffix. */
  lemma {:induction false} ContainsSuffix(pre: string, sub: string)
    ensures Contains(pre + sub, sub)
  {
    if pre == [] {
      assert ([] + sub)[..|sub|] == sub;
    } else {
      assert (pre + sub)[1..] == pre[1..] + sub;
      ContainsSuffix(pre[1..], sub);
    }
  }

  /** A substring cannot occur where one of its characters is missing. */
  lemma {:induction false} NotContains(s: string, sub: string, c: char)
    requires c in sub && c !in s
    ensures !Contains(s, sub)
    decreases |s|
  {
    if s != [] {
      NotContains(s[1..], sub, c);
    }
  }

  /** JavaScript's `a < b` on strings: lexicographic order on characters. */
  predicate LexLess(a: string, b: string)
    decreases |a|
  {
    b != [] && (a == [] || a[0] < b[0] || (a[0] == b[0] && LexLess(a[1..], b[1..])))
  }

  /** `!(a > b)`: what a sort comparator built from `<` and `>` treats as in order. */
  predicate LexLe(a: string, b: string) {
    !LexLess(b, a)
  }

  lemma {:induction false} LexTrichotomy(a: string, b: string)
    ensures a == b || LexLess(a, b) || LexLess(b, a)
    decreases |a|
  {
    if a != [] && b != [] && a[0] == b[0] {
      LexTrichotomy(a[1..], b[1..]);
      if a[1..] == b[1..] {
        assert a == [a[0]] + a[1..] && b == [b[0]] + b[1..];
      }
    }
  }

  lemma {:induction false} LexAsymmetric(a: string, b: string)
    ensures !(LexLess(a, b) && LexLess(b, a))
    decreases |a|
  {
    if a != [] && b != [] && a[0] == b[0] {
      LexAsymmetric(a[1..], b[1..]);
    }
  }

  lemma {:induction false} LexLessTransitive(a: string, b: string, c: string)
    requires LexLess(a, b) && LexLess(b, c)
    ensures LexLess(a, c)
    decreases |a|
  {
    if a != [] && a[0] == b[0] && b[0] == c[0] {
      LexLessTransitive(a[1..], b[1..], c[1..]);
    }
  }

  /** Any two strings are ordered one way or the other. */
  lemma LexLeTotal(a: string, b: string)
    ensures LexLe(a, b) || LexLe(b, a)
  {
    LexAsymmetric(a, b);
  }

  lemma LexLeTransitive(a: string, b: string, c: string)
    requires LexLe(a, b) && LexLe(b, c)
    ensures LexLe(a, c)
  {
    if LexLess(c, a) {
      LexTrichotomy(b, c);
      if LexLess(b, c) {
        LexLessTransitive(b, c, a);
      }
    }
  }
}

