/**
 * ASCII character classes and the string primitives the cleaning helpers use:
 * Python's `str.strip()`, `str.upper()`, `str.lower()`, character filters
 * (`re.sub` with an empty replacement, `str.replace(c, "")`) and `str.count`.
 * Python's classes are Unicode-aware; this model restricts them to ASCII.
 */
module Text {

  /** ASCII characters Python treats as whitespace (`str.isspace`, regex `\s`):
      tab, line feed, vertical tab, form feed, carriage return, the four
      separators 0x1c-0x1f, and space. */
  predicate IsSpace(c: char) {
    9 <= c as int <= 13 || 28 <= c as int <= 32
  }

  predicate NotSpace(c: char) {
    !IsSpace(c)
  }

  predicate IsDigit(c: char) {
    '0' <= c <= '9'
  }

  predicate IsLower(c: char) {
    'a' <= c <= 'z'
  }

  predicate IsUpper(c: char) {
    'A' <= c <= 'Z'
  }

  predicate IsLetter(c: char) {
    IsLower(c) || IsUpper(c)
  }

  function ToUpper(c: char): char {
    if IsLower(c) then (c as int - 32) as char else c
  }

  function ToLower(c: char): char {
    if IsUpper(c) then (c as int + 32) as char else c
  }

  /** `str.upper()` */
  function UpperStr(s: string): (r: string)
    ensures |r| == |s| && forall i :: 0 <= i < |s| ==> r[i] == ToUpper(s[i])
  {
    if s == [] then [] else [ToUpper(s[0])] + UpperStr(s[1..])
  }

  /** `str.lower()` */
  function LowerStr(s: string): (r: string)
    ensures |r| == |s| && forall i :: 0 <= i < |s| ==> r[i] == ToLower(s[i])
  {
    if s == [] then [] else [ToLower(s[0])] + LowerStr(s[1..])
  }

  predicate AllSpace(s: string) {
    forall i :: 0 <= i < |s| ==> IsSpace(s[i])
  }

  /** `str.lstrip()`: what is left after the leading whitespace. */
  function LStrip(s: string): (r: string)
    ensures |r| <= |s| && r == s[|s| - |r|..]
    ensures r == [] || !IsSpace(r[0])
    ensures forall i :: 0 <= i < |s| - |r| ==> IsSpace(s[i])
  {
    if s != [] && IsSpace(s[0]) then
      var r := LStrip(s[1..]);
      assert forall i :: 1 <= i < |s| - |r| ==> s[i] == s[1..][i - 1];
      r
    else s
  }

  /** `str.rstrip()`: what is left after the trailing whitespace. */
  function RStrip(s: string): (r: string)
    ensures |r| <= |s| && r == s[..|r|]
    ensures r == [] || !IsSpace(r[|r| - 1])
    ensures forall i :: |r| <= i < |s| ==> IsSpace(s[i])
  {
    if s != [] && IsSpace(s[|s| - 1]) then RStrip(s[..|s| - 1]) else s
  }

  /** `str.strip()` */
  function Strip(s: string): string {
    RStrip(LStrip(s))
  }

  /** The characters of `s` that satisfy `keep`, in order. */
  function Filter(keep: char -> bool, s: string): (r: string)
    ensures |r| <= |s|
    ensures forall i :: 0 <= i < |r| ==> keep(r[i])
  {
    if s == [] then []
    else (if keep(s[0]) then [s[0]] else []) + Filter(keep, s[1..])
  }

  /** `str.count(c)` for a single character. */
  function Count(s: string, c: char): nat {
    if s == [] then 0
    else (if s[0] == c then 1 else 0) + Count(s[1..], c)
  }

  lemma {:induction false} FilterConcat(keep: char -> bool, a: string, b: string)
    ensures Filter(keep, a + b) == Filter(keep, a) + Filter(keep, b)
  {
    if a == [] {
      assert a + b == b;
    } else {
      assert (a + b)[0] == a[0];
      assert (a + b)[1..] == a[1..] + b;
      FilterConcat(keep, a[1..], b);
    }
  }

  lemma {:induction false} FilterKeepsAll(keep: char -> bool, s: string)
    requires forall i :: 0 <= i < |s| ==> keep(s[i])
    ensures Filter(keep, s) == s
  {
    if s != [] {
      FilterKeepsAll(keep, s[1..]);
    }
  }

  lemma {:induction false} FilterDropsAll(keep: char -> bool, s: string)
    requires forall i :: 0 <= i < |s| ==> !keep(s[i])
    ensures Filter(keep, s) == []
  {
    if s != [] {
      FilterDropsAll(keep, s[1..]);
    }
  }

  /** One character counts once if it is `c` and not at all otherwise; with
      `Count([], c) == 0` and `CountConcat` this fixes the count of every text. */
  lemma CountOne(x: char, c: char)
    ensures Count([x], c) == if x == c then 1 else 0
  {
    assert [x][1..] == [];
  }

  lemma {:induction false} CountConcat(a: string, b: string, c: char)
    ensures Count(a + b, c) == Count(a, c) + Count(b, c)
  {
    if a == [] {
      assert a + b == b;
    } else {
      assert (a + b)[0] == a[0];
      assert (a + b)[1..] == a[1..] + b;
      CountConcat(a[1..], b, c);
    }
  }

  lemma {:induction false} CountZero(s: string, c: char)
    ensures Count(s, c) == 0 <==> c !in s
  {
    if s != [] {
      CountZero(s[1..], c);
      assert s == [s[0]] + s[1..];
    }
  }

  lemma LowerConcat(a: string, b: string)
    ensures LowerStr(a + b) == LowerStr(a) + LowerStr(b)
  {
    var l, r := LowerStr(a + b), LowerStr(a) + LowerStr(b);
    forall i | 0 <= i < |a + b|
      ensures l[i] == r[i]
    {
      if i < |a| {
        assert (a + b)[i] == a[i];
      } else {
        assert (a + b)[i] == b[i - |a|];
      }
    }
  }

  lemma UpperConcat(a: string, b: string)
    ensures UpperStr(a + b) == UpperStr(a) + UpperStr(b)
  {
    var l, r := UpperStr(a + b), UpperStr(a) + UpperStr(b);
    forall i | 0 <= i < |a + b|
      ensures l[i] == r[i]
    {
      if i < |a| {
        assert (a + b)[i] == a[i];
      } else {
        assert (a + b)[i] == b[i - |a|];
      }
    }
  }

  /** Leading whitespace of a concatenation. */
  lemma {:induction false} LStripConcat(a: string, b: string)
    ensures LStrip(a + b) == if LStrip(a) == [] then LStrip(b) else LStrip(a) + b
  {
    if a == [] {
      assert a + b == b;
    } else {
      assert (a + b)[0] == a[0];
      assert (a + b)[1..] == a[1..] + b;
      if IsSpace(a[0]) {
        LStripConcat(a[1..], b);
      }
    }
  }

  /** Trailing whitespace added to a string is stripped again. */
  lemma {:induction false} RStripAppendSpace(a: string, q: string)
    requires AllSpace(q)
    ensures RStrip(a + q) == RStrip(a)
  {
    if q == [] {
      assert a + q == a;
    } else {
      assert (a + q)[|a + q| - 1] == q[|q| - 1];
      assert (a + q)[..|a + q| - 1] == a + q[..|q| - 1];
      RStripAppendSpace(a, q[..|q| - 1]);
    }
  }

  /** The whitespace `str.lstrip()` removes. */
  lemma LeadingSpace(s: string) returns (p: string)
    ensures s == p + LStrip(s) && AllSpace(p)
  {
    p := s[..|s| - |LStrip(s)|];
  }

  /** The whitespace `str.rstrip()` removes. */
  lemma TrailingSpace(s: string) returns (q: string)
    ensures s == RStrip(s) + q && AllSpace(q)
  {
    q := s[|RStrip(s)|..];
  }

  /** A string is its stripped text with whitespace on either side. */
  lemma SplitAtStrip(s: string) returns (p: string, q: string)
    ensures s == p + (Strip(s) + q)
    ensures AllSpace(p) && AllSpace(q)
  {
    p := LeadingSpace(s);
    q := TrailingSpace(LStrip(s));
  }

  /** `str.strip()` leaves no whitespace at either end. */
  lemma StripEnds(c: string)
    ensures var r := Strip(c); r == [] || (!IsSpace(r[0]) && !IsSpace(r[|r| - 1]))
  {
    var l := LStrip(c);
    var r := RStrip(l);
    if r != [] {
      assert r[0] == l[0];
    }
  }

  /** Text with no whitespace at either end is its own strip. */
  lemma StripTrimmed(s: string)
    requires s == [] || (!IsSpace(s[0]) && !IsSpace(s[|s| - 1]))
    ensures Strip(s) == s
  {
  }

  /** Whitespace around a text does not change its strip. */
  lemma StripSurrounded(p: string, s: string, q: string)
    requires AllSpace(p) && AllSpace(q)
    ensures Strip(p + s + q) == Strip(s)
  {
    AppendAssoc(p, s, q);
    LStripAllSpace(p);
    LStripConcat(p, s + q);
    LStripConcat(s, q);
    if LStrip(s) == [] {
      LStripAllSpace(q);
    } else {
      RStripAppendSpace(LStrip(s), q);
    }
  }

  lemma AppendAssoc(a: string, b: string, c: string)
    ensures a + (b + c) == (a + b) + c
  {
  }

  lemma LStripAllSpace(s: string)
    requires AllSpace(s)
    ensures LStrip(s) == []
  {
  }
}
