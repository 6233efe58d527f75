/**
 * Python's `float(x)` on a string, the last step of `parse_amount_to_dollars`
 * (app.py:45-48). Surrounding whitespace is ignored, where whitespace is only
 * `\t \n \v \f \r` and space: the separators `\x1c`-`\x1f`, which
 * `str.strip()` also removes, are not. What remains must be an optional sign
 * followed by `inf`, `infinity` or `nan` in any letter case, or by a decimal
 * literal: digit groups joined by single underscores, an optional fraction
 * after `.` and an optional exponent after `e` or `E`. Anything else raises
 * `ValueError`, modelled as `None`.
 *
 * The value of a decimal literal is kept exact as a `real`; Python rounds it to
 * the nearest binary double (and to an infinity beyond the double range).
 */
module FloatSyntax {
  import opened Wrappers
  import opened Text

  /** A value `float()` returns. */
  datatype FloatValue = Finite(value: real) | Infinite(negative: bool) | NaN

  /** `digitpart ::= digit (["_"] digit)*` */
  predicate IsDigitPart(s: string)
    decreases |s|
  {
    && |s| >= 1
    && IsDigit(s[0])
    && (|s| == 1 || IsDigitPart(s[1..]) || (s[1] == '_' && IsDigitPart(s[2..])))
  }

  predicate AllDigits(s: string) {
    forall i :: 0 <= i < |s| ==> IsDigit(s[i])
  }

  function DigitValue(c: char): nat
    requires IsDigit(c)
  {
    c as int - '0' as int
  }

  /** The number the digits of `s` spell, underscores skipped. */
  function DigitsValue(s: string): nat {
    if s == [] then 0
    else if IsDigit(s[|s| - 1]) then DigitsValue(s[..|s| - 1]) * 10 + DigitValue(s[|s| - 1])
    else DigitsValue(s[..|s| - 1])
  }

  /** How many digits `s` holds. */
  function DigitCount(s: string): nat {
    if s == [] then 0
    else (if IsDigit(s[|s| - 1]) then 1 else 0) + DigitCount(s[..|s| - 1])
  }

  function Pow10(k: nat): (r: nat)
    ensures r >= 1
  {
    if k == 0 then 1 else 10 * Pow10(k - 1)
  }

  /** `10 ** k` for any integer exponent. */
  function Scale(k: int): real {
    if k >= 0 then Pow10(k) as real else 1.0 / Pow10(-k) as real
  }

  /** The index of the first `c` in `s`, or `|s|` when there is none. */
  function FirstIndex(s: string, c: char): (r: nat)
    ensures r <= |s|
    ensures forall i :: 0 <= i < r ==> s[i] != c
    ensures r < |s| ==> s[r] == c
  {
    if s == [] then 0
    else if s[0] == c then 0
    else 1 + FirstIndex(s[1..], c)
  }

  predicate IsExponentMark(c: char) {
    c == 'e' || c == 'E'
  }

  /** The index of the first `e` or `E` in `s`, or `|s|` when there is none. */
  function FirstExponentMark(s: string): (r: nat)
    ensures r <= |s|
    ensures forall i :: 0 <= i < r ==> !IsExponentMark(s[i])
    ensures r < |s| ==> IsExponentMark(s[r])
  {
    if s == [] then 0
    else if IsExponentMark(s[0]) then 0
    else 1 + FirstExponentMark(s[1..])
  }

  /** `number ::= [digitpart] "." digitpart | digitpart ["."]` and its value. */
  function ParseNumber(s: string): Option<real> {
    var d := FirstIndex(s, '.');
    if d == |s| then
      if IsDigitPart(s) then Some(DigitsValue(s) as real) else None
    else
      var whole, fraction := s[..d], s[d + 1..];
      if && (whole != [] || fraction != [])
         && (whole == [] || IsDigitPart(whole))
         && (fraction == [] || IsDigitPart(fraction))
      then Some(PointValue(whole, fraction))
      else None
  }

  /** The value of `whole.fraction`: the fraction's digits are tenths,
      hundredths and so on. */
  function PointValue(whole: string, fraction: string): real {
    DigitsValue(whole) as real + DigitsValue(fraction) as real / Pow10(DigitCount(fraction)) as real
  }

  /** The exponent after `e`/`E`: `[sign] digitpart`. */
  function ParseExponent(s: string): Option<int> {
    if s != [] && (s[0] == '+' || s[0] == '-') then
      if IsDigitPart(s[1..]) then
        Some(if s[0] == '-' then -(DigitsValue(s[1..]) as int) else DigitsValue(s[1..]))
      else None
    else if IsDigitPart(s) then Some(DigitsValue(s))
    else None
  }

  /** `floatnumber ::= number [exponent]` and its value. */
  function ParseFloatNumber(s: string): Option<real> {
    var e := FirstExponentMark(s);
    if e == |s| then ParseNumber(s)
    else
      match (ParseNumber(s[..e]), ParseExponent(s[e + 1..]))
      case (Some(m), Some(k)) => Some(m * Scale(k))
      case _ => None
  }

  predicate IsSign(c: char) {
    c == '+' || c == '-'
  }

  /** `float(x)`; `None` where Python raises `ValueError`. */
  function ParseFloat(x: string): Option<FloatValue> {
    ParseTrimmed(Trim(x))
  }

  /** `float` of a text without surrounding whitespace: an optional sign and
      an unsigned value. */
  function ParseTrimmed(t: string): Option<FloatValue> {
    if t != [] && IsSign(t[0]) then ApplySign(t[0], ParseUnsigned(t[1..]))
    else ParseUnsigned(t)
  }

  /** A sign in front of what the rest reads as: `-` negates it, `+` keeps it,
      and a rejected rest stays rejected. */
  function ApplySign(sign: char, v: Option<FloatValue>): Option<FloatValue> {
    if v.Some? && sign == '-' then Some(Negated(v.value)) else v
  }

  /** `inf`, `infinity` or `nan` in any letter case, or a `floatnumber`. */
  function ParseUnsigned(body: string): Option<FloatValue> {
    var lowered := LowerStr(body);
    if lowered == "inf" || lowered == "infinity" then Some(Infinite(false))
    else if lowered == "nan" then Some(NaN)
    else
      match ParseFloatNumber(body)
      case None => None
      case Some(v) => Some(Finite(v))
  }

  /** The value with its sign flipped. */
  function Negated(v: FloatValue): FloatValue {
    match v
    case Finite(x) => Finite(-x)
    case Infinite(negative) => Infinite(!negative)
    case NaN => NaN
  }

  // ---------------------------------------------------------------------------
  // The whitespace `float()` strips

  /** Whitespace to `float()` (CPython's `Py_ISSPACE`): `\t \n \v \f \r` and
      space. The separators `\x1c`-`\x1f`, which `str.strip()` removes, are
      not among them. */
  predicate IsFloatSpace(c: char) {
    9 <= c as int <= 13 || c == ' '
  }

  /** The information separators `\x1c`-`\x1f`: whitespace to `str.strip()`
      but not to `float()`. */
  predicate IsSeparator(c: char) {
    28 <= c as int <= 31
  }

  predicate AllFloatSpace(s: string) {
    forall i :: 0 <= i < |s| ==> IsFloatSpace(s[i])
  }

  /** The text without its leading `float()` whitespace. */
  function TrimStart(s: string): (r: string)
    ensures |r| <= |s| && r == s[|s| - |r|..]
    ensures r == [] || !IsFloatSpace(r[0])
    ensures forall i :: 0 <= i < |s| - |r| ==> IsFloatSpace(s[i])
  {
    if s != [] && IsFloatSpace(s[0]) then
      var r := TrimStart(s[1..]);
      assert forall i :: 1 <= i < |s| - |r| ==> s[i] == s[1..][i - 1];
      r
    else s
  }

  /** The text without its trailing `float()` whitespace. */
  function TrimEnd(s: string): (r: string)
    ensures |r| <= |s| && r == s[..|r|]
    ensures r == [] || !IsFloatSpace(r[|r| - 1])
    ensures forall i :: |r| <= i < |s| ==> IsFloatSpace(s[i])
  {
    if s != [] && IsFloatSpace(s[|s| - 1]) then TrimEnd(s[..|s| - 1]) else s
  }

  /** The text `float()` goes on to read: whitespace removed at both ends. */
  function Trim(s: string): string {
    TrimEnd(TrimStart(s))
  }

  /** Text with no `float()` whitespace at either end is its own trim. */
  lemma TrimmedText(s: string)
    requires s == [] || (!IsFloatSpace(s[0]) && !IsFloatSpace(s[|s| - 1]))
    ensures Trim(s) == s
  {
  }

  /** Trimming removes whitespace only: any other character stays. */
  lemma TrimKeeps(x: string, c: char)
    requires c in x && !IsFloatSpace(c)
    ensures c in Trim(x)
  {
    TrimStartKeeps(x, c);
    TrimEndKeeps(TrimStart(x), c);
  }

  lemma TrimStartKeeps(x: string, c: char)
    requires c in x && !IsFloatSpace(c)
    ensures c in TrimStart(x)
  {
    var i :| 0 <= i < |x| && x[i] == c;
    var l := TrimStart(x);
    var k := |x| - |l|;
    assert l == x[k..];
    assert k <= i;
    assert l[i - k] == x[i];
  }

  lemma TrimEndKeeps(x: string, c: char)
    requires c in x && !IsFloatSpace(c)
    ensures c in TrimEnd(x)
  {
    var i :| 0 <= i < |x| && x[i] == c;
    var r := TrimEnd(x);
    assert i < |r|;
    assert r[i] == x[i];
  }

  lemma {:induction false} TrimStartConcat(a: string, b: string)
    ensures TrimStart(a + b) == if TrimStart(a) == [] then TrimStart(b) else TrimStart(a) + b
  {
    if a == [] {
      assert a + b == b;
    } else {
      assert (a + b)[0] == a[0];
      assert (a + b)[1..] == a[1..] + b;
      if IsFloatSpace(a[0]) {
        TrimStartConcat(a[1..], b);
      }
    }
  }

  lemma {:induction false} TrimEndAppendSpace(a: string, q: string)
    requires AllFloatSpace(q)
    ensures TrimEnd(a + q) == TrimEnd(a)
  {
    if q == [] {
      assert a + q == a;
    } else {
      assert (a + q)[|a + q| - 1] == q[|q| - 1];
      assert (a + q)[..|a + q| - 1] == a + q[..|q| - 1];
      TrimEndAppendSpace(a, q[..|q| - 1]);
    }
  }

  lemma TrimStartAllSpace(s: string)
    requires AllFloatSpace(s)
    ensures TrimStart(s) == []
  {
  }

  /** `float()` whitespace around a text does not change its trim. */
  lemma TrimSurrounded(p: string, s: string, q: string)
    requires AllFloatSpace(p) && AllFloatSpace(q)
    ensures Trim(p + s + q) == Trim(s)
  {
    AppendAssoc(p, s, q);
    TrimStartAllSpace(p);
    TrimStartConcat(p, s + q);
    TrimStartConcat(s, q);
    if TrimStart(s) == [] {
      TrimStartAllSpace(q);
    } else {
      TrimEndAppendSpace(TrimStart(s), q);
    }
  }

  // ---------------------------------------------------------------------------
  // Characters `float()` never accepts

  /** A character that appears in no text `float()` accepts: not a digit, a
      letter, `float()` whitespace, `_`, `.` or a sign. A comma, `$` and the
      separators `\x1c`-`\x1f` are such. */
  predicate IsForeign(c: char) {
    !IsDigit(c) && !IsLetter(c) && !IsFloatSpace(c) && c != '_' && c != '.' && !IsSign(c)
  }

  lemma {:induction false} DigitPartExcludes(s: string, c: char)
    requires IsDigitPart(s) && IsForeign(c)
    ensures c !in s
    decreases |s|
  {
    if |s| > 1 {
      if IsDigitPart(s[1..]) {
        DigitPartExcludes(s[1..], c);
        assert s == [s[0]] + s[1..];
      } else {
        DigitPartExcludes(s[2..], c);
        assert s == [s[0], s[1]] + s[2..];
      }
    }
  }

  lemma NumberExcludes(s: string, c: char)
    requires ParseNumber(s).Some? && IsForeign(c)
    ensures c !in s
  {
    var d := FirstIndex(s, '.');
    if d == |s| {
      DigitPartExcludes(s, c);
    } else {
      var whole, fraction := s[..d], s[d + 1..];
      if whole != [] {
        DigitPartExcludes(whole, c);
      }
      if fraction != [] {
        DigitPartExcludes(fraction, c);
      }
      assert s == whole + [s[d]] + fraction;
    }
  }

  lemma ExponentExcludes(s: string, c: char)
    requires ParseExponent(s).Some? && IsForeign(c)
    ensures c !in s
  {
    if s != [] && IsSign(s[0]) {
      DigitPartExcludes(s[1..], c);
      assert s == [s[0]] + s[1..];
    } else {
      DigitPartExcludes(s, c);
    }
  }

  lemma FloatNumberExcludes(s: string, c: char)
    requires ParseFloatNumber(s).Some? && IsForeign(c)
    ensures c !in s
  {
    var e := FirstExponentMark(s);
    if e == |s| {
      NumberExcludes(s, c);
    } else {
      NumberExcludes(s[..e], c);
      ExponentExcludes(s[e + 1..], c);
      assert s == s[..e] + [s[e]] + s[e + 1..];
    }
  }

  lemma UnsignedExcludes(body: string, c: char)
    requires ParseUnsigned(body).Some? && IsForeign(c)
    ensures c !in body
  {
    var lowered := LowerStr(body);
    if lowered != "inf" && lowered != "infinity" && lowered != "nan" {
      FloatNumberExcludes(body, c);
    }
  }

  /** `float()` raises on any text holding a foreign character, such as a
      thousands comma left in place. */
  lemma ParseRejectsForeign(x: string, c: char)
    requires IsForeign(c) && c in x
    ensures ParseFloat(x) == None
  {
    var t := Trim(x);
    TrimKeeps(x, c);
    if ParseTrimmed(t).Some? {
      if t != [] && IsSign(t[0]) {
        UnsignedExcludes(t[1..], c);
      } else {
        UnsignedExcludes(t, c);
      }
    }
  }

  /** In particular `float()` rejects any text holding a comma. */
  lemma ParseRejectsComma(x: string)
    requires ',' in x
    ensures ParseFloat(x) == None
  {
    ParseRejectsForeign(x, ',');
  }

  /** `float()` rejects any text holding a separator `\x1c`-`\x1f`, even at
      an end, where `str.strip()` would have removed it. */
  lemma ParseRejectsSeparator(x: string, c: char)
    requires IsSeparator(c) && c in x
    ensures ParseFloat(x) == None
  {
    ParseRejectsForeign(x, c);
  }

  /** `float("\x1c1")` raises. */
  lemma ExampleLeadingSeparator()
    ensures ParseFloat("\U{1c}1") == None
  {
    ParseRejectsSeparator("\U{1c}1", '\U{1c}');
  }

  // ---------------------------------------------------------------------------
  // Words `float()` rejects

  predicate AllLetters(s: string) {
    forall i :: 0 <= i < |s| ==> IsLetter(s[i])
  }

  /** `inf`, `infinity` and `nan`, in any letter case, are the only words
      `float()` reads. */
  predicate IsSpecialWord(s: string) {
    var lowered := LowerStr(s);
    lowered == "inf" || lowered == "infinity" || lowered == "nan"
  }

  /** Letters alone, or nothing at all, are no `number`. */
  lemma NumberOfLetters(m: string)
    requires AllLetters(m)
    ensures ParseNumber(m) == None
  {
    assert forall i :: 0 <= i < |m| ==> m[i] != '.' by {
      forall i | 0 <= i < |m| ensures m[i] != '.' {
        assert IsLetter(m[i]);
      }
    }
    if m != [] {
      assert IsLetter(m[0]);
    }
  }

  /** A word is no `floatnumber`, even where an `e` or `E` in it could open
      an exponent: the part before that letter is no `number`. */
  lemma FloatNumberOfLetters(s: string)
    requires AllLetters(s)
    ensures ParseFloatNumber(s) == None
  {
    var e := FirstExponentMark(s);
    if e == |s| {
      NumberOfLetters(s);
    } else {
      NumberOfLetters(s[..e]);
    }
  }

  /** `float()` raises on a word other than `inf`, `infinity` or `nan`. */
  lemma ParseRejectsWord(s: string)
    requires s != [] && AllLetters(s) && !IsSpecialWord(s)
    ensures ParseFloat(s) == None
  {
    assert IsLetter(s[0]) && IsLetter(s[|s| - 1]);
    UnsignedOfTrimmed(s);
    FloatNumberOfLetters(s);
  }

  /** `float("abc")` raises. */
  lemma ExampleWord()
    ensures ParseFloat("abc") == None
  {
    assert !IsSpecialWord("abc") by {
      assert LowerStr("abc")[0] == 'a';
    }
    ParseRejectsWord("abc");
  }

  /** `float("e")` raises: an exponent mark needs a number before it. */
  lemma ExampleExponentMarkAlone()
    ensures ParseFloat("e") == None
  {
    assert !IsSpecialWord("e") by {
      assert |LowerStr("e")| == 1;
    }
    ParseRejectsWord("e");
  }

  /** `float("NaN")`, on the other hand, reads a NaN. */
  lemma ExampleNaNWord()
    ensures ParseFloat("NaN") == Some(NaN)
  {
    assert LowerStr("NaN") == "nan" by {
      assert LowerStr("NaN")[0] == 'n' && LowerStr("NaN")[1] == 'a' && LowerStr("NaN")[2] == 'n';
    }
    UnsignedOfTrimmed("NaN");
  }

  // ---------------------------------------------------------------------------
  // Decimal rendering and its round trip

  function DigitChar(d: nat): (c: char)
    requires d < 10
    ensures IsDigit(c) && DigitValue(c) == d
  {
    ('0' as int + d) as char
  }

  /** `str(n)` for a natural number. */
  function Render(n: nat): (s: string)
    ensures s != []
  {
    if n < 10 then [DigitChar(n)] else Render(n / 10) + [DigitChar(n % 10)]
  }

  /** The rendering of a number is a digit string spelling that number. */
  lemma {:induction false} RenderDigits(n: nat)
    ensures AllDigits(Render(n))
    ensures DigitsValue(Render(n)) == n
  {
    var s := Render(n);
    if n >= 10 {
      RenderDigits(n / 10);
      assert s[..|s| - 1] == Render(n / 10);
    }
  }

  /** A non-empty string of digits is a digit part. */
  lemma {:induction false} DigitsArePart(s: string)
    requires s != [] && AllDigits(s)
    ensures IsDigitPart(s)
  {
    if |s| > 1 {
      DigitsArePart(s[1..]);
    }
  }

  /** In a string of digits every character counts as a digit. */
  lemma {:induction false} DigitCountOfDigits(s: string)
    requires AllDigits(s)
    ensures DigitCount(s) == |s|
  {
    if s != [] {
      DigitCountOfDigits(s[..|s| - 1]);
    }
  }

  // ---------------------------------------------------------------------------
  // Values of plain decimal texts

  lemma NoExponentInDigits(s: string)
    requires forall i :: 0 <= i < |s| ==> IsDigit(s[i]) || s[i] == '.'
    ensures FirstExponentMark(s) == |s|
  {
    if FirstExponentMark(s) < |s| {
      assert IsExponentMark(s[FirstExponentMark(s)]);
    }
  }

  /** A lowered text that starts with a digit or a point is not `inf`,
      `infinity` or `nan`. */
  lemma NotSpecialWord(body: string)
    requires body != [] && (IsDigit(body[0]) || body[0] == '.')
    ensures LowerStr(body) != "inf" && LowerStr(body) != "infinity" && LowerStr(body) != "nan"
  {
    assert LowerStr(body)[0] == body[0];
  }

  /** A trimmed, unsigned text that starts with a digit or a point is read as
      a `floatnumber`. */
  lemma ParseUnsignedNumber(s: string, v: real)
    requires s != [] && (IsDigit(s[0]) || s[0] == '.') && !IsFloatSpace(s[|s| - 1])
    requires ParseFloatNumber(s) == Some(v)
    ensures ParseFloat(s) == Some(Finite(v))
  {
    TrimmedText(s);
    NotSpecialWord(s);
  }

  /** `float()` whitespace around the text is ignored. */
  lemma ParseIgnoresSpace(p: string, s: string, q: string)
    requires AllFloatSpace(p) && AllFloatSpace(q)
    ensures ParseFloat(p + s + q) == ParseFloat(s)
  {
    TrimSurrounded(p, s, q);
  }

  /** A leading `-` flips the sign of whatever the rest reads as, and a leading
      `+` changes nothing. */
  lemma ParseSigned(s: string)
    requires s != [] && !IsFloatSpace(s[0]) && !IsSign(s[0]) && !IsFloatSpace(s[|s| - 1])
    ensures ParseFloat("-" + s) == if ParseFloat(s).Some? then Some(Negated(ParseFloat(s).value)) else None
    ensures ParseFloat("+" + s) == ParseFloat(s)
  {
    UnsignedOfTrimmed(s);
    SignThenUnsigned('-', s);
    SignThenUnsigned('+', s);
  }

  /** A trimmed text without a sign is read as an unsigned value. */
  lemma UnsignedOfTrimmed(s: string)
    requires s != [] && !IsFloatSpace(s[0]) && !IsSign(s[0]) && !IsFloatSpace(s[|s| - 1])
    ensures ParseFloat(s) == ParseUnsigned(s)
  {
    TrimmedText(s);
  }

  /** A sign before a text ending in non-whitespace applies to the unsigned
      value of that text. */
  lemma SignThenUnsigned(c: char, s: string)
    requires IsSign(c) && s != [] && !IsFloatSpace(s[|s| - 1])
    ensures ParseFloat([c] + s) == ApplySign(c, ParseUnsigned(s))
  {
    var m := [c] + s;
    assert m[0] == c && m[1..] == s && m[|m| - 1] == s[|s| - 1];
    ParseOfSigned(m);
  }

  /** A trimmed text that opens with a sign. */
  lemma ParseOfSigned(t: string)
    requires t != [] && IsSign(t[0]) && !IsFloatSpace(t[|t| - 1])
    ensures ParseFloat(t) == ApplySign(t[0], ParseUnsigned(t[1..]))
  {
    TrimmedText(t);
  }

  lemma NoPointInDigits(s: string)
    requires AllDigits(s)
    ensures FirstIndex(s, '.') == |s|
  {
  }

  /** `float` of a string of digits is the number the digits spell. */
  lemma ParseWhole(w: string)
    requires w != [] && AllDigits(w)
    ensures ParseFloat(w) == Some(Finite(DigitsValue(w) as real))
  {
    NoExponentInDigits(w);
    NoPointInDigits(w);
    DigitsArePart(w);
    ParseUnsignedNumber(w, DigitsValue(w) as real);
  }

  /** The text `w.f` consists of digits and one point. */
  lemma DecimalChars(w: string, f: string)
    requires AllDigits(w) && AllDigits(f)
    ensures var s := w + "." + f;
      && (forall i :: 0 <= i < |s| ==> IsDigit(s[i]) || s[i] == '.')
      && (forall i :: 0 <= i < |w| ==> s[i] != '.')
      && s[|w|] == '.' && s[..|w|] == w && s[|w| + 1..] == f
  {
    var s := w + "." + f;
    forall i | 0 <= i < |s|
      ensures IsDigit(s[i]) || s[i] == '.'
    {
      if i < |w| {
        assert s[i] == w[i];
        assert s[i] != '.';
      } else if i > |w| {
        assert s[i] == f[i - |w| - 1];
      }
    }
    assert s[..|w|] == w;
    assert s[|w| + 1..] == f;
  }

  /** The first `c` is at `k` when `s[k]` is `c` and no earlier character is. */
  lemma FirstIndexAt(s: string, c: char, k: nat)
    requires k < |s| && s[k] == c
    requires forall i :: 0 <= i < k ==> s[i] != c
    ensures FirstIndex(s, c) == k
  {
  }

  /** `number` of `w.f` with digit strings `w` and `f`, `f` not empty. */
  lemma NumberOfDecimal(w: string, f: string)
    requires AllDigits(w) && AllDigits(f) && f != []
    ensures ParseNumber(w + "." + f) == Some(PointValue(w, f))
  {
    var s := w + "." + f;
    DecimalChars(w, f);
    FirstIndexAt(s, '.', |w|);
    DigitsArePart(f);
    if w != [] {
      DigitsArePart(w);
    }
  }

  /** `float` of `w.f`, with `w` and `f` strings of digits and `f` not empty, is
      the decimal the text spells (`PointValueOfDigits` gives its value). */
  lemma ParseDecimal(w: string, f: string)
    requires AllDigits(w) && AllDigits(f) && f != []
    ensures ParseFloat(w + "." + f) == Some(Finite(PointValue(w, f)))
  {
    var s := w + "." + f;
    DecimalChars(w, f);
    assert s[|s| - 1] == f[|f| - 1];
    NoExponentInDigits(s);
    NumberOfDecimal(w, f);
    ParseUnsignedNumber(s, PointValue(w, f));
  }

  /** With a fraction of digits only, `w.f` is `w` plus `f` tenths, hundredths, ... */
  lemma PointValueOfDigits(w: string, f: string)
    requires AllDigits(f)
    ensures PointValue(w, f) == DigitsValue(w) as real + DigitsValue(f) as real / Pow10(|f|) as real
  {
    DigitCountOfDigits(f);
  }

  /** `float(str(n)) == n`. */
  lemma ParseRender(n: nat)
    ensures ParseFloat(Render(n)) == Some(Finite(n as real))
  {
    RenderDigits(n);
    ParseWhole(Render(n));
  }
}
