/**
 * `parse_amount_to_dollars` (app.py:34-48). A raw amount cell is rewritten in
 * stages and the result handed to `float()`:
 *
 *   1. strip, delete every `$`, delete every `USD`, strip again;
 *   2. exactly one comma and no period: the comma is a decimal comma and
 *      becomes `.`;
 *   3. then, more than one comma and a period: the commas are thousands
 *      separators and are deleted.
 *
 * A missing cell, or a text `float()` rejects, gives NaN. Python's
 * `float('nan')` and the missing marker are the same value, so both are
 * `FloatValue.NaN` here.
 */
module Amounts {
  import opened Wrappers
  import opened Text
  import opened FloatSyntax

  // ---------------------------------------------------------------------------
  // The string operations of the rewrite

  /** `str.replace(c, "")` for a single character `c`. */
  function RemoveChar(s: string, c: char): (r: string)
    ensures c !in r
  {
    if s == [] then []
    else (if s[0] == c then [] else [s[0]]) + RemoveChar(s[1..], c)
  }

  /** `str.replace(c, d)` for single characters `c` and `d`. */
  function ReplaceChar(s: string, c: char, d: char): (r: string)
    ensures |r| == |s|
    ensures forall i :: 0 <= i < |s| ==> r[i] == (if s[i] == c then d else s[i])
  {
    if s == [] then []
    else [if s[0] == c then d else s[0]] + ReplaceChar(s[1..], c, d)
  }

  /** `USD` occurs in `s` at index `i`. */
  predicate UsdAt(s: string, i: int) {
    0 <= i && i + 3 <= |s| && s[i] == 'U' && s[i + 1] == 'S' && s[i + 2] == 'D'
  }

  /** `str.replace("USD", "")`: occurrences are found left to right without
      overlapping and deleted; the search resumes after each one, so letters
      brought together by a deletion are not searched again. */
  function RemoveUsd(s: string): (r: string)
    ensures |r| <= |s|
    decreases |s|
  {
    if |s| < 3 then s
    else if UsdAt(s, 0) then RemoveUsd(s[3..])
    else [s[0]] + RemoveUsd(s[1..])
  }

  // ---------------------------------------------------------------------------
  // The rewrite and the parse

  /** The text after app.py:37-38. */
  function Stage(x: string): string {
    Strip(RemoveUsd(RemoveChar(Strip(x), '$')))
  }

  /** The condition of app.py:40: a single comma and no period. */
  predicate DecimalComma(y: string) {
    Count(y, ',') == 1 && Count(y, '.') == 0
  }

  /** The condition of app.py:43: several commas and a period. */
  predicate ThousandsCommas(y: string) {
    Count(y, ',') > 1 && '.' in y
  }

  /** The comma rules of app.py:40-44, applied in order to the stripped text. */
  function CommaRules(y: string): string {
    var z := if DecimalComma(y) then ReplaceChar(y, ',', '.') else y;
    if ThousandsCommas(z) then RemoveChar(z, ',') else z
  }

  /** The text `parse_amount_to_dollars` hands to `float()`. */
  function Rewrite(x: string): string {
    CommaRules(Stage(x))
  }

  /** `parse_amount_to_dollars` on a cell; `None` is a missing cell. */
  function ParseAmount(cell: Option<string>): (r: FloatValue)
    ensures cell.None? ==> r.NaN?
  {
    match cell
    case None => NaN
    case Some(x) =>
      match ParseFloat(Rewrite(x))
      case Some(v) => v
      case None => NaN
  }

  // ---------------------------------------------------------------------------
  // Deleting `USD`

  lemma UsdAtTail(s: string)
    requires s != []
    ensures forall i :: i >= 0 ==> (UsdAt(s[1..], i) <==> UsdAt(s, i + 1))
  {
  }

  /** Deleting `USD` changes a text exactly when `USD` occurs in it. */
  lemma {:induction false} RemoveUsdUnchangedIff(s: string)
    ensures RemoveUsd(s) == s <==> forall i :: !UsdAt(s, i)
    decreases |s|
  {
    if |s| >= 3 && !UsdAt(s, 0) {
      RemoveUsdUnchangedIff(s[1..]);
      UsdAtTail(s);
      assert RemoveUsd(s) == s <==> RemoveUsd(s[1..]) == s[1..] by {
        assert s == [s[0]] + s[1..];
      }
      assert (forall i :: !UsdAt(s, i)) <==> (forall i :: !UsdAt(s[1..], i)) by {
        if forall i :: !UsdAt(s[1..], i) {
          forall i
            ensures !UsdAt(s, i)
          {
            if i >= 1 {
              assert !UsdAt(s[1..], i - 1);
            }
          }
        }
      }
    }
  }

  /** A text without the letter `U` has no `USD` to delete. */
  lemma RemoveUsdWithoutU(s: string)
    requires 'U' !in s
    ensures RemoveUsd(s) == s
  {
    RemoveUsdUnchangedIff(s);
  }

  /** Every `USD` is deleted, not only the first: text in which no `USD`
      starts is kept, even when it ends in `U` or `US`, the `USD` after it is
      deleted, and the search goes on in the rest. */
  lemma {:induction false} RemoveUsdAfterPlain(a: string, b: string)
    requires forall i :: !UsdAt(a, i)
    ensures RemoveUsd(a + "USD" + b) == a + RemoveUsd(b)
    decreases |a|
  {
    if a == [] {
      RemoveUsdAtStart(b);
    } else {
      var t := a[1..] + "USD" + b;
      assert a + "USD" + b == [a[0]] + t by {
        assert a == [a[0]] + a[1..];
      }
      assert !UsdAt([a[0]] + t, 0) by {
        if |a| >= 3 {
          assert !UsdAt(a, 0);
        }
      }
      RemoveUsdKeepsHead(a[0], t);
      assert forall i :: !UsdAt(a[1..], i) by {
        forall i ensures !UsdAt(a[1..], i) {
          assert !UsdAt(a, i + 1);
        }
      }
      RemoveUsdAfterPlain(a[1..], b);
      AppendAssoc([a[0]], a[1..], RemoveUsd(b));
      assert [a[0]] + a[1..] == a;
    }
  }

  /** A `USD` at the start is deleted. */
  lemma RemoveUsdAtStart(b: string)
    ensures RemoveUsd("USD" + b) == RemoveUsd(b)
  {
    var s := "USD" + b;
    assert UsdAt(s, 0) && s[3..] == b;
  }

  /** A first character that opens no `USD` is kept. */
  lemma RemoveUsdKeepsHead(c: char, t: string)
    requires !UsdAt([c] + t, 0)
    ensures RemoveUsd([c] + t) == [c] + RemoveUsd(t)
  {
    var s := [c] + t;
    assert s[1..] == t;
  }
  /** `"USD 5 USD"` loses both of its `USD`s. */
  lemma RemoveUsdBoth()
    ensures RemoveUsd("USD 5 USD") == " 5 "
  {
    RemoveUsdAfterPlain(" 5 ", "");
    assert " 5 " + "USD" + "" == " 5 USD";
    RemoveUsdAfterPlain("", " 5 USD");
    assert "" + "USD" + " 5 USD" == "USD 5 USD";
  }

  /** A stray `U` before a `USD` is kept: `"US USD"` gives `"US "` and
      `"U USD"` gives `"U "`. */
  lemma RemoveUsdStrayU()
    ensures RemoveUsd("US USD") == "US "
    ensures RemoveUsd("U USD") == "U "
  {
    assert !UsdAt("US ", 0);
    RemoveUsdAfterPlain("US ", "");
    assert "US " + "USD" + "" == "US USD";
    assert !UsdAt("U ", 0);
    RemoveUsdAfterPlain("U ", "");
    assert "U " + "USD" + "" == "U USD";
  }

  /** One pass of deletion can leave a `USD` behind: the `USD` in the middle of
      `UUSDSD` goes, and the letters either side of it then spell `USD`. */
  lemma RemoveUsdLeavesJoined()
    ensures RemoveUsd("UUSDSD") == "USD"
  {
    var s := "UUSDSD";
    assert !UsdAt(s, 0) && UsdAt(s[1..], 0);
    assert s[1..][3..] == "SD";
  }

  // ---------------------------------------------------------------------------
  // What the rewrite guarantees

  /** `str.strip()` only removes characters. */
  lemma StripKeepsOut(s: string, c: char)
    requires c !in s
    ensures c !in Strip(s)
  {
    var p, q := SplitAtStrip(s);
  }

  lemma {:induction false} RemoveCharKeepsOut(s: string, c: char, d: char)
    requires d !in s
    ensures d !in RemoveChar(s, c)
  {
    if s != [] {
      RemoveCharKeepsOut(s[1..], c, d);
    }
  }

  lemma {:induction false} RemoveUsdKeepsOut(s: string, d: char)
    requires d !in s
    ensures d !in RemoveUsd(s)
    decreases |s|
  {
    if |s| >= 3 {
      if UsdAt(s, 0) {
        RemoveUsdKeepsOut(s[3..], d);
      } else {
        RemoveUsdKeepsOut(s[1..], d);
      }
    }
  }

  /** After app.py:37-38 the text has no `$` and no whitespace at either end. */
  lemma StageIsClean(x: string)
    ensures var y := Stage(x); y == [] || (!IsSpace(y[0]) && !IsSpace(y[|y| - 1]))
    ensures '$' !in Stage(x)
  {
    var u := RemoveUsd(RemoveChar(Strip(x), '$'));
    RemoveUsdKeepsOut(RemoveChar(Strip(x), '$'), '$');
    StripEnds(u);
    StripKeepsOut(u, '$');
  }

  /** The comma rules bring back no character other than a point. */
  lemma CommaRulesKeepOut(y: string, c: char)
    requires c !in y && c != '.'
    ensures c !in CommaRules(y)
  {
    var z := if DecimalComma(y) then ReplaceChar(y, ',', '.') else y;
    RemoveCharKeepsOut(z, ',', c);
  }

  /** The text handed to `float()` holds no `$`. */
  lemma RewriteHasNoDollar(x: string)
    ensures '$' !in Rewrite(x)
  {
    StageIsClean(x);
    CommaRulesKeepOut(Stage(x), '$');
  }

  /** The two comma rules, in order: a decimal comma becomes a point and then
      the thousands rule no longer applies; thousands commas are deleted; any
      other mix of commas and periods is left alone, and a comma survives
      exactly then. */
  lemma CommaRulesCases(y: string)
    ensures && (DecimalComma(y) ==> CommaRules(y) == ReplaceChar(y, ',', '.'))
            && (ThousandsCommas(y) ==> CommaRules(y) == RemoveChar(y, ','))
            && (!DecimalComma(y) && !ThousandsCommas(y) ==> CommaRules(y) == y)
            && (',' in CommaRules(y) <==> ',' in y && !DecimalComma(y) && !ThousandsCommas(y))
  {
    if DecimalComma(y) {
      CountZero(ReplaceChar(y, ',', '.'), ',');
    }
  }

  /** A cell holding a word is missing unless the word is `inf`, `infinity`
      or `nan`: letters pass every rewrite unchanged, as long as no `USD`
      occurs in them, and `float()` rejects them. */
  lemma AmountOfWord(x: string)
    requires x != [] && AllLetters(x) && !IsSpecialWord(x)
    requires forall i :: !UsdAt(x, i)
    ensures ParseAmount(Some(x)) == NaN
  {
    assert IsLetter(x[0]) && IsLetter(x[|x| - 1]);
    StripTrimmed(x);
    RemoveCharAbsent(x, '$');
    RemoveUsdUnchangedIff(x);
    assert Stage(x) == x;
    CountZero(x, ',');
    assert CommaRules(x) == x;
    ParseRejectsWord(x);
    MissingOfText(x, x);
  }

  /** `parse_amount_to_dollars("abc")` is missing. */
  lemma ExampleWordAmount()
    ensures ParseAmount(Some("abc")) == NaN
  {
    AmountOfWord("abc");
  }

  /** A comma neither rule removes reaches `float()`, which rejects it: the
      amount is missing. */
  lemma LeftoverCommaIsMissing(x: string)
    requires ',' in Stage(x) && !DecimalComma(Stage(x)) && !ThousandsCommas(Stage(x))
    ensures ParseAmount(Some(x)) == NaN
  {
    var y := Stage(x);
    var t := CommaRules(y);
    LeftoverComma(y);
    ParseRejectsComma(t);
    MissingOfText(x, t);
  }

  lemma LeftoverComma(y: string)
    requires ',' in y && !DecimalComma(y) && !ThousandsCommas(y)
    ensures ',' in CommaRules(y)
  {
    CommaRulesCases(y);
  }

  /** The amount of a cell whose rewritten text `float()` rejects. */
  lemma MissingOfText(x: string, t: string)
    requires Rewrite(x) == t && ParseFloat(t) == None
    ensures ParseAmount(Some(x)) == NaN
  {
  }

  /** A separator `\x1c`-`\x1f` inside the cell survives the strips of lines
      37-38, which remove it only at the ends, and the comma rules; `float()`
      then rejects it: the amount is missing. */
  lemma AmountWithSeparator(x: string, c: char)
    requires IsSeparator(c) && c in Stage(x)
    ensures ParseAmount(Some(x)) == NaN
  {
    var y := Stage(x);
    var t := CommaRules(y);
    CommaRulesKeepIn(y, c);
    ParseRejectsSeparator(t, c);
    MissingOfText(x, t);
  }

  /** The comma rules keep every character other than a comma. */
  lemma CommaRulesKeepIn(y: string, d: char)
    requires d in y && d != ','
    ensures d in CommaRules(y)
  {
    var z := if DecimalComma(y) then ReplaceChar(y, ',', '.') else y;
    var i :| 0 <= i < |y| && y[i] == d;
    assert z[i] == d;
    RemoveCharKeepsIn(z, ',', d);
  }

  lemma {:induction false} RemoveCharKeepsIn(s: string, c: char, d: char)
    requires d in s && d != c
    ensures d in RemoveChar(s, c)
  {
    if s[0] != d {
      assert d in s[1..];
      RemoveCharKeepsIn(s[1..], c, d);
    }
  }

  // ---------------------------------------------------------------------------
  // No digit is lost or gained

  lemma {:induction false} DigitsOfRemoveChar(s: string, c: char)
    requires !IsDigit(c)
    ensures Filter(IsDigit, RemoveChar(s, c)) == Filter(IsDigit, s)
  {
    if s != [] {
      DigitsOfRemoveChar(s[1..], c);
      FilterConcat(IsDigit, if s[0] == c then [] else [s[0]], RemoveChar(s[1..], c));
    }
  }

  lemma {:induction false} DigitsOfReplaceChar(s: string, c: char, d: char)
    requires !IsDigit(c) && !IsDigit(d)
    ensures Filter(IsDigit, ReplaceChar(s, c, d)) == Filter(IsDigit, s)
  {
    if s != [] {
      DigitsOfReplaceChar(s[1..], c, d);
      FilterConcat(IsDigit, [if s[0] == c then d else s[0]], ReplaceChar(s[1..], c, d));
    }
  }

  lemma {:induction false} DigitsOfRemoveUsd(s: string)
    ensures Filter(IsDigit, RemoveUsd(s)) == Filter(IsDigit, s)
    decreases |s|
  {
    if |s| >= 3 {
      if UsdAt(s, 0) {
        DigitsOfRemoveUsd(s[3..]);
        assert s == s[..3] + s[3..];
        FilterConcat(IsDigit, s[..3], s[3..]);
        FilterDropsAll(IsDigit, s[..3]);
      } else {
        DigitsOfRemoveUsd(s[1..]);
        FilterConcat(IsDigit, [s[0]], RemoveUsd(s[1..]));
      }
    }
  }

  lemma DigitsOfStrip(s: string)
    ensures Filter(IsDigit, Strip(s)) == Filter(IsDigit, s)
  {
    var p, q := SplitAtStrip(s);
    FilterConcat(IsDigit, p, Strip(s) + q);
    FilterConcat(IsDigit, Strip(s), q);
    FilterDropsAll(IsDigit, p);
    FilterDropsAll(IsDigit, q);
  }

  lemma DigitsOfStage(x: string)
    ensures Filter(IsDigit, Stage(x)) == Filter(IsDigit, x)
  {
    DigitsOfStrip(x);
    DigitsOfRemoveChar(Strip(x), '$');
    DigitsOfRemoveUsd(RemoveChar(Strip(x), '$'));
    DigitsOfStrip(RemoveUsd(RemoveChar(Strip(x), '$')));
  }

  lemma DigitsOfCommaRules(y: string)
    ensures Filter(IsDigit, CommaRules(y)) == Filter(IsDigit, y)
  {
    DigitsOfReplaceChar(y, ',', '.');
    var z := if DecimalComma(y) then ReplaceChar(y, ',', '.') else y;
    DigitsOfRemoveChar(z, ',');
  }

  /** The text handed to `float()` holds the digits of the cell, in order. */
  lemma DigitsKept(x: string)
    ensures Filter(IsDigit, Rewrite(x)) == Filter(IsDigit, x)
  {
    DigitsOfStage(x);
    DigitsOfCommaRules(Stage(x));
  }

  // ---------------------------------------------------------------------------
  // Amounts in the formats the rewrite is for

  /** Digits, commas and points only. */
  predicate IsNumeral(n: string) {
    forall i :: 0 <= i < |n| ==> IsDigit(n[i]) || n[i] == ',' || n[i] == '.'
  }

  lemma {:induction false} RemoveCharAbsent(s: string, c: char)
    requires c !in s
    ensures RemoveChar(s, c) == s
  {
    if s != [] {
      RemoveCharAbsent(s[1..], c);
      assert s == [s[0]] + s[1..];
    }
  }

  lemma {:induction false} RemoveCharConcat(a: string, b: string, c: char)
    ensures RemoveChar(a + b, c) == RemoveChar(a, c) + RemoveChar(b, c)
  {
    if a == [] {
      assert a + b == b;
    } else {
      var h := if a[0] == c then [] else [a[0]];
      assert (a + b)[0] == a[0];
      assert (a + b)[1..] == a[1..] + b;
      assert RemoveChar(a + b, c) == h + RemoveChar(a[1..] + b, c);
      RemoveCharConcat(a[1..], b, c);
      AppendAssoc(h, RemoveChar(a[1..], c), RemoveChar(b, c));
    }
  }

  lemma NumeralHasNo(n: string, c: char)
    requires IsNumeral(n) && !IsDigit(c) && c != ',' && c != '.'
    ensures c !in n
  {
  }

  lemma NumeralTrimmed(n: string)
    requires n != [] && IsNumeral(n)
    ensures Strip(n) == n
  {
    StripTrimmed(n);
  }

  /** A numeral passes app.py:37-38 unchanged. */
  lemma StageOfNumeral(n: string)
    requires n != [] && IsNumeral(n)
    ensures Stage(n) == n
  {
    NumeralTrimmed(n);
    NumeralHasNo(n, '$');
    RemoveCharAbsent(n, '$');
    NumeralHasNo(n, 'U');
    RemoveUsdWithoutU(n);
  }

  lemma DollarTrimmed(n: string)
    requires n != [] && IsNumeral(n)
    ensures Strip("$" + n) == "$" + n
  {
    var d := "$" + n;
    assert d[0] == '$' && d[|d| - 1] == n[|n| - 1];
    StripTrimmed(d);
  }

  lemma DollarRemoved(n: string)
    requires n != [] && IsNumeral(n)
    ensures RemoveChar("$" + n, '$') == n
  {
    var d := "$" + n;
    assert d[0] == '$' && d[1..] == n;
    NumeralHasNo(n, '$');
    RemoveCharAbsent(n, '$');
  }

  /** A leading `$` is deleted. */
  lemma StageOfDollar(n: string)
    requires n != [] && IsNumeral(n)
    ensures Stage("$" + n) == n
  {
    DollarTrimmed(n);
    DollarRemoved(n);
    NumeralHasNo(n, 'U');
    RemoveUsdWithoutU(n);
    NumeralTrimmed(n);
  }

  lemma UsdTrimmed(n: string)
    requires n != [] && IsNumeral(n)
    ensures Strip("USD " + n) == "USD " + n
  {
    var d := "USD " + n;
    assert d[0] == 'U' && d[|d| - 1] == n[|n| - 1];
    StripTrimmed(d);
  }

  lemma UsdRemoved(n: string)
    requires n != [] && IsNumeral(n)
    ensures RemoveUsd(RemoveChar("USD " + n, '$')) == " " + n
  {
    var d := "USD " + n;
    NumeralHasNo(n, '$');
    assert '$' !in d;
    RemoveCharAbsent(d, '$');
    assert UsdAt(d, 0) && d[3..] == " " + n;
    NumeralHasNo(n, 'U');
    assert 'U' !in " " + n;
    RemoveUsdWithoutU(" " + n);
  }

  lemma SpaceNumeralStripped(n: string)
    requires n != [] && IsNumeral(n)
    ensures Strip(" " + n) == n
  {
    assert " " + n == " " + n + [];
    StripSurrounded(" ", n, []);
    NumeralTrimmed(n);
  }

  /** A leading `USD ` is deleted. */
  lemma StageOfUsd(n: string)
    requires n != [] && IsNumeral(n)
    ensures Stage("USD " + n) == n
  {
    UsdTrimmed(n);
    UsdRemoved(n);
    SpaceNumeralStripped(n);
  }

  /** A numeral holding no comma is read as it stands. */
  lemma NumeralWithoutComma(n: string)
    requires ',' !in n
    ensures CommaRules(n) == n
  {
    CountZero(n, ',');
  }

  /** The amount of a cell whose rewritten text `float()` reads as `v`. */
  lemma AmountOfText(x: string, t: string, v: FloatValue)
    requires Rewrite(x) == t && ParseFloat(t) == Some(v)
    ensures ParseAmount(Some(x)) == v
  {
  }

  lemma RewriteWithoutComma(x: string, n: string)
    requires Stage(x) == n && ',' !in n
    ensures Rewrite(x) == n
  {
    NumeralWithoutComma(n);
  }

  /** `w.f` as a numeral. */
  lemma DecimalNumeral(w: string, f: string)
    requires AllDigits(w) && AllDigits(f)
    ensures var n := w + "." + f; n != [] && IsNumeral(n) && ',' !in n
  {
    var n := w + "." + f;
    assert n[|w|] == '.';
    assert forall i :: 0 <= i < |n| ==> (i < |w| && n[i] == w[i]) || i == |w| || n[i] == f[i - |w| - 1];
  }

  /** `w,f` with a decimal comma reads as `w.f`. */
  lemma RewriteDecimalComma(w: string, f: string)
    requires AllDigits(w) && AllDigits(f)
    ensures Rewrite(w + "," + f) == w + "." + f
  {
    var n := w + "," + f;
    CommaNumeral(w, f);
    StageOfNumeral(n);
    CommaCounts(w, f);
    CommaRulesCases(n);
    CommaToPoint(w, f);
  }

  lemma CommaNumeral(w: string, f: string)
    requires AllDigits(w) && AllDigits(f)
    ensures var n := w + "," + f; n != [] && IsNumeral(n)
  {
    var n := w + "," + f;
    assert n[|w|] == ',';
    assert forall i :: 0 <= i < |n| ==> (i < |w| && n[i] == w[i]) || i == |w| || n[i] == f[i - |w| - 1];
  }

  lemma CommaToPoint(w: string, f: string)
    requires AllDigits(w) && AllDigits(f)
    ensures ReplaceChar(w + "," + f, ',', '.') == w + "." + f
  {
    var n, r, t := w + "," + f, ReplaceChar(w + "," + f, ',', '.'), w + "." + f;
    forall i | 0 <= i < |n|
      ensures r[i] == t[i]
    {
      if i < |w| {
        assert n[i] == w[i] == t[i];
      } else if i > |w| {
        assert n[i] == f[i - |w| - 1] == t[i];
      }
    }
  }

  lemma CommaCounts(w: string, f: string)
    requires AllDigits(w) && AllDigits(f)
    ensures Count(w + "," + f, ',') == 1 && Count(w + "," + f, '.') == 0
  {
    CountZero(w, ','); CountZero(f, ','); CountZero(w, '.'); CountZero(f, '.');
    CountConcat(w, ",", ','); CountConcat(w + ",", f, ',');
    CountConcat(w, ",", '.'); CountConcat(w + ",", f, '.');
  }

  /** `w,f`: the comma is a decimal comma. */
  lemma AmountDecimalComma(w: string, f: string)
    requires AllDigits(w) && AllDigits(f) && f != []
    ensures ParseAmount(Some(w + "," + f)) == Finite(PointValue(w, f))
  {
    RewriteDecimalComma(w, f);
    ParseDecimal(w, f);
    AmountOfText(w + "," + f, w + "." + f, Finite(PointValue(w, f)));
  }

  /** `$w.f`: the dollar sign is dropped. */
  lemma AmountWithDollar(w: string, f: string)
    requires AllDigits(w) && AllDigits(f) && f != []
    ensures ParseAmount(Some("$" + w + "." + f)) == Finite(PointValue(w, f))
  {
    var n := w + "." + f;
    assert "$" + w + "." + f == "$" + n;
    DecimalNumeral(w, f);
    StageOfDollar(n);
    RewriteWithoutComma("$" + n, n);
    ParseDecimal(w, f);
    AmountOfText("$" + n, n, Finite(PointValue(w, f)));
  }

  /** `USD w.f`: the currency code is dropped. */
  lemma AmountWithUsd(w: string, f: string)
    requires AllDigits(w) && AllDigits(f) && f != []
    ensures ParseAmount(Some("USD " + w + "." + f)) == Finite(PointValue(w, f))
  {
    var n := w + "." + f;
    assert "USD " + w + "." + f == "USD " + n;
    DecimalNumeral(w, f);
    StageOfUsd(n);
    RewriteWithoutComma("USD " + n, n);
    ParseDecimal(w, f);
    AmountOfText("USD " + n, n, Finite(PointValue(w, f)));
  }

  lemma OneCommaOnePoint(w: string, g: string, f: string)
    requires AllDigits(w) && AllDigits(g) && AllDigits(f)
    ensures var n := w + "," + g + "." + f;
      && n != [] && IsNumeral(n) && ',' in n
      && Count(n, ',') == 1 && Count(n, '.') == 1
  {
    var n := w + "," + g + "." + f;
    assert n[|w|] == ',' && n[|w| + 1 + |g|] == '.';
    assert forall i :: 0 <= i < |n| ==>
      (i < |w| && n[i] == w[i]) || i == |w| || (|w| < i < |w| + 1 + |g| && n[i] == g[i - |w| - 1])
      || i == |w| + 1 + |g| || n[i] == f[i - |w| - |g| - 2];
    CountZero(w, ','); CountZero(g, ','); CountZero(f, ',');
    CountZero(w, '.'); CountZero(g, '.'); CountZero(f, '.');
    CountConcat(w, ",", ','); CountConcat(w + ",", g, ',');
    CountConcat(w + "," + g, ".", ','); CountConcat(w + "," + g + ".", f, ',');
    CountConcat(w, ",", '.'); CountConcat(w + ",", g, '.');
    CountConcat(w + "," + g, ".", '.'); CountConcat(w + "," + g + ".", f, '.');
  }

  /** `$w,g.f` with one thousands comma: neither rule applies, the comma
      reaches `float()` and the amount is missing. */
  lemma AmountOneThousandsComma(w: string, g: string, f: string)
    requires AllDigits(w) && AllDigits(g) && AllDigits(f)
    ensures ParseAmount(Some("$" + w + "," + g + "." + f)) == NaN
  {
    var n := w + "," + g + "." + f;
    assert "$" + w + "," + g + "." + f == "$" + n;
    OneCommaOnePoint(w, g, f);
    StageOfDollar(n);
    LeftoverCommaIsMissing("$" + n);
  }

  lemma ThousandsNumeral(a: string, b: string, c: string, f: string)
    requires AllDigits(a) && AllDigits(b) && AllDigits(c) && AllDigits(f)
    ensures var n := a + "," + b + "," + c + "." + f;
      && n != [] && IsNumeral(n)
      && Count(n, ',') == 2 && '.' in n
  {
    ThousandsChars(a, b, c, f);
    ThousandsCommaCount(a, b, c, f);
  }

  lemma ThousandsChars(a: string, b: string, c: string, f: string)
    requires AllDigits(a) && AllDigits(b) && AllDigits(c) && AllDigits(f)
    ensures var n := a + "," + b + "," + c + "." + f; IsNumeral(n) && '.' in n
  {
    var n := a + "," + b + "," + c + "." + f;
    var i1, i2, i3 := |a|, |a| + 1 + |b|, |a| + |b| + |c| + 2;
    assert n[i3] == '.';
    assert forall i :: 0 <= i < |n| ==>
      || (i < i1 && n[i] == a[i])
      || i == i1
      || (i1 < i < i2 && n[i] == b[i - i1 - 1])
      || i == i2
      || (i2 < i < i3 && n[i] == c[i - i2 - 1])
      || i == i3
      || n[i] == f[i - i3 - 1];
  }

  lemma ThousandsCommaCount(a: string, b: string, c: string, f: string)
    requires AllDigits(a) && AllDigits(b) && AllDigits(c) && AllDigits(f)
    ensures Count(a + "," + b + "," + c + "." + f, ',') == 2
  {
    CountZero(a, ','); CountZero(b, ','); CountZero(c, ','); CountZero(f, ',');
    CountConcat(a, ",", ','); CountConcat(a + ",", b, ',');
    CountConcat(a + "," + b, ",", ','); CountConcat(a + "," + b + ",", c, ',');
    CountConcat(a + "," + b + "," + c, ".", ','); CountConcat(a + "," + b + "," + c + ".", f, ',');
  }

  lemma DigitsWithoutComma(s: string)
    requires AllDigits(s)
    ensures RemoveChar(s, ',') == s
  {
    RemoveCharAbsent(s, ',');
  }

  lemma RemoveCommaAround(x: string, y: string)
    ensures RemoveChar(x + "," + y, ',') == RemoveChar(x, ',') + RemoveChar(y, ',')
  {
    var t := "," + y;
    assert x + "," + y == x + t;
    assert t[0] == ',' && t[1..] == y;
    RemoveCharConcat(x, t, ',');
  }

  lemma RemoveCommaAroundPoint(x: string, y: string)
    ensures RemoveChar(x + "." + y, ',') == RemoveChar(x, ',') + "." + RemoveChar(y, ',')
  {
    RemoveCharConcat(x, ".", ',');
    RemoveCharConcat(x + ".", y, ',');
    assert RemoveChar(".", ',') == ".";
  }

  lemma ThousandsRemoved(a: string, b: string, c: string, f: string)
    requires AllDigits(a) && AllDigits(b) && AllDigits(c) && AllDigits(f)
    ensures RemoveChar(a + "," + b + "," + c + "." + f, ',') == a + b + c + "." + f
  {
    DigitsWithoutComma(a); DigitsWithoutComma(b); DigitsWithoutComma(c); DigitsWithoutComma(f);
    RemoveCommaAroundPoint(a + "," + b + "," + c, f);
    RemoveCommaAround(a + "," + b, c);
    RemoveCommaAround(a, b);
  }

  lemma RewriteThousands(a: string, b: string, c: string, f: string)
    requires AllDigits(a) && AllDigits(b) && AllDigits(c) && AllDigits(f)
    ensures Rewrite(a + "," + b + "," + c + "." + f) == a + b + c + "." + f
  {
    var n := a + "," + b + "," + c + "." + f;
    ThousandsNumeral(a, b, c, f);
    StageOfNumeral(n);
    CommaRulesCases(n);
    ThousandsRemoved(a, b, c, f);
  }

  /** `a,b,c.f` with thousands commas reads as `abc.f`. */
  lemma AmountThousands(a: string, b: string, c: string, f: string)
    requires AllDigits(a) && AllDigits(b) && AllDigits(c) && AllDigits(f) && f != []
    ensures ParseAmount(Some(a + "," + b + "," + c + "." + f)) == Finite(PointValue(a + b + c, f))
  {
    RewriteThousands(a, b, c, f);
    assert AllDigits(a + b + c);
    ParseDecimal(a + b + c, f);
    AmountOfText(a + "," + b + "," + c + "." + f, a + b + c + "." + f, Finite(PointValue(a + b + c, f)));
  }
}
