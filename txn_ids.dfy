/**
 * `extract_txn_id` (app.py:50-58). Two regular-expression searches, written
 * here as leftmost scans over the text:
 *
 *   1. `(?:TXN[-\s]*|#|transaction\s+|txn[-\s]*)(\d{4,})`, case-insensitive:
 *      the first position where a prefix starts and is followed by at least
 *      four digits; the group is the whole digit run after the prefix;
 *   2. failing that, `(?<!\d)(\d{4,})(?!\d)`: the first run of at least four
 *      digits with no digit on either side.
 *
 * `TXN` and `txn` are the same alternative once case is ignored. Whitespace
 * and digits are the ASCII ones.
 */
module TxnIds {
  import opened Wrappers
  import opened Text

  // ---------------------------------------------------------------------------
  // What a match is

  predicate IsDashOrSpace(c: char) {
    c == '-' || IsSpace(c)
  }

  /** `w` (lower-case) occurs at `p`, ignoring case. */
  predicate WordAt(t: string, p: nat, w: string) {
    p + |w| <= |t| && forall k :: 0 <= k < |w| ==> ToLower(t[p + k]) == w[k]
  }

  /** `t[s..e]` is all digits and not empty. */
  predicate IsDigitRun(t: string, s: nat, e: nat) {
    s < e <= |t| && forall k :: s <= k < e ==> IsDigit(t[k])
  }

  /** `t[s..e]` is a digit run with no digit on either side. */
  predicate IsMaximalRun(t: string, s: nat, e: nat) {
    IsDigitRun(t, s, e) && (s == 0 || !IsDigit(t[s - 1])) && (e == |t| || !IsDigit(t[e]))
  }

  /** What the fallback pattern matches: a maximal run of four or more digits. */
  predicate IsLongRun(t: string, s: nat, e: nat) {
    IsMaximalRun(t, s, e) && e - s >= 4
  }

  /** A prefix alternative starts at `p` and the digits of the group would
      start at `s`. */
  predicate PrefixSpan(t: string, p: nat, s: nat) {
    && p <= s <= |t|
    && (|| (WordAt(t, p, "txn") && p + 3 <= s && forall k :: p + 3 <= k < s ==> IsDashOrSpace(t[k]))
        || (p < |t| && t[p] == '#' && s == p + 1)
        || (WordAt(t, p, "transaction") && p + 11 < s && forall k :: p + 11 <= k < s ==> IsSpace(t[k])))
  }

  /** What the prefixed pattern matches at `p`, with group `t[s..e]`: `\d{4,}`
      is greedy, so the group is the whole digit run after the prefix. */
  predicate PrefixedMatch(t: string, p: nat, s: nat, e: nat) {
    PrefixSpan(t, p, s) && e - s >= 4 && IsDigitRun(t, s, e) && (e == |t| || !IsDigit(t[e]))
  }

  /** Four digits in a row at `k`. */
  predicate FourDigitsAt(t: string, k: nat) {
    IsDigitRun(t, k, k + 4)
  }

  /** Four digits in a row somewhere in `t`. */
  ghost predicate HasFourDigits(t: string) {
    exists k: nat :: FourDigitsAt(t, k)
  }

  // ---------------------------------------------------------------------------
  // The scans

  /** Where a match was found: the prefix at `at`, the group `t[start..end]`. */
  datatype Found = Found(at: nat, start: nat, end: nat)

  /** The end of the run of characters satisfying `inRun` from `j`. */
  function RunEnd(inRun: char -> bool, t: string, j: nat): (r: nat)
    requires j <= |t|
    ensures j <= r <= |t|
    ensures forall k :: j <= k < r ==> inRun(t[k])
    ensures r == |t| || !inRun(t[r])
    decreases |t| - j
  {
    if j < |t| && inRun(t[j]) then RunEnd(inRun, t, j + 1) else j
  }

  /** Where the digits of the group start, when a prefix starts at `p`. */
  function DigitsAfterPrefix(t: string, p: nat): Option<nat>
    requires p <= |t|
  {
    if WordAt(t, p, "txn") then Some(RunEnd(IsDashOrSpace, t, p + 3))
    else if p < |t| && t[p] == '#' then Some(p + 1)
    else if WordAt(t, p, "transaction") && p + 11 < |t| && IsSpace(t[p + 11]) then Some(RunEnd(IsSpace, t, p + 11))
    else None
  }

  /** The prefixed pattern tried at `p`. */
  function MatchAt(t: string, p: nat): Option<Found>
    requires p <= |t|
  {
    match DigitsAfterPrefix(t, p)
    case None => None
    case Some(s) =>
      var e := RunEnd(IsDigit, t, s);
      if e - s >= 4 then Some(Found(p, s, e)) else None
  }

  /** `re.search` with the prefixed pattern, from position `i` on. */
  function SearchPrefixed(t: string, i: nat): (r: Option<Found>)
    requires i <= |t|
    ensures r.Some? ==> i <= r.value.at && PrefixedMatch(t, r.value.at, r.value.start, r.value.end)
    ensures r.Some? ==> forall p: nat, s: nat, e: nat :: i <= p < r.value.at ==> !PrefixedMatch(t, p, s, e)
    ensures r.None? ==> forall p: nat, s: nat, e: nat :: i <= p ==> !PrefixedMatch(t, p, s, e)
    decreases |t| - i
  {
    MatchAtFinds(t, i);
    if i == |t| then None
    else
      match MatchAt(t, i)
      case Some(f) => Some(f)
      case None => SearchPrefixed(t, i + 1)
  }

  /** `re.search` with the fallback pattern, from position `i` on. */
  function SearchBare(t: string, i: nat): (r: Option<Found>)
    ensures r.Some? ==> i <= r.value.start && IsLongRun(t, r.value.start, r.value.end)
    ensures r.Some? ==> forall s: nat, e: nat :: i <= s < r.value.start ==> !IsLongRun(t, s, e)
    ensures r.None? ==> forall s: nat, e: nat :: i <= s ==> !IsLongRun(t, s, e)
    decreases |t| - i
  {
    if i >= |t| then None
    else
      var e := RunEnd(IsDigit, t, i);
      if IsDigit(t[i]) && (i == 0 || !IsDigit(t[i - 1])) && e - i >= 4 then Some(Found(i, i, e))
      else
        MaximalRunEnd(t, i);
        SearchBare(t, i + 1)
  }

  /** `extract_txn_id` on a cell; `None` is a missing cell or no match. */
  function ExtractTxnId(cell: Option<string>): (r: Option<string>)
    ensures cell.None? ==> r.None?
  {
    match cell
    case None => None
    case Some(t) =>
      match SearchPrefixed(t, 0)
      case Some(f) => Some(t[f.start..f.end])
      case None =>
        match SearchBare(t, 0)
        case Some(f) => Some(t[f.start..f.end])
        case None => None
  }

  // ---------------------------------------------------------------------------
  // The scans against the patterns

  /** A run that stops at `r` ends where the scan from `j` ends. */
  lemma RunEndAt(inRun: char -> bool, t: string, j: nat, r: nat)
    requires j <= r <= |t|
    requires forall k :: j <= k < r ==> inRun(t[k])
    requires r == |t| || !inRun(t[r])
    ensures RunEnd(inRun, t, j) == r
  {
  }

  /** A digit run that stops at `e` ends where the digit scan from `s` ends. */
  lemma MaximalRunEnd(t: string, s: nat)
    requires s <= |t|
    ensures forall e: nat :: IsDigitRun(t, s, e) && (e == |t| || !IsDigit(t[e])) ==> e == RunEnd(IsDigit, t, s)
  {
    forall e: nat | IsDigitRun(t, s, e) && (e == |t| || !IsDigit(t[e])) {
      RunEndAt(IsDigit, t, s, e);
    }
  }

  /** When a prefix at `p` is followed by a digit at `s`, the scan puts the
      group's start at `s`. */
  lemma PrefixStart(t: string, p: nat, s: nat)
    requires PrefixSpan(t, p, s) && s < |t| && IsDigit(t[s])
    ensures DigitsAfterPrefix(t, p) == Some(s)
  {
    PrefixesDiffer(t, p);
    if WordAt(t, p, "txn") {
      RunEndAt(IsDashOrSpace, t, p + 3, s);
    } else if WordAt(t, p, "transaction") {
      RunEndAt(IsSpace, t, p + 11, s);
    }
  }

  /** The three prefix alternatives begin differently. */
  lemma PrefixesDiffer(t: string, p: nat)
    ensures WordAt(t, p, "txn") ==> !WordAt(t, p, "transaction") && t[p] != '#'
    ensures WordAt(t, p, "transaction") ==> t[p] != '#'
  {
    if WordAt(t, p, "txn") {
      assert ToLower(t[p + 0]) == "txn"[0];
      assert ToLower(t[p + 1]) == "txn"[1] != "transaction"[1];
    }
    if WordAt(t, p, "transaction") {
      assert ToLower(t[p + 0]) == "transaction"[0];
    }
  }

  /** The prefix scan at `p` finds exactly the match the pattern has there. */
  lemma MatchAtFinds(t: string, p: nat)
    requires p <= |t|
    ensures MatchAt(t, p).Some? ==>
      var f := MatchAt(t, p).value; f.at == p && PrefixedMatch(t, p, f.start, f.end)
    ensures forall s: nat, e: nat :: PrefixedMatch(t, p, s, e) ==> MatchAt(t, p) == Some(Found(p, s, e))
  {
    PrefixesDiffer(t, p);
    forall s: nat, e: nat | PrefixedMatch(t, p, s, e)
      ensures MatchAt(t, p) == Some(Found(p, s, e))
    {
      PrefixStart(t, p, s);
      MaximalRunEnd(t, s);
    }
  }

  // ---------------------------------------------------------------------------
  // What `extract_txn_id` returns

  /** The group of a prefixed match is a maximal run of four or more digits:
      every prefix ends in a character that is not a digit. */
  lemma PrefixedIsLong(t: string, p: nat, s: nat, e: nat)
    requires PrefixedMatch(t, p, s, e)
    ensures IsLongRun(t, s, e)
  {
    PrefixesDiffer(t, p);
    if WordAt(t, p, "txn") {
      if s == p + 3 {
        assert ToLower(t[p + 2]) == "txn"[2];
      }
    }
  }

  /** A text holding a run of four or more digits has four digits in a row. */
  lemma LongRunHasFourDigits(t: string, s: nat, e: nat)
    requires IsLongRun(t, s, e)
    ensures HasFourDigits(t)
  {
    assert FourDigitsAt(t, s);
  }

  /** Any id found is a run of four or more digits of the text, copied as it
      stands (leading zeros kept), with no digit on either side. */
  lemma ExtractIsLongRun(t: string)
    requires ExtractTxnId(Some(t)).Some?
    ensures exists s: nat, e: nat :: IsLongRun(t, s, e) && ExtractTxnId(Some(t)).value == t[s..e]
  {
    var r := SearchPrefixed(t, 0);
    if r.Some? {
      PrefixedIsLong(t, r.value.at, r.value.start, r.value.end);
    } else {
      var b := SearchBare(t, 0);
      assert IsLongRun(t, b.value.start, b.value.end);
    }
  }

  /** The leftmost prefixed match decides, whatever digit runs come before it. */
  lemma PrefixedWins(t: string, p: nat, s: nat, e: nat)
    requires PrefixedMatch(t, p, s, e)
    requires forall q: nat, s': nat, e': nat :: q < p ==> !PrefixedMatch(t, q, s', e')
    ensures ExtractTxnId(Some(t)) == Some(t[s..e])
  {
    var f := SearchPrefixed(t, 0).value;
    assert f.at == p;
    MatchAtFinds(t, p);
  }

  /** With no prefixed match, the leftmost maximal run of four or more digits
      is returned. */
  lemma BareFallback(t: string, s: nat, e: nat)
    requires forall p: nat, s': nat, e': nat :: !PrefixedMatch(t, p, s', e')
    requires IsLongRun(t, s, e)
    requires forall s': nat, e': nat :: s' < s ==> !IsLongRun(t, s', e')
    ensures ExtractTxnId(Some(t)) == Some(t[s..e])
  {
    var f := SearchBare(t, 0).value;
    assert f.start == s;
    MaximalRunEnd(t, s);
  }

  /** The start of the digit run that ends at `k`. */
  function RunStart(t: string, k: nat): (s: nat)
    requires k <= |t|
    ensures s <= k
    ensures forall i :: s <= i < k ==> IsDigit(t[i])
    ensures s == 0 || !IsDigit(t[s - 1])
  {
    if k > 0 && IsDigit(t[k - 1]) then RunStart(t, k - 1) else k
  }

  /** Four digits in a row lie inside a maximal run of four or more. */
  lemma FourDigitsInLongRun(t: string, k: nat)
    requires FourDigitsAt(t, k)
    ensures IsLongRun(t, RunStart(t, k), RunEnd(IsDigit, t, k))
  {
    var s, e := RunStart(t, k), RunEnd(IsDigit, t, k);
    RunEndAt(IsDigit, t, k + 4, e);
    assert forall i :: s <= i < e ==> IsDigit(t[i]) by {
      forall i | s <= i < e
        ensures IsDigit(t[i])
      {
        if i >= k {
          assert k <= i < e;
        }
      }
    }
  }

  /** The id is missing exactly when the text has no four digits in a row. */
  lemma ExtractMissingIff(t: string)
    ensures ExtractTxnId(Some(t)).None? <==> !HasFourDigits(t)
  {
    if HasFourDigits(t) {
      var k: nat :| FourDigitsAt(t, k);
      FourDigitsInLongRun(t, k);
      assert SearchBare(t, 0).Some?;
    } else {
      var r := SearchPrefixed(t, 0);
      if r.Some? {
        PrefixedIsLong(t, r.value.at, r.value.start, r.value.end);
        LongRunHasFourDigits(t, r.value.start, r.value.end);
      }
      var b := SearchBare(t, 0);
      if b.Some? {
        LongRunHasFourDigits(t, b.value.start, b.value.end);
      }
    }
  }

  /** Every prefix starts with `#` or a `t` in either case. */
  lemma PrefixFirstChar(t: string, p: nat, s: nat)
    requires PrefixSpan(t, p, s)
    ensures p < |t| && (t[p] == '#' || ToLower(t[p]) == 't')
  {
    if WordAt(t, p, "txn") {
      assert ToLower(t[p + 0]) == "txn"[0];
    } else if WordAt(t, p, "transaction") {
      assert ToLower(t[p + 0]) == "transaction"[0];
    }
  }

  /** `TXN-` and an id after text in which no prefix can start: the id is
      found, even when that text holds a longer run of digits. */
  lemma PrefixedAfterText(a: string, d: string, b: string)
    requires forall i :: 0 <= i < |a| ==> a[i] != '#' && ToLower(a[i]) != 't'
    requires |d| >= 4 && forall i :: 0 <= i < |d| ==> IsDigit(d[i])
    requires b == [] || !IsDigit(b[0])
    ensures ExtractTxnId(Some(a + "TXN-" + d + b)) == Some(d)
  {
    var t := a + "TXN-" + d + b;
    var p := |a|;
    var e := p + 4 + |d|;
    assert t[p..p + 4] == "TXN-";
    assert t[p + 4..e] == d;
    assert e < |t| ==> t[e] == b[0];
    assert WordAt(t, p, "txn");
    assert PrefixedMatch(t, p, p + 4, e);
    forall q: nat, s: nat, e': nat | q < p
      ensures !PrefixedMatch(t, q, s, e')
    {
      assert t[q] == a[q];
      if PrefixSpan(t, q, s) {
        PrefixFirstChar(t, q, s);
      }
    }
    PrefixedWins(t, p, p + 4, e);
  }

  /** `#12345` gives `12345`. */
  lemma ExampleHash()
    ensures ExtractTxnId(Some("#12345")) == Some("12345")
  {
    var t := "#12345";
    assert PrefixedMatch(t, 0, 1, 6);
    PrefixedWins(t, 0, 1, 6);
    assert t[1..6] == "12345";
  }

  /** `ref 12` has no id. */
  lemma ExampleShortRef()
    ensures ExtractTxnId(Some("ref 12")) == None
  {
    ExtractMissingIff("ref 12");
  }

  // ---------------------------------------------------------------------------
  // Letter case

  /** Characters equal up to case agree on everything the patterns test, and
      a digit has no other case. */
  lemma SameUpToCase(c: char, d: char)
    requires ToLower(c) == ToLower(d)
    ensures IsDigit(c) || IsDigit(d) ==> c == d
    ensures c == '#' <==> d == '#'
    ensures IsSpace(c) <==> IsSpace(d)
    ensures IsDashOrSpace(c) <==> IsDashOrSpace(d)
  {
  }

  /** `t` and `u` differ at most in letter case. */
  predicate SameLetters(t: string, u: string) {
    |t| == |u| && forall k :: 0 <= k < |t| ==> ToLower(t[k]) == ToLower(u[k])
  }

  lemma SameLettersOfLower(t: string, u: string)
    requires LowerStr(t) == LowerStr(u)
    ensures SameLetters(t, u) && SameLetters(u, t)
  {
    assert |t| == |LowerStr(t)| == |u|;
    forall k | 0 <= k < |t|
      ensures ToLower(t[k]) == ToLower(u[k])
    {
      assert LowerStr(t)[k] == LowerStr(u)[k];
    }
  }

  lemma DigitRunIgnoresCase(t: string, u: string, s: nat, e: nat)
    requires SameLetters(t, u) && IsDigitRun(t, s, e)
    ensures IsDigitRun(u, s, e) && t[s..e] == u[s..e]
  {
    forall k | s <= k < e {
      SameUpToCase(t[k], u[k]);
    }
  }

  lemma NotDigitIgnoresCase(t: string, u: string, k: nat)
    requires SameLetters(t, u) && k < |t| && !IsDigit(t[k])
    ensures !IsDigit(u[k])
  {
    SameUpToCase(t[k], u[k]);
  }

  lemma PrefixSpanIgnoresCase(t: string, u: string, p: nat, s: nat)
    requires SameLetters(t, u) && PrefixSpan(t, p, s)
    ensures PrefixSpan(u, p, s)
  {
    forall k | p <= k < s && k < |t| {
      SameUpToCase(t[k], u[k]);
    }
  }

  lemma PrefixedMatchIgnoresCase(t: string, u: string, p: nat, s: nat, e: nat)
    requires SameLetters(t, u) && PrefixedMatch(t, p, s, e)
    ensures PrefixedMatch(u, p, s, e)
  {
    PrefixSpanIgnoresCase(t, u, p, s);
    DigitRunIgnoresCase(t, u, s, e);
    if e < |t| {
      NotDigitIgnoresCase(t, u, e);
    }
  }

  lemma LongRunIgnoresCase(t: string, u: string, s: nat, e: nat)
    requires SameLetters(t, u) && IsLongRun(t, s, e)
    ensures IsLongRun(u, s, e)
  {
    DigitRunIgnoresCase(t, u, s, e);
    if s > 0 {
      NotDigitIgnoresCase(t, u, s - 1);
    }
    if e < |t| {
      NotDigitIgnoresCase(t, u, e);
    }
  }

  /** Texts equal up to case have the same matches. */
  lemma MatchesIgnoreCase(t: string, u: string)
    requires LowerStr(t) == LowerStr(u)
    ensures forall p: nat, s: nat, e: nat :: PrefixedMatch(t, p, s, e) <==> PrefixedMatch(u, p, s, e)
    ensures forall s: nat, e: nat :: IsLongRun(t, s, e) <==> IsLongRun(u, s, e)
    ensures forall s: nat, e: nat :: IsDigitRun(t, s, e) ==> t[s..e] == u[s..e]
  {
    SameLettersOfLower(t, u);
    forall p: nat, s: nat, e: nat
      ensures PrefixedMatch(t, p, s, e) <==> PrefixedMatch(u, p, s, e)
    {
      if PrefixedMatch(t, p, s, e) {
        PrefixedMatchIgnoresCase(t, u, p, s, e);
      }
      if PrefixedMatch(u, p, s, e) {
        PrefixedMatchIgnoresCase(u, t, p, s, e);
      }
    }
    forall s: nat, e: nat
      ensures IsLongRun(t, s, e) <==> IsLongRun(u, s, e)
    {
      if IsLongRun(t, s, e) {
        LongRunIgnoresCase(t, u, s, e);
      }
      if IsLongRun(u, s, e) {
        LongRunIgnoresCase(u, t, s, e);
      }
    }
    forall s: nat, e: nat | IsDigitRun(t, s, e)
      ensures t[s..e] == u[s..e]
    {
      DigitRunIgnoresCase(t, u, s, e);
    }
  }

  /** The search ignores letter case: `TXN`, `Txn` and `txn` all match, and
      the texts found are the same digits. */
  lemma ExtractIgnoresCase(t: string, u: string)
    requires LowerStr(t) == LowerStr(u)
    ensures ExtractTxnId(Some(t)) == ExtractTxnId(Some(u))
  {
    MatchesIgnoreCase(t, u);
    var r := SearchPrefixed(t, 0);
    if r.Some? {
      PrefixedWins(u, r.value.at, r.value.start, r.value.end);
    } else {
      var b := SearchBare(t, 0);
      if b.Some? {
        BareFallback(u, b.value.start, b.value.end);
      } else {
        assert SearchPrefixed(u, 0).None?;
        assert SearchBare(u, 0).None?;
      }
    }
  }
}
