/**
 * `clean_ids` (app.py:10-13): the canonical form of a merchant identifier,
 * every whitespace character removed (not only at the ends) and the rest
 * upper-cased.
 */
module Identifiers {
  import opened Wrappers
  import opened Text

  /** A canonical identifier: no whitespace and no lower-case letter. */
  predicate IsCanonicalId(s: string) {
    forall i :: 0 <= i < |s| ==> !IsSpace(s[i]) && !IsLower(s[i])
  }

  /** `re.sub(r"\s+", "", s).upper()` */
  function CleanIdText(s: string): (r: string)
    ensures IsCanonicalId(r)
    ensures |r| <= |s|
  {
    UpperStr(Filter(NotSpace, s))
  }

  /** `clean_ids`: a missing value stays missing, any other value is given its
      canonical form. */
  function CleanIds(s: Option<string>): (r: Option<string>)
    ensures r.None? <==> s.None?
    ensures r.Some? ==> IsCanonicalId(r.value)
  {
    match s
    case None => None
    case Some(x) => Some(CleanIdText(x))
  }

  /** Character by character: a whitespace character contributes nothing and any
      other character contributes its upper-case form. Together with
      `CleanIdText([]) == []` this determines the function on every string. */
  lemma CleanIdTextCons(c: char, s: string)
    ensures CleanIdText([c] + s) == (if IsSpace(c) then [] else [ToUpper(c)]) + CleanIdText(s)
  {
    assert ([c] + s)[1..] == s;
    var g := if IsSpace(c) then [] else [c];
    assert Filter(NotSpace, [c] + s) == g + Filter(NotSpace, s);
    UpperConcat(g, Filter(NotSpace, s));
  }

  /** The canonical identifiers are exactly the fixed points of the cleaner. */
  lemma CanonicalIffFixed(s: string)
    ensures CleanIdText(s) == s <==> IsCanonicalId(s)
  {
    if IsCanonicalId(s) {
      FilterKeepsAll(NotSpace, s);
      assert UpperStr(s) == s;
    }
  }

  /** `clean_ids` is idempotent. */
  lemma CleanIdsIdempotent(s: Option<string>)
    ensures CleanIds(CleanIds(s)) == CleanIds(s)
  {
    if s.Some? {
      CanonicalIffFixed(CleanIdText(s.value));
    }
  }

  /** Identifiers that differ only in letter case are given the same
      canonical form. */
  lemma {:induction false} CleanIdTextIgnoresCase(s: string)
    ensures CleanIdText(LowerStr(s)) == CleanIdText(s)
  {
    if s != [] {
      assert s == [s[0]] + s[1..];
      assert LowerStr(s) == [ToLower(s[0])] + LowerStr(s[1..]);
      CleanIdTextCons(s[0], s[1..]);
      CleanIdTextCons(ToLower(s[0]), LowerStr(s[1..]));
      CleanIdTextIgnoresCase(s[1..]);
    }
  }

  /** Whitespace anywhere in an identifier, not only at its ends, is deleted
      without a trace. */
  lemma CleanIdTextIgnoresSpace(a: string, w: string, b: string)
    requires AllSpace(w)
    ensures CleanIdText(a + w + b) == CleanIdText(a + b)
  {
    FilterConcat(NotSpace, a + w, b);
    FilterConcat(NotSpace, a, w);
    FilterConcat(NotSpace, a, b);
    FilterDropsAll(NotSpace, w);
    assert Filter(NotSpace, a) + [] == Filter(NotSpace, a);
  }

  lemma CleanIdsExample()
    ensures CleanIds(Some(" a1 b ")) == Some("A1B")
  {
    assert Filter(NotSpace, " a1 b ") == "a1b";
    assert UpperStr("a1b") == "A1B";
  }
}
