/**
 * `DEPT_MAP` and `normalize_department` (app.py:15-29). A free-text department
 * name is reduced to a lookup key (lower-cased, every character other than
 * `a-z` and space deleted, runs of whitespace collapsed, trimmed); the key is
 * looked up in a fixed synonym table, and a key the table lacks is title-cased.
 */
module Departments {
  import opened Wrappers
  import opened Text

  /** `DEPT_MAP`: lookup key to canonical display name. */
  const DeptMap: map<string, string> := map[
    "ops" := "Operations",
    "ops dept" := "Operations",
    "operations" := "Operations",
    "operations team" := "Operations",
    "o p s" := "Operations"
  ]

  /** The characters `[a-z ]` that line 27 keeps. */
  predicate IsKeyChar(c: char) {
    IsLower(c) || c == ' '
  }

  /** No two whitespace characters are adjacent. */
  predicate NoDoubleSpace(s: string) {
    |s| < 2 || ((!IsSpace(s[0]) || !IsSpace(s[1])) && NoDoubleSpace(s[1..]))
  }

  /** A well-formed lookup key: only `a-z` and single spaces, no space at either end. */
  predicate IsKey(k: string) {
    && (forall i :: 0 <= i < |k| ==> IsKeyChar(k[i]))
    && NoDoubleSpace(k)
    && (k == [] || (k[0] != ' ' && k[|k| - 1] != ' '))
  }

  /** `re.sub(r"\s+", " ", s)`, `afterSpace` telling whether the text before
      `s` ended inside a run of whitespace: the first whitespace character of a
      run becomes a space, the rest of the run is deleted. */
  function Collapse(s: string, afterSpace: bool): string {
    if s == [] then []
    else if IsSpace(s[0]) then
      (if afterSpace then [] else [' ']) + Collapse(s[1..], true)
    else
      [s[0]] + Collapse(s[1..], false)
  }

  /** `re.sub(r"\s+", " ", s)`: each maximal run of whitespace becomes one space. */
  function CollapseSpaces(s: string): string {
    Collapse(s, false)
  }

  /** Lines 26-28: the key `DEPT_MAP` is consulted with. */
  function Key(s: string): string {
    Strip(CollapseSpaces(Filter(IsKeyChar, LowerStr(Strip(s)))))
  }

  /** Every key is well formed: only `a-z` and single inner spaces. */
  lemma KeyIsKey(s: string)
    ensures IsKey(Key(s))
  {
    var kept := Filter(IsKeyChar, LowerStr(Strip(s)));
    CollapseKeepsKeyChars(kept, false);
    CollapseShape(kept, false);
    StripKeepsKey(CollapseSpaces(kept));
  }

  /** `str.title()` on ASCII text, `afterLetter` telling whether the previous
      character was a letter: a letter is upper-cased at the start of the text
      or after a non-letter and lower-cased after a letter. */
  function TitleFrom(s: string, afterLetter: bool): (r: string)
    ensures |r| == |s|
  {
    if s == [] then []
    else if IsLetter(s[0]) then
      [if afterLetter then ToLower(s[0]) else ToUpper(s[0])] + TitleFrom(s[1..], true)
    else
      [s[0]] + TitleFrom(s[1..], false)
  }

  /** `str.title()` */
  function TitleCase(s: string): string {
    TitleFrom(s, false)
  }

  /** `DEPT_MAP.get(k, k.title())`: the synonym's display name, or the key title-cased. */
  function Lookup(k: string): string {
    if k in DeptMap then DeptMap[k] else TitleCase(k)
  }

  /** `normalize_department` */
  function NormalizeDepartment(s: Option<string>): (r: Option<string>)
    ensures r.None? <==> s.None?
  {
    match s
    case None => None
    case Some(x) => Some(Lookup(Key(x)))
  }

  // ---------------------------------------------------------------------------
  // Helpers about stripping and collapsing

  /** No two adjacent whitespace characters in any suffix. */
  lemma {:induction false} NoDoubleSpaceSuffix(s: string, k: nat)
    requires NoDoubleSpace(s) && k <= |s|
    ensures NoDoubleSpace(s[k..])
  {
    if k > 0 {
      NoDoubleSpaceSuffix(s[1..], k - 1);
      assert s[1..][k - 1..] == s[k..];
    }
  }

  /** No two adjacent whitespace characters in any prefix. */
  lemma {:induction false} NoDoubleSpacePrefix(s: string, k: nat)
    requires NoDoubleSpace(s) && k <= |s|
    ensures NoDoubleSpace(s[..k])
  {
    if k >= 2 {
      NoDoubleSpacePrefix(s[1..], k - 1);
      assert s[..k][1..] == s[1..][..k - 1];
    }
  }

  /** Stripping a collapsed string of key characters gives a well-formed key. */
  lemma StripKeepsKey(c: string)
    requires NoDoubleSpace(c)
    requires forall i :: 0 <= i < |c| ==> IsKeyChar(c[i])
    ensures IsKey(Strip(c))
  {
    StripNoDoubleSpace(c);
    StripKeyChars(c);
    StripEnds(c);
  }

  lemma StripNoDoubleSpace(c: string)
    requires NoDoubleSpace(c)
    ensures NoDoubleSpace(Strip(c))
  {
    var l := LStrip(c);
    NoDoubleSpaceSuffix(c, |c| - |l|);
    NoDoubleSpacePrefix(l, |RStrip(l)|);
  }

  lemma StripKeyChars(c: string)
    requires forall i :: 0 <= i < |c| ==> IsKeyChar(c[i])
    ensures forall i :: 0 <= i < |Strip(c)| ==> IsKeyChar(Strip(c)[i])
  {
    var l := LStrip(c);
    var r := RStrip(l);
    var p := LeadingSpace(c);
    var q := TrailingSpace(l);
    forall i | 0 <= i < |r|
      ensures IsKeyChar(r[i])
    {
      assert r[i] == l[i] == c[|p| + i];
    }
  }

  /** Collapsing leaves no two whitespace characters side by side, and starts
      with whitespace only where the text does and no run was open. */
  lemma {:induction false} CollapseShape(s: string, afterSpace: bool)
    ensures NoDoubleSpace(Collapse(s, afterSpace))
    ensures var r := Collapse(s, afterSpace); r != [] && IsSpace(r[0]) ==> !afterSpace && s != [] && IsSpace(s[0])
  {
    if s != [] {
      CollapseShape(s[1..], IsSpace(s[0]));
      var t := Collapse(s[1..], IsSpace(s[0]));
      var h := if IsSpace(s[0]) then (if afterSpace then [] else [' ']) else [s[0]];
      assert Collapse(s, afterSpace) == h + t;
      if h == [] {
        assert h + t == t;
      } else {
        var r := h + t;
        assert r[0] == h[0] && r[1..] == t;
        assert |r| >= 2 ==> r[1] == t[0];
      }
    }
  }

  /** Collapsing a text made only of key characters gives a text made only of
      key characters. */
  lemma {:induction false} CollapseKeepsKeyChars(s: string, afterSpace: bool)
    requires forall i :: 0 <= i < |s| ==> IsKeyChar(s[i])
    ensures forall i :: 0 <= i < |Collapse(s, afterSpace)| ==> IsKeyChar(Collapse(s, afterSpace)[i])
  {
    if s != [] {
      CollapseKeepsKeyChars(s[1..], IsSpace(s[0]));
    }
  }

  /** Inside a run of whitespace, collapsing starts at the first character that
      is not whitespace. */
  lemma {:induction false} CollapseAfterSpace(s: string)
    ensures Collapse(s, true) == Collapse(LStrip(s), false)
  {
    if s != [] && IsSpace(s[0]) {
      CollapseAfterSpace(s[1..]);
    }
  }

  /** Collapsing a concatenation: the second part is collapsed in the state the
      first part leaves. */
  lemma {:induction false} CollapseConcat(y: string, q: string, afterSpace: bool)
    ensures Collapse(y + q, afterSpace)
         == Collapse(y, afterSpace) + Collapse(q, if y == [] then afterSpace else IsSpace(y[|y| - 1]))
  {
    if y == [] {
      assert y + q == q;
    } else {
      var yq := y + q;
      assert yq[0] == y[0];
      assert yq[1..] == y[1..] + q;
      CollapseConcat(y[1..], q, IsSpace(y[0]));
      var head := if IsSpace(y[0]) then (if afterSpace then [] else [' ']) else [y[0]];
      var a, b := Collapse(y[1..], IsSpace(y[0])), Collapse(q, if y[1..] == [] then IsSpace(y[0]) else IsSpace(y[|y| - 1]));
      assert Collapse(y, afterSpace) == head + a;
      assert Collapse(yq, afterSpace) == head + (a + b);
      AppendAssoc(head, a, b);
    }
  }

  /** A string made of whitespace that is not empty collapses to one space. */
  lemma CollapseAllSpace(q: string)
    requires q != [] && AllSpace(q)
    ensures CollapseSpaces(q) == [' ']
  {
    CollapseAfterSpace(q[1..]);
    LStripAllSpace(q[1..]);
  }

  /** Leading whitespace does not change the collapsed, stripped text. */
  lemma TidyLStrip(x: string)
    ensures Strip(CollapseSpaces(x)) == Strip(CollapseSpaces(LStrip(x)))
  {
    if x != [] && IsSpace(x[0]) {
      calc {
        Strip(CollapseSpaces(x));
        Strip([' '] + Collapse(x[1..], true));
        { CollapseAfterSpace(x[1..]); }
        Strip([' '] + CollapseSpaces(LStrip(x[1..])));
        { StripConsSpace(CollapseSpaces(LStrip(x[1..]))); }
        Strip(CollapseSpaces(LStrip(x[1..])));
      }
    }
  }

  /** A space put in front of a string is stripped again. */
  lemma StripConsSpace(c: string)
    ensures Strip([' '] + c) == Strip(c)
  {
    assert ([' '] + c)[1..] == c;
  }

  /** Trailing whitespace does not change the collapsed, stripped text. */
  lemma TidyRStrip(x: string)
    ensures Strip(CollapseSpaces(x)) == Strip(CollapseSpaces(RStrip(x)))
  {
    var y := RStrip(x);
    var q := x[|y|..];
    if q != [] {
      CollapseTrailingSpace(x, y, q);
      StripAppendSpace(CollapseSpaces(y));
    }
  }

  /** Trailing whitespace collapses to one space. */
  lemma CollapseTrailingSpace(x: string, y: string, q: string)
    requires y == RStrip(x) && q == x[|y|..] && q != []
    ensures CollapseSpaces(x) == CollapseSpaces(y) + [' ']
  {
    assert x == y + q;
    assert AllSpace(q);
    CollapseConcat(y, q, false);
    CollapseAllSpace(q);
  }

  /** A space appended to a string is stripped again. */
  lemma StripAppendSpace(c: string)
    ensures Strip(c + [' ']) == Strip(c)
  {
    LStripConcat(c, [' ']);
    if LStrip(c) == [] {
      assert LStrip([' ']) == [];
    } else {
      assert AllSpace([' ']);
      RStripAppendSpace(LStrip(c), [' ']);
    }
  }

  /** Whitespace around the text does not change the collapsed, stripped text. */
  lemma TidyIgnoresSurroundingSpace(p: string, z: string, q: string)
    requires AllSpace(p) && AllSpace(q)
    ensures Strip(CollapseSpaces(p + (z + q))) == Strip(CollapseSpaces(z))
  {
    TidyIgnoresLeadingSpace(p, z + q);
    TidyIgnoresTrailingSpace(z, q);
  }

  lemma TidyIgnoresLeadingSpace(p: string, w: string)
    requires AllSpace(p)
    ensures Strip(CollapseSpaces(p + w)) == Strip(CollapseSpaces(w))
  {
    LStripAllSpace(p);
    LStripConcat(p, w);
    TidyLStrip(p + w);
    TidyLStrip(w);
  }

  lemma TidyIgnoresTrailingSpace(w: string, q: string)
    requires AllSpace(q)
    ensures Strip(CollapseSpaces(w + q)) == Strip(CollapseSpaces(w))
  {
    RStripAppendSpace(w, q);
    TidyRStrip(w + q);
    TidyRStrip(w);
  }

  /** Lower-casing and filtering distribute over concatenation. */
  lemma KeptLowerConcat(a: string, b: string)
    ensures Filter(IsKeyChar, LowerStr(a + b)) == Filter(IsKeyChar, LowerStr(a)) + Filter(IsKeyChar, LowerStr(b))
  {
    LowerConcat(a, b);
    FilterConcat(IsKeyChar, LowerStr(a), LowerStr(b));
  }

  /** Whitespace keeps only its spaces through lower-casing and filtering. */
  lemma KeptLowerSpace(p: string)
    requires AllSpace(p)
    ensures AllSpace(Filter(IsKeyChar, LowerStr(p)))
  {
    var f := Filter(IsKeyChar, LowerStr(p));
    assert forall i :: 0 <= i < |f| ==> f[i] == ' ' by {
      forall i | 0 <= i < |f| ensures f[i] == ' ' {
        assert IsKeyChar(f[i]);
        if f[i] != ' ' {
          KeptLowerCharsFrom(p, i);
        }
      }
    }
  }

  /** Whitespace yields no lower-case letter: after lower-casing and filtering
      a text made only of whitespace, no character left is a lower-case
      letter. */
  lemma {:induction false} KeptLowerCharsFrom(p: string, i: nat)
    requires AllSpace(p)
    requires i < |Filter(IsKeyChar, LowerStr(p))|
    ensures !IsLower(Filter(IsKeyChar, LowerStr(p))[i])
  {
    if p != [] {
      var t := LowerStr(p);
      assert t[0] == ToLower(p[0]);
      assert t[1..] == LowerStr(p[1..]);
      if IsKeyChar(t[0]) {
        if i > 0 {
          KeptLowerCharsFrom(p[1..], i - 1);
        }
      } else {
        KeptLowerCharsFrom(p[1..], i);
      }
    }
  }

  // ---------------------------------------------------------------------------
  // Properties of the key

  /** The first strip on line 26 is redundant: the key depends only on the
      lower-cased, filtered text. */
  lemma KeyWithoutStrip(s: string)
    ensures Key(s) == Strip(CollapseSpaces(Filter(IsKeyChar, LowerStr(s))))
  {
    var m := Strip(s);
    var p, q := SplitAtStrip(s);
    KeptLowerConcat3(p, m, q);
    KeptLowerSpace(p);
    KeptLowerSpace(q);
    TidyIgnoresSurroundingSpace(Filter(IsKeyChar, LowerStr(p)), Filter(IsKeyChar, LowerStr(m)), Filter(IsKeyChar, LowerStr(q)));
  }

  lemma KeptLowerConcat3(p: string, m: string, q: string)
    ensures Filter(IsKeyChar, LowerStr(p + (m + q)))
         == Filter(IsKeyChar, LowerStr(p)) + (Filter(IsKeyChar, LowerStr(m)) + Filter(IsKeyChar, LowerStr(q)))
  {
    KeptLowerConcat(p, m + q);
    KeptLowerConcat(m, q);
  }

  /** Names that differ only in letter case have the same key. */
  lemma KeyIgnoresCase(s: string, t: string)
    requires LowerStr(s) == LowerStr(t)
    ensures Key(s) == Key(t)
  {
    KeyWithoutStrip(s);
    KeyWithoutStrip(t);
  }

  /** Deleting a character other than a letter or a space (punctuation, a digit,
      a tab) does not change the key. */
  lemma KeyIgnoresJunk(a: string, junk: string, b: string)
    requires IsJunk(junk)
    ensures Key(a + junk + b) == Key(a + b)
  {
    KeyWithoutStrip(a + junk + b);
    KeyWithoutStrip(a + b);
    KeptLowerDropsJunk(a, junk, b);
  }

  /** Whitespace around a name does not change its key. */
  lemma KeyIgnoresSurroundingSpace(p: string, s: string, q: string)
    requires AllSpace(p) && AllSpace(q)
    ensures Key(p + s + q) == Key(s)
  {
    StripSurrounded(p, s, q);
  }

  /** `n` spaces. */
  function Spaces(n: nat): (r: string)
    ensures |r| == n && forall i :: 0 <= i < n ==> r[i] == ' '
  {
    if n == 0 then [] else [' '] + Spaces(n - 1)
  }

  /** A run of spaces inside a name keys like a single space. */
  lemma KeyCollapsesSpaces(a: string, n: nat, b: string)
    requires n >= 1
    ensures Key(a + Spaces(n) + b) == Key(a + " " + b)
  {
    KeyAroundSpaces(a, Spaces(n), b);
    KeyAroundSpaces(a, Spaces(1), b);
    assert Spaces(1) == " ";
    CollapseRunBetween(Filter(IsKeyChar, LowerStr(a)), n, Filter(IsKeyChar, LowerStr(b)));
  }

  /** The key of a name with spaces inside, in terms of the kept text on
      either side of them. */
  lemma KeyAroundSpaces(a: string, run: string, b: string)
    requires run == Spaces(|run|)
    ensures Key(a + run + b)
         == Strip(CollapseSpaces(Filter(IsKeyChar, LowerStr(a)) + (run + Filter(IsKeyChar, LowerStr(b)))))
  {
    KeyWithoutStrip(a + run + b);
    KeptSpaces(run);
    AppendAssoc(a, run, b);
    KeptLowerConcat3(a, run, b);
  }

  /** Between two texts, a run of spaces collapses like a single space. */
  lemma CollapseRunBetween(x: string, n: nat, y: string)
    requires n >= 1
    ensures CollapseSpaces(x + (Spaces(n) + y)) == CollapseSpaces(x + (" " + y))
  {
    var st := if x == [] then false else IsSpace(x[|x| - 1]);
    CollapseConcat(x, Spaces(n) + y, false);
    CollapseConcat(x, " " + y, false);
    CollapseSpaceRun(n, y, st);
  }

  /** Spaces survive lower-casing and filtering unchanged. */
  lemma KeptSpaces(run: string)
    requires forall i :: 0 <= i < |run| ==> run[i] == ' '
    ensures Filter(IsKeyChar, LowerStr(run)) == run
  {
    assert LowerStr(run) == run;
    FilterKeepsAll(IsKeyChar, run);
  }

  /** Collapsing treats a run of spaces like a single space. */
  lemma {:induction false} CollapseSpaceRun(n: nat, y: string, afterSpace: bool)
    requires n >= 1
    ensures Collapse(Spaces(n) + y, afterSpace) == Collapse(" " + y, afterSpace)
  {
    var one := " " + y;
    assert one[0] == ' ' && one[1..] == y;
    if n == 1 {
      assert Spaces(1) == " ";
    } else {
      var s := Spaces(n) + y;
      assert s[0] == ' ' && s[1..] == Spaces(n - 1) + y;
      CollapseSpaceRun(n - 1, y, true);
    }
  }

  /** Characters line 27 deletes: neither a letter nor a space. */
  predicate IsJunk(junk: string) {
    forall i :: 0 <= i < |junk| ==> !IsLetter(junk[i]) && junk[i] != ' '
  }

  lemma KeptLowerDropsJunk(a: string, junk: string, b: string)
    requires IsJunk(junk)
    ensures Filter(IsKeyChar, LowerStr(a + junk + b)) == Filter(IsKeyChar, LowerStr(a + b))
  {
    KeptLowerConcat(a + junk, b);
    KeptLowerConcat(a, junk);
    KeptLowerConcat(a, b);
    assert LowerStr(junk) == junk;
    FilterDropsAll(IsKeyChar, junk);
    assert Filter(IsKeyChar, LowerStr(a)) + [] == Filter(IsKeyChar, LowerStr(a));
  }

  /** A well-formed key is its own key. */
  lemma KeyOfKey(k: string)
    requires IsKey(k)
    ensures Key(k) == k
  {
    assert LStrip(k) == k;
    assert RStrip(k) == k;
    assert LowerStr(k) == k;
    FilterKeepsAll(IsKeyChar, k);
    CollapseFixed(k, false);
  }

  /** Collapsing leaves alone a string whose whitespace is single spaces. */
  lemma {:induction false} CollapseFixed(k: string, afterSpace: bool)
    requires NoDoubleSpace(k)
    requires forall i :: 0 <= i < |k| ==> IsSpace(k[i]) ==> k[i] == ' '
    requires afterSpace ==> k == [] || !IsSpace(k[0])
    ensures Collapse(k, afterSpace) == k
  {
    if k != [] {
      CollapseFixed(k[1..], IsSpace(k[0]));
    }
  }

  // ---------------------------------------------------------------------------
  // Title case

  lemma {:induction false} TitleFromAt(s: string, afterLetter: bool, i: nat)
    requires i < |s|
    ensures TitleFrom(s, afterLetter)[i]
         == if !IsLetter(s[i]) then s[i]
            else if (if i == 0 then afterLetter else IsLetter(s[i - 1])) then ToLower(s[i])
            else ToUpper(s[i])
  {
    if i > 0 {
      TitleFromAt(s[1..], IsLetter(s[0]), i - 1);
    }
  }

  /** `str.title()` character by character: a letter is upper-cased when it
      opens the text or follows a non-letter, and lower-cased after a letter;
      every other character is kept. */
  lemma TitleCaseAt(s: string, i: nat)
    requires i < |s|
    ensures TitleCase(s)[i]
         == if !IsLetter(s[i]) then s[i]
            else if i > 0 && IsLetter(s[i - 1]) then ToLower(s[i])
            else ToUpper(s[i])
  {
    TitleFromAt(s, false, i);
  }

  /** On a key, title case capitalises the first letter of each space-separated
      word and leaves everything else as it is. */
  lemma TitleOfKey(k: string)
    requires IsKey(k)
    ensures |TitleCase(k)| == |k|
    ensures forall i :: 0 <= i < |k| ==>
      TitleCase(k)[i] == if i == 0 || k[i - 1] == ' ' then ToUpper(k[i]) else k[i]
  {
    forall i | 0 <= i < |k|
      ensures TitleCase(k)[i] == if i == 0 || k[i - 1] == ' ' then ToUpper(k[i]) else k[i]
    {
      TitleCaseAt(k, i);
      assert IsKeyChar(k[i]);
      if i > 0 {
        assert IsKeyChar(k[i - 1]);
      }
    }
  }

  /** Title case changes letter case only. */
  lemma LowerOfTitle(s: string)
    ensures LowerStr(TitleCase(s)) == LowerStr(s)
  {
    forall i | 0 <= i < |s|
      ensures LowerStr(TitleCase(s))[i] == LowerStr(s)[i]
    {
      TitleCaseAt(s, i);
    }
  }

  /** A key is all lower case already. */
  lemma LowerOfKey(k: string)
    requires IsKey(k)
    ensures LowerStr(k) == k
  {
    assert forall i :: 0 <= i < |k| ==> IsKeyChar(k[i]);
  }

  /** The title-cased form of a key has that key again. */
  lemma KeyOfTitle(k: string)
    requires IsKey(k)
    ensures Key(TitleCase(k)) == k
  {
    LowerOfTitle(k);
    KeyIgnoresCase(TitleCase(k), k);
    KeyOfKey(k);
  }

  // ---------------------------------------------------------------------------
  // The synonym table and normalize_department

  /** Names differing only in letter case normalise alike. */
  lemma NormalizeIgnoresCase(s: string, t: string)
    requires LowerStr(s) == LowerStr(t)
    ensures NormalizeDepartment(Some(s)) == NormalizeDepartment(Some(t))
  {
    KeyIgnoresCase(s, t);
  }

  /** Whitespace around a name does not change the result. */
  lemma NormalizeIgnoresSurroundingSpace(p: string, s: string, q: string)
    requires AllSpace(p) && AllSpace(q)
    ensures NormalizeDepartment(Some(p + s + q)) == NormalizeDepartment(Some(s))
  {
    KeyIgnoresSurroundingSpace(p, s, q);
  }

  /** A run of spaces inside a name normalises like a single space. */
  lemma NormalizeCollapsesSpaces(a: string, n: nat, b: string)
    requires n >= 1
    ensures NormalizeDepartment(Some(a + Spaces(n) + b)) == NormalizeDepartment(Some(a + " " + b))
  {
    KeyCollapsesSpaces(a, n, b);
  }

  /** A single lower-case word with no synonym comes out capitalised. */
  lemma NormalizeWord(w: string)
    requires w != [] && w !in DeptMap
    requires forall i :: 0 <= i < |w| ==> IsLower(w[i])
    ensures NormalizeDepartment(Some(w)) == Some([ToUpper(w[0])] + w[1..])
  {
    WordIsKey(w);
    KeyOfKey(w);
    TitleOfWord(w);
  }

  /** A name whose lower-cased text is one word with no synonym comes out as
      that word capitalised. */
  lemma NormalizeCapitalised(s: string, w: string, t: string)
    requires w != [] && w !in DeptMap && LowerStr(s) == w
    requires forall i :: 0 <= i < |w| ==> IsLower(w[i])
    requires t == [ToUpper(w[0])] + w[1..]
    ensures NormalizeDepartment(Some(s)) == Some(t)
  {
    KeyIgnoresCase(s, w);
    NormalizeWord(w);
  }

  lemma TitleOfWord(w: string)
    requires w != []
    requires forall i :: 0 <= i < |w| ==> IsLower(w[i])
    ensures TitleCase(w) == [ToUpper(w[0])] + w[1..]
  {
    WordIsKey(w);
    TitleOfKey(w);
    forall i | 1 <= i < |w|
      ensures TitleCase(w)[i] == w[i]
    {
      assert IsLower(w[i - 1]);
      assert IsLower(w[i]);
    }
  }

  /** A name whose lower-cased text is a well-formed key has that key. */
  lemma KeyOfLowered(s: string, k: string)
    requires IsKey(k) && LowerStr(s) == k
    ensures Key(s) == k
  {
    KeyIgnoresCase(s, k);
    KeyOfKey(k);
  }

  /** Names whose lower-cased text is a `DEPT_MAP` key become "Operations". */
  lemma NormalizeSynonymCase(s: string, k: string)
    requires k in DeptMap && LowerStr(s) == k
    ensures NormalizeDepartment(Some(s)) == Some("Operations")
  {
    TableKeyIsKey(k);
    KeyOfLowered(s, k);
    SynonymsAreOperations();
  }

  /** A hyphen between two lower-case words is deleted rather than read as a
      word break: the key is the two words joined into one. */
  lemma KeyOfHyphenated(a: string, b: string)
    requires forall i :: 0 <= i < |a| ==> IsLower(a[i])
    requires forall i :: 0 <= i < |b| ==> IsLower(b[i])
    ensures Key(a + "-" + b) == a + b
  {
    KeyIgnoresJunk(a, "-", b);
    LowerConcatWords(a, b);
    WordIsKey(a + b);
    KeyOfKey(a + b);
  }

  lemma LowerConcatWords(a: string, b: string)
    requires forall i :: 0 <= i < |a| ==> IsLower(a[i])
    requires forall i :: 0 <= i < |b| ==> IsLower(b[i])
    ensures forall i :: 0 <= i < |a + b| ==> IsLower((a + b)[i])
  {
  }

  /** Deleting punctuation and digits does not change the result. */
  lemma NormalizeIgnoresJunk(a: string, junk: string, b: string)
    requires IsJunk(junk)
    ensures NormalizeDepartment(Some(a + junk + b)) == NormalizeDepartment(Some(a + b))
  {
    KeyIgnoresJunk(a, junk, b);
  }

  /** A word of lower-case letters is a key. */
  lemma {:induction false} WordIsKey(w: string)
    requires forall i :: 0 <= i < |w| ==> IsLower(w[i])
    ensures IsKey(w)
  {
    if |w| >= 2 {
      WordIsKey(w[1..]);
    }
  }

  /** Two keys joined by one space make a key. */
  lemma JoinIsKey(a: string, b: string)
    requires IsKey(a) && IsKey(b) && a != [] && b != []
    ensures IsKey(a + " " + b)
  {
    var sb := " " + b;
    assert sb[1..] == b && sb[1] == b[0];
    assert NoDoubleSpace(sb);
    NoDoubleSpaceConcat(a, sb);
    AppendAssoc(a, " ", b);
  }

  lemma {:induction false} NoDoubleSpaceConcat(a: string, b: string)
    requires NoDoubleSpace(a) && NoDoubleSpace(b)
    requires a == [] || b == [] || !IsSpace(a[|a| - 1]) || !IsSpace(b[0])
    ensures NoDoubleSpace(a + b)
  {
    if a == [] {
      assert a + b == b;
    } else {
      assert (a + b)[1..] == a[1..] + b;
      NoDoubleSpaceConcat(a[1..], b);
      if |a| == 1 && b != [] {
        assert (a + b)[1] == b[0];
      }
    }
  }

  lemma OpsDeptIsKey()
    ensures IsKey("ops") && IsKey("ops dept")
  {
    WordIsKey("ops");
    WordIsKey("dept");
    JoinIsKey("ops", "dept");
    assert "ops" + " " + "dept" == "ops dept";
  }

  lemma OperationsIsKey()
    ensures IsKey("operations")
  {
    WordIsKey("operations");
  }

  lemma OperationsTeamIsKey()
    ensures IsKey("operations team")
  {
    OperationsIsKey();
    WordIsKey("team");
    JoinIsKey("operations", "team");
    assert "operations" + " " + "team" == "operations team";
  }

  lemma SpacedOpsIsKey()
    ensures IsKey("o p s")
  {
    WordIsKey("o");
    WordIsKey("p");
    JoinIsKey("o", "p");
    assert "o" + " " + "p" == "o p";
    WordIsKey("s");
    JoinIsKey("o p", "s");
    assert "o p" + " " + "s" == "o p s";
  }

  /** Every `DEPT_MAP` key is a well-formed key. */
  lemma TableKeyIsKey(k: string)
    requires k in DeptMap
    ensures IsKey(k)
  {
    if k == "ops" || k == "ops dept" {
      OpsDeptIsKey();
    } else if k == "operations" {
      OperationsIsKey();
    } else if k == "operations team" {
      OperationsTeamIsKey();
    } else {
      SpacedOpsIsKey();
    }
  }

  /** Every `DEPT_MAP` entry maps to "Operations". */
  lemma SynonymsAreOperations()
    ensures forall k :: k in DeptMap ==> DeptMap[k] == "Operations"
  {
  }

  /** A name whose key is in `DEPT_MAP` becomes "Operations". */
  lemma SynonymGivesOperations(s: string)
    requires Key(s) in DeptMap
    ensures NormalizeDepartment(Some(s)) == Some("Operations")
  {
    SynonymsAreOperations();
  }

  /** Every `DEPT_MAP` key itself becomes "Operations". */
  lemma TableKeyGivesOperations(k: string)
    requires k in DeptMap
    ensures NormalizeDepartment(Some(k)) == Some("Operations")
  {
    TableKeyIsKey(k);
    LowerOfKey(k);
    NormalizeSynonymCase(k, k);
  }

  /** The result is "Operations" exactly when the key is a `DEPT_MAP` synonym:
      no title-cased fallback can produce it. */
  lemma OperationsIffSynonym(s: string)
    ensures NormalizeDepartment(Some(s)) == Some("Operations") <==> Key(s) in DeptMap
  {
    SynonymsAreOperations();
    KeyIsKey(s);
    if Key(s) !in DeptMap {
      TitleIsNotOperations(Key(s));
    }
  }

  lemma TitleIsNotOperations(k: string)
    requires IsKey(k) && k !in DeptMap
    ensures TitleCase(k) != "Operations"
  {
    LowerOfTitle(k);
    LowerOfKey(k);
    OperationsLowered();
  }

  lemma OperationsLowered()
    ensures LowerStr("Operations") == "operations"
  {
    OperationsCapitalised();
    LowerCapitalised("operations");
  }

  lemma OperationsCapitalised()
    ensures "Operations" == [ToUpper("operations"[0])] + "operations"[1..]
  {
  }

  /** Capitalising a lower-case word and lower-casing it again gives the word back. */
  lemma LowerCapitalised(w: string)
    requires w != [] && forall i :: 0 <= i < |w| ==> IsLower(w[i])
    ensures LowerStr([ToUpper(w[0])] + w[1..]) == w
  {
    var t := [ToUpper(w[0])] + w[1..];
    assert forall i :: 0 <= i < |w| ==> LowerStr(t)[i] == w[i];
  }

  /** A key outside `DEPT_MAP` is returned title-cased: the key with the first
      letter of each word capitalised. */
  lemma FallbackIsTitleCase(s: string)
    requires Key(s) !in DeptMap
    ensures NormalizeDepartment(Some(s)).Some?
    ensures var t, k := NormalizeDepartment(Some(s)).value, Key(s);
      && |t| == |k|
      && LowerStr(t) == k
      && forall i :: 0 <= i < |k| ==> t[i] == if i == 0 || k[i - 1] == ' ' then ToUpper(k[i]) else k[i]
  {
    var k := Key(s);
    KeyIsKey(s);
    TitleOfKey(k);
    LowerOfTitle(k);
    LowerOfKey(k);
  }

  /** `normalize_department` is idempotent. */
  lemma NormalizeIdempotent(s: Option<string>)
    ensures NormalizeDepartment(NormalizeDepartment(s)) == NormalizeDepartment(s)
  {
    if s.Some? {
      var k := Key(s.value);
      KeyIsKey(s.value);
      SynonymsAreOperations();
      if k in DeptMap {
        OperationsLowered();
        NormalizeSynonymCase("Operations", "operations");
      } else {
        KeyOfTitle(k);
      }
    }
  }

  // ---------------------------------------------------------------------------
  // Worked examples

  lemma ExampleOps()
    ensures NormalizeDepartment(Some("ops")) == Some("Operations")
  {
    TableKeyGivesOperations("ops");
  }

  lemma ExampleUpperCase()
    ensures NormalizeDepartment(Some("OPS DEPT")) == Some("Operations")
  {
    NormalizeSynonymCase("OPS DEPT", "ops dept");
  }

  lemma ExampleSpacedLetters()
    ensures NormalizeDepartment(Some("O p S")) == Some("Operations")
  {
    NormalizeSynonymCase("O p S", "o p s");
  }

  lemma ExamplePunctuation()
    ensures NormalizeDepartment(Some("operations team!!")) == Some("Operations")
  {
    assert "operations team!!" == "operations team" + "!!" + [];
    NormalizeIgnoresJunk("operations team", "!!", []);
    assert "operations team" + [] == "operations team";
    TableKeyGivesOperations("operations team");
  }

  /** A name with no synonym is title-cased, an acronym included. */
  lemma ExampleAcronym()
    ensures NormalizeDepartment(Some("HR")) == Some("Hr")
  {
    NormalizeCapitalised("HR", "hr", "Hr");
  }
}
