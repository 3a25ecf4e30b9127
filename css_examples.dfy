/** The `text/css` cases of the repository's specs, replayed on the model. */
module CssExamples {
  import opened Text
  import opened Hashing
  import opened Rules
  import opened Scrambler
  import opened Examples

  /** A text whose only selector opener is at `k`, and not followed by the
      term and a closer, has no site for the CSS pass. */
  lemma LoneOpener(s: Bytes, t: Bytes, d: Bytes, k: nat)
    requires IsTerm(t) && k + |t| + 1 < |s| && !IsCssClose(s[k + |t| + 1])
    requires forall m :: 0 <= m < |s| && IsCssOpen(s[m]) ==> m == k
    ensures Rewrite(CssRule, s, t, d) == s
  {
    forall i: nat ensures !CssSite(s, t, i) {
    }
    assert forall i: nat :: !Site(CssPass, s, t, i);
    NoSiteUnchanged(CssPass, s, t, d);
  }

  /** A text with no `#`, `.` or `|` has no site for the CSS pass. */
  lemma NoSelector(s: Bytes, t: Bytes, d: Bytes)
    requires forall m :: 0 <= m < |s| ==> !IsCssOpen(s[m])
    ensures Rewrite(CssRule, s, t, d) == s
  {
    forall i: nat ensures !Site(CssPass, s, t, i) {
    }
    NoSiteUnchanged(CssPass, s, t, d);
  }

  // ---------------------------------------------------------------------
  // An id selector naming a term becomes the digest.

  lemma HashFooLayout(s0: Bytes, c: Bytes, t: Bytes)
    requires s0 == "#foo { some: value }" && c == "{ some: value }" && t == "foo"
    ensures s0 == ['#'] + t + [' '] + c && t[0] !in c
  {}

  lemma HashFooResult(s1: Bytes, c: Bytes, d: Bytes)
    requires s1 == "#qSqFHnMwM { some: value }" && c == "{ some: value }" && d == "qSqFHnMwM"
    ensures s1 == ['#'] + d + [' '] + c
  {}

  lemma HashFooFoo(s0: Bytes, s1: Bytes)
    requires s0 == "#foo { some: value }" && s1 == "#qSqFHnMwM { some: value }"
    ensures Rewrite(CssRule, s0, "foo", Digest(Salt, "foo")) == s1
  {
    var c, t := "{ some: value }", "foo";
    var d := Digest(Salt, t);
    DigestOfFoo();
    HashFooLayout(s0, c, t);
    HashFooResult(s1, c, d);
    CssSelectorRewritten('#', t, ' ', c, d);
    TermAbsent(CssPass, c, t, d, 0);
  }

  lemma HashFooFiltered(s0: Bytes, s1: Bytes)
    requires s0 == "#foo { some: value }" && s1 == "#qSqFHnMwM { some: value }"
    ensures FilterWith(CssRule, Salt, Terms, s0) == s1
  {
    var t1: Bytes, t2: Bytes := "bannerad", "bannerAd";
    assert 'b' !in s0;
    Untouched(CssRule, s0, t1, Digest(Salt, t1), 0);
    Untouched(CssRule, s0, t2, Digest(Salt, t2), 0);
    HashFooFoo(s0, s1);
    FilterTerms(CssRule, s0, s0, s0, s1);
  }

  /** An id selector naming a term becomes the digest. */
  lemma ReplacesIdSelectors(s0: Bytes, s1: Bytes)
    requires s0 == "#foo { some: value }" && s1 == "#qSqFHnMwM { some: value }"
    ensures Scrambled(Salt, Terms, None, Page("text/css"), [s0]) == Ok([s1])
  {
    HashFooFiltered(s0, s1);
    CssSelected();
    OneChunk("text/css", CssRule, s0, s1);
  }

  // ---------------------------------------------------------------------
  // A class selector naming a term becomes the digest.

  lemma DotFooLayout(s0: Bytes, c: Bytes, t: Bytes)
    requires s0 == ".foo { some: value }" && c == "{ some: value }" && t == "foo"
    ensures s0 == ['.'] + t + [' '] + c && t[0] !in c
  {}

  lemma DotFooResult(s1: Bytes, c: Bytes, d: Bytes)
    requires s1 == ".qSqFHnMwM { some: value }" && c == "{ some: value }" && d == "qSqFHnMwM"
    ensures s1 == ['.'] + d + [' '] + c
  {}

  lemma DotFooFoo(s0: Bytes, s1: Bytes)
    requires s0 == ".foo { some: value }" && s1 == ".qSqFHnMwM { some: value }"
    ensures Rewrite(CssRule, s0, "foo", Digest(Salt, "foo")) == s1
  {
    var c, t := "{ some: value }", "foo";
    var d := Digest(Salt, t);
    DigestOfFoo();
    DotFooLayout(s0, c, t);
    DotFooResult(s1, c, d);
    CssSelectorRewritten('.', t, ' ', c, d);
    TermAbsent(CssPass, c, t, d, 0);
  }

  lemma DotFooFiltered(s0: Bytes, s1: Bytes)
    requires s0 == ".foo { some: value }" && s1 == ".qSqFHnMwM { some: value }"
    ensures FilterWith(CssRule, Salt, Terms, s0) == s1
  {
    var t1: Bytes, t2: Bytes := "bannerad", "bannerAd";
    assert 'b' !in s0;
    Untouched(CssRule, s0, t1, Digest(Salt, t1), 0);
    Untouched(CssRule, s0, t2, Digest(Salt, t2), 0);
    DotFooFoo(s0, s1);
    FilterTerms(CssRule, s0, s0, s0, s1);
  }

  /** A class selector naming a term becomes the digest. */
  lemma ReplacesClassSelectors(s0: Bytes, s1: Bytes)
    requires s0 == ".foo { some: value }" && s1 == ".qSqFHnMwM { some: value }"
    ensures Scrambled(Salt, Terms, None, Page("text/css"), [s0]) == Ok([s1])
  {
    DotFooFiltered(s0, s1);
    CssSelected();
    OneChunk("text/css", CssRule, s0, s1);
  }

  // ---------------------------------------------------------------------
  // Every selector naming a term is replaced.

  lemma BothFooLayout(s0: Bytes, c: Bytes, t: Bytes)
    requires s0 == "#foo .foo { some: value }" && c == "{ some: value }" && t == "foo"
    ensures s0 == ['#'] + t + [' '] + (['.'] + t + [' '] + c) && t[0] !in c
  {}

  lemma BothFooResult(s1: Bytes, c: Bytes, d: Bytes)
    requires s1 == "#qSqFHnMwM .qSqFHnMwM { some: value }" && c == "{ some: value }" && d == "qSqFHnMwM"
    ensures s1 == ['#'] + d + [' '] + (['.'] + d + [' '] + c)
  {}

  lemma BothFooFoo(s0: Bytes, s1: Bytes)
    requires s0 == "#foo .foo { some: value }" && s1 == "#qSqFHnMwM .qSqFHnMwM { some: value }"
    ensures Rewrite(CssRule, s0, "foo", Digest(Salt, "foo")) == s1
  {
    var c, t := "{ some: value }", "foo";
    var d := Digest(Salt, t);
    DigestOfFoo();
    BothFooLayout(s0, c, t);
    BothFooResult(s1, c, d);
    CssSelectorRewritten('#', t, ' ', ['.'] + t + [' '] + c, d);
    CssSelectorRewritten('.', t, ' ', c, d);
    TermAbsent(CssPass, c, t, d, 0);
  }

  lemma BothFooFiltered(s0: Bytes, s1: Bytes)
    requires s0 == "#foo .foo { some: value }" && s1 == "#qSqFHnMwM .qSqFHnMwM { some: value }"
    ensures FilterWith(CssRule, Salt, Terms, s0) == s1
  {
    var t1: Bytes, t2: Bytes := "bannerad", "bannerAd";
    assert 'b' !in s0;
    Untouched(CssRule, s0, t1, Digest(Salt, t1), 0);
    Untouched(CssRule, s0, t2, Digest(Salt, t2), 0);
    BothFooFoo(s0, s1);
    FilterTerms(CssRule, s0, s0, s0, s1);
  }

  /** Every selector naming a term is replaced. */
  lemma ReplacesEverySelector(s0: Bytes, s1: Bytes)
    requires s0 == "#foo .foo { some: value }" && s1 == "#qSqFHnMwM .qSqFHnMwM { some: value }"
    ensures Scrambled(Salt, Terms, None, Page("text/css"), [s0]) == Ok([s1])
  {
    BothFooFiltered(s0, s1);
    CssSelected();
    OneChunk("text/css", CssRule, s0, s1);
  }

  // ---------------------------------------------------------------------
  // A selector that only starts with a term is not replaced.

  lemma HyphenFoo(s: Bytes)
    requires s == "#foo-foo { some: value }"
    ensures Rewrite(CssRule, s, "foo", Digest(Salt, "foo")) == s
  {
    LoneOpener(s, "foo", Digest(Salt, "foo"), 0);
  }

  lemma HyphenFiltered(s: Bytes)
    requires s == "#foo-foo { some: value }"
    ensures FilterWith(CssRule, Salt, Terms, s) == s
  {
    var t1: Bytes, t2: Bytes := "bannerad", "bannerAd";
    assert 'b' !in s;
    Untouched(CssRule, s, t1, Digest(Salt, t1), 0);
    Untouched(CssRule, s, t2, Digest(Salt, t2), 0);
    HyphenFoo(s);
    FilterTerms(CssRule, s, s, s, s);
  }

  /** A selector that only starts with a term is not replaced. */
  lemma KeepsLongerSelectors(s: Bytes)
    requires s == "#foo-foo { some: value }"
    ensures Scrambled(Salt, Terms, None, Page("text/css"), [s]) == Ok([s])
  {
    HyphenFiltered(s);
    CssSelected();
    OneChunk("text/css", CssRule, s, s);
  }

  // ---------------------------------------------------------------------
  // Property names and values are not selectors.

  lemma PropertyFoo(s: Bytes)
    requires s == "div { foo: foo }"
    ensures Rewrite(CssRule, s, "foo", Digest(Salt, "foo")) == s
  {
    NoSelector(s, "foo", Digest(Salt, "foo"));
  }

  lemma PropertyFiltered(s: Bytes)
    requires s == "div { foo: foo }"
    ensures FilterWith(CssRule, Salt, Terms, s) == s
  {
    var t1: Bytes, t2: Bytes := "bannerad", "bannerAd";
    assert 'b' !in s;
    Untouched(CssRule, s, t1, Digest(Salt, t1), 0);
    Untouched(CssRule, s, t2, Digest(Salt, t2), 0);
    PropertyFoo(s);
    FilterTerms(CssRule, s, s, s, s);
  }

  /** Property names and values are not selectors. */
  lemma KeepsDeclarations(s: Bytes)
    requires s == "div { foo: foo }"
    ensures Scrambled(Salt, Terms, None, Page("text/css"), [s]) == Ok([s])
  {
    PropertyFiltered(s);
    CssSelected();
    OneChunk("text/css", CssRule, s, s);
  }
}
