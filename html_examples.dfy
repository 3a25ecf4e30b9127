/** The `text/html` cases of the repository's specs, replayed on the model:
    both HTML passes for each of the three terms, on a one-chunk body. */
module HtmlExamples {
  import opened Text
  import opened Hashing
  import opened Rules
  import opened Scrambler
  import opened Examples

  // ---------------------------------------------------------------------
  // One tag, one term.

  /** Tag text with no quote and no line break in it holds neither an
      `id="TERM"` nor a `class="`. */
  lemma QuotelessTag(a: Bytes, t: Bytes)
    requires '"' !in a && NewLine !in a
    ensures BeforeId(a, t) && BeforeClass(a)
  {
    Absent(a, IdOpen + t + ['"'], 3);
    Absent(a, ClassOpen, 6);
  }

  /** A tag whose `id` value is the term, followed by text with no `id="TERM"`
      in it: the id pass replaces that value, and the class pass then finds
      no trace of the term. */
  lemma IdTagOnly(s0: Bytes, s1: Bytes, a: Bytes, c: Bytes, t: Bytes, d: Bytes, p: nat)
    requires IsTerm(t) && BeforeId(a, t)
    requires s0 == "<" + a + IdOpen + t + "\">" + c && s1 == "<" + a + IdOpen + d + "\">" + c
    requires NoneStartIn(c, IdOpen + t + ['"'], 0, |c|)
    requires p < |t| && t[p] !in s1
    ensures Rewrite(HtmlRule, s0, t, d) == s1
  {
    IdValueOnly(a, c, t, d);
    TermAbsent(ClassPass, s1, t, d, p);
  }

  /** The id pass on such a tag. */
  lemma IdValueOnly(a: Bytes, c: Bytes, t: Bytes, d: Bytes)
    requires IsTerm(t) && BeforeId(a, t)
    requires NoneStartIn(c, IdOpen + t + ['"'], 0, |c|)
    ensures Gsub(IdPass, "<" + a + IdOpen + t + "\">" + c, t, d) == "<" + a + IdOpen + d + "\">" + c
  {
    NothingAfterValue(a, c, t);
    NothingAfterValue(a, c, d);
    IdValueRewritten(a, [], c, t, d);
    IdNeedsValue(c, t, d);
  }

  /** A tag whose `id` value `x` is the last thing before its `>`. */
  lemma NothingAfterValue(a: Bytes, c: Bytes, x: Bytes)
    ensures "<" + a + IdOpen + x + "\"" + [] + ">" + c == "<" + a + IdOpen + x + "\">" + c
  {
    assert "\"" + [] + ">" == "\">";
  }

  /** A tag whose `class` value starts with the term, in a text with no
      `id="TERM"`, followed by text lacking a character of the term: only that
      word is replaced. */
  lemma ClassTagOnly(s0: Bytes, s1: Bytes, a: Bytes, b: Bytes, c: Bytes, t: Bytes, d: Bytes, p: nat)
    requires IsTerm(t) && BeforeClass(a) && InsideTag(b) && b != [] && !IsWord(b[0]) && '"' in b
    requires s0 == "<" + a + ClassOpen + t + b + ">" + c && s1 == "<" + a + ClassOpen + d + b + ">" + c
    requires NoneStartIn(s0, IdOpen + t + ['"'], 0, |s0|)
    requires p < |t| && t[p] !in c
    ensures Rewrite(HtmlRule, s0, t, d) == s1
  {
    IdNeedsValue(s0, t, d);
    assert "<" + a + ClassOpen + [] == "<" + a + ClassOpen;
    ClassWordRewritten(a, [], b, c, t, d);
    TermAbsent(ClassPass, c, t, d, p);
  }

  /** Neither pass has anything to do in a text where `d=` never occurs
      (so no `id="TERM"`) and some character of `class="` is missing. */
  lemma NoAttribute(s: Bytes, t: Bytes, d: Bytes, p: nat)
    requires IsTerm(t) && forall k :: 0 <= k < |s| - 1 ==> s[k] != 'd' || s[k + 1] != '='
    requires p < |ClassOpen| && ClassOpen[p] !in s
    ensures Rewrite(HtmlRule, s, t, d) == s
  {
    PairAbsent(s, IdOpen + t + ['"'], 1);
    IdNeedsValue(s, t, d);
    Absent(s, ClassOpen, p);
    ClassNeedsOpen(s, t, d);
  }

  /** Neither pass has anything to do in a text where `d=` never occurs and
      the only place the term's first character appears is right after a
      word character, so that the term is never a whole word. */
  lemma InsideWord(s: Bytes, t: Bytes, d: Bytes, k: nat)
    requires IsTerm(t) && forall m :: 0 <= m < |s| - 1 ==> s[m] != 'd' || s[m + 1] != '='
    requires 1 <= k < |s| && IsWord(s[k - 1])
    requires forall m :: 0 <= m < |s| && s[m] == t[0] ==> m == k
    ensures Rewrite(HtmlRule, s, t, d) == s
  {
    PairAbsent(s, IdOpen + t + ['"'], 1);
    IdNeedsValue(s, t, d);
    forall i: nat ensures !ClassSite(s, t, i) {
    }
    NoSiteUnchanged(ClassPass, s, t, d);
  }

  // ---------------------------------------------------------------------
  // Tags with more in them: a quoted attribute before the `id`, and a word
  // before the term in a `class` value.

  /** `<p class="x" id="foo">`: the id match is that tag, with `foo` as the
      value, though another quoted attribute comes first. */
  lemma IdAfterQuotedAttribute(a: Bytes, t: Bytes)
    requires a == "p class=\"x\" " && t == "foo"
    ensures HitAt(IdPass, "<" + a + IdOpen + t + "\"" + [] + ">" + [], t) == Some(Hit(17, 22))
  {
    assert NewLine !in a && (IdOpen + t + ['"'])[0] !in a;
    Absent(a, IdOpen + t + ['"'], 0);
    IdTagHit(a, [], [], t);
  }

  /** `<div class="testclass1 bannerAd">`: the class match is that tag, with
      the second word of the value as the term. */
  lemma ClassSecondWord(a: Bytes, v: Bytes, t: Bytes)
    requires a == "div " && v == "testclass1 " && t == "bannerAd"
    ensures HitAt(ClassPass, "<" + a + ClassOpen + v + t + "\"" + ">" + [], t) == Some(Hit(23, 33))
  {
    QuotelessTag(a, t);
    forall i | 1 <= i <= |v| ensures !ClassSite(['"'] + v + t, t, i) {
      assert (['"'] + v + t)[i] == v[i - 1] != t[0];
    }
    ClassTagHit(a, v, "\"", [], t);
  }

  // ---------------------------------------------------------------------
  // "replaces matching ids"

  lemma DivIdLayout(s0: Bytes, a: Bytes, c: Bytes, t: Bytes)
    requires s0 == "<div id=\"foo\"></div>" && a == "div " && c == "</div>" && t == "foo"
    ensures s0 == "<" + a + IdOpen + t + "\">" + c
  {}

  lemma DivIdResult(s1: Bytes, a: Bytes, c: Bytes, d: Bytes)
    requires s1 == "<div id=\"qSqFHnMwM\"></div>" && a == "div " && c == "</div>" && d == "qSqFHnMwM"
    ensures s1 == "<" + a + IdOpen + d + "\">" + c && 'f' !in s1
  {}

  lemma DivIdFoo(s0: Bytes, s1: Bytes)
    requires s0 == "<div id=\"foo\"></div>" && s1 == "<div id=\"qSqFHnMwM\"></div>"
    ensures Rewrite(HtmlRule, s0, "foo", Digest(Salt, "foo")) == s1
  {
    var a, c, t := "div ", "</div>", "foo";
    var d := Digest(Salt, t);
    DigestOfFoo();
    DivIdLayout(s0, a, c, t);
    DivIdResult(s1, a, c, d);
    Absent(c, IdOpen + t + ['"'], 2);
    QuotelessTag(a, t);
    IdTagOnly(s0, s1, a, c, t, d, 0);
  }

  lemma DivIdFiltered(s0: Bytes, s1: Bytes)
    requires s0 == "<div id=\"foo\"></div>" && s1 == "<div id=\"qSqFHnMwM\"></div>"
    ensures FilterWith(HtmlRule, Salt, Terms, s0) == s1
  {
    var t1: Bytes, t2: Bytes := "bannerad", "bannerAd";
    assert 'b' !in s0;
    Untouched(HtmlRule, s0, t1, Digest(Salt, t1), 0);
    Untouched(HtmlRule, s0, t2, Digest(Salt, t2), 0);
    DivIdFoo(s0, s1);
    FilterTerms(HtmlRule, s0, s0, s0, s1);
  }

  /** An element whose `id` is a term gets the digest as its `id`. */
  lemma ReplacesMatchingIds(s0: Bytes, s1: Bytes)
    requires s0 == "<div id=\"foo\"></div>" && s1 == "<div id=\"qSqFHnMwM\"></div>"
    ensures Scrambled(Salt, Terms, None, Page("text/html"), [s0]) == Ok([s1])
  {
    DivIdFiltered(s0, s1);
    HtmlSelected();
    OneChunk("text/html", HtmlRule, s0, s1);
  }

  // ---------------------------------------------------------------------
  // A `class` value equal to a term becomes the digest.

  lemma DivClassLayout(s0: Bytes, a: Bytes, b: Bytes, c: Bytes, t: Bytes)
    requires s0 == "<div class=\"foo\"></div>"
    requires a == "div " && b == "\"" && c == "</div>" && t == "foo"
    ensures s0 == "<" + a + ClassOpen + t + b + ">" + c
  {}

  lemma DivClassResult(s1: Bytes, a: Bytes, b: Bytes, c: Bytes, d: Bytes)
    requires s1 == "<div class=\"qSqFHnMwM\"></div>"
    requires a == "div " && b == "\"" && c == "</div>" && d == "qSqFHnMwM"
    ensures s1 == "<" + a + ClassOpen + d + b + ">" + c
  {}

  lemma DivClassFoo(s0: Bytes, s1: Bytes)
    requires s0 == "<div class=\"foo\"></div>" && s1 == "<div class=\"qSqFHnMwM\"></div>"
    ensures Rewrite(HtmlRule, s0, "foo", Digest(Salt, "foo")) == s1
  {
    var a, b, c, t := "div ", "\"", "</div>", "foo";
    var d := Digest(Salt, t);
    PairAbsent(s0, IdOpen + t + ['"'], 1);
    DigestOfFoo();
    DivClassLayout(s0, a, b, c, t);
    DivClassResult(s1, a, b, c, d);
    QuotelessTag(a, t);
    ClassTagOnly(s0, s1, a, b, c, t, d, 0);
  }

  lemma DivClassFiltered(s0: Bytes, s1: Bytes)
    requires s0 == "<div class=\"foo\"></div>" && s1 == "<div class=\"qSqFHnMwM\"></div>"
    ensures FilterWith(HtmlRule, Salt, Terms, s0) == s1
  {
    var t1: Bytes, t2: Bytes := "bannerad", "bannerAd";
    assert 'b' !in s0;
    Untouched(HtmlRule, s0, t1, Digest(Salt, t1), 0);
    Untouched(HtmlRule, s0, t2, Digest(Salt, t2), 0);
    DivClassFoo(s0, s1);
    FilterTerms(HtmlRule, s0, s0, s0, s1);
  }

  /** A `class` value equal to a term becomes the digest. */
  lemma ReplacesMatchingClasses(s0: Bytes, s1: Bytes)
    requires s0 == "<div class=\"foo\"></div>" && s1 == "<div class=\"qSqFHnMwM\"></div>"
    ensures Scrambled(Salt, Terms, None, Page("text/html"), [s0]) == Ok([s1])
  {
    DivClassFiltered(s0, s1);
    HtmlSelected();
    OneChunk("text/html", HtmlRule, s0, s1);
  }

  // ---------------------------------------------------------------------
  // Only the word equal to a term is replaced in a `class` value.

  lemma TwoClassesLayout(s0: Bytes, a: Bytes, b: Bytes, c: Bytes, t: Bytes)
    requires s0 == "<div class=\"foo someclass\"></div>"
    requires a == "div " && b == " someclass\"" && c == "</div>" && t == "foo"
    ensures s0 == "<" + a + ClassOpen + t + b + ">" + c
  {}

  lemma TwoClassesResult(s1: Bytes, a: Bytes, b: Bytes, c: Bytes, d: Bytes)
    requires s1 == "<div class=\"qSqFHnMwM someclass\"></div>"
    requires a == "div " && b == " someclass\"" && c == "</div>" && d == "qSqFHnMwM"
    ensures s1 == "<" + a + ClassOpen + d + b + ">" + c
  {}

  lemma TwoClassesFoo(s0: Bytes, s1: Bytes)
    requires s0 == "<div class=\"foo someclass\"></div>" && s1 == "<div class=\"qSqFHnMwM someclass\"></div>"
    ensures Rewrite(HtmlRule, s0, "foo", Digest(Salt, "foo")) == s1
  {
    var a, b, c, t := "div ", " someclass\"", "</div>", "foo";
    var d := Digest(Salt, t);
    PairAbsent(s0, IdOpen + t + ['"'], 1);
    DigestOfFoo();
    TwoClassesLayout(s0, a, b, c, t);
    TwoClassesResult(s1, a, b, c, d);
    QuotelessTag(a, t);
    ClassTagOnly(s0, s1, a, b, c, t, d, 0);
  }

  lemma TwoClassesFiltered(s0: Bytes, s1: Bytes)
    requires s0 == "<div class=\"foo someclass\"></div>" && s1 == "<div class=\"qSqFHnMwM someclass\"></div>"
    ensures FilterWith(HtmlRule, Salt, Terms, s0) == s1
  {
    var t1: Bytes, t2: Bytes := "bannerad", "bannerAd";
    assert 'b' !in s0;
    Untouched(HtmlRule, s0, t1, Digest(Salt, t1), 0);
    Untouched(HtmlRule, s0, t2, Digest(Salt, t2), 0);
    TwoClassesFoo(s0, s1);
    FilterTerms(HtmlRule, s0, s0, s0, s1);
  }

  /** Only the word equal to a term is replaced in a `class` value. */
  lemma KeepsOtherClasses(s0: Bytes, s1: Bytes)
    requires s0 == "<div class=\"foo someclass\"></div>" && s1 == "<div class=\"qSqFHnMwM someclass\"></div>"
    ensures Scrambled(Salt, Terms, None, Page("text/html"), [s0]) == Ok([s1])
  {
    TwoClassesFiltered(s0, s1);
    HtmlSelected();
    OneChunk("text/html", HtmlRule, s0, s1);
  }

  // ---------------------------------------------------------------------
  // A term inside a longer word is not replaced.

  lemma XfooxFoo(s: Bytes)
    requires s == "<div class=\"xfoox\"></div>"
    ensures Rewrite(HtmlRule, s, "foo", Digest(Salt, "foo")) == s
  {
    InsideWord(s, "foo", Digest(Salt, "foo"), 13);
  }

  lemma XfooxFiltered(s: Bytes)
    requires s == "<div class=\"xfoox\"></div>"
    ensures FilterWith(HtmlRule, Salt, Terms, s) == s
  {
    var t1: Bytes, t2: Bytes := "bannerad", "bannerAd";
    assert 'b' !in s;
    Untouched(HtmlRule, s, t1, Digest(Salt, t1), 0);
    Untouched(HtmlRule, s, t2, Digest(Salt, t2), 0);
    XfooxFoo(s);
    FilterTerms(HtmlRule, s, s, s, s);
  }

  /** A term inside a longer word is not replaced. */
  lemma KeepsInexactMatches(s: Bytes)
    requires s == "<div class=\"xfoox\"></div>"
    ensures Scrambled(Salt, Terms, None, Page("text/html"), [s]) == Ok([s])
  {
    XfooxFiltered(s);
    HtmlSelected();
    OneChunk("text/html", HtmlRule, s, s);
  }

  // ---------------------------------------------------------------------
  // The value of an attribute other than `id` or `class` is not replaced.

  lemma SrcText(s: Bytes)
    requires s == "<div src=\"foo\"></div>"
    ensures forall k :: 0 <= k < |s| - 1 ==> s[k] != 'd' || s[k + 1] != '='
    ensures ClassOpen[1] !in s
  {}

  lemma SrcTerm(s: Bytes, t: Bytes)
    requires s == "<div src=\"foo\"></div>" && IsTerm(t)
    ensures Rewrite(HtmlRule, s, t, Digest(Salt, t)) == s
  {
    SrcText(s);
    NoAttribute(s, t, Digest(Salt, t), 1);
  }

  lemma SrcFiltered(s: Bytes)
    requires s == "<div src=\"foo\"></div>"
    ensures FilterWith(HtmlRule, Salt, Terms, s) == s
  {
    var t1: Bytes, t2: Bytes, t3: Bytes := "bannerad", "bannerAd", "foo";
    assert IsTerm(t1) && IsTerm(t2) && IsTerm(t3);
    SrcTerm(s, t1);
    SrcTerm(s, t2);
    SrcTerm(s, t3);
    FilterTerms(HtmlRule, s, s, s, s);
  }

  /** The value of an attribute other than `id` or `class` is not replaced. */
  lemma KeepsOtherAttributes(s: Bytes)
    requires s == "<div src=\"foo\"></div>"
    ensures Scrambled(Salt, Terms, None, Page("text/html"), [s]) == Ok([s])
  {
    SrcFiltered(s);
    HtmlSelected();
    OneChunk("text/html", HtmlRule, s, s);
  }

  // ---------------------------------------------------------------------
  // An attribute named like a term is not replaced.

  lemma AttrNameText(s: Bytes)
    requires s == "<div foo=\"value\"></div>"
    ensures forall k :: 0 <= k < |s| - 1 ==> s[k] != 'd' || s[k + 1] != '='
    ensures ClassOpen[0] !in s
  {}

  lemma AttrNameTerm(s: Bytes, t: Bytes)
    requires s == "<div foo=\"value\"></div>" && IsTerm(t)
    ensures Rewrite(HtmlRule, s, t, Digest(Salt, t)) == s
  {
    AttrNameText(s);
    NoAttribute(s, t, Digest(Salt, t), 0);
  }

  lemma AttrNameFiltered(s: Bytes)
    requires s == "<div foo=\"value\"></div>"
    ensures FilterWith(HtmlRule, Salt, Terms, s) == s
  {
    var t1: Bytes, t2: Bytes, t3: Bytes := "bannerad", "bannerAd", "foo";
    assert IsTerm(t1) && IsTerm(t2) && IsTerm(t3);
    AttrNameTerm(s, t1);
    AttrNameTerm(s, t2);
    AttrNameTerm(s, t3);
    FilterTerms(HtmlRule, s, s, s, s);
  }

  /** An attribute named like a term is not replaced. */
  lemma KeepsAttributeNames(s: Bytes)
    requires s == "<div foo=\"value\"></div>"
    ensures Scrambled(Salt, Terms, None, Page("text/html"), [s]) == Ok([s])
  {
    AttrNameFiltered(s);
    HtmlSelected();
    OneChunk("text/html", HtmlRule, s, s);
  }

  // ---------------------------------------------------------------------
  // A rewritten body is longer by the salt's length per replacement: the
  // lazy `<.*?id="` runs from `<html>` across two tags to the `id`.

  lemma HeadingParts(a: Bytes, c: Bytes, t: Bytes)
    requires a == "html><body><h1 " && c == "Ad</h1></body></html>" && t == "bannerad"
    ensures IsTerm(t) && BeforeId(a, t) && NoneStartIn(c, IdOpen + t + ['"'], 0, |c|)
  {
    QuotelessTag(a, t);
    assert '=' !in c;
    Absent(c, IdOpen + t + ['"'], 2);
  }

  lemma HeadingBannerad(s0: Bytes, s1: Bytes)
    requires s0 == "<" + "html><body><h1 " + IdOpen + "bannerad" + "\">" + "Ad</h1></body></html>"
    requires s1 == "<" + "html><body><h1 " + IdOpen + "qSqFHnIEmmdAul" + "\">" + "Ad</h1></body></html>"
    ensures Rewrite(HtmlRule, s0, "bannerad", Digest(Salt, "bannerad")) == s1
  {
    var a, c, t := "html><body><h1 ", "Ad</h1></body></html>", "bannerad";
    var d := Digest(Salt, t);
    DigestOfBannerad();
    HeadingParts(a, c, t);
    HeadingBannerAd(s1);
    IdTagOnly(s0, s1, a, c, t, d, 5);
  }

  lemma HeadingBannerAd(s1: Bytes)
    requires s1 == "<" + "html><body><h1 " + IdOpen + "qSqFHnIEmmdAul" + "\">" + "Ad</h1></body></html>"
    ensures Rewrite(HtmlRule, s1, "bannerAd", Digest(Salt, "bannerAd")) == s1
    ensures "bannerad"[5] !in s1
  {
    assert 'r' !in "<" && 'r' !in "html><body><h1 " && 'r' !in IdOpen && 'r' !in "qSqFHnIEmmdAul";
    assert 'r' !in "\">" && 'r' !in "Ad</h1></body></html>";
    Untouched(HtmlRule, s1, "bannerAd", Digest(Salt, "bannerAd"), 5);
  }

  lemma HeadingFoo(s1: Bytes)
    requires s1 == "<" + "html><body><h1 " + IdOpen + "qSqFHnIEmmdAul" + "\">" + "Ad</h1></body></html>"
    ensures Rewrite(HtmlRule, s1, "foo", Digest(Salt, "foo")) == s1
  {
    assert 'f' !in "<" && 'f' !in "html><body><h1 " && 'f' !in IdOpen && 'f' !in "qSqFHnIEmmdAul";
    assert 'f' !in "\">" && 'f' !in "Ad</h1></body></html>";
    Untouched(HtmlRule, s1, "foo", Digest(Salt, "foo"), 0);
  }

  lemma HeadingFiltered(s0: Bytes, s1: Bytes)
    requires s0 == "<" + "html><body><h1 " + IdOpen + "bannerad" + "\">" + "Ad</h1></body></html>"
    requires s1 == "<" + "html><body><h1 " + IdOpen + "qSqFHnIEmmdAul" + "\">" + "Ad</h1></body></html>"
    ensures FilterWith(HtmlRule, Salt, Terms, s0) == s1
  {
    HeadingBannerad(s0, s1);
    HeadingBannerAd(s1);
    HeadingFoo(s1);
    FilterTerms(HtmlRule, s0, s1, s1, s1);
  }

  /** `<html><body><h1 id="bannerad">Ad</h1></body></html>`: one replacement
      makes the body longer by the length of the salt. */
  lemma GrowsBySalt(s0: Bytes, s1: Bytes)
    requires s0 == "<" + "html><body><h1 " + IdOpen + "bannerad" + "\">" + "Ad</h1></body></html>"
    requires s1 == "<" + "html><body><h1 " + IdOpen + "qSqFHnIEmmdAul" + "\">" + "Ad</h1></body></html>"
    ensures Scrambled(Salt, Terms, None, Page("text/html"), [s0]) == Ok([s1])
    ensures |s1| == |s0| + |Salt|
  {
    HeadingFiltered(s0, s1);
    HtmlSelected();
    OneChunk("text/html", HtmlRule, s0, s1);
  }
}
