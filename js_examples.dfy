/** The `application/javascript` cases of the repository's specs, replayed
    on the model. */
module JsExamples {
  import opened Text
  import opened Hashing
  import opened Rules
  import opened Scrambler
  import opened Examples

  /** Code with no quote before a string literal holding only the term:
      the literal is rewritten and the code kept. */
  lemma AssignedLiteral(a: Bytes, x: Bytes, t: Bytes, c: Bytes, d: Bytes, p: nat)
    requires IsTerm(t) && |x| <= 1 && forall i :: 0 <= i < |x| ==> IsJsPrefix(x[i])
    requires forall i :: 0 <= i < |a| ==> !IsQuote(a[i])
    requires p < |t| && t[p] !in c
    ensures Rewrite(JsRule, a + (['"'] + x + t + ['"'] + c), t, d) == a + (['"'] + x + d + ['"'] + c)
  {
    GsubAfter(JsPass, a, ['"'] + x + t + ['"'] + c, t, d);
    JsLiteralRewritten('"', x, t, c, d);
    TermAbsent(JsPass, c, t, d, p);
  }

  /** Code with no quote, then text `e` at the start of which no match can
      begin: the pass goes on after `e`. */
  lemma SkipPrefix(a: Bytes, e: Bytes, r: Bytes, t: Bytes, d: Bytes)
    requires forall i :: 0 <= i < |a| ==> !IsQuote(a[i])
    requires forall j :: 0 <= j <= |e| + 1 ==> !Site(JsPass, e + r, t, j)
    ensures Rewrite(JsRule, a + e + r, t, d) == a + e + Rewrite(JsRule, r, t, d)
  {
    assert a + e + r == a + (e + r);
    GsubAfter(JsPass, a, e + r, t, d);
    SiteFreePrefix(JsPass, e + r, t, d, |e|);
    assert (e + r)[..|e|] == e && (e + r)[|e|..] == r;
    assert a + (e + Gsub(JsPass, r, t, d)) == a + e + Gsub(JsPass, r, t, d);
  }

  // ---------------------------------------------------------------------
  // A string literal holding only a term becomes the digest.

  lemma SelectorLayout(s0: Bytes, a: Bytes, x: Bytes, c: Bytes, t: Bytes)
    requires s0 == "var selector = \"foo\";" && a == "var selector = " && x == "" && c == ";" && t == "foo"
    ensures s0 == a + (['"'] + x + t + ['"'] + c)
    ensures (forall i :: 0 <= i < |a| ==> !IsQuote(a[i])) && t[0] !in c
  {}

  lemma SelectorResult(s1: Bytes, a: Bytes, x: Bytes, c: Bytes, d: Bytes)
    requires s1 == "var selector = \"qSqFHnMwM\";" && a == "var selector = " && x == "" && c == ";" && d == "qSqFHnMwM"
    ensures s1 == a + (['"'] + x + d + ['"'] + c)
  {}

  lemma SelectorFoo(s0: Bytes, s1: Bytes)
    requires s0 == "var selector = \"foo\";" && s1 == "var selector = \"qSqFHnMwM\";"
    ensures Rewrite(JsRule, s0, "foo", Digest(Salt, "foo")) == s1
  {
    var a, x, c, t := "var selector = ", "", ";", "foo";
    var d := Digest(Salt, t);
    DigestOfFoo();
    SelectorLayout(s0, a, x, c, t);
    SelectorResult(s1, a, x, c, d);
    AssignedLiteral(a, x, t, c, d, 0);
  }

  lemma SelectorFiltered(s0: Bytes, s1: Bytes)
    requires s0 == "var selector = \"foo\";" && s1 == "var selector = \"qSqFHnMwM\";"
    ensures FilterWith(JsRule, Salt, Terms, s0) == s1
  {
    var t1: Bytes, t2: Bytes := "bannerad", "bannerAd";
    assert 'b' !in s0;
    Untouched(JsRule, s0, t1, Digest(Salt, t1), 0);
    Untouched(JsRule, s0, t2, Digest(Salt, t2), 0);
    SelectorFoo(s0, s1);
    FilterTerms(JsRule, s0, s0, s0, s1);
  }

  /** A string literal holding only a term becomes the digest. */
  lemma ReplacesLoneLiterals(s0: Bytes, s1: Bytes)
    requires s0 == "var selector = \"foo\";" && s1 == "var selector = \"qSqFHnMwM\";"
    ensures Scrambled(Salt, Terms, None, Page("application/javascript"), [s0]) == Ok([s1])
  {
    SelectorFiltered(s0, s1);
    JsSelected();
    OneChunk("application/javascript", JsRule, s0, s1);
  }

  // ---------------------------------------------------------------------
  // A `#` may precede the term inside the literal.

  lemma HashSelectorLayout(s0: Bytes, a: Bytes, x: Bytes, c: Bytes, t: Bytes)
    requires s0 == "var selector = \"#foo\"" && a == "var selector = " && x == "#" && c == "" && t == "foo"
    ensures s0 == a + (['"'] + x + t + ['"'] + c)
    ensures (forall i :: 0 <= i < |a| ==> !IsQuote(a[i])) && t[0] !in c
  {}

  lemma HashSelectorResult(s1: Bytes, a: Bytes, x: Bytes, c: Bytes, d: Bytes)
    requires s1 == "var selector = \"#qSqFHnMwM\"" && a == "var selector = " && x == "#" && c == "" && d == "qSqFHnMwM"
    ensures s1 == a + (['"'] + x + d + ['"'] + c)
  {}

  lemma HashSelectorFoo(s0: Bytes, s1: Bytes)
    requires s0 == "var selector = \"#foo\"" && s1 == "var selector = \"#qSqFHnMwM\""
    ensures Rewrite(JsRule, s0, "foo", Digest(Salt, "foo")) == s1
  {
    var a, x, c, t := "var selector = ", "#", "", "foo";
    var d := Digest(Salt, t);
    DigestOfFoo();
    HashSelectorLayout(s0, a, x, c, t);
    HashSelectorResult(s1, a, x, c, d);
    AssignedLiteral(a, x, t, c, d, 0);
  }

  lemma HashSelectorFiltered(s0: Bytes, s1: Bytes)
    requires s0 == "var selector = \"#foo\"" && s1 == "var selector = \"#qSqFHnMwM\""
    ensures FilterWith(JsRule, Salt, Terms, s0) == s1
  {
    var t1: Bytes, t2: Bytes := "bannerad", "bannerAd";
    assert 'b' !in s0;
    Untouched(JsRule, s0, t1, Digest(Salt, t1), 0);
    Untouched(JsRule, s0, t2, Digest(Salt, t2), 0);
    HashSelectorFoo(s0, s1);
    FilterTerms(JsRule, s0, s0, s0, s1);
  }

  /** A `#` may precede the term inside the literal. */
  lemma AllowsHashSign(s0: Bytes, s1: Bytes)
    requires s0 == "var selector = \"#foo\"" && s1 == "var selector = \"#qSqFHnMwM\""
    ensures Scrambled(Salt, Terms, None, Page("application/javascript"), [s0]) == Ok([s1])
  {
    HashSelectorFiltered(s0, s1);
    JsSelected();
    OneChunk("application/javascript", JsRule, s0, s1);
  }

  // ---------------------------------------------------------------------
  // A `.` may precede the term inside the literal.

  lemma DotSelectorLayout(s0: Bytes, a: Bytes, x: Bytes, c: Bytes, t: Bytes)
    requires s0 == "var selector = \".foo\"" && a == "var selector = " && x == "." && c == "" && t == "foo"
    ensures s0 == a + (['"'] + x + t + ['"'] + c)
    ensures (forall i :: 0 <= i < |a| ==> !IsQuote(a[i])) && t[0] !in c
  {}

  lemma DotSelectorResult(s1: Bytes, a: Bytes, x: Bytes, c: Bytes, d: Bytes)
    requires s1 == "var selector = \".qSqFHnMwM\"" && a == "var selector = " && x == "." && c == "" && d == "qSqFHnMwM"
    ensures s1 == a + (['"'] + x + d + ['"'] + c)
  {}

  lemma DotSelectorFoo(s0: Bytes, s1: Bytes)
    requires s0 == "var selector = \".foo\"" && s1 == "var selector = \".qSqFHnMwM\""
    ensures Rewrite(JsRule, s0, "foo", Digest(Salt, "foo")) == s1
  {
    var a, x, c, t := "var selector = ", ".", "", "foo";
    var d := Digest(Salt, t);
    DigestOfFoo();
    DotSelectorLayout(s0, a, x, c, t);
    DotSelectorResult(s1, a, x, c, d);
    AssignedLiteral(a, x, t, c, d, 0);
  }

  lemma DotSelectorFiltered(s0: Bytes, s1: Bytes)
    requires s0 == "var selector = \".foo\"" && s1 == "var selector = \".qSqFHnMwM\""
    ensures FilterWith(JsRule, Salt, Terms, s0) == s1
  {
    var t1: Bytes, t2: Bytes := "bannerad", "bannerAd";
    assert 'b' !in s0;
    Untouched(JsRule, s0, t1, Digest(Salt, t1), 0);
    Untouched(JsRule, s0, t2, Digest(Salt, t2), 0);
    DotSelectorFoo(s0, s1);
    FilterTerms(JsRule, s0, s0, s0, s1);
  }

  /** A `.` may precede the term inside the literal. */
  lemma AllowsDot(s0: Bytes, s1: Bytes)
    requires s0 == "var selector = \".foo\"" && s1 == "var selector = \".qSqFHnMwM\""
    ensures Scrambled(Salt, Terms, None, Page("application/javascript"), [s0]) == Ok([s1])
  {
    DotSelectorFiltered(s0, s1);
    JsSelected();
    OneChunk("application/javascript", JsRule, s0, s1);
  }

  // ---------------------------------------------------------------------
  // A term outside a string literal is not replaced.

  lemma NameLayout(s: Bytes, a: Bytes, b: Bytes, t: Bytes)
    requires s == "var foo = \"id\"" && a == "var foo = " && b == "\"id\"" && t == "foo"
    ensures s == a + b && (forall i :: 0 <= i < |a| ==> !IsQuote(a[i])) && t[0] !in b
  {}

  lemma NameFoo(s: Bytes)
    requires s == "var foo = \"id\""
    ensures Rewrite(JsRule, s, "foo", Digest(Salt, "foo")) == s
  {
    var a, b, t := "var foo = ", "\"id\"", "foo";
    NameLayout(s, a, b, t);
    GsubAfter(JsPass, a, b, t, Digest(Salt, t));
    TermAbsent(JsPass, b, t, Digest(Salt, t), 0);
  }

  lemma NameFiltered(s: Bytes)
    requires s == "var foo = \"id\""
    ensures FilterWith(JsRule, Salt, Terms, s) == s
  {
    var t1: Bytes, t2: Bytes := "bannerad", "bannerAd";
    assert 'b' !in s;
    Untouched(JsRule, s, t1, Digest(Salt, t1), 0);
    Untouched(JsRule, s, t2, Digest(Salt, t2), 0);
    NameFoo(s);
    FilterTerms(JsRule, s, s, s, s);
  }

  /** A term outside a string literal is not replaced. */
  lemma KeepsNames(s: Bytes)
    requires s == "var foo = \"id\""
    ensures Scrambled(Salt, Terms, None, Page("application/javascript"), [s]) == Ok([s])
  {
    NameFiltered(s);
    JsSelected();
    OneChunk("application/javascript", JsRule, s, s);
  }

  // ---------------------------------------------------------------------
  // A term that is not alone in its literal is not replaced.

  lemma SentenceLayout(s: Bytes, a: Bytes, e: Bytes, r: Bytes)
    requires s == "var id = \"foo is cool\"" && a == "var id = " && e == "\"" && r == "foo is cool\""
    ensures s == a + e + r && forall i :: 0 <= i < |a| ==> !IsQuote(a[i])
  {}

  /** The opening quote starts no match: a space, not a quote, follows the term. */
  lemma SentenceOpening(e: Bytes, r: Bytes, t: Bytes)
    requires e == "\"" && r == "foo is cool\"" && t == "foo"
    ensures forall j :: 0 <= j <= |e| + 1 ==> !Site(JsPass, e + r, t, j)
  {}

  /** After the opening quote, the next quote closes the literal and ends the text. */
  lemma SentenceRest(r: Bytes, t: Bytes, d: Bytes)
    requires r == "foo is cool\"" && t == "foo"
    ensures Rewrite(JsRule, r, t, d) == r
  {
    var x, y := "foo is cool", "\"";
    assert r == x + y && forall i :: 0 <= i < |x| ==> !IsQuote(x[i]);
    GsubAfter(JsPass, x, y, t, d);
    TermAbsent(JsPass, y, t, d, 0);
  }

  lemma SentenceFoo(s: Bytes)
    requires s == "var id = \"foo is cool\""
    ensures Rewrite(JsRule, s, "foo", Digest(Salt, "foo")) == s
  {
    var a, e, r, t := "var id = ", "\"", "foo is cool\"", "foo";
    var d := Digest(Salt, t);
    SentenceLayout(s, a, e, r);
    SentenceOpening(e, r, t);
    SentenceRest(r, t, d);
    SkipPrefix(a, e, r, t, d);
  }

  lemma SentenceFiltered(s: Bytes)
    requires s == "var id = \"foo is cool\""
    ensures FilterWith(JsRule, Salt, Terms, s) == s
  {
    var t1: Bytes, t2: Bytes := "bannerad", "bannerAd";
    assert 'b' !in s;
    Untouched(JsRule, s, t1, Digest(Salt, t1), 0);
    Untouched(JsRule, s, t2, Digest(Salt, t2), 0);
    SentenceFoo(s);
    FilterTerms(JsRule, s, s, s, s);
  }

  /** A term that is not alone in its literal is not replaced. */
  lemma KeepsLongerLiterals(s: Bytes)
    requires s == "var id = \"foo is cool\""
    ensures Scrambled(Salt, Terms, None, Page("application/javascript"), [s]) == Ok([s])
  {
    SentenceFiltered(s);
    JsSelected();
    OneChunk("application/javascript", JsRule, s, s);
  }
  // ---------------------------------------------------------------------
  // A literal holding only an escaped quote does not hide a later lone
  // literal.

  lemma EscapedLayout(s0: Bytes, a: Bytes, e: Bytes, r: Bytes)
    requires s0 == "var quote = " + "\"\\\"\"" + "; var selector = \"foo\";"
    requires a == "var quote = " && e == "\"\\\"\"" && r == "; var selector = \"foo\";"
    ensures s0 == a + e + r
  {}

  lemma EscapedResult(s1: Bytes, a: Bytes, e: Bytes, r1: Bytes)
    requires s1 == "var quote = " + "\"\\\"\"" + "; var selector = \"qSqFHnMwM\";"
    requires a == "var quote = " && e == "\"\\\"\"" && r1 == "; var selector = \"qSqFHnMwM\";"
    ensures s1 == a + e + r1
  {}

  lemma EscapedCode(a: Bytes)
    requires a == "var quote = "
    ensures forall i :: 0 <= i < |a| ==> !IsQuote(a[i])
  {}

  /** No match starts in the first literal: the term's first letter is not in it. */
  lemma EscapedOpening(e: Bytes, r: Bytes, t: Bytes)
    requires e == "\"\\\"\"" && r == "; var selector = \"foo\";" && t == "foo"
    ensures forall j :: 0 <= j <= |e| + 1 ==> !Site(JsPass, e + r, t, j)
  {
    HeadAbsent(e + r, t, |e| + 4);
  }

  /** The second literal is a lone term. */
  lemma EscapedRest(r: Bytes, r1: Bytes, t: Bytes, d: Bytes)
    requires r == "; var selector = \"foo\";" && r1 == "; var selector = \"qSqFHnMwM\";" && t == "foo" && d == "qSqFHnMwM"
    ensures Rewrite(JsRule, r, t, d) == r1
  {
    var a, c := "; var selector = ", ";";
    EscapedRestLayout(r, r1, a, c, t, d);
    AssignedLiteral(a, [], t, c, d, 0);
  }

  lemma EscapedRestLayout(r: Bytes, r1: Bytes, a: Bytes, c: Bytes, t: Bytes, d: Bytes)
    requires r == "; var selector = \"foo\";" && r1 == "; var selector = \"qSqFHnMwM\";" && a == "; var selector = " && c == ";"
    requires t == "foo" && d == "qSqFHnMwM"
    ensures r == a + (['"'] + [] + t + ['"'] + c) && r1 == a + (['"'] + [] + d + ['"'] + c)
    ensures (forall i :: 0 <= i < |a| ==> !IsQuote(a[i])) && t[0] !in c
  {}

  lemma EscapedFoo(s0: Bytes, s1: Bytes)
    requires s0 == "var quote = " + "\"\\\"\"" + "; var selector = \"foo\";" && s1 == "var quote = " + "\"\\\"\"" + "; var selector = \"qSqFHnMwM\";"
    ensures Rewrite(JsRule, s0, "foo", Digest(Salt, "foo")) == s1
  {
    var a, e, r, r1, t := "var quote = ", "\"\\\"\"", "; var selector = \"foo\";", "; var selector = \"qSqFHnMwM\";", "foo";
    var d := Digest(Salt, t);
    DigestOfFoo();
    EscapedLayout(s0, a, e, r);
    EscapedResult(s1, a, e, r1);
    EscapedCode(a);
    EscapedOpening(e, r, t);
    EscapedRest(r, r1, t, d);
    SkipPrefix(a, e, r, t, d);
  }

  lemma EscapedFiltered(s0: Bytes, s1: Bytes)
    requires s0 == "var quote = " + "\"\\\"\"" + "; var selector = \"foo\";" && s1 == "var quote = " + "\"\\\"\"" + "; var selector = \"qSqFHnMwM\";"
    ensures FilterWith(JsRule, Salt, Terms, s0) == s1
  {
    var t1: Bytes, t2: Bytes := "bannerad", "bannerAd";
    assert 'b' !in s0;
    Untouched(JsRule, s0, t1, Digest(Salt, t1), 0);
    Untouched(JsRule, s0, t2, Digest(Salt, t2), 0);
    EscapedFoo(s0, s1);
    FilterTerms(JsRule, s0, s0, s0, s1);
  }

  /** A literal holding only an escaped quote does not hide a later lone
      literal. */
  lemma AccountsForEscapedQuotes(s0: Bytes, s1: Bytes)
    requires s0 == "var quote = " + "\"\\\"\"" + "; var selector = \"foo\";" && s1 == "var quote = " + "\"\\\"\"" + "; var selector = \"qSqFHnMwM\";"
    ensures Scrambled(Salt, Terms, None, Page("application/javascript"), [s0]) == Ok([s1])
  {
    EscapedFiltered(s0, s1);
    JsSelected();
    OneChunk("application/javascript", JsRule, s0, s1);
  }
}
