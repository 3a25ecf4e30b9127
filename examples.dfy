/** The behaviour the repository's own specs describe, replayed on the model:
    a middleware built with salt "foobar" and the terms "bannerad", "bannerAd"
    and "foo", answering a request without a client address (so the hasher's
    salt is "foobar"), with a one-chunk body. */
module Examples {
  import opened Text
  import opened Hashing
  import opened Rules
  import opened Scrambler

  const Salt: Bytes := "foobar"
  const Terms: seq<Bytes> := ["bannerad", "bannerAd", "foo"]

  /** The headers of the mocked application, for a given `Content-Type`. */
  function Page(ct: string): Headers {
    map[ContentTypeKey := ct]
  }

  // ---------------------------------------------------------------------
  // Digests under the salt "foobar".

  lemma Djb3OfFoobarfoo(s: seq<Byte>)
    requires s == "foobarfoo"
    ensures Djb3Of(s) == "qSqFHnMwM"
  {
    assert s[8..][1..] == [];
    Djb3Step(7572379672745427, s[8..], 249888529200599202);
    assert s[7..][1..] == s[8..];
    Djb3Step(229466050689252, s[7..], 7572379672745427);
    assert s[6..][1..] == s[7..];
    Djb3Step(6953516687550, s[6..], 229466050689252);
    assert s[5..][1..] == s[6..];
    Djb3Step(210712626892, s[5..], 6953516687550);
    assert s[4..][1..] == s[5..];
    Djb3Step(6385231115, s[4..], 210712626892);
    assert s[3..][1..] == s[4..];
    Djb3Step(193491849, s[3..], 6385231115);
    assert s[2..][1..] == s[3..];
    Djb3Step(5863386, s[2..], 193491849);
    assert s[1..][1..] == s[2..];
    Djb3Step(177675, s[1..], 5863386);
    assert s[0..][1..] == s[1..];
    Djb3Step(5381, s[0..], 177675);
    assert s[0..] == s;
  }

  /** The letters from position 10 on, once "foobarbann" is folded in. */
  lemma Djb3OfFoobarbanneradFrom10(s: seq<Byte>)
    requires s == "foobarbannerad"
    ensures Djb3From(8246321463619614749, s[10..]) == "dAul"
  {
    assert s[13..][1..] == [];
    Djb3Step(296348054438098095348661, s[13..], 9779485796457237146505913);
    assert s[12..][1..] == s[13..];
    Djb3Step(8980244073881760465108, s[12..], 296348054438098095348661);
    assert s[11..][1..] == s[12..];
    Djb3Step(272128608299447286818, s[11..], 8980244073881760465108);
    assert s[10..][1..] == s[11..];
    Djb3Step(8246321463619614749, s[10..], 272128608299447286818);
  }

  /** The letters from position 7 on, once "foobarb" is folded in. */
  lemma Djb3OfFoobarbanneradFrom7(s: seq<Byte>)
    requires s == "foobarbannerad"
    ensures Djb3From(229466050689248, s[7..]) == "EmmdAul"
  {
    Djb3OfFoobarbanneradFrom10(s);
    assert s[9..][1..] == s[10..];
    Djb3Step(249888529200594383, s[9..], 8246321463619614749);
    assert s[8..][1..] == s[9..];
    Djb3Step(7572379672745281, s[8..], 249888529200594383);
    assert s[7..][1..] == s[8..];
    Djb3Step(229466050689248, s[7..], 7572379672745281);
  }

  /** The letters from position 3 on, once "foo" is folded in. */
  lemma Djb3OfFoobarbanneradFrom3(s: seq<Byte>)
    requires s == "foobarbannerad"
    ensures Djb3From(193491849, s[3..]) == "FHnIEmmdAul"
  {
    Djb3OfFoobarbanneradFrom7(s);
    assert s[6..][1..] == s[7..];
    Djb3Step(6953516687550, s[6..], 229466050689248);
    assert s[5..][1..] == s[6..];
    Djb3Step(210712626892, s[5..], 6953516687550);
    assert s[4..][1..] == s[5..];
    Djb3Step(6385231115, s[4..], 210712626892);
    assert s[3..][1..] == s[4..];
    Djb3Step(193491849, s[3..], 6385231115);
  }

  lemma Djb3OfFoobarbannerad(s: seq<Byte>)
    requires s == "foobarbannerad"
    ensures Djb3Of(s) == "qSqFHnIEmmdAul"
  {
    Djb3OfFoobarbanneradFrom3(s);
    assert s[2..][1..] == s[3..];
    Djb3Step(5863386, s[2..], 193491849);
    assert s[1..][1..] == s[2..];
    Djb3Step(177675, s[1..], 5863386);
    assert s[0..][1..] == s[1..];
    Djb3Step(5381, s[0..], 177675);
    assert s[0..] == s;
  }

  /** Without a client address the hasher's salt is the middleware's salt. */
  lemma KeyWithoutAddress()
    ensures RequestKey(None, Salt) == Salt
  {
    assert [] + Salt == Salt;
  }

  lemma DigestOfFoo()
    ensures Digest(Salt, "foo") == "qSqFHnMwM"
  {
    Djb3OfFoobarfoo(Salt + "foo");
  }

  lemma DigestOfBannerad()
    ensures Digest(Salt, "bannerad") == "qSqFHnIEmmdAul"
  {
    Djb3OfFoobarbannerad(Salt + "bannerad");
  }

  // ---------------------------------------------------------------------
  // Which bodies are filtered, and with which rule.

  /** A text lacking some character of `w` does not contain `w`. */
  lemma NotContained(s: string, w: string, p: nat)
    requires p < |w| && w[p] !in s
    ensures !Contains(s, w)
  {
    Absent(s, w, p);
    forall i: nat ensures !StartsAt(s, i, w) {
    }
  }

  /** With terms given, a `Content-Type` naming one of the three types is filtered. */
  lemma Filtered(ct: string)
    requires Select(ct).Some?
    ensures ShouldFilter(Terms, Page(ct)) == Ok(true)
  {
    assert Page(ct)[ContentTypeKey] == ct;
  }

  lemma HtmlSelected()
    ensures Select("text/html") == Some(HtmlRule)
  {
    assert StartsAt("text/html", 0, HtmlType);
  }

  lemma CssSelected()
    ensures Select("text/css") == Some(CssRule)
  {
    assert StartsAt("text/css", 0, CssType);
  }

  lemma NotHtmlNorCss(ct: string)
    requires ct == "application/javascript"
    ensures !Contains(ct, HtmlType) && !Contains(ct, CssType)
  {
    NotContained(ct, HtmlType, 5);
    NotContained(ct, CssType, 2);
  }

  lemma JsSelected()
    ensures Select("application/javascript") == Some(JsRule)
  {
    NotHtmlNorCss("application/javascript");
    assert StartsAt("application/javascript", 0, JsType);
  }

  /** A `Content-Type` naming none of the three media types leaves every
      body as it is, whatever the terms. */
  lemma OtherTypePassesThrough(body: seq<Bytes>)
    ensures Scrambled(Salt, Terms, None, Page("text/foo"), body) == Ok(body)
  {
    NotContained("text/foo", HtmlType, 5);
    NotContained("text/foo", CssType, 5);
    NotContained("text/foo", JsType, 0);
    assert Page("text/foo")[ContentTypeKey] == "text/foo";
    PassThrough(Salt, Terms, None, Page("text/foo"), body);
  }

  /** With no terms, every body passes through, whatever the headers. */
  lemma NoTermsPassesThrough(headers: Headers, body: seq<Bytes>)
    ensures Scrambled(Salt, [], None, headers, body) == Ok(body)
  {
    PassThrough(Salt, [], None, headers, body);
  }

  /** With terms configured, a response without a `Content-Type` is an error. */
  lemma MissingTypeFails(body: seq<Bytes>)
    ensures Scrambled(Salt, Terms, None, map[], body) == Err(MissingContentType)
  {
  }

  /** `filter!` with the three terms, one rewrite after the other. */
  lemma FilterTerms(rule: Rule, s0: Bytes, s1: Bytes, s2: Bytes, s3: Bytes)
    requires Rewrite(rule, s0, "bannerad", Digest(Salt, "bannerad")) == s1
    requires Rewrite(rule, s1, "bannerAd", Digest(Salt, "bannerAd")) == s2
    requires Rewrite(rule, s2, "foo", Digest(Salt, "foo")) == s3
    ensures FilterWith(rule, Salt, Terms, s0) == s3
  {
    assert Terms[0] == "bannerad" && Terms[1..][0] == "bannerAd" && Terms[1..][1..][0] == "foo";
    assert Terms[1..][1..][1..] == [];
  }

  /** The body `each` yields for a one-chunk response of a filtered type. */
  lemma OneChunk(ct: string, rule: Rule, s: Bytes, out: Bytes)
    requires Select(ct) == Some(rule)
    requires FilterWith(rule, Salt, Terms, s) == out
    ensures Scrambled(Salt, Terms, None, Page(ct), [s]) == Ok([out])
  {
    Filtered(ct);
    KeyWithoutAddress();
    assert Page(ct)[ContentTypeKey] == ct;
    var chunks := seq(1, i requires 0 <= i < 1 => FilterWith(rule, Salt, Terms, [s][i]));
    assert Scrambled(Salt, Terms, None, Page(ct), [s]) == Ok(chunks);
    assert chunks == [out];
  }

  /** A text lacking a character of the term comes out of a rewrite unchanged. */
  lemma Untouched(rule: Rule, s: Bytes, t: Bytes, d: Bytes, p: nat)
    requires p < |t| && t[p] !in s
    ensures Rewrite(rule, s, t, d) == s
  {
    match rule
    case HtmlRule =>
      TermAbsent(IdPass, s, t, d, p);
      TermAbsent(ClassPass, s, t, d, p);
    case CssRule =>
      TermAbsent(CssPass, s, t, d, p);
    case JsRule =>
      TermAbsent(JsPass, s, t, d, p);
  }
}
