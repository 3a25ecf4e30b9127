/** `Rack::SelectorScrambler`: a middleware that rewrites the id and class
    names listed at construction into salted digests, in every chunk of an
    HTML, CSS or JavaScript response body.

    One request is one activation: `call` duplicates the middleware and
    `_call` stores the request's client address and the wrapped application's
    status, headers and body on the copy, which then serves as the body. Its
    `each` yields every chunk, rewritten when `filter?` says so. The client
    address and the application's response are parameters here. */
module Scrambler {
  import opened Text
  import opened Hashing
  import opened Rules

  /** A string of the program, one byte per character. */
  type Bytes = seq<Byte>

  /** The response headers, as the application returns them. */
  type Headers = map<string, string>

  const HtmlType: string := "text/html"
  const CssType: string := "text/css"
  const JsType: string := "application/javascript"
  const ContentTypeKey: string := "Content-Type"

  /** `content_type?` calls `include?` on the header's value, which is `nil`
      when the application sent no `Content-Type`: Ruby raises `NoMethodError`. */
  datatype Error = MissingContentType

  /** The rewrite `filter!` dispatches to: `gsub_html!`, `gsub_css!` or `gsub_js!`. */
  datatype Rule = HtmlRule | CssRule | JsRule

  // ---------------------------------------------------------------------
  // Deciding whether and how to filter.

  /** `content_type?(type)`: the `Content-Type` header contains `ty`. */
  function ContentTypeIs(headers: Headers, ty: string): (r: Result<bool, Error>)
    ensures r.Err? <==> ContentTypeKey !in headers
    ensures r.Ok? ==> (r.value <==> exists i :: StartsAt(headers[ContentTypeKey], i, ty))
  {
    if ContentTypeKey in headers then Ok(Contains(headers[ContentTypeKey], ty))
    else Err(MissingContentType)
  }

  /** The rule `filter!` picks for a `Content-Type` value: HTML before CSS,
      CSS before JavaScript, by substring. */
  function Select(ct: string): (r: Option<Rule>)
    ensures r == Some(HtmlRule) <==> Contains(ct, HtmlType)
    ensures r == Some(CssRule) <==> !Contains(ct, HtmlType) && Contains(ct, CssType)
    ensures r == Some(JsRule) <==> !Contains(ct, HtmlType) && !Contains(ct, CssType) && Contains(ct, JsType)
    ensures r == None <==> !Contains(ct, HtmlType) && !Contains(ct, CssType) && !Contains(ct, JsType)
  {
    if Contains(ct, HtmlType) then Some(HtmlRule)
    else if Contains(ct, CssType) then Some(CssRule)
    else if Contains(ct, JsType) then Some(JsRule)
    else None
  }

  /** `filter?`: there are terms and the `Content-Type` names one of the three
      media types. With no terms the header is never read. */
  function ShouldFilter(terms: seq<Bytes>, headers: Headers): (r: Result<bool, Error>)
    ensures r.Err? <==> |terms| > 0 && ContentTypeKey !in headers
    ensures r == Ok(true) <==>
      |terms| > 0 && ContentTypeKey in headers &&
      (Contains(headers[ContentTypeKey], HtmlType) || Contains(headers[ContentTypeKey], CssType) ||
       Contains(headers[ContentTypeKey], JsType))
    ensures r == Ok(true) ==> Select(headers[ContentTypeKey]).Some?
  {
    if |terms| == 0 then Ok(false)
    else if ContentTypeKey !in headers then Err(MissingContentType)
    else Ok(Select(headers[ContentTypeKey]).Some?)
  }

  // ---------------------------------------------------------------------
  // Digests.

  /** `Rack::Request#ip` is a string or `nil`; `Array#join` turns `nil` into "". */
  function IpText(ip: Option<Bytes>): Bytes {
    match ip
    case None => []
    case Some(a) => a
  }

  /** The salt of the request's hasher: `Hasher.new(ip, salt)`. */
  function RequestKey(ip: Option<Bytes>, salt: Bytes): (key: Bytes)
    ensures key == IpText(ip) + salt
  {
    assert Join([salt]) == salt by {
      assert [salt][1..] == [] && salt + [] == salt;
    }
    assert [IpText(ip), salt][1..] == [salt];
    Join([IpText(ip), salt])
  }

  /** `hash(term)`: `djb3` of the hasher's salt followed by the term. */
  function Digest(key: Bytes, t: Bytes): (d: Bytes)
    ensures |d| == |key| + |t|
    ensures forall i :: 0 <= i < |d| ==> IsDigestChar(d[i])
  {
    Djb3Of(key + t)
  }

  // ---------------------------------------------------------------------
  // Rewriting one chunk.

  /** The rewrite of one term: `gsub_html!` runs the id pass and then the class
      pass on its result; the other two make one pass. */
  function Rewrite(rule: Rule, s: Bytes, t: Bytes, d: Bytes): Bytes {
    match rule
    case HtmlRule => Gsub(ClassPass, Gsub(IdPass, s, t, d), t, d)
    case CssRule => Gsub(CssPass, s, t, d)
    case JsRule => Gsub(JsPass, s, t, d)
  }

  /** The number of replacements `Rewrite` makes. */
  function RewriteHits(rule: Rule, s: Bytes, t: Bytes, d: Bytes): nat {
    match rule
    case HtmlRule => Hits(IdPass, s, t) + Hits(ClassPass, Gsub(IdPass, s, t, d), t)
    case CssRule => Hits(CssPass, s, t)
    case JsRule => Hits(JsPass, s, t)
  }

  /** `filter!(str)` once the rule is picked: each term in order, applied to
      the chunk as already rewritten by the terms before it. */
  function FilterWith(rule: Rule, key: Bytes, terms: seq<Bytes>, s: Bytes): Bytes
    decreases |terms|
  {
    if terms == [] then s
    else FilterWith(rule, key, terms[1..], Rewrite(rule, s, terms[0], Digest(key, terms[0])))
  }

  /** The number of replacements `FilterWith` makes over all terms. */
  function FilterHits(rule: Rule, key: Bytes, terms: seq<Bytes>, s: Bytes): nat
    decreases |terms|
  {
    if terms == [] then 0
    else
      var d := Digest(key, terms[0]);
      RewriteHits(rule, s, terms[0], d) + FilterHits(rule, key, terms[1..], Rewrite(rule, s, terms[0], d))
  }

  /** What `each` yields for a body: every chunk rewritten when `filter?` holds,
      every chunk as it is otherwise, and the error `filter?` raises. */
  function Scrambled(salt: Bytes, terms: seq<Bytes>, ip: Option<Bytes>, headers: Headers, body: seq<Bytes>)
    : (r: Result<seq<Bytes>, Error>)
    ensures r.Err? <==> ShouldFilter(terms, headers).Err?
    ensures r.Ok? ==> |r.value| == |body|
    ensures ShouldFilter(terms, headers) == Ok(false) ==> r == Ok(body)
  {
    match ShouldFilter(terms, headers)
    case Err(e) => Err(e)
    case Ok(false) => Ok(body)
    case Ok(true) =>
      var rule := Select(headers[ContentTypeKey]).value;
      var key := RequestKey(ip, salt);
      Ok(seq(|body|, i requires 0 <= i < |body| => FilterWith(rule, key, terms, body[i])))
  }

  // ---------------------------------------------------------------------
  // What the rewrite guarantees.

  /** Every replacement lengthens the chunk by the length of the hasher's salt:
      the digest of a term is that much longer than the term. */
  lemma RewriteLength(rule: Rule, key: Bytes, s: Bytes, t: Bytes)
    ensures |Rewrite(rule, s, t, Digest(key, t))| == |s| + RewriteHits(rule, s, t, Digest(key, t)) * |key|
  {
    var d := Digest(key, t);
    assert |d| - |t| == |key|;
    match rule
    case HtmlRule =>
      var s1 := Gsub(IdPass, s, t, d);
      GsubLength(IdPass, s, t, d);
      GsubLength(ClassPass, s1, t, d);
      AddMul(Hits(IdPass, s, t), Hits(ClassPass, s1, t), |key|);
    case CssRule =>
      GsubLength(CssPass, s, t, d);
    case JsRule =>
      GsubLength(JsPass, s, t, d);
  }

  lemma {:induction false} FilterLength(rule: Rule, key: Bytes, terms: seq<Bytes>, s: Bytes)
    ensures |FilterWith(rule, key, terms, s)| == |s| + FilterHits(rule, key, terms, s) * |key|
    decreases |terms|
  {
    if terms != [] {
      var t := terms[0];
      var d := Digest(key, t);
      var s' := Rewrite(rule, s, t, d);
      RewriteLength(rule, key, s, t);
      FilterLength(rule, key, terms[1..], s');
      var n, m := RewriteHits(rule, s, t, d), FilterHits(rule, key, terms[1..], s');
      assert (n + m) * |key| == n * |key| + m * |key| by {
        AddMul(n, m, |key|);
      }
    }
  }

  lemma AddMul(n: int, m: int, k: int)
    ensures (n + m) * k == n * k + m * k
  {}

  /** Terms are applied in their configured order: filtering with `a + b` is
      filtering with `a`, then with `b`. */
  lemma {:induction false} FilterAppend(rule: Rule, key: Bytes, a: seq<Bytes>, b: seq<Bytes>, s: Bytes)
    ensures FilterWith(rule, key, a + b, s) == FilterWith(rule, key, b, FilterWith(rule, key, a, s))
    decreases |a|
  {
    if a == [] {
      assert a + b == b;
    } else {
      assert (a + b)[0] == a[0] && (a + b)[1..] == a[1..] + b;
      FilterAppend(rule, key, a[1..], b, Rewrite(rule, s, a[0], Digest(key, a[0])));
    }
  }

  /** Writing each term back in place of itself changes nothing: a rewrite
      touches only the terms inside its matches. */
  lemma RewriteSelf(rule: Rule, s: Bytes, t: Bytes)
    ensures Rewrite(rule, s, t, t) == s
  {
    GsubSelf(IdPass, s, t);
    GsubSelf(ClassPass, s, t);
    GsubSelf(CssPass, s, t);
    GsubSelf(JsPass, s, t);
  }

  /** A chunk with no site for any term's rule comes out unchanged. */
  lemma {:induction false} FilterNoSite(rule: Rule, key: Bytes, terms: seq<Bytes>, s: Bytes)
    requires forall k, i :: 0 <= k < |terms| ==> !RuleSite(rule, s, terms[k], i)
    ensures FilterWith(rule, key, terms, s) == s && FilterHits(rule, key, terms, s) == 0
    decreases |terms|
  {
    if terms != [] {
      var t := terms[0];
      var d := Digest(key, t);
      forall i ensures !RuleSite(rule, s, t, i) {
        assert terms[0] == t;
      }
      match rule {
        case HtmlRule =>
          forall i ensures !Site(IdPass, s, t, i) && !Site(ClassPass, s, t, i) {
            assert !RuleSite(rule, s, t, i);
          }
          NoSiteUnchanged(IdPass, s, t, d);
          NoSiteUnchanged(ClassPass, s, t, d);
        case CssRule =>
          assert forall i :: !RuleSite(rule, s, t, i) ==> !Site(CssPass, s, t, i);
          NoSiteUnchanged(CssPass, s, t, d);
        case JsRule =>
          assert forall i :: !RuleSite(rule, s, t, i) ==> !Site(JsPass, s, t, i);
          NoSiteUnchanged(JsPass, s, t, d);
      }
      assert Rewrite(rule, s, t, d) == s && RewriteHits(rule, s, t, d) == 0;
      forall k, i | 0 <= k < |terms[1..]| ensures !RuleSite(rule, s, terms[1..][k], i) {
        assert terms[1..][k] == terms[k + 1];
      }
      FilterNoSite(rule, key, terms[1..], s);
    }
  }

  /** Where a rule can put a digest: an `id` or `class` site for HTML. */
  predicate RuleSite(rule: Rule, s: Bytes, t: Bytes, i: nat) {
    match rule
    case HtmlRule => Site(IdPass, s, t, i) || Site(ClassPass, s, t, i)
    case CssRule => Site(CssPass, s, t, i)
    case JsRule => Site(JsPass, s, t, i)
  }

  /** Each chunk `each` yields is its own chunk filtered, and grows by the
      hasher's salt once per replacement. */
  lemma ScrambledChunks(salt: Bytes, terms: seq<Bytes>, ip: Option<Bytes>, headers: Headers, body: seq<Bytes>, i: nat)
    requires ShouldFilter(terms, headers) == Ok(true) && i < |body|
    ensures var rule := Select(headers[ContentTypeKey]).value;
      var key := RequestKey(ip, salt);
      var r := Scrambled(salt, terms, ip, headers, body);
      r.Ok? && r.value[i] == FilterWith(rule, key, terms, body[i]) &&
      |r.value[i]| == |body[i]| + FilterHits(rule, key, terms, body[i]) * (|IpText(ip)| + |salt|)
  {
    var rule := Select(headers[ContentTypeKey]).value;
    var key := RequestKey(ip, salt);
    FilterLength(rule, key, terms, body[i]);
  }

  /** With no terms, or a `Content-Type` that names none of the three media
      types, the body passes through as it is. */
  lemma PassThrough(salt: Bytes, terms: seq<Bytes>, ip: Option<Bytes>, headers: Headers, body: seq<Bytes>)
    requires |terms| == 0 ||
      (ContentTypeKey in headers && Select(headers[ContentTypeKey]) == None)
    ensures Scrambled(salt, terms, ip, headers, body) == Ok(body)
  {}

  // ---------------------------------------------------------------------
  // One activation of the middleware.

  class SelectorScrambler {
    const salt: Bytes
    const terms: seq<Bytes>
    /** `Rack::Request.new(@env).ip`, fixed for the activation. */
    var ip: Option<Bytes>
    var status: int
    var headers: Headers
    var response: seq<Bytes>
    /** `@hasher`, built on first use. */
    var hasher: Hasher?

    ghost predicate Valid()
      reads this, hasher
    {
      hasher != null ==> hasher.salt == RequestKey(ip, salt)
    }

    /** `initialize(app, salt, *terms)`; the application is the parameter of `Handle`. */
    constructor (salt: Bytes, terms: seq<Bytes>)
      ensures this.salt == salt && this.terms == terms
      ensures ip == None && status == 0 && headers == map[] && response == [] && hasher == null
      ensures Valid()
    {
      this.salt := salt;
      this.terms := terms;
      ip := None;
      status := 0;
      headers := map[];
      response := [];
      hasher := null;
    }

    /** `dup`: a shallow copy, the memoised hasher included. */
    constructor Dup(other: SelectorScrambler)
      ensures salt == other.salt && terms == other.terms && ip == other.ip
      ensures status == other.status && headers == other.headers && response == other.response
      ensures hasher == other.hasher
    {
      salt := other.salt;
      terms := other.terms;
      ip := other.ip;
      status := other.status;
      headers := other.headers;
      response := other.response;
      hasher := other.hasher;
    }

    /** `_call(env)`: remember the request and the application's response, and
        answer with the same status and headers and this object as the body. */
    method Handle(ip: Option<Bytes>, status: int, headers: Headers, response: seq<Bytes>)
      returns (st: int, hd: Headers, body: SelectorScrambler)
      modifies this
      ensures this.ip == ip && this.status == status && this.headers == headers && this.response == response
      ensures hasher == old(hasher)
      ensures st == status && hd == headers && body == this
    {
      this.ip := ip;
      this.status := status;
      this.headers := headers;
      this.response := response;
      st, hd, body := status, headers, this;
    }

    /** `call(env)`: `dup._call(env)`; the middleware itself is left as it was. */
    method Call(ip: Option<Bytes>, status: int, headers: Headers, response: seq<Bytes>)
      returns (st: int, hd: Headers, body: SelectorScrambler)
      requires hasher == null
      ensures fresh(body) && body.salt == salt && body.terms == terms && body.hasher == null
      ensures body.ip == ip && body.status == status && body.headers == headers && body.response == response
      ensures st == status && hd == headers && body.Valid()
    {
      var copy := new SelectorScrambler.Dup(this);
      st, hd, body := copy.Handle(ip, status, headers, response);
    }

    /** `hasher`: `@hasher ||= Hasher.new(ip, salt)`. */
    method GetHasher() returns (h: Hasher)
      requires Valid()
      modifies this
      ensures hasher == h && h.salt == RequestKey(ip, salt)
      ensures old(hasher) != null ==> h == old(hasher)
      ensures ip == old(ip) && status == old(status) && headers == old(headers) && response == old(response)
      ensures Valid()
    {
      if hasher == null {
        hasher := new Hasher([IpText(ip), salt]);
      }
      h := hasher;
    }

    /** `hash(term)`. */
    method Hash(term: Bytes) returns (d: Bytes)
      requires Valid()
      modifies this
      ensures d == Digest(RequestKey(ip, salt), term)
      ensures ip == old(ip) && status == old(status) && headers == old(headers) && response == old(response)
      ensures Valid()
    {
      var h := GetHasher();
      d := h.Djb3(term);
    }

    /** `filter!(str)`: pick the rule, then rewrite the chunk term by term. */
    method Filter(str: Bytes) returns (out: Bytes)
      requires Valid() && ContentTypeKey in headers && Select(headers[ContentTypeKey]).Some?
      modifies this
      ensures ip == old(ip) && status == old(status) && headers == old(headers) && response == old(response)
      ensures out == FilterWith(Select(headers[ContentTypeKey]).value, RequestKey(ip, salt), terms, str)
      ensures Valid()
    {
      var rule := Select(headers[ContentTypeKey]).value;
      ghost var key := RequestKey(ip, salt);
      out := str;
      var i := 0;
      while i < |terms|
        invariant 0 <= i <= |terms|
        invariant ip == old(ip) && status == old(status) && headers == old(headers) && response == old(response)
        invariant Valid()
        invariant FilterWith(rule, key, terms[i..], out) == FilterWith(rule, key, terms, str)
      {
        var d := Hash(terms[i]);
        assert terms[i..][1..] == terms[i + 1..];
        out := Rewrite(rule, out, terms[i], d);
        i := i + 1;
      }
    }

    /** `each`: every chunk of the application's body, through `filter!` when
        `filter?` holds. */
    method Each() returns (r: Result<seq<Bytes>, Error>)
      requires Valid()
      modifies this
      ensures r == Scrambled(salt, terms, ip, headers, response)
      ensures ip == old(ip) && status == old(status) && headers == old(headers) && response == old(response)
      ensures Valid()
    {
      var go := ShouldFilter(terms, headers);
      if go.Err? {
        return Err(go.error);
      }
      if !go.value {
        return Ok(response);
      }
      ghost var rule := Select(headers[ContentTypeKey]).value;
      ghost var key := RequestKey(ip, salt);
      var chunks: seq<Bytes> := [];
      var i := 0;
      while i < |response|
        invariant 0 <= i <= |response|
        invariant ip == old(ip) && status == old(status) && headers == old(headers) && response == old(response)
        invariant Valid()
        invariant |chunks| == i
        invariant forall j :: 0 <= j < i ==> chunks[j] == FilterWith(rule, key, terms, response[j])
      {
        var c := Filter(response[i]);
        chunks := chunks + [c];
        i := i + 1;
      }
      ghost var body := response;
      assert chunks == seq(|body|, j requires 0 <= j < |body| => FilterWith(rule, key, terms, body[j]));
      r := Ok(chunks);
    }
  }
}
