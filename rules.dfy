/** The three rewrite rules of `Rack::SelectorScrambler` (`gsub_html!`,
    `gsub_css!`, `gsub_js!`), each a global substitution `String#gsub!`
    with a regular expression built around one term.

    A substitution is modelled as a left-to-right scan. At each position the
    matcher of the pass is asked for the first match that starts there, in the
    order Ruby's backtracking engine tries the alternatives (lazy `.*?` takes
    the shortest stretch first, `?` tries the character first). A match keeps
    its two captured groups and puts the digest where the term was; the scan
    resumes just after the match. The matchers read only the text from the
    scan position on, so each works on the unscanned suffix and reports
    offsets relative to its first character. */
module Rules {
  import opened Text

  /** One call of `gsub!`: `gsub_html!` makes two passes (id, then class). */
  datatype Pass = IdPass | ClassPass | CssPass | JsPass

  /** A match: the term sits at `at`, and the match ends just before `next`. */
  datatype Hit = Hit(at: nat, next: nat)

  /** A term is interpolated into the patterns unescaped; the model keeps to
      non-empty runs of word characters, which are taken literally. */
  predicate IsTerm(t: seq<Byte>) {
    |t| > 0 && forall i :: 0 <= i < |t| ==> IsWord(t[i])
  }

  const NewLine: Byte := '\n'
  const IdOpen: seq<Byte> := "id=\""
  const ClassOpen: seq<Byte> := "class=\""

  /** No line break in `s[i..j]`: Ruby's `.` matches anything else. */
  predicate OnOneLine(s: seq<Byte>, i: nat, j: nat)
    requires i <= j <= |s|
  {
    forall m :: i <= m < j ==> s[m] != NewLine
  }

  /** No `>` and no line break in `s[i..j]`. */
  predicate NoCloseIn(s: seq<Byte>, i: nat, j: nat)
    requires i <= j <= |s|
  {
    forall m :: i <= m < j ==> s[m] != '>' && s[m] != NewLine
  }

  /** No occurrence of `w` starts in `[i, j)`. */
  predicate NoneStartIn(s: seq<char>, w: seq<char>, i: nat, j: nat) {
    forall m :: i <= m < j ==> !StartsAt(s, m, w)
  }

  // ---------------------------------------------------------------------
  // Where each rule can put a digest: necessary conditions on the position
  // `i` of the term in the text.

  /** `[#|\.]`: the characters `gsub_css!` accepts before a term (with a literal `|`). */
  predicate IsCssOpen(c: Byte) {
    c == '#' || c == '|' || c == '.'
  }

  /** `[\s|{]`: the characters `gsub_css!` accepts after a term. */
  predicate IsCssClose(c: Byte) {
    IsSpace(c) || c == '|' || c == '{'
  }

  predicate IsQuote(c: Byte) {
    c == '\'' || c == '"'
  }

  /** `[#|.]`: the optional character between the opening quote and the term in `gsub_js!`. */
  predicate IsJsPrefix(c: Byte) {
    c == '#' || c == '|' || c == '.'
  }

  /** A CSS selector position: one of `#|.` before the term, one of `\s|{` after it. */
  predicate CssSite(s: seq<Byte>, t: seq<Byte>, i: nat) {
    1 <= i && StartsAt(s, i, t) && i + |t| < |s| && IsCssOpen(s[i - 1]) && IsCssClose(s[i + |t|])
  }

  /** A JS literal holding only the term, possibly after one of `#|.`, closed by its opening quote. */
  predicate JsSite(s: seq<Byte>, t: seq<Byte>, i: nat) {
    1 <= i && StartsAt(s, i, t) && i + |t| < |s| &&
    ((IsQuote(s[i - 1]) && s[i + |t|] == s[i - 1]) ||
     (2 <= i && IsJsPrefix(s[i - 1]) && IsQuote(s[i - 2]) && s[i + |t|] == s[i - 2]))
  }

  /** The value of an attribute whose name ends in `id`: `id="` before the term, `"` after it. */
  predicate IdSite(s: seq<Byte>, t: seq<Byte>, i: nat) {
    4 <= i && StartsAt(s, i, t) && i + |t| < |s| && s[i - 4..i] == IdOpen && s[i + |t|] == '"'
  }

  /** A whole word: `\b` on both sides of the term, which is made of word characters. */
  predicate ClassSite(s: seq<Byte>, t: seq<Byte>, i: nat) {
    1 <= i && StartsAt(s, i, t) && i + |t| < |s| && !IsWord(s[i - 1]) && !IsWord(s[i + |t|])
  }

  predicate Site(pass: Pass, s: seq<Byte>, t: seq<Byte>, i: nat) {
    match pass
    case IdPass => IdSite(s, t, i)
    case ClassPass => ClassSite(s, t, i)
    case CssPass => CssSite(s, t, i)
    case JsPass => JsSite(s, t, i)
  }

  /** A match at the scan position is well placed: the term lies inside it, at a site. */
  predicate Fits(pass: Pass, s: seq<Byte>, t: seq<Byte>, h: Hit) {
    h.at + |t| <= h.next <= |s| && 0 < h.next && Site(pass, s, t, h.at)
  }

  // ---------------------------------------------------------------------
  // gsub_css!: /([#|\.])TERM([\s|{])/

  function CssHit(s: seq<Byte>, t: seq<Byte>): (r: Option<Hit>)
    requires s != [] && IsTerm(t)
    ensures r.Some? <==> CssSite(s, t, 1)
    ensures r.Some? ==> r.value == Hit(1, |t| + 2)
  {
    if |t| + 2 <= |s| && IsCssOpen(s[0]) && StartsAt(s, 1, t) && IsCssClose(s[|t| + 1])
    then Some(Hit(1, |t| + 2))
    else None
  }

  // ---------------------------------------------------------------------
  // gsub_js!: /('|")([#|.]?)(TERM)\1/

  function JsHit(s: seq<Byte>, t: seq<Byte>): (r: Option<Hit>)
    requires s != [] && IsTerm(t)
    ensures r.Some? <==> IsQuote(s[0]) && (JsSite(s, t, 1) || (JsSite(s, t, 2) && IsJsPrefix(s[1])))
    ensures r.Some? ==> JsSite(s, t, r.value.at) && r.value.at <= 2 && r.value.next == r.value.at + |t| + 1
    ensures r.Some? && |s| > 1 && IsJsPrefix(s[1]) ==> r.value.at == 2
  {
    if !IsQuote(s[0]) then None
    else if 2 <= |s| && IsJsPrefix(s[1]) && StartsAt(s, 2, t + [s[0]]) then
      assert s[2..2 + |t|] == (t + [s[0]])[..|t|];
      Some(Hit(2, |t| + 3))
    else if StartsAt(s, 1, t + [s[0]]) then
      assert s[1..1 + |t|] == (t + [s[0]])[..|t|];
      Some(Hit(1, |t| + 2))
    else
      None
  }

  // ---------------------------------------------------------------------
  // gsub_html!, first pass: /(<.*?id=")TERM(".*?>)/

  /** `.*?>` from `i`: the end of the shortest stretch up to a `>` on the same line. */
  function CloseAt(s: seq<Byte>, i: nat): (r: Option<nat>)
    requires i <= |s|
    ensures r.Some? ==> i < r.value <= |s| && s[r.value - 1] == '>'
    ensures r.Some? ==> NoCloseIn(s, i, r.value - 1) && OnOneLine(s, i, r.value)
    decreases |s| - i
  {
    if i == |s| || s[i] == NewLine then None
    else if s[i] == '>' then Some(i + 1)
    else CloseAt(s, i + 1)
  }

  /** `.*?id="TERM".*?>` tried with the lazy stretch ending at `k`, `k + 1`, ... */
  function IdSearch(s: seq<Byte>, t: seq<Byte>, k: nat): (r: Option<Hit>)
    requires 1 <= k <= |s| && IsTerm(t)
    ensures r.Some? ==> k + 4 <= r.value.at && IdSite(s, t, r.value.at) && r.value.at + |t| < r.value.next <= |s|
    ensures r.Some? ==> s[r.value.next - 1] == '>' && OnOneLine(s, k, r.value.next)
    decreases |s| - k
  {
    if k == |s| || s[k] == NewLine then None
    else if StartsAt(s, k, IdOpen + t + ['"']) && CloseAt(s, k + |t| + 5).Some? then
      IdOpenParts(s, t, k);
      IdOpenLine(s, t, k);
      Some(Hit(k + 4, CloseAt(s, k + |t| + 5).value))
    else IdSearch(s, t, k + 1)
  }

  /** An occurrence of `id="TERM"` is `id="` followed by the term and a quote. */
  lemma IdOpenParts(s: seq<Byte>, t: seq<Byte>, k: nat)
    requires StartsAt(s, k, IdOpen + t + ['"'])
    ensures s[k..k + 4] == IdOpen && StartsAt(s, k + 4, t) && s[k + 4 + |t|] == '"'
  {
    var w := IdOpen + t + ['"'];
    assert |IdOpen| == 4 && |w| == |t| + 5;
    forall i | 0 <= i < |w| ensures s[k + i] == w[i] {
      assert s[k..k + |w|][i] == s[k + i];
    }
    assert s[k..k + 4] == IdOpen by {
      forall i | 0 <= i < 4 ensures s[k..k + 4][i] == IdOpen[i] {
        assert w[i] == IdOpen[i];
      }
    }
    assert s[k + 4..k + 4 + |t|] == t by {
      forall i | 0 <= i < |t| ensures s[k + 4..k + 4 + |t|][i] == t[i] {
        assert w[4 + i] == t[i];
      }
    }
    assert w[4 + |t|] == '"';
  }

  /** `id="TERM"` holds no line break. */
  lemma IdOpenLine(s: seq<Byte>, t: seq<Byte>, k: nat)
    requires IsTerm(t) && StartsAt(s, k, IdOpen + t + ['"'])
    ensures OnOneLine(s, k, k + |t| + 5)
  {
    var w := IdOpen + t + ['"'];
    forall m | k <= m < k + |t| + 5 ensures s[m] != NewLine {
      assert s[m] == s[k..k + |w|][m - k] == w[m - k];
      if 4 <= m - k < 4 + |t| {
        assert w[m - k] == t[m - k - 4];
      }
    }
  }

  /** A match of an HTML pass: from a `<` to a `>`, all on one line. */
  predicate TagMatch(s: seq<Byte>, h: Hit) {
    0 < h.next <= |s| && s[0] == '<' && s[h.next - 1] == '>' && OnOneLine(s, 0, h.next)
  }

  function IdHit(s: seq<Byte>, t: seq<Byte>): (r: Option<Hit>)
    requires s != [] && IsTerm(t)
    ensures r.Some? ==> TagMatch(s, r.value) && Fits(IdPass, s, t, r.value)
  {
    if s[0] == '<' then IdSearch(s, t, 1) else None
  }

  // ---------------------------------------------------------------------
  // gsub_html!, second pass: /(<.*?class=".*?\b)TERM(\b.*?".*?>)/

  /** `.*?".*?>` from `i`: a quote and then a `>`, on the same line. */
  function QuoteClose(s: seq<Byte>, i: nat): (r: Option<nat>)
    requires i <= |s|
    ensures r.Some? ==> i < r.value <= |s| && s[r.value - 1] == '>' && OnOneLine(s, i, r.value)
    ensures r.Some? ==> QuoteIn(s, i, r.value - 1)
    decreases |s| - i
  {
    if i == |s| || s[i] == NewLine then None
    else if s[i] == '"' && CloseAt(s, i + 1).Some? then CloseAt(s, i + 1)
    else QuoteClose(s, i + 1)
  }

  /** A quote somewhere in `s[i..j]`. */
  predicate QuoteIn(s: seq<Byte>, i: nat, j: nat)
    requires j <= |s|
    decreases j - i
  {
    i < j && (s[i] == '"' || QuoteIn(s, i + 1, j))
  }

  /** `class="` somewhere in `s[k..j]`. */
  predicate ClassOpenIn(s: seq<Byte>, k: nat, j: nat)
    decreases j - k
  {
    k + 7 <= j && (StartsAt(s, k, ClassOpen) || ClassOpenIn(s, k + 1, j))
  }

  /** `.*?\bTERM\b.*?".*?>` after `class="`, the lazy stretch ending at `j`, `j + 1`, ... */
  function WordSearch(s: seq<Byte>, t: seq<Byte>, j: nat): (r: Option<Hit>)
    requires 1 <= j <= |s| && IsTerm(t)
    ensures r.Some? ==> j <= r.value.at && r.value.at + |t| < r.value.next <= |s|
    decreases |s| - j
  {
    if StartsAt(s, j, t) && !IsWord(s[j - 1]) && (j + |t| == |s| || !IsWord(s[j + |t|]))
       && QuoteClose(s, j + |t|).Some? then
      Some(Hit(j, QuoteClose(s, j + |t|).value))
    else if j == |s| || s[j] == NewLine then None
    else WordSearch(s, t, j + 1)
  }

  /** What the word search finds from `j`: the term as a whole word, then a
      quote and a `>`, all on the line. */
  predicate WordFound(s: seq<Byte>, t: seq<Byte>, j: nat, h: Hit) {
    j <= h.at && ClassSite(s, t, h.at) && h.at + |t| < h.next <= |s| &&
    s[h.next - 1] == '>' && OnOneLine(s, j, h.next) && QuoteIn(s, h.at + |t|, h.next - 1)
  }

  lemma {:induction false} WordSearchFound(s: seq<Byte>, t: seq<Byte>, j: nat)
    requires 1 <= j <= |s| && IsTerm(t)
    ensures WordSearch(s, t, j).Some? ==> WordFound(s, t, j, WordSearch(s, t, j).value)
    decreases |s| - j
  {
    if StartsAt(s, j, t) && !IsWord(s[j - 1]) && (j + |t| == |s| || !IsWord(s[j + |t|]))
       && QuoteClose(s, j + |t|).Some? {
      TermLine(s, t, j);
    } else if j < |s| && s[j] != NewLine {
      WordSearchFound(s, t, j + 1);
    }
  }

  /** `.*?class="` with the lazy stretch ending at `k`, `k + 1`, ..., each followed by the word search. */
  function ClassSearch(s: seq<Byte>, t: seq<Byte>, k: nat): (r: Option<Hit>)
    requires 1 <= k <= |s| && IsTerm(t)
    ensures r.Some? ==> k + 7 <= r.value.at && r.value.at + |t| < r.value.next <= |s|
    decreases |s| - k
  {
    if k == |s| || s[k] == NewLine then None
    else if StartsAt(s, k, ClassOpen) && WordSearch(s, t, k + 7).Some? then WordSearch(s, t, k + 7)
    else ClassSearch(s, t, k + 1)
  }

  /** What the class search finds from `k`: a `class="`, then what the word
      search finds after it. */
  predicate ClassFound(s: seq<Byte>, t: seq<Byte>, k: nat, h: Hit) {
    k + 7 <= h.at && WordFound(s, t, k, h) && ClassOpenIn(s, k, h.at)
  }

  lemma {:induction false} ClassSearchFound(s: seq<Byte>, t: seq<Byte>, k: nat)
    requires 1 <= k <= |s| && IsTerm(t)
    ensures ClassSearch(s, t, k).Some? ==> ClassFound(s, t, k, ClassSearch(s, t, k).value)
    decreases |s| - k
  {
    if k == |s| || s[k] == NewLine {
    } else if StartsAt(s, k, ClassOpen) && WordSearch(s, t, k + 7).Some? {
      var h := WordSearch(s, t, k + 7).value;
      WordSearchFound(s, t, k + 7);
      ClassOpenLine(s, k, h.at, h.next);
    } else {
      ClassSearchFound(s, t, k + 1);
    }
  }

  /** A `class="` at `k` lies on one line and is one before `j`. */
  lemma ClassOpenLine(s: seq<Byte>, k: nat, j: nat, n: nat)
    requires StartsAt(s, k, ClassOpen) && k + 7 <= j <= n <= |s| && OnOneLine(s, k + 7, n)
    ensures OnOneLine(s, k, n) && ClassOpenIn(s, k, j)
  {
    forall m | k <= m < k + 7 ensures s[m] != NewLine {
      assert s[m] == s[k..k + 7][m - k] == ClassOpen[m - k];
    }
  }

  function ClassHit(s: seq<Byte>, t: seq<Byte>): (r: Option<Hit>)
    requires s != [] && IsTerm(t)
    ensures r.Some? ==> TagMatch(s, r.value) && Fits(ClassPass, s, t, r.value)
    ensures r.Some? ==> ClassOpenIn(s, 1, r.value.at) && QuoteIn(s, r.value.at + |t|, r.value.next - 1)
  {
    if s[0] == '<' then
      ClassSearchFound(s, t, 1);
      ClassSearch(s, t, 1)
    else None
  }

  /** The term holds no line break. */
  lemma TermLine(s: seq<Byte>, t: seq<Byte>, j: nat)
    requires IsTerm(t) && StartsAt(s, j, t)
    ensures OnOneLine(s, j, j + |t|)
  {
    forall m | j <= m < j + |t| ensures s[m] != NewLine {
      assert s[m] == s[j..j + |t|][m - j] == t[m - j];
    }
  }

  // ---------------------------------------------------------------------
  // The scan shared by all passes.

  /** The first match of `pass` that starts at the beginning of `s`. */
  function HitAt(pass: Pass, s: seq<Byte>, t: seq<Byte>): (r: Option<Hit>)
    requires s != [] && IsTerm(t)
    ensures r.Some? ==> Fits(pass, s, t, r.value)
  {
    match pass
    case IdPass => IdHit(s, t)
    case ClassPass => ClassHit(s, t)
    case CssPass => CssHit(s, t)
    case JsPass => JsHit(s, t)
  }

  /** The matcher of `pass` for term `t`, as a function of the scanned suffix. */
  function Finder(pass: Pass, t: seq<Byte>): seq<Byte> -> Option<Hit>
  {
    s => if s != [] && IsTerm(t) then HitAt(pass, s, t) else None
  }

  /** A match covers the term at `at` and moves the scan forward. */
  predicate Spans(s: seq<Byte>, t: seq<Byte>, h: Hit) {
    0 < h.next && h.at + |t| <= h.next <= |s| && StartsAt(s, h.at, t)
  }

  /** What the scan needs of a matcher: every match it reports spans the term. */
  ghost predicate Sound(find: seq<Byte> -> Option<Hit>, t: seq<Byte>) {
    forall s :: find(s).Some? ==> Spans(s, t, find(s).value)
  }

  lemma FinderSound(pass: Pass, t: seq<Byte>)
    ensures Sound(Finder(pass, t), t)
  {
    forall s | Finder(pass, t)(s).Some? ensures Spans(s, t, Finder(pass, t)(s).value) {
      var h := HitAt(pass, s, t).value;
      assert Fits(pass, s, t, h);
    }
  }

  /** A global substitution driven by `find`: every match, left to right, with
      the term replaced by `d` and the text around it kept. */
  function Scan(find: seq<Byte> -> Option<Hit>, s: seq<Byte>, t: seq<Byte>, d: seq<Byte>): seq<Byte>
    requires Sound(find, t)
    decreases |s|
  {
    if s == [] then []
    else match find(s)
      case Some(h) => s[..h.at] + d + s[h.at + |t|..h.next] + Scan(find, s[h.next..], t, d)
      case None => [s[0]] + Scan(find, s[1..], t, d)
  }

  /** The number of matches `Scan` replaces. */
  function Count(find: seq<Byte> -> Option<Hit>, s: seq<Byte>, t: seq<Byte>): nat
    requires Sound(find, t)
    decreases |s|
  {
    if s == [] then 0
    else match find(s)
      case Some(h) => 1 + Count(find, s[h.next..], t)
      case None => Count(find, s[1..], t)
  }

  /** `str.gsub!(pattern, '\1' + digest + '\2')` for one pass. */
  function Gsub(pass: Pass, s: seq<Byte>, t: seq<Byte>, d: seq<Byte>): seq<Byte>
  {
    FinderSound(pass, t);
    Scan(Finder(pass, t), s, t, d)
  }

  /** The number of matches of one pass. */
  function Hits(pass: Pass, s: seq<Byte>, t: seq<Byte>): nat
  {
    FinderSound(pass, t);
    Count(Finder(pass, t), s, t)
  }

  // ---------------------------------------------------------------------
  // What every substitution guarantees.

  lemma MulSucc(n: int, x: int)
    ensures (1 + n) * x == x + n * x
  {}

  /** Each replacement changes the length by `|d| - |t|` and nothing else does. */
  lemma {:induction false} ScanLength(find: seq<Byte> -> Option<Hit>, s: seq<Byte>, t: seq<Byte>, d: seq<Byte>)
    requires Sound(find, t)
    ensures |Scan(find, s, t, d)| == |s| + Count(find, s, t) * (|d| - |t|)
    decreases |s|
  {
    if s != [] {
      match find(s)
      case Some(h) =>
        ScanLength(find, s[h.next..], t, d);
        MulSucc(Count(find, s[h.next..], t), |d| - |t|);
      case None =>
        ScanLength(find, s[1..], t, d);
    }
  }

  /** Writing the term back in place of itself gives the text back: a
      substitution changes nothing but the term inside each match. */
  lemma {:induction false} ScanSelf(find: seq<Byte> -> Option<Hit>, s: seq<Byte>, t: seq<Byte>)
    requires Sound(find, t)
    ensures Scan(find, s, t, t) == s
    decreases |s|
  {
    if s != [] {
      match find(s)
      case Some(h) =>
        ScanSelf(find, s[h.next..], t);
        assert s[h.at..h.at + |t|] == t;
        assert s[..h.at] + t + s[h.at + |t|..h.next] == s[..h.next];
        assert s[..h.next] + s[h.next..] == s;
      case None =>
        ScanSelf(find, s[1..], t);
        assert [s[0]] + s[1..] == s;
    }
  }

  /** When no match starts in the first `m` characters, they pass through and
      the scan goes on from `m`. */
  lemma {:induction false} NoMatchBefore(find: seq<Byte> -> Option<Hit>, s: seq<Byte>, t: seq<Byte>, d: seq<Byte>, m: nat)
    requires Sound(find, t) && m <= |s|
    requires forall i :: 0 <= i < m ==> find(s[i..]).None?
    ensures Scan(find, s, t, d) == s[..m] + Scan(find, s[m..], t, d)
    ensures Count(find, s, t) == Count(find, s[m..], t)
    decreases m
  {
    if m > 0 {
      assert find(s[0..]).None? && s[0..] == s;
      forall i | 0 <= i < m - 1 ensures find(s[1..][i..]).None? {
        assert s[1..][i..] == s[i + 1..];
      }
      NoMatchBefore(find, s[1..], t, d, m - 1);
      assert s[1..][m - 1..] == s[m..];
      assert [s[0]] + s[1..][..m - 1] == s[..m];
    }
  }

  /** A match at the scan position: the scan unfolds by one step. */
  lemma {:induction false} ScanMatch(find: seq<Byte> -> Option<Hit>, s: seq<Byte>, t: seq<Byte>, d: seq<Byte>)
    requires Sound(find, t) && s != [] && find(s).Some?
    ensures var h := find(s).value;
      Scan(find, s, t, d) == s[..h.at] + d + s[h.at + |t|..h.next] + Scan(find, s[h.next..], t, d) &&
      Count(find, s, t) == 1 + Count(find, s[h.next..], t)
  {}

  // ---------------------------------------------------------------------
  // The same for the passes.

  /** A match of the pass at the scan position: the substitution unfolds by one step. */
  lemma GsubMatch(pass: Pass, s: seq<Byte>, t: seq<Byte>, d: seq<Byte>, h: Hit)
    requires IsTerm(t) && s != [] && HitAt(pass, s, t) == Some(h)
    ensures h.at + |t| <= h.next <= |s|
    ensures Gsub(pass, s, t, d) == s[..h.at] + d + s[h.at + |t|..h.next] + Gsub(pass, s[h.next..], t, d)
    ensures Hits(pass, s, t) == 1 + Hits(pass, s[h.next..], t)
  {
    FinderSound(pass, t);
    assert Finder(pass, t)(s) == Some(h);
    ScanMatch(Finder(pass, t), s, t, d);
  }

  lemma GsubLength(pass: Pass, s: seq<Byte>, t: seq<Byte>, d: seq<Byte>)
    ensures |Gsub(pass, s, t, d)| == |s| + Hits(pass, s, t) * (|d| - |t|)
  {
    FinderSound(pass, t);
    ScanLength(Finder(pass, t), s, t, d);
  }

  lemma GsubSelf(pass: Pass, s: seq<Byte>, t: seq<Byte>)
    ensures Gsub(pass, s, t, t) == s
  {
    FinderSound(pass, t);
    ScanSelf(Finder(pass, t), s, t);
  }

  /** No match of a pass starts where there is no site of the pass. */
  lemma NoSiteNoHit(pass: Pass, s: seq<Byte>, t: seq<Byte>, i: nat)
    requires i <= |s|
    requires forall j :: i <= j ==> !Site(pass, s, t, j)
    ensures Finder(pass, t)(s[i..]).None?
  {
    if Finder(pass, t)(s[i..]).Some? {
      var h := HitAt(pass, s[i..], t).value;
      SiteShift(pass, s, t, i, h.at);
    }
  }

  /** Text with no site for the pass comes out unchanged. */
  lemma NoSiteUnchanged(pass: Pass, s: seq<Byte>, t: seq<Byte>, d: seq<Byte>)
    requires forall i :: !Site(pass, s, t, i)
    ensures Gsub(pass, s, t, d) == s && Hits(pass, s, t) == 0
  {
    FinderSound(pass, t);
    forall i | 0 <= i < |s| ensures Finder(pass, t)(s[i..]).None? {
      NoSiteNoHit(pass, s, t, i);
    }
    NoMatchBefore(Finder(pass, t), s, t, d, |s|);
    assert s[..|s|] == s;
  }

  /** A term that is not a non-empty run of word characters never matches in
      the model, so every pass leaves the text alone. */
  lemma NonTermUnchanged(pass: Pass, s: seq<Byte>, t: seq<Byte>, d: seq<Byte>)
    requires !IsTerm(t)
    ensures Gsub(pass, s, t, d) == s && Hits(pass, s, t) == 0
  {
    FinderSound(pass, t);
    NoMatchBefore(Finder(pass, t), s, t, d, |s|);
    assert s[..|s|] == s;
  }

  /** A site of a suffix is a site of the whole text. */
  lemma SiteShift(pass: Pass, s: seq<Byte>, t: seq<Byte>, k: nat, i: nat)
    requires k <= |s| && Site(pass, s[k..], t, i)
    ensures Site(pass, s, t, k + i)
  {
    assert s[k..][i..i + |t|] == s[k + i..k + i + |t|];
    if pass == IdPass {
      assert s[k..][i - 4..i] == s[k + i - 4..k + i];
    }
  }

  // ---------------------------------------------------------------------
  // The HTML passes on one tag.

  /** The lazy `.*?>` stops at the first `>` of the line. */
  lemma {:induction false} CloseAtFirst(s: seq<Byte>, i: nat, m: nat)
    requires i <= m < |s| && s[m] == '>'
    requires NoCloseIn(s, i, m)
    ensures CloseAt(s, i) == Some(m + 1)
    decreases m - i
  {
    if i < m {
      CloseAtFirst(s, i + 1, m);
    }
  }

  /** `.*?".*?>` ends at the first `>` of the line when a quote comes before it. */
  lemma {:induction false} QuoteCloseFirst(s: seq<Byte>, i: nat, q: nat, m: nat)
    requires i <= q < m < |s| && s[q] == '"' && s[m] == '>'
    requires NoCloseIn(s, i, m)
    ensures QuoteClose(s, i) == Some(m + 1)
    decreases q - i
  {
    if s[i] == '"' {
      CloseAtFirst(s, i + 1, m);
    } else {
      QuoteCloseFirst(s, i + 1, q, m);
    }
  }

  /** The id search passes over positions where `id="TERM"` does not start. */
  lemma {:induction false} IdSearchSkips(s: seq<Byte>, t: seq<Byte>, k: nat, m: nat)
    requires IsTerm(t) && 1 <= k <= m <= |s|
    requires OnOneLine(s, k, m) && NoneStartIn(s, IdOpen + t + ['"'], k, m)
    ensures IdSearch(s, t, k) == IdSearch(s, t, m)
    decreases m - k
  {
    if k < m {
      assert s[k] != NewLine && !StartsAt(s, k, IdOpen + t + ['"']);
      IdSearchSkips(s, t, k + 1, m);
    }
  }

  /** The class search passes over positions where `class="` does not start. */
  lemma {:induction false} ClassSearchSkips(s: seq<Byte>, t: seq<Byte>, k: nat, m: nat)
    requires IsTerm(t) && 1 <= k <= m <= |s|
    requires OnOneLine(s, k, m) && NoneStartIn(s, ClassOpen, k, m)
    ensures ClassSearch(s, t, k) == ClassSearch(s, t, m)
    decreases m - k
  {
    if k < m {
      assert s[k] != NewLine && !StartsAt(s, k, ClassOpen);
      ClassSearchStep(s, t, k);
      assert OnOneLine(s, k + 1, m) && NoneStartIn(s, ClassOpen, k + 1, m);
      ClassSearchSkips(s, t, k + 1, m);
    }
  }

  lemma ClassSearchStep(s: seq<Byte>, t: seq<Byte>, k: nat)
    requires IsTerm(t) && 1 <= k < |s| && s[k] != NewLine && !StartsAt(s, k, ClassOpen)
    ensures ClassSearch(s, t, k) == ClassSearch(s, t, k + 1)
  {}

  /** No whole-word occurrence of the term starts in `[j, m)`. */
  predicate NoWordIn(s: seq<Byte>, t: seq<Byte>, j: nat, m: nat) {
    forall i :: j <= i < m ==> !ClassSite(s, t, i)
  }

  /** The word search passes over positions where the term is not a whole word. */
  lemma {:induction false} WordSearchSkips(s: seq<Byte>, t: seq<Byte>, j: nat, m: nat)
    requires IsTerm(t) && 1 <= j <= m <= |s|
    requires OnOneLine(s, j, m) && NoWordIn(s, t, j, m)
    ensures WordSearch(s, t, j) == WordSearch(s, t, m)
    decreases m - j
  {
    if j < m {
      WordSearchStep(s, t, j);
      WordSearchSkips(s, t, j + 1, m);
    }
  }

  lemma WordSearchStep(s: seq<Byte>, t: seq<Byte>, j: nat)
    requires IsTerm(t) && 1 <= j < |s| && s[j] != NewLine && !ClassSite(s, t, j)
    ensures WordSearch(s, t, j) == WordSearch(s, t, j + 1)
  {
    if j + |t| == |s| {
      assert QuoteClose(s, |s|) == None;
    }
  }

  /** No character of `b` closes a tag or breaks the line. */
  predicate InsideTag(b: seq<Byte>) {
    forall i :: 0 <= i < |b| ==> b[i] != '>' && b[i] != NewLine
  }

  /** The text of a tag before its `id` attribute: on one line, without
      another `id="TERM"` (it may hold other attributes and their quotes). */
  predicate BeforeId(a: seq<Byte>, t: seq<Byte>) {
    OnOneLine(a, 0, |a|) && NoneStartIn(a, IdOpen + t + ['"'], 0, |a|)
  }

  /** The text of a tag before its `class` attribute: on one line, without
      another `class="`. */
  predicate BeforeClass(a: seq<Byte>) {
    OnOneLine(a, 0, |a|) && NoneStartIn(a, ClassOpen, 0, |a|)
  }

  /** The words of a `class` value before the term: on one line, ending in a
      non-word character, and without the term as a whole word. */
  predicate BeforeWord(v: seq<Byte>, t: seq<Byte>) {
    OnOneLine(v, 0, |v|) && (v == [] || !IsWord(v[|v| - 1])) &&
    forall i :: 1 <= i <= |v| ==> !ClassSite(['"'] + v + t, t, i)
  }

  lemma IdSearchAt(s: seq<Byte>, t: seq<Byte>, k: nat, n: nat)
    requires IsTerm(t) && 1 <= k < |s| && k + |t| + 5 <= |s|
    requires StartsAt(s, k, IdOpen + t + ['"']) && CloseAt(s, k + |t| + 5) == Some(n)
    ensures IdSearch(s, t, k) == Some(Hit(k + 4, n))
  {
    assert s[k] == 'i';
  }

  lemma InsideTagNoClose(s: seq<Byte>, i: nat, j: nat)
    requires i <= j <= |s| && InsideTag(s[i..j])
    ensures NoCloseIn(s, i, j)
  {
    forall m | i <= m < j ensures s[m] != '>' && s[m] != NewLine {
      assert s[m] == s[i..j][m - i];
    }
  }

  /** An occurrence of `w` inside `s[i..j]` is one of that slice. */
  lemma Inner(s: seq<char>, w: seq<char>, i: nat, j: nat, m: nat)
    requires i <= m && m + |w| <= j <= |s|
    ensures StartsAt(s, m, w) ==> StartsAt(s[i..j], m - i, w)
  {
    SliceSlice(s, i, j, m - i, m - i + |w|);
  }

  /** A slice of a slice is a slice. */
  lemma SliceSlice(s: seq<char>, i: nat, j: nat, a: nat, b: nat)
    requires i <= j <= |s| && a <= b <= j - i
    ensures s[i..j][a..b] == s[i + a..i + b]
  {
    forall n | 0 <= n < b - a ensures s[i..j][a..b][n] == s[i + a..i + b][n] {
      assert s[i..j][a..b][n] == s[i..j][a + n] == s[i + a + n];
    }
  }

  /** A line-break-free slice keeps the text on one line. */
  lemma SliceLine(s: seq<Byte>, i: nat, j: nat)
    requires i <= j <= |s| && OnOneLine(s[i..j], 0, j - i)
    ensures OnOneLine(s, i, j)
  {
    forall m | i <= m < j ensures s[m] != NewLine {
      assert s[m] == s[i..j][m - i];
    }
  }

  /** When `id="TERM"` starts at `k` and not earlier in `s[1..k]`, no
      occurrence reaching into it starts earlier either: its `=` is at a
      place where `id="TERM"` has a quote or a word character. */
  lemma IdOpenFirst(s: seq<Byte>, t: seq<Byte>, k: nat)
    requires IsTerm(t) && 1 <= k && StartsAt(s, k, IdOpen + t + ['"'])
    requires NoneStartIn(s[1..k], IdOpen + t + ['"'], 0, k - 1)
    ensures NoneStartIn(s, IdOpen + t + ['"'], 1, k)
  {
    var w := IdOpen + t + ['"'];
    IdOpenParts(s, t, k);
    assert s[k] == 'i' && s[k + 1] == 'd' && s[k + 2] == '=' by {
      assert s[k..k + 4][0] == 'i' && s[k..k + 4][1] == 'd' && s[k..k + 4][2] == '=';
    }
    forall j | 1 <= j < k ensures !StartsAt(s, j, w) {
      if j + |w| <= k {
        Inner(s, w, 1, k, j);
      } else if j + |w| <= k + 2 {
        assert s[j..j + |w|][|w| - 1] == s[j + |w| - 1] != '"';
        assert w[|w| - 1] == '"';
      } else {
        var o := k + 2 - j;
        if j + |w| <= |s| {
          assert s[j..j + |w|][o] == s[k + 2];
        }
        if o == 3 {
          assert w[3] == '"';
        } else if o < |w| - 1 {
          assert w[o] == t[o - 4];
        } else {
          assert w[|w| - 1] == '"';
        }
      }
    }
  }

  /** When `class="` starts at `k` and not earlier in `s[1..k]`, it does not
      start earlier at all: its `c` occurs in `class="` only first. */
  lemma ClassOpenFirst(s: seq<Byte>, k: nat)
    requires 1 <= k && StartsAt(s, k, ClassOpen) && NoneStartIn(s[1..k], ClassOpen, 0, k - 1)
    ensures NoneStartIn(s, ClassOpen, 1, k)
  {
    assert s[k] == s[k..k + 7][0] == 'c';
    forall j | 1 <= j < k ensures !StartsAt(s, j, ClassOpen) {
      if j + 7 <= k {
        Inner(s, ClassOpen, 1, k, j);
      } else if j + 7 <= |s| {
        assert s[j..j + 7][k - j] == s[k];
      }
    }
  }

  /** A whole word inside `s[o..o + |x|]` is a whole word of that slice. */
  lemma WordWithin(s: seq<Byte>, t: seq<Byte>, x: seq<Byte>, o: nat, i: nat)
    requires o + |x| <= |s| && x == s[o..o + |x|] && o < i && i + |t| < o + |x|
    ensures ClassSite(s, t, i) ==> ClassSite(x, t, i - o)
  {
    assert x[i - o - 1] == s[i - 1] && x[i - o + |t|] == s[i + |t|];
    SliceSlice(s, o, o + |x|, i - o, i - o + |t|);
  }

  /** `.*?id="TERM".*?>` from 1 finds the first `id="TERM"` of the line, at
      `k`, and the first `>` after it. */
  lemma IdSearchFinds(s: seq<Byte>, t: seq<Byte>, k: nat, close: nat)
    requires IsTerm(t) && 1 <= k && k + |t| + 5 <= close < |s|
    requires StartsAt(s, k, IdOpen + t + ['"'])
    requires OnOneLine(s, 1, k) && NoneStartIn(s, IdOpen + t + ['"'], 1, k)
    requires InsideTag(s[k + |t| + 5..close]) && s[close] == '>'
    ensures IdSearch(s, t, 1) == Some(Hit(k + 4, close + 1))
  {
    IdSearchSkips(s, t, 1, k);
    IdValueCloses(s, t, k, close);
  }

  /** From `id="TERM"` at `k`, the id search ends at the first `>` after it. */
  lemma IdValueCloses(s: seq<Byte>, t: seq<Byte>, k: nat, close: nat)
    requires IsTerm(t) && 1 <= k && k + |t| + 5 <= close < |s|
    requires StartsAt(s, k, IdOpen + t + ['"'])
    requires InsideTag(s[k + |t| + 5..close]) && s[close] == '>'
    ensures IdSearch(s, t, k) == Some(Hit(k + 4, close + 1))
  {
    InsideTagNoClose(s, k + |t| + 5, close);
    CloseAtFirst(s, k + |t| + 5, close);
    IdSearchAt(s, t, k, close + 1);
  }

  /** The id pass matches `<a id="TERM"b>` from its `<` to its `>`, with the
      term as the value, whatever other attributes `a` holds. */
  lemma IdTagHit(a: seq<Byte>, b: seq<Byte>, c: seq<Byte>, t: seq<Byte>)
    requires IsTerm(t) && BeforeId(a, t) && InsideTag(b)
    ensures var s := "<" + a + IdOpen + t + "\"" + b + ">" + c;
      HitAt(IdPass, s, t) == Some(Hit(|a| + 5, |a| + |t| + |b| + 7))
  {
    var s := "<" + a + IdOpen + t + "\"" + b + ">" + c;
    var k := 1 + |a|;
    var close := k + |t| + 5 + |b|;
    assert s[1..k] == a;
    assert s[k..k + |t| + 5] == IdOpen + t + ['"'];
    assert s[k + |t| + 5..close] == b;
    assert s[close] == '>';
    SliceLine(s, 1, k);
    IdOpenFirst(s, t, k);
    IdSearchFinds(s, t, k, close);
  }

  /** `<div id="foo">`: an `id` value equal to the term is replaced, and the
      rest of the tag is kept. */
  lemma IdValueRewritten(a: seq<Byte>, b: seq<Byte>, c: seq<Byte>, t: seq<Byte>, d: seq<Byte>)
    requires IsTerm(t) && BeforeId(a, t) && InsideTag(b)
    ensures Gsub(IdPass, "<" + a + IdOpen + t + "\"" + b + ">" + c, t, d)
         == "<" + a + IdOpen + d + "\"" + b + ">" + Gsub(IdPass, c, t, d)
    ensures Hits(IdPass, "<" + a + IdOpen + t + "\"" + b + ">" + c, t) == 1 + Hits(IdPass, c, t)
  {
    var p, q := "<" + a + IdOpen, "\"" + b + ">";
    assert "<" + a + IdOpen + t + "\"" + b + ">" + c == p + t + q + c;
    assert "<" + a + IdOpen + d + "\"" + b + ">" + Gsub(IdPass, c, t, d) == p + d + q + Gsub(IdPass, c, t, d);
    IdTagHit(a, b, c, t);
    GsubSplice(IdPass, p, t, q, c, d);
  }

  /** A match covering `t` and `q` right after `p`: the substitution puts `d` in
      place of `t` and goes on with `c`. */
  lemma GsubSplice(pass: Pass, p: seq<Byte>, t: seq<Byte>, q: seq<Byte>, c: seq<Byte>, d: seq<Byte>)
    requires IsTerm(t) && HitAt(pass, p + t + q + c, t) == Some(Hit(|p|, |p| + |t| + |q|))
    ensures Gsub(pass, p + t + q + c, t, d) == p + d + q + Gsub(pass, c, t, d)
    ensures Hits(pass, p + t + q + c, t) == 1 + Hits(pass, c, t)
  {
    var s := p + t + q + c;
    GsubMatch(pass, s, t, d, Hit(|p|, |p| + |t| + |q|));
    Splice(p, t, q, c);
  }

  /** The three pieces around `t` in `p + t + q + c`. */
  lemma Splice(p: seq<Byte>, t: seq<Byte>, q: seq<Byte>, c: seq<Byte>)
    ensures (p + t + q + c)[..|p|] == p
    ensures (p + t + q + c)[|p| + |t|..|p| + |t| + |q|] == q
    ensures (p + t + q + c)[|p| + |t| + |q|..] == c
  {
    var s := p + t + q + c;
    assert s[..|p|] == p;
    assert s[|p| + |t|..|p| + |t| + |q|] == q;
    assert s[|p| + |t| + |q|..] == c;
  }

  lemma WordSearchAt(s: seq<Byte>, t: seq<Byte>, j: nat, n: nat)
    requires IsTerm(t) && 1 <= j && j + |t| < |s|
    requires StartsAt(s, j, t) && !IsWord(s[j - 1]) && !IsWord(s[j + |t|])
    requires QuoteClose(s, j + |t|) == Some(n)
    ensures WordSearch(s, t, j) == Some(Hit(j, n))
  {}

  lemma ClassSearchAt(s: seq<Byte>, t: seq<Byte>, k: nat, j: nat, n: nat)
    requires IsTerm(t) && 1 <= k && k + 7 <= |s|
    requires StartsAt(s, k, ClassOpen) && WordSearch(s, t, k + 7) == Some(Hit(j, n))
    ensures ClassSearch(s, t, k) == Some(Hit(j, n))
  {
    assert s[k] == 'c';
  }

  /** `.*?class=".*?\bTERM\b.*?".*?>` from 1 finds the first `class="` of the
      line, at `k`, the first whole-word term after it, at `j`, and the first
      `>` after it, when a quote follows the term before that `>`. */
  lemma ClassSearchFinds(s: seq<Byte>, t: seq<Byte>, k: nat, j: nat, close: nat)
    requires IsTerm(t) && 1 <= k && k + 7 <= j && j + |t| < close < |s|
    requires StartsAt(s, k, ClassOpen) && OnOneLine(s, 1, k) && NoneStartIn(s, ClassOpen, 1, k)
    requires ClassSite(s, t, j) && OnOneLine(s, k + 7, j) && NoWordIn(s, t, k + 7, j)
    requires InsideTag(s[j + |t|..close]) && '"' in s[j + |t|..close] && s[close] == '>'
    ensures ClassSearch(s, t, 1) == Some(Hit(j, close + 1))
  {
    ClassSearchSkips(s, t, 1, k);
    ClassValueCloses(s, t, k, j, close);
  }

  /** From `class="` at `k`, the class search ends at the first `>` after the
      first whole-word term, when a quote comes before that `>`. */
  lemma ClassValueCloses(s: seq<Byte>, t: seq<Byte>, k: nat, j: nat, close: nat)
    requires IsTerm(t) && 1 <= k && k + 7 <= j && j + |t| < close < |s|
    requires StartsAt(s, k, ClassOpen)
    requires ClassSite(s, t, j) && OnOneLine(s, k + 7, j) && NoWordIn(s, t, k + 7, j)
    requires InsideTag(s[j + |t|..close]) && '"' in s[j + |t|..close] && s[close] == '>'
    ensures ClassSearch(s, t, k) == Some(Hit(j, close + 1))
  {
    WordValueCloses(s, t, j, close);
    WordSearchSkips(s, t, k + 7, j);
    ClassSearchAt(s, t, k, j, close + 1);
  }

  /** The word search at a whole-word term runs to the first `>` after it,
      when a quote comes before that `>`. */
  lemma WordValueCloses(s: seq<Byte>, t: seq<Byte>, j: nat, close: nat)
    requires IsTerm(t) && 1 <= j && j + |t| < close < |s| && ClassSite(s, t, j)
    requires InsideTag(s[j + |t|..close]) && '"' in s[j + |t|..close] && s[close] == '>'
    ensures WordSearch(s, t, j) == Some(Hit(j, close + 1))
  {
    var e := j + |t|;
    InsideTagNoClose(s, e, close);
    var q :| 0 <= q < close - e && s[e..close][q] == '"';
    assert s[e + q] == '"';
    QuoteCloseFirst(s, e, e + q, close);
    WordSearchAt(s, t, j, close + 1);
  }

  /** The class pass matches `<a class="vTERMb>` from its `<` to its `>`, with
      the term as the first whole word of the value, whatever other attributes
      `a` holds and whatever other words `v` holds, when a quote closes the value. */
  lemma ClassTagHit(a: seq<Byte>, v: seq<Byte>, b: seq<Byte>, c: seq<Byte>, t: seq<Byte>)
    requires IsTerm(t) && BeforeClass(a) && BeforeWord(v, t) && InsideTag(b)
    requires b != [] && !IsWord(b[0]) && '"' in b
    ensures var s := "<" + a + ClassOpen + v + t + b + ">" + c;
      HitAt(ClassPass, s, t) == Some(Hit(|a| + |v| + 8, |a| + |v| + |t| + |b| + 9))
  {
    var s := "<" + a + ClassOpen + v + t + b + ">" + c;
    ClassTagSearch(s, a, v, b, c, t);
  }

  lemma ClassTagSearch(s: seq<Byte>, a: seq<Byte>, v: seq<Byte>, b: seq<Byte>, c: seq<Byte>, t: seq<Byte>)
    requires IsTerm(t) && BeforeClass(a) && BeforeWord(v, t) && InsideTag(b)
    requires b != [] && !IsWord(b[0]) && '"' in b
    requires s == "<" + a + ClassOpen + v + t + b + ">" + c
    ensures s[0] == '<' && ClassSearch(s, t, 1) == Some(Hit(|a| + |v| + 8, |a| + |v| + |t| + |b| + 9))
  {
    var k := 1 + |a|;
    var j := k + 7 + |v|;
    var n := j + |t| + |b| + 1;
    ClassTagStart(s, a, v, b, c, t, k, j);
    ClassTagEnd(s, a, v, b, c, t, j, n);
    ClassTagJoin(s, t, k, j, n);
    assert Hit(j, n) == Hit(|a| + |v| + 8, |a| + |v| + |t| + |b| + 9);
  }

  /** The two searches chained: from 1 to the `class="` at `k`, then from the
      value's start to the term at `j`. */
  lemma ClassTagJoin(s: seq<Byte>, t: seq<Byte>, k: nat, j: nat, n: nat)
    requires IsTerm(t) && 1 <= k && k + 7 <= j && j + |t| < |s| && StartsAt(s, k, ClassOpen)
    requires ClassSearch(s, t, 1) == ClassSearch(s, t, k) && WordSearch(s, t, k + 7) == WordSearch(s, t, j)
    requires WordSearch(s, t, j) == Some(Hit(j, n))
    ensures ClassSearch(s, t, 1) == Some(Hit(j, n))
  {
    ClassSearchAt(s, t, k, j, n);
  }

  /** Up to the term, both searches pass over `<a class="v`. */
  lemma ClassTagStart(s: seq<Byte>, a: seq<Byte>, v: seq<Byte>, b: seq<Byte>, c: seq<Byte>, t: seq<Byte>, k: nat, j: nat)
    requires IsTerm(t) && BeforeClass(a) && BeforeWord(v, t)
    requires s == "<" + a + ClassOpen + v + t + b + ">" + c && k == 1 + |a| && j == k + 7 + |v|
    ensures s[0] == '<' && j + |t| < |s| && StartsAt(s, k, ClassOpen)
    ensures ClassSearch(s, t, 1) == ClassSearch(s, t, k) && WordSearch(s, t, k + 7) == WordSearch(s, t, j)
    ensures s[j - 1] == '"' || !IsWord(s[j - 1])
  {
    ClassTagParts(s, a, v, b, c, t);
    ClassTagBefore(s, a, v, t);
    ClassSearchSkips(s, t, 1, k);
    WordSearchSkips(s, t, k + 7, j);
  }

  /** From the term, the word search runs to the tag's `>`. */
  lemma ClassTagEnd(s: seq<Byte>, a: seq<Byte>, v: seq<Byte>, b: seq<Byte>, c: seq<Byte>, t: seq<Byte>, j: nat, n: nat)
    requires IsTerm(t) && InsideTag(b) && b != [] && !IsWord(b[0]) && '"' in b
    requires s == "<" + a + ClassOpen + v + t + b + ">" + c && j == 8 + |a| + |v| && n == j + |t| + |b| + 1
    requires s[j - 1] == '"' || !IsWord(s[j - 1])
    ensures WordSearch(s, t, j) == Some(Hit(j, n))
  {
    ClassTagParts(s, a, v, b, c, t);
    ClassTagAfter(s, b, t, j);
    assert s[j + |t|..n - 1] == b;
    WordValueCloses(s, t, j, n - 1);
  }

  /** The term at `j` is a whole word when a non-word character follows it. */
  lemma ClassTagAfter(s: seq<Byte>, b: seq<Byte>, t: seq<Byte>, j: nat)
    requires 1 <= j && j + |t| + |b| < |s| && s[j..j + |t|] == t && s[j + |t|..j + |t| + |b|] == b
    requires b != [] && !IsWord(b[0]) && (s[j - 1] == '"' || !IsWord(s[j - 1]))
    ensures ClassSite(s, t, j)
  {
    assert s[j + |t|] == b[0];
  }

  /** Before the term: one line with no other `class="`, and a value with no
      earlier whole-word term. */
  lemma ClassTagBefore(s: seq<Byte>, a: seq<Byte>, v: seq<Byte>, t: seq<Byte>)
    requires IsTerm(t) && BeforeClass(a) && BeforeWord(v, t)
    requires var k, j := 1 + |a|, 8 + |a| + |v|;
      |s| > j + |t| && s[1..k] == a && s[k..k + 7] == ClassOpen && s[k + 7..j] == v &&
      s[k + 6..j + |t|] == ['"'] + v + t
    ensures var k, j := 1 + |a|, 8 + |a| + |v|;
      OnOneLine(s, 1, k) && NoneStartIn(s, ClassOpen, 1, k) &&
      OnOneLine(s, k + 7, j) && NoWordIn(s, t, k + 7, j) &&
      (s[j - 1] == '"' || !IsWord(s[j - 1]))
  {
    var k := 1 + |a|;
    var j := k + 7 + |v|;
    SliceLine(s, 1, k);
    SliceLine(s, k + 7, j);
    ClassOpenFirst(s, k);
    ClassWordFirst(s, v, t, k);
  }

  /** The pieces of `<a class="vTERMb>c`. */
  lemma ClassTagParts(s: seq<Byte>, a: seq<Byte>, v: seq<Byte>, b: seq<Byte>, c: seq<Byte>, t: seq<Byte>)
    requires s == "<" + a + ClassOpen + v + t + b + ">" + c
    ensures var k, j := 1 + |a|, 8 + |a| + |v|;
      |s| == j + |t| + |b| + 1 + |c| && s[0] == '<' &&
      s[1..k] == a && s[k..k + 7] == ClassOpen && s[k + 7..j] == v &&
      s[k + 6..j + |t|] == ['"'] + v + t && s[j..j + |t|] == t &&
      s[j + |t|..j + |t| + |b|] == b && s[j + |t| + |b|] == '>'
  {
    var k, j := 1 + |a|, 8 + |a| + |v|;
    assert ClassOpen == "class=" + ['"'];
    assert s == ("<" + a + "class=") + (['"'] + v + t) + (b + ">" + c);
    assert s[k + 6..j + |t|] == ['"'] + v + t;
    assert s[1..k] == a;
    assert s[k..k + 7] == ClassOpen;
    assert s[k + 7..j] == v;
    assert s[j..j + |t|] == t;
    assert s[j + |t|..j + |t| + |b|] == b;
  }

  /** The term after `class="` and `v` is the first whole word there. */
  lemma ClassWordFirst(s: seq<Byte>, v: seq<Byte>, t: seq<Byte>, k: nat)
    requires IsTerm(t) && BeforeWord(v, t) && 1 <= k
    requires k + 7 + |v| + |t| <= |s| && s[k + 6..k + 7 + |v| + |t|] == ['"'] + v + t
    ensures NoWordIn(s, t, k + 7, k + 7 + |v|)
    ensures s[k + 6 + |v|] == '"' || !IsWord(s[k + 6 + |v|])
  {
    var x := ['"'] + v + t;
    var j := k + 7 + |v|;
    assert s[j - 1] == x[|v|];
    forall i | k + 7 <= i < j ensures !ClassSite(s, t, i) {
      WordWithin(s, t, x, k + 6, i);
    }
  }

  /** `<div class="foo someclass">`: the first whole word of a `class` value
      equal to the term is replaced and the rest kept, when a quote closes the
      value. */
  lemma ClassWordRewritten(a: seq<Byte>, v: seq<Byte>, b: seq<Byte>, c: seq<Byte>, t: seq<Byte>, d: seq<Byte>)
    requires IsTerm(t) && BeforeClass(a) && BeforeWord(v, t) && InsideTag(b)
    requires b != [] && !IsWord(b[0]) && '"' in b
    ensures Gsub(ClassPass, "<" + a + ClassOpen + v + t + b + ">" + c, t, d)
         == "<" + a + ClassOpen + v + d + b + ">" + Gsub(ClassPass, c, t, d)
    ensures Hits(ClassPass, "<" + a + ClassOpen + v + t + b + ">" + c, t) == 1 + Hits(ClassPass, c, t)
  {
    var p, q := "<" + a + ClassOpen + v, b + ">";
    assert "<" + a + ClassOpen + v + t + b + ">" + c == p + t + q + c;
    assert "<" + a + ClassOpen + v + d + b + ">" + Gsub(ClassPass, c, t, d) == p + d + q + Gsub(ClassPass, c, t, d);
    ClassTagHit(a, v, b, c, t);
    GsubSplice(ClassPass, p, t, q, c, d);
  }

  // ---------------------------------------------------------------------
  // Text the HTML passes leave alone.

  /** An occurrence in a suffix is an occurrence in the whole text. */
  lemma StartsAtShift(s: seq<Byte>, w: seq<Byte>, i: nat, j: nat)
    requires i <= |s| && StartsAt(s[i..], j, w)
    ensures StartsAt(s, i + j, w)
  {
    assert s[i..][j..j + |w|] == s[i + j..i + j + |w|];
  }

  /** A text with no `w` has no `w` in any suffix. */
  lemma NoneStartInSuffix(s: seq<Byte>, w: seq<Byte>, i: nat)
    requires i <= |s| && NoneStartIn(s, w, 0, |s|)
    ensures NoneStartIn(s[i..], w, 0, |s| - i)
  {
    forall j | 0 <= j < |s| - i ensures !StartsAt(s[i..], j, w) {
      if StartsAt(s[i..], j, w) {
        StartsAtShift(s, w, i, j);
      }
    }
  }

  lemma {:induction false} IdSearchNone(s: seq<Byte>, t: seq<Byte>, k: nat)
    requires IsTerm(t) && 1 <= k <= |s| && NoneStartIn(s, IdOpen + t + ['"'], k, |s|)
    ensures IdSearch(s, t, k) == None
    decreases |s| - k
  {
    if k < |s| {
      assert !StartsAt(s, k, IdOpen + t + ['"']);
      IdSearchNone(s, t, k + 1);
    }
  }

  lemma {:induction false} ClassSearchNone(s: seq<Byte>, t: seq<Byte>, k: nat)
    requires IsTerm(t) && 1 <= k <= |s| && NoneStartIn(s, ClassOpen, k, |s|)
    ensures ClassSearch(s, t, k) == None
    decreases |s| - k
  {
    if k < |s| {
      assert !StartsAt(s, k, ClassOpen);
      ClassSearchNone(s, t, k + 1);
    }
  }

  /** The id pass changes nothing in a text where `id="TERM"` does not occur. */
  lemma IdNeedsValue(s: seq<Byte>, t: seq<Byte>, d: seq<Byte>)
    requires IsTerm(t) && NoneStartIn(s, IdOpen + t + ['"'], 0, |s|)
    ensures Gsub(IdPass, s, t, d) == s && Hits(IdPass, s, t) == 0
  {
    FinderSound(IdPass, t);
    forall i | 0 <= i < |s| ensures Finder(IdPass, t)(s[i..]).None? {
      NoneStartInSuffix(s, IdOpen + t + ['"'], i);
      IdSearchNone(s[i..], t, 1);
    }
    NoMatchBefore(Finder(IdPass, t), s, t, d, |s|);
    assert s[..|s|] == s;
  }

  /** The class pass changes nothing in a text where `class="` does not occur. */
  lemma ClassNeedsOpen(s: seq<Byte>, t: seq<Byte>, d: seq<Byte>)
    requires IsTerm(t) && NoneStartIn(s, ClassOpen, 0, |s|)
    ensures Gsub(ClassPass, s, t, d) == s && Hits(ClassPass, s, t) == 0
  {
    FinderSound(ClassPass, t);
    forall i | 0 <= i < |s| ensures Finder(ClassPass, t)(s[i..]).None? {
      NoneStartInSuffix(s, ClassOpen, i);
      ClassSearchNone(s[i..], t, 1);
    }
    NoMatchBefore(Finder(ClassPass, t), s, t, d, |s|);
    assert s[..|s|] == s;
  }

  // ---------------------------------------------------------------------
  // The CSS and JavaScript passes, one selector or literal at a time.

  /** The character that must open a match of the CSS or JavaScript pass. */
  predicate Opens(pass: Pass, c: Byte) {
    match pass
    case CssPass => IsCssOpen(c)
    case JsPass => IsQuote(c)
    case _ => c == '<'
  }

  /** Every match starts with an opening character of its pass. */
  lemma HitOpens(pass: Pass, s: seq<Byte>, t: seq<Byte>)
    requires s != [] && IsTerm(t) && HitAt(pass, s, t).Some?
    ensures Opens(pass, s[0])
  {
  }

  /** Text before the first opening character passes through the CSS or
      JavaScript pass untouched. */
  lemma GsubAfter(pass: Pass, a: seq<Byte>, b: seq<Byte>, t: seq<Byte>, d: seq<Byte>)
    requires forall i :: 0 <= i < |a| ==> !Opens(pass, a[i])
    ensures Gsub(pass, a + b, t, d) == a + Gsub(pass, b, t, d)
    ensures Hits(pass, a + b, t) == Hits(pass, b, t)
  {
    var s := a + b;
    FinderSound(pass, t);
    forall i | 0 <= i < |a| ensures Finder(pass, t)(s[i..]).None? {
      assert s[i..][0] == a[i];
      if s[i..] != [] && IsTerm(t) && HitAt(pass, s[i..], t).Some? {
        HitOpens(pass, s[i..], t);
      }
    }
    NoMatchBefore(Finder(pass, t), s, t, d, |a|);
    assert s[..|a|] == a && s[|a|..] == b;
  }

  /** A CSS or JavaScript match puts the term one or two characters after its
      start, so the text before the first site, less two characters, passes
      through untouched. */
  lemma SiteFreePrefix(pass: Pass, s: seq<Byte>, t: seq<Byte>, d: seq<Byte>, m: nat)
    requires pass == CssPass || pass == JsPass
    requires m <= |s| && forall j :: 0 <= j <= m + 1 ==> !Site(pass, s, t, j)
    ensures Gsub(pass, s, t, d) == s[..m] + Gsub(pass, s[m..], t, d)
    ensures Hits(pass, s, t) == Hits(pass, s[m..], t)
  {
    FinderSound(pass, t);
    forall i | 0 <= i < m ensures Finder(pass, t)(s[i..]).None? {
      if s[i..] != [] && IsTerm(t) && HitAt(pass, s[i..], t).Some? {
        var h := HitAt(pass, s[i..], t).value;
        assert h.at <= 2 by {
          if pass == CssPass {
            assert h == CssHit(s[i..], t).value;
          } else {
            assert h == JsHit(s[i..], t).value;
          }
        }
        SiteShift(pass, s, t, i, h.at);
      }
    }
    NoMatchBefore(Finder(pass, t), s, t, d, m);
  }

  /** A CSS selector: `#TERM` or `.TERM` (or `|TERM`) followed by a space, a
      `|` or `{` becomes the digest with both neighbours kept. */
  lemma CssSelectorRewritten(o: Byte, t: seq<Byte>, e: Byte, c: seq<Byte>, d: seq<Byte>)
    requires IsTerm(t) && IsCssOpen(o) && IsCssClose(e)
    ensures Gsub(CssPass, [o] + t + [e] + c, t, d) == [o] + d + [e] + Gsub(CssPass, c, t, d)
    ensures Hits(CssPass, [o] + t + [e] + c, t) == 1 + Hits(CssPass, c, t)
  {
    var s := [o] + t + [e] + c;
    assert s[1..1 + |t|] == t && s[|t| + 1] == e;
    assert HitAt(CssPass, s, t) == Some(Hit(1, |t| + 2));
    GsubSplice(CssPass, [o], t, [e], c, d);
  }

  /** A JavaScript string literal holding only the term, after an optional
      `#`, `.` or `|`, becomes the digest inside the same quotes. */
  lemma JsLiteralRewritten(q: Byte, x: seq<Byte>, t: seq<Byte>, c: seq<Byte>, d: seq<Byte>)
    requires IsTerm(t) && IsQuote(q) && |x| <= 1 && forall i :: 0 <= i < |x| ==> IsJsPrefix(x[i])
    ensures Gsub(JsPass, [q] + x + t + [q] + c, t, d) == [q] + x + d + [q] + Gsub(JsPass, c, t, d)
    ensures Hits(JsPass, [q] + x + t + [q] + c, t) == 1 + Hits(JsPass, c, t)
  {
    var p := [q] + x;
    var s := p + t + [q] + c;
    assert [q] + x + t + [q] + c == s;
    assert s[|p|..|p| + |t| + 1] == t + [q];
    assert IsWord(t[0]) && s[1] == (if x == [] then t[0] else x[0]);
    assert HitAt(JsPass, s, t) == Some(Hit(|p|, |p| + |t| + 1));
    GsubSplice(JsPass, p, t, [q], c, d);
    assert [q] + x + d + [q] == p + d + [q];
  }

  // ---------------------------------------------------------------------
  // Text that lacks a character of the pattern.

  /** A text lacking some character of `w` holds no occurrence of `w`. */
  lemma Absent(s: seq<char>, w: seq<char>, p: nat)
    requires p < |w| && w[p] !in s
    ensures NoneStartIn(s, w, 0, |s|)
  {
    forall m | 0 <= m < |s| ensures !StartsAt(s, m, w) {
      if m + |w| <= |s| {
        assert s[m..m + |w|][p] == s[m + p] != w[p];
      }
    }
  }

  /** A text in which two neighbouring characters of `w` never appear side by
      side holds no occurrence of `w`. */
  lemma PairAbsent(s: seq<char>, w: seq<char>, p: nat)
    requires p + 1 < |w|
    requires forall k :: 0 <= k < |s| - 1 ==> s[k] != w[p] || s[k + 1] != w[p + 1]
    ensures NoneStartIn(s, w, 0, |s|)
  {
    forall m | 0 <= m < |s| ensures !StartsAt(s, m, w) {
      if m + |w| <= |s| {
        assert s[m..m + |w|][p] == s[m + p] && s[m..m + |w|][p + 1] == s[m + p + 1];
      }
    }
  }

  /** No occurrence of `t` starts before the first occurrence of its first character. */
  lemma HeadAbsent(s: seq<char>, t: seq<char>, n: nat)
    requires 0 < |t| && n <= |s| && t[0] !in s[..n]
    ensures NoneStartIn(s, t, 0, n)
  {
    forall m | 0 <= m < n ensures !StartsAt(s, m, t) {
      if m + |t| <= |s| {
        assert s[m..m + |t|][0] == s[m] == s[..n][m];
      }
    }
  }

  /** A text lacking some character of the term comes out of every pass unchanged. */
  lemma TermAbsent(pass: Pass, s: seq<Byte>, t: seq<Byte>, d: seq<Byte>, p: nat)
    requires p < |t| && t[p] !in s
    ensures Gsub(pass, s, t, d) == s && Hits(pass, s, t) == 0
  {
    Absent(s, t, p);
    forall i: nat ensures !Site(pass, s, t, i) {
      if i < |s| {
        assert !StartsAt(s, i, t);
      }
    }
    NoSiteUnchanged(pass, s, t, d);
  }
}
