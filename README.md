# Rack::SelectorScrambler in Dafny

A model of `Rack::SelectorScrambler`. This Rack middleware rewrites chosen HTML ids and class names, CSS id and class
selectors, and lone JavaScript string literals in a response body. Each rewrite replaces the term with a digest that
depends on the request, so the rewritten selectors change from one requester to the next. The model also covers the
`Hasher` behind those digests: `djb2`, and its printable variant `djb3`.

Modules:

- `Text` (`text.dfy`): the character and byte primitives shared by the rest, plus `Option`/`Result`.
  - One Ruby byte is one `Byte`: a `char` below 256.
  - Substring search is `StartsAt`/`Contains`.
- `Hashing` (`hasher.dfy`): the hash functions and the `Hasher` class.
  - Specification functions: `HashFrom`, `Djb2Of`, `Emit`, `Djb3From`, `Djb3Of`, `Join`.
  - The class `Hasher` keeps the joined salts. Its loop methods `PlainDjb2`/`PlainDjb3` are proved against those functions.
  - The lemmas cover the structure of the hash: append, prefix, per-position output, and the digest alphabet.
  - `djb2` reads bytes as signed (`unpack('c*')`) and `djb3` reads them as unsigned (`unpack('C*')`). Both readings are modelled (`Reading`).
- `Rules` (`rules.dfy`): the four regular expressions of `gsub_html!` (id and class), `gsub_css!` and `gsub_js!`.
  - Each expression is a matcher `HitAt(pass, s, t)`. It returns the match Ruby's backtracking engine finds when the match starts at the first position of `s`.
  - `Gsub` scans left to right. It replaces the term inside each match with the digest and resumes after the match, as `String#gsub!` does.
  - The lemmas state when a pass rewrites, what it rewrites, and when it leaves the text alone.
- `Scrambler` (`scrambler.dfy`): the middleware itself.
  - `ShouldFilter` models `filter?`, `Select` the type choice in `filter!`, `Digest` `hash`, and `FilterWith` the loop over the terms.
  - `Scrambled` models what `each` yields for the whole body.
  - The class `SelectorScrambler` models the object, including `call` (dup plus `_call`) and the memoised `hasher`. Its `Filter` and `Each` loops are proved against `FilterWith`/`Scrambled`.
- `Examples`, `HtmlExamples`, `CssExamples`, `JsExamples`: the behaviour the repository's own specs describe, proved for the model.
  - Each spec case is a lemma about `Scrambled`.
  - They use salt `"foobar"`, terms `bannerad`, `bannerAd`, `foo`, and no requester address.
  - Where a spec only matches the result against a pattern, the lemma states the exact output.

Notes on what the code does:

- `djb3` yields characters from `A`–`Z` and `a`–`y`. The value is `(h % 51) + 65`, moved up by 6 above `Z` (`Emit`, `IsDigestChar`).
- `content_type?` calls `include?` on the `Content-Type` header. When terms are given and the header is missing, that call raises. `Scrambled`/`ShouldFilter` return `Err(MissingContentType)` in that case. With no terms the header is never read, and the body passes through.
- Inside `[#|\.]`, `[\s|{]` and `[#|.]`, the `|` is a literal character. The model accepts it as a selector opener/closer or a literal prefix.
- `(<.*?id=")` also matches any attribute whose name ends in `id` (`data-id="…"`). The lazy `.*?` can also run across several tags on one line. Both happen in the model too: the `<h1 id=…>` example matches from the `<html>` tag on.
- `(<.*?class=".*?\b)term(\b.*?".*?>)` can match a word after the closing quote of the class value. The model keeps that behaviour. Its lemmas claim the match for the first whole-word term inside the first `class="` value of the line (`ClassTagHit`, `ClassSearchFinds`).

## Model

| member | source | states |
|---|---|---|
| Hashing.Hasher.constructor | lib/rack/selector_scrambler/hasher.rb:2-4 | the salt is the concatenation of all salts, in order |
| Hashing.JoinAppend | lib/rack/selector_scrambler/hasher.rb:3 | joining two salt lists is joining each and concatenating |
| Hashing.SaltsThenTerm | lib/rack/selector_scrambler/hasher.rb:2-4 | salting a term equals joining it as one more salt; the digest has one character per salted byte |
| Hashing.Hasher.Djb2 | lib/rack/selector_scrambler/hasher.rb:6-8 | the result is djb2 of the salt followed by the string |
| Hashing.Hasher.PlainDjb2 | lib/rack/selector_scrambler/hasher.rb:10-18 | the loop computes djb2 over the signed bytes of the string, from 5381 |
| Hashing.ByteValue | lib/rack/selector_scrambler/hasher.rb:13 | a signed reading is the byte's value modulo 256 in [-128,128); an unsigned reading is the byte itself |
| Hashing.Djb2Snoc | lib/rack/selector_scrambler/hasher.rb:10-18 | djb2 of the empty string is 5381; each further byte multiplies by 33 and adds the byte |
| Hashing.HashAppend | lib/rack/selector_scrambler/hasher.rb:13-15 | hashing a + b continues from the hash of a |
| Hashing.HashFromGrows | lib/rack/selector_scrambler/hasher.rb:13-15 | starting from at least 4, the running hash never decreases |
| Hashing.HashPositive | lib/rack/selector_scrambler/hasher.rb:11-17 | djb2 of any string is at least 5381 |
| Hashing.AsciiReadingsAgree | lib/rack/selector_scrambler/hasher.rb:10-35 | on ASCII bytes the signed and unsigned readings give the same hash |
| Hashing.Djb2TestVector | spec/rack/selector_scrambler/hasher_spec.rb:4-14 | djb2("teststring") and djb2 with salts "te","st" of "string" are 8246957354742647644 |
| Hashing.Hasher.Djb3 | lib/rack/selector_scrambler/hasher.rb:20-22 | the result is djb3 of the salt followed by the string |
| Hashing.Hasher.PlainDjb3 | lib/rack/selector_scrambler/hasher.rb:24-35 | the loop emits one character per byte, each from the running unsigned hash |
| Hashing.Emit | lib/rack/selector_scrambler/hasher.rb:26-33 | the emitted character is in A–Z or a–y, and its rank in that alphabet is the hash modulo 51 |
| Hashing.Djb3From | lib/rack/selector_scrambler/hasher.rb:29-35 | the output is as long as the input and every character is a digest character |
| Hashing.Djb3At | lib/rack/selector_scrambler/hasher.rb:29-33 | output character i is the emitted form of the hash of the first i+1 bytes |
| Hashing.Djb3Append | lib/rack/selector_scrambler/hasher.rb:29-35 | djb3 of a + b is djb3 of a followed by djb3 of b, continued from a's hash |
| Hashing.Djb3Prefix | lib/rack/selector_scrambler/hasher.rb:24-35 | djb3 of a + b starts with djb3 of a and has length \|a\|+\|b\| |
| Hashing.Djb3OfTeststring | spec/rack/selector_scrambler/hasher_spec.rb:19-21 | djb3("teststring") is "FLTdBvhVmf" |
| Hashing.Djb3TestVector | spec/rack/selector_scrambler/hasher_spec.rb:16-26 | djb3 without salt and with salts "te","st" both give "FLTdBvhVmf" |
| Rules.CssHit | lib/rack/selector_scrambler.rb:61 | the CSS expression matches at an opener iff the term follows it and is followed by a space, `\|` or `{` |
| Rules.JsHit | lib/rack/selector_scrambler.rb:65 | the JS expression matches at a quote iff the term, after at most one `#`, `.` or `\|`, is closed by the same quote; it takes the prefix when one is present |
| Rules.IdHit | lib/rack/selector_scrambler.rb:56 | every id match starts at `<`, holds `id="`, the term and a quote, and ends at a `>`, all on one line (the converse is `IdTagHit`) |
| Rules.ClassHit | lib/rack/selector_scrambler.rb:57 | every class match starts at `<`, holds a `class="` before the term, the term as a whole word, a quote after it, and ends at a `>`, all on one line (the converse is `ClassTagHit`) |
| Rules.HitAt | lib/rack/selector_scrambler.rb:55-66 | every match found by any of the four expressions contains the term and ends inside the text |
| Rules.FinderSound | lib/rack/selector_scrambler.rb:55-66 | the four matchers only report matches that contain the term and lie within the text |
| Rules.GsubLength | lib/rack/selector_scrambler.rb:56-65 | the rewritten text is longer by (digest length − term length) per match |
| Rules.GsubSelf | lib/rack/selector_scrambler.rb:56-65 | replacing a term with itself leaves the text unchanged |
| Rules.NoSiteUnchanged | lib/rack/selector_scrambler.rb:56-65 | with no place where the expression can match, the text is unchanged and nothing is counted |
| Rules.TermAbsent | lib/rack/selector_scrambler.rb:56-65 | a text lacking some character of the term is left unchanged by every pass |
| Rules.IdTagHit | lib/rack/selector_scrambler.rb:56 | in `<a id="term"b>c`, with a on one line and holding no other `id="term"`, and b free of `>` and line breaks, the match is that tag and the term is its id value |
| Rules.IdSearchFinds | lib/rack/selector_scrambler.rb:56 | on any text, when the first `id="term"` of the line after position 1 is at k and a `>` follows it with no line break in between, the search from 1 reports the term inside that `id="term"` and a match ending at the first such `>` |
| Rules.IdValueRewritten | lib/rack/selector_scrambler.rb:56 | such a tag gets the digest as its id value and counts as one match; the rest is rewritten after it |
| Rules.IdNeedsValue | lib/rack/selector_scrambler.rb:56 | without `id="term"` anywhere, the id pass changes nothing |
| Rules.ClassTagHit | lib/rack/selector_scrambler.rb:57 | in `<a class="v term b>c`, with a on one line and holding no other `class="`, v holding no earlier whole-word term and ending in a non-word character, and b starting with a non-word character and holding the closing quote, the match is that tag and the term is the word after v |
| Rules.ClassSearchFinds | lib/rack/selector_scrambler.rb:57 | on any text, when the first `class="` of the line after position 1 is at k, the first whole-word term after it is at j, and a quote comes before the first `>` after the term, the search from 1 reports the term at j and a match ending at that `>` |
| Rules.ClassWordRewritten | lib/rack/selector_scrambler.rb:57 | in such a tag the first whole-word term of the class value becomes the digest, the words before and after it are kept, and the tag counts as one match |
| Rules.NonTermUnchanged | lib/rack/selector_scrambler.rb:55-66 | in the model a term that is not a run of word characters never matches (see Left out) |
| Rules.ClassNeedsOpen | lib/rack/selector_scrambler.rb:57 | without `class="` anywhere, the class pass changes nothing |
| Rules.CssSelectorRewritten | lib/rack/selector_scrambler.rb:61 | `#term ` / `.term{` become the opener, digest and closer, and count as one match |
| Rules.JsLiteralRewritten | lib/rack/selector_scrambler.rb:65 | a quoted term, with an optional `#`/`.` prefix, becomes the quoted digest with the same quote and prefix |
| Rules.GsubAfter | lib/rack/selector_scrambler.rb:55-66 | a prefix without any character that can start a match is kept as is |
| Rules.SiteFreePrefix | lib/rack/selector_scrambler.rb:60-66 | a CSS/JS prefix with no match position in it is kept as is |
| Scrambler.ContentTypeIs | lib/rack/selector_scrambler.rb:51-53 | an error iff the header is missing; otherwise true iff the type occurs in the header value |
| Scrambler.Select | lib/rack/selector_scrambler.rb:40-46 | HTML if the header names text/html, else CSS if text/css, else JS if application/javascript, else none |
| Scrambler.ShouldFilter | lib/rack/selector_scrambler.rb:35-37 | an error iff there are terms and no Content-Type; true iff there are terms and one of the three types occurs |
| Scrambler.RequestKey | lib/rack/selector_scrambler.rb:72-74 | the hasher's salt is the requester's address followed by the configured salt |
| Scrambler.Digest | lib/rack/selector_scrambler.rb:68-70 | the digest has one digest character per byte of key plus term |
| Scrambler.RewriteLength | lib/rack/selector_scrambler.rb:55-66 | one term's rewrite grows the text by the key length per match |
| Scrambler.RewriteSelf | lib/rack/selector_scrambler.rb:55-66 | rewriting a term to itself changes nothing, for every content type |
| Scrambler.FilterLength | lib/rack/selector_scrambler.rb:47-48 | filtering grows a chunk by the key length times the number of rewritten occurrences |
| Scrambler.FilterAppend | lib/rack/selector_scrambler.rb:47 | terms are applied one after the other, in order |
| Scrambler.FilterNoSite | lib/rack/selector_scrambler.rb:47-48 | a chunk where no term can match is returned unchanged |
| Scrambler.Scrambled | lib/rack/selector_scrambler.rb:26-31 | an error iff `filter?` raises; the chunk count is kept; when not filtering, the body is unchanged |
| Scrambler.ScrambledChunks | lib/rack/selector_scrambler.rb:27-28 | when filtering, chunk i of the output is chunk i filtered with the selected rule and the request key |
| Scrambler.PassThrough | lib/rack/selector_scrambler.rb:29-30 | with no terms, or no filtered type in the header, the body passes through |
| Scrambler.SelectorScrambler.constructor | lib/rack/selector_scrambler.rb:10-14 | the new object keeps the salt and terms, with no request state and no hasher |
| Scrambler.SelectorScrambler.Dup | lib/rack/selector_scrambler.rb:17 | the copy has the same field values |
| Scrambler.SelectorScrambler.Handle | lib/rack/selector_scrambler.rb:20-24 | records the request and the app's status, headers and body, and returns status, headers and itself |
| Scrambler.SelectorScrambler.Call | lib/rack/selector_scrambler.rb:16-18 | returns the request's status and headers and a fresh copy holding the salt, terms, address, status, headers and body of this request; the original is unchanged |
| Scrambler.SelectorScrambler.GetHasher | lib/rack/selector_scrambler.rb:72-74 | creates the hasher once, salted with address + salt, and returns the same one afterwards |
| Scrambler.SelectorScrambler.Hash | lib/rack/selector_scrambler.rb:68-70 | the digest of a term is `Digest` under the request key |
| Scrambler.SelectorScrambler.Filter | lib/rack/selector_scrambler.rb:39-49 | the loop over the terms yields `FilterWith` of the selected rule |
| Scrambler.SelectorScrambler.Each | lib/rack/selector_scrambler.rb:26-31 | the loop over the chunks yields `Scrambled` of the object's state |
| Examples.KeyWithoutAddress | lib/rack/selector_scrambler.rb:73 | with no address, the key is the salt alone |
| Examples.DigestOfFoo | lib/rack/selector_scrambler.rb:68-70 | under salt "foobar", "foo" becomes "qSqFHnMwM" |
| Examples.DigestOfBannerad | lib/rack/selector_scrambler.rb:68-70 | under salt "foobar", "bannerad" becomes "qSqFHnIEmmdAul" |
| Examples.HtmlSelected | lib/rack/selector_scrambler.rb:40-41 | text/html selects the HTML rule |
| Examples.CssSelected | lib/rack/selector_scrambler.rb:42-43 | text/css selects the CSS rule |
| Examples.JsSelected | lib/rack/selector_scrambler.rb:44-45 | application/javascript selects the JS rule |
| Examples.Filtered | lib/rack/selector_scrambler.rb:35-37 | with the spec's terms, every selected type is filtered |
| Examples.OtherTypePassesThrough | spec/rack/selector_scrambler_spec.rb:179-182 | a text/foo body is returned unchanged |
| Examples.NoTermsPassesThrough | spec/rack/selector_scrambler_spec.rb:184-187 | with no terms every body is returned unchanged, whatever the headers |
| Examples.MissingTypeFails | lib/rack/selector_scrambler.rb:51-53 | with terms and no Content-Type header, the response fails |
| HtmlExamples.IdAfterQuotedAttribute | lib/rack/selector_scrambler.rb:56 | in `<p class="x" id="foo">` the id match is the whole tag with `foo` as the value, although a quoted attribute comes first |
| HtmlExamples.ClassSecondWord | lib/rack/selector_scrambler.rb:57 | in `<div class="testclass1 bannerAd">` the class match is the whole tag with `bannerAd`, the second word, as the term |
| HtmlExamples.ReplacesMatchingIds | spec/rack/selector_scrambler_spec.rb:31-34 | `<div id="foo">` gets the digest of foo as its id |
| HtmlExamples.ReplacesMatchingClasses | spec/rack/selector_scrambler_spec.rb:36-39 | `<div class="foo">` gets the digest of foo as its class |
| HtmlExamples.KeepsOtherClasses | spec/rack/selector_scrambler_spec.rb:41-44 | in `class="foo someclass"` only foo is replaced |
| HtmlExamples.KeepsInexactMatches | spec/rack/selector_scrambler_spec.rb:46-49 | `class="xfoox"` is unchanged |
| HtmlExamples.KeepsOtherAttributes | spec/rack/selector_scrambler_spec.rb:51-54 | `src="foo"` is unchanged |
| HtmlExamples.KeepsAttributeNames | spec/rack/selector_scrambler_spec.rb:56-59 | `foo="value"` is unchanged |
| HtmlExamples.GrowsBySalt | spec/rack/selector_scrambler_spec.rb:128-132 | the bannerad heading gets its digest, and the body grows by exactly the salt length |
| CssExamples.ReplacesIdSelectors | spec/rack/selector_scrambler_spec.rb:65-68 | `#foo {` becomes `#` + digest + ` {` |
| CssExamples.ReplacesClassSelectors | spec/rack/selector_scrambler_spec.rb:70-73 | `.foo {` becomes `.` + digest + ` {` |
| CssExamples.ReplacesEverySelector | spec/rack/selector_scrambler_spec.rb:75-78 | both selectors in `#foo .foo {` are replaced |
| CssExamples.KeepsLongerSelectors | spec/rack/selector_scrambler_spec.rb:80-83 | `#foo-foo {` is unchanged |
| CssExamples.KeepsDeclarations | spec/rack/selector_scrambler_spec.rb:85-88 | `div { foo: foo }` is unchanged |
| JsExamples.ReplacesLoneLiterals | spec/rack/selector_scrambler_spec.rb:94-97 | `"foo"` becomes the quoted digest |
| JsExamples.KeepsNames | spec/rack/selector_scrambler_spec.rb:99-102 | `var foo = "id"` is unchanged |
| JsExamples.KeepsLongerLiterals | spec/rack/selector_scrambler_spec.rb:104-107 | `"foo is cool"` is unchanged |
| JsExamples.AllowsHashSign | spec/rack/selector_scrambler_spec.rb:109-112 | `"#foo"` becomes `"#` + digest + `"` |
| JsExamples.AllowsDot | spec/rack/selector_scrambler_spec.rb:114-117 | `".foo"` becomes `".` + digest + `"` |
| JsExamples.AccountsForEscapedQuotes | spec/rack/selector_scrambler_spec.rb:119-122 | an escaped quote before the literal does not stop the replacement of `"foo"` |

## Left out

- The requester's address (`Rack::Request#ip`) and the wrapped application are parameters: `Call`/`Handle` receive the address and the app's status, headers and body.
- The Content-Length header is not recomputed or modelled. The middleware passes the app's headers on unchanged, and the length growth is stated as a property of the body (`GrowsBySalt`, `FilterLength`).
- Rules.Finder: only terms that are non-empty runs of word characters (`IsTerm`) are matched. For any other term (`a-b`, `a.b`, the empty term) the model leaves the text unchanged (`NonTermUnchanged`), while the source splices the term unescaped into its expressions and does rewrite, for example, `.a-b {` for the term `a-b`.
- Text is modelled as bytes. Ruby's multi-byte characters, encodings and the `.` of a multi-byte string are not modelled.
- Scrambler.Scrambled: `gsub!` changes the caller's string in place. The model returns new values, so aliasing of a chunk with another object is not captured.
- Scrambler.SelectorScrambler.Each: the block is not modelled. `each` yields the filtered chunks one by one; the model returns them as one sequence, in order.
- Scrambler.SelectorScrambler.Filter: it requires a selected rule. The source calls `filter!` only after `filter?`; otherwise `send(nil, …)` would raise.
- Exceptions raised by the wrapped body while it is iterated are not modelled.
- The specs that read fixture pages (`part_one.html`, `part_two.html`) are not modelled: those files are not part of this model. Their pass-through cases are stated in general (`OtherTypePassesThrough`, `NoTermsPassesThrough`).
- The gem's `VERSION` constant is not modelled.
- Rules.ClassTagHit: it is claimed only for the first whole-word occurrence of the term in the tag's first `class="` value, with the closing quote and no `>` or line break before the tag's end. The other matches the expression's lazy `.*?` allows (a word after the closing quote, a second `class="`) follow from `ClassHit` and the scanner but have no lemma of their own.
- Rules.IdTagHit: it is claimed for the first `id="term"` on the line after the `<`, followed by a `>` on that line. The case where no `>` follows on the line, so that no match starts at that `<`, has no lemma of its own.
