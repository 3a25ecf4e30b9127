/** The salted djb2-style hasher: `Rack::SelectorScrambler::Hasher`.

    Both digests run the recurrence `hash = ((hash << 5) + hash) + c` from
    5381 over the bytes of `salt + str`, on unbounded integers. `djb2` reads
    the bytes as signed and returns the final hash; `djb3` reads them as
    unsigned and emits one letter per byte. */
module Hashing {
  import opened Text

  /** The starting value of both running hashes. */
  const Seed: int := 5381
  /** The code of the first letter `djb3` emits, 'A'. */
  const Min: int := 65
  /** The number of distinct letters `djb3` emits. */
  const Diff: int := 51

  /** How `String#unpack` reads a byte: `'c*'` signed, `'C*'` unsigned. */
  datatype Reading = Signed | Unsigned

  function ByteValue(r: Reading, b: Byte): (v: int)
    ensures r == Unsigned ==> v == b as int
    ensures r == Signed ==> -128 <= v < 128 && (v - b as int) % 256 == 0
  {
    if r == Unsigned || b as int < 128 then b as int else b as int - 256
  }

  /** One step of the recurrence; a left shift by five is a product with 32. */
  function Mix(h: int, c: int): int {
    (h * 32 + h) + c
  }

  /** The running hash after folding the bytes of `s` into `h`, left to right. */
  function HashFrom(r: Reading, h: int, s: seq<Byte>): int
    decreases |s|
  {
    if s == [] then h else HashFrom(r, Mix(h, ByteValue(r, s[0])), s[1..])
  }

  /** `_djb2(str)`. */
  function Djb2Of(s: seq<Byte>): int {
    HashFrom(Signed, Seed, s)
  }

  /** The letters `djb3` can emit: 'A'..'Z' and 'a'..'y'. */
  predicate IsDigestChar(c: Byte) {
    ('A' <= c <= 'Z') || ('a' <= c <= 'y')
  }

  /** The residue modulo 51 that a digest letter stands for. */
  function Residue(c: Byte): int {
    if c <= 'Z' then c as int - Min else c as int - Min - 6
  }

  /** The letter emitted for running hash `h`: `(h % 51) + 65`, plus 6 past 'Z'.
      Ruby's `%` and Dafny's agree here, since the divisor is positive. */
  function Emit(h: int): (c: Byte)
    ensures IsDigestChar(c)
    ensures Residue(c) == h % Diff
  {
    var code := h % Diff + Min;
    if code > 90 then (code + 6) as char else code as char
  }

  /** The letters `_djb3` emits for `s` when the running hash starts at `h`. */
  function Djb3From(h: int, s: seq<Byte>): (out: seq<Byte>)
    ensures |out| == |s|
    ensures forall i :: 0 <= i < |out| ==> IsDigestChar(out[i])
    decreases |s|
  {
    if s == [] then []
    else
      var h' := Mix(h, ByteValue(Unsigned, s[0]));
      [Emit(h')] + Djb3From(h', s[1..])
  }

  /** `_djb3(str)`. */
  function Djb3Of(s: seq<Byte>): seq<Byte> {
    Djb3From(Seed, s)
  }

  /** `salts.join`. */
  function Join(parts: seq<seq<Byte>>): seq<Byte>
    decreases |parts|
  {
    if parts == [] then [] else parts[0] + Join(parts[1..])
  }

  /** `Rack::SelectorScrambler::Hasher`: the salts joined once, at construction. */
  class Hasher {
    const salt: seq<Byte>

    constructor (salts: seq<seq<Byte>>)
      ensures salt == Join(salts)
    {
      salt := Join(salts);
    }

    /** `djb2(str)`: the salt is prepended to the argument. */
    method Djb2(str: seq<Byte>) returns (h: int)
      ensures h == Djb2Of(salt + str)
    {
      h := PlainDjb2(salt + str);
    }

    /** `_djb2(str)`: the signed-byte fold, one byte per iteration. */
    method PlainDjb2(str: seq<Byte>) returns (h: int)
      ensures h == Djb2Of(str)
    {
      h := Seed;
      var i := 0;
      while i < |str|
        invariant 0 <= i <= |str|
        invariant HashFrom(Signed, h, str[i..]) == Djb2Of(str)
      {
        assert str[i..][1..] == str[i + 1..];
        h := (h * 32 + h) + ByteValue(Signed, str[i]);
        i := i + 1;
      }
    }

    /** `djb3(str)`: the salt is prepended to the argument. */
    method Djb3(str: seq<Byte>) returns (out: seq<Byte>)
      ensures out == Djb3Of(salt + str)
    {
      out := PlainDjb3(salt + str);
    }

    /** `_djb3(str)`: the unsigned-byte fold, emitting one letter per byte. */
    method PlainDjb3(str: seq<Byte>) returns (out: seq<Byte>)
      ensures out == Djb3Of(str)
    {
      var h := Seed;
      out := [];
      var i := 0;
      while i < |str|
        invariant 0 <= i <= |str|
        invariant out + Djb3From(h, str[i..]) == Djb3Of(str)
      {
        assert str[i..][1..] == str[i + 1..];
        h := (h * 32 + h) + ByteValue(Unsigned, str[i]);
        var c := h % Diff + Min;
        if c > 90 {
          c := c + 6;
        }
        out := out + [c as char];
        i := i + 1;
      }
      assert str[i..] == [];
    }
  }

  /** Folding `a + b` is folding `a`, then folding `b` from where `a` left off. */
  lemma {:induction false} HashAppend(r: Reading, h: int, a: seq<Byte>, b: seq<Byte>)
    ensures HashFrom(r, h, a + b) == HashFrom(r, HashFrom(r, h, a), b)
    decreases |a|
  {
    if a != [] {
      assert (a + b)[0] == a[0] && (a + b)[1..] == a[1..] + b;
      HashAppend(r, Mix(h, ByteValue(r, a[0])), a[1..], b);
    } else {
      assert a + b == b;
    }
  }

  /** `_djb2("")` is 5381, and one more byte `c` gives `33 * _djb2(s) + c`. */
  lemma Djb2Snoc(s: seq<Byte>, c: Byte)
    ensures Djb2Of([]) == 5381
    ensures Djb2Of(s + [c]) == 33 * Djb2Of(s) + ByteValue(Signed, c)
  {
    HashAppend(Signed, Seed, s, [c]);
  }

  /** From any start of at least 4 the fold never decreases, even on negative bytes. */
  lemma {:induction false} HashFromGrows(r: Reading, h: int, s: seq<Byte>)
    requires h >= 4
    ensures HashFrom(r, h, s) >= h
    decreases |s|
  {
    if s != [] {
      HashFromGrows(r, Mix(h, ByteValue(r, s[0])), s[1..]);
    }
  }

  /** The running hash stays positive: both digests' hashes are at least 5381. */
  lemma HashPositive(r: Reading, s: seq<Byte>)
    ensures HashFrom(r, Seed, s) >= Seed
  {
    HashFromGrows(r, Seed, s);
  }

  /** On ASCII bytes the signed and unsigned readings give the same running hash. */
  lemma {:induction false} AsciiReadingsAgree(h: int, s: seq<Byte>)
    requires forall i :: 0 <= i < |s| ==> s[i] as int < 128
    ensures HashFrom(Signed, h, s) == HashFrom(Unsigned, h, s)
    decreases |s|
  {
    if s != [] {
      AsciiReadingsAgree(Mix(h, s[0] as int), s[1..]);
    }
  }

  /** Letter `i` of the output is emitted from the hash of the first `i + 1` bytes. */
  lemma {:induction false} Djb3At(h: int, s: seq<Byte>, i: nat)
    requires i < |s|
    ensures Djb3From(h, s)[i] == Emit(HashFrom(Unsigned, h, s[..i + 1]))
    decreases |s|
  {
    var h' := Mix(h, ByteValue(Unsigned, s[0]));
    if i > 0 {
      Djb3At(h', s[1..], i - 1);
      assert s[1..][..i] == s[..i + 1][1..];
    }
  }

  /** The letters for `a + b` are those for `a`, then those for `b` from `a`'s hash. */
  lemma {:induction false} Djb3Append(h: int, a: seq<Byte>, b: seq<Byte>)
    ensures Djb3From(h, a + b) == Djb3From(h, a) + Djb3From(HashFrom(Unsigned, h, a), b)
    decreases |a|
  {
    if a != [] {
      assert (a + b)[0] == a[0] && (a + b)[1..] == a[1..] + b;
      Djb3Append(Mix(h, ByteValue(Unsigned, a[0])), a[1..], b);
    } else {
      assert a + b == b;
    }
  }

  /** Output letter i depends only on the first i + 1 bytes: `_djb3(a)` prefixes `_djb3(a + b)`. */
  lemma Djb3Prefix(a: seq<Byte>, b: seq<Byte>)
    ensures |Djb3Of(a + b)| == |a| + |b|
    ensures Djb3Of(a + b)[..|a|] == Djb3Of(a)
  {
    Djb3Append(Seed, a, b);
  }

  /** Salts join left to right: joining `a + b` is joining `a`, then `b`. */
  lemma {:induction false} JoinAppend(a: seq<seq<Byte>>, b: seq<seq<Byte>>)
    ensures Join(a + b) == Join(a) + Join(b)
    decreases |a|
  {
    if a != [] {
      assert (a + b)[0] == a[0] && (a + b)[1..] == a[1..] + b;
      JoinAppend(a[1..], b);
    } else {
      assert a + b == b;
    }
  }

  /** A hasher built from salts s1..sn, applied to t, digests s1 + ... + sn + t. */
  lemma SaltsThenTerm(salts: seq<seq<Byte>>, t: seq<Byte>)
    ensures Join(salts) + t == Join(salts + [t])
    ensures |Djb3Of(Join(salts) + t)| == |Join(salts)| + |t|
  {
    JoinAppend(salts, [t]);
    assert Join([t]) == t + Join([]);
  }

  /** The published `djb2` test vector, with and without the salts "te" and "st". */
  lemma Djb2TestVector()
    ensures Djb2Of(Join([]) + "teststring") == 8246957354742647644
    ensures Djb2Of(Join(["te", "st"]) + "string") == 8246957354742647644
  {
    assert Join([]) + "teststring" == "teststring";
    assert Join(["te", "st"]) + "string" == "teststring";
    assert Djb2Of("teststring") == 8246957354742647644;
  }

  /** One letter of `_djb3`, with the running hash named. */
  lemma Djb3Step(h: int, s: seq<Byte>, h': int)
    requires s != [] && h' == Mix(h, s[0] as int)
    ensures Djb3From(h, s) == [Emit(h')] + Djb3From(h', s[1..])
  {}

  /** `_djb3` of "teststring", one letter at a time, with the running hash
      before each suffix. */
  lemma Djb3OfTeststring(s: seq<Byte>)
    requires s == "teststring"
    ensures Djb3Of(s) == "FLTdBvhVmf"
  {
    assert s[9..][1..] == [];
    Djb3Step(249907798628565077, s[9..], 8246957354742647644);
    assert s[8..][1..] == s[9..];
    Djb3Step(7572963594804999, s[8..], 249907798628565077);
    assert s[7..][1..] == s[8..];
    Djb3Step(229483745297118, s[7..], 7572963594804999);
    assert s[6..][1..] == s[7..];
    Djb3Step(6954052887788, s[6..], 229483745297118);
    assert s[5..][1..] == s[6..];
    Djb3Step(210728875384, s[5..], 6954052887788);
    assert s[4..][1..] == s[5..];
    Djb3Step(6385723493, s[4..], 210728875384);
    assert s[3..][1..] == s[4..];
    Djb3Step(193506769, s[3..], 6385723493);
    assert s[2..][1..] == s[3..];
    Djb3Step(5863838, s[2..], 193506769);
    assert s[1..][1..] == s[2..];
    Djb3Step(177689, s[1..], 5863838);
    assert s[0..][1..] == s[1..];
    Djb3Step(5381, s[0..], 177689);
    assert s[0..] == s;
  }

  /** The published `djb3` test vector, with and without the salts "te" and "st". */
  lemma Djb3TestVector()
    ensures Djb3Of(Join([]) + "teststring") == "FLTdBvhVmf"
    ensures Djb3Of(Join(["te", "st"]) + "string") == "FLTdBvhVmf"
  {
    assert Join([]) + "teststring" == "teststring";
    assert Join(["te", "st"]) + "string" == "teststring";
    Djb3OfTeststring("teststring");
  }
}
