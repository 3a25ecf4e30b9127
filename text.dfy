/** Characters, bytes and the small helpers the regular expressions of the
    scrambler are built from. A Ruby string is modelled as a sequence of
    one-byte characters: each `Byte` is one byte of the string. */
module Text {

  /** One byte of a Ruby string, as a character whose code is below 256. */
  type Byte = c: char | c as int < 256

  datatype Option<+T> = None | Some(value: T)

  datatype Result<+T, +E> = Ok(value: T) | Err(error: E)

  /** Ruby's `\w` on ASCII text: `[A-Za-z0-9_]`. */
  predicate IsWord(c: Byte) {
    ('a' <= c <= 'z') || ('A' <= c <= 'Z') || ('0' <= c <= '9') || c == '_'
  }

  /** Ruby's `\s`: space, tab, line feed, vertical tab, form feed, carriage return. */
  predicate IsSpace(c: Byte) {
    c == ' ' || c == '\t' || c == '\n' || c as int == 11 || c as int == 12 || c == '\r'
  }

  /** `w` occurs in `s` starting at index `i` (bytes are characters, so this
      serves both). */
  predicate StartsAt(s: seq<char>, i: nat, w: seq<char>) {
    i + |w| <= |s| && s[i..i + |w|] == w
  }

  /** `String#include?`: `needle` occurs somewhere in `hay` at or after `from`. */
  function ContainsFrom(hay: seq<char>, needle: seq<char>, from: nat): (r: bool)
    ensures r <==> exists i :: from <= i && StartsAt(hay, i, needle)
    decreases |hay| - from
  {
    if from + |needle| > |hay| then false
    else StartsAt(hay, from, needle) || ContainsFrom(hay, needle, from + 1)
  }

  function Contains(hay: seq<char>, needle: seq<char>): (r: bool)
    ensures r <==> exists i :: StartsAt(hay, i, needle)
  {
    ContainsFrom(hay, needle, 0)
  }
}
