/**
 * C strings. A string argument is modelled by its content, the characters before
 * its terminating NUL, so the end of the sequence stands for the terminator. A raw
 * character buffer (a fixed-size array that holds a NUL-terminated string somewhere
 * inside it) is modelled by all of its cells, NULs included.
 */
module CStrings {

  const NUL: char := '\0'

  /** `s` can be the content of a C string: it holds no terminator. */
  predicate NulFree(s: seq<char>) {
    NUL !in s
  }

  /** The string a character buffer holds: every cell before the first NUL, or the whole buffer when it has no NUL. */
  function BeforeNul(buf: seq<char>): (r: seq<char>)
    ensures r <= buf
    ensures NulFree(r)
    ensures |r| < |buf| ==> buf[|r|] == NUL
  {
    if |buf| == 0 || buf[0] == NUL then [] else [buf[0]] + BeforeNul(buf[1..])
  }

  /** A buffer laid out as `text`, a terminator, then anything at all, holds exactly `text`. */
  lemma BeforeNulOfTerminated(text: seq<char>, rest: seq<char>)
    requires NulFree(text)
    ensures BeforeNul(text + [NUL] + rest) == text
  {
    var buf := text + [NUL] + rest;
    var r := BeforeNul(buf);
    assert buf[|text|] == NUL;
    if |r| < |text| {
      assert false;
    } else if |r| > |text| {
      assert false;
    }
    assert r == buf[..|r|];
  }
}
