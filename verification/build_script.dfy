/**
 * The string logic of the Windows 2000 build script,
 * Windows/specialbuild/BuildI386W2k.cs: quoting a path for a tool's command
 * line, and taking the path a fixed character buffer holds.
 */
module BuildScript {
  import opened CStrings

  /** A character QuoteString prefixes with a backslash. */
  predicate NeedsEscape(c: char) {
    c == '"' || c == '\\'
  }

  /** How many characters of `s` need a backslash. */
  function EscapeCount(s: seq<char>): nat {
    if |s| == 0 then 0 else (if NeedsEscape(s[0]) then 1 else 0) + EscapeCount(s[1..])
  }

  /** The body of QuoteString: each character in order, a backslash inserted before every `"` and `\`. */
  function Escape(s: seq<char>): (r: seq<char>)
    ensures |r| == |s| + EscapeCount(s)
    ensures NulFree(s) ==> NulFree(r)
  {
    if |s| == 0 then []
    else (if NeedsEscape(s[0]) then ['\\', s[0]] else [s[0]]) + Escape(s[1..])
  }

  /** A single character: a backslash goes right before it exactly when it is `"` or `\`. */
  lemma EscapeOne(c: char)
    ensures Escape([c]) == if NeedsEscape(c) then ['\\', c] else [c]
  {
  }

  /** Escaping works character by character: the escape of a concatenation is the concatenation of the escapes. */
  lemma {:induction false} EscapeAppend(a: seq<char>, b: seq<char>)
    ensures Escape(a + b) == Escape(a) + Escape(b)
    decreases |a|
  {
    if |a| > 0 {
      assert (a + b)[1..] == a[1..] + b;
      EscapeAppend(a[1..], b);
    } else {
      assert a + b == b;
    }
  }

  /** Removes one level of backslash escaping: a backslash makes the character after it literal. */
  function Unescape(t: seq<char>): seq<char>
    decreases |t|
  {
    if |t| == 0 then []
    else if t[0] == '\\' && |t| >= 2 then [t[1]] + Unescape(t[2..])
    else [t[0]] + Unescape(t[1..])
  }

  lemma {:induction false} UnescapeEscape(s: seq<char>)
    ensures Unescape(Escape(s)) == s
  {
    if |s| > 0 {
      UnescapeEscape(s[1..]);
      var e := Escape(s);
      if NeedsEscape(s[0]) {
        assert e == ['\\', s[0]] + Escape(s[1..]);
        assert e[2..] == Escape(s[1..]);
      } else {
        assert e == [s[0]] + Escape(s[1..]);
        assert e[1..] == Escape(s[1..]);
      }
    }
  }

  /** Wraps `s` in double quotes, escaping the double quotes and backslashes inside it. */
  function QuoteString(s: seq<char>): (r: seq<char>)
    ensures |r| == |s| + 2 + EscapeCount(s)
    ensures r[0] == '"' && r[|r| - 1] == '"'
    ensures NulFree(s) ==> NulFree(r)
    ensures r[1..|r| - 1] == Escape(s)
    ensures Unescape(r[1..|r| - 1]) == s
  {
    var r := ['"'] + Escape(s) + ['"'];
    assert r[1..|r| - 1] == Escape(s);
    UnescapeEscape(s);
    r
  }

  /**
   * The loop at the end of GetProgramFilesX86: the characters before the first
   * NUL of the buffer, or the whole buffer when it holds none.
   */
  method TruncateAtNul(pathBuf: seq<char>) returns (path: seq<char>)
    ensures path <= pathBuf
    ensures NulFree(path)
    ensures |path| < |pathBuf| ==> pathBuf[|path|] == NUL
    ensures path == BeforeNul(pathBuf)
  {
    for i := 0 to |pathBuf|
      invariant NulFree(pathBuf[..i])
    {
      if pathBuf[i] == NUL {
        BeforeNulOfTerminated(pathBuf[..i], pathBuf[i + 1..]);
        assert pathBuf == pathBuf[..i] + [NUL] + pathBuf[i + 1..];
        return pathBuf[..i];
      }
      assert pathBuf[..i + 1] == pathBuf[..i] + [pathBuf[i]];
    }
    assert pathBuf[..|pathBuf|] == pathBuf;
    return pathBuf;
  }
}
