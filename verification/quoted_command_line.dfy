/**
 * A cross-file property of the build script's quoting and the watcher's
 * tokenizer: a program name quoted as QuoteString quotes it would be read back
 * by skipCommandLineToken as exactly one token, whatever characters the name
 * holds. The build script itself never launches the watcher.
 */
module QuotedCommandLine {
  import opened CommandLine
  import opened BuildScript
  import opened CStrings

  /** Inside quotes, an escaped text is scanned to its end and leaves the scan unescaped and still quoting. */
  lemma {:induction false} ScanPassesEscaped(s: seq<char>, i: nat, x: seq<char>)
    requires i + |Escape(x)| <= |s|
    requires s[i..i + |Escape(x)|] == Escape(x)
    ensures ScanToken(s, i, false, true) == ScanToken(s, i + |Escape(x)|, false, true)
    decreases |x|
  {
    if |x| > 0 {
      var e := Escape(x);
      var n := if NeedsEscape(x[0]) then 2 else 1;
      assert e[n..] == Escape(x[1..]);
      assert s[i + n..i + |e|] == e[n..];
      if NeedsEscape(x[0]) {
        assert s[i] == e[0] == '\\';
        assert ScanToken(s, i, false, true) == ScanToken(s, i + 1, true, true);
      } else {
        assert s[i] == x[0];
      }
      ScanPassesEscaped(s, i + n, x[1..]);
    }
  }

  /** The scan of a line starting with a quoted name stops right after the closing quote. */
  lemma QuotedTokenEnd(x: seq<char>, s: seq<char>)
    requires QuoteString(x) <= s
    ensures ScanToken(s, 0, false, false) == ScanToken(s, |QuoteString(x)|, false, false)
  {
    var q := QuoteString(x);
    var e := Escape(x);
    assert q == ['"'] + e + ['"'];
    assert s[0] == '"';
    assert ScanToken(s, 0, false, false) == ScanToken(s, 1, false, true);
    assert s[1..1 + |e|] == e;
    ScanPassesEscaped(s, 1, x);
    assert s[1 + |e|] == '"';
  }

  /** A quoted name, one space and a tail not starting with a space: the tail begins right after that space. */
  lemma QuotedNameThenTail(x: seq<char>, tail: seq<char>)
    requires NulFree(x) && NulFree(tail)
    requires tail == [] || tail[0] != ' '
    ensures SkipCommandLineToken(QuoteString(x) + [' '] + tail) == |QuoteString(x)| + 1
    ensures Tail(QuoteString(x) + [' '] + tail) == tail
  {
    var q := QuoteString(x);
    var s := q + [' '] + tail;
    assert NulFree(s) by {
      assert NulFree(q);
    }
    assert SkipSpaces(s, 0) == 0;
    QuotedTokenEnd(x, s);
    assert s[|q|] == ' ';
    assert |q| + 1 == |s| || s[|q| + 1] == tail[0];
  }
}
