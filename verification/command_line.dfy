/**
 * The Windows front end: splitting the raw command line into the watcher's own
 * name and the argument tail it hands on verbatim, and recognising a request
 * for the usage text. Windows/StartWaitTree.c, skipCommandLineToken and the
 * start of noCrtMain.
 */
module CommandLine {
  import opened CStrings

  /** The first index at or after `i` that does not hold a space. */
  function SkipSpaces(s: seq<char>, i: nat): (r: nat)
    requires i <= |s|
    ensures i <= r <= |s|
    ensures forall k :: i <= k < r ==> s[k] == ' '
    ensures r < |s| ==> s[r] != ' '
    decreases |s| - i
  {
    if i < |s| && s[i] == ' ' then SkipSpaces(s, i + 1) else i
  }

  /** The tokenizer's flags: the previous character was an unescaped backslash; an odd number of quotes has been seen. */
  datatype ScanState = ScanState(escaping: bool, quoting: bool)

  const Fresh := ScanState(false, false)

  /** The flags after passing over `c` without ending the token. */
  function Step(c: char, st: ScanState): ScanState {
    if st.escaping then ScanState(false, st.quoting)
    else if c == '"' then ScanState(false, !st.quoting)
    else if c == '\\' then ScanState(true, st.quoting)
    else st
  }

  /** The flags on reaching index `j`, having started at `i` with `st`. */
  function StateAt(s: seq<char>, i: nat, st: ScanState, j: nat): ScanState
    requires i <= j <= |s|
    decreases j - i
  {
    if i == j then st else StateAt(s, i + 1, Step(s[i], st), j)
  }

  /** A character that ends the token when met with these flags: a space that is neither escaped nor quoted. */
  predicate EndsToken(c: char, st: ScanState) {
    c == ' ' && !st.escaping && !st.quoting
  }

  /**
   * Scans the first token from index `i` in the given escaping and quoting state.
   * A character after a backslash is taken literally, a double quote toggles
   * quoting, and a space outside quotes ends the token. The result is the first
   * index holding such a space, or `|s|` when the string ends first.
   */
  function ScanToken(s: seq<char>, i: nat, escaping: bool, quoting: bool): (r: nat)
    requires i <= |s|
    ensures i <= r <= |s|
    ensures r < |s| ==> EndsToken(s[r], StateAt(s, i, ScanState(escaping, quoting), r))
    ensures forall j :: i <= j < r ==> !EndsToken(s[j], StateAt(s, i, ScanState(escaping, quoting), j))
    decreases |s| - i
  {
    if i == |s| then i
    else if escaping then ScanToken(s, i + 1, false, quoting)
    else if s[i] == '"' then ScanToken(s, i + 1, false, !quoting)
    else if s[i] == '\\' then ScanToken(s, i + 1, true, quoting)
    else if s[i] == ' ' && !quoting then i
    else ScanToken(s, i + 1, false, quoting)
  }

  /**
   * Where the argument tail of the command line `s` starts: past the leading
   * spaces, the first token and the spaces that follow it. `|s|` stands for
   * the terminator, that is, an empty tail. A non-empty tail lies past a space
   * that ends the first token, and only spaces follow any such space up to it.
   */
  function SkipCommandLineToken(s: seq<char>): (r: nat)
    requires NulFree(s)
    ensures r <= |s|
    ensures r < |s| ==> 0 < r && s[r] != ' ' && s[r - 1] == ' '
    ensures (forall k :: 0 <= k < |s| ==> s[k] == ' ') ==> r == |s|
    ensures r < |s| ==> exists j :: SkipSpaces(s, 0) <= j < r && EndsToken(s[j], StateAt(s, SkipSpaces(s, 0), Fresh, j))
    ensures forall j, k :: SkipSpaces(s, 0) <= j <= k < r && EndsToken(s[j], StateAt(s, SkipSpaces(s, 0), Fresh, j)) ==> s[k] == ' '
  {
    var start := SkipSpaces(s, 0);
    var tokenEnd := ScanToken(s, start, false, false);
    var r := SkipSpaces(s, tokenEnd);
    assert r < |s| ==> tokenEnd < r && EndsToken(s[tokenEnd], StateAt(s, start, Fresh, tokenEnd));
    r
  }

  /** A character that the scan takes as it is: neither a double quote nor a backslash. */
  predicate Plain(c: char) {
    c != '"' && c != '\\'
  }

  /**
   * Plain characters never change the scan's state, and a space among them ends
   * the token only outside quotes: over a stretch of plain characters that holds
   * no space (or is quoted), the scan just moves on.
   */
  lemma {:induction false} ScanPassesPlain(s: seq<char>, i: nat, j: nat, quoting: bool)
    requires i <= j <= |s|
    requires forall k :: i <= k < j ==> Plain(s[k]) && (quoting || s[k] != ' ')
    ensures ScanToken(s, i, false, quoting) == ScanToken(s, j, false, quoting)
    decreases j - i
  {
    if i < j {
      ScanPassesPlain(s, i + 1, j, quoting);
    }
  }

  /**
   * A name without spaces, quotes or backslashes, a single space and a tail that
   * does not start with a space: the tail begins right after that space.
   */
  lemma PlainNameThenTail(name: seq<char>, tail: seq<char>)
    requires name != [] && NulFree(name) && NulFree(tail)
    requires forall k :: 0 <= k < |name| ==> Plain(name[k]) && name[k] != ' '
    requires tail == [] || tail[0] != ' '
    ensures SkipCommandLineToken(name + [' '] + tail) == |name| + 1
    ensures Tail(name + [' '] + tail) == tail
  {
    var s := name + [' '] + tail;
    assert SkipSpaces(s, 0) == 0;
    ScanPassesPlain(s, 0, |name|, false);
    assert ScanToken(s, |name|, false, false) == |name|;
    assert |name| + 1 == |s| || s[|name| + 1] == tail[0];
  }

  /** A quoted first token keeps its inner space: `"a b" c` has the tail `c`. */
  lemma QuotedNameExample()
    ensures Tail("\"a b\" c") == "c"
  {
  }

  /** An escaped quote is taken literally: `a\" b` has the tail `b`. */
  lemma EscapedQuoteExample()
    ensures Tail("a\\\" b") == "b"
  {
  }

  /** An escaped space does not end the token: `a\ b c` has the tail `c`. */
  lemma EscapedSpaceExample()
    ensures Tail("a\\ b c") == "c"
  {
  }

  /** The argument tail: what the watcher passes on to process creation. */
  function Tail(s: seq<char>): (r: seq<char>)
    requires NulFree(s)
    ensures |r| <= |s| && s[|s| - |r|..] == r
    ensures r != [] ==> |r| < |s| && r[0] != ' ' && s[|s| - |r| - 1] == ' '
  {
    s[SkipCommandLineToken(s)..]
  }

  /** A character of the string at index `i`, where reading at or past the end meets the terminator. */
  function CharAt(s: seq<char>, i: nat): char {
    if i < |s| then s[i] else '\0'
  }

  /** The help tokens: `-?`, `-h`, `-H`, `/?`, `/h` and `/H`. */
  const HelpTokens: set<seq<char>> := {"-?", "-h", "-H", "/?", "/h", "/H"}

  /**
   * The usage test of noCrtMain on the argument tail: the tail is empty, or its
   * first character is `-` or `/`, its second is `?`, `h` or `H`, and its third
   * is the terminator.
   */
  predicate UsageRequested(tail: seq<char>) {
    || |tail| == 0
    || ((CharAt(tail, 0) == '-' || CharAt(tail, 0) == '/')
        && (CharAt(tail, 1) == '?' || CharAt(tail, 1) == 'h' || CharAt(tail, 1) == 'H')
        && CharAt(tail, 2) == '\0')
  }

  /** The usage branch is taken exactly for an empty tail or one of the six help tokens, with nothing after it. */
  lemma UsageRequestedIff(tail: seq<char>)
    requires '\0' !in tail
    ensures UsageRequested(tail) <==> tail == [] || tail in HelpTokens
  {
    if UsageRequested(tail) && tail != [] {
      assert |tail| == 2;
      assert tail == [tail[0], tail[1]];
    }
  }

  /** What the Windows watcher does with its command line before any kernel object exists. */
  datatype Start = ShowUsage(text: seq<char>, status: int) | CreateProcess(commandLine: seq<char>)

  const UsageText: seq<char> :=
    "Usage: StartWaitTree.exe PROGRAM [ARGUMENTS...]\r\n\r\n"
    + "Starts a program with the given arguments and waits until it and all its descendants have terminated.\r\n"

  /**
   * The decision at the start of noCrtMain: show the usage text (and exit with
   * status 0) or launch the tail, verbatim, as the child's command line.
   */
  function WindowsStart(fullCommandLine: seq<char>): (r: Start)
    requires NulFree(fullCommandLine)
    ensures r.ShowUsage? <==> UsageRequested(Tail(fullCommandLine))
    ensures r.ShowUsage? ==> r.text == UsageText && r.status == 0
    ensures r.CreateProcess? ==>
      && 0 < |r.commandLine| < |fullCommandLine|
      && r.commandLine[0] != ' '
      && fullCommandLine[|fullCommandLine| - |r.commandLine|..] == r.commandLine
      && fullCommandLine[|fullCommandLine| - |r.commandLine| - 1] == ' '
    ensures r.CreateProcess? ==> r.commandLine == Tail(fullCommandLine)
  {
    var tail := Tail(fullCommandLine);
    if UsageRequested(tail) then ShowUsage(UsageText, 0) else CreateProcess(tail)
  }
}
