/**
 * The Windows diagnostic reporter, explode in Windows/StartWaitTree.c: one line
 * `<prefix>: [0x<eight hex digits>] <system message>` on the error stream, then
 * termination with the raw error code as the exit status.
 */
module WindowsReport {
  import opened Wrappers
  import opened CStrings
  import opened WideStrings

  /**
   * What the operating system supplies to explode: whether the process heap and
   * the error stream can be had, the text FormatMessageW produces (`None` when
   * it fails), whether HeapAlloc succeeds, and what the fresh block holds before
   * it is written (HeapAlloc does not clear it).
   */
  datatype Platform = Platform(
    heapAvailable: bool,
    stdErrAvailable: bool,
    systemMessage: Option<seq<char>>,
    allocationSucceeds: bool,
    heapContents: int -> char)

  /** The end of the watcher: its exit status and the line written to the error stream, if any. */
  datatype Exit = Exit(status: DWord, diagnostic: Option<seq<char>>)

  /** The template whose length sizes the fixed part of the line. */
  const HexTemplate: seq<char> := ": [0x0123abcd] "

  /** The number of characters explode allocates for the line, the terminator included. */
  function LineCapacity(prefix: seq<char>, systemMessage: seq<char>): nat {
    |prefix| + |HexTemplate| + |systemMessage| + 1
  }

  /**
   * Reports `err` and exits. Every path exits with `err`. The line is written
   * exactly when every platform call succeeds, and then the buffer sized by
   * LineCapacity is large enough for all five appends, so the line is complete.
   */
  method Explode(err: DWord, prefix: seq<char>, platform: Platform) returns (exit: Exit)
    requires NulFree(prefix)
    requires platform.systemMessage.Some? ==> NulFree(platform.systemMessage.value)
    ensures exit.status == err
    ensures exit.diagnostic.Some? <==>
      && platform.heapAvailable
      && platform.stdErrAvailable
      && platform.systemMessage.Some?
      && platform.allocationSucceeds
    ensures exit.diagnostic.Some? ==>
      exit.diagnostic.value == prefix + ": [0x" + Hex8(err) + "] " + platform.systemMessage.value
  {
    if !platform.heapAvailable || !platform.stdErrAvailable {
      return Exit(err, None);
    }
    if platform.systemMessage.None? {
      return Exit(err, None);
    }
    var message := platform.systemMessage.value;
    var capacity := LineCapacity(prefix, message);
    if !platform.allocationSucceeds {
      return Exit(err, None);
    }
    var buffer := seq(capacity, i => platform.heapContents(i));
    buffer := buffer[0 := NUL];
    assert buffer == [] + [NUL] + buffer[1..];
    BeforeNulOfTerminated([], buffer[1..]);
    var ok: bool;
    ok, buffer := AppendToString(buffer, prefix);
    assert BeforeNul(buffer) == prefix;
    ok, buffer := AppendToString(buffer, ": [0x");
    ghost var text := prefix + ": [0x";
    assert BeforeNul(buffer) == text && |text| == |prefix| + 5;
    ok, buffer := AppendHexToString(buffer, err);
    text := text + Hex8(err);
    assert BeforeNul(buffer) == text && |text| == |prefix| + 13;
    ok, buffer := AppendToString(buffer, "] ");
    text := text + "] ";
    assert BeforeNul(buffer) == text && |text| == |prefix| + 15;
    ok, buffer := AppendToString(buffer, message);
    text := text + message;
    assert BeforeNul(buffer) == text;
    exit := Exit(err, Some(BeforeNul(buffer)));
  }
}
