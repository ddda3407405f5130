/**
 * The Unix watcher's pure parts, unix/startwaittree.c: NULL-aware string
 * equality, the program name used in messages, the usage test, the child's
 * argument vector and the format of the fatal diagnostic line. `argv` is
 * modelled as `argc` entries, each a string or NULL (`None`).
 */
module UnixFrontEnd {
  import opened Wrappers
  import opened Arithmetic

  /** strcmp(first, second) == 0: compares character by character until one string ends. */
  function StrcmpEqual(first: seq<char>, second: seq<char>): (r: bool)
    ensures r <==> first == second
  {
    if |first| == 0 || |second| == 0 then |first| == |second|
    else first[0] == second[0] && StrcmpEqual(first[1..], second[1..])
  }

  /** str_equal: two NULLs are equal, NULL never equals a string, and two strings compare by content. */
  function StrEqual(first: Option<seq<char>>, second: Option<seq<char>>): (r: bool)
    ensures r <==> first == second
  {
    if first.None? then second.None?
    else if second.None? then false
    else StrcmpEqual(first.value, second.value)
  }

  lemma StrEqualSymmetric(first: Option<seq<char>>, second: Option<seq<char>>)
    ensures StrEqual(first, second) == StrEqual(second, first)
  {
  }

  const DefaultProgramName: seq<char> := "startwaittree"

  /** The name messages start with: `argv[0]` when there is one and it is not NULL. */
  function ProgramName(argv: seq<Option<seq<char>>>): (name: seq<char>)
    ensures |argv| > 0 && argv[0].Some? ==> name == argv[0].value
    ensures (|argv| == 0 || argv[0].None?) ==> name == DefaultProgramName
  {
    if |argv| > 0 && argv[0].Some? then argv[0].value else DefaultProgramName
  }

  /** The usage test of main, evaluated left to right as the C `||` does. */
  predicate UsageRequested(argv: seq<Option<seq<char>>>) {
    |argv| < 2 || argv[1].None? || StrEqual(argv[1], Some("-h")) || StrEqual(argv[1], Some("--help"))
  }

  /** Usage is shown exactly when there is no first argument, it is NULL, or it is `-h` or `--help`. */
  lemma UsageRequestedIff(argv: seq<Option<seq<char>>>)
    ensures UsageRequested(argv) <==>
      |argv| < 2 || argv[1] == None || argv[1] == Some("-h") || argv[1] == Some("--help")
  {
  }

  /**
   * The child's argument vector: `argc` slots holding `argv[1]` to `argv[argc - 1]`
   * followed by the NULL that execvp needs.
   */
  method ChildArguments(argv: seq<Option<seq<char>>>) returns (args: seq<Option<seq<char>>>)
    requires |argv| >= 1
    ensures |args| == |argv|
    ensures forall i :: 0 <= i < |argv| - 1 ==> args[i] == argv[i + 1]
    ensures args[|argv| - 1] == None
  {
    var argCount := |argv| - 1;
    args := [];
    var i := 0;
    while i < argCount
      invariant 0 <= i <= argCount
      invariant |args| == i
      invariant forall k :: 0 <= k < i ==> args[k] == argv[k + 1]
    {
      args := args + [argv[i + 1]];
      i := i + 1;
    }
    args := args + [None];
  }

  /** What main does before any pipe exists. */
  datatype Start =
    | Usage(message: seq<char>, status: int)
    | Exec(program: seq<char>, args: seq<Option<seq<char>>>)

  /**
   * The start of main: print the usage line to the error stream and return 0,
   * or hand the child `argv` without its first entry, the program to run being
   * the first argument, which is then a real string other than `-h` and `--help`.
   */
  method UnixStart(argv: seq<Option<seq<char>>>) returns (start: Start)
    ensures start.Usage? <==> UsageRequested(argv)
    ensures start.Usage? ==>
      start.status == 0 && start.message == "Usage: " + ProgramName(argv) + " PROGRAM [ARGUMENT...]\n"
    ensures start.Exec? ==>
      && argv[1] == Some(start.program)
      && start.program != "-h" && start.program != "--help"
      && start.args == argv[1..] + [None]
  {
    var programName := ProgramName(argv);
    if UsageRequested(argv) {
      return Usage("Usage: " + programName + " PROGRAM [ARGUMENT...]\n", 0);
    }
    var args := ChildArguments(argv);
    assert args == argv[1..] + [None];
    start := Exec(args[0].value, args);
  }

  /** The decimal digits of `n`, most significant first, as printf's `%u` writes them. */
  function NatDigits(n: nat): (r: seq<char>)
    ensures IsDigits(r) && NoLeadingZero(r)
  {
    if n < 10 then [(n + '0' as int) as char]
    else NatDigits(n / 10) + [(n % 10 + '0' as int) as char]
  }

  /** `n` as printf's `%d` writes it: a minus sign for a negative value, then the digits. */
  function FormatDecimal(n: int): (r: seq<char>)
    ensures CanonicalDecimal(r)
  {
    if n < 0 then "-" + NatDigits(-n) else NatDigits(n)
  }

  predicate IsDigits(s: seq<char>) {
    forall k :: 0 <= k < |s| ==> '0' <= s[k] <= '9'
  }

  /** At least one digit, and no zero in front of another digit. */
  predicate NoLeadingZero(s: seq<char>) {
    |s| > 0 && (|s| == 1 || s[0] != '0')
  }

  /** A decimal numeral: an optional minus sign, then at least one digit. */
  predicate IsDecimal(s: seq<char>) {
    |s| > 0 && (s[0] == '-' || '0' <= s[0] <= '9') && IsDigits(s[1..])
  }

  /** The one way `%d` writes a number: no leading zeros, and no `-0`. */
  predicate CanonicalDecimal(s: seq<char>) {
    && IsDecimal(s)
    && (s[0] == '-' ==> NoLeadingZero(s[1..]) && s[1] != '0')
    && (s[0] != '-' ==> NoLeadingZero(s))
  }

  /** Reads decimal digits, most significant first. */
  function ParseNat(s: seq<char>): nat
    requires IsDigits(s)
  {
    if |s| == 0 then 0 else ParseNat(s[..|s| - 1]) * 10 + (s[|s| - 1] as int - '0' as int)
  }

  /** Reads a decimal numeral. */
  function ParseDecimal(s: seq<char>): int
    requires IsDecimal(s)
  {
    if s[0] == '-' then 0 - ParseNat(s[1..]) else ParseNat(s)
  }

  lemma {:induction false} NatDigitsRoundTrip(n: nat)
    ensures ParseNat(NatDigits(n)) == n
  {
    if n >= 10 {
      NatDigitsRoundTrip(n / 10);
      var s := NatDigits(n);
      assert s[..|s| - 1] == NatDigits(n / 10);
    }
  }

  /** The error number printed in the diagnostic line reads back as the error number. */
  lemma FormatDecimalRoundTrip(n: int)
    ensures ParseDecimal(FormatDecimal(n)) == n
  {
    if n < 0 {
      NatDigitsRoundTrip(-n);
      assert FormatDecimal(n)[1..] == NatDigits(-n);
    } else {
      NatDigitsRoundTrip(n);
    }
  }

  lemma {:induction false} ParseNatPositive(s: seq<char>)
    requires IsDigits(s) && |s| > 0 && s[0] != '0'
    ensures ParseNat(s) > 0
    decreases |s|
  {
    if |s| > 1 {
      ParseNatPositive(s[..|s| - 1]);
    }
  }

  /** Digit strings without leading zeros that read as the same number are the same string. */
  lemma {:induction false} ParseNatUnique(a: seq<char>, b: seq<char>)
    requires IsDigits(a) && NoLeadingZero(a)
    requires IsDigits(b) && NoLeadingZero(b)
    requires ParseNat(a) == ParseNat(b)
    ensures a == b
    decreases |a|
  {
    var a', b' := a[..|a| - 1], b[..|b| - 1];
    var da, db := a[|a| - 1] as int - '0' as int, b[|b| - 1] as int - '0' as int;
    DivIsUnique(ParseNat(a), 10, ParseNat(a'), da);
    DivIsUnique(ParseNat(b), 10, ParseNat(b'), db);
    if |a| == 1 && |b| > 1 {
      ParseNatPositive(b');
    } else if |a| > 1 && |b| == 1 {
      ParseNatPositive(a');
    } else if |a| > 1 {
      ParseNatUnique(a', b');
      assert a == a' + [a[|a| - 1]] && b == b' + [b[|b| - 1]];
    }
  }

  /** `%d` is the only canonical numeral of its value: the printed error number is determined by the number. */
  lemma DecimalUnique(d1: seq<char>, d2: seq<char>)
    requires CanonicalDecimal(d1) && CanonicalDecimal(d2)
    requires ParseDecimal(d1) == ParseDecimal(d2)
    ensures d1 == d2
  {
    if d1[0] == '-' {
      ParseNatPositive(d1[1..]);
    }
    if d2[0] == '-' {
      ParseNatPositive(d2[1..]);
    }
    if d1[0] == '-' && d2[0] == '-' {
      ParseNatUnique(d1[1..], d2[1..]);
      assert d1 == [d1[0]] + d1[1..] && d2 == [d2[0]] + d2[1..];
    } else if d1[0] != '-' && d2[0] != '-' {
      ParseNatUnique(d1, d2);
    }
  }

  /** How explode ends the watcher: the text written to the error stream and the exit status. */
  datatype Report = Report(line: seq<char>, status: int)

  predicate NoNewline(s: seq<char>) {
    '\n' !in s
  }

  /**
   * explode: `<program>: <function>: <message>: [<errno>] <strerror(errno)>` and a
   * newline, then exit status 1. When none of the pieces holds a newline, the
   * report is exactly one line. `strerror` is the C library's, left uninterpreted.
   */
  function Explode(programName: seq<char>, func: seq<char>, message: seq<char>, errno: int,
                   strerror: int -> seq<char>): (r: Report)
    ensures r.status == 1
    ensures var head := programName + ": " + func + ": " + message + ": [";
      var tail := "] " + strerror(errno) + "\n";
      && |r.line| > |head| + |tail|
      && r.line[..|head|] == head
      && r.line[|r.line| - |tail|..] == tail
      && CanonicalDecimal(r.line[|head|..|r.line| - |tail|])
      && ParseDecimal(r.line[|head|..|r.line| - |tail|]) == errno
    ensures NoNewline(programName) && NoNewline(func) && NoNewline(message) && NoNewline(strerror(errno)) ==>
      NoNewline(r.line[..|r.line| - 1])
  {
    var head := programName + ": " + func + ": " + message + ": [";
    var number := FormatDecimal(errno);
    var tail := "] " + strerror(errno) + "\n";
    FormatDecimalRoundTrip(errno);
    ThreeParts(head, number, tail);
    NumeralHasNoNewline(number);
    Report(head + number + tail, 1)
  }

  /** The three pieces of a concatenation can be cut out again. */
  lemma ThreeParts(a: seq<char>, b: seq<char>, c: seq<char>)
    requires |c| > 0
    ensures var s := a + b + c;
      && s[..|a|] == a
      && s[|a|..|s| - |c|] == b
      && s[|s| - |c|..] == c
      && s[..|s| - 1] == a + b + c[..|c| - 1]
  {
  }

  lemma NumeralHasNoNewline(d: seq<char>)
    requires IsDecimal(d)
    ensures NoNewline(d)
  {
  }
}
