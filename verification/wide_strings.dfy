/**
 * The bounded string helpers of the Windows watcher, which depends on no C
 * runtime and so brings its own: wideStringLength, appendToString and
 * appendHexToString in Windows/StartWaitTree.c. A destination buffer is modelled
 * by all of its cells; its capacity is the number of cells.
 */
module WideStrings {
  import opened CStrings
  import opened Arithmetic

  /** A Windows DWORD: an unsigned 32-bit value. */
  type DWord = x: nat | x < 0x1_0000_0000

  /** The buffer holds a NUL-terminated string within its capacity. */
  predicate Terminated(cells: seq<char>) {
    NUL in cells
  }

  /** Counts the characters before the terminator, one cell at a time. */
  method WideStringLength(str: seq<char>) returns (count: nat)
    requires Terminated(str)
    ensures count < |str| && str[count] == NUL
    ensures count == |BeforeNul(str)|
  {
    count := 0;
    while str[count] != NUL
      invariant count < |str|
      invariant NUL in str[count..]
      invariant NulFree(str[..count])
      decreases |str| - count
    {
      assert str[count..] == [str[count]] + str[count + 1..];
      count := count + 1;
      assert str[..count] == str[..count - 1] + [str[count - 1]];
    }
    assert str == str[..count] + [NUL] + str[count + 1..];
    BeforeNulOfTerminated(str[..count], str[count + 1..]);
  }

  /**
   * Appends `newTail` to the string held by `appendToMe` when the result and its
   * terminator fit in the buffer. Otherwise reports failure and leaves every cell
   * as it was. Cells past the new terminator are never written.
   */
  method AppendToString(appendToMe: seq<char>, newTail: seq<char>) returns (ok: bool, result: seq<char>)
    requires Terminated(appendToMe)
    requires NulFree(newTail)
    ensures |result| == |appendToMe|
    ensures ok <==> |BeforeNul(appendToMe)| + |newTail| + 1 <= |appendToMe|
    ensures !ok ==> result == appendToMe
    ensures ok ==> Terminated(result) && BeforeNul(result) == BeforeNul(appendToMe) + newTail
    ensures ok ==> forall k :: |BeforeNul(appendToMe)| + |newTail| < k < |appendToMe| ==> result[k] == appendToMe[k]
  {
    var start := WideStringLength(appendToMe);
    if start + |newTail| + 1 > |appendToMe| {
      return false, appendToMe;
    }
    result := appendToMe;
    var i := 0;
    while i < |newTail|
      invariant 0 <= i <= |newTail|
      invariant |result| == |appendToMe|
      invariant forall k :: 0 <= k < |result| ==>
        result[k] == (if start <= k < start + i then newTail[k - start] else appendToMe[k])
    {
      result := result[start + i := newTail[i]];
      i := i + 1;
    }
    result := result[start + |newTail| := NUL];
    ok := true;
    var text := appendToMe[..start] + newTail;
    assert result == text + [NUL] + appendToMe[start + |newTail| + 1..];
    BeforeNulOfTerminated(text, appendToMe[start + |newTail| + 1..]);
  }

  /** Nibble `k` of `x`, counted from the least significant: `(x >> (4 * k)) & 0xF`. */
  function Nibble(x: nat, k: nat): (r: nat)
    ensures r < 16
  {
    x / Power(16, k) % 16
  }

  /** The lowercase hexadecimal digit for a nibble. */
  function HexChar(nibble: nat): (c: char)
    requires nibble < 16
    ensures IsLowerHexDigit(c) && DigitValue(c) == nibble
  {
    if nibble < 10 then (nibble + '0' as int) as char else (nibble - 10 + 'a' as int) as char
  }

  predicate IsLowerHexDigit(c: char) {
    '0' <= c <= '9' || 'a' <= c <= 'f'
  }

  /** The value of a lowercase hexadecimal digit. */
  function DigitValue(c: char): (v: nat)
    requires IsLowerHexDigit(c)
    ensures v < 16
  {
    if c <= '9' then c as int - '0' as int else c as int - 'a' as int + 10
  }

  /** The first `n` nibbles of `x`, most significant first. */
  function HexDigits(x: nat, n: nat): seq<char> {
    seq(n, i requires 0 <= i < n => HexChar(Nibble(x, n - 1 - i)))
  }

  /** The eight digits appendHexToString writes for a DWORD: lowercase hexadecimal, reading back as the DWORD. */
  function Hex8(x: DWord): (r: seq<char>)
    ensures |r| == 8
    ensures forall k :: 0 <= k < 8 ==> IsLowerHexDigit(r[k])
    ensures HexValue(r) == x
  {
    assert Power(16, 8) == 0x1_0000_0000;
    HexDigitsDecode(x, 8);
    HexDigits(x, 8)
  }

  /** Reads a string of lowercase hexadecimal digits, most significant first. */
  function HexValue(s: seq<char>): nat
    requires forall k :: 0 <= k < |s| ==> IsLowerHexDigit(s[k])
  {
    if |s| == 0 then 0 else HexValue(s[..|s| - 1]) * 16 + DigitValue(s[|s| - 1])
  }

  /** Division by a product is division by its factors in turn. */
  lemma DivBySixteenThen(x: nat, p: nat)
    requires p > 0
    ensures x / (16 * p) == (x / 16) / p
  {
    var q := x / 16;
    var q2 := q / p;
    var r2 := q % p;
    assert q == p * q2 + r2;
    assert x == 16 * q + x % 16;
    assert x == (16 * p) * q2 + (16 * r2 + x % 16);
    assert 16 * r2 + x % 16 < 16 * p;
    DivIsUnique(x, 16 * p, q2, 16 * r2 + x % 16);
  }

  lemma {:induction false} HexDigitsDecode(x: nat, n: nat)
    requires x < Power(16, n)
    ensures forall k :: 0 <= k < n ==> IsLowerHexDigit(HexDigits(x, n)[k])
    ensures HexValue(HexDigits(x, n)) == x
  {
    var s := HexDigits(x, n);
    if n > 0 {
      var rest := HexDigits(x / 16, n - 1);
      HexDigitsDecode(x / 16, n - 1);
      forall i | 0 <= i < n - 1
        ensures s[i] == rest[i]
      {
        var p := Power(16, n - 2 - i);
        assert Power(16, n - 1 - i) == 16 * p;
        DivBySixteenThen(x, p);
        assert Nibble(x, n - 1 - i) == Nibble(x / 16, n - 2 - i);
      }
      assert s[..n - 1] == rest;
      assert s[n - 1] == HexChar(Nibble(x, 0));
    }
  }

  /**
   * Appends the eight hexadecimal digits of `appendAsHex`, most significant
   * nibble first, when they and the terminator fit in the buffer. Otherwise
   * reports failure and leaves every cell as it was.
   */
  method AppendHexToString(appendToMe: seq<char>, appendAsHex: DWord) returns (ok: bool, result: seq<char>)
    requires Terminated(appendToMe)
    ensures |result| == |appendToMe|
    ensures ok <==> |BeforeNul(appendToMe)| + 9 <= |appendToMe|
    ensures !ok ==> result == appendToMe
    ensures ok ==> Terminated(result) && BeforeNul(result) == BeforeNul(appendToMe) + Hex8(appendAsHex)
    ensures ok ==> forall k :: |BeforeNul(appendToMe)| + 8 < k < |appendToMe| ==> result[k] == appendToMe[k]
  {
    var start := WideStringLength(appendToMe);
    if start + 9 > |appendToMe| {
      return false, appendToMe;
    }
    result := appendToMe;
    var digits := Hex8(appendAsHex);
    for i := 0 to 8
      invariant |result| == |appendToMe|
      invariant forall k :: 0 <= k < |result| ==>
        result[k] == (if start <= k < start + i then digits[k - start] else appendToMe[k])
    {
      var nibble := Nibble(appendAsHex, 7 - i);
      result := result[start + i := HexChar(nibble)];
    }
    result := result[start + 8 := NUL];
    ok := true;
    assert NulFree(digits);
    var text := appendToMe[..start] + digits;
    assert result == text + [NUL] + appendToMe[start + 9..];
    BeforeNulOfTerminated(text, appendToMe[start + 9..]);
  }
}
