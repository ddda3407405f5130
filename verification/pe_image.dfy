/**
 * The executable patch of the Windows 2000 build script, AddPeDllCharacteristics
 * in Windows/specialbuild/BuildI386W2k.cs, modelled as a transformation of the
 * file's bytes. The layout follows the Microsoft PE/COFF specification: the
 * 32-bit file offset of the PE signature sits at 0x3C of the MS-DOS stub
 * (section 3.1), SizeOfOptionalHeader sits 20 bytes into the 24-byte signature
 * and COFF file header (section 3.3), and DllCharacteristics sits 70 bytes into
 * the optional header (section 3.4.2). All fields are little-endian.
 */
module PeImage {
  import opened Wrappers
  import opened Arithmetic
  import opened Bits

  /** A byte of the file. */
  type byte = x: int | 0 <= x < 0x100

  /** A C# `ushort`. */
  type U16 = x: int | 0 <= x < 0x1_0000

  const MzPeHeaderOffset: int := 0x3C
  const PeHeaderLength: int := 24
  const PeOptHeaderLengthOffset: int := 20
  const OptDllCharOffset: int := 70

  /** The flags the build adds: IMAGE_DLLCHARACTERISTICS_HIGH_ENTROPY_VA and _DYNAMIC_BASE. */
  const DllCharHighEntropyVa: U16 := 0x0020
  const DllCharDynamicBase: U16 := 0x0040

  /** What the build passes to the patch for both executables: `DLL_CH_DYNAMIC_BASE | DLL_CH_HIGH_ENTROPY_VA`. */
  const BuildFlags: U16 := Or16(DllCharDynamicBase, DllCharHighEntropyVa)

  /** The exceptions the patch can end in: a seek before the start of the file, or a read past its end. */
  datatype PeError = SeekBeforeBegin | EndOfStream

  /** A little-endian 16-bit field: `bs[0] << 0 | bs[1] << 8`. */
  function DecodeU16(lo: byte, hi: byte): (r: U16)
    ensures r % 0x100 == lo && r / 0x100 == hi
  {
    lo + 0x100 * hi
  }

  /** The two bytes written for a 16-bit value: `(v >> 0) & 0xFF`, then `(v >> 8) & 0xFF`. They read back as `v`. */
  function EncodeU16(v: U16): (r: seq<byte>)
    ensures |r| == 2
    ensures DecodeU16(r[0], r[1]) == v
  {
    [v % 0x100, v / 0x100]
  }

  lemma U16BytesRoundTrip(lo: byte, hi: byte)
    ensures EncodeU16(DecodeU16(lo, hi)) == [lo, hi]
  {
  }

  /** `ushort | ushort`: a bit of the result is set exactly when it is set in either operand. */
  function Or16(a: U16, b: U16): (r: U16)
    ensures forall k: nat :: Bit(r, k) <==> Bit(a, k) || Bit(b, k)
  {
    PowerTwoSixteen();
    BitOrBounded(a, b, 16);
    BitOr(a, b)
  }

  /** A little-endian 32-bit field, as an unsigned value. */
  function DecodeU32(bs: seq<byte>): (r: nat)
    requires |bs| == 4
    ensures r < 0x1_0000_0000
    ensures EncodeU32(r) == bs
  {
    var b0, b1, b2, b3: int := bs[0], bs[1], bs[2], bs[3];
    var r := b0 + 0x100 * b1 + 0x1_0000 * b2 + 0x100_0000 * b3;
    DivIsUnique(r, 0x100, b1 + 0x100 * b2 + 0x1_0000 * b3, b0);
    DivIsUnique(r / 0x100, 0x100, b2 + 0x100 * b3, b1);
    DivIsUnique(r / 0x100 / 0x100, 0x100, b3, b2);
    r
  }

  /** The four little-endian bytes of an unsigned 32-bit value: `(v >> 8 * i) & 0xFF` for i = 0 to 3. */
  function EncodeU32(v: nat): (r: seq<byte>)
    requires v < 0x1_0000_0000
    ensures |r| == 4
  {
    [v % 0x100, v / 0x100 % 0x100, v / 0x100 / 0x100 % 0x100, v / 0x100 / 0x100 / 0x100]
  }

  lemma U32RoundTrip(v: nat)
    requires v < 0x1_0000_0000
    ensures DecodeU32(EncodeU32(v)) == v
  {
    var q1 := v / 0x100;
    var q2 := q1 / 0x100;
    var q3 := q2 / 0x100;
    assert v == 0x100 * q1 + v % 0x100;
    assert q1 == 0x100 * q2 + q1 % 0x100;
    assert q2 == 0x100 * q3 + q2 % 0x100;
  }

  /** `unchecked((int)u)`: the 32-bit pattern read as a two's-complement value. */
  function ToInt32(u: nat): (r: int)
    requires u < 0x1_0000_0000
    ensures -0x8000_0000 <= r < 0x8000_0000
    ensures (r - u) % 0x1_0000_0000 == 0
  {
    if u < 0x8000_0000 then u else u - 0x1_0000_0000
  }

  /**
   * The sum of two C# `int`s, which wraps around in an unchecked context: the
   * value in the 32-bit range that agrees with `x` modulo 2^32.
   */
  function WrapInt32(x: int): (r: int)
    requires -0x1_0000_0000 <= x < 0x1_0000_0000
    ensures -0x8000_0000 <= r < 0x8000_0000
    ensures (r - x) % 0x1_0000_0000 == 0
  {
    if x >= 0x8000_0000 then x - 0x1_0000_0000
    else if x < -0x8000_0000 then x + 0x1_0000_0000
    else x
  }

  /** Seek to `pos` and ReadExact `count` bytes. */
  function ReadAt(file: seq<byte>, pos: int, count: nat): (r: Result<seq<byte>, PeError>)
    ensures r.Success? <==> 0 <= pos && pos + count <= |file|
    ensures r.Success? ==> r.value == file[pos..pos + count]
    ensures pos < 0 ==> r == Failure(SeekBeforeBegin)
    ensures 0 <= pos && pos + count > |file| ==> r == Failure(EndOfStream)
  {
    if pos < 0 then Failure(SeekBeforeBegin)
    else if pos + count > |file| then Failure(EndOfStream)
    else Success(file[pos..pos + count])
  }

  /** Where the patch writes: nowhere, when the optional header is too short, or at a file offset. */
  datatype DllCharSite = NoRoom | At(offset: nat)

  /** The signed location of the PE header named by the pointer at 0x3C. */
  function PeHeaderLocation(file: seq<byte>): int
    requires |file| >= MzPeHeaderOffset + 4
  {
    ToInt32(DecodeU32(file[MzPeHeaderOffset..MzPeHeaderOffset + 4]))
  }

  /** Where DllCharacteristics lies: 70 bytes into the optional header, which follows the 24-byte PE header. */
  function DllCharOffset(file: seq<byte>): int
    requires |file| >= MzPeHeaderOffset + 4
  {
    PeHeaderLocation(file) + PeHeaderLength + OptDllCharOffset
  }

  /**
   * The file has a DllCharacteristics field to patch: SizeOfOptionalHeader,
   * 20 bytes into the PE header (74 bytes before the field), lies inside the
   * file and is at least 72, both bytes of the field lie inside the file, and
   * the offsets are computed without leaving the range of a C# `int`.
   */
  predicate HasDllCharSite(file: seq<byte>) {
    && |file| >= MzPeHeaderOffset + 4
    && var p := DllCharOffset(file);
    && 74 <= p < 0x8000_0000 && p + 2 <= |file|
    && DecodeU16(file[p - 74], file[p - 73]) >= OptDllCharOffset + 2
  }

  /**
   * The optional header cannot hold the field: SizeOfOptionalHeader, 20 bytes
   * into the PE header, lies inside the file at an offset a C# `int` reaches,
   * and is below 72.
   */
  predicate ShortOptionalHeader(file: seq<byte>) {
    && |file| >= MzPeHeaderOffset + 4
    && var lengthAt := PeHeaderLocation(file) + PeOptHeaderLengthOffset;
    && 0 <= lengthAt < 0x8000_0000 && lengthAt + 2 <= |file|
    && DecodeU16(file[lengthAt], file[lengthAt + 1]) < OptDllCharOffset + 2
  }

  /**
   * A seek of the patch goes before the start of the file: the offset of
   * SizeOfOptionalHeader, or (when that length is read and is at least 72) the
   * offset of the field, leaves the range of a C# `int` and so wraps to a
   * negative value.
   */
  predicate NegativeSeek(file: seq<byte>) {
    && |file| >= MzPeHeaderOffset + 4
    && var location := PeHeaderLocation(file);
    && var lengthAt := location + PeOptHeaderLengthOffset;
    && var fieldAt := location + PeHeaderLength + OptDllCharOffset;
    && (|| !(0 <= lengthAt < 0x8000_0000)
        || (&& lengthAt + 2 <= |file|
            && DecodeU16(file[lengthAt], file[lengthAt + 1]) >= OptDllCharOffset + 2
            && !(0 <= fieldAt < 0x8000_0000)))
  }

  /** The reads of AddPeDllCharacteristics: the header pointer, the optional header's length, the current flags. */
  function LocateDllCharacteristics(file: seq<byte>): (r: Result<DllCharSite, PeError>)
    ensures |file| < MzPeHeaderOffset + 4 ==> r == Failure(EndOfStream)
    ensures r.Success? && r.value.At? <==> HasDllCharSite(file)
    ensures r.Success? && r.value.At? ==> r.value.offset == DllCharOffset(file)
    ensures r == Success(NoRoom) <==> ShortOptionalHeader(file)
    ensures r.Failure? ==> (r.error == SeekBeforeBegin <==> NegativeSeek(file))
  {
    var pointer :- ReadAt(file, MzPeHeaderOffset, 4);
    var peHeaderLocation := ToInt32(DecodeU32(pointer));
    OffsetsWrap(peHeaderLocation);
    var lengthBytes :- ReadAt(file, WrapInt32(peHeaderLocation + PeOptHeaderLengthOffset), 2);
    var optHeaderLength := DecodeU16(lengthBytes[0], lengthBytes[1]);
    if optHeaderLength < OptDllCharOffset + 2 then Success(NoRoom)
    else
      var offset := WrapInt32(WrapInt32(peHeaderLocation + PeHeaderLength) + OptDllCharOffset);
      var current :- ReadAt(file, offset, 2);
      Success(At(offset))
  }

  /** A wrapped offset that is not negative is the plain sum. */
  lemma OffsetsWrap(location: int)
    requires -0x8000_0000 <= location < 0x8000_0000
    ensures WrapInt32(location + PeOptHeaderLengthOffset) >= 0 ==>
      WrapInt32(location + PeOptHeaderLengthOffset) == location + PeOptHeaderLengthOffset
    ensures WrapInt32(WrapInt32(location + PeHeaderLength) + OptDllCharOffset) >= 0 ==>
      WrapInt32(WrapInt32(location + PeHeaderLength) + OptDllCharOffset) == location + PeHeaderLength + OptDllCharOffset
    ensures location + PeHeaderLength + OptDllCharOffset < 0x8000_0000 ==>
      WrapInt32(WrapInt32(location + PeHeaderLength) + OptDllCharOffset) == location + PeHeaderLength + OptDllCharOffset
    ensures WrapInt32(location + PeOptHeaderLengthOffset) < 0 <==>
      !(0 <= location + PeOptHeaderLengthOffset < 0x8000_0000)
    ensures WrapInt32(WrapInt32(location + PeHeaderLength) + OptDllCharOffset) < 0 <==>
      !(0 <= location + PeHeaderLength + OptDllCharOffset < 0x8000_0000)
  {
  }

  /**
   * Sets the flags `add` in the DllCharacteristics field. A file whose optional
   * header is too short comes back unchanged; a failed seek or read yields the
   * error and no bytes at all; otherwise exactly the two bytes of the field change.
   */
  function AddPeDllCharacteristics(file: seq<byte>, add: U16): (r: Result<seq<byte>, PeError>)
    ensures LocateDllCharacteristics(file).Failure? ==> r == Failure(LocateDllCharacteristics(file).error)
    ensures LocateDllCharacteristics(file) == Success(NoRoom) ==> r == Success(file)
    ensures LocateDllCharacteristics(file).Success? && LocateDllCharacteristics(file).value.At? ==>
      var p := LocateDllCharacteristics(file).value.offset;
      && r.Success?
      && |r.value| == |file|
      && (forall i :: 0 <= i < |file| && i != p && i != p + 1 ==> r.value[i] == file[i])
      && DecodeU16(r.value[p], r.value[p + 1]) == Or16(DecodeU16(file[p], file[p + 1]), add)
  {
    var site :- LocateDllCharacteristics(file);
    match site
    case NoRoom => Success(file)
    case At(p) =>
      var characteristics := Or16(DecodeU16(file[p], file[p + 1]), add);
      Success(file[..p] + EncodeU16(characteristics) + file[p + 2..])
  }

  /** Flags already set stay set, every flag of `add` ends up set, and no other flag appears. */
  lemma AddPeDllCharacteristicsKeepsFlags(file: seq<byte>, add: U16)
    requires LocateDllCharacteristics(file).Success? && LocateDllCharacteristics(file).value.At?
    ensures var p := LocateDllCharacteristics(file).value.offset;
      var after := AddPeDllCharacteristics(file, add).value;
      var before := DecodeU16(file[p], file[p + 1]);
      && HasFlags(DecodeU16(after[p], after[p + 1]), before)
      && HasFlags(DecodeU16(after[p], after[p + 1]), add)
      && forall k: nat :: Bit(DecodeU16(after[p], after[p + 1]), k) ==> Bit(before, k) || Bit(add, k)
  {
  }

  /** A file whose optional header is too short for the field comes back unchanged. */
  lemma AddPeDllCharacteristicsShortHeader(file: seq<byte>, add: U16)
    requires ShortOptionalHeader(file)
    ensures AddPeDllCharacteristics(file, add) == Success(file)
  {
  }

  /** The reads that find the field see the same bytes in a file that differs only in the field itself. */
  lemma LocateIgnoresField(file: seq<byte>, other: seq<byte>, p: nat)
    requires LocateDllCharacteristics(file) == Success(At(p))
    requires |other| == |file|
    requires other[..p] == file[..p]
    ensures LocateDllCharacteristics(other) == Success(At(p))
  {
    assert HasDllCharSite(file) && p == DllCharOffset(file);
    SameHeader(file, other, p);
  }

  /** Files that agree before the field agree on whether, and where, the field is. */
  lemma SameHeader(file: seq<byte>, other: seq<byte>, p: nat)
    requires HasDllCharSite(file) && p == DllCharOffset(file)
    requires |other| == |file|
    requires other[..p] == file[..p]
    ensures HasDllCharSite(other) && DllCharOffset(other) == p
  {
    assert other[MzPeHeaderOffset..MzPeHeaderOffset + 4] == file[MzPeHeaderOffset..MzPeHeaderOffset + 4] by {
      assert other[..p][MzPeHeaderOffset..MzPeHeaderOffset + 4] == other[MzPeHeaderOffset..MzPeHeaderOffset + 4];
      assert file[..p][MzPeHeaderOffset..MzPeHeaderOffset + 4] == file[MzPeHeaderOffset..MzPeHeaderOffset + 4];
    }
    assert other[p - 74] == other[..p][p - 74];
    assert other[p - 73] == other[..p][p - 73];
  }

  /** The patched file when the field is at `p`. */
  lemma AddPeDllCharacteristicsAt(file: seq<byte>, add: U16, p: nat)
    requires LocateDllCharacteristics(file) == Success(At(p))
    ensures AddPeDllCharacteristics(file, add) ==
      Success(file[..p] + EncodeU16(Or16(DecodeU16(file[p], file[p + 1]), add)) + file[p + 2..])
  {
  }

  /** Patching a patched file changes nothing more. */
  lemma AddPeDllCharacteristicsIdempotent(file: seq<byte>, add: U16)
    requires LocateDllCharacteristics(file).Success?
    ensures AddPeDllCharacteristics(file, add).Success?
    ensures AddPeDllCharacteristics(AddPeDllCharacteristics(file, add).value, add) == AddPeDllCharacteristics(file, add)
  {
    var site := LocateDllCharacteristics(file).value;
    if site.At? {
      var p := site.offset;
      var c := Or16(DecodeU16(file[p], file[p + 1]), add);
      AddPeDllCharacteristicsAt(file, add, p);
      var patched := file[..p] + EncodeU16(c) + file[p + 2..];
      assert patched[..p] == file[..p];
      LocateIgnoresField(file, patched, p);
      AddPeDllCharacteristicsAt(patched, add, p);
      assert patched[p] == EncodeU16(c)[0] && patched[p + 1] == EncodeU16(c)[1];
      SameBitsSameValue(Or16(c, add), c);
      assert patched[..p] + EncodeU16(c) + patched[p + 2..] == patched;
    }
  }

  /** The build's flags are bits 5 and 6, and no other. */
  lemma BuildFlagsBits()
    ensures forall k: nat :: Bit(BuildFlags, k) <==> k == 5 || k == 6
  {
    assert DllCharHighEntropyVa == Power(2, 5) by {
      assert Power(2, 4) == 16;
    }
    assert DllCharDynamicBase == Power(2, 6) by {
      assert Power(2, 4) == 16;
    }
    forall k: nat
      ensures Bit(BuildFlags, k) <==> k == 5 || k == 6
    {
      PowerOfTwoBit(5, k);
      PowerOfTwoBit(6, k);
    }
  }

  /**
   * The build's patch of an executable with room for the field: bits 5 and 6
   * of DllCharacteristics end up set and every other bit keeps its value.
   */
  lemma BuildPatchSetsAslrFlags(file: seq<byte>)
    requires LocateDllCharacteristics(file).Success? && LocateDllCharacteristics(file).value.At?
    ensures var p := LocateDllCharacteristics(file).value.offset;
      var after := AddPeDllCharacteristics(file, BuildFlags).value;
      var before := DecodeU16(file[p], file[p + 1]);
      var field := DecodeU16(after[p], after[p + 1]);
      && Bit(field, 5) && Bit(field, 6)
      && forall k: nat :: k != 5 && k != 6 ==> (Bit(field, k) <==> Bit(before, k))
  {
    BuildFlagsBits();
    AddPeDllCharacteristicsKeepsFlags(file, BuildFlags);
  }
}
