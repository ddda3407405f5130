# StartWaitTree — a Dafny model of its pure core

StartWaitTree launches a program and waits until that program and every process it
spawns, transitively, have exited. The waiting itself is done by the operating
system: a job object and an I/O completion port on Windows, an inherited pipe whose
last write end closes on Unix. That part is not modelled here. What is modelled is
the sequential logic around it:

- the Windows command-line tokenizer `skipCommandLineToken`, which finds where the
  watcher's own name ends and the argument tail (passed on verbatim) begins, and the
  usage test on that tail (`CommandLine`);
- the Windows watcher's own bounded string helpers `wideStringLength`,
  `appendToString` and `appendHexToString` (`WideStrings`), and the diagnostic line
  `explode` composes from them before exiting with the raw error code
  (`WindowsReport`);
- the Unix watcher's NULL-aware `str_equal`, its program-name fallback, its usage
  test, the child's argument vector and the format of its fatal diagnostic line
  (`UnixFrontEnd`);
- the build script for Windows 2000: `QuoteString` and the NUL truncation in
  `GetProgramFilesX86` (`BuildScript`), and the DllCharacteristics patch
  `AddPeDllCharacteristics` as a transformation of the executable's bytes
  (`PeImage`, with bitwise OR in `Bits` and powers and division in `Arithmetic`);
- a cross-file property: a name quoted as the build script's `QuoteString` quotes
  it would be read back as exactly one token by the watcher's tokenizer
  (`QuotedCommandLine`). The build script itself never launches the watcher; it
  quotes paths for a resource file and for `rc.exe`, `cl.exe` and `link.exe`.

C strings are modelled by their content, the characters before the terminating NUL,
so the end of a sequence stands for the terminator (`CStrings`). A character buffer
of fixed capacity is modelled by all of its cells, NULs included, and the string it
holds is `CStrings.BeforeNul` of the cells. A DWORD is a `nat` below 2^32; a C#
`int` sum wraps around explicitly (`PeImage.WrapInt32`). The PE layout follows the
Microsoft PE/COFF specification: the pointer to the PE header at offset 0x3C
(section 3.1), SizeOfOptionalHeader 20 bytes into the PE header (section 3.3) and
DllCharacteristics 70 bytes into the optional header (section 3.4.2).

The Unix watcher prints its usage line to the error stream and writes the error
number in decimal. The Windows watcher writes eight hexadecimal digits after `0x`.

## Model

| member | source | states |
|---|---|---|
| CStrings.BeforeNul | Windows/StartWaitTree.c:84-93 | the string a buffer holds is a prefix of it, contains no NUL, and is followed by a NUL unless it is the whole buffer |
| CStrings.BeforeNulOfTerminated | Windows/StartWaitTree.c:128-129 | writing a NUL right after a NUL-free text makes the buffer hold exactly that text, whatever follows |
| CommandLine.SkipSpaces | Windows/StartWaitTree.c:34-38 | the scan stops at the first non-space at or after the start (or at the terminator), having passed only spaces |
| CommandLine.ScanToken | Windows/StartWaitTree.c:40-70 | the token ends at the first space met while neither escaping nor quoting, the flags evolving character by character as a backslash and a double quote set them (`StateAt`); with no such space it runs to the terminator |
| CommandLine.SkipCommandLineToken | Windows/StartWaitTree.c:28-79 | a non-empty tail starts with a non-space right after a space; it lies past a space that ends the first token (one neither escaped nor quoted, counted from the first non-space), and only spaces stand between any such space and the tail; a line without one, or all spaces, has an empty tail |
| CommandLine.Tail | Windows/StartWaitTree.c:285 | the tail is a suffix of the command line that, when not empty, starts with a non-space right after a space |
| CommandLine.ScanPassesPlain | Windows/StartWaitTree.c:50-68 | characters other than quote and backslash never change the scan state, and a space among them ends the token only outside quotes |
| CommandLine.PlainNameThenTail | Windows/StartWaitTree.c:28-79 | for a non-empty name without spaces, quotes or backslashes, `name + " " + tail` yields exactly `tail` when the tail does not start with a space |
| CommandLine.QuotedNameExample | Windows/StartWaitTree.c:55-59 | the quoted line `"a b" c` has the tail `c`: the space inside quotes does not end the token |
| CommandLine.EscapedQuoteExample | Windows/StartWaitTree.c:50-64 | in `a\" b` the escaped quote does not start quoting, so the tail is `b` |
| CommandLine.EscapedSpaceExample | Windows/StartWaitTree.c:50-68 | in `a\ b c` the escaped space does not end the token, so the tail is `c` |
| CommandLine.UsageRequested | Windows/StartWaitTree.c:293-308 | the usage test on the tail as the code reads it: empty, or `-`/`/` then `?`/`h`/`H` then the terminator |
| CommandLine.UsageRequestedIff | Windows/StartWaitTree.c:293-308 | the usage branch is taken exactly when the tail is empty or is one of `-?`, `-h`, `-H`, `/?`, `/h`, `/H` with nothing after it |
| CommandLine.WindowsStart | Windows/StartWaitTree.c:284-320 | usage, with exit status 0, is shown exactly when the usage test holds on the tail; otherwise the command line handed to process creation (line 364) is exactly the tail, a non-empty suffix starting with a non-space right after a space |
| WideStrings.WideStringLength | Windows/StartWaitTree.c:84-93 | the count is the index of the first NUL, which is the length of the string the buffer holds |
| WideStrings.AppendToString | Windows/StartWaitTree.c:113-132 | succeeds exactly when old length + tail length + 1 fits the capacity; then the buffer holds old text + tail and cells past the new terminator are untouched; on failure nothing changes |
| WideStrings.HexChar | Windows/StartWaitTree.c:147-155 | each nibble becomes a lowercase hexadecimal digit whose value is that nibble |
| WideStrings.Hex8 | Windows/StartWaitTree.c:145-156 | the eight digits, most significant nibble first, are lowercase hexadecimal and read back as the 32-bit input |
| WideStrings.AppendHexToString | Windows/StartWaitTree.c:134-159 | succeeds exactly when old length + 9 fits the capacity; then the buffer holds old text + the eight digits, cells past the new terminator untouched; on failure nothing changes |
| WindowsReport.Explode | Windows/StartWaitTree.c:164-221 | every path exits with `err`; a line is written exactly when heap, error stream, message text and allocation are all available, and the computed capacity makes it exactly `prefix: [0x` + eight digits + `] ` + system message |
| UnixFrontEnd.StrcmpEqual | unix/startwaittree.c:22 | the character-by-character comparison reports equality exactly when the two strings are equal |
| UnixFrontEnd.StrEqual | unix/startwaittree.c:12-23 | true exactly when both are NULL or both are strings with the same content; NULL never equals a string |
| UnixFrontEnd.StrEqualSymmetric | unix/startwaittree.c:12-23 | the comparison gives the same answer with its arguments swapped |
| UnixFrontEnd.ProgramName | unix/startwaittree.c:42-45 | the name is `argv[0]` when there is one and it is not NULL, otherwise `startwaittree` |
| UnixFrontEnd.UsageRequested | unix/startwaittree.c:47-48 | the usage test of main: fewer than two arguments, a NULL first argument, `-h` or `--help` |
| UnixFrontEnd.UsageRequestedIff | unix/startwaittree.c:47-52 | usage is shown exactly when there is no first argument, it is NULL, or it is `-h` or `--help` |
| UnixFrontEnd.ChildArguments | unix/startwaittree.c:77-89 | the child's vector has `argc` slots: slot i holds `argv[i+1]` and the last slot is NULL |
| UnixFrontEnd.UnixStart | unix/startwaittree.c:42-92 | usage (with status 0 and the program name in the text) exactly when the usage test holds; otherwise the program run is the non-NULL first argument and the child's vector is `argv` without its first entry, then NULL |
| UnixFrontEnd.NatDigits | unix/startwaittree.c:35 | a non-negative number is written as decimal digits with no leading zero |
| UnixFrontEnd.FormatDecimal | unix/startwaittree.c:35 | `%d` writes a canonical numeral: an optional minus sign, then digits without a leading zero, never `-0` |
| UnixFrontEnd.FormatDecimalRoundTrip | unix/startwaittree.c:35 | the printed error number reads back as the error number |
| UnixFrontEnd.ParseNatUnique | unix/startwaittree.c:35 | digit strings without leading zeros that read as the same number are equal |
| UnixFrontEnd.DecimalUnique | unix/startwaittree.c:35 | two canonical numerals with the same value are the same text, so the printed error number is fixed by its value |
| UnixFrontEnd.Explode | unix/startwaittree.c:25-38 | the exit status is always 1; the report is `program: function: message: [` + a canonical decimal numeral reading back as errno + `] ` + strerror(errno) + newline, and is a single line when none of its parts holds a newline |
| BuildScript.Escape | Windows/specialbuild/BuildI386W2k.cs:231-238 | the escaped body is as long as the input plus one backslash per `"` or `\` |
| BuildScript.EscapeOne | Windows/specialbuild/BuildI386W2k.cs:233-237 | one character is copied, with a backslash right before it exactly when it is `"` or `\` |
| BuildScript.EscapeAppend | Windows/specialbuild/BuildI386W2k.cs:231-238 | characters are escaped one at a time and in order: escaping a concatenation concatenates the escapes |
| BuildScript.UnescapeEscape | Windows/specialbuild/BuildI386W2k.cs:231-238 | removing the inserted backslashes gives back the original string |
| BuildScript.QuoteString | Windows/specialbuild/BuildI386W2k.cs:227-241 | the result is `"`, the escaped body, `"`; its length is input + 2 + the number of `"` and `\`, and its interior unescapes to the input |
| BuildScript.TruncateAtNul | Windows/specialbuild/BuildI386W2k.cs:216-224 | the path is the prefix of the buffer before its first NUL, or the whole buffer when there is none |
| QuotedCommandLine.ScanPassesEscaped | Windows/StartWaitTree.c:50-68 | inside quotes, the scan passes over a text escaped as QuoteString escapes it and ends still quoting and not escaping |
| QuotedCommandLine.QuotedNameThenTail | Windows/specialbuild/BuildI386W2k.cs:227-241 | for any string x, the watcher's tokenizer on `QuoteString(x) + " " + tail` yields exactly `tail` when the tail does not start with a space |
| Bits.BitOrBounded | Windows/specialbuild/BuildI386W2k.cs:122 | OR of two 16-bit values is a 16-bit value |
| Bits.BitOr | Windows/specialbuild/BuildI386W2k.cs:122 | a bit of `a | b` is set exactly when it is set in `a` or in `b` |
| Bits.SameBitsSameValue | Windows/specialbuild/BuildI386W2k.cs:122 | a value is determined by its bits, so `|` has exactly one result |
| Bits.PowerOfTwoBit | Windows/specialbuild/BuildI386W2k.cs:122 | `1 << j` has bit j set and no other |
| PeImage.DecodeU16 | Windows/specialbuild/BuildI386W2k.cs:101-104 | two little-endian bytes form the value whose low byte is the first and high byte the second |
| PeImage.EncodeU16 | Windows/specialbuild/BuildI386W2k.cs:126-127 | a 16-bit value is written as two bytes that read back as the value |
| PeImage.U16BytesRoundTrip | Windows/specialbuild/BuildI386W2k.cs:116-127 | reading two bytes as a little-endian value and writing it back gives the same two bytes |
| PeImage.DecodeU32 | Windows/specialbuild/BuildI386W2k.cs:91-96 | the four little-endian bytes at 0x3C form an unsigned 32-bit value whose bytes, least significant first, are exactly the ones read |
| PeImage.U32RoundTrip | Windows/specialbuild/BuildI386W2k.cs:91-96 | every unsigned 32-bit value is read back from its four little-endian bytes |
| PeImage.ToInt32 | Windows/specialbuild/BuildI386W2k.cs:91 | the unchecked cast yields the 32-bit signed value congruent to the unsigned one |
| PeImage.WrapInt32 | Windows/specialbuild/BuildI386W2k.cs:99 | an unchecked `int` sum is the 32-bit signed value congruent to the true sum |
| PeImage.ReadAt | Windows/specialbuild/BuildI386W2k.cs:132-148 | a seek before the start fails, a read past the end fails with end of stream, otherwise the bytes at the position are returned |
| PeImage.OffsetsWrap | Windows/specialbuild/BuildI386W2k.cs:99-114 | an offset computed with wrap-around that is not negative equals the plain sum |
| PeImage.LocateDllCharacteristics | Windows/specialbuild/BuildI386W2k.cs:86-120 | a file shorter than 0x40 bytes fails with end of stream; the field is found exactly when the optional header named at 0x3C is at least 72 bytes long and the field lies in the file, and then at PE header + 24 + 70; the patch stops with nothing to do exactly when that length can be read and is below 72; a failure is a seek before the start exactly when an offset the code seeks to wraps to a negative `int`, and end of stream otherwise |
| PeImage.Or16 | Windows/specialbuild/BuildI386W2k.cs:122 | `characteristics |= add` sets exactly the flags of the old value and of `add`, and no other |
| PeImage.AddPeDllCharacteristics | Windows/specialbuild/BuildI386W2k.cs:77-130 | failures return the error and no bytes; a too-short optional header leaves the file unchanged; otherwise only the two bytes of the field change and they now hold old OR add |
| PeImage.AddPeDllCharacteristicsShortHeader | Windows/specialbuild/BuildI386W2k.cs:106-111 | a file whose optional header is shorter than 72 bytes comes back unchanged |
| PeImage.AddPeDllCharacteristicsKeepsFlags | Windows/specialbuild/BuildI386W2k.cs:122-128 | after the patch the field has both its previous flags and the added ones set, and no other flag |
| PeImage.LocateIgnoresField | Windows/specialbuild/BuildI386W2k.cs:99-119 | the field is found at the same place in any file that agrees with the original before the field |
| PeImage.AddPeDllCharacteristicsIdempotent | Windows/specialbuild/BuildI386W2k.cs:114-128 | patching an already patched file gives back the same bytes |
| PeImage.BuildFlagsBits | Windows/specialbuild/BuildI386W2k.cs:30-31 | the flags the build passes, `DLL_CH_DYNAMIC_BASE | DLL_CH_HIGH_ENTROPY_VA`, are bits 6 and 5 and no other |
| PeImage.BuildPatchSetsAslrFlags | Windows/specialbuild/BuildI386W2k.cs:30-31 | the build's patch of an executable with room for the field sets bits 5 and 6 of DllCharacteristics and keeps every other bit |

## Left out

- Job object, completion port, suspended process creation, job assignment, resuming and the wait loop (Windows/StartWaitTree.c:322-434): kernel objects whose guarantee rests on operating-system behaviour and on other running processes.
- `pipe`, `fork`, `execvp`, `read` and `close` (unix/startwaittree.c:54-122), including the `malloc` failure path when building the child's vector: operating-system I/O and allocation.
- `isOlderThanWindows8` (Windows/StartWaitTree.c:236-276): a thin wrapper over the version-query calls.
- `writeToConsoleOrFile`, `FormatMessageW`, `GetProcessHeap`, `GetStdHandle`, `HeapAlloc`, `zeroMemory`: console output, foreign calls and raw memory. Their outcomes are inputs to `WindowsReport.Explode` (`Platform`), whose fresh block holds arbitrary characters.
- The build script's process running, environment set-up, `SHGetFolderPathW`, manifest writing and file streams (Windows/specialbuild/BuildI386W2k.cs:18-75, 151-214): I/O and external tools. The patch works on the file's bytes in memory.
- UTF-16 details: characters are Dafny `char` and lengths are unbounded; the `DWORD` casts of lengths in `writeToConsoleOrFile` are not modelled.
- PeImage.ReadAt: `ReadExact` may receive the bytes in several partial reads; the model reads them at once, which gives the same bytes or the same end-of-stream failure.
- UnixFrontEnd.Explode: `errno` is taken as the value at the final `fprintf`; whether the earlier `fprintf` calls change it is not modelled, and `strerror` is an uninterpreted parameter.
- The usage text of the Windows watcher goes straight to the console through `WriteConsoleW` (Windows/StartWaitTree.c:318), so nothing is written when standard output is redirected; the model states the text and the exit status, not where the text ends up.
- The Windows command line is taken NUL-free, as `GetCommandLineW` returns a terminated string; a NUL inside a raw buffer is modelled only for the fixed-capacity buffers.
- WindowsReport.Explode: the result of writing the line is ignored, as in the code, so a failed write still exits with `err`.
