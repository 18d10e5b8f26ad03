# Installer cores in Dafny

Models of the parts of the installer where a wrong step would go unnoticed, with proofs of what they promise:

- **Implanting and checking an ISO checksum** (`installer/isomd5sum`). The streaming MD5 of `md5.c`; the implanter, which
  hashes an image with a blank 512-byte field and prints digest, flag and fragment sums into that field; the checker, which
  parses the field, masks it chunk by chunk and hashes again. Main results: `Md5.DigestOfPieces`,
  `IsoText.ParseUndoesPrint`, `IsoTheorems.ImplantThenCheck`, `IsoTheorems.CheckExactly`, `IsoTheorems.PassedMeansWhole`,
  `IsoTheorems.SameVerdict`.
- **The newc archive reader, filter and installer** (`installer/isys/uncpio.c`). Main results:
  `CpioFilter.FilterArchive` with `CpioFilter.FilterPreservesMeaning`, and `LinkRuns.RunExactly`,
  `LinkSlots.NeverOverruns`, `LinkOutcomes.RunOutcome`, `LinkOutcomes.GroupShares` and `LinkOutcomes.InstallOutcome` with
  `CpioInstall.InstallArchive`, `CpioInstall.InstallReadable` and `CpioInstall.InstallsEntry`.
- **Four smaller cores**: the version order `rpmvercmp`, the removal of stacked device maps, the table of BIOS disk numbers
  and the overflow-safe free-space product.

Everything about hashing holds for every compression function and for both host byte orders; `Md5Transform` proves that
`MD5_Transform` computes the one of RFC 1321. Code that works by changing things step by step is a method or a class here, and
its contract ties it to a specification function, about which the lemmas speak. The image is a byte array that the implanter
rewrites; the MD5 context, the archive streams, the list of hard-link groups, the hash table and the set of live device maps
are objects.

## Files

| file | content |
|---|---|
| `Words.dfy` | bytes, 32-bit words, host byte orders |
| `Md5.dfy` | the digest of RFC 1321 and the streaming context |
| `Md5Transform.dfy`, `Md5Answers.dfy` | the four rounds of RFC 1321 and the unrolled steps; a known answer |
| `IsoText.dfy` | the text in the field: parser, printer, round trip |
| `Iso.dfy`, `IsoCheck.dfy`, `IsoTheorems.dfy` | implanter, checker, and what they promise together |
| `Cpio.dfy`, `CpioFilter.dfy` | archive reader and archive filter |
| `FileTree.dfy`, `HardLinks.dfy` | the installer's file system; its entries and hard-link groups |
| `LinkRuns.dfy`, `LinkOutcomes.dfy`, `LinkSlots.dfy`, `LinkExamples.dfy` | the groups over a whole run; what it returns and leaves on disk; why slots suffice; archives that go wrong |
| `CpioInstall.dfy` | the install loop over a stream, and where it keeps its place |
| `Versions.dfy`, `DeviceMaps.dfy`, `BiosDisks.dfy`, `FreeSpace.dfy` | the smaller cores |

## Properties that are false, and when they hold

- *Implant, then check, passes.* With the primary volume descriptor in sector 16 it always does
  (`ImplantThenCheckPasses`). Elsewhere the length of the checker's fill is computed as an unsigned difference that can wrap
  around: `ImplantThenCheck` proves that the check passes unless the descriptor is sector `r` of its 32 KiB chunk, `m` sectors
  of that chunk are hashed and `r < m <= 2r`; then the fill leaves the buffer (`Undefined`). `Sector17Wraps` is an image on
  which this happens.
- *The mask covers the field.* `MaskExactInSector16`: with the descriptor in sector 16 this is so exactly when at most 32768
  or at least 36864 bytes are hashed. `FirstBranchExact` gives the condition for a chunk of any kind; `Sector16Partial` is the
  one size at which only 282 bytes are masked.
- *The fragment sums survive the round trip.* `ParseUndoesPrint`: exactly when the fragment string has 60 characters;
  otherwise the parser jumps over the count, which stays 0, and fragments are not checked. `CountLost` shows it at 57.
- *The checker stays in its buffers on every field.* `ComparesInBounds`: for 60 fragment characters and the
  fragments 1 to the count (up to 2^25) exactly when the count is above three; with one, two or three a fragment has more
  digits than the digest has bytes. `KeysNearTheEnd`: fragment sums whose key stands at 437 to 451 reach over the end of the
  field, and the parser's guard lets them through.
- *`rpmvercmp` is antisymmetric.* `SeparatorsClash` shows two strings that are each older than the other, and
  `TrailingMark` a family of them; `AntisymmetricExactly` gives the condition for all strings, and `CompareIsPreorder` the
  order on strings that do not end in a separator.
- *The free-slot search stays in the array.* It does for every archive in which no group has more entries than it announced
  links, whatever the paths are and whatever the file system does (`NeverOverruns`; besides, no name may be empty, for whose
  directories the code looks in front of the name, and no symbolic link may have 2^64 - 1 bytes). With more entries it is a
  matter of names that keep their slots. `nlink` names of a group wait without data and one more comes (`WaitingOverrun`);
  or a name behind the data is not linked, and keeps its slot with all later ones until `nlink - 1` of them fill the slots,
  since linking ends at the first name that is refused and the result is not looked at. A name is refused for good if it is
  the created path again (`RepeatOverrun`), or if it or the created path has become a directory (`DirectoryOverrun`), and for
  as long as a directory on its way is missing (`MissingDirectoryOverrun`). `RunExactly` gives the exact condition for the
  archives described below, in which the last case does not arise.
- *Every archive that is read to its end is installed.* `RunExactly` and `ClosingOutcome` give the exact conditions, by the
  entries and the directories at the start. A file cannot take the place of a directory (`FileOverDirectory`); a directory
  can take that of a created file, whose group then fails in the closing pass (`DirectoryCloses`); and a name that comes
  before the directory on its way is not linked (`MissingDirectory`), unless the directory comes before the trailer, where
  the closing pass links whatever has become ready (`ClosingLinks`, `LateDirectory`).
- *Behind every entry the installer is at the next header.* `StraysExactly` and `InPlaceExactly`: exactly when the entry has
  no data, or is neither a directory, a fifo or a device, by the mode that a mapping may have given it, nor the data of a
  group for a path at which a directory stands. A directory with data (`DirectoryWithData`) and a file with data that a
  mapping turns into a directory (`MappedToDirectory`) make the installer take data for a header and refuse a readable
  archive.

The run theorems are about archives (`Tame`) in which every file has one spelling (`SpelledOnce`: no two paths that occur, in
the archive, on the way to its entries or at the start, may be spellings of one file, as `x` and `./x` are; `SameSpelling`, `AnySpelling`); no directory that
an entry asks for is, or was given as, a symbolic link; a symbolic link takes neither the path of an earlier group entry nor
that of a directory on its way; a name that comes behind the data of its group comes behind the directories on its way too;
and no group that has stalled unlinks the created path of another. The last condition is needed: of two groups with one created
path, the one that names it again takes it from the other, whose slots are then overrun (`TwoGroupsOverrun`). Archives that
list directories before what is in them and keep hard links to distinct paths are orderly, and covered (`OrderlyRuns`).

## Model

| member | source | states |
|---|---|---|
| Rfc1321.PaddedLength | installer/isomd5sum/md5.c:127-150 | padding always completes a block and adds between 9 and 72 bytes |
| Md5.ByteReverse | installer/isomd5sum/md5.c:37-46 | after the pass, loading the words in host order yields the little-endian values of the old memory; memory behind them is unchanged |
| Md5.CounterAdvance | installer/isomd5sum/md5.c:80-85 | the wrap test and the two word additions are exact addition of 8*len modulo 2^64 |
| Md5.CounterGivesFill | installer/isomd5sum/md5.c:85-87 | the low counter word gives the length of the message modulo 64, whatever was carried |
| Md5.CounterBytes | installer/isomd5sum/md5.c:153-154 | the two counter words are the 64-bit count that RFC 1321 appends |
| Md5.PaddingZeros | installer/isomd5sum/md5.c:127-150 | the one-block and two-block branches pad with the number of zeros that RFC 1321 asks for |
| Md5.FinalBlocks | installer/isomd5sum/md5.c:122-156 | the padded message of RFC 1321 ends in exactly the one or two blocks that MD5_Final builds |
| Md5.OutputReversed | installer/isomd5sum/md5.c:157-158 | on a big-endian host the last reversal leaves the low-order byte of each chaining word first |
| Md5.Context.constructor | installer/isomd5sum/md5.c:53-68 | a fresh context stands for the empty message |
| Md5.Context.Copy | installer/isomd5sum/libimplantisomd5.c:191-192 | a copy stands for the same message and shares no memory with the original |
| Md5.Context.Count | installer/isomd5sum/md5.c:80-87 | the counter holds 8 times the new length modulo 2^64, and the old fill of the buffer is returned |
| Md5.Context.Absorb | installer/isomd5sum/md5.c:98-101 | on either host a full buffer advances the chain of RFC 1321 by one block |
| Md5.Context.Feed | installer/isomd5sum/md5.c:89-115 | a waiting partial block is completed if the data reaches that far, and state and buffer then stand for the longer message |
| Md5.Context.UpdateBlocks | installer/isomd5sum/md5.c:105-115 | whole blocks are folded into the state in order and the tail is kept |
| Md5.Context.Update | installer/isomd5sum/md5.c:74-116 | the represented message grows by exactly the given bytes: state is the fold over full blocks, buffer is the tail, counter is 8*length modulo 2^64 |
| Md5.Context.PadTail | installer/isomd5sum/md5.c:127-150 | both padding branches leave the first 56 bytes of the last padded block in the buffer and everything before it in the chain |
| Md5.Context.Close | installer/isomd5sum/md5.c:151-156 | reversing 14 words and appending the counter in host order compresses the last padded block on either host |
| Md5.Context.Emit | installer/isomd5sum/md5.c:157-158 | on either host the chaining words leave as the output of section 3.5 of RFC 1321 |
| Md5.Context.Final | installer/isomd5sum/md5.c:122-160 | the digest of the represented message, and a zeroed structure |
| Md5.DigestOfPieces | installer/isomd5sum/md5.c:53-160 | for every message, every split of it over updates and both byte orders: the one-shot digest of sections 3.1 to 3.5 of RFC 1321 |
| Md5Bits.F1IsF | installer/isomd5sum/md5.c:166-167 | the shortened F1 is the F of RFC 1321 on all words |
| Md5Bits.F2IsG | installer/isomd5sum/md5.c:168-168 | F1 with its arguments moved is the G of RFC 1321 on all words |
| Md5Bits.RotateMovesBits | installer/isomd5sum/md5.c:172-174 | the rotation of a step moves bit k to bit (k + s) modulo 32, for every word and every shift from 1 to 31 |
| Md5Transform.StepIsOperation | installer/isomd5sum/md5.c:172-174 | one MD5STEP, with the right word, constant and rotation, is one operation of section 3.4; the rotation is pinned by RotateMovesBits |
| Md5Transform.Four | installer/isomd5sum/md5.c:190-193 | four steps with exchanged registers are four operations, and the registers are back in place |
| Md5Transform.Round1 | installer/isomd5sum/md5.c:190-205 | the 16 steps of round 1, with the words, constants and rotations as the code lists them, are the round of RFC 1321 |
| Md5Transform.Round2 | installer/isomd5sum/md5.c:207-222 | as Round1, for round 2 |
| Md5Transform.Round3 | installer/isomd5sum/md5.c:224-239 | as Round1, for round 3 |
| Md5Transform.Round4 | installer/isomd5sum/md5.c:241-256 | as Round1, for round 4 |
| Md5Transform.TransformWords | installer/isomd5sum/md5.c:181-262 | the steps, on words held as numbers, are the compression function that the streaming theorems are instantiated with |
| Md5Transform.Md5Sum | installer/isomd5sum/md5.c:53-262 | MD5 proper, for every split and both byte orders |
| Md5Transform.Transform | installer/isomd5sum/md5.c:181-262 | the chaining values become the compression of section 3.4 of RFC 1321 |
| Md5Answers.InitialBytes | installer/isomd5sum/md5.c:53-61 | the chaining values start as 01 23 45 67 89 ab cd ef fe dc ba 98 76 54 32 10, low-order byte first |
| Md5Answers.AbcCompressed | installer/isomd5sum/md5.c:181-262 | a known answer through all 64 steps: the block of the message "abc" compresses to 98500190 b04fd23c 7d3f96d6 727fe128 |
| Md5Answers.AbcDigest | installer/isomd5sum/md5.c:53-262 | the digest of "abc" is 900150983cd24fb0d6963f7d28e17f72, as appendix A.5 of RFC 1321 gives it |
| IsoText.Scan | installer/isomd5sum/libcheckisomd5.c:74-166 | the loop over the field returns what the recursive reference parser returns, for every field |
| IsoText.ParsedFromField | installer/isomd5sum/libcheckisomd5.c:74-166 | soundness of the parser on every field: each value stands in the text behind its key, numbers up to the next semicolon, and sum and skip count are there |
| IsoText.KeysNearTheEnd | installer/isomd5sum/libcheckisomd5.c:87-136 | a sum from byte 467 on and fragment sums from 452 on end the scan without result; fragment sums between 437 and 451 are copied past the field |
| IsoText.StrtolReads | installer/isomd5sum/libcheckisomd5.c:104-116 | white space, sign and digits are read as the number they spell, cut to a long; anything behind them is refused |
| IsoText.RestIgnored | installer/isomd5sum/libcheckisomd5.c:161-162 | once all five values are found nothing behind them is read |
| IsoText.WriteAppData | installer/isomd5sum/libimplantisomd5.c:96-105 | writes in place exactly when the text ends by byte 511, else changes nothing and reports the exit |
| IsoText.ComposeField | installer/isomd5sum/libimplantisomd5.c:223-259 | none of the calls takes the exit path, and the buffer holds the text followed by spaces |
| IsoText.FieldTextIs | installer/isomd5sum/libimplantisomd5.c:226-259 | the text, character for character |
| IsoText.HexStringAt | installer/isomd5sum/libimplantisomd5.c:208-213 | byte k of a digest is printed as its high digit at 2k and its low digit at 2k + 1 |
| IsoText.LeadingDigitsAt | installer/isomd5sum/libimplantisomd5.c:193-197 | of byte k one digit is kept: the only one below 16, the high one from there on |
| IsoText.HexStringInjective | installer/isomd5sum/libcheckisomd5.c:283-292 | digests that are printed alike are equal |
| IsoText.ScanFullTail | installer/isomd5sum/libcheckisomd5.c:127-156 | a 60-character fragment string is recovered together with the count 20 |
| IsoText.ScanShortTail | installer/isomd5sum/libcheckisomd5.c:127-136 | behind a shorter one the count is never seen |
| IsoText.ParseUndoesPrint | installer/isomd5sum/libcheckisomd5.c:74-166 | for every digest text, flag and fragment string: sum, flag and skip count 15 are recovered; fragment sums with count 20 exactly when the string has 60 characters, else count 0 |
| IsoText.CountLost | installer/isomd5sum/libcheckisomd5.c:127-156 | a field with nineteen fragment sums holds the count and does not give it back |
| Iso.SearchPvd | installer/isomd5sum/libimplantisomd5.c:57-72 | the search loop finds the first sector of type 1 before a terminator |
| Iso.PvdExactly | installer/isomd5sum/libimplantisomd5.c:57-72 | the descriptor is found in sector k if and only if k is the first from 16 on that starts with 1, and none before it starts with 255 |
| Iso.DescriptorFields | installer/isomd5sum/libimplantisomd5.c:76-90 | the size is the big-endian number in bytes 84 to 87 times 2048; the field is bytes 883 to 1394 |
| Iso.IndexStaged | installer/isomd5sum/libimplantisomd5.c:189-189 | fragment indices never decrease with the offset and stay at or below 20 |
| Iso.FragsBound | installer/isomd5sum/libimplantisomd5.c:179-203 | three characters a remaining fragment at most, so `fragstr` never overflows |
| Iso.IsDirty | installer/isomd5sum/libimplantisomd5.c:148-153 | the loop reports exactly the fields that are not all spaces |
| Iso.HashChunk | installer/isomd5sum/libimplantisomd5.c:186-200 | the message grows by the chunk; on a new fragment the leading digits of the digest so far are appended, and the running context is not disturbed |
| Iso.HashImage | installer/isomd5sum/libimplantisomd5.c:169-213 | the loop yields the digest of the whole extent and the snapshots at all fragment transitions |
| Iso.ImplantIsoFile | installer/isomd5sum/libimplantisomd5.c:110-274 | the image becomes the specified one with return value 0, or is untouched with -1, or its size overflows; what is printed into the field is pinned by FieldTextIs, HexStringAt and LeadingDigitsAt |
| IsoCheck.CompareInPlace | installer/isomd5sum/libcheckisomd5.c:253-266 | copying, terminating and comparing in the reused buffer gives the specified comparison and buffer, or is out of bounds |
| IsoCheck.QuotientTruncates | installer/isomd5sum/libcheckisomd5.c:254-255 | division as in C: the remainder is smaller than the divisor and has the sign of the dividend |
| IsoCheck.FragmentExactly | installer/isomd5sum/libcheckisomd5.c:248-248 | the fragment of a chunk for every count, narrowed to an int, and none where the product leaves 64 bits |
| IsoCheck.ComparesInBounds | installer/isomd5sum/libcheckisomd5.c:253-261 | with a count of one, two or three the comparison leaves the digest; with any larger one it stays within all buffers |
| IsoCheck.CheckInPlace | installer/isomd5sum/libcheckisomd5.c:214-271 | one pass of the loop: mask, update, fragment comparison, abort, as specified |
| IsoCheck.CheckLoop | installer/isomd5sum/libcheckisomd5.c:202-295 | the loop returns the verdict of the chunk-by-chunk specification |
| IsoCheck.CheckMd5Sum | installer/isomd5sum/libcheckisomd5.c:177-296 | the verdict on every image, on either host; what the verdict means is stated by CheckExactly, DamageFails and AbortsExactly |
| IsoTheorems.SamePvd | installer/isomd5sum/libimplantisomd5.c:261-269 | rewriting the field does not move the descriptor that a search finds |
| IsoTheorems.SameHashed | installer/isomd5sum/libimplantisomd5.c:158-206 | what is hashed does not depend on the old content of the field |
| IsoTheorems.ImplantFrame | installer/isomd5sum/libimplantisomd5.c:145-167 | only the 512 bytes of the field change |
| IsoTheorems.ImplantsExactly | installer/isomd5sum/libimplantisomd5.c:145-167 | an image with a descriptor is implanted if and only if its size byte is below 128 and the 512 bytes are spaces, or force is used |
| IsoTheorems.ImplantTwice | installer/isomd5sum/libimplantisomd5.c:148-167 | an unforced second implant is refused; a forced one with the same flag gives the identical image |
| IsoTheorems.MaskRestores | installer/isomd5sum/libcheckisomd5.c:228-244 | a mask that covers the printed text gives back the bytes that were hashed on implanting, even if it does not cover the field |
| IsoTheorems.SectorMask | installer/isomd5sum/libcheckisomd5.c:228-233 | the length of the fill wraps exactly when r < m <= 2r, and otherwise is at least 282 in the chunk of the field |
| IsoTheorems.FragmentsInOrder | installer/isomd5sum/libimplantisomd5.c:186-200 | with all 20 fragments owed, each transition goes to the next index and contributes the three digits of that prefix |
| IsoTheorems.ComparesExactly | installer/isomd5sum/libcheckisomd5.c:253-266 | the comparison for fragment k succeeds if and only if the three characters kept at 3(k-1) are the leading digits of the digest, and the terminator at index 3 survives |
| IsoTheorems.StaysInStep | installer/isomd5sum/libcheckisomd5.c:247-268 | every transition of the checker meets the characters kept for the same prefix: it compares equal if and only if the leading digits of the two digests are |
| IsoTheorems.CheckStep | installer/isomd5sum/libcheckisomd5.c:214-271 | one chunk of an implanted image feeds the bytes the implanter hashed and does not end the check |
| IsoTheorems.CheckRuns | installer/isomd5sum/libcheckisomd5.c:214-295 | from any point in step, the rest of the check passes, unless the wrapping chunk is still ahead |
| IsoTheorems.ImplantThenCheck | installer/isomd5sum/libcheckisomd5.c:177-296 | for every image of at least its declared size, a successful implant and an undisturbed check give PASSED, except exactly when the fill wraps |
| IsoTheorems.ImplantThenCheckPasses | installer/isomd5sum/libimplantisomd5.c:110-274 | with the descriptor in sector 16, always PASSED, whatever the size |
| IsoTheorems.ImplantAndCheck | installer/isomd5sum/libimplantisomd5.c:110-274 | the two programs in sequence, on hosts of any byte orders: success means PASSED, refusal leaves the image unchanged, and only a size that overflows is undefined |
| IsoTheorems.IndexStep | installer/isomd5sum/libimplantisomd5.c:189-189 | above 20 chunks no fragment is stepped over |
| IsoTheorems.LastIndex | installer/isomd5sum/libimplantisomd5.c:189-189 | above 20 chunks the last chunk is in fragment 20 |
| IsoTheorems.IndexMoves | installer/isomd5sum/libimplantisomd5.c:189-189 | up to 20 chunks every chunk after the first is a transition |
| IsoTheorems.FragmentStringLength | installer/isomd5sum/libimplantisomd5.c:179-203 | 60 characters above 20 chunks, otherwise three for every chunk after the first and at most 57 |
| IsoTheorems.FirstBranchExact | installer/isomd5sum/libcheckisomd5.c:228-233 | the mask covers the field's part of the chunk if and only if twice the lead plus 512 fits into what was read |
| IsoTheorems.MaskExactInSector16 | installer/isomd5sum/libcheckisomd5.c:228-244 | for sector 16, exact if and only if at most 32768 or at least 36864 bytes are hashed |
| IsoTheorems.MaskedChunk | installer/isomd5sum/libcheckisomd5.c:228-244 | every masked chunk equals that chunk of the image with a blank field |
| IsoTheorems.ChunksMakeWhole | installer/isomd5sum/libcheckisomd5.c:214-295 | for every fragment count and callback, the loop passes only if the stored sum is the digest of the image with a blank field; without fragments and interruptions also if it is |
| IsoTheorems.PassedMeansWhole | installer/isomd5sum/libcheckisomd5.c:177-296 | an image that passes carries the digest of itself with a blank field, wherever the mask is exact; by HexStringInjective no other digest has that text |
| IsoTheorems.CheckExactly | installer/isomd5sum/libcheckisomd5.c:177-296 | an image of the same size that kept the field implanted into another one: PASSED if and only if the digests agree and, above 20 chunks, the digits of every fragment do; FAILED otherwise |
| IsoTheorems.DamageFails | installer/isomd5sum/libcheckisomd5.c:292-295 | an image that kept an implanted field, whatever its size became, and whose hashed bytes have another digest: FAILED |
| IsoTheorems.AbortsExactly | installer/isomd5sum/libcheckisomd5.c:269-271 | without fragments the check is aborted if and only if the callback asks for it behind some chunk |
| IsoTheorems.Sector17Wraps | installer/isomd5sum/libcheckisomd5.c:228-233 | an image that was implanted successfully and on whose check the fill leaves the buffer |
| IsoTheorems.Sector16Partial | installer/isomd5sum/libcheckisomd5.c:228-233 | the size at which 282 of the 512 bytes are masked |
| IsoTheorems.SameVerdict | installer/isomd5sum/libcheckisomd5.c:177-296 | images equal outside the field with the same parsed values get the same verdict |
| Cpio.InFd.Read | installer/isys/uncpio.c:106-113 | the bytes at the tracked position, fewer only at the end of the stream |
| Cpio.InFd.PadIn | installer/isys/uncpio.c:115-121 | the position moves to the next multiple of four, or the end |
| Cpio.InFd.EatBytes | installer/isys/uncpio.c:471-483 | the position moves by exactly the amount, or to the end with an error |
| Cpio.NumberReads | installer/isys/uncpio.c:138-157 | white space, sign and hexadecimal digits up to a terminator are read as the number they spell, narrowed to an int |
| Cpio.NumberRefuses | installer/isys/uncpio.c:138-157 | digits with anything else behind them are refused |
| Cpio.NumberOfEight | installer/isys/uncpio.c:155-157 | eight digits of either case stand for their positional value |
| Cpio.HeaderReadBack | installer/isys/uncpio.c:179-195 | round trip: twelve numbers printed in columns of eight digits are read back from their places; sizes from 2^31 on are widened with their sign |
| Cpio.TrailerName | installer/isys/uncpio.c:51-51 | the path that ends an archive is TRAILER!!! |
| Cpio.MagicNumbers | installer/isys/uncpio.c:175-177 | a readable header starts with 070701 or 070702, and either will do |
| Cpio.InFd.GetNextHeader | installer/isys/uncpio.c:162-208 | the header and name at the position, in place for the data, or the error code for a short read, a bad magic or a bad field; a negative length of the name is undefined |
| CpioFilter.HeadReadBack | installer/isys/uncpio.c:721-729 | a head emitted at a multiple of four is read back as that header and name |
| CpioFilter.EntryReadBack | installer/isys/uncpio.c:715-742 | an emitted entry is read back as that entry and the reader continues right behind it |
| CpioFilter.BodyReadBack | installer/isys/uncpio.c:756-780 | a list of emitted entries and a trailer is read back as that list |
| CpioFilter.TrailerReadBack | installer/isys/uncpio.c:782-789 | the emitted trailer is read back as the end of an archive |
| CpioFilter.FilterPreservesMeaning | installer/isys/uncpio.c:744-798 | parsing the output gives exactly the matching entries in order, with their headers (newc magic), names and data; the length is a multiple of 512 |
| CpioFilter.SelectedTwice | installer/isys/uncpio.c:768-775 | filtering by the same patterns again selects everything |
| CpioFilter.KeptExactly | installer/isys/uncpio.c:768-775 | every entry whose path is wanted is kept and no other |
| CpioFilter.SelectedIsKept | installer/isys/uncpio.c:768-775 | the selection is the kept entries in order: name, data and all of the header behind the magic 070701 |
| CpioFilter.OutputReadBack | installer/isys/uncpio.c:744-798 | reading the output gives the entries that some pattern matches, and none for an empty list of patterns |
| CpioFilter.MatchAny | installer/isys/uncpio.c:768-772 | the pattern loop reports a match if and only if fnmatch accepts the path for some pattern of the list |
| CpioFilter.OutFd.PadOut | installer/isys/uncpio.c:123-136 | appends the zeros that complete the output to the multiple |
| CpioFilter.CopyFile | installer/isys/uncpio.c:715-742 | appends the entry under the newc magic and leaves the input behind its data; ends exactly if the data is all there |
| CpioFilter.NextHeaderAligned | installer/isys/uncpio.c:777-777 | behind a complete entry of a readable archive the position is a multiple of four with a header still to come |
| CpioFilter.FilterEntry | installer/isys/uncpio.c:756-780 | whichever branch handles an entry, both streams are aligned and the loop is at the next header |
| CpioFilter.FilterArchive | installer/isys/uncpio.c:744-798 | for every stream: how it ends (success, bad header, the endless copy of a file cut short, a negative length of a name); success if and only if the archive is readable, and then the output is the archive of the matching entries; for terminated names, an entry is among those read from the output if and only if fnmatch accepts its path for some pattern, in order and unchanged but for the magic; no patterns, no entries |
| FileTree.LeadingMade | installer/isys/uncpio.c:277-319 | the missing directories on the way to a path are made and nothing else changes, unless a symbolic link stands in the way |
| HardLinks.CreateLinksWorks | installer/isys/uncpio.c:443-469 | with the created file there and every waiting name ready, all of them come to share its node, nothing else changes, slots are cleared and the count drops by their number |
| HardLinks.CreateLinksFails | installer/isys/uncpio.c:447-461 | linking ends at the first waiting name if that is a directory or the created one, or the created one is gone or a directory: its error code, that name unlinked unless it is a directory, and no slot cleared |
| HardLinks.CreateLinksClash | installer/isys/uncpio.c:447-461 | with a name that cannot be linked among the waiting ones, linking fails |
| LinkRuns.GroupFits | installer/isys/uncpio.c:545-611 | as long as a run goes on, every group has found its slots |
| LinkRuns.EnrolledFits | installer/isys/uncpio.c:546-565 | the list search finds the group, the slot search overruns it exactly when it is full, and otherwise the name goes to the first free slot |
| LinkRuns.ReferenceTracks | installer/isys/uncpio.c:505-633 | over every run: the directories are those at the start and those that entries asked for, and what a group links to is there until the group stalls |
| LinkRuns.StepAlone | installer/isys/uncpio.c:581-605 | an entry outside the groups, exactly: it gets its node behind the directories on its way, or the run ends, by its kind, its size and what stands at its path |
| LinkRuns.StepDeferred | installer/isys/uncpio.c:568-570 | an empty entry of a group without file only stores its name |
| LinkRuns.StepLinked | installer/isys/uncpio.c:571-580 | a further name of a created group is linked at once |
| LinkRuns.StepCreated | installer/isys/uncpio.c:581-611 | the first data makes the directories on its way, creates the file and links all waiting names |
| LinkRuns.StepUnclear | installer/isys/uncpio.c:581-611 | data at whose path a directory stands, or for which a name waits that cannot be linked: the run does not go on |
| LinkRuns.StallReason | installer/isys/uncpio.c:571-580 | a group stalls only because it names its created path again, or that path or the name is a directory |
| LinkRuns.StepStuck | installer/isys/uncpio.c:571-580 | a name that cannot be linked, and any name behind it: the name at which linking fails is unlinked unless it is a directory, the slot stays taken and the run goes on |
| LinkRuns.StepExactly | installer/isys/uncpio.c:545-619 | one entry, exactly: when an array is overrun, when the run goes on, and that every record of the list and the file system are then as expected |
| LinkRuns.RunExactly | installer/isys/uncpio.c:505-633 | over whole runs: a store outside an array if and only if some entry finds its group full, has an empty name or is a symbolic link whose size wraps around, an end without error if and only if all entries are accepted, and then the list of groups as expected and exactly the file system of a reference without slots and lists |
| LinkOutcomes.ClosingOutcome | installer/isys/uncpio.c:635-650 | the closing pass succeeds if and only if every group has data and, if it has stalled, no links left; it fails for a group without data with CPIOERR_INTERNAL, for a stalled one with the error of unlink or link |
| LinkSlots.CreateLinksTakes | installer/isys/uncpio.c:443-469 | linking, whether it succeeds or not, takes no slot of the group |
| LinkSlots.EnrolledCounted | installer/isys/uncpio.c:546-565 | a group with no more entries than announced links has a slot for each of them, and the list keeps no more slots taken than entries came |
| LinkSlots.NeverOverruns | installer/isys/uncpio.c:505-633 | for every file system and all paths: if no group has more entries than it announced links, no name is empty and no symbolic link has 2^64 - 1 bytes, no store leaves an array |
| LinkOutcomes.ClosingLinks | installer/isys/uncpio.c:635-650 | with every created file there and every waiting name ready at the trailer, the closing pass succeeds, links them all and changes no other name |
| LinkOutcomes.RunOutcome | installer/isys/uncpio.c:485-662 | a whole installation: overrun, success and failure by the entries and the directories at the start alone, and the reference file system |
| LinkOutcomes.ReferenceFrame | installer/isys/uncpio.c:505-633 | a path that no later entry touches keeps its node and content |
| LinkOutcomes.LastEntryWins | installer/isys/uncpio.c:581-605 | the last entry that touches a path outside the groups decides what is there |
| LinkOutcomes.GroupShares | installer/isys/uncpio.c:545-611 | the names of a group share one node with its data: those that waited and those that came later, for as long as no later entry touches them or the created path |
| LinkOutcomes.OrderlyRuns | installer/isys/uncpio.c:545-611 | groups with distinct paths, no more entries than links, behind their directories and at no directory's path never stall nor fill their slots, whatever paths other entries repeat |
| LinkOutcomes.InstallOutcome | installer/isys/uncpio.c:485-662 | over every orderly archive: success exactly when every group has an entry with data, else CPIOERR_INTERNAL, and the reference file system |
| LinkOutcomes.OrderlyLinksLeft | installer/isys/uncpio.c:555-609 | links left is nlink until a group has data and nlink minus names seen from then on |
| LinkOutcomes.CreateLinksFrame | installer/isys/uncpio.c:443-469 | linking, also when it fails halfway, touches only names stored with the group |
| LinkOutcomes.InstallFrame | installer/isys/uncpio.c:485-662 | for every archive and every return value: a path that is under no spelling that of an entry or on the way to one keeps its node and content, and no such path appears |
| LinkExamples.WaitingOverrun | installer/isys/uncpio.c:563-565 | two links, three names without data: overrun |
| LinkExamples.RepeatOverrun | installer/isys/uncpio.c:563-580 | two links, the data, its path again, another name: overrun although the data has come |
| LinkExamples.DirectoryOverrun | installer/isys/uncpio.c:563-580 | two links, the data, a directory in its place, two more names: overrun without any repetition |
| LinkExamples.DirectoryCloses | installer/isys/uncpio.c:636-642 | with one name less the closing pass returns CPIOERR_LINK_FAILED |
| LinkExamples.FileOverDirectory | installer/isys/uncpio.c:331-333 | a file for the path of a directory ends the run with CPIOERR_UNLINK_FAILED |
| LinkExamples.MissingDirectory | installer/isys/uncpio.c:458-461 | a name in a directory that is not there yet is not linked, and the closing pass returns CPIOERR_LINK_FAILED |
| LinkExamples.MissingDirectoryOverrun | installer/isys/uncpio.c:563-580 | two links, the data, a name in a directory that is not there, another name: overrun |
| LinkExamples.LateDirectory | installer/isys/uncpio.c:636-642 | if the directory comes before the trailer, the closing pass links the name |
| LinkExamples.TwoGroupsOverrun | installer/isys/uncpio.c:563-580 | a group overruns its slots because another one unlinked their common created path |
| CpioInstall.Installer.CheckDirectory | installer/isys/uncpio.c:277-319 | the loop makes the directories on the way, as specified, or meets a symbolic link |
| CpioInstall.Installer.LinkPending | installer/isys/uncpio.c:443-469 | the loop over the slots is the specified linking of the group, in place |
| CpioInstall.Installer.Enroll | installer/isys/uncpio.c:546-565 | list search, new group and slot search store the name as specified, or would leave the array |
| CpioInstall.Installer.ExpandRegular | installer/isys/uncpio.c:321-367 | the file holds the bytes of the stream and the position is behind them, or the read failed at the end of the stream, or a directory stands there and nothing is read |
| CpioInstall.Installer.ExpandSymlink | installer/isys/uncpio.c:369-399 | the link with its target up to the terminator, or the error for a long target, a short read, a directory or an empty target |
| CpioInstall.Installer.InstallOne | installer/isys/uncpio.c:545-619 | for every entry, complete or cut short: the specified step, and the stream behind its data, or at it where the step says so |
| CpioInstall.Installer.Close | installer/isys/uncpio.c:635-650 | the loop over the list is the specified closing pass |
| CpioInstall.InstallNext | installer/isys/uncpio.c:517-622 | one entry, skipped or installed, on every stream: the specified step and the specified place |
| CpioInstall.InstallArchive | installer/isys/uncpio.c:485-662 | on every stream, damaged or not: the specified return value and file system, or an undefined store, or a symbolic link where a directory is wanted; what single entries become is pinned by KindExactly, PlanReadBack and InstallsEntry |
| CpioInstall.StraysExactly | installer/isys/uncpio.c:581-611 | a run gets behind an entry with its data unread exactly for directories, fifos, devices, and the data of a group at whose path a directory stands |
| CpioInstall.InPlaceExactly | installer/isys/uncpio.c:517-622 | behind a complete entry the stream is at the next header if and only if it was not such an entry |
| CpioInstall.NextEntry | installer/isys/uncpio.c:505-515 | behind any complete entry of a readable archive the padded position is a multiple of four and holds the next header |
| CpioInstall.InstallFollows | installer/isys/uncpio.c:505-633 | on a readable archive, as long as no data stays unread, the loop over the stream installs the entries one after the other |
| CpioInstall.SuccessMeansReadable | installer/isys/uncpio.c:505-515 | as long as the place is kept, success is reported only for archives that are readable to the trailer |
| CpioInstall.InstallReadable | installer/isys/uncpio.c:485-662 | on a readable archive: the run theorems, the frame and the absence of overruns for the program itself |
| CpioInstall.KindExactly | installer/isys/uncpio.c:585-600 | the type digit of the mode decides the kind, for all seven types and all others, whatever the other bits are |
| CpioInstall.PlanReadBack | installer/isys/uncpio.c:179-195 | inode, mode, link count, size, device and special-device numbers are taken from their own fields |
| CpioInstall.PlanMapped | installer/isys/uncpio.c:517-540 | an entry that the mapping does not name is skipped; path and mode of the others are replaced as it says and nothing else is |
| CpioInstall.AloneLeaves | installer/isys/uncpio.c:581-605 | what an entry outside the groups leaves at its path: the file with its data, the link with its target, the directory, fifo or device |
| CpioInstall.AloneFails | installer/isys/uncpio.c:581-619 | how such an entry fails, with the error code; a file that failed is gone, a directory in its place stays |
| CpioInstall.InstallsEntry | installer/isys/uncpio.c:485-662 | end to end: an archive of one entry with one link, installed from its bytes, leaves at its path what its mode field says, with its data |
| CpioInstall.DirectoryWithData | installer/isys/uncpio.c:587-588 | a readable archive that is refused because a directory has data |
| CpioInstall.MappedToDirectory | installer/isys/uncpio.c:534-535 | a readable archive that is refused because a mapping turns a file into a directory |
| Versions.DigitsCompare | installer/stage-1/loadermisc.c:159-178 | dropping zeros, then comparing lengths, then characters orders numbers of any length by value |
| Versions.CompareRuns | installer/stage-1/loadermisc.c:159-178 | numbers compare by value, words by their characters |
| Versions.NumberFirst | installer/stage-1/loadermisc.c:127-139 | behind any other characters, a run of '0' to '9' is one number and the rest follows |
| Versions.WordFirst | installer/stage-1/loadermisc.c:127-144 | behind any other characters, a run of 'A' to 'Z' and 'a' to 'z' is one word and the rest follows |
| Versions.SegmentsJoined | installer/stage-1/loadermisc.c:126-144 | a separator divides a version into two that are read one after the other |
| Versions.StrCmpExactly | installer/stage-1/loadermisc.c:177-178 | a word is older if it is a proper part at the start of the other or has the smaller character first |
| Versions.RunsCompare | installer/stage-1/loadermisc.c:155-178 | a number is newer than a word, and two numbers compare by value |
| Versions.ValueAppend | installer/stage-1/loadermisc.c:159-178 | the value of a run of digits is positional |
| Versions.LetterDecides | installer/stage-1/loadermisc.c:105-194 | "1.0A1" is older than "1.0B1", for any two letters in that order |
| Versions.LongerIsNewer | installer/stage-1/loadermisc.c:190-193 | the same version with another number or word behind it is newer |
| Versions.TrailingMark | installer/stage-1/loadermisc.c:155-193 | a separator at the end makes a version newer, and older than anything behind it; a word behind it is older the other way round too |
| Versions.CompareRound | installer/stage-1/loadermisc.c:126-185 | a result is final for what is left of both strings; otherwise what is left behind the equal segments decides |
| Versions.RpmVerCmp | installer/stage-1/loadermisc.c:105-194 | for all strings, the comparison of the decoded segment lists, with the code's own rule for trailing separators |
| Versions.CompareIsLexicographic | installer/stage-1/loadermisc.c:105-194 | on strings that do not end in a separator: lexicographic order, numbers by value, number above word, proper prefix lower |
| Versions.CompareIsPreorder | installer/stage-1/loadermisc.c:196-201 | antisymmetric and transitive there, as qsort needs |
| Versions.ClashExactly | installer/stage-1/loadermisc.c:155-157 | exchanging the arguments fails to change the sign exactly where trailing separators meet an end or a word |
| Versions.AntisymmetricExactly | installer/stage-1/loadermisc.c:105-194 | the exact condition for antisymmetry on all strings |
| Versions.SeparatorsClash | installer/stage-1/loadermisc.c:155-155 | "-" and "." are each reported older than the other |
| DeviceMaps.DeviceMapper.Dependents | installer/pyblock/device.py:26-40 | the dictionary lists m under d exactly when both are live and m is built on d |
| DeviceMaps.TakenDown | installer/pyblock/device.py:42-49 | taking down one more stack leaves exactly the union of the stacks gone, whatever they share |
| DeviceMaps.StackOfStacks | installer/pyblock/device.py:42-49 | a stack is the map and the stacks of its direct dependents; once these are gone nothing live uses the map |
| DeviceMaps.RemoveDeviceMap | installer/pyblock/device.py:42-49 | on every acyclic graph: terminates, removes a map only when no live map uses it, and ends with exactly that map and its transitive dependents gone |
| BiosDisks.DiskMapTable.constructor | installer/isys/eddsupport.c:237-245 | an empty table |
| BiosDisks.DiskMapTable.Lookup | installer/isys/eddsupport.c:265-277 | the last name added under the number, or none |
| BiosDisks.DiskMapTable.Add | installer/isys/eddsupport.c:248-298 | the table stands for the old map with the number overwritten, and the chains stay sound |
| BiosDisks.FindUnique | installer/isys/eddsupport.c:178-204 | despite leaving at the second match: a name is found if and only if it is that of the one disk, by index, that has a device and the signature, and no other disk does; the search fails exactly when an unreadable disk stands before the second match |
| BiosDisks.MapBiosDisks | installer/isys/eddsupport.c:144-209 | a number maps to a name exactly when its last entry with a signature carried by precisely one disk names it; it fails exactly when some search does |
| BiosDisks.MappedToUnique | installer/isys/eddsupport.c:199-204 | a number whose signature one disk alone carries is mapped to that disk |
| BiosDisks.NotMapped | installer/isys/eddsupport.c:178-204 | a number whose signature two disks carry, or none, is not mapped |
| FreeSpace.Halve | installer/isys/isys.c:500-504 | one conditional shift keeps the sum of bits counted and bits left |
| FreeSpace.GetBits | installer/isys/isys.c:497-508 | the exact bit length of every 64-bit value |
| FreeSpace.ProductBounds | installer/isys/isys.c:522-526 | lengths that sum to at most 64 rule out wrap-around; a larger sum means a product of at least 2^63 |
| FreeSpace.FreeBytes | installer/isys/isys.c:522-526 | exact when the bit lengths sum to at most 64, otherwise saturated, and then the true product is at least 2^63 |

## Left out

- IsoText.Scan: long is taken to have 64 bits, and conversion to int to wrap around; the field's characters are single bytes.
- IsoText.WriteAppData: the program's exit is a result, not an end.
- Iso.SearchPvd: an image that ends without terminator and without descriptor is "not found", where the implanter would go on reading forever; a partly present descriptor sector counts as absent.
- Iso.ImplantIsoFile: opening, closing, messages, short or failing reads other than at the end of the file, and failing writes.
- IsoCheck.CheckMd5Sum: the pause and the progress display; a copy or fill that leaves its buffer and a signed overflow, on which C has no behaviour, are the outcome Undefined.
- Cpio.InFd.GetNextHeader: makedev is a pair, and a name without terminator ends where it was read.
- CpioFilter.CopyFile: the endless loop on a stream that ends too early is reported as a result, which the filter returns as NeverEnds; failing writes are not modelled.
- FileTree.LeadingMade: a path is a name as it is spelled, so that results about files need every file to have one spelling (SpelledOnce); where a symbolic link stands in the place of a directory, the model ends (Beyond; CrossesExactly), since names behind it are other names; the cache of the last directory is left out, as directories are never removed in a run.
- LinkRuns.RunExactly: archives that are not Tame, as described above; in particular a name that comes behind the data of its group and before the directories on its way, which may still be linked when these have been made.
- CpioInstall.Installer.InstallOne: owners, modes, times, callbacks, the text of failed names, and failures of the file system other than those that directories, missing names and empty targets cause; the mapping search is a map lookup.
- Versions.RpmVerCmp: the temporary terminators are end positions, and characters are classified as in the C locale.
- DeviceMaps.RemoveDeviceMap: removing a map that is already gone is a no-op, the kernel's dependency lists do not change, and a rank function stands for acyclicity.
- BiosDisks.MapBiosDisks: reading directories and signatures; the number in the directory name can always be read.
- FreeSpace.FreeBytes: the final shift to megabytes and the statfs call.
- User interface, network, mounting, driver disks and the glue between Python and C.
