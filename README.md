# TuningStudio record files, modelled in Dafny

TuningStudio reads, queries, patches and re-writes two text encodings of
sparse memory images:

- Motorola S-records (`SRecord`): record types S0 to S9, with a one's
  complement checksum over count, address and data.
- Intel HEX (`IntelHex`, a subclass of `SRecord`): record types 00 to 05,
  with a two's complement checksum over count, address, type and data.
  Extended segment records (02) shift their value by 4 bits and extended
  linear records (04) by 16 bits.

This project models the core of that engine:

- the hexadecimal and checksum helpers of `BaseFunc`;
- the `DataBlock` class;
- line validation and parsing;
- the reader, with its error map, data-record count, raw blocks and Intel
  address banks;
- the block merge;
- the range queries;
- `Modify` and `ModifyInFile`;
- `ExportRangeToFile` for both formats.

It proves what each of them promises.

A file is a sequence of physical lines. The exceptions the C# code throws
(`KeyNotFoundException` in `ParseLine`, `Substring` out of range, the
two-character `Substring` of a zero two's-complement checksum, a duplicate
`SortedDictionary` key, a null block) are values of `Result`/`Option` types.
Each `try`/`catch` that turns them into `false` is a case split on those values.

| file | module | models |
|---|---|---|
| wrappers.dfy | Wrappers | `Option`, `Result` |
| hex.dfy | Hex | `BaseFunc`: `IsHex`, `HexToInt`, `HexToInt64`, `HexToByteArray`, `HexCheckSumCalc`, `RemoveWhiteSpaces`, `Split` |
| datablock.dfy | DataBlocks | class `DataBlock`: `RawData` get/set, the constructor, `Length`, `ModifyData` (with an `array<byte>` payload) |
| layout.dfy | Formats | `Format = SRec \| IHex`, each with an immutable layout value; `CheckLine`, `ExtractByteCountData`, `ExtractData`, `ParseLine`, `GetRecordType` |
| reader.dfy | Reader | `Read` of both classes, as a fold over the records |
| merge.dfy | Merge | `GetContinuousBlocks` and `BlockComparer` |
| query.dfy | Query | `IsInRange`, `GetDataBlockFromRange`, `ReadRange`, `ReadRangeFromFile`, `ReadByteRangeFromFile` |
| recordfile.dfy | RecordFiles | class `RecordFile`: the reader's fields, with `Read`, `GetContinuousBlocks`, `ReadRangeFromFile` and `Modify` written as methods with loops and proved against the functions above |
| patch.dfy | Patch | `Modify`, `ModifyInFile` |
| export.dfy | Export | `ExtractDataRange`; `ExportRangeToFile` of `SRecord` |
| intelexport.dfy | IntelExport | `ExportRangeToFile` of `IntelHex`, with its 64 KiB bank splitting |

Reader, merge, query and patch work on block values. The `Block` datatype
has decoded integer addresses, and its payload is what the `RawData` getter
returns: the text itself in string mode, and upper-case hexadecimal in byte
mode. The `DataBlock` class models the storage behind that view, byte array
and all.

Where the code computes something other than what it evidently means, both
versions are modelled (see "## Findings"). Everything else follows the code
as written, including these cases:

- An S4 record passes `CheckLine` but `ParseLine` throws on it, and so do
  Intel types 06 to 99.
- A zero two's-complement sum throws in `HexCheckSumCalc`.
- A duplicate start address throws in `ReadRangeFromFile`.
- The reader keeps the last S0 header and not the first.
- The Intel reader adds the bank to a record's address without a 16-bit wrap.
- A data record read at address -1 before any block has opened continues
  the block that has no start address yet. If no block opens later, its
  data is dropped (`Reader.LostAtMinusOne`). Only a bank record longer than
  four bytes can put a record there.

## Model

| member | source | states |
|---|---|---|
| Hex.IsHex | TuningStudio/Modules/BaseFunctions.cs:87-97 | true iff every character is 0-9, A-F or a-f; the empty string is hexadecimal |
| Hex.Upper | TuningStudio/FileFormats/DataBlock.cs:25-56 | same length, with a-f upper-cased at each position and every other character kept |
| Hex.HexDigit | TuningStudio/Modules/BaseFunctions.cs:171-200 | the upper-case digit whose value is v |
| Hex.HexValueBound | TuningStudio/Modules/BaseFunctions.cs:104-118 | n digits hold a value below 16^n |
| Hex.HexValueAppend | TuningStudio/Modules/BaseFunctions.cs:104-118 | the value of joined digit strings is the first shifted by the length of the second, plus the second |
| Hex.HexToSigned | TuningStudio/Modules/BaseFunctions.cs:104-139 | a value (not the MinValue sentinel) iff the text is non-empty hexadecimal below 2^32 (or 2^64); that value is the unsigned value, with 2^32 (or 2^64) subtracted in the upper half |
| Hex.ShiftedHexToLongText | TuningStudio/FileFormats/IntelHex.cs:141-146 | the bank an extended address record sets is HexToInt64 of its data with one or four zero digits appended |
| Hex.DigitsFacts | TuningStudio/FileFormats/SRecord.cs:904-1057 | ToString("X") gives upper-case hexadecimal that decodes back to the number |
| Hex.RenderFacts | TuningStudio/FileFormats/SRecord.cs:904-1057 | ToString("X<w>") has at least w digits, exactly w when the number fits, and decodes back to the number |
| Hex.LongText | TuningStudio/FileFormats/SRecord.cs:642-650 | long.ToString("X") of any 64-bit value, negatives included, is decoded back to that value by HexToInt64 |
| Hex.HexBytes | TuningStudio/Modules/BaseFunctions.cs:146-161 | half as many bytes as characters |
| Hex.HexBytesAt | TuningStudio/Modules/BaseFunctions.cs:146-161 | byte i is the value of characters 2i and 2i+1 |
| Hex.HexOfBytes | TuningStudio/FileFormats/DataBlock.cs:25-40 | Convert.ToHexString writes two characters per byte |
| Hex.HexOfHexBytes | TuningStudio/FileFormats/DataBlock.cs:25-56 | decoding hexadecimal text to bytes and encoding it back gives the text in upper case |
| Hex.HexToByteArray | TuningStudio/Modules/BaseFunctions.cs:146-161 | fails exactly on odd-length hexadecimal text; non-hexadecimal text gives an empty array; otherwise byte i is the value of characters 2i and 2i+1 |
| Hex.ChecksumCompletes | TuningStudio/Modules/BaseFunctions.cs:171-200 | the checksum is two upper-case digits, and byte sum plus checksum is 0xFF mod 256 (one's complement) or 0 (two's complement) |
| Hex.ChecksumFailures | TuningStudio/Modules/BaseFunctions.cs:171-200 | non-hexadecimal text gives ""; odd-length text throws; even text throws iff it is two's complement with a zero sum |
| Hex.ChecksumEven | TuningStudio/Modules/BaseFunctions.cs:171-200 | a checksum that succeeds on hexadecimal text was taken over an even number of characters |
| Hex.HexCheckSumCalc | TuningStudio/Modules/BaseFunctions.cs:171-200 | the loop's result is the checksum specified above, throws included |
| Hex.NonWhiteFacts | TuningStudio/Modules/BaseFunctions.cs:17-32 | no white space is left; the text is no longer; text without white space is kept as it is |
| Hex.NonWhiteIdempotent | TuningStudio/Modules/BaseFunctions.cs:17-32 | removing white space twice is removing it once |
| Hex.RemoveWhiteSpaces | TuningStudio/Modules/BaseFunctions.cs:17-32 | the loop returns exactly the non-white-space characters, in order |
| Hex.SplitScanFacts | TuningStudio/Modules/BaseFunctions.cs:41-69 | at every point of the scan, the closed pieces and the open one join to the text read, and a delimiter only opens a piece |
| Hex.PiecesFacts | TuningStudio/Modules/BaseFunctions.cs:41-69 | every piece is non-empty, the pieces join back to the input, and a delimiter occurs only as a piece's first character |
| Hex.Split | TuningStudio/Modules/BaseFunctions.cs:41-69 | the loop returns exactly those pieces |
| Formats.ExtractByteCountData | TuningStudio/FileFormats/SRecord.cs:191-198 | an S-record's count covers everything after the count field, and an Intel record's count covers the data field only (IntelHex.cs:59-67) |
| Formats.CheckLine | TuningStudio/FileFormats/SRecord.cs:153-184 | a line with no error is at least the minimum length |
| Formats.CheckLineCodes | TuningStudio/FileFormats/SRecord.cs:153-184 | each error code iff its check is the first to fail, in the order start code, minimum length, hexadecimal text, decimal type, byte count; CheckLine never returns a checksum or count mismatch |
| Formats.ExtractData | TuningStudio/FileFormats/SRecord.cs:206-214 | the text from the end of the address to the last two characters, or "" when that span is empty or negative (IntelHex.cs:75-83) |
| Formats.ChecksumFieldsText | TuningStudio/FileFormats/SRecord.cs:110-134 | the checksum covers count, address and data (S-record), or count, address, type and data (Intel HEX, IntelHex.cs:28-52) |
| Formats.FieldOrderText | TuningStudio/FileFormats/SRecord.cs:110-134 | the field order of each layout after the start code |
| Formats.ParseLineOf | TuningStudio/FileFormats/SRecord.cs:221-239 | ParseLine of a checked line returns the record whose fields are the line's slices, with decoded count and address and the recomputed checksum |
| Formats.AssembleSRec | TuningStudio/FileFormats/SRecord.cs:153-214 | an assembled well-formed S-record passes CheckLine, and its slices are its fields |
| Formats.AssembleIHex | TuningStudio/FileFormats/IntelHex.cs:28-83 | an assembled well-formed Intel record passes CheckLine, and its slices are its fields |
| Formats.AssembleParses | TuningStudio/FileFormats/SRecord.cs:221-239 | round trip: a well-formed record, assembled into a line, passes CheckLine and parses back to the same record |
| Formats.ParsedFields | TuningStudio/FileFormats/SRecord.cs:221-239 | every field ParseLine returns is read off the line and is hexadecimal, the type is decimal, and the count, address and checksum are decoded or recomputed |
| Formats.AddressLengthValues | TuningStudio/FileFormats/SRecord.cs:110-134 | address fields have 4, 6 or 8 digits, and always 4 in Intel HEX (IntelHex.cs:28-52) |
| Formats.ParseLineSound | TuningStudio/FileFormats/SRecord.cs:221-239 | converse of the round trip: a parsed record whose data span is not negative is well-formed, and reassembling it gives the line back |
| Formats.ParsedDataEven | TuningStudio/FileFormats/SRecord.cs:221-239 | the data field of any parsed record is even-length hexadecimal |
| Formats.SRecTypeKnown | TuningStudio/FileFormats/SRecord.cs:110-134 | among decimal digits, every S-record type but 4 has an address length |
| Formats.IHexTypeKnown | TuningStudio/FileFormats/IntelHex.cs:28-52 | among two decimal digits, exactly 00 to 05 have an address length |
| Formats.NoAddressLengthCases | TuningStudio/FileFormats/SRecord.cs:221-239 | on a line CheckLine accepts, ParseLine throws on the address-length lookup exactly for S4 and for Intel types 06 to 99 |
| Formats.AddressPastEndCases | TuningStudio/FileFormats/SRecord.cs:221-239 | the address Substring runs past the end only for an S3 or S7 line shorter than 12 characters |
| Formats.ParseLineChecksum | TuningStudio/FileFormats/SRecord.cs:221-239 | once the address is read, ParseLine throws iff HexCheckSumCalc throws on the text it sums |
| Formats.ParseFaultIsChecksumFault | TuningStudio/FileFormats/SRecord.cs:221-239 | the checksum exception ParseLine passes on is HexCheckSumCalc's, kind for kind |
| Formats.SRecChecksumCases | TuningStudio/FileFormats/SRecord.cs:221-239 | a checked S-record throws in ParseLine iff its length is odd and its data span is not negative, and then on odd-length checksum text |
| Formats.IHexChecksumText | TuningStudio/FileFormats/IntelHex.cs:28-83 | the Intel checksum text throws on odd length iff the line has even length, and on a zero sum iff its bytes sum to 0 |
| Formats.IHexOddCases | TuningStudio/FileFormats/IntelHex.cs:28-83 | a checked Intel line with a known type throws on odd-length checksum text iff its length is even |
| Formats.IHexZeroSumCases | TuningStudio/Modules/BaseFunctions.cs:192-193 | a checked Intel line of odd length throws on the zero-sum checksum iff its count, address, type and data bytes sum to 0 |
| DataBlocks.Splice | TuningStudio/FileFormats/DataBlock.cs:88-98 | same length; the part before p and the part after the data are kept; the data lies at p |
| DataBlocks.DataBlock.RawData | TuningStudio/FileFormats/DataBlock.cs:25-40 | in byte mode the getter returns two characters per stored byte |
| DataBlocks.DataBlock.SetRawData | TuningStudio/FileFormats/DataBlock.cs:41-56 | round trip: the getter then returns exactly what was set in string mode, and its upper-case form in byte mode, with the bytes decoded into a new array; nothing else changes |
| DataBlocks.DataBlock.constructor | TuningStudio/FileFormats/DataBlock.cs:67-75 | the storage mode is fixed before the payload, so the payload lands in the chosen representation |
| DataBlocks.DataBlock.ModifyData | TuningStudio/FileFormats/DataBlock.cs:86-111 | an empty payload is left alone; otherwise the data is spliced in at character 2·offset (string mode), or its bytes overwrite those from offset on in the same array (byte mode); the addresses, the array and the length are kept |
| DataBlocks.DataBlock.ModifyBytes | TuningStudio/FileFormats/DataBlock.cs:100-110 | byte-mode overwrite in place: the bytes before and after are kept, and the getter shows the upper-case data spliced in |
| DataBlocks.OverwritePairs | TuningStudio/FileFormats/DataBlock.cs:105-108 | the loop writes the decoded bytes from position p and keeps every other byte |
| DataBlocks.DecodePairs | TuningStudio/FileFormats/DataBlock.cs:49-53 | the setter's loop fills a new array with the decoded bytes |
| DataBlocks.SplicedText | TuningStudio/FileFormats/DataBlock.cs:100-110 | the text of bytes spliced into a buffer is the buffer's text with the upper-case data spliced in |
| DataBlocks.LengthOfRendered | TuningStudio/FileFormats/DataBlock.cs:81-84 | for addresses written by long.ToString("X"), Length() is end − start + 1 |
| DataBlocks.PayloadLength | TuningStudio/FileFormats/DataBlock.cs:81-84 | a block whose payload spans its addresses has a RawData of 2·Length() characters, and Length() bytes in byte mode |
| Reader.Verdicts | TuningStudio/FileFormats/SRecord.cs:293-301 | one verdict per record (rejected by CheckLine, thrown by ParseLine, or parsed), in order |
| Reader.ScanPrefix | TuningStudio/FileFormats/SRecord.cs:271-371 | when Read gets through a file, it gets through every prefix of it |
| Reader.StepBookkeeping | TuningStudio/FileFormats/SRecord.cs:293-354 | each record moves the record number on by one and adds at most its own error; invalid records change no count |
| Reader.StepInvalid | TuningStudio/FileFormats/SRecord.cs:293-354 | a rejected line or a checksum mismatch records its error and touches no block, cursor or count |
| Reader.StepValidOther | TuningStudio/FileFormats/SRecord.cs:301-316 | a valid record that is not a data record counts no data record and touches no block |
| Reader.StepBank | TuningStudio/FileFormats/IntelHex.cs:141-146 | an 02 record sets the bank to its value·16 and an 04 record to its value·65536; every other record keeps the bank; S-records never change it |
| Reader.BankValue | TuningStudio/FileFormats/IntelHex.cs:141-146 | for bank data of at most eight digits, the appended zero digits are plain multiplications by 16 and 65536 |
| Reader.DataStepSplits | TuningStudio/FileFormats/SRecord.cs:317-343 | a data record opens a new block exactly when its address differs from the cursor; the cursor becomes address + bytes; a closed block ends at the old cursor − 1 |
| Reader.ScanErrors | TuningStudio/FileFormats/SRecord.cs:293-354 | records are numbered 1 to n; record j carries an error exactly when its checks give one, and then only CheckLine's code or the checksum or count mismatch; DataLinesCount counts the valid data records |
| Reader.ScanListsRejected | TuningStudio/FileFormats/SRecord.cs:294-354 | every record CheckLine rejects is in the error map |
| Reader.ScanLast | TuningStudio/FileFormats/SRecord.cs:284-359 | a successful Read is its last record's step applied to the read of the others |
| Reader.ScanHeader | TuningStudio/FileFormats/SRecord.cs:301-307 | HasHeader iff some valid S0 record exists; HeaderData is then the data of the last one and otherwise keeps its earlier value; Intel files never have a header |
| Reader.StepHeader | TuningStudio/FileFormats/SRecord.cs:301-307 | only a valid header record touches the header |
| Reader.DataApart | TuningStudio/FileFormats/SRecord.cs:317-343 | a data record keeps the closed blocks and the open block apart |
| Reader.StepApart | TuningStudio/FileFormats/SRecord.cs:293-354 | every record keeps the blocks apart |
| Reader.ScanSplits | TuningStudio/FileFormats/SRecord.cs:284-364 | after the file, no raw block starts right after the one before it ends |
| Reader.ScanApart | TuningStudio/FileFormats/SRecord.cs:284-359 | the blocks stay apart through the whole file |
| Reader.FinishApart | TuningStudio/FileFormats/SRecord.cs:360-364 | closing the open block at the end of the file keeps the blocks apart |
| Reader.JudgeSound | TuningStudio/FileFormats/SRecord.cs:221-239 | every parsed record has hexadecimal even-length data and a decoded address |
| Reader.ViewIdempotent | TuningStudio/FileFormats/DataBlock.cs:25-56 | reading back what the getter showed shows the same text |
| Reader.ViewAppend | TuningStudio/FileFormats/DataBlock.cs:25-56 | the getter's view of joined payloads is the joined views |
| Reader.DataTidy | TuningStudio/FileFormats/SRecord.cs:317-343 | a data record keeps every closed block well-formed (start ≥ 0, end = start + bytes − 1, payload as RawData shows it) |
| Reader.StepTidy | TuningStudio/FileFormats/SRecord.cs:293-354 | for bank records of at most four bytes (ShortBank): every record keeps the blocks well-formed, and with LoadData the payloads hold the data read so far |
| Reader.StepBankNonNegative | TuningStudio/FileFormats/IntelHex.cs:141-146 | for bank records of at most four bytes (ShortBank), the bank never becomes negative; a longer 04 record can make it negative (Reader.LongBankWraps) |
| Reader.StepData | TuningStudio/FileFormats/IntelHex.cs:147-174 | a valid data record is placed at bank + record address, with no 16-bit wrap |
| Reader.StepOther | TuningStudio/FileFormats/SRecord.cs:301-316 | any other record leaves the blocks, the cursor and the payload as they were |
| Reader.ScanTidy | TuningStudio/FileFormats/SRecord.cs:284-359 | for files whose bank records carry at most four bytes (ShortBank): through the whole file the blocks stay well-formed, and with LoadData the payloads are the valid data fields in file order |
| Reader.FinishTidy | TuningStudio/FileFormats/SRecord.cs:360-364 | closing the open block keeps the blocks well-formed |
| Reader.ScanBlocks | TuningStudio/FileFormats/SRecord.cs:284-364 | for files whose bank records carry at most four bytes (ShortBank): the raw blocks are well-formed, and with LoadData their payloads, joined in file order, are the data fields of the valid data records as RawData shows them; Reader.ScanPayloads states the payload half for any banks |
| Reader.DataPayload | TuningStudio/FileFormats/IntelHex.cs:147-174 | a data record appends its data, as RawData shows it, to the payloads held so far, at any address |
| Reader.StepPayload | TuningStudio/FileFormats/IntelHex.cs:129-186 | every record appends its data field (or nothing) to the payloads held so far, whatever the bank |
| Reader.ScanPayload | TuningStudio/FileFormats/IntelHex.cs:122-189 | through a whole file, the finished payloads followed by the builder's text are the valid data fields in file order, for any banks |
| Reader.ScanPayloads | TuningStudio/FileFormats/IntelHex.cs:122-194 | for any banks, with LoadData the raw blocks' payloads joined in file order are the valid data fields, except when no block ever opened: then there is no raw block and the data read is dropped |
| Reader.LongBankWraps | TuningStudio/FileFormats/IntelHex.cs:144-146 | a six-byte 04 record FFFFFFFFFFFF sets the bank to HexToInt64("FFFFFFFFFFFF0000") = -65536 |
| Reader.LostAtMinusOne | TuningStudio/FileFormats/IntelHex.cs:147-194 | after that bank, a data record at FFFF lands at address -1, continues the block that has no start address, and the file ends with no raw block although it holds data |
| Merge.InsertPerm | TuningStudio/FileFormats/SRecord.cs:1246-1257 | inserting a block adds exactly that block |
| Merge.InsertSorted | TuningStudio/FileFormats/SRecord.cs:1246-1257 | inserting into a list sorted by start keeps it sorted |
| Merge.SortFacts | TuningStudio/FileFormats/SRecord.cs:430-434 | the sort is ordered by start address and is a permutation of its input |
| Merge.Merged | TuningStudio/FileFormats/SRecord.cs:435-468 | the caller's list keeps its length; positions not reached yet are untouched; the running block sits at its head position |
| Merge.MergedInv | TuningStudio/FileFormats/SRecord.cs:435-468 | the merge invariant holds after every prefix of the sorted blocks |
| Merge.MergedStep | TuningStudio/FileFormats/SRecord.cs:435-468 | one more block keeps the merge invariant |
| Merge.CoalesceFacts | TuningStudio/FileFormats/SRecord.cs:435-468 | the merged blocks are sorted, no two abut, each is well-formed, and the payload is kept; each output block is exactly one maximal run of abutting sorted blocks (a block joins iff next.start − running.end = 1), spanning the run with the run's joined payload; one block is returned unchanged |
| Merge.FinalFacts | TuningStudio/FileFormats/SRecord.cs:463-467 | the state after the last block gives the merged blocks those facts |
| Merge.CoalesceOne | TuningStudio/FileFormats/SRecord.cs:428-468 | a one-block list is returned unchanged |
| Merge.MergedRuns | TuningStudio/FileFormats/SRecord.cs:435-468 | after every prefix, the output cuts that prefix into maximal runs |
| Merge.FirstRun | TuningStudio/FileFormats/SRecord.cs:438-443 | the first block is a run of its own |
| Merge.JoinRun | TuningStudio/FileFormats/SRecord.cs:446-454 | a block that starts right after the running block's end extends the last run |
| Merge.JoinedHeads | TuningStudio/FileFormats/SRecord.cs:446-459 | a new run starts exactly where next.start − previous.end ≠ 1 |
| Merge.EmitRun | TuningStudio/FileFormats/SRecord.cs:455-459 | a block that does not abut closes the run and opens one of its own |
| Merge.RunsOrdered | TuningStudio/FileFormats/SRecord.cs:435-468 | the run heads are positions of the prefix, the last one the latest |
| Merge.ContinuousFacts | TuningStudio/FileFormats/SRecord.cs:428-468 | GetContinuousBlocks of well-formed raw blocks: the sort is a permutation; the output is sorted, non-abutting and well-formed, keeps the payload, and is the maximal runs of the sorted blocks |
| Query.Wrap64 | TuningStudio/FileFormats/SRecord.cs:499-507 | long arithmetic wraps into the 64-bit range and is exact inside it |
| Query.EndOf | TuningStudio/FileFormats/SRecord.cs:499-507 | the length overloads' end address is start + len − 1 whenever that fits a long |
| Query.GetDataBlockFromRange | TuningStudio/FileFormats/SRecord.cs:515-529 | the first block containing [start, end]; none iff no block contains it |
| Query.IsInRange | TuningStudio/FileFormats/SRecord.cs:476-491 | true iff a single block contains [start, end] |
| Query.IsInRangeFor | TuningStudio/FileFormats/SRecord.cs:499-507 | with len > 0, true iff a single block contains the len bytes from start; false for len ≤ 0 |
| Query.GetDataBlockFor | TuningStudio/FileFormats/SRecord.cs:537-541 | the lookup of the range from start to start + len − 1 |
| Query.Sub | TuningStudio/FileFormats/SRecord.cs:687-708 | Substring(p, n) succeeds iff 0 ≤ p, 0 ≤ n and p + n ≤ length, and then has n characters |
| Query.LastContaining | TuningStudio/FileFormats/SRecord.cs:687-708 | the last block containing [start, end]; none iff no block contains it |
| Query.ReadRangeFacts | TuningStudio/FileFormats/SRecord.cs:687-708 | never throws on well-formed blocks; "" when LoadData is false, start > end or no block contains the range; otherwise the 2·(end − start + 1) characters from 2·(start − blockStart) of the last containing block |
| Query.RangeLoopFacts | TuningStudio/FileFormats/SRecord.cs:696-704 | the loop over all blocks keeps the slice of the last containing one |
| Query.Add | TuningStudio/FileFormats/SRecord.cs:591-611 | SortedDictionary.Add throws iff the key is present; otherwise it adds exactly that entry and keeps the keys increasing |
| Query.IntersectFacts | TuningStudio/FileFormats/SRecord.cs:589-612 | a record with even data is kept iff it meets [start, end], and only its part inside the range is kept |
| Query.RangeStep | TuningStudio/FileFormats/SRecord.cs:575-615 | one record keeps the dictionary ordered by key |
| Query.Collect | TuningStudio/FileFormats/SRecord.cs:549-634 | the scan over the records keeps the dictionary ordered by key |
| Query.AddWithin | TuningStudio/FileFormats/SRecord.cs:591-611 | adding a piece inside the range keeps every piece inside it |
| Query.CutWithin | TuningStudio/FileFormats/SRecord.cs:589-612 | a kept piece of even hexadecimal data lies inside the range and is even hexadecimal |
| Query.StepWithin | TuningStudio/FileFormats/SRecord.cs:575-615 | each record keeps every piece inside the range |
| Query.DataStepDict | TuningStudio/FileFormats/SRecord.cs:588-613 | a data record that meets the range adds its cut, and one that does not leaves the dictionary as it is |
| Query.CollectWithin | TuningStudio/FileFormats/SRecord.cs:549-634 | with even hexadecimal data in every parsed record, every piece lies inside [start, end] and holds even hexadecimal text; Query.CollectCuts says which record each piece comes from |
| Query.CollectCuts | TuningStudio/FileFormats/SRecord.cs:566-617 | the dictionary holds exactly the cuts of the file's data records that the error map does not skip, each taken at the bank read before it: no piece from elsewhere, and none missing |
| Query.StepCuts | TuningStudio/FileFormats/SRecord.cs:588-613 | a data record with a cut adds exactly that cut (one more entry), and every other record leaves the dictionary as it is |
| Query.NoGap | TuningStudio/FileFormats/SRecord.cs:622-630 | non-overlapping pieces inside [lo, e] hold at most 2·(e − lo + 1) characters, and exactly that many only when they cover every address |
| Query.ReadRangeFromFileFacts | TuningStudio/FileFormats/SRecord.cs:549-634 | the result is "" or exactly 2·(end − start + 1) hexadecimal characters; with non-overlapping records it is returned only when every address is covered |
| Query.OverlapHidesGap | TuningStudio/FileFormats/SRecord.cs:622-630 | two overlapping records can make up the length check although an address in the range is missing |
| Query.OverlapCollect | TuningStudio/FileFormats/SRecord.cs:566-617 | the loop over those two records keeps both, in key order |
| Query.Bytes | TuningStudio/Modules/BaseFunctions.cs:146-161 | HexToByteArray of even hexadecimal text gives half as many bytes |
| Query.ByteRangeAsWrittenSize | TuningStudio/FileFormats/SRecord.cs:670-679 | as written, a successful read of len bytes returns nothing or len + 1 bytes |
| Query.ByteRangeAsWrittenExample | TuningStudio/FileFormats/SRecord.cs:670-679 | as written, one byte asked for at 0 of a record AA BB returns two bytes |
| Query.ByteRangeSize | TuningStudio/FileFormats/SRecord.cs:670-679 | with end = start + len − 1, a successful read returns nothing or exactly len bytes |
| Query.ByteRangeExample | TuningStudio/FileFormats/SRecord.cs:670-679 | with end = start + len − 1, the same read returns the one byte AA |
| RecordFiles.RecordsSnoc | TuningStudio/FileFormats/SRecord.cs:284-292 | the records of one more line are those of the lines before plus that line's pieces |
| RecordFiles.RecordsPrefix | TuningStudio/FileFormats/SRecord.cs:284-292 | the records of the first lines come first |
| RecordFiles.ScanRecordsIsScan | TuningStudio/FileFormats/SRecord.cs:271-371 | reading the records one by one is the fold over their verdicts |
| RecordFiles.ScanSnoc | TuningStudio/FileFormats/SRecord.cs:293-354 | reading one more record is one more step |
| RecordFiles.ScanErrSticks | TuningStudio/FileFormats/SRecord.cs:293-298 | once ParseLine has thrown, the later records do not matter |
| RecordFiles.ThrowSticks | TuningStudio/FileFormats/SRecord.cs:291-298 | a throw on a record of a line is the outcome of reading the whole line |
| RecordFiles.ThrowEndsRead | TuningStudio/FileFormats/SRecord.cs:284-298 | a throw on a record of line i is the outcome of the whole read |
| RecordFiles.CollectRecords | TuningStudio/FileFormats/SRecord.cs:549-634 | the record-by-record scan keeps the dictionary ordered |
| RecordFiles.CollectRecordsIsCollect | TuningStudio/FileFormats/SRecord.cs:549-634 | the record-by-record scan is the fold over the verdicts |
| RecordFiles.CollectErrSticks | TuningStudio/FileFormats/SRecord.cs:573-579 | the first exception ends the scan |
| RecordFiles.CollectFileSticks | TuningStudio/FileFormats/SRecord.cs:566-579 | an exception on line i is the outcome of the whole scan |
| RecordFiles.ValuesFrom | TuningStudio/FileFormats/SRecord.cs:622-626 | the dictionary's values are joined in key order |
| RecordFiles.RecordFile.constructor | TuningStudio/FileFormats/SRecord.cs:98-105 | nothing read yet: no errors, no blocks, no header, no data lines, payloads stored as bytes |
| RecordFiles.RecordFile.ReadRecord | TuningStudio/FileFormats/SRecord.cs:293-354 | one record updates the fields exactly as the reader's step says, or reports ParseLine's exception |
| RecordFiles.RecordFile.ReadValid | TuningStudio/FileFormats/SRecord.cs:299-345 | a valid record updates the fields exactly as the step for that record type says |
| RecordFiles.RecordFile.ReadData | TuningStudio/FileFormats/SRecord.cs:317-343 | a data record opens or extends a raw block exactly as the data step says, and touches no error or header |
| RecordFiles.RecordFile.ReadLine | TuningStudio/FileFormats/SRecord.cs:289-356 | the records of one line, read in turn, give the fold's state or its first exception |
| RecordFiles.RecordFile.ReadPiece | TuningStudio/FileFormats/SRecord.cs:291-355 | record j of a line gives the fold's state after it, or the exception that ends the read |
| RecordFiles.RecordFile.Read | TuningStudio/FileFormats/SRecord.cs:271-371 | a missing file returns false and changes nothing; otherwise errors, header, count and blocks are those the fold gives, the raw blocks as the merge leaves them and the data blocks merged; a ParseLine exception is returned with its record number |
| RecordFiles.RecordFile.ReadLines | TuningStudio/FileFormats/SRecord.cs:284-359 | the loop over physical lines (white space removed, split before every start code) gives the fold over all records |
| RecordFiles.RecordFile.RangeRecord | TuningStudio/FileFormats/SRecord.cs:575-615 | one record of ReadRangeFromFile's loop does what the range step says |
| RecordFiles.RecordFile.RangeParsed | TuningStudio/FileFormats/SRecord.cs:578-614 | a parsed record moves the bank or adds its cut, as the range step says |
| RecordFiles.RecordFile.RangeData | TuningStudio/FileFormats/SRecord.cs:588-613 | a data record adds its part inside [start, end], or nothing; a Substring out of range or a duplicate key is reported as the exception |
| RecordFiles.RecordFile.RangeLine | TuningStudio/FileFormats/SRecord.cs:571-617 | the records of one line give the record-by-record scan or its first exception |
| RecordFiles.RecordFile.RangeLines | TuningStudio/FileFormats/SRecord.cs:566-619 | the loop over the physical lines gives the record-by-record scan of the file |
| RecordFiles.RecordFile.ReadRangeFromFile | TuningStudio/FileFormats/SRecord.cs:549-634 | a missing file gives ""; otherwise the result is ReadRangeFromFile's over the file's records |
| RecordFiles.RecordFile.ReadRangeFromFileFor | TuningStudio/FileFormats/SRecord.cs:642-650 | the length overload: "" for a missing file, otherwise ReadRangeFromFile(start, len) |
| RecordFiles.RecordFile.GetContinuousBlocks | TuningStudio/FileFormats/SRecord.cs:428-468 | the sort and merge loop return the merged blocks and the caller's list as the merge leaves it |
| RecordFiles.RecordFile.Modify | TuningStudio/FileFormats/SRecord.cs:1203-1229 | the result, the data blocks and the file lines are those Modify gives; on an exception nothing changes; no other field changes |
| Patch.ModifyBlock | TuningStudio/FileFormats/DataBlock.cs:86-111 | ModifyData on a block value keeps its addresses, its line numbers and its payload length |
| Patch.ModifyInMemory | TuningStudio/FileFormats/SRecord.cs:1203-1229 | where the guard passes, the block holding the len/2 bytes is found and takes the data at its offset |
| Patch.ModifyAsWrittenNull | TuningStudio/FileFormats/SRecord.cs:1211-1216 | the guard passes for 2 bytes in a 2-byte block, but the lookup as written asks for 4 bytes and finds no block |
| Patch.NewDataFacts | TuningStudio/FileFormats/SRecord.cs:1112-1153 | for a touched record and data that covers the range, no Substring fails and only the overlap changes |
| Patch.OverlayBytesFacts | TuningStudio/FileFormats/SRecord.cs:1114-1153 | the overlapping bytes of the new data are written over the record's data at the right offset |
| Patch.OverlayFacts | TuningStudio/FileFormats/SRecord.cs:1131-1153 | the record's data keeps its length, and the three parts are where they belong |
| Patch.OverlapBounds | TuningStudio/FileFormats/SRecord.cs:1112-1117 | the overlap lies inside both the record and the new data |
| Patch.OverlaySome | TuningStudio/FileFormats/SRecord.cs:1131-1153 | with the overlap in bounds, every Substring succeeds |
| Patch.NewDataHex | TuningStudio/FileFormats/SRecord.cs:1131-1153 | the new data field is hexadecimal |
| Patch.SummedText | TuningStudio/FileFormats/SRecord.cs:1119-1166 | the text the new checksum covers stays even-length hexadecimal |
| Patch.RebuiltShaped | TuningStudio/FileFormats/SRecord.cs:1119-1166 | a well-formed record with its data replaced and its checksum recomputed is well-formed |
| Patch.RebuildFacts | TuningStudio/FileFormats/SRecord.cs:1110-1166 | a rebuilt record keeps its type, count, address and length, is well-formed and parses back; it fails only on an Intel zero sum |
| Patch.ReplaceAbsent | TuningStudio/FileFormats/SRecord.cs:1168 | a line that does not contain the record's text is written unchanged |
| Patch.ReplaceWhole | TuningStudio/FileFormats/SRecord.cs:1168 | a line that is exactly the record becomes the rebuilt record |
| Patch.ReplaceEvery | TuningStudio/FileFormats/SRecord.cs:1168 | Replace changes every occurrence of the record's text in the line, not only the record itself |
| Patch.WhitespaceHidesRecord | TuningStudio/FileFormats/SRecord.cs:1168 | a record with white space inside it is not found in its raw line |
| Patch.PatchRecords | TuningStudio/FileFormats/SRecord.cs:1094-1174 | the records of one line move the record number on by their count |
| Patch.LineRecords | TuningStudio/FileFormats/SRecord.cs:1089-1090 | every record of a line is non-empty |
| Patch.PatchLines | TuningStudio/FileFormats/SRecord.cs:1087-1179 | one written line per physical line |
| Patch.ModifyInFile | TuningStudio/FileFormats/SRecord.cs:1065-1195 | the new file has as many lines as the old one |
| Patch.PatchRecordKeeps | TuningStudio/FileFormats/SRecord.cs:1096-1172 | a record that is skipped, is not a data record, or is not touched by the range leaves the line as it is |
| Patch.PatchRecordSkipped | TuningStudio/FileFormats/SRecord.cs:1096-1097 | a record with an error entry is skipped, the line left as it is |
| Patch.PatchRecordOther | TuningStudio/FileFormats/SRecord.cs:1099-1108 | a record that is not a data record only moves the bank on |
| Patch.PatchDataUntouched | TuningStudio/FileFormats/SRecord.cs:1109-1112 | a data record the range does not touch leaves the line as it is |
| Patch.PatchDataWhole | TuningStudio/FileFormats/SRecord.cs:1109-1168 | a touched record alone on its line becomes the rebuilt record |
| Patch.PatchRecordTouched | TuningStudio/FileFormats/SRecord.cs:1109-1170 | a touched data record is rebuilt and replaced in the line |
| Patch.PatchRecordOk | TuningStudio/FileFormats/SRecord.cs:1109-1170 | a data record whose patch succeeds moves the record number on and writes the patched line |
| Patch.PatchRecordErr | TuningStudio/FileFormats/SRecord.cs:1109-1170 | a data record whose patch fails fails the whole rewrite |
| Patch.PatchHidden | TuningStudio/FileFormats/SRecord.cs:1168 | a touched record written with white space inside it leaves its line unchanged |
| Patch.PatchRecordsCorrected | TuningStudio/FileFormats/SRecord.cs:1094-1174 | one written record per record of the line |
| Patch.PatchOwnText | TuningStudio/FileFormats/SRecord.cs:1109-1170 | patched on its own text, a touched data record fails exactly when its rebuild fails, and otherwise becomes the rebuilt record |
| Patch.PatchDataOwn | TuningStudio/FileFormats/SRecord.cs:1109-1170 | a record's own text becomes the rebuilt record, or the rebuild's failure |
| Patch.PatchRecordText | TuningStudio/FileFormats/SRecord.cs:1094-1172 | whether a record's patch fails, and the state it moves to, do not depend on the line text |
| Patch.PatchRecordsAgree | TuningStudio/FileFormats/SRecord.cs:1094-1174 | the corrected rewrite of a line fails exactly where the written one does, with the same state |
| Patch.PatchLinesCorrected | TuningStudio/FileFormats/SRecord.cs:1087-1179 | one written line per physical line |
| Patch.ModifyInFileCorrected | TuningStudio/FileFormats/SRecord.cs:1065-1195 | the corrected new file has as many lines as the old one |
| Patch.PatchLinesAgree | TuningStudio/FileFormats/SRecord.cs:1087-1179 | the corrected and the written rewrites fail on the same files |
| Patch.ModifyInFileAgrees | TuningStudio/FileFormats/SRecord.cs:1065-1195 | the corrected ModifyInFile returns false exactly when the written one does |
| Patch.Modify | TuningStudio/FileFormats/SRecord.cs:1203-1229 | false changes nothing; with LoadData the file is untouched, without it the blocks are; an exception is possible only with LoadData and a passing guard |
| Patch.ModifyCorrected | TuningStudio/FileFormats/SRecord.cs:1203-1229 | the same frame, with the block looked up for the len/2 bytes the guard checked |
| Patch.ModifyRefused | TuningStudio/FileFormats/SRecord.cs:1205-1211 | an empty address, data that is not even-length hexadecimal, or a range no block contains: false, and nothing changes |
| Patch.ModifyOnFile | TuningStudio/FileFormats/SRecord.cs:1220-1223 | without LoadData, Modify's result and the file are ModifyInFile's |
| Patch.ModifyInBlock | TuningStudio/FileFormats/SRecord.cs:1213-1218 | with LoadData and a block found as written, that block takes the data and Modify returns true |
| Patch.BlockTakesData | TuningStudio/FileFormats/DataBlock.cs:86-111 | a well-formed block holding the data's bytes takes the data at its offset |
| Patch.ModifyNull | TuningStudio/FileFormats/SRecord.cs:1213-1217 | with LoadData and no block holding \|data\| bytes from the address, Modify throws a null reference |
| Patch.ModifyCorrectedInBlock | TuningStudio/FileFormats/SRecord.cs:1203-1229 | corrected: whenever the guard passes with LoadData, the block containing the range takes the data and Modify returns true |
| Patch.TargetsAgree | TuningStudio/FileFormats/SRecord.cs:1211-1216 | among blocks that share no address, the lookup as written, when it finds a block, finds the one the guard checked |
| Patch.NoEarlierBlock | TuningStudio/FileFormats/SRecord.cs:515-529 | among blocks that share no address, none before a block containing the range contains it |
| Patch.FirstContaining | TuningStudio/FileFormats/SRecord.cs:515-529 | the lookup finds that block |
| Patch.ModifyAgrees | TuningStudio/FileFormats/SRecord.cs:1203-1229 | where the lookup as written finds a block, Modify as written and corrected give the same result |
| Export.ExtractFacts | TuningStudio/FileFormats/SRecord.cs:761-783 | "" unless one block contains the range; on well-formed blocks and records the in-memory read cannot throw, and the text is "" or exactly the range's bytes |
| Export.LongRenderFacts | TuningStudio/FileFormats/SRecord.cs:1005 | an address rendered at width w that fits has exactly w digits and decodes back to itself |
| Export.SRecParamsBounds | TuningStudio/FileFormats/SRecord.cs:906-931 | corrected parameters: width 2 to 4, a record that fits a one-byte count, a kept start address that fits the address field; parameters already in range are kept |
| Export.SRecParamsAsWrittenOverflow | TuningStudio/FileFormats/SRecord.cs:906-931 | as written, width 2, 252-byte records and an eight-digit start give a byte count of 257, and a full record throws |
| Export.SRecParamsAsWrittenNarrow | TuningStudio/FileFormats/SRecord.cs:906-931 | as written, width 2 and a five-digit start keep the width at 2, and the first record throws |
| Export.OddBody | TuningStudio/Modules/BaseFunctions.cs:171-200 | a record body of odd length throws in the checksum |
| Export.ChunkStart | TuningStudio/FileFormats/SRecord.cs:989-1000 | every record i below the record count starts inside the data, at character i·2·dataLength |
| Export.ChunkAt | TuningStudio/FileFormats/SRecord.cs:1000-1006 | record i holds 1 to dataLength bytes |
| Export.RecordAddressIs | TuningStudio/FileFormats/SRecord.cs:980-1011 | record i is written at start + i·dataLength |
| Export.SRecDataLinesFail | TuningStudio/FileFormats/SRecord.cs:994-1012 | once a record throws, the later records do not change the outcome |
| Export.Utf8Char | TuningStudio/Modules/BaseFunctions.cs:71-80 | UTF-8 gives 1 to 4 bytes per character, and an ASCII character is its own byte |
| Export.Utf8Ascii | TuningStudio/Modules/BaseFunctions.cs:71-80 | ASCII text encodes to one byte per character |
| Export.Utf8Wide | TuningStudio/Modules/BaseFunctions.cs:71-80 | characters from U+0800 to U+FFFF encode to three bytes each |
| Export.HeaderTextFacts | TuningStudio/FileFormats/SRecord.cs:961-970 | no specific header: the file's HeaderData; otherwise the encoded header, which for ASCII is the header as written |
| Export.HeaderTextHex | TuningStudio/FileFormats/SRecord.cs:961-970 | the corrected header is even hexadecimal text of at most maxData bytes |
| Export.HeaderTextAscii | TuningStudio/FileFormats/SRecord.cs:961-970 | for an ASCII header, the cut as written and the corrected cut agree |
| Export.HeaderTextAsWrittenOverflow | TuningStudio/FileFormats/SRecord.cs:963-964 | 85 characters U+30A2 at width 4: as written the S0 line throws, corrected it is written |
| Export.WideHeaderThrows | TuningStudio/FileFormats/SRecord.cs:963-964 | as written, that header makes an S0 line that throws |
| Export.WideHeaderCut | TuningStudio/FileFormats/SRecord.cs:963-964 | cut to maxData bytes, the same header makes an S0 line |
| Export.SRecDataLinesParams | TuningStudio/FileFormats/SRecord.cs:994-1012 | the data records depend on the parameters only through width and record length |
| Export.SRecLinesParams | TuningStudio/FileFormats/SRecord.cs:957-1045 | all the lines depend on the parameters only through width and record length |
| Export.SRecExportAgrees | TuningStudio/FileFormats/SRecord.cs:904-1057 | for a start address that does not widen the field or has even length, a record length both bounds treat alike, and an ASCII header that neither cut shortens differently, the export as written and the corrected export write the same lines |
| Export.SRecInputsAgree | TuningStudio/FileFormats/SRecord.cs:906-970 | under those conditions both settle on the same width, record length, start address and header |
| Export.SRecWriteData | TuningStudio/FileFormats/SRecord.cs:989-1012 | the loop writes the data records the export specifies, or its first exception |
| Export.SRecDataRecord | TuningStudio/FileFormats/SRecord.cs:996-1011 | one turn of the loop writes the next record at the next address |
| Export.DataLinesSnoc | TuningStudio/FileFormats/SRecord.cs:994-1012 | one more record extends the lines by that record |
| Export.DataLineAtIndex | TuningStudio/FileFormats/SRecord.cs:996-1009 | line i of the data is record i |
| Export.SRecWriteLines | TuningStudio/FileFormats/SRecord.cs:957-1045 | the loops write header, data records, optional count record and termination record in that order, exactly when the export's lines succeed |
| Export.SRecExportRangeToFile | TuningStudio/FileFormats/SRecord.cs:904-1057 | the method's outcome (lines, false, or a caught exception) is the export as written |
| Export.BodyChecksum | TuningStudio/Modules/BaseFunctions.cs:171-200 | a record body the export builds has a checksum |
| Export.SRecShapedOf | TuningStudio/FileFormats/SRecord.cs:957-1045 | the fields the export writes make a well-formed S-record |
| Export.SRecLineParses | TuningStudio/FileFormats/SRecord.cs:957-1045 | a line the export writes parses back to those fields |
| Export.SRecLineText | TuningStudio/FileFormats/SRecord.cs:957-1045 | the export's text of a line is the assembly of its fields |
| Export.AssembledReadsAs | TuningStudio/FileFormats/SRecord.cs:271-371 | an assembled well-formed record reads back as its type, address and data |
| Export.SRecTypedLineReads | TuningStudio/FileFormats/SRecord.cs:957-1045 | every line the export writes reads back with its type, address and data |
| Export.SRecDataLineReads | TuningStudio/FileFormats/SRecord.cs:996-1009 | a data record reads back as data at its address, with its chunk |
| Export.DataTypeFacts | TuningStudio/FileFormats/SRecord.cs:941-955 | width 2, 3, 4 selects data records S1, S2, S3 |
| Export.SRecHeaderLineReads | TuningStudio/FileFormats/SRecord.cs:959-977 | the S0 line reads back as the header with its data |
| Export.SRecCountLineReads | TuningStudio/FileFormats/SRecord.cs:1014-1034 | for fewer than 16^6 data records, the count record reads back as a lines count holding their number |
| Export.CountLineReads | TuningStudio/FileFormats/SRecord.cs:1019-1033 | S5 with a two-byte count up to 65535 data records, S6 with a three-byte count above; either reads back as the count |
| Export.EmptyBodyReads | TuningStudio/FileFormats/SRecord.cs:1014-1045 | a record without data reads back with no data |
| Export.SRecEndLineReads | TuningStudio/FileFormats/SRecord.cs:1036-1045 | the termination record (S9, S8 or S7 by width) reads back with address 0 and no data, as a type the reader leaves unclassified |
| Export.EndLineReads | TuningStudio/FileFormats/SRecord.cs:1036-1045 | the termination record of each width reads back with address 0 and no data |
| Export.Chunks | TuningStudio/FileFormats/SRecord.cs:994-1012 | k records carry k chunks |
| Export.LineCountCovers | TuningStudio/FileFormats/SRecord.cs:989-993 | ceil(\|data\| / (2·dataLength)) records cover the data |
| Export.ChunksPrefix | TuningStudio/FileFormats/SRecord.cs:994-1012 | the chunks of the first records come first |
| Export.ChunksSnoc | TuningStudio/FileFormats/SRecord.cs:994-1012 | one more record adds one chunk |
| Export.ChunksConcat | TuningStudio/FileFormats/SRecord.cs:989-1012 | the chunks join back to the data |
| Export.ChunkFull | TuningStudio/FileFormats/SRecord.cs:1000-1001 | every record but the last holds dataLength bytes |
| Export.ChunkHex | TuningStudio/FileFormats/SRecord.cs:1000-1006 | every chunk is even hexadecimal text |
| Export.ChunkArith | TuningStudio/FileFormats/SRecord.cs:1000-1006 | the chunk positions stay inside the data |
| Export.DataLineAtReads | TuningStudio/FileFormats/SRecord.cs:996-1009 | data record i reads back at its address with its chunk |
| Export.SRecDataLinesLength | TuningStudio/FileFormats/SRecord.cs:994-1012 | the number of data lines is the number of records |
| Export.SRecDataLinesIndex | TuningStudio/FileFormats/SRecord.cs:994-1012 | data line i is record i |
| Export.SRecDataLinesOk | TuningStudio/FileFormats/SRecord.cs:994-1012 | no data record throws when the records fit |
| Export.DataLinesAllOk | TuningStudio/FileFormats/SRecord.cs:994-1012 | the data records all succeed together |
| Export.DataLineAtOk | TuningStudio/FileFormats/SRecord.cs:996-1009 | each data record that fits succeeds |
| Export.SRecDataLinesRead | TuningStudio/FileFormats/SRecord.cs:989-1012 | ceil(\|data\| / (2·dataLength)) data records, record i read back at start + i·dataLength with its chunk |
| Export.SRecLinesRead | TuningStudio/FileFormats/SRecord.cs:957-1045 | each line of the export reads back as its kind |
| Export.SRecLinesParts | TuningStudio/FileFormats/SRecord.cs:957-1045 | the export is header, data records, optional count, termination |
| Export.SRecLinesReadBack | TuningStudio/FileFormats/SRecord.cs:957-1045 | read back: the header with its data, record i at start + i·dataLength with chunks that join to the data, the number of data records if a count is asked for, and last the termination record at address 0 |
| Export.SRecLinesOk | TuningStudio/FileFormats/SRecord.cs:957-1045 | no checksum throws in an export that fits |
| Export.SRecExportFits | TuningStudio/FileFormats/SRecord.cs:904-1057 | on well-formed input the extracted data and the corrected parameters fit the read-back conditions |
| Export.HeaderFits | TuningStudio/FileFormats/SRecord.cs:959-977 | the header fits its record |
| Export.DataFits | TuningStudio/FileFormats/SRecord.cs:932-933 | the data fits its records |
| Export.SRecExportReads | TuningStudio/FileFormats/SRecord.cs:904-1057 | the corrected export never throws on well-formed input; it returns false iff the extracted data is empty (no single block holds the range), and otherwise writes the lines that read back |
| IntelExport.Pad8 | TuningStudio/FileFormats/IntelHex.cs:243-252 | PadLeft(8, '0') gives at least eight characters |
| IntelExport.HighText | TuningStudio/FileFormats/IntelHex.cs:243-252 | the upper four characters of the padded start |
| IntelExport.LowText | TuningStudio/FileFormats/IntelHex.cs:243-252 | the lower four characters of the padded start |
| IntelExport.FourDigits | TuningStudio/FileFormats/IntelHex.cs:254-255 | HexToInt of four characters is below 0x10000 or the MinValue sentinel, and the value when they are hexadecimal |
| IntelExport.IHexBody | TuningStudio/FileFormats/IntelHex.cs:276-334 | the body of an Intel line is whole bytes of hexadecimal text, whose sum is at least count plus type |
| IntelExport.IHexShapedOf | TuningStudio/FileFormats/IntelHex.cs:276-334 | the fields the export writes make a well-formed Intel record |
| IntelExport.IHexLineText | TuningStudio/FileFormats/IntelHex.cs:276-334 | the export's text of an Intel line is the assembly of its fields |
| IntelExport.IHexLineParses | TuningStudio/FileFormats/IntelHex.cs:276-334 | a line with data or a non-zero type has a checksum and parses back to its fields |
| IntelExport.IHexLineReads | TuningStudio/FileFormats/IntelHex.cs:276-334 | such a line reads back as its type, address and data |
| IntelExport.ChunkReads | TuningStudio/FileFormats/IntelHex.cs:276-334 | a data record inside a bank reads back at its lower address with its data |
| IntelExport.BankLineReads | TuningStudio/FileFormats/IntelHex.cs:260-271 | the 04 record reads back as an extended linear address holding the bank's four digits |
| IntelExport.BankReads | TuningStudio/FileFormats/IntelHex.cs:304-314 | a bank record of the loop reads back with the bank number |
| IntelExport.EndLineText | TuningStudio/FileFormats/IntelHex.cs:337 | ":00000001FF" is the line of a type-01 record without data at address 0 |
| IntelExport.EndChecksum | TuningStudio/FileFormats/IntelHex.cs:337 | its checksum is FF |
| IntelExport.EndLineReads | TuningStudio/FileFormats/IntelHex.cs:337 | the end-of-file line reads back as the termination record |
| IntelExport.RenderItemsEach | TuningStudio/FileFormats/IntelHex.cs:276-334 | the records render iff each one does, one line per record |
| IntelExport.RenderItemsAppend | TuningStudio/FileFormats/IntelHex.cs:276-334 | two runs of records render iff both do, their lines joined |
| IntelExport.RenderItemsFirstError | TuningStudio/FileFormats/IntelHex.cs:276-334 | the first exception ends the export |
| IntelExport.ZeroChunkFails | TuningStudio/Modules/BaseFunctions.cs:192-193 | a data record without data at address 0 throws on its zero checksum |
| IntelExport.BankEndChunkFails | TuningStudio/FileFormats/IntelHex.cs:281-334 | a data record without data at address 0x10000 has a five-digit address and throws |
| IntelExport.RenderedChunkHoldsData | TuningStudio/FileFormats/IntelHex.cs:276-334 | a data record at 0 or 0x10000 that renders holds data |
| IntelExport.SplitShape | TuningStudio/FileFormats/IntelHex.cs:281-333 | as written, when low + dataLength − 1 > 0xFFFF: a record of the 0x10000 − low bytes left in the bank, the 04 record of high + 1, a record at 0, then the rest |
| IntelExport.SplitParts | TuningStudio/FileFormats/IntelHex.cs:281-333 | when that export succeeds, the records around the split hold data |
| IntelExport.NormalAgrees | TuningStudio/FileFormats/IntelHex.cs:320-333 | inside a bank, the written and the corrected loop take the same step |
| IntelExport.SplitAgrees | TuningStudio/FileFormats/IntelHex.cs:281-333 | at a split that leaves data, the written and the corrected loop write the same records |
| IntelExport.AsWrittenAgrees | TuningStudio/FileFormats/IntelHex.cs:276-334 | whenever the loop as written gets through, it writes exactly the records of the corrected loop |
| IntelExport.PlanCovers | TuningStudio/FileFormats/IntelHex.cs:276-334 | the data records carry the data, in order |
| IntelExport.PlanFits | TuningStudio/FileFormats/IntelHex.cs:276-334 | within the 32-bit address space, every record is a four-digit bank or 1 to dataLength bytes that stay inside their bank |
| IntelExport.PlanPlaced | TuningStudio/FileFormats/IntelHex.cs:276-334 | the data is placed contiguously from the start address, and each bank record names the next bank exactly where the previous one is full |
| IntelExport.ItemReads | TuningStudio/FileFormats/IntelHex.cs:276-334 | a record that fits renders and reads back |
| IntelExport.PlanReads | TuningStudio/FileFormats/IntelHex.cs:276-334 | the corrected loop's records all render and read back, one line each |
| IntelExport.IHexLinesShape | TuningStudio/FileFormats/IntelHex.cs:260-337 | the corrected lines are the first 04 record, the loop's lines, and the end-of-file record |
| IntelExport.IHexLinesReadBack | TuningStudio/FileFormats/IntelHex.cs:260-337 | read back: the first line is the start's bank, each record reads back as what it holds, the last line is the termination record |
| IntelExport.IHexLinesAgree | TuningStudio/FileFormats/IntelHex.cs:260-337 | lines as written that no exception cut short are the corrected lines |
| IntelExport.IHexExportAgrees | TuningStudio/FileFormats/IntelHex.cs:203-349 | an export as written that does not return false behaves as the corrected export |
| IntelExport.IHexExportReads | TuningStudio/FileFormats/IntelHex.cs:203-349 | the corrected export never throws on well-formed input that fits 32 bits; it returns false iff the extracted data is empty (no single block holds the range), and otherwise writes lines that read back |
| IntelExport.SplitTakesAllDataPlan | TuningStudio/FileFormats/IntelHex.cs:281-333 | one byte at 0xFFFF in records of 32: as written, the split leaves a record of no data at 0 |
| IntelExport.SplitTakesAllData | TuningStudio/FileFormats/IntelHex.cs:281-333 | that export returns false as written; the corrected export writes the byte |
| IntelExport.BankEndsExactlyPlan | TuningStudio/FileFormats/IntelHex.cs:281-334 | two bytes at 0xFFFF in records of 1: as written, a record of no data at 0x10000 follows the end of the bank |
| IntelExport.BankEndsExactly | TuningStudio/FileFormats/IntelHex.cs:281-334 | that export returns false as written; the corrected export opens bank 1 for the second byte |
| IntelExport.SplitPastData | TuningStudio/FileFormats/IntelHex.cs:281-333 | two bytes at 0xFFF0 in records of 32: as written the export returns false; corrected, the bytes are written |
| IntelExport.IHexStep | TuningStudio/FileFormats/IntelHex.cs:276-334 | one turn of the corrected loop writes the bank or data record the plan says, or ends with its exception |
| IntelExport.IHexBankRecord | TuningStudio/FileFormats/IntelHex.cs:283-314 | the bank record once the bank is full |
| IntelExport.IHexDataRecord | TuningStudio/FileFormats/IntelHex.cs:320-333 | one data record of the least of what is left, dataLength bytes, and the room in the bank |
| IntelExport.IHexWriteRecords | TuningStudio/FileFormats/IntelHex.cs:276-334 | the corrected loop writes exactly the planned records, or the first exception |
| IntelExport.IHexExportRangeToFileCorrected | TuningStudio/FileFormats/IntelHex.cs:203-349 | the method's outcome is the corrected export |
| IntelExport.PlanAsWrittenInside | TuningStudio/FileFormats/IntelHex.cs:320-333 | as written, inside the bank: one record, then the rest |
| IntelExport.PlanAsWrittenAcross | TuningStudio/FileFormats/IntelHex.cs:281-333 | as written, across the bank end: the rest of the bank, the 04 record, a record at 0, then the rest |
| IntelExport.IHexStepAsWritten | TuningStudio/FileFormats/IntelHex.cs:276-334 | one turn of the loop as written, or the exception that ends it |
| IntelExport.IHexChunkLine | TuningStudio/FileFormats/IntelHex.cs:320-330 | a data record as the loop assembles it |
| IntelExport.IHexBankLine | TuningStudio/FileFormats/IntelHex.cs:304-314 | an extended linear address record as the loop assembles it |
| IntelExport.IHexCrossAsWritten | TuningStudio/FileFormats/IntelHex.cs:281-333 | the loop's split as written writes the three records of PlanAsWrittenAcross |
| IntelExport.IHexWriteRecordsAsWritten | TuningStudio/FileFormats/IntelHex.cs:276-334 | the loop as written writes the records of the written plan, or fails |
| IntelExport.IHexLinesAsWrittenParts | TuningStudio/FileFormats/IntelHex.cs:260-337 | the lines as written are the first 04 record, the loop's lines and the end-of-file record |
| IntelExport.IHexExportRangeToFile | TuningStudio/FileFormats/IntelHex.cs:203-349 | the method's outcome is the export as written |

## Left out

- File-system plumbing is left out: `File.Exists`, `StreamReader`/`StreamWriter`, the temporary file of `ModifyInFile` with its `File.Delete`/`File.Move` (SRecord.cs:1069-1075, 1184-1186), and the partial file `ExportRangeToFile` leaves behind when a checksum throws after the writer was opened. A file is a `seq<string>` of lines (`Option` for a missing file), and an export's result is its lines.
- Export.ExtractDataRange: does not model the `IsFileChanged` timestamp check and the re-`Read` it triggers (SRecord.cs:377-389, 766-770); the range is read from the state given.
- DataBlocks.DataBlock.SetRawData: requires even-length hexadecimal text in byte mode, where the setter throws in `Convert.ToByte` or `Substring`.
- DataBlocks.DataBlock.constructor: the same requirement, because it calls the setter.
- DataBlocks.DataBlock.ModifyData: requires the offsets to be in range and, in byte mode, even hexadecimal data. The C# code throws otherwise, and in byte mode it may already have written some bytes when it throws.
- Patch.PatchRecord: returns an error for a record that `CheckLine` rejects but that is missing from the error map. The C# code instead calls `ParseLine` on it and patches it. This happens only when the file changed after `Read` (`Reader.ScanListsRejected` shows that `Read` lists every rejected record).
- Reader.ScanBlocks: its well-formedness half (non-negative addresses, two characters per byte) holds only for files whose 02 and 04 records carry at most four bytes. A longer 04 record makes `HexToInt64` wrap (`Reader.LongBankWraps`) or give the `long.MinValue` sentinel, so the bank and the blocks' addresses can become negative. `Reader.StepTidy`, `Reader.StepBankNonNegative` and `Reader.ScanTidy` carry the same condition. The payload half holds for any banks (`Reader.ScanPayloads`).
- Query.RangeStep: returns an error for a record that `CheckLine` rejects but that is missing from the error map. `ReadRangeFromFile` (SRecord.cs:575-579) instead calls `ParseLine` on it and goes on, or throws. This happens only when the file changed after `Read` (`Reader.ScanListsRejected` shows that `Read` lists every rejected record).
- Export.HeaderTextAsWritten: cuts the header after `maxDataLength` Unicode scalar values. C#'s `Substring` counts UTF-16 code units, so with characters above U+FFFF it cuts earlier, and it can split a surrogate pair, which UTF-8 then encodes as EF BF BD. The model is exact for headers without such characters.
- Formats.CheckLine: counts a line's length in Unicode scalar values, where C#'s `Length` counts UTF-16 code units. A character above U+FFFF counts once here and twice in C#. So `":" + 8 hex digits + U+1F600` is `LowerThanMinimumLength` here and `RawDataNotHex` in C#. The same holds for every other length and `Substring` in the model: it is exact for text without characters above U+FFFF.
- Merge.SortByStart: a stable insertion sort. `List.Sort` (SRecord.cs:433) is an unstable introsort, so the merge of blocks with equal start addresses may see them in another order.
- RecordFiles.RecordFile.Read: states nothing about the fields after a `ParseLine` exception. The C# code leaves them partly updated.
- RecordFiles.RecordFile: holds its blocks as `Block` values. The merge's in-place update of the caller's `RawDataBlocks` (SRecord.cs:431-453) is modelled by the list it returns (`RawAfterMerge`). The aliasing between the two lists' `DataBlock` objects is not modelled. The `DataBlock` class is modelled on its own.
- Patch.ModifyInFile: modelled as a function over the lines rather than as the `StringBuilder` loop.
- The layout values that C# keeps in static fields shared by all instances (SRecord.cs:48-59) are one immutable value per format. The aliasing between an `SRecord` and an `IntelHex` object is not modelled.
- .NET `int`/`long` arithmetic is unbounded here, except in `HexToInt`/`HexToInt64` (which give the `MinValue` sentinel) and in the length overloads' `start + len - 1` (`Query.Wrap64`). `Convert.ToInt32` of the type field only tests for decimal digits.
- `HasErrors` and `HasData` (SRecord.cs:395-425) are the tests `|errors| > 0` and `dataLinesCount > 0` on the fields, and are not written out.
- `ReadByteRange` and `ExtractByteDataRange` (SRecord.cs:732-755, 807-850) are `HexToByteArray` of `ReadRange` and `ExtractDataRange`, and are not written out.
- `ExportRangeToBin` (SRecord.cs:854-895) only writes bytes of a range modelled above. `ReadFromBin` and `SaveAs` (SRecord.cs:1231-1239) always return false.
- The UI in `MainWindow.xaml.cs` is not part of this model.
- The `try`/`catch` blocks are case splits on `Result` values. An exception caught inside `ExportRangeToFile` or `ModifyInFile` makes the result false.

## Findings

| source | as written | input that shows it | evidently intended | confidence | as-written member | corrected member |
|---|---|---|---|---|---|---|
| TuningStudio/FileFormats/SRecord.cs:674 | `ReadByteRangeFromFile(start, len)` uses `start + len` as the end address | one record `AABB` at 0, asked for 1 byte at 0: returns 2 bytes | end address `start + len - 1`, as in the other length overloads | not executed | Query.ByteRangeAsWrittenExample | Query.ByteRangeSize |
| TuningStudio/FileFormats/SRecord.cs:1216 | `Modify` looks up the block with `data.Length` (characters) as a byte count, after the guard checked `data.Length / 2` bytes (:1211) | a block 0..1 holding `AABB`, `Modify("0", "CCDD")`: the guard passes, the lookup returns null, `ModifyData` throws a null reference | look up `data.Length / 2` bytes | not executed | Patch.ModifyNull | Patch.ModifyCorrectedInBlock |
| TuningStudio/FileFormats/SRecord.cs:1168 | the rebuilt record replaces the record's text in the raw physical line with `String.Replace` | the line `S1 05`: the record `S105` is not found in it and the line is kept (Patch.WhitespaceHidesRecord); the line `:AB:CD:AB` with record `:AB`: both copies become `:EF` (Patch.ReplaceEvery) | write the rebuilt record in the record's own place | not executed | Patch.WhitespaceHidesRecord | Patch.PatchOwnText |
| TuningStudio/FileFormats/SRecord.cs:906-929 | the width is widened to fit a long new start address only in whole bytes (5 digits at width 2 stay at width 2), and the record-length bound uses the width before it is widened | `(2, 32, "12345")`: the records throw on odd-length text; `(2, 252, "00000000")`: byte count 257 and the records throw | widen to fit the start address, and bound the record length by the width actually written | not executed | Export.SRecParamsAsWrittenNarrow | Export.SRecParamsBounds |
| TuningStudio/FileFormats/SRecord.cs:963-964 | the specific header is cut to `maxDataLength` characters before UTF-8 encoding | 85 × U+30A2 at width 4: 255 bytes, byte count 258, the S0 line throws | cut to `maxDataLength` bytes after encoding | not executed | Export.HeaderTextAsWrittenOverflow | Export.WideHeaderCut |
| TuningStudio/FileFormats/IntelHex.cs:281-318 | at a bank split the loop always writes a record at address 0 of the next bank, and steps `startIndex` and the low address by a whole `dataLength` | one byte at 0xFFFF, records of 32: a record of no data at 0 throws on a zero checksum; two bytes at 0xFFFF, records of 1: a record of no data at 0x10000 throws | write only the data that is left, and open the next bank when the current one is full | not executed | IntelExport.SplitTakesAllData | IntelExport.IHexExportReads |
