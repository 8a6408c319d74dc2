/** Record layouts of the two formats and the per-record logic: validation
    (CheckLine), field extraction (ExtractByteCountData, ExtractData),
    parsing with checksum recomputation (ParseLine) and type classification
    (GetRecordType).

    SRecord and IntelHex keep the layout in static fields that each format's
    constructor overwrites; here every format owns an immutable Layout value,
    and the format-specific hooks dispatch on the closed Format type. */
module Formats {
  import opened Wrappers
  import opened Hex

  /** Per-record error kinds of the reader; NoError stands for ErrorCode.None. */
  datatype ErrorCode =
    | NoError
    | NotStartingWithStartCode
    | UnknownRecordType
    | LowerThanMinimumLength
    | LengthMismatch
    | RawDataNotHex
    | ChecksumMismatch
    | DataLinesCountMismatch

  datatype RecordType =
    | Header | Data | LinesCount | Termination
    | ExtendedSegmentAddress | StartSegmentAddress
    | ExtendedLinearAddress | StartLinearAddress
    | Reserved | Other

  /** The named parts of a record line. */
  datatype Field = TypeField | ByteCountField | AddressField | DataField | ChecksumField

  datatype Layout = Layout(
    startCode: char,
    byteCountPosition: nat, byteCountLength: nat,
    recordTypePosition: nat, recordTypeLength: nat,
    addressPosition: nat,
    checksumLength: nat,
    onesComplement: bool,
    minLength: nat,
    checksumFields: seq<Field>,        // fields whose text is summed, in order
    fieldOrder: seq<Field>)            // fields after the start code, in order

  datatype Format = SRec | IHex

  function LayoutOf(f: Format): Layout {
    match f
    case SRec =>
      Layout('S', 2, 2, 1, 1, 4, 2, true, 10,
        [ByteCountField, AddressField, DataField],
        [TypeField, ByteCountField, AddressField, DataField, ChecksumField])
    case IHex =>
      Layout(':', 1, 2, 7, 2, 3, 2, false, 11,
        [ByteCountField, AddressField, TypeField, DataField],
        [ByteCountField, AddressField, TypeField, DataField, ChecksumField])
  }

  /** Hexadecimal digits of the address field, by type code. */
  function AddressLengths(f: Format): map<string, nat> {
    match f
    case SRec => map["0" := 4, "1" := 4, "2" := 6, "3" := 8, "5" := 4, "6" := 6, "7" := 8, "8" := 6, "9" := 4]
    case IHex => map["00" := 4, "01" := 4, "02" := 4, "03" := 4, "04" := 4, "05" := 4]
  }

  predicate IsDecimalChar(c: char) { '0' <= c <= '9' }

  /** What Convert.ToInt32(s) accepts among hexadecimal text: decimal digits only. */
  predicate AllDecimal(s: string) {
    forall i :: 0 <= i < |s| ==> IsDecimalChar(s[i])
  }

  function TypeText(f: Format, line: string): string
    requires |line| >= LayoutOf(f).minLength
  {
    var L := LayoutOf(f);
    line[L.recordTypePosition..L.recordTypePosition + L.recordTypeLength]
  }

  function ByteCountText(f: Format, line: string): string
    requires |line| >= LayoutOf(f).minLength
  {
    var L := LayoutOf(f);
    line[L.byteCountPosition..L.byteCountPosition + L.byteCountLength]
  }

  /** The number of bytes the byte count must declare for a line of length n:
      everything after the count for an S-record, the data field alone for
      Intel HEX (the division truncates). */
  function CountedBytes(f: Format, n: nat): int {
    match f
    case SRec => (n - 4) / 2
    case IHex => (n - 11) / 2
  }

  /** The text the byte count covers. For an S-record everything after the
      count (address, data and checksum); for Intel HEX the data field only. */
  function ExtractByteCountData(f: Format, line: string): (r: string)
    requires |line| >= LayoutOf(f).minLength
    ensures f.SRec? ==> r == line[4..] && |r| == |line| - 4
    ensures f.IHex? ==> r == line[9..|line| - 2] && |r| == |line| - 11
  {
    var L := LayoutOf(f);
    match f
    case SRec => line[L.byteCountPosition + L.byteCountLength..]
    case IHex =>
      var dataLength := |line| - 1 - L.recordTypeLength - L.checksumLength - L.byteCountLength - AddressLengths(f)["00"];
      line[L.recordTypePosition + L.recordTypeLength..L.recordTypePosition + L.recordTypeLength + dataLength]
  }

  /** CheckLine: the first failing check, in the fixed order start code,
      minimum length, hexadecimal text, decimal type field, byte count. */
  function CheckLine(f: Format, line: string): (r: ErrorCode)
    ensures r == NoError ==> |line| >= LayoutOf(f).minLength
  {
    var L := LayoutOf(f);
    if |line| == 0 || line[0] != L.startCode then NotStartingWithStartCode
    else if |line| < L.minLength then LowerThanMinimumLength
    else if !AllHex(line[1..]) then RawDataNotHex
    else if !AllDecimal(TypeText(f, line)) then UnknownRecordType
    else
      assert AllHex(ByteCountText(f, line)) by {
        assert forall i :: 0 <= i < L.byteCountLength ==>
          ByteCountText(f, line)[i] == line[1..][L.byteCountPosition - 1 + i];
      }
      if HexValue(ByteCountText(f, line)) != |ExtractByteCountData(f, line)| / 2 then LengthMismatch
      else NoError
  }

  /** The code CheckLine gives, case by case. */
  lemma {:induction false} CheckLineCodes(f: Format, line: string)
    ensures CheckLine(f, line) == NotStartingWithStartCode <==> |line| == 0 || line[0] != LayoutOf(f).startCode
    ensures CheckLine(f, line) == LowerThanMinimumLength <==>
      |line| > 0 && line[0] == LayoutOf(f).startCode && |line| < LayoutOf(f).minLength
    ensures CheckLine(f, line) == RawDataNotHex <==>
      |line| >= LayoutOf(f).minLength && line[0] == LayoutOf(f).startCode && !AllHex(line[1..])
    ensures CheckLine(f, line) == UnknownRecordType <==>
      |line| >= LayoutOf(f).minLength && line[0] == LayoutOf(f).startCode && AllHex(line[1..]) &&
      !AllDecimal(TypeText(f, line))
    ensures CheckLine(f, line) == NoError <==>
      |line| >= LayoutOf(f).minLength && line[0] == LayoutOf(f).startCode && AllHex(line[1..]) &&
      AllDecimal(TypeText(f, line)) &&
      HexValue(ByteCountText(f, line)) == CountedBytes(f, |line|)
    ensures CheckLine(f, line) != ChecksumMismatch && CheckLine(f, line) != DataLinesCountMismatch
  {
  }

  /** ExtractData: the text between the end of the address and the final
      checksum characters; empty when that span is empty or negative. */
  function ExtractData(f: Format, line: string, typ: string): (r: string)
    requires typ in AddressLengths(f)
    ensures var start := DataStart(f, typ);
      if start <= |line| - 2 then r == line[start..|line| - 2] else r == ""
  {
    var L := LayoutOf(f);
    var dataLength := |line| - 1 - L.recordTypeLength - L.byteCountLength - AddressLengths(f)[typ] - L.checksumLength;
    if dataLength > 0 then
      match f
      case SRec => line[L.addressPosition + AddressLengths(f)[typ]..L.addressPosition + AddressLengths(f)[typ] + dataLength]
      case IHex => line[L.recordTypePosition + L.recordTypeLength..L.recordTypePosition + L.recordTypeLength + dataLength]
    else ""
  }

  /** Where the data field starts for a record type. */
  function DataStart(f: Format, typ: string): nat
    requires typ in AddressLengths(f)
  {
    match f
    case SRec => 4 + AddressLengths(f)[typ]
    case IHex => 9
  }

  /** The fields of a parsed record (ParseLine's dictionary). */
  datatype Record = Record(
    typ: string,
    byteCount: string,
    byteCountInt: int,
    addressLength: nat,
    address: string,
    addressLong: int,
    data: string,
    checksum: string,
    checksumCalc: string)

  function FieldText(r: Record, fd: Field): string {
    match fd
    case TypeField => r.typ
    case ByteCountField => r.byteCount
    case AddressField => r.address
    case DataField => r.data
    case ChecksumField => r.checksum
  }

  /** The texts of the given fields, concatenated in order. */
  function JoinFields(r: Record, fields: seq<Field>): string {
    if fields == [] then [] else JoinFields(r, fields[..|fields| - 1]) + FieldText(r, fields[|fields| - 1])
  }

  lemma {:induction false} JoinSnoc(r: Record, fs: seq<Field>, x: Field)
    ensures JoinFields(r, fs + [x]) == JoinFields(r, fs) + FieldText(r, x)
  {
    assert (fs + [x])[..|fs|] == fs;
  }

  lemma {:induction false} JoinOne(r: Record, a: Field)
    ensures JoinFields(r, [a]) == FieldText(r, a)
  {
    assert [a][..0] == [];
    assert JoinFields(r, []) == [];
  }

  lemma {:induction false} JoinTwo(r: Record, a: Field, b: Field)
    ensures JoinFields(r, [a, b]) == FieldText(r, a) + FieldText(r, b)
  {
    JoinOne(r, a);
    JoinSnoc(r, [a], b);
    assert [a] + [b] == [a, b];
  }

  lemma {:induction false} JoinThree(r: Record, a: Field, b: Field, c: Field)
    ensures JoinFields(r, [a, b, c]) == FieldText(r, a) + FieldText(r, b) + FieldText(r, c)
  {
    JoinTwo(r, a, b);
    JoinSnoc(r, [a, b], c);
    assert [a, b] + [c] == [a, b, c];
  }

  lemma {:induction false} JoinFour(r: Record, a: Field, b: Field, c: Field, d: Field)
    ensures JoinFields(r, [a, b, c, d]) == FieldText(r, a) + FieldText(r, b) + FieldText(r, c) + FieldText(r, d)
  {
    JoinThree(r, a, b, c);
    JoinSnoc(r, [a, b, c], d);
    assert [a, b, c] + [d] == [a, b, c, d];
  }

  lemma {:induction false} JoinFive(r: Record, a: Field, b: Field, c: Field, d: Field, e: Field)
    ensures JoinFields(r, [a, b, c, d, e]) ==
      FieldText(r, a) + FieldText(r, b) + FieldText(r, c) + FieldText(r, d) + FieldText(r, e)
  {
    JoinFour(r, a, b, c, d);
    JoinSnoc(r, [a, b, c, d], e);
    assert [a, b, c, d] + [e] == [a, b, c, d, e];
  }

  /** The text the checksum covers, for each format. */
  lemma {:induction false} ChecksumFieldsText(f: Format, r: Record)
    ensures f.SRec? ==> JoinFields(r, LayoutOf(f).checksumFields) == r.byteCount + r.address + r.data
    ensures f.IHex? ==> JoinFields(r, LayoutOf(f).checksumFields) == r.byteCount + r.address + r.typ + r.data
  {
    if f.SRec? {
      JoinThree(r, ByteCountField, AddressField, DataField);
    } else {
      JoinFour(r, ByteCountField, AddressField, TypeField, DataField);
    }
  }

  /** The text of a record after its start code, walking the field order. */
  lemma {:induction false} FieldOrderText(f: Format, r: Record)
    ensures f.SRec? ==> JoinFields(r, LayoutOf(f).fieldOrder) == r.typ + r.byteCount + r.address + r.data + r.checksum
    ensures f.IHex? ==> JoinFields(r, LayoutOf(f).fieldOrder) == r.byteCount + r.address + r.typ + r.data + r.checksum
  {
    if f.SRec? {
      JoinFive(r, TypeField, ByteCountField, AddressField, DataField, ChecksumField);
    } else {
      JoinFive(r, ByteCountField, AddressField, TypeField, DataField, ChecksumField);
    }
  }

  /** What makes SRecord.ParseLine throw. */
  datatype ParseFault =
    | NoAddressLength              // type code missing from the address-length table
    | AddressPastEnd               // the address Substring runs past the line
    | BadChecksumText(ChecksumFault)  // HexCheckSumCalc throws

  /** ParseLine, called only on lines CheckLine accepts. It does not compare
      the checksums; the caller does. */
  function ParseLine(f: Format, line: string): (r: Result<Record, ParseFault>)
    requires CheckLine(f, line) == NoError
  {
    var L := LayoutOf(f);
    var typ := TypeText(f, line);
    var bc := ByteCountText(f, line);
    if typ !in AddressLengths(f) then Err(NoAddressLength)
    else
      var al := AddressLengths(f)[typ];
      if L.addressPosition + al > |line| then Err(AddressPastEnd)
      else
        var r0 := RawRecord(f, line);
        match Checksum(JoinFields(r0, L.checksumFields), L.onesComplement)
        case Err(e) => Err(BadChecksumText(e))
        case Ok(c) => Ok(r0.(checksumCalc := c))
  }

  /** The record ParseLine builds from a checked line, before its checksum
      is computed. */
  function RawRecord(f: Format, line: string): (r: Record)
    requires CheckLine(f, line) == NoError
    requires TypeText(f, line) in AddressLengths(f)
    requires LayoutOf(f).addressPosition + AddressLengths(f)[TypeText(f, line)] <= |line|
  {
    var L := LayoutOf(f);
    var typ := TypeText(f, line);
    var bc := ByteCountText(f, line);
    var al := AddressLengths(f)[typ];
    FieldsHex(f, line);
    var address := line[L.addressPosition..L.addressPosition + al];
    Record(typ, bc, HexValue(bc), al, address, HexValue(address),
           ExtractData(f, line, typ), line[|line| - L.checksumLength..], "")
  }

  /** Every slice of a checked line after the start code is hexadecimal. */
  lemma {:induction false} HexOfLine(f: Format, line: string)
    requires CheckLine(f, line) == NoError
    ensures forall i, j :: 1 <= i <= j <= |line| ==> AllHex(line[i..j])
  {
    forall i, j | 1 <= i <= j <= |line| ensures AllHex(line[i..j]) {
      assert forall k :: 0 <= k < j - i ==> line[i..j][k] == line[1..][i - 1 + k];
    }
  }

  /** The byte count and address texts of a checked line are hexadecimal. */
  lemma {:induction false} FieldsHex(f: Format, line: string)
    requires CheckLine(f, line) == NoError
    requires TypeText(f, line) in AddressLengths(f)
    requires LayoutOf(f).addressPosition + AddressLengths(f)[TypeText(f, line)] <= |line|
    ensures AllHex(ByteCountText(f, line))
    ensures var ap := LayoutOf(f).addressPosition;
      AllHex(line[ap..ap + AddressLengths(f)[TypeText(f, line)]])
  {
    HexOfLine(f, line);
  }

  /** GetRecordType of each format. */
  function GetRecordType(f: Format, typ: string): RecordType {
    match f
    case SRec =>
      if typ == "0" then Header
      else if typ == "5" || typ == "6" then LinesCount
      else if typ == "1" || typ == "2" || typ == "3" then Data
      else if typ == "4" then Reserved
      else Other
    case IHex =>
      if typ == "00" then Data
      else if typ == "01" then Termination
      else if typ == "02" then ExtendedSegmentAddress
      else if typ == "03" then StartSegmentAddress
      else if typ == "04" then ExtendedLinearAddress
      else if typ == "05" then StartLinearAddress
      else Other
  }

  // ---------------------------------------------------------------------------
  // Records and lines: ParseLine inverts the assembly of a record's fields

  /** A record line: the start code, then the fields in the layout's order. */
  function Assemble(f: Format, r: Record): string {
    [LayoutOf(f).startCode] + JoinFields(r, LayoutOf(f).fieldOrder)
  }

  /** The fields of a well-formed record: a known type, hexadecimal fields of
      the layout's widths, an even data field, a byte count matching the
      record's length, the decoded values, and the recomputed checksum. */
  predicate Shaped(f: Format, r: Record) {
    var L := LayoutOf(f);
    r.typ in AddressLengths(f) && |r.typ| == L.recordTypeLength && AllDecimal(r.typ) &&
    |r.byteCount| == 2 && AllHex(r.byteCount) && r.byteCountInt == HexValue(r.byteCount) &&
    r.addressLength == AddressLengths(f)[r.typ] && |r.address| == r.addressLength &&
    AllHex(r.address) && r.addressLong == HexValue(r.address) &&
    AllHex(r.data) && |r.data| % 2 == 0 &&
    |r.checksum| == 2 && AllHex(r.checksum) &&
    HexValue(r.byteCount) == (if f.SRec? then (r.addressLength + |r.data| + 2) / 2 else |r.data| / 2) &&
    Checksum(JoinFields(r, L.checksumFields), L.onesComplement) == Ok(r.checksumCalc)
  }

  lemma {:induction false} DecimalIsHex(s: string)
    requires AllDecimal(s)
    ensures AllHex(s)
  {
    forall i | 0 <= i < |s| ensures IsHexChar(s[i]) { assert IsDecimalChar(s[i]); }
  }

  /** The text after the start code of an assembled line is the concatenation
      of its fields. */
  lemma {:induction false} AssembledBody(f: Format, r: Record)
    requires Shaped(f, r)
    ensures var line := Assemble(f, r);
      |line| == 1 + |r.typ| + 2 + |r.address| + |r.data| + 2 &&
      line[1..] == JoinFields(r, LayoutOf(f).fieldOrder) && AllHex(line[1..])
  {
    FieldOrderText(f, r);
    DecimalIsHex(r.typ);
    if f.SRec? {
      HexAppend(r.typ, r.byteCount);
      HexAppend(r.typ + r.byteCount, r.address);
      HexAppend(r.typ + r.byteCount + r.address, r.data);
      HexAppend(r.typ + r.byteCount + r.address + r.data, r.checksum);
    } else {
      HexAppend(r.byteCount, r.address);
      HexAppend(r.byteCount + r.address, r.typ);
      HexAppend(r.byteCount + r.address + r.typ, r.data);
      HexAppend(r.byteCount + r.address + r.typ + r.data, r.checksum);
    }
    assert Assemble(f, r)[1..] == JoinFields(r, LayoutOf(f).fieldOrder);
  }

  /** Positions of the fields in an S-record line. */
  lemma {:induction false} SRecSlices(line: string, t: string, b: string, a: string, d: string, c: string)
    requires line == ['S'] + t + b + a + d + c
    requires |t| == 1 && |b| == 2 && |c| == 2
    ensures |line| == 6 + |a| + |d|
    ensures line[1..2] == t && line[2..4] == b && line[4..4 + |a|] == a
    ensures line[4 + |a|..|line| - 2] == d && line[|line| - 2..] == c
  {
  }

  /** Positions of the fields in an Intel HEX line. */
  lemma {:induction false} IHexSlices(line: string, b: string, a: string, t: string, d: string, c: string)
    requires line == [':'] + b + a + t + d + c
    requires |b| == 2 && |a| == 4 && |t| == 2 && |c| == 2
    ensures |line| == 11 + |d|
    ensures line[1..3] == b && line[3..7] == a && line[7..9] == t
    ensures line[9..|line| - 2] == d && line[|line| - 2..] == c
  {
  }

  /** ParseLine of a checked line, given what its slices hold. */
  lemma {:induction false} ParseLineOf(f: Format, line: string, r: Record)
    requires CheckLine(f, line) == NoError
    requires r.typ == TypeText(f, line) && r.byteCount == ByteCountText(f, line)
    requires r.typ in AddressLengths(f)
    requires r.addressLength == AddressLengths(f)[r.typ]
    requires LayoutOf(f).addressPosition + r.addressLength <= |line|
    requires r.address == line[LayoutOf(f).addressPosition..LayoutOf(f).addressPosition + r.addressLength]
    requires AllHex(r.byteCount) && AllHex(r.address)
    requires r.byteCountInt == HexValue(r.byteCount) && r.addressLong == HexValue(r.address)
    requires r.data == ExtractData(f, line, r.typ) && r.checksum == line[|line| - 2..]
    requires Checksum(JoinFields(r, LayoutOf(f).checksumFields), LayoutOf(f).onesComplement) == Ok(r.checksumCalc)
    ensures ParseLine(f, line) == Ok(r)
  {
    var L := LayoutOf(f);
    var r0 := r.(checksumCalc := "");
    ChecksumFieldsText(f, r0);
    ChecksumFieldsText(f, r);
    assert JoinFields(r0, L.checksumFields) == JoinFields(r, L.checksumFields);
    assert line[|line| - L.checksumLength..] == r.checksum;
  }

  /** An assembled S-record passes CheckLine and its slices are its fields. */
  lemma {:induction false} AssembleSRec(r: Record)
    requires Shaped(SRec, r)
    ensures var line := Assemble(SRec, r);
      CheckLine(SRec, line) == NoError &&
      TypeText(SRec, line) == r.typ && ByteCountText(SRec, line) == r.byteCount &&
      line[4..4 + r.addressLength] == r.address &&
      ExtractData(SRec, line, r.typ) == r.data && line[|line| - 2..] == r.checksum
  {
    var line := Assemble(SRec, r);
    AssembleText(SRec, r);
    SRecSlices(line, r.typ, r.byteCount, r.address, r.data, r.checksum);
    AssembledBody(SRec, r);
    assert TypeText(SRec, line) == r.typ;
    assert ByteCountText(SRec, line) == r.byteCount;
    assert HexValue(ByteCountText(SRec, line)) == CountedBytes(SRec, |line|);
  }

  /** An assembled Intel HEX record passes CheckLine and its slices are its fields. */
  lemma {:induction false} AssembleIHex(r: Record)
    requires Shaped(IHex, r)
    ensures var line := Assemble(IHex, r);
      CheckLine(IHex, line) == NoError &&
      TypeText(IHex, line) == r.typ && ByteCountText(IHex, line) == r.byteCount &&
      line[3..3 + r.addressLength] == r.address &&
      ExtractData(IHex, line, r.typ) == r.data && line[|line| - 2..] == r.checksum
  {
    var line := Assemble(IHex, r);
    AssembleText(IHex, r);
    IHexSlices(line, r.byteCount, r.address, r.typ, r.data, r.checksum);
    AssembledBody(IHex, r);
    assert TypeText(IHex, line) == r.typ;
    assert ByteCountText(IHex, line) == r.byteCount;
    assert HexValue(ByteCountText(IHex, line)) == CountedBytes(IHex, |line|);
  }

  /** Round trip: a well-formed record, assembled into a line, passes
      CheckLine and parses back to the same fields. */
  lemma {:induction false} AssembleParses(f: Format, r: Record)
    requires Shaped(f, r)
    ensures CheckLine(f, Assemble(f, r)) == NoError
    ensures ParseLine(f, Assemble(f, r)) == Ok(r)
  {
    if f.SRec? { AssembleParsesIn(SRec, r, 4); } else { AssembleParsesIn(IHex, r, 3); }
  }

  lemma {:induction false} AssembleParsesIn(f: Format, r: Record, at: nat)
    requires Shaped(f, r) && at == LayoutOf(f).addressPosition
    ensures CheckLine(f, Assemble(f, r)) == NoError
    ensures ParseLine(f, Assemble(f, r)) == Ok(r)
  {
    var line := Assemble(f, r);
    if f.SRec? { AssembleSRec(r); } else { AssembleIHex(r); }
    assert line[at..at + r.addressLength] == r.address;
    ParseLineOf(f, line, r);
  }

  /** The fields ParseLine returns, read off the line. */
  lemma {:induction false} ParsedFields(f: Format, line: string)
    requires CheckLine(f, line) == NoError
    requires ParseLine(f, line).Ok?
    ensures var r := ParseLine(f, line).value; var L := LayoutOf(f);
      r.typ == TypeText(f, line) && r.byteCount == ByteCountText(f, line) &&
      r.typ in AddressLengths(f) && r.addressLength == AddressLengths(f)[r.typ] &&
      L.addressPosition + r.addressLength <= |line| &&
      r.address == line[L.addressPosition..L.addressPosition + r.addressLength] &&
      r.data == ExtractData(f, line, r.typ) && r.checksum == line[|line| - 2..] &&
      AllHex(r.typ) && AllDecimal(r.typ) && AllHex(r.byteCount) && AllHex(r.address) &&
      AllHex(r.data) && AllHex(r.checksum) &&
      r.byteCountInt == HexValue(r.byteCount) && r.addressLong == HexValue(r.address) &&
      Checksum(JoinFields(r, L.checksumFields), L.onesComplement) == Ok(r.checksumCalc)
  {
    var L := LayoutOf(f);
    var typ := TypeText(f, line);
    var al := AddressLengths(f)[typ];
    var address := line[L.addressPosition..L.addressPosition + al];
    HexOfLine(f, line);
    var r0 := Record(typ, ByteCountText(f, line), HexValue(ByteCountText(f, line)), al, address, HexValue(address),
                     ExtractData(f, line, typ), line[|line| - L.checksumLength..], "");
    var c := Checksum(JoinFields(r0, L.checksumFields), L.onesComplement).value;
    var r := r0.(checksumCalc := c);
    assert ParseLine(f, line) == Ok(r);
    ChecksumFieldsText(f, r0);
    ChecksumFieldsText(f, r);
  }

  lemma {:induction false} AddressLengthValues(f: Format, t: string)
    requires t in AddressLengths(f)
    ensures AddressLengths(f)[t] in {4, 6, 8}
    ensures f.IHex? ==> AddressLengths(f)[t] == 4
  {
    assert AddressLengths(f)[t] in AddressLengths(f).Values;
  }

  lemma {:induction false} SRecDataEven(r: Record, n: int)
    requires r.typ in AddressLengths(SRec) && r.addressLength == AddressLengths(SRec)[r.typ]
    requires |r.byteCount| == 2 && |r.address| == r.addressLength && |r.data| == n - 6 - r.addressLength
    requires AllHex(r.byteCount) && AllHex(r.address) && AllHex(r.data)
    requires Checksum(r.byteCount + r.address + r.data, true).Ok?
    ensures |r.data| % 2 == 0
  {
    HexAppend(r.byteCount, r.address);
    HexAppend(r.byteCount + r.address, r.data);
    ChecksumEven(r.byteCount + r.address + r.data, true);
    AddressLengthValues(SRec, r.typ);
  }

  /** The field facts that make a parsed S-record well-formed. */
  lemma {:induction false} SRecShaped(r: Record, n: int)
    requires r.typ in AddressLengths(SRec) && r.addressLength == AddressLengths(SRec)[r.typ]
    requires |r.typ| == 1 && AllDecimal(r.typ)
    requires |r.byteCount| == 2 && |r.address| == r.addressLength && |r.data| == n - 6 - r.addressLength
    requires AllHex(r.byteCount) && AllHex(r.address) && AllHex(r.data) && AllHex(r.checksum) && |r.checksum| == 2
    requires r.byteCountInt == HexValue(r.byteCount) && r.addressLong == HexValue(r.address)
    requires HexValue(r.byteCount) == (n - 4) / 2
    requires Checksum(r.byteCount + r.address + r.data, true) == Ok(r.checksumCalc)
    ensures Shaped(SRec, r)
  {
    SRecDataEven(r, n);
    ChecksumFieldsText(SRec, r);
  }

  /** The field facts that make a parsed Intel HEX record well-formed. */
  lemma {:induction false} IHexShaped(r: Record, n: int)
    requires r.typ in AddressLengths(IHex) && r.addressLength == AddressLengths(IHex)[r.typ]
    requires |r.typ| == 2 && AllDecimal(r.typ)
    requires |r.byteCount| == 2 && |r.address| == r.addressLength && |r.data| == n - 11
    requires AllHex(r.byteCount) && AllHex(r.address) && AllHex(r.data) && AllHex(r.checksum) && |r.checksum| == 2
    requires r.byteCountInt == HexValue(r.byteCount) && r.addressLong == HexValue(r.address)
    requires HexValue(r.byteCount) == (n - 11) / 2
    requires Checksum(r.byteCount + r.address + r.typ + r.data, false) == Ok(r.checksumCalc)
    ensures Shaped(IHex, r)
  {
    var body := r.byteCount + r.address + r.typ + r.data;
    DecimalIsHex(r.typ);
    HexAppend(r.byteCount, r.address);
    HexAppend(r.byteCount + r.address, r.typ);
    HexAppend(r.byteCount + r.address + r.typ, r.data);
    AddressLengthValues(IHex, r.typ);
    assert |body| == 8 + |r.data|;
    ChecksumEven(body, false);
    EvenSplit(|body|, 8, |r.data|);
    ChecksumFieldsText(IHex, r);
    var L := LayoutOf(IHex);
    assert JoinFields(r, L.checksumFields) == body;
    assert Checksum(JoinFields(r, L.checksumFields), L.onesComplement) == Ok(r.checksumCalc);
    assert |r.typ| == L.recordTypeLength;
    assert HexValue(r.byteCount) == |r.data| / 2;
  }

  /** Assemble, written out for each format. */
  lemma {:induction false} AssembleText(f: Format, r: Record)
    ensures f.SRec? ==> Assemble(f, r) == ['S'] + r.typ + r.byteCount + r.address + r.data + r.checksum
    ensures f.IHex? ==> Assemble(f, r) == [':'] + r.byteCount + r.address + r.typ + r.data + r.checksum
  {
    FieldOrderText(f, r);
  }

  /** An S-record line is the concatenation of its slices. */
  lemma {:induction false} SRecJoin(line: string, t: string, b: string, a: string, d: string, c: string)
    requires |line| >= 6 + |a| && line[0] == 'S'
    requires t == line[1..2] && b == line[2..4] && a == line[4..4 + |a|]
    requires d == line[4 + |a|..|line| - 2] && c == line[|line| - 2..]
    ensures ['S'] + t + b + a + d + c == line
  {
    var n, al := |line|, |a|;
    var x := ['S'] + t + b + a + d + c;
    forall i | 0 <= i < n ensures x[i] == line[i] {
      if i == 0 {
      } else if i < 2 {
        assert x[i] == t[i - 1];
      } else if i < 4 {
        assert x[i] == b[i - 2];
      } else if i < 4 + al {
        assert x[i] == a[i - 4];
      } else if i < n - 2 {
        assert x[i] == d[i - 4 - al];
      } else {
        assert x[i] == c[i - n + 2];
      }
    }
  }

  /** An Intel HEX line is the concatenation of its slices. */
  lemma {:induction false} IHexJoin(line: string, b: string, a: string, t: string, d: string, c: string)
    requires |line| >= 11 && line[0] == ':'
    requires b == line[1..3] && a == line[3..7] && t == line[7..9]
    requires d == line[9..|line| - 2] && c == line[|line| - 2..]
    ensures [':'] + b + a + t + d + c == line
  {
    var n := |line|;
    var x := [':'] + b + a + t + d + c;
    forall i | 0 <= i < n ensures x[i] == line[i] {
      if i == 0 {
      } else if i < 3 {
        assert x[i] == b[i - 1];
      } else if i < 7 {
        assert x[i] == a[i - 3];
      } else if i < 9 {
        assert x[i] == t[i - 7];
      } else if i < n - 2 {
        assert x[i] == d[i - 9];
      } else {
        assert x[i] == c[i - n + 2];
      }
    }
  }

  /** The converse of AssembleParses: a parsed record whose data span is not
      negative is well-formed, and reassembling it gives the line back. */
  lemma {:induction false} ParseLineSound(f: Format, line: string)
    requires CheckLine(f, line) == NoError
    requires ParseLine(f, line).Ok?
    requires DataStart(f, ParseLine(f, line).value.typ) <= |line| - 2
    ensures Shaped(f, ParseLine(f, line).value)
    ensures Assemble(f, ParseLine(f, line).value) == line
  {
    var r := ParseLine(f, line).value;
    if f.SRec? {
      SRecParseSound(line, r);
    } else {
      IHexParseSound(line, r);
    }
  }

  lemma {:induction false} SRecParseSound(line: string, r: Record)
    requires CheckLine(SRec, line) == NoError
    requires ParseLine(SRec, line) == Ok(r)
    requires DataStart(SRec, r.typ) <= |line| - 2
    ensures Shaped(SRec, r) && Assemble(SRec, r) == line
  {
    ParsedFields(SRec, line);
    ChecksumFieldsText(SRec, r);
    AssembleText(SRec, r);
    assert |r.data| == |line| - 6 - r.addressLength;
    SRecShaped(r, |line|);
    SRecJoin(line, r.typ, r.byteCount, r.address, r.data, r.checksum);
  }

  lemma {:induction false} IHexParseSound(line: string, r: Record)
    requires CheckLine(IHex, line) == NoError
    requires ParseLine(IHex, line) == Ok(r)
    requires DataStart(IHex, r.typ) <= |line| - 2
    ensures Shaped(IHex, r) && Assemble(IHex, r) == line
  {
    ParsedFields(IHex, line);
    ChecksumFieldsText(IHex, r);
    AssembleText(IHex, r);
    assert |r.data| == |line| - 11;
    IHexShaped(r, |line|);
    IHexJoin(line, r.byteCount, r.address, r.typ, r.data, r.checksum);
  }

  /** The data field of any parsed record is even-length hexadecimal: a
      negative data span yields no data, otherwise the record is well-formed. */
  lemma {:induction false} ParsedDataEven(f: Format, line: string)
    requires CheckLine(f, line) == NoError
    requires ParseLine(f, line).Ok?
    ensures AllHex(ParseLine(f, line).value.data)
    ensures |ParseLine(f, line).value.data| % 2 == 0
  {
    ParsedFields(f, line);
    if DataStart(f, ParseLine(f, line).value.typ) <= |line| - 2 {
      ParseLineSound(f, line);
    }
  }

  // ---------------------------------------------------------------------------
  // When ParseLine throws on a line CheckLine accepted

  lemma {:induction false} SRecTypeKnown(c: char)
    requires IsDecimalChar(c)
    ensures [c] in AddressLengths(SRec) <==> c != '4'
  {
    if c == '0' { assert [c] == "0"; } else if c == '1' { assert [c] == "1"; }
    else if c == '2' { assert [c] == "2"; } else if c == '3' { assert [c] == "3"; }
    else if c == '5' { assert [c] == "5"; } else if c == '6' { assert [c] == "6"; }
    else if c == '7' { assert [c] == "7"; } else if c == '8' { assert [c] == "8"; }
    else if c == '9' { assert [c] == "9"; }
  }

  lemma {:induction false} IHexTypeKnown(a: char, b: char)
    requires IsDecimalChar(a) && IsDecimalChar(b)
    ensures [a, b] in AddressLengths(IHex) <==> a == '0' && b <= '5'
  {
    if a == '0' {
      if b == '0' { assert [a, b] == "00"; } else if b == '1' { assert [a, b] == "01"; }
      else if b == '2' { assert [a, b] == "02"; } else if b == '3' { assert [a, b] == "03"; }
      else if b == '4' { assert [a, b] == "04"; } else if b == '5' { assert [a, b] == "05"; }
    }
  }

  /** The address-length lookup fails exactly for S4 records and for Intel HEX
      types 06 to 99, although CheckLine accepted the line. */
  lemma {:induction false} NoAddressLengthCases(f: Format, line: string)
    requires CheckLine(f, line) == NoError
    ensures ParseLine(f, line) == Err(NoAddressLength) <==>
      (f.SRec? && line[1] == '4') || (f.IHex? && !(line[7] == '0' && line[8] <= '5'))
  {
    var t := TypeText(f, line);
    if f.SRec? {
      assert t == [line[1]];
      assert IsDecimalChar(t[0]);
      SRecTypeKnown(line[1]);
    } else {
      assert t == [line[7], line[8]];
      assert IsDecimalChar(t[0]) && IsDecimalChar(t[1]);
      IHexTypeKnown(line[7], line[8]);
    }
  }

  /** The address runs past the end of the line only for an eight-digit
      S-record address (S3, S7) in a line shorter than twelve characters. */
  lemma {:induction false} AddressPastEndCases(f: Format, line: string)
    requires CheckLine(f, line) == NoError
    ensures ParseLine(f, line) == Err(AddressPastEnd) <==>
      f.SRec? && (line[1] == '3' || line[1] == '7') && |line| < 12
  {
    var t := TypeText(f, line);
    if f.SRec? {
      assert t == [line[1]];
      assert IsDecimalChar(t[0]);
      SRecTypeKnown(line[1]);
      if line[1] == '3' { assert t == "3"; }
      else if line[1] == '7' { assert t == "7"; }
      else if t in AddressLengths(f) { AddressLengthValues(f, t); assert AddressLengths(f)[t] <= 6 by {
        if line[1] == '0' { assert t == "0"; } else if line[1] == '1' { assert t == "1"; }
        else if line[1] == '2' { assert t == "2"; } else if line[1] == '5' { assert t == "5"; }
        else if line[1] == '6' { assert t == "6"; } else if line[1] == '8' { assert t == "8"; }
        else { assert t == "9"; }
      } }
    }
  }

  /** The text ParseLine sums for the checksum, once the address is found. */
  function ChecksumText(f: Format, line: string): string
    requires CheckLine(f, line) == NoError
    requires TypeText(f, line) in AddressLengths(f)
    requires LayoutOf(f).addressPosition + AddressLengths(f)[TypeText(f, line)] <= |line|
  {
    var t := TypeText(f, line);
    var ap := LayoutOf(f).addressPosition;
    var address := line[ap..ap + AddressLengths(f)[t]];
    match f
    case SRec => ByteCountText(f, line) + address + ExtractData(f, line, t)
    case IHex => ByteCountText(f, line) + address + t + ExtractData(f, line, t)
  }

  lemma {:induction false} ParseLineChecksum(f: Format, line: string)
    requires CheckLine(f, line) == NoError
    requires TypeText(f, line) in AddressLengths(f)
    requires LayoutOf(f).addressPosition + AddressLengths(f)[TypeText(f, line)] <= |line|
    ensures ParseLine(f, line).Err? <==> Checksum(ChecksumText(f, line), LayoutOf(f).onesComplement).Err?
    ensures ParseLine(f, line).Err? ==>
      ParseLine(f, line) == Err(BadChecksumText(Checksum(ChecksumText(f, line), LayoutOf(f).onesComplement).error))
  {
    var L := LayoutOf(f);
    var r0 := RawRecord(f, line);
    ChecksumFieldsText(f, r0);
    assert JoinFields(r0, L.checksumFields) == ChecksumText(f, line);
    var ck := Checksum(ChecksumText(f, line), L.onesComplement);
    if ck.Err? {
      assert ParseLine(f, line) == Err(BadChecksumText(ck.error));
    } else {
      assert ParseLine(f, line) == Ok(r0.(checksumCalc := ck.value));
    }
  }

  /** The length of the checksum text: the line minus start code, type
      (S-record only) and checksum, or the fixed fields when the S-record data
      span is negative. */
  lemma {:induction false} ChecksumTextLength(f: Format, line: string)
    requires CheckLine(f, line) == NoError
    requires TypeText(f, line) in AddressLengths(f)
    requires LayoutOf(f).addressPosition + AddressLengths(f)[TypeText(f, line)] <= |line|
    ensures AllHex(ChecksumText(f, line))
    ensures f.SRec? && DataStart(f, TypeText(f, line)) <= |line| - 2 ==> |ChecksumText(f, line)| == |line| - 4
    ensures f.SRec? && DataStart(f, TypeText(f, line)) > |line| - 2 ==> |ChecksumText(f, line)| % 2 == 0
    ensures f.IHex? ==> |ChecksumText(f, line)| == |line| - 3
  {
    ChecksumTextHex(f, line);
    var t := TypeText(f, line);
    var al := AddressLengths(f)[t];
    var d := ExtractData(f, line, t);
    AddressLengthValues(f, t);
    if f.SRec? {
      assert |ChecksumText(f, line)| == 2 + al + |d|;
    } else {
      assert |ChecksumText(f, line)| == 2 + al + 2 + |d|;
    }
  }

  lemma {:induction false} ChecksumTextHex(f: Format, line: string)
    requires CheckLine(f, line) == NoError
    requires TypeText(f, line) in AddressLengths(f)
    requires LayoutOf(f).addressPosition + AddressLengths(f)[TypeText(f, line)] <= |line|
    ensures AllHex(ChecksumText(f, line))
  {
    var t := TypeText(f, line);
    var ap := LayoutOf(f).addressPosition;
    var address := line[ap..ap + AddressLengths(f)[t]];
    HexOfLine(f, line);
    HexAppend(ByteCountText(f, line), address);
    if f.SRec? {
      HexAppend(ByteCountText(f, line) + address, ExtractData(f, line, t));
    } else {
      DecimalIsHex(t);
      HexAppend(ByteCountText(f, line) + address, t);
      HexAppend(ByteCountText(f, line) + address + t, ExtractData(f, line, t));
    }
  }

  /** ParseLine fails on the checksum exactly as HexCheckSumCalc does on the
      checksum text. */
  lemma {:induction false} ParseFaultIsChecksumFault(f: Format, line: string, k: ChecksumFault)
    requires CheckLine(f, line) == NoError
    requires TypeText(f, line) in AddressLengths(f)
    requires LayoutOf(f).addressPosition + AddressLengths(f)[TypeText(f, line)] <= |line|
    ensures ParseLine(f, line) == Err(BadChecksumText(k)) <==>
      Checksum(ChecksumText(f, line), LayoutOf(f).onesComplement) == Err(k)
  {
    ParseLineChecksum(f, line);
  }

  /** An S-record's checksum text has odd length exactly when the line has
      odd length and its data span is not negative; the one's complement
      never fails on a zero sum. */
  lemma {:induction false} SRecChecksumCases(line: string)
    requires CheckLine(SRec, line) == NoError
    requires TypeText(SRec, line) in AddressLengths(SRec)
    requires 4 + AddressLengths(SRec)[TypeText(SRec, line)] <= |line|
    ensures ParseLine(SRec, line).Err? <==> |line| % 2 == 1 && DataStart(SRec, TypeText(SRec, line)) <= |line| - 2
    ensures ParseLine(SRec, line).Err? ==> ParseLine(SRec, line) == Err(BadChecksumText(OddLength))
  {
    ParseLineChecksum(SRec, line);
    SRecChecksumOdd(line);
  }

  /** The one's complement over an S-record's checksum text fails, on an
      odd length, exactly when the line is odd and its data span is not
      negative. */
  lemma {:induction false} SRecChecksumOdd(line: string)
    requires CheckLine(SRec, line) == NoError
    requires TypeText(SRec, line) in AddressLengths(SRec)
    requires 4 + AddressLengths(SRec)[TypeText(SRec, line)] <= |line|
    ensures var ck := Checksum(ChecksumText(SRec, line), true);
      (ck.Err? <==> |line| % 2 == 1 && DataStart(SRec, TypeText(SRec, line)) <= |line| - 2) &&
      (ck.Err? ==> ck == Err(OddLength))
  {
    ChecksumTextLength(SRec, line);
    var c := ChecksumText(SRec, line);
    ChecksumFailures(c, true);
    if DataStart(SRec, TypeText(SRec, line)) <= |line| - 2 {
      assert |c| == |line| - 4;
      EvenSplit(|line|, 4, |c|);
    }
  }

  lemma {:induction false} IHexChecksumText(line: string)
    requires CheckLine(IHex, line) == NoError
    requires TypeText(IHex, line) in AddressLengths(IHex)
    requires 3 + AddressLengths(IHex)[TypeText(IHex, line)] <= |line|
    ensures Checksum(ChecksumText(IHex, line), false) == Err(OddLength) <==> |line| % 2 == 0
    ensures Checksum(ChecksumText(IHex, line), false) == Err(ZeroSum) <==>
      |line| % 2 == 1 && AllHex(ChecksumText(IHex, line)) && |ChecksumText(IHex, line)| % 2 == 0 &&
      ByteSum(ChecksumText(IHex, line)) == 0
  {
    var c := ChecksumText(IHex, line);
    ChecksumTextLength(IHex, line);
    ChecksumFailures(c, false);
  }

  /** An Intel HEX record's checksum text has odd length exactly when the
      line has even length. */
  lemma {:induction false} IHexOddCases(line: string)
    requires CheckLine(IHex, line) == NoError
    requires TypeText(IHex, line) in AddressLengths(IHex)
    ensures 3 + AddressLengths(IHex)[TypeText(IHex, line)] <= |line|
    ensures ParseLine(IHex, line) == Err(BadChecksumText(OddLength)) <==> |line| % 2 == 0
  {
    AddressLengthValues(IHex, TypeText(IHex, line));
    ParseFaultIsChecksumFault(IHex, line, OddLength);
    IHexChecksumText(line);
  }

  /** The two's complement of an Intel HEX record fails exactly on an
      even-length checksum text whose byte sum is zero. */
  lemma {:induction false} IHexZeroSumCases(line: string)
    requires CheckLine(IHex, line) == NoError
    requires TypeText(IHex, line) in AddressLengths(IHex)
    requires |line| % 2 == 1
    ensures 3 + AddressLengths(IHex)[TypeText(IHex, line)] <= |line|
    ensures AllHex(ChecksumText(IHex, line)) && |ChecksumText(IHex, line)| % 2 == 0
    ensures ParseLine(IHex, line) == Err(BadChecksumText(ZeroSum)) <==> ByteSum(ChecksumText(IHex, line)) == 0
  {
    AddressLengthValues(IHex, TypeText(IHex, line));
    ChecksumTextLength(IHex, line);
    ParseFaultIsChecksumFault(IHex, line, ZeroSum);
    IHexChecksumText(line);
  }
}
