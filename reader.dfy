/** The record reader shared by SRecord.Read and IntelHex.Read. It walks the
    records of a file, numbering them from 1, keeps one error code per faulty
    record, counts the valid data records and cuts the data into raw blocks
    wherever a data record's address does not continue the previous one.
    The Intel reader also tracks the address bank set by its 02 and 04
    records; S-records have no such records, so one definition serves both. */
module Reader {
  import opened Wrappers
  import opened Hex
  import opened Formats
  import opened DataBlocks

  /** A data block as a value: first and last address, the numbers of the
      first and last record it was read from, and the payload as the RawData
      getter returns it. */
  datatype Block = Block(start: int, end: int, startLine: int, endLine: int, payload: string)

  /** The records of a file: each physical line without its white space, cut
      before every start code, so that several records may share a line. */
  function Records(f: Format, lines: seq<string>): seq<string> {
    if lines == [] then []
    else Records(f, lines[..|lines| - 1]) + Pieces(NonWhite(lines[|lines| - 1]), LayoutOf(f).startCode)
  }

  /** The reader's variables between two records. `open` says whether the
      block under construction has a start address yet; its payload is kept
      apart in `acc` (the StringBuilder) until the block is closed. */
  datatype ReadState = ReadState(
    lineNumber: nat,
    errors: map<int, ErrorCode>,
    hasHeader: bool,
    headerData: string,
    dataLinesCount: nat,
    bank: int,
    cursor: int,
    blocks: seq<Block>,
    open: bool,
    current: Block,
    acc: string)

  /** The state after ResetValues: HeaderData is not reset, so it keeps the
      value it had before the read. */
  function Initial(headerData: string): ReadState {
    ReadState(0, map[], false, headerData, 0, 0, -1, [], false, Block(0, 0, 0, 0, ""), "")
  }

  /** ParseLine threw on the record with this number. */
  datatype ReadFault = ReadFault(line: nat, fault: ParseFault)

  /** What CheckLine, ParseLine and the checksum comparison make of one
      record: the code CheckLine rejects it with, the fault ParseLine throws,
      or the parsed fields. */
  datatype Verdict = Rejected(code: ErrorCode) | Throws(fault: ParseFault) | Parsed(r: Record)

  function Judge(f: Format, rec: string): Verdict {
    var ec := CheckLine(f, rec);
    if ec != NoError then Rejected(ec)
    else
      match ParseLine(f, rec)
      case Err(e) => Throws(e)
      case Ok(r) => Parsed(r)
  }

  function Verdicts(f: Format, recs: seq<string>): (vs: seq<Verdict>)
    ensures |vs| == |recs| && forall k :: 0 <= k < |recs| ==> vs[k] == Judge(f, recs[k])
  {
    seq(|recs|, k requires 0 <= k < |recs| => Judge(f, recs[k]))
  }

  /** A data record with this number, data and absolute address. */
  function DataStep(st: ReadState, n: nat, data: string, addr: int, loadData: bool, store: bool): ReadState {
    var st1 :=
      if st.cursor == addr then st
      else if |st.blocks| == 0 && !st.open then
        st.(open := true, current := st.current.(start := addr, startLine := n))
      else
        var closed := st.current.(end := st.cursor - 1, endLine := n - 1, payload := View(store, st.acc));
        st.(blocks := st.blocks + [closed], acc := "", open := true, current := Block(addr, 0, n, 0, ""));
    var cursor := addr + |data| / 2;
    st1.(dataLinesCount := st.dataLinesCount + 1,
         acc := if loadData then st1.acc + data else st1.acc,
         cursor := cursor,
         current := st1.current.(end := cursor - 1, endLine := n))
  }

  /** One record. */
  function Step(f: Format, loadData: bool, store: bool, st: ReadState, v: Verdict): Result<ReadState, ParseFault> {
    var n := st.lineNumber + 1;
    var st0 := st.(lineNumber := n);
    match v
    case Rejected(ec) => Ok(st0.(errors := st0.errors[n := ec]))
    case Throws(e) => Err(e)
    case Parsed(r) =>
      if r.checksum != r.checksumCalc then Ok(st0.(errors := st0.errors[n := ChecksumMismatch]))
      else
        match GetRecordType(f, r.typ)
        case Header => Ok(st0.(hasHeader := true, headerData := r.data))
        case LinesCount =>
          if HexToInt32(r.address) != st.dataLinesCount then Ok(st0.(errors := st0.errors[n := DataLinesCountMismatch]))
          else Ok(st0)
        case ExtendedSegmentAddress => Ok(st0.(bank := ShiftedHexToLong(r.data, 1)))
        case ExtendedLinearAddress => Ok(st0.(bank := ShiftedHexToLong(r.data, 4)))
        case Data => Ok(DataStep(st0, n, r.data, st.bank + r.addressLong, loadData, store))
        case _ => Ok(st0)
  }

  /** The state after the records with the given verdicts, or the first
      record ParseLine threw on. */
  function Scan(f: Format, loadData: bool, store: bool, vs: seq<Verdict>, headerData: string): Result<ReadState, ReadFault> {
    if vs == [] then Ok(Initial(headerData))
    else
      match Scan(f, loadData, store, vs[..|vs| - 1], headerData)
      case Err(e) => Err(e)
      case Ok(st) =>
        match Step(f, loadData, store, st, vs[|vs| - 1])
        case Err(e) => Err(ReadFault(|vs|, e))
        case Ok(st') => Ok(st')
  }

  /** The raw blocks at the end of the file: the open block is closed with
      the payload accumulated so far. */
  function Finish(st: ReadState, store: bool): seq<Block> {
    if st.open then st.blocks + [st.current.(payload := View(store, st.acc))] else st.blocks
  }

  // ---------------------------------------------------------------------------
  // Reference definitions, record by record

  /** A record that passes CheckLine, parses, and carries the right checksum. */
  predicate IsValid(v: Verdict) {
    v.Parsed? && v.r.checksum == v.r.checksumCalc
  }

  predicate IsOfType(f: Format, v: Verdict, t: RecordType) {
    IsValid(v) && GetRecordType(f, v.r.typ) == t
  }

  /** The number of valid data records. */
  function CountData(f: Format, vs: seq<Verdict>): nat {
    if vs == [] then 0
    else CountData(f, vs[..|vs| - 1]) + (if IsOfType(f, vs[|vs| - 1], Data) then 1 else 0)
  }

  /** The data field of a valid data record; nothing for any other record. */
  function DataOf(f: Format, v: Verdict): string {
    if IsOfType(f, v, Data) then v.r.data else ""
  }

  /** The data fields of the valid data records, in file order. */
  function AllData(f: Format, vs: seq<Verdict>): string {
    if vs == [] then "" else AllData(f, vs[..|vs| - 1]) + DataOf(f, vs[|vs| - 1])
  }

  /** The error a record earns, given the number of valid data records
      before it: CheckLine's code, a checksum mismatch, or a lines-count
      record whose address field disagrees with that number. */
  function ErrorOf(f: Format, v: Verdict, count: int): Option<ErrorCode> {
    match v
    case Rejected(ec) => Some(ec)
    case Throws(_) => None
    case Parsed(r) =>
      if r.checksum != r.checksumCalc then Some(ChecksumMismatch)
      else if GetRecordType(f, r.typ) == LinesCount && HexToInt32(r.address) != count then Some(DataLinesCountMismatch)
      else None
  }

  /** The payloads of the blocks, concatenated. */
  function Payloads(bs: seq<Block>): string {
    if bs == [] then "" else Payloads(bs[..|bs| - 1]) + bs[|bs| - 1].payload
  }

  // ---------------------------------------------------------------------------
  // One record

  /** The prefixes of a scan that succeeds succeed too. */
  lemma {:induction false} ScanPrefix(f: Format, loadData: bool, store: bool, vs: seq<Verdict>, h: string, k: nat)
    requires k <= |vs|
    requires Scan(f, loadData, store, vs, h).Ok?
    ensures Scan(f, loadData, store, vs[..k], h).Ok?
  {
    if k < |vs| {
      var p := vs[..|vs| - 1];
      assert p[..k] == vs[..k];
      ScanPrefix(f, loadData, store, p, h, k);
    } else {
      assert vs[..k] == vs;
    }
  }

  /** The effect of one record on the record number, the error map and the
      data-record count; a record that is not valid touches no block, no
      count, no header and no bank. */
  lemma {:induction false} StepBookkeeping(f: Format, loadData: bool, store: bool, st: ReadState, v: Verdict)
    requires Step(f, loadData, store, st, v).Ok?
    ensures var st' := Step(f, loadData, store, st, v).value;
      var n := st.lineNumber + 1;
      st'.lineNumber == n &&
      st'.errors == (if ErrorOf(f, v, st.dataLinesCount).Some? then st.errors[n := ErrorOf(f, v, st.dataLinesCount).value] else st.errors) &&
      st'.dataLinesCount == st.dataLinesCount + (if IsOfType(f, v, Data) then 1 else 0)
    ensures !IsValid(v) ==>
      Step(f, loadData, store, st, v).value.(lineNumber := st.lineNumber, errors := st.errors) == st
  {
    if !IsValid(v) {
      StepInvalid(f, loadData, store, st, v);
    } else if IsOfType(f, v, Data) {
      StepData(f, loadData, store, st, v);
    } else {
      StepValidOther(f, loadData, store, st, v);
    }
  }

  /** A rejected line or a checksum mismatch records its error and changes
      nothing else. */
  lemma {:induction false} StepInvalid(f: Format, loadData: bool, store: bool, st: ReadState, v: Verdict)
    requires Step(f, loadData, store, st, v).Ok? && !IsValid(v)
    ensures var st' := Step(f, loadData, store, st, v).value;
      var n := st.lineNumber + 1;
      ErrorOf(f, v, st.dataLinesCount).Some? && !IsOfType(f, v, Data) &&
      st' == st.(lineNumber := n, errors := st.errors[n := ErrorOf(f, v, st.dataLinesCount).value])
  {
    var n := st.lineNumber + 1;
    var st0 := st.(lineNumber := n);
    var st' := Step(f, loadData, store, st, v).value;
    match v
    case Rejected(ec) =>
      assert st' == st0.(errors := st.errors[n := ec]);
    case Parsed(r) =>
      assert st' == st0.(errors := st.errors[n := ChecksumMismatch]);
  }

  /** A valid record other than a data record counts no data record, and
      leaves the errors alone unless it is a lines count that disagrees. */
  lemma {:induction false} StepValidOther(f: Format, loadData: bool, store: bool, st: ReadState, v: Verdict)
    requires IsValid(v) && !IsOfType(f, v, Data)
    ensures var st' := Step(f, loadData, store, st, v).value;
      var n := st.lineNumber + 1;
      st'.lineNumber == n && st'.dataLinesCount == st.dataLinesCount &&
      st'.errors == (if ErrorOf(f, v, st.dataLinesCount).Some? then st.errors[n := ErrorOf(f, v, st.dataLinesCount).value] else st.errors)
  {
  }

  /** Address banks (Intel 02 and 04 records): they set the bank from their
      data, and every other record leaves it alone. */
  lemma {:induction false} StepBank(f: Format, loadData: bool, store: bool, st: ReadState, v: Verdict)
    requires Step(f, loadData, store, st, v).Ok?
    ensures var st' := Step(f, loadData, store, st, v).value;
      if IsOfType(f, v, ExtendedSegmentAddress) then st'.bank == ShiftedHexToLong(v.r.data, 1)
      else if IsOfType(f, v, ExtendedLinearAddress) then st'.bank == ShiftedHexToLong(v.r.data, 4)
      else st'.bank == st.bank
    ensures f.SRec? ==> Step(f, loadData, store, st, v).value.bank == st.bank
  {
  }

  /** A bank value of at most eight hexadecimal digits is the plain product:
      the record's value times 16 (02) or times 65536 (04). */
  lemma {:induction false} BankValue(data: string)
    requires AllHex(data) && |data| <= 8
    ensures ShiftedHexToLong(data, 1) == 16 * HexValue(data)
    ensures ShiftedHexToLong(data, 4) == 65536 * HexValue(data)
  {
    HexValueBound(data);
    Pow16Le(|data|, 8);
    Pow16Eight();
    assert HexValue(data) < 0x1_0000_0000;
    assert Pow16(1) == 16 && Pow16(4) == 65536;
  }

  lemma Pow16Eight()
    ensures Pow16(8) == 0x1_0000_0000
  {
    assert Pow16(2) == 256;
    assert Pow16(4) == 65536;
  }

  lemma {:induction false} Pow16Le(a: nat, b: nat)
    requires a <= b
    ensures Pow16(a) <= Pow16(b)
  {
    if a < b {
      Pow16Le(a, b - 1);
    }
  }

  /** A data record: the cursor moves past its bytes, a new block starts
      exactly when its address differs from the cursor, and the open block
      then ends just before the cursor, at this record. */
  lemma {:induction false} DataStepSplits(st: ReadState, n: nat, data: string, addr: int, loadData: bool, store: bool)
    requires st.open || st.blocks == []
    ensures var st' := DataStep(st, n, data, addr, loadData, store);
      st'.cursor == addr + |data| / 2 &&
      |Finish(st', store)| == |Finish(st, store)| + (if st.cursor != addr then 1 else 0) &&
      st.blocks <= st'.blocks &&
      (st'.open ==> st'.current.end == st'.cursor - 1 && st'.current.endLine == n) &&
      (st.cursor != addr ==> st'.open && st'.current.start == addr && st'.current.startLine == n)
  {
  }

  // ---------------------------------------------------------------------------
  // The whole file

  /** Error map and count: the records are numbered 1 to |vs|, record j + 1
      carries an error exactly when ErrorOf gives one (so at most one, and
      CheckLine's code before any other), and DataLinesCount counts the
      valid data records. */
  lemma {:induction false} ScanErrors(f: Format, loadData: bool, store: bool, vs: seq<Verdict>, h: string)
    requires Scan(f, loadData, store, vs, h).Ok?
    ensures var st := Scan(f, loadData, store, vs, h).value;
      st.lineNumber == |vs| && st.dataLinesCount == CountData(f, vs) &&
      (forall k :: k in st.errors ==> 1 <= k <= |vs|) &&
      (forall j :: 0 <= j < |vs| ==>
        (j + 1 in st.errors <==> ErrorOf(f, vs[j], CountData(f, vs[..j])).Some?)) &&
      (forall j :: 0 <= j < |vs| && j + 1 in st.errors ==>
        st.errors[j + 1] == ErrorOf(f, vs[j], CountData(f, vs[..j])).value)
  {
    if vs != [] {
      var p := vs[..|vs| - 1];
      ScanLast(f, loadData, store, vs, h);
      ScanErrors(f, loadData, store, p, h);
      var st0 := Scan(f, loadData, store, p, h).value;
      StepBookkeeping(f, loadData, store, st0, vs[|vs| - 1]);
      var st := Scan(f, loadData, store, vs, h).value;
      forall j | 0 <= j < |vs|
        ensures j + 1 in st.errors <==> ErrorOf(f, vs[j], CountData(f, vs[..j])).Some?
        ensures j + 1 in st.errors ==> st.errors[j + 1] == ErrorOf(f, vs[j], CountData(f, vs[..j])).value
      {
        if j < |p| {
          assert vs[j] == p[j] && vs[..j] == p[..j];
        } else {
          assert vs[..j] == p;
        }
      }
    }
  }

  /** The error map of a completed scan lists every record CheckLine
      rejects, so ReadRangeFromFile and ModifyInFile, which skip the listed
      records and parse the others, only meet a rejected record when the
      file changed after Read. */
  lemma {:induction false} ScanListsRejected(f: Format, loadData: bool, store: bool, vs: seq<Verdict>, h: string)
    requires Scan(f, loadData, store, vs, h).Ok?
    ensures var st := Scan(f, loadData, store, vs, h).value;
      forall j :: 0 <= j < |vs| && vs[j].Rejected? ==> j + 1 in st.errors
  {
    ScanErrors(f, loadData, store, vs, h);
  }

  /** A successful scan is its last step applied to the scan of the rest. */
  lemma {:induction false} ScanLast(f: Format, loadData: bool, store: bool, vs: seq<Verdict>, h: string)
    requires vs != [] && Scan(f, loadData, store, vs, h).Ok?
    ensures Scan(f, loadData, store, vs[..|vs| - 1], h).Ok?
    ensures Step(f, loadData, store, Scan(f, loadData, store, vs[..|vs| - 1], h).value, vs[|vs| - 1]).Ok?
    ensures Scan(f, loadData, store, vs, h).value ==
      Step(f, loadData, store, Scan(f, loadData, store, vs[..|vs| - 1], h).value, vs[|vs| - 1]).value
  {
  }

  /** The header: it is seen exactly when some valid header record exists,
      and HeaderData is then the data of the last one; otherwise HeaderData
      keeps its earlier value. Intel HEX files never have one. */
  lemma {:induction false} ScanHeader(f: Format, loadData: bool, store: bool, vs: seq<Verdict>, h: string)
    requires Scan(f, loadData, store, vs, h).Ok?
    ensures var st := Scan(f, loadData, store, vs, h).value;
      (st.hasHeader <==> SomeHeader(f, vs)) &&
      (!st.hasHeader ==> st.headerData == h) &&
      (st.hasHeader ==> LastHeader(f, vs, st.headerData))
    ensures f.IHex? ==> !Scan(f, loadData, store, vs, h).value.hasHeader
  {
    if vs != [] {
      var p := vs[..|vs| - 1];
      var last := vs[|vs| - 1];
      ScanLast(f, loadData, store, vs, h);
      ScanHeader(f, loadData, store, p, h);
      var st0 := Scan(f, loadData, store, p, h).value;
      StepHeader(f, loadData, store, st0, last);
      SomeHeaderLast(f, vs);
      LastHeaderLast(f, vs, Scan(f, loadData, store, vs, h).value.headerData);
    }
  }

  predicate SomeHeader(f: Format, vs: seq<Verdict>) {
    exists k :: 0 <= k < |vs| && IsOfType(f, vs[k], Header)
  }

  /** Some valid header record carries this data and no valid header
      record follows it. */
  predicate LastHeader(f: Format, vs: seq<Verdict>, data: string) {
    exists k :: 0 <= k < |vs| && IsOfType(f, vs[k], Header) && vs[k].r.data == data &&
      forall j :: k < j < |vs| ==> !IsOfType(f, vs[j], Header)
  }

  lemma {:induction false} SomeHeaderLast(f: Format, vs: seq<Verdict>)
    requires vs != []
    ensures SomeHeader(f, vs) == (SomeHeader(f, vs[..|vs| - 1]) || IsOfType(f, vs[|vs| - 1], Header))
  {
    var p := vs[..|vs| - 1];
    if SomeHeader(f, vs) && !IsOfType(f, vs[|vs| - 1], Header) {
      var k :| 0 <= k < |vs| && IsOfType(f, vs[k], Header);
      assert p[k] == vs[k];
    }
    if SomeHeader(f, p) {
      var k :| 0 <= k < |p| && IsOfType(f, p[k], Header);
      assert p[k] == vs[k];
    }
  }

  lemma {:induction false} LastHeaderLast(f: Format, vs: seq<Verdict>, data: string)
    requires vs != []
    ensures IsOfType(f, vs[|vs| - 1], Header) && vs[|vs| - 1].r.data == data ==> LastHeader(f, vs, data)
    ensures !IsOfType(f, vs[|vs| - 1], Header) && LastHeader(f, vs[..|vs| - 1], data) ==> LastHeader(f, vs, data)
  {
    var p := vs[..|vs| - 1];
    if !IsOfType(f, vs[|vs| - 1], Header) && LastHeader(f, p, data) {
      var k :| 0 <= k < |p| && IsOfType(f, p[k], Header) && p[k].r.data == data &&
        forall j :: k < j < |p| ==> !IsOfType(f, p[j], Header);
      assert p[k] == vs[k];
      assert forall j :: k < j < |p| ==> p[j] == vs[j];
    }
  }

  /** Only a valid header record touches the header; Intel HEX has none. */
  lemma {:induction false} StepHeader(f: Format, loadData: bool, store: bool, st: ReadState, v: Verdict)
    requires Step(f, loadData, store, st, v).Ok?
    ensures var st' := Step(f, loadData, store, st, v).value;
      st'.hasHeader == (st.hasHeader || IsOfType(f, v, Header)) &&
      st'.headerData == (if IsOfType(f, v, Header) then v.r.data else st.headerData)
    ensures f.IHex? ==> !IsOfType(f, v, Header)
  {
  }

  // ---------------------------------------------------------------------------
  // Blocks

  /** No block starts right after the one before it ends. */
  predicate NoAbut(bs: seq<Block>) {
    forall i :: 0 <= i < |bs| - 1 ==> bs[i + 1].start - bs[i].end != 1
  }

  /** What the block bookkeeping keeps, whatever the records. */
  predicate Apart(st: ReadState) {
    (!st.open ==> st.blocks == []) && NoAbut(st.blocks) &&
    (st.open && st.blocks != [] ==> st.current.start - st.blocks[|st.blocks| - 1].end != 1)
  }

  lemma {:induction false} DataApart(st: ReadState, n: nat, data: string, addr: int, loadData: bool, store: bool)
    requires Apart(st)
    ensures Apart(DataStep(st, n, data, addr, loadData, store))
  {
    var st' := DataStep(st, n, data, addr, loadData, store);
    if st.cursor != addr && st.open {
      var bs := st'.blocks;
      assert bs[..|bs| - 1] == st.blocks;
      assert forall i :: 0 <= i < |st.blocks| ==> bs[i] == st.blocks[i];
    }
  }

  lemma {:induction false} StepApart(f: Format, loadData: bool, store: bool, st: ReadState, v: Verdict)
    requires Apart(st)
    requires Step(f, loadData, store, st, v).Ok?
    ensures Apart(Step(f, loadData, store, st, v).value)
  {
    if IsOfType(f, v, Data) {
      StepData(f, loadData, store, st, v);
      DataApart(st.(lineNumber := st.lineNumber + 1), st.lineNumber + 1, v.r.data, st.bank + v.r.addressLong, loadData, store);
    } else {
      StepOther(f, loadData, store, st, v);
    }
  }

  /** Raw blocks are cut exactly at discontinuities: in file order, no raw
      block starts at the address right after the end of the block before
      it. */
  lemma {:induction false} ScanSplits(f: Format, loadData: bool, store: bool, vs: seq<Verdict>, h: string)
    requires Scan(f, loadData, store, vs, h).Ok?
    ensures Apart(Scan(f, loadData, store, vs, h).value)
    ensures NoAbut(Finish(Scan(f, loadData, store, vs, h).value, store))
  {
    ScanApart(f, loadData, store, vs, h);
    FinishApart(Scan(f, loadData, store, vs, h).value, store);
  }

  lemma {:induction false} ScanApart(f: Format, loadData: bool, store: bool, vs: seq<Verdict>, h: string)
    requires Scan(f, loadData, store, vs, h).Ok?
    ensures Apart(Scan(f, loadData, store, vs, h).value)
  {
    if vs != [] {
      var p := vs[..|vs| - 1];
      ScanLast(f, loadData, store, vs, h);
      ScanApart(f, loadData, store, p, h);
      StepApart(f, loadData, store, Scan(f, loadData, store, p, h).value, vs[|vs| - 1]);
    }
  }

  /** Closing the open block keeps the blocks apart. */
  lemma {:induction false} FinishApart(st: ReadState, store: bool)
    requires Apart(st)
    ensures NoAbut(Finish(st, store))
  {
    if st.open {
      var bs := Finish(st, store);
      assert forall i :: 0 <= i < |st.blocks| ==> bs[i] == st.blocks[i];
    }
  }

  /** What ParseLine guarantees of the fields the reader uses. */
  predicate Sound(v: Verdict) {
    v.Parsed? ==> v.r.addressLong >= 0 && AllHex(v.r.data) && |v.r.data| % 2 == 0
  }

  lemma {:induction false} JudgeSound(f: Format, rec: string)
    ensures Sound(Judge(f, rec))
  {
    if Judge(f, rec).Parsed? {
      ParsedFields(f, rec);
      ParsedDataEven(f, rec);
    }
  }

  /** Address-bank records of at most four bytes, so that the bank is never
      negative (Intel 02 and 04 records carry two). */
  predicate ShortBank(f: Format, v: Verdict) {
    IsOfType(f, v, ExtendedSegmentAddress) || IsOfType(f, v, ExtendedLinearAddress) ==> |v.r.data| <= 8
  }

  /** A finished block: it starts at a non-negative address, does not end
      before it starts, and holds two characters per byte when data is
      loaded and nothing otherwise. */
  predicate BlockOk(b: Block, loadData: bool) {
    0 <= b.start <= b.end + 1 &&
    (loadData ==> |b.payload| == 2 * (b.end - b.start + 1)) && (!loadData ==> b.payload == "")
  }

  predicate Tidy(st: ReadState, loadData: bool, store: bool) {
    st.bank >= 0 && OpenTidy(st, loadData) && BlocksTidy(st.blocks, loadData, store)
  }

  /** The open block: none, with nothing accumulated, or one running from
      its start to the cursor with two characters per byte accumulated. */
  predicate OpenTidy(st: ReadState, loadData: bool) {
    (!st.open ==> st.blocks == [] && st.cursor == -1 && st.acc == "") &&
    (st.open ==> (0 <= st.current.start <= st.cursor && st.current.end == st.cursor - 1 &&
      (loadData ==> |st.acc| == 2 * (st.cursor - st.current.start)) && (!loadData ==> st.acc == "")))
  }

  /** Finished blocks that are well-formed and hold payloads as RawData shows them. */
  predicate BlocksTidy(bs: seq<Block>, loadData: bool, store: bool) {
    (forall i :: 0 <= i < |bs| ==> BlockOk(bs[i], loadData)) && Viewed(store, bs)
  }

  /** Payloads as the RawData getter returns them: unchanged by another
      round through the setter. */
  predicate Viewed(store: bool, bs: seq<Block>) {
    forall i :: 0 <= i < |bs| ==> View(store, bs[i].payload) == bs[i].payload
  }

  lemma {:induction false} ViewIdempotent(store: bool, s: string)
    ensures View(store, View(store, s)) == View(store, s)
  {
    if !store {
      assert forall i :: 0 <= i < |s| ==> Upper(Upper(s))[i] == Upper(s)[i];
    }
  }

  lemma {:induction false} ViewAppend(store: bool, a: string, b: string)
    ensures View(store, a + b) == View(store, a) + View(store, b)
    ensures |View(store, a)| == |a|
  {
    UpperAppend(a, b);
  }

  lemma {:induction false} DataTidy(st: ReadState, n: nat, data: string, addr: int, loadData: bool, store: bool)
    requires Tidy(st, loadData, store) && addr >= 0 && |data| % 2 == 0
    ensures var st' := DataStep(st, n, data, addr, loadData, store);
      Tidy(st', loadData, store) &&
      (loadData ==> Payloads(st'.blocks) + View(store, st'.acc) == Payloads(st.blocks) + View(store, st.acc) + View(store, data))
  {
    var st' := DataStep(st, n, data, addr, loadData, store);
    ViewAppend(store, st.acc, data);
    ViewAppend(store, "", data);
    ViewIdempotent(store, st.acc);
    if st.cursor != addr && st.open {
      var bs := st'.blocks;
      assert bs[..|bs| - 1] == st.blocks;
      assert forall i :: 0 <= i < |st.blocks| ==> bs[i] == st.blocks[i];
      assert BlockOk(bs[|bs| - 1], loadData);
    }
  }

  lemma {:induction false} StepTidy(f: Format, loadData: bool, store: bool, st: ReadState, v: Verdict)
    requires Tidy(st, loadData, store) && Sound(v) && ShortBank(f, v)
    requires Step(f, loadData, store, st, v).Ok?
    ensures var st' := Step(f, loadData, store, st, v).value;
      Tidy(st', loadData, store) &&
      (loadData ==> Payloads(st'.blocks) + View(store, st'.acc) == Payloads(st.blocks) + View(store, st.acc) + View(store, DataOf(f, v)))
  {
    if IsOfType(f, v, Data) {
      StepTidyRecord(f, loadData, store, st, v);
    } else {
      StepTidyOther(f, loadData, store, st, v);
    }
  }

  /** The data branch of StepTidy. */
  lemma {:induction false} StepTidyRecord(f: Format, loadData: bool, store: bool, st: ReadState, v: Verdict)
    requires Tidy(st, loadData, store) && Sound(v) && IsOfType(f, v, Data)
    requires Step(f, loadData, store, st, v).Ok?
    ensures var st' := Step(f, loadData, store, st, v).value;
      Tidy(st', loadData, store) &&
      (loadData ==> Payloads(st'.blocks) + View(store, st'.acc) == Payloads(st.blocks) + View(store, st.acc) + View(store, DataOf(f, v)))
  {
    StepData(f, loadData, store, st, v);
    var n, addr := st.lineNumber + 1, st.bank + v.r.addressLong;
    var st' := DataStep(st.(lineNumber := n), n, v.r.data, addr, loadData, store);
    StepTidyData(st, n, v.r.data, addr, loadData, store, st');
    assert DataOf(f, v) == v.r.data;
  }

  /** A data record, one line on from a tidy state, leaves it tidy. */
  lemma {:induction false} StepTidyData(st: ReadState, n: nat, data: string, addr: int, loadData: bool, store: bool, st': ReadState)
    requires Tidy(st, loadData, store) && addr >= 0 && |data| % 2 == 0
    requires st' == DataStep(st.(lineNumber := n), n, data, addr, loadData, store)
    ensures Tidy(st', loadData, store) &&
      (loadData ==> Payloads(st'.blocks) + View(store, st'.acc) == Payloads(st.blocks) + View(store, st.acc) + View(store, data))
  {
    var st0 := st.(lineNumber := n);
    TidyKept(st, st0, loadData, store);
    DataTidy(st0, n, data, addr, loadData, store);
  }

  lemma {:induction false} StepTidyOther(f: Format, loadData: bool, store: bool, st: ReadState, v: Verdict)
    requires Tidy(st, loadData, store) && Sound(v) && ShortBank(f, v) && !IsOfType(f, v, Data)
    requires Step(f, loadData, store, st, v).Ok?
    ensures var st' := Step(f, loadData, store, st, v).value;
      Tidy(st', loadData, store) &&
      Payloads(st'.blocks) + View(store, st'.acc) == Payloads(st.blocks) + View(store, st.acc) + View(store, DataOf(f, v))
  {
    var st' := Step(f, loadData, store, st, v).value;
    StepOther(f, loadData, store, st, v);
    StepBankNonNegative(f, loadData, store, st, v);
    TidyKept(st, st', loadData, store);
    assert DataOf(f, v) == "";
    assert View(store, "") == "";
  }

  /** The bank never becomes negative: bank records carry at most four bytes. */
  lemma {:induction false} StepBankNonNegative(f: Format, loadData: bool, store: bool, st: ReadState, v: Verdict)
    requires st.bank >= 0 && Sound(v) && ShortBank(f, v)
    requires Step(f, loadData, store, st, v).Ok?
    ensures Step(f, loadData, store, st, v).value.bank >= 0
  {
    StepBank(f, loadData, store, st, v);
    if IsOfType(f, v, ExtendedSegmentAddress) || IsOfType(f, v, ExtendedLinearAddress) {
      BankValue(v.r.data);
    }
  }

  /** A state with the same blocks, cursor and payload as a tidy one, and a
      bank that is not negative, is tidy. */
  lemma {:induction false} TidyKept(st: ReadState, st': ReadState, loadData: bool, store: bool)
    requires Tidy(st, loadData, store) && st'.bank >= 0
    requires st'.blocks == st.blocks && st'.open == st.open && st'.current == st.current
    requires st'.cursor == st.cursor && st'.acc == st.acc
    ensures Tidy(st', loadData, store)
  {
  }

  /** A valid data record is a DataStep at its absolute address. */
  lemma {:induction false} StepData(f: Format, loadData: bool, store: bool, st: ReadState, v: Verdict)
    requires IsOfType(f, v, Data)
    ensures Step(f, loadData, store, st, v) ==
      Ok(DataStep(st.(lineNumber := st.lineNumber + 1), st.lineNumber + 1, v.r.data, st.bank + v.r.addressLong, loadData, store))
  {
  }

  /** Any record but a valid data record leaves the blocks, the cursor and
      the accumulated payload alone. */
  lemma {:induction false} StepOther(f: Format, loadData: bool, store: bool, st: ReadState, v: Verdict)
    requires !IsOfType(f, v, Data)
    requires Step(f, loadData, store, st, v).Ok?
    ensures var st' := Step(f, loadData, store, st, v).value;
      st'.blocks == st.blocks && st'.open == st.open && st'.current == st.current &&
      st'.cursor == st.cursor && st'.acc == st.acc
  {
  }

  lemma {:induction false} ScanTidy(f: Format, loadData: bool, store: bool, vs: seq<Verdict>, h: string)
    requires Scan(f, loadData, store, vs, h).Ok?
    requires forall k :: 0 <= k < |vs| ==> Sound(vs[k]) && ShortBank(f, vs[k])
    ensures Tidy(Scan(f, loadData, store, vs, h).value, loadData, store)
    ensures loadData ==> (Payloads(Scan(f, loadData, store, vs, h).value.blocks) +
      View(store, Scan(f, loadData, store, vs, h).value.acc) == View(store, AllData(f, vs)))
  {
    if vs != [] {
      var p := vs[..|vs| - 1];
      ScanLast(f, loadData, store, vs, h);
      assert forall k :: 0 <= k < |p| ==> p[k] == vs[k];
      ScanTidy(f, loadData, store, p, h);
      StepTidy(f, loadData, store, Scan(f, loadData, store, p, h).value, vs[|vs| - 1]);
      ViewAppend(store, AllData(f, p), DataOf(f, vs[|vs| - 1]));
    } else {
      assert View(store, "") == "";
    }
  }

  /** Closing the open block keeps the blocks well-formed. */
  lemma {:induction false} FinishTidy(st: ReadState, loadData: bool, store: bool)
    requires Tidy(st, loadData, store)
    ensures var bs := Finish(st, store);
      (forall i :: 0 <= i < |bs| ==> BlockOk(bs[i], loadData)) && Viewed(store, bs) &&
      Payloads(bs) == Payloads(st.blocks) + View(store, st.acc)
  {
    var bs := Finish(st, store);
    ViewAppend(store, st.acc, "");
    ViewIdempotent(store, st.acc);
    if st.open {
      assert bs[..|bs| - 1] == st.blocks;
      assert forall i :: 0 <= i < |st.blocks| ==> bs[i] == st.blocks[i];
    } else {
      assert View(store, st.acc) == "";
    }
  }

  /** Raw blocks as the file holds them, given sound records and short
      banks: every block is well-formed, and with LoadData the payloads,
      concatenated in file order, are the data fields of the valid data
      records as the RawData getter shows them. */
  lemma {:induction false} ScanBlocks(f: Format, loadData: bool, store: bool, vs: seq<Verdict>, h: string)
    requires Scan(f, loadData, store, vs, h).Ok?
    requires forall k :: 0 <= k < |vs| ==> Sound(vs[k]) && ShortBank(f, vs[k])
    ensures var bs := Finish(Scan(f, loadData, store, vs, h).value, store);
      (forall i :: 0 <= i < |bs| ==> BlockOk(bs[i], loadData)) && Viewed(store, bs) &&
      (loadData ==> Payloads(bs) == View(store, AllData(f, vs)))
  {
    ScanTidy(f, loadData, store, vs, h);
    FinishTidy(Scan(f, loadData, store, vs, h).value, loadData, store);
  }

  // ---------------------------------------------------------------------------
  // The payload, whatever the banks

  /** What the reader holds of the payload: the finished blocks' payloads,
      then the text accumulated for the open block, as RawData shows it. */
  function Held(st: ReadState, store: bool): string {
    Payloads(st.blocks) + View(store, st.acc)
  }

  /** A data record appends its data to what the reader holds, and the
      block it may close shows its payload as RawData does. */
  lemma {:induction false} DataPayload(st: ReadState, n: nat, data: string, addr: int, loadData: bool, store: bool)
    requires Viewed(store, st.blocks) && (st.open || st.blocks == [])
    ensures var st' := DataStep(st, n, data, addr, loadData, store);
      Viewed(store, st'.blocks) && (st'.open || st'.blocks == []) && (st.open ==> st'.open) &&
      (loadData ==> Held(st', store) == Held(st, store) + View(store, data))
  {
    var st' := DataStep(st, n, data, addr, loadData, store);
    ViewAppend(store, st.acc, data);
    ViewAppend(store, "", data);
    if st.cursor != addr && st.open {
      var bs := st'.blocks;
      assert bs[..|bs| - 1] == st.blocks;
      ViewIdempotent(store, st.acc);
      assert forall i :: 0 <= i < |st.blocks| ==> bs[i] == st.blocks[i];
    }
  }

  /** Each record appends its data field, as RawData shows it, to what the
      reader holds. Unlike StepTidy, this needs no bound on the bank: the
      addresses decide only where the blocks are cut. */
  lemma {:induction false} StepPayload(f: Format, loadData: bool, store: bool, st: ReadState, v: Verdict)
    requires Step(f, loadData, store, st, v).Ok?
    requires Viewed(store, st.blocks) && (st.open || st.blocks == [])
    ensures var st' := Step(f, loadData, store, st, v).value;
      Viewed(store, st'.blocks) && (st'.open || st'.blocks == []) &&
      (st.open ==> st'.open) &&
      (loadData ==> Held(st', store) == Held(st, store) + View(store, DataOf(f, v)))
  {
    if IsOfType(f, v, Data) {
      StepData(f, loadData, store, st, v);
      var n := st.lineNumber + 1;
      DataPayload(st.(lineNumber := n), n, v.r.data, st.bank + v.r.addressLong, loadData, store);
      assert DataOf(f, v) == v.r.data;
    } else {
      StepOther(f, loadData, store, st, v);
      assert DataOf(f, v) == "" && View(store, "") == "";
    }
  }

  /** Through a whole file, what the reader holds is the data fields of the
      valid data records, in file order, as RawData shows them. */
  lemma {:induction false} ScanPayload(f: Format, loadData: bool, store: bool, vs: seq<Verdict>, h: string)
    requires Scan(f, loadData, store, vs, h).Ok?
    ensures var st := Scan(f, loadData, store, vs, h).value;
      Viewed(store, st.blocks) && (st.open || st.blocks == []) &&
      (loadData ==> Held(st, store) == View(store, AllData(f, vs)))
  {
    if vs != [] {
      var p := vs[..|vs| - 1];
      ScanLast(f, loadData, store, vs, h);
      ScanPayload(f, loadData, store, p, h);
      StepPayload(f, loadData, store, Scan(f, loadData, store, p, h).value, vs[|vs| - 1]);
      ViewAppend(store, AllData(f, p), DataOf(f, vs[|vs| - 1]));
    } else {
      assert View(store, "") == "";
    }
  }

  /** The raw blocks' payloads, concatenated in file order, are the data
      fields of the valid data records as RawData shows them, for any banks.
      The one exception is a file where no block ever opens: a data record
      read at address -1 (the cursor's initial value) continues the block
      that has no start address yet, so its data is accumulated for a block
      that is never added, and the file has no raw blocks at all. */
  lemma {:induction false} ScanPayloads(f: Format, loadData: bool, store: bool, vs: seq<Verdict>, h: string)
    requires Scan(f, loadData, store, vs, h).Ok?
    ensures var st := Scan(f, loadData, store, vs, h).value; var bs := Finish(st, store);
      Viewed(store, bs) &&
      (loadData && st.open ==> Payloads(bs) == View(store, AllData(f, vs))) &&
      (!st.open ==> bs == [] && (loadData ==> View(store, st.acc) == View(store, AllData(f, vs))))
  {
    var st := Scan(f, loadData, store, vs, h).value;
    ScanPayload(f, loadData, store, vs, h);
    var bs := Finish(st, store);
    if st.open {
      ViewIdempotent(store, st.acc);
      assert bs[..|bs| - 1] == st.blocks;
      assert forall i :: 0 <= i < |st.blocks| ==> bs[i] == st.blocks[i];
    } else {
      assert Payloads(st.blocks) == "";
    }
  }

  /** HexToInt64 of "FFFFFFFFFFFF" + "0000" wraps to -65536: the 04 record
      of six bytes FFFFFFFFFFFF sets a negative bank. */
  lemma LongBankWraps()
    ensures ShiftedHexToLong("FFFFFFFFFFFF", 4) == -65536
  {
    var d := "FFFFFFFFFFFF";
    var k := 0;
    while k < 12
      invariant 0 <= k <= 12 && AllHex(d[..k]) && HexValue(d[..k]) == Pow16(k) - 1
    {
      assert d[..k + 1] == d[..k] + [d[k]] && d[k] == 'F';
      HexValueSnoc(d[..k], d[k]);
      k := k + 1;
    }
    assert d[..12] == d;
    assert Pow16(12) == 0x1_0000_0000_0000;
    assert Pow16(4) == 65536;
  }

  /** After that bank, a data record at FFFF is read at address -1, the
      cursor's initial value: its data is accumulated, no block opens, and
      the file ends with no raw block. */
  lemma LostAtMinusOne()
    ensures var vs := [Parsed(Record("04", "06", 6, 4, "0000", 0, "FFFFFFFFFFFF", "FC", "FC")),
                       Parsed(Record("00", "01", 1, 4, "FFFF", 0xFFFF, "AB", "56", "56"))];
      Scan(IHex, true, true, vs, "").Ok? &&
      AllData(IHex, vs) == "AB" &&
      Finish(Scan(IHex, true, true, vs, "").value, true) == []
  {
    var vs := [Parsed(Record("04", "06", 6, 4, "0000", 0, "FFFFFFFFFFFF", "FC", "FC")),
               Parsed(Record("00", "01", 1, 4, "FFFF", 0xFFFF, "AB", "56", "56"))];
    LongBankWraps();
    assert vs[..1][..0] == [] && vs[..|vs| - 1] == vs[..1];
    assert GetRecordType(IHex, "04") == ExtendedLinearAddress;
    assert GetRecordType(IHex, "00") == Data;
    var st0 := Initial("");
    assert Scan(IHex, true, true, vs[..1][..0], "") == Ok(st0);
    var st1 := st0.(lineNumber := 1, bank := -65536);
    assert Step(IHex, true, true, st0, vs[0]) == Ok(st1);
    assert Scan(IHex, true, true, vs[..1], "") == Ok(st1);
    assert st1.cursor == -1 == st1.bank + 0xFFFF;
    assert AllData(IHex, vs[..1]) == "";
  }
}
