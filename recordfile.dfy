/** The state an SRecord or IntelHex object keeps between calls (SRecord.cs):
    the options it was built with and what its last Read found. Read walks
    the lines of the file record by record and updates the fields in place;
    GetContinuousBlocks merges the raw blocks. Each method is proved equal to
    the reader and merge definitions, whose properties are proved there. */
module RecordFiles {
  import opened Wrappers
  import opened Hex
  import opened Formats
  import opened DataBlocks
  import opened Reader
  import opened Merge
  import opened Query
  import Patch

  /** The records of the first lines, then the first pieces of the next one. */
  lemma {:induction false} RecordsSnoc(f: Format, lines: seq<string>, i: nat)
    requires i < |lines|
    ensures Records(f, lines[..i + 1]) ==
      Records(f, lines[..i]) + Pieces(NonWhite(lines[i]), LayoutOf(f).startCode)
  {
    assert lines[..i + 1][..i] == lines[..i];
  }

  /** One more piece of the current line. */
  lemma PrefixSnoc(recs: seq<string>, pieces: seq<string>, j: nat)
    requires j < |pieces|
    ensures recs + pieces[..j + 1] == (recs + pieces[..j]) + [pieces[j]]
    ensures recs + pieces[..j + 1] <= recs + pieces
    ensures (recs + pieces)[..|recs| + j + 1] == recs + pieces[..j + 1]
  {
    assert pieces[..j + 1] == pieces[..j] + [pieces[j]];
  }

  /** The records of the first lines come first among the records of all. */
  lemma {:induction false} RecordsPrefix(f: Format, lines: seq<string>, k: nat)
    requires k <= |lines|
    ensures Records(f, lines[..k]) <= Records(f, lines)
  {
    if k < |lines| {
      var p := lines[..|lines| - 1];
      assert p[..k] == lines[..k];
      RecordsPrefix(f, p, k);
    } else {
      assert lines[..k] == lines;
    }
  }

  /** Scan over the records themselves, one record judged per step. The
      step is a function of its own, so that unfolding the scan once does
      not unfold the step. */
  function ScanRecords(f: Format, loadData: bool, store: bool, recs: seq<string>, h: string): Result<ReadState, ReadFault>
    decreases |recs|, 1
  {
    if recs == [] then Ok(Initial(h)) else ScanNext(f, loadData, store, recs, h)
  }

  function ScanNext(f: Format, loadData: bool, store: bool, recs: seq<string>, h: string): Result<ReadState, ReadFault>
    requires recs != []
    decreases |recs|, 0
  {
    match ScanRecords(f, loadData, store, recs[..|recs| - 1], h)
    case Err(e) => Err(e)
    case Ok(st) =>
      match Step(f, loadData, store, st, Judge(f, recs[|recs| - 1]))
      case Err(e) => Err(ReadFault(|recs|, e))
      case Ok(st') => Ok(st')
  }

  lemma {:induction false} ScanRecordsIsScan(f: Format, loadData: bool, store: bool, recs: seq<string>, h: string)
    ensures ScanRecords(f, loadData, store, recs, h) == Scan(f, loadData, store, Verdicts(f, recs), h)
  {
    if recs != [] {
      var p := recs[..|recs| - 1];
      ScanRecordsIsScan(f, loadData, store, p, h);
      var vs := Verdicts(f, recs);
      assert vs[..|vs| - 1] == Verdicts(f, p);
    }
  }

  /** Scanning one more record is one more step. */
  lemma {:induction false} ScanSnoc(f: Format, loadData: bool, store: bool, recs: seq<string>, rec: string, h: string)
    ensures ScanRecords(f, loadData, store, recs + [rec], h) ==
      match ScanRecords(f, loadData, store, recs, h)
      case Err(e) => Err(e)
      case Ok(st) =>
        match Step(f, loadData, store, st, Judge(f, rec))
        case Err(e) => Err(ReadFault(|recs| + 1, e))
        case Ok(st') => Ok(st')
  {
    assert (recs + [rec])[..|recs|] == recs;
  }

  /** Once ParseLine has thrown, the later records do not matter. */
  lemma {:induction false} ScanErrSticks(f: Format, loadData: bool, store: bool, recs: seq<string>, h: string, k: nat)
    requires k <= |recs| && ScanRecords(f, loadData, store, recs[..k], h).Err?
    ensures ScanRecords(f, loadData, store, recs, h) == ScanRecords(f, loadData, store, recs[..k], h)
    decreases |recs|
  {
    if k < |recs| {
      var p := recs[..|recs| - 1];
      assert p[..k] == recs[..k];
      ScanErrSticks(f, loadData, store, p, h, k);
    } else {
      assert recs[..k] == recs;
    }
  }

  /** A throw on piece j of a line, read after the pieces before it, is
      the outcome of the whole line. */
  lemma {:induction false} ThrowSticks(f: Format, loadData: bool, store: bool, recs: seq<string>, pieces: seq<string>, j: nat, h: string,
                                       done: seq<string>)
    requires j < |pieces| && done == recs + pieces[..j]
    requires ScanRecords(f, loadData, store, done + [pieces[j]], h).Err?
    ensures ScanRecords(f, loadData, store, recs + pieces, h) == ScanRecords(f, loadData, store, done + [pieces[j]], h)
  {
    var all := recs + pieces;
    var next := done + [pieces[j]];
    PrefixSnoc(recs, pieces, j);
    assert all[..|next|] == next;
    ScanErrSticks(f, loadData, store, all, h, |next|);
  }

  /** A throw on a record of line i is the outcome of the whole scan. */
  lemma {:induction false} ThrowEndsRead(f: Format, loadData: bool, store: bool, lines: seq<string>, i: nat, h: string)
    requires i < |lines| && ScanRecords(f, loadData, store, Records(f, lines[..i + 1]), h).Err?
    ensures ScanRecords(f, loadData, store, Records(f, lines), h) == ScanRecords(f, loadData, store, Records(f, lines[..i + 1]), h)
  {
    var all := Records(f, lines);
    var done := Records(f, lines[..i + 1]);
    RecordsPrefix(f, lines, i + 1);
    assert all[..|done|] == done;
    ScanErrSticks(f, loadData, store, all, h, |done|);
  }

  // ---------------------------------------------------------------------------
  // ReadRangeFromFile's scan over the records themselves

  function CollectRecords(f: Format, errors: map<int, ErrorCode>, s: int, e: int, recs: seq<string>): (r: Result<RangeState, RangeFault>)
    ensures r.Ok? ==> Increasing(r.value.dict)
    decreases |recs|, 1
  {
    if recs == [] then Ok(RangeState(0, [])) else CollectNext(f, errors, s, e, recs)
  }

  function CollectNext(f: Format, errors: map<int, ErrorCode>, s: int, e: int, recs: seq<string>): (r: Result<RangeState, RangeFault>)
    requires recs != []
    ensures r.Ok? ==> Increasing(r.value.dict)
    decreases |recs|, 0
  {
    match CollectRecords(f, errors, s, e, recs[..|recs| - 1])
    case Err(x) => Err(x)
    case Ok(st) =>
      match RangeStep(f, errors, s, e, st, |recs|, Judge(f, recs[|recs| - 1]))
      case Err(x) => Err(x)
      case Ok(st') => Ok(st')
  }

  lemma {:induction false} CollectRecordsIsCollect(f: Format, errors: map<int, ErrorCode>, s: int, e: int, recs: seq<string>)
    ensures CollectRecords(f, errors, s, e, recs) == Collect(f, errors, s, e, Verdicts(f, recs))
  {
    if recs != [] {
      var p := recs[..|recs| - 1];
      CollectRecordsIsCollect(f, errors, s, e, p);
      var vs := Verdicts(f, recs);
      assert vs[..|vs| - 1] == Verdicts(f, p);
    }
  }

  lemma {:induction false} CollectSnoc(f: Format, errors: map<int, ErrorCode>, s: int, e: int, recs: seq<string>, rec: string)
    ensures CollectRecords(f, errors, s, e, recs + [rec]) ==
      match CollectRecords(f, errors, s, e, recs)
      case Err(x) => Err(x)
      case Ok(st) =>
        match RangeStep(f, errors, s, e, st, |recs| + 1, Judge(f, rec))
        case Err(x) => Err(x)
        case Ok(st') => Ok(st')
  {
    assert (recs + [rec])[..|recs|] == recs;
  }

  lemma {:induction false} CollectErrSticks(f: Format, errors: map<int, ErrorCode>, s: int, e: int, recs: seq<string>, k: nat)
    requires k <= |recs| && CollectRecords(f, errors, s, e, recs[..k]).Err?
    ensures CollectRecords(f, errors, s, e, recs) == CollectRecords(f, errors, s, e, recs[..k])
    decreases |recs|
  {
    if k < |recs| {
      var p := recs[..|recs| - 1];
      assert p[..k] == recs[..k];
      CollectErrSticks(f, errors, s, e, p, k);
    } else {
      assert recs[..k] == recs;
    }
  }

  lemma {:induction false} CollectLineSticks(f: Format, errors: map<int, ErrorCode>, s: int, e: int, recs: seq<string>, pieces: seq<string>, j: nat)
    requires j < |pieces| && CollectRecords(f, errors, s, e, recs + pieces[..j + 1]).Err?
    ensures CollectRecords(f, errors, s, e, recs + pieces) == CollectRecords(f, errors, s, e, recs + pieces[..j + 1])
  {
    var all := recs + pieces;
    var done := recs + pieces[..j + 1];
    PrefixSnoc(recs, pieces, j);
    assert all[..|done|] == done;
    CollectErrSticks(f, errors, s, e, all, |done|);
  }

  lemma {:induction false} CollectFileSticks(f: Format, errors: map<int, ErrorCode>, s: int, e: int, lines: seq<string>, i: nat)
    requires i < |lines| && CollectRecords(f, errors, s, e, Records(f, lines[..i + 1])).Err?
    ensures CollectRecords(f, errors, s, e, Records(f, lines)) == CollectRecords(f, errors, s, e, Records(f, lines[..i + 1]))
  {
    var all := Records(f, lines);
    var done := Records(f, lines[..i + 1]);
    RecordsPrefix(f, lines, i + 1);
    assert all[..|done|] == done;
    CollectErrSticks(f, errors, s, e, all, |done|);
  }

  /** The dictionary's values, concatenated from the k-th on. */
  lemma {:induction false} ValuesFrom(d: seq<Piece>, k: nat)
    requires k < |d|
    ensures Values(d[k..]) == d[k].text + Values(d[k + 1..])
  {
    assert d[k..][1..] == d[k + 1..];
  }

  class RecordFile {
    const format: Format
    var loadData: bool
    var storeDataString: bool
    var errors: map<int, ErrorCode>
    var rawDataBlocks: seq<Block>
    var dataBlocks: seq<Block>
    var hasHeader: bool
    var headerData: string
    var dataLinesCount: nat

    /** SRecord(fileName, loadData) or IntelHex(fileName, loadData): nothing
        read yet, payloads stored as bytes. */
    constructor (f: Format, loadData: bool)
      ensures format == f && this.loadData == loadData && !storeDataString
      ensures errors == map[] && rawDataBlocks == [] && dataBlocks == []
      ensures !hasHeader && headerData == "" && dataLinesCount == 0
    {
      format := f;
      this.loadData := loadData;
      storeDataString := false;
      errors := map[];
      rawDataBlocks := [];
      dataBlocks := [];
      hasHeader := false;
      headerData := "";
      dataLinesCount := 0;
    }

    /** The reader's variables: the fields Read updates and its locals. */
    function Snapshot(n: nat, bank: int, cursor: int, open: bool, current: Block, acc: string): ReadState
      reads this
    {
      ReadState(n, errors, hasHeader, headerData, dataLinesCount, bank, cursor, rawDataBlocks, open, current, acc)
    }

    /** The body of Read's inner loop for record number n: CheckLine, then
        ParseLine (which may throw), then the checksum and the record type. */
    method ReadRecord(rec: string, ghost prior: seq<string>, ghost h: string,
                      n: nat, bank: int, cursor: int, open: bool, current: Block, acc: string)
      returns (r: Option<ParseFault>, bank': int, cursor': int, open': bool, current': Block, acc': string)
      requires n == |prior| + 1
      requires ScanRecords(format, loadData, storeDataString, prior, h) ==
        Ok(Snapshot(n - 1, bank, cursor, open, current, acc))
      modifies this
      ensures loadData == old(loadData) && storeDataString == old(storeDataString)
      ensures dataBlocks == old(dataBlocks)
      ensures var s := ScanRecords(format, loadData, storeDataString, prior + [rec], h);
        (s.Err? <==> r.Some?) &&
        (r.Some? ==> s == Err(ReadFault(n, r.value))) &&
        (s.Ok? ==> s == Ok(Snapshot(n, bank', cursor', open', current', acc')))
    {
      ScanSnoc(format, loadData, storeDataString, prior, rec, h);
      bank', cursor', open', current', acc' := bank, cursor, open, current, acc;
      r := None;
      var ec := CheckLine(format, rec);
      if ec != NoError {
        errors := errors[n := ec];
        return;
      }
      var parsed := ParseLine(format, rec);
      if parsed.Err? {
        r := Some(parsed.error);
        return;
      }
      var record := parsed.value;
      if record.checksum != record.checksumCalc {
        errors := errors[n := ChecksumMismatch];
        return;
      }
      bank', cursor', open', current', acc' := ReadValid(record, n, bank, cursor, open, current, acc);
    }

    /** A record that passed every check, by record type. */
    method ReadValid(record: Record, n: nat, bank: int, cursor: int, open: bool, current: Block, acc: string)
      returns (bank': int, cursor': int, open': bool, current': Block, acc': string)
      requires n >= 1 && record.checksum == record.checksumCalc
      modifies this
      ensures loadData == old(loadData) && storeDataString == old(storeDataString)
      ensures dataBlocks == old(dataBlocks)
      ensures Step(format, loadData, storeDataString, old(Snapshot(n - 1, bank, cursor, open, current, acc)), Parsed(record)) ==
        Ok(Snapshot(n, bank', cursor', open', current', acc'))
    {
      bank', cursor', open', current', acc' := bank, cursor, open, current, acc;
      match GetRecordType(format, record.typ)
      case Header =>
        hasHeader := true;
        headerData := record.data;
      case LinesCount =>
        if HexToInt32(record.address) != dataLinesCount {
          errors := errors[n := DataLinesCountMismatch];
        }
      case ExtendedSegmentAddress =>
        bank' := ShiftedHexToLong(record.data, 1);
      case ExtendedLinearAddress =>
        bank' := ShiftedHexToLong(record.data, 4);
      case Data =>
        cursor', open', current', acc' := ReadData(record.data, n, bank + record.addressLong, cursor, open, current, acc);
      case _ =>
    }

    /** A valid data record at absolute address `address`: a new raw block
        starts when the address does not continue the cursor. */
    method ReadData(data: string, n: nat, address: int, cursor: int, open: bool, current: Block, acc: string)
      returns (cursor': int, open': bool, current': Block, acc': string)
      requires n >= 1
      modifies this
      ensures loadData == old(loadData) && storeDataString == old(storeDataString)
      ensures dataBlocks == old(dataBlocks) && errors == old(errors)
      ensures hasHeader == old(hasHeader) && headerData == old(headerData)
      ensures forall bank :: (DataStep(old(Snapshot(n, bank, cursor, open, current, acc)), n, data, address, loadData, storeDataString) ==
        Snapshot(n, bank, cursor', open', current', acc'))
    {
      dataLinesCount := dataLinesCount + 1;
      cursor', open', current', acc' := cursor, open, current, acc;
      if cursor != address {
        if |rawDataBlocks| == 0 && !open {
          open' := true;
          current' := current.(start := address, startLine := n);
        } else {
          var closed := current.(end := cursor - 1, endLine := n - 1, payload := View(storeDataString, acc));
          rawDataBlocks := rawDataBlocks + [closed];
          acc' := "";
          open' := true;
          current' := Block(address, 0, n, 0, "");
        }
      }
      if loadData {
        acc' := acc' + data;
      }
      cursor' := address + |data| / 2;
      current' := current'.(end := cursor' - 1, endLine := n);
    }

    /** Read's inner loop: the records of one line, numbered on from the
        records before them, until ParseLine throws. */
    method ReadLine(pieces: seq<string>, ghost recs: seq<string>, ghost h: string,
                    lineNumber: nat, bank: int, cursor: int, open: bool, current: Block, acc: string)
      returns (fault: Option<ReadFault>, lineNumber': nat, bank': int, cursor': int, open': bool, current': Block, acc': string)
      requires lineNumber == |recs|
      requires ScanRecords(format, loadData, storeDataString, recs, h) ==
        Ok(Snapshot(lineNumber, bank, cursor, open, current, acc))
      modifies this
      ensures loadData == old(loadData) && storeDataString == old(storeDataString) && dataBlocks == old(dataBlocks)
      ensures var s := ScanRecords(format, loadData, storeDataString, recs + pieces, h);
        (s.Err? <==> fault.Some?) &&
        (fault.Some? ==> s == Err(fault.value)) &&
        (s.Ok? ==> lineNumber' == |recs + pieces| && s == Ok(Snapshot(lineNumber', bank', cursor', open', current', acc')))
    {
      lineNumber', bank', cursor', open', current', acc' := lineNumber, bank, cursor, open, current, acc;
      fault := None;
      var j := 0;
      ghost var done := recs;
      assert pieces[..0] == [];
      while j < |pieces| && fault.None?
        invariant j <= |pieces| && done == recs + pieces[..j] && lineNumber' == |done|
        invariant loadData == old(loadData) && storeDataString == old(storeDataString) && dataBlocks == old(dataBlocks)
        invariant fault.None? ==> (ScanRecords(format, loadData, storeDataString, done, h) ==
          Ok(Snapshot(lineNumber', bank', cursor', open', current', acc')))
        invariant fault.Some? ==> ScanRecords(format, loadData, storeDataString, recs + pieces, h) == Err(fault.value)
      {
        fault, lineNumber', bank', cursor', open', current', acc' :=
          ReadPiece(pieces, recs, j, done, h, lineNumber', bank', cursor', open', current', acc');
        done := done + [pieces[j]];
        j := j + 1;
      }
      if fault.None? {
        assert pieces[..j] == pieces;
      }
    }

    /** Record j of a line: the scan over the records up to it either goes
        on or has thrown, and then the throw is the outcome of the line. */
    method ReadPiece(pieces: seq<string>, ghost recs: seq<string>, j: nat, ghost done: seq<string>, ghost h: string,
                     n: nat, bank: int, cursor: int, open: bool, current: Block, acc: string)
      returns (fault: Option<ReadFault>, n': nat, bank': int, cursor': int, open': bool, current': Block, acc': string)
      requires j < |pieces| && done == recs + pieces[..j] && n == |done|
      requires ScanRecords(format, loadData, storeDataString, done, h) == Ok(Snapshot(n, bank, cursor, open, current, acc))
      modifies this
      ensures loadData == old(loadData) && storeDataString == old(storeDataString) && dataBlocks == old(dataBlocks)
      ensures done + [pieces[j]] == recs + pieces[..j + 1] && n' == n + 1
      ensures fault.None? ==> (ScanRecords(format, loadData, storeDataString, done + [pieces[j]], h) ==
        Ok(Snapshot(n', bank', cursor', open', current', acc')))
      ensures fault.Some? ==> ScanRecords(format, loadData, storeDataString, recs + pieces, h) == Err(fault.value)
    {
      n' := n + 1;
      var thrown;
      thrown, bank', cursor', open', current', acc' := ReadRecord(pieces[j], done, h, n', bank, cursor, open, current, acc);
      fault := None;
      if thrown.Some? {
        ThrowSticks(format, loadData, storeDataString, recs, pieces, j, h, done);
        fault := Some(ReadFault(n', thrown.value));
      }
      PrefixSnoc(recs, pieces, j);
    }

    /** Read: None for a missing file (false, nothing changes); otherwise
        the fields hold what the scan of the records found, the raw blocks as
        the merge leaves them and the merged blocks; a ParseLine exception
        ends the read with the number of the record it came from. */
    method Read(file: Option<seq<string>>) returns (r: Result<bool, ReadFault>)
      modifies this
      ensures loadData == old(loadData) && storeDataString == old(storeDataString)
      ensures file.None? ==> r == Ok(false) && unchanged(this)
      ensures file.Some? ==>
        var s := Scan(format, loadData, storeDataString, Verdicts(format, Records(format, file.value)), old(headerData));
        (s.Err? ==> r == Err(s.error)) &&
        (s.Ok? ==> (r == Ok(true) &&
          errors == s.value.errors && hasHeader == s.value.hasHeader &&
          headerData == s.value.headerData && dataLinesCount == s.value.dataLinesCount &&
          rawDataBlocks == RawAfterMerge(storeDataString, Finish(s.value, storeDataString)) &&
          dataBlocks == ContinuousBlocks(storeDataString, Finish(s.value, storeDataString))))
    {
      if file.None? {
        return Ok(false);
      }
      ghost var h := headerData;
      errors, hasHeader, dataLinesCount, rawDataBlocks, dataBlocks := map[], false, 0, [], [];
      var fault, lineNumber, bank, cursor, open, current, acc := ReadLines(file.value, h);
      ScanRecordsIsScan(format, loadData, storeDataString, Records(format, file.value), h);
      if fault.Some? {
        return Err(fault.value);
      }
      ghost var st := Snapshot(lineNumber, bank, cursor, open, current, acc);
      var raw := rawDataBlocks;
      if open {
        raw := raw + [current.(payload := View(storeDataString, acc))];
      }
      assert raw == Finish(st, storeDataString);
      dataBlocks, rawDataBlocks := GetContinuousBlocks(raw);
      return Ok(true);
    }

    /** Read's outer loop over the physical lines: white space removed, the
        line split before every start code, and its records read in turn. */
    method ReadLines(lines: seq<string>, ghost h: string)
      returns (fault: Option<ReadFault>, lineNumber: nat, bank: int, cursor: int, open: bool, current: Block, acc: string)
      requires Snapshot(0, 0, -1, false, Block(0, 0, 0, 0, ""), "") == Initial(h)
      modifies this
      ensures loadData == old(loadData) && storeDataString == old(storeDataString) && dataBlocks == old(dataBlocks)
      ensures var s := ScanRecords(format, loadData, storeDataString, Records(format, lines), h);
        (s.Err? <==> fault.Some?) &&
        (fault.Some? ==> s == Err(fault.value)) &&
        (s.Ok? ==> s == Ok(Snapshot(lineNumber, bank, cursor, open, current, acc)))
    {
      fault := None;
      lineNumber, bank, cursor, open, current, acc := 0, 0, -1, false, Block(0, 0, 0, 0, ""), "";
      ghost var recs: seq<string> := [];
      var i := 0;
      while i < |lines|
        invariant i <= |lines| && recs == Records(format, lines[..i]) && lineNumber == |recs| && fault.None?
        invariant loadData == old(loadData) && storeDataString == old(storeDataString) && dataBlocks == old(dataBlocks)
        invariant ScanRecords(format, loadData, storeDataString, recs, h) ==
          Ok(Snapshot(lineNumber, bank, cursor, open, current, acc))
      {
        var line := RemoveWhiteSpaces(lines[i]);
        var pieces := Split(line, LayoutOf(format).startCode);
        fault, lineNumber, bank, cursor, open, current, acc := ReadLine(pieces, recs, h, lineNumber, bank, cursor, open, current, acc);
        RecordsSnoc(format, lines, i);
        if fault.Some? {
          ThrowEndsRead(format, loadData, storeDataString, lines, i, h);
          return;
        }
        recs := recs + pieces;
        i := i + 1;
      }
      assert lines[..i] == lines;
    }

    /** One record of ReadRangeFromFile's scan, record number n: records
        the error map lists are skipped, banks are tracked, and a data
        record adds the part of it inside [s, e] to the dictionary. */
    method RangeRecord(rec: string, n: nat, s: int, e: int, bank: int, dict: seq<Piece>)
      returns (fault: Option<RangeFault>, bank': int, dict': seq<Piece>)
      requires Increasing(dict)
      ensures var step := RangeStep(format, errors, s, e, RangeState(bank, dict), n, Judge(format, rec));
        (step.Err? <==> fault.Some?) &&
        (fault.Some? ==> step == Err(fault.value)) &&
        (step.Ok? ==> step == Ok(RangeState(bank', dict')))
    {
      fault, bank', dict' := None, bank, dict;
      if n in errors {
        return;
      }
      var ec := CheckLine(format, rec);
      if ec != NoError {
        fault := Some(Unchecked(n));
        return;
      }
      var parsed := ParseLine(format, rec);
      if parsed.Err? {
        fault := Some(ParseThrows(n, parsed.error));
        return;
      }
      fault, bank', dict' := RangeParsed(parsed.value, n, s, e, bank, dict);
    }

    /** A record that parsed, by record type. */
    method RangeParsed(record: Record, n: nat, s: int, e: int, bank: int, dict: seq<Piece>)
      returns (fault: Option<RangeFault>, bank': int, dict': seq<Piece>)
      requires Increasing(dict) && n !in errors
      ensures var step := RangeStep(format, errors, s, e, RangeState(bank, dict), n, Parsed(record));
        (step.Err? <==> fault.Some?) &&
        (fault.Some? ==> step == Err(fault.value)) &&
        (step.Ok? ==> step == Ok(RangeState(bank', dict')))
    {
      fault, bank', dict' := None, bank, dict;
      match GetRecordType(format, record.typ)
      case ExtendedSegmentAddress =>
        bank' := ShiftedHexToLong(record.data, 1);
      case ExtendedLinearAddress =>
        bank' := ShiftedHexToLong(record.data, 4);
      case Data =>
        fault, dict' := RangeData(n, s, e, bank + record.addressLong, record.data, dict);
      case _ =>
    }

    /** A data record at absolute address a: its part inside [s, e], if
        any, is added to the dictionary under the address it starts at. */
    method RangeData(n: nat, s: int, e: int, a: int, data: string, dict: seq<Piece>)
      returns (fault: Option<RangeFault>, dict': seq<Piece>)
      requires Increasing(dict)
      ensures match Intersect(s, e, a, data)
        case Miss => fault.None? && dict' == dict
        case Throw => fault == Some(SliceThrows(n))
        case Hit(p) =>
          (Add(dict, p).None? ==> fault == Some(DuplicateKey(n, p.key))) &&
          (Add(dict, p).Some? ==> fault.None? && dict' == Add(dict, p).value)
    {
      fault, dict' := None, dict;
      match Intersect(s, e, a, data) {
        case Miss =>
        case Throw =>
          fault := Some(SliceThrows(n));
        case Hit(piece) =>
          var added := Add(dict, piece);
          if added.None? {
            fault := Some(DuplicateKey(n, piece.key));
          } else {
            dict' := added.value;
          }
      }
    }

    /** The records of one line, numbered on from the records before them. */
    method RangeLine(pieces: seq<string>, ghost recs: seq<string>, n: nat, s: int, e: int, bank: int, dict: seq<Piece>)
      returns (fault: Option<RangeFault>, n': nat, bank': int, dict': seq<Piece>)
      requires n == |recs| && CollectRecords(format, errors, s, e, recs) == Ok(RangeState(bank, dict))
      ensures var c := CollectRecords(format, errors, s, e, recs + pieces);
        (c.Err? <==> fault.Some?) &&
        (fault.Some? ==> c == Err(fault.value)) &&
        (c.Ok? ==> n' == |recs + pieces| && c == Ok(RangeState(bank', dict')))
    {
      fault, n', bank', dict' := None, n, bank, dict;
      ghost var done := recs;
      assert pieces[..0] == [];
      for j := 0 to |pieces|
        invariant done == recs + pieces[..j] && n' == |done| && fault.None?
        invariant CollectRecords(format, errors, s, e, done) == Ok(RangeState(bank', dict'))
      {
        n' := n' + 1;
        CollectSnoc(format, errors, s, e, done, pieces[j]);
        fault, bank', dict' := RangeRecord(pieces[j], n', s, e, bank', dict');
        PrefixSnoc(recs, pieces, j);
        done := done + [pieces[j]];
        if fault.Some? {
          CollectLineSticks(format, errors, s, e, recs, pieces, j);
          return;
        }
      }
      assert pieces[..|pieces|] == pieces;
    }

    /** The scan over the physical lines. */
    method RangeLines(lines: seq<string>, s: int, e: int) returns (fault: Option<RangeFault>, dict: seq<Piece>)
      ensures var c := CollectRecords(format, errors, s, e, Records(format, lines));
        (c.Err? <==> fault.Some?) &&
        (fault.Some? ==> c == Err(fault.value)) &&
        (c.Ok? ==> c.value.dict == dict)
    {
      fault, dict := None, [];
      var n, bank := 0, 0;
      ghost var recs: seq<string> := [];
      for i := 0 to |lines|
        invariant recs == Records(format, lines[..i]) && n == |recs| && fault.None?
        invariant CollectRecords(format, errors, s, e, recs) == Ok(RangeState(bank, dict))
      {
        var line := RemoveWhiteSpaces(lines[i]);
        var pieces := Split(line, LayoutOf(format).startCode);
        fault, n, bank, dict := RangeLine(pieces, recs, n, s, e, bank, dict);
        RecordsSnoc(format, lines, i);
        if fault.Some? {
          CollectFileSticks(format, errors, s, e, lines, i);
          return;
        }
        recs := recs + pieces;
      }
      assert lines[..|lines|] == lines;
    }

    /** ReadRangeFromFile(startAddress, endAddress): "" for a missing file;
        otherwise what the range query over the file's records gives, the
        dictionary's values being concatenated in key order. */
    method ReadRangeFromFile(file: Option<seq<string>>, startAddress: string, endAddress: string)
      returns (r: Result<string, RangeFault>)
      ensures file.None? ==> r == Ok("")
      ensures file.Some? ==> r == Query.ReadRangeFromFile(format, errors,
        Verdicts(format, Records(format, file.value)), HexToLong(startAddress), HexToLong(endAddress))
    {
      if file.None? {
        return Ok("");
      }
      var s := HexToLong(startAddress);
      var e := HexToLong(endAddress);
      if s > e {
        return Ok("");
      }
      var fault, dict := RangeLines(file.value, s, e);
      CollectRecordsIsCollect(format, errors, s, e, Records(format, file.value));
      if fault.Some? {
        return Err(fault.value);
      }
      var result := JoinValues(dict);
      if |result| != 2 * (e - s + 1) {
        result := "";
      }
      return Ok(result);
    }

    /** The foreach over the dictionary's values, appended in key order. */
    static method JoinValues(dict: seq<Piece>) returns (result: string)
      ensures result == Values(dict)
    {
      result := "";
      for k := 0 to |dict|
        invariant result + Values(dict[k..]) == Values(dict)
      {
        ValuesFrom(dict, k);
        result := result + dict[k].text;
      }
      assert dict[|dict|..] == [];
    }

    /** ReadRangeFromFile(startAddress, len): "" unless len > 0, otherwise
        the range of len bytes, its end rendered as hexadecimal text. */
    method ReadRangeFromFileFor(file: Option<seq<string>>, startAddress: string, len: int)
      returns (r: Result<string, RangeFault>)
      ensures file.None? ==> r == Ok("")
      ensures file.Some? ==> r == Query.ReadRangeFromFileFor(format, errors,
        Verdicts(format, Records(format, file.value)), HexToLong(startAddress), len)
    {
      if len <= 0 {
        return Ok("");
      }
      var start := HexToLong(startAddress);
      var endAddress := LongText(Wrap64(start + len - 1));
      assert HexToLong(endAddress) == EndOf(start, len);
      r := ReadRangeFromFile(file, startAddress, endAddress);
    }

    /** GetContinuousBlocks: the blocks sorted by start address and merged
        where one starts right after the running block's end; the caller's
        list comes back sorted, each run head holding its whole run. */
    method GetContinuousBlocks(unsorted: seq<Block>) returns (merged: seq<Block>, relinked: seq<Block>)
      ensures merged == ContinuousBlocks(storeDataString, unsorted)
      ensures relinked == RawAfterMerge(storeDataString, unsorted)
    {
      var sorted := SortByStart(unsorted);
      var list := sorted;
      merged := [];
      ghost var heads: seq<int> := [];
      var head := -1;
      var cur := Block(0, 0, 0, 0, "");
      for i := 0 to |sorted|
        invariant MergeState(merged, heads, head, cur, list) == Merged(storeDataString, sorted, i)
      {
        var b := list[i];
        if head < 0 {
          head, cur := i, b;
        } else if b.start - cur.end == 1 {
          cur := cur.(end := b.end, endLine := b.endLine, payload := View(storeDataString, cur.payload + b.payload));
          list := list[head := cur];
        } else {
          merged, heads := merged + [cur], heads + [head];
          head, cur := i, b;
        }
      }
      if head >= 0 {
        merged := merged + [cur];
      }
      relinked := list;
    }

    /** Modify(startAddress, data) on this object: with data loaded the
        block in memory is patched in place; otherwise the file's lines are
        rewritten and the new lines returned. An exception leaves the blocks
        and the file as they were. */
    method Modify(file: seq<string>, startAddress: string, data: string)
      returns (r: Result<bool, Patch.ModifyFault>, written: seq<string>)
      modifies this
      ensures loadData == old(loadData) && storeDataString == old(storeDataString) && errors == old(errors)
      ensures rawDataBlocks == old(rawDataBlocks) && hasHeader == old(hasHeader)
      ensures headerData == old(headerData) && dataLinesCount == old(dataLinesCount)
      ensures var m := Patch.Modify(format, errors, loadData, storeDataString, old(dataBlocks), file, startAddress, data);
        (m.Err? ==> r == Err(m.error) && dataBlocks == old(dataBlocks) && written == file) &&
        (m.Ok? ==> r == Ok(m.value.ok) && dataBlocks == m.value.blocks && written == m.value.lines)
    {
      var m := Patch.Modify(format, errors, loadData, storeDataString, dataBlocks, file, startAddress, data);
      match m
      case Err(x) =>
        r, written := Err(x), file;
      case Ok(v) =>
        r, written := Ok(v.ok), v.lines;
        dataBlocks := v.blocks;
    }
  }
}
