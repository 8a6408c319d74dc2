// ExportRangeToFile of IntelHex: an extended linear address record for the
// upper 16 bits of the start address, data records of at most dataLength
// bytes, a new extended linear address record whenever the lower 16 bits
// wrap, and the end-of-file record.

module IntelExport {
  import opened Wrappers
  import opened Hex
  import opened Formats
  import opened Reader
  import opened Query
  import opened Export

  // ---------------------------------------------------------------------------
  // Parameters and the start address

  /** The Intel normalisation: records of 1..255 bytes (else 32) and the
      newStartAddress rule of the S-record export; the address width it
      settles is not used by the Intel serialiser. */
  function IHexParams(addressLength: int, dataLength: int, ns: string): Params {
    Params(NormalWidth(addressLength), NormalChunk(dataLength, 255),
           NewStartAsWritten(ns, NormalWidth(addressLength)).0, 255)
  }

  /** PadLeft(8, '0'). */
  function Pad8(t: string): (r: string)
    ensures |r| >= 8
  {
    if |t| >= 8 then t else Zeros(8 - |t|) + t
  }

  /** The upper and lower four characters of the padded start address text. */
  function HighText(t: string): (r: string)
    ensures |r| == 4
  {
    Pad8(t)[..4]
  }

  function LowText(t: string): (r: string)
    ensures |r| == 4
  {
    Pad8(t)[4..8]
  }

  /** HexToInt of four characters: a value below 0x10000, or int.MinValue. */
  lemma {:induction false} FourDigits(s: string)
    requires |s| == 4
    ensures HexToInt32(s) < 0x10000
    ensures AllHex(s) ==> HexToInt32(s) == HexValue(s)
  {
    if AllHex(s) {
      HexValueBound(s);
      assert Pow16(4) == 0x10000;
    }
  }

  // ---------------------------------------------------------------------------
  // Records

  /** What the loop writes: an extended linear address record naming a
      64 KiB bank, or a data record at an address inside the bank. */
  datatype Item = Bank(high: int) | Chunk(low: int, text: string)

  /** The extended linear address record, from the bank's text. */
  function BankLine(highText: string): Result<string, ChecksumFault> {
    Line(":", "02" + "0000" + "04" + highText, false)
  }

  /** A record as the loop writes it: byte count X2, address X4, type 00,
      data, and the two's complement checksum. */
  function RenderItem(it: Item): Result<string, ChecksumFault> {
    match it
    case Bank(h) => BankLine(IntRender(h, 4))
    case Chunk(low, c) => Line(":", IntRender(|c| / 2, 2) + IntRender(low, 4) + "00" + c, false)
  }

  /** The records in order; the first checksum that throws ends the export. */
  function RenderItems(items: seq<Item>): Result<seq<string>, ChecksumFault> {
    if items == [] then Ok([])
    else
      match RenderItem(items[0])
      case Err(x) => Err(x)
      case Ok(l) =>
        match RenderItems(items[1..])
        case Err(x) => Err(x)
        case Ok(ls) => Ok([l] + ls)
  }

  const EndLine: string := ":00000001FF"

  // ---------------------------------------------------------------------------
  // The loop as written

  /** The data loop as written, from character i at lower address low in
      bank high. When a record of dl bytes would pass 0xFFFF, a record of the
      bytes left in the bank is cut first (its Substring throws when the data
      ends sooner: None), then the bank record, then a record at 0 of up to
      dl bytes, written even when no data is left. */
  function PlanAsWritten(data: string, dl: nat, i: nat, low: int, high: int): Option<seq<Item>>
    requires dl >= 1
    decreases |data| - i
  {
    if i >= |data| then Some([])
    else if low + dl - 1 > 0xFFFF then
      var rem := 0xFFFF - low + 1;
      if rem < 0 || i + 2 * rem > |data| then None
      else
        var j := i + 2 * rem;
        var n := Min(|data| - j, 2 * dl);
        match PlanAsWritten(data, dl, j + 2 * dl, dl, high + 1)
        case None => None
        case Some(rest) =>
          Some([Chunk(low, data[i..j]), Bank(high + 1), Chunk(0, data[j..j + n])] + rest)
    else
      var n := Min(|data| - i, 2 * dl);
      match PlanAsWritten(data, dl, i + 2 * dl, low + dl, high)
      case None => None
      case Some(rest) => Some([Chunk(low, data[i..i + n])] + rest)
  }

  /** The lines written as written: the first bank record from the padded
      start text itself, the loop, the end-of-file record; None when
      anything inside the try block throws. */
  function IHexLinesAsWritten(dl: nat, data: string, t: string): Option<seq<string>>
    requires dl >= 1
  {
    match BankLine(HighText(t))
    case Err(_) => None
    case Ok(l0) =>
      match PlanAsWritten(data, dl, 0, HexToInt32(LowText(t)), HexToInt32(HighText(t)))
      case None => None
      case Some(items) =>
        match RenderItems(items)
        case Err(_) => None
        case Ok(ls) => Some([l0] + ls + [EndLine])
  }

  // ---------------------------------------------------------------------------
  // The loop, corrected

  /** The data loop, corrected: a bank record only when data is left past
      the end of a bank, and each record of at most dl bytes and of no more
      than the bank has room for. */
  function Plan(data: string, dl: nat, i: nat, low: int, high: int): seq<Item>
    requires dl >= 1 && low <= 0x10000
    decreases |data| - i, if low > 0xFFFF then 1 else 0
  {
    if i >= |data| then []
    else if low > 0xFFFF then [Bank(high + 1)] + Plan(data, dl, i, 0, high + 1)
    else
      var n := Min(Min(|data| - i, 2 * dl), 2 * (0x10000 - low));
      [Chunk(low, data[i..i + n])] + Plan(data, dl, i + n, low + n / 2, high)
  }

  /** The lines of the corrected export. */
  function IHexLines(dl: nat, data: string, t: string): Option<seq<string>>
    requires dl >= 1
  {
    FourDigits(LowText(t));
    match BankLine(HighText(t))
    case Err(_) => None
    case Ok(l0) =>
      match RenderItems(Plan(data, dl, 0, HexToInt32(LowText(t)), HexToInt32(HighText(t))))
      case Err(_) => None
      case Ok(ls) => Some([l0] + ls + [EndLine])
  }

  // ---------------------------------------------------------------------------
  // ExportRangeToFile (Intel HEX)

  /** ExportRangeToFile of an Intel HEX file, with the loop as written. */
  function IHexExportAsWritten(src: Source, startAddress: string, endAddress: string,
                               addressLength: int, dataLength: int, newStartAddress: string): Outcome
  {
    var p := IHexParams(addressLength, dataLength, newStartAddress);
    match ExtractDataRange(src, HexToLong(startAddress), HexToLong(endAddress))
    case Err(x) => Raised(x)
    case Ok(data) =>
      if data == "" then Declined
      else
        match IHexLinesAsWritten(p.chunk, data, StartText(p.newStart, startAddress))
        case None => Declined
        case Some(lines) => Written(lines)
  }

  /** ExportRangeToFile of an Intel HEX file, with the corrected loop. */
  function IHexExport(src: Source, startAddress: string, endAddress: string,
                      addressLength: int, dataLength: int, newStartAddress: string): Outcome
  {
    var p := IHexParams(addressLength, dataLength, newStartAddress);
    match ExtractDataRange(src, HexToLong(startAddress), HexToLong(endAddress))
    case Err(x) => Raised(x)
    case Ok(data) =>
      if data == "" then Declined
      else
        match IHexLines(p.chunk, data, StartText(p.newStart, startAddress))
        case None => Declined
        case Some(lines) => Written(lines)
  }

  // ---------------------------------------------------------------------------
  // Records read back

  /** The byte sum of two texts of whole bytes is the sum of their sums. */
  lemma {:induction false} ByteSumAppend(a: string, b: string)
    requires AllHex(a) && AllHex(b) && AllHex(a + b) && |a| % 2 == 0 && |b| % 2 == 0
    ensures ByteSum(a + b) == ByteSum(a) + ByteSum(b)
    decreases |b|
  {
    if b == [] {
      assert a + b == a;
    } else {
      var b' := b[..|b| - 2];
      var ab := a + b;
      SliceHex(b, 0, |b| - 2);
      SliceHex(ab, 0, |ab| - 2);
      assert ab[..|ab| - 2] == a + b';
      assert ab[|ab| - 2..] == b[|b| - 2..];
      ByteSumAppend(a, b');
    }
  }

  /** The byte sum of one byte's text is its value. */
  lemma {:induction false} ByteSumPair(s: string)
    requires |s| == 2 && AllHex(s)
    ensures ByteSum(s) == HexValue(s)
  {
    assert s[..0] == [];
    assert s[0..] == s;
    PairValueIsHexValue(s);
  }

  /** The body of an Intel line: whole bytes of hexadecimal text whose sum
      is at least the byte count plus the type code. */
  lemma {:induction false} IHexBody(b: string, address: string, t: string, data: string)
    requires |b| == 2 && AllHex(b) && |address| == 4 && AllHex(address)
    requires |t| == 2 && AllHex(t) && AllHex(data) && |data| % 2 == 0
    ensures var body := b + address + t + data;
      AllHex(body) && |body| % 2 == 0 && ByteSum(body) >= HexValue(b) + HexValue(t)
  {
    var ba := b + address;
    var bat := ba + t;
    var body := bat + data;
    HexAppend(b, address);
    HexAppend(ba, t);
    HexAppend(bat, data);
    assert |ba| == 6 && |bat| == 8;
    EvenSplit(|body|, 8, |data|);
    ByteSumPair(b);
    ByteSumPair(t);
    ByteSumAppend(b, address);
    ByteSumAppend(ba, t);
    ByteSumAppend(bat, data);
    assert ByteSum(body) == ByteSum(b) + ByteSum(address) + ByteSum(t) + ByteSum(data);
  }

  /** The record an Intel line holds, given its checksum. */
  function IHexRecord(bc: nat, address: string, t: string, data: string, c: string): Record
    requires AllHex(address)
  {
    Record(t, Render(bc, 2), bc, 4, address, HexValue(address), data, c, c)
  }

  /** The fields the serialiser writes make a well-formed Intel record. */
  lemma {:induction false} IHexShapedOf(bc: nat, address: string, t: string, data: string, c: string)
    requires t in AddressLengths(IHex) && |t| == 2 && AllDecimal(t)
    requires |address| == 4 && AllHex(address)
    requires AllHex(data) && |data| % 2 == 0 && bc == |data| / 2 && bc < 256
    requires Checksum(Render(bc, 2) + address + t + data, false) == Ok(c) && |c| == 2 && AllHex(c)
    ensures Shaped(IHex, IHexRecord(bc, address, t, data, c))
  {
    RenderFacts(bc, 2);
    assert Pow16(2) == 256;
    DecimalIsHex(t);
    ChecksumFieldsText(IHex, IHexRecord(bc, address, t, data, c));
  }

  /** The serialiser's text of an Intel line is the assembly of its fields. */
  lemma {:induction false} IHexLineText(r: Record, c: string)
    requires Checksum(r.byteCount + r.address + r.typ + r.data, false) == Ok(c) && r.checksum == c
    ensures Line(":", r.byteCount + r.address + r.typ + r.data, false) == Ok(Assemble(IHex, r))
  {
    AssembleText(IHex, r);
    var body := r.byteCount + r.address + r.typ + r.data;
    assert Line(":", body, false) == Ok(":" + body + c);
    HeadJoin([':'], r.byteCount, r.address, r.typ, r.data);
  }

  /** An Intel line built as the serialiser builds it, from a byte count
      matching the data, a four-digit address, a type code and even
      hexadecimal data, whose bytes do not sum to zero, is the assembly of a
      well-formed record holding those fields. */
  lemma {:induction false} IHexLineParses(bc: nat, address: string, t: string, data: string)
    requires t in AddressLengths(IHex) && |t| == 2 && AllDecimal(t)
    requires |address| == 4 && AllHex(address)
    requires AllHex(data) && |data| % 2 == 0 && bc == |data| / 2 && bc < 256
    requires bc >= 1 || HexValue(t) >= 1
    ensures Checksum(Render(bc, 2) + address + t + data, false).Ok?
    ensures var r := IHexRecord(bc, address, t, data, Checksum(Render(bc, 2) + address + t + data, false).value);
      Shaped(IHex, r) && Line(":", Render(bc, 2) + address + t + data, false) == Ok(Assemble(IHex, r))
  {
    var b := Render(bc, 2);
    RenderFacts(bc, 2);
    assert Pow16(2) == 256;
    DecimalIsHex(t);
    IHexBody(b, address, t, data);
    var body := b + address + t + data;
    BodyChecksum(body, false);
    var c := Checksum(body, false).value;
    IHexShapedOf(bc, address, t, data, c);
    IHexLineText(IHexRecord(bc, address, t, data, c), c);
  }

  /** SRecTypedLineReads for Intel lines. */
  lemma {:induction false} IHexLineReads(bc: nat, address: string, t: string, data: string, ty: RecordType)
    requires t in AddressLengths(IHex) && |t| == 2 && AllDecimal(t) && GetRecordType(IHex, t) == ty
    requires |address| == 4 && AllHex(address)
    requires AllHex(data) && |data| % 2 == 0 && bc == |data| / 2 && bc < 256
    requires bc >= 1 || HexValue(t) >= 1
    ensures Line(":", Render(bc, 2) + address + t + data, false).Ok?
    ensures ReadsAs(IHex, Line(":", Render(bc, 2) + address + t + data, false).value, ty, HexValue(address), data)
  {
    IHexLineParses(bc, address, t, data);
    var c := Checksum(Render(bc, 2) + address + t + data, false).value;
    AssembledReadsAs(IHex, IHexRecord(bc, address, t, data, c), ty);
  }

  lemma Pow16Eight()
    ensures Pow16(8) == Two32
  {
    assert Pow16(4) == 0x10000;
    Pow16Add(4, 4);
  }

  /** int.ToString("X<w>") of a value that fits w digits. */
  lemma {:induction false} IntRenderFacts(n: int, w: nat)
    requires 0 <= n < Pow16(w) && 1 <= w <= 8
    ensures IntRender(n, w) == Render(n, w) && |IntRender(n, w)| == w
    ensures AllHex(IntRender(n, w)) && HexValue(IntRender(n, w)) == n
  {
    Pow16Monotone(w, 8);
    Pow16Eight();
    assert n % Two32 == n;
    RenderFacts(n, w);
  }
  /** A data record inside a bank reads back at its lower address with its
      data. */
  lemma {:induction false} ChunkReads(low: int, c: string)
    requires 0 <= low <= 0xFFFF
    requires AllHex(c) && |c| % 2 == 0 && 1 <= |c| / 2 <= 255
    ensures RenderItem(Chunk(low, c)).Ok?
    ensures ReadsAs(IHex, RenderItem(Chunk(low, c)).value, Data, low, c)
  {
    assert Pow16(2) == 256 && Pow16(4) == 0x10000;
    IntRenderFacts(|c| / 2, 2);
    IntRenderFacts(low, 4);
    IHexLineReads(|c| / 2, IntRender(low, 4), "00", c, Data);
  }

  /** An extended linear address record holds the bank number's four digits. */
  lemma {:induction false} BankLineReads(highText: string)
    requires |highText| == 4 && AllHex(highText)
    ensures BankLine(highText).Ok?
    ensures ReadsAs(IHex, BankLine(highText).value, ExtendedLinearAddress, 0, highText)
  {
    assert "02" == Render(2, 2) by { assert Digits(2) == "2"; }
    assert "0000" == Zeros(4);
    ZerosValue(4);
    IHexLineReads(2, "0000", "04", highText, ExtendedLinearAddress);
  }

  lemma {:induction false} BankReads(h: int)
    requires 0 <= h <= 0xFFFF
    ensures RenderItem(Bank(h)).Ok?
    ensures ReadsAs(IHex, RenderItem(Bank(h)).value, ExtendedLinearAddress, 0, IntRender(h, 4))
    ensures HexValue(IntRender(h, 4)) == h
  {
    assert Pow16(4) == 0x10000;
    IntRenderFacts(h, 4);
    BankLineReads(IntRender(h, 4));
  }

  /** The end-of-file record is the serialiser's line of a record of type 01
      without data, at address 0. */
  lemma EndLineText()
    ensures Line(":", Render(0, 2) + "0000" + "01" + "", false) == Ok(EndLine)
  {
    assert Render(0, 2) == "00" by { assert Digits(0) == "0"; }
    assert Render(0, 2) + "0000" + "01" + "" == "00000001";
    EndChecksum();
  }

  lemma EndChecksum()
    ensures Line(":", "00000001", false) == Ok(EndLine)
  {
    EndBodySum();
    assert Render(255, 2) == "FF" by { assert Digits(255) == "FF"; }
    assert (256 - 1 % 256) % 256 == 255;
    assert Checksum("00000001", false) == Ok("FF");
    assert ":" + "00000001" + "FF" == EndLine;
  }

  lemma EndBodySum()
    ensures AllHex("00000001") && ByteSum("00000001") == 1
  {
    ByteSumFour("00", "00", "00", "01");
    assert "00" + "00" + "00" + "01" == "00000001";
    assert HexValue("00") == 0 && HexValue("01") == 1;
  }

  lemma ZeroBodySum()
    ensures AllHex("00000000") && ByteSum("00000000") == 0
  {
    ByteSumFour("00", "00", "00", "00");
    assert "00" + "00" + "00" + "00" == "00000000";
    assert HexValue("00") == 0;
  }

  /** The byte sum of four bytes' text. */
  lemma {:induction false} ByteSumFour(a: string, b: string, c: string, d: string)
    requires |a| == 2 && |b| == 2 && |c| == 2 && |d| == 2
    requires AllHex(a) && AllHex(b) && AllHex(c) && AllHex(d)
    ensures AllHex(a + b + c + d) && |a + b + c + d| == 8
    ensures ByteSum(a + b + c + d) == HexValue(a) + HexValue(b) + HexValue(c) + HexValue(d)
  {
    HexAppend(a, b);
    HexAppend(a + b, c);
    HexAppend(a + b + c, d);
    ByteSumPair(a);
    ByteSumPair(b);
    ByteSumPair(c);
    ByteSumPair(d);
    ByteSumAppend(a, b);
    ByteSumAppend(a + b, c);
    ByteSumAppend(a + b + c, d);
  }

  /** The end-of-file record reads back as a termination record. */
  lemma EndLineReads()
    ensures ReadsAs(IHex, EndLine, Termination, 0, "")
  {
    assert "0000" == Zeros(4);
    ZerosValue(4);
    assert HexValue("01") == 1;
    assert AllHex("");
    IHexLineReads(0, "0000", "01", "", Termination);
    EndLineText();
  }

  // ---------------------------------------------------------------------------
  // Rendering a run of items

  /** The items render when each of them does, one line per item. */
  lemma {:induction false} RenderItemsEach(items: seq<Item>)
    ensures RenderItems(items).Ok? <==> forall k :: 0 <= k < |items| ==> RenderItem(items[k]).Ok?
    ensures RenderItems(items).Ok? ==>
      |RenderItems(items).value| == |items| &&
      forall k :: 0 <= k < |items| ==> RenderItems(items).value[k] == RenderItem(items[k]).value
    decreases |items|
  {
    if items != [] {
      var rest := items[1..];
      RenderItemsEach(rest);
      assert forall k :: 1 <= k < |items| ==> rest[k - 1] == items[k];
      var h := RenderItem(items[0]);
      if h.Ok? && RenderItems(rest).Ok? {
        assert RenderItems(items) == Ok([h.value] + RenderItems(rest).value);
      } else {
        assert RenderItems(items).Err?;
      }
    }
  }

  /** Two runs of items render when each run does, the lines joined. */
  lemma {:induction false} RenderItemsAppend(a: seq<Item>, b: seq<Item>)
    ensures RenderItems(a + b).Ok? <==> RenderItems(a).Ok? && RenderItems(b).Ok?
    ensures RenderItems(a + b).Ok? ==> RenderItems(a + b).value == RenderItems(a).value + RenderItems(b).value
    decreases |a|
  {
    if a == [] {
      assert a + b == b;
    } else {
      assert (a + b)[0] == a[0];
      assert (a + b)[1..] == a[1..] + b;
      RenderItemsAppend(a[1..], b);
    }
  }

  /** The first exception of two runs of items is the first run's, or
      else the second's. */
  lemma {:induction false} RenderItemsFirstError(a: seq<Item>, b: seq<Item>)
    ensures RenderItems(a).Err? ==> RenderItems(a + b) == RenderItems(a)
    ensures RenderItems(a).Ok? && RenderItems(b).Err? ==> RenderItems(a + b) == RenderItems(b)
    decreases |a|
  {
    if a == [] {
      assert a + b == b;
    } else {
      assert (a + b)[0] == a[0];
      assert (a + b)[1..] == a[1..] + b;
      RenderItemsFirstError(a[1..], b);
    }
  }

  /** A data record without data at address 0 throws at its checksum:
      the sum of its bytes is 0. */
  lemma ZeroChunkFails()
    ensures RenderItem(Chunk(0, "")) == Err(ZeroSum)
  {
    assert IntRender(0, 2) == "00" by { assert Digits(0) == "0"; }
    assert IntRender(0, 4) == "0000" by { assert Digits(0) == "0"; }
    assert "00" + "0000" + "00" + "" == "00000000";
    ZeroBodySum();
    assert Checksum("00000000", false) == Err(ZeroSum);
  }

  lemma FiveDigits()
    ensures IntRender(0x10000, 4) == "10000"
  {
    assert 0x10000 % Two32 == 0x10000;
    assert Digits(1) == "1";
    assert Digits(16) == "10";
    assert Digits(256) == "100";
    assert Digits(4096) == "1000";
    assert Digits(65536) == "10000";
  }

  /** A data record without data at address 0x10000 throws at its checksum:
      the address has five digits and the body an odd length. */
  lemma BankEndChunkFails()
    ensures RenderItem(Chunk(0x10000, "")) == Err(OddLength)
  {
    assert IntRender(0, 2) == "00" by { assert Digits(0) == "0"; }
    FiveDigits();
    var odd := "00" + "10000" + "00" + "";
    assert odd == "001000000";
    assert AllHex(odd);
  }

  // ---------------------------------------------------------------------------
  // The loop as written against the corrected loop

  /** Past the end of the data both loops stop, whatever they carry. */
  lemma {:induction false} PlanTail(data: string, dl: nat, j: nat, n: nat, low: int, h: int)
    requires dl >= 1 && low + dl <= 0x10000 && n == Min(|data| - j, 2 * dl)
    ensures Plan(data, dl, j + n, low + n / 2, h) == Plan(data, dl, j + 2 * dl, low + dl, h)
  {
  }

  /** The corrected loop at the end of a bank with data left: the bank
      record, then the next bank from address 0. */
  lemma {:induction false} PlanBank(data: string, dl: nat, i: nat, high: int)
    requires dl >= 1 && i < |data|
    ensures Plan(data, dl, i, 0x10000, high) == [Bank(high + 1)] + Plan(data, dl, i, 0, high + 1)
  {
  }

  /** One step of the corrected loop inside a bank. */
  lemma {:induction false} PlanChunk(data: string, dl: nat, i: nat, low: int, high: int, n: int)
    requires dl >= 1 && i < |data| && low <= 0xFFFF
    requires n == Min(Min(|data| - i, 2 * dl), 2 * (0x10000 - low))
    ensures 0 <= n && i + n <= |data| && low + n / 2 <= 0x10000
    ensures Plan(data, dl, i, low, high) == [Chunk(low, data[i..i + n])] + Plan(data, dl, i + n, low + n / 2, high)
  {
  }

  /** A data record that renders at address 0 or 0x10000 holds data. */
  lemma {:induction false} RenderedChunkHoldsData(low: int, c: string)
    requires low == 0 || low == 0x10000
    requires RenderItem(Chunk(low, c)).Ok?
    ensures c != ""
  {
    BankEndChunkFails();
    ZeroChunkFails();
  }

  /** Every data record at address 0 or 0x10000 holds data. */
  predicate EdgesHoldData(items: seq<Item>) {
    forall k :: 0 <= k < |items| && items[k].Chunk? && (items[k].low == 0 || items[k].low == 0x10000) ==>
      items[k].text != ""
  }

  /** Records that all render have no empty data record at 0 or 0x10000. */
  lemma {:induction false} RenderedEdgesHoldData(items: seq<Item>)
    requires RenderItems(items).Ok?
    ensures EdgesHoldData(items)
  {
    RenderItemsEach(items);
    forall k | 0 <= k < |items| && items[k].Chunk? && (items[k].low == 0 || items[k].low == 0x10000)
      ensures items[k].text != ""
    {
      RenderedChunkHoldsData(items[k].low, items[k].text);
    }
  }

  /** The records after the first m keep the property. */
  lemma {:induction false} EdgesDrop(items: seq<Item>, m: nat)
    requires EdgesHoldData(items) && m <= |items|
    ensures EdgesHoldData(items[m..])
  {
    forall k | 0 <= k < |items[m..]| ensures items[m..][k] == items[m + k] { }
  }

  /** The loop as written, when a record would pass the end of the bank:
      a record of what the bank has room for, the bank record, a record at
      0, and the rest. */
  lemma {:induction false} SplitShape(data: string, dl: nat, i: nat, low: int, high: int)
    returns (j: nat, n: nat, head: seq<Item>, rest: seq<Item>)
    requires 1 <= dl <= 255 && low <= 0x10000 && i < |data| && low + dl - 1 > 0xFFFF
    requires PlanAsWritten(data, dl, i, low, high).Some?
    ensures j == i + 2 * (0x10000 - low) && j <= |data| && 2 * (0x10000 - low) < 2 * dl
    ensures n == Min(|data| - j, 2 * dl)
    ensures head == [Chunk(low, data[i..j]), Bank(high + 1), Chunk(0, data[j..j + n])]
    ensures PlanAsWritten(data, dl, j + 2 * dl, dl, high + 1) == Some(rest)
    ensures PlanAsWritten(data, dl, i, low, high).value == head + rest
  {
    j := i + 2 * (0x10000 - low);
    n := Min(|data| - j, 2 * dl);
    rest := PlanAsWritten(data, dl, j + 2 * dl, dl, high + 1).value;
    head := [Chunk(low, data[i..j]), Bank(high + 1), Chunk(0, data[j..j + n])];
  }

  /** ... and when no data record at 0 or 0x10000 is empty, the first and
      the third hold data. */
  lemma {:induction false} SplitParts(data: string, dl: nat, i: nat, low: int, high: int, items: seq<Item>)
    returns (j: nat, n: nat, head: seq<Item>, rest: seq<Item>)
    requires 1 <= dl <= 255 && low <= 0x10000 && i < |data| && low + dl - 1 > 0xFFFF
    requires PlanAsWritten(data, dl, i, low, high) == Some(items) && EdgesHoldData(items)
    ensures low <= 0xFFFF && j == i + 2 * (0x10000 - low) && j < |data| && 2 * (0x10000 - low) < 2 * dl
    ensures n == Min(|data| - j, 2 * dl) && n >= 1
    ensures head == [Chunk(low, data[i..j]), Bank(high + 1), Chunk(0, data[j..j + n])]
    ensures PlanAsWritten(data, dl, j + 2 * dl, dl, high + 1) == Some(rest)
    ensures EdgesHoldData(rest)
    ensures items == head + rest
  {
    j, n, head, rest := SplitShape(data, dl, i, low, high);
    assert items[0] == head[0] && items[2] == head[2];
    assert rest == items[3..];
    EdgesDrop(items, 3);
  }

  /** The loop as written, when the record fits in the bank: one record
      of up to dl bytes, and the rest. */
  lemma {:induction false} NormalParts(data: string, dl: nat, i: nat, low: int, high: int, items: seq<Item>)
    returns (n: nat, rest: seq<Item>)
    requires 1 <= dl <= 255 && i < |data| && low + dl - 1 <= 0xFFFF
    requires PlanAsWritten(data, dl, i, low, high) == Some(items) && EdgesHoldData(items)
    ensures n == Min(|data| - i, 2 * dl) == Min(Min(|data| - i, 2 * dl), 2 * (0x10000 - low))
    ensures PlanAsWritten(data, dl, i + 2 * dl, low + dl, high) == Some(rest)
    ensures EdgesHoldData(rest)
    ensures items == [Chunk(low, data[i..i + n])] + rest
  {
    n := Min(|data| - i, 2 * dl);
    rest := PlanAsWritten(data, dl, i + 2 * dl, low + dl, high).value;
    assert rest == items[1..];
    EdgesDrop(items, 1);
  }

  /** One step of the agreement where the record fits in the bank. */
  lemma {:induction false} NormalAgrees(data: string, dl: nat, i: nat, low: int, high: int, n: nat, rest: seq<Item>)
    requires 1 <= dl <= 255 && i < |data| && low + dl - 1 <= 0xFFFF
    requires n == Min(|data| - i, 2 * dl) == Min(Min(|data| - i, 2 * dl), 2 * (0x10000 - low))
    requires rest == Plan(data, dl, i + 2 * dl, low + dl, high)
    ensures [Chunk(low, data[i..i + n])] + rest == Plan(data, dl, i, low, high)
  {
    PlanChunk(data, dl, i, low, high, n);
    PlanTail(data, dl, i, n, low, high);
  }

  /** One step of the agreement where the record would pass the end of the
      bank: the three records the loop as written writes are the corrected
      loop's first three. */
  lemma {:induction false} SplitAgrees(data: string, dl: nat, i: nat, low: int, high: int, j: nat, n: nat, head: seq<Item>, rest: seq<Item>)
    requires 1 <= dl <= 255 && i < |data| && low <= 0xFFFF
    requires j == i + 2 * (0x10000 - low) && j < |data| && 2 * (0x10000 - low) < 2 * dl
    requires n == Min(|data| - j, 2 * dl) && n >= 1
    requires head == [Chunk(low, data[i..j]), Bank(high + 1), Chunk(0, data[j..j + n])]
    requires rest == Plan(data, dl, j + 2 * dl, dl, high + 1)
    ensures head + rest == Plan(data, dl, i, low, high)
  {
    var m := j - i;
    assert m == Min(Min(|data| - i, 2 * dl), 2 * (0x10000 - low)) && low + m / 2 == 0x10000;
    PlanNext(data, dl, i, low, high, m, j, 0x10000);
    PlanBank(data, dl, j, high);
    PlanNext(data, dl, j, 0, high + 1, n, j + n, n / 2);
    PlanTail(data, dl, j, n, 0, high + 1);
    var h0, h1, h2 := head[0], head[1], head[2];
    var p2 := Plan(data, dl, j, 0, high + 1);
    assert Plan(data, dl, j + n, n / 2, high + 1) == rest;
    assert p2 == [h2] + rest;
    assert Plan(data, dl, j, 0x10000, high) == [h1] + p2;
    assert head == [h0, h1, h2];
    ThreeCons(h0, h1, h2, rest);
  }

  /** Whenever the loop as written gets through without an exception, it
      writes exactly the records of the corrected loop. */
  lemma {:induction false} AsWrittenAgrees(data: string, dl: nat, i: nat, low: int, high: int, items: seq<Item>)
    requires 1 <= dl <= 255 && low <= 0x10000
    requires PlanAsWritten(data, dl, i, low, high) == Some(items) && EdgesHoldData(items)
    ensures items == Plan(data, dl, i, low, high)
    decreases |data| - i, 1
  {
    if i >= |data| {
    } else if low + dl - 1 > 0xFFFF {
      SplitCaseAgrees(data, dl, i, low, high, items);
    } else {
      NormalCaseAgrees(data, dl, i, low, high, items);
    }
  }

  lemma {:induction false} SplitCaseAgrees(data: string, dl: nat, i: nat, low: int, high: int, items: seq<Item>)
    requires 1 <= dl <= 255 && low <= 0x10000 && i < |data| && low + dl - 1 > 0xFFFF
    requires PlanAsWritten(data, dl, i, low, high) == Some(items) && EdgesHoldData(items)
    ensures items == Plan(data, dl, i, low, high)
    decreases |data| - i, 0
  {
    var j, n, head, rest := SplitParts(data, dl, i, low, high, items);
    AsWrittenAgrees(data, dl, j + 2 * dl, dl, high + 1, rest);
    SplitAgrees(data, dl, i, low, high, j, n, head, rest);
  }

  lemma {:induction false} NormalCaseAgrees(data: string, dl: nat, i: nat, low: int, high: int, items: seq<Item>)
    requires 1 <= dl <= 255 && low <= 0x10000 && i < |data| && low + dl - 1 <= 0xFFFF
    requires PlanAsWritten(data, dl, i, low, high) == Some(items) && EdgesHoldData(items)
    ensures items == Plan(data, dl, i, low, high)
    decreases |data| - i, 0
  {
    var n, rest := NormalParts(data, dl, i, low, high, items);
    AsWrittenAgrees(data, dl, i + 2 * dl, low + dl, high, rest);
    NormalAgrees(data, dl, i, low, high, n, rest);
  }

  // ---------------------------------------------------------------------------
  // What the corrected loop writes

  /** The data of the data records, in order. */
  function DataOf(items: seq<Item>): string {
    if items == [] then ""
    else (match items[0] case Bank(_) => "" case Chunk(_, c) => c) + DataOf(items[1..])
  }

  /** The data records carry the data from character i on, in order. */
  lemma {:induction false} PlanCovers(data: string, dl: nat, i: nat, low: int, high: int)
    requires dl >= 1 && low <= 0x10000 && i <= |data|
    ensures DataOf(Plan(data, dl, i, low, high)) == data[i..]
    decreases |data| - i, if low > 0xFFFF then 1 else 0
  {
    if i == |data| {
    } else if low > 0xFFFF {
      PlanCovers(data, dl, i, 0, high + 1);
      var rest := Plan(data, dl, i, 0, high + 1);
      assert ([Bank(high + 1)] + rest)[1..] == rest;
    } else {
      var n := Min(Min(|data| - i, 2 * dl), 2 * (0x10000 - low));
      PlanChunk(data, dl, i, low, high, n);
      PlanCovers(data, dl, i + n, low + n / 2, high);
      var rest := Plan(data, dl, i + n, low + n / 2, high);
      assert ([Chunk(low, data[i..i + n])] + rest)[1..] == rest;
      assert data[i..] == data[i..i + n] + data[i + n..];
    }
  }

  /** A record the corrected loop writes: a bank number of four digits, or
      1..dl whole bytes of hexadecimal text that stay inside their bank. */
  predicate Fits(it: Item, dl: nat) {
    match it
    case Bank(h) => 0 <= h <= 0xFFFF
    case Chunk(low, c) =>
      0 <= low && 2 <= |c| <= 2 * dl && |c| % 2 == 0 && AllHex(c) && low + |c| / 2 <= 0x10000
  }

  /** Every record fits, as long as the data ends within the 32-bit
      address space. */
  lemma {:induction false} PlanFits(data: string, dl: nat, i: nat, low: int, high: int)
    requires dl >= 1 && 0 <= low <= 0x10000 && 0 <= high && i <= |data|
    requires AllHex(data) && (|data| - i) % 2 == 0
    requires high * 0x10000 + low + (|data| - i) / 2 <= 0x1_0000_0000
    ensures forall k :: 0 <= k < |Plan(data, dl, i, low, high)| ==> Fits(Plan(data, dl, i, low, high)[k], dl)
    decreases |data| - i, if low > 0xFFFF then 1 else 0
  {
    if i == |data| {
    } else if low > 0xFFFF {
      PlanFits(data, dl, i, 0, high + 1);
      PlanBank(data, dl, i, high);
      FitsCons(Bank(high + 1), Plan(data, dl, i, 0, high + 1), dl);
    } else {
      var n := Min(Min(|data| - i, 2 * dl), 2 * (0x10000 - low));
      var next, nextLow := i + n, low + n / 2;
      ChunkLength(|data| - i, dl, low, n);
      PlanNext(data, dl, i, low, high, n, next, nextLow);
      SliceHex(data, i, next);
      PlanFits(data, dl, next, nextLow, high);
      FitsCons(Chunk(low, data[i..next]), Plan(data, dl, next, nextLow, high), dl);
    }
  }

  /** The length of a data record the corrected loop cuts from an even,
      non-empty rest inside a bank. */
  lemma ChunkLength(rest: int, dl: nat, low: int, n: int)
    requires rest > 0 && rest % 2 == 0 && dl >= 1 && low <= 0xFFFF
    requires n == Min(Min(rest, 2 * dl), 2 * (0x10000 - low))
    ensures 2 <= n <= 2 * dl && n <= rest && n % 2 == 0 && low + n / 2 <= 0x10000
    ensures (rest - n) % 2 == 0 && n / 2 + (rest - n) / 2 == rest / 2
  {
  }

  lemma {:induction false} FitsCons(it: Item, rest: seq<Item>, dl: nat)
    requires Fits(it, dl) && forall k :: 0 <= k < |rest| ==> Fits(rest[k], dl)
    ensures forall k :: 0 <= k < |[it] + rest| ==> Fits(([it] + rest)[k], dl)
  {
    forall k | 0 <= k < |[it] + rest| ensures Fits(([it] + rest)[k], dl) {
      if k > 0 { assert ([it] + rest)[k] == rest[k - 1]; }
    }
  }

  /** Each data record at the running address, and each bank record naming
      the next bank exactly where the previous one is full. */
  predicate Placed(items: seq<Item>, high: int, addr: int)
    decreases |items|
  {
    items == [] ||
    match items[0]
    case Bank(h) => h == high + 1 && addr == h * 0x10000 && Placed(items[1..], h, addr)
    case Chunk(low, c) => addr == high * 0x10000 + low && Placed(items[1..], high, addr + |c| / 2)
  }

  /** The corrected loop places the data contiguously from the start address. */
  lemma {:induction false} PlanPlaced(data: string, dl: nat, i: nat, low: int, high: int)
    requires dl >= 1 && low <= 0x10000 && i <= |data| && (|data| - i) % 2 == 0
    ensures Placed(Plan(data, dl, i, low, high), high, high * 0x10000 + low)
    decreases |data| - i, if low > 0xFFFF then 1 else 0
  {
    if i == |data| {
    } else if low > 0xFFFF {
      PlanPlaced(data, dl, i, 0, high + 1);
      PlanBank(data, dl, i, high);
      var rest := Plan(data, dl, i, 0, high + 1);
      assert ([Bank(high + 1)] + rest)[1..] == rest;
    } else {
      var n := Min(Min(|data| - i, 2 * dl), 2 * (0x10000 - low));
      var next, nextLow := i + n, low + n / 2;
      ChunkLength(|data| - i, dl, low, n);
      PlanNext(data, dl, i, low, high, n, next, nextLow);
      PlanPlaced(data, dl, next, nextLow, high);
      var rest := Plan(data, dl, next, nextLow, high);
      var c := data[i..next];
      assert high * 0x10000 + low + |c| / 2 == high * 0x10000 + nextLow;
      assert ([Chunk(low, c)] + rest)[0] == Chunk(low, c) && ([Chunk(low, c)] + rest)[1..] == rest;
    }
  }

  // ---------------------------------------------------------------------------
  // The corrected lines read back

  /** What a record's line reads back as: the bank record with the bank's
      four digits, or the data record at its address in the bank. */
  predicate ReadsBack(it: Item, line: string) {
    match it
    case Bank(h) =>
      ReadsAs(IHex, line, ExtendedLinearAddress, 0, IntRender(h, 4)) &&
      AllHex(IntRender(h, 4)) && HexValue(IntRender(h, 4)) == h
    case Chunk(low, c) => ReadsAs(IHex, line, Data, low, c)
  }

  /** A record that fits renders and reads back. */
  lemma {:induction false} ItemReads(it: Item, dl: nat)
    requires dl <= 255 && Fits(it, dl)
    ensures RenderItem(it).Ok? && ReadsBack(it, RenderItem(it).value)
  {
    match it
    case Bank(h) =>
      BankReads(h);
      assert Pow16(4) == 0x10000;
      IntRenderFacts(h, 4);
    case Chunk(low, c) =>
      ChunkReads(low, c);
  }

  /** The corrected loop's records all render and read back, one line each. */
  lemma {:induction false} PlanReads(data: string, dl: nat, i: nat, low: int, high: int)
    requires 1 <= dl <= 255 && 0 <= low <= 0x10000 && 0 <= high && i <= |data|
    requires AllHex(data) && (|data| - i) % 2 == 0
    requires high * 0x10000 + low + (|data| - i) / 2 <= 0x1_0000_0000
    ensures var items := Plan(data, dl, i, low, high);
      RenderItems(items).Ok? && |RenderItems(items).value| == |items| &&
      forall k :: 0 <= k < |items| ==> ReadsBack(items[k], RenderItems(items).value[k])
  {
    var items := Plan(data, dl, i, low, high);
    PlanFits(data, dl, i, low, high);
    forall k | 0 <= k < |items|
      ensures RenderItem(items[k]).Ok? && ReadsBack(items[k], RenderItem(items[k]).value)
    {
      ItemReads(items[k], dl);
    }
    RenderItemsEach(items);
  }

  /** The corrected Intel lines from a hexadecimal start address: the first
      bank record, the lines of the corrected loop, the end-of-file record. */
  lemma {:induction false} IHexLinesShape(dl: nat, data: string, t: string)
    requires 1 <= dl <= 255 && AllHex(data) && |data| % 2 == 0
    requires AllHex(HighText(t)) && AllHex(LowText(t))
    requires HexValue(HighText(t)) * 0x10000 + HexValue(LowText(t)) + |data| / 2 <= 0x1_0000_0000
    ensures HexValue(LowText(t)) < 0x10000
    ensures var items := Plan(data, dl, 0, HexValue(LowText(t)), HexValue(HighText(t)));
      BankLine(HighText(t)).Ok? && RenderItems(items).Ok? &&
      IHexLines(dl, data, t) == Some([BankLine(HighText(t)).value] + RenderItems(items).value + [EndLine])
  {
    FourDigits(HighText(t));
    FourDigits(LowText(t));
    BankLineReads(HighText(t));
    PlanReads(data, dl, 0, HexValue(LowText(t)), HexValue(HighText(t)));
  }

  /** The corrected Intel lines of hexadecimal data from a hexadecimal start
      address that leaves the data within the 32-bit address space: the
      first bank record with the start's upper four digits, the records of
      the corrected loop, each read back (PlanCovers and PlanPlaced say they
      carry the data in order at contiguous addresses), and the end-of-file
      record. */
  lemma {:induction false} IHexLinesReadBack(dl: nat, data: string, t: string)
    requires 1 <= dl <= 255 && AllHex(data) && |data| % 2 == 0
    requires AllHex(HighText(t)) && AllHex(LowText(t))
    requires HexValue(HighText(t)) * 0x10000 + HexValue(LowText(t)) + |data| / 2 <= 0x1_0000_0000
    ensures HexValue(LowText(t)) < 0x10000
    ensures IHexLines(dl, data, t).Some?
    ensures var ls := IHexLines(dl, data, t).value;
      var high, low := HexValue(HighText(t)), HexValue(LowText(t));
      var items := Plan(data, dl, 0, low, high);
      |ls| == |items| + 2 &&
      ReadsAs(IHex, ls[0], ExtendedLinearAddress, 0, HighText(t)) &&
      (forall k :: 0 <= k < |items| ==> ReadsBack(items[k], ls[k + 1])) &&
      ReadsAs(IHex, ls[|ls| - 1], Termination, 0, "")
  {
    var high, low := HexValue(HighText(t)), HexValue(LowText(t));
    IHexLinesShape(dl, data, t);
    var items := Plan(data, dl, 0, low, high);
    var rs := RenderItems(items).value;
    var ls := IHexLines(dl, data, t).value;
    var first := BankLine(HighText(t)).value;
    assert ls == [first] + rs + [EndLine];
    Framed(first, rs, EndLine);
    BankLineReads(HighText(t));
    PlanReads(data, dl, 0, low, high);
    EndLineReads();
    forall k | 0 <= k < |items|
      ensures ReadsBack(items[k], ls[k + 1])
    {
      assert ls[k + 1] == rs[k];
    }
  }

  /** The lines between a first and a last line. */
  lemma {:induction false} Framed(first: string, rs: seq<string>, last: string)
    ensures var ls := [first] + rs + [last];
      |ls| == |rs| + 2 && ls[0] == first && ls[|ls| - 1] == last &&
      forall k :: 0 <= k < |rs| ==> ls[k + 1] == rs[k]
  {
  }

  // ---------------------------------------------------------------------------
  // The export as written against the corrected export

  /** The lines as written, when no exception cuts them short, are the
      corrected lines. */
  lemma {:induction false} IHexLinesAgree(dl: nat, data: string, t: string)
    requires 1 <= dl <= 255
    requires IHexLinesAsWritten(dl, data, t).Some?
    ensures IHexLines(dl, data, t) == IHexLinesAsWritten(dl, data, t)
  {
    var low, high := HexToInt32(LowText(t)), HexToInt32(HighText(t));
    FourDigits(LowText(t));
    var items := PlanAsWritten(data, dl, 0, low, high).value;
    RenderedEdgesHoldData(items);
    AsWrittenAgrees(data, dl, 0, low, high, items);
  }

  /** An Intel export as written that does not return false (or that throws
      in ExtractDataRange) behaves as the corrected export. */
  lemma {:induction false} IHexExportAgrees(src: Source, startAddress: string, endAddress: string,
                         addressLength: int, dataLength: int, newStartAddress: string)
    ensures var o := IHexExportAsWritten(src, startAddress, endAddress, addressLength, dataLength, newStartAddress);
      !o.Declined? ==> o == IHexExport(src, startAddress, endAddress, addressLength, dataLength, newStartAddress)
  {
    var p := IHexParams(addressLength, dataLength, newStartAddress);
    var x := ExtractDataRange(src, HexToLong(startAddress), HexToLong(endAddress));
    if x.Ok? && x.value != "" {
      var t := StartText(p.newStart, startAddress);
      if IHexLinesAsWritten(p.chunk, x.value, t).Some? {
        IHexLinesAgree(p.chunk, x.value, t);
      }
    }
  }

  /** An Intel export that gets past ExtractDataRange, from a hexadecimal
      start address that keeps the range within the 32-bit address space,
      returns false exactly for an empty range and otherwise writes the lines
      of IHexLines, which IHexLinesReadBack shows read back. */
  lemma {:induction false} IHexExportReads(src: Source, startAddress: string, endAddress: string,
                        addressLength: int, dataLength: int, newStartAddress: string)
    requires forall k :: 0 <= k < |src.blocks| ==> BlockOk(src.blocks[k], true) && AllHex(src.blocks[k].payload)
    requires forall k :: 0 <= k < |src.verdicts| ==> Even(src.verdicts[k])
    requires ExtractDataRange(src, HexToLong(startAddress), HexToLong(endAddress)).Ok?
    requires var t := StartText(IHexParams(addressLength, dataLength, newStartAddress).newStart, startAddress);
      AllHex(HighText(t)) && AllHex(LowText(t)) &&
      HexValue(HighText(t)) * 0x10000 + HexValue(LowText(t)) +
        (HexToLong(endAddress) - HexToLong(startAddress) + 1) <= 0x1_0000_0000
    ensures var o := IHexExport(src, startAddress, endAddress, addressLength, dataLength, newStartAddress);
      var data := ExtractDataRange(src, HexToLong(startAddress), HexToLong(endAddress)).value;
      var p := IHexParams(addressLength, dataLength, newStartAddress);
      !o.Raised? && (o.Declined? <==> data == "") &&
      (o.Written? ==> IHexLines(p.chunk, data, StartText(p.newStart, startAddress)) == Some(o.lines))
  {
    var s, e := HexToLong(startAddress), HexToLong(endAddress);
    DataFits(src, s, e);
    var data := ExtractDataRange(src, s, e).value;
    var p := IHexParams(addressLength, dataLength, newStartAddress);
    if data != "" {
      IHexLinesShape(p.chunk, data, StartText(p.newStart, startAddress));
    }
  }

  // ---------------------------------------------------------------------------
  // Where the loop as written and the corrected loop part

  /** The value of four hexadecimal digits, one digit at a time. */
  lemma {:induction false} FourDigitValue(s: string)
    requires |s| == 4 && AllHex(s)
    ensures HexToInt32(s) == 0x1000 * DigitValue(s[0]) + 0x100 * DigitValue(s[1]) + 0x10 * DigitValue(s[2]) + DigitValue(s[3])
  {
    FourDigits(s);
    var s3, s2, s1 := s[..3], s[..2], s[..1];
    assert HexValue(s) == 16 * HexValue(s3) + DigitValue(s[3]);
    assert s3[..2] == s2 && s3[2] == s[2];
    assert HexValue(s3) == 16 * HexValue(s2) + DigitValue(s[2]);
    assert s2[..1] == s1 && s2[1] == s[1];
    assert HexValue(s2) == 16 * HexValue(s1) + DigitValue(s[1]);
    assert s1[..0] == [] && s1[0] == s[0];
    assert HexValue(s1) == DigitValue(s[0]);
  }

  lemma StartFFFF()
    ensures HighText("0000FFFF") == "0000" && LowText("0000FFFF") == "FFFF"
    ensures AllHex("0000") && AllHex("FFFF")
    ensures HexToInt32("0000") == 0 && HexToInt32("FFFF") == 0xFFFF
    ensures HexValue("0000") == 0 && HexValue("FFFF") == 0xFFFF
  {
    FourDigitValue("0000");
    FourDigitValue("FFFF");
    FourDigits("0000");
    FourDigits("FFFF");
  }

  /** A byte or two from 0xFFFF fit the address space: the corrected export writes them. */
  lemma FFFFFits(dl: nat, data: string)
    requires 1 <= dl <= 255 && data in {"AB", "ABCD"}
    ensures IHexLines(dl, data, "0000FFFF").Some?
  {
    StartFFFF();
    assert AllHex(data) && |data| % 2 == 0 && |data| <= 4;
    IHexLinesShape(dl, data, "0000FFFF");
  }

  /** The loop as written over one byte at 0xFFFF in records of 32 bytes:
      the record cut at the end of the bank, the bank record, and a record
      of no data at 0. */
  lemma SplitTakesAllDataPlan()
    ensures PlanAsWritten("AB", 32, 0, 0xFFFF, 0) == Some([Chunk(0xFFFF, "AB"), Bank(1), Chunk(0, "")])
  {
    assert "AB"[0..2] == "AB" && "AB"[2..2] == "";
    assert Min(|"AB"| - 2, 64) == 0;
    assert PlanAsWritten("AB", 32, 66, 32, 1) == Some([]);
    var low: int := 0xFFFF;
    assert low + 32 - 1 > 0xFFFF && 0xFFFF - low + 1 == 1;
    assert PlanAsWritten("AB", 32, 0, low, 0) ==
      Some([Chunk(low, "AB"[0..2]), Bank(0 + 1), Chunk(0, "AB"[2..2])] + []);
    assert [Chunk(low, "AB"[0..2]), Bank(0 + 1), Chunk(0, "AB"[2..2])] + [] == [Chunk(0xFFFF, "AB"), Bank(1), Chunk(0, "")];
  }

  /** One byte at 0xFFFF in records of 32 bytes: the record cut at the end of
      the bank takes all the data, and the loop as written still writes a
      record of no data at 0, whose zero checksum throws, so the export
      returns false; the corrected export writes the byte. */
  lemma SplitTakesAllData()
    ensures IHexLinesAsWritten(32, "AB", "0000FFFF") == None
    ensures IHexLines(32, "AB", "0000FFFF").Some?
  {
    StartFFFF();
    var items := [Chunk(0xFFFF, "AB"), Bank(1), Chunk(0, "")];
    SplitTakesAllDataPlan();
    ZeroChunkFails();
    RenderItemsEach(items);
    assert RenderItems(items).Err?;
    FFFFFits(32, "AB");
  }


  /** The loop as written over two bytes from 0xFFFF in records of 1 byte:
      after the record that ends the bank, a record of no data at 0x10000. */
  lemma BankEndsExactlyPlan()
    ensures PlanAsWritten("ABCD", 1, 0, 0xFFFF, 0) ==
      Some([Chunk(0xFFFF, "AB"), Chunk(0x10000, ""), Bank(1), Chunk(0, "CD")])
  {
    var items := [Chunk(0xFFFF, "AB"), Chunk(0x10000, ""), Bank(1), Chunk(0, "CD")];
    assert "ABCD"[0..2] == "AB" && "ABCD"[2..2] == "" && "ABCD"[2..4] == "CD";
    assert Min(|"ABCD"| - 0, 2) == 2 && Min(|"ABCD"| - 2, 2) == 2;
    assert PlanAsWritten("ABCD", 1, 4, 1, 1) == Some([]);
    var end: int := 0x10000;
    assert end + 1 - 1 > 0xFFFF && 0xFFFF - end + 1 == 0;
    assert PlanAsWritten("ABCD", 1, 2, end, 0) ==
      Some([Chunk(end, "ABCD"[2..2]), Bank(0 + 1), Chunk(0, "ABCD"[2..4])] + []);
    assert [Chunk(end, "ABCD"[2..2]), Bank(0 + 1), Chunk(0, "ABCD"[2..4])] + [] == items[1..];
    var low: int := 0xFFFF;
    assert low + 1 - 1 <= 0xFFFF && low + 1 == end;
    assert PlanAsWritten("ABCD", 1, 0, low, 0) == Some([Chunk(low, "ABCD"[0..2])] + items[1..]);
    assert [Chunk(low, "ABCD"[0..2])] + items[1..] == items;
  }

  /** Two bytes from 0xFFFF in records of 1 byte: the first record ends the
      bank exactly, so the loop as written cuts a record of 0x10000 - 0x10000
      bytes at address 0x10000, whose five-digit address makes the checksum
      throw; the corrected export opens bank 1 for the second byte. */
  lemma BankEndsExactly()
    ensures IHexLinesAsWritten(1, "ABCD", "0000FFFF") == None
    ensures IHexLines(1, "ABCD", "0000FFFF").Some?
  {
    StartFFFF();
    var items := [Chunk(0xFFFF, "AB"), Chunk(0x10000, ""), Bank(1), Chunk(0, "CD")];
    BankEndsExactlyPlan();
    BankEndChunkFails();
    RenderItemsEach(items);
    assert RenderItems(items).Err?;
    FFFFFits(1, "ABCD");
  }


  /** Two bytes from 0xFFF0 in records of 32 bytes: the record cut at the end
      of the bank asks Substring for 16 bytes and there are 2, so the export
      returns false; the corrected export writes them. */
  lemma SplitPastData()
    ensures IHexLinesAsWritten(32, "ABCD", "0000FFF0") == None
    ensures IHexLines(32, "ABCD", "0000FFF0").Some?
  {
    assert HighText("0000FFF0") == "0000" && LowText("0000FFF0") == "FFF0";
    FourDigitValue("0000");
    FourDigitValue("FFF0");
    assert PlanAsWritten("ABCD", 32, 0, 0xFFF0, 0) == None;
    IHexLinesShape(32, "ABCD", "0000FFF0");
  }

  // ---------------------------------------------------------------------------
  // ExportRangeToFile (Intel HEX), step by step

  /** Lines already written in front of the outcome of the rest. */
  function Prefixed(ls: seq<string>, r: Result<seq<string>, ChecksumFault>): Result<seq<string>, ChecksumFault> {
    match r
    case Err(x) => Err(x)
    case Ok(rs) => Ok(ls + rs)
  }

  lemma {:induction false} PrefixedNothing(r: Result<seq<string>, ChecksumFault>)
    ensures Prefixed([], r) == r
  {
    if r.Ok? {
      assert [] + r.value == r.value;
    }
  }

  /** Rendering one item in front of the rest. */
  lemma {:induction false} RenderItemsCons(ls: seq<string>, it: Item, rest: seq<Item>)
    ensures RenderItem(it).Ok? ==>
      Prefixed(ls, RenderItems([it] + rest)) == Prefixed(ls + [RenderItem(it).value], RenderItems(rest))
    ensures RenderItem(it).Err? ==> RenderItems([it] + rest) == Err(RenderItem(it).error)
  {
    assert ([it] + rest)[0] == it && ([it] + rest)[1..] == rest;
    if RenderItem(it).Ok? && RenderItems(rest).Ok? {
      assert ls + ([RenderItem(it).value] + RenderItems(rest).value) ==
             (ls + [RenderItem(it).value]) + RenderItems(rest).value;
    }
  }

  /** The loop's step at a full bank: the bank record in front of the rest. */
  lemma {:induction false} BankStep(data: string, dl: nat, i: nat, high: int, records: seq<string>,
                 total: Result<seq<string>, ChecksumFault>, line: Result<string, ChecksumFault>)
    requires dl >= 1 && i < |data|
    requires total == Prefixed(records, RenderItems(Plan(data, dl, i, 0x10000, high)))
    requires line == BankLine(IntRender(high + 1, 4))
    ensures line.Err? ==> total == Err(line.error)
    ensures line.Ok? ==> total == Prefixed(records + [line.value], RenderItems(Plan(data, dl, i, 0, high + 1)))
  {
    PlanBank(data, dl, i, high);
    RenderItemsCons(records, Bank(high + 1), Plan(data, dl, i, 0, high + 1));
  }

  /** The loop's step inside a bank: the data record in front of the rest. */
  lemma {:induction false} ChunkStep(data: string, dl: nat, i: nat, low: int, high: int, n: int, next: nat, nextLow: int,
                  records: seq<string>, total: Result<seq<string>, ChecksumFault>, line: Result<string, ChecksumFault>)
    requires dl >= 1 && i < |data| && low <= 0xFFFF
    requires n == Min(Min(|data| - i, 2 * dl), 2 * (0x10000 - low)) && next == i + n && nextLow == low + n / 2
    requires total == Prefixed(records, RenderItems(Plan(data, dl, i, low, high)))
    requires next <= |data| && line == Line(":", IntRender(n / 2, 2) + IntRender(low, 4) + "00" + data[i..next], false)
    ensures i < next && nextLow <= 0x10000
    ensures line.Err? ==> total == Err(line.error)
    ensures line.Ok? ==> total == Prefixed(records + [line.value], RenderItems(Plan(data, dl, next, nextLow, high)))
  {
    PlanNext(data, dl, i, low, high, n, next, nextLow);
    var c := data[i..next];
    ChunkLine(low, c, n);
    RenderItemsCons(records, Chunk(low, c), Plan(data, dl, next, nextLow, high));
  }

  /** PlanChunk, with the next position and address named. */
  lemma {:induction false} PlanNext(data: string, dl: nat, i: nat, low: int, high: int, n: int, next: nat, nextLow: int)
    requires dl >= 1 && i < |data| && low <= 0xFFFF
    requires n == Min(Min(|data| - i, 2 * dl), 2 * (0x10000 - low)) && next == i + n && nextLow == low + n / 2
    ensures i < next <= |data| && nextLow <= 0x10000
    ensures Plan(data, dl, i, low, high) == [Chunk(low, data[i..next])] + Plan(data, dl, next, nextLow, high)
  {
    PlanChunk(data, dl, i, low, high, n);
  }

  /** One turn of the loop: the bank record when the bank is full, else a
      data record; the first exception ends the loop. */
  method IHexStep(data: string, dl: nat, startIndex: nat, lowAddress: int, highAddress: int,
                  records: seq<string>, ghost total: Result<seq<string>, ChecksumFault>)
    returns (fault: Option<ChecksumFault>, i: nat, low: int, high: int, recs: seq<string>)
    requires dl >= 1 && startIndex < |data| && lowAddress <= 0x10000
    requires total == Prefixed(records, RenderItems(Plan(data, dl, startIndex, lowAddress, highAddress)))
    ensures fault.Some? ==> total == Err(fault.value)
    ensures fault.None? ==> i <= |data| && low <= 0x10000
    ensures fault.None? ==> total == Prefixed(recs, RenderItems(Plan(data, dl, i, low, high)))
    ensures fault.None? ==> startIndex < i || (i == startIndex && lowAddress > 0xFFFF && low <= 0xFFFF)
  {
    if lowAddress > 0xFFFF {
      var bank := IHexBankRecord(data, dl, startIndex, lowAddress, highAddress, records, total);
      if bank.Err? {
        return Some(bank.error), startIndex, lowAddress, highAddress, records;
      }
      return None, startIndex, 0, highAddress + 1, records + [bank.value];
    }
    var line, next, nextLow := IHexDataRecord(data, dl, startIndex, lowAddress, highAddress, records, total);
    if line.Err? {
      return Some(line.error), startIndex, lowAddress, highAddress, records;
    }
    return None, next, nextLow, highAddress, records + [line.value];
  }

  /** The bank record of the loop, once the bank is full. */
  method IHexBankRecord(data: string, dl: nat, startIndex: nat, lowAddress: int, highAddress: int,
                        records: seq<string>, ghost total: Result<seq<string>, ChecksumFault>)
    returns (line: Result<string, ChecksumFault>)
    requires dl >= 1 && startIndex < |data| && 0xFFFF < lowAddress <= 0x10000
    requires total == Prefixed(records, RenderItems(Plan(data, dl, startIndex, lowAddress, highAddress)))
    ensures line.Err? ==> total == Err(line.error)
    ensures line.Ok? ==> total == Prefixed(records + [line.value], RenderItems(Plan(data, dl, startIndex, 0, highAddress + 1)))
  {
    assert lowAddress == 0x10000;
    line := BankLine(IntRender(highAddress + 1, 4));
    BankStep(data, dl, startIndex, highAddress, records, total, line);
  }

  /** One data record of the loop: what is left, dl bytes, or the room left
      in the bank, whichever is least, at the lower address in the bank. */
  method IHexDataRecord(data: string, dl: nat, startIndex: nat, lowAddress: int, highAddress: int,
                        records: seq<string>, ghost total: Result<seq<string>, ChecksumFault>)
    returns (line: Result<string, ChecksumFault>, next: nat, nextLow: int)
    requires dl >= 1 && startIndex < |data| && lowAddress <= 0xFFFF
    requires total == Prefixed(records, RenderItems(Plan(data, dl, startIndex, lowAddress, highAddress)))
    ensures startIndex < next <= |data| && nextLow <= 0x10000
    ensures line.Err? ==> total == Err(line.error)
    ensures line.Ok? ==> total == Prefixed(records + [line.value], RenderItems(Plan(data, dl, next, nextLow, highAddress)))
  {
    var dataRecLength := Min(Min(|data| - startIndex, 2 * dl), 2 * (0x10000 - lowAddress));
    next, nextLow := startIndex + dataRecLength, lowAddress + dataRecLength / 2;
    line := Line(":", IntRender(dataRecLength / 2, 2) + IntRender(lowAddress, 4) + "00" + data[startIndex..next], false);
    ChunkStep(data, dl, startIndex, lowAddress, highAddress, dataRecLength, next, nextLow, records, total, line);
  }

  /** The data loop, corrected: a bank record when the bank is full, then a
      record of what is left, of dl bytes, or of the room left in the bank,
      whichever is least. */
  method IHexWriteRecords(data: string, dl: nat, low0: int, high0: int) returns (r: Result<seq<string>, ChecksumFault>)
    requires dl >= 1 && low0 <= 0x10000
    ensures r == RenderItems(Plan(data, dl, 0, low0, high0))
  {
    ghost var total := RenderItems(Plan(data, dl, 0, low0, high0));
    var startIndex: nat := 0;
    var lowAddress := low0;
    var highAddress := high0;
    var records: seq<string> := [];
    PrefixedNothing(total);
    while startIndex < |data|
      invariant startIndex <= |data| && lowAddress <= 0x10000
      invariant total == Prefixed(records, RenderItems(Plan(data, dl, startIndex, lowAddress, highAddress)))
      decreases |data| - startIndex, if lowAddress > 0xFFFF then 1 else 0
    {
      var fault, i, low, high, recs := IHexStep(data, dl, startIndex, lowAddress, highAddress, records, total);
      if fault.Some? {
        return Err(fault.value);
      }
      startIndex, lowAddress, highAddress, records := i, low, high, recs;
    }
    PlanDone(data, dl, startIndex, lowAddress, highAddress, records, total);
    return Ok(records);
  }

  /** Past the end of the data, the records written are all there is. */
  lemma {:induction false} PlanDone(data: string, dl: nat, i: nat, low: int, high: int, records: seq<string>,
                                    total: Result<seq<string>, ChecksumFault>)
    requires dl >= 1 && low <= 0x10000 && i >= |data|
    requires total == Prefixed(records, RenderItems(Plan(data, dl, i, low, high)))
    ensures total == Ok(records)
  {
    assert records + [] == records;
  }

  /** A data record's line, with its byte count computed from the length
      the loop computed. */
  lemma {:induction false} ChunkLine(low: int, c: string, n: int)
    requires |c| == n
    ensures RenderItem(Chunk(low, c)) == Line(":", IntRender(n / 2, 2) + IntRender(low, 4) + "00" + c, false)
  {
  }

  /** ExportRangeToFile of an Intel HEX file, with the corrected loop. */
  method IHexExportRangeToFileCorrected(src: Source, startAddress: string, endAddress: string,
                               addressLength: int, dataLength: int, newStartAddress: string) returns (o: Outcome)
    ensures o == IHexExport(src, startAddress, endAddress, addressLength, dataLength, newStartAddress)
  {
    var p := IHexParams(addressLength, dataLength, newStartAddress);
    var extracted := ExtractDataRange(src, HexToLong(startAddress), HexToLong(endAddress));
    if extracted.Err? {
      return Raised(extracted.error);
    }
    var data := extracted.value;
    if data == "" {
      return Declined;
    }
    var t := StartText(p.newStart, startAddress);
    var first := BankLine(HighText(t));
    if first.Err? {
      return Declined;
    }
    FourDigits(LowText(t));
    var records := IHexWriteRecords(data, p.chunk, HexToInt32(LowText(t)), HexToInt32(HighText(t)));
    if records.Err? {
      return Declined;
    }
    o := Written([first.value] + records.value + [EndLine]);
  }

  // ---------------------------------------------------------------------------
  // ExportRangeToFile (Intel HEX) as written, step by step

  /** The lines of a plan; None for no plan or a checksum that throws. */
  function RenderPlan(plan: Option<seq<Item>>): Option<seq<string>> {
    match plan
    case None => None
    case Some(items) =>
      match RenderItems(items)
      case Err(_) => None
      case Ok(ls) => Some(ls)
  }

  /** The lines of the loop as written from character i on; None when a
      Substring or a checksum throws. */
  function RenderPlanAsWritten(data: string, dl: nat, i: nat, low: int, high: int): Option<seq<string>>
    requires dl >= 1
  {
    RenderPlan(PlanAsWritten(data, dl, i, low, high))
  }

  /** Lines already written in front of what the rest of the loop writes. */
  function Glue(ls: seq<string>, r: Option<seq<string>>): Option<seq<string>> {
    match r
    case None => None
    case Some(rs) => Some(ls + rs)
  }

  lemma {:induction false} GlueNothing(r: Option<seq<string>>)
    ensures Glue([], r) == r
  {
    if r.Some? {
      assert [] + r.value == r.value;
    }
  }

  /** One item in front of a plan. */
  function ConsItem(it: Item, plan: Option<seq<Item>>): Option<seq<Item>> {
    match plan
    case None => None
    case Some(rest) => Some([it] + rest)
  }

  /** The item's line goes after the lines written, unless its checksum
      throws. */
  lemma {:induction false} GlueCons(ls: seq<string>, it: Item, plan: Option<seq<Item>>)
    ensures Glue(ls, RenderPlan(ConsItem(it, plan))) ==
      if RenderItem(it).Err? then None else Glue(ls + [RenderItem(it).value], RenderPlan(plan))
  {
    if plan.Some? {
      var items := [it] + plan.value;
      assert ConsItem(it, plan) == Some(items);
      RenderItemsCons([], it, plan.value);
      PrefixedNothing(RenderItems(items));
      if RenderItem(it).Ok? {
        GlueOk(ls, RenderItem(it).value, RenderItems(plan.value), RenderItems(items));
      }
    }
  }

  /** Glue of a line in front of rendered lines. */
  lemma {:induction false} GlueOk(ls: seq<string>, l: string, rest: Result<seq<string>, ChecksumFault>,
                                  all: Result<seq<string>, ChecksumFault>)
    requires all == Prefixed([l], rest)
    ensures Glue(ls, match all case Err(_) => None case Ok(x) => Some(x)) ==
            Glue(ls + [l], match rest case Err(_) => None case Ok(x) => Some(x))
  {
    if rest.Ok? {
      assert ls + ([l] + rest.value) == (ls + [l]) + rest.value;
    }
  }

  /** PlanAsWritten inside the bank: one chunk in front of the rest. */
  lemma {:induction false} PlanAsWrittenInside(data: string, dl: nat, i: nat, low: int, high: int, n: int, next: int)
    requires dl >= 1 && i < |data| && low + dl - 1 <= 0xFFFF
    requires n == Min(|data| - i, dl * 2) && next == i + dl * 2
    ensures 0 <= i + n <= |data| && i < next
    ensures PlanAsWritten(data, dl, i, low, high) ==
            ConsItem(Chunk(low, data[i..i + n]), PlanAsWritten(data, dl, next, low + dl, high))
  {
  }

  /** PlanAsWritten across the end of the bank: None when the data ends
      before the bank does, else the rest of the bank, the bank record and a
      chunk at 0 in front of the rest. */
  lemma {:induction false} PlanAsWrittenAcross(data: string, dl: nat, i: nat, low: int, high: int, rem: int, j: int, n: int, next: int)
    requires dl >= 1 && i < |data| && low + dl - 1 > 0xFFFF
    requires rem == 0xFFFF - low + 1 && j == i + rem * 2 && 0 <= rem && j <= |data|
    requires n == Min(|data| - j, dl * 2) && next == j + dl * 2
    ensures 0 <= j <= j + n <= |data| && i < next
    ensures PlanAsWritten(data, dl, i, low, high) ==
            ConsItem(Chunk(low, data[i..j]), ConsItem(Bank(high + 1), ConsItem(Chunk(0, data[j..j + n]),
              PlanAsWritten(data, dl, next, dl, high + 1))))
  {
    var a, b, c := Chunk(low, data[i..j]), Bank(high + 1), Chunk(0, data[j..j + n]);
    match PlanAsWritten(data, dl, next, dl, high + 1)
    case None =>
    case Some(rest) =>
      assert [a, b, c] + rest == [a] + ([b] + ([c] + rest));
  }

  /** One turn of the loop as written: the bank crossing when a record of
      dl bytes would pass 0xFFFF, else one data record; None when a
      Substring or a checksum throws. */
  method IHexStepAsWritten(data: string, dl: nat, startIndex: nat, lowAddress: int, highAddress: int,
                           records: seq<string>, ghost total: Option<seq<string>>)
    returns (failed: bool, i: nat, low: int, high: int, recs: seq<string>)
    requires dl >= 1 && startIndex < |data|
    requires total == Glue(records, RenderPlanAsWritten(data, dl, startIndex, lowAddress, highAddress))
    ensures failed ==> total == None
    ensures !failed ==> startIndex < i && total == Glue(recs, RenderPlanAsWritten(data, dl, i, low, high))
  {
    if lowAddress + dl - 1 > 0xFFFF {
      failed, i, recs := IHexCrossAsWritten(data, dl, startIndex, lowAddress, highAddress, records, total);
      low, high := dl, highAddress + 1;
    } else {
      var dataRecLength := Min(|data| - startIndex, dl * 2);
      i, low, high := startIndex + dl * 2, lowAddress + dl, highAddress;
      PlanAsWrittenInside(data, dl, startIndex, lowAddress, highAddress, dataRecLength, i);
      var line := IHexChunkLine(lowAddress, data[startIndex..startIndex + dataRecLength]);
      failed, recs := WriteItem(records, line, Chunk(lowAddress, data[startIndex..startIndex + dataRecLength]),
                                PlanAsWritten(data, dl, i, low, high), total);
    }
  }

  /** A data record as the loop assembles it: byte count, address, type 00,
      data, checksum. */
  method IHexChunkLine(low: int, c: string) returns (line: Result<string, ChecksumFault>)
    ensures line == RenderItem(Chunk(low, c))
  {
    line := Line(":", IntRender(|c| / 2, 2) + IntRender(low, 4) + "00" + c, false);
  }

  /** An extended linear address record as the loop assembles it. */
  method IHexBankLine(high: int) returns (line: Result<string, ChecksumFault>)
    ensures line == RenderItem(Bank(high))
  {
    line := Line(":", "02" + "0000" + "04" + IntRender(high, 4), false);
  }

  /** sw.WriteLine of one record: its line goes after the lines written,
      and a checksum that threw ends the loop. */
  method WriteItem(records: seq<string>, line: Result<string, ChecksumFault>, ghost it: Item,
                   ghost plan: Option<seq<Item>>, ghost total: Option<seq<string>>)
    returns (failed: bool, recs: seq<string>)
    requires line == RenderItem(it) && total == Glue(records, RenderPlan(ConsItem(it, plan)))
    ensures failed ==> total == None
    ensures !failed ==> total == Glue(recs, RenderPlan(plan))
  {
    GlueCons(records, it, plan);
    if line.Err? {
      return true, records;
    }
    return false, records + [line.value];
  }

  /** The turn that crosses the end of the bank: the data left in the bank,
      the next bank record, a data record at 0. */
  method IHexCrossAsWritten(data: string, dl: nat, startIndex: nat, lowAddress: int, highAddress: int,
                            records: seq<string>, ghost total: Option<seq<string>>)
    returns (failed: bool, i: nat, recs: seq<string>)
    requires dl >= 1 && startIndex < |data| && lowAddress + dl - 1 > 0xFFFF
    requires total == Glue(records, RenderPlanAsWritten(data, dl, startIndex, lowAddress, highAddress))
    ensures failed ==> total == None
    ensures !failed ==> startIndex < i && total == Glue(recs, RenderPlanAsWritten(data, dl, i, dl, highAddress + 1))
  {
    var dataRemaining := 0xFFFF - lowAddress + 1;
    var j := startIndex + dataRemaining * 2;
    recs := records;
    if dataRemaining < 0 || j > |data| {
      PlanAsWrittenShort(data, dl, startIndex, lowAddress, highAddress);
      return true, startIndex, records;
    }
    var dataRecLength := Min(|data| - j, dl * 2);
    i := j + dl * 2;
    PlanAsWrittenAcross(data, dl, startIndex, lowAddress, highAddress, dataRemaining, j, dataRecLength, i);
    ghost var b, c := Bank(highAddress + 1), Chunk(0, data[j..j + dataRecLength]);
    ghost var rest := PlanAsWritten(data, dl, i, dl, highAddress + 1);
    var l1 := IHexChunkLine(lowAddress, data[startIndex..j]);
    failed, recs := WriteItem(recs, l1, Chunk(lowAddress, data[startIndex..j]), ConsItem(b, ConsItem(c, rest)), total);
    if failed {
      return;
    }
    var l2 := IHexBankLine(highAddress + 1);
    failed, recs := WriteItem(recs, l2, b, ConsItem(c, rest), total);
    if failed {
      return;
    }
    var l3 := IHexChunkLine(0, data[j..j + dataRecLength]);
    failed, recs := WriteItem(recs, l3, c, rest, total);
  }

  /** When the data ends before the bank does, the Substring throws. */
  lemma {:induction false} PlanAsWrittenShort(data: string, dl: nat, i: nat, low: int, high: int)
    requires dl >= 1 && i < |data| && low + dl - 1 > 0xFFFF
    requires 0xFFFF - low + 1 < 0 || i + (0xFFFF - low + 1) * 2 > |data|
    ensures RenderPlanAsWritten(data, dl, i, low, high) == None
  {
  }

  /** The data loop as written. */
  method IHexWriteRecordsAsWritten(data: string, dl: nat, low0: int, high0: int) returns (r: Option<seq<string>>)
    requires dl >= 1
    ensures r == RenderPlanAsWritten(data, dl, 0, low0, high0)
  {
    ghost var total := RenderPlanAsWritten(data, dl, 0, low0, high0);
    var startIndex: nat := 0;
    var lowAddressInt := low0;
    var highAddressInt := high0;
    var records: seq<string> := [];
    GlueNothing(total);
    while startIndex < |data|
      invariant total == Glue(records, RenderPlanAsWritten(data, dl, startIndex, lowAddressInt, highAddressInt))
      decreases |data| - startIndex
    {
      var failed, i, low, high, recs := IHexStepAsWritten(data, dl, startIndex, lowAddressInt, highAddressInt, records, total);
      if failed {
        return None;
      }
      startIndex, lowAddressInt, highAddressInt, records := i, low, high, recs;
    }
    assert records + [] == records;
    return Some(records);
  }

  /** IHexLinesAsWritten is the first bank record, the loop's lines and the
      end-of-file record. */
  lemma {:induction false} IHexLinesAsWrittenParts(dl: nat, data: string, t: string)
    requires dl >= 1
    ensures var first := BankLine(HighText(t));
            var loop := RenderPlanAsWritten(data, dl, 0, HexToInt32(LowText(t)), HexToInt32(HighText(t)));
            IHexLinesAsWritten(dl, data, t) ==
            if first.Err? || loop.None? then None else Some([first.value] + loop.value + [EndLine])
  {
  }

  /** ExportRangeToFile of an Intel HEX file, as written. */
  method IHexExportRangeToFile(src: Source, startAddress: string, endAddress: string,
                               addressLength: int, dataLength: int, newStartAddress: string) returns (o: Outcome)
    ensures o == IHexExportAsWritten(src, startAddress, endAddress, addressLength, dataLength, newStartAddress)
  {
    var p := IHexParams(addressLength, dataLength, newStartAddress);
    var extracted := ExtractDataRange(src, HexToLong(startAddress), HexToLong(endAddress));
    if extracted.Err? {
      return Raised(extracted.error);
    }
    var data := extracted.value;
    if data == "" {
      return Declined;
    }
    var t := StartText(p.newStart, startAddress);
    IHexLinesAsWrittenParts(p.chunk, data, t);
    var first := BankLine(HighText(t));
    if first.Err? {
      return Declined;
    }
    var records := IHexWriteRecordsAsWritten(data, p.chunk, HexToInt32(LowText(t)), HexToInt32(HighText(t)));
    if records.None? {
      return Declined;
    }
    o := Written([first.value] + records.value + [EndLine]);
  }
}
