/** ExportRangeToFile of both formats: the range is extracted (from memory or
    by scanning the file again), the caller's parameters are normalised, and
    the range is written as a sequence of record lines. The lines are the
    result here; the file itself is not modelled. */
module Export {
  import opened Wrappers
  import opened Hex
  import opened Formats
  import opened Reader
  import opened Query

  // ---------------------------------------------------------------------------
  // ExtractDataRange

  /** What the export reads of the object it is called on: the merged blocks,
      whether payloads are in memory, and for the file scan the per-record
      errors and verdicts of the records read; the header data of the last S0. */
  datatype Source = Source(format: Format, blocks: seq<Block>, loadData: bool,
                           errors: map<int, ErrorCode>, verdicts: seq<Verdict>,
                           headerData: string)

  /** The exceptions ExtractDataRange lets through: those of ReadRangeFromFile
      and the Substring of ReadRange. */
  datatype ExtractFault = FileFault(cause: RangeFault) | MemoryFault

  /** ExtractDataRange(start, end): "" unless one block contains the range,
      then the file scan or the in-memory read. */
  function ExtractDataRange(src: Source, s: int, e: int): Result<string, ExtractFault> {
    if !IsInRange(src.blocks, s, e) then Ok("")
    else if !src.loadData then
      match ReadRangeFromFile(src.format, src.errors, src.verdicts, s, e)
      case Err(x) => Err(FileFault(x))
      case Ok(t) => Ok(t)
    else
      match ReadRange(src.blocks, true, s, e)
      case None => Err(MemoryFault)
      case Some(t) => Ok(t)
  }

  /** ExtractDataRange(start, len): "" unless len > 0. */
  function ExtractDataRangeFor(src: Source, s: int, len: int): Result<string, ExtractFault> {
    if len > 0 then ExtractDataRange(src, s, EndOf(s, len)) else Ok("")
  }

  /** On blocks built with their payloads and on records with even data, the
      extracted text is "" or exactly the e - s + 1 bytes of the range; the
      in-memory read cannot throw, and "" is all an uncontained range gives. */
  lemma {:induction false} ExtractFacts(src: Source, s: int, e: int)
    requires forall k :: 0 <= k < |src.blocks| ==> BlockOk(src.blocks[k], true)
    requires forall k :: 0 <= k < |src.verdicts| ==> Even(src.verdicts[k])
    requires ExtractDataRange(src, s, e).Ok? || src.loadData
    ensures ExtractDataRange(src, s, e).Ok?
    ensures !IsInRange(src.blocks, s, e) ==> ExtractDataRange(src, s, e) == Ok("")
    ensures var t := ExtractDataRange(src, s, e).value;
      t == "" || (s <= e && |t| == 2 * (e - s + 1))
    ensures var t := ExtractDataRange(src, s, e).value;
      !src.loadData && t != "" ==> AllHex(t)
    ensures (forall k :: 0 <= k < |src.blocks| ==> AllHex(src.blocks[k].payload)) ==>
      AllHex(ExtractDataRange(src, s, e).value)
  {
    if IsInRange(src.blocks, s, e) {
      if !src.loadData {
        ReadRangeFromFileFacts(src.format, src.errors, src.verdicts, s, e);
      } else {
        ReadRangeFacts(src.blocks, true, s, e);
        if s <= e && LastContaining(src.blocks, s, e).Some? &&
           forall k :: 0 <= k < |src.blocks| ==> AllHex(src.blocks[k].payload) {
          var b := src.blocks[LastContaining(src.blocks, s, e).value];
          SliceHex(b.payload, 2 * (s - b.start), 2 * (s - b.start) + 2 * (e - s + 1));
        }
      }
    }
  }

  // ---------------------------------------------------------------------------
  // Lines and numbers as the serialisers write them

  /** A record line: its head, the checksummed body, and the checksum of the
      body (HexCheckSumCalc, which throws on an odd-length body and, for the
      two's complement, on a zero sum). */
  function Line(head: string, body: string, ones: bool): Result<string, ChecksumFault> {
    match Checksum(body, ones)
    case Err(x) => Err(x)
    case Ok(c) => Ok(head + body + c)
  }

  const Two64: nat := 0x1_0000_0000_0000_0000
  const Two32: nat := 0x1_0000_0000

  /** long.ToString("X<w>"): a negative value shows its 64-bit two's complement. */
  function LongRender(n: int, w: nat): string {
    Render(n % Two64, w)
  }

  /** int.ToString("X<w>"): a negative value shows its 32-bit two's complement. */
  function IntRender(n: int, w: nat): string {
    Render(n % Two32, w)
  }

  lemma {:induction false} LongRenderFacts(n: int, w: nat)
    requires 0 <= n && 1 <= w <= 16 && n < Pow16(w)
    ensures |LongRender(n, w)| == w && AllHex(LongRender(n, w)) && HexValue(LongRender(n, w)) == n
  {
    Pow16Bound(w, n);
    assert n % Two64 == n;
    RenderFacts(n, w);
  }

  lemma {:induction false} Pow16Bound(w: nat, n: int)
    requires 0 <= n < Pow16(w)
    ensures n % Two64 == n || w > 16
  {
    if w <= 16 {
      Pow16Monotone(w, 16);
      assert Pow16(16) == Two64 by { Pow16Sixteen(); }
    }
  }

  lemma {:induction false} Pow16Monotone(a: nat, b: nat)
    requires a <= b
    ensures Pow16(a) <= Pow16(b)
    decreases b - a
  {
    if a < b {
      Pow16Monotone(a + 1, b);
    }
  }

  lemma Pow16Sixteen()
    ensures Pow16(16) == Two64
  {
    assert Pow16(4) == 0x1_0000;
    assert Pow16(8) == 0x1_0000_0000 by { Pow16Add(4, 4); }
    Pow16Add(8, 8);
  }

  lemma {:induction false} Pow16Add(a: nat, b: nat)
    ensures Pow16(a + b) == Pow16(a) * Pow16(b)
    decreases b
  {
    if b > 0 {
      Pow16Add(a, b - 1);
    }
  }

  // ---------------------------------------------------------------------------
  // Parameter normalisation

  /** An address width outside 2..4 bytes becomes 4. */
  function NormalWidth(addressLength: int): nat {
    if addressLength < 2 || addressLength > 4 then 4 else addressLength
  }

  /** A record length outside 1..max bytes becomes 32. */
  function NormalChunk(dataLength: int, max: int): nat {
    if dataLength < 1 || dataLength > max then 32 else dataLength
  }

  /** The parameters the serialiser works with: address width in bytes,
      record length in bytes, the replacement start address, and the bound
      the S-record header text is cut to. */
  datatype Params = Params(width: nat, chunk: nat, newStart: string, maxData: int)

  /** newStartAddress as the source treats it: hexadecimal text of more than
      eight digits is dropped, and text wider than the address field widens
      the field to half its length, rounded down. Other text is kept. */
  function NewStartAsWritten(ns: string, w: nat): (string, nat) {
    if ns != "" && AllHex(ns) then
      if |ns| > 8 then ("", w)
      else if |ns| > 2 * w then (ns, |ns| / 2)
      else (ns, w)
    else (ns, w)
  }

  /** The same, with the width rounded up so that the digits fit. */
  function NewStart(ns: string, w: nat): (string, nat) {
    if ns != "" && AllHex(ns) then
      if |ns| > 8 then ("", w)
      else if |ns| > 2 * w then (ns, (|ns| + 1) / 2)
      else (ns, w)
    else (ns, w)
  }

  /** The S-record normalisation as written: the record length is bounded by
      the width before newStartAddress can widen it. */
  function SRecParamsAsWritten(addressLength: int, dataLength: int, ns: string): Params {
    var w0 := NormalWidth(addressLength);
    var max := 255 - 1 - w0;
    var dl := NormalChunk(dataLength, max);
    var nw := NewStartAsWritten(ns, w0);
    Params(nw.1, dl, nw.0, max)
  }

  /** The S-record normalisation with the width settled first, so that the
      record length is bounded by the width actually written. */
  function SRecParams(addressLength: int, dataLength: int, ns: string): Params {
    var nw := NewStart(ns, NormalWidth(addressLength));
    var max := 255 - 1 - nw.1;
    Params(nw.1, NormalChunk(dataLength, max), nw.0, max)
  }

  /** The normalised parameters make well-formed records: a width of 2 to 4
      bytes, a byte count 1 + width + length that fits one byte, a kept
      hexadecimal start address that fits the address field; and parameters
      already in range are kept. */
  lemma {:induction false} SRecParamsBounds(addressLength: int, dataLength: int, ns: string)
    ensures var p := SRecParams(addressLength, dataLength, ns);
      2 <= p.width <= 4 && 1 <= p.chunk && 1 + p.width + p.chunk <= 255 &&
      p.maxData == 254 - p.width &&
      (p.newStart == "" || p.newStart == ns) &&
      (p.newStart != "" && AllHex(p.newStart) ==> |p.newStart| <= 2 * p.width)
    ensures var p := SRecParams(addressLength, dataLength, ns);
      2 <= addressLength <= 4 && (ns == "" || !AllHex(ns) || |ns| > 8 || |ns| <= 2 * addressLength) ==>
        p.width == addressLength
    ensures var p := SRecParams(addressLength, dataLength, ns);
      1 <= dataLength <= 254 - p.width ==> p.chunk == dataLength
  {
  }

  /** As written, a width of 2, records of 252 bytes and an eight-digit new
      start give records of 4 + 252 bytes: the byte count 257 needs three
      digits and a full record's checksum text has odd length. */
  lemma SRecParamsAsWrittenOverflow()
    ensures var p := SRecParamsAsWritten(2, 252, "00000000");
      p.width == 4 && p.chunk == 252 && 1 + p.width + p.chunk == 257
    ensures SRecDataLine(4, 0, Zeros(504)) == Err(OddLength)
  {
    assert AllHex("00000000") by { assert "00000000" == Zeros(8); ZerosValue(8); }
    RenderWidth(257, 2, 3);
    OddBody(Render(257, 2), LongRender(0, 8), Zeros(504));
  }

  /** As written, a width of 2 and a five-digit new start keep the width at
      2 bytes, so the start address needs five of the four digits: the
      record's checksum text has odd length. */
  lemma SRecParamsAsWrittenNarrow()
    ensures var p := SRecParamsAsWritten(2, 32, "12345");
      p.width == 2 && p.newStart == "12345" && |p.newStart| > 2 * p.width
    ensures SRecDataLine(2, 0x12345, Zeros(2)) == Err(OddLength)
  {
    assert AllHex("12345");
    RenderWidth(0x12345, 4, 5);
    OddBody(Render(1 + 2 + 1, 2), LongRender(0x12345, 4), Zeros(2));
  }

  /** The digits of n, padded to w, have exactly k digits. */
  lemma {:induction false} RenderWidth(n: nat, w: nat, k: nat)
    requires w <= k && 1 <= k && Pow16(k - 1) <= n < Pow16(k)
    ensures |Render(n, w)| == k && AllHex(Render(n, w))
  {
    RenderFacts(n, w);
    DigitsCount(n, k);
  }

  lemma {:induction false} DigitsCount(n: nat, k: nat)
    requires 1 <= k && Pow16(k - 1) <= n < Pow16(k)
    ensures |Digits(n)| == k
  {
    if n >= 16 {
      assert k >= 2;
      DigitsCount(n / 16, k - 1);
    }
  }

  /** A checksum body of hexadecimal pieces whose lengths add up to an odd
      number makes HexCheckSumCalc throw. */
  lemma {:induction false} OddBody(a: string, b: string, c: string)
    requires AllHex(a) && AllHex(b) && AllHex(c) && (|a| + |b| + |c|) % 2 == 1
    ensures forall head: string, ones: bool :: Line(head, a + b + c, ones) == Err(OddLength)
  {
    HexAppend(a, b);
    HexAppend(a + b, c);
    ChecksumFailures(a + b + c, true);
    ChecksumFailures(a + b + c, false);
  }

  // ---------------------------------------------------------------------------
  // S-record lines

  /** dataHeader and endHeader by address width; the switch has no default. */
  function DataHeader(w: nat): string {
    if w == 2 then "S1" else if w == 3 then "S2" else if w == 4 then "S3" else ""
  }

  function EndHeader(w: nat): string {
    if w == 2 then "S9" else if w == 3 then "S8" else if w == 4 then "S7" else ""
  }

  /** The header record: byte count, address 0000, the header text. */
  function SRecHeaderLine(hdr: string): Result<string, ChecksumFault> {
    Line("S0", Render(3 + |hdr| / 2, 2) + "0000" + hdr, true)
  }

  /** A data record at addr holding chunk. */
  function SRecDataLine(w: nat, addr: int, chunk: string): Result<string, ChecksumFault> {
    Line(DataHeader(w), Render(1 + w + |chunk| / 2, 2) + LongRender(addr, 2 * w) + chunk, true)
  }

  /** The record count: S5 with a two-byte count up to 65535 records, S6
      with a three-byte count beyond. */
  function SRecCountLine(n: nat): Result<string, ChecksumFault> {
    var bc: nat := if n <= 65535 then 3 else 4;
    Line(if n <= 65535 then "S5" else "S6", Render(bc, 2) + Render(n, 2 * (bc - 1)), true)
  }

  /** The termination record, address 0. */
  function SRecEndLine(w: nat): Result<string, ChecksumFault> {
    Line(EndHeader(w), Render(1 + w, 2) + Render(0, 2 * w), true)
  }

  /** maxDataLines: the number of records of at most dl bytes that hold n
      hexadecimal characters. */
  function LineCount(n: nat, dl: nat): nat
    requires dl >= 1
  {
    n / (2 * dl) + (if n % (2 * dl) > 0 then 1 else 0)
  }

  /** Record i starts at character 2 * dl * i, which is inside the data. */
  lemma {:induction false} ChunkStart(n: nat, dl: nat, i: nat)
    requires dl >= 1 && i < LineCount(n, dl)
    ensures i * (2 * dl) < n
  {
    var q, m := n / (2 * dl), n % (2 * dl);
    assert n == q * (2 * dl) + m;
    if m > 0 {
      assert i <= q;
      assert i * (2 * dl) <= q * (2 * dl);
    } else {
      assert i <= q - 1;
      assert i * (2 * dl) <= (q - 1) * (2 * dl);
    }
  }

  /** The data of record i: 2 * dl characters from 2 * dl * i, fewer in the
      last record. */
  function ChunkAt(data: string, dl: nat, i: nat): (c: string)
    requires dl >= 1 && i < LineCount(|data|, dl)
    ensures 0 < |c| <= 2 * dl
  {
    ChunkStart(|data|, dl, i);
    var st := i * (2 * dl);
    data[st..st + Min(2 * dl, |data| - st)]
  }

  /** The first k data records, record i at a0 + i * dl; the first checksum
      that throws ends the export. */
  function SRecDataLines(p: Params, data: string, a0: int, k: nat): Result<seq<string>, ChecksumFault>
    requires p.chunk >= 1 && k <= LineCount(|data|, p.chunk)
  {
    if k == 0 then Ok([])
    else
      match SRecDataLines(p, data, a0, k - 1)
      case Err(x) => Err(x)
      case Ok(ls) =>
        match SRecDataLineAt(p, data, a0, k - 1)
        case Err(x) => Err(x)
        case Ok(l) => Ok(ls + [l])
  }

  /** currentAddress before record i: a0, advanced by dl per record. */
  function RecordAddress(a0: int, dl: nat, i: nat): int {
    if i == 0 then a0 else RecordAddress(a0, dl, i - 1) + dl
  }

  /** Record i starts i * dl bytes after the first. */
  lemma {:induction false} RecordAddressIs(a0: int, dl: nat, i: nat)
    ensures RecordAddress(a0, dl, i) == a0 + i * dl
  {
    if i > 0 {
      RecordAddressIs(a0, dl, i - 1);
      assert i * dl == (i - 1) * dl + dl;
    }
  }

  /** Data record i: at RecordAddress(a0, dl, i), holding ChunkAt(data, dl, i). */
  function SRecDataLineAt(p: Params, data: string, a0: int, i: nat): Result<string, ChecksumFault>
    requires p.chunk >= 1 && i < LineCount(|data|, p.chunk)
  {
    SRecDataLine(p.width, RecordAddress(a0, p.chunk, i), ChunkAt(data, p.chunk, i))
  }

  /** Once a record throws, so does the export of any longer prefix. */
  lemma {:induction false} SRecDataLinesFail(p: Params, data: string, a0: int, j: nat, k: nat)
    requires p.chunk >= 1 && j <= k <= LineCount(|data|, p.chunk)
    requires SRecDataLines(p, data, a0, j).Err?
    ensures SRecDataLines(p, data, a0, k) == SRecDataLines(p, data, a0, j)
    decreases k - j
  {
    if j < k {
      SRecDataLinesFail(p, data, a0, j + 1, k);
    }
  }

  /** The whole S-record file: header, data records, the optional count
      record and the termination record. */
  function SRecLines(p: Params, hdr: string, data: string, a0: int, insertLinesCount: bool): Result<seq<string>, ChecksumFault>
    requires p.chunk >= 1
  {
    var n := LineCount(|data|, p.chunk);
    match SRecHeaderLine(hdr)
    case Err(x) => Err(x)
    case Ok(h) =>
      match SRecDataLines(p, data, a0, n)
      case Err(x) => Err(x)
      case Ok(ds) =>
        match (if insertLinesCount then SRecCountLine(n) else Ok(""))
        case Err(x) => Err(x)
        case Ok(c) =>
          match SRecEndLine(p.width)
          case Err(x) => Err(x)
          case Ok(z) => Ok([h] + ds + (if insertLinesCount then [c] else []) + [z])
  }

  // ---------------------------------------------------------------------------
  // The header text

  /** Encoding.UTF8.GetBytes of one character. */
  function Utf8Char(c: char): (b: seq<byte>)
    ensures 1 <= |b| <= 4
    ensures (c as int) < 0x80 ==> b == [c as int]
  {
    var v := c as int;
    if v < 0x80 then [v]
    else if v < 0x800 then [0xC0 + v / 64, 0x80 + v % 64]
    else if v < 0x10000 then [0xE0 + v / 4096, 0x80 + (v / 64) % 64, 0x80 + v % 64]
    else [0xF0 + v / 0x40000, 0x80 + (v / 4096) % 64, 0x80 + (v / 64) % 64, 0x80 + v % 64]
  }

  function Utf8(s: string): seq<byte> {
    if s == [] then [] else Utf8(s[..|s| - 1]) + Utf8Char(s[|s| - 1])
  }

  /** StringToHexString: the UTF-8 bytes of the text as upper-case hexadecimal. */
  function StringToHexString(s: string): string {
    if s == "" then "" else HexOfBytes(Utf8(s))
  }

  predicate Ascii(s: string) {
    forall i :: 0 <= i < |s| ==> (s[i] as int) < 0x80
  }

  /** An ASCII text has one byte per character. */
  lemma {:induction false} Utf8Ascii(s: string)
    requires Ascii(s)
    ensures |Utf8(s)| == |s|
    ensures forall i :: 0 <= i < |s| ==> Utf8(s)[i] == s[i] as int
  {
    if s != [] {
      var p := s[..|s| - 1];
      assert Ascii(p) by { forall i | 0 <= i < |p| ensures (p[i] as int) < 0x80 { assert p[i] == s[i]; } }
      Utf8Ascii(p);
    }
  }

  /** A character of three UTF-8 bytes. */
  predicate Wide(c: char) {
    0x800 <= c as int < 0x10000
  }

  /** A text of such characters encodes to three bytes per character. */
  lemma {:induction false} Utf8Wide(s: string)
    requires forall i :: 0 <= i < |s| ==> Wide(s[i])
    ensures |Utf8(s)| == 3 * |s|
  {
    if s != [] {
      Utf8Wide(s[..|s| - 1]);
    }
  }

  /** Convert.ToHexString writes hexadecimal digits only. */
  lemma {:induction false} HexOfBytesHex(b: seq<byte>)
    ensures AllHex(HexOfBytes(b))
  {
    if b != [] {
      HexOfBytesHex(b[..|b| - 1]);
      RenderFacts(b[|b| - 1], 2);
      HexAppend(HexOfBytes(b[..|b| - 1]), Render(b[|b| - 1], 2));
    }
  }

  /** The header text as written: specificHeader cut to maxData characters
      and encoded, or else the header data read from the file. The cut
      counts characters, so a header of wider characters encodes to more
      than maxData bytes. */
  function HeaderTextAsWritten(p: Params, specificHeader: string, headerData: string): string
    requires p.maxData >= 0
  {
    if specificHeader != "" then StringToHexString(specificHeader[..Min(|specificHeader|, p.maxData)])
    else headerData
  }

  /** The header text, with the encoded header also cut to maxData bytes. */
  function HeaderText(p: Params, specificHeader: string, headerData: string): string
    requires p.maxData >= 0
  {
    var t := HeaderTextAsWritten(p, specificHeader, headerData);
    if specificHeader != "" then t[..Min(|t|, 2 * p.maxData)] else t
  }

  /** A given header becomes at most maxData bytes of hexadecimal text; an
      ASCII header is the one written as is; otherwise the file's header
      data is used. */
  lemma {:induction false} HeaderTextFacts(p: Params, specificHeader: string, headerData: string)
    requires p.maxData >= 0
    ensures specificHeader == "" ==> HeaderText(p, specificHeader, headerData) == headerData
    ensures specificHeader != "" ==>
      var h := HeaderText(p, specificHeader, headerData);
      AllHex(h) && |h| % 2 == 0 && |h| <= 2 * p.maxData
    ensures Ascii(specificHeader) ==>
      HeaderText(p, specificHeader, headerData) == HeaderTextAsWritten(p, specificHeader, headerData)
  {
    if specificHeader != "" {
      HeaderTextHex(p, specificHeader, headerData);
      if Ascii(specificHeader) {
        HeaderTextAscii(p, specificHeader, headerData);
      }
    }
  }

  /** The encoded header: even hexadecimal text, at most maxData bytes. */
  lemma {:induction false} HeaderTextHex(p: Params, specificHeader: string, headerData: string)
    requires p.maxData >= 0 && specificHeader != ""
    ensures var h := HeaderText(p, specificHeader, headerData);
      AllHex(h) && |h| % 2 == 0 && |h| <= 2 * p.maxData
  {
    var cut := specificHeader[..Min(|specificHeader|, p.maxData)];
    var t := HeaderTextAsWritten(p, specificHeader, headerData);
    if cut == "" {
      assert t == "";
    } else {
      HexOfBytesHex(Utf8(cut));
      assert t == HexOfBytes(Utf8(cut));
    }
    SliceHex(t, 0, Min(|t|, 2 * p.maxData));
  }

  /** An ASCII header encodes to one byte per character, so the cut
      changes nothing. */
  lemma {:induction false} HeaderTextAscii(p: Params, specificHeader: string, headerData: string)
    requires p.maxData >= 0 && specificHeader != "" && Ascii(specificHeader)
    ensures HeaderText(p, specificHeader, headerData) == HeaderTextAsWritten(p, specificHeader, headerData)
  {
    var cut := specificHeader[..Min(|specificHeader|, p.maxData)];
    assert Ascii(cut) by {
      forall i | 0 <= i < |cut| ensures (cut[i] as int) < 0x80 { assert cut[i] == specificHeader[i]; }
    }
    Utf8Ascii(cut);
  }

  /** As written, 85 characters of three UTF-8 bytes each fit the 250
      characters a 4-byte address leaves, but encode to 255 bytes: the
      header's byte count 258 needs three digits and the header record
      throws. */
  lemma HeaderTextAsWrittenOverflow()
    ensures var p := SRecParams(4, 32, "");
            var sh := seq(85, _ => '\U{30A2}');
            SRecHeaderLine(HeaderTextAsWritten(p, sh, "")).Err? &&
            SRecHeaderLine(HeaderText(p, sh, "")).Ok?
  {
    var sh: string := seq(85, _ => '\U{30A2}');
    WideHeaderThrows(sh);
    WideHeaderCut(sh);
  }

  /** The 85 wide characters, encoded uncut, make a header record whose
      byte count needs three digits. */
  lemma {:induction false} WideHeaderThrows(sh: string)
    requires sh == seq(85, _ => '\U{30A2}')
    ensures SRecHeaderLine(HeaderTextAsWritten(SRecParams(4, 32, ""), sh, "")).Err?
  {
    var p := SRecParams(4, 32, "");
    assert sh[..Min(|sh|, p.maxData)] == sh;
    Utf8Wide(sh);
    HexOfBytesHex(Utf8(sh));
    var h := HeaderTextAsWritten(p, sh, "");
    assert |h| == 510;
    RenderWidth(258, 2, 3);
    assert "0000" == Zeros(4);
    OddBody(Render(258, 2), "0000", h);
  }

  /** The same header cut to maxData bytes makes a record. */
  lemma {:induction false} WideHeaderCut(sh: string)
    requires sh == seq(85, _ => '\U{30A2}')
    ensures SRecHeaderLine(HeaderText(SRecParams(4, 32, ""), sh, "")).Ok?
  {
    var p := SRecParams(4, 32, "");
    HeaderTextFacts(p, sh, "");
    SRecHeaderLineReads(HeaderText(p, sh, ""));
  }

  // ---------------------------------------------------------------------------
  // ExportRangeToFile (S-record)

  /** What an export comes to: the lines written and true; false, when the
      range is empty or a checksum throws inside the try block; or an
      exception of ExtractDataRange, which is called outside it. */
  datatype Outcome = Written(lines: seq<string>) | Declined | Raised(fault: ExtractFault)

  /** The address text the records count from. */
  function StartText(newStart: string, startAddress: string): string {
    if newStart != "" then newStart else startAddress
  }

  /** ExportRangeToFile of an S-record file, as written: the parameters
      of SRecParamsAsWritten and the header of HeaderTextAsWritten. */
  function SRecExport(src: Source, startAddress: string, endAddress: string, addressLength: int,
                      dataLength: int, newStartAddress: string, specificHeader: string,
                      insertLinesCount: bool): Outcome
  {
    var p := SRecParamsAsWritten(addressLength, dataLength, newStartAddress);
    match ExtractDataRange(src, HexToLong(startAddress), HexToLong(endAddress))
    case Err(x) => Raised(x)
    case Ok(data) =>
      if data == "" then Declined
      else
        match SRecLines(p, HeaderTextAsWritten(p, specificHeader, src.headerData), data,
                        HexToLong(StartText(p.newStart, startAddress)), insertLinesCount)
        case Err(_) => Declined
        case Ok(lines) => Written(lines)
  }

  /** ExportRangeToFile of an S-record file, corrected: the width settled
      before the record length is bounded, and the encoded header cut to
      the bytes one header record holds. */
  function SRecExportCorrected(src: Source, startAddress: string, endAddress: string, addressLength: int,
                               dataLength: int, newStartAddress: string, specificHeader: string,
                               insertLinesCount: bool): Outcome
  {
    var p := SRecParams(addressLength, dataLength, newStartAddress);
    SRecParamsBounds(addressLength, dataLength, newStartAddress);
    match ExtractDataRange(src, HexToLong(startAddress), HexToLong(endAddress))
    case Err(x) => Raised(x)
    case Ok(data) =>
      if data == "" then Declined
      else
        match SRecLines(p, HeaderText(p, specificHeader, src.headerData), data,
                        HexToLong(StartText(p.newStart, startAddress)), insertLinesCount)
        case Err(_) => Declined
        case Ok(lines) => Written(lines)
  }

  /** SRecLines depends on the parameters only through the width and the
      record length. */
  lemma {:induction false} SRecDataLinesParams(p: Params, q: Params, data: string, a0: int, k: nat)
    requires p.chunk >= 1 && p.width == q.width && p.chunk == q.chunk && k <= LineCount(|data|, p.chunk)
    ensures SRecDataLines(p, data, a0, k) == SRecDataLines(q, data, a0, k)
  {
    if k > 0 {
      SRecDataLinesParams(p, q, data, a0, k - 1);
    }
  }

  lemma {:induction false} SRecLinesParams(p: Params, q: Params, hdr: string, data: string, a0: int, insertLinesCount: bool)
    requires p.chunk >= 1 && p.width == q.width && p.chunk == q.chunk
    ensures SRecLines(p, hdr, data, a0, insertLinesCount) == SRecLines(q, hdr, data, a0, insertLinesCount)
  {
    SRecDataLinesParams(p, q, data, a0, LineCount(|data|, p.chunk));
  }

  /** Where the two normalisations meet: a new start address that does not
      widen the address field or has an even number of digits, a record
      length both bounds accept or both refuse, and an ASCII header that
      neither cut shortens (or that both cut alike). There the export as
      written and the corrected export write the same lines. */
  lemma {:induction false} SRecExportAgrees(src: Source, startAddress: string, endAddress: string, addressLength: int,
                                            dataLength: int, newStartAddress: string, specificHeader: string,
                                            insertLinesCount: bool)
    requires var w0 := NormalWidth(addressLength);
             newStartAddress == "" || !AllHex(newStartAddress) || |newStartAddress| > 8 ||
             |newStartAddress| <= 2 * w0 || |newStartAddress| % 2 == 0
    requires var w := SRecParams(addressLength, dataLength, newStartAddress).width;
             dataLength < 1 || dataLength <= 254 - w || dataLength > 254 - NormalWidth(addressLength)
    requires var w := SRecParams(addressLength, dataLength, newStartAddress).width;
             Ascii(specificHeader) && (|specificHeader| <= 254 - w || w == NormalWidth(addressLength))
    ensures SRecExport(src, startAddress, endAddress, addressLength, dataLength, newStartAddress,
                       specificHeader, insertLinesCount) ==
            SRecExportCorrected(src, startAddress, endAddress, addressLength, dataLength, newStartAddress,
                                specificHeader, insertLinesCount)
  {
    var pa := SRecParamsAsWritten(addressLength, dataLength, newStartAddress);
    var pc := SRecParams(addressLength, dataLength, newStartAddress);
    SRecInputsAgree(addressLength, dataLength, newStartAddress, specificHeader, src.headerData);
    var ha := HeaderTextAsWritten(pa, specificHeader, src.headerData);
    var a0 := HexToLong(StartText(pa.newStart, startAddress));
    var ex := ExtractDataRange(src, HexToLong(startAddress), HexToLong(endAddress));
    if ex.Ok? && ex.value != "" {
      SRecLinesParams(pa, pc, ha, ex.value, a0, insertLinesCount);
    }
  }

  /** Under SRecExportAgrees' conditions both exports settle on the same
      width, record length, start address and header text. */
  lemma {:induction false} SRecInputsAgree(addressLength: int, dataLength: int, newStartAddress: string,
                                           specificHeader: string, headerData: string)
    requires var w0 := NormalWidth(addressLength);
             newStartAddress == "" || !AllHex(newStartAddress) || |newStartAddress| > 8 ||
             |newStartAddress| <= 2 * w0 || |newStartAddress| % 2 == 0
    requires var w := SRecParams(addressLength, dataLength, newStartAddress).width;
             dataLength < 1 || dataLength <= 254 - w || dataLength > 254 - NormalWidth(addressLength)
    requires var w := SRecParams(addressLength, dataLength, newStartAddress).width;
             Ascii(specificHeader) && (|specificHeader| <= 254 - w || w == NormalWidth(addressLength))
    ensures var pa := SRecParamsAsWritten(addressLength, dataLength, newStartAddress);
      var pc := SRecParams(addressLength, dataLength, newStartAddress);
      pa.width == pc.width && pa.chunk == pc.chunk && pa.newStart == pc.newStart && pc.chunk >= 1 &&
      HeaderText(pc, specificHeader, headerData) == HeaderTextAsWritten(pa, specificHeader, headerData)
  {
    var pa := SRecParamsAsWritten(addressLength, dataLength, newStartAddress);
    var pc := SRecParams(addressLength, dataLength, newStartAddress);
    SRecParamsBounds(addressLength, dataLength, newStartAddress);
    assert pa.width == pc.width && pa.chunk == pc.chunk && pa.newStart == pc.newStart;
    HeaderTextFacts(pc, specificHeader, headerData);
    if specificHeader != "" {
      assert specificHeader[..Min(|specificHeader|, pa.maxData)] == specificHeader[..Min(|specificHeader|, pc.maxData)];
    }
  }

  /** The loop over the data records. */
  method SRecWriteData(p: Params, data: string, a0: int) returns (r: Result<seq<string>, ChecksumFault>)
    requires p.chunk >= 1
    ensures r == SRecDataLines(p, data, a0, LineCount(|data|, p.chunk))
  {
    var currentAddress := a0;
    var maxDataLines := LineCount(|data|, p.chunk);
    var records: seq<string> := [];
    for i := 0 to maxDataLines
      invariant currentAddress == RecordAddress(a0, p.chunk, i)
      invariant SRecDataLines(p, data, a0, i) == Ok(records)
    {
      var line := SRecDataRecord(p, data, a0, i, currentAddress);
      DataLinesSnoc(p, data, a0, i, records, line);
      if line.Err? {
        SRecDataLinesFail(p, data, a0, i + 1, maxDataLines);
        return Err(line.error);
      }
      records := records + [line.value];
      currentAddress := currentAddress + p.chunk;
    }
    return Ok(records);
  }

  /** The body of the loop over the data records: record i, cut from the
      data at i * 2 * dl. */
  method SRecDataRecord(p: Params, data: string, a0: int, i: nat, currentAddress: int)
    returns (line: Result<string, ChecksumFault>)
    requires p.chunk >= 1 && i < LineCount(|data|, p.chunk) && currentAddress == RecordAddress(a0, p.chunk, i)
    ensures line == SRecDataLineAt(p, data, a0, i)
  {
    ChunkStart(|data|, p.chunk, i);
    var startIndex := i * 2 * p.chunk;
    var dataLineLength := Min(p.chunk * 2, |data| - startIndex);
    DataLineAtIndex(p, data, a0, i, currentAddress, startIndex, dataLineLength);
    line := SRecDataLine(p.width, currentAddress, data[startIndex..startIndex + dataLineLength]);
  }

  /** One more record on a run of records that succeeded. */
  lemma {:induction false} DataLinesSnoc(p: Params, data: string, a0: int, i: nat, records: seq<string>,
                                         line: Result<string, ChecksumFault>)
    requires p.chunk >= 1 && i < LineCount(|data|, p.chunk)
    requires SRecDataLines(p, data, a0, i) == Ok(records) && line == SRecDataLineAt(p, data, a0, i)
    ensures line.Err? ==> SRecDataLines(p, data, a0, i + 1) == Err(line.error)
    ensures line.Ok? ==> SRecDataLines(p, data, a0, i + 1) == Ok(records + [line.value])
  {
  }

  /** The loop's index arithmetic picks record i. */
  lemma {:induction false} DataLineAtIndex(p: Params, data: string, a0: int, i: nat, addr: int, st: int, len: int)
    requires p.chunk >= 1 && i < LineCount(|data|, p.chunk)
    requires addr == RecordAddress(a0, p.chunk, i) && st == i * 2 * p.chunk && len == Min(p.chunk * 2, |data| - st)
    ensures 0 <= st <= st + len <= |data|
    ensures SRecDataLine(p.width, addr, data[st..st + len]) == SRecDataLineAt(p, data, a0, i)
  {
    ChunkStart(|data|, p.chunk, i);
    assert st == i * (2 * p.chunk);
    assert p.chunk * 2 == 2 * p.chunk;
    assert ChunkAt(data, p.chunk, i) == data[st..st + len];
  }

  /** Header, data records, count and termination record, in that order. */
  method SRecWriteLines(p: Params, hdr: string, data: string, a0: int, insertLinesCount: bool)
    returns (r: Result<seq<string>, ChecksumFault>)
    requires p.chunk >= 1
    ensures r.Ok? <==> SRecLines(p, hdr, data, a0, insertLinesCount).Ok?
    ensures r.Ok? ==> r == SRecLines(p, hdr, data, a0, insertLinesCount)
  {
    var head := SRecHeaderLine(hdr);
    if head.Err? {
      return Err(head.error);
    }
    var records := SRecWriteData(p, data, a0);
    if records.Err? {
      return Err(records.error);
    }
    var count := if insertLinesCount then SRecCountLine(LineCount(|data|, p.chunk)) else Ok("");
    if count.Err? {
      return Err(count.error);
    }
    var end := SRecEndLine(p.width);
    if end.Err? {
      return Err(end.error);
    }
    return Ok([head.value] + records.value + (if insertLinesCount then [count.value] else []) + [end.value]);
  }

  /** ExportRangeToFile of an S-record file, as written. */
  method SRecExportRangeToFile(src: Source, startAddress: string, endAddress: string, addressLength: int,
                               dataLength: int, newStartAddress: string, specificHeader: string,
                               insertLinesCount: bool) returns (o: Outcome)
    ensures o == SRecExport(src, startAddress, endAddress, addressLength, dataLength,
                            newStartAddress, specificHeader, insertLinesCount)
  {
    var p := SRecParamsAsWritten(addressLength, dataLength, newStartAddress);
    var extracted := ExtractDataRange(src, HexToLong(startAddress), HexToLong(endAddress));
    if extracted.Err? {
      return Raised(extracted.error);
    }
    var data := extracted.value;
    if data == "" {
      return Declined;
    }
    var hdr := HeaderTextAsWritten(p, specificHeader, src.headerData);
    var lines := SRecWriteLines(p, hdr, data, HexToLong(StartText(p.newStart, startAddress)), insertLinesCount);
    if lines.Err? {
      return Declined;
    }
    o := Written(lines.value);
  }

  // ---------------------------------------------------------------------------
  // The exported S-record lines read back

  /** The checksum of a hexadecimal body of whole bytes: two digits, and
      for the one's complement it never throws. */
  lemma {:induction false} BodyChecksum(body: string, ones: bool)
    requires AllHex(body) && |body| % 2 == 0 && (ones || ByteSum(body) > 0)
    ensures Checksum(body, ones).Ok?
    ensures |Checksum(body, ones).value| == 2 && AllHex(Checksum(body, ones).value)
  {
    ChecksumFailures(body, ones);
    if ones {
      RenderFacts(255 - ByteSum(body) % 256, 2);
    } else {
      RenderFacts((256 - ByteSum(body) % 256) % 256, 2);
    }
    assert Pow16(2) == 256;
  }

  /** The fields the serialiser writes make a well-formed S-record. */
  lemma {:induction false} SRecShapedOf(t: string, bc: nat, address: string, data: string, c: string)
    requires t in AddressLengths(SRec) && |t| == 1 && AllDecimal(t)
    requires |address| == AddressLengths(SRec)[t] && AllHex(address)
    requires AllHex(data) && |data| % 2 == 0
    requires bc == (|address| + |data| + 2) / 2 && bc < 256
    requires Checksum(Render(bc, 2) + address + data, true) == Ok(c) && |c| == 2 && AllHex(c)
    ensures Shaped(SRec, Record(t, Render(bc, 2), bc, |address|, address, HexValue(address), data, c, c))
  {
    RenderFacts(bc, 2);
    assert Pow16(2) == 256;
    var r := Record(t, Render(bc, 2), bc, |address|, address, HexValue(address), data, c, c);
    ChecksumFieldsText(SRec, r);
  }

  /** The record an S-record line holds, given its checksum. */
  function SRecRecord(t: string, bc: nat, address: string, data: string, c: string): Record
    requires AllHex(address)
  {
    Record(t, Render(bc, 2), bc, |address|, address, HexValue(address), data, c, c)
  }

  /** An S-record line built as the serialiser builds it, from a type code,
      a byte count that fits one byte and matches the fields, an address of
      the type's width and even hexadecimal data, is the assembly of a
      well-formed record holding those fields, with a checksum that verifies
      (so it passes CheckLine and parses back: Formats.AssembleParses). */
  lemma {:induction false} SRecLineParses(t: string, bc: nat, address: string, data: string)
    requires t in AddressLengths(SRec) && |t| == 1 && AllDecimal(t)
    requires |address| == AddressLengths(SRec)[t] && AllHex(address)
    requires AllHex(data) && |data| % 2 == 0
    requires bc == (|address| + |data| + 2) / 2 && bc < 256
    ensures Checksum(Render(bc, 2) + address + data, true).Ok?
    ensures var r := SRecRecord(t, bc, address, data, Checksum(Render(bc, 2) + address + data, true).value);
      Shaped(SRec, r) && Line("S" + t, Render(bc, 2) + address + data, true) == Ok(Assemble(SRec, r))
  {
    var b := Render(bc, 2);
    RenderFacts(bc, 2);
    HexAppend(b, address);
    HexAppend(b + address, data);
    var body := b + address + data;
    BodyChecksum(body, true);
    var c := Checksum(body, true).value;
    SRecShapedOf(t, bc, address, data, c);
    SRecLineText(SRecRecord(t, bc, address, data, c), c);
  }

  /** The serialiser's text of an S-record line is the assembly of its fields. */
  lemma {:induction false} SRecLineText(r: Record, c: string)
    requires Checksum(r.byteCount + r.address + r.data, true) == Ok(c) && r.checksum == c
    ensures Line("S" + r.typ, r.byteCount + r.address + r.data, true) == Ok(Assemble(SRec, r))
  {
    AssembleText(SRec, r);
    var body := r.byteCount + r.address + r.data;
    assert Line("S" + r.typ, body, true) == Ok(("S" + r.typ) + body + c);
    assert ("S" + r.typ) + body + c == ['S'] + r.typ + r.byteCount + r.address + r.data + r.checksum;
  }

  /** line is a well-formed record of format f and of the given type whose
      address field holds addr and whose data field holds data, with a
      checksum that verifies. */
  predicate ReadsAs(f: Format, line: string, ty: RecordType, addr: int, data: string) {
    CheckLine(f, line) == NoError && ParseLine(f, line).Ok? &&
    var r := ParseLine(f, line).value;
    GetRecordType(f, r.typ) == ty && r.addressLong == addr && r.data == data &&
    r.checksum == r.checksumCalc
  }

  /** Through AssembleParses: the line of a well-formed record reads back. */
  lemma {:induction false} AssembledReadsAs(f: Format, r: Record, ty: RecordType)
    requires Shaped(f, r) && GetRecordType(f, r.typ) == ty && r.checksum == r.checksumCalc
    ensures ReadsAs(f, Assemble(f, r), ty, r.addressLong, r.data)
  {
    AssembleParses(f, r);
  }

  /** SRecLineParses and AssembleParses together, for a line whose head is
      "S" and the type code. */
  lemma {:induction false} SRecTypedLineReads(head: string, t: string, bc: nat, address: string, data: string, ty: RecordType)
    requires head == "S" + t && GetRecordType(SRec, t) == ty
    requires t in AddressLengths(SRec) && |t| == 1 && AllDecimal(t)
    requires |address| == AddressLengths(SRec)[t] && AllHex(address)
    requires AllHex(data) && |data| % 2 == 0
    requires bc == (|address| + |data| + 2) / 2 && bc < 256
    ensures Line(head, Render(bc, 2) + address + data, true).Ok?
    ensures ReadsAs(SRec, Line(head, Render(bc, 2) + address + data, true).value, ty, HexValue(address), data)
  {
    SRecLineParses(t, bc, address, data);
    var r := SRecRecord(t, bc, address, data, Checksum(Render(bc, 2) + address + data, true).value);
    AssembledReadsAs(SRec, r, ty);
  }

  /** A data record of a 2- to 4-byte address field, whose address fits the
      field and whose byte count fits one byte, reads back as a data record
      at that address holding the chunk. */
  lemma {:induction false} SRecDataLineReads(w: nat, addr: int, chunk: string)
    requires 2 <= w <= 4 && 0 <= addr < Pow16(2 * w)
    requires AllHex(chunk) && |chunk| % 2 == 0 && 1 + w + |chunk| / 2 <= 255
    ensures SRecDataLine(w, addr, chunk).Ok?
    ensures ReadsAs(SRec, SRecDataLine(w, addr, chunk).value, Data, addr, chunk)
  {
    LongRenderFacts(addr, 2 * w);
    DataTypeFacts(w);
    var t, bc := DataTypeDigit(w), 1 + w + |chunk| / 2;
    assert bc == (2 * w + |chunk| + 2) / 2;
    SRecTypedLineReads("S" + t, t, bc, LongRender(addr, 2 * w), chunk, Data);
  }

  /** The type digit of a data record of a w-byte address field. */
  function DataTypeDigit(w: nat): string {
    if w == 2 then "1" else if w == 3 then "2" else "3"
  }

  lemma DataTypeFacts(w: nat)
    requires 2 <= w <= 4
    ensures var t := DataTypeDigit(w);
      DataHeader(w) == "S" + t && GetRecordType(SRec, t) == Data && |t| == 1 && AllDecimal(t) &&
      t in AddressLengths(SRec) && AddressLengths(SRec)[t] == 2 * w
  {
  }

  /** The header record reads back as a header holding the header text. */
  lemma {:induction false} SRecHeaderLineReads(hdr: string)
    requires AllHex(hdr) && |hdr| % 2 == 0 && 3 + |hdr| / 2 <= 255
    ensures SRecHeaderLine(hdr).Ok?
    ensures ReadsAs(SRec, SRecHeaderLine(hdr).value, Header, 0, hdr)
  {
    assert "0000" == Zeros(4);
    ZerosValue(4);
    SRecTypedLineReads("S0", "0", 3 + |hdr| / 2, "0000", hdr, Header);
  }

  /** The count record reads back as a count record holding n in its
      address field, for counts below 16^6. */
  lemma {:induction false} SRecCountLineReads(n: nat)
    requires n < Pow16(6)
    ensures SRecCountLine(n).Ok?
    ensures ReadsAs(SRec, SRecCountLine(n).value, LinesCount, n, "")
  {
    if n <= 65535 {
      CountLineReads(n, "5", 3);
    } else {
      CountLineReads(n, "6", 4);
    }
  }

  /** One case of SRecCountLineReads: type code t, byte count bc. */
  lemma {:induction false} CountLineReads(n: nat, t: string, bc: nat)
    requires t in AddressLengths(SRec) && |t| == 1 && AllDecimal(t)
    requires GetRecordType(SRec, t) == LinesCount
    requires 3 <= bc <= 4 && AddressLengths(SRec)[t] == 2 * (bc - 1) && n < Pow16(2 * (bc - 1))
    requires bc == (if n <= 65535 then 3 else 4) && "S" + t == (if n <= 65535 then "S5" else "S6")
    ensures SRecCountLine(n).Ok?
    ensures ReadsAs(SRec, SRecCountLine(n).value, LinesCount, n, "")
  {
    RenderFacts(n, 2 * (bc - 1));
    EmptyBodyReads(t, bc, Render(n, 2 * (bc - 1)), LinesCount);
  }

  /** SRecTypedLineReads for a record without data. */
  lemma {:induction false} EmptyBodyReads(t: string, bc: nat, address: string, ty: RecordType)
    requires t in AddressLengths(SRec) && |t| == 1 && AllDecimal(t) && GetRecordType(SRec, t) == ty
    requires |address| == AddressLengths(SRec)[t] && AllHex(address)
    requires bc == (|address| + 2) / 2 && bc < 256
    ensures Line("S" + t, Render(bc, 2) + address, true).Ok?
    ensures ReadsAs(SRec, Line("S" + t, Render(bc, 2) + address, true).value, ty, HexValue(address), "")
  {
    SRecTypedLineReads("S" + t, t, bc, address, "", ty);
    assert Render(bc, 2) + address + "" == Render(bc, 2) + address;
  }

  /** The termination record reads back with address 0 and no data; its type
      is one GetRecordType leaves unclassified. */
  lemma {:induction false} SRecEndLineReads(w: nat)
    requires 2 <= w <= 4
    ensures SRecEndLine(w).Ok?
    ensures ReadsAs(SRec, SRecEndLine(w).value, Other, 0, "")
  {
    if w == 2 {
      EndLineReads(w, "9");
    } else if w == 3 {
      EndLineReads(w, "8");
    } else {
      EndLineReads(w, "7");
    }
  }

  /** One case of SRecEndLineReads: type code t. */
  lemma {:induction false} EndLineReads(w: nat, t: string)
    requires 2 <= w <= 4 && EndHeader(w) == "S" + t
    requires t in AddressLengths(SRec) && |t| == 1 && AllDecimal(t)
    requires GetRecordType(SRec, t) == Other && AddressLengths(SRec)[t] == 2 * w
    ensures SRecEndLine(w).Ok?
    ensures ReadsAs(SRec, SRecEndLine(w).value, Other, 0, "")
  {
    RenderFacts(0, 2 * w);
    EmptyBodyReads(t, 1 + w, Render(0, 2 * w), Other);
  }

  // ---------------------------------------------------------------------------
  // The S-record file read back

  /** The data of the first k records. */
  function Chunks(data: string, dl: nat, k: nat): (cs: seq<string>)
    requires dl >= 1 && k <= LineCount(|data|, dl)
    ensures |cs| == k
  {
    if k == 0 then [] else Chunks(data, dl, k - 1) + [ChunkAt(data, dl, k - 1)]
  }

  /** LineCount records of 2 * dl characters cover the data. */
  lemma {:induction false} LineCountCovers(n: nat, dl: nat)
    requires dl >= 1
    ensures n <= LineCount(n, dl) * (2 * dl)
  {
    var q, m := n / (2 * dl), n % (2 * dl);
    assert n == q * (2 * dl) + m;
    if m > 0 {
      assert LineCount(n, dl) * (2 * dl) == q * (2 * dl) + 2 * dl;
    }
  }

  /** The first k records hold the data up to character 2 * dl * k. */
  lemma {:induction false} ChunksPrefix(data: string, dl: nat, k: nat)
    requires dl >= 1 && k <= LineCount(|data|, dl)
    ensures Concat(Chunks(data, dl, k)) == data[..Min(k * (2 * dl), |data|)]
  {
    if k > 0 {
      ChunksPrefix(data, dl, k - 1);
      var st := (k - 1) * (2 * dl);
      ChunkStart(|data|, dl, k - 1);
      var len := Min(2 * dl, |data| - st);
      PrefixArith(|data|, dl, k, st, len);
      assert Concat(Chunks(data, dl, k - 1)) == data[..st];
      ChunksSnoc(data, dl, k);
      assert ChunkAt(data, dl, k - 1) == data[st..st + len];
      PrefixStep(data, st, len);
      assert Concat(Chunks(data, dl, k)) == data[..st + len];
    }
  }

  lemma {:induction false} ChunksSnoc(data: string, dl: nat, k: nat)
    requires dl >= 1 && 1 <= k <= LineCount(|data|, dl)
    ensures Concat(Chunks(data, dl, k)) == Concat(Chunks(data, dl, k - 1)) + ChunkAt(data, dl, k - 1)
  {
    var cs := Chunks(data, dl, k);
    assert cs[..k - 1] == Chunks(data, dl, k - 1) && cs[k - 1] == ChunkAt(data, dl, k - 1);
  }

  lemma {:induction false} PrefixStep(data: string, st: nat, len: nat)
    requires st + len <= |data|
    ensures data[..st] + data[st..st + len] == data[..st + len]
  {
  }

  lemma PrefixArith(n: nat, dl: nat, k: nat, st: int, len: int)
    requires dl >= 1 && k >= 1 && st == (k - 1) * (2 * dl) && st < n && len == Min(2 * dl, n - st)
    ensures Min(st, n) == st && Min(k * (2 * dl), n) == st + len && 0 < len
  {
    assert k * (2 * dl) == st + 2 * dl;
  }

  /** The records' data, in order, is the exported data: nothing is lost,
      repeated or reordered. */
  lemma {:induction false} ChunksConcat(data: string, dl: nat)
    requires dl >= 1
    ensures Concat(Chunks(data, dl, LineCount(|data|, dl))) == data
  {
    LineCountCovers(|data|, dl);
    ChunksPrefix(data, dl, LineCount(|data|, dl));
  }

  /** Every record but the last is full. */
  lemma {:induction false} ChunkFull(data: string, dl: nat, i: nat)
    requires dl >= 1 && i + 1 < LineCount(|data|, dl)
    ensures |ChunkAt(data, dl, i)| == 2 * dl
  {
    ChunkStart(|data|, dl, i + 1);
    assert (i + 1) * (2 * dl) == i * (2 * dl) + 2 * dl;
  }

  lemma {:induction false} Twice(i: nat, dl: nat)
    ensures i * (2 * dl) == 2 * (i * dl)
  {
  }

  /** A chunk of even hexadecimal data is even hexadecimal, and starts below
      the data's byte length. */
  lemma {:induction false} ChunkHex(data: string, dl: nat, i: nat)
    requires dl >= 1 && i < LineCount(|data|, dl)
    requires AllHex(data) && |data| % 2 == 0
    ensures AllHex(ChunkAt(data, dl, i)) && |ChunkAt(data, dl, i)| % 2 == 0
    ensures i * dl < |data| / 2
  {
    ChunkArith(|data|, dl, i);
    var st := i * (2 * dl);
    SliceHex(data, st, st + Min(2 * dl, |data| - st));
  }

  /** Record i of data of even length n starts at an even offset inside the
      data and has an even length. */
  lemma {:induction false} ChunkArith(n: nat, dl: nat, i: nat)
    requires dl >= 1 && i < LineCount(n, dl) && n % 2 == 0
    ensures var st := i * (2 * dl);
      st < n && Min(2 * dl, n - st) % 2 == 0 && i * dl < n / 2
  {
    ChunkStart(n, dl, i);
    Twice(i, dl);
    var p, st := i * dl, i * (2 * dl);
    assert st == 2 * p;
    EvenSplit(n, st, n - st);
  }

  /** Record i reads back as a data record at a0 + i * dl holding its chunk,
      when the data's addresses fit the address field. */
  lemma {:induction false} DataLineAtReads(p: Params, data: string, a0: int, i: nat)
    requires 2 <= p.width <= 4 && p.chunk >= 1 && 1 + p.width + p.chunk <= 255
    requires AllHex(data) && |data| % 2 == 0
    requires 0 <= a0 && a0 + |data| / 2 <= Pow16(2 * p.width)
    requires i < LineCount(|data|, p.chunk)
    ensures SRecDataLineAt(p, data, a0, i).Ok?
    ensures ReadsAs(SRec, SRecDataLineAt(p, data, a0, i).value, Data, RecordAddress(a0, p.chunk, i), ChunkAt(data, p.chunk, i))
  {
    ChunkHex(data, p.chunk, i);
    RecordAddressIs(a0, p.chunk, i);
    SRecDataLineReads(p.width, RecordAddress(a0, p.chunk, i), ChunkAt(data, p.chunk, i));
  }

  /** The first k data records number k. */
  lemma {:induction false} SRecDataLinesLength(p: Params, data: string, a0: int, k: nat)
    requires p.chunk >= 1 && k <= LineCount(|data|, p.chunk)
    requires SRecDataLines(p, data, a0, k).Ok?
    ensures |SRecDataLines(p, data, a0, k).value| == k
  {
    if k > 0 {
      SRecDataLinesLength(p, data, a0, k - 1);
    }
  }

  /** Record i of the first k is SRecDataLineAt(i). */
  lemma {:induction false} SRecDataLinesIndex(p: Params, data: string, a0: int, k: nat, i: nat)
    requires p.chunk >= 1 && i < k <= LineCount(|data|, p.chunk)
    requires SRecDataLines(p, data, a0, k).Ok?
    ensures |SRecDataLines(p, data, a0, k).value| == k
    ensures SRecDataLineAt(p, data, a0, i) == Ok(SRecDataLines(p, data, a0, k).value[i])
  {
    SRecDataLinesLength(p, data, a0, k);
    var prev := SRecDataLines(p, data, a0, k - 1);
    var l := SRecDataLineAt(p, data, a0, k - 1);
    var ls := SRecDataLines(p, data, a0, k).value;
    assert prev.Ok? && l.Ok? && ls == prev.value + [l.value];
    if i < k - 1 {
      SRecDataLinesIndex(p, data, a0, k - 1, i);
      assert ls[i] == prev.value[i];
    } else {
      assert ls[i] == l.value;
    }
  }

  /** No checksum throws while the data's addresses fit the address field. */
  lemma {:induction false} SRecDataLinesOk(p: Params, data: string, a0: int, k: nat)
    requires 2 <= p.width <= 4 && p.chunk >= 1 && 1 + p.width + p.chunk <= 255
    requires AllHex(data) && |data| % 2 == 0
    requires 0 <= a0 && a0 + |data| / 2 <= Pow16(2 * p.width)
    requires k <= LineCount(|data|, p.chunk)
    ensures SRecDataLines(p, data, a0, k).Ok?
  {
    forall i | 0 <= i < k
      ensures SRecDataLineAt(p, data, a0, i).Ok?
    {
      DataLineAtOk(p, data, a0, i);
    }
    DataLinesAllOk(p, data, a0, k);
  }

  /** The first k records render when each of them does. */
  lemma {:induction false} DataLinesAllOk(p: Params, data: string, a0: int, k: nat)
    requires p.chunk >= 1 && k <= LineCount(|data|, p.chunk)
    requires forall i :: 0 <= i < k ==> SRecDataLineAt(p, data, a0, i).Ok?
    ensures SRecDataLines(p, data, a0, k).Ok?
  {
    if k > 0 {
      DataLinesAllOk(p, data, a0, k - 1);
    }
  }

  lemma {:induction false} DataLineAtOk(p: Params, data: string, a0: int, i: nat)
    requires 2 <= p.width <= 4 && p.chunk >= 1 && 1 + p.width + p.chunk <= 255
    requires AllHex(data) && |data| % 2 == 0
    requires 0 <= a0 && a0 + |data| / 2 <= Pow16(2 * p.width)
    requires i < LineCount(|data|, p.chunk)
    ensures SRecDataLineAt(p, data, a0, i).Ok?
  {
    DataLineAtReads(p, data, a0, i);
  }

  /** The data records read back, record i at RecordAddress(a0, dl, i)
      holding ChunkAt(data, dl, i). */
  lemma {:induction false} SRecDataLinesRead(p: Params, data: string, a0: int)
    requires 2 <= p.width <= 4 && p.chunk >= 1 && 1 + p.width + p.chunk <= 255
    requires AllHex(data) && |data| % 2 == 0
    requires 0 <= a0 && a0 + |data| / 2 <= Pow16(2 * p.width)
    ensures SRecDataLines(p, data, a0, LineCount(|data|, p.chunk)).Ok?
    ensures |SRecDataLines(p, data, a0, LineCount(|data|, p.chunk)).value| == LineCount(|data|, p.chunk)
    ensures forall i :: 0 <= i < LineCount(|data|, p.chunk) ==>
      ReadsAs(SRec, SRecDataLines(p, data, a0, LineCount(|data|, p.chunk)).value[i], Data,
              RecordAddress(a0, p.chunk, i), ChunkAt(data, p.chunk, i))
  {
    var n := LineCount(|data|, p.chunk);
    SRecDataLinesOk(p, data, a0, n);
    SRecDataLinesLength(p, data, a0, n);
    forall i | 0 <= i < n
      ensures ReadsAs(SRec, SRecDataLines(p, data, a0, n).value[i], Data, RecordAddress(a0, p.chunk, i), ChunkAt(data, p.chunk, i))
    {
      SRecDataLinesIndex(p, data, a0, n, i);
      DataLineAtReads(p, data, a0, i);
    }
  }

  /** The whole S-record file reads back: the header record holding the
      header text, the data records in order, the count record holding
      their number when asked for, and a termination record last. */
  lemma {:induction false} SRecLinesRead(p: Params, hdr: string, data: string, a0: int, insertLinesCount: bool)
    requires 2 <= p.width <= 4 && p.chunk >= 1 && 1 + p.width + p.chunk <= 255
    requires AllHex(hdr) && |hdr| % 2 == 0 && 3 + |hdr| / 2 <= 255
    requires AllHex(data) && |data| % 2 == 0
    requires 0 <= a0 && a0 + |data| / 2 <= Pow16(2 * p.width)
    requires insertLinesCount ==> LineCount(|data|, p.chunk) < Pow16(6)
    ensures SRecLines(p, hdr, data, a0, insertLinesCount).Ok?
    ensures var ls := SRecLines(p, hdr, data, a0, insertLinesCount).value;
            var n := LineCount(|data|, p.chunk);
            |ls| == n + (if insertLinesCount then 3 else 2) &&
            ReadsAs(SRec, ls[0], Header, 0, hdr) &&
            (forall i :: 0 <= i < n ==> ls[1 + i] == SRecDataLines(p, data, a0, n).value[i]) &&
            (insertLinesCount ==> ReadsAs(SRec, ls[n + 1], LinesCount, n, "")) &&
            ReadsAs(SRec, ls[|ls| - 1], Other, 0, "")
  {
    var n := LineCount(|data|, p.chunk);
    SRecHeaderLineReads(hdr);
    SRecDataLinesOk(p, data, a0, n);
    if insertLinesCount {
      SRecCountLineReads(n);
    }
    SRecEndLineReads(p.width);
    SRecLinesParts(p, hdr, data, a0, insertLinesCount);
  }

  /** Where each part of SRecLines lands, when none throws. */
  lemma {:induction false} SRecLinesParts(p: Params, hdr: string, data: string, a0: int, insertLinesCount: bool)
    requires p.chunk >= 1
    requires SRecHeaderLine(hdr).Ok? && SRecEndLine(p.width).Ok?
    requires SRecDataLines(p, data, a0, LineCount(|data|, p.chunk)).Ok?
    requires insertLinesCount ==> SRecCountLine(LineCount(|data|, p.chunk)).Ok?
    ensures SRecLines(p, hdr, data, a0, insertLinesCount).Ok?
    ensures var ls := SRecLines(p, hdr, data, a0, insertLinesCount).value;
            var n := LineCount(|data|, p.chunk);
            |ls| == n + (if insertLinesCount then 3 else 2) &&
            ls[0] == SRecHeaderLine(hdr).value &&
            (forall i :: 0 <= i < n ==> ls[1 + i] == SRecDataLines(p, data, a0, n).value[i]) &&
            (insertLinesCount ==> ls[n + 1] == SRecCountLine(n).value) &&
            ls[|ls| - 1] == SRecEndLine(p.width).value
  {
    var n := LineCount(|data|, p.chunk);
    SRecDataLinesLength(p, data, a0, n);
    var h, ds, z := SRecHeaderLine(hdr).value, SRecDataLines(p, data, a0, n).value, SRecEndLine(p.width).value;
    var c := if insertLinesCount then [SRecCountLine(n).value] else [];
    assert SRecLines(p, hdr, data, a0, insertLinesCount) == Ok([h] + ds + c + [z]);
    Layout(h, ds, c, z);
  }

  lemma {:induction false} Layout(h: string, ds: seq<string>, c: seq<string>, z: string)
    ensures var ls := [h] + ds + c + [z];
            |ls| == |ds| + |c| + 2 && ls[0] == h && ls[|ls| - 1] == z &&
            (forall i :: 0 <= i < |ds| ==> ls[1 + i] == ds[i]) &&
            (|c| == 1 ==> ls[|ds| + 1] == c[0])
  {
  }

  /** The lines of SRecLines read back, the data records in order with
      chunks that make up the data. */
  lemma {:induction false} SRecLinesReadBack(p: Params, hdr: string, data: string, a0: int, insertLinesCount: bool)
    requires 2 <= p.width <= 4 && p.chunk >= 1 && 1 + p.width + p.chunk <= 255
    requires AllHex(hdr) && |hdr| % 2 == 0 && 3 + |hdr| / 2 <= 255
    requires AllHex(data) && |data| % 2 == 0
    requires 0 <= a0 && a0 + |data| / 2 <= Pow16(2 * p.width)
    requires insertLinesCount ==> LineCount(|data|, p.chunk) < Pow16(6)
    ensures SRecLines(p, hdr, data, a0, insertLinesCount).Ok?
    ensures var ls := SRecLines(p, hdr, data, a0, insertLinesCount).value;
            var n := LineCount(|data|, p.chunk);
            |ls| == n + (if insertLinesCount then 3 else 2) &&
            ReadsAs(SRec, ls[0], Header, 0, hdr) &&
            (forall i :: 0 <= i < n ==>
              ReadsAs(SRec, ls[1 + i], Data, RecordAddress(a0, p.chunk, i), ChunkAt(data, p.chunk, i))) &&
            Concat(Chunks(data, p.chunk, n)) == data &&
            (insertLinesCount ==> ReadsAs(SRec, ls[n + 1], LinesCount, n, "")) &&
            ReadsAs(SRec, ls[|ls| - 1], Other, 0, "")
  {
    var n := LineCount(|data|, p.chunk);
    SRecLinesRead(p, hdr, data, a0, insertLinesCount);
    SRecDataLinesRead(p, data, a0);
    ChunksConcat(data, p.chunk);
    var ls := SRecLines(p, hdr, data, a0, insertLinesCount).value;
    var ds := SRecDataLines(p, data, a0, n).value;
    forall i | 0 <= i < n
      ensures ReadsAs(SRec, ls[1 + i], Data, RecordAddress(a0, p.chunk, i), ChunkAt(data, p.chunk, i))
    {
      assert ls[1 + i] == ds[i];
    }
  }

  /** No checksum throws in a file that fits SRecLinesReadBack. */
  lemma {:induction false} SRecLinesOk(p: Params, hdr: string, data: string, a0: int, insertLinesCount: bool)
    requires 2 <= p.width <= 4 && p.chunk >= 1 && 1 + p.width + p.chunk <= 255
    requires AllHex(hdr) && |hdr| % 2 == 0 && 3 + |hdr| / 2 <= 255
    requires AllHex(data) && |data| % 2 == 0
    requires 0 <= a0 && a0 + |data| / 2 <= Pow16(2 * p.width)
    requires insertLinesCount ==> LineCount(|data|, p.chunk) < Pow16(6)
    ensures SRecLines(p, hdr, data, a0, insertLinesCount).Ok?
  {
    SRecLinesRead(p, hdr, data, a0, insertLinesCount);
  }

  /** Data within the address field, a header within one record and, when
      asked for, a count within three bytes: a non-empty range exported by
      an S-record file meets what SRecLinesReadBack asks of its lines. */
  lemma {:induction false} SRecExportFits(src: Source, startAddress: string, endAddress: string, addressLength: int,
                       dataLength: int, newStartAddress: string, specificHeader: string,
                       insertLinesCount: bool)
    requires forall k :: 0 <= k < |src.blocks| ==> BlockOk(src.blocks[k], true) && AllHex(src.blocks[k].payload)
    requires forall k :: 0 <= k < |src.verdicts| ==> Even(src.verdicts[k])
    requires ExtractDataRange(src, HexToLong(startAddress), HexToLong(endAddress)).Ok?
    requires specificHeader == "" ==>
      AllHex(src.headerData) && |src.headerData| % 2 == 0 && |src.headerData| <= 504
    requires var p := SRecParams(addressLength, dataLength, newStartAddress);
             var a0 := HexToLong(StartText(p.newStart, startAddress));
             var len := HexToLong(endAddress) - HexToLong(startAddress) + 1;
             0 <= a0 && a0 + len <= Pow16(2 * p.width) &&
             (insertLinesCount && len > 0 ==> LineCount(2 * len, p.chunk) < Pow16(6))
    ensures var data := ExtractDataRange(src, HexToLong(startAddress), HexToLong(endAddress)).value;
            var p := SRecParams(addressLength, dataLength, newStartAddress);
            var a0 := HexToLong(StartText(p.newStart, startAddress));
            var hdr := HeaderText(p, specificHeader, src.headerData);
            data != "" ==>
            2 <= p.width <= 4 && p.chunk >= 1 && 1 + p.width + p.chunk <= 255 &&
            AllHex(hdr) && |hdr| % 2 == 0 && 3 + |hdr| / 2 <= 255 &&
            AllHex(data) && |data| % 2 == 0 &&
            0 <= a0 && a0 + |data| / 2 <= Pow16(2 * p.width) &&
            (insertLinesCount ==> LineCount(|data|, p.chunk) < Pow16(6))
  {
    var s, e := HexToLong(startAddress), HexToLong(endAddress);
    DataFits(src, s, e);
    var p := SRecParams(addressLength, dataLength, newStartAddress);
    SRecParamsBounds(addressLength, dataLength, newStartAddress);
    HeaderFits(p, specificHeader, src.headerData);
  }

  /** The header text fits one header record. */
  lemma {:induction false} HeaderFits(p: Params, specificHeader: string, headerData: string)
    requires 2 <= p.width <= 4 && p.maxData == 254 - p.width
    requires specificHeader == "" ==> AllHex(headerData) && |headerData| % 2 == 0 && |headerData| <= 504
    ensures var hdr := HeaderText(p, specificHeader, headerData);
            AllHex(hdr) && |hdr| % 2 == 0 && 3 + |hdr| / 2 <= 255
  {
    HeaderTextFacts(p, specificHeader, headerData);
  }

  /** The extracted text of a range is "" or its bytes in hexadecimal. */
  lemma {:induction false} DataFits(src: Source, s: int, e: int)
    requires forall k :: 0 <= k < |src.blocks| ==> BlockOk(src.blocks[k], true) && AllHex(src.blocks[k].payload)
    requires forall k :: 0 <= k < |src.verdicts| ==> Even(src.verdicts[k])
    requires ExtractDataRange(src, s, e).Ok?
    ensures var data := ExtractDataRange(src, s, e).value;
            AllHex(data) && |data| % 2 == 0 && (data != "" ==> |data| / 2 == e - s + 1)
  {
    ExtractFacts(src, s, e);
  }

  /** A corrected S-record export that gets past ExtractDataRange returns
      false exactly for an empty range, and otherwise writes the lines of
      SRecLines, which SRecExportFits and SRecLinesReadBack show read back;
      where SRecExportAgrees applies, so does the export as written. */
  lemma {:induction false} SRecExportReads(src: Source, startAddress: string, endAddress: string, addressLength: int,
                        dataLength: int, newStartAddress: string, specificHeader: string,
                        insertLinesCount: bool)
    requires forall k :: 0 <= k < |src.blocks| ==> BlockOk(src.blocks[k], true) && AllHex(src.blocks[k].payload)
    requires forall k :: 0 <= k < |src.verdicts| ==> Even(src.verdicts[k])
    requires ExtractDataRange(src, HexToLong(startAddress), HexToLong(endAddress)).Ok?
    requires specificHeader == "" ==>
      AllHex(src.headerData) && |src.headerData| % 2 == 0 && |src.headerData| <= 504
    requires var p := SRecParams(addressLength, dataLength, newStartAddress);
             var a0 := HexToLong(StartText(p.newStart, startAddress));
             var len := HexToLong(endAddress) - HexToLong(startAddress) + 1;
             0 <= a0 && a0 + len <= Pow16(2 * p.width) &&
             (insertLinesCount && len > 0 ==> LineCount(2 * len, p.chunk) < Pow16(6))
    ensures var o := SRecExportCorrected(src, startAddress, endAddress, addressLength, dataLength,
                                newStartAddress, specificHeader, insertLinesCount);
            var data := ExtractDataRange(src, HexToLong(startAddress), HexToLong(endAddress)).value;
            var p := SRecParams(addressLength, dataLength, newStartAddress);
            var a0 := HexToLong(StartText(p.newStart, startAddress));
            !o.Raised? && (o.Declined? <==> data == "") &&
            (o.Written? ==> SRecLines(p, HeaderText(p, specificHeader, src.headerData), data, a0, insertLinesCount) == Ok(o.lines))
  {
    SRecExportFits(src, startAddress, endAddress, addressLength, dataLength, newStartAddress,
                   specificHeader, insertLinesCount);
    var data := ExtractDataRange(src, HexToLong(startAddress), HexToLong(endAddress)).value;
    var p := SRecParams(addressLength, dataLength, newStartAddress);
    SRecParamsBounds(addressLength, dataLength, newStartAddress);
    var a0 := HexToLong(StartText(p.newStart, startAddress));
    if data != "" {
      SRecLinesOk(p, HeaderText(p, specificHeader, src.headerData), data, a0, insertLinesCount);
    }
  }
}
