/** Patching (SRecord.cs): Modify checks its arguments and either overwrites
    the payload of the block in memory or rewrites the records of the file
    (ModifyInFile), one overlapping data record at a time: the overlap of its
    data field is replaced, every other field kept, the checksum recomputed,
    and the new record put in place of the old one by String.Replace on the
    physical line. */
module Patch {
  import opened Wrappers
  import opened Hex
  import opened Formats
  import opened DataBlocks
  import opened Reader
  import opened Query

  // ---------------------------------------------------------------------------
  // Modify in memory

  /** Modify's guard: a non-empty address, even-length hexadecimal data, and
      a block containing the |data| / 2 bytes from the address. */
  predicate Accepts(blocks: seq<Block>, startAddress: string, data: string) {
    startAddress != "" && AllHex(data) && |data| % 2 == 0 &&
    IsInRangeFor(blocks, HexToLong(startAddress), ByteLength(data))
  }

  /** The block Modify looks up as written: GetDataBlockFromRange(start,
      data.Length) counts the hexadecimal characters as bytes. */
  function TargetAsWritten(blocks: seq<Block>, s: int, data: string): Option<nat> {
    GetDataBlockFor(blocks, s, |data|)
  }

  /** The bytes a hexadecimal string stands for: two characters each. */
  function ByteLength(data: string): int {
    |data| / 2
  }

  /** The block the guard checked: the one containing the |data| / 2 bytes. */
  function Target(blocks: seq<Block>, s: int, data: string): Option<nat> {
    GetDataBlockFor(blocks, s, ByteLength(data))
  }

  /** Where address s sits in a block's payload: two characters per byte. */
  function Offset(b: Block, s: int): int {
    2 * (s - b.start)
  }

  /** What DataBlock.ModifyData needs to not throw on a block: an empty
      payload, or the data's characters inside the payload from twice the
      address's offset on. */
  predicate Fits(b: Block, s: int, data: string) {
    b.payload != "" ==> 0 <= s - b.start && Offset(b, s) + |data| <= |b.payload|
  }

  /** t is base with d written over it from position p on. */
  predicate WrittenOver(t: string, base: string, p: int, d: string) {
    0 <= p && p + |d| <= |base| && |t| == |base| &&
    t[..p] == base[..p] && t[p..p + |d|] == d && t[p + |d|..] == base[p + |d|..]
  }

  /** DataBlock.ModifyData on a block value: an empty payload is left alone,
      otherwise the data (as the getter shows it) is spliced in at
      2 * (s - start). */
  function ModifyBlock(b: Block, s: int, data: string, store: bool): (r: Block)
    requires Fits(b, s, data)
    ensures r.start == b.start && r.end == b.end && r.startLine == b.startLine && r.endLine == b.endLine
    ensures |r.payload| == |b.payload|
  {
    if b.payload == "" then b
    else b.(payload := Splice(b.payload, Offset(b, s), View(store, data)))
  }

  /** After the guard, the corrected lookup always finds a block, and
      ModifyData on it overwrites exactly the characters of the range with
      the data (upper-cased in byte mode), keeping the block well-formed. */
  lemma {:induction false} ModifyInMemory(blocks: seq<Block>, startAddress: string, data: string, store: bool)
    requires forall k :: 0 <= k < |blocks| ==> BlockOk(blocks[k], true)
    requires Accepts(blocks, startAddress, data)
    requires -(Half64 as int) <= HexToLong(startAddress) + |data| / 2 - 1 < Half64
    ensures Target(blocks, HexToLong(startAddress), data).Some?
    ensures var s := HexToLong(startAddress);
      var b := blocks[Target(blocks, s, data).value];
      var p := Offset(b, s);
      b.start <= s && s + |data| / 2 - 1 <= b.end &&
      b.payload != "" && p + |data| <= |b.payload| &&
      WrittenOver(ModifyBlock(b, s, data, store).payload, b.payload, p, View(store, data)) &&
      BlockOk(ModifyBlock(b, s, data, store), true)
  {
    var s := HexToLong(startAddress);
    var k := Target(blocks, s, data).value;
    assert BlockOk(blocks[k], true);
    assert |View(store, data)| == |data|;
  }

  /** One block holding bytes AA BB at addresses 0-1 and the data CCDD for
      address 0: the guard accepts, the lookup as written asks for a
      four-byte range, finds no block and ModifyData is called on null; the
      corrected lookup finds the block and the payload becomes CCDD. */
  lemma ModifyAsWrittenNull()
    ensures var blocks := [Block(0, 1, 1, 1, "AABB")];
      Accepts(blocks, "0", "CCDD") &&
      TargetAsWritten(blocks, 0, "CCDD").None? &&
      Target(blocks, 0, "CCDD") == Some(0) &&
      ModifyBlock(blocks[0], 0, "CCDD", true).payload == "CCDD" &&
      Modify(SRec, map[], true, true, blocks, [], "0", "CCDD") == Err(NullReference) &&
      ModifyCorrected(SRec, map[], true, true, blocks, [], "0", "CCDD") == Ok(Modified(true, [Block(0, 1, 1, 1, "CCDD")], []))
  {
    var blocks := [Block(0, 1, 1, 1, "AABB")];
    assert "0"[..0] == [];
    assert HexValue("0") == 0;
    assert HexToLong("0") == 0;
    assert Contains(blocks[0], 0, 1);
    assert !Contains(blocks[0], 0, 3);
    var m := ModifyBlock(blocks[0], 0, "CCDD", true);
    assert Splice("AABB", 0, "CCDD") == "CCDD";
    assert m == Block(0, 1, 1, 1, "CCDD");
    assert blocks[0 := m] == [m];
  }

  // ---------------------------------------------------------------------------
  // ModifyInFile: one record rebuilt

  /** ModifyInFile rewrites a data record at address a with n data characters
      when it starts inside [s, e] or [s, e] starts inside it. */
  predicate Touches(s: int, e: int, a: int, n: nat) {
    (s <= a <= e) || (a <= s <= a + n / 2 - 1)
  }

  /** The new data field: the record's characters before the overlap, the
      matching characters of data, the record's characters after it; None
      when a Substring would run past the end. */
  function NewData(r: Record, s: int, e: int, a: int, data: string): Option<string> {
    OverlayBytes(r.data, data, a, s, Max(a, s), Min(LastAddress(r, a), e))
  }

  /** The address of the last byte of a record at address a. */
  function LastAddress(r: Record, a: int): int {
    a + |r.data| / 2 - 1
  }

  /** The bytes lo .. hi of data, whose first byte has address s, written
      over base, whose first byte has address a. */
  function OverlayBytes(base: string, data: string, a: int, s: int, lo: int, hi: int): Option<string> {
    Overlay(base, data, 2 * (lo - a), 2 * hi - 2 * lo + 2, 2 * (lo - s))
  }

  /** The first p characters of base, n characters of data from q, the rest of
      base from p + n; None when a Substring would run past the end. */
  function Overlay(base: string, data: string, p: int, n: int, q: int): Option<string> {
    var pre := if p > 0 then Sub(base, 0, p) else Some("");
    var mid := Sub(data, q, n);
    var post := if p + n < |base| then Sub(base, p + n, |base| - p - n) else Some("");
    if pre.None? || mid.None? || post.None? then None
    else Some(pre.value + mid.value + post.value)
  }

  datatype RebuildFault = SliceFault | ChecksumFailed(fault: ChecksumFault)

  /** The record written in place of r: the new data field and a checksum
      recomputed over the fields the layout sums; HexCheckSumCalc's failure
      is ModifyInFile's. */
  function Rebuild(f: Format, r: Record, s: int, e: int, a: int, data: string): Result<Record, RebuildFault> {
    match NewData(r, s, e, a, data)
    case None => Err(SliceFault)
    case Some(d) =>
      var r1 := r.(data := d);
      match Checksum(JoinFields(r1, LayoutOf(f).checksumFields), LayoutOf(f).onesComplement)
      case Err(x) => Err(ChecksumFailed(x))
      case Ok(c) => Ok(r1.(checksum := c, checksumCalc := c))
  }

  /** For a record it touches and data covering [s, e], no Substring fails,
      and the new data field has the old length, the old characters outside
      the overlap, and the data's characters for addresses max(a, s) ..
      min(record end, e) inside it. */
  lemma {:induction false} NewDataFacts(r: Record, s: int, e: int, a: int, data: string)
    requires s <= e && |data| == 2 * (e - s + 1) && |r.data| % 2 == 0
    requires Touches(s, e, a, |r.data|)
    ensures NewData(r, s, e, a, data).Some?
    ensures var lo := Max(a, s);
      var hi := Min(a + |r.data| / 2 - 1, e);
      lo <= hi + 1 && 0 <= 2 * (lo - s) && 2 * (hi - s + 1) <= |data| &&
      WrittenOver(NewData(r, s, e, a, data).value, r.data, 2 * (lo - a), data[2 * (lo - s)..2 * (hi - s + 1)])
  {
    var lo := Max(a, s);
    var hi := Min(LastAddress(r, a), e);
    OverlapBounds(s, e, a, |r.data|, lo, hi);
    OverlayBytesFacts(r.data, data, a, s, lo, hi);
  }

  /** In bounds, OverlayBytes writes the bytes lo .. hi of data over base. */
  lemma {:induction false} OverlayBytesFacts(base: string, data: string, a: int, s: int, lo: int, hi: int)
    requires lo <= hi + 1 && 0 <= 2 * (lo - a) && 2 * (hi - a + 1) <= |base|
    requires 0 <= 2 * (lo - s) && 2 * (hi - s + 1) <= |data|
    ensures OverlayBytes(base, data, a, s, lo, hi).Some?
    ensures WrittenOver(OverlayBytes(base, data, a, s, lo, hi).value, base, 2 * (lo - a), data[2 * (lo - s)..2 * (hi - s + 1)])
  {
    var p, n, q := 2 * (lo - a), 2 * hi - 2 * lo + 2, 2 * (lo - s);
    OverlayFacts(base, data, p, n, q);
    assert q + n == 2 * (hi - s + 1);
    assert WrittenOver(Overlay(base, data, p, n, q).value, base, p, data[q..q + n]);
  }

  /** In bounds, Overlay keeps the length, and the three parts are where
      they belong. */
  lemma {:induction false} OverlayFacts(base: string, data: string, p: int, n: int, q: int)
    requires 0 <= p && 0 <= n && p + n <= |base| && 0 <= q && q + n <= |data|
    ensures Overlay(base, data, p, n, q).Some?
    ensures var d := Overlay(base, data, p, n, q).value;
      |d| == |base| && d[..p] == base[..p] && d[p..p + n] == data[q..q + n] && d[p + n..] == base[p + n..]
  {
    OverlaySome(base, data, p, n, q);
    ThreeSlices(base[..p], data[q..q + n], base[p + n..]);
  }

  /** The overlap of a record it touches with [s, e], in characters of the
      record's data and of the new data. */
  lemma OverlapBounds(s: int, e: int, a: int, len: nat, lo: int, hi: int)
    requires s <= e && len % 2 == 0 && Touches(s, e, a, len)
    requires lo == Max(a, s) && hi == Min(a + len / 2 - 1, e)
    ensures lo <= hi + 1 && 0 <= 2 * (lo - a) && 2 * (hi - a + 1) <= len
    ensures 0 <= 2 * (lo - s) && 2 * (hi - s + 1) <= 2 * (e - s + 1)
    ensures 2 * hi - 2 * lo + 2 >= 0
  {
  }

  /** With the overlap in bounds, every Substring succeeds. */
  lemma {:induction false} OverlaySome(base: string, data: string, p: int, n: int, q: int)
    requires 0 <= p && 0 <= n && p + n <= |base| && 0 <= q && q + n <= |data|
    ensures Overlay(base, data, p, n, q) == Some(base[..p] + data[q..q + n] + base[p + n..])
  {
    var pre, mid, post := base[..p], data[q..q + n], base[p + n..];
    assert (if p > 0 then Sub(base, 0, p) else Some("")) == Some(pre) by {
      if p == 0 { assert pre == []; }
    }
    assert (if p + n < |base| then Sub(base, p + n, |base| - p - n) else Some("")) == Some(post) by {
      var m := |base| - p - n;
      if m == 0 { assert post == []; }
      else { assert p + n + m == |base|; assert base[p + n..p + n + m] == post; }
    }
    assert Sub(data, q, n) == Some(mid);
  }

  lemma {:induction false} JoinHex(a: string, b: string, c: string)
    requires AllHex(a) && AllHex(b) && AllHex(c)
    ensures AllHex(a + b + c)
  {
    HexAppend(a, b);
    HexAppend(a + b, c);
  }

  /** The new data field is hexadecimal when the record's and the data are. */
  lemma {:induction false} NewDataHex(r: Record, s: int, e: int, a: int, data: string)
    requires s <= e && |data| == 2 * (e - s + 1) && |r.data| % 2 == 0
    requires AllHex(r.data) && AllHex(data)
    requires Touches(s, e, a, |r.data|)
    ensures NewData(r, s, e, a, data).Some? && AllHex(NewData(r, s, e, a, data).value)
  {
    var lo := Max(a, s);
    var hi := Min(LastAddress(r, a), e);
    var p, n, q := 2 * (lo - a), 2 * hi - 2 * lo + 2, 2 * (lo - s);
    OverlapBounds(s, e, a, |r.data|, lo, hi);
    OverlaySome(r.data, data, p, n, q);
    assert OverlayBytes(r.data, data, a, s, lo, hi) == Some(r.data[..p] + data[q..q + n] + r.data[p + n..]);
    SliceHex(r.data, 0, p);
    SliceHex(data, q, q + n);
    SliceHex(r.data, p + n, |r.data|);
    assert r.data[..p] == r.data[0..p] && r.data[p + n..] == r.data[p + n..|r.data|];
    JoinHex(r.data[..p], data[q..q + n], r.data[p + n..]);
  }

  /** The text a well-formed record's checksum covers stays even-length
      hexadecimal when the data field is replaced by one of the same kind. */
  lemma {:induction false} SummedText(f: Format, r: Record, d: string)
    requires Shaped(f, r) && AllHex(d) && |d| == |r.data|
    ensures var text := JoinFields(r.(data := d), LayoutOf(f).checksumFields);
      AllHex(text) && |text| % 2 == 0
  {
    var r1 := r.(data := d);
    ChecksumFieldsText(f, r1);
    AddressLengthValues(f, r.typ);
    var head := if f.SRec? then r.byteCount + r.address else r.byteCount + r.address + r.typ;
    assert JoinFields(r1, LayoutOf(f).checksumFields) == head + d;
    if f.SRec? {
      HexAppend(r.byteCount, r.address);
    } else {
      DecimalIsHex(r.typ);
      JoinHex(r.byteCount, r.address, r.typ);
    }
    HexAppend(head, d);
    assert r.addressLength == 4 || r.addressLength == 6 || r.addressLength == 8;
    assert f.IHex? ==> |r.typ| == 2;
    assert |head| == 2 + r.addressLength + (if f.SRec? then 0 else |r.typ|);
    EvenSplit(|head + d|, |head|, |d|);
  }

  /** A well-formed record with its data field replaced and the matching
      checksum in place is well-formed. */
  lemma {:induction false} RebuiltShaped(f: Format, r: Record, d: string, c: string)
    requires Shaped(f, r) && AllHex(d) && |d| == |r.data|
    requires Checksum(JoinFields(r.(data := d), LayoutOf(f).checksumFields), LayoutOf(f).onesComplement) == Ok(c)
    requires |c| == 2 && AllHex(c)
    ensures Shaped(f, r.(data := d, checksum := c, checksumCalc := c))
  {
    var r1 := r.(data := d);
    var r2 := r1.(checksum := c, checksumCalc := c);
    ChecksumFieldsText(f, r1);
    ChecksumFieldsText(f, r2);
  }

  /** The rebuilt record: every field but the data and the checksum as it
      was, the data field of the same length, and a checksum that matches.
      It is well-formed, so its line has the old length, passes CheckLine and
      parses back to it. It fails only on a two's complement zero sum. */
  lemma {:induction false} RebuildFacts(f: Format, r: Record, s: int, e: int, a: int, data: string)
    requires Shaped(f, r)
    requires s <= e && |data| == 2 * (e - s + 1) && AllHex(data)
    requires Touches(s, e, a, |r.data|)
    ensures Rebuild(f, r, s, e, a, data).Ok? ||
      (f.IHex? && Rebuild(f, r, s, e, a, data) == Err(ChecksumFailed(ZeroSum)))
    ensures Rebuild(f, r, s, e, a, data).Ok? ==>
      var r2 := Rebuild(f, r, s, e, a, data).value;
      r2.typ == r.typ && r2.byteCount == r.byteCount && r2.address == r.address &&
      r2.addressLong == r.addressLong && |r2.data| == |r.data| &&
      r2.data == NewData(r, s, e, a, data).value && r2.checksum == r2.checksumCalc &&
      Shaped(f, r2) && |Assemble(f, r2)| == |Assemble(f, r)| &&
      CheckLine(f, Assemble(f, r2)) == NoError && ParseLine(f, Assemble(f, r2)) == Ok(r2)
  {
    NewDataFacts(r, s, e, a, data);
    NewDataHex(r, s, e, a, data);
    var d := NewData(r, s, e, a, data).value;
    var L := LayoutOf(f);
    var text := JoinFields(r.(data := d), L.checksumFields);
    SummedText(f, r, d);
    ChecksumFailures(text, L.onesComplement);
    if Checksum(text, L.onesComplement).Ok? {
      ChecksumCompletes(text, L.onesComplement);
      var c := Checksum(text, L.onesComplement).value;
      RebuiltShaped(f, r, d, c);
      var r2 := r.(data := d, checksum := c, checksumCalc := c);
      assert Rebuild(f, r, s, e, a, data) == Ok(r2);
      AssembledBody(f, r);
      AssembledBody(f, r2);
      AssembleParses(f, r2);
    }
  }

  // ---------------------------------------------------------------------------
  // String.Replace on the physical line

  /** String.Replace(pat, rep): every non-overlapping occurrence of pat,
      left to right, replaced by rep. */
  function ReplaceAll(t: string, pat: string, rep: string): string
    requires |pat| > 0
    decreases |t|
  {
    if |t| < |pat| then t
    else if t[..|pat|] == pat then rep + ReplaceAll(t[|pat|..], pat, rep)
    else [t[0]] + ReplaceAll(t[1..], pat, rep)
  }

  /** pat occurs in t at position i. */
  predicate At(t: string, pat: string, i: int) {
    0 <= i <= |t| - |pat| && t[i..i + |pat|] == pat
  }

  predicate Occurs(pat: string, t: string) {
    exists i :: 0 <= i <= |t| && At(t, pat, i)
  }

  /** A line that does not contain the record's text is written unchanged. */
  lemma {:induction false} ReplaceAbsent(t: string, pat: string, rep: string)
    requires |pat| > 0 && !Occurs(pat, t)
    ensures ReplaceAll(t, pat, rep) == t
    decreases |t|
  {
    if |t| >= |pat| {
      assert t[0..|pat|] == t[..|pat|];
      assert !At(t, pat, 0);
      assert !Occurs(pat, t[1..]) by {
        forall i | 0 <= i <= |t[1..]| && At(t[1..], pat, i) ensures false {
          assert t[1..][i..i + |pat|] == t[i + 1..i + 1 + |pat|];
          assert At(t, pat, i + 1);
        }
      }
      ReplaceAbsent(t[1..], pat, rep);
    }
  }

  /** A line that is exactly the record's text becomes the rep record. */
  lemma {:induction false} ReplaceWhole(t: string, rep: string)
    requires |t| > 0
    ensures ReplaceAll(t, t, rep) == rep
  {
    assert t[..|t|] == t;
    assert t[|t|..] == [];
  }

  /** Every occurrence is replaced, not only the record's own: with the same
      text twice on a line, both copies change. */
  lemma ReplaceEvery()
    ensures ReplaceAll(":AB:CD:AB", ":AB", ":EF") == ":EF:CD:EF"
  {
    assert ":AB:CD:AB"[..3] == ":AB";
    assert ":AB:CD:AB"[3..] == ":CD:AB";
    assert ":CD:AB"[..3][1] != ":AB"[1];
    assert ":CD:AB"[1..] == "CD:AB";
    assert "CD:AB"[..3][0] != ":AB"[0];
    assert "CD:AB"[1..] == "D:AB";
    assert "D:AB"[..3][0] != ":AB"[0];
    assert "D:AB"[1..] == ":AB";
    assert ":AB"[..3] == ":AB";
    assert ":AB"[3..] == "";
  }

  /** Records are compared after white space is removed, but replaced in the
      physical line: a record written with a space inside is not found, and
      the line is written back unchanged. */
  lemma WhitespaceHidesRecord()
    ensures NonWhite("S1 05") == "S105"
    ensures ReplaceAll("S1 05", "S105", "S1FF") == "S1 05"
  {
    assert NonWhite("S1 05"[..4]) == "S10" by {
      assert "S1 05"[..4][..3] == "S1 ";
      assert "S1 "[..2] == "S1";
      assert "S1"[..1] == "S";
      assert "S"[..0] == "";
    }
    assert "S1 05"[..4] == "S1 0";
    assert "S1 05"[..|"S1 05"| - 1] == "S1 0";
    assert "S1 05"[..4] != "S105";
    assert "S1 05"[1..] == "1 05";
  }

  // ---------------------------------------------------------------------------
  // ModifyInFile: the scan over the records of every line

  /** What makes ModifyInFile fail (it then returns false and leaves the file
      as it was). */
  datatype PatchFault =
    | PatchParse(line: nat, fault: ParseFault)   // ParseLine throws
    | PatchUnchecked(line: nat)                  // a record failing CheckLine that the error map does not list
    | PatchRebuild(line: nat, cause: RebuildFault)

  /** The scan's state: records seen so far and the address bank. */
  datatype PatchState = PatchState(n: nat, bank: int)

  /** A data record at address a: rebuilt and replaced in the line text when
      the range touches it. */
  function PatchData(f: Format, s: int, e: int, data: string, n: nat, rec: string, r: Record, a: int, text: string): Result<string, PatchFault>
    requires |rec| > 0
  {
    if Touches(s, e, a, |r.data|) then
      match Rebuild(f, r, s, e, a, data)
      case Err(x) => Err(PatchRebuild(n, x))
      case Ok(r2) => Ok(ReplaceAll(text, rec, Assemble(f, r2)))
    else Ok(text)
  }

  /** One record rec of the current line, with its verdict: records with an
      error entry are skipped; banks are tracked; data records go through
      PatchData. */
  function PatchRecord(f: Format, errors: map<int, ErrorCode>, s: int, e: int, data: string,
                       st: PatchState, rec: string, v: Verdict, text: string): Result<(PatchState, string), PatchFault>
    requires |rec| > 0
  {
    var n := st.n + 1;
    var st1 := st.(n := n);
    if n in errors then Ok((st1, text))
    else if v.Rejected? then Err(PatchUnchecked(n))
    else if v.Throws? then Err(PatchParse(n, v.fault))
    else
      var r := v.r;
      if GetRecordType(f, r.typ) == Data then
        match PatchData(f, s, e, data, n, rec, r, Absolute(r, st.bank), text)
        case Err(x) => Err(x)
        case Ok(t) => Ok((st1, t))
      else Ok((st1.(bank := NextBank(f, r, st.bank)), text))
  }

  /** The address a data record stands for under the current bank. */
  function Absolute(r: Record, bank: int): int { r.addressLong + bank }

  /** The bank after a record that is not a data record: set by the
      extended address records, kept by every other. */
  function NextBank(f: Format, r: Record, bank: int): int {
    var ty := GetRecordType(f, r.typ);
    if ty == ExtendedSegmentAddress then ShiftedHexToLong(r.data, 1)
    else if ty == ExtendedLinearAddress then ShiftedHexToLong(r.data, 4)
    else bank
  }

  predicate NonEmpty(recs: seq<string>) {
    forall k :: 0 <= k < |recs| ==> |recs[k]| > 0
  }

  /** The records of one line, in order, applied to the line's text. */
  function PatchRecords(f: Format, errors: map<int, ErrorCode>, s: int, e: int, data: string,
                        st: PatchState, recs: seq<string>, vs: seq<Verdict>, text: string): (r: Result<(PatchState, string), PatchFault>)
    requires |vs| == |recs| && NonEmpty(recs)
    ensures r.Ok? ==> r.value.0.n == st.n + |recs|
    decreases |recs|
  {
    if recs == [] then Ok((st, text))
    else
      match PatchRecord(f, errors, s, e, data, st, recs[0], vs[0], text)
      case Err(x) => Err(x)
      case Ok(p) => PatchRecords(f, errors, s, e, data, p.0, recs[1..], vs[1..], p.1)
  }

  /** The records of a physical line: white space removed, split before
      every start code. */
  function LineRecords(f: Format, line: string): (recs: seq<string>)
    ensures NonEmpty(recs)
  {
    PiecesFacts(NonWhite(line), LayoutOf(f).startCode);
    Pieces(NonWhite(line), LayoutOf(f).startCode)
  }

  /** Every physical line, patched record by record and written out. */
  function PatchLines(f: Format, errors: map<int, ErrorCode>, s: int, e: int, data: string,
                      st: PatchState, lines: seq<string>): (r: Result<(PatchState, seq<string>), PatchFault>)
    ensures r.Ok? ==> |r.value.1| == |lines|
    decreases |lines|
  {
    if lines == [] then Ok((st, []))
    else
      var recs := LineRecords(f, lines[0]);
      match PatchRecords(f, errors, s, e, data, st, recs, Verdicts(f, recs), lines[0])
      case Err(x) => Err(x)
      case Ok(p) =>
        match PatchLines(f, errors, s, e, data, p.0, lines[1..])
        case Err(x) => Err(x)
        case Ok(q) => Ok((q.0, [p.1] + q.1))
  }

  /** The last address ModifyInFile patches: start + |data| / 2 - 1 in long
      arithmetic. */
  function RangeEnd(s: int, data: string): int {
    Wrap64(s + |data| / 2 - 1)
  }

  /** ModifyInFile(start, data): the new file, or None for false. The range
      ends at start + |data| / 2 - 1 (long arithmetic). */
  function ModifyInFile(f: Format, errors: map<int, ErrorCode>, lines: seq<string>, startAddress: string, data: string): (r: Option<seq<string>>)
    ensures r.Some? ==> |r.value| == |lines|
  {
    var s := HexToLong(startAddress);
    var e := RangeEnd(s, data);
    match PatchLines(f, errors, s, e, data, PatchState(0, 0), lines)
    case Err(_) => None
    case Ok(p) => Some(p.1)
  }

  /** A record that is skipped, not a data record, or not touched by the
      range leaves the line as it was. */
  lemma {:induction false} PatchRecordKeeps(f: Format, errors: map<int, ErrorCode>, s: int, e: int, data: string,
                         st: PatchState, rec: string, v: Verdict, text: string)
    requires |rec| > 0
    requires PatchRecord(f, errors, s, e, data, st, rec, v, text).Ok?
    requires st.n + 1 in errors || !v.Parsed? || GetRecordType(f, v.r.typ) != Data ||
      !Touches(s, e, Absolute(v.r, st.bank), |v.r.data|)
    ensures PatchRecord(f, errors, s, e, data, st, rec, v, text).value.1 == text
  {
    if st.n + 1 in errors {
      PatchRecordSkipped(f, errors, s, e, data, st, rec, v, text);
    } else if v.Parsed? && GetRecordType(f, v.r.typ) != Data {
      PatchRecordOther(f, errors, s, e, data, st, rec, v, text);
    } else if v.Parsed? {
      PatchDataUntouched(f, s, e, data, st.n + 1, rec, v.r, Absolute(v.r, st.bank), text);
      PatchRecordOk(f, errors, s, e, data, st, rec, v, text);
    }
  }

  /** A record with an error entry is skipped, the line left as it is. */
  lemma {:induction false} PatchRecordSkipped(f: Format, errors: map<int, ErrorCode>, s: int, e: int, data: string,
                                              st: PatchState, rec: string, v: Verdict, text: string)
    requires |rec| > 0 && st.n + 1 in errors
    ensures PatchRecord(f, errors, s, e, data, st, rec, v, text) == Ok((st.(n := st.n + 1), text))
  {
  }

  /** A record that is not a data record only moves the bank on. */
  lemma {:induction false} PatchRecordOther(f: Format, errors: map<int, ErrorCode>, s: int, e: int, data: string,
                                            st: PatchState, rec: string, v: Verdict, text: string)
    requires |rec| > 0 && st.n + 1 !in errors && v.Parsed? && GetRecordType(f, v.r.typ) != Data
    ensures PatchRecord(f, errors, s, e, data, st, rec, v, text) == Ok((PatchState(st.n + 1, NextBank(f, v.r, st.bank)), text))
  {
  }

  /** A data record the range does not touch leaves the text as it is. */
  lemma {:induction false} PatchDataUntouched(f: Format, s: int, e: int, data: string, n: nat, rec: string, r: Record, a: int, text: string)
    requires |rec| > 0 && !Touches(s, e, a, |r.data|)
    ensures PatchData(f, s, e, data, n, rec, r, a, text) == Ok(text)
  {
  }

  /** A touched data record that its line holds alone, without white space,
      is replaced by its rebuilt record. */
  lemma {:induction false} PatchDataWhole(f: Format, s: int, e: int, data: string, n: nat, rec: string, r: Record, a: int)
    requires |rec| > 0 && Touches(s, e, a, |r.data|)
    requires PatchData(f, s, e, data, n, rec, r, a, rec).Ok?
    ensures Rebuild(f, r, s, e, a, data).Ok?
    ensures PatchData(f, s, e, data, n, rec, r, a, rec).value == Assemble(f, Rebuild(f, r, s, e, a, data).value)
  {
    ReplaceWhole(rec, Assemble(f, Rebuild(f, r, s, e, a, data).value));
  }

  /** A data record that no error entry skips is patched by PatchData: the
      record fails exactly when PatchData does, and otherwise the line
      becomes PatchData's text. */
  lemma {:induction false} PatchRecordTouched(f: Format, errors: map<int, ErrorCode>, s: int, e: int, data: string,
                                              st: PatchState, rec: string, v: Verdict, text: string)
    requires |rec| > 0 && st.n + 1 !in errors && v.Parsed? && GetRecordType(f, v.r.typ) == Data
    ensures var pd := PatchData(f, s, e, data, st.n + 1, rec, v.r, Absolute(v.r, st.bank), text);
      (PatchRecord(f, errors, s, e, data, st, rec, v, text).Ok? <==> pd.Ok?) &&
      (pd.Ok? ==> PatchRecord(f, errors, s, e, data, st, rec, v, text).value.1 == pd.value)
  {
    var pd := PatchData(f, s, e, data, st.n + 1, rec, v.r, Absolute(v.r, st.bank), text);
    if pd.Ok? {
      PatchRecordOk(f, errors, s, e, data, st, rec, v, text);
    } else {
      PatchRecordErr(f, errors, s, e, data, st, rec, v, text);
    }
  }

  /** A data record whose patch succeeds moves the line number on and
      leaves PatchData's text. */
  lemma {:induction false} PatchRecordOk(f: Format, errors: map<int, ErrorCode>, s: int, e: int, data: string,
                                         st: PatchState, rec: string, v: Verdict, text: string)
    requires |rec| > 0 && st.n + 1 !in errors && v.Parsed? && GetRecordType(f, v.r.typ) == Data
    requires PatchData(f, s, e, data, st.n + 1, rec, v.r, Absolute(v.r, st.bank), text).Ok?
    ensures PatchRecord(f, errors, s, e, data, st, rec, v, text) ==
      Ok((st.(n := st.n + 1), PatchData(f, s, e, data, st.n + 1, rec, v.r, Absolute(v.r, st.bank), text).value))
  {
  }

  /** A data record whose patch fails fails the scan. */
  lemma {:induction false} PatchRecordErr(f: Format, errors: map<int, ErrorCode>, s: int, e: int, data: string,
                                          st: PatchState, rec: string, v: Verdict, text: string)
    requires |rec| > 0 && st.n + 1 !in errors && v.Parsed? && GetRecordType(f, v.r.typ) == Data
    requires PatchData(f, s, e, data, st.n + 1, rec, v.r, Absolute(v.r, st.bank), text).Err?
    ensures PatchRecord(f, errors, s, e, data, st, rec, v, text).Err?
  {
  }

  /** As written, a record whose text does not occur in the physical line
      (white space inside it, say) is left as it is, even when the range
      touches it and the scan goes on to report success. */
  lemma {:induction false} PatchHidden(f: Format, errors: map<int, ErrorCode>, s: int, e: int, data: string,
                                       st: PatchState, rec: string, v: Verdict, line: string)
    requires |rec| > 0 && !Occurs(rec, line)
    requires PatchRecord(f, errors, s, e, data, st, rec, v, line).Ok?
    ensures PatchRecord(f, errors, s, e, data, st, rec, v, line).value.1 == line
  {
    if st.n + 1 !in errors && v.Parsed? && GetRecordType(f, v.r.typ) == Data &&
       Touches(s, e, Absolute(v.r, st.bank), |v.r.data|) {
      PatchRecordTouched(f, errors, s, e, data, st, rec, v, line);
      ReplaceAbsent(line, rec, Assemble(f, Rebuild(f, v.r, s, e, Absolute(v.r, st.bank), data).value));
    } else {
      PatchRecordKeeps(f, errors, s, e, data, st, rec, v, line);
    }
  }

  // ---------------------------------------------------------------------------
  // ModifyInFile with every record patched in its own place

  /** The records of one line, each patched on its own text rather than by
      String.Replace on the line, so that a record can only change itself. */
  function PatchRecordsCorrected(f: Format, errors: map<int, ErrorCode>, s: int, e: int, data: string,
                                 st: PatchState, recs: seq<string>, vs: seq<Verdict>): (r: Result<(PatchState, seq<string>), PatchFault>)
    requires |vs| == |recs| && NonEmpty(recs)
    ensures r.Ok? ==> |r.value.1| == |recs|
    decreases |recs|
  {
    if recs == [] then Ok((st, []))
    else
      match PatchRecord(f, errors, s, e, data, st, recs[0], vs[0], recs[0])
      case Err(x) => Err(x)
      case Ok(p) =>
        match PatchRecordsCorrected(f, errors, s, e, data, p.0, recs[1..], vs[1..])
        case Err(x) => Err(x)
        case Ok(q) => Ok((q.0, [p.1] + q.1))
  }

  /** The record of verdict v is a data record, not skipped for an error
      entry, that the range s..e touches. */
  predicate TouchedData(f: Format, errors: map<int, ErrorCode>, s: int, e: int, st: PatchState, v: Verdict) {
    st.n + 1 !in errors && v.Parsed? && GetRecordType(f, v.r.typ) == Data &&
    Touches(s, e, Absolute(v.r, st.bank), |v.r.data|)
  }

  /** Patched on its own text, a touched data record fails exactly when its
      rebuild fails, and otherwise becomes its rebuilt record, whatever else
      its line holds (PatchRecordKeeps: any other record stays as it is). */
  lemma {:induction false} PatchOwnText(f: Format, errors: map<int, ErrorCode>, s: int, e: int, data: string,
                                        st: PatchState, rec: string, v: Verdict)
    requires |rec| > 0 && TouchedData(f, errors, s, e, st, v)
    ensures var rb := Rebuild(f, v.r, s, e, Absolute(v.r, st.bank), data);
      (PatchRecord(f, errors, s, e, data, st, rec, v, rec).Ok? <==> rb.Ok?) &&
      (rb.Ok? ==> PatchRecord(f, errors, s, e, data, st, rec, v, rec).value.1 == Assemble(f, rb.value))
  {
    PatchRecordTouched(f, errors, s, e, data, st, rec, v, rec);
    PatchDataOwn(f, s, e, data, st.n + 1, rec, v.r, Absolute(v.r, st.bank));
  }

  /** PatchData on a touched record's own text: the rebuilt record, or the
      rebuild's failure. */
  lemma {:induction false} PatchDataOwn(f: Format, s: int, e: int, data: string, n: nat, rec: string, r: Record, a: int)
    requires |rec| > 0 && Touches(s, e, a, |r.data|)
    ensures PatchData(f, s, e, data, n, rec, r, a, rec).Ok? <==> Rebuild(f, r, s, e, a, data).Ok?
    ensures Rebuild(f, r, s, e, a, data).Ok? ==>
      PatchData(f, s, e, data, n, rec, r, a, rec).value == Assemble(f, Rebuild(f, r, s, e, a, data).value)
  {
    var rb := Rebuild(f, r, s, e, a, data);
    if rb.Ok? {
      ReplaceWhole(rec, Assemble(f, rb.value));
      assert PatchData(f, s, e, data, n, rec, r, a, rec) == Ok(ReplaceAll(rec, rec, Assemble(f, rb.value)));
    } else {
      assert PatchData(f, s, e, data, n, rec, r, a, rec) == Err(PatchRebuild(n, rb.error));
    }
  }

  /** Whether PatchRecord fails, and the state it moves to, do not depend on
      the text it patches. */
  lemma {:induction false} PatchRecordText(f: Format, errors: map<int, ErrorCode>, s: int, e: int, data: string,
                                           st: PatchState, rec: string, v: Verdict, t1: string, t2: string)
    requires |rec| > 0
    ensures PatchRecord(f, errors, s, e, data, st, rec, v, t1).Ok? <==>
            PatchRecord(f, errors, s, e, data, st, rec, v, t2).Ok?
    ensures PatchRecord(f, errors, s, e, data, st, rec, v, t1).Ok? ==>
      PatchRecord(f, errors, s, e, data, st, rec, v, t1).value.0 ==
      PatchRecord(f, errors, s, e, data, st, rec, v, t2).value.0
    ensures PatchRecord(f, errors, s, e, data, st, rec, v, t1).Err? ==>
      PatchRecord(f, errors, s, e, data, st, rec, v, t1) ==
      PatchRecord(f, errors, s, e, data, st, rec, v, t2)
  {
  }

  /** The corrected scan of a line fails exactly where the one written fails,
      with the same fault, and otherwise ends in the same state. */
  lemma {:induction false} PatchRecordsAgree(f: Format, errors: map<int, ErrorCode>, s: int, e: int, data: string,
                                             st: PatchState, recs: seq<string>, vs: seq<Verdict>, text: string)
    requires |vs| == |recs| && NonEmpty(recs)
    ensures var c := PatchRecordsCorrected(f, errors, s, e, data, st, recs, vs);
      var w := PatchRecords(f, errors, s, e, data, st, recs, vs, text);
      (c.Ok? <==> w.Ok?) && (c.Ok? ==> c.value.0 == w.value.0) && (c.Err? ==> c.error == w.error)
    decreases |recs|
  {
    if recs != [] {
      PatchRecordText(f, errors, s, e, data, st, recs[0], vs[0], recs[0], text);
      var p := PatchRecord(f, errors, s, e, data, st, recs[0], vs[0], text);
      if p.Ok? {
        PatchRecordsAgree(f, errors, s, e, data, p.value.0, recs[1..], vs[1..], p.value.1);
      }
    }
  }

  /** Every physical line written back as its patched records. */
  function PatchLinesCorrected(f: Format, errors: map<int, ErrorCode>, s: int, e: int, data: string,
                               st: PatchState, lines: seq<string>): (r: Result<(PatchState, seq<string>), PatchFault>)
    ensures r.Ok? ==> |r.value.1| == |lines|
    decreases |lines|
  {
    if lines == [] then Ok((st, []))
    else
      var recs := LineRecords(f, lines[0]);
      match PatchRecordsCorrected(f, errors, s, e, data, st, recs, Verdicts(f, recs))
      case Err(x) => Err(x)
      case Ok(p) =>
        match PatchLinesCorrected(f, errors, s, e, data, p.0, lines[1..])
        case Err(x) => Err(x)
        case Ok(q) => Ok((q.0, [Concat(p.1)] + q.1))
  }

  /** ModifyInFile with every record patched in its own place. */
  function ModifyInFileCorrected(f: Format, errors: map<int, ErrorCode>, lines: seq<string>, startAddress: string, data: string): (r: Option<seq<string>>)
    ensures r.Some? ==> |r.value| == |lines|
  {
    var s := HexToLong(startAddress);
    var e := RangeEnd(s, data);
    match PatchLinesCorrected(f, errors, s, e, data, PatchState(0, 0), lines)
    case Err(_) => None
    case Ok(p) => Some(p.1)
  }

  /** The corrected and the written scans of a file fail on the same files. */
  lemma {:induction false} PatchLinesAgree(f: Format, errors: map<int, ErrorCode>, s: int, e: int, data: string,
                                           st: PatchState, lines: seq<string>)
    ensures var c := PatchLinesCorrected(f, errors, s, e, data, st, lines);
      var w := PatchLines(f, errors, s, e, data, st, lines);
      (c.Ok? <==> w.Ok?) && (c.Ok? ==> c.value.0 == w.value.0) && (c.Err? ==> c.error == w.error)
    decreases |lines|
  {
    if lines != [] {
      var recs := LineRecords(f, lines[0]);
      PatchRecordsAgree(f, errors, s, e, data, st, recs, Verdicts(f, recs), lines[0]);
      var p := PatchRecords(f, errors, s, e, data, st, recs, Verdicts(f, recs), lines[0]);
      if p.Ok? {
        PatchLinesAgree(f, errors, s, e, data, p.value.0, lines[1..]);
      }
    }
  }

  /** ModifyInFile corrected returns false exactly when the one written does. */
  lemma {:induction false} ModifyInFileAgrees(f: Format, errors: map<int, ErrorCode>, lines: seq<string>, startAddress: string, data: string)
    ensures ModifyInFileCorrected(f, errors, lines, startAddress, data).Some? <==>
            ModifyInFile(f, errors, lines, startAddress, data).Some?
  {
    var s := HexToLong(startAddress);
    var e := RangeEnd(s, data);
    PatchLinesAgree(f, errors, s, e, data, PatchState(0, 0), lines);
    var w := PatchLines(f, errors, s, e, data, PatchState(0, 0), lines);
    var c := PatchLinesCorrected(f, errors, s, e, data, PatchState(0, 0), lines);
    if w.Ok? {
      assert ModifyInFile(f, errors, lines, startAddress, data) == Some(w.value.1);
      assert ModifyInFileCorrected(f, errors, lines, startAddress, data) == Some(c.value.1);
    } else {
      assert ModifyInFile(f, errors, lines, startAddress, data) == None;
      assert ModifyInFileCorrected(f, errors, lines, startAddress, data) == None;
    }
  }

  // ---------------------------------------------------------------------------
  // Modify

  /** The exception Modify lets escape: ModifyData called on the null block,
      or ModifyData itself throwing. */
  datatype ModifyFault = NullReference | ModifyDataThrows

  /** What a call to Modify leaves behind: its return value, the blocks in
      memory and the lines of the file. */
  datatype Modified = Modified(ok: bool, blocks: seq<Block>, lines: seq<string>)

  /** Modify(startAddress, data) as written: after the guard, with data in
      memory the block is looked up with the character count as byte count
      and patched; otherwise the file is rewritten by ModifyInFile. */
  function Modify(f: Format, errors: map<int, ErrorCode>, loadData: bool, store: bool,
                  blocks: seq<Block>, lines: seq<string>, startAddress: string, data: string): (r: Result<Modified, ModifyFault>)
    ensures r.Ok? && !r.value.ok ==> r.value.blocks == blocks && r.value.lines == lines
    ensures r.Ok? && loadData ==> r.value.lines == lines
    ensures r.Ok? && !loadData ==> r.value.blocks == blocks
    ensures r.Err? ==> loadData && Accepts(blocks, startAddress, data)
  {
    if !Accepts(blocks, startAddress, data) then Ok(Modified(false, blocks, lines))
    else if loadData then
      var s := HexToLong(startAddress);
      match TargetAsWritten(blocks, s, data)
      case None => Err(NullReference)
      case Some(k) =>
        if Fits(blocks[k], s, data) then Ok(Modified(true, blocks[k := ModifyBlock(blocks[k], s, data, store)], lines))
        else Err(ModifyDataThrows)
    else
      match ModifyInFile(f, errors, lines, startAddress, data)
      case None => Ok(Modified(false, blocks, lines))
      case Some(ls) => Ok(Modified(true, blocks, ls))
  }

  /** Modify with the block looked up for the |data| / 2 bytes the guard
      checked. */
  function ModifyCorrected(f: Format, errors: map<int, ErrorCode>, loadData: bool, store: bool,
                           blocks: seq<Block>, lines: seq<string>, startAddress: string, data: string): (r: Result<Modified, ModifyFault>)
    ensures r.Ok? && !r.value.ok ==> r.value.blocks == blocks && r.value.lines == lines
    ensures r.Ok? && loadData ==> r.value.lines == lines
    ensures r.Ok? && !loadData ==> r.value.blocks == blocks
  {
    if !Accepts(blocks, startAddress, data) then Ok(Modified(false, blocks, lines))
    else if loadData then
      var s := HexToLong(startAddress);
      match Target(blocks, s, data)
      case None => Err(NullReference)
      case Some(k) =>
        if Fits(blocks[k], s, data) then Ok(Modified(true, blocks[k := ModifyBlock(blocks[k], s, data, store)], lines))
        else Err(ModifyDataThrows)
    else
      match ModifyInFile(f, errors, lines, startAddress, data)
      case None => Ok(Modified(false, blocks, lines))
      case Some(ls) => Ok(Modified(true, blocks, ls))
  }

  /** Arguments the guard refuses: false, and nothing changes. */
  lemma {:induction false} ModifyRefused(f: Format, errors: map<int, ErrorCode>, loadData: bool, store: bool,
                                         blocks: seq<Block>, lines: seq<string>, startAddress: string, data: string)
    requires startAddress == "" || !AllHex(data) || |data| % 2 != 0 || !IsInRangeFor(blocks, HexToLong(startAddress), |data| / 2)
    ensures Modify(f, errors, loadData, store, blocks, lines, startAddress, data) == Ok(Modified(false, blocks, lines))
    ensures ModifyCorrected(f, errors, loadData, store, blocks, lines, startAddress, data) == Ok(Modified(false, blocks, lines))
  {
  }

  /** Data not in memory: Modify's result and the file are ModifyInFile's,
      the blocks stay as they were. */
  lemma {:induction false} ModifyOnFile(f: Format, errors: map<int, ErrorCode>, store: bool,
                                        blocks: seq<Block>, lines: seq<string>, startAddress: string, data: string)
    requires Accepts(blocks, startAddress, data)
    ensures var r := Modify(f, errors, false, store, blocks, lines, startAddress, data);
      var m := ModifyInFile(f, errors, lines, startAddress, data);
      r.Ok? && r.value.blocks == blocks && (r.value.ok <==> m.Some?) &&
      r.value.lines == (if m.Some? then m.value else lines)
  {
  }

  /** Data in memory and the lookup as written finding a block of
      well-formed blocks, the range not wrapping: true, only that block
      changes, and its payload takes the data over the bytes of the range. */
  lemma {:induction false} ModifyInBlock(f: Format, errors: map<int, ErrorCode>, store: bool,
                                         blocks: seq<Block>, lines: seq<string>, startAddress: string, data: string)
    requires forall k :: 0 <= k < |blocks| ==> BlockOk(blocks[k], true)
    requires Accepts(blocks, startAddress, data)
    requires -(Half64 as int) <= HexToLong(startAddress) + |data| - 1 < Half64
    requires TargetAsWritten(blocks, HexToLong(startAddress), data).Some?
    ensures var s := HexToLong(startAddress);
      var k := TargetAsWritten(blocks, s, data).value;
      var r := Modify(f, errors, true, store, blocks, lines, startAddress, data);
      var p := Offset(blocks[k], s);
      k < |blocks| && r.Ok? && r.value.ok && r.value.lines == lines &&
      |r.value.blocks| == |blocks| &&
      (forall j :: 0 <= j < |blocks| && j != k ==> r.value.blocks[j] == blocks[j]) &&
      blocks[k].start <= s && s + |data| - 1 <= blocks[k].end &&
      WrittenOver(r.value.blocks[k].payload, blocks[k].payload, p, View(store, data))
  {
    var s := HexToLong(startAddress);
    var k := TargetAsWritten(blocks, s, data).value;
    var b := blocks[k];
    assert b.start <= s && s + |data| - 1 <= b.end;
    BlockTakesData(b, s, data, store);
    var nb := ModifyBlock(b, s, data, store);
    assert Modify(f, errors, true, store, blocks, lines, startAddress, data) == Ok(Modified(true, blocks[k := nb], lines));
  }

  /** A well-formed block holding the |data| bytes from s takes the data:
      ModifyData does not throw and writes it over the range's characters. */
  lemma {:induction false} BlockTakesData(b: Block, s: int, data: string, store: bool)
    requires BlockOk(b, true) && b.start <= s && s + |data| - 1 <= b.end
    ensures Fits(b, s, data)
    ensures WrittenOver(ModifyBlock(b, s, data, store).payload, b.payload, Offset(b, s), View(store, data))
  {
    assert |View(store, data)| == |data|;
  }

  /** Data in memory and no block holding |data| bytes from the address:
      Modify throws, although the guard accepted the call. */
  lemma {:induction false} ModifyNull(f: Format, errors: map<int, ErrorCode>, store: bool,
                                      blocks: seq<Block>, lines: seq<string>, startAddress: string, data: string)
    requires Accepts(blocks, startAddress, data)
    requires TargetAsWritten(blocks, HexToLong(startAddress), data).None?
    ensures Modify(f, errors, true, store, blocks, lines, startAddress, data) == Err(NullReference)
  {
  }

  /** The corrected Modify on well-formed blocks never throws when the range
      does not wrap: with data in memory it returns true, changes only the
      block the guard found, and writes the data over exactly the bytes of
      the range. */
  lemma {:induction false} ModifyCorrectedInBlock(f: Format, errors: map<int, ErrorCode>, store: bool,
                                                  blocks: seq<Block>, lines: seq<string>, startAddress: string, data: string)
    requires forall k :: 0 <= k < |blocks| ==> BlockOk(blocks[k], true)
    requires Accepts(blocks, startAddress, data)
    requires -(Half64 as int) <= HexToLong(startAddress) + |data| / 2 - 1 < Half64
    ensures var s := HexToLong(startAddress);
      var r := ModifyCorrected(f, errors, true, store, blocks, lines, startAddress, data);
      Target(blocks, s, data).Some? &&
      var k := Target(blocks, s, data).value;
      var p := Offset(blocks[k], s);
      k < |blocks| && r.Ok? && r.value.ok && r.value.lines == lines &&
      |r.value.blocks| == |blocks| &&
      (forall j :: 0 <= j < |blocks| && j != k ==> r.value.blocks[j] == blocks[j]) &&
      blocks[k].start <= s && s + |data| / 2 - 1 <= blocks[k].end &&
      WrittenOver(r.value.blocks[k].payload, blocks[k].payload, p, View(store, data)) &&
      BlockOk(r.value.blocks[k], true)
  {
    ModifyInMemory(blocks, startAddress, data, store);
  }

  /** Among blocks that share no address, the first block holding the
      |data| bytes from s is also the first holding the |data| / 2 bytes
      from s, for even-length data. */
  lemma {:induction false} TargetsAgree(blocks: seq<Block>, s: int, data: string)
    requires forall i, j :: 0 <= i < j < |blocks| ==> blocks[i].end < blocks[j].start
    requires -(Half64 as int) <= s && s + |data| - 1 < Half64
    requires TargetAsWritten(blocks, s, data).Some? && |data| % 2 == 0
    ensures Target(blocks, s, data) == TargetAsWritten(blocks, s, data)
  {
    var k := TargetAsWritten(blocks, s, data).value;
    assert Contains(blocks[k], s, s + |data| - 1);
    if |data| > 0 {
      var e := s + ByteLength(data) - 1;
      assert Contains(blocks[k], s, e);
      NoEarlierBlock(blocks, s, e, k);
      FirstContaining(blocks, s, e, k);
      assert GetDataBlockFor(blocks, s, ByteLength(data)) == GetDataBlockFromRange(blocks, s, e);
    } else {
      assert ByteLength(data) == |data|;
    }
  }

  /** Among blocks that share no address, none before a block containing
      [s, e] contains it too. */
  lemma {:induction false} NoEarlierBlock(blocks: seq<Block>, s: int, e: int, k: nat)
    requires forall i, j :: 0 <= i < j < |blocks| ==> blocks[i].end < blocks[j].start
    requires k < |blocks| && Contains(blocks[k], s, e) && s <= e
    ensures forall j :: 0 <= j < k ==> !Contains(blocks[j], s, e)
  {
    forall i | 0 <= i < k ensures !Contains(blocks[i], s, e) {
      assert blocks[i].end < blocks[k].start;
    }
  }

  /** The lookup finds the first block containing the range. */
  lemma {:induction false} FirstContaining(blocks: seq<Block>, s: int, e: int, k: nat)
    requires k < |blocks| && Contains(blocks[k], s, e)
    requires forall j :: 0 <= j < k ==> !Contains(blocks[j], s, e)
    ensures GetDataBlockFromRange(blocks, s, e) == Some(k)
  {
    var r := GetDataBlockFromRange(blocks, s, e);
    assert r.Some?;
  }

  /** Where the lookup as written finds a block among blocks that share no
      address, Modify and the corrected Modify agree. */
  lemma {:induction false} ModifyAgrees(f: Format, errors: map<int, ErrorCode>, loadData: bool, store: bool,
                                        blocks: seq<Block>, lines: seq<string>, startAddress: string, data: string)
    requires forall i, j :: 0 <= i < j < |blocks| ==> blocks[i].end < blocks[j].start
    requires -(Half64 as int) <= HexToLong(startAddress) + |data| - 1 < Half64
    requires loadData && Accepts(blocks, startAddress, data) ==> TargetAsWritten(blocks, HexToLong(startAddress), data).Some?
    ensures Modify(f, errors, loadData, store, blocks, lines, startAddress, data) ==
            ModifyCorrected(f, errors, loadData, store, blocks, lines, startAddress, data)
  {
    if loadData && Accepts(blocks, startAddress, data) {
      TargetsAgree(blocks, HexToLong(startAddress), data);
    }
  }
}
