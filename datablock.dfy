/** A data block: a contiguous address range of the memory image with its
    payload, kept either as text or as a byte array (DataBlock.cs). */
module DataBlocks {
  import opened Hex

  /** What the RawData getter returns once the setter received `value`: the
      text itself in string mode, its upper-case form in byte mode. */
  function View(storeDataString: bool, value: string): string {
    if storeDataString then value else Upper(value)
  }

  /** s with d written over it from position p on. */
  function Splice(s: string, p: nat, d: string): (r: string)
    requires p + |d| <= |s|
    ensures |r| == |s|
    ensures r[..p] == s[..p] && r[p..p + |d|] == d && r[p + |d|..] == s[p + |d|..]
  {
    s[..p] + d + s[p + |d|..]
  }

  lemma {:induction false} HexOfBytesPrefix(b: seq<byte>, k: nat)
    requires k <= |b|
    ensures HexOfBytes(b)[..2 * k] == HexOfBytes(b[..k])
    ensures HexOfBytes(b)[2 * k..] == HexOfBytes(b[k..])
  {
    assert b == b[..k] + b[k..];
    HexOfBytesAppend(b[..k], b[k..]);
  }

  /** The byte offset of an address from a block's start address. */
  function Offset(startAddress: string, address: string): int {
    HexToLong(address) - HexToLong(startAddress)
  }

  class DataBlock {
    var startAddress: string   // hexadecimal text, "" while unset
    var endAddress: string
    var fileStartLine: int
    var fileEndLine: int
    var storeDataString: bool
    var rawBytes: array<byte>   // the payload in byte mode
    var rawString: string       // the payload in string mode

    /** The RawData getter: upper-case hexadecimal of the bytes in byte
        mode ("" for an empty array), the stored text in string mode. */
    function RawData(): (r: string)
      reads this, rawBytes
      ensures !storeDataString ==> |r| == 2 * rawBytes.Length
    {
      if storeDataString then rawString
      else if rawBytes.Length == 0 then ""
      else HexOfBytes(rawBytes[..])
    }

    /** The RawData setter. In byte mode it allocates |value| / 2 bytes and
        decodes two characters into each; DataBlock.RawData's setter throws on text that
        is not even-length hexadecimal, which the precondition excludes. */
    method SetRawData(value: string)
      requires storeDataString || (AllHex(value) && |value| % 2 == 0)
      modifies this
      ensures storeDataString == old(storeDataString)
      ensures RawData() == View(storeDataString, value)
      ensures storeDataString ==> rawString == value && rawBytes == old(rawBytes)
      ensures !storeDataString ==>
        fresh(rawBytes) && rawBytes[..] == HexBytes(value) && rawString == old(rawString)
      ensures startAddress == old(startAddress) && endAddress == old(endAddress)
      ensures fileStartLine == old(fileStartLine) && fileEndLine == old(fileEndLine)
    {
      if storeDataString {
        rawString := value;
      } else {
        rawBytes := DecodePairs(value);
        HexOfHexBytes(value);
      }
    }

    /** DataBlock(startAddress, endAddress, fileStartLine, fileEndLine,
        rawData, dataString): the storage mode is fixed before the payload is
        set, so the payload lands in the representation chosen here. */
    constructor (startAddress: string, endAddress: string, fileStartLine: int, fileEndLine: int,
                 rawData: string, dataString: bool)
      requires dataString || (AllHex(rawData) && |rawData| % 2 == 0)
      ensures this.startAddress == startAddress && this.endAddress == endAddress
      ensures this.fileStartLine == fileStartLine && this.fileEndLine == fileEndLine
      ensures storeDataString == dataString
      ensures dataString ==> rawString == rawData
      ensures !dataString ==> fresh(rawBytes) && rawBytes[..] == HexBytes(rawData)
      ensures RawData() == View(dataString, rawData)
    {
      this.startAddress := startAddress;
      this.endAddress := endAddress;
      this.fileStartLine := fileStartLine;
      this.fileEndLine := fileEndLine;
      storeDataString := dataString;
      rawBytes := new byte[0];
      rawString := "";
      new;
      SetRawData(rawData);
    }

    /** Length(): end address minus start address plus one, both decoded
        with HexToInt64 (failures decode to the long.MinValue sentinel). */
    function Length(): int
      reads this
    {
      HexToLong(endAddress) - HexToLong(startAddress) + 1
    }

    /** ModifyData(startAddress, data): overwrites the payload from the
        address on. String mode splices the text when the payload is not
        empty; byte mode overwrites |data| / 2 bytes in place when the array
        is not empty. The precondition is what DataBlock.ModifyData needs to not
        throw (Substring and array bounds, Convert.ToByte). */
    method ModifyData(address: string, data: string)
      requires storeDataString && rawString != "" ==>
        0 <= Offset(startAddress, address) && 2 * Offset(startAddress, address) + |data| <= |rawString|
      requires !storeDataString && rawBytes.Length > 0 ==>
        0 <= Offset(startAddress, address) && AllHex(data) && |data| % 2 == 0 &&
        Offset(startAddress, address) + |data| / 2 <= rawBytes.Length
      modifies this, rawBytes
      ensures rawBytes == old(rawBytes) && rawBytes.Length == old(rawBytes.Length)
      ensures storeDataString == old(storeDataString)
      ensures startAddress == old(startAddress) && endAddress == old(endAddress)
      ensures fileStartLine == old(fileStartLine) && fileEndLine == old(fileEndLine)
      ensures storeDataString ==> (rawString ==
        if old(rawString) == "" then old(rawString)
        else Splice(old(rawString), 2 * Offset(startAddress, address), data))
      ensures !storeDataString ==> rawString == old(rawString)
      ensures !storeDataString ==> (rawBytes[..] ==
        if old(rawBytes.Length) == 0 then old(rawBytes[..])
        else old(rawBytes[..Offset(startAddress, address)]) + HexBytes(data) + old(rawBytes[Offset(startAddress, address) + |data| / 2..]))
      ensures RawData() ==
        if old(RawData()) == "" then old(RawData())
        else Splice(old(RawData()), 2 * Offset(startAddress, address), View(storeDataString, data))
      ensures |RawData()| == |old(RawData())| && Length() == old(Length())
    {
      var p := Offset(startAddress, address);
      if storeDataString {
        if rawString != "" {
          rawString := rawString[..2 * p] + data + rawString[2 * p + |data|..];
        }
      } else if rawBytes.Length > 0 {
        ModifyBytes(p, data);
      }
    }

    /** ModifyData in byte mode on a non-empty array. */
    method ModifyBytes(p: nat, data: string)
      requires !storeDataString && rawBytes.Length > 0
      requires AllHex(data) && |data| % 2 == 0 && p + |data| / 2 <= rawBytes.Length
      modifies rawBytes
      ensures rawBytes[..] == old(rawBytes[..p]) + HexBytes(data) + old(rawBytes[p + |data| / 2..])
      ensures RawData() == Splice(old(RawData()), 2 * p, Upper(data))
    {
      ghost var before := rawBytes[..];
      OverwritePairs(rawBytes, p, data);
      SplicedText(before, p, data);
    }
  }

  /** ModifyData's byte-mode loop: each pair of data characters overwrites
      one byte, from byte p on. */
  method OverwritePairs(bytes: array<byte>, p: nat, data: string)
    requires AllHex(data) && |data| % 2 == 0 && p + |data| / 2 <= bytes.Length
    modifies bytes
    ensures bytes[..] == old(bytes[..p]) + HexBytes(data) + old(bytes[p + |data| / 2..])
  {
    ghost var b0 := bytes[..];
    var i := 0;
    while i < |data|
      invariant 0 <= i <= |data| && i % 2 == 0
      invariant Overwritten(bytes[..], b0, p, data, i)
    {
      HexBytesSnoc(data, i);
      var v := PairValue(data[i..i + 2]);
      ghost var before := bytes[..];
      bytes[p + i / 2] := v;
      OverwriteStep(b0, p, data, i, i + 2, before, bytes[..]);
      i := i + 2;
    }
    assert data[..|data|] == data;
  }

  /** The buffer after the loop has written the first i data characters:
      the bytes before p and after those written are as they were. */
  ghost predicate Overwritten(cur: seq<byte>, b0: seq<byte>, p: nat, data: string, i: nat) {
    i <= |data| && i % 2 == 0 && AllHex(data[..i]) && p + i / 2 <= |b0| &&
    cur == b0[..p] + HexBytes(data[..i]) + b0[p + i / 2..]
  }

  /** One turn of ModifyData's byte-mode loop: the byte after those already
      written takes the next pair's value. */
  lemma {:induction false} OverwriteStep(b0: seq<byte>, p: nat, data: string, i: nat, next: nat, before: seq<byte>, after: seq<byte>)
    requires AllHex(data) && |data| % 2 == 0 && next == i + 2 <= |data| && p + |data| / 2 <= |b0|
    requires AllHex(data[i..i + 2]) && AllHex(data[..i + 2])
    requires Overwritten(before, b0, p, data, i)
    requires HexBytes(data[..i + 2]) == HexBytes(data[..i]) + [PairValue(data[i..i + 2])]
    requires after == before[p + i / 2 := PairValue(data[i..i + 2])]
    ensures Overwritten(after, b0, p, data, next)
  {
    OverwriteNext(b0[..p], HexBytes(data[..i]), b0[p + i / 2..], PairValue(data[i..i + 2]));
    assert b0[p + i / 2..][1..] == b0[p + (i + 2) / 2..];
  }

  /** The setter's loop: two characters decoded into each byte. */
  method DecodePairs(value: string) returns (bytes: array<byte>)
    requires AllHex(value) && |value| % 2 == 0
    ensures fresh(bytes) && bytes[..] == HexBytes(value)
  {
    bytes := new byte[|value| / 2];
    var i := 0;
    while i < |value|
      invariant 0 <= i <= |value| && i % 2 == 0
      invariant bytes[..i / 2] == HexBytes(value[..i])
    {
      HexBytesSnoc(value, i);
      bytes[i / 2] := PairValue(value[i..i + 2]);
      i := i + 2;
    }
    assert value[..|value|] == value;
  }

  /** The text of bytes spliced into a buffer is the buffer's text with the
      upper-cased hexadecimal spliced in at twice the offset. */
  lemma {:induction false} SplicedText(before: seq<byte>, p: nat, data: string)
    requires AllHex(data) && |data| % 2 == 0 && p + |data| / 2 <= |before|
    ensures HexOfBytes(before[..p] + HexBytes(data) + before[p + |data| / 2..])
         == Splice(HexOfBytes(before), 2 * p, Upper(data))
  {
    var q := p + |data| / 2;
    var pre, mid, post := before[..p], HexBytes(data), before[q..];
    HexOfBytesAppend(pre + mid, post);
    HexOfBytesAppend(pre, mid);
    HexOfHexBytes(data);
    HexOfBytesPrefix(before, p);
    HexOfBytesPrefix(before, q);
    var whole, u := HexOfBytes(before), Upper(data);
    assert 2 * q == 2 * p + |u|;
    assert Splice(whole, 2 * p, u) == whole[..2 * p] + u + whole[2 * q..];
    assert HexOfBytes(pre + mid + post) == whole[..2 * p] + u + whole[2 * q..];
  }

  /** A block whose addresses were written by long.ToString("X") has the
      length its numeric range says. */
  lemma {:induction false} LengthOfRendered(b: DataBlock, s: int, e: int)
    requires -(Half64 as int) <= s < Half64 && -(Half64 as int) <= e < Half64
    requires b.startAddress == LongText(s) && b.endAddress == LongText(e)
    ensures b.Length() == e - s + 1
  {
  }

  /** A block whose addresses were written by long.ToString("X") and whose
      payload holds two characters per byte of that range holds Length()
      bytes: Length() character pairs in RawData, and in byte mode an array
      of Length() bytes. ModifyData keeps both sizes, so this stays true. */
  lemma {:induction false} PayloadLength(b: DataBlock, s: int, e: int, payload: string)
    requires -(Half64 as int) <= s < Half64 && -(Half64 as int) <= e < Half64
    requires b.startAddress == LongText(s) && b.endAddress == LongText(e)
    requires |payload| == 2 * (e - s + 1)
    requires b.RawData() == View(b.storeDataString, payload)
    ensures |b.RawData()| == 2 * b.Length()
    ensures !b.storeDataString ==> b.rawBytes.Length == b.Length()
  {
    LengthOfRendered(b, s, e);
    assert |View(b.storeDataString, payload)| == |payload|;
  }
}
