/** Range queries (SRecord.cs): IsInRange and GetDataBlockFromRange over the
    merged blocks, ReadRange over their payloads in memory, and
    ReadRangeFromFile, which scans the records again and gathers the pieces
    of the range in a sorted dictionary. Addresses are the values HexToInt64
    decoded from the caller's text (HexToLong, failures being the
    long.MinValue sentinel). */
module Query {
  import opened Wrappers
  import opened Hex
  import opened Formats
  import opened Reader

  /** C# long arithmetic is unchecked: a sum wraps modulo 2^64. */
  function Wrap64(x: int): (r: int)
    ensures -(Half64 as int) <= r < Half64
    ensures -(Half64 as int) <= x < Half64 ==> r == x
  {
    (x + Half64) % (2 * Half64) - Half64
  }

  /** The end address the length overloads compute, (start + len - 1)
      rendered with ToString("X") and decoded again. */
  function EndOf(start: int, len: int): (e: int)
    ensures -(Half64 as int) <= start + len - 1 < Half64 ==> e == start + len - 1
  {
    var x := Wrap64(start + len - 1);
    HexToLong(LongText(x))
  }

  predicate Contains(b: Block, s: int, e: int) {
    b.start <= s && e <= b.end
  }

  // ---------------------------------------------------------------------------
  // IsInRange and GetDataBlockFromRange: the first block containing the range

  /** GetDataBlockFromRange: the index of the first block whose bounds
      contain [s, e], or None for the null SRecord.GetDataBlockFromRange returns. */
  function GetDataBlockFromRange(blocks: seq<Block>, s: int, e: int): (r: Option<nat>)
    ensures r.Some? ==> r.value < |blocks| && Contains(blocks[r.value], s, e)
    ensures r.Some? ==> forall j :: 0 <= j < r.value ==> !Contains(blocks[j], s, e)
    ensures r.None? <==> forall j :: 0 <= j < |blocks| ==> !Contains(blocks[j], s, e)
    decreases |blocks|
  {
    if |blocks| == 0 then None
    else if Contains(blocks[0], s, e) then Some(0)
    else
      match GetDataBlockFromRange(blocks[1..], s, e)
      case None => None
      case Some(k) => Some(k + 1)
  }

  /** IsInRange: some block contains [s, e]. SRecord.IsInRange does not ask for
      s <= e, so an inverted range inside a block is "in range" too. */
  function IsInRange(blocks: seq<Block>, s: int, e: int): (r: bool)
    ensures r <==> exists k :: 0 <= k < |blocks| && Contains(blocks[k], s, e)
  {
    GetDataBlockFromRange(blocks, s, e).Some?
  }

  /** IsInRange(start, len): false unless len > 0, then the range of len
      bytes from start. */
  function IsInRangeFor(blocks: seq<Block>, s: int, len: int): (r: bool)
    ensures -(Half64 as int) <= s + len - 1 < Half64 ==>
      (r <==> len > 0 && exists k :: 0 <= k < |blocks| && Contains(blocks[k], s, s + len - 1))
  {
    len > 0 && IsInRange(blocks, s, EndOf(s, len))
  }

  /** GetDataBlockFromRange(start, len): unlike the other length overloads it
      does not check len > 0. */
  function GetDataBlockFor(blocks: seq<Block>, s: int, len: int): (r: Option<nat>)
    ensures -(Half64 as int) <= s + len - 1 < Half64 ==>
      r == GetDataBlockFromRange(blocks, s, s + len - 1)
  {
    GetDataBlockFromRange(blocks, s, EndOf(s, len))
  }

  // ---------------------------------------------------------------------------
  // ReadRange: the payload slice of the last block containing the range

  /** String.Substring(p, n), None when it throws. */
  function Sub(t: string, p: int, n: int): (r: Option<string>)
    ensures r.Some? <==> 0 <= p && 0 <= n && p + n <= |t|
    ensures r.Some? ==> |r.value| == n
  {
    if 0 <= p && 0 <= n && p + n <= |t| then Some(t[p..p + n]) else None
  }

  /** ReadRange's loop over the blocks: every block containing the range
      takes its slice, so the last one wins, and any slice past the end of
      its payload throws (None). */
  function RangeLoop(blocks: seq<Block>, s: int, e: int): Option<string>
  {
    if |blocks| == 0 then Some("")
    else
      var r := RangeLoop(blocks[..|blocks| - 1], s, e);
      var b := blocks[|blocks| - 1];
      if r.None? then None
      else if Contains(b, s, e) then Sub(b.payload, 2 * (s - b.start), 2 * (e - s + 1))
      else r
  }

  /** ReadRange(start, end): "" unless the payloads are loaded and s <= e. */
  function ReadRange(blocks: seq<Block>, loadData: bool, s: int, e: int): Option<string> {
    if !loadData || s > e then Some("") else RangeLoop(blocks, s, e)
  }

  /** ReadRange(start, len): "" unless len > 0. */
  function ReadRangeFor(blocks: seq<Block>, loadData: bool, s: int, len: int): Option<string> {
    if len > 0 then ReadRange(blocks, loadData, s, EndOf(s, len)) else Some("")
  }

  /** The index of the last block containing [s, e]. */
  function LastContaining(blocks: seq<Block>, s: int, e: int): (r: Option<nat>)
    ensures r.Some? ==> r.value < |blocks| && Contains(blocks[r.value], s, e)
    ensures r.Some? ==> forall j :: r.value < j < |blocks| ==> !Contains(blocks[j], s, e)
    ensures r.None? <==> forall j :: 0 <= j < |blocks| ==> !Contains(blocks[j], s, e)
  {
    if |blocks| == 0 then None
    else if Contains(blocks[|blocks| - 1], s, e) then Some(|blocks| - 1)
    else LastContaining(blocks[..|blocks| - 1], s, e)
  }

  /** On blocks the reader built with payloads loaded, ReadRange never
      throws: it returns the 2 * (e - s + 1) characters of the last block
      containing the range, starting at 2 * (s - start), and "" when no block
      contains it, when s > e, or when the payloads are not loaded. */
  lemma {:induction false} ReadRangeFacts(blocks: seq<Block>, loadData: bool, s: int, e: int)
    requires forall k :: 0 <= k < |blocks| ==> BlockOk(blocks[k], true)
    ensures ReadRange(blocks, loadData, s, e).Some?
    ensures !loadData || s > e || LastContaining(blocks, s, e).None? ==>
      ReadRange(blocks, loadData, s, e) == Some("")
    ensures loadData && s <= e && LastContaining(blocks, s, e).Some? ==>
      var b := blocks[LastContaining(blocks, s, e).value];
      ReadRange(blocks, loadData, s, e) == Sub(b.payload, 2 * (s - b.start), 2 * (e - s + 1))
  {
    if loadData && s <= e {
      RangeLoopFacts(blocks, s, e);
    }
  }

  lemma {:induction false} RangeLoopFacts(blocks: seq<Block>, s: int, e: int)
    requires s <= e
    requires forall k :: 0 <= k < |blocks| ==> BlockOk(blocks[k], true)
    ensures LastContaining(blocks, s, e).None? ==> RangeLoop(blocks, s, e) == Some("")
    ensures RangeLoop(blocks, s, e).Some?
    ensures LastContaining(blocks, s, e).Some? ==>
      var b := blocks[LastContaining(blocks, s, e).value];
      RangeLoop(blocks, s, e) == Sub(b.payload, 2 * (s - b.start), 2 * (e - s + 1))
  {
    if |blocks| > 0 {
      var p := blocks[..|blocks| - 1];
      assert forall k :: 0 <= k < |p| ==> p[k] == blocks[k];
      RangeLoopFacts(p, s, e);
      var b := blocks[|blocks| - 1];
      assert BlockOk(b, true);
    }
  }

  // ---------------------------------------------------------------------------
  // ReadRangeFromFile: the pieces of the range, gathered in a sorted dictionary

  /** A dictionary entry: the address a piece starts at and its text. */
  datatype Piece = Piece(key: int, text: string)

  /** What makes ReadRangeFromFile throw. */
  datatype RangeFault =
    | ParseThrows(line: nat, fault: ParseFault)  // ParseLine throws
    | Unchecked(line: nat)                       // a record failing CheckLine that the error map does not list
    | SliceThrows(line: nat)                     // a Substring past the end of a data field
    | DuplicateKey(line: nat, key: int)          // SortedDictionary.Add of a key already present

  /** The SortedDictionary: entries in strictly increasing key order. */
  predicate Increasing(d: seq<Piece>) {
    forall i, j :: 0 <= i < j < |d| ==> d[i].key < d[j].key
  }

  /** SortedDictionary.Add: None when the key is already present (Add
      throws), otherwise the entry takes its place in key order. */
  function Add(d: seq<Piece>, p: Piece): (r: Option<seq<Piece>>)
    requires Increasing(d)
    ensures r.None? <==> exists i :: 0 <= i < |d| && d[i].key == p.key
    ensures r.Some? ==> Increasing(r.value)
    ensures r.Some? ==> forall q :: q in r.value <==> q in d || q == p
    ensures r.Some? ==> |r.value| == |d| + 1
    decreases |d|
  {
    if d == [] then Some([p])
    else if d[0].key == p.key then None
    else if p.key < d[0].key then Some([p] + d)
    else
      match Add(d[1..], p)
      case None => None
      case Some(t) =>
        assert forall q :: q in t ==> d[0].key < q.key by {
          forall q | q in t ensures d[0].key < q.key {
            if q != p {
              var i :| 0 <= i < |d[1..]| && d[1..][i] == q;
              assert d[i + 1] == q;
            }
          }
        }
        Some([d[0]] + t)
  }

  /** The values of the dictionary, concatenated in key order. */
  function Values(d: seq<Piece>): string {
    if d == [] then "" else d[0].text + Values(d[1..])
  }

  /** How one data record meets the range [s, e]. */
  datatype Cut = Miss | Hit(piece: Piece) | Throw

  /** The part of a data record at address a that ReadRangeFromFile keeps:
      from a when a lies in the range, cut at e; from s when s lies inside
      the record, cut at e or the record's end. */
  function Intersect(s: int, e: int, a: int, data: string): Cut {
    var z := a + |data| / 2 - 1;
    if s <= a <= e then
      if z <= e then Hit(Piece(a, data))
      else
        match Sub(data, 0, 2 * (e - a + 1))
        case None => Throw
        case Some(t) => Hit(Piece(a, t))
    else if a <= s <= z then
      var n := if z <= e then 2 * (z - s + 1) else 2 * (e - s + 1);
      match Sub(data, 2 * (s - a), n)
      case None => Throw
      case Some(t) => Hit(Piece(s, t))
    else Miss
  }

  function Max(a: int, b: int): int { if a >= b then a else b }
  function Min(a: int, b: int): int { if a <= b then a else b }

  /** A record with an even data field never makes the cut throw; it is kept
      exactly when it starts inside the range or the range starts inside it,
      and the piece is the record's bytes at addresses max(a, s) ..
      min(record end, e). */
  lemma {:induction false} IntersectFacts(s: int, e: int, a: int, data: string)
    requires s <= e && |data| % 2 == 0
    ensures Intersect(s, e, a, data) != Throw
    ensures Intersect(s, e, a, data).Hit? <==> (s <= a <= e || a <= s <= a + |data| / 2 - 1)
    ensures Intersect(s, e, a, data).Hit? ==>
      var p := Intersect(s, e, a, data).piece;
      var z := a + |data| / 2 - 1;
      p.key == Max(a, s) && s <= p.key && p.key + |p.text| / 2 - 1 <= e &&
      |p.text| == 2 * (Min(z, e) - p.key + 1) &&
      p.text == data[2 * (p.key - a)..2 * (Min(z, e) - a + 1)]
  {
  }

  /** The state of ReadRangeFromFile's loop: the address bank and the dictionary. */
  datatype RangeState = RangeState(bank: int, dict: seq<Piece>)

  /** One record of ReadRangeFromFile's loop, record number n: records with
      an entry in the error map are skipped; banks are tracked as in Read;
      data records add their cut. Checksums are not compared again. */
  function RangeStep(f: Format, errors: map<int, ErrorCode>, s: int, e: int,
                     st: RangeState, n: nat, v: Verdict): (r: Result<RangeState, RangeFault>)
    requires Increasing(st.dict)
    ensures r.Ok? ==> Increasing(r.value.dict)
  {
    if n in errors then Ok(st)
    else
      match v
      case Rejected(_) => Err(Unchecked(n))
      case Throws(x) => Err(ParseThrows(n, x))
      case Parsed(r) =>
        match GetRecordType(f, r.typ)
        case ExtendedSegmentAddress => Ok(st.(bank := ShiftedHexToLong(r.data, 1)))
        case ExtendedLinearAddress => Ok(st.(bank := ShiftedHexToLong(r.data, 4)))
        case Data =>
          (match Intersect(s, e, st.bank + r.addressLong, r.data)
           case Miss => Ok(st)
           case Throw => Err(SliceThrows(n))
           case Hit(p) =>
             match Add(st.dict, p)
             case None => Err(DuplicateKey(n, p.key))
             case Some(d) => Ok(st.(dict := d)))
        case _ => Ok(st)
  }

  /** ReadRangeFromFile's loop over the records, the first fault ending it. */
  function Collect(f: Format, errors: map<int, ErrorCode>, s: int, e: int, vs: seq<Verdict>): (r: Result<RangeState, RangeFault>)
    ensures r.Ok? ==> Increasing(r.value.dict)
  {
    if vs == [] then Ok(RangeState(0, []))
    else
      match Collect(f, errors, s, e, vs[..|vs| - 1])
      case Err(x) => Err(x)
      case Ok(st) =>
        match RangeStep(f, errors, s, e, st, |vs|, vs[|vs| - 1])
        case Err(x) => Err(x)
        case Ok(st') => Ok(st')
  }

  /** ReadRangeFromFile(start, end): "" when s > e; otherwise the dictionary's
      values in key order, or "" when they do not add up to exactly
      e - s + 1 bytes. */
  function ReadRangeFromFile(f: Format, errors: map<int, ErrorCode>, vs: seq<Verdict>, s: int, e: int): Result<string, RangeFault> {
    if s > e then Ok("")
    else
      match Collect(f, errors, s, e, vs)
      case Err(x) => Err(x)
      case Ok(st) =>
        var t := Values(st.dict);
        Ok(if |t| == 2 * (e - s + 1) then t else "")
  }

  /** ReadRangeFromFile(start, len): "" unless len > 0. */
  function ReadRangeFromFileFor(f: Format, errors: map<int, ErrorCode>, vs: seq<Verdict>, s: int, len: int): Result<string, RangeFault> {
    if len > 0 then ReadRangeFromFile(f, errors, vs, s, EndOf(s, len)) else Ok("")
  }

  // ---------------------------------------------------------------------------
  // What the dictionary holds

  /** Every piece lies inside [lo, e] and has even hexadecimal text. */
  predicate Within(d: seq<Piece>, lo: int, e: int) {
    forall i :: 0 <= i < |d| ==>
      lo <= d[i].key && d[i].key + |d[i].text| / 2 - 1 <= e &&
      |d[i].text| % 2 == 0 && AllHex(d[i].text)
  }

  /** A record whose data ReadRangeFromFile may cut: even hexadecimal data. */
  predicate Even(v: Verdict) {
    v.Parsed? ==> AllHex(v.r.data) && |v.r.data| % 2 == 0
  }

  lemma {:induction false} AddWithin(d: seq<Piece>, p: Piece, lo: int, e: int)
    requires Increasing(d) && Within(d, lo, e) && Add(d, p).Some?
    requires lo <= p.key && p.key + |p.text| / 2 - 1 <= e && |p.text| % 2 == 0 && AllHex(p.text)
    ensures Within(Add(d, p).value, lo, e)
  {
    var t := Add(d, p).value;
    forall i | 0 <= i < |t|
      ensures lo <= t[i].key && t[i].key + |t[i].text| / 2 - 1 <= e
      ensures |t[i].text| % 2 == 0 && AllHex(t[i].text)
    {
      assert t[i] in t;
      if t[i] != p {
        var j :| 0 <= j < |d| && d[j] == t[i];
      }
    }
  }

  lemma {:induction false} SubHex(data: string, p: int, n: int)
    requires AllHex(data) && Sub(data, p, n).Some?
    ensures AllHex(Sub(data, p, n).value)
  {
    var t := Sub(data, p, n).value;
    assert forall k :: 0 <= k < |t| ==> t[k] == data[p + k];
  }

  /** A kept piece of an even hexadecimal data field is even hexadecimal
      text inside the range. */
  lemma {:induction false} CutWithin(s: int, e: int, a: int, data: string)
    requires s <= e && AllHex(data) && |data| % 2 == 0
    ensures Intersect(s, e, a, data).Hit? ==>
      var p := Intersect(s, e, a, data).piece;
      s <= p.key && p.key + |p.text| / 2 - 1 <= e && |p.text| % 2 == 0 && AllHex(p.text)
  {
    IntersectFacts(s, e, a, data);
    var c := Intersect(s, e, a, data);
    if c.Hit? {
      var z := a + |data| / 2 - 1;
      var lo := 2 * (c.piece.key - a);
      var hi := 2 * (Min(z, e) - a + 1);
      assert forall k :: 0 <= k < hi - lo ==> c.piece.text[k] == data[lo + k];
    }
  }

  lemma {:induction false} StepWithin(f: Format, errors: map<int, ErrorCode>, s: int, e: int, st: RangeState, n: nat, v: Verdict)
    requires s <= e && Increasing(st.dict) && Within(st.dict, s, e) && Even(v)
    requires RangeStep(f, errors, s, e, st, n, v).Ok?
    ensures Within(RangeStep(f, errors, s, e, st, n, v).value.dict, s, e)
  {
    if n !in errors && v.Parsed? && GetRecordType(f, v.r.typ) == Data {
      var a := st.bank + v.r.addressLong;
      var c := Intersect(s, e, a, v.r.data);
      DataStepDict(f, errors, s, e, st, n, v, a, c);
      CutWithin(s, e, a, v.r.data);
      if c.Hit? {
        AddWithin(st.dict, c.piece, s, e);
      }
    }
  }

  /** A data record's step keeps the dictionary or adds the record's cut. */
  lemma DataStepDict(f: Format, errors: map<int, ErrorCode>, s: int, e: int, st: RangeState, n: nat, v: Verdict, a: int, c: Cut)
    requires Increasing(st.dict) && n !in errors && v.Parsed? && GetRecordType(f, v.r.typ) == Data
    requires a == st.bank + v.r.addressLong && c == Intersect(s, e, a, v.r.data)
    requires RangeStep(f, errors, s, e, st, n, v).Ok?
    ensures c.Hit? ==> Add(st.dict, c.piece).Some?
    ensures c.Hit? ==> RangeStep(f, errors, s, e, st, n, v).value.dict == Add(st.dict, c.piece).value
    ensures c.Miss? ==> RangeStep(f, errors, s, e, st, n, v).value.dict == st.dict
    ensures !c.Throw?
  {
  }

  /** Every piece the loop gathers is the part of one record inside [s, e]:
      the dictionary's entries lie within the range, in increasing key order. */
  lemma {:induction false} CollectWithin(f: Format, errors: map<int, ErrorCode>, s: int, e: int, vs: seq<Verdict>)
    requires s <= e
    requires forall k :: 0 <= k < |vs| ==> Even(vs[k])
    requires Collect(f, errors, s, e, vs).Ok?
    ensures Within(Collect(f, errors, s, e, vs).value.dict, s, e)
  {
    if vs != [] {
      var p := vs[..|vs| - 1];
      assert forall k :: 0 <= k < |p| ==> p[k] == vs[k];
      CollectWithin(f, errors, s, e, p);
      StepWithin(f, errors, s, e, Collect(f, errors, s, e, p).value, |vs|, vs[|vs| - 1]);
    }
  }

  /** The cut record n adds at this bank: none unless it is a data record
      that the error map does not skip and that overlaps the range. */
  function RecordCut(f: Format, errors: map<int, ErrorCode>, s: int, e: int, n: nat, v: Verdict, bank: int): seq<Piece> {
    if n !in errors && v.Parsed? && GetRecordType(f, v.r.typ) == Data &&
       Intersect(s, e, bank + v.r.addressLong, v.r.data).Hit?
    then [Intersect(s, e, bank + v.r.addressLong, v.r.data).piece]
    else []
  }

  /** The cuts of the file's data records that the error map does not skip,
      in file order, each taken at the bank the loop held before it. */
  function Cuts(f: Format, errors: map<int, ErrorCode>, s: int, e: int, vs: seq<Verdict>): seq<Piece> {
    if vs == [] then []
    else
      Cuts(f, errors, s, e, vs[..|vs| - 1]) +
        match Collect(f, errors, s, e, vs[..|vs| - 1])
        case Ok(st) => RecordCut(f, errors, s, e, |vs|, vs[|vs| - 1], st.bank)
        case Err(_) => []
  }

  /** The dictionary holds exactly the cuts of the file's data records: each
      piece is the part inside [s, e] of one record, at the address the
      record is read at, and no cut is missing. */
  lemma {:induction false} CollectCuts(f: Format, errors: map<int, ErrorCode>, s: int, e: int, vs: seq<Verdict>)
    requires Collect(f, errors, s, e, vs).Ok?
    ensures var d := Collect(f, errors, s, e, vs).value.dict;
      |d| == |Cuts(f, errors, s, e, vs)| && forall q :: q in d <==> q in Cuts(f, errors, s, e, vs)
  {
    if vs != [] {
      var p := vs[..|vs| - 1];
      var v := vs[|vs| - 1];
      CollectLast(f, errors, s, e, vs);
      CollectCuts(f, errors, s, e, p);
      var st := Collect(f, errors, s, e, p).value;
      StepCuts(f, errors, s, e, st, |vs|, v);
      var c := RecordCut(f, errors, s, e, |vs|, v, st.bank);
      assert Cuts(f, errors, s, e, vs) == Cuts(f, errors, s, e, p) + c;
      var d := Collect(f, errors, s, e, vs).value.dict;
      assert d == RangeStep(f, errors, s, e, st, |vs|, v).value.dict;
      forall q ensures q in d <==> q in Cuts(f, errors, s, e, vs) {
        assert q in Cuts(f, errors, s, e, vs) <==> q in Cuts(f, errors, s, e, p) || q in c;
      }
    }
  }

  /** The loop's state after the last record is one step from the state before it. */
  lemma {:induction false} CollectLast(f: Format, errors: map<int, ErrorCode>, s: int, e: int, vs: seq<Verdict>)
    requires vs != [] && Collect(f, errors, s, e, vs).Ok?
    ensures Collect(f, errors, s, e, vs[..|vs| - 1]).Ok?
    ensures RangeStep(f, errors, s, e, Collect(f, errors, s, e, vs[..|vs| - 1]).value, |vs|, vs[|vs| - 1]).Ok?
    ensures Collect(f, errors, s, e, vs).value ==
      RangeStep(f, errors, s, e, Collect(f, errors, s, e, vs[..|vs| - 1]).value, |vs|, vs[|vs| - 1]).value
  {
  }

  /** One step adds the record's cut to the dictionary, when it has one,
      and otherwise leaves the dictionary as it is. */
  lemma {:induction false} StepCuts(f: Format, errors: map<int, ErrorCode>, s: int, e: int, st: RangeState, n: nat, v: Verdict)
    requires Increasing(st.dict) && RangeStep(f, errors, s, e, st, n, v).Ok?
    ensures var d := RangeStep(f, errors, s, e, st, n, v).value.dict;
      var c := RecordCut(f, errors, s, e, n, v, st.bank);
      |d| == |st.dict| + |c| && forall q :: q in d <==> q in st.dict || q in c
  {
    if n !in errors && v.Parsed? && GetRecordType(f, v.r.typ) == Data {
      var a := st.bank + v.r.addressLong;
      DataStepDict(f, errors, s, e, st, n, v, a, Intersect(s, e, a, v.r.data));
    }
  }

  // ---------------------------------------------------------------------------
  // The length check detects gaps between pieces that do not overlap

  /** Consecutive pieces do not overlap. */
  predicate Disjoint(d: seq<Piece>) {
    forall i :: 0 <= i < |d| - 1 ==> d[i].key + |d[i].text| / 2 <= d[i + 1].key
  }

  /** Address x lies in some piece. */
  predicate Covered(d: seq<Piece>, x: int) {
    exists i :: 0 <= i < |d| && d[i].key <= x < d[i].key + |d[i].text| / 2
  }

  /** Pieces inside [lo, e] that do not overlap hold at most e - lo + 1
      bytes, and exactly that many only when they leave no address of
      [lo, e] uncovered. */
  lemma {:induction false} NoGap(d: seq<Piece>, lo: int, e: int)
    requires Increasing(d) && Disjoint(d) && Within(d, lo, e) && lo <= e + 1
    ensures |Values(d)| <= 2 * (e - lo + 1)
    ensures |Values(d)| == 2 * (e - lo + 1) ==> forall x :: lo <= x <= e ==> Covered(d, x)
    decreases |d|
  {
    if d != [] {
      var p := d[0];
      var rest := d[1..];
      var hi := p.key + |p.text| / 2;
      assert Within(rest, hi, e) by {
        forall i | 0 <= i < |rest|
          ensures hi <= rest[i].key
        {
          assert d[i + 1] == rest[i];
          if i > 0 {
            assert d[1].key < d[i + 1].key;
          }
        }
      }
      NoGap(rest, hi, e);
      if |Values(d)| == 2 * (e - lo + 1) {
        forall x | lo <= x <= e ensures Covered(d, x) {
          if x < hi {
            assert d[0].key <= x < d[0].key + |d[0].text| / 2;
          } else {
            assert Covered(rest, x);
            var i :| 0 <= i < |rest| && rest[i].key <= x < rest[i].key + |rest[i].text| / 2;
            assert d[i + 1] == rest[i];
          }
        }
      }
    }
  }

  /** ReadRangeFromFile's answer: an error, "", or exactly e - s + 1 bytes of
      even hexadecimal text; and when the gathered pieces do not overlap, a
      non-empty answer leaves no address of [s, e] outside every piece. */
  lemma {:induction false} ReadRangeFromFileFacts(f: Format, errors: map<int, ErrorCode>, vs: seq<Verdict>, s: int, e: int)
    requires forall k :: 0 <= k < |vs| ==> Even(vs[k])
    requires ReadRangeFromFile(f, errors, vs, s, e).Ok?
    ensures var t := ReadRangeFromFile(f, errors, vs, s, e).value;
      t == "" || (s <= e && |t| == 2 * (e - s + 1) && AllHex(t))
    ensures var t := ReadRangeFromFile(f, errors, vs, s, e).value;
      t != "" && Disjoint(Collect(f, errors, s, e, vs).value.dict) ==>
        forall x :: s <= x <= e ==> Covered(Collect(f, errors, s, e, vs).value.dict, x)
  {
    if s <= e {
      CollectWithin(f, errors, s, e, vs);
      var d := Collect(f, errors, s, e, vs).value.dict;
      ValuesHex(d, s, e);
      if Disjoint(d) {
        NoGap(d, s, e);
      }
    }
  }

  lemma {:induction false} ValuesHex(d: seq<Piece>, lo: int, e: int)
    requires Within(d, lo, e)
    ensures AllHex(Values(d))
  {
    if d != [] {
      assert Within(d[1..], lo, e) by {
        forall i | 0 <= i < |d[1..]| ensures d[1..][i] == d[i + 1] { }
      }
      ValuesHex(d[1..], lo, e);
    }
  }

  /** Two data records that overlap (bytes 0-1 at address 0 and bytes 1-2 at
      address 1) add up to the four bytes of [0, 3] although address 3 is in
      no record: the length check cannot see a gap that an overlap fills. */
  lemma OverlapHidesGap()
    ensures var r1 := Record("1", "05", 5, 4, "0000", 0, "AABB", "00", "00");
      var r2 := Record("1", "05", 5, 4, "0001", 1, "CCDD", "00", "00");
      ReadRangeFromFile(SRec, map[], [Parsed(r1), Parsed(r2)], 0, 3) == Ok("AABBCCDD")
  {
    var d := [Piece(0, "AABB"), Piece(1, "CCDD")];
    OverlapCollect();
    assert d[1..] == [Piece(1, "CCDD")];
    assert Values([Piece(1, "CCDD")]) == "CCDD";
    assert Values(d) == "AABBCCDD";
  }

  /** The loop over the two overlapping records keeps both, in key order. */
  lemma OverlapCollect()
    ensures var r1 := Record("1", "05", 5, 4, "0000", 0, "AABB", "00", "00");
      var r2 := Record("1", "05", 5, 4, "0001", 1, "CCDD", "00", "00");
      Collect(SRec, map[], 0, 3, [Parsed(r1), Parsed(r2)]) == Ok(RangeState(0, [Piece(0, "AABB"), Piece(1, "CCDD")]))
  {
    var r1 := Record("1", "05", 5, 4, "0000", 0, "AABB", "00", "00");
    var r2 := Record("1", "05", 5, 4, "0001", 1, "CCDD", "00", "00");
    var vs := [Parsed(r1), Parsed(r2)];
    assert vs[..1] == [Parsed(r1)] && [Parsed(r1)][..0] == [];
    OverlapSteps();
    assert Collect(SRec, map[], 0, 3, [Parsed(r1)]) == Ok(RangeState(0, [Piece(0, "AABB")]));
  }

  /** The two steps of that loop, each adding its record whole. */
  lemma OverlapSteps()
    ensures var r1 := Record("1", "05", 5, 4, "0000", 0, "AABB", "00", "00");
      var r2 := Record("1", "05", 5, 4, "0001", 1, "CCDD", "00", "00");
      RangeStep(SRec, map[], 0, 3, RangeState(0, []), 1, Parsed(r1)) == Ok(RangeState(0, [Piece(0, "AABB")])) &&
      RangeStep(SRec, map[], 0, 3, RangeState(0, [Piece(0, "AABB")]), 2, Parsed(r2))
        == Ok(RangeState(0, [Piece(0, "AABB"), Piece(1, "CCDD")]))
  {
    assert Intersect(0, 3, 0, "AABB") == Hit(Piece(0, "AABB"));
    assert Intersect(0, 3, 1, "CCDD") == Hit(Piece(1, "CCDD"));
    assert GetRecordType(SRec, "1") == Data;
    assert Add([], Piece(0, "AABB")) == Some([Piece(0, "AABB")]);
    assert [Piece(0, "AABB")][1..] == [];
    assert Add([], Piece(1, "CCDD")) == Some([Piece(1, "CCDD")]);
    assert [Piece(0, "AABB")] + [Piece(1, "CCDD")] == [Piece(0, "AABB"), Piece(1, "CCDD")];
    assert Add([Piece(0, "AABB")], Piece(1, "CCDD")) == Some([Piece(0, "AABB"), Piece(1, "CCDD")]);
  }

  // ---------------------------------------------------------------------------
  // ReadByteRangeFromFile(start, len)

  /** HexToByteArray on what ReadRangeFromFile returns, which is "" or even
      hexadecimal text (ReadRangeFromFileFacts). */
  function Bytes(t: string): (b: seq<byte>)
    ensures AllHex(t) && |t| % 2 == 0 ==> |b| == |t| / 2
  {
    if AllHex(t) && |t| % 2 == 0 then HexBytes(t) else []
  }

  /** ReadByteRangeFromFile(start, len) as written: the end address is
      start + len, without the - 1 of the other length overloads. */
  function ReadByteRangeFromFileAsWritten(f: Format, errors: map<int, ErrorCode>, vs: seq<Verdict>, s: int, len: int): Result<seq<byte>, RangeFault> {
    if len > 0 then
      match ReadRangeFromFile(f, errors, vs, s, EndOf(s, len + 1))
      case Err(x) => Err(x)
      case Ok(t) => Ok(Bytes(t))
    else Ok([])
  }

  /** ReadByteRangeFromFile(start, len) with the end address start + len - 1. */
  function ReadByteRangeFromFile(f: Format, errors: map<int, ErrorCode>, vs: seq<Verdict>, s: int, len: int): Result<seq<byte>, RangeFault> {
    match ReadRangeFromFileFor(f, errors, vs, s, len)
    case Err(x) => Err(x)
    case Ok(t) => Ok(Bytes(t))
  }

  /** As written, a successful read of len bytes returns either nothing or
      len + 1 bytes, never the len bytes asked for. */
  lemma {:induction false} ByteRangeAsWrittenSize(f: Format, errors: map<int, ErrorCode>, vs: seq<Verdict>, s: int, len: int)
    requires forall k :: 0 <= k < |vs| ==> Even(vs[k])
    requires len > 0 && -(Half64 as int) <= s + len < Half64
    requires ReadByteRangeFromFileAsWritten(f, errors, vs, s, len).Ok?
    ensures var b := ReadByteRangeFromFileAsWritten(f, errors, vs, s, len).value;
      b == [] || |b| == len + 1
  {
    ReadRangeFromFileFacts(f, errors, vs, s, s + len);
  }

  /** One record holding bytes AA BB at address 0: asked for one byte at 0,
      the read as written returns two. */
  lemma ByteRangeAsWrittenExample()
    ensures var r := Record("1", "05", 5, 4, "0000", 0, "AABB", "00", "00");
      var b := ReadByteRangeFromFileAsWritten(SRec, map[], [Parsed(r)], 0, 1);
      b.Ok? && |b.value| == 2
  {
    var r := Record("1", "05", 5, 4, "0000", 0, "AABB", "00", "00");
    assert [Parsed(r)][..0] == [];
    assert GetRecordType(SRec, "1") == Data;
    assert Intersect(0, 1, 0, "AABB") == Hit(Piece(0, "AABB"));
    assert Collect(SRec, map[], 0, 1, [Parsed(r)]) == Ok(RangeState(0, [Piece(0, "AABB")]));
    assert Values([Piece(0, "AABB")]) == "AABB";
    assert AllHex("AABB");
  }

  /** With the end address start + len - 1, a successful read returns
      either nothing or exactly the len bytes asked for. */
  lemma {:induction false} ByteRangeSize(f: Format, errors: map<int, ErrorCode>, vs: seq<Verdict>, s: int, len: int)
    requires forall k :: 0 <= k < |vs| ==> Even(vs[k])
    requires -(Half64 as int) <= s + len - 1 < Half64
    requires ReadByteRangeFromFile(f, errors, vs, s, len).Ok?
    ensures var b := ReadByteRangeFromFile(f, errors, vs, s, len).value;
      b == [] || |b| == len
  {
    if len > 0 {
      ReadRangeFromFileFacts(f, errors, vs, s, s + len - 1);
    }
  }

  /** The same record, read with the end address start + len - 1: one byte. */
  lemma ByteRangeExample()
    ensures var r := Record("1", "05", 5, 4, "0000", 0, "AABB", "00", "00");
      var b := ReadByteRangeFromFile(SRec, map[], [Parsed(r)], 0, 1);
      b.Ok? && |b.value| == 1
  {
    var r := Record("1", "05", 5, 4, "0000", 0, "AABB", "00", "00");
    assert [Parsed(r)][..0] == [];
    assert GetRecordType(SRec, "1") == Data;
    assert Intersect(0, 0, 0, "AABB") == Hit(Piece(0, "AA"));
    assert Collect(SRec, map[], 0, 0, [Parsed(r)]) == Ok(RangeState(0, [Piece(0, "AA")]));
    assert Values([Piece(0, "AA")]) == "AA";
    assert AllHex("AA");
  }
}
