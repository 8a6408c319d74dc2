/** GetContinuousBlocks: the raw blocks sorted by start address
    (BlockComparer), then every block that starts right after the running
    block's end appended to it. The running block is the list element
    itself, so the merge also rewrites the run heads in the caller's list. */
module Merge {
  import opened Hex
  import opened DataBlocks
  import opened Reader

  // ---------------------------------------------------------------------------
  // Sorting by start address

  predicate SortedByStart(bs: seq<Block>) {
    forall i, j :: 0 <= i < j < |bs| ==> bs[i].start <= bs[j].start
  }

  /** s with b inserted after every block that does not start later. */
  function Insert(s: seq<Block>, b: Block): seq<Block> {
    if s == [] then [b]
    else if s[|s| - 1].start <= b.start then s + [b]
    else Insert(s[..|s| - 1], b) + [s[|s| - 1]]
  }

  /** List.Sort with BlockComparer, which compares the decoded start
      addresses; blocks with equal starts keep their order here. */
  function SortByStart(bs: seq<Block>): seq<Block> {
    if bs == [] then [] else Insert(SortByStart(bs[..|bs| - 1]), bs[|bs| - 1])
  }

  /** Insert places b among the blocks of s: one more block, the same
      multiset plus b. */
  lemma {:induction false} InsertPerm(s: seq<Block>, b: Block)
    ensures multiset(Insert(s, b)) == multiset(s) + multiset{b}
    ensures |Insert(s, b)| == |s| + 1
  {
    if s != [] && s[|s| - 1].start > b.start {
      var p, x := s[..|s| - 1], s[|s| - 1];
      InsertPerm(p, b);
      assert s == p + [x];
    }
  }

  /** Insert keeps a sorted s sorted, every block coming from s or being b. */
  lemma {:induction false} InsertSorted(s: seq<Block>, b: Block)
    requires SortedByStart(s)
    ensures SortedByStart(Insert(s, b))
    ensures forall i :: 0 <= i < |Insert(s, b)| ==> Insert(s, b)[i] == b || Insert(s, b)[i] in s
  {
    if s != [] && s[|s| - 1].start > b.start {
      var p, x := s[..|s| - 1], s[|s| - 1];
      assert SortedByStart(p);
      InsertSorted(p, b);
      var q := Insert(p, b);
      assert s == p + [x];
      forall i | 0 <= i < |q| ensures q[i].start <= x.start {
        if q[i] != b { assert q[i] in p; }
      }
      SortedSnoc(q, x);
    }
  }

  /** A block that starts no earlier than any of a sorted list, put last. */
  lemma {:induction false} SortedSnoc(q: seq<Block>, x: Block)
    requires SortedByStart(q) && forall i :: 0 <= i < |q| ==> q[i].start <= x.start
    ensures SortedByStart(q + [x])
  {
  }

  /** The sort is sorted and a permutation. */
  lemma {:induction false} SortFacts(bs: seq<Block>)
    ensures SortedByStart(SortByStart(bs))
    ensures multiset(SortByStart(bs)) == multiset(bs)
    ensures |SortByStart(bs)| == |bs|
  {
    if bs != [] {
      var p, x := bs[..|bs| - 1], bs[|bs| - 1];
      SortFacts(p);
      var q := SortByStart(p);
      assert SortByStart(bs) == Insert(q, x);
      InsertSorted(q, x);
      InsertPerm(q, x);
      assert bs == p + [x];
      assert multiset(bs) == multiset(p) + multiset{x};
    }
  }

  // ---------------------------------------------------------------------------
  // Coalescing

  /** The merge loop's variables after the first i sorted blocks: the blocks
      already emitted and the list positions they sit at, the position of
      the running block in the list (-1 before the first block), the running
      block, and the list with the heads rewritten so far. */
  datatype MergeState = MergeState(done: seq<Block>, heads: seq<int>, head: int, cur: Block, list: seq<Block>)

  function Merged(store: bool, sorted: seq<Block>, i: nat): (ms: MergeState)
    requires i <= |sorted|
    ensures |ms.list| == |sorted| && -1 <= ms.head < i
    ensures i > 0 ==> ms.head >= 0
    ensures ms.head >= 0 ==> ms.list[ms.head] == ms.cur
    ensures forall j :: i <= j < |sorted| ==> ms.list[j] == sorted[j]
  {
    if i == 0 then MergeState([], [], -1, Block(0, 0, 0, 0, ""), sorted)
    else
      var ms := Merged(store, sorted, i - 1);
      var b := sorted[i - 1];
      if ms.head < 0 then ms.(head := i - 1, cur := b)
      else if b.start - ms.cur.end == 1 then
        var m := ms.cur.(end := b.end, endLine := b.endLine, payload := View(store, ms.cur.payload + b.payload));
        ms.(cur := m, list := ms.list[ms.head := m])
      else ms.(done := ms.done + [ms.cur], heads := ms.heads + [ms.head], head := i - 1, cur := b)
  }

  /** The merged blocks: those emitted, then the running block if any. */
  function Coalesce(store: bool, sorted: seq<Block>): seq<Block> {
    Out(Merged(store, sorted, |sorted|))
  }

  /** The caller's list after the merge: sorted, with each run head
      holding its whole merged run. */
  function Relinked(store: bool, sorted: seq<Block>): seq<Block> {
    Merged(store, sorted, |sorted|).list
  }

  lemma {:induction false} ViewConcat(store: bool, a: string, b: string)
    requires View(store, a) == a && View(store, b) == b
    ensures View(store, a + b) == a + b
  {
    UpperAppend(a, b);
  }

  /** The blocks emitted so far, then the running block if any. */
  function Out(ms: MergeState): seq<Block> {
    if ms.head >= 0 then ms.done + [ms.cur] else ms.done
  }

  /** What the merge keeps after i blocks. */
  predicate InvOf(store: bool, sorted: seq<Block>, i: nat, ms: MergeState, loadData: bool) {
    ListInv(sorted, i, ms) && OutInv(store, sorted, i, ms, loadData)
  }

  /** The list, the running position and the positions of the emitted
      blocks, after i blocks. */
  predicate ListInv(sorted: seq<Block>, i: nat, ms: MergeState) {
    i <= |sorted| && |ms.list| == |sorted| && -1 <= ms.head < i &&
    (i > 0 ==> ms.head >= 0) &&
    (ms.head >= 0 ==> ms.list[ms.head] == ms.cur) &&
    (forall j :: i <= j < |sorted| ==> ms.list[j] == sorted[j]) &&
    (ms.head < 0 ==> ms.done == []) &&
    |ms.heads| == |ms.done| &&
    (forall k :: 0 <= k < |ms.done| ==> 0 <= ms.heads[k] < ms.head && ms.list[ms.heads[k]] == ms.done[k])
  }

  /** The blocks put out after i blocks: sorted, apart, well-formed, and
      holding the payloads of the first i blocks. */
  predicate OutInv(store: bool, sorted: seq<Block>, i: nat, ms: MergeState, loadData: bool) {
    var out := Out(ms);
    i <= |sorted| && SortedByStart(out) && NoAbut(out) &&
    (0 <= ms.head < |sorted| ==> ms.cur.start == sorted[ms.head].start && View(store, ms.cur.payload) == ms.cur.payload) &&
    (forall k :: 0 <= k < |out| ==> BlockOk(out[k], loadData)) &&
    Payloads(out) == Payloads(sorted[..i])
  }

  /** The input the merge relies on: sorted, payloads as RawData shows
      them, and well-formed blocks. */
  predicate MergeInput(store: bool, sorted: seq<Block>, loadData: bool) {
    SortedByStart(sorted) && Viewed(store, sorted) &&
    forall k :: 0 <= k < |sorted| ==> BlockOk(sorted[k], loadData)
  }

  lemma {:induction false} FirstKeeps(store: bool, sorted: seq<Block>, i: nat, ms: MergeState, loadData: bool)
    requires 0 < i <= |sorted| && MergeInput(store, sorted, loadData)
    requires InvOf(store, sorted, i - 1, ms, loadData) && ms.head < 0
    ensures InvOf(store, sorted, i, ms.(head := i - 1, cur := sorted[i - 1]), loadData)
  {
    var b := sorted[i - 1];
    assert ListInv(sorted, i, ms.(head := i - 1, cur := b));
    assert sorted[..i] == sorted[..i - 1] + [b];
    assert Out(ms.(head := i - 1, cur := b)) == [b];
    assert Payloads([b]) == Payloads([]) + b.payload;
  }

  lemma {:induction false} JoinKeeps(store: bool, sorted: seq<Block>, i: nat, ms: MergeState, loadData: bool)
    requires 0 < i <= |sorted| && MergeInput(store, sorted, loadData)
    requires InvOf(store, sorted, i - 1, ms, loadData) && ms.head >= 0
    requires sorted[i - 1].start - ms.cur.end == 1
    ensures var b := sorted[i - 1];
      var m := ms.cur.(end := b.end, endLine := b.endLine, payload := View(store, ms.cur.payload + b.payload));
      InvOf(store, sorted, i, ms.(cur := m, list := ms.list[ms.head := m]), loadData)
  {
    var b := sorted[i - 1];
    var m := ms.cur.(end := b.end, endLine := b.endLine, payload := View(store, ms.cur.payload + b.payload));
    JoinList(sorted, i, ms, m);
    JoinOut(store, sorted, i, ms, loadData);
  }

  /** Rewriting the running block in place keeps the list bookkeeping. */
  lemma {:induction false} JoinList(sorted: seq<Block>, i: nat, ms: MergeState, m: Block)
    requires 0 < i <= |sorted| && ListInv(sorted, i - 1, ms) && ms.head >= 0
    ensures ListInv(sorted, i, ms.(cur := m, list := ms.list[ms.head := m]))
  {
    var ms' := ms.(cur := m, list := ms.list[ms.head := m]);
    assert forall j :: i <= j < |sorted| ==> ms'.list[j] == ms.list[j];
    assert forall k :: 0 <= k < |ms.done| ==> ms'.list[ms.heads[k]] == ms.list[ms.heads[k]];
  }

  lemma {:induction false} JoinOut(store: bool, sorted: seq<Block>, i: nat, ms: MergeState, loadData: bool)
    requires 0 < i <= |sorted| && MergeInput(store, sorted, loadData)
    requires ListInv(sorted, i - 1, ms) && OutInv(store, sorted, i - 1, ms, loadData) && ms.head >= 0
    requires sorted[i - 1].start - ms.cur.end == 1
    ensures var b := sorted[i - 1];
      var m := ms.cur.(end := b.end, endLine := b.endLine, payload := View(store, ms.cur.payload + b.payload));
      OutInv(store, sorted, i, ms.(cur := m, list := ms.list[ms.head := m]), loadData)
  {
    var b := sorted[i - 1];
    var m := ms.cur.(end := b.end, endLine := b.endLine, payload := View(store, ms.cur.payload + b.payload));
    var ms' := ms.(cur := m, list := ms.list[ms.head := m]);
    var out := Out(ms);
    assert out == ms.done + [ms.cur];
    assert BlockOk(ms.cur, loadData) by { assert out[|out| - 1] == ms.cur; }
    JoinBlock(store, ms.cur, b, loadData);
    ReplaceLast(ms.done, ms.cur, m, loadData);
    assert sorted[..i] == sorted[..i - 1] + [b];
    PayloadsSnoc(ms.done, m);
    PayloadsSnoc(ms.done, ms.cur);
    PayloadsSnoc(sorted[..i - 1], b);
    ConcatAssoc(Payloads(ms.done), ms.cur.payload, b.payload);
    assert Payloads(ms.done + [m]) == Payloads(out) + b.payload;
    assert Out(ms') == ms.done + [m];
  }

  /** A block put after the last one, not before it and not abutting it,
      keeps the blocks sorted and apart. */
  lemma {:induction false} AppendApart(out: seq<Block>, b: Block)
    requires out != [] && SortedByStart(out) && NoAbut(out)
    requires out[|out| - 1].start <= b.start && b.start - out[|out| - 1].end != 1
    ensures SortedByStart(out + [b]) && NoAbut(out + [b])
  {
    var o := out + [b];
    forall i, j | 0 <= i < j < |o| ensures o[i].start <= o[j].start {
      if j == |out| {
        assert o[i].start <= out[|out| - 1].start;
      }
    }
  }

  /** Well-formed blocks and one more. */
  lemma {:induction false} AppendOk(out: seq<Block>, b: Block, loadData: bool)
    requires BlockOk(b, loadData) && forall k :: 0 <= k < |out| ==> BlockOk(out[k], loadData)
    ensures forall k :: 0 <= k < |out + [b]| ==> BlockOk((out + [b])[k], loadData)
  {
    forall k | 0 <= k < |out + [b]| ensures BlockOk((out + [b])[k], loadData) {
      if k < |out| {
        assert (out + [b])[k] == out[k];
      }
    }
  }

  /** The payloads of one more block. */
  lemma {:induction false} PayloadsSnoc(out: seq<Block>, b: Block)
    ensures Payloads(out + [b]) == Payloads(out) + b.payload
  {
    assert (out + [b])[..|out|] == out;
  }

  /** Appending a block that starts right after the running block ends. */
  lemma {:induction false} JoinBlock(store: bool, cur: Block, b: Block, loadData: bool)
    requires BlockOk(cur, loadData) && BlockOk(b, loadData) && b.start - cur.end == 1
    requires View(store, cur.payload) == cur.payload && View(store, b.payload) == b.payload
    ensures var m := cur.(end := b.end, endLine := b.endLine, payload := View(store, cur.payload + b.payload));
      BlockOk(m, loadData) && m.payload == cur.payload + b.payload && View(store, m.payload) == m.payload
  {
    ViewConcat(store, cur.payload, b.payload);
  }

  /** Replacing the last block by one with the same start keeps the order
      and the gaps. */
  lemma {:induction false} ReplaceLast(done: seq<Block>, cur: Block, m: Block, loadData: bool)
    requires m.start == cur.start && BlockOk(m, loadData)
    requires SortedByStart(done + [cur]) && NoAbut(done + [cur])
    requires forall k :: 0 <= k < |done + [cur]| ==> BlockOk((done + [cur])[k], loadData)
    ensures SortedByStart(done + [m]) && NoAbut(done + [m])
    ensures forall k :: 0 <= k < |done + [m]| ==> BlockOk((done + [m])[k], loadData)
  {
    var o := done + [cur];
    var o' := done + [m];
    assert forall k :: 0 <= k < |done| ==> o'[k] == o[k];
    assert forall k :: 0 <= k < |o| ==> o'[k].start == o[k].start;
  }

  lemma {:induction false} EmitKeeps(store: bool, sorted: seq<Block>, i: nat, ms: MergeState, loadData: bool)
    requires 0 < i <= |sorted| && MergeInput(store, sorted, loadData)
    requires InvOf(store, sorted, i - 1, ms, loadData) && ms.head >= 0
    requires sorted[i - 1].start - ms.cur.end != 1
    ensures InvOf(store, sorted, i,
      ms.(done := ms.done + [ms.cur], heads := ms.heads + [ms.head], head := i - 1, cur := sorted[i - 1]), loadData)
  {
    EmitList(sorted, i, ms);
    EmitOut(store, sorted, i, ms, loadData);
  }

  /** Emitting the running block records its position among the heads. */
  lemma {:induction false} EmitList(sorted: seq<Block>, i: nat, ms: MergeState)
    requires 0 < i <= |sorted| && ListInv(sorted, i - 1, ms) && ms.head >= 0
    ensures ListInv(sorted, i,
      ms.(done := ms.done + [ms.cur], heads := ms.heads + [ms.head], head := i - 1, cur := sorted[i - 1]))
  {
    var ms' := ms.(done := ms.done + [ms.cur], heads := ms.heads + [ms.head], head := i - 1, cur := sorted[i - 1]);
    forall k | 0 <= k < |ms'.done|
      ensures 0 <= ms'.heads[k] < ms'.head && ms'.list[ms'.heads[k]] == ms'.done[k]
    {
      if k == |ms.done| {
        assert ms'.heads[k] == ms.head && ms'.done[k] == ms.cur;
      } else {
        assert ms'.heads[k] == ms.heads[k] && ms'.done[k] == ms.done[k];
      }
    }
  }

  lemma {:induction false} EmitOut(store: bool, sorted: seq<Block>, i: nat, ms: MergeState, loadData: bool)
    requires 0 < i <= |sorted| && MergeInput(store, sorted, loadData)
    requires ListInv(sorted, i - 1, ms) && OutInv(store, sorted, i - 1, ms, loadData) && ms.head >= 0
    requires sorted[i - 1].start - ms.cur.end != 1
    ensures OutInv(store, sorted, i,
      ms.(done := ms.done + [ms.cur], heads := ms.heads + [ms.head], head := i - 1, cur := sorted[i - 1]), loadData)
  {
    var b := sorted[i - 1];
    var ms' := ms.(done := ms.done + [ms.cur], heads := ms.heads + [ms.head], head := i - 1, cur := b);
    var out := Out(ms);
    assert sorted[..i] == sorted[..i - 1] + [b];
    assert Out(ms') == out + [b];
    assert ms.cur.start == sorted[ms.head].start <= b.start;
    assert out[|out| - 1] == ms.cur;
    AppendApart(out, b);
    AppendOk(out, b, loadData);
    PayloadsSnoc(out, b);
    PayloadsSnoc(sorted[..i - 1], b);
  }

  /** The invariant holds after every prefix of a merge input. */
  lemma {:induction false} MergedInv(store: bool, sorted: seq<Block>, i: nat, loadData: bool)
    requires i <= |sorted| && MergeInput(store, sorted, loadData)
    ensures InvOf(store, sorted, i, Merged(store, sorted, i), loadData)
  {
    if i == 0 {
      assert sorted[..0] == [];
    } else {
      MergedInv(store, sorted, i - 1, loadData);
      MergedStep(store, sorted, i, loadData);
    }
  }

  /** One block more keeps the invariant. */
  lemma {:induction false} MergedStep(store: bool, sorted: seq<Block>, i: nat, loadData: bool)
    requires 0 < i <= |sorted| && MergeInput(store, sorted, loadData)
    requires InvOf(store, sorted, i - 1, Merged(store, sorted, i - 1), loadData)
    ensures InvOf(store, sorted, i, Merged(store, sorted, i), loadData)
  {
    var ms, b := Merged(store, sorted, i - 1), sorted[i - 1];
    if ms.head < 0 {
      FirstKeeps(store, sorted, i, ms, loadData);
      assert Merged(store, sorted, i) == ms.(head := i - 1, cur := b);
    } else if b.start - ms.cur.end == 1 {
      JoinKeeps(store, sorted, i, ms, loadData);
      var m := ms.cur.(end := b.end, endLine := b.endLine, payload := View(store, ms.cur.payload + b.payload));
      assert Merged(store, sorted, i) == ms.(cur := m, list := ms.list[ms.head := m]);
    } else {
      EmitKeeps(store, sorted, i, ms, loadData);
      assert Merged(store, sorted, i) ==
        ms.(done := ms.done + [ms.cur], heads := ms.heads + [ms.head], head := i - 1, cur := b);
    }
  }

  /** The merge of a sorted list: sorted, no two consecutive blocks abutting
      (every abutting pair was joined), each block well-formed, the payloads
      concatenating to those of the input, and every result block being the
      list element at its run head. Each result block is exactly one maximal
      run of abutting input blocks, with their payloads in order. A one-block
      list comes back as it is. */
  lemma {:induction false} CoalesceFacts(store: bool, sorted: seq<Block>, loadData: bool)
    requires MergeInput(store, sorted, loadData)
    ensures var out := Coalesce(store, sorted);
      SortedByStart(out) && NoAbut(out) &&
      (forall k :: 0 <= k < |out| ==> BlockOk(out[k], loadData)) &&
      Payloads(out) == Payloads(sorted) &&
      (forall k :: 0 <= k < |out| ==> out[k] in Relinked(store, sorted)) &&
      |Relinked(store, sorted)| == |sorted|
    ensures Runs(sorted, |sorted|, Coalesce(store, sorted), RunHeads(store, sorted))
    ensures |sorted| == 1 ==> Coalesce(store, sorted) == sorted
  {
    MergedInv(store, sorted, |sorted|, loadData);
    MergedRuns(store, sorted, |sorted|, loadData);
    FinalFacts(store, sorted, Merged(store, sorted, |sorted|), loadData);
    if |sorted| == 1 {
      CoalesceOne(store, sorted);
    }
  }

  /** The invariant after the whole input. */
  lemma {:induction false} FinalFacts(store: bool, sorted: seq<Block>, ms: MergeState, loadData: bool)
    requires InvOf(store, sorted, |sorted|, ms, loadData)
    ensures var out := Out(ms);
      SortedByStart(out) && NoAbut(out) &&
      (forall k :: 0 <= k < |out| ==> BlockOk(out[k], loadData)) &&
      Payloads(out) == Payloads(sorted) &&
      (forall k :: 0 <= k < |out| ==> out[k] in ms.list) &&
      |ms.list| == |sorted|
  {
    assert sorted[..|sorted|] == sorted;
    HeadsInList(ms);
  }

  /** A single block is its own merge. */
  lemma {:induction false} CoalesceOne(store: bool, sorted: seq<Block>)
    requires |sorted| == 1
    ensures Coalesce(store, sorted) == sorted
  {
    var ms0 := Merged(store, sorted, 0);
    assert ms0.head < 0 && ms0.done == [];
    var ms1 := Merged(store, sorted, 1);
    assert ms1 == ms0.(head := 0, cur := sorted[0]);
    assert Out(ms1) == [sorted[0]];
  }

  /** Every emitted block and the running block sit in the list. */
  lemma {:induction false} HeadsInList(ms: MergeState)
    requires -1 <= ms.head < |ms.list| && (ms.head >= 0 ==> ms.list[ms.head] == ms.cur)
    requires |ms.heads| == |ms.done|
    requires forall k :: 0 <= k < |ms.done| ==> 0 <= ms.heads[k] < ms.head && ms.list[ms.heads[k]] == ms.done[k]
    ensures forall k :: 0 <= k < |Out(ms)| ==> Out(ms)[k] in ms.list
  {
    forall k | 0 <= k < |Out(ms)| ensures Out(ms)[k] in ms.list {
      if k < |ms.done| {
        assert ms.list[ms.heads[k]] == Out(ms)[k];
      } else {
        assert ms.list[ms.head] == Out(ms)[k];
      }
    }
  }

  // ---------------------------------------------------------------------------
  // The runs: which input blocks each merged block is made of

  /** Block b is the merge of the run sorted[lo..hi]: it starts where the
      run's first block starts, ends where its last block ends, and holds
      the run's payloads in order. */
  predicate RunOf(sorted: seq<Block>, lo: int, hi: int, b: Block) {
    0 <= lo < hi <= |sorted| &&
    b.start == sorted[lo].start && b.startLine == sorted[lo].startLine &&
    b.end == sorted[hi - 1].end && b.endLine == sorted[hi - 1].endLine &&
    b.payload == Payloads(sorted[lo..hi])
  }

  /** The positions in the sorted list where the emitted blocks and the
      running block start. */
  function Heads(ms: MergeState): seq<int> {
    if ms.head >= 0 then ms.heads + [ms.head] else ms.heads
  }

  /** The heads of the whole merge. */
  function RunHeads(store: bool, sorted: seq<Block>): seq<int> {
    Heads(Merged(store, sorted, |sorted|))
  }

  /** out cuts the first i sorted blocks into runs starting at the positions
      hs: position 0 and exactly those positions whose block does not start
      right after the end of the block before it; out[k] is the merge of
      run k. So every run is maximal and every input block lies in one run. */
  predicate Runs(sorted: seq<Block>, i: nat, out: seq<Block>, hs: seq<int>) {
    i <= |sorted| && |hs| == |out| && (i == 0 <==> hs == []) &&
    (forall k :: 0 <= k < |hs| - 1 ==> RunOf(sorted, hs[k], hs[k + 1], out[k])) &&
    (hs != [] ==> hs[0] == 0 && RunOf(sorted, hs[|hs| - 1], i, out[|out| - 1])) &&
    (forall j :: 0 < j < i ==> (j in hs <==> sorted[j].start - sorted[j - 1].end != 1))
  }

  /** The merge after every prefix is the runs of that prefix. */
  lemma {:induction false} MergedRuns(store: bool, sorted: seq<Block>, i: nat, loadData: bool)
    requires i <= |sorted| && MergeInput(store, sorted, loadData)
    ensures Runs(sorted, i, Out(Merged(store, sorted, i)), Heads(Merged(store, sorted, i)))
  {
    if i > 0 {
      MergedRuns(store, sorted, i - 1, loadData);
      MergedInv(store, sorted, i - 1, loadData);
      var ms, b := Merged(store, sorted, i - 1), sorted[i - 1];
      if ms.head < 0 {
        assert i == 1;
        assert Merged(store, sorted, i) == ms.(head := i - 1, cur := b);
        FirstRun(sorted, b);
      } else if b.start - ms.cur.end == 1 {
        var m := ms.cur.(end := b.end, endLine := b.endLine, payload := View(store, ms.cur.payload + b.payload));
        assert Merged(store, sorted, i) == ms.(cur := m, list := ms.list[ms.head := m]);
        JoinRun(store, sorted, i, ms, m);
      } else {
        assert Merged(store, sorted, i) ==
          ms.(done := ms.done + [ms.cur], heads := ms.heads + [ms.head], head := i - 1, cur := b);
        EmitRun(sorted, i, ms);
      }
    }
  }

  /** The first block is a run of its own. */
  lemma {:induction false} FirstRun(sorted: seq<Block>, b: Block)
    requires |sorted| > 0 && b == sorted[0]
    ensures Runs(sorted, 1, [b], [0])
  {
    assert sorted[0..1] == [b];
    PayloadsSnoc([], b);
  }

  /** A block starting right after the running block's end extends the
      last run. */
  lemma {:induction false} JoinRun(store: bool, sorted: seq<Block>, i: nat, ms: MergeState, m: Block)
    requires 1 < i <= |sorted| && 0 <= ms.head < |ms.list|
    requires Runs(sorted, i - 1, Out(ms), Heads(ms))
    requires View(store, ms.cur.payload) == ms.cur.payload && View(store, sorted[i - 1].payload) == sorted[i - 1].payload
    requires sorted[i - 1].start - ms.cur.end == 1
    requires m == ms.cur.(end := sorted[i - 1].end, endLine := sorted[i - 1].endLine,
                          payload := View(store, ms.cur.payload + sorted[i - 1].payload))
    ensures Runs(sorted, i, Out(ms.(cur := m, list := ms.list[ms.head := m])), Heads(ms))
  {
    var b := sorted[i - 1];
    var hs, out := Heads(ms), Out(ms);
    var out' := Out(ms.(cur := m, list := ms.list[ms.head := m]));
    assert out == ms.done + [ms.cur] && out' == ms.done + [m];
    var lo := hs[|hs| - 1];
    assert RunOf(sorted, lo, i - 1, ms.cur);
    ViewConcat(store, ms.cur.payload, b.payload);
    assert sorted[lo..i] == sorted[lo..i - 1] + [b];
    PayloadsSnoc(sorted[lo..i - 1], b);
    assert RunOf(sorted, lo, i, m);
    forall k | 0 <= k < |hs| - 1 ensures RunOf(sorted, hs[k], hs[k + 1], out'[k]) {
      assert out'[k] == out[k];
    }
    JoinedHeads(sorted, i, out, hs);
  }

  /** Joining block i - 1 to the last run adds no head. */
  lemma {:induction false} JoinedHeads(sorted: seq<Block>, i: nat, out: seq<Block>, hs: seq<int>)
    requires 1 < i <= |sorted| && Runs(sorted, i - 1, out, hs)
    requires sorted[i - 1].start - sorted[i - 2].end == 1
    ensures forall j :: 0 < j < i ==> (j in hs <==> sorted[j].start - sorted[j - 1].end != 1)
  {
    var lo := hs[|hs| - 1];
    forall j | 0 < j < i ensures j in hs <==> sorted[j].start - sorted[j - 1].end != 1 {
      if j == i - 1 {
        assert forall k :: 0 <= k < |hs| ==> hs[k] <= lo by { RunsOrdered(sorted, i - 1, out, hs); }
      }
    }
  }

  /** A block that does not start right after the running block's end
      closes the last run and opens a new one. */
  lemma {:induction false} EmitRun(sorted: seq<Block>, i: nat, ms: MergeState)
    requires 1 < i <= |sorted| && ms.head >= 0
    requires Runs(sorted, i - 1, Out(ms), Heads(ms))
    requires sorted[i - 1].start - ms.cur.end != 1
    ensures var ms' := ms.(done := ms.done + [ms.cur], heads := ms.heads + [ms.head], head := i - 1, cur := sorted[i - 1]);
      Runs(sorted, i, Out(ms'), Heads(ms'))
  {
    var b := sorted[i - 1];
    var ms' := ms.(done := ms.done + [ms.cur], heads := ms.heads + [ms.head], head := i - 1, cur := b);
    var hs, out := Heads(ms), Out(ms);
    assert Heads(ms') == hs + [i - 1] && Out(ms') == out + [b];
    var hs', out' := hs + [i - 1], out + [b];
    assert sorted[i - 1..i] == [b];
    PayloadsSnoc([], b);
    forall k | 0 <= k < |hs'| - 1 ensures RunOf(sorted, hs'[k], hs'[k + 1], out'[k]) {
      if k < |hs| - 1 {
        assert hs'[k] == hs[k] && hs'[k + 1] == hs[k + 1] && out'[k] == out[k];
      } else {
        assert hs'[k] == hs[|hs| - 1] && hs'[k + 1] == i - 1 && out'[k] == out[|out| - 1];
      }
    }
    forall j | 0 < j < i ensures j in hs' <==> sorted[j].start - sorted[j - 1].end != 1 {
      if j == i - 1 {
        assert hs'[|hs|] == j;
        assert ms.cur == out[|out| - 1];
      } else {
        assert j in hs' <==> j in hs;
      }
    }
  }

  /** The heads of runs over the first i blocks lie below i, each no later
      than the last. */
  lemma {:induction false} RunsOrdered(sorted: seq<Block>, i: nat, out: seq<Block>, hs: seq<int>)
    requires Runs(sorted, i, out, hs) && hs != []
    ensures forall k :: 0 <= k < |hs| ==> 0 <= hs[k] <= hs[|hs| - 1] < i
  {
    var n := |hs| - 1;
    var k := n;
    while k > 0
      invariant 0 <= k <= n
      invariant forall q :: k <= q <= n ==> 0 <= hs[q] <= hs[n]
    {
      assert RunOf(sorted, hs[k - 1], hs[k], out[k - 1]);
      k := k - 1;
    }
  }

  /** GetContinuousBlocks on a raw list: the merged blocks, and the raw list
      as the call leaves it. */
  function ContinuousBlocks(store: bool, raw: seq<Block>): seq<Block> {
    Coalesce(store, SortByStart(raw))
  }

  function RawAfterMerge(store: bool, raw: seq<Block>): seq<Block> {
    Relinked(store, SortByStart(raw))
  }

  /** The merged blocks of well-formed raw blocks are sorted, separated by
      gaps, well-formed, and hold the sorted raw payloads in order; each is
      exactly one maximal run of abutting blocks of the sorted raw list, which
      is a permutation of the raw list; the raw list keeps its length, and
      each merged block is one of its elements. */
  lemma {:induction false} ContinuousFacts(store: bool, raw: seq<Block>, loadData: bool)
    requires Viewed(store, raw) && forall k :: 0 <= k < |raw| ==> BlockOk(raw[k], loadData)
    ensures var out := ContinuousBlocks(store, raw);
      SortedByStart(out) && NoAbut(out) &&
      (forall k :: 0 <= k < |out| ==> BlockOk(out[k], loadData)) &&
      Payloads(out) == Payloads(SortByStart(raw)) &&
      |RawAfterMerge(store, raw)| == |raw| &&
      (forall k :: 0 <= k < |out| ==> out[k] in RawAfterMerge(store, raw))
    ensures multiset(SortByStart(raw)) == multiset(raw)
    ensures Runs(SortByStart(raw), |raw|, ContinuousBlocks(store, raw), RunHeads(store, SortByStart(raw)))
  {
    var sorted := SortByStart(raw);
    SortFacts(raw);
    forall k | 0 <= k < |sorted|
      ensures View(store, sorted[k].payload) == sorted[k].payload && BlockOk(sorted[k], loadData)
    {
      assert sorted[k] in multiset(raw);
      var j :| 0 <= j < |raw| && raw[j] == sorted[k];
    }
    CoalesceFacts(store, sorted, loadData);
  }
}
