// The small-memory heap, rt-thread/src/mem.c.
//
// Memory is an array of 32-bit cells (RT_ALIGN_SIZE is 4 bytes and every offset the heap
// keeps is a multiple of it), so offsets and lengths below count cells. Headers live in the
// same array as the payload: cell p holds magic and the used flag, p+1 `next`, p+2 `prev`.
// The constants are those of the 32-bit build without RT_USING_MEMTRACE.
module SmallMem {
  import opened Words
  import opened Blocks
  import opened Payloads

  const HEADER := 3        // SIZEOF_STRUCT_MEM, 12 bytes
  const MIN_SIZE := 3      // MIN_SIZE and MIN_SIZE_ALIGNED, 12 bytes
  const FREE_TAG := 0x1ea0 // HEAP_MAGIC with used == 0 in the upper half word
  const USED_TAG := 0x1_1ea0

  function Tag(used: bool): int { if used then USED_TAG else FREE_TAG }

  // What rt_malloc looks for once it has aligned the request.
  function Request(bytes: nat): nat {
    if AlignCells(bytes) < MIN_SIZE then MIN_SIZE else AlignCells(bytes)
  }

  predicate Fits(b: Block, req: nat) { !b.used && Payload(b, HEADER) >= req }

  // ---- the in-band representation ----

  ghost predicate HeaderAt(m: seq<int>, bs: seq<Block>, i: nat)
    requires i < |bs|
  {
    && bs[i].at + 2 < |m|
    && m[bs[i].at] == Tag(bs[i].used)
    && m[bs[i].at + 1] == bs[i].next
    && m[bs[i].at + 2] == (if i == 0 then 0 else bs[i - 1].at)
  }

  // Every block's header is right; of the end stub only what is read back: its `prev` is
  // left stale by rt_malloc.
  ghost predicate InBand(m: seq<int>, bs: seq<Block>, end: nat) {
    && |m| == end + HEADER
    && Tiles(bs, HEADER, end)
    && (forall i :: 0 <= i < |bs| ==> HeaderAt(m, bs, i))
    && m[end] == USED_TAG && m[end + 1] == end
  }

  // The cells written when the block at p is cut at p2.
  ghost function SplitMem(m: seq<int>, p: nat, p2: nat, next: nat, end: nat): seq<int>
    requires p + 1 < |m| && p2 + 2 < |m| && next + 2 < |m|
  {
    var m1 := m[p2 := FREE_TAG][p2 + 1 := next][p2 + 2 := p][p + 1 := p2];
    if next != end then m1[next + 2 := p2] else m1
  }

  // The cells written when the block at p absorbs the one that ends at next.
  ghost function MergeMem(m: seq<int>, p: nat, next: nat): seq<int>
    requires p + 1 < |m| && next + 2 < |m|
  {
    m[p + 1 := next][next + 2 := p]
  }

  lemma Apart(bs: seq<Block>, i: nat, j: nat, end: nat)
    requires Tiles(bs, HEADER, end) && i < |bs| && j < |bs| && i != j
    ensures j < i ==> bs[j].next <= bs[i].at
    ensures i < j ==> if i + 1 < j then bs[i].next + HEADER < bs[j].at else bs[i].next == bs[j].at
  {
    assert TileAt(bs, j, HEADER, end);
    if i < j {
      Order(bs, i, j, HEADER, end);
      if i + 1 < j {
        Order(bs, i, i + 1, HEADER, end);
        Order(bs, i + 1, j, HEADER, end);
        Within(bs, i + 1, HEADER, end);
      }
    } else {
      Order(bs, j, i, HEADER, end);
    }
  }

  lemma SplitHeader(m: seq<int>, bs: seq<Block>, i: nat, req: nat, end: nat, j: nat)
    requires i < |bs| && j < |bs| && InBand(m, bs, end)
    requires 0 < req && req + HEADER < Payload(bs[i], HEADER)
    ensures bs[i].next <= end
    ensures var m', r := SplitMem(m, bs[i].at, bs[i].at + HEADER + req, bs[i].next, end), Split(bs, i, HEADER, req);
      HeaderAt(m', r, if j <= i then j else j + 1) && (j != i ==> SamePayload(m, m', bs[j], HEADER))
  {
    Within(bs, i, HEADER, end);
    Within(bs, j, HEADER, end);
    assert HeaderAt(m, bs, j);
    if j != i {
      Apart(bs, i, j, end);
    }
  }

  lemma SplitInBand(m: seq<int>, bs: seq<Block>, i: nat, req: nat, end: nat)
    requires i < |bs| && InBand(m, bs, end)
    requires 0 < req && req + HEADER < Payload(bs[i], HEADER)
    ensures bs[i].next <= end
    ensures var m' := SplitMem(m, bs[i].at, bs[i].at + HEADER + req, bs[i].next, end);
      InBand(m', Split(bs, i, HEADER, req), end)
  {
    Within(bs, i, HEADER, end);
    var r, m' := Split(bs, i, HEADER, req), SplitMem(m, bs[i].at, bs[i].at + HEADER + req, bs[i].next, end);
    SplitTiles(bs, i, HEADER, req, end);
    forall j | 0 <= j < |r|
      ensures HeaderAt(m', r, j)
    {
      SplitHeader(m, bs, i, req, end, if j <= i then j else j - 1);
    }
  }

  lemma SplitLiveKept(m: seq<int>, bs: seq<Block>, i: nat, req: nat, end: nat)
    requires i < |bs| && InBand(m, bs, end)
    requires 0 < req && req + HEADER < Payload(bs[i], HEADER)
    ensures bs[i].next <= end
    ensures var m' := SplitMem(m, bs[i].at, bs[i].at + HEADER + req, bs[i].next, end);
      LiveKept(m, m', Live(Split(bs, i, HEADER, req)), HEADER)
  {
    Within(bs, i, HEADER, end);
    var r, m' := Split(bs, i, HEADER, req), SplitMem(m, bs[i].at, bs[i].at + HEADER + req, bs[i].next, end);
    forall b | b in Live(r)
      ensures SamePayload(m, m', b, HEADER)
    {
      var j :| 0 <= j < |r| && r[j] == b;
      SplitHeader(m, bs, i, req, end, if j <= i then j else j - 1);
    }
  }

  lemma MergeHeader(m: seq<int>, bs: seq<Block>, i: nat, end: nat, j: nat)
    requires i + 1 < |bs| && InBand(m, bs, end) && !bs[i].used && !bs[i + 1].used && j < |bs| && j != i + 1
    ensures bs[i].at + 1 < |m| && bs[i + 1].next <= end
    ensures var m', r := MergeMem(m, bs[i].at, bs[i + 1].next), Merge(bs, i);
      HeaderAt(m', r, if j <= i then j else j - 1) && (j != i ==> SamePayload(m, m', bs[j], HEADER))
  {
    Within(bs, i, HEADER, end);
    Within(bs, i + 1, HEADER, end);
    Within(bs, j, HEADER, end);
    assert HeaderAt(m, bs, j);
    Apart(bs, i, i + 1, end);
    if j != i {
      Apart(bs, i, j, end);
      Apart(bs, i + 1, j, end);
    }
  }

  lemma MergeInBand(m: seq<int>, bs: seq<Block>, i: nat, end: nat)
    requires i + 1 < |bs| && InBand(m, bs, end) && !bs[i].used && !bs[i + 1].used
    ensures bs[i].at + 1 < |m| && bs[i + 1].next <= end
    ensures var m' := MergeMem(m, bs[i].at, bs[i + 1].next);
      InBand(m', Merge(bs, i), end) && LiveKept(m, m', Live(bs), HEADER)
  {
    Within(bs, i, HEADER, end);
    Within(bs, i + 1, HEADER, end);
    var r, m' := Merge(bs, i), MergeMem(m, bs[i].at, bs[i + 1].next);
    MergeTiles(bs, i, HEADER, end);
    forall b | b in Live(bs)
      ensures SamePayload(m, m', b, HEADER)
    {
      var j :| 0 <= j < |bs| && bs[j] == b;
      MergeHeader(m, bs, i, end, j);
    }
    forall j | 0 <= j < |r|
      ensures HeaderAt(m', r, j)
    {
      MergeHeader(m, bs, i, end, if j <= i then j else j + 1);
    }
  }

  lemma MarkInBand(m: seq<int>, bs: seq<Block>, i: nat, used: bool, end: nat)
    requires i < |bs| && InBand(m, bs, end)
    ensures bs[i].at < end
    ensures var m' := m[bs[i].at := Tag(used)];
      && InBand(m', Mark(bs, i, used), end)
      && forall j :: 0 <= j < |bs| ==> SamePayload(m, m', bs[j], HEADER)
  {
    Within(bs, i, HEADER, end);
    var r, m' := Mark(bs, i, used), m[bs[i].at := Tag(used)];
    MarkTiles(bs, i, used, HEADER, end);
    forall j | 0 <= j < |bs|
      ensures HeaderAt(m', r, j) && SamePayload(m, m', bs[j], HEADER)
    {
      assert HeaderAt(m, bs, j);
      if j != i {
        Apart(bs, i, j, end);
        Within(bs, j, HEADER, end);
      }
    }
  }

  // ---- what the entry points compute, on the block list ----

  datatype Outcome = Outcome(ptr: Ptr, bs: seq<Block>)

  // The lowest free block, in address order, that starts below `limit` and has room.
  ghost function FirstFit(bs: seq<Block>, req: nat, limit: int, from: nat): (r: nat)
    requires from <= |bs|
    ensures from <= r <= |bs|
    ensures r < |bs| ==> Fits(bs[r], req) && bs[r].at < limit
    ensures forall j :: from <= j < r ==> !(Fits(bs[j], req) && bs[j].at < limit)
    decreases |bs| - from
  {
    if from == |bs| || (Fits(bs[from], req) && bs[from].at < limit) then from
    else FirstFit(bs, req, limit, from + 1)
  }

  lemma FirstFitIs(bs: seq<Block>, req: nat, limit: int, i: nat, end: nat)
    requires Tiles(bs, HEADER, end) && i <= |bs| && limit <= end
    requires i < |bs| && bs[i].at < limit ==> Fits(bs[i], req)
    requires forall j :: 0 <= j < i ==> !Fits(bs[j], req)
    ensures FirstFit(bs, req, limit, 0) == if i < |bs| && bs[i].at < limit then i else |bs|
  {
    var r := FirstFit(bs, req, limit, 0);
    if i < r < |bs| {
      Order(bs, i, r, HEADER, end);
      assert TileAt(bs, i, HEADER, end);
    }
  }

  ghost function MallocSpec(bs: seq<Block>, bytes: nat, size: nat): Outcome {
    if bytes == 0 || AlignCells(bytes) > size then Outcome(Null, bs)
    else
      var i := FirstFit(bs, Request(bytes), size - Request(bytes), 0);
      if i == |bs| then Outcome(Null, bs)
      else Outcome(At(bs[i].at + HEADER), Carve(bs, i, HEADER, Request(bytes), MIN_SIZE))
  }

  ghost predicate Outside(p: Ptr, size: nat) {
    p.At? && (p.cell < 0 || p.cell >= size + HEADER)
  }

  // What rt_free and rt_realloc demand of their pointer argument.
  ghost predicate Passable(bs: seq<Block>, p: Ptr, size: nat) {
    p.Null? || Outside(p, size) || IsLive(bs, p, HEADER)
  }

  ghost function FreeSpec(bs: seq<Block>, p: Ptr): seq<Block> {
    if IsLive(bs, p, HEADER) then Freed(bs, IndexOf(bs, BlockOf(bs, p, HEADER))) else bs
  }

  ghost function MoveSpec(bs: seq<Block>, p: Ptr, n: nat, size: nat): Outcome {
    var o := MallocSpec(bs, 4 * n, size);
    if o.ptr.Null? then o else Outcome(o.ptr, FreeSpec(o.bs, p))
  }

  // rt_realloc of the live block b at p to n cells: keep, shrink in place, or move.
  ghost function ResizeSpec(bs: seq<Block>, p: Ptr, b: Block, n: nat, size: nat): Outcome
    requires b in bs
  {
    var have := Payload(b, HEADER);
    if have == n then Outcome(p, bs)
    else if n + HEADER + MIN_SIZE < have then Outcome(p, Shrunk(bs, IndexOf(bs, b), HEADER, n))
    else MoveSpec(bs, p, n, size)
  }

  ghost function ReallocSpec(bs: seq<Block>, p: Ptr, bytes: nat, size: nat): Outcome {
    var n := AlignCells(bytes);
    if n > size then Outcome(Null, bs)
    else if n == 0 then Outcome(Null, FreeSpec(bs, p))
    else if p.Null? then MallocSpec(bs, 4 * n, size)
    else if !IsLive(bs, p, HEADER) then Outcome(p, bs)
    else ResizeSpec(bs, p, BlockOf(bs, p, HEADER), n, size)
  }

  ghost function NextAt(bs: seq<Block>, i: nat, end: nat): nat
    requires i <= |bs|
  {
    if i < |bs| then bs[i].at else end
  }

  lemma SameBlock(bs: seq<Block>, i: nat, j: nat, end: nat)
    requires Tiles(bs, HEADER, end) && i <= |bs| && j < |bs|
    ensures NextAt(bs, i, end) == bs[j].at <==> i == j
  {
    Within(bs, j, HEADER, end);
    if i < |bs| && bs[i].at == bs[j].at {
      SameAddress(bs, i, j, HEADER, end);
    }
  }

  lemma NextBound(bs: seq<Block>, i: nat, end: nat)
    requires Tiles(bs, HEADER, end) && i <= |bs|
    ensures NextAt(bs, i, end) <= end && (i < |bs| ==> bs[i].at + HEADER < end)
  {
    if i < |bs| {
      Within(bs, i, HEADER, end);
    }
  }

  // Block k is the lowest free one; k == |bs| when there is none.
  ghost predicate Lowest(bs: seq<Block>, k: nat) {
    k <= |bs| && (k < |bs| ==> !bs[k].used) && forall j :: 0 <= j < k ==> bs[j].used
  }

  // Where a walk along `next` stands after i steps.
  ghost predicate InStep(bs: seq<Block>, i: nat, end: nat)
    requires i <= |bs|
  {
    && NextAt(bs, i, end) <= end
    && (i < |bs| ==> bs[i].at + HEADER < end)
    && (i > 0 ==> NextAt(bs, i, end) == bs[i - 1].next)
  }

  lemma AllBounds(bs: seq<Block>, end: nat)
    requires Tiles(bs, HEADER, end)
    ensures forall i :: 0 <= i <= |bs| ==> InStep(bs, i, end)
  {
    forall i | 0 <= i <= |bs|
      ensures InStep(bs, i, end)
    {
      NextBound(bs, i, end);
      assert i < |bs| ==> TileAt(bs, i, HEADER, end);
      assert i > 0 ==> TileAt(bs, i - 1, HEADER, end);
    }
  }

  // Addresses compare like indices.
  lemma AddressOrder(bs: seq<Block>, i: nat, j: nat, end: nat)
    requires Tiles(bs, HEADER, end) && i < |bs| && j <= |bs|
    ensures bs[i].at < NextAt(bs, j, end) <==> i < j
  {
    Within(bs, i, HEADER, end);
    if i < j < |bs| {
      Apart(bs, i, j, end);
    } else if j < i {
      Apart(bs, j, i, end);
      Within(bs, j, HEADER, end);
    }
  }

  lemma OutsideNotLive(bs: seq<Block>, p: Ptr, size: nat)
    requires Tiles(bs, HEADER, size + HEADER) && Outside(p, size)
    ensures !IsLive(bs, p, HEADER)
  {
    forall b | b in Live(bs)
      ensures !Holds(bs, p, b, HEADER)
    {
      Within(bs, IndexOf(bs, b), HEADER, size + HEADER);
    }
  }

  // A client writing inside its own live block leaves the heap and every other payload alone.
  lemma PayloadWrite(m: seq<int>, m': seq<int>, bs: seq<Block>, i: nat, end: nat)
    requires InBand(m, bs, end) && i < |bs| && |m'| == |m|
    requires forall k :: 0 <= k < |m| && !(bs[i].at + HEADER <= k < bs[i].next) ==> m'[k] == m[k]
    ensures InBand(m', bs, end)
    ensures forall j :: 0 <= j < |bs| && j != i ==> SamePayload(m, m', bs[j], HEADER)
  {
    Within(bs, i, HEADER, end);
    forall j | 0 <= j < |bs|
      ensures HeaderAt(m', bs, j) && (j != i ==> SamePayload(m, m', bs[j], HEADER))
    {
      assert HeaderAt(m, bs, j);
      Within(bs, j, HEADER, end);
      if j != i {
        Apart(bs, i, j, end);
      }
    }
  }

  // The block a successful rt_malloc hands out.
  ghost function NewBlock(bs: seq<Block>, bytes: nat, size: nat): Block
    requires MallocSpec(bs, bytes, size).ptr.At?
  {
    MallocSpec(bs, bytes, size).bs[FirstFit(bs, Request(bytes), size - Request(bytes), 0)]
  }

  // rt_malloc keeps the canonical form; on success exactly one block, live neither before
  // nor overlapping anything live, is added.
  lemma MallocKeeps(bs: seq<Block>, bytes: nat, size: nat)
    requires Wf(bs, HEADER, size + HEADER)
    ensures var o := MallocSpec(bs, bytes, size);
      && Wf(o.bs, HEADER, size + HEADER)
      && (o.ptr.Null? ==> o.bs == bs)
      && (o.ptr.At? ==>
            var b := NewBlock(bs, bytes, size);
            && Live(o.bs) == Live(bs) + {b} && b !in Live(bs)
            && Holds(o.bs, o.ptr, b, HEADER) && !IsLive(bs, o.ptr, HEADER)
            && Request(bytes) <= Payload(b, HEADER) && b.next <= size + HEADER
            && UsedCells(o.bs) == UsedCells(bs) + Len(b))
  {
    var o := MallocSpec(bs, bytes, size);
    if o.ptr.At? {
      var i := FirstFit(bs, Request(bytes), size - Request(bytes), 0);
      CarveKeeps(bs, i, HEADER, Request(bytes), MIN_SIZE, size + HEADER);
      Within(o.bs, i, HEADER, size + HEADER);
      FreeIsNotLive(bs, i, size + HEADER, HEADER);
      assert !Holds(bs, o.ptr, o.bs[i], HEADER);
    }
  }

  lemma FreeKeeps(bs: seq<Block>, p: Ptr, size: nat)
    requires Wf(bs, HEADER, size + HEADER)
    ensures Wf(FreeSpec(bs, p), HEADER, size + HEADER)
    ensures IsLive(bs, p, HEADER) ==>
              && Live(FreeSpec(bs, p)) == Live(bs) - {BlockOf(bs, p, HEADER)}
              && UsedCells(FreeSpec(bs, p)) == UsedCells(bs) - Len(BlockOf(bs, p, HEADER))
  {
    if IsLive(bs, p, HEADER) {
      FreedKeeps(bs, IndexOf(bs, BlockOf(bs, p, HEADER)), HEADER, size + HEADER);
    }
  }

  lemma KeepsFreed(m: seq<int>, m': seq<int>, bs: seq<Block>, p: Ptr, size: nat)
    requires Wf(bs, HEADER, size + HEADER) && LiveKept(m, m', Live(FreeSpec(bs, p)), HEADER)
    ensures ReallocKeeps(m, m', bs, p, Null, 0, HEADER)
  {
    FreeKeeps(bs, p, size);
  }

  lemma CopiedPayload(m: seq<int>, m': seq<int>, bs: seq<Block>, b: Block, src: int, n: nat, end: nat)
    requires InBand(m, bs, end) && b in Live(bs) && n <= Payload(b, HEADER)
    requires IsCopy(m, m', b.at + HEADER, src, n)
    ensures InBand(m', bs, end)
    ensures LiveKept(m, m', Live(bs) - {b}, HEADER)
  {
    var i := IndexOf(bs, b);
    PayloadWrite(m, m', bs, i, end);
    forall x | x in Live(bs) && x != b
      ensures SamePayload(m, m', x, HEADER)
    {
      assert SamePayload(m, m', bs[IndexOf(bs, x)], HEADER);
    }
  }

  lemma FreeNotLive(bs: seq<Block>, i: nat)
    requires i < |bs| && !bs[i].used
    ensures bs[i] !in Live(bs)
  {
  }

  // What rt_realloc's shrinking branch relies on once the used block i is cut.
  lemma ShrinkSetup(bs: seq<Block>, i: nat, req: nat, low: nat, end: nat)
    requires Tiles(bs, HEADER, end) && Lowest(bs, low) && i < |bs| && bs[i].used
    requires 0 < req && req + HEADER < Payload(bs[i], HEADER)
    ensures var s, low1 := Split(bs, i, HEADER, req), if low <= i then low else low + 1;
      && Plug(s, i + 1) == Shrunk(bs, i, HEADER, req)
      && low1 <= |s| && s[i + 1].at == bs[i].at + HEADER + req
      && (if s[i + 1].at < NextAt(s, low1, end) then Lowest(s, i + 1) else Lowest(s, low1))
  {
    var s, low1 := Split(bs, i, HEADER, req), if low <= i then low else low + 1;
    SplitTiles(bs, i, HEADER, req, end);
    AddressOrder(s, i + 1, low1, end);
  }

  lemma ShrinkKeeps(bs: seq<Block>, i: nat, req: nat, end: nat)
    requires Wf(bs, HEADER, end) && i < |bs| && bs[i].used
    requires 0 < req && req + HEADER < Payload(bs[i], HEADER)
    ensures WfBut(Split(bs, i, HEADER, req), i + 1, HEADER, end)
    ensures Live(Shrunk(bs, i, HEADER, req)) == Live(Split(bs, i, HEADER, req))
    ensures Wf(Shrunk(bs, i, HEADER, req), HEADER, end)
    ensures UsedCells(Shrunk(bs, i, HEADER, req)) == UsedCells(bs) - (Payload(bs[i], HEADER) - req)
  {
    SplitWfBut(bs, i, HEADER, req, end);
    ShrunkKeeps(bs, i, HEADER, req, end);
    MergeNextKeeps(Split(bs, i, HEADER, req), i + 1, HEADER, end);
  }

  // What rt_free relies on once the used block i is marked free.
  lemma FreeSetup(bs: seq<Block>, i: nat, low: nat, end: nat)
    requires Wf(bs, HEADER, end) && Lowest(bs, low) && i < |bs| && bs[i].used
    ensures var s := Mark(bs, i, false);
      && WfBut(s, i, HEADER, end) && Live(Plug(s, i)) == Live(s)
      && (if bs[i].at < NextAt(bs, low, end) then Lowest(s, i) else Lowest(s, low))
    ensures Wf(Freed(bs, i), HEADER, end) && UsedCells(Freed(bs, i)) == UsedCells(bs) - Len(bs[i])
    ensures 0 < Len(bs[i])
  {
    FreedKeeps(bs, i, HEADER, end);
    MarkWfBut(bs, i, HEADER, end);
    PlugKeeps(Mark(bs, i, false), i, HEADER, end);
    FreeLowest(bs, i, low, end);
    assert TileAt(bs, i, HEADER, end);
  }

  lemma FreeLowest(bs: seq<Block>, i: nat, low: nat, end: nat)
    requires Tiles(bs, HEADER, end) && Lowest(bs, low) && i < |bs| && bs[i].used
    ensures if bs[i].at < NextAt(bs, low, end) then Lowest(Mark(bs, i, false), i) else Lowest(Mark(bs, i, false), low)
  {
    AddressOrder(bs, i, low, end);
  }

  class Heap {
    const size: nat       // mem_size_aligned
    const mem: array<int> // heap_ptr
    ghost var cells: seq<int> // the contents of mem
    var lfree: nat
    var usedMem: int      // used_mem
    var maxMem: int       // max_mem
    ghost var bs: seq<Block>
    ghost var low: nat    // index of the block lfree points to

    ghost function End(): nat { size + HEADER }

    // Headers and links are right and lfree points to some block; nothing is said about
    // neighbouring free blocks or about which block is the lowest free one.
    ghost predicate Linked()
      reads this, mem
    {
      && mem[..] == cells && InBand(cells, bs, End())
      && low <= |bs| && lfree == NextAt(bs, low, End())
    }

    ghost predicate Valid()
      reads this, mem
    {
      && MIN_SIZE <= size && 4 * (size + 2 * HEADER) < WORD_RANGE
      && Linked()
      && Coalesced(bs)
      && Lowest(bs, low)
      && usedMem == UsedCells(bs) <= maxMem
    }

    // rt_system_heap_init on an aligned region with `room` cells beside two headers.
    constructor (room: nat)
      requires MIN_SIZE <= room && 4 * (room + 2 * HEADER) < WORD_RANGE
      ensures Valid() && size == room && fresh(mem)
      ensures bs == [Block(0, End(), false)] && usedMem == 0 && lfree == 0
    {
      size := room;
      mem := new int[room + 2 * HEADER];
      lfree, usedMem, maxMem := 0, 0, 0;
      bs, low := [Block(0, room + HEADER, false)], 0;
      new;
      mem[0], mem[1], mem[2] := FREE_TAG, size + HEADER, 0;
      var end := mem[1];
      mem[end], mem[end + 1], mem[end + 2] := USED_TAG, size + HEADER, size + HEADER;
      cells := mem[..];
      assert TileAt(bs, 0, HEADER, End()) && HeaderAt(cells, bs, 0) && PairAt(bs, 0);
      Sums1(bs[0], HEADER);
    }

    // p->next = next; heap_ptr[next]->prev = p
    method Relink(p: nat, next: nat)
      requires mem[..] == cells && p + 1 < |cells| && next + 2 < |cells|
      modifies mem, `cells
      ensures mem[..] == cells == MergeMem(old(cells), p, next)
    {
      mem[p + 1] := next;
      mem[next + 2] := p;
      cells := mem[..];
    }

    // plug_holes, first half: absorb a free successor.
    method PlugForward(p: nat, ghost i: nat)
      requires Linked() && i < |bs| && !bs[i].used && bs[i].at == p
      modifies mem, `cells, `lfree, `low, `bs
      ensures Linked() && bs == MergeNext(old(bs), i)
      ensures low == if |bs| == |old(bs)| || old(low) <= i then old(low) else old(low) - 1
      ensures LiveKept(old(cells), cells, Live(old(bs)), HEADER)
    {
      assert HeaderAt(cells, bs, i);
      assert i + 1 < |bs| ==> HeaderAt(cells, bs, i + 1) && TileAt(bs, i + 1, HEADER, End());
      Within(bs, i, HEADER, End());
      var nmem := mem[p + 1];
      if p != nmem && mem[nmem] == FREE_TAG && nmem != size + HEADER {
        SameBlock(bs, low, i + 1, End());
        if lfree == nmem {
          lfree := p;
        }
        MergeInBand(cells, bs, i, End());
        var next := mem[nmem + 1];
        Relink(p, next);
        low := if low <= i then low else low - 1;
        bs := Merge(bs, i);
      }
    }

    // plug_holes, second half: be absorbed by a free predecessor.
    method PlugBackward(p: nat, ghost i: nat)
      requires Linked() && i < |bs| && !bs[i].used && bs[i].at == p
      modifies mem, `cells, `lfree, `low, `bs
      ensures Linked() && bs == MergePrev(old(bs), i)
      ensures low == if |bs| == |old(bs)| || old(low) < i then old(low) else old(low) - 1
      ensures LiveKept(old(cells), cells, Live(old(bs)), HEADER)
    {
      assert HeaderAt(cells, bs, i);
      assert TileAt(bs, i, HEADER, End()) && (i > 0 ==> HeaderAt(cells, bs, i - 1));
      Within(bs, i, HEADER, End());
      var pmem := mem[p + 2];
      if pmem != p && mem[pmem] == FREE_TAG {
        SameBlock(bs, low, i, End());
        if lfree == p {
          lfree := pmem;
        }
        MergeInBand(cells, bs, i - 1, End());
        var next := mem[p + 1];
        Relink(pmem, next);
        low := if low < i then low else low - 1;
        bs := Merge(bs, i - 1);
      }
    }

    method PlugHoles(p: nat, ghost i: nat)
      requires Linked() && WfBut(bs, i, HEADER, End()) && bs[i].at == p
      requires Lowest(bs, low)
      modifies mem, `cells, `lfree, `low, `bs
      ensures Linked() && bs == Plug(old(bs), i) && Lowest(bs, low)
      ensures LiveKept(old(cells), cells, Live(old(bs)), HEADER)
    {
      MergeNextKeeps(bs, i, HEADER, End());
      PlugForward(p, i);
      ghost var m1 := cells;
      PlugBackward(p, i);
      LiveKeptTrans(old(cells), m1, cells, Live(old(bs)), Live(MergeNext(old(bs), i)), HEADER);
    }

    // mem->used = used
    method SetUsed(p: nat, used: bool, ghost i: nat)
      requires Linked() && i < |bs| && bs[i].at == p
      modifies mem, `cells, `bs
      ensures Linked() && bs == Mark(old(bs), i, used)
      ensures LiveKept(old(cells), cells, Live(old(bs)), HEADER) && LiveKept(old(cells), cells, Live(bs), HEADER)
    {
      MarkInBand(cells, bs, i, used, End());
      MarkLive(bs, i, used, HEADER, End());
      mem[p] := Tag(used);
      cells := mem[..];
      bs := Mark(bs, i, used);
      assert SamePayload(old(cells), cells, bs[i], HEADER) by {
        assert SamePayload(old(cells), cells, old(bs[i]), HEADER);
      }
    }

    // rt_free
    method Free(rmem: Ptr)
      requires Valid() && Passable(bs, rmem, size)
      modifies this, mem
      ensures Valid()
      ensures bs == FreeSpec(old(bs), rmem)
      ensures LiveKept(old(cells), cells, Live(bs), HEADER)
      ensures maxMem == old(maxMem)
    {
      if rmem.Null? {
        return;
      }
      if rmem.cell < 0 || rmem.cell >= size + HEADER {
        OutsideNotLive(bs, rmem, size);
        return;
      }
      var p := rmem.cell - HEADER;
      FreeBlock(p, IndexOf(bs, BlockOf(bs, rmem, HEADER)));
    }

    // rt_free once the header is found.
    method FreeBlock(p: nat, ghost i: nat)
      requires Valid() && i < |bs| && bs[i].at == p && bs[i].used
      modifies this, mem
      ensures Valid() && bs == Freed(old(bs), i)
      ensures LiveKept(old(cells), cells, Live(bs), HEADER)
      ensures maxMem == old(maxMem)
    {
      hide UsedCells, Coalesced;
      FreeSetup(bs, i, low, End());
      SetUsed(p, false, i);
      ghost var m1, b1 := cells, bs;
      assert HeaderAt(cells, bs, i);
      if p < lfree {
        lfree := p;
        low := i;
      }
      usedMem := usedMem - (mem[p + 1] - p);
      PlugHoles(p, i);
      LiveKeptTrans(old(cells), m1, cells, Live(b1), Live(b1), HEADER);
    }

    // The header writes that cut the block at p at p2.
    method WriteSplit(p: nat, p2: nat, next: nat)
      requires mem[..] == cells && p + 1 < |cells| && p2 + 2 < |cells| && next + 2 < |cells|
      modifies mem, `cells
      ensures mem[..] == cells == SplitMem(old(cells), p, p2, next, End())
    {
      mem[p2] := FREE_TAG;
      mem[p2 + 1] := next;
      mem[p2 + 2] := p;
      mem[p + 1] := p2;
      if next != size + HEADER {
        mem[next + 2] := p2;
      }
      cells := mem[..];
    }

    // Cut the block at p after `req` cells: mem2 of rt_malloc and rt_realloc.
    method SplitBlock(p: nat, req: nat, ghost i: nat)
      requires Linked() && i < |bs| && bs[i].at == p
      requires 0 < req && req + HEADER < Payload(bs[i], HEADER)
      modifies mem, `cells, `low, `bs
      ensures Linked() && bs == Split(old(bs), i, HEADER, req)
      ensures low == if old(low) <= i then old(low) else old(low) + 1
      ensures LiveKept(old(cells), cells, Live(bs), HEADER)
    {
      SplitInBand(cells, bs, i, req, End());
      SplitLiveKept(cells, bs, i, req, End());
      assert HeaderAt(cells, bs, i);
      var p2 := p + HEADER + req;
      var next := mem[p + 1];
      WriteSplit(p, p2, next);
      low := if low <= i then low else low + 1;
      bs := Split(bs, i, HEADER, req);
    }

    // The walk that moves lfree on to the next free block.
    method AdvanceFree()
      requires Linked() && forall j :: 0 <= j < low ==> bs[j].used
      modifies `lfree, `low
      ensures Linked() && Lowest(bs, low)
    {
      NextBound(bs, low, End());
      while mem[lfree] == USED_TAG && lfree != size + HEADER
        invariant lfree <= End() && Linked() && forall j :: 0 <= j < low ==> bs[j].used
        decreases |bs| - low
      {
        assert HeaderAt(cells, bs, low);
        Within(bs, low, HEADER, End());
        assert low + 1 < |bs| ==> TileAt(bs, low + 1, HEADER, End());
        lfree := mem[lfree + 1];
        low := low + 1;
        NextBound(bs, low, End());
      }
      NextBound(bs, low, End());
      assert low < |bs| ==> HeaderAt(cells, bs, low);
    }

    // The search loop of rt_malloc: where it stops.
    method Search(req: nat) returns (ptr: nat, ghost i: nat)
      requires Valid() && 0 < req <= size
      ensures i <= |bs| && ptr == NextAt(bs, i, End())
      ensures FirstFit(bs, req, size - req, 0) == if ptr < size - req then i else |bs|
      ensures ptr < size - req ==> low <= i < |bs|
    {
      ptr := lfree;
      i := low;
      AllBounds(bs, End());
      assert InStep(bs, i, End());
      while ptr < size - req
        invariant i <= |bs| && ptr == NextAt(bs, i, End()) <= End()
        invariant low <= i && forall j :: 0 <= j < i ==> !Fits(bs[j], req)
        decreases |bs| - i
      {
        assert InStep(bs, i, End()) && InStep(bs, i + 1, End()) && HeaderAt(cells, bs, i);
        if mem[ptr] == FREE_TAG && mem[ptr + 1] - (ptr + HEADER) >= req {
          break;
        }
        ptr := mem[ptr + 1];
        i := i + 1;
      }
      FirstFitIs(bs, req, size - req, i, End());
    }

    // rt_malloc
    method Malloc(bytes: nat) returns (r: Ptr)
      requires Valid() && bytes < WORD_RANGE
      modifies this, mem
      ensures Valid()
      ensures Outcome(r, bs) == MallocSpec(old(bs), bytes, size)
      ensures LiveKept(old(cells), cells, Live(old(bs)), HEADER)
      ensures maxMem == if usedMem > old(maxMem) then usedMem else old(maxMem)
    {
      hide Carve, Coalesced, InBand, UsedCells;
      if bytes == 0 {
        return Null;
      }
      var req := AlignCells(bytes);
      if req > size {
        return Null;
      }
      if req < MIN_SIZE {
        req := MIN_SIZE;
      }
      var ptr; ghost var i;
      ptr, i := Search(req);
      if ptr < size - req {
        TakeBlock(ptr, req, i);
        return At(ptr + HEADER);
      }
      return Null;
    }

    // The block at p is chosen for `req` cells.
    method TakeBlock(p: nat, req: nat, ghost i: nat)
      requires Valid() && low <= i < |bs| && bs[i].at == p && Fits(bs[i], req) && 0 < req
      modifies this, mem
      ensures Valid() && bs == Carve(old(bs), i, HEADER, req, MIN_SIZE)
      ensures LiveKept(old(cells), cells, Live(old(bs)), HEADER)
      ensures maxMem == if usedMem > old(maxMem) then usedMem else old(maxMem)
    {
      CarveKeeps(bs, i, HEADER, req, MIN_SIZE, End());
      CutOff(p, req, i);
      ghost var m1, live1 := cells, Live(bs);
      if maxMem < usedMem {
        maxMem := usedMem;
      }
      HandOut(p, i);
      LiveKeptTrans(old(cells), m1, cells, Live(old(bs)), live1, HEADER);
    }

    // A block large enough is cut, and what is taken is counted.
    method CutOff(p: nat, req: nat, ghost i: nat)
      requires Linked() && Lowest(bs, low) && i < |bs| && low <= i && bs[i].at == p && Fits(bs[i], req) && 0 < req
      modifies mem, `cells, `low, `bs, `usedMem
      ensures Linked() && Lowest(bs, low) && low == old(low)
      ensures i < |bs| && !bs[i].used && bs[i].at == p && Mark(bs, i, true) == Carve(old(bs), i, HEADER, req, MIN_SIZE)
      ensures usedMem == old(usedMem) + Len(bs[i])
      ensures LiveKept(old(cells), cells, Live(old(bs)), HEADER) && Live(old(bs)) <= Live(bs)
    {
      assert HeaderAt(cells, bs, i);
      if mem[p + 1] - (p + HEADER) >= req + HEADER + MIN_SIZE {
        SplitLive(bs, i, HEADER, req, End());
        FreeNotLive(bs, i);
        SplitBlock(p, req, i);
        usedMem := usedMem + (req + HEADER);
      } else {
        usedMem := usedMem + (mem[p + 1] - p);
      }
    }

    // mem->used = 1, and lfree moves on if it pointed here.
    method HandOut(p: nat, ghost i: nat)
      requires Linked() && Lowest(bs, low) && low <= i < |bs| && bs[i].at == p
      modifies mem, `cells, `lfree, `low, `bs
      ensures Linked() && Lowest(bs, low) && bs == Mark(old(bs), i, true)
      ensures LiveKept(old(cells), cells, Live(old(bs)), HEADER)
    {
      SameBlock(bs, low, i, End());
      SetUsed(p, true, i);
      if p == lfree {
        AdvanceFree();
      }
    }

    method Copy(dst: nat, src: nat, n: nat)
      requires mem[..] == cells && dst + n <= |cells| && src + n <= |cells|
      requires dst + n <= src || src + n <= dst
      modifies mem, `cells
      ensures mem[..] == cells && IsCopy(old(cells), cells, dst, src, n)
    {
      CopyCells(mem, dst, src, n);
      cells := mem[..];
    }

    // rt_realloc. For the last three sizes below 2^32 `newsize` wraps around to 0.
    method Realloc(rmem: Ptr, bytes: nat) returns (r: Ptr)
      requires Valid() && bytes < WORD_RANGE && Passable(bs, rmem, size)
      modifies this, mem
      ensures Valid()
      ensures Outcome(r, bs) == ReallocSpec(old(bs), rmem, bytes, size)
      ensures ReallocKeeps(old(cells), cells, old(bs), rmem, r, AlignCells(bytes), HEADER)
      ensures r.Null? && 0 < bytes <= WORD_RANGE - 4 ==> LiveKept(old(cells), cells, Live(old(bs)), HEADER)
    {
      AlignWraps(bytes);
      hide AlignCells, FreeSpec, MallocSpec;
      var newsize := AlignCells(bytes);
      if newsize > size {
        KeepsSame(cells, bs, rmem, Null, newsize, End(), HEADER);
        return Null;
      } else if newsize == 0 {
        Free(rmem);
        KeepsFreed(old(cells), cells, old(bs), rmem, size);
        return Null;
      }
      if rmem.Null? {
        r := Malloc(4 * newsize);
        return;
      }
      if rmem.cell < 0 || rmem.cell >= size + HEADER {
        OutsideNotLive(bs, rmem, size);
        KeepsSame(cells, bs, rmem, rmem, newsize, End(), HEADER);
        return rmem;
      }
      r := Resize(rmem, newsize, BlockOf(bs, rmem, HEADER));
    }

    // rt_realloc of a live block.
    method Resize(rmem: Ptr, newsize: nat, ghost b: Block) returns (r: Ptr)
      requires Valid() && Holds(bs, rmem, b, HEADER) && 0 < newsize <= size
      modifies this, mem
      ensures Valid()
      ensures Outcome(r, bs) == ResizeSpec(old(bs), rmem, b, newsize, size)
      ensures ReallocKeeps(old(cells), cells, old(bs), rmem, r, newsize, HEADER)
    {
      hide Shrunk, MoveSpec, Coalesced, UsedCells;
      ghost var i := IndexOf(bs, b);
      assert HeaderAt(cells, bs, i);
      HoldsOne(bs, rmem, b, End(), HEADER);
      var ptr := rmem.cell - HEADER;
      var have := mem[ptr + 1] - ptr - HEADER;
      if have == newsize {
        KeepsSame(cells, bs, rmem, rmem, newsize, End(), HEADER);
        r := rmem;
      } else if newsize + HEADER + MIN_SIZE < have {
        ShrinkBlock(ptr, newsize, i);
        KeepsShrunk(old(cells), cells, old(bs), rmem, newsize, End(), HEADER);
        r := rmem;
      } else {
        r := MoveBlock(rmem, have, newsize, b);
      }
    }

    // The expanding branch of rt_realloc: allocate, copy, free.
    method MoveBlock(rmem: Ptr, have: int, newsize: nat, ghost b: Block) returns (r: Ptr)
      requires Valid() && Holds(bs, rmem, b, HEADER) && 0 < newsize <= size && have == Payload(b, HEADER) >= 0
      modifies this, mem
      ensures Valid()
      ensures Outcome(r, bs) == MoveSpec(old(bs), rmem, newsize, size)
      ensures ReallocKeeps(old(cells), cells, old(bs), rmem, r, newsize, HEADER)
    {
      AlignExact(newsize);
      MallocKeeps(bs, 4 * newsize, size);
      r := Malloc(4 * newsize);
      if r.At? {
        ghost var m1, br := cells, NewBlock(old(bs), 4 * newsize, size);
        ghost var m2 := CopyAndFree(rmem, r, Least(newsize, have), b, br);
        KeepsMoved(old(cells), m1, m2, cells, old(bs), b, br, rmem, r, newsize, End(), HEADER);
      }
    }

    method CopyAndFree(rmem: Ptr, r: Ptr, n: nat, ghost b: Block, ghost br: Block) returns (ghost copied: seq<int>)
      requires Valid() && Holds(bs, rmem, b, HEADER) && Holds(bs, r, br, HEADER) && b != br
      requires n <= Payload(b, HEADER) && n <= Payload(br, HEADER)
      modifies this, mem
      ensures Valid() && bs == FreeSpec(old(bs), rmem)
      ensures IsCopy(old(cells), copied, r.cell, rmem.cell, n)
      ensures LiveKept(old(cells), copied, Live(old(bs)) - {br}, HEADER)
      ensures LiveKept(copied, cells, Live(old(bs)) - {b}, HEADER)
    {
      PayloadsApart(bs, rmem, r, b, br, n, End(), HEADER);
      Copy(r.cell, rmem.cell, n);
      CopiedPayload(old(cells), cells, bs, br, rmem.cell, n, End());
      copied := cells;
      HoldsOne(bs, rmem, b, End(), HEADER);
      FreeKeeps(bs, rmem, size);
      Free(rmem);
    }

    // The shrinking branch of rt_realloc.
    method ShrinkBlock(p: nat, req: nat, ghost i: nat)
      requires Valid() && i < |bs| && bs[i].at == p && bs[i].used
      requires 0 < req && req + HEADER + MIN_SIZE < Payload(bs[i], HEADER)
      modifies this, mem
      ensures Valid() && bs == Shrunk(old(bs), i, HEADER, req)
      ensures LiveKept(old(cells), cells, Live(bs), HEADER)
    {
      ShrinkKeeps(bs, i, req, End());
      ShrinkSetup(bs, i, req, low, End());
      CutTail(p, req, i);
      ghost var m1, b1 := cells, bs;
      PlugHoles(p + HEADER + req, i + 1);
      LiveKeptTrans(old(cells), m1, cells, Live(b1), Live(b1), HEADER);
    }

    method CutTail(p: nat, req: nat, ghost i: nat)
      requires Linked() && Lowest(bs, low) && i < |bs| && bs[i].at == p && bs[i].used
      requires 0 < req && req + HEADER < Payload(bs[i], HEADER)
      modifies this, mem
      ensures Linked() && Lowest(bs, low) && bs == Split(old(bs), i, HEADER, req)
      ensures usedMem == old(usedMem) - (Payload(old(bs)[i], HEADER) - req) && maxMem == old(maxMem)
      ensures LiveKept(old(cells), cells, Live(bs), HEADER)
    {
      ShrinkSetup(bs, i, req, low, End());
      assert HeaderAt(cells, bs, i);
      var have := mem[p + 1] - p - HEADER;
      usedMem := usedMem - (have - req);
      SplitBlock(p, req, i);
      var p2 := p + HEADER + req;
      if p2 < lfree {
        lfree := p2;
        low := i + 1;
      }
    }
  }
}
