// What the memheap allocator (rt-thread/src/memheap.c) computes, on the block list, the free
// list and the two counters. Lengths count 32-bit cells.
module MemHeapSpec {
  import opened Words
  import opened Lists
  import opened Blocks
  import opened Payloads

  const HEADER := 6 // RT_MEMHEAP_SIZE, 24 bytes
  const MINI := 3   // RT_MEMHEAP_MINIALLOC, 12 bytes

  // `free` holds the addresses of the free blocks in list order.
  datatype State = State(bs: seq<Block>, free: seq<nat>, avail: int, maxUsed: int)

  datatype Outcome = Outcome(ptr: Ptr, s: State)

  // The request after alignment.
  function Request(bytes: nat): nat {
    if AlignCells(bytes) < MINI then MINI else AlignCells(bytes)
  }

  function Greater(a: int, b: int): int { if a > b then a else b }

  // pool_size, the tail block included
  function PoolSize(end: nat): nat { end + HEADER }

  ghost predicate IsFree(bs: seq<Block>, x: nat) {
    exists b :: b in bs && !b.used && b.at == x
  }

  // The free list is a permutation of the free blocks.
  ghost predicate FreeOk(bs: seq<Block>, free: seq<nat>) {
    NoDup(free) && forall x: nat :: x in free <==> IsFree(bs, x)
  }

  ghost predicate Inv(s: State, end: nat) {
    && Wf(s.bs, HEADER, end)
    && FreeOk(s.bs, s.free)
    && s.avail == FreeCells(s.bs, HEADER)
    && PoolSize(end) - s.avail <= s.maxUsed
  }

  ghost function FreeIndex(bs: seq<Block>, x: nat): (i: nat)
    requires IsFree(bs, x)
    ensures i < |bs| && bs[i].at == x && !bs[i].used
  {
    var b :| b in bs && !b.used && b.at == x;
    IndexOf(bs, b)
  }

  ghost predicate FitsAt(bs: seq<Block>, x: nat, req: nat) {
    IsFree(bs, x) && Payload(bs[FreeIndex(bs, x)], HEADER) >= req
  }

  // The first entry of the free list, from `from` on, with room for the request.
  ghost function FirstFit(bs: seq<Block>, free: seq<nat>, req: nat, from: nat): (k: nat)
    requires from <= |free|
    ensures from <= k <= |free| && (k < |free| ==> FitsAt(bs, free[k], req))
    ensures forall j :: from <= j < k ==> !FitsAt(bs, free[j], req)
    decreases |free| - from
  {
    if from == |free| || FitsAt(bs, free[from], req) then from else FirstFit(bs, free, req, from + 1)
  }

  ghost function Account(s: State, end: nat): State {
    s.(maxUsed := Greater(s.maxUsed, PoolSize(end) - s.avail))
  }

  predicate Splits(b: Block, req: nat) { Payload(b, HEADER) >= req + HEADER + MINI }

  // The free block i leaves the free list; if it splits, its tail takes over.
  ghost function Detached(s: State, i: nat, req: nat): State
    requires i < |s.bs|
  {
    var b, rest := s.bs[i], Without(s.free, s.bs[i].at);
    if Splits(b, req) then
      s.(bs := Split(s.bs, i, HEADER, req), free := [b.at + HEADER + req] + rest, avail := s.avail - req - HEADER)
    else s.(free := rest, avail := s.avail - Payload(b, HEADER))
  }

  // Hand out the free block i.
  ghost function Take(s: State, i: nat, req: nat, end: nat): State
    requires i < |s.bs|
  {
    var t := Detached(s, i, req);
    Account(t.(bs := Mark(t.bs, i, true)), end)
  }

  ghost function AllocSpec(s: State, bytes: nat, end: nat): Outcome {
    var req := Request(bytes);
    var k := FirstFit(s.bs, s.free, req, 0);
    if req >= s.avail || k == |s.free| then Outcome(Null, s)
    else
      Outcome(At(s.free[k] + HEADER), Take(s, Chosen(s, bytes), req, end))
  }

  ghost predicate FreeBefore(bs: seq<Block>, i: nat) { 0 < i <= |bs| && !bs[i - 1].used }

  ghost predicate FreeAfter(bs: seq<Block>, i: nat) { i + 1 < |bs| && !bs[i + 1].used }

  // The free list once a free block behind block i has been unlinked.
  ghost function RestAfter(bs: seq<Block>, free: seq<nat>, i: nat): seq<nat> {
    if FreeAfter(bs, i) then Without(free, bs[i + 1].at) else free
  }

  // Free the used block i: fuse it with free neighbours. The fused block keeps the place of
  // its left neighbour in the free list, or else goes to the front.
  ghost function Release(s: State, i: nat): State
    requires i < |s.bs|
  {
    var b := s.bs[i];
    var rest := RestAfter(s.bs, s.free, i);
    State(Freed(s.bs, i),
          if FreeBefore(s.bs, i) then rest else [b.at] + rest,
          s.avail + Payload(b, HEADER)
            + (if FreeBefore(s.bs, i) then HEADER else 0) + (if FreeAfter(s.bs, i) then HEADER else 0),
          s.maxUsed)
  }

  ghost function FreeSpec(s: State, p: Ptr): State {
    if IsLive(s.bs, p, HEADER) then Release(s, IndexOf(s.bs, BlockOf(s.bs, p, HEADER))) else s
  }

  // The used block i can take what it lacks from a free block behind it.
  ghost predicate CanGrow(bs: seq<Block>, i: nat, n: nat) {
    i < |bs| && FreeAfter(bs, i) && Payload(bs[i + 1], HEADER) + Payload(bs[i], HEADER) > n + MINI
  }

  // How rt_memheap_realloc decides it, on sizes in bytes: rt_size_t has 32 bits, and the sum on
  // the right wraps around.
  predicate GrowTest(nextsize: int, oldsize: int, newsize: nat) {
    4 * (nextsize + oldsize) > (4 * (newsize + MINI)) % WORD_RANGE
  }

  ghost predicate Accepts(bs: seq<Block>, i: nat, n: nat) {
    i < |bs| && FreeAfter(bs, i) && GrowTest(Payload(bs[i + 1], HEADER), Payload(bs[i], HEADER), n)
  }

  // Nothing is free behind the block, or the sum does not wrap around.
  ghost predicate SafeGrow(bs: seq<Block>, i: nat, n: nat) {
    !FreeAfter(bs, i) || 4 * (n + MINI) < WORD_RANGE
  }

  lemma SafeAccepts(bs: seq<Block>, i: nat, n: nat)
    requires SafeGrow(bs, i, n)
    ensures Accepts(bs, i, n) <==> CanGrow(bs, i, n)
  {
  }

  // The live block p points to may be resized to so many bytes without the test going wrong.
  ghost predicate SafeSize(bs: seq<Block>, p: Ptr, bytes: nat) {
    IsLive(bs, p, HEADER) ==> SafeGrow(bs, IndexOf(bs, BlockOf(bs, p, HEADER)), Request(bytes))
  }

  ghost function Grow(s: State, i: nat, n: nat, end: nat): State
    requires i + 1 < |s.bs|
  {
    Account(State(Grown(s.bs, i, HEADER, n),
                  [s.bs[i].at + HEADER + n] + Without(s.free, s.bs[i + 1].at),
                  s.avail - (n - Payload(s.bs[i], HEADER)), s.maxUsed), end)
  }

  ghost function Shrink(s: State, i: nat, n: nat): State
    requires i < |s.bs|
  {
    var rest := RestAfter(s.bs, s.free, i);
    State(Shrunk(s.bs, i, HEADER, n), [s.bs[i].at + HEADER + n] + rest,
          s.avail + Payload(s.bs[i], HEADER) - n - HEADER + (if FreeAfter(s.bs, i) then HEADER else 0), s.maxUsed)
  }

  ghost function MoveSpec(s: State, p: Ptr, n: nat, end: nat): Outcome {
    var o := AllocSpec(s, 4 * n, end);
    if o.ptr.Null? then o else Outcome(o.ptr, FreeSpec(o.s, p))
  }

  ghost function ExpandSpec(s: State, p: Ptr, i: nat, n: nat, end: nat): Outcome {
    if Accepts(s.bs, i, n) then Outcome(p, Grow(s, i, n, end)) else MoveSpec(s, p, n, end)
  }

  // rt_memheap_realloc of the live block i at p to n cells.
  ghost function ResizeSpec(s: State, p: Ptr, i: nat, n: nat, end: nat): Outcome
    requires i < |s.bs|
  {
    var have := Payload(s.bs[i], HEADER);
    if n > have then ExpandSpec(s, p, i, n, end)
    else if n + HEADER + MINI >= have then Outcome(p, s)
    else Outcome(p, Shrink(s, i, n))
  }

  ghost function ReallocSpec(s: State, p: Ptr, bytes: nat, end: nat): Outcome {
    if bytes == 0 then Outcome(Null, FreeSpec(s, p))
    else if p.Null? then AllocSpec(s, 4 * Request(bytes), end)
    else if !IsLive(s.bs, p, HEADER) then Outcome(p, s)
    else ResizeSpec(s, p, IndexOf(s.bs, BlockOf(s.bs, p, HEADER)), Request(bytes), end)
  }

  // ---- the free list through each rewrite ----

  lemma FreeCat(a: seq<Block>, b: seq<Block>, x: nat)
    ensures IsFree(a + b, x) <==> IsFree(a, x) || IsFree(b, x)
  {
    if IsFree(a, x) {
      var c :| c in a && !c.used && c.at == x;
      assert c in a + b;
    }
    if IsFree(b, x) {
      var c :| c in b && !c.used && c.at == x;
      assert c in a + b;
    }
  }

  lemma FreeOne(b: Block, x: nat)
    ensures IsFree([b], x) <==> !b.used && b.at == x
  {
    assert b in [b];
  }

  // Replacing n blocks from i on by `mid` changes the free blocks there only.
  lemma FreeCut(bs: seq<Block>, i: nat, n: nat, mid: seq<Block>, x: nat)
    requires i + n <= |bs|
    ensures IsFree(bs, x) <==> IsFree(bs[..i], x) || IsFree(bs[i..i + n], x) || IsFree(bs[i + n..], x)
    ensures IsFree(bs[..i] + mid + bs[i + n..], x)
       <==> IsFree(bs[..i], x) || IsFree(mid, x) || IsFree(bs[i + n..], x)
  {
    assert bs == bs[..i] + bs[i..i + n] + bs[i + n..];
    FreeCat(bs[..i] + bs[i..i + n], bs[i + n..], x);
    FreeCat(bs[..i], bs[i..i + n], x);
    FreeCat(bs[..i] + mid, bs[i + n..], x);
    FreeCat(bs[..i], mid, x);
  }

  // No block elsewhere in the list starts where block i does.
  lemma StartsOnce(bs: seq<Block>, i: nat, k: nat, end: nat)
    requires Tiles(bs, HEADER, end) && i <= k < |bs|
    ensures !IsFree(bs[..i], bs[k].at) && !IsFree(bs[k + 1..], bs[k].at)
  {
    forall b | b in bs[..i]
      ensures b.at != bs[k].at
    {
      var j :| 0 <= j < i && bs[j] == b;
      if b.at == bs[k].at { SameAddress(bs, j, k, HEADER, end); }
    }
    forall b | b in bs[k + 1..]
      ensures b.at != bs[k].at
    {
      var j :| 0 <= j < |bs| - k - 1 && bs[k + 1..][j] == b;
      if b.at == bs[k].at { SameAddress(bs, k + 1 + j, k, HEADER, end); }
    }
  }

  lemma MarkFree(bs: seq<Block>, i: nat, used: bool, x: nat, end: nat)
    requires Tiles(bs, HEADER, end) && i < |bs|
    ensures IsFree(Mark(bs, i, used), x) <==> if x == bs[i].at then !used else IsFree(bs, x)
  {
    var b := bs[i].(used := used);
    assert Mark(bs, i, used) == bs[..i] + [b] + bs[i + 1..] && bs[i..i + 1] == [bs[i]];
    FreeCut(bs, i, 1, [b], x);
    FreeOne(b, x);
    FreeOne(bs[i], x);
    StartsOnce(bs, i, i, end);
  }

  lemma TwoFree(a: Block, b: Block, x: nat)
    ensures IsFree([a, b], x) <==> (!a.used && a.at == x) || (!b.used && b.at == x)
  {
    assert [a, b] == [a] + [b];
    FreeCat([a], [b], x);
    FreeOne(a, x);
    FreeOne(b, x);
  }

  lemma SplitFree(bs: seq<Block>, i: nat, req: nat, x: nat, end: nat)
    requires Tiles(bs, HEADER, end) && i < |bs|
    ensures IsFree(Split(bs, i, HEADER, req), x) <==> IsFree(bs, x) || x == bs[i].at + HEADER + req
  {
    var p2 := bs[i].at + HEADER + req;
    var mid := [Block(bs[i].at, p2, bs[i].used), Block(p2, bs[i].next, false)];
    assert bs[i..i + 1] == [bs[i]];
    FreeCut(bs, i, 1, mid, x);
    TwoFree(mid[0], mid[1], x);
    FreeOne(bs[i], x);
  }

  // Fusing the free block i + 1 into block i.
  lemma MergeFree(bs: seq<Block>, i: nat, x: nat, end: nat)
    requires Tiles(bs, HEADER, end) && i + 1 < |bs|
    ensures IsFree(Merge(bs, i), x) <==> IsFree(bs, x) && x != bs[i + 1].at
  {
    var b := Block(bs[i].at, bs[i + 1].next, bs[i].used);
    assert bs[i..i + 2] == [bs[i], bs[i + 1]];
    FreeCut(bs, i, 2, [b], x);
    FreeOne(b, x);
    TwoFree(bs[i], bs[i + 1], x);
    StartsOnce(bs, i, i + 1, end);
    Order(bs, i, i + 1, HEADER, end);
    Within(bs, i, HEADER, end);
  }

  lemma GrownFree(bs: seq<Block>, i: nat, req: nat, x: nat, end: nat)
    requires Tiles(bs, HEADER, end) && i + 1 < |bs| && bs[i].used && !bs[i + 1].used
    requires bs[i + 1].at < bs[i].at + HEADER + req < bs[i + 1].next
    ensures IsFree(Grown(bs, i, HEADER, req), x)
       <==> (IsFree(bs, x) && x != bs[i + 1].at) || x == bs[i].at + HEADER + req
  {
    var p2 := bs[i].at + HEADER + req;
    var mid := [Block(bs[i].at, p2, bs[i].used), Block(p2, bs[i + 1].next, false)];
    assert bs[i..i + 2] == [bs[i], bs[i + 1]];
    FreeCut(bs, i, 2, mid, x);
    TwoFree(bs[i], bs[i + 1], x);
    TwoFree(mid[0], mid[1], x);
    StartsOnce(bs, i, i + 1, end);
  }

  lemma WithoutOk(free: seq<nat>, y: nat)
    requires NoDup(free)
    ensures NoDup(Without(free, y)) && forall x: nat :: x in Without(free, y) <==> x in free && x != y
  {
    WithoutMembers(free, y);
    WithoutNoDup(free, y);
  }

  lemma CarveFree(bs: seq<Block>, i: nat, req: nat, x: nat, end: nat)
    requires Wf(bs, HEADER, end) && i < |bs| && !bs[i].used && 0 < req <= Payload(bs[i], HEADER)
    ensures IsFree(Carve(bs, i, HEADER, req, MINI), x)
       <==> (IsFree(bs, x) && x != bs[i].at) || (Splits(bs[i], req) && x == bs[i].at + HEADER + req)
  {
    if Splits(bs[i], req) {
      SplitTiles(bs, i, HEADER, req, end);
      SplitFree(bs, i, req, x, end);
      MarkFree(Split(bs, i, HEADER, req), i, true, x, end);
    } else {
      MarkFree(bs, i, true, x, end);
    }
  }

  // An address inside a block is not the start of a free block.
  lemma InsideNotFree(bs: seq<Block>, i: nat, x: nat, end: nat)
    requires Tiles(bs, HEADER, end) && i < |bs| && bs[i].at < x < bs[i].next
    ensures !IsFree(bs, x)
  {
    forall b | b in bs
      ensures b.at != x
    {
      var j := IndexOf(bs, b);
      Within(bs, j, HEADER, end);
      if j < i { Order(bs, j, i, HEADER, end); } else if i < j { Order(bs, i, j, HEADER, end); }
    }
  }

  lemma TakeFreeOk(s: State, i: nat, req: nat, end: nat)
    requires Wf(s.bs, HEADER, end) && FreeOk(s.bs, s.free)
    requires i < |s.bs| && !s.bs[i].used && 0 < req <= Payload(s.bs[i], HEADER)
    ensures FreeOk(Take(s, i, req, end).bs, Take(s, i, req, end).free)
  {
    var s' := Take(s, i, req, end);
    WithoutOk(s.free, s.bs[i].at);
    if Splits(s.bs[i], req) {
      InsideNotFree(s.bs, i, s.bs[i].at + HEADER + req, end);
    }
    forall x: nat
      ensures x in s'.free <==> IsFree(s'.bs, x)
    {
      CarveFree(s.bs, i, req, x, end);
    }
  }

  lemma TakeKeeps(s: State, i: nat, req: nat, end: nat)
    requires Inv(s, end) && i < |s.bs| && !s.bs[i].used && 0 < req <= Payload(s.bs[i], HEADER)
    ensures Inv(Take(s, i, req, end), end)
  {
    TakeFreeOk(s, i, req, end);
    CarveKeeps(s.bs, i, HEADER, req, MINI, end);
  }

  lemma FreedIsFree(bs: seq<Block>, i: nat, x: nat, end: nat)
    requires Wf(bs, HEADER, end) && i < |bs| && bs[i].used
    ensures IsFree(Freed(bs, i), x)
       <==> (IsFree(bs, x) || x == bs[i].at) && !(FreeAfter(bs, i) && x == bs[i + 1].at)
            && !(FreeBefore(bs, i) && x == bs[i].at)
  {
    var m := Mark(bs, i, false);
    MarkTiles(bs, i, false, HEADER, end);
    MarkFree(bs, i, false, x, end);
    if FreeAfter(bs, i) {
      MergeFree(m, i, x, end);
      MergeTiles(m, i, HEADER, end);
    }
    if FreeBefore(bs, i) {
      MergeFree(MergeNext(m, i), i - 1, x, end);
    }
  }

  lemma UsedNotFree(bs: seq<Block>, i: nat, end: nat)
    requires Tiles(bs, HEADER, end) && i < |bs| && bs[i].used
    ensures !IsFree(bs, bs[i].at)
  {
    forall b | b in bs && b.at == bs[i].at
      ensures b.used
    {
      SameAddress(bs, IndexOf(bs, b), i, HEADER, end);
    }
  }

  lemma ReleaseFreeOk(s: State, i: nat, end: nat)
    requires Wf(s.bs, HEADER, end) && FreeOk(s.bs, s.free) && i < |s.bs| && s.bs[i].used
    ensures FreeOk(Release(s, i).bs, Release(s, i).free)
  {
    var s' := Release(s, i);
    if FreeAfter(s.bs, i) {
      WithoutOk(s.free, s.bs[i + 1].at);
      Order(s.bs, i, i + 1, HEADER, end);
      Within(s.bs, i, HEADER, end);
    }
    UsedNotFree(s.bs, i, end);
    forall x: nat
      ensures x in s'.free <==> IsFree(s'.bs, x)
    {
      FreedIsFree(s.bs, i, x, end);
    }
  }

  lemma ReleaseKeeps(s: State, i: nat, end: nat)
    requires Inv(s, end) && i < |s.bs| && s.bs[i].used
    ensures Inv(Release(s, i), end) && s.avail < Release(s, i).avail
    ensures Live(Release(s, i).bs) == Live(s.bs) - {s.bs[i]}
  {
    ReleaseFreeOk(s, i, end);
    FreedKeeps(s.bs, i, HEADER, end);
    FreedFree(s.bs, i, HEADER, end);
    Within(s.bs, i, HEADER, end);
  }

  lemma GrowFreeOk(s: State, i: nat, n: nat, end: nat)
    requires Wf(s.bs, HEADER, end) && FreeOk(s.bs, s.free)
    requires CanGrow(s.bs, i, n) && s.bs[i].used && Payload(s.bs[i], HEADER) < n
    ensures FreeOk(Grow(s, i, n, end).bs, Grow(s, i, n, end).free)
  {
    var s', p2 := Grow(s, i, n, end), s.bs[i].at + HEADER + n;
    assert TileAt(s.bs, i + 1, HEADER, end);
    WithoutOk(s.free, s.bs[i + 1].at);
    InsideNotFree(s.bs, i + 1, p2, end);
    forall x: nat
      ensures x in s'.free <==> IsFree(s'.bs, x)
    {
      GrownFree(s.bs, i, n, x, end);
    }
  }

  lemma GrowKeeps(s: State, i: nat, n: nat, end: nat)
    requires Inv(s, end) && CanGrow(s.bs, i, n) && s.bs[i].used && Payload(s.bs[i], HEADER) < n
    ensures Inv(Grow(s, i, n, end), end)
    ensures i < |Grow(s, i, n, end).bs|
    ensures Live(Grow(s, i, n, end).bs) == Live(s.bs) - {s.bs[i]} + {Block(s.bs[i].at, s.bs[i].at + HEADER + n, true)}
  {
    GrowFreeOk(s, i, n, end);
    GrownKeeps(s.bs, i, HEADER, n, end);
  }

  lemma ShrunkIsFree(bs: seq<Block>, i: nat, n: nat, x: nat, end: nat)
    requires Wf(bs, HEADER, end) && i < |bs| && bs[i].used && 0 < n && n + HEADER < Payload(bs[i], HEADER)
    ensures IsFree(Shrunk(bs, i, HEADER, n), x)
       <==> (IsFree(bs, x) && !(FreeAfter(bs, i) && x == bs[i + 1].at)) || x == bs[i].at + HEADER + n
  {
    SplitTiles(bs, i, HEADER, n, end);
    SplitFree(bs, i, n, x, end);
    if FreeAfter(bs, i) {
      MergeFree(Split(bs, i, HEADER, n), i + 1, x, end);
      Order(bs, i, i + 1, HEADER, end);
    }
  }

  lemma ShrinkFreeOk(s: State, i: nat, n: nat, end: nat)
    requires Wf(s.bs, HEADER, end) && FreeOk(s.bs, s.free)
    requires i < |s.bs| && s.bs[i].used && 0 < n && n + HEADER < Payload(s.bs[i], HEADER)
    ensures FreeOk(Shrink(s, i, n).bs, Shrink(s, i, n).free)
  {
    var s' := Shrink(s, i, n);
    if FreeAfter(s.bs, i) {
      WithoutOk(s.free, s.bs[i + 1].at);
    }
    InsideNotFree(s.bs, i, s.bs[i].at + HEADER + n, end);
    forall x: nat
      ensures x in s'.free <==> IsFree(s'.bs, x)
    {
      ShrunkIsFree(s.bs, i, n, x, end);
    }
  }

  lemma ShrinkKeeps(s: State, i: nat, n: nat, end: nat)
    requires Inv(s, end) && i < |s.bs| && s.bs[i].used && 0 < n && n + HEADER < Payload(s.bs[i], HEADER)
    ensures Inv(Shrink(s, i, n), end) && s.avail < Shrink(s, i, n).avail
    ensures Live(Shrink(s, i, n).bs) == Live(s.bs) - {s.bs[i]} + {Block(s.bs[i].at, s.bs[i].at + HEADER + n, true)}
  {
    ShrinkFreeOk(s, i, n, end);
    ShrunkKeeps(s.bs, i, HEADER, n, end);
    ShrunkFree(s.bs, i, HEADER, n, end);
  }

  // ---- the entry points ----

  // The index of the block a successful allocation hands out.
  ghost function Chosen(s: State, bytes: nat): nat
    requires FirstFit(s.bs, s.free, Request(bytes), 0) < |s.free|
  {
    FreeIndex(s.bs, s.free[FirstFit(s.bs, s.free, Request(bytes), 0)])
  }

  ghost function NewBlock(s: State, bytes: nat, end: nat): Block
    requires AllocSpec(s, bytes, end).ptr.At?
  {
    Carve(s.bs, Chosen(s, bytes), HEADER, Request(bytes), MINI)[Chosen(s, bytes)]
  }

  // Exactly the block b, behind p, live neither before nor overlapping anything live, is
  // added, and the high-water mark follows.
  ghost predicate Gave(s: State, t: State, p: Ptr, b: Block, req: nat, end: nat) {
    && Live(t.bs) == Live(s.bs) + {b} && b !in Live(s.bs)
    && Holds(t.bs, p, b, HEADER) && !IsLive(s.bs, p, HEADER)
    && req <= Payload(b, HEADER) && b.next <= end
    && t.maxUsed == Greater(s.maxUsed, PoolSize(end) - t.avail)
  }

  lemma TakeOutcome(s: State, i: nat, req: nat, end: nat)
    requires Inv(s, end) && i < |s.bs| && !s.bs[i].used && 0 < req <= Payload(s.bs[i], HEADER)
    ensures var t := Take(s, i, req, end);
      && Inv(t, end) && i < |t.bs|
      && Gave(s, t, At(s.bs[i].at + HEADER), t.bs[i], req, end)
  {
    TakeKeeps(s, i, req, end);
    var r := Carve(s.bs, i, HEADER, req, MINI);
    CarveKeeps(s.bs, i, HEADER, req, MINI, end);
    Within(r, i, HEADER, end);
    FreeIsNotLive(s.bs, i, end, HEADER);
    assert !Holds(s.bs, At(s.bs[i].at + HEADER), r[i], HEADER);
  }

  // rt_memheap_alloc keeps the invariant and on success hands out one new block.
  lemma AllocKeeps(s: State, bytes: nat, end: nat)
    requires Inv(s, end)
    ensures var o := AllocSpec(s, bytes, end);
      && Inv(o.s, end)
      && (o.ptr.Null? ==> o.s == s)
      && (o.ptr.At? ==> Gave(s, o.s, o.ptr, NewBlock(s, bytes, end), Request(bytes), end))
  {
    if AllocSpec(s, bytes, end).ptr.At? {
      TakeOutcome(s, Chosen(s, bytes), Request(bytes), end);
    }
  }

  lemma FreeKeeps(s: State, p: Ptr, end: nat)
    requires Inv(s, end)
    ensures Inv(FreeSpec(s, p), end) && FreeSpec(s, p).maxUsed == s.maxUsed
    ensures IsLive(s.bs, p, HEADER) ==> Live(FreeSpec(s, p).bs) == Live(s.bs) - {BlockOf(s.bs, p, HEADER)}
  {
    if IsLive(s.bs, p, HEADER) {
      ReleaseKeeps(s, IndexOf(s.bs, BlockOf(s.bs, p, HEADER)), end);
    }
  }

  // The state rt_memheap_init leaves behind.
  ghost function Init(end: nat): State
    requires HEADER < end
  {
    State([Block(0, end, false)], [0], end - HEADER, 2 * HEADER)
  }

  lemma InitOk(end: nat)
    requires HEADER < end
    ensures Inv(Init(end), end)
  {
    var s := Init(end);
    assert TileAt(s.bs, 0, HEADER, end) && PairAt(s.bs, 0);
    Sums1(s.bs[0], HEADER);
    forall x: nat
      ensures x in s.free <==> IsFree(s.bs, x)
    {
      FreeOne(s.bs[0], x);
    }
  }
}
