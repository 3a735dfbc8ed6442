// How a memheap (rt-thread/src/memheap.c) lies in memory, and what its writes do to it.
//
// Memory is an array of 32-bit cells; offsets and lengths count cells. A header (struct
// rt_memheap_item) has six: magic and used flag, pool_ptr, next, prev, next_free, prev_free.
// Headers form two rings: all blocks in address order, closed by the used tail block at
// `end`, and the free blocks, closed by free_header, which is placed behind the pool.
module MemHeapLayout {
  import opened Lists
  import opened Blocks
  import opened Payloads
  import opened RtLists
  import opened MemHeapSpec

  const FREE_TAG := 0x1ea0_1ea0   // RT_MEMHEAP_MAGIC | RT_MEMHEAP_FREED
  const USED_TAG := 0x1ea0_1ea1   // RT_MEMHEAP_MAGIC | RT_MEMHEAP_USED
  const POOL := 0                 // the heap object, as every pool_ptr holds it
  const NULL := -1

  const BLOCKS := Layout(6, 2, 3) // next, prev
  const FREES := Layout(6, 4, 5)  // next_free, prev_free

  function Tag(used: bool): int { if used then USED_TAG else FREE_TAG }

  // ---- the in-band representation ----

  ghost function Starts(bs: seq<Block>): seq<nat> {
    seq(|bs|, i requires 0 <= i < |bs| => bs[i].at)
  }

  ghost function BlockRing(bs: seq<Block>, end: nat): seq<nat> { Starts(bs) + [end] }

  ghost function FreeRing(free: seq<nat>, end: nat): seq<nat> { [end + HEADER] + free }

  ghost predicate TagAt(m: seq<int>, bs: seq<Block>, i: nat)
    requires i < |bs|
  {
    bs[i].at + 1 < |m| && m[bs[i].at] == Tag(bs[i].used) && m[bs[i].at + 1] == POOL
  }

  ghost predicate Tagged(m: seq<int>, bs: seq<Block>, end: nat) {
    && (forall i :: 0 <= i < |bs| ==> TagAt(m, bs, i))
    && end + 1 < |m| && m[end] == USED_TAG && m[end + 1] == POOL
  }

  ghost predicate InBand(m: seq<int>, bs: seq<Block>, free: seq<nat>, end: nat) {
    && |m| == end + 2 * HEADER
    && Tiles(bs, HEADER, end) && Tagged(m, bs, end)
    && Ring(m, BlockRing(bs, end), BLOCKS) && Ring(m, FreeRing(free, end), FREES)
    && (forall k :: 0 <= k < |free| ==> free[k] in Starts(bs))
  }

  // The payloads of all blocks read the same in both memories.
  ghost predicate SameElse(m: seq<int>, m': seq<int>, bs: seq<Block>) {
    |m| == |m'| && forall j :: 0 <= j < |bs| ==> SamePayload(m, m', bs[j], HEADER)
  }

  // A node of the block ring.
  ghost function NodeAt(bs: seq<Block>, i: nat, end: nat): nat
    requires i <= |bs|
  {
    if i < |bs| then bs[i].at else end
  }

  lemma RingNode(bs: seq<Block>, i: nat, end: nat)
    requires Tiles(bs, HEADER, end) && i <= |bs|
    ensures BlockRing(bs, end)[i] == NodeAt(bs, i, end) && NodeAt(bs, i, end) <= end
    ensures i < |bs| ==> bs[i].at + HEADER < bs[i].next == NodeAt(bs, i + 1, end) <= end
    ensures i > 0 ==> NodeAt(bs, i, end) == bs[i - 1].next
  {
    if i < |bs| {
      Within(bs, i, HEADER, end);
      assert i + 1 < |bs| ==> TileAt(bs, i + 1, HEADER, end);
    }
    if i > 0 {
      Within(bs, i - 1, HEADER, end);
      assert i < |bs| ==> TileAt(bs, i, HEADER, end);
    }
  }

  // Headers never overlap: two nodes are the same or at least a header apart.
  lemma NodesApart(bs: seq<Block>, i: nat, j: nat, end: nat)
    requires Tiles(bs, HEADER, end) && i < j <= |bs|
    ensures NodeAt(bs, i, end) + HEADER < bs[i].next <= NodeAt(bs, j, end)
  {
    Within(bs, i, HEADER, end);
    if j < |bs| {
      Order(bs, i, j, HEADER, end);
    }
  }

  lemma StartIndex(bs: seq<Block>, x: nat) returns (i: nat)
    requires x in Starts(bs)
    ensures i < |bs| && bs[i].at == x
  {
    i :| 0 <= i < |bs| && Starts(bs)[i] == x;
  }

  lemma StartFar(bs: seq<Block>, x: nat, j: nat, end: nat)
    requires Tiles(bs, HEADER, end) && x in Starts(bs) && j <= |bs|
    ensures SameOrFar(x, NodeAt(bs, j, end), HEADER) && x + HEADER <= end
  {
    var i := StartIndex(bs, x);
    Within(bs, i, HEADER, end);
    if i < j {
      NodesApart(bs, i, j, end);
    } else if j < i {
      NodesApart(bs, j, i, end);
    }
  }

  // A node of the free ring against a node of the block ring.
  lemma FreeNodeFar(m: seq<int>, bs: seq<Block>, free: seq<nat>, end: nat, k: nat, j: nat)
    requires InBand(m, bs, free, end) && k <= |free| && j <= |bs|
    ensures var x := FreeRing(free, end)[k];
      SameOrFar(x, NodeAt(bs, j, end), HEADER) && x + HEADER <= |m| && (k > 0 ==> x in Starts(bs) && x + HEADER <= end)
  {
    RingNode(bs, j, end);
    if k > 0 {
      assert free[k - 1] in Starts(bs);
      StartFar(bs, free[k - 1], j, end);
    }
  }

  // The header of node i lies outside the payload of block j.
  lemma HeaderOutside(bs: seq<Block>, i: nat, j: nat, end: nat)
    requires Tiles(bs, HEADER, end) && i <= |bs| && j < |bs|
    ensures NodeAt(bs, i, end) <= bs[j].at || bs[j].next <= NodeAt(bs, i, end)
    ensures bs[j].next <= end
  {
    Within(bs, j, HEADER, end);
    if j < i {
      NodesApart(bs, j, i, end);
    } else if i < j {
      NodesApart(bs, i, j, end);
    }
  }

  // ---- magic |= USED, magic &= ~USED ----

  lemma NodesFarBlocks(bs: seq<Block>, i: nat, j: nat, end: nat)
    requires Tiles(bs, HEADER, end) && i <= |bs| && j <= |bs|
    ensures SameOrFar(NodeAt(bs, i, end), NodeAt(bs, j, end), HEADER)
    ensures NodeAt(bs, i, end) == NodeAt(bs, j, end) <==> i == j
  {
    if i < j {
      NodesApart(bs, i, j, end);
    } else if j < i {
      NodesApart(bs, j, i, end);
    }
  }

  lemma MarkTags(m: seq<int>, bs: seq<Block>, i: nat, used: bool, end: nat)
    requires |m| == end + 2 * HEADER && Tiles(bs, HEADER, end) && Tagged(m, bs, end) && i < |bs|
    ensures bs[i].at < end
    ensures Tagged(m[bs[i].at := Tag(used)], Mark(bs, i, used), end)
    ensures SameElse(m, m[bs[i].at := Tag(used)], bs)
  {
    RingNode(bs, i, end);
    var m', r := m[bs[i].at := Tag(used)], Mark(bs, i, used);
    forall j | 0 <= j < |bs|
      ensures TagAt(m', r, j) && SamePayload(m, m', bs[j], HEADER)
    {
      assert TagAt(m, bs, j);
      NodesFarBlocks(bs, i, j, end);
      HeaderOutside(bs, i, j, end);
    }
  }

  lemma MarkInBand(m: seq<int>, bs: seq<Block>, free: seq<nat>, i: nat, used: bool, end: nat)
    requires InBand(m, bs, free, end) && i < |bs|
    ensures bs[i].at < |m|
    ensures var m' := m[bs[i].at := Tag(used)];
      InBand(m', Mark(bs, i, used), free, end) && SameElse(m, m', bs)
  {
    MarkTags(m, bs, i, used, end);
    MarkTiles(bs, i, used, HEADER, end);
    assert Starts(Mark(bs, i, used)) == Starts(bs);
    var m' := m[bs[i].at := Tag(used)];
    forall j | 0 <= j <= |bs|
      ensures NodeIn(m, BlockRing(bs, end), j, BLOCKS) ==> SameLinks(m, m', BlockRing(bs, end), j, BLOCKS)
    {
      RingNode(bs, j, end);
      NodesFarBlocks(bs, i, j, end);
    }
    RingFrame(m, m', BlockRing(bs, end), BLOCKS);
    forall k | 0 <= k <= |free|
      ensures NodeIn(m, FreeRing(free, end), k, FREES) ==> SameLinks(m, m', FreeRing(free, end), k, FREES)
    {
      FreeNodeFar(m, bs, free, end, k, i);
    }
    RingFrame(m, m', FreeRing(free, end), FREES);
  }

  // ---- a new header inside a block ----

  // The header at p2 is written and linked behind the block at p.
  function CutMem(m: seq<int>, p: nat, p2: nat): seq<int>
    requires p + HEADER <= |m| && p2 + HEADER <= |m| && Far(p, p2, HEADER)
    requires 0 <= m[p + 2] && m[p + 2] + HEADER <= |m|
  {
    Insert(m[p2 := FREE_TAG][p2 + 1 := POOL], p, p2, BLOCKS)
  }

  ghost predicate Cuttable(bs: seq<Block>, i: nat, req: nat) {
    i < |bs| && 0 < req && req + HEADER < Payload(bs[i], HEADER)
  }

  lemma CutFar(bs: seq<Block>, i: nat, req: nat, j: nat, end: nat)
    requires Tiles(bs, HEADER, end) && Cuttable(bs, i, req) && j <= |bs|
    ensures Far(NodeAt(bs, j, end), bs[i].at + HEADER + req, HEADER)
    ensures bs[i].at + HEADER + req + HEADER < bs[i].next <= end
  {
    RingNode(bs, i, end);
    if j < i {
      NodesApart(bs, j, i, end);
    } else if i < j {
      NodesApart(bs, i, j, end);
    }
  }

  lemma CutStarts(bs: seq<Block>, i: nat, req: nat, end: nat)
    requires i < |bs|
    ensures BlockRing(Split(bs, i, HEADER, req), end) == Inserted(BlockRing(bs, end), i, bs[i].at + HEADER + req)
    ensures forall x :: x in Starts(bs) ==> x in Starts(Split(bs, i, HEADER, req))
  {
    var r, p2 := Split(bs, i, HEADER, req), bs[i].at + HEADER + req;
    assert Starts(r) == Starts(bs)[..i + 1] + [p2] + Starts(bs)[i + 1..];
    assert Starts(bs) == Starts(bs)[..i + 1] + Starts(bs)[i + 1..];
  }

  // What the writes of CutMem leave alone.
  ghost predicate CutWrites(m: seq<int>, m': seq<int>, p: nat, p2: nat, q: nat) {
    && |m| == |m'| && p2 + 3 < |m| && m'[p2] == FREE_TAG && m'[p2 + 1] == POOL
    && forall k :: 0 <= k < |m| && !(p2 <= k < p2 + 4) && k != p + 2 && k != q + 3 ==> m'[k] == m[k]
  }

  lemma CutBlockRing(m: seq<int>, bs: seq<Block>, free: seq<nat>, i: nat, req: nat, end: nat)
    requires InBand(m, bs, free, end) && Cuttable(bs, i, req)
    ensures var p, p2, q := bs[i].at, bs[i].at + HEADER + req, NodeAt(bs, i + 1, end);
      && p2 + HEADER < q && q + HEADER <= |m| && m[p + 2] == q
      && Ring(CutMem(m, p, p2), BlockRing(Split(bs, i, HEADER, req), end), BLOCKS)
      && CutWrites(m, CutMem(m, p, p2), p, p2, q)
  {
    var p, p2, q, c := bs[i].at, bs[i].at + HEADER + req, NodeAt(bs, i + 1, end), BlockRing(bs, end);
    RingNode(bs, i, end);
    RingNode(bs, i + 1, end);
    CutFar(bs, i, req, i, end);
    Neighbours(m, c, i, BLOCKS);
    var m0 := m[p2 := FREE_TAG][p2 + 1 := POOL];
    TagsKeepRing(m, bs, free, i, req, end);
    InsertRing(m0, c, i, p2, BLOCKS);
    CutStarts(bs, i, req, end);
  }

  // The first two cells of the new header.
  lemma TagsKeepRing(m: seq<int>, bs: seq<Block>, free: seq<nat>, i: nat, req: nat, end: nat)
    requires InBand(m, bs, free, end) && Cuttable(bs, i, req) && bs[i].at + HEADER + req + 1 < |m|
    ensures var p2, c := bs[i].at + HEADER + req, BlockRing(bs, end);
      && Ring(m[p2 := FREE_TAG][p2 + 1 := POOL], c, BLOCKS)
      && forall j :: 0 <= j < |c| ==> Far(c[j], p2, HEADER)
  {
    var p2, c := bs[i].at + HEADER + req, BlockRing(bs, end);
    var m0 := m[p2 := FREE_TAG][p2 + 1 := POOL];
    forall j | 0 <= j < |c|
      ensures Far(c[j], p2, HEADER) && (NodeIn(m, c, j, BLOCKS) ==> SameLinks(m, m0, c, j, BLOCKS))
    {
      RingNode(bs, j, end);
      CutFar(bs, i, req, j, end);
    }
    RingFrame(m, m0, c, BLOCKS);
  }

  lemma CutTags(m: seq<int>, m': seq<int>, bs: seq<Block>, i: nat, req: nat, end: nat)
    requires |m| == end + 2 * HEADER && Tiles(bs, HEADER, end) && Tagged(m, bs, end) && Cuttable(bs, i, req)
    requires CutWrites(m, m', bs[i].at, bs[i].at + HEADER + req, NodeAt(bs, i + 1, end))
    ensures Tagged(m', Split(bs, i, HEADER, req), end) && SameElse(m, m', Split(bs, i, HEADER, req))
  {
    var r, p2 := Split(bs, i, HEADER, req), bs[i].at + HEADER + req;
    RingNode(bs, i, end);
    forall j | 0 <= j < |r|
      ensures TagAt(m', r, j) && SamePayload(m, m', r[j], HEADER)
    {
      var k := if j <= i then j else j - 1;
      assert TagAt(m, bs, k);
      CutFar(bs, i, req, k, end);
      NodesFarBlocks(bs, k, i, end);
      NodesFarBlocks(bs, k, i + 1, end);
      HeaderOutside(bs, i, k, end);
      HeaderOutside(bs, i + 1, k, end);
      if k < i { NodesApart(bs, k, i, end); } else if i < k { NodesApart(bs, i, k, end); }
    }
    CutFar(bs, i, req, |bs|, end);
    NodesFarBlocks(bs, |bs|, i, end);
    NodesFarBlocks(bs, |bs|, i + 1, end);
  }

  lemma CutFreeRing(m: seq<int>, m': seq<int>, bs: seq<Block>, free: seq<nat>, i: nat, req: nat, end: nat)
    requires InBand(m, bs, free, end) && Cuttable(bs, i, req)
    requires CutWrites(m, m', bs[i].at, bs[i].at + HEADER + req, NodeAt(bs, i + 1, end))
    ensures Ring(m', FreeRing(free, end), FREES)
  {
    var c := FreeRing(free, end);
    forall k | 0 <= k < |c|
      ensures NodeIn(m, c, k, FREES) ==> SameLinks(m, m', c, k, FREES)
    {
      FreeNodeFar(m, bs, free, end, k, i);
      FreeNodeFar(m, bs, free, end, k, i + 1);
      if k > 0 {
        var j := StartIndex(bs, c[k]);
        CutFar(bs, i, req, j, end);
      } else {
        CutFar(bs, i, req, i, end);
      }
    }
    RingFrame(m, m', c, FREES);
  }

  lemma CutInBand(m: seq<int>, bs: seq<Block>, free: seq<nat>, i: nat, req: nat, end: nat)
    requires InBand(m, bs, free, end) && Cuttable(bs, i, req)
    ensures var p, p2, q := bs[i].at, bs[i].at + HEADER + req, NodeAt(bs, i + 1, end);
      && p2 + HEADER < q && q + HEADER <= |m| && m[p + 2] == q
      && InBand(CutMem(m, p, p2), Split(bs, i, HEADER, req), free, end)
      && SameElse(m, CutMem(m, p, p2), Split(bs, i, HEADER, req))
  {
    var m' := CutMemOk(m, bs, free, i, req, end);
    SplitTiles(bs, i, HEADER, req, end);
    CutTags(m, m', bs, i, req, end);
    CutFreeRing(m, m', bs, free, i, req, end);
    CutStarts(bs, i, req, end);
  }

  lemma CutMemOk(m: seq<int>, bs: seq<Block>, free: seq<nat>, i: nat, req: nat, end: nat) returns (m': seq<int>)
    requires InBand(m, bs, free, end) && Cuttable(bs, i, req)
    ensures var p, p2, q := bs[i].at, bs[i].at + HEADER + req, NodeAt(bs, i + 1, end);
      && p2 + HEADER < q && q + HEADER <= |m| && m[p + 2] == q && m' == CutMem(m, p, p2)
      && CutWrites(m, m', p, p2, q) && Ring(m', BlockRing(Split(bs, i, HEADER, req), end), BLOCKS)
  {
    CutBlockRing(m, bs, free, i, req, end);
    m' := CutMem(m, bs[i].at, bs[i].at + HEADER + req);
  }

  // ---- the free list ----

  ghost predicate IsNode(bs: seq<Block>, y: nat, end: nat) {
    y == end + HEADER || y in Starts(bs)
  }

  // m' is m up to free links of the nodes a, b and x.
  ghost predicate FreeWrites(m: seq<int>, m': seq<int>, a: nat, b: nat, x: nat) {
    && |m| == |m'|
    && forall k :: 0 <= k < |m| && k != a + 4 && k != b + 5 && k != x + 4 && k != x + 5 ==> m'[k] == m[k]
  }

  lemma NodeFar(bs: seq<Block>, y: nat, j: nat, end: nat)
    requires Tiles(bs, HEADER, end) && IsNode(bs, y, end) && j <= |bs|
    ensures SameOrFar(y, NodeAt(bs, j, end), HEADER)
    ensures j < |bs| ==> y <= bs[j].at || bs[j].next <= y
    ensures y + HEADER <= end || y == end + HEADER
  {
    RingNode(bs, j, end);
    if y in Starts(bs) {
      StartFar(bs, y, j, end);
      var i := StartIndex(bs, y);
      if j < |bs| {
        HeaderOutside(bs, i, j, end);
      }
    }
  }

  // Writes to free links leave headers, block ring and payloads alone.
  lemma FreeWritesKeep(m: seq<int>, m': seq<int>, bs: seq<Block>, a: nat, b: nat, x: nat, end: nat)
    requires |m| == end + 2 * HEADER && Tiles(bs, HEADER, end) && Tagged(m, bs, end)
    requires Ring(m, BlockRing(bs, end), BLOCKS)
    requires IsNode(bs, a, end) && IsNode(bs, b, end) && IsNode(bs, x, end) && FreeWrites(m, m', a, b, x)
    ensures Tagged(m', bs, end) && Ring(m', BlockRing(bs, end), BLOCKS) && SameElse(m, m', bs)
  {
    forall j | 0 <= j <= |bs|
      ensures NodeIn(m, BlockRing(bs, end), j, BLOCKS) ==> SameLinks(m, m', BlockRing(bs, end), j, BLOCKS)
      ensures NodeAt(bs, j, end) + 1 < |m| && m'[NodeAt(bs, j, end)] == m[NodeAt(bs, j, end)]
      ensures m'[NodeAt(bs, j, end) + 1] == m[NodeAt(bs, j, end) + 1]
      ensures j < |bs| ==> SamePayload(m, m', bs[j], HEADER)
    {
      RingNode(bs, j, end);
      NodeFar(bs, a, j, end);
      NodeFar(bs, b, j, end);
      NodeFar(bs, x, j, end);
    }
    RingFrame(m, m', BlockRing(bs, end), BLOCKS);
    forall j | 0 <= j < |bs|
      ensures TagAt(m', bs, j) && SamePayload(m, m', bs[j], HEADER)
    {
      assert TagAt(m, bs, j) && NodeAt(bs, j, end) == bs[j].at;
    }
    assert NodeAt(bs, |bs|, end) == end;
  }

  lemma FreeRingNode(bs: seq<Block>, free: seq<nat>, k: nat, end: nat)
    requires forall k :: 0 <= k < |free| ==> free[k] in Starts(bs)
    requires k <= |free|
    ensures IsNode(bs, FreeRing(free, end)[k], end)
  {
    assert k > 0 ==> free[k - 1] in Starts(bs);
  }

  lemma StartsFar(bs: seq<Block>, x: nat, y: nat, end: nat)
    requires Tiles(bs, HEADER, end) && x in Starts(bs) && y in Starts(bs)
    ensures SameOrFar(x, y, HEADER) && x + HEADER <= end
  {
    var j := StartIndex(bs, y);
    StartFar(bs, x, j, end);
  }

  // header->next_free = free_list->next_free; ...: x goes to the front of the free list.
  lemma PushInBand(m: seq<int>, bs: seq<Block>, free: seq<nat>, x: nat, end: nat)
    requires InBand(m, bs, free, end) && x in Starts(bs) && x !in free
    ensures x + HEADER <= end && 0 <= m[end + HEADER + 4] && m[end + HEADER + 4] + HEADER <= |m|
    ensures var m' := Insert(m, end + HEADER, x, FREES);
      InBand(m', bs, [x] + free, end) && SameElse(m, m', bs)
  {
    var c := FreeRing(free, end);
    StartsFar(bs, x, x, end);
    forall k | 0 <= k < |c|
      ensures Far(c[k], x, HEADER)
    {
      if k > 0 {
        assert free[k - 1] in free;
        StartsFar(bs, c[k], x, end);
      }
    }
    InsertRing(m, c, 0, x, FREES);
    Neighbours(m, c, 0, FREES);
    FreeRingNode(bs, free, Succ(0, |c|), end);
    FreeWritesKeep(m, Insert(m, end + HEADER, x, FREES), bs, end + HEADER, c[Succ(0, |c|)], x, end);
    assert Inserted(c, 0, x) == FreeRing([x] + free, end);
  }

  lemma FreeNoDup(m: seq<int>, free: seq<nat>, end: nat)
    requires Ring(m, FreeRing(free, end), FREES)
    ensures NoDup(free)
  {
    var c := FreeRing(free, end);
    forall i, j | 0 <= i < j < |free|
      ensures free[i] != free[j]
    {
      FarNodes(c, i + 1, j + 1, HEADER);
      assert c[i + 1] == free[i] && c[j + 1] == free[j];
    }
  }

  ghost predicate LinksInside(m: seq<int>, x: nat, l: Layout) {
    && LayoutOk(l) && x + l.width <= |m|
    && 0 <= m[x + l.next] && m[x + l.next] + l.width <= |m|
    && 0 <= m[x + l.prev] && m[x + l.prev] + l.width <= |m|
  }

  // next_free->prev_free = prev_free; prev_free->next_free = next_free
  lemma UnfreeInBand(m: seq<int>, bs: seq<Block>, free: seq<nat>, k: nat, end: nat)
    requires InBand(m, bs, free, end) && k < |free|
    ensures LinksInside(m, free[k], FREES)
    ensures var m', free' := Unlink(m, free[k], FREES), Without(free, free[k]);
      && InBand(m', bs, free', end) && SameElse(m, m', bs)
      && free[k] !in free'
  {
    UnfreeRing(m, free, k, end);
    UnfreeOthers(m, bs, free, k, end);
    FreeNoDup(m, free, end);
    WithoutMembers(free, free[k]);
    StartsWithout(bs, free, free[k]);
  }

  lemma StartsWithout(bs: seq<Block>, free: seq<nat>, x: nat)
    requires NoDup(free) && forall k :: 0 <= k < |free| ==> free[k] in Starts(bs)
    ensures forall k :: 0 <= k < |Without(free, x)| ==> Without(free, x)[k] in Starts(bs)
  {
    WithoutMembers(free, x);
    forall k | 0 <= k < |Without(free, x)|
      ensures Without(free, x)[k] in Starts(bs)
    {
      assert Without(free, x)[k] in free;
    }
  }

  // Headers, block ring and payloads do not notice.
  lemma UnfreeOthers(m: seq<int>, bs: seq<Block>, free: seq<nat>, k: nat, end: nat)
    requires InBand(m, bs, free, end) && k < |free| && LinksInside(m, free[k], FREES)
    ensures var m' := Unlink(m, free[k], FREES);
      Tagged(m', bs, end) && Ring(m', BlockRing(bs, end), BLOCKS) && SameElse(m, m', bs)
  {
    var c := FreeRing(free, end);
    UnfreeRing(m, free, k, end);
    FreeRingNode(bs, free, k, end);
    FreeRingNode(bs, free, k + 1, end);
    FreeRingNode(bs, free, Succ(k + 1, |c|), end);
    FreeWritesKeep(m, Unlink(m, free[k], FREES), bs, c[k], c[Succ(k + 1, |c|)], free[k], end);
  }

  lemma UnfreeNodes(m: seq<int>, free: seq<nat>, k: nat, end: nat)
    requires Ring(m, FreeRing(free, end), FREES) && k < |free|
    ensures Removed(FreeRing(free, end), k + 1) == FreeRing(Without(free, free[k]), end)
  {
    FreeNoDup(m, free, end);
    WithoutAt(free, k);
  }

  lemma UnfreeRing(m: seq<int>, free: seq<nat>, k: nat, end: nat)
    requires |m| == end + 2 * HEADER && Ring(m, FreeRing(free, end), FREES) && k < |free|
    ensures LinksInside(m, free[k], FREES)
    ensures var c, m' := FreeRing(free, end), Unlink(m, free[k], FREES);
      && Ring(m', FreeRing(Without(free, free[k]), end), FREES)
      && FreeWrites(m, m', c[k], c[Succ(k + 1, |c|)], free[k])
  {
    var c := FreeRing(free, end);
    RemoveRing(m, c, k + 1, FREES);
    Neighbours(m, c, k + 1, FREES);
    UnfreeNodes(m, free, k, end);
  }

  // next_free = prev_free = NULL in a block outside the free list
  lemma NullInBand(m: seq<int>, bs: seq<Block>, free: seq<nat>, x: nat, end: nat)
    requires InBand(m, bs, free, end) && x in Starts(bs) && x !in free
    ensures x + HEADER <= end
    ensures var m' := m[x + 4 := NULL][x + 5 := NULL];
      InBand(m', bs, free, end) && SameElse(m, m', bs)
  {
    StartsFar(bs, x, x, end);
    var m', c := m[x + 4 := NULL][x + 5 := NULL], FreeRing(free, end);
    FreeWritesKeep(m, m', bs, x, x, x, end);
    forall k | 0 <= k < |c|
      ensures NodeIn(m, c, k, FREES) ==> SameLinks(m, m', c, k, FREES)
    {
      if k > 0 {
        assert free[k - 1] in free;
        StartsFar(bs, c[k], x, end);
      }
    }
    RingFrame(m, m', c, FREES);
  }

  // ---- a block leaves the block ring ----

  lemma MergeStarts(bs: seq<Block>, i: nat, end: nat)
    requires 0 < i < |bs|
    ensures BlockRing(Merge(bs, i - 1), end) == Removed(BlockRing(bs, end), i)
    ensures forall x :: x in Starts(bs) && x != bs[i].at ==> x in Starts(Merge(bs, i - 1))
  {
    assert Starts(Merge(bs, i - 1)) == Starts(bs)[..i] + Starts(bs)[i + 1..];
    assert Starts(bs) == Starts(bs)[..i] + [bs[i].at] + Starts(bs)[i + 1..];
  }

  ghost predicate JoinWrites(m: seq<int>, m': seq<int>, p: nat, q: nat) {
    |m| == |m'| && forall k :: 0 <= k < |m| && k != p + 2 && k != q + 3 ==> m'[k] == m[k]
  }

  lemma JoinBlockRing(m: seq<int>, bs: seq<Block>, free: seq<nat>, i: nat, end: nat)
    requires InBand(m, bs, free, end) && 0 < i < |bs|
    ensures LinksInside(m, bs[i].at, BLOCKS)
    ensures m[bs[i].at + 2] == NodeAt(bs, i + 1, end) && m[bs[i].at + 3] == bs[i - 1].at
    ensures var m' := Unlink(m, bs[i].at, BLOCKS);
      && Ring(m', BlockRing(Merge(bs, i - 1), end), BLOCKS)
      && JoinWrites(m, m', bs[i - 1].at, NodeAt(bs, i + 1, end))
  {
    var c := BlockRing(bs, end);
    RingNode(bs, i, end);
    RingNode(bs, i + 1, end);
    RingNode(bs, i - 1, end);
    Neighbours(m, c, i, BLOCKS);
    RemoveRing(m, c, i, BLOCKS);
    MergeStarts(bs, i, end);
  }

  lemma JoinTags(m: seq<int>, m': seq<int>, bs: seq<Block>, i: nat, end: nat)
    requires |m| == end + 2 * HEADER && Tiles(bs, HEADER, end) && Tagged(m, bs, end) && 0 < i < |bs|
    requires JoinWrites(m, m', bs[i - 1].at, NodeAt(bs, i + 1, end))
    ensures Tagged(m', Merge(bs, i - 1), end) && SameElse(m, m', Merge(bs, i - 1))
  {
    var r := Merge(bs, i - 1);
    MergeTiles(bs, i - 1, HEADER, end);
    forall j | 0 <= j < |r|
      ensures TagAt(m', r, j) && SamePayload(m, m', r[j], HEADER)
    {
      var k := if j < i then j else j + 1;
      assert TagAt(m, bs, k);
      assert NodeAt(r, i, end) == NodeAt(bs, i + 1, end);
      NodesFarBlocks(r, j, i - 1, end);
      NodesFarBlocks(r, j, i, end);
      HeaderOutside(r, i - 1, j, end);
      HeaderOutside(r, i, j, end);
    }
    NodesFarBlocks(bs, |bs|, i - 1, end);
    NodesFarBlocks(bs, |bs|, i + 1, end);
  }

  // Block i, not on the free list, is absorbed by its predecessor.
  lemma JoinInBand(m: seq<int>, bs: seq<Block>, free: seq<nat>, i: nat, end: nat)
    requires InBand(m, bs, free, end) && 0 < i < |bs| && bs[i].at !in free
    ensures LinksInside(m, bs[i].at, BLOCKS)
    ensures m[bs[i].at + 2] == NodeAt(bs, i + 1, end) && m[bs[i].at + 3] == bs[i - 1].at
    ensures var m' := Unlink(m, bs[i].at, BLOCKS);
      InBand(m', Merge(bs, i - 1), free, end) && SameElse(m, m', Merge(bs, i - 1))
  {
    JoinBlockRing(m, bs, free, i, end);
    var m', c := Unlink(m, bs[i].at, BLOCKS), FreeRing(free, end);
    JoinTags(m, m', bs, i, end);
    MergeTiles(bs, i - 1, HEADER, end);
    MergeStarts(bs, i, end);
    forall k | 0 <= k < |c|
      ensures NodeIn(m, c, k, FREES) ==> SameLinks(m, m', c, k, FREES)
    {
      FreeNodeFar(m, bs, free, end, k, i - 1);
      FreeNodeFar(m, bs, free, end, k, i + 1);
    }
    RingFrame(m, m', c, FREES);
    assert forall k :: 0 <= k < |free| ==> free[k] in free;
  }

  // ---- contents ----

  lemma ElseLive(m: seq<int>, m': seq<int>, bs: seq<Block>)
    requires SameElse(m, m', bs)
    ensures LiveKept(m, m', Live(bs), HEADER)
  {
    forall b | b in Live(bs)
      ensures SamePayload(m, m', b, HEADER)
    {
      assert SamePayload(m, m', bs[IndexOf(bs, b)], HEADER);
    }
  }

  // A block's payload is part of the payload of the block it is merged into.
  lemma MergeElseLive(m: seq<int>, m': seq<int>, bs: seq<Block>, i: nat, end: nat)
    requires Tiles(bs, HEADER, end) && 0 < i < |bs| && !bs[i].used && SameElse(m, m', Merge(bs, i - 1))
    ensures LiveKept(m, m', Live(bs), HEADER)
  {
    var r := Merge(bs, i - 1);
    forall b | b in Live(bs)
      ensures SamePayload(m, m', b, HEADER)
    {
      var j := IndexOf(bs, b);
      assert SamePayload(m, m', r[if j < i then j else j - 1], HEADER);
      Within(bs, i, HEADER, end);
      assert TileAt(bs, i, HEADER, end);
    }
  }

  // ---- a free block is fused into its predecessor ----

  lemma FuseInBand(m: seq<int>, bs: seq<Block>, free: seq<nat>, i: nat, end: nat)
    requires InBand(m, bs, free, end) && 0 < i < |bs| && !bs[i].used && bs[i].at in free
    ensures LinksInside(m, bs[i].at, FREES) && LinksInside(Unlink(m, bs[i].at, FREES), bs[i].at, BLOCKS)
    ensures var m' := Unlink(Unlink(m, bs[i].at, FREES), bs[i].at, BLOCKS);
      && InBand(m', Merge(bs, i - 1), Without(free, bs[i].at), end)
      && LiveKept(m, m', Live(bs), HEADER)
  {
    var x := bs[i].at;
    var k :| 0 <= k < |free| && free[k] == x;
    UnfreeInBand(m, bs, free, k, end);
    var m1, free' := Unlink(m, x, FREES), Without(free, x);
    ElseLive(m, m1, bs);
    JoinInBand(m1, bs, free', i, end);
    var m2 := Unlink(m1, x, BLOCKS);
    MergeElseLive(m1, m2, bs, i, end);
    LiveKeptTrans(m, m1, m2, Live(bs), Live(bs), HEADER);
  }

  // The four writes may be done in either order.
  lemma UnlinksCommute(m: seq<int>, bs: seq<Block>, free: seq<nat>, i: nat, end: nat)
    requires InBand(m, bs, free, end) && 0 < i < |bs| && !bs[i].used && bs[i].at in free
    ensures LinksInside(m, bs[i].at, FREES) && LinksInside(Unlink(m, bs[i].at, FREES), bs[i].at, BLOCKS)
    ensures LinksInside(m, bs[i].at, BLOCKS) && LinksInside(Unlink(m, bs[i].at, BLOCKS), bs[i].at, FREES)
    ensures m[bs[i].at + 3] == bs[i - 1].at
    ensures Unlink(Unlink(m, bs[i].at, FREES), bs[i].at, BLOCKS) == Unlink(Unlink(m, bs[i].at, BLOCKS), bs[i].at, FREES)
  {
    hide LinksDiffer, LinksApart, WritesApart, Unlink;
    var x := bs[i].at;
    var k :| 0 <= k < |free| && free[k] == x;
    var c := FreeRing(free, end);
    FuseInBand(m, bs, free, i, end);
    JoinBlockRing(m, bs, free, i, end);
    Neighbours(m, c, k + 1, FREES);
    var a, b := Pred(k + 1, |c|), Succ(k + 1, |c|);
    FreeNodeApart(m, bs, free, a, i, end);
    FreeNodeApart(m, bs, free, b, i, end);
    BlockNodesApart(bs, i, end);
    CellsApart(x, bs[i - 1].at, NodeAt(bs, i + 1, end), c[a], c[b]);
    UnlinkTwice(m, x, bs[i - 1].at, NodeAt(bs, i + 1, end), c[a], c[b]);
  }

  // The links of two headers that coincide or lie apart are different cells.
  ghost predicate LinksDiffer(y: nat, z: nat) {
    && y + 5 != z + 4 && y + 5 != z + 3 && y + 5 != z + 2 && y + 4 != z + 3 && y + 4 != z + 2
    && y + 3 != z + 2 && y + 3 != z + 5 && y + 3 != z + 4 && y + 2 != z + 5 && y + 2 != z + 4
  }

  lemma FarLinksDiffer(y: nat, z: nat)
    requires SameOrFar(y, z, HEADER)
    ensures LinksDiffer(y, z)
  {
  }

  // A node of the free list and the blocks i - 1, i and i + 1.
  lemma FreeNodeApart(m: seq<int>, bs: seq<Block>, free: seq<nat>, k: nat, i: nat, end: nat)
    requires InBand(m, bs, free, end) && 0 < i < |bs| && k <= |free|
    ensures var y := FreeRing(free, end)[k];
      LinksDiffer(y, bs[i].at) && LinksDiffer(y, bs[i - 1].at) && LinksDiffer(y, NodeAt(bs, i + 1, end))
  {
    var y := FreeRing(free, end)[k];
    FreeNodeFar(m, bs, free, end, k, i - 1);
    FreeNodeFar(m, bs, free, end, k, i + 1);
    FreeNodeFar(m, bs, free, end, k, i);
    RingNode(bs, i, end);
    RingNode(bs, i - 1, end);
    RingNode(bs, i + 1, end);
    FarLinksDiffer(y, bs[i].at);
    FarLinksDiffer(y, bs[i - 1].at);
    FarLinksDiffer(y, NodeAt(bs, i + 1, end));
  }

  lemma BlockNodesApart(bs: seq<Block>, i: nat, end: nat)
    requires Tiles(bs, HEADER, end) && 0 < i < |bs|
    ensures LinksDiffer(bs[i - 1].at, bs[i].at) && LinksDiffer(NodeAt(bs, i + 1, end), bs[i].at)
  {
    NodesApart(bs, i - 1, i, end);
    NodesApart(bs, i, i + 1, end);
  }

  ghost predicate LinksApart(x: nat, p: nat, n: nat, l: Layout, o: Layout) {
    && n + l.prev != x + l.next && n + l.prev != x + o.prev && n + l.prev != x + o.next
    && p + l.next != x + o.prev && p + l.next != x + o.next
  }

  // What one unlink writes, and that it leaves the links of x in the other list alone.
  lemma UnlinkWrites(m: seq<int>, x: nat, p: nat, n: nat, l: Layout, o: Layout)
    requires LinksInside(m, x, l) && LinksInside(m, x, o)
    requires m[x + l.prev] == p && m[x + l.next] == n
    requires LinksApart(x, p, n, l, o)
    ensures Unlink(m, x, l) == m[n + l.prev := p][p + l.next := n]
    ensures LinksInside(Unlink(m, x, l), x, o)
    ensures Unlink(m, x, l)[x + o.prev] == m[x + o.prev] && Unlink(m, x, l)[x + o.next] == m[x + o.next]
  {
  }

  ghost predicate WritesApart(i: nat, j: nat, k: nat, l: nat) { i != k && i != l && j != k && j != l }

  lemma CellsApart(x: nat, p: nat, q: nat, a: nat, b: nat)
    requires LinksDiffer(p, x) && LinksDiffer(q, x) && LinksDiffer(a, x) && LinksDiffer(b, x)
    requires LinksDiffer(a, p) && LinksDiffer(a, q) && LinksDiffer(b, p) && LinksDiffer(b, q)
    ensures LinksApart(x, a, b, FREES, BLOCKS) && LinksApart(x, p, q, BLOCKS, FREES)
    ensures WritesApart(b + FREES.prev, a + FREES.next, q + BLOCKS.prev, p + BLOCKS.next)
  {
  }

  // w is m after four writes.
  ghost predicate Writes(m: seq<int>, w: seq<int>, i: nat, j: nat, k: nat, l: nat, u: int, v: int, y: int, z: int) {
    i < |m| && j < |m| && k < |m| && l < |m| && w == m[i := u][j := v][k := y][l := z]
  }

  lemma WritesCommute(m: seq<int>, w: seq<int>, w': seq<int>, i: nat, j: nat, k: nat, l: nat, u: int, v: int, y: int, z: int)
    requires Writes(m, w, i, j, k, l, u, v, y, z) && Writes(m, w', k, l, i, j, y, z, u, v)
    requires WritesApart(i, j, k, l)
    ensures w == w'
  {
  }

  ghost predicate CanUnlink(m: seq<int>, x: nat, l: Layout, o: Layout) {
    LinksInside(m, x, l) && LinksInside(Unlink(m, x, l), x, o)
  }

  // Both unlinks in a row write four cells.
  ghost function UnlinkTwo(m: seq<int>, x: nat, l: Layout, o: Layout): seq<int>
    requires CanUnlink(m, x, l, o)
  {
    Unlink(Unlink(m, x, l), x, o)
  }

  lemma UnlinkBoth(m: seq<int>, x: nat, p: nat, n: nat, p2: nat, n2: nat, l: Layout, o: Layout)
    requires LinksInside(m, x, l) && LinksInside(m, x, o)
    requires m[x + l.prev] == p && m[x + l.next] == n && m[x + o.prev] == p2 && m[x + o.next] == n2
    requires LinksApart(x, p, n, l, o) && LinksApart(x, p2, n2, o, l)
    ensures CanUnlink(m, x, l, o)
    ensures Writes(m, UnlinkTwo(m, x, l, o), n + l.prev, p + l.next, n2 + o.prev, p2 + o.next, p, n, p2, n2)
  {
    UnlinkWrites(m, x, p, n, l, o);
    UnlinkWrites(Unlink(m, x, l), x, p2, n2, o, l);
  }

  lemma UnlinkTwice(m: seq<int>, x: nat, p: nat, q: nat, a: nat, b: nat)
    requires LinksInside(m, x, BLOCKS) && LinksInside(m, x, FREES)
    requires m[x + BLOCKS.prev] == p && m[x + BLOCKS.next] == q && m[x + FREES.prev] == a && m[x + FREES.next] == b
    requires LinksApart(x, a, b, FREES, BLOCKS) && LinksApart(x, p, q, BLOCKS, FREES)
    requires WritesApart(b + FREES.prev, a + FREES.next, q + BLOCKS.prev, p + BLOCKS.next)
    ensures CanUnlink(m, x, FREES, BLOCKS) && CanUnlink(m, x, BLOCKS, FREES)
    ensures UnlinkTwo(m, x, FREES, BLOCKS) == UnlinkTwo(m, x, BLOCKS, FREES)
  {
    hide Unlink, UnlinkTwo, Writes, LinksApart, WritesApart;
    UnlinkBoth(m, x, a, b, p, q, FREES, BLOCKS);
    UnlinkBoth(m, x, p, q, a, b, BLOCKS, FREES);
    WritesCommute(m, UnlinkTwo(m, x, FREES, BLOCKS), UnlinkTwo(m, x, BLOCKS, FREES),
                  b + FREES.prev, a + FREES.next, q + BLOCKS.prev, p + BLOCKS.next, a, b, p, q);
  }

  lemma LeftThenRight(bs: seq<Block>, i: nat)
    requires 0 < i < |bs| && !bs[i].used && !bs[i - 1].used
    ensures MergeNext(Merge(bs, i - 1), i - 1) == Plug(bs, i)
  {
    if i + 1 < |bs| && !bs[i + 1].used {
      var both := bs[..i - 1] + [Block(bs[i - 1].at, bs[i + 1].next, false)] + bs[i + 2..];
      assert Merge(Merge(bs, i - 1), i - 1) == both;
      assert Merge(Merge(bs, i), i - 1) == both;
    }
  }

  // A client writing inside its own live block leaves the heap and every other payload alone.
  lemma PayloadWrite(m: seq<int>, m': seq<int>, bs: seq<Block>, free: seq<nat>, i: nat, end: nat)
    requires InBand(m, bs, free, end) && i < |bs| && |m'| == |m|
    requires forall k :: 0 <= k < |m| && !(bs[i].at + HEADER <= k < bs[i].next) ==> m'[k] == m[k]
    ensures InBand(m', bs, free, end)
    ensures forall j :: 0 <= j < |bs| && j != i ==> SamePayload(m, m', bs[j], HEADER)
  {
    Within(bs, i, HEADER, end);
    forall j | 0 <= j <= |bs|
      ensures NodeIn(m, BlockRing(bs, end), j, BLOCKS) ==> SameLinks(m, m', BlockRing(bs, end), j, BLOCKS)
      ensures j < |bs| ==> TagAt(m', bs, j)
      ensures j < |bs| && j != i ==> SamePayload(m, m', bs[j], HEADER)
    {
      assert j < |bs| ==> TagAt(m, bs, j);
      RingNode(bs, j, end);
      HeaderOutside(bs, j, i, end);
      if j < i { NodesApart(bs, j, i, end); } else if i < j { NodesApart(bs, i, j, end); }
    }
    RingFrame(m, m', BlockRing(bs, end), BLOCKS);
    forall k | 0 <= k <= |free|
      ensures NodeIn(m, FreeRing(free, end), k, FREES) ==> SameLinks(m, m', FreeRing(free, end), k, FREES)
    {
      FreeRingNode(bs, free, k, end);
      NodeFar(bs, FreeRing(free, end)[k], i, end);
    }
    RingFrame(m, m', FreeRing(free, end), FREES);
  }

  lemma CopiedPayload(m: seq<int>, m': seq<int>, bs: seq<Block>, free: seq<nat>, b: Block, src: int, n: nat, end: nat)
    requires InBand(m, bs, free, end) && b in Live(bs) && n <= Payload(b, HEADER)
    requires IsCopy(m, m', b.at + HEADER, src, n)
    ensures InBand(m', bs, free, end)
    ensures LiveKept(m, m', Live(bs) - {b}, HEADER)
  {
    var i := IndexOf(bs, b);
    PayloadWrite(m, m', bs, free, i, end);
    forall x | x in Live(bs) && x != b
      ensures SamePayload(m, m', x, HEADER)
    {
      assert SamePayload(m, m', bs[IndexOf(bs, x)], HEADER);
    }
  }
}
