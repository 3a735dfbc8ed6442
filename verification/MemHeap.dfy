// The memheap allocator, rt-thread/src/memheap.c, on its memory.
module MemHeaps {
  import opened Words
  import opened Lists
  import opened Blocks
  import opened Payloads
  import opened RtLists
  import opened MemHeapSpec
  import opened MemHeapLayout

  // What the header of block i holds.
  lemma ReadHeader(m: seq<int>, bs: seq<Block>, free: seq<nat>, i: nat, end: nat)
    requires InBand(m, bs, free, end) && i < |bs|
    ensures bs[i].at + HEADER < bs[i].next <= end
    ensures m[bs[i].at] == Tag(bs[i].used)
    ensures m[bs[i].at + 2] == bs[i].next == NodeAt(bs, i + 1, end)
    ensures m[bs[i].at + 3] == if i == 0 then end else bs[i - 1].at
  {
    var c := BlockRing(bs, end);
    assert TagAt(m, bs, i);
    RingNode(bs, i, end);
    RingNode(bs, i + 1, end);
    Neighbours(m, c, i, BLOCKS);
    if i > 0 {
      RingNode(bs, i - 1, end);
    }
  }

  ghost function FreeNode(free: seq<nat>, k: nat, end: nat): nat {
    if k < |free| then free[k] else end + HEADER
  }

  // The free list as the search loop walks it.
  lemma ReadFree(m: seq<int>, bs: seq<Block>, free: seq<nat>, k: nat, end: nat)
    requires InBand(m, bs, free, end) && k <= |free|
    ensures m[end + HEADER + 4] == FreeNode(free, 0, end)
    ensures k < |free| ==> free[k] + HEADER <= end && m[free[k] + 4] == FreeNode(free, k + 1, end)
  {
    var c := FreeRing(free, end);
    Neighbours(m, c, 0, FREES);
    if k < |free| {
      Neighbours(m, c, k + 1, FREES);
      assert free[k] in Starts(bs);
      StartsFar(bs, free[k], free[k], end);
    }
  }

  class MemHeap {
    const end: nat        // offset of the tail block, pool_size - RT_MEMHEAP_SIZE
    const mem: array<int> // the pool, followed by free_header
    ghost var cells: seq<int>
    var avail: int        // available_size
    var maxUsed: int      // max_used_size
    ghost var bs: seq<Block>
    ghost var free: seq<nat>

    ghost function View(): State
      reads this
    {
      State(bs, free, avail, maxUsed)
    }

    ghost predicate Linked()
      reads `cells, `bs, `free, mem
    {
      mem[..] == cells && InBand(cells, bs, free, end)
    }

    ghost predicate Valid()
      reads this, mem
    {
      Linked() && Inv(View(), end) && 4 * PoolSize(end) < WORD_RANGE
    }

    // rt_memheap_init on a pool of `pool` cells
    constructor (pool: nat)
      requires 2 * HEADER < pool && 4 * pool < WORD_RANGE
      ensures Valid() && PoolSize(end) == pool && fresh(mem)
      ensures HEADER < end && View() == Init(end)
    {
      end := pool - HEADER;
      mem := new int[pool + HEADER];
      avail := pool - 2 * HEADER;
      maxUsed := pool - (pool - 2 * HEADER);
      bs, free := [Block(0, pool - HEADER, false)], [0];
      new;
      WriteFreeHeader();
      WriteFirstBlock();
      WriteTail();
      cells := mem[..];
      InitInBand(cells, end);
      InitOk(end);
    }

    method WriteFreeHeader()
      requires mem.Length == end + 2 * HEADER
      modifies mem
      ensures mem[end + HEADER + 4] == mem[end + HEADER + 5] == end + HEADER
    {
      var header := end + HEADER;
      mem[header], mem[header + 1], mem[header + 2], mem[header + 3] := FREE_TAG, POOL, NULL, NULL;
      mem[header + 4], mem[header + 5] := header, header;
    }

    // The whole pool as one free block, put on the free list.
    method WriteFirstBlock()
      requires mem.Length == end + 2 * HEADER && HEADER < end && avail == end - HEADER
      requires mem[end + HEADER + 4] == mem[end + HEADER + 5] == end + HEADER
      modifies mem
      ensures mem[0] == FREE_TAG && mem[1] == POOL && mem[2] == mem[3] == end
      ensures mem[4] == mem[5] == end + HEADER && mem[end + HEADER + 4] == mem[end + HEADER + 5] == 0
    {
      var header := end + HEADER;
      mem[0], mem[1], mem[4], mem[5] := FREE_TAG, POOL, 0, 0;
      mem[2] := avail + HEADER;
      mem[3] := mem[2];
      mem[4] := mem[header + 4];
      mem[5] := header;
      mem[mem[header + 4] + 5] := 0;
      mem[header + 4] := 0;
    }

    method WriteTail()
      requires mem.Length == end + 2 * HEADER && HEADER < end
      modifies mem
      ensures mem[end] == USED_TAG && mem[end + 1] == POOL && mem[end + 2] == mem[end + 3] == 0
      ensures forall k :: 0 <= k < end || end + HEADER <= k < mem.Length ==> mem[k] == old(mem[k])
    {
      mem[end], mem[end + 1], mem[end + 2], mem[end + 3] := USED_TAG, POOL, 0, 0;
      mem[end + 4], mem[end + 5] := NULL, NULL;
    }

    // new_ptr is written and linked behind the block at p.
    method CutAt(p: nat, p2: nat, ghost i: nat)
      requires Linked() && i < |bs| && bs[i].at == p && p + HEADER < p2
      requires Cuttable(bs, i, p2 - p - HEADER)
      modifies mem, `cells, `bs
      ensures Linked() && bs == Split(old(bs), i, HEADER, p2 - p - HEADER)
      ensures LiveKept(old(cells), cells, Live(bs), HEADER)
    {
      hide Tagged, Tiles, Ring, LiveKept, Split;
      CutInBand(cells, bs, free, i, p2 - p - HEADER, end);
      CutFar(bs, i, p2 - p - HEADER, i + 1, end);
      ghost var m' := CutMem(cells, p, p2);
      ElseLive(cells, m', Split(bs, i, HEADER, p2 - p - HEADER));
      mem[p2] := FREE_TAG;
      mem[p2 + 1] := POOL;
      mem[p2 + 3] := p;
      mem[p2 + 2] := mem[p + 2];
      mem[mem[p + 2] + 3] := p2;
      mem[p + 2] := p2;
      assert mem[..] == m';
      cells := mem[..];
      bs := Split(bs, i, HEADER, p2 - p - HEADER);
    }

    // x goes to the front of the free list.
    method PushFree(x: nat)
      requires Linked() && x in Starts(bs) && x !in free
      modifies mem, `cells, `free
      ensures Linked() && free == [x] + old(free)
      ensures LiveKept(old(cells), cells, Live(bs), HEADER)
    {
      hide Tagged, Tiles, Ring, LiveKept;
      PushInBand(cells, bs, free, x, end);
      var header := end + HEADER;
      ghost var m' := Insert(cells, header, x, FREES);
      ElseLive(cells, m', bs);
      ReadFree(cells, bs, free, 0, end);
      assert free != [] ==> free[0] in free;
      if free != [] { StartsFar(bs, free[0], x, end); }
      mem[x + 4] := mem[header + 4];
      mem[x + 5] := header;
      mem[mem[header + 4] + 5] := x;
      mem[header + 4] := x;
      assert mem[..] == m';
      cells := mem[..];
      free := [x] + free;
    }

    // x leaves the free list; its own links stay.
    method Unfree(x: nat)
      requires Linked() && x in free
      modifies mem, `cells, `free
      ensures Linked() && free == Without(old(free), x) && x !in free
      ensures LiveKept(old(cells), cells, Live(bs), HEADER)
    {
      ghost var k: nat :| k < |free| && free[k] == x;
      UnfreeInBand(cells, bs, free, k, end);
      ghost var m' := Unlink(cells, x, FREES);
      ElseLive(cells, m', bs);
      UnfreeRing(cells, free, k, end);
      var next, prev := mem[x + 4], mem[x + 5];
      mem[next + 5] := prev;
      mem[prev + 4] := next;
      assert mem[..] == m';
      cells := mem[..];
      free := Without(free, x);
    }

    method NullLinks(x: nat)
      requires Linked() && x in Starts(bs) && x !in free
      modifies mem, `cells
      ensures Linked() && LiveKept(old(cells), cells, Live(bs), HEADER)
    {
      NullInBand(cells, bs, free, x, end);
      ElseLive(cells, cells[x + 4 := NULL][x + 5 := NULL], bs);
      mem[x + 4] := NULL;
      mem[x + 5] := NULL;
      assert mem[..] == cells[x + 4 := NULL][x + 5 := NULL];
      cells := mem[..];
    }

    // The block at x, not on the free list, leaves the block ring.
    method Join(x: nat, ghost i: nat)
      requires Linked() && 0 < i < |bs| && bs[i].at == x && !bs[i].used && x !in free
      modifies mem, `cells, `bs
      ensures Linked() && bs == Merge(old(bs), i - 1)
      ensures LiveKept(old(cells), cells, Live(old(bs)), HEADER)
    {
      JoinInBand(cells, bs, free, i, end);
      ghost var m' := Unlink(cells, x, BLOCKS);
      MergeElseLive(cells, m', bs, i, end);
      var next, prev := mem[x + 2], mem[x + 3];
      mem[next + 3] := prev;
      mem[prev + 2] := next;
      assert mem[..] == m';
      cells := mem[..];
      bs := Merge(bs, i - 1);
    }

    // The free block at x leaves both rings, the block ring first: the right merge of
    // rt_memheap_free and rt_memheap_realloc.
    method Fuse(x: nat, ghost i: nat)
      requires Linked() && 0 < i < |bs| && bs[i].at == x && !bs[i].used && x in free
      modifies mem, `cells, `bs, `free
      ensures Linked() && bs == Merge(old(bs), i - 1) && free == Without(old(free), x)
      ensures LiveKept(old(cells), cells, Live(old(bs)), HEADER)
    {
      FuseInBand(cells, bs, free, i, end);
      UnlinksCommute(cells, bs, free, i, end);
      ghost var m1 := Unlink(cells, x, BLOCKS);
      ghost var m2 := Unlink(m1, x, FREES);
      var next, prev := mem[x + 2], mem[x + 3];
      mem[next + 3] := prev;
      mem[prev + 2] := next;
      assert mem[..] == m1;
      var nextFree, prevFree := mem[x + 4], mem[x + 5];
      mem[nextFree + 5] := prevFree;
      mem[prevFree + 4] := nextFree;
      assert mem[..] == m2;
      cells := mem[..];
      free := Without(free, x);
      bs := Merge(bs, i - 1);
    }

    method SetUsed(p: nat, used: bool, ghost i: nat)
      requires Linked() && i < |bs| && bs[i].at == p
      modifies mem, `cells, `bs
      ensures Linked() && bs == Mark(old(bs), i, used)
      ensures LiveKept(old(cells), cells, Live(old(bs)), HEADER)
    {
      MarkInBand(cells, bs, free, i, used, end);
      ElseLive(cells, cells[p := Tag(used)], bs);
      mem[p] := Tag(used);
      assert mem[..] == cells[p := Tag(used)];
      cells := mem[..];
      bs := Mark(bs, i, used);
    }

    // The search loop of rt_memheap_alloc; freeSize is the size last looked at.
    method Search(size: nat) returns (p: nat, freeSize: int, ghost k: nat)
      requires Valid() && 0 < size
      ensures k == FirstFit(bs, free, size, 0) && p == FreeNode(free, k, end)
      ensures k < |free| ==> FitsAt(bs, p, size) && freeSize == Payload(bs[FreeIndex(bs, p)], HEADER) >= size
      ensures k == |free| ==> freeSize < size
    {
      hide Tagged, Tiles, Ring;
      ReadFree(cells, bs, free, 0, end);
      var header := end + HEADER;
      freeSize := 0;
      p := mem[header + 4];
      k := 0;
      while p != header && freeSize < size
        invariant k <= |free| && p == FreeNode(free, k, end)
        invariant forall j :: 0 <= j < k ==> !FitsAt(bs, free[j], size)
        invariant k < |free| ==> IsFree(bs, free[k]) && free[k] + HEADER <= end
        invariant freeSize >= size ==> k < |free| && FitsAt(bs, p, size) && freeSize == Payload(bs[FreeIndex(bs, p)], HEADER)
        decreases |free| - k, if freeSize < size then 1 else 0
      {
        ReadFree(cells, bs, free, k, end);
        ReadHeader(cells, bs, free, FreeIndex(bs, p), end);
        freeSize := mem[p + 2] - p - HEADER;
        if freeSize < size {
          p := mem[p + 4];
          k := k + 1;
          if k < |free| {
            assert free[k] in free;
            ReadFree(cells, bs, free, k, end);
          }
        }
      }
      FirstFitIs(bs, free, size, k);
    }

    // rt_memheap_alloc
    method Alloc(bytes: nat) returns (r: Ptr)
      requires Valid() && bytes < WORD_RANGE
      modifies this, mem
      ensures Valid()
      ensures Outcome(r, View()) == AllocSpec(old(View()), bytes, end)
      ensures LiveKept(old(cells), cells, Live(old(bs)), HEADER)
    {
      var size := AlignCells(bytes);
      if size < MINI {
        size := MINI;
      }
      if size < avail {
        var p, freeSize; ghost var k;
        p, freeSize, k := Search(size);
        if freeSize >= size {
          TakeBlock(p, freeSize, size, FreeIndex(bs, p));
          return At(p + HEADER);
        }
      }
      return Null;
    }

    // The block at p is chosen for `size` cells.
    method TakeBlock(p: nat, freeSize: int, size: nat, ghost i: nat)
      requires Valid() && i < |bs| && bs[i].at == p && !bs[i].used
      requires 0 < size <= freeSize == Payload(bs[i], HEADER)
      modifies this, mem
      ensures Valid() && View() == Take(old(View()), i, size, end)
      ensures LiveKept(old(cells), cells, Live(old(bs)), HEADER)
    {
      TakeKeeps(View(), i, size, end);
      Detach(p, freeSize, size, i);
    }

    method Detach(p: nat, freeSize: int, size: nat, ghost i: nat)
      requires Linked() && FreeOk(bs, free) && i < |bs| && bs[i].at == p && !bs[i].used
      requires 0 < size <= freeSize == Payload(bs[i], HEADER)
      modifies this, mem
      ensures Linked() && View() == Take(old(View()), i, size, end)
      ensures LiveKept(old(cells), cells, Live(old(bs)), HEADER)
    {
      ghost var t := Take(View(), i, size, end);
      assert IsFree(bs, p) by { assert bs[i] in bs; }
      CutOut(p, freeSize, size, i);
      if PoolSize(end) - avail > maxUsed {
        maxUsed := PoolSize(end) - avail;
      }
      ghost var m1, live1 := cells, Live(bs);
      SetUsed(p, true, i);
      LiveKeptTrans(old(cells), m1, cells, Live(old(bs)), live1, HEADER);
      assert View() == t;
    }

    // The block leaves the free list, cut in two if it is large enough.
    method CutOut(p: nat, freeSize: int, size: nat, ghost i: nat)
      requires Linked() && i < |bs| && bs[i].at == p && !bs[i].used && p in free && FreeOk(bs, free)
      requires 0 < size <= freeSize == Payload(bs[i], HEADER)
      modifies mem, `cells, `free, `bs, `avail
      ensures Linked() && View() == Detached(old(View()), i, size) && i < |bs| && bs[i].at == p
      ensures LiveKept(old(cells), cells, Live(old(bs)), HEADER) && Live(bs) == Live(old(bs))
    {
      if freeSize >= size + HEADER + MINI {
        InsideNotFree(bs, i, p + size + HEADER, end);
        SplitOff(p, p + size + HEADER, i);
        avail := avail - size - HEADER;
      } else {
        avail := avail - freeSize;
        WholeBlock(p, i);
      }
    }

    method WholeBlock(p: nat, ghost i: nat)
      requires Linked() && i < |bs| && bs[i].at == p && p in free
      modifies mem, `cells, `free
      ensures Linked() && free == Without(old(free), p)
      ensures LiveKept(old(cells), cells, Live(bs), HEADER)
    {
      assert Starts(bs)[i] == p;
      Unfree(p);
      ghost var m1 := cells;
      NullLinks(p);
      LiveKeptTrans(old(cells), m1, cells, Live(bs), Live(bs), HEADER);
    }

    // The free block at p is cut at p2 and its tail replaces it on the free list.
    method SplitOff(p: nat, p2: nat, ghost i: nat)
      requires Linked() && i < |bs| && bs[i].at == p && !bs[i].used && p in free && p + HEADER < p2 && p2 !in free
      requires Cuttable(bs, i, p2 - p - HEADER)
      modifies mem, `cells, `free, `bs
      ensures Linked() && bs == Split(old(bs), i, HEADER, p2 - p - HEADER) && free == [p2] + Without(old(free), p)
      ensures LiveKept(old(cells), cells, Live(old(bs)), HEADER) && Live(bs) == Live(old(bs))
    {
      SplitLive(bs, i, HEADER, p2 - p - HEADER, end);
      assert bs[i] !in Live(bs);
      FreeNoDup(cells, free, end);
      WithoutMembers(free, p);
      CutAt(p, p2, i);
      ghost var m1 := cells;
      WholeBlock(p, i);
      ghost var m2 := cells;
      assert Starts(bs)[i + 1] == p2;
      PushFree(p2);
      LiveKeptTrans(old(cells), m1, m2, Live(bs), Live(bs), HEADER);
      LiveKeptTrans(old(cells), m2, cells, Live(bs), Live(bs), HEADER);
    }

    // rt_memheap_free
    method Free(ptr: Ptr)
      requires Valid() && (ptr.Null? || IsLive(bs, ptr, HEADER))
      modifies this, mem
      ensures Valid() && View() == FreeSpec(old(View()), ptr)
      ensures LiveKept(old(cells), cells, Live(bs), HEADER)
    {
      if ptr.Null? {
        return;
      }
      FreeBlock(ptr.cell - HEADER, IndexOf(bs, BlockOf(bs, ptr, HEADER)));
    }

    // rt_memheap_free once the header is found.
    method FreeBlock(p: nat, ghost i: nat)
      requires Valid() && i < |bs| && bs[i].at == p && bs[i].used
      modifies this, mem
      ensures Valid() && View() == Release(old(View()), i)
      ensures LiveKept(old(cells), cells, Live(bs), HEADER)
    {
      ReleaseKeeps(View(), i, end);
      ReleaseSetup(View(), i, end);
      ReleaseBlock(p, i);
    }

    method ReleaseBlock(p: nat, ghost i: nat)
      requires Linked() && i < |bs| && bs[i].at == p && Releasable(View(), i)
      modifies this, mem
      ensures Linked() && View() == Release(old(View()), i)
      ensures LiveKept(old(cells), cells, Live(bs), HEADER)
    {
      hide Tagged, Tiles, Ring, LiveKept, Settles, Releasable, Release, Plug, Freed;
      ReleaseReady(View(), i);
      SetUsed(p, false, i);
      ghost var m1 := cells;
      ReadHeader(cells, bs, free, i, end);
      avail := avail + (mem[p + 2] - p - HEADER);
      Settle(p, i);
      LiveKeptTrans(old(cells), m1, cells, Live(bs), Live(bs), HEADER);
      ReleaseIs(old(View()), i, View());
    }

    // The freed block at p is merged with its free neighbours and listed.
    method Settle(p: nat, ghost i: nat)
      requires Linked() && i < |bs| && bs[i].at == p && !bs[i].used && p !in free
      requires Settles(bs, free, i)
      modifies mem, `cells, `bs, `free, `avail
      ensures Linked() && bs == Plug(old(bs), i) && Live(bs) == Live(old(bs))
      ensures var rest := RestAfter(old(bs), old(free), i);
        free == if FreeBefore(old(bs), i) then rest else [p] + rest
      ensures avail == old(avail) + (if FreeBefore(old(bs), i) then HEADER else 0)
                                  + (if FreeAfter(old(bs), i) then HEADER else 0)
      ensures LiveKept(old(cells), cells, Live(old(bs)), HEADER)
    {
      var insert := MergeNeighbours(p, i);
      if insert {
        ghost var m2 := cells;
        assert Starts(bs)[i] == p;
        PushFree(p);
        LiveKeptTrans(old(cells), m2, cells, Live(bs), Live(bs), HEADER);
      }
    }

    method MergeNeighbours(p: nat, ghost i: nat) returns (insert: bool)
      requires Linked() && i < |bs| && bs[i].at == p && !bs[i].used && p !in free
      requires Settles(bs, free, i)
      modifies mem, `cells, `bs, `free, `avail
      ensures Linked() && bs == Plug(old(bs), i)
      ensures insert <==> !FreeBefore(old(bs), i)
      ensures insert ==> p !in free && i < |bs| && bs[i].at == p
      ensures free == RestAfter(old(bs), old(free), i)
      ensures avail == old(avail) + (if insert then 0 else HEADER) + (if FreeAfter(old(bs), i) then HEADER else 0)
      ensures LiveKept(old(cells), cells, Live(old(bs)), HEADER)
    {
      if FreeAfter(bs, i) {
        WithoutMembers(free, bs[i + 1].at);
      }
      var header;
      header, insert := MergeLeft(p, i);
      ghost var m1, live1, j := cells, Live(bs), if insert then i else i - 1;
      assert FreeAfter(bs, j) <==> FreeAfter(old(bs), i);
      assert FreeAfter(bs, j) ==> bs[j + 1] == old(bs)[i + 1];
      MergeRight(header, j);
      LiveKeptTrans(old(cells), m1, cells, live1, live1, HEADER);
    }

    // The left merge of rt_memheap_free.
    method MergeLeft(p: nat, ghost i: nat) returns (header: nat, insert: bool)
      requires Linked() && i < |bs| && bs[i].at == p && !bs[i].used && p !in free
      modifies mem, `cells, `bs, `avail
      ensures insert <==> !FreeBefore(old(bs), i)
      ensures header == if insert then p else old(bs)[i - 1].at
      ensures Linked() && bs == MergePrev(old(bs), i)
      ensures avail == old(avail) + (if insert then 0 else HEADER)
      ensures LiveKept(old(cells), cells, Live(old(bs)), HEADER)
    {
      ReadHeader(cells, bs, free, i, end);
      if i > 0 {
        ReadHeader(cells, bs, free, i - 1, end);
      }
      header, insert := p, true;
      if mem[mem[p + 3]] == FREE_TAG {
        avail := avail + HEADER;
        header := mem[p + 3];
        Join(p, i);
        insert := false;
      }
    }

    // The right merge of rt_memheap_free.
    method MergeRight(header: nat, ghost i: nat)
      requires Linked() && i < |bs| && bs[i].at == header && !bs[i].used
      requires FreeAfter(bs, i) ==> bs[i + 1].at in free
      modifies mem, `cells, `bs, `free, `avail
      ensures Linked() && bs == MergeNext(old(bs), i)
      ensures free == RestAfter(old(bs), old(free), i)
      ensures avail == old(avail) + (if FreeAfter(old(bs), i) then HEADER else 0)
      ensures LiveKept(old(cells), cells, Live(old(bs)), HEADER)
    {
      ReadHeader(cells, bs, free, i, end);
      if i + 1 < |bs| {
        ReadHeader(cells, bs, free, i + 1, end);
      }
      var next := mem[header + 2];
      if mem[next] == FREE_TAG {
        avail := avail + HEADER;
        Fuse(next, i + 1);
      }
    }

    method Copy(dst: nat, src: nat, n: nat)
      requires mem[..] == cells && dst + n <= |cells| && src + n <= |cells|
      requires dst + n <= src || src + n <= dst
      modifies mem, `cells
      ensures mem[..] == cells && IsCopy(old(cells), cells, dst, src, n)
    {
      CopyCells(mem, dst, src, n);
      cells := mem[..];
    }

    // rt_memheap_realloc. With a free block behind, the sum in the test of line 350 must not wrap.
    method Realloc(ptr: Ptr, bytes: nat) returns (r: Ptr)
      requires Valid() && bytes < WORD_RANGE && (ptr.Null? || IsLive(bs, ptr, HEADER))
      requires SafeSize(bs, ptr, bytes)
      modifies this, mem
      ensures Valid()
      ensures Outcome(r, View()) == ReallocSpec(old(View()), ptr, bytes, end)
      ensures ReallocKeeps(old(cells), cells, old(bs), ptr, r, if bytes == 0 then 0 else Request(bytes), HEADER)
    {
      if bytes == 0 {
        FreeKeeps(View(), ptr, end);
        Free(ptr);
        return Null;
      }
      AlignWraps(bytes);
      var newsize := AlignCells(bytes);
      if newsize < MINI {
        newsize := MINI;
      }
      if ptr.Null? {
        r := Alloc(4 * newsize);
        return;
      }
      r := Resize(ptr, newsize, BlockOf(bs, ptr, HEADER));
    }

    // rt_memheap_realloc of a live block.
    method Resize(ptr: Ptr, newsize: nat, ghost b: Block) returns (r: Ptr)
      requires Valid() && IsLive(bs, ptr, HEADER) && b == BlockOf(bs, ptr, HEADER)
      requires MINI <= newsize && 4 * newsize < WORD_RANGE && SafeGrow(bs, IndexOf(bs, b), newsize)
      modifies this, mem
      ensures Valid()
      ensures Outcome(r, View()) == ResizeSpec(old(View()), ptr, IndexOf(old(bs), b), newsize, end)
      ensures ReallocKeeps(old(cells), cells, old(bs), ptr, r, newsize, HEADER)
    {
      ghost var i := IndexOf(bs, b);
      ReadHeader(cells, bs, free, i, end);
      HoldsOne(bs, ptr, b, end, HEADER);
      var header := ptr.cell - HEADER;
      var oldsize := mem[header + 2] - header - HEADER;
      if newsize > oldsize {
        r := Expand(ptr, oldsize, newsize, b);
      } else if newsize + HEADER + MINI >= oldsize {
        KeepsSame(cells, bs, ptr, ptr, newsize, end, HEADER);
        r := ptr;
      } else {
        ShrinkBlock(header, newsize, i);
        KeepsShrunk(old(cells), cells, old(bs), ptr, newsize, end, HEADER);
        r := ptr;
      }
    }

    method Expand(ptr: Ptr, oldsize: int, newsize: nat, ghost b: Block) returns (r: Ptr)
      requires Valid() && IsLive(bs, ptr, HEADER) && b == BlockOf(bs, ptr, HEADER)
      requires MINI <= newsize && 4 * newsize < WORD_RANGE && SafeGrow(bs, IndexOf(bs, b), newsize)
      requires 0 <= oldsize == Payload(b, HEADER) < newsize
      modifies this, mem
      ensures Valid()
      ensures Outcome(r, View()) == ExpandSpec(old(View()), ptr, IndexOf(old(bs), b), newsize, end)
      ensures ReallocKeeps(old(cells), cells, old(bs), ptr, r, newsize, HEADER)
    {
      ghost var i := IndexOf(bs, b);
      HoldsOne(bs, ptr, b, end, HEADER);
      var ok := TryGrow(ptr.cell - HEADER, oldsize, newsize, i);
      if ok {
        KeepsGrown(old(cells), cells, old(bs), ptr, newsize, end, HEADER);
        r := ptr;
      } else {
        r := MoveBlock(ptr, oldsize, newsize, b);
      }
    }

    // Growing into the free block behind, when it is large enough.
    method TryGrow(header: nat, oldsize: int, newsize: nat, ghost i: nat) returns (ok: bool)
      requires Valid() && i < |bs| && bs[i].at == header && bs[i].used && oldsize == Payload(bs[i], HEADER) < newsize
      requires SafeGrow(bs, i, newsize)
      modifies this, mem
      ensures Valid() && (ok <==> Accepts(old(bs), i, newsize)) && (ok <==> CanGrow(old(bs), i, newsize))
      ensures View() == if ok then Grow(old(View()), i, newsize, end) else old(View())
      ensures !ok ==> cells == old(cells)
      ensures LiveKept(old(cells), cells, Live(old(bs)), HEADER)
    {
      SafeAccepts(bs, i, newsize);
      ReadHeader(cells, bs, free, i, end);
      if i + 1 < |bs| {
        ReadHeader(cells, bs, free, i + 1, end);
      }
      var next := mem[header + 2];
      ok := false;
      if mem[next] == FREE_TAG {
        var nextsize := mem[next + 2] - next - HEADER;
        if 4 * (nextsize + oldsize) > (4 * (newsize + MINI)) % WORD_RANGE {
          GrowKeeps(View(), i, newsize, end);
          GrowBlock(header, next, oldsize, newsize, i);
          ok := true;
        }
      }
    }

    method GrowBlock(header: nat, next: nat, oldsize: int, newsize: nat, ghost i: nat)
      requires Linked() && FreeOk(bs, free) && CanGrow(bs, i, newsize) && bs[i].used
      requires bs[i].at == header && bs[i + 1].at == next && oldsize == Payload(bs[i], HEADER) < newsize
      modifies this, mem
      ensures Linked() && View() == Grow(old(View()), i, newsize, end)
      ensures LiveKept(old(cells), cells, Live(old(bs)), HEADER)
    {
      avail := avail - (newsize - oldsize);
      if PoolSize(end) - avail > maxUsed {
        maxUsed := PoolSize(end) - avail;
      }
      MoveBoundary(header, next, newsize, i);
    }

    // The free block at `next` is replaced by one at header + RT_MEMHEAP_SIZE + newsize.
    method MoveBoundary(header: nat, next: nat, newsize: nat, ghost i: nat)
      requires Linked() && FreeOk(bs, free) && CanGrow(bs, i, newsize) && bs[i].used && Payload(bs[i], HEADER) < newsize
      requires bs[i].at == header && bs[i + 1].at == next
      modifies mem, `cells, `bs, `free
      ensures Linked() && bs == Grown(old(bs), i, HEADER, newsize)
      ensures free == [header + HEADER + newsize] + Without(old(free), next)
      ensures LiveKept(old(cells), cells, Live(old(bs)), HEADER)
    {
      ghost var bs0 := bs;
      var p2 := header + HEADER + newsize;
      ReadHeader(cells, bs, free, i, end);
      ReadHeader(cells, bs, free, i + 1, end);
      assert next in free by { assert bs[i + 1] in bs; }
      InsideNotFree(bs, i + 1, p2, end);
      WithoutMembers(free, next);
      GrownIsSplit(bs, i, newsize);
      Unfree(next);
      ghost var m1 := cells;
      Join(next, i + 1);
      ghost var m2 := cells;
      LiveKeptTrans(old(cells), m1, m2, Live(bs0), Live(bs0), HEADER);
      CutAt(header, p2, i);
      ghost var m3 := cells;
      assert Starts(bs)[i + 1] == p2;
      PushFree(p2);
      LiveKeptTrans(m2, m3, cells, Live(bs), Live(bs), HEADER);
      GrownContents(old(cells), m2, cells, bs0, i, newsize, end);
    }

    // The expanding branch that allocates, copies and frees.
    method MoveBlock(ptr: Ptr, oldsize: int, newsize: nat, ghost b: Block) returns (r: Ptr)
      requires Valid() && Holds(bs, ptr, b, HEADER) && MINI <= newsize && 4 * newsize < WORD_RANGE
      requires oldsize == Payload(b, HEADER) >= 0
      modifies this, mem
      ensures Valid()
      ensures Outcome(r, View()) == MoveSpec(old(View()), ptr, newsize, end)
      ensures ReallocKeeps(old(cells), cells, old(bs), ptr, r, newsize, HEADER)
    {
      AlignExact(newsize);
      AllocKeeps(View(), 4 * newsize, end);
      r := Alloc(4 * newsize);
      if r.At? {
        ghost var m1, br := cells, NewBlock(old(View()), 4 * newsize, end);
        ghost var m2 := CopyAndFree(ptr, r, Least(newsize, oldsize), b, br);
        KeepsMoved(old(cells), m1, m2, cells, old(bs), b, br, ptr, r, newsize, end, HEADER);
      }
    }

    method CopyAndFree(ptr: Ptr, r: Ptr, n: nat, ghost b: Block, ghost br: Block) returns (ghost copied: seq<int>)
      requires Valid() && Holds(bs, ptr, b, HEADER) && Holds(bs, r, br, HEADER) && b != br
      requires n <= Payload(b, HEADER) && n <= Payload(br, HEADER)
      modifies this, mem
      ensures Valid() && View() == FreeSpec(old(View()), ptr)
      ensures IsCopy(old(cells), copied, r.cell, ptr.cell, n)
      ensures LiveKept(old(cells), copied, Live(old(bs)) - {br}, HEADER)
      ensures LiveKept(copied, cells, Live(old(bs)) - {b}, HEADER)
    {
      PayloadsApart(bs, ptr, r, b, br, n, end, HEADER);
      Copy(r.cell, ptr.cell, n);
      CopiedPayload(old(cells), cells, bs, free, br, ptr.cell, n, end);
      copied := cells;
      HoldsOne(bs, ptr, b, end, HEADER);
      FreeKeeps(View(), ptr, end);
      Free(ptr);
    }

    // The shrinking branch.
    method ShrinkBlock(header: nat, newsize: nat, ghost i: nat)
      requires Valid() && i < |bs| && bs[i].at == header && bs[i].used
      requires 0 < newsize && newsize + HEADER + MINI < Payload(bs[i], HEADER)
      modifies this, mem
      ensures Valid() && View() == Shrink(old(View()), i, newsize)
      ensures LiveKept(old(cells), cells, Live(bs), HEADER)
    {
      hide InBand, LiveKept, Wf, FreeOk;
      ShrinkKeeps(View(), i, newsize, end);
      ShrinkSetup(View(), i, newsize, end);
      ghost var t := Shrink(View(), i, newsize);
      CutAt(header, header + newsize + HEADER, i);
      ghost var m1, live1 := cells, Live(bs);
      ListTail(header + newsize + HEADER, i + 1);
      LiveKeptTrans(old(cells), m1, cells, Live(bs), live1, HEADER);
      assert View() == t;
    }

    // The cut-off block is merged with a free block behind it, listed and accounted for.
    method ListTail(p: nat, ghost i: nat)
      requires Linked() && TailReady(bs, free, i) && bs[i].at == p
      modifies mem, `cells, `bs, `free, `avail
      ensures Linked() && bs == MergeNext(old(bs), i) && i < |bs|
      ensures free == [p] + RestAfter(old(bs), old(free), i)
      ensures avail == old(avail) + Payload(bs[i], HEADER)
                       - (if FreeAfter(old(bs), i) then Payload(old(bs)[i + 1], HEADER) else 0)
      ensures LiveKept(old(cells), cells, Live(bs), HEADER)
    {
      ReadHeader(cells, bs, free, i, end);
      if i + 1 < |bs| {
        ReadHeader(cells, bs, free, i + 1, end);
      }
      ghost var live0 := Live(bs);
      var next := mem[p + 2];
      if mem[next] == FREE_TAG {
        WithoutMembers(free, next);
        avail := avail - (mem[next + 2] - next - HEADER);
        MergeLive(bs, i);
        Fuse(next, i + 1);
      }
      ghost var m1 := cells;
      assert Starts(bs)[i] == p;
      PushFree(p);
      LiveKeptTrans(old(cells), m1, cells, live0, live0, HEADER);
      ReadHeader(cells, bs, free, i, end);
      avail := avail + (mem[p + 2] - p - HEADER);
    }
  }

  lemma GrownIsSplit(bs: seq<Block>, i: nat, n: nat)
    requires i + 1 < |bs|
    ensures Split(Merge(bs, i), i, HEADER, n) == Grown(bs, i, HEADER, n)
  {
  }

  // Contents across the fusion of block i with its successor (m0 to m1) and the new cut (to m2).
  lemma GrownContents(m0: seq<int>, m1: seq<int>, m2: seq<int>, bs: seq<Block>, i: nat, n: nat, end: nat)
    requires Tiles(bs, HEADER, end) && CanGrow(bs, i, n) && bs[i].used && Payload(bs[i], HEADER) < n
    requires LiveKept(m0, m1, Live(bs), HEADER) && LiveKept(m1, m2, Live(Grown(bs, i, HEADER, n)), HEADER)
    ensures LiveKept(m0, m2, Live(bs), HEADER)
  {
    GrownLive(bs, i, HEADER, n, end);
    var g := Block(bs[i].at, bs[i].at + HEADER + n, true);
    forall b | b in Live(bs)
      ensures SamePayload(m0, m2, b, HEADER)
    {
      assert SamePayload(m0, m1, b, HEADER);
      assert SamePayload(m1, m2, if b == bs[i] then g else b, HEADER);
    }
  }

  // The new free block i is not listed yet, a free block behind it is.
  ghost predicate TailReady(bs: seq<Block>, free: seq<nat>, i: nat) {
    && i < |bs| && !bs[i].used && bs[i].at !in free && NoDup(free)
    && (FreeAfter(bs, i) ==> bs[i + 1].at in free)
  }

  lemma ShrinkSetup(s: State, i: nat, n: nat, end: nat)
    requires Inv(s, end) && i < |s.bs| && s.bs[i].used && 0 < n && n + HEADER < Payload(s.bs[i], HEADER)
    ensures var c := Split(s.bs, i, HEADER, n);
      && TailReady(c, s.free, i + 1)
      && MergeNext(c, i + 1) == Shrunk(s.bs, i, HEADER, n) && i + 1 < |MergeNext(c, i + 1)|
      && RestAfter(c, s.free, i + 1) == RestAfter(s.bs, s.free, i)
      && (FreeAfter(c, i + 1) <==> FreeAfter(s.bs, i)) && (FreeAfter(s.bs, i) ==> c[i + 2] == s.bs[i + 1])
      && Live(MergeNext(c, i + 1)) == Live(c)
      && Payload(MergeNext(c, i + 1)[i + 1], HEADER) - (if FreeAfter(s.bs, i) then Payload(s.bs[i + 1], HEADER) else 0)
         == Payload(s.bs[i], HEADER) - n - HEADER + (if FreeAfter(s.bs, i) then HEADER else 0)
  {
    var c := Split(s.bs, i, HEADER, n);
    InsideNotFree(s.bs, i, s.bs[i].at + HEADER + n, end);
    if FreeAfter(s.bs, i) {
      MergeLive(c, i + 1);
      assert s.bs[i + 1] in s.bs;
      assert TileAt(s.bs, i + 1, HEADER, end);
    }
  }

  // What the merges of rt_memheap_free rely on once block i is marked free.
  ghost predicate Settles(m: seq<Block>, free: seq<nat>, i: nat)
    requires i < |m|
  {
    && (FreeAfter(m, i) ==> m[i + 1].at in free && m[i + 1].at != m[i].at && NoDup(free))
    && MergeNext(MergePrev(m, i), if FreeBefore(m, i) then i - 1 else i) == Plug(m, i)
    && Live(MergePrev(m, i)) == Live(m) == Live(Plug(m, i))
  }

  ghost predicate Releasable(s: State, i: nat)
    requires i < |s.bs|
  {
    var m := Mark(s.bs, i, false);
    && s.bs[i].at !in s.free
    && Settles(m, s.free, i) && Plug(m, i) == Freed(s.bs, i) && Live(m) == Live(Freed(s.bs, i)) <= Live(s.bs)
    && RestAfter(m, s.free, i) == RestAfter(s.bs, s.free, i)
    && (FreeBefore(m, i) <==> FreeBefore(s.bs, i)) && (FreeAfter(m, i) <==> FreeAfter(s.bs, i))
  }

  lemma ReleaseReady(s: State, i: nat)
    requires i < |s.bs| && Releasable(s, i)
    ensures var m := Mark(s.bs, i, false);
      && |m| == |s.bs| && !m[i].used && m[i].at == s.bs[i].at && m[i].next == s.bs[i].next
      && s.bs[i].at !in s.free && Settles(m, s.free, i) && Live(Plug(m, i)) == Live(m) <= Live(s.bs)
  {
  }

  lemma ReleaseIs(s: State, i: nat, t: State)
    requires i < |s.bs| && Releasable(s, i)
    requires var m := Mark(s.bs, i, false);
      && t.bs == Plug(m, i) && t.maxUsed == s.maxUsed
      && t.free == (if FreeBefore(m, i) then RestAfter(m, s.free, i) else [s.bs[i].at] + RestAfter(m, s.free, i))
      && t.avail == s.avail + Payload(s.bs[i], HEADER)
                    + (if FreeBefore(m, i) then HEADER else 0) + (if FreeAfter(m, i) then HEADER else 0)
    ensures t == Release(s, i)
  {
  }

  lemma ReleaseSetup(s: State, i: nat, end: nat)
    requires Inv(s, end) && i < |s.bs| && s.bs[i].used
    ensures Releasable(s, i)
  {
    UsedNotFree(s.bs, i, end);
    ReleaseLive(s.bs, i, end);
    if FreeAfter(s.bs, i) {
      assert s.bs[i + 1] in s.bs;
      Order(s.bs, i, i + 1, HEADER, end);
      Within(s.bs, i, HEADER, end);
    }
  }

  lemma ReleaseLive(bs: seq<Block>, i: nat, end: nat)
    requires Wf(bs, HEADER, end) && i < |bs| && bs[i].used
    ensures var m := Mark(bs, i, false);
      && MergeNext(MergePrev(m, i), if FreeBefore(m, i) then i - 1 else i) == Plug(m, i)
      && Live(MergePrev(m, i)) == Live(m) == Live(Plug(m, i)) <= Live(bs)
  {
    var m := Mark(bs, i, false);
    MarkLive(bs, i, false, HEADER, end);
    FreedKeeps(bs, i, HEADER, end);
    if FreeBefore(m, i) {
      LeftThenRight(m, i);
      MergeLive(m, i - 1);
    }
  }

  lemma FirstFitIs(bs: seq<Block>, free: seq<nat>, req: nat, k: nat)
    requires k <= |free| && (k < |free| ==> FitsAt(bs, free[k], req))
    requires forall j :: 0 <= j < k ==> !FitsAt(bs, free[j], req)
    ensures FirstFit(bs, free, req, 0) == k
  {
  }

  lemma InitInBand(m: seq<int>, end: nat)
    requires HEADER < end && |m| == end + 2 * HEADER
    requires m[0] == FREE_TAG && m[1] == POOL && m[2] == end && m[3] == end
    requires m[4] == end + HEADER && m[5] == end + HEADER
    requires m[end] == USED_TAG && m[end + 1] == POOL && m[end + 2] == 0 && m[end + 3] == 0
    requires m[end + HEADER + 4] == 0 && m[end + HEADER + 5] == 0
    ensures InBand(m, [Block(0, end, false)], [0], end)
  {
    var bs := [Block(0, end, false)];
    assert TileAt(bs, 0, HEADER, end) && TagAt(m, bs, 0);
    var c, d := BlockRing(bs, end), FreeRing([0], end);
    assert c == [0, end] && d == [end + HEADER, 0];
    assert NodeIn(m, c, 0, BLOCKS) && NodeIn(m, c, 1, BLOCKS) && JoinAt(m, c, 0, BLOCKS) && JoinAt(m, c, 1, BLOCKS);
    assert NodeIn(m, d, 0, FREES) && NodeIn(m, d, 1, FREES) && JoinAt(m, d, 0, FREES) && JoinAt(m, d, 1, FREES);
    assert Starts(bs)[0] == 0;
  }
}
