// What rt_memheap_alloc, rt_memheap_realloc and rt_memheap_free of memheap.c promise, over all
// heaps and all runs. The methods of MemHeaps.MemHeap compute exactly the functions used here.
module MemHeapProps {
  import opened Words
  import opened Lists
  import opened Blocks
  import opened Payloads
  import opened MemHeapSpec

  // ---- when rt_memheap_alloc succeeds ----

  ghost predicate Roomy(b: Block, req: nat) { !b.used && Payload(b, HEADER) >= req }

  lemma {:induction false} FreeCellsCover(bs: seq<Block>, i: nat)
    requires i < |bs| && forall j :: 0 <= j < |bs| ==> Payload(bs[j], HEADER) >= 0
    ensures FreeCells(bs, HEADER) >= 0 && (!bs[i].used ==> Payload(bs[i], HEADER) <= FreeCells(bs, HEADER))
  {
    var l := |bs| - 1;
    if i < l {
      FreeCellsCover(bs[..l], i);
    } else if l > 0 {
      FreeCellsCover(bs[..l], 0);
    }
  }

  // A free block fits somewhere exactly when the free list holds one that does.
  lemma SomeFits(s: State, req: nat, end: nat)
    requires Inv(s, end)
    ensures FirstFit(s.bs, s.free, req, 0) < |s.free| <==> exists b :: b in s.bs && Roomy(b, req)
  {
    var k := FirstFit(s.bs, s.free, req, 0);
    if k < |s.free| {
      assert s.bs[FreeIndex(s.bs, s.free[k])] in s.bs && Roomy(s.bs[FreeIndex(s.bs, s.free[k])], req);
    }
    forall b | b in s.bs && Roomy(b, req)
      ensures k < |s.free|
    {
      assert IsFree(s.bs, b.at);
      var j :| 0 <= j < |s.free| && s.free[j] == b.at;
      SameAddress(s.bs, FreeIndex(s.bs, b.at), IndexOf(s.bs, b), HEADER, end);
      assert FitsAt(s.bs, s.free[j], req);
    }
  }

  // rt_memheap_alloc fails exactly when no free block has room, or when the request equals the
  // whole available size: the test is strict, so a single free block of exactly the right size
  // is refused; see AllocMissesExactFit.
  lemma AllocFailsExactlyWhen(s: State, bytes: nat, end: nat)
    requires Inv(s, end)
    ensures AllocSpec(s, bytes, end).ptr.Null? <==>
              Request(bytes) == s.avail || !exists b :: b in s.bs && Roomy(b, Request(bytes))
  {
    var req := Request(bytes);
    SomeFits(s, req, end);
    if b :| b in s.bs && Roomy(b, req) {
      forall j | 0 <= j < |s.bs|
        ensures Payload(s.bs[j], HEADER) >= 0
      {
        Within(s.bs, j, HEADER, end);
      }
      FreeCellsCover(s.bs, IndexOf(s.bs, b));
      assert req <= s.avail;
    }
  }

  lemma AllocMissesExactFit()
    ensures Inv(Init(16), 16) && Payload(Init(16).bs[0], HEADER) == Request(40)
    ensures AllocSpec(Init(16), 40, 16).ptr.Null?
  {
    InitOk(16);
  }

  // The block has room for the bytes asked for exactly when aligning the request does not wrap
  // around in 32 bits.
  lemma AllocRoom(s: State, bytes: nat, end: nat)
    requires Inv(s, end) && PoolFits(end) && bytes < WORD_RANGE && AllocSpec(s, bytes, end).ptr.At?
    ensures 4 * Payload(NewBlock(s, bytes, end), HEADER) >= bytes <==> bytes <= WORD_RANGE - 4
  {
    AllocKeeps(s, bytes, end);
    AlignWraps(bytes);
  }

  ghost predicate PoolFits(end: nat) { 4 * PoolSize(end) < WORD_RANGE }

  // The last three sizes are treated like twelve bytes, by rt_memheap_realloc as well.
  lemma TopSizesAreSmallest(s: State, p: Ptr, bytes: nat, end: nat)
    requires WORD_RANGE - 4 < bytes < WORD_RANGE
    ensures AllocSpec(s, bytes, end) == AllocSpec(s, 12, end)
    ensures ReallocSpec(s, p, bytes, end) == ReallocSpec(s, p, 12, end)
  {
    assert Request(bytes) == Request(12);
  }

  lemma AllocWraps()
    ensures Inv(Init(30), 30) && AllocSpec(Init(30), WORD_RANGE - 1, 30).ptr == At(HEADER)
    ensures NewBlock(Init(30), WORD_RANGE - 1, 30) == Block(0, HEADER + MINI, true)
  {
    InitOk(30);
    FreeOne(Init(30).bs[0], 0);
    assert FitsAt(Init(30).bs, 0, MINI);
  }

  // What is looked for is the request in words, rounded up, and never less than three.
  lemma RequestIs(bytes: nat)
    requires bytes <= WORD_RANGE - 4
    ensures bytes <= 4 * Request(bytes) && 3 <= Request(bytes)
    ensures 4 * Request(bytes) < bytes + 4 || Request(bytes) == 3
  {
    AlignWraps(bytes);
  }

  // The block handed out is the front of the first free block in the free list with room, and no
  // larger than the request but for what is too small to be a block: what is left of the free
  // block stays free.
  lemma AllocCuts(s: State, bytes: nat, end: nat)
    requires Inv(s, end) && AllocSpec(s, bytes, end).ptr.At?
    ensures var o, b, req := AllocSpec(s, bytes, end), NewBlock(s, bytes, end), Request(bytes);
      && Payload(b, HEADER) < req + HEADER + MINI
      && exists k :: 0 <= k < |s.free| && o.ptr == At(s.free[k] + HEADER) && FitsAt(s.bs, s.free[k], req)
                     && (forall j :: 0 <= j < k ==> !FitsAt(s.bs, s.free[j], req))
                     && CutFrom(s.bs[FreeIndex(s.bs, s.free[k])], b, o.s.bs, HEADER, req, MINI)
  {
    CarveCuts(s.bs, Chosen(s, bytes), HEADER, Request(bytes), MINI);
  }

  // The free list is last in, first out: what is left of the block handed out goes to the front,
  // and so does a freed block, unless a free block before it absorbs it in its place.
  lemma FreeListOrder(s: State, i: nat, req: nat, end: nat)
    requires Inv(s, end) && i < |s.bs|
    ensures s.bs[i].used ==>
      var l := MemHeapSpec.Release(s, i).free;
      if FreeBefore(s.bs, i) then Lost(s.free, s.bs, i + 1, l) else l != [] && l[0] == s.bs[i].at && Lost(s.free, s.bs, i + 1, l[1..])
    ensures !s.bs[i].used ==>
      var l := Take(s, i, req, end).free;
      if Payload(s.bs[i], HEADER) >= req + HEADER + MINI
      then l != [] && l[0] == s.bs[i].at + HEADER + req && Lost(s.free, s.bs, i, l[1..])
      else Lost(s.free, s.bs, i, l)
  {
    WithoutLeaves(s.free, s.bs[i].at);
    if FreeAfter(s.bs, i) {
      WithoutLeaves(s.free, s.bs[i + 1].at);
    }
  }

  // Block k, if it was free, has left the free list.
  ghost predicate Lost(free: seq<nat>, bs: seq<Block>, k: nat, free': seq<nat>) {
    if k < |bs| && !bs[k].used then LeftAlone(free, bs[k].at, free') else free' == free
  }

  // ---- rt_memheap_realloc ----

  // A block that is too small grows in place if the one behind it can give what it lacks, and is
  // moved otherwise; one with at most a small block to spare stays as it is, and a larger one is
  // cut to size.
  lemma ReallocWhere(s: State, p: Ptr, b: Block, bytes: nat, end: nat)
    requires Inv(s, end) && Holds(s.bs, p, b, HEADER) && 0 < bytes < WORD_RANGE && SafeSize(s.bs, p, bytes)
    ensures WentTo(s, p, b, Request(bytes), end, ReallocSpec(s, p, bytes, end))
  {
    HoldsOne(s.bs, p, b, end, HEADER);
    AlignWraps(bytes);
    ResizeWhere(s, p, IndexOf(s.bs, b), Request(bytes), end);
    hide Inv, ResizeSpec, WentTo;
  }

  // Without a block the call is that of rt_memheap_alloc, and a size of 0 is that of
  // rt_memheap_free.
  lemma ReallocOthers(s: State, p: Ptr, bytes: nat, end: nat)
    requires bytes < WORD_RANGE
    ensures bytes == 0 ==> ReallocSpec(s, p, bytes, end) == Outcome(Null, FreeSpec(s, p))
    ensures p.Null? && bytes > 0 ==> ReallocSpec(s, p, bytes, end) == AllocSpec(s, bytes, end)
  {
    AlignWraps(bytes);
    if Request(bytes) < WORD_RANGE / 4 {
      AlignExact(Request(bytes));
    }
  }

  ghost predicate WentTo(s: State, p: Ptr, b: Block, n: nat, end: nat, o: Outcome)
    requires b in s.bs
  {
    var have, grows := Payload(b, HEADER), CanGrow(s.bs, IndexOf(s.bs, b), n);
    && (n <= have <= n + HEADER + MINI ==> o == Outcome(p, s))
    && (have > n + HEADER + MINI || (have < n && grows) ==>
          o.ptr == p && Live(o.s.bs) == Live(s.bs) - {b} + {Block(b.at, b.at + HEADER + n, true)})
    && (have < n && !grows ==>
          o.ptr == AllocSpec(s, 4 * n, end).ptr && o.ptr != p
          && (o.ptr.At? ==> Live(o.s.bs) == Live(s.bs) - {b} + {NewBlock(s, 4 * n, end)}))
  }

  lemma ResizeWhere(s: State, p: Ptr, i: nat, n: nat, end: nat)
    requires Inv(s, end) && i < |s.bs| && s.bs[i].used && p == At(s.bs[i].at + HEADER) && i == IndexOf(s.bs, s.bs[i])
    requires MINI <= n && 4 * n < WORD_RANGE && SafeGrow(s.bs, i, n)
    ensures WentTo(s, p, s.bs[i], n, end, ResizeSpec(s, p, i, n, end))
  {
    hide Inv, MemHeapSpec.Grow, MemHeapSpec.Shrink, MoveSpec, AllocSpec, NewBlock, Live;
    if Payload(s.bs[i], HEADER) < n {
      SafeAccepts(s.bs, i, n);
      if CanGrow(s.bs, i, n) {
        GrowKeeps(s, i, n, end);
      } else {
        MoveWhere(s, p, i, n, end);
      }
    } else if n + HEADER + MINI < Payload(s.bs[i], HEADER) {
      ShrinkKeeps(s, i, n, end);
    }
  }

  lemma MoveWhere(s: State, p: Ptr, i: nat, n: nat, end: nat)
    requires Inv(s, end) && i < |s.bs| && s.bs[i].used && p == At(s.bs[i].at + HEADER)
    requires MINI <= n && 4 * n < WORD_RANGE
    ensures var o := MoveSpec(s, p, n, end);
      && o.ptr == AllocSpec(s, 4 * n, end).ptr && o.ptr != p
      && (o.ptr.At? ==> Live(o.s.bs) == Live(s.bs) - {s.bs[i]} + {NewBlock(s, 4 * n, end)})
  {
    assert s.bs[i] in Live(s.bs) && Holds(s.bs, p, s.bs[i], HEADER) && IsLive(s.bs, p, HEADER);
    hide Inv, AllocSpec, FreeSpec, NewBlock, Live;
    AlignExact(n);
    AllocKeeps(s, 4 * n, end);
    MoveKeeps(s, p, s.bs[i], n, end);
  }

  // The test for growing in place is right exactly when nothing is free behind the block or
  // its sum does not wrap around.
  lemma GrowTestExact(s: State, i: nat, n: nat, end: nat)
    requires Inv(s, end) && PoolFits(end) && i < |s.bs| && s.bs[i].used
    requires MINI <= Payload(s.bs[i], HEADER) < n && 4 * n < WORD_RANGE
    ensures (Accepts(s.bs, i, n) <==> CanGrow(s.bs, i, n)) <==> SafeGrow(s.bs, i, n)
  {
    SafeUnless(s, i, n, end);
  }

  // A sum that wraps around is below any two blocks, and no two blocks hold what was asked for.
  lemma SafeUnless(s: State, i: nat, n: nat, end: nat)
    requires Inv(s, end) && PoolFits(end) && i < |s.bs| && MINI <= Payload(s.bs[i], HEADER) && 4 * n < WORD_RANGE
    ensures !SafeGrow(s.bs, i, n) ==>
              && Accepts(s.bs, i, n) && !CanGrow(s.bs, i, n) && Payload(s.bs[i], HEADER) < n
              && s.bs[i + 1].next < s.bs[i].at + HEADER + n
  {
    if FreeAfter(s.bs, i) {
      assert TileAt(s.bs, i, HEADER, end) && TileAt(s.bs, i + 1, HEADER, end);
      Within(s.bs, i, HEADER, end);
      Within(s.bs, i + 1, HEADER, end);
      if 4 * (n + MINI) >= WORD_RANGE {
        assert (4 * (n + MINI)) % WORD_RANGE == 4 * (n + MINI) - WORD_RANGE < 4 * MINI;
      }
    }
  }

  // A live block of 12 bytes with 100 free ones behind it is "grown" to 2^32 - 12 bytes, past
  // the end of the pool.
  lemma GrowTestWraps()
    ensures var s := State([Block(0, 9, true), Block(9, 40, false)], [9], 25, 21);
      && Inv(s, 40) && PoolFits(40) && IsLive(s.bs, At(HEADER), HEADER)
      && 4 * (Payload(s.bs[0], HEADER) + Payload(s.bs[1], HEADER)) < WORD_RANGE - 12
      && ReallocSpec(s, At(HEADER), WORD_RANGE - 12, 40).ptr == At(HEADER)
      && !Inv(ReallocSpec(s, At(HEADER), WORD_RANGE - 12, 40).s, 40)
  {
    var s := State([Block(0, 9, true), Block(9, 40, false)], [9], 25, 21);
    PairInv(9, 40);
    assert s.bs[0] in Live(s.bs);
    assert Holds(s.bs, At(HEADER), s.bs[0], HEADER);
    HoldsOne(s.bs, At(HEADER), s.bs[0], 40, HEADER);
    assert AlignCells(WORD_RANGE - 12) == WORD_RANGE / 4 - 3;
    UnsafeBreaks(s, At(HEADER), 0, WORD_RANGE / 4 - 3, 40);
  }

  // One live block with a free one behind it.
  lemma PairInv(cut: nat, end: nat)
    requires HEADER < cut && cut + HEADER < end
    ensures Inv(State([Block(0, cut, true), Block(cut, end, false)], [cut], end - cut - HEADER, cut + 2 * HEADER), end)
  {
    var s := State([Block(0, cut, true), Block(cut, end, false)], [cut], end - cut - HEADER, cut + 2 * HEADER);
    assert TileAt(s.bs, 0, HEADER, end) && TileAt(s.bs, 1, HEADER, end) && PairAt(s.bs, 0) && PairAt(s.bs, 1);
    assert s.bs[..1] == [s.bs[0]];
    Sums1(s.bs[0], HEADER);
    forall x: nat
      ensures x in s.free <==> IsFree(s.bs, x)
    {
      TwoFree(s.bs[0], s.bs[1], x);
    }
  }

  // What a wrong decision leaves behind is no heap.
  lemma UnsafeBreaks(s: State, p: Ptr, i: nat, n: nat, end: nat)
    requires Inv(s, end) && PoolFits(end) && i < |s.bs| && s.bs[i].used && p == At(s.bs[i].at + HEADER)
    requires MINI <= Payload(s.bs[i], HEADER) && 4 * n < WORD_RANGE && !SafeGrow(s.bs, i, n)
    ensures ResizeSpec(s, p, i, n, end).ptr == p && !Inv(ResizeSpec(s, p, i, n, end).s, end)
  {
    SafeUnless(s, i, n, end);
    var r := ResizeSpec(s, p, i, n, end).s.bs;
    assert r == Grown(s.bs, i, HEADER, n);
    assert r[i + 1] == Block(s.bs[i].at + HEADER + n, s.bs[i + 1].next, false);
    assert !TileAt(r, i + 1, HEADER, end);
  }

  lemma ResizeKeeps(s: State, p: Ptr, i: nat, n: nat, end: nat)
    requires Inv(s, end) && i < |s.bs| && s.bs[i].used && p == At(s.bs[i].at + HEADER)
    requires MINI <= n && 4 * n < WORD_RANGE && SafeGrow(s.bs, i, n)
    ensures var o := ResizeSpec(s, p, i, n, end);
      && Inv(o.s, end)
      && (o.ptr.Null? ==> o.s == s)
      && (o.ptr.At? ==> exists b' :: MovedTo(s.bs, o.s.bs, s.bs[i], o.ptr, b', n, HEADER))
  {
    var o, b := ResizeSpec(s, p, i, n, end), s.bs[i];
    var cut := Block(b.at, b.at + HEADER + n, true);
    if n > Payload(b, HEADER) {
      SafeAccepts(s.bs, i, n);
      if CanGrow(s.bs, i, n) {
        GrowKeeps(s, i, n, end);
        assert MovedTo(s.bs, o.s.bs, b, p, cut, n, HEADER);
      } else {
        MoveKeeps(s, p, b, n, end);
      }
    } else if n + HEADER + MINI < Payload(b, HEADER) {
      ShrinkKeeps(s, i, n, end);
      assert MovedTo(s.bs, o.s.bs, b, p, cut, n, HEADER);
    } else {
      assert MovedTo(s.bs, s.bs, b, p, b, n, HEADER);
    }
  }

  lemma MoveKeeps(s: State, p: Ptr, b: Block, n: nat, end: nat)
    requires Inv(s, end) && Holds(s.bs, p, b, HEADER) && MINI <= n && 4 * n < WORD_RANGE
    ensures var o := MoveSpec(s, p, n, end);
      && Inv(o.s, end)
      && (o.ptr.Null? ==> o.s == s)
      && (o.ptr.At? ==> MovedTo(s.bs, o.s.bs, b, o.ptr, NewBlock(s, 4 * n, end), n, HEADER))
  {
    assert IsLive(s.bs, p, HEADER);
    hide AllocSpec, FreeSpec, NewBlock, Live, Wf;
    AlignExact(n);
    AllocKeeps(s, 4 * n, end);
    var m := AllocSpec(s, 4 * n, end);
    if m.ptr.At? {
      var nb := NewBlock(s, 4 * n, end);
      HoldsOne(m.s.bs, p, b, end, HEADER);
      FreeKeeps(m.s, p, end);
      assert nb != b;
      assert Live(s.bs) + {nb} - {b} == Live(s.bs) - {b} + {nb};
    }
  }

  // rt_memheap_realloc to a non-zero size either returns NULL and changes nothing, or replaces
  // the one block by a live block with room for the aligned size.
  lemma ReallocOutcome(s: State, p: Ptr, bytes: nat, end: nat)
    requires Inv(s, end) && bytes < WORD_RANGE && SafeSize(s.bs, p, bytes)
    requires p.Null? || IsLive(s.bs, p, HEADER)
    ensures var o := ReallocSpec(s, p, bytes, end);
      && Inv(o.s, end)
      && (bytes > 0 && o.ptr.Null? ==> o.s == s)
      && (bytes > 0 && o.ptr.At? && IsLive(s.bs, p, HEADER) ==>
            exists b' :: MovedTo(s.bs, o.s.bs, BlockOf(s.bs, p, HEADER), o.ptr, b', Request(bytes), HEADER))
      && (bytes == 0 && IsLive(s.bs, p, HEADER) ==> Live(o.s.bs) == Live(s.bs) - {BlockOf(s.bs, p, HEADER)})
  {
    if bytes == 0 {
      FreeKeeps(s, p, end);
    } else if p.Null? {
      AllocKeeps(s, 4 * Request(bytes), end);
    } else {
      AlignWraps(bytes);
      ResizeKeeps(s, p, IndexOf(s.bs, BlockOf(s.bs, p, HEADER)), Request(bytes), end);
    }
  }

  // The live block b became b', with room for so many bytes.
  ghost predicate Resized(s: State, o: Outcome, b: Block, b': Block, bytes: nat) {
    MovedTo(s.bs, o.s.bs, b, o.ptr, b', Request(bytes), HEADER) && bytes <= 4 * Payload(b', HEADER)
  }

  // All a caller expects of resizing the live block b.
  ghost predicate Serves(s: State, o: Outcome, b: Block, bytes: nat, end: nat) {
    Inv(o.s, end) && (o.ptr.Null? ==> o.s == s) && (o.ptr.At? ==> exists b' :: Resized(s, o, b, b', bytes))
  }

  // rt_memheap_realloc of a live block does what it should exactly when aligning the size does
  // not wrap around and the test for growing in place does not either.
  lemma ReallocExactlyWhen(s: State, p: Ptr, bytes: nat, end: nat)
    requires Inv(s, end) && PoolFits(end) && IsLive(s.bs, p, HEADER) && 0 < bytes < WORD_RANGE
    requires MINI <= Payload(BlockOf(s.bs, p, HEADER), HEADER)
    ensures Serves(s, ReallocSpec(s, p, bytes, end), BlockOf(s.bs, p, HEADER), bytes, end)
       <==> bytes <= WORD_RANGE - 4 && SafeSize(s.bs, p, bytes)
  {
    var o, b := ReallocSpec(s, p, bytes, end), BlockOf(s.bs, p, HEADER);
    AlignWraps(bytes);
    if SafeSize(s.bs, p, bytes) {
      ReallocOutcome(s, p, bytes, end);
      if bytes <= WORD_RANGE - 4 {
        if o.ptr.At? {
          var b' :| MovedTo(s.bs, o.s.bs, b, o.ptr, b', Request(bytes), HEADER);
          assert Resized(s, o, b, b', bytes);
        }
      } else {
        NoRoom(s, o, b, bytes, end);
      }
    } else {
      UnsafeBreaks(s, p, IndexOf(s.bs, b), Request(bytes), end);
    }
  }

  // No block has room for the sizes that cannot be aligned.
  lemma NoRoom(s: State, o: Outcome, b: Block, bytes: nat, end: nat)
    requires Inv(o.s, end) && PoolFits(end) && WORD_RANGE - 4 < bytes
    ensures !exists b' :: Resized(s, o, b, b', bytes)
  {
    forall b' | MovedTo(s.bs, o.s.bs, b, o.ptr, b', Request(bytes), HEADER)
      ensures !(bytes <= 4 * Payload(b', HEADER))
    {
      HoldsOne(o.s.bs, o.ptr, b', end, HEADER);
    }
  }

  // ---- runs, one step per locked region ----

  // Every block that was handed out has the minimal size.
  ghost predicate AllMini(bs: seq<Block>) {
    forall b :: b in Live(bs) ==> MINI <= Payload(b, HEADER)
  }

  // rt_memheap_alloc compares the size with available_size before it takes the lock. Serve is its
  // locked region alone, after a test that may be out of date by then; Alloc is the region right
  // after the test.
  datatype Event =
    | Alloc(bytes: nat)
    | Serve(bytes: nat)
    | Release(i: nat)
    | Grow(i: nat, n: nat)
    | Shrink(i: nat, n: nat)

  ghost function ServeSpec(s: State, bytes: nat, end: nat): State {
    if FirstFit(s.bs, s.free, Request(bytes), 0) == |s.free| then s
    else Take(s, Chosen(s, bytes), Request(bytes), end)
  }

  lemma ServeKeeps(s: State, bytes: nat, end: nat)
    requires Inv(s, end)
    ensures var s' := ServeSpec(s, bytes, end);
      Inv(s', end) && s'.maxUsed == Greater(s.maxUsed, PoolSize(end) - s'.avail)
    ensures AllMini(s.bs) ==> AllMini(ServeSpec(s, bytes, end).bs)
  {
    if FirstFit(s.bs, s.free, Request(bytes), 0) < |s.free| {
      TakeOutcome(s, Chosen(s, bytes), Request(bytes), end);
    }
  }

  // A call that has passed its test serves what a fresh test would refuse: 40 bytes, when by then
  // no more are left.
  lemma StaleTestServes()
    ensures var s := Init(16);
      && Inv(s, 16) && AllocSpec(s, 40, 16).ptr.Null?
      && ServeSpec(s, 40, 16).avail == 0 && Inv(ServeSpec(s, 40, 16), 16)
  {
    InitOk(16);
    FreeOne(Init(16).bs[0], 0);
    assert FitsAt(Init(16).bs, 0, Request(40));
    ServeKeeps(Init(16), 40, 16);
  }

  ghost predicate Enabled(s: State, e: Event) {
    match e
    case Alloc(bytes) => bytes < WORD_RANGE
    case Serve(bytes) => bytes < WORD_RANGE
    case Release(i) => i < |s.bs| && s.bs[i].used
    case Grow(i, n) => CanGrow(s.bs, i, n) && s.bs[i].used && Payload(s.bs[i], HEADER) < n
    case Shrink(i, n) => i < |s.bs| && s.bs[i].used && MINI <= n && n + HEADER + MINI < Payload(s.bs[i], HEADER)
  }

  ghost function Next(s: State, e: Event, end: nat): State
    requires Enabled(s, e)
  {
    match e
    case Alloc(bytes) => AllocSpec(s, bytes, end).s
    case Serve(bytes) => ServeSpec(s, bytes, end)
    case Release(i) => MemHeapSpec.Release(s, i)
    case Grow(i, n) => MemHeapSpec.Grow(s, i, n, end)
    case Shrink(i, n) => MemHeapSpec.Shrink(s, i, n)
  }

  lemma StepKeeps(s: State, e: Event, end: nat)
    requires Inv(s, end) && Enabled(s, e)
    ensures var s' := Next(s, e, end);
      Inv(s', end) && s'.maxUsed == Greater(s.maxUsed, PoolSize(end) - s'.avail)
    ensures AllMini(s.bs) ==> AllMini(Next(s, e, end).bs)
  {
    match e
    case Alloc(bytes) => AllocKeeps(s, bytes, end);
    case Serve(bytes) => ServeKeeps(s, bytes, end);
    case Release(i) => ReleaseKeeps(s, i, end);
    case Grow(i, n) => GrowKeeps(s, i, n, end);
    case Shrink(i, n) => ShrinkKeeps(s, i, n, end);
  }

  ghost predicate StepAt(trace: seq<State>, events: seq<Event>, k: nat, end: nat) {
    && k < |events| && k + 1 < |trace|
    && Enabled(trace[k], events[k]) && trace[k + 1] == Next(trace[k], events[k], end)
  }

  // A run from the state rt_memheap_init leaves behind.
  ghost predicate IsRun(trace: seq<State>, events: seq<Event>, end: nat) {
    && HEADER < end && |trace| == |events| + 1 && trace[0] == Init(end)
    && forall k: nat :: k < |events| ==> StepAt(trace, events, k, end)
  }

  // The most that was in use at any point of the run up to step k.
  ghost function Peak(trace: seq<State>, k: nat, end: nat): int
    requires k < |trace|
  {
    var used := PoolSize(end) - trace[k].avail;
    if k == 0 then used else Greater(Peak(trace, k - 1, end), used)
  }

  // After any run the ring is tiled in canonical form, the free list is a permutation of the
  // free blocks, available_size is the free payload, and max_used_size is the historical peak.
  lemma {:induction false} RunKeepsAccounts(trace: seq<State>, events: seq<Event>, k: nat, end: nat)
    requires IsRun(trace, events, end) && k <= |events|
    ensures Inv(trace[k], end) && trace[k].maxUsed == Peak(trace, k, end) && AllMini(trace[k].bs)
  {
    if k == 0 {
      InitOk(end);
    } else {
      RunKeepsAccounts(trace, events, k - 1, end);
      assert StepAt(trace, events, k - 1, end);
      StepKeeps(trace[k - 1], events[k - 1], end);
    }
  }

  // rt_memheap_realloc is a sequence of at most two such steps.
  ghost function ReallocEvents(s: State, p: Ptr, bytes: nat, end: nat): seq<Event>
    requires p.Null? || IsLive(s.bs, p, HEADER)
  {
    if p.Null? then if bytes == 0 then [] else [Alloc(4 * Request(bytes))]
    else
      var i, n := IndexOf(s.bs, BlockOf(s.bs, p, HEADER)), Request(bytes);
      if bytes == 0 then [Release(i)]
      else if n > Payload(s.bs[i], HEADER) then ExpandEvents(s, p, i, n, end)
      else if n + HEADER + MINI >= Payload(s.bs[i], HEADER) then []
      else [Shrink(i, n)]
  }

  ghost function ExpandEvents(s: State, p: Ptr, i: nat, n: nat, end: nat): seq<Event> {
    if Accepts(s.bs, i, n) then [Grow(i, n)]
    else
      var o := AllocSpec(s, 4 * n, end);
      if o.ptr.At? && IsLive(o.s.bs, p, HEADER)
      then [Alloc(4 * n), Release(IndexOf(o.s.bs, BlockOf(o.s.bs, p, HEADER)))]
      else [Alloc(4 * n)]
  }

  ghost predicate Reaches(s: State, events: seq<Event>, s': State, end: nat)
    decreases |events|
  {
    if events == [] then s == s'
    else Enabled(s, events[0]) && Reaches(Next(s, events[0], end), events[1..], s', end)
  }

  lemma ReallocIsSteps(s: State, p: Ptr, bytes: nat, end: nat)
    requires Inv(s, end) && bytes < WORD_RANGE && SafeSize(s.bs, p, bytes)
    requires p.Null? || IsLive(s.bs, p, HEADER)
    ensures Reaches(s, ReallocEvents(s, p, bytes, end), ReallocSpec(s, p, bytes, end).s, end)
  {
    AlignWraps(bytes);
    if p.Null? {
      if bytes > 0 {
        AlignExact(Request(bytes));
        OneStep(s, Alloc(4 * Request(bytes)), end);
      }
    } else {
      var i := IndexOf(s.bs, BlockOf(s.bs, p, HEADER));
      if bytes == 0 {
        OneStep(s, Release(i), end);
      } else if Request(bytes) > Payload(s.bs[i], HEADER) {
        ExpandIsSteps(s, p, i, Request(bytes), end);
      } else if Request(bytes) + HEADER + MINI < Payload(s.bs[i], HEADER) {
        OneStep(s, Shrink(i, Request(bytes)), end);
      }
    }
  }

  lemma ExpandIsSteps(s: State, p: Ptr, i: nat, n: nat, end: nat)
    requires Inv(s, end) && i < |s.bs| && s.bs[i].used && SafeGrow(s.bs, i, n)
    requires Payload(s.bs[i], HEADER) < n && 4 * n < WORD_RANGE
    ensures Reaches(s, ExpandEvents(s, p, i, n, end), ExpandSpec(s, p, i, n, end).s, end)
  {
    if Accepts(s.bs, i, n) {
      OneStep(s, Grow(i, n), end);
    } else {
      var o := AllocSpec(s, 4 * n, end);
      if o.ptr.At? && IsLive(o.s.bs, p, HEADER) {
        TwoSteps(s, Alloc(4 * n), Release(IndexOf(o.s.bs, BlockOf(o.s.bs, p, HEADER))), end);
      } else {
        OneStep(s, Alloc(4 * n), end);
      }
    }
  }

  lemma TwoSteps(s: State, e: Event, f: Event, end: nat)
    requires Enabled(s, e) && Enabled(Next(s, e, end), f)
    ensures Reaches(s, [e, f], Next(Next(s, e, end), f, end), end)
  {
    OneStep(Next(s, e, end), f, end);
    assert [e, f][1..] == [f];
  }

  lemma OneStep(s: State, e: Event, end: nat)
    requires Enabled(s, e)
    ensures Reaches(s, [e], Next(s, e, end), end)
  {
    assert [e][1..] == [];
  }

  // ---- freeing everything ----

  ghost function FreeAll(s: State, ps: seq<Ptr>): State
    decreases |ps|
  {
    if ps == [] then s else FreeAll(FreeSpec(s, ps[0]), ps[1..])
  }

  lemma NoneLive(s: State, end: nat)
    requires Inv(s, end) && ListsLive(s.bs, [], HEADER)
    ensures s.bs == [Block(0, end, false)] && s.free == [0] && s.avail == end - HEADER
  {
    assert forall b :: b in Live(s.bs) ==> At(b.at + HEADER) in [];
    NothingLive(s.bs, HEADER, end);
    Sums1(s.bs[0], HEADER);
    forall x: nat
      ensures x in s.free <==> x == 0
    {
      FreeOne(s.bs[0], x);
    }
    assert 0 in s.free;
    assert forall i :: 0 <= i < |s.free| ==> s.free[i] in s.free;
    NoDupShorter(s.free, [0]);
  }

  // Freeing everything that is live, in any order, restores the initial heap, all but the
  // high-water mark.
  lemma {:induction false} FreeAllRestores(s: State, ps: seq<Ptr>, end: nat)
    requires Inv(s, end) && HEADER < end && ListsLive(s.bs, ps, HEADER)
    ensures FreeAll(s, ps) == Init(end).(maxUsed := s.maxUsed)
    decreases |ps|
  {
    if ps == [] {
      NoneLive(s, end);
    } else {
      var b := BlockOf(s.bs, ps[0], HEADER);
      FreeKeeps(s, ps[0], end);
      HoldsOne(s.bs, ps[0], b, end, HEADER);
      ListRest(s.bs, FreeSpec(s, ps[0]).bs, ps, b, HEADER);
      FreeAllRestores(FreeSpec(s, ps[0]), ps[1..], end);
    }
  }
}
