// What rt_malloc, rt_free and rt_realloc of mem.c promise their callers, over all heaps
// and all runs. The methods of SmallMem.Heap compute exactly the functions used here.
module SmallMemProps {
  import opened Words
  import opened Blocks
  import opened Payloads
  import opened SmallMem

  ghost predicate HeapSize(size: nat) {
    MIN_SIZE <= size && 4 * (size + 2 * HEADER) < WORD_RANGE
  }

  // ---- when rt_malloc succeeds ----

  // rt_malloc fails exactly when the request is 0 or exceeds the heap or no free block has room for
  // it, except that a last block fitting exactly does not help: the search stops short of
  // it. "NULL only if nothing fits" is therefore false; see MallocMissesExactFit.
  lemma MallocFailsExactlyWhen(bs: seq<Block>, bytes: nat, size: nat)
    requires HeapSize(size) && Wf(bs, HEADER, size + HEADER) && bytes < WORD_RANGE
    ensures MallocSpec(bs, bytes, size).ptr.Null? <==>
              || bytes == 0 || AlignCells(bytes) > size
              || (forall i :: 0 <= i < |bs| && Fits(bs[i], Request(bytes)) ==>
                    i == |bs| - 1 && Payload(bs[i], HEADER) == Request(bytes))
  {
    var req, limit := Request(bytes), size - Request(bytes);
    if AlignCells(bytes) <= size {
      forall i | 0 <= i < |bs| && Fits(bs[i], req)
        ensures bs[i].at < limit <==> !(i == |bs| - 1 && Payload(bs[i], HEADER) == req)
      {
        Within(bs, i, HEADER, size + HEADER);
      }
    }
  }

  lemma MallocMissesExactFit()
    ensures var bs := [Block(0, 9, false)];
      && HeapSize(6) && Wf(bs, HEADER, 6 + HEADER)
      && Fits(bs[0], Request(24)) && MallocSpec(bs, 24, 6).ptr.Null?
  {
    var bs := [Block(0, 9, false)];
    assert TileAt(bs, 0, HEADER, 9) && PairAt(bs, 0);
    assert FirstFit(bs, 6, 0, 0) == 1;
  }

  // The block handed out is the lowest free one that fits below the search bound.
  lemma MallocTakesLowest(bs: seq<Block>, bytes: nat, size: nat, i: nat)
    requires HeapSize(size) && Wf(bs, HEADER, size + HEADER)
    requires MallocSpec(bs, bytes, size).ptr.At?
    requires i < |bs| && Fits(bs[i], Request(bytes)) && bs[i].at < size - Request(bytes)
    ensures MallocSpec(bs, bytes, size).ptr.cell <= bs[i].at + HEADER
  {
    var k := FirstFit(bs, Request(bytes), size - Request(bytes), 0);
    if k < i {
      Order(bs, k, i, HEADER, size + HEADER);
      Within(bs, k, HEADER, size + HEADER);
    }
  }

  // The block has room for the bytes asked for exactly when aligning the request does not
  // wrap around in 32 bits.
  lemma MallocRoom(bs: seq<Block>, bytes: nat, size: nat)
    requires HeapSize(size) && Wf(bs, HEADER, size + HEADER) && bytes < WORD_RANGE
    requires MallocSpec(bs, bytes, size).ptr.At?
    ensures 4 * Payload(NewBlock(bs, bytes, size), HEADER) >= bytes <==> bytes <= WORD_RANGE - 4
  {
    MallocKeeps(bs, bytes, size);
  }

  lemma MallocWraps()
    ensures var bs := [Block(0, 103, false)];
      && HeapSize(100) && Wf(bs, HEADER, 103)
      && MallocSpec(bs, WORD_RANGE - 1, 100).ptr == At(HEADER)
      && NewBlock(bs, WORD_RANGE - 1, 100) == Block(0, HEADER + MIN_SIZE, true)
  {
    var bs := [Block(0, 103, false)];
    assert TileAt(bs, 0, HEADER, 103) && PairAt(bs, 0);
    assert FirstFit(bs, MIN_SIZE, 97, 0) == 0;
  }

  // What is looked for is the request in words, rounded up, and never less than three.
  lemma RequestIs(bytes: nat)
    requires 0 < bytes <= WORD_RANGE - 4
    ensures bytes <= 4 * Request(bytes) && 3 <= Request(bytes)
    ensures 4 * Request(bytes) < bytes + 4 || Request(bytes) == 3
  {
    AlignWraps(bytes);
  }

  // The block handed out is the front of a free block, and no larger than the request but for what
  // is too small to be a block: what is left of the free block stays free.
  lemma MallocCuts(bs: seq<Block>, bytes: nat, size: nat)
    requires HeapSize(size) && Wf(bs, HEADER, size + HEADER) && MallocSpec(bs, bytes, size).ptr.At?
    ensures var o, b, req := MallocSpec(bs, bytes, size), NewBlock(bs, bytes, size), Request(bytes);
      && Payload(b, HEADER) < req + HEADER + MIN_SIZE
      && exists i :: 0 <= i < |bs| && Fits(bs[i], req) && bs[i].at < size - req && o.ptr == At(bs[i].at + HEADER)
                     && CutFrom(bs[i], b, o.bs, HEADER, req, MIN_SIZE)
  {
    CarveCuts(bs, FirstFit(bs, Request(bytes), size - Request(bytes), 0), HEADER, Request(bytes), MIN_SIZE);
  }

  // ---- rt_realloc ----

  // A block of the size asked for stays as it is, a much larger one is cut to size in place, and
  // otherwise rt_malloc finds another one.
  lemma ReallocWhere(bs: seq<Block>, p: Ptr, b: Block, bytes: nat, size: nat)
    requires HeapSize(size) && Wf(bs, HEADER, size + HEADER) && Holds(bs, p, b, HEADER) && 0 < AlignCells(bytes) <= size
    ensures WentTo(bs, p, b, AlignCells(bytes), size, ReallocSpec(bs, p, bytes, size))
  {
    HoldsOne(bs, p, b, size + HEADER, HEADER);
    ResizeWhere(bs, p, b, AlignCells(bytes), size);
    hide Wf, ResizeSpec, WentTo;
  }

  ghost predicate WentTo(bs: seq<Block>, p: Ptr, b: Block, n: nat, size: nat, o: Outcome) {
    var have := Payload(b, HEADER);
    && (have == n ==> o == Outcome(p, bs))
    && (have > n + HEADER + MIN_SIZE ==>
          o.ptr == p && Live(o.bs) == Live(bs) - {b} + {Block(b.at, b.at + HEADER + n, true)})
    && (have != n && have <= n + HEADER + MIN_SIZE ==>
          o.ptr == MallocSpec(bs, 4 * n, size).ptr && o.ptr != p
          && (o.ptr.At? ==> Live(o.bs) == Live(bs) - {b} + {NewBlock(bs, 4 * n, size)}))
  }

  lemma ResizeWhere(bs: seq<Block>, p: Ptr, b: Block, n: nat, size: nat)
    requires HeapSize(size) && Wf(bs, HEADER, size + HEADER) && Holds(bs, p, b, HEADER) && 0 < n <= size
    ensures WentTo(bs, p, b, n, size, ResizeSpec(bs, p, b, n, size))
  {
    assert b in bs && b.used;
    hide Wf, Shrunk, MoveSpec, MallocSpec, NewBlock, Live;
    if n + HEADER + MIN_SIZE < Payload(b, HEADER) {
      ShrunkKeeps(bs, IndexOf(bs, b), HEADER, n, size + HEADER);
    } else if n != Payload(b, HEADER) {
      MoveWhere(bs, p, b, n, size);
    }
  }

  lemma MoveWhere(bs: seq<Block>, p: Ptr, b: Block, n: nat, size: nat)
    requires HeapSize(size) && Wf(bs, HEADER, size + HEADER) && Holds(bs, p, b, HEADER) && 0 < n <= size
    ensures var o := MoveSpec(bs, p, n, size);
      && o.ptr == MallocSpec(bs, 4 * n, size).ptr && o.ptr != p
      && (o.ptr.At? ==> Live(o.bs) == Live(bs) - {b} + {NewBlock(bs, 4 * n, size)})
  {
    hide Wf, MallocSpec, FreeSpec, NewBlock, Live;
    AlignExact(n);
    MallocKeeps(bs, 4 * n, size);
    MoveKeeps(bs, p, b, n, size);
    assert IsLive(bs, p, HEADER);
  }

  // Without a block the call is that of rt_malloc, and a pointer from outside the heap comes back.
  lemma ReallocOthers(bs: seq<Block>, p: Ptr, bytes: nat, size: nat)
    requires HeapSize(size) && Wf(bs, HEADER, size + HEADER) && bytes < WORD_RANGE
    ensures p.Null? && 0 < bytes <= WORD_RANGE - 4 ==> ReallocSpec(bs, p, bytes, size) == MallocSpec(bs, bytes, size)
    ensures p.Null? && (bytes == 0 || AlignCells(bytes) > size) ==> ReallocSpec(bs, p, bytes, size) == Outcome(Null, bs)
    ensures Outside(p, size) && 0 < AlignCells(bytes) <= size ==> ReallocSpec(bs, p, bytes, size) == Outcome(p, bs)
  {
    AlignWraps(bytes);
    if Outside(p, size) {
      OutsideNotLive(bs, p, size);
    }
    if p.Null? && 0 < AlignCells(bytes) <= size {
      AlignExact(AlignCells(bytes));
    }
  }

  lemma ResizeKeeps(bs: seq<Block>, p: Ptr, b: Block, n: nat, size: nat)
    requires HeapSize(size) && Wf(bs, HEADER, size + HEADER) && Holds(bs, p, b, HEADER) && 0 < n <= size
    ensures var o := ResizeSpec(bs, p, b, n, size);
      && Wf(o.bs, HEADER, size + HEADER)
      && (o.ptr.Null? ==> o.bs == bs)
      && (o.ptr.At? ==> exists b' :: MovedTo(bs, o.bs, b, o.ptr, b', n, HEADER))
  {
    var o := ResizeSpec(bs, p, b, n, size);
    if Payload(b, HEADER) == n {
      assert MovedTo(bs, bs, b, p, b, n, HEADER);
    } else if n + HEADER + MIN_SIZE < Payload(b, HEADER) {
      ShrunkKeeps(bs, IndexOf(bs, b), HEADER, n, size + HEADER);
      assert MovedTo(bs, o.bs, b, p, Block(b.at, b.at + HEADER + n, true), n, HEADER);
    } else {
      MoveKeeps(bs, p, b, n, size);
    }
  }

  lemma MoveKeeps(bs: seq<Block>, p: Ptr, b: Block, n: nat, size: nat)
    requires HeapSize(size) && Wf(bs, HEADER, size + HEADER) && Holds(bs, p, b, HEADER) && 0 < n <= size
    ensures var o := MoveSpec(bs, p, n, size);
      && Wf(o.bs, HEADER, size + HEADER)
      && (o.ptr.Null? ==> o.bs == bs)
      && (o.ptr.At? ==> MovedTo(bs, o.bs, b, o.ptr, NewBlock(bs, 4 * n, size), n, HEADER))
  {
    assert IsLive(bs, p, HEADER);
    hide Wf, MallocSpec, FreeSpec, NewBlock, Live, IsLive;
    AlignExact(n);
    MallocKeeps(bs, 4 * n, size);
    if MallocSpec(bs, 4 * n, size).ptr.At? {
      MovedKeeps(bs, p, b, n, size);
    }
  }

  lemma MovedKeeps(bs: seq<Block>, p: Ptr, b: Block, n: nat, size: nat)
    requires HeapSize(size) && Wf(bs, HEADER, size + HEADER) && Holds(bs, p, b, HEADER) && 0 < n <= size
    requires MallocSpec(bs, 4 * n, size).ptr.At?
    ensures var o := MoveSpec(bs, p, n, size);
      Wf(o.bs, HEADER, size + HEADER) && MovedTo(bs, o.bs, b, o.ptr, NewBlock(bs, 4 * n, size), n, HEADER)
  {
    hide Wf, MallocSpec, FreeSpec, NewBlock, Live, UsedCells;
    AlignExact(n);
    MallocKeeps(bs, 4 * n, size);
    var m, nb := MallocSpec(bs, 4 * n, size), NewBlock(bs, 4 * n, size);
    HoldsStill(bs, m.bs, p, b, nb, size);
    FreeKeeps(m.bs, p, size);
    assert Live(bs) + {nb} - {b} == Live(bs) - {b} + {nb};
  }

  // A block that was live before another one was added.
  lemma HoldsStill(bs: seq<Block>, bs': seq<Block>, p: Ptr, b: Block, nb: Block, size: nat)
    requires Wf(bs', HEADER, size + HEADER) && Holds(bs, p, b, HEADER) && Live(bs') == Live(bs) + {nb} && nb !in Live(bs)
    ensures IsLive(bs', p, HEADER) && BlockOf(bs', p, HEADER) == b && nb != b
  {
    hide Live;
    HoldsOne(bs', p, b, size + HEADER, HEADER);
  }

  // rt_realloc of a live block. Up to 2^32 - 4 bytes it either returns NULL and changes nothing,
  // or replaces that one block by a live block with room for the bytes asked for. For the
  // sizes above, aligning wraps around to 0, and like a size of 0 they free the block.
  lemma ReallocOutcome(bs: seq<Block>, p: Ptr, bytes: nat, size: nat)
    requires HeapSize(size) && Wf(bs, HEADER, size + HEADER) && Passable(bs, p, size) && bytes < WORD_RANGE
    ensures var o := ReallocSpec(bs, p, bytes, size);
      && Wf(o.bs, HEADER, size + HEADER)
      && (0 < bytes <= WORD_RANGE - 4 && o.ptr.Null? ==> o.bs == bs)
      && (o.ptr.At? && IsLive(bs, p, HEADER) ==> exists b' :: Resized(bs, o, BlockOf(bs, p, HEADER), b', bytes))
      && (!(0 < bytes <= WORD_RANGE - 4) && IsLive(bs, p, HEADER) ==>
            o.ptr.Null? && Live(o.bs) == Live(bs) - {BlockOf(bs, p, HEADER)})
  {
    var n := AlignCells(bytes);
    AlignWraps(bytes);
    if n > size {
    } else if n == 0 {
      FreeKeeps(bs, p, size);
    } else if p.Null? {
      MallocKeeps(bs, 4 * n, size);
    } else if IsLive(bs, p, HEADER) {
      ResizeOutcome(bs, p, BlockOf(bs, p, HEADER), bytes, size);
    }
  }

  lemma ResizeOutcome(bs: seq<Block>, p: Ptr, b: Block, bytes: nat, size: nat)
    requires HeapSize(size) && Wf(bs, HEADER, size + HEADER) && Holds(bs, p, b, HEADER)
    requires 0 < bytes <= WORD_RANGE - 4 && AlignCells(bytes) <= size
    ensures var o := ResizeSpec(bs, p, b, AlignCells(bytes), size);
      && Wf(o.bs, HEADER, size + HEADER)
      && (o.ptr.Null? ==> o.bs == bs)
      && (o.ptr.At? ==> exists b' :: Resized(bs, o, b, b', bytes))
  {
    AlignWraps(bytes);
    ResizeKeeps(bs, p, b, AlignCells(bytes), size);
    var o := ResizeSpec(bs, p, b, AlignCells(bytes), size);
    if o.ptr.At? {
      var b' :| MovedTo(bs, o.bs, b, o.ptr, b', AlignCells(bytes), HEADER);
      assert Resized(bs, o, b, b', bytes);
    }
  }

  // The live block b became b', with room for so many bytes.
  ghost predicate Resized(bs: seq<Block>, o: Outcome, b: Block, b': Block, bytes: nat) {
    MovedTo(bs, o.bs, b, o.ptr, b', AlignCells(bytes), HEADER) && bytes <= 4 * Payload(b', HEADER)
  }

  // "A NULL result for a non-zero size changes nothing" is false; see ReallocWraps. It holds
  // exactly for the sizes that can be aligned.
  lemma ReallocNullExactlyWhen(bs: seq<Block>, p: Ptr, bytes: nat, size: nat)
    requires HeapSize(size) && Wf(bs, HEADER, size + HEADER) && IsLive(bs, p, HEADER) && 0 < bytes < WORD_RANGE
    ensures var o := ReallocSpec(bs, p, bytes, size);
      (o.ptr.Null? ==> o.bs == bs) <==> bytes <= WORD_RANGE - 4
  {
    ReallocOutcome(bs, p, bytes, size);
  }

  // A live block is freed by a request for 2^32 - 1 bytes.
  lemma ReallocWraps()
    ensures var bs := [Block(0, 33, true), Block(33, 103, false)];
      && HeapSize(100) && Wf(bs, HEADER, 103) && IsLive(bs, At(HEADER), HEADER)
      && ReallocSpec(bs, At(HEADER), WORD_RANGE - 1, 100).ptr.Null?
      && Live(ReallocSpec(bs, At(HEADER), WORD_RANGE - 1, 100).bs) == {}
  {
    var bs := [Block(0, 33, true), Block(33, 103, false)];
    assert TileAt(bs, 0, HEADER, 103) && TileAt(bs, 1, HEADER, 103) && PairAt(bs, 0) && PairAt(bs, 1);
    assert bs[0] in Live(bs);
    assert Holds(bs, At(HEADER), bs[0], HEADER);
    HoldsOne(bs, At(HEADER), bs[0], 103, HEADER);
    ReallocOutcome(bs, At(HEADER), WORD_RANGE - 1, 100);
    assert Live(bs) == {bs[0]};
  }

  // ---- whole runs ----

  // What one caller does between taking the lock and releasing it. rt_realloc is at most two of
  // these, see ReallocIsSteps; Shrink is its locked region when it shrinks the block in place.
  datatype Call = Malloc(bytes: nat) | Free(ptr: Ptr) | Shrink(ptr: Ptr, n: nat)

  ghost predicate Legal(bs: seq<Block>, c: Call, size: nat) {
    match c
    case Malloc(bytes) => bytes < WORD_RANGE
    case Free(ptr) => Passable(bs, ptr, size)
    case Shrink(ptr, n) => IsLive(bs, ptr, HEADER) && 0 < n && n + HEADER + MIN_SIZE < Payload(BlockOf(bs, ptr, HEADER), HEADER)
  }

  ghost function Step(bs: seq<Block>, c: Call, size: nat): seq<Block>
    requires Legal(bs, c, size)
  {
    match c
    case Malloc(bytes) => MallocSpec(bs, bytes, size).bs
    case Free(ptr) => FreeSpec(bs, ptr)
    case Shrink(ptr, n) => Shrunk(bs, IndexOf(bs, BlockOf(bs, ptr, HEADER)), HEADER, n)
  }

  ghost predicate LegalRun(bs: seq<Block>, calls: seq<Call>, size: nat)
    decreases |calls|
  {
    calls == [] || (Legal(bs, calls[0], size) && LegalRun(Step(bs, calls[0], size), calls[1..], size))
  }

  ghost function Run(bs: seq<Block>, calls: seq<Call>, size: nat): seq<Block>
    requires LegalRun(bs, calls, size)
    decreases |calls|
  {
    if calls == [] then bs else Run(Step(bs, calls[0], size), calls[1..], size)
  }

  lemma StepKeeps(bs: seq<Block>, c: Call, size: nat)
    requires HeapSize(size) && Wf(bs, HEADER, size + HEADER) && Legal(bs, c, size)
    ensures Wf(Step(bs, c, size), HEADER, size + HEADER)
  {
    match c
    case Malloc(bytes) => MallocKeeps(bs, bytes, size);
    case Free(ptr) => FreeKeeps(bs, ptr, size);
    case Shrink(ptr, n) => ShrunkKeeps(bs, IndexOf(bs, BlockOf(bs, ptr, HEADER)), HEADER, n, size + HEADER);
  }

  // After any run of such calls, of any number of callers, the heap is again tiled exactly, in
  // canonical form.
  lemma {:induction false} RunKeepsForm(bs: seq<Block>, calls: seq<Call>, size: nat)
    requires HeapSize(size) && Wf(bs, HEADER, size + HEADER) && LegalRun(bs, calls, size)
    ensures Wf(Run(bs, calls, size), HEADER, size + HEADER)
    decreases |calls|
  {
    if calls != [] {
      StepKeeps(bs, calls[0], size);
      RunKeepsForm(Step(bs, calls[0], size), calls[1..], size);
    }
  }

  // ---- rt_realloc among other callers ----

  ghost function ReallocCalls(bs: seq<Block>, p: Ptr, bytes: nat, size: nat): seq<Call> {
    var n := AlignCells(bytes);
    if n > size then []
    else if n == 0 then [Free(p)]
    else if p.Null? then [Malloc(4 * n)]
    else if !IsLive(bs, p, HEADER) then []
    else
      var have := Payload(BlockOf(bs, p, HEADER), HEADER);
      if have == n then []
      else if n + HEADER + MIN_SIZE < have then [Shrink(p, n)]
      else if MallocSpec(bs, 4 * n, size).ptr.Null? then [Malloc(4 * n)]
      else [Malloc(4 * n), Free(p)]
  }

  lemma OneCall(bs: seq<Block>, c: Call, size: nat)
    requires Legal(bs, c, size)
    ensures LegalRun(bs, [c], size) && Run(bs, [c], size) == Step(bs, c, size)
  {
    assert [c][1..] == [];
  }

  lemma TwoCalls(bs: seq<Block>, c: Call, d: Call, size: nat)
    requires Legal(bs, c, size) && Legal(Step(bs, c, size), d, size)
    ensures LegalRun(bs, [c, d], size) && Run(bs, [c, d], size) == Step(Step(bs, c, size), d, size)
  {
    OneCall(Step(bs, c, size), d, size);
    assert [c, d][1..] == [d];
  }

  // rt_realloc is a sequence of at most two locked regions; rt_memcpy runs between them.
  lemma ReallocIsSteps(bs: seq<Block>, p: Ptr, bytes: nat, size: nat)
    requires HeapSize(size) && Wf(bs, HEADER, size + HEADER) && Passable(bs, p, size) && bytes < WORD_RANGE
    ensures var calls := ReallocCalls(bs, p, bytes, size);
      LegalRun(bs, calls, size) && Run(bs, calls, size) == ReallocSpec(bs, p, bytes, size).bs
  {
    var n, calls := AlignCells(bytes), ReallocCalls(bs, p, bytes, size);
    AlignWraps(bytes);
    if |calls| == 1 {
      OneCall(bs, calls[0], size);
    } else if |calls| == 2 {
      var b := BlockOf(bs, p, HEADER);
      HoldsOne(bs, p, b, size + HEADER, HEADER);
      StaysHeld(bs, p, b, Malloc(4 * n), size);
      TwoCalls(bs, Malloc(4 * n), Free(p), size);
    }
  }

  // The call is about another block than the one behind p.
  predicate Leaves(c: Call, p: Ptr) { c.Malloc? || c.ptr != p }

  // A live block stays, at its place and with its length, whatever others do.
  lemma StaysHeld(bs: seq<Block>, p: Ptr, b: Block, c: Call, size: nat)
    requires HeapSize(size) && Wf(bs, HEADER, size + HEADER) && Legal(bs, c, size)
    requires Holds(bs, p, b, HEADER) && Leaves(c, p)
    ensures Holds(Step(bs, c, size), p, b, HEADER)
  {
    match c
    case Malloc(bytes) => MallocKeeps(bs, bytes, size);
    case Free(ptr) => FreeKeeps(bs, ptr, size);
    case Shrink(ptr, n) => ShrunkKeeps(bs, IndexOf(bs, BlockOf(bs, ptr, HEADER)), HEADER, n, size + HEADER);
  }

  lemma {:induction false} RunStaysHeld(bs: seq<Block>, p: Ptr, b: Block, calls: seq<Call>, size: nat)
    requires HeapSize(size) && Wf(bs, HEADER, size + HEADER) && LegalRun(bs, calls, size)
    requires Holds(bs, p, b, HEADER) && forall i :: 0 <= i < |calls| ==> Leaves(calls[i], p)
    ensures Holds(Run(bs, calls, size), p, b, HEADER)
    decreases |calls|
  {
    if calls != [] {
      StepKeeps(bs, calls[0], size);
      StaysHeld(bs, p, b, calls[0], size);
      RunStaysHeld(Step(bs, calls[0], size), p, b, calls[1..], size);
    }
  }

  // rt_realloc that moves a block, with any calls of others between its rt_malloc and its rt_free:
  // during the copy both blocks are live and apart, and in the end exactly the old one is gone.
  lemma MoveAmongOthers(bs: seq<Block>, p: Ptr, b: Block, n: nat, others: seq<Call>, size: nat)
    requires HeapSize(size) && Wf(bs, HEADER, size + HEADER) && Holds(bs, p, b, HEADER) && 0 < n <= size
    requires MallocSpec(bs, 4 * n, size).ptr.At?
    requires var m := MallocSpec(bs, 4 * n, size);
      LegalRun(m.bs, others, size) && forall i :: 0 <= i < |others| ==> Leaves(others[i], p) && Leaves(others[i], m.ptr)
    ensures var m, nb := MallocSpec(bs, 4 * n, size), NewBlock(bs, 4 * n, size);
      var mid := Run(m.bs, others, size);
      var end := FreeSpec(mid, p);
      && Wf(mid, HEADER, size + HEADER) && Holds(mid, p, b, HEADER) && Holds(mid, m.ptr, nb, HEADER)
      && (nb.next <= b.at || b.next <= nb.at) && n <= Payload(nb, HEADER)
      && Wf(end, HEADER, size + HEADER) && Live(end) == Live(mid) - {b} && Holds(end, m.ptr, nb, HEADER)
  {
    hide MallocSpec, NewBlock, FreeSpec, Run, LegalRun, Coalesced;
    var m, nb := MallocSpec(bs, 4 * n, size), NewBlock(bs, 4 * n, size);
    AlignExact(n);
    MallocKeeps(bs, 4 * n, size);
    RunKeepsForm(m.bs, others, size);
    RunStaysHeld(m.bs, p, b, others, size);
    RunStaysHeld(m.bs, m.ptr, nb, others, size);
    var mid := Run(m.bs, others, size);
    LiveDisjoint(mid, HEADER, size + HEADER, b, nb);
    HoldsOne(mid, p, b, size + HEADER, HEADER);
    FreeKeeps(mid, p, size);
  }

  ghost function Frees(ps: seq<Ptr>): seq<Call> {
    seq(|ps|, k requires 0 <= k < |ps| => Free(ps[k]))
  }

  lemma FreeFirst(bs: seq<Block>, ps: seq<Ptr>, size: nat)
    requires Wf(bs, HEADER, size + HEADER) && ListsLive(bs, ps, HEADER) && ps != []
    ensures ListsLive(FreeSpec(bs, ps[0]), ps[1..], HEADER)
  {
    FreeKeeps(bs, ps[0], size);
    HoldsOne(bs, ps[0], BlockOf(bs, ps[0], HEADER), size + HEADER, HEADER);
    ListRest(bs, FreeSpec(bs, ps[0]), ps, BlockOf(bs, ps[0], HEADER), HEADER);
  }

  lemma FreesUnfold(bs: seq<Block>, ps: seq<Ptr>, size: nat)
    requires ps != [] && IsLive(bs, ps[0], HEADER)
    ensures LegalRun(bs, Frees(ps), size) <==> LegalRun(FreeSpec(bs, ps[0]), Frees(ps[1..]), size)
    ensures LegalRun(bs, Frees(ps), size) ==> Run(bs, Frees(ps), size) == Run(FreeSpec(bs, ps[0]), Frees(ps[1..]), size)
  {
    assert Frees(ps)[0] == Free(ps[0]) && Frees(ps)[1..] == Frees(ps[1..]);
  }

  lemma NoneListed(bs: seq<Block>, size: nat)
    requires Wf(bs, HEADER, size + HEADER) && ListsLive(bs, [], HEADER)
    ensures bs == [Block(0, size + HEADER, false)] && UsedCells(bs) == 0 && Lowest(bs, 0)
  {
    assert forall b :: b in Live(bs) ==> At(b.at + HEADER) in [];
    NothingLive(bs, HEADER, size + HEADER);
  }

  // Freeing everything that is live, in any order, restores the initial heap: one free
  // block from 0 to the end, nothing used, and the lowest free block at 0.
  lemma {:induction false} FreeAllRestores(bs: seq<Block>, ps: seq<Ptr>, size: nat)
    requires Wf(bs, HEADER, size + HEADER) && ListsLive(bs, ps, HEADER)
    ensures LegalRun(bs, Frees(ps), size)
    ensures var r := Run(bs, Frees(ps), size);
      r == [Block(0, size + HEADER, false)] && UsedCells(r) == 0 && Lowest(r, 0)
    decreases |ps|
  {
    if ps == [] {
      NoneListed(bs, size);
    } else {
      FreeFirst(bs, ps, size);
      FreeKeeps(bs, ps[0], size);
      FreesUnfold(bs, ps, size);
      hide Wf, ListsLive, LegalRun, Run, FreeSpec;
      FreeAllRestores(FreeSpec(bs, ps[0]), ps[1..], size);
    }
  }
}
