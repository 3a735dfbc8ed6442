// The block list of an in-band heap, as a value. A heap region [0, end) is cut into
// blocks; a block starts with a header of `h` cells, followed by its payload.
// Both the small-memory heap (mem.c) and the memheap (memheap.c) refine this view.
module Blocks {

  datatype Block = Block(at: nat, next: nat, used: bool)

  function Payload(b: Block, h: nat): int { b.next - (b.at + h) }

  // Block i starts where its predecessor ends (the first at 0), has a non-empty payload,
  // and the last block ends at `end`.
  ghost predicate TileAt(bs: seq<Block>, i: nat, h: nat, end: nat)
    requires i < |bs|
  {
    && bs[i].at + h < bs[i].next
    && bs[i].at == (if i == 0 then 0 else bs[i - 1].next)
    && (i + 1 == |bs| ==> bs[i].next == end)
  }

  // The blocks cover [0, end) exactly, in address order.
  ghost predicate Tiles(bs: seq<Block>, h: nat, end: nat) {
    |bs| > 0 && forall i :: 0 <= i < |bs| ==> TileAt(bs, i, h, end)
  }

  ghost predicate PairAt(bs: seq<Block>, i: nat)
    requires i < |bs|
  {
    i + 1 < |bs| ==> bs[i].used || bs[i + 1].used
  }

  // No two neighbouring blocks are both free.
  ghost predicate Coalesced(bs: seq<Block>) {
    forall i :: 0 <= i < |bs| ==> PairAt(bs, i)
  }

  // The canonical form: a tiling with no two neighbouring free blocks.
  ghost predicate Wf(bs: seq<Block>, h: nat, end: nat) {
    Tiles(bs, h, end) && Coalesced(bs)
  }

  // Canonical except that the free block k may have free neighbours.
  ghost predicate WfBut(bs: seq<Block>, k: nat, h: nat, end: nat) {
    && Tiles(bs, h, end)
    && k < |bs| && !bs[k].used
    && forall i :: 0 <= i < |bs| && i != k && i + 1 != k ==> PairAt(bs, i)
  }

  ghost function Live(bs: seq<Block>): set<Block> {
    set b | b in bs && b.used
  }

  function Len(b: Block): int { b.next - b.at }

  // Total length, headers included, of the used blocks.
  ghost function UsedCells(bs: seq<Block>): int {
    if |bs| == 0 then 0
    else UsedCells(bs[..|bs| - 1]) + (if bs[|bs| - 1].used then Len(bs[|bs| - 1]) else 0)
  }

  // Total payload of the free blocks.
  ghost function FreeCells(bs: seq<Block>, h: nat): int {
    if |bs| == 0 then 0
    else FreeCells(bs[..|bs| - 1], h) + (if bs[|bs| - 1].used then 0 else Payload(bs[|bs| - 1], h))
  }

  // ---- the rewrites every operation is made of ----

  function Mark(bs: seq<Block>, i: nat, used: bool): seq<Block>
    requires i < |bs|
  {
    bs[i := bs[i].(used := used)]
  }

  // Cut block i so that it keeps `req` payload cells; the rest becomes a free block.
  function Split(bs: seq<Block>, i: nat, h: nat, req: nat): seq<Block>
    requires i < |bs|
  {
    bs[..i]
    + [Block(bs[i].at, bs[i].at + h + req, bs[i].used), Block(bs[i].at + h + req, bs[i].next, false)]
    + bs[i + 1..]
  }

  // Fuse block i with its successor.
  function Merge(bs: seq<Block>, i: nat): seq<Block>
    requires i + 1 < |bs|
  {
    bs[..i] + [Block(bs[i].at, bs[i + 1].next, bs[i].used)] + bs[i + 2..]
  }

  function MergeNext(bs: seq<Block>, i: nat): seq<Block>
    requires i < |bs|
  {
    if i + 1 < |bs| && !bs[i + 1].used then Merge(bs, i) else bs
  }

  function MergePrev(bs: seq<Block>, i: nat): seq<Block>
    requires i < |bs|
  {
    if i > 0 && !bs[i - 1].used then Merge(bs, i - 1) else bs
  }

  // Fuse the free block i with every free neighbour.
  function Plug(bs: seq<Block>, i: nat): seq<Block>
    requires i < |bs|
  {
    MergePrev(MergeNext(bs, i), i)
  }

  function Freed(bs: seq<Block>, i: nat): seq<Block>
    requires i < |bs|
  {
    Plug(Mark(bs, i, false), i)
  }

  // Give out block i for a request of `req` cells: split when a further block of at
  // least `min` payload cells still fits behind, else hand out the whole block.
  function Carve(bs: seq<Block>, i: nat, h: nat, req: nat, min: nat): seq<Block>
    requires i < |bs|
  {
    if Payload(bs[i], h) >= req + h + min then Mark(Split(bs, i, h, req), i, true) else Mark(bs, i, true)
  }

  // Give back the tail of the used block i, keeping `req` cells.
  function Shrunk(bs: seq<Block>, i: nat, h: nat, req: nat): seq<Block>
    requires i < |bs|
  {
    MergeNext(Split(bs, i, h, req), i + 1)
  }

  // ---- order ----

  lemma {:induction false} Order(bs: seq<Block>, i: nat, j: nat, h: nat, end: nat)
    requires Tiles(bs, h, end) && i < j < |bs|
    ensures bs[i].next <= bs[j].at
    decreases j
  {
    assert TileAt(bs, j, h, end);
    if i + 1 < j {
      Order(bs, i, j - 1, h, end);
      assert TileAt(bs, j - 1, h, end);
    }
  }

  lemma {:induction false} Within(bs: seq<Block>, i: nat, h: nat, end: nat)
    requires Tiles(bs, h, end) && i < |bs|
    ensures bs[i].at + h < bs[i].next <= end
    ensures if i + 1 < |bs| then bs[i].next + h < end else bs[i].next == end
  {
    assert TileAt(bs, i, h, end);
    var l := |bs| - 1;
    assert TileAt(bs, l, h, end);
    if i < l {
      Order(bs, i, l, h, end);
    }
  }

  lemma SameAddress(bs: seq<Block>, i: nat, j: nat, h: nat, end: nat)
    requires Tiles(bs, h, end) && i < |bs| && j < |bs| && bs[i].at == bs[j].at
    ensures i == j
  {
    assert TileAt(bs, i, h, end) && TileAt(bs, j, h, end);
    if i < j {
      Order(bs, i, j, h, end);
    } else if j < i {
      Order(bs, j, i, h, end);
    }
  }

  // Two live blocks never overlap.
  lemma LiveDisjoint(bs: seq<Block>, h: nat, end: nat, a: Block, b: Block)
    requires Tiles(bs, h, end) && a in Live(bs) && b in Live(bs) && a != b
    ensures a.next <= b.at || b.next <= a.at
  {
    var i :| 0 <= i < |bs| && bs[i] == a;
    var j :| 0 <= j < |bs| && bs[j] == b;
    if i < j {
      Order(bs, i, j, h, end);
    } else {
      Order(bs, j, i, h, end);
    }
  }

  // ---- sums ----

  lemma {:induction false} SumsAppend(a: seq<Block>, b: seq<Block>, h: nat)
    ensures UsedCells(a + b) == UsedCells(a) + UsedCells(b)
    ensures FreeCells(a + b, h) == FreeCells(a, h) + FreeCells(b, h)
  {
    if b == [] {
      assert a + b == a;
    } else {
      assert (a + b)[..|a + b| - 1] == a + b[..|b| - 1];
      SumsAppend(a, b[..|b| - 1], h);
    }
  }

  lemma Sums1(b: Block, h: nat)
    ensures UsedCells([b]) == if b.used then Len(b) else 0
    ensures FreeCells([b], h) == if b.used then 0 else Payload(b, h)
  {
    assert [b][..0] == [];
  }

  lemma SumsCut(bs: seq<Block>, i: nat, n: nat, mid: seq<Block>, h: nat)
    requires i + n <= |bs|
    ensures UsedCells(bs[..i] + mid + bs[i + n..]) == UsedCells(bs) - UsedCells(bs[i..i + n]) + UsedCells(mid)
    ensures FreeCells(bs[..i] + mid + bs[i + n..], h) == FreeCells(bs, h) - FreeCells(bs[i..i + n], h) + FreeCells(mid, h)
  {
    assert bs == bs[..i] + bs[i..i + n] + bs[i + n..];
    SumsAppend(bs[..i] + bs[i..i + n], bs[i + n..], h);
    SumsAppend(bs[..i], bs[i..i + n], h);
    SumsAppend(bs[..i] + mid, bs[i + n..], h);
    SumsAppend(bs[..i], mid, h);
  }

  lemma MarkSums(bs: seq<Block>, i: nat, used: bool, h: nat)
    requires i < |bs|
    ensures UsedCells(Mark(bs, i, used)) ==
            UsedCells(bs) + (if used then Len(bs[i]) else 0) - (if bs[i].used then Len(bs[i]) else 0)
    ensures FreeCells(Mark(bs, i, used), h) ==
            FreeCells(bs, h) + (if used then 0 else Payload(bs[i], h)) - (if bs[i].used then 0 else Payload(bs[i], h))
  {
    var b := bs[i].(used := used);
    assert Mark(bs, i, used) == bs[..i] + [b] + bs[i + 1..];
    assert bs[i..i + 1] == [bs[i]];
    SumsCut(bs, i, 1, [b], h);
    Sums1(b, h);
    Sums1(bs[i], h);
  }

  lemma SplitSums(bs: seq<Block>, i: nat, h: nat, req: nat)
    requires i < |bs|
    ensures UsedCells(Split(bs, i, h, req)) == UsedCells(bs) - (if bs[i].used then Payload(bs[i], h) - req else 0)
    ensures FreeCells(Split(bs, i, h, req), h) ==
            FreeCells(bs, h) + (if bs[i].used then Payload(bs[i], h) - req - h else 0 - h)
  {
    var b, p := bs[i], bs[i].at + h + req;
    var mid := [Block(b.at, p, b.used), Block(p, b.next, false)];
    assert bs[i..i + 1] == [b];
    SumsCut(bs, i, 1, mid, h);
    Sums1(b, h);
    Sums1(mid[0], h);
    Sums1(mid[1], h);
    assert mid == [mid[0]] + [mid[1]];
    SumsAppend([mid[0]], [mid[1]], h);
  }

  lemma MergeSums(bs: seq<Block>, i: nat, h: nat)
    requires i + 1 < |bs| && !bs[i].used && !bs[i + 1].used && bs[i].next == bs[i + 1].at
    ensures UsedCells(Merge(bs, i)) == UsedCells(bs)
    ensures FreeCells(Merge(bs, i), h) == FreeCells(bs, h) + h
  {
    var b := Block(bs[i].at, bs[i + 1].next, false);
    assert bs[i..i + 2] == [bs[i]] + [bs[i + 1]];
    SumsCut(bs, i, 2, [b], h);
    SumsAppend([bs[i]], [bs[i + 1]], h);
    Sums1(b, h);
    Sums1(bs[i], h);
    Sums1(bs[i + 1], h);
  }

  // ---- what each rewrite keeps ----

  lemma SplitTiles(bs: seq<Block>, i: nat, h: nat, req: nat, end: nat)
    requires i < |bs| && Tiles(bs, h, end) && 0 < req && req + h < Payload(bs[i], h)
    ensures Tiles(Split(bs, i, h, req), h, end)
  {
    var r := Split(bs, i, h, req);
    forall j | 0 <= j < |r|
      ensures TileAt(r, j, h, end)
    {
      assert TileAt(bs, if j <= i then j else j - 1, h, end);
    }
  }

  lemma MergeTiles(bs: seq<Block>, i: nat, h: nat, end: nat)
    requires i + 1 < |bs| && Tiles(bs, h, end)
    ensures Tiles(Merge(bs, i), h, end)
  {
    var r := Merge(bs, i);
    forall j | 0 <= j < |r|
      ensures TileAt(r, j, h, end)
    {
      assert TileAt(bs, if j <= i then j else j + 1, h, end);
      assert j == i ==> TileAt(bs, i + 1, h, end);
    }
  }

  lemma MarkTiles(bs: seq<Block>, i: nat, used: bool, h: nat, end: nat)
    requires i < |bs| && Tiles(bs, h, end)
    ensures Tiles(Mark(bs, i, used), h, end)
  {
    forall j | 0 <= j < |bs|
      ensures TileAt(Mark(bs, i, used), j, h, end)
    {
      assert TileAt(bs, j, h, end);
    }
  }

  // Replacing one block by another one at the same address changes the live set there only.
  lemma LiveCut(a: seq<Block>, b: Block, mid: seq<Block>, c: seq<Block>, h: nat, end: nat)
    requires Tiles(a + [b] + c, h, end)
    ensures Live(a + mid + c) == Live(a + [b] + c) - {b} + Live(mid)
  {
    var bs := a + [b] + c;
    assert bs[|a|] == b;
    forall x | x in a || x in c
      ensures x != b && x in bs
    {
      if x in a {
        var k :| 0 <= k < |a| && a[k] == x;
        assert bs[k] == x;
        if x == b { SameAddress(bs, k, |a|, h, end); }
      } else {
        var k :| 0 <= k < |c| && c[k] == x;
        assert bs[|a| + 1 + k] == x;
        if x == b { SameAddress(bs, |a| + 1 + k, |a|, h, end); }
      }
    }
  }

  lemma MarkLive(bs: seq<Block>, i: nat, used: bool, h: nat, end: nat)
    requires i < |bs| && Tiles(bs, h, end)
    ensures Live(Mark(bs, i, used)) == Live(bs) - {bs[i]} + (if used then {bs[i].(used := true)} else {})
  {
    var b := bs[i].(used := used);
    assert bs == bs[..i] + [bs[i]] + bs[i + 1..];
    assert Mark(bs, i, used) == bs[..i] + [b] + bs[i + 1..];
    LiveCut(bs[..i], bs[i], [b], bs[i + 1..], h, end);
    assert Live([b]) == if used then {b} else {};
  }

  lemma SplitLive(bs: seq<Block>, i: nat, h: nat, req: nat, end: nat)
    requires i < |bs| && Tiles(bs, h, end)
    ensures Live(Split(bs, i, h, req)) ==
            Live(bs) - {bs[i]} + (if bs[i].used then {Block(bs[i].at, bs[i].at + h + req, true)} else {})
  {
    var b, p := bs[i], bs[i].at + h + req;
    var mid := [Block(b.at, p, b.used), Block(p, b.next, false)];
    assert bs == bs[..i] + [b] + bs[i + 1..];
    LiveCut(bs[..i], b, mid, bs[i + 1..], h, end);
    assert Live(mid) == if b.used then {mid[0]} else {};
  }

  lemma MergeLive(bs: seq<Block>, i: nat)
    requires i + 1 < |bs| && !bs[i].used && !bs[i + 1].used
    ensures Live(Merge(bs, i)) == Live(bs)
  {
    assert bs == bs[..i] + [bs[i], bs[i + 1]] + bs[i + 2..];
  }

  lemma MergeKeeps(bs: seq<Block>, i: nat, h: nat, end: nat)
    requires Tiles(bs, h, end) && i + 1 < |bs| && !bs[i].used && !bs[i + 1].used
    ensures Tiles(Merge(bs, i), h, end)
    ensures UsedCells(Merge(bs, i)) == UsedCells(bs) && Live(Merge(bs, i)) == Live(bs)
    ensures FreeCells(Merge(bs, i), h) == FreeCells(bs, h) + h
  {
    assert TileAt(bs, i + 1, h, end);
    MergeTiles(bs, i, h, end);
    MergeSums(bs, i, h);
    MergeLive(bs, i);
  }

  lemma MergeNextKeeps(bs: seq<Block>, i: nat, h: nat, end: nat)
    requires WfBut(bs, i, h, end)
    ensures var r := MergeNext(bs, i);
      && WfBut(r, i, h, end) && (i + 1 < |r| ==> r[i + 1].used)
      && UsedCells(r) == UsedCells(bs) && Live(r) == Live(bs)
  {
    var r := MergeNext(bs, i);
    if i + 1 < |bs| && !bs[i + 1].used {
      MergeKeeps(bs, i, h, end);
      assert PairAt(bs, i + 1);
      forall j | 0 <= j < |r| && j != i && j + 1 != i
        ensures PairAt(r, j)
      {
        assert PairAt(bs, if j < i then j else j + 1);
      }
    }
  }

  lemma MergePrevCoalesced(bs: seq<Block>, i: nat, h: nat, end: nat)
    requires WfBut(bs, i, h, end) && (i + 1 < |bs| ==> bs[i + 1].used)
    ensures Coalesced(MergePrev(bs, i))
  {
    var r := MergePrev(bs, i);
    forall j | 0 <= j < |r|
      ensures PairAt(r, j)
    {
      if |r| == |bs| {
        assert j != i && j + 1 != i ==> PairAt(bs, j);
      } else if j + 1 < i {
        assert PairAt(bs, j);
      } else if j >= i {
        assert PairAt(bs, j + 1);
      }
    }
  }

  lemma MergePrevKeeps(bs: seq<Block>, i: nat, h: nat, end: nat)
    requires WfBut(bs, i, h, end) && (i + 1 < |bs| ==> bs[i + 1].used)
    ensures var r := MergePrev(bs, i);
      && Wf(r, h, end) && UsedCells(r) == UsedCells(bs) && Live(r) == Live(bs)
  {
    MergePrevCoalesced(bs, i, h, end);
    if i > 0 && !bs[i - 1].used {
      MergeKeeps(bs, i - 1, h, end);
    }
  }

  // Plugging a freshly freed block restores the canonical form, keeps the used blocks
  // and so keeps the used total.
  lemma PlugKeeps(bs: seq<Block>, i: nat, h: nat, end: nat)
    requires WfBut(bs, i, h, end)
    ensures Wf(Plug(bs, i), h, end)
    ensures UsedCells(Plug(bs, i)) == UsedCells(bs)
    ensures Live(Plug(bs, i)) == Live(bs)
  {
    MergeNextKeeps(bs, i, h, end);
    MergePrevKeeps(MergeNext(bs, i), i, h, end);
  }

  // ---- what each operation keeps and changes ----

  // Handing out block i: the canonical form stays, exactly one block becomes live, it has
  // room for the request and starts where block i started.
  lemma CarveKeeps(bs: seq<Block>, i: nat, h: nat, req: nat, min: nat, end: nat)
    requires i < |bs| && Wf(bs, h, end) && !bs[i].used && 0 < req <= Payload(bs[i], h) && 0 < min
    ensures var r := Carve(bs, i, h, req, min);
      && Wf(r, h, end) && i < |r| && r[i].at == bs[i].at && r[i].used
      && req <= Payload(r[i], h) && r[i].next <= bs[i].next
      && Live(r) == Live(bs) + {r[i]}
      && UsedCells(r) == UsedCells(bs) + Len(r[i])
      && FreeCells(r, h) == FreeCells(bs, h) - (if r[i].next == bs[i].next then Payload(r[i], h) else Len(r[i]))
  {
    var s := if Payload(bs[i], h) >= req + h + min then Split(bs, i, h, req) else bs;
    assert bs[i] !in Live(bs) && s[i] !in Live(bs);
    if Payload(bs[i], h) >= req + h + min {
      SplitTiles(bs, i, h, req, end);
      SplitSums(bs, i, h, req);
      SplitLive(bs, i, h, req, end);
    }
    MarkTiles(s, i, true, h, end);
    MarkLive(s, i, true, h, end);
    MarkSums(s, i, true, h);
    CarveCoalesced(bs, i, h, req, min);
  }

  // Block b was cut off the front of the free block f: to size, with a free block behind it, if f
  // was large enough for both, and else all of it.
  ghost predicate CutFrom(f: Block, b: Block, r: seq<Block>, h: nat, req: nat, min: nat) {
    && b.at == f.at
    && if Payload(f, h) >= req + h + min then Payload(b, h) == req && Block(b.next, f.next, false) in r else b.next == f.next
  }

  lemma CarveCuts(bs: seq<Block>, i: nat, h: nat, req: nat, min: nat)
    requires i < |bs| && req <= Payload(bs[i], h) && 0 < min
    ensures var r := Carve(bs, i, h, req, min);
      i < |r| && CutFrom(bs[i], r[i], r, h, req, min) && Payload(r[i], h) < req + h + min
  {
    var r := Carve(bs, i, h, req, min);
    assert Payload(bs[i], h) >= req + h + min ==> r[i + 1] == Block(r[i].next, bs[i].next, false);
  }

  lemma CarveCoalesced(bs: seq<Block>, i: nat, h: nat, req: nat, min: nat)
    requires i < |bs| && Coalesced(bs) && !bs[i].used
    ensures Coalesced(Carve(bs, i, h, req, min))
  {
    var r := Carve(bs, i, h, req, min);
    forall j | 0 <= j < |r|
      ensures PairAt(r, j)
    {
      assert PairAt(bs, if |r| == |bs| || j < i then j else if j == i then i else j - 1);
    }
  }

  // Freeing block i: the canonical form stays and exactly that block stops being live.
  lemma FreedKeeps(bs: seq<Block>, i: nat, h: nat, end: nat)
    requires i < |bs| && Wf(bs, h, end) && bs[i].used
    ensures var r := Freed(bs, i);
      && Wf(r, h, end) && Live(r) == Live(bs) - {bs[i]} && UsedCells(r) == UsedCells(bs) - Len(bs[i])
  {
    MarkTiles(bs, i, false, h, end);
    MarkLive(bs, i, false, h, end);
    MarkSums(bs, i, false, h);
    MarkWfBut(bs, i, h, end);
    PlugKeeps(Mark(bs, i, false), i, h, end);
  }

  lemma MarkWfBut(bs: seq<Block>, i: nat, h: nat, end: nat)
    requires i < |bs| && Wf(bs, h, end)
    ensures WfBut(Mark(bs, i, false), i, h, end)
  {
    MarkTiles(bs, i, false, h, end);
    forall j | 0 <= j < |bs| && j != i && j + 1 != i
      ensures PairAt(Mark(bs, i, false), j)
    {
      assert PairAt(bs, j);
    }
  }

  // Shrinking block i in place: it keeps its address and `req` cells, nothing else that is
  // live changes.
  lemma ShrunkKeeps(bs: seq<Block>, i: nat, h: nat, req: nat, end: nat)
    requires i < |bs| && Wf(bs, h, end) && bs[i].used && 0 < req && req + h < Payload(bs[i], h)
    ensures var r := Shrunk(bs, i, h, req);
      && Wf(r, h, end)
      && Live(r) == Live(bs) - {bs[i]} + {Block(bs[i].at, bs[i].at + h + req, true)}
      && UsedCells(r) == UsedCells(bs) - (Payload(bs[i], h) - req)
  {
    var s := Split(bs, i, h, req);
    SplitSums(bs, i, h, req);
    SplitLive(bs, i, h, req, end);
    SplitWfBut(bs, i, h, req, end);
    MergeNextKeeps(s, i + 1, h, end);
    MergePrevKeeps(MergeNext(s, i + 1), i + 1, h, end);
  }

  lemma SplitWfBut(bs: seq<Block>, i: nat, h: nat, req: nat, end: nat)
    requires i < |bs| && Wf(bs, h, end) && bs[i].used && 0 < req && req + h < Payload(bs[i], h)
    ensures WfBut(Split(bs, i, h, req), i + 1, h, end)
  {
    var r := Split(bs, i, h, req);
    SplitTiles(bs, i, h, req, end);
    forall j | 0 <= j < |r| && j != i + 1 && j != i
      ensures PairAt(r, j)
    {
      assert PairAt(bs, if j < i then j else j - 1);
    }
  }

  // With nothing live the whole region is one free block, and conversely.
  lemma NothingLive(bs: seq<Block>, h: nat, end: nat)
    requires Wf(bs, h, end)
    ensures Live(bs) == {} <==> bs == [Block(0, end, false)]
    ensures Live(bs) == {} ==> UsedCells(bs) == 0
  {
    assert forall i :: 0 <= i < |bs| && bs[i].used ==> bs[i] in Live(bs);
    assert TileAt(bs, 0, h, end) && PairAt(bs, 0);
    Sums1(bs[0], h);
  }

  // ---- free payload ----

  lemma MergeNextFree(bs: seq<Block>, i: nat, h: nat, end: nat)
    requires Tiles(bs, h, end) && i < |bs| && !bs[i].used
    ensures FreeCells(MergeNext(bs, i), h) == FreeCells(bs, h) + (if i + 1 < |bs| && !bs[i + 1].used then h else 0)
  {
    if i + 1 < |bs| && !bs[i + 1].used {
      MergeKeeps(bs, i, h, end);
    }
  }

  // Each fused neighbour turns its header into payload.
  lemma FreedFree(bs: seq<Block>, i: nat, h: nat, end: nat)
    requires i < |bs| && Wf(bs, h, end) && bs[i].used
    ensures FreeCells(Freed(bs, i), h) == FreeCells(bs, h) + Payload(bs[i], h)
                                          + (if i > 0 && !bs[i - 1].used then h else 0)
                                          + (if i + 1 < |bs| && !bs[i + 1].used then h else 0)
  {
    var s := Mark(bs, i, false);
    MarkTiles(bs, i, false, h, end);
    MarkSums(bs, i, false, h);
    MergeNextFree(s, i, h, end);
    MarkWfBut(bs, i, h, end);
    MergeNextKeeps(s, i, h, end);
    if i > 0 && !bs[i - 1].used {
      MergeKeeps(MergeNext(s, i), i - 1, h, end);
    }
  }

  lemma ShrunkFree(bs: seq<Block>, i: nat, h: nat, req: nat, end: nat)
    requires i < |bs| && Wf(bs, h, end) && bs[i].used && 0 < req && req + h < Payload(bs[i], h)
    ensures FreeCells(Shrunk(bs, i, h, req), h) == FreeCells(bs, h) + Payload(bs[i], h) - req - h
                                                   + (if i + 1 < |bs| && !bs[i + 1].used then h else 0)
  {
    SplitTiles(bs, i, h, req, end);
    SplitSums(bs, i, h, req);
    MergeNextFree(Split(bs, i, h, req), i + 1, h, end);
  }

  // The used block i takes cells from the free block behind it, until it has `req`.
  function Grown(bs: seq<Block>, i: nat, h: nat, req: nat): seq<Block>
    requires i + 1 < |bs|
  {
    bs[..i]
    + [Block(bs[i].at, bs[i].at + h + req, bs[i].used), Block(bs[i].at + h + req, bs[i + 1].next, false)]
    + bs[i + 2..]
  }

  // Growing block i in place: it keeps its address, everything else that is live stays, and
  // the free payload shrinks by what it gained.
  lemma GrownKeeps(bs: seq<Block>, i: nat, h: nat, req: nat, end: nat)
    requires i + 1 < |bs| && Wf(bs, h, end) && bs[i].used && !bs[i + 1].used
    requires Payload(bs[i], h) < req < Payload(bs[i], h) + Payload(bs[i + 1], h)
    ensures var r := Grown(bs, i, h, req);
      && Wf(r, h, end)
      && Live(r) == Live(bs) - {bs[i]} + {r[i]}
      && FreeCells(r, h) == FreeCells(bs, h) - (req - Payload(bs[i], h))
  {
    GrownTiles(bs, i, h, req, end);
    GrownLive(bs, i, h, req, end);
    var r := Grown(bs, i, h, req);
    var mid := [r[i], r[i + 1]];
    SumsCut(bs, i, 2, mid, h);
    assert bs[i..i + 2] == [bs[i]] + [bs[i + 1]] && mid == [r[i]] + [r[i + 1]];
    SumsAppend([bs[i]], [bs[i + 1]], h);
    SumsAppend([r[i]], [r[i + 1]], h);
    Sums1(bs[i], h);
    Sums1(bs[i + 1], h);
    Sums1(r[i], h);
    Sums1(r[i + 1], h);
    assert TileAt(bs, i + 1, h, end);
  }

  lemma GrownTiles(bs: seq<Block>, i: nat, h: nat, req: nat, end: nat)
    requires i + 1 < |bs| && Wf(bs, h, end) && bs[i].used && !bs[i + 1].used
    requires Payload(bs[i], h) < req < Payload(bs[i], h) + Payload(bs[i + 1], h)
    ensures Wf(Grown(bs, i, h, req), h, end)
  {
    var r := Grown(bs, i, h, req);
    assert TileAt(bs, i, h, end) && TileAt(bs, i + 1, h, end) && PairAt(bs, i + 1);
    forall j | 0 <= j < |r|
      ensures TileAt(r, j, h, end) && PairAt(r, j)
    {
      assert TileAt(bs, j, h, end) && PairAt(bs, j);
    }
  }

  lemma GrownLive(bs: seq<Block>, i: nat, h: nat, req: nat, end: nat)
    requires i + 1 < |bs| && Tiles(bs, h, end) && bs[i].used && !bs[i + 1].used
    ensures Live(Grown(bs, i, h, req)) == Live(bs) - {bs[i]} + {Block(bs[i].at, bs[i].at + h + req, true)}
  {
    var mid := [Block(bs[i].at, bs[i].at + h + req, true), Block(bs[i].at + h + req, bs[i + 1].next, false)];
    assert bs == bs[..i] + [bs[i]] + bs[i + 1..];
    LiveCut(bs[..i], bs[i], mid, bs[i + 1..], h, end);
    assert Live(mid) == {mid[0]};
    assert bs[i + 1..] == [bs[i + 1]] + bs[i + 2..];
    assert forall b :: b in bs[i + 1..] && b.used <==> b in bs[i + 2..] && b.used;
    assert Live(bs[..i] + mid + bs[i + 1..]) == Live(Grown(bs, i, h, req));
  }
}
