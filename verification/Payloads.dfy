// Pointers into an in-band heap and the contents behind them. A pointer holds the first
// payload cell of a block; headers have `h` cells. Used by both mem.c and memheap.c.
module Payloads {
  import opened Words
  import opened Blocks

  datatype Ptr = Null | At(cell: int)

  // RT_ALIGN(bytes, 4), in cells; the addition wraps in rt_size_t.
  function AlignCells(bytes: nat): nat { ((bytes + 3) % WORD_RANGE) / 4 }

  lemma AlignExact(n: nat)
    requires 4 * n + 3 < WORD_RANGE
    ensures AlignCells(4 * n) == n
  {
  }

  // Aligning rounds up, except that the last three sizes wrap around to 0.
  lemma AlignWraps(bytes: nat)
    requires bytes < WORD_RANGE
    ensures AlignCells(bytes) > 0 <==> 0 < bytes <= WORD_RANGE - 4
    ensures bytes <= WORD_RANGE - 4 ==> bytes <= 4 * AlignCells(bytes) < bytes + 4
    ensures 4 * AlignCells(bytes) < WORD_RANGE
  {
  }

  function Least(a: int, b: int): int { if a < b then a else b }

  // The payload of b reads the same in both memories.
  ghost predicate SamePayload(m: seq<int>, m': seq<int>, b: Block, h: nat) {
    |m| == |m'| && forall k :: b.at + h <= k < b.next && k < |m| ==> m'[k] == m[k]
  }

  ghost predicate LiveKept(m: seq<int>, m': seq<int>, live: set<Block>, h: nat) {
    forall b :: b in live ==> SamePayload(m, m', b, h)
  }

  lemma LiveKeptTrans(m: seq<int>, m1: seq<int>, m2: seq<int>, live: set<Block>, live1: set<Block>, h: nat)
    requires LiveKept(m, m1, live, h) && LiveKept(m1, m2, live1, h) && live <= live1
    ensures LiveKept(m, m2, live, h)
  {
    forall b | b in live
      ensures SamePayload(m, m2, b, h)
    {
      assert SamePayload(m, m1, b, h) && SamePayload(m1, m2, b, h);
    }
  }

  // p points to the payload of the live block b.
  ghost predicate Holds(bs: seq<Block>, p: Ptr, b: Block, h: nat) {
    b in Live(bs) && p == At(b.at + h)
  }

  ghost predicate IsLive(bs: seq<Block>, p: Ptr, h: nat) {
    exists b :: Holds(bs, p, b, h)
  }

  ghost function BlockOf(bs: seq<Block>, p: Ptr, h: nat): (b: Block)
    requires IsLive(bs, p, h)
    ensures Holds(bs, p, b, h)
  {
    var b :| Holds(bs, p, b, h);
    b
  }

  ghost function IndexOf(bs: seq<Block>, b: Block): (i: nat)
    requires b in bs
    ensures i < |bs| && bs[i] == b
  {
    var i: nat :| i < |bs| && bs[i] == b;
    i
  }

  lemma HoldsOne(bs: seq<Block>, p: Ptr, b: Block, end: nat, h: nat)
    requires Tiles(bs, h, end) && Holds(bs, p, b, h)
    ensures IsLive(bs, p, h) && BlockOf(bs, p, h) == b
    ensures h <= p.cell < b.next <= end
    ensures forall x :: Holds(bs, p, x, h) ==> x == b
  {
    Within(bs, IndexOf(bs, b), h, end);
    forall x | Holds(bs, p, x, h)
      ensures x == b
    {
      SameAddress(bs, IndexOf(bs, b), IndexOf(bs, x), h, end);
    }
  }

  lemma FreeIsNotLive(bs: seq<Block>, i: nat, end: nat, h: nat)
    requires Tiles(bs, h, end) && i < |bs| && !bs[i].used
    ensures !IsLive(bs, At(bs[i].at + h), h)
  {
    forall b | b in Live(bs)
      ensures !Holds(bs, At(bs[i].at + h), b, h)
    {
      if b.at == bs[i].at {
        SameAddress(bs, i, IndexOf(bs, b), h, end);
      }
    }
  }

  // Two live blocks: the first n cells of their payloads do not overlap.
  lemma PayloadsApart(bs: seq<Block>, p: Ptr, r: Ptr, b: Block, c: Block, n: nat, end: nat, h: nat)
    requires Tiles(bs, h, end) && Holds(bs, p, b, h) && Holds(bs, r, c, h) && b != c
    requires n <= Payload(b, h) && n <= Payload(c, h)
    ensures h <= p.cell && p.cell + n <= end && h <= r.cell && r.cell + n <= end
    ensures r.cell + n <= p.cell || p.cell + n <= r.cell
  {
    HoldsOne(bs, p, b, end, h);
    HoldsOne(bs, r, c, end, h);
    LiveDisjoint(bs, h, end, b, c);
  }

  // m' is m after a copy of n cells from src to dst.
  ghost predicate IsCopy(m: seq<int>, m': seq<int>, dst: int, src: int, n: nat) {
    && |m'| == |m| && 0 <= dst && dst + n <= |m| && 0 <= src && src + n <= |m|
    && (forall k :: 0 <= k < |m| && !(dst <= k < dst + n) ==> m'[k] == m[k])
    && (forall k :: dst <= k < dst + n ==> m'[k] == m[k - dst + src])
  }

  // rt_memcpy of n cells
  method CopyCells(mem: array<int>, dst: nat, src: nat, n: nat)
    requires dst + n <= mem.Length && src + n <= mem.Length && (dst + n <= src || src + n <= dst)
    modifies mem
    ensures IsCopy(old(mem[..]), mem[..], dst, src, n)
  {
    ghost var m0 := mem[..];
    var k := 0;
    while k < n
      invariant 0 <= k <= n
      invariant forall c :: 0 <= c < mem.Length && !(dst <= c < dst + k) ==> mem[c] == m0[c]
      invariant forall c :: dst <= c < dst + k ==> mem[c] == m0[c - dst + src]
    {
      mem[dst + k] := mem[src + k];
      k := k + 1;
    }
  }

  lemma CopySlice(m: seq<int>, m': seq<int>, dst: int, src: int, n: nat)
    requires IsCopy(m, m', dst, src, n)
    ensures m'[dst..dst + n] == m[src..src + n]
  {
    var x, y := m'[dst..dst + n], m[src..src + n];
    assert forall k :: 0 <= k < n ==> x[k] == m'[dst + k] == y[k];
  }

  lemma SamePrefix(m: seq<int>, m': seq<int>, b: Block, n: nat, h: nat)
    requires SamePayload(m, m', b, h) && b.at + h + n <= b.next <= |m|
    ensures m'[b.at + h..b.at + h + n] == m[b.at + h..b.at + h + n]
  {
  }

  // What rt_realloc promises about contents: other live payloads stay; the first
  // min(old, new) cells of the block move with it; a NULL result for a non-zero size
  // changes nothing.
  ghost predicate ReallocKeeps(m: seq<int>, m': seq<int>, bs: seq<Block>, p: Ptr, r: Ptr, n: nat, h: nat) {
    && (forall b :: b in Live(bs) && p != At(b.at + h) ==> SamePayload(m, m', b, h))
    && (n > 0 && r.Null? ==> LiveKept(m, m', Live(bs), h))
    && (IsLive(bs, p, h) && n > 0 && r.At? ==>
          var c := Least(n, Payload(BlockOf(bs, p, h), h));
          && 0 <= c && 0 <= r.cell && r.cell + c <= |m'| && 0 <= p.cell && p.cell + c <= |m|
          && m'[r.cell..r.cell + c] == m[p.cell..p.cell + c])
  }

  // Contents across allocate (m0 to m1), copy (to m2) and free (to m3).
  lemma KeepsMoved(m0: seq<int>, m1: seq<int>, m2: seq<int>, m3: seq<int>, bs: seq<Block>, bp: Block, br: Block,
                   p: Ptr, r: Ptr, newsize: nat, end: nat, h: nat)
    requires Tiles(bs, h, end) && |m0| == |m1| == |m2| == |m3| >= end
    requires Holds(bs, p, bp, h) && br !in Live(bs) && r == At(br.at + h) && br.at + h + newsize <= br.next <= end
    requires bp.at + h <= bp.next
    requires LiveKept(m0, m1, Live(bs), h)
    requires IsCopy(m1, m2, r.cell, p.cell, Least(newsize, Payload(bp, h)))
    requires LiveKept(m1, m2, Live(bs), h)
    requires LiveKept(m2, m3, Live(bs) + {br} - {bp}, h)
    ensures ReallocKeeps(m0, m3, bs, p, r, newsize, h)
  {
    var n := Least(newsize, Payload(bp, h));
    HoldsOne(bs, p, bp, end, h);
    LiveKeptTrans(m0, m1, m2, Live(bs), Live(bs), h);
    LiveKeptTrans(m0, m2, m3, Live(bs) - {bp}, Live(bs) + {br} - {bp}, h);
    SamePrefix(m0, m1, bp, n, h);
    CopySlice(m1, m2, r.cell, p.cell, n);
    SamePrefix(m2, m3, br, n, h);
  }

  lemma KeepsSame(m: seq<int>, bs: seq<Block>, p: Ptr, r: Ptr, n: nat, end: nat, h: nat)
    requires Tiles(bs, h, end) && end <= |m| && (r == p || r.Null?)
    ensures ReallocKeeps(m, m, bs, p, r, n, h)
  {
    if IsLive(bs, p, h) {
      HoldsOne(bs, p, BlockOf(bs, p, h), end, h);
    }
  }

  lemma KeepsShrunk(m: seq<int>, m': seq<int>, bs: seq<Block>, p: Ptr, n: nat, end: nat, h: nat)
    requires Wf(bs, h, end) && |m| == |m'| >= end && IsLive(bs, p, h)
    requires 0 < n && n + h < Payload(BlockOf(bs, p, h), h)
    requires LiveKept(m, m', Live(Shrunk(bs, IndexOf(bs, BlockOf(bs, p, h)), h, n)), h)
    ensures ReallocKeeps(m, m', bs, p, p, n, h)
  {
    var b := BlockOf(bs, p, h);
    HoldsOne(bs, p, b, end, h);
    ShrunkKeeps(bs, IndexOf(bs, b), h, n, end);
    SamePrefix(m, m', Block(b.at, b.at + h + n, true), n, h);
  }

  lemma KeepsGrown(m: seq<int>, m': seq<int>, bs: seq<Block>, p: Ptr, n: nat, end: nat, h: nat)
    requires Tiles(bs, h, end) && |m| == |m'| >= end && IsLive(bs, p, h)
    requires Payload(BlockOf(bs, p, h), h) < n && LiveKept(m, m', Live(bs), h)
    ensures ReallocKeeps(m, m', bs, p, p, n, h)
  {
    var b := BlockOf(bs, p, h);
    HoldsOne(bs, p, b, end, h);
    Within(bs, IndexOf(bs, b), h, end);
    SamePrefix(m, m', b, Payload(b, h), h);
  }

  // The block b became the block b' behind r, with room for n cells.
  ghost predicate MovedTo(bs: seq<Block>, bs': seq<Block>, b: Block, r: Ptr, b': Block, n: nat, h: nat) {
    Holds(bs', r, b', h) && n <= Payload(b', h) && Live(bs') == Live(bs) - {b} + {b'}
  }

  ghost predicate Distinct(ps: seq<Ptr>) {
    forall i, j :: 0 <= i < j < |ps| ==> ps[i] != ps[j]
  }

  // The pointers ps are exactly those of the live blocks, each once.
  ghost predicate ListsLive(bs: seq<Block>, ps: seq<Ptr>, h: nat) {
    && Distinct(ps)
    && (forall k :: 0 <= k < |ps| ==> IsLive(bs, ps[k], h))
    && (forall b :: b in Live(bs) ==> At(b.at + h) in ps)
  }

  // Once the first is freed, the other pointers are those of the live blocks.
  lemma ListRest(bs: seq<Block>, bs': seq<Block>, ps: seq<Ptr>, b: Block, h: nat)
    requires ListsLive(bs, ps, h) && ps != [] && Holds(bs, ps[0], b, h) && Live(bs') == Live(bs) - {b}
    requires forall x :: Holds(bs, ps[0], x, h) ==> x == b
    ensures ListsLive(bs', ps[1..], h)
  {
    forall k | 0 <= k < |ps| - 1
      ensures IsLive(bs', ps[1..][k], h)
    {
      StillLive(bs, bs', ps[0], ps[k + 1], b, h);
    }
    forall c | c in Live(bs')
      ensures At(c.at + h) in ps[1..]
    {
      StillListed(bs, ps, b, c, h);
    }
  }

  lemma StillLive(bs: seq<Block>, bs': seq<Block>, freed: Ptr, p: Ptr, b: Block, h: nat)
    requires Holds(bs, freed, b, h) && Live(bs') == Live(bs) - {b} && IsLive(bs, p, h) && p != freed
    ensures IsLive(bs', p, h)
  {
    assert Holds(bs', p, BlockOf(bs, p, h), h);
  }

  lemma StillListed(bs: seq<Block>, ps: seq<Ptr>, b: Block, c: Block, h: nat)
    requires ListsLive(bs, ps, h) && ps != [] && c in Live(bs) && c != b
    requires forall x :: Holds(bs, ps[0], x, h) ==> x == b
    ensures At(c.at + h) in ps[1..]
  {
    assert Holds(bs, At(c.at + h), c, h);
    assert At(c.at + h) in ps;
    assert ps == [ps[0]] + ps[1..];
  }
}
