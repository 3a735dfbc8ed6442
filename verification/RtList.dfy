// Circular doubly linked lists threaded through memory, rt-thread/include/rtservice.h. A node
// is an address; its two links sit at fixed offsets from it. The same rings carry rt_list_t
// and the two lists of a memheap.
module RtLists {

  // Nodes of `width` cells whose links are at these offsets.
  datatype Layout = Layout(width: nat, next: nat, prev: nat)

  const LIST_NODE := Layout(2, 0, 1) // struct rt_list_node

  predicate LayoutOk(l: Layout) {
    l.next < l.width && l.prev < l.width && l.next != l.prev
  }

  predicate Far(x: int, y: int, w: nat) { x + w <= y || y + w <= x }

  function Succ(i: nat, n: nat): nat { if i + 1 < n then i + 1 else 0 }

  function Pred(i: nat, n: nat): nat
    requires 0 < n
  {
    if i == 0 then n - 1 else i - 1
  }

  ghost predicate NodeIn(m: seq<int>, c: seq<nat>, i: nat, l: Layout)
    requires i < |c|
  {
    c[i] + l.width <= |m|
  }

  // Node i and its successor in the ring point at each other.
  ghost predicate JoinAt(m: seq<int>, c: seq<nat>, i: nat, l: Layout)
    requires i < |c|
  {
    var j := Succ(i, |c|);
    && c[i] + l.next < |m| && c[j] + l.prev < |m|
    && m[c[i] + l.next] == c[j] && m[c[j] + l.prev] == c[i]
  }

  ghost predicate Apart(c: seq<nat>, w: nat) {
    forall i, j :: 0 <= i < j < |c| ==> Far(c[i], c[j], w)
  }

  // The nodes c, in this order, form a ring.
  ghost predicate Ring(m: seq<int>, c: seq<nat>, l: Layout) {
    && LayoutOk(l) && |c| > 0 && Apart(c, l.width)
    && (forall i :: 0 <= i < |c| ==> NodeIn(m, c, i, l))
    && (forall i :: 0 <= i < |c| ==> JoinAt(m, c, i, l))
  }

  // ---- the two rewrites ----

  // rt_list_insert_after(a, x)
  function Insert(m: seq<int>, a: nat, x: nat, l: Layout): seq<int>
    requires LayoutOk(l) && a + l.width <= |m| && x + l.width <= |m|
    requires 0 <= m[a + l.next] && m[a + l.next] + l.width <= |m|
  {
    var b := m[a + l.next];
    m[b + l.prev := x][x + l.next := b][a + l.next := x][x + l.prev := a]
  }

  // The first two assignments of rt_list_remove(x).
  function Unlink(m: seq<int>, x: nat, l: Layout): seq<int>
    requires LayoutOk(l) && x + l.width <= |m|
    requires 0 <= m[x + l.next] && m[x + l.next] + l.width <= |m|
    requires 0 <= m[x + l.prev] && m[x + l.prev] + l.width <= |m|
  {
    m[m[x + l.next] + l.prev := m[x + l.prev]][m[x + l.prev] + l.next := m[x + l.next]]
  }

  ghost function Inserted(c: seq<nat>, i: nat, x: nat): seq<nat>
    requires i < |c|
  {
    c[..i + 1] + [x] + c[i + 1..]
  }

  ghost function Removed(c: seq<nat>, i: nat): seq<nat>
    requires i < |c|
  {
    c[..i] + c[i + 1..]
  }

  lemma Neighbours(m: seq<int>, c: seq<nat>, i: nat, l: Layout)
    requires Ring(m, c, l) && i < |c|
    ensures var p, s := Pred(i, |c|), Succ(i, |c|);
      && c[i] + l.width <= |m| && c[p] + l.width <= |m| && c[s] + l.width <= |m|
      && m[c[i] + l.next] == c[s] && m[c[i] + l.prev] == c[p]
  {
    var p, s := Pred(i, |c|), Succ(i, |c|);
    assert JoinAt(m, c, i, l) && JoinAt(m, c, p, l);
    assert NodeIn(m, c, i, l) && NodeIn(m, c, p, l) && NodeIn(m, c, s, l);
  }

  lemma FarNodes(c: seq<nat>, i: nat, j: nat, w: nat)
    requires Apart(c, w) && i < |c| && j < |c| && i != j
    ensures Far(c[i], c[j], w)
  {
    if i < j {
      assert Far(c[i], c[j], w);
    } else {
      assert Far(c[j], c[i], w);
    }
  }

  ghost predicate NextSame(m: seq<int>, m': seq<int>, y: nat, l: Layout) {
    y + l.next < |m| == |m'| && m'[y + l.next] == m[y + l.next]
  }

  ghost predicate PrevSame(m: seq<int>, m': seq<int>, y: nat, l: Layout) {
    y + l.prev < |m| == |m'| && m'[y + l.prev] == m[y + l.prev]
  }

  // m' links x between a and b.
  ghost predicate Between(m': seq<int>, a: nat, x: nat, b: nat, l: Layout) {
    && a + l.next < |m'| && b + l.prev < |m'| && x + l.next < |m'| && x + l.prev < |m'|
    && m'[b + l.prev] == x && m'[x + l.next] == b && m'[a + l.next] == x && m'[x + l.prev] == a
  }

  ghost predicate Bridged(m': seq<int>, a: nat, b: nat, l: Layout) {
    a + l.next < |m'| && b + l.prev < |m'| && m'[a + l.next] == b && m'[b + l.prev] == a
  }

  predicate SameOrFar(x: int, y: int, w: nat) { x == y || Far(x, y, w) }

  lemma InsertReads(m: seq<int>, a: nat, x: nat, l: Layout)
    requires LayoutOk(l) && a + l.width <= |m| && x + l.width <= |m| && Far(a, x, l.width)
    requires 0 <= m[a + l.next] && m[a + l.next] + l.width <= |m|
    requires SameOrFar(a, m[a + l.next], l.width) && Far(m[a + l.next], x, l.width)
    ensures Between(Insert(m, a, x, l), a, x, m[a + l.next], l)
  {
  }

  lemma InsertElse(m: seq<int>, a: nat, x: nat, l: Layout, y: nat)
    requires LayoutOk(l) && a + l.width <= |m| && x + l.width <= |m| && y + l.width <= |m|
    requires 0 <= m[a + l.next] && m[a + l.next] + l.width <= |m|
    requires Far(y, x, l.width) && SameOrFar(y, a, l.width) && SameOrFar(y, m[a + l.next], l.width)
    ensures y != a ==> NextSame(m, Insert(m, a, x, l), y, l)
    ensures y != m[a + l.next] ==> PrevSame(m, Insert(m, a, x, l), y, l)
  {
  }

  lemma UnlinkReads(m: seq<int>, x: nat, l: Layout)
    requires LayoutOk(l) && x + l.width <= |m|
    requires 0 <= m[x + l.next] && m[x + l.next] + l.width <= |m|
    requires 0 <= m[x + l.prev] && m[x + l.prev] + l.width <= |m|
    requires SameOrFar(m[x + l.prev], m[x + l.next], l.width)
    ensures Bridged(Unlink(m, x, l), m[x + l.prev], m[x + l.next], l)
  {
  }

  lemma UnlinkElse(m: seq<int>, x: nat, l: Layout, y: nat)
    requires LayoutOk(l) && x + l.width <= |m| && y + l.width <= |m|
    requires 0 <= m[x + l.next] && m[x + l.next] + l.width <= |m|
    requires 0 <= m[x + l.prev] && m[x + l.prev] + l.width <= |m|
    requires SameOrFar(y, m[x + l.next], l.width) && SameOrFar(y, m[x + l.prev], l.width)
    ensures y != m[x + l.prev] ==> NextSame(m, Unlink(m, x, l), y, l)
    ensures y != m[x + l.next] ==> PrevSame(m, Unlink(m, x, l), y, l)
  {
  }

  lemma NodesFar(m: seq<int>, c: seq<nat>, l: Layout, i: nat, j: nat)
    requires Ring(m, c, l) && i < |c| && j < |c|
    ensures SameOrFar(c[i], c[j], l.width) && (c[i] == c[j] <==> i == j)
    ensures c[j] + l.width <= |m|
  {
    assert NodeIn(m, c, j, l);
    if i != j {
      FarNodes(c, i, j, l.width);
    }
  }

  lemma InsertJoin(m: seq<int>, m': seq<int>, c: seq<nat>, i: nat, x: nat, l: Layout, k: nat)
    requires Ring(m, c, l) && i < |c| && k <= |c|
    requires InsertedAt(m, m', c, i, x, l)
    ensures JoinAt(m', Inserted(c, i, x), k, l)
  {
    var c' := Inserted(c, i, x);
    if k < i || k > i + 1 {
      var j := if k < i then k else k - 1;
      assert JoinAt(m, c, j, l);
      assert NextSame(m, m', c[j], l) && PrevSame(m, m', c[Succ(j, |c|)], l);
      assert c'[k] == c[j] && c'[Succ(k, |c'|)] == c[Succ(j, |c|)];
    }
  }

  // m' links x behind node i and leaves every other link of the ring alone.
  ghost predicate InsertedAt(m: seq<int>, m': seq<int>, c: seq<nat>, i: nat, x: nat, l: Layout)
    requires i < |c|
  {
    && Between(m', c[i], x, c[Succ(i, |c|)], l)
    && (forall j :: 0 <= j < |c| && j != i ==> NextSame(m, m', c[j], l))
    && (forall j :: 0 <= j < |c| && j != Succ(i, |c|) ==> PrevSame(m, m', c[j], l))
  }

  // m' bypasses node i and leaves every other link of the ring alone.
  ghost predicate RemovedAt(m: seq<int>, m': seq<int>, c: seq<nat>, i: nat, l: Layout)
    requires i < |c|
  {
    && Bridged(m', c[Pred(i, |c|)], c[Succ(i, |c|)], l)
    && (forall j :: 0 <= j < |c| && j != Pred(i, |c|) ==> NextSame(m, m', c[j], l))
    && (forall j :: 0 <= j < |c| && j != Succ(i, |c|) ==> PrevSame(m, m', c[j], l))
  }

  lemma InsertLinks(m: seq<int>, c: seq<nat>, i: nat, x: nat, l: Layout)
    requires Ring(m, c, l) && i < |c| && x + l.width <= |m|
    requires forall j :: 0 <= j < |c| ==> Far(c[j], x, l.width)
    ensures c[i] + l.width <= |m| && 0 <= m[c[i] + l.next] && m[c[i] + l.next] + l.width <= |m|
    ensures InsertedAt(m, Insert(m, c[i], x, l), c, i, x, l)
  {
    Neighbours(m, c, i, l);
    var s := Succ(i, |c|);
    assert Far(c[i], x, l.width) && Far(c[s], x, l.width);
    NodesFar(m, c, l, i, s);
    InsertReads(m, c[i], x, l);
    forall j | 0 <= j < |c|
      ensures j != i ==> NextSame(m, Insert(m, c[i], x, l), c[j], l)
      ensures j != s ==> PrevSame(m, Insert(m, c[i], x, l), c[j], l)
    {
      NodesFar(m, c, l, j, i);
      NodesFar(m, c, l, j, s);
      assert NodeIn(m, c, j, l);
      InsertElse(m, c[i], x, l, c[j]);
    }
  }

  lemma InsertedIsRing(m: seq<int>, m': seq<int>, c: seq<nat>, i: nat, x: nat, l: Layout)
    requires Ring(m, c, l) && i < |c| && x + l.width <= |m| == |m'|
    requires forall j :: 0 <= j < |c| ==> Far(c[j], x, l.width)
    requires InsertedAt(m, m', c, i, x, l)
    ensures Ring(m', Inserted(c, i, x), l)
  {
    var c' := Inserted(c, i, x);
    forall k | 0 <= k < |c'|
      ensures JoinAt(m', c', k, l) && NodeIn(m', c', k, l)
    {
      assert k != i + 1 ==> NodeIn(m, c, if k <= i then k else k - 1, l);
      InsertJoin(m, m', c, i, x, l, k);
    }
    InsertApart(m, c, i, x, l);
  }

  // Inserting x behind node i of a ring inserts it into the sequence of nodes.
  lemma InsertRing(m: seq<int>, c: seq<nat>, i: nat, x: nat, l: Layout)
    requires Ring(m, c, l) && i < |c| && x + l.width <= |m|
    requires forall j :: 0 <= j < |c| ==> Far(c[j], x, l.width)
    ensures c[i] + l.width <= |m| && 0 <= m[c[i] + l.next] && m[c[i] + l.next] + l.width <= |m|
    ensures Ring(Insert(m, c[i], x, l), Inserted(c, i, x), l)
  {
    InsertLinks(m, c, i, x, l);
    InsertedIsRing(m, Insert(m, c[i], x, l), c, i, x, l);
  }

  lemma InsertApart(m: seq<int>, c: seq<nat>, i: nat, x: nat, l: Layout)
    requires Ring(m, c, l) && i < |c|
    requires forall j :: 0 <= j < |c| ==> Far(c[j], x, l.width)
    ensures Apart(Inserted(c, i, x), l.width)
  {
    var c' := Inserted(c, i, x);
    forall j, k | 0 <= j < k < |c'|
      ensures Far(c'[j], c'[k], l.width)
    {
      var j0, k0 := if j <= i then j else j - 1, if k <= i then k else k - 1;
      if j != i + 1 && k != i + 1 {
        FarNodes(c, j0, k0, l.width);
      } else {
        assert Far(c[if j == i + 1 then k0 else j0], x, l.width);
      }
    }
  }

  lemma RemoveJoin(m: seq<int>, m': seq<int>, c: seq<nat>, i: nat, l: Layout, k: nat)
    requires Ring(m, c, l) && i < |c| && k + 1 < |c|
    requires RemovedAt(m, m', c, i, l)
    ensures JoinAt(m', Removed(c, i), k, l)
  {
    var c', j := Removed(c, i), if k < i then k else k + 1;
    var j' := if Succ(k, |c'|) < i then Succ(k, |c'|) else Succ(k, |c'|) + 1;
    assert c'[k] == c[j] && c'[Succ(k, |c'|)] == c[j'];
    if j == Pred(i, |c|) {
      assert j' == Succ(i, |c|);
    } else {
      assert j' == Succ(j, |c|) && j' != Succ(i, |c|);
      assert JoinAt(m, c, j, l);
      assert NextSame(m, m', c[j], l) && PrevSame(m, m', c[j'], l);
    }
  }

  ghost function Unlinked(m: seq<int>, c: seq<nat>, i: nat, l: Layout): seq<int>
    requires Ring(m, c, l) && i < |c|
  {
    Neighbours(m, c, i, l);
    Unlink(m, c[i], l)
  }

  lemma RemoveLinks(m: seq<int>, c: seq<nat>, i: nat, l: Layout)
    requires Ring(m, c, l) && i < |c|
    ensures RemovedAt(m, Unlinked(m, c, i, l), c, i, l)
  {
    Neighbours(m, c, i, l);
    var p, s := Pred(i, |c|), Succ(i, |c|);
    NodesFar(m, c, l, p, s);
    UnlinkReads(m, c[i], l);
    forall j | 0 <= j < |c|
      ensures j != p ==> NextSame(m, Unlink(m, c[i], l), c[j], l)
      ensures j != s ==> PrevSame(m, Unlink(m, c[i], l), c[j], l)
    {
      NodesFar(m, c, l, j, p);
      NodesFar(m, c, l, j, s);
      assert NodeIn(m, c, j, l);
      UnlinkElse(m, c[i], l, c[j]);
    }
  }

  lemma RemovedIsRing(m: seq<int>, m': seq<int>, c: seq<nat>, i: nat, l: Layout)
    requires Ring(m, c, l) && i < |c| && 1 < |c| && |m| == |m'| && RemovedAt(m, m', c, i, l)
    ensures Ring(m', Removed(c, i), l)
  {
    var c' := Removed(c, i);
    forall k | 0 <= k < |c'|
      ensures NodeIn(m', c', k, l) && JoinAt(m', c', k, l)
    {
      RemoveJoin(m, m', c, i, l, k);
      assert NodeIn(m, c, if k < i then k else k + 1, l);
    }
    forall j, k | 0 <= j < k < |c'|
      ensures Far(c'[j], c'[k], l.width)
    {
      FarNodes(c, if j < i then j else j + 1, if k < i then k else k + 1, l.width);
    }
  }

  // Unlinking node i removes it from the sequence of nodes.
  lemma RemoveRing(m: seq<int>, c: seq<nat>, i: nat, l: Layout)
    requires Ring(m, c, l) && i < |c| && 1 < |c|
    ensures Ring(Unlinked(m, c, i, l), Removed(c, i), l)
  {
    RemoveLinks(m, c, i, l);
    RemovedIsRing(m, Unlinked(m, c, i, l), c, i, l);
  }

  ghost predicate SameLinks(m: seq<int>, m': seq<int>, c: seq<nat>, i: nat, l: Layout)
    requires i < |c|
  {
    NextSame(m, m', c[i], l) && PrevSame(m, m', c[i], l)
  }

  // A ring only depends on the links of its nodes.
  lemma RingFrame(m: seq<int>, m': seq<int>, c: seq<nat>, l: Layout)
    requires Ring(m, c, l) && |m'| == |m|
    requires forall i :: 0 <= i < |c| && NodeIn(m, c, i, l) ==> SameLinks(m, m', c, i, l)
    ensures Ring(m', c, l)
  {
    forall i | 0 <= i < |c|
      ensures NodeIn(m', c, i, l) && JoinAt(m', c, i, l)
    {
      assert NodeIn(m, c, i, l) && NodeIn(m, c, Succ(i, |c|), l) && JoinAt(m, c, i, l);
      assert SameLinks(m, m', c, i, l) && SameLinks(m, m', c, Succ(i, |c|), l);
    }
  }

  // ---- the primitives ----

  // The memory the nodes live in. A list is a ring whose node 0 is the list head; its
  // contents are the other nodes.
  class ListMemory {
    const mem: array<int>

    constructor (size: nat)
      ensures mem.Length == size && fresh(mem)
    {
      mem := new int[size](_ => 0);
    }

    ghost predicate IsList(c: seq<nat>)
      reads mem
    {
      Ring(mem[..], c, LIST_NODE)
    }

    // rt_list_init
    method Init(x: nat)
      requires x + 2 <= mem.Length
      modifies mem
      ensures IsList([x])
      ensures forall k :: 0 <= k < mem.Length && k != x && k != x + 1 ==> mem[k] == old(mem[k])
    {
      mem[x + 1] := x;
      mem[x] := x;
      assert NodeIn(mem[..], [x], 0, LIST_NODE) && JoinAt(mem[..], [x], 0, LIST_NODE);
    }

    // rt_list_insert_after: n follows the node x of the list.
    method InsertAfter(x: nat, n: nat, ghost c: seq<nat>, ghost i: nat)
      requires IsList(c) && i < |c| && c[i] == x && n + 2 <= mem.Length
      requires forall j :: 0 <= j < |c| ==> Far(c[j], n, 2)
      modifies mem
      ensures IsList(Inserted(c, i, n))
    {
      InsertRing(mem[..], c, i, n, LIST_NODE);
      Neighbours(mem[..], c, i, LIST_NODE);
      ghost var m' := Insert(mem[..], x, n, LIST_NODE);
      assert Far(x, n, 2) && Far(c[Succ(i, |c|)], n, 2);
      var next := mem[x];
      mem[next + 1] := n;
      mem[n] := mem[x];
      mem[x] := n;
      mem[n + 1] := x;
      assert mem[..] == m';
    }

    // rt_list_insert_before: n precedes the node x of the list; before the head is at the end.
    method InsertBefore(x: nat, n: nat, ghost c: seq<nat>, ghost i: nat)
      requires IsList(c) && i < |c| && c[i] == x && n + 2 <= mem.Length
      requires forall j :: 0 <= j < |c| ==> Far(c[j], n, 2)
      modifies mem
      ensures IsList(Inserted(c, Pred(i, |c|), n))
      ensures i == 0 ==> Inserted(c, Pred(i, |c|), n) == c + [n]
    {
      hide Ring;
      ghost var p := Pred(i, |c|);
      InsertRing(mem[..], c, p, n, LIST_NODE);
      Neighbours(mem[..], c, i, LIST_NODE);
      Neighbours(mem[..], c, p, LIST_NODE);
      ghost var m' := Insert(mem[..], c[p], n, LIST_NODE);
      assert Far(c[p], n, 2) && Far(x, n, 2);
      NodesFar(mem[..], c, LIST_NODE, p, i);
      var prev := mem[x + 1];
      mem[prev] := n;
      mem[n + 1] := mem[x + 1];
      mem[x + 1] := n;
      mem[n] := x;
      assert mem[..] == m';
    }

    // rt_list_remove
    method Remove(n: nat, ghost c: seq<nat>, ghost i: nat)
      requires IsList(c) && i < |c| && c[i] == n && 1 < |c|
      modifies mem
      ensures IsList(Removed(c, i)) && IsList([n])
    {
      ghost var m0 := mem[..];
      RemoveRing(m0, c, i, LIST_NODE);
      Neighbours(m0, c, i, LIST_NODE);
      var next, prev := mem[n], mem[n + 1];
      mem[next + 1] := prev;
      mem[prev] := next;
      ghost var m1 := mem[..];
      assert m1 == Unlinked(m0, c, i, LIST_NODE);
      Init(n);
      forall j | 0 <= j < |Removed(c, i)|
        ensures Far(Removed(c, i)[j], n, 2)
      {
        FarNodes(c, if j < i then j else j + 1, i, 2);
      }
      RingFrame(m1, mem[..], Removed(c, i), LIST_NODE);
    }

    // rt_list_isempty
    method IsEmpty(x: nat, ghost c: seq<nat>) returns (r: bool)
      requires IsList(c) && c[0] == x
      ensures r <==> c == [x]
    {
      Neighbours(mem[..], c, 0, LIST_NODE);
      NodesFar(mem[..], c, LIST_NODE, 0, Succ(0, |c|));
      r := mem[x] == x;
    }

    // rt_list_len
    method Len(x: nat, ghost c: seq<nat>) returns (len: nat)
      requires IsList(c) && c[0] == x
      ensures len == |c| - 1
    {
      len := 0;
      var p := x;
      Neighbours(mem[..], c, 0, LIST_NODE);
      NodesFar(mem[..], c, LIST_NODE, 0, Succ(0, |c|));
      while mem[p] != x
        invariant len < |c| && p == c[len] && p < mem.Length
        invariant mem[p] == c[Succ(len, |c|)] && (c[Succ(len, |c|)] == c[0] <==> Succ(len, |c|) == 0)
        decreases |c| - len
      {
        p := mem[p];
        len := len + 1;
        Neighbours(mem[..], c, len, LIST_NODE);
        NodesFar(mem[..], c, LIST_NODE, 0, Succ(len, |c|));
      }
    }
  }
}
