// What the slab allocator of rt-thread/src/slab.c keeps and promises, over all interleavings of
// its locked regions.
module SlabProps {
  import opened Lists
  import opened PageRuns
  import opened ZoneSizes
  import opened SlabSpec

  // ---- stretches of pages ----

  lemma NotFree(s: State, zp: nat, p: nat, x: nat)
    requires Inv(s, zp) && p in s.ext && p <= x < p + Len(s.ext[p], zp)
    ensures x < |s.own| && s.own[x] == Block(p) && !FreeAt(s.runs, x)
  {
    assert OwnedAt(s.own, p, Len(s.ext[p], zp));
    assert PageAt(s.ext, s.own, s.runs, zp, x);
  }

  // Two different stretches have no page in common.
  lemma StretchesApart(s: State, zp: nat, p: nat, q: nat)
    requires Inv(s, zp) && p in s.ext && q in s.ext && p < q
    ensures p + Len(s.ext[p], zp) <= q
  {
    assert OwnedAt(s.own, q, Len(s.ext[q], zp));
    if q < p + Len(s.ext[p], zp) {
      NotFree(s, zp, p, q);
      NotFree(s, zp, q, q);
    }
  }

  // Changing what a stretch is used for, not its extent.
  lemma SameStretch(ext: map<nat, Extent>, own: seq<Owner>, runs: seq<Run>, zp: nat, p: nat, e: Extent)
    requires PagesOk(ext, own, runs, zp) && p in ext && Len(e, zp) == Len(ext[p], zp)
    ensures PagesOk(ext[p := e], own, runs, zp)
  {
    var ext' := ext[p := e];
    forall s | s in ext'
      ensures OwnedAt(own, s, Len(ext'[s], zp))
    {
      assert OwnedAt(own, s, Len(ext[s], zp));
    }
    forall x: nat | x < |own|
      ensures PageAt(ext', own, runs, zp, x)
    {
      assert PageAt(ext, own, runs, zp, x);
    }
  }

  // Usage written inside the stretch at p does not concern the others.
  ghost predicate UsageOutside(usage: seq<Usage>, usage': seq<Usage>, p: nat, n: nat) {
    |usage| == |usage'| && forall x :: 0 <= x < |usage| && !(p <= x < p + n) ==> usage'[x] == usage[x]
  }

  lemma UsageElsewhere(s: State, zp: nat, p: nat, usage': seq<Usage>, q: nat)
    requires Inv(s, zp) && p in s.ext && q in s.ext && q != p
    requires UsageOutside(s.usage, usage', p, Len(s.ext[p], zp))
    ensures UsageAt(s.ext[q], usage', q, zp)
  {
    assert UsageAt(s.ext[q], s.usage, q, zp);
    assert OwnedAt(s.own, q, Len(s.ext[q], zp));
    if p < q { StretchesApart(s, zp, p, q); } else { StretchesApart(s, zp, q, p); }
  }

  lemma UsageKept(s: State, zp: nat, p: nat, e: Extent, usage': seq<Usage>)
    requires Inv(s, zp) && p in s.ext && UsageOutside(s.usage, usage', p, Len(s.ext[p], zp))
    requires UsageAt(e, usage', p, zp)
    ensures var ext' := s.ext[p := e];
      forall q :: q in ext' ==> UsageAt(ext'[q], usage', q, zp)
  {
    forall q | q in s.ext && q != p
      ensures UsageAt(s.ext[q], usage', q, zp)
    {
      UsageElsewhere(s, zp, p, usage', q);
    }
  }

  // ---- the page allocator's steps ----

  lemma ReservePages(s: State, n: nat, zp: nat)
    requires Inv(s, zp) && n > 0 && Reserve(s, n).1.Page?
    ensures var (s', a) := Reserve(s, n);
      a.n !in s.ext && PagesOk(s'.ext, s'.own, s'.runs, zp)
  {
    var (s', a) := Reserve(s, n);
    var p := a.n;
    AllocKeeps(s.runs, n);
    AllocValid(s.runs, n, |s.own|);
    assert FreeAt(s.runs, p) && FreeAt(s.runs, p + n - 1);
    if p in s.ext { NotFree(s, zp, p, p); }
    forall q | q in s'.ext
      ensures OwnedAt(s'.own, q, Len(s'.ext[q], zp))
    {
      if q != p {
        assert OwnedAt(s.own, q, Len(s.ext[q], zp));
        forall x | q <= x < q + Len(s.ext[q], zp)
          ensures s'.own[x] == Block(q)
        {
          NotFree(s, zp, q, x);
        }
      }
    }
    forall x: nat | x < |s.own|
      ensures PageAt(s'.ext, s'.own, s'.runs, zp, x)
    {
      assert PageAt(s.ext, s.own, s.runs, zp, x);
    }
  }

  lemma ListsSame(ext: map<nat, Extent>, ext': map<nat, Extent>, arr: seq<seq<nat>>)
    requires ListsOk(ext, arr)
    requires forall z, i: nat :: Listed(ext', i, z) <==> Listed(ext, i, z)
    ensures ListsOk(ext', arr)
  {
    forall i: nat | i < NZONES
      ensures ListOk(ext', arr, i)
    {
      assert ListOk(ext, arr, i);
    }
  }

  lemma ReserveInv(s: State, n: nat, zp: nat)
    requires Inv(s, zp)
    ensures Inv(Reserve(s, n).0, zp)
    ensures Reserve(s, n).1.Page? ==> Reserve(s, n).1.n !in s.ext
  {
    var (s', a) := Reserve(s, n);
    hide PagesOk, AllocSpec;
    if a.Page? {
      ReservePages(s, n, zp);
      ListsSame(s.ext, s'.ext, s.arr);
      assert forall z: nat :: IsIdle(s'.ext, z) <==> IsIdle(s.ext, z);
    }
  }

  lemma ReserveKeeps(s: State, n: nat, zp: nat)
    requires Inv(s, zp)
    ensures Inv(Reserve(s, n).0, zp) && Reserve(s, n).0.runs == PageAllocSpec(s.runs, n).runs
    ensures Reserve(s, n).1.Page? ==> Reserve(s, n).1.n in Reserve(s, n).0.ext && Reserve(s, n).0.ext[Reserve(s, n).1.n] == Held(n)
    ensures forall p, k: nat :: LiveChunk(Reserve(s, n).0, p, k) <==> LiveChunk(s, p, k)
    ensures forall p :: LiveLarge(Reserve(s, n).0, p) <==> LiveLarge(s, p)
  {
    ReserveInv(s, n, zp);
    if n > 0 {
      AllocKeeps(s.runs, n);
    }
    hide Inv, AllocSpec, Canonical;
  }

  lemma ReturnPages(s: State, p: nat, zp: nat)
    requires Inv(s, zp) && p in s.ext && s.ext[p].Held?
    ensures var s' := Return(s, p);
      PagesOk(s'.ext, s'.own, s'.runs, zp)
  {
    var n, s' := s.ext[p].n, Return(s, p);
    assert OwnedAt(s.own, p, n);
    forall x: nat | p <= x < p + n
      ensures !FreeAt(s.runs, x)
    {
      NotFree(s, zp, p, x);
    }
    FreeKeeps(s.runs, p, n);
    FreeValid(s.runs, p, n, |s.own|);
    forall q | q in s'.ext
      ensures OwnedAt(s'.own, q, Len(s'.ext[q], zp))
    {
      assert OwnedAt(s.own, q, Len(s.ext[q], zp));
      if p < q { StretchesApart(s, zp, p, q); } else { StretchesApart(s, zp, q, p); }
    }
    forall x: nat | x < |s.own|
      ensures PageAt(s'.ext, s'.own, s'.runs, zp, x)
    {
      assert PageAt(s.ext, s.own, s.runs, zp, x);
    }
  }

  lemma ReturnKeeps(s: State, p: nat, zp: nat)
    requires Inv(s, zp) && p in s.ext && s.ext[p].Held?
    ensures Inv(Return(s, p), zp)
    ensures forall q, k: nat :: LiveChunk(Return(s, p), q, k) <==> LiveChunk(s, q, k)
    ensures forall q :: LiveLarge(Return(s, p), q) <==> LiveLarge(s, q)
  {
    ReturnPages(s, p, zp);
    ListsSame(s.ext, Return(s, p).ext, s.arr);
    assert forall z: nat :: IsIdle(Return(s, p).ext, z) <==> IsIdle(s.ext, z);
  }

  // ---- large blocks ----

  lemma InstallLargeKeeps(s: State, p: nat, zp: nat)
    requires Inv(s, zp) && p in s.ext && s.ext[p].Held?
    ensures p < |s.usage| && Inv(InstallLarge(s, p), zp) && !LiveLarge(s, p)
    ensures forall q, k: nat :: LiveChunk(InstallLarge(s, p), q, k) <==> LiveChunk(s, q, k)
    ensures forall q :: LiveLarge(InstallLarge(s, p), q) <==> LiveLarge(s, q) || q == p
  {
    assert OwnedAt(s.own, p, Len(s.ext[p], zp));
    var s' := InstallLarge(s, p);
    SameStretch(s.ext, s.own, s.runs, zp, p, Large(s.ext[p].n));
    UsageKept(s, zp, p, Large(s.ext[p].n), s'.usage);
    ListsSame(s.ext, s'.ext, s.arr);
    assert forall z: nat :: IsIdle(s'.ext, z) <==> IsIdle(s.ext, z);
  }

  lemma DropLargeKeeps(s: State, p: nat, zp: nat)
    requires Inv(s, zp) && LiveLarge(s, p)
    ensures p < |s.usage| && s.usage[p] == LargePage(s.ext[p].n) && Inv(DropLarge(s, p), zp)
    ensures forall q, k: nat :: LiveChunk(DropLarge(s, p), q, k) <==> LiveChunk(s, q, k)
    ensures forall q :: LiveLarge(DropLarge(s, p), q) <==> LiveLarge(s, q) && q != p
  {
    assert OwnedAt(s.own, p, Len(s.ext[p], zp)) && UsageAt(s.ext[p], s.usage, p, zp);
    var s' := DropLarge(s, p);
    SameStretch(s.ext, s.own, s.runs, zp, p, Held(s.ext[p].n));
    UsageKept(s, zp, p, Held(s.ext[p].n), s'.usage);
    ListsSame(s.ext, s'.ext, s.arr);
    assert forall z: nat :: IsIdle(s'.ext, z) <==> IsIdle(s.ext, z);
  }

  // ---- zones ----

  // The zone at p gets on list i: it was on none before.
  lemma ListPush(ext: map<nat, Extent>, ext': map<nat, Extent>, arr: seq<seq<nat>>, p: nat, i: nat)
    requires ListsOk(ext, arr) && i < NZONES
    requires forall z, j: nat :: Listed(ext', j, z) <==> Listed(ext, j, z) || (z == p && j == i)
    requires !Listed(ext, i, p)
    ensures ListsOk(ext', arr[i := [p] + arr[i]])
  {
    var arr' := arr[i := [p] + arr[i]];
    forall j: nat | j < NZONES
      ensures ListOk(ext', arr', j)
    {
      assert ListOk(ext, arr, j);
    }
  }

  // The zone at p gets off list i.
  lemma ListDrop(ext: map<nat, Extent>, ext': map<nat, Extent>, arr: seq<seq<nat>>, p: nat, i: nat)
    requires ListsOk(ext, arr) && i < NZONES
    requires forall z, j: nat :: Listed(ext', j, z) <==> Listed(ext, j, z) && !(z == p && j == i)
    ensures ListsOk(ext', arr[i := Without(arr[i], p)])
  {
    var arr' := arr[i := Without(arr[i], p)];
    forall j: nat | j < NZONES
      ensures ListOk(ext', arr', j)
    {
      assert ListOk(ext, arr, j);
      if j == i {
        WithoutMembers(arr[i], p);
        WithoutNoDup(arr[i], p);
      }
    }
  }

  lemma ZonesSame(ext: map<nat, Extent>, p: nat, e: Extent, zp: nat)
    requires ZonesOk(ext, zp) && (e.Active? ==> ZoneOk(e.zone, zp))
    ensures ZonesOk(ext[p := e], zp)
  {
  }

  lemma InstallZoneKeeps(s: State, p: nat, n: nat, zp: nat)
    requires Inv(s, zp) && p in s.ext && s.ext[p] == Held(zp) && 0 < n < Limit(zp)
    ensures n < ZONE_LIMIT && Offset(ZoneIndex(n).size) <= ZoneSize(zp)
    ensures var s' := InstallZone(s, p, n, zp);
      && Inv(s', zp)
      && p in s'.ext && s'.ext[p].Active? && n <= s'.ext[p].zone.size
      && (forall q, k: nat :: LiveChunk(s', q, k) <==> LiveChunk(s, q, k) || (q == p && k == 0))
      && !LiveChunk(s, p, 0)
      && (forall q :: LiveLarge(s', q) <==> LiveLarge(s, q))
  {
    NewZoneOk(n, zp);
    ClassRange(n);
    var s' := InstallZone(s, p, n, zp);
    var e := s'.ext[p];
    assert OwnedAt(s.own, p, zp);
    SameStretch(s.ext, s.own, s.runs, zp, p, e);
    UsageKept(s, zp, p, e, s'.usage);
    ZonesSame(s.ext, p, e, zp);
    ListPush(s.ext, s'.ext, s.arr, p, ZoneIndex(n).index);
    assert forall z: nat :: IsIdle(s'.ext, z) <==> IsIdle(s.ext, z);
  }

  lemma ReuseZoneKeeps(s: State, n: nat, zp: nat)
    requires Inv(s, zp) && s.idle != [] && 0 < n < Limit(zp)
    ensures n < ZONE_LIMIT && Offset(ZoneIndex(n).size) <= ZoneSize(zp)
    ensures var s', p := ReuseZone(s, n, zp), s.idle[0];
      && Inv(s', zp)
      && p in s'.ext && s'.ext[p].Active? && n <= s'.ext[p].zone.size
      && (forall q, k: nat :: LiveChunk(s', q, k) <==> LiveChunk(s, q, k) || (q == p && k == 0))
      && !LiveChunk(s, p, 0)
      && (forall q :: LiveLarge(s', q) <==> LiveLarge(s, q))
  {
    NewZoneOk(n, zp);
    ClassRange(n);
    var s', p := ReuseZone(s, n, zp), s.idle[0];
    var e := s'.ext[p];
    assert s.idle[0] in s.idle && IsIdle(s.ext, p);
    SameStretch(s.ext, s.own, s.runs, zp, p, e);
    UsageKept(s, zp, p, e, s.usage);
    ZonesSame(s.ext, p, e, zp);
    ListPush(s.ext, s'.ext, s.arr, p, ZoneIndex(n).index);
    IdleRest(s.ext, s.idle, e);
  }

  lemma IdleRest(ext: map<nat, Extent>, idle: seq<nat>, e: Extent)
    requires IdleOk(ext, idle) && idle != [] && !e.Idle?
    ensures IdleOk(ext[idle[0] := e], idle[1..])
  {
    var rest := idle[1..];
    assert idle == [idle[0]] + rest;
    assert forall i :: 0 <= i < |rest| ==> rest[i] == idle[i + 1] != idle[0];
    forall z: nat
      ensures z in rest <==> IsIdle(ext[idle[0] := e], z)
    {
      assert z in idle <==> IsIdle(ext, z);
    }
  }

  lemma AllocChunkKeeps(s: State, i: nat, zp: nat)
    requires Inv(s, zp) && i < NZONES && s.arr[i] != []
    ensures Listed(s.ext, i, s.arr[i][0])
    ensures var z := s.ext[s.arr[i][0]].zone; z.uindex + 1 == z.nmax ==> z.free != []
    ensures var (s', k) := AllocChunk(s, i);
      var p := s.arr[i][0];
      && Inv(s', zp)
      && p in s'.ext && s'.ext[p].Active? && s'.ext[p].zone.size == SizeOf(i)
      && (forall q, j: nat :: LiveChunk(s', q, j) <==> LiveChunk(s, q, j) || (q == p && j == k))
      && !LiveChunk(s, p, k)
      && (forall q :: LiveLarge(s', q) <==> LiveLarge(s, q))
  {
    hide PagesOk;
    var p := s.arr[i][0];
    assert ListOk(s.ext, s.arr, i) && p in s.arr[i];
    var z := s.ext[p].zone;
    TakeChunkOk(z, zp);
    var (s', k) := AllocChunk(s, i);
    var e := s'.ext[p];
    SameStretch(s.ext, s.own, s.runs, zp, p, e);
    assert UsageAt(s.ext[p], s.usage, p, zp);
    UsageKept(s, zp, p, e, s.usage);
    ZonesSame(s.ext, p, e, zp);
    if e.zone.nfree == 0 {
      assert Without(s.arr[i], p) == s.arr[i][1..];
      ListDrop(s.ext, s'.ext, s.arr, p, i);
    } else {
      ListsSame(s.ext, s'.ext, s.arr);
    }
    assert forall z: nat :: IsIdle(s'.ext, z) <==> IsIdle(s.ext, z);
  }

  lemma PutChunkKeeps(s: State, p: nat, k: nat, zp: nat)
    requires Inv(s, zp) && LiveChunk(s, p, k)
    ensures s.ext[p].zone.zi < NZONES
    ensures var s' := PutChunk(s, p, k);
      && Inv(s', zp) && p in s'.ext && s'.ext[p].Active? && s'.ext[p].zone.zi == s.ext[p].zone.zi
      && s'.ext[p].zone.nfree > 0
      && (forall q, j: nat :: LiveChunk(s', q, j) <==> LiveChunk(s, q, j) && !(q == p && j == k))
      && (forall q :: LiveLarge(s', q) <==> LiveLarge(s, q))
  {
    var z := s.ext[p].zone;
    assert ZoneOk(z, zp);
    GiveChunkOk(z, k, zp);
    var s', i := PutChunk(s, p, k), z.zi;
    var e := s'.ext[p];
    SameStretch(s.ext, s.own, s.runs, zp, p, e);
    assert UsageAt(s.ext[p], s.usage, p, zp);
    UsageKept(s, zp, p, e, s.usage);
    ZonesSame(s.ext, p, e, zp);
    if z.nfree == 0 {
      ListPush(s.ext, s'.ext, s.arr, p, i);
    } else {
      ListsSame(s.ext, s'.ext, s.arr);
    }
    assert forall z: nat :: IsIdle(s'.ext, z) <==> IsIdle(s.ext, z);
  }

  lemma RetireKeeps(s: State, p: nat, zp: nat)
    requires Inv(s, zp) && p in s.ext && s.ext[p].Active? && s.ext[p].zone.nfree == s.ext[p].zone.nmax
    ensures s.ext[p].zone.zi < NZONES
    ensures Inv(Retire(s, p, zp), zp)
    ensures forall q, j: nat :: LiveChunk(Retire(s, p, zp), q, j) <==> LiveChunk(s, q, j)
    ensures forall q :: LiveLarge(Retire(s, p, zp), q) <==> LiveLarge(s, q)
  {
    var s', z := Retire(s, p, zp), s.ext[p].zone;
    assert ZoneOk(z, zp);
    forall j: nat
      ensures !LiveChunk(s, p, j)
    {
      EmptyZone(z, zp, j);
    }
    RetireShape(s, p, zp);
  }

  lemma RetireShape(s: State, p: nat, zp: nat)
    requires Inv(s, zp) && p in s.ext && s.ext[p].Active? && s.ext[p].zone.nfree == s.ext[p].zone.nmax
    requires s.ext[p].zone.zi < NZONES
    ensures Inv(Retire(s, p, zp), zp)
  {
    var s', i := Retire(s, p, zp), s.ext[p].zone.zi;
    var e := s'.ext[p];
    assert ZoneOk(s.ext[p].zone, zp);
    assert UsageAt(s.ext[p], s.usage, p, zp) && OwnedAt(s.own, p, zp);
    SameStretch(s.ext, s.own, s.runs, zp, p, e);
    UsageKept(s, zp, p, e, s'.usage);
    ZonesSame(s.ext, p, e, zp);
    ListDrop(s.ext, s'.ext, s.arr, p, i);
    forall z: nat
      ensures z in s'.idle <==> IsIdle(s'.ext, z)
    {
      assert z in s.idle <==> IsIdle(s.ext, z);
    }
    assert !IsIdle(s.ext, p);
  }

  // Freeing a live chunk ends exactly that chunk's life.
  lemma FreeChunkKeeps(s: State, p: nat, k: nat, zp: nat)
    requires Inv(s, zp) && LiveChunk(s, p, k)
    ensures s.ext[p].zone.zi < NZONES
    ensures var s' := FreeChunk(s, p, k, zp);
      && Inv(s', zp)
      && (forall q, j: nat :: LiveChunk(s', q, j) <==> LiveChunk(s, q, j) && !(q == p && j == k))
      && (forall q :: LiveLarge(s', q) <==> LiveLarge(s, q))
  {
    PutChunkKeeps(s, p, k, zp);
    var s1 := PutChunk(s, p, k);
    if Retires(s1, p) {
      RetireKeeps(s1, p, zp);
    }
  }

  // Another zone of the same class has free chunks.
  ghost predicate Another(s: State, p: nat)
    requires p in s.ext && s.ext[p].Active?
  {
    exists q :: q != p && Listed(s.ext, s.ext[p].zone.zi, q)
  }

  // A zone stays with its class unless its last live chunk is freed while another zone of the
  // class has free chunks. Then it is kept idle if fewer than two zones are, and else its pages are
  // given up.
  lemma ZoneRetires(s: State, p: nat, k: nat, zp: nat)
    requires Inv(s, zp) && LiveChunk(s, p, k)
    ensures s.ext[p].zone.zi < NZONES
    ensures var e, last := FreeChunk(s, p, k, zp).ext[p], forall j: nat :: LiveChunk(s, p, j) ==> j == k;
      && (e.Active? <==> !last || !Another(s, p))
      && (e.Idle? <==> last && Another(s, p) && |s.idle| < 2)
      && (e == Held(zp) <==> last && Another(s, p) && |s.idle| == 2)
  {
    PutChunkKeeps(s, p, k, zp);
    var s1 := PutChunk(s, p, k);
    assert forall j: nat :: ChunkLive(s1.ext[p].zone, j) <==> LiveChunk(s1, p, j);
    EmptyExactly(s1.ext[p].zone, zp);
    AloneOnList(s1, p, zp);
    assert Another(s1, p) <==> Another(s, p) by {
      assert forall q :: q != p ==> (Listed(s1.ext, s.ext[p].zone.zi, q) <==> Listed(s.ext, s.ext[p].zone.zi, q));
    }
  }

  // A listed zone is alone on its list exactly if no other of its class has free chunks.
  lemma AloneOnList(s: State, p: nat, zp: nat)
    requires Inv(s, zp) && p in s.ext && s.ext[p].Active? && s.ext[p].zone.nfree > 0
    ensures s.ext[p].zone.zi < NZONES && (s.arr[s.ext[p].zone.zi] == [p] <==> !Another(s, p))
  {
    var i := s.ext[p].zone.zi;
    assert ZoneOk(s.ext[p].zone, zp) && ListOk(s.ext, s.arr, i);
    var l := s.arr[i];
    assert p in l;
    if q :| q != p && Listed(s.ext, i, q) {
      assert q in l;
    }
    if !Another(s, p) {
      forall j | 0 <= j < |l|
        ensures l[j] == p
      {
        assert l[j] in l;
      }
      MembersCount(l);
      assert Members(l) == {p};
      assert l == [l[0]];
    }
  }

  // ---- live blocks do not overlap ----

  lemma ChunkBounds(s: State, zp: nat, p: nat, k: nat)
    requires Inv(s, zp) && LiveChunk(s, p, k)
    ensures var z := s.ext[p].zone;
      && z.size > 0 && p * PAGE < ChunkAddr(z, p, k)
      && ChunkAddr(z, p, k) + z.size <= (p + zp) * PAGE
  {
    var z := s.ext[p].zone;
    assert ZoneOk(z, zp);
    ChunkInside(zp, z.size, k);
  }

  // Any two different live chunks occupy disjoint bytes.
  lemma LiveChunksApart(s: State, zp: nat, p: nat, j: nat, q: nat, k: nat)
    requires Inv(s, zp) && LiveChunk(s, p, j) && LiveChunk(s, q, k) && (p < q || (p == q && j < k))
    ensures s.ext[p].zone.size > 0 && s.ext[q].zone.size > 0
    ensures ChunkAddr(s.ext[p].zone, p, j) + s.ext[p].zone.size <= ChunkAddr(s.ext[q].zone, q, k)
  {
    ChunkBounds(s, zp, p, j);
    ChunkBounds(s, zp, q, k);
    if p < q {
      StretchesApart(s, zp, p, q);
    } else {
      ChunksApart(s.ext[p].zone.size, j, k);
    }
  }

  // A live chunk and a live large block are disjoint, and so are two large blocks.
  lemma LiveLargeApart(s: State, zp: nat, p: nat, q: nat)
    requires Inv(s, zp) && p in s.ext && q in s.ext && p != q
    requires LiveLarge(s, p) && (LiveLarge(s, q) || s.ext[q].Active?)
    ensures p + s.ext[p].n <= q || q + Len(s.ext[q], zp) <= p
  {
    if p < q { StretchesApart(s, zp, p, q); } else { StretchesApart(s, zp, q, p); }
  }

  // From the address of a live chunk, rt_free finds its zone through memusage.
  lemma ZoneOfAddress(s: State, zp: nat, p: nat, k: nat)
    requires Inv(s, zp) && LiveChunk(s, p, k)
    ensures s.ext[p].zone.size > 0
    ensures var page := ChunkAddr(s.ext[p].zone, p, k) / PAGE;
      page < |s.usage| && s.usage[page].Small? && page - s.usage[page].off == p
    ensures (ChunkAddr(s.ext[p].zone, p, k) - p * PAGE - Offset(s.ext[p].zone.size)) / s.ext[p].zone.size == k
  {
    ChunkBounds(s, zp, p, k);
    var z := s.ext[p].zone;
    var page := ChunkAddr(z, p, k) / PAGE;
    assert p <= page < p + zp;
    assert UsageAt(s.ext[p], s.usage, p, zp);
    DivUnique(k * z.size, z.size, k, 0);
  }

  // ---- runs ----

  datatype Event =
    | DoReserve(n: nat)
    | DoReturn(p: nat)
    | DoInstallLarge(p: nat)
    | DoDropLarge(p: nat)
    | DoInstallZone(p: nat, n: nat)
    | DoReuseZone(n: nat)
    | DoAllocChunk(n: nat)
    | DoFreeChunk(p: nat, k: nat)

  // Who may do what: pages in hand may be installed or returned, and live blocks may be freed. An
  // idle zone may be reused even when one with free chunks is listed, which rt_malloc does not do.
  ghost predicate Enabled(s: State, zp: nat, e: Event) {
    match e
    case DoReserve(n) => true
    case DoReturn(p) => p in s.ext && s.ext[p].Held?
    case DoInstallLarge(p) => p in s.ext && s.ext[p].Held?
    case DoDropLarge(p) => LiveLarge(s, p)
    case DoInstallZone(p, n) => p in s.ext && s.ext[p] == Held(zp) && 0 < n < Limit(zp)
    case DoReuseZone(n) => s.idle != [] && 0 < n < Limit(zp)
    case DoAllocChunk(n) => 0 < n < Limit(zp) && n < ZONE_LIMIT && ZoneIndex(n).index < |s.arr| && s.arr[ZoneIndex(n).index] != []
    case DoFreeChunk(p, k) => LiveChunk(s, p, k)
  }

  ghost predicate IsStep(s: State, zp: nat, e: Event, s': State)
    requires Inv(s, zp) && Enabled(s, zp, e)
  {
    match e
    case DoReserve(n) => s' == Reserve(s, n).0
    case DoReturn(p) => s' == Return(s, p)
    case DoInstallLarge(p) => p < |s.usage| && s' == InstallLarge(s, p)
    case DoDropLarge(p) => p < |s.usage| && s' == DropLarge(s, p)
    case DoInstallZone(p, n) =>
      NewZoneOk(n, zp);
      s' == InstallZone(s, p, n, zp)
    case DoReuseZone(n) =>
      NewZoneOk(n, zp);
      s' == ReuseZone(s, n, zp)
    case DoAllocChunk(n) =>
      AllocChunkKeeps(s, ZoneIndex(n).index, zp);
      s' == AllocChunk(s, ZoneIndex(n).index).0
    case DoFreeChunk(p, k) =>
      assert ZoneOk(s.ext[p].zone, zp);
      s' == FreeChunk(s, p, k, zp)
  }

  lemma StepKeeps(s: State, zp: nat, e: Event, s': State)
    requires Inv(s, zp) && Enabled(s, zp, e) && IsStep(s, zp, e, s')
    ensures Inv(s', zp)
  {
    match e
    case DoReserve(n) => ReserveKeeps(s, n, zp);
    case DoReturn(p) => ReturnKeeps(s, p, zp);
    case DoInstallLarge(p) => InstallLargeKeeps(s, p, zp);
    case DoDropLarge(p) => DropLargeKeeps(s, p, zp);
    case DoInstallZone(p, n) => InstallZoneKeeps(s, p, n, zp);
    case DoReuseZone(n) => ReuseZoneKeeps(s, n, zp);
    case DoAllocChunk(n) => AllocChunkKeeps(s, ZoneIndex(n).index, zp);
    case DoFreeChunk(p, k) => FreeChunkKeeps(s, p, k, zp);
  }

  // A chunk that is live stays live, at the same place, until a step frees it.
  lemma LiveStays(s: State, zp: nat, e: Event, s': State, p: nat, k: nat)
    requires Inv(s, zp) && Enabled(s, zp, e) && IsStep(s, zp, e, s')
    requires LiveChunk(s, p, k)
    ensures LiveChunk(s', p, k) <==> e != DoFreeChunk(p, k)
  {
    match e
    case DoReserve(n) => ReserveKeeps(s, n, zp);
    case DoReturn(q) => ReturnKeeps(s, q, zp);
    case DoInstallLarge(q) => InstallLargeKeeps(s, q, zp);
    case DoDropLarge(q) => DropLargeKeeps(s, q, zp);
    case DoInstallZone(q, n) => InstallZoneKeeps(s, q, n, zp);
    case DoReuseZone(n) => ReuseZoneKeeps(s, n, zp);
    case DoAllocChunk(n) => AllocChunkKeeps(s, ZoneIndex(n).index, zp);
    case DoFreeChunk(q, j) => FreeChunkKeeps(s, q, j, zp);
  }

  ghost function Init(pages: nat): State {
    State(map[], seq(pages, _ => Nobody), seq(pages, _ => FreePage(0)), seq(NZONES, _ => []), [], [Run(0, pages)])
  }

  lemma InitOk(pages: nat, zp: nat)
    requires pages > 0 && ZonePages(zp)
    ensures Inv(Init(pages), zp)
  {
    var s := Init(pages);
    assert s.runs[1..] == [];
    forall x: nat
      ensures FreeAt(s.runs, x) <==> x < pages
    {
    }
    forall x: nat | x < pages
      ensures PageAt(s.ext, s.own, s.runs, zp, x)
    {
    }
    forall i: nat | i < NZONES
      ensures ListOk(s.ext, s.arr, i)
    {
    }
  }

  // The steps are defined on states that satisfy the invariant; RunKeeps shows that all do.
  ghost predicate StepAt(trace: seq<State>, events: seq<Event>, zp: nat, k: nat) {
    && k < |events| && k + 1 < |trace|
    && (Inv(trace[k], zp) ==> Enabled(trace[k], zp, events[k]) && IsStep(trace[k], zp, events[k], trace[k + 1]))
  }

  ghost predicate IsRun(trace: seq<State>, events: seq<Event>, zp: nat, pages: nat) {
    && pages > 0 && ZonePages(zp) && |trace| == |events| + 1 && trace[0] == Init(pages)
    && forall k: nat :: k < |events| ==> StepAt(trace, events, zp, k)
  }

  // Over any interleaving: counts, lists, page ownership and memusage stay right.
  lemma {:induction false} RunKeeps(trace: seq<State>, events: seq<Event>, zp: nat, pages: nat, k: nat)
    requires IsRun(trace, events, zp, pages) && k <= |events|
    ensures Inv(trace[k], zp)
  {
    if k == 0 {
      InitOk(pages, zp);
    } else {
      RunKeeps(trace, events, zp, pages, k - 1);
      assert StepAt(trace, events, zp, k - 1);
      StepKeeps(trace[k - 1], zp, events[k - 1], trace[k]);
    }
  }
}
