// rt_malloc and rt_free of rt-thread/src/slab.c on their data.
module Slabs {
  import opened Words
  import opened Lists
  import opened PageRuns
  import opened ZoneSizes
  import opened SlabSpec
  import opened SlabProps

  class SlabHeap {
    const zp: nat                 // zone_page_cnt
    const pages: PageAllocator
    const usage: array<Usage>     // memusage
    const arr: array<seq<nat>>    // zone_array, the zones linked by z_next
    var zones: map<nat, Zone>     // the headers at the first page of each zone
    var idle: seq<nat>            // zone_free
    var idleCnt: int              // zone_free_cnt
    ghost var ext: map<nat, Extent>
    ghost var own: seq<Owner>

    ghost function View(): State
      reads this, pages, usage, arr
    {
      State(ext, own, usage[..], arr[..], idle, pages.runs)
    }

    ghost predicate HeadersOk()
      reads `zones, `ext
    {
      forall p :: p in ext && ext[p].Active? ==> p in zones && zones[p] == ext[p].zone
    }

    ghost predicate Valid()
      reads this, pages, usage, arr, pages.next, pages.size
    {
      && pages.Valid() && pages.size.Length == |own|
      && HeadersOk() && idleCnt == |idle|
      && Inv(View(), zp)
    }

    // rt_system_heap_init for `npages` whole pages: the zone size is chosen, and the first
    // pages are taken for memusage itself (four bytes a page).
    constructor (npages: nat)
      requires npages > 0
      ensures Valid() && fresh(pages) && fresh(usage) && fresh(arr) && fresh(pages.next) && fresh(pages.size)
      ensures View() == Reserve(Init(npages), (npages + 1023) / 1024).0 && (npages + 1023) / 1024 <= npages
      ensures zp == if npages <= 16384 then 8 else if npages <= 32768 then 16 else 32
    {
      var zoneSize := 32 * 1024;
      while zoneSize < 128 * 1024 && zoneSize * 2 < npages * PAGE / 1024
        invariant zoneSize == 32 * 1024 || (zoneSize == 64 * 1024 && npages > 16384) || (zoneSize == 128 * 1024 && npages > 32768)
        decreases 128 * 1024 - zoneSize
      {
        zoneSize := zoneSize * 2;
      }
      zp := zoneSize / PAGE;
      pages := new PageAllocator(npages);
      usage := new Usage[npages](_ => FreePage(0));
      arr := new seq<nat>[NZONES](_ => []);
      zones, idle, idleCnt := map[], [], 0;
      ext, own := map[], seq(npages, _ => Nobody);
      new;
      InitOk(npages, zp);
      assert View() == Init(npages) by {
        assert usage[..] == seq(npages, _ => FreePage(0));
        assert arr[..] == seq(NZONES, _ => []);
      }
      var memusage := GetPages((npages + 1023) / 1024);
    }

    // rt_page_alloc for a caller without the lock.
    method GetPages(n: nat) returns (a: Addr)
      requires Valid()
      modifies this, pages, pages.next, pages.size
      ensures Valid() && (View(), a) == Reserve(old(View()), n) && zones == old(zones)
    {
      ReserveKeeps(View(), n, zp);
      ghost var s' := Reserve(View(), n).0;
      a := pages.PageAlloc(n);
      ext, own := s'.ext, s'.own;
      assert View() == s';
    }

    // The branch of rt_malloc for requests of zone_limit and more.
    method MallocLargeBlock(n: nat) returns (r: Ptr)
      requires Valid() && n < WORD_RANGE
      modifies this, usage, pages, pages.next, pages.size
      ensures Valid() && (View(), r) == MallocLarge(old(View()), n)
    {
      var size := PageCount(n);
      var a := GetPages(size);
      if a.Null? {
        return Nowhere;
      }
      ghost var s1 := View();
      InstallLargeKeeps(s1, a.n, zp);
      usage[a.n] := LargePage(size);
      ext := ext[a.n := Large(size)];
      assert View() == InstallLarge(s1, a.n);
      return LargeAt(a.n);
    }

    // The fields of a fresh zone, linked in front of its list.
    method Open(p: nat, n: nat)
      requires 0 < n < ZONE_LIMIT && Offset(ZoneIndex(n).size) <= ZoneSize(zp) && arr.Length == NZONES
      requires HeadersOk()
      modifies `zones, `ext, arr
      ensures View() == OpenZone(old(View()), p, n, zp) && HeadersOk()
    {
      ClassRange(n);
      var c := ZoneIndex(n);
      var z := NewZone(c, zp);
      ghost var s' := OpenZone(View(), p, n, zp);
      zones := zones[p := z];
      ext := ext[p := Active(z)];
      arr[c.index] := [p] + arr[c.index];
      assert View() == s';
    }

    // The branch of rt_malloc that needs a new zone and finds no idle one.
    method NewZoneBlock(n: nat) returns (r: Ptr)
      requires Valid() && 0 < n < Limit(zp)
      modifies this, usage, arr, pages, pages.next, pages.size
      ensures n < ZONE_LIMIT && Offset(ZoneIndex(n).size) <= ZoneSize(zp) && arr.Length == NZONES
      ensures Valid() && (View(), r) == MallocNewZone(old(View()), n, zp)
    {
      NewZoneOk(n, zp);
      ReserveKeeps(View(), zp, zp);
      var a := GetPages(zp);
      if a.Null? {
        return Nowhere;
      }
      InstallZoneKeeps(View(), a.n, n, zp);
      MarkPages(a.n, true);
      Open(a.n, n);
      return ChunkAt(a.n, 0);
    }

    // The loops that set memusage for the pages of a zone.
    method MarkPages(p: nat, small: bool)
      requires p + zp <= usage.Length
      modifies usage
      ensures usage[..] == SetUsage(old(usage[..]), p, zp, small)
    {
      ghost var u := usage[..];
      var off := 0;
      while off < zp
        invariant 0 <= off <= zp
        invariant forall x :: 0 <= x < usage.Length ==>
          usage[x] == if p <= x < p + off then if small then Small(x - p) else FreePage(0) else u[x]
      {
        usage[p + off] := if small then Small(off) else FreePage(0);
        off := off + 1;
      }
      assert usage[..] == SetUsage(u, p, zp, small);
    }

    method ReuseIdle(n: nat) returns (r: Ptr)
      requires Valid() && 0 < n < Limit(zp) && idle != []
      modifies this, arr
      ensures n < ZONE_LIMIT && Offset(ZoneIndex(n).size) <= ZoneSize(zp) && arr.Length == NZONES
      ensures Valid() && View() == ReuseZone(old(View()), n, zp) && r == ChunkAt(old(idle)[0], 0)
    {
      ReuseZoneKeeps(View(), n, zp);
      ghost var s' := ReuseZone(View(), n, zp);
      var p := idle[0];
      idle := idle[1..];
      idleCnt := idleCnt - 1;
      Open(p, n);
      assert View() == s';
      return ChunkAt(p, 0);
    }

    // The first zone of list i gives a chunk.
    method TakeFrom(i: nat) returns (r: Ptr)
      requires Valid() && i < arr.Length && arr[i] != []
      modifies this, arr
      ensures old(Listed(ext, i, arr[i][0]))
      ensures old(ext[arr[i][0]].zone.uindex + 1 == ext[arr[i][0]].zone.nmax ==> ext[arr[i][0]].zone.free != [])
      ensures Valid() && View() == AllocChunk(old(View()), i).0
      ensures r == ChunkAt(old(arr[i][0]), AllocChunk(old(View()), i).1)
    {
      AllocChunkKeeps(View(), i, zp);
      ghost var s' := AllocChunk(View(), i).0;
      var p := arr[i][0];
      var z, k := TakeChunk(zones[p]).0, TakeChunk(zones[p]).1;
      if z.nfree == 0 {
        arr[i] := arr[i][1..];
      }
      zones := zones[p := z];
      ext := ext[p := Active(z)];
      assert View() == s';
      return ChunkAt(p, k);
    }

    // rt_malloc
    method Malloc(n: nat) returns (r: Ptr)
      requires Valid() && n < WORD_RANGE
      modifies this, usage, arr, pages, pages.next, pages.size
      ensures Valid()
      ensures n == 0 ==> r == Nowhere && View() == old(View())
      ensures n >= Limit(zp) > 0 ==> (View(), r) == MallocLarge(old(View()), n)
      ensures 0 < n < Limit(zp) ==> n < ZONE_LIMIT && ServedFrom(old(View()), n, zp, View(), r)
    {
      if n == 0 {
        return Nowhere;
      }
      if n >= Limit(zp) {
        r := MallocLargeBlock(n);
        return;
      }
      NewZoneOk(n, zp);
      ClassRange(n);
      var i := ZoneIndex(n).index;
      if arr[i] != [] {
        r := TakeFrom(i);
      } else if idle != [] {
        r := ReuseIdle(n);
      } else {
        r := NewZoneBlock(n);
      }
    }

    // rt_free: memusage tells a large block from a chunk and leads to the chunk's zone.
    method Free(addr: nat, ghost r: Ptr)
      requires Valid() && IsBlock(View(), addr, r)
      modifies this, usage, arr, pages, pages.next, pages.size
      ensures Valid() && FreedAs(old(View()), zp, r, View())
    {
      var page := addr / PAGE;
      if r.ChunkAt? {
        ZoneOfAddress(View(), zp, r.page, r.k);
      } else {
        DropLargeKeeps(View(), r.page, zp);
      }
      match usage[page] {
        case LargePage(n) =>
          FreeLargeBlock(page, n);
        case Small(off) =>
          var p := page - off;
          var z := zones[p];
          FreeZoneChunk(p, (addr - p * PAGE - Offset(z.size)) / z.size);
        case FreePage(_) =>
          assert false;
      }
    }

    method FreeLargeBlock(p: nat, n: nat)
      requires Valid() && LiveLarge(View(), p) && ext[p].n == n
      modifies this, usage, pages, pages.next, pages.size
      ensures Valid() && FreedAs(old(View()), zp, LargeAt(p), View())
    {
      DropLargeKeeps(View(), p, zp);
      ghost var s' := DropLarge(View(), p);
      usage[p] := LargePage(0);
      ext := ext[p := Held(n)];
      assert View() == s';
      GiveBack(p, n);
    }

    // rt_page_free of held pages
    method GiveBack(p: nat, n: nat)
      requires Valid() && p in ext && ext[p] == Held(n)
      modifies this, pages, pages.next, pages.size
      ensures Valid() && View() == Return(old(View()), p)
    {
      ReturnKeeps(View(), p, zp);
      ghost var s' := Return(View(), p);
      assert OwnedAt(own, p, n);
      forall x: nat | p <= x < p + n
        ensures !FreeAt(pages.runs, x)
      {
        NotFree(View(), zp, p, x);
      }
      pages.PageFree(p, n);
      ext, own := s'.ext, s'.own;
      assert View() == s';
    }

    // rt_free of a chunk, once its zone is found.
    method FreeZoneChunk(p: nat, k: nat)
      requires Valid() && LiveChunk(View(), p, k)
      modifies this, usage, arr, pages, pages.next, pages.size
      ensures Valid() && FreedAs(old(View()), zp, ChunkAt(p, k), View())
    {
      FreeChunkKeeps(View(), p, k, zp);
      PutChunkKeeps(View(), p, k, zp);
      PutBack(p, k);
      var z := zones[p];
      if z.nfree == z.nmax && arr[z.zi] != [p] {
        RetireKeeps(View(), p, zp);
        var release := RetireZone(p);
        if release {
          GiveBack(p, zp);
        }
      }
    }

    // The chunk goes to the front of the zone's free list.
    method PutBack(p: nat, k: nat)
      requires Valid() && LiveChunk(View(), p, k)
      modifies `zones, `ext, arr
      ensures old(ext[p].zone.zi) < NZONES
      ensures Valid() && View() == PutChunk(old(View()), p, k)
    {
      PutChunkKeeps(View(), p, k, zp);
      ghost var s' := PutChunk(View(), p, k);
      var z := zones[p];
      if z.nfree == 0 {
        arr[z.zi] := [p] + arr[z.zi];
      }
      zones := zones[p := GiveChunk(z, k)];
      ext := ext[p := Active(GiveChunk(z, k))];
      assert View() == s';
    }

    // An empty zone becomes idle; release tells whether its pages are to be given back.
    method RetireZone(p: nat) returns (release: bool)
      requires Valid() && p in ext && ext[p].Active? && ext[p].zone.nfree == ext[p].zone.nmax
      modifies this, usage, arr
      ensures old(ext[p].zone.zi) < NZONES
      ensures Valid() && View() == Retire(old(View()), p, zp)
      ensures p in ext && (release <==> ext[p].Held?) && (release ==> ext[p] == Held(zp))
    {
      RetireKeeps(View(), p, zp);
      ghost var s' := Retire(View(), p, zp);
      var i := zones[p].zi;
      assert OwnedAt(own, p, zp);
      arr[i] := Without(arr[i], p);
      idle := [p] + idle;
      idleCnt := idleCnt + 1;
      release := idleCnt > THRESH;
      if release {
        idle := idle[1..];
        idleCnt := idleCnt - 1;
        MarkPages(p, false);
        ext := ext[p := Held(zp)];
      } else {
        ext := ext[p := Idle];
      }
      assert View() == s';
    }
  }

  ghost predicate IsBlock(s: State, addr: nat, r: Ptr) {
    match r
    case Nowhere => false
    case LargeAt(p) => LiveLarge(s, p) && addr == p * PAGE
    case ChunkAt(p, k) =>
      LiveChunk(s, p, k) && s.ext[p].zone.size > 0 && addr == ChunkAddr(s.ext[p].zone, p, k)
  }

  // The steps of rt_free.
  ghost predicate FreedAs(s: State, zp: nat, r: Ptr, s': State) {
    match r
    case Nowhere => false
    case LargeAt(p) =>
      LiveLarge(s, p) && p < |s.usage| && s' == Return(DropLarge(s, p), p)
    case ChunkAt(p, k) =>
      && LiveChunk(s, p, k) && s.ext[p].zone.zi < |s.arr|
      && var s1 := FreeChunk(s, p, k, zp);
         s' == if p in s1.ext && s1.ext[p].Held? then Return(s1, p) else s1
  }

  // Where rt_malloc gets a chunk from: a listed zone, else an idle one, else fresh pages.
  ghost predicate ServedFrom(s: State, n: nat, zp: nat, s': State, r: Ptr)
    requires Inv(s, zp) && 0 < n < Limit(zp) && n < ZONE_LIMIT
  {
    NewZoneOk(n, zp);
    ClassRange(n);
    var i := ZoneIndex(n).index;
    if s.arr[i] != [] then
      AllocChunkKeeps(s, i, zp);
      s' == AllocChunk(s, i).0 && r == ChunkAt(s.arr[i][0], AllocChunk(s, i).1)
    else if s.idle != [] then s' == ReuseZone(s, n, zp) && r == ChunkAt(s.idle[0], 0)
    else (s', r) == MallocNewZone(s, n, zp)
  }

  // A small request fails exactly when its list is empty, no zone is idle, and no contiguous
  // pages for another zone are free. Otherwise the chunk is large enough and was not live.
  lemma ServedExactlyWhen(s: State, n: nat, zp: nat, s': State, r: Ptr)
    requires Inv(s, zp) && 0 < n < Limit(zp) && n < ZONE_LIMIT && ServedFrom(s, n, zp, s', r)
    ensures ZoneIndex(n).index < |s.arr|
    ensures r == Nowhere <==>
      s.arr[ZoneIndex(n).index] == [] && s.idle == [] && !exists p: nat :: AllFree(s.runs, p, zp)
    ensures r != Nowhere ==>
      && r.ChunkAt? && LiveChunk(s', r.page, r.k) && !LiveChunk(s, r.page, r.k)
      && n <= s'.ext[r.page].zone.size
      && forall q, j: nat :: LiveChunk(s', q, j) <==> LiveChunk(s, q, j) || (q == r.page && j == r.k)
  {
    ClassRange(n);
    IndexIsSize(n);
    var i := ZoneIndex(n).index;
    if s.arr[i] != [] {
      AllocChunkKeeps(s, i, zp);
    } else if s.idle != [] {
      ReuseZoneKeeps(s, n, zp);
    } else {
      AllocFailsExactlyWhen(s.runs, zp);
      ReserveKeeps(s, zp, zp);
      var (s1, a) := Reserve(s, zp);
      if a.Page? {
        InstallZoneKeeps(s1, a.n, n, zp);
      }
    }
  }

  // Freeing a block ends exactly its life, and frees exactly the pages of a large block, or those of
  // a zone whose last chunk it was while two zones are idle and another one has free chunks.
  lemma FreedExactly(s: State, zp: nat, r: Ptr, s': State)
    requires Inv(s, zp) && FreedAs(s, zp, r, s')
    ensures Inv(s', zp)
    ensures r.LargeAt? ==>
      && (forall q, j: nat :: LiveChunk(s', q, j) <==> LiveChunk(s, q, j))
      && (forall q :: LiveLarge(s', q) <==> LiveLarge(s, q) && q != r.page)
      && (forall x: nat :: FreeAt(s'.runs, x) <==> FreeAt(s.runs, x) || r.page <= x < r.page + s.ext[r.page].n)
    ensures r.ChunkAt? ==>
      && (forall q, j: nat :: LiveChunk(s', q, j) <==> LiveChunk(s, q, j) && !(q == r.page && j == r.k))
      && (forall q :: LiveLarge(s', q) <==> LiveLarge(s, q))
      && (forall x: nat :: FreeAt(s'.runs, x) <==>
            FreeAt(s.runs, x) || (GivesUp(s, r.page, r.k) && r.page <= x < r.page + zp))
  {
    hide Inv;
    if r.LargeAt? {
      DropLargeKeeps(s, r.page, zp);
      PagesBack(DropLarge(s, r.page), r.page, zp);
    } else {
      FreeChunkKeeps(s, r.page, r.k, zp);
      ZoneRetires(s, r.page, r.k, zp);
      var s1 := FreeChunk(s, r.page, r.k, zp);
      if GivesUp(s, r.page, r.k) {
        PagesBack(s1, r.page, zp);
      }
    }
  }

  // k is the last live chunk of the zone at p, which is neither the only one of its class with room
  // nor needed as an idle one.
  ghost predicate GivesUp(s: State, p: nat, k: nat)
    requires p in s.ext && s.ext[p].Active?
  {
    (forall j: nat :: LiveChunk(s, p, j) ==> j == k) && Another(s, p) && |s.idle| == 2
  }

  lemma PagesBack(s: State, p: nat, zp: nat)
    requires Inv(s, zp) && p in s.ext && s.ext[p].Held?
    ensures Inv(Return(s, p), zp)
    ensures forall q, j: nat :: LiveChunk(Return(s, p), q, j) <==> LiveChunk(s, q, j)
    ensures forall q :: LiveLarge(Return(s, p), q) <==> LiveLarge(s, q)
    ensures forall x: nat :: FreeAt(Return(s, p).runs, x) <==> FreeAt(s.runs, x) || p <= x < p + s.ext[p].n
  {
    ReturnKeeps(s, p, zp);
    assert OwnedAt(s.own, p, s.ext[p].n);
    forall x: nat | p <= x < p + s.ext[p].n
      ensures !FreeAt(s.runs, x)
    {
      NotFree(s, zp, p, x);
    }
    FreeKeeps(s.runs, p, s.ext[p].n);
  }

  lemma PageCountRoom(n: nat)
    requires 0 < n < WORD_RANGE
    ensures if n > WORD_RANGE - PAGE then PageCount(n) == 0 else PageCount(n) > 0 && n <= PageCount(n) * PAGE
  {
  }

  // A large request fails exactly when there are no contiguous pages for it, or when rounding
  // it up wraps around; the block otherwise has room for it.
  lemma LargeExactlyWhen(s: State, n: nat, zp: nat)
    requires Inv(s, zp) && 0 < n < WORD_RANGE
    ensures var (s', r) := MallocLarge(s, n);
      && Inv(s', zp)
      && (r == Nowhere <==> n > WORD_RANGE - PAGE || !exists p: nat :: AllFree(s.runs, p, PageCount(n)))
      && (r != Nowhere ==> r.LargeAt? && !LiveLarge(s, r.page) && LiveLarge(s', r.page) && n <= s'.ext[r.page].n * PAGE)
  {
    var c := PageCount(n);
    PageCountRoom(n);
    AllocFailsExactlyWhen(s.runs, c);
    ReserveKeeps(s, c, zp);
    var (s1, a) := Reserve(s, c);
    if a.Page? {
      InstallLargeKeeps(s1, a.n, zp);
    }
  }
}
