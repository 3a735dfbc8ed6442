// The zones of the slab allocator, rt-thread/src/slab.c, on values. rt_malloc and rt_free take
// and release the heap lock several times; each locked region, and each call of the page
// allocator between them, is one step here, and steps of different callers interleave freely.
module SlabSpec {
  import opened Words
  import opened Lists
  import opened PageRuns
  import opened ZoneSizes

  const THRESH := 2 // ZONE_RELEASE_THRESH

  // struct slab_zone; `free` is the z_freechunk list, chunks by number.
  datatype Zone = Zone(zi: nat, size: nat, nmax: nat, uindex: nat, nfree: int, free: seq<nat>)

  // What a stretch of pages taken from the page allocator is used for. Held pages belong to a
  // caller between two locked regions.
  datatype Extent = Active(zone: Zone) | Idle | Large(n: nat) | Held(n: nat)

  datatype Owner = Nobody | Block(start: nat)

  // struct memusage: the type of a page, and pages allocated or offset in the zone
  datatype Usage = FreePage(size: nat) | Small(off: nat) | LargePage(n: nat)

  // `ext` maps the first page of every stretch to its use; `own` records the stretch every page
  // belongs to; `arr` is zone_array, `idle` the zone_free list.
  datatype State = State(ext: map<nat, Extent>, own: seq<Owner>, usage: seq<Usage>,
                         arr: seq<seq<nat>>, idle: seq<nat>, runs: seq<Run>)

  // ---- one zone ----

  ghost predicate ZoneOk(z: Zone, zp: nat) {
    && z.zi < NZONES && z.size == SizeOf(z.zi) && Offset(z.size) <= ZoneSize(zp)
    && 2 <= z.nmax == Chunks(zp, z.size) && z.uindex < z.nmax
    && NoDup(z.free) && (forall i :: 0 <= i < |z.free| ==> z.free[i] <= z.uindex)
    && z.nfree == (z.nmax - 1 - z.uindex) + |z.free|
  }

  ghost predicate ChunkLive(z: Zone, k: nat) { k <= z.uindex && k !in z.free }

  function NewZone(c: Class, zp: nat): Zone
    requires c.size > 0 && Offset(c.size) <= ZoneSize(zp)
  {
    Zone(c.index, c.size, Chunks(zp, c.size), 0, Chunks(zp, c.size) - 1, [])
  }

  // A never-used chunk while there is one, else the head of the free list.
  function TakeChunk(z: Zone): (Zone, nat)
    requires z.uindex + 1 == z.nmax ==> z.free != []
  {
    if z.uindex + 1 != z.nmax then (z.(uindex := z.uindex + 1, nfree := z.nfree - 1), z.uindex + 1)
    else (z.(free := z.free[1..], nfree := z.nfree - 1), z.free[0])
  }

  function GiveChunk(z: Zone, k: nat): Zone {
    z.(free := [k] + z.free, nfree := z.nfree + 1)
  }

  lemma NewZoneOk(n: nat, zp: nat)
    requires ZonePages(zp) && 0 < n < Limit(zp)
    ensures n < ZONE_LIMIT && Offset(ZoneIndex(n).size) <= ZoneSize(zp)
    ensures var z := NewZone(ZoneIndex(n), zp);
      ZoneOk(z, zp) && z.nfree > 0 && n <= z.size && forall k: nat :: ChunkLive(z, k) <==> k == 0
  {
    ChunksEnough(zp, n);
    ClassRange(n);
    IndexIsSize(n);
  }

  // Taking a chunk makes exactly one chunk live, and one that was not live before.
  lemma TakeChunkOk(z: Zone, zp: nat)
    requires ZoneOk(z, zp) && z.nfree > 0
    ensures z.uindex + 1 == z.nmax ==> z.free != []
    ensures var (z', k) := TakeChunk(z);
      && ZoneOk(z', zp) && k < z.nmax && !ChunkLive(z, k)
      && forall j: nat :: ChunkLive(z', j) <==> ChunkLive(z, j) || j == k
  {
    var (z', k) := TakeChunk(z);
    if z.uindex + 1 == z.nmax {
      assert z.free == [z.free[0]] + z.free[1..];
      assert forall i :: 0 <= i < |z'.free| ==> z'.free[i] == z.free[i + 1] != z.free[0];
    }
  }

  lemma GiveChunkOk(z: Zone, k: nat, zp: nat)
    requires ZoneOk(z, zp) && ChunkLive(z, k)
    ensures var z' := GiveChunk(z, k);
      && ZoneOk(z', zp)
      && forall j: nat :: ChunkLive(z', j) <==> ChunkLive(z, j) && j != k
  {
  }

  // A zone whose count says that it is empty has no live chunk.
  lemma EmptyZone(z: Zone, zp: nat, k: nat)
    requires ZoneOk(z, zp) && z.nfree == z.nmax
    ensures !ChunkLive(z, k)
  {
    if ChunkLive(z, k) {
      var used, all := [k] + z.free, seq(z.uindex + 1, i requires 0 <= i <= z.uindex => i);
      forall i | 0 <= i < |used|
        ensures used[i] in all
      {
        assert all[used[i]] == used[i];
      }
      NoDupShorter(used, all);
    }
  }

  // And only such a zone: the count is full exactly when no chunk is live.
  lemma EmptyExactly(z: Zone, zp: nat)
    requires ZoneOk(z, zp)
    ensures z.nfree == z.nmax <==> forall k: nat :: !ChunkLive(z, k)
  {
    if z.nfree == z.nmax {
      forall k: nat
        ensures !ChunkLive(z, k)
      {
        EmptyZone(z, zp, k);
      }
    }
    if forall k: nat :: !ChunkLive(z, k) {
      var all := seq(z.uindex + 1, i requires 0 <= i <= z.uindex => i);
      forall k: nat | k <= z.uindex
        ensures k in z.free && all[k] in all
      {
        assert !ChunkLive(z, k);
      }
      NoDupShorter(all, z.free);
      assert forall i :: 0 <= i < |z.free| ==> all[z.free[i]] == z.free[i];
      NoDupShorter(z.free, all);
    }
  }

  // ---- the invariant ----

  function Len(e: Extent, zp: nat): nat {
    match e
    case Active(_) => zp
    case Idle => zp
    case Large(n) => n
    case Held(n) => n
  }

  ghost predicate OwnedAt(own: seq<Owner>, s: nat, n: nat) {
    n > 0 && s + n <= |own| && forall x :: s <= x < s + n ==> own[x] == Block(s)
  }

  ghost predicate PageAt(ext: map<nat, Extent>, own: seq<Owner>, runs: seq<Run>, zp: nat, x: nat)
    requires x < |own|
  {
    && (own[x] == Nobody <==> FreeAt(runs, x))
    && (own[x].Block? ==> var s := own[x].start; s in ext && s <= x < s + Len(ext[s], zp))
  }

  // Every page is free or belongs to exactly one stretch, and the page list holds the free ones.
  ghost predicate PagesOk(ext: map<nat, Extent>, own: seq<Owner>, runs: seq<Run>, zp: nat) {
    && Canonical(runs) && Under(runs, |own|)
    && (forall s :: s in ext ==> OwnedAt(own, s, Len(ext[s], zp)))
    && (forall x: nat :: x < |own| ==> PageAt(ext, own, runs, zp, x))
  }

  // memusage leads from any page of a zone, or from the first page of a large block, back to it.
  ghost predicate UsageAt(e: Extent, usage: seq<Usage>, s: nat, zp: nat) {
    match e
    case Active(_) => SmallAt(usage, s, zp)
    case Idle => SmallAt(usage, s, zp)
    case Large(n) => s < |usage| && usage[s] == LargePage(n)
    case Held(_) => true
  }

  ghost predicate SmallAt(usage: seq<Usage>, s: nat, zp: nat) {
    s + zp <= |usage| && forall x :: s <= x < s + zp ==> usage[x] == Small(x - s)
  }

  ghost predicate Listed(ext: map<nat, Extent>, i: nat, z: nat) {
    z in ext && ext[z].Active? && ext[z].zone.zi == i && ext[z].zone.nfree > 0
  }

  // zone_array[i] lists exactly the zones of class i with free chunks, each once.
  ghost predicate ListOk(ext: map<nat, Extent>, arr: seq<seq<nat>>, i: nat)
    requires i < |arr|
  {
    NoDup(arr[i]) && forall z: nat :: z in arr[i] <==> Listed(ext, i, z)
  }

  ghost predicate ListsOk(ext: map<nat, Extent>, arr: seq<seq<nat>>) {
    |arr| == NZONES && forall i: nat :: i < NZONES ==> ListOk(ext, arr, i)
  }

  ghost predicate IsIdle(ext: map<nat, Extent>, z: nat) { z in ext && ext[z].Idle? }

  ghost predicate IdleOk(ext: map<nat, Extent>, idle: seq<nat>) {
    |idle| <= THRESH && NoDup(idle) && forall z: nat :: z in idle <==> IsIdle(ext, z)
  }

  ghost predicate ZonesOk(ext: map<nat, Extent>, zp: nat) {
    forall s :: s in ext && ext[s].Active? ==> ZoneOk(ext[s].zone, zp)
  }

  ghost predicate Inv(s: State, zp: nat) {
    && ZonePages(zp)
    && |s.usage| == |s.own|
    && PagesOk(s.ext, s.own, s.runs, zp)
    && (forall p :: p in s.ext ==> UsageAt(s.ext[p], s.usage, p, zp))
    && ZonesOk(s.ext, zp)
    && ListsOk(s.ext, s.arr)
    && IdleOk(s.ext, s.idle)
  }

  // ---- the steps ----

  ghost function Claim(own: seq<Owner>, p: nat, n: nat, o: Owner): seq<Owner> {
    seq(|own|, x requires 0 <= x < |own| => if p <= x < p + n then o else own[x])
  }

  function SetUsage(usage: seq<Usage>, p: nat, n: nat, small: bool): seq<Usage> {
    seq(|usage|, x requires 0 <= x < |usage| =>
      if p <= x < p + n then if small then Small(x - p) else FreePage(0) else usage[x])
  }

  // rt_page_alloc(n); the pages, if any, are in the caller's hands.
  ghost function Reserve(s: State, n: nat): (State, Addr) {
    var o := PageAllocSpec(s.runs, n);
    if o.addr.Null? then (s, Null)
    else
      (s.(runs := o.runs, ext := s.ext[o.addr.n := Held(n)], own := Claim(s.own, o.addr.n, n, Block(o.addr.n))), o.addr)
  }

  // rt_page_free of held pages
  ghost function Return(s: State, p: nat): State
    requires p in s.ext && s.ext[p].Held?
  {
    s.(runs := FreeSpec(s.runs, p, s.ext[p].n), ext := s.ext - {p}, own := Claim(s.own, p, s.ext[p].n, Nobody))
  }

  // rt_malloc: held pages become a large block.
  ghost function InstallLarge(s: State, p: nat): State
    requires p in s.ext && s.ext[p].Held? && p < |s.usage|
  {
    s.(ext := s.ext[p := Large(s.ext[p].n)], usage := s.usage[p := LargePage(s.ext[p].n)])
  }

  // rt_free of a large block: its pages are held until rt_page_free.
  ghost function DropLarge(s: State, p: nat): State
    requires p in s.ext && s.ext[p].Large? && p < |s.usage|
  {
    s.(ext := s.ext[p := Held(s.ext[p].n)], usage := s.usage[p := LargePage(0)])
  }

  // A fresh zone for requests of n bytes at page p, in front of its list.
  ghost function OpenZone(s: State, p: nat, n: nat, zp: nat): State
    requires 0 < n < ZONE_LIMIT && Offset(ZoneIndex(n).size) <= ZoneSize(zp) && |s.arr| == NZONES
  {
    ClassRange(n);
    var c := ZoneIndex(n);
    s.(ext := s.ext[p := Active(NewZone(c, zp))], arr := s.arr[c.index := [p] + s.arr[c.index]])
  }

  // rt_malloc: held pages become a zone; its chunk 0 is handed out.
  ghost function InstallZone(s: State, p: nat, n: nat, zp: nat): State
    requires 0 < n < ZONE_LIMIT && Offset(ZoneIndex(n).size) <= ZoneSize(zp) && |s.arr| == NZONES
  {
    OpenZone(s.(usage := SetUsage(s.usage, p, zp, true)), p, n, zp)
  }

  // rt_malloc: the first idle zone is reused; its chunk 0 is handed out.
  ghost function ReuseZone(s: State, n: nat, zp: nat): State
    requires 0 < n < ZONE_LIMIT && Offset(ZoneIndex(n).size) <= ZoneSize(zp) && |s.arr| == NZONES && s.idle != []
  {
    OpenZone(s.(idle := s.idle[1..]), s.idle[0], n, zp)
  }

  // rt_malloc from the first zone of list i.
  ghost function AllocChunk(s: State, i: nat): (State, nat)
    requires i < |s.arr| && s.arr[i] != [] && Listed(s.ext, i, s.arr[i][0])
    requires var z := s.ext[s.arr[i][0]].zone; z.uindex + 1 == z.nmax ==> z.free != []
  {
    var p := s.arr[i][0];
    var (z, k) := TakeChunk(s.ext[p].zone);
    (s.(ext := s.ext[p := Active(z)], arr := if z.nfree == 0 then s.arr[i := s.arr[i][1..]] else s.arr), k)
  }

  // rt_free of chunk k of the zone at p, up to the test whether the zone became empty.
  ghost function PutChunk(s: State, p: nat, k: nat): State
    requires p in s.ext && s.ext[p].Active? && s.ext[p].zone.zi < |s.arr|
  {
    var z := s.ext[p].zone;
    s.(ext := s.ext[p := Active(GiveChunk(z, k))],
       arr := if z.nfree == 0 then s.arr[z.zi := [p] + s.arr[z.zi]] else s.arr)
  }

  // The zone at p is empty and not the only one on its list.
  ghost predicate Retires(s: State, p: nat)
    requires p in s.ext && s.ext[p].Active? && s.ext[p].zone.zi < |s.arr|
  {
    s.ext[p].zone.nfree == s.ext[p].zone.nmax && s.arr[s.ext[p].zone.zi] != [p]
  }

  // It leaves its list for the idle zones; with too many of those its pages are given up.
  ghost function Retire(s: State, p: nat, zp: nat): State
    requires p in s.ext && s.ext[p].Active? && s.ext[p].zone.zi < |s.arr|
  {
    var i := s.ext[p].zone.zi;
    var s1 := s.(arr := s.arr[i := Without(s.arr[i], p)]);
    if |s.idle| + 1 > THRESH
    then s1.(ext := s.ext[p := Held(zp)], usage := SetUsage(s.usage, p, zp, false))
    else s1.(ext := s.ext[p := Idle], idle := [p] + s.idle)
  }

  // rt_free of chunk k of the zone at p.
  ghost function FreeChunk(s: State, p: nat, k: nat, zp: nat): State
    requires p in s.ext && s.ext[p].Active? && s.ext[p].zone.zi < |s.arr|
  {
    var s1 := PutChunk(s, p, k);
    if Retires(s1, p) then Retire(s1, p, zp) else s1
  }

  // ---- what is live ----

  ghost predicate LiveChunk(s: State, p: nat, k: nat) {
    p in s.ext && s.ext[p].Active? && ChunkLive(s.ext[p].zone, k)
  }

  ghost predicate LiveLarge(s: State, p: nat) { p in s.ext && s.ext[p].Large? }

  // Addresses count bytes from the start of the heap.
  function ChunkAddr(z: Zone, p: nat, k: nat): nat
    requires z.size > 0
  {
    p * PAGE + ChunkStart(z.size, k)
  }

  // ---- rt_malloc and rt_free of one caller, undisturbed ----

  datatype Ptr = Nowhere | LargeAt(page: nat) | ChunkAt(page: nat, k: nat)

  // RT_ALIGN(size, RT_MM_PAGE_SIZE) >> RT_MM_PAGE_BITS; the addition wraps in rt_size_t.
  function PageCount(n: nat): nat { (n + PAGE - 1) % WORD_RANGE / PAGE }

  ghost function MallocLarge(s: State, n: nat): (State, Ptr)
    requires |s.usage| == |s.own|
  {
    var (s1, a) := Reserve(s, PageCount(n));
    if a.Page? && a.n < |s1.usage| && a.n in s1.ext && s1.ext[a.n].Held? then (InstallLarge(s1, a.n), LargeAt(a.n))
    else (s1, Nowhere)
  }

  ghost function MallocNewZone(s: State, n: nat, zp: nat): (State, Ptr)
    requires 0 < n < ZONE_LIMIT && Offset(ZoneIndex(n).size) <= ZoneSize(zp) && |s.arr| == NZONES
  {
    var (s1, a) := Reserve(s, zp);
    if a.Page? then (InstallZone(s1, a.n, n, zp), ChunkAt(a.n, 0)) else (s1, Nowhere)
  }
}
