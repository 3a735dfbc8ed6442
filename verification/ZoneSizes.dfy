// Chunk sizes and zone layout of the slab allocator, rt-thread/src/slab.c.
module ZoneSizes {
  import opened Words

  const PAGE := 4096          // RT_MM_PAGE_SIZE
  const NZONES := 72
  const ZONE_HEADER := 36     // sizeof(slab_zone): nine words
  const ZONE_LIMIT := 16384   // ZALLOC_ZONE_LIMIT

  // The values of size that pass the test (size | (size - 1)) + 1 == size << 1 of rt_malloc;
  // see PowerTest.
  predicate PowerOfTwo(size: nat) {
    size == 8 || size == 16 || size == 32 || size == 64 || size == 128 || size == 256 || size == 512
    || size == 1024 || size == 2048 || size == 4096 || size == 8192 || size == 16384
  }

  // (n + m - 1) & ~(m - 1); see MaskRoundsUp.
  function RoundUp(n: nat, m: nat): (r: nat)
    requires PowerOfTwo(m)
    ensures n <= r < n + m && r % m == 0
  {
    (n + m - 1) / m * m
  }

  datatype Class = Class(index: nat, size: nat)

  // zoneindex, for the requests it is meant for: which zone list, and the size rounded up to
  // that zone's chunk size.
  function ZoneIndex(n: nat): Class
    requires 0 < n < ZONE_LIMIT
  {
    if n < 128 then Class(RoundUp(n, 8) / 8 - 1, RoundUp(n, 8))
    else if n < 256 then Class(RoundUp(n, 16) / 16 + 7, RoundUp(n, 16))
    else if n < 512 then Class(RoundUp(n, 32) / 32 + 15, RoundUp(n, 32))
    else if n < 1024 then Class(RoundUp(n, 64) / 64 + 23, RoundUp(n, 64))
    else if n < 2048 then Class(RoundUp(n, 128) / 128 + 31, RoundUp(n, 128))
    else if n < 4096 then Class(RoundUp(n, 256) / 256 + 39, RoundUp(n, 256))
    else if n < 8192 then Class(RoundUp(n, 512) / 512 + 47, RoundUp(n, 512))
    else Class(RoundUp(n, 1024) / 1024 + 55, RoundUp(n, 1024))
  }

  // The masks of zoneindex round up to a multiple of the granule.
  lemma MaskRoundsUp(n: bv16)
    requires n < 16384
    ensures (n + 7) & !7 == (n + 7) / 8 * 8
    ensures (n + 15) & !15 == (n + 15) / 16 * 16
    ensures (n + 31) & !31 == (n + 31) / 32 * 32
    ensures (n + 63) & !63 == (n + 63) / 64 * 64
    ensures (n + 127) & !127 == (n + 127) / 128 * 128
    ensures (n + 255) & !255 == (n + 255) / 256 * 256
    ensures (n + 511) & !511 == (n + 511) / 512 * 512
    ensures (n + 1023) & !1023 == (n + 1023) / 1024 * 1024
  {
  }

  lemma ClassRange(n: nat)
    requires 0 < n < ZONE_LIMIT
    ensures ZoneIndex(n).index < NZONES && n <= ZoneIndex(n).size <= ZONE_LIMIT
  {
  }

  // The request a class index stands for: the inverse of ZoneIndex on sizes.
  function SizeOf(i: nat): nat
    requires i < NZONES
  {
    if i < 16 then 8 * (i + 1)
    else if i < 24 then 16 * (i - 7)
    else if i < 32 then 32 * (i - 15)
    else if i < 40 then 64 * (i - 23)
    else if i < 48 then 128 * (i - 31)
    else if i < 56 then 256 * (i - 39)
    else if i < 64 then 512 * (i - 47)
    else 1024 * (i - 55)
  }

  // The index determines the chunk size ...
  lemma IndexIsSize(n: nat)
    requires 0 < n < ZONE_LIMIT
    ensures ZoneIndex(n).index < NZONES && SizeOf(ZoneIndex(n).index) == ZoneIndex(n).size
  {
  }

  // ... and different classes have different sizes, in order.
  lemma SizesIncrease(i: nat, j: nat)
    requires i < j < NZONES
    ensures SizeOf(i) < SizeOf(j)
  {
  }

  lemma ClassDetermined(n: nat, m: nat)
    requires 0 < n < ZONE_LIMIT && 0 < m < ZONE_LIMIT
    ensures ZoneIndex(n).index == ZoneIndex(m).index <==> ZoneIndex(n).size == ZoneIndex(m).size
  {
    IndexIsSize(n);
    IndexIsSize(m);
    var i, j := ZoneIndex(n).index, ZoneIndex(m).index;
    if i < j { SizesIncrease(i, j); } else if j < i { SizesIncrease(j, i); }
  }

  // The chunk is the smallest that fits ...
  lemma SmallestClass(n: nat, i: nat)
    requires 0 < n < ZONE_LIMIT && i < ZoneIndex(n).index
    ensures i < NZONES && SizeOf(i) < n
  {
    ClassRange(n);
  }

  // ... so a larger request never gets a smaller one.
  lemma ClassMonotone(n: nat, m: nat)
    requires 0 < n <= m < ZONE_LIMIT
    ensures ZoneIndex(n).index <= ZoneIndex(m).index && ZoneIndex(n).size <= ZoneIndex(m).size
  {
    IndexIsSize(n);
    IndexIsSize(m);
    ClassRange(m);
    var i, j := ZoneIndex(n).index, ZoneIndex(m).index;
    if j < i {
      SmallestClass(n, j);
    } else if i < j {
      SizesIncrease(i, j);
    }
  }

  // At most seven bytes, or less than an eighth of the request, are wasted.
  lemma WasteBounded(n: nat)
    requires 0 < n < ZONE_LIMIT
    ensures n < 128 ==> ZoneIndex(n).size - n < 8
    ensures n >= 128 ==> 8 * (ZoneIndex(n).size - n) < n
  {
  }

  // Asking for a chunk size gives that class again, but for the largest, which exceeds the
  // zone limit.
  lemma SizeIsOwnClass(n: nat)
    requires 0 < n < ZONE_LIMIT && ZoneIndex(n).size < ZONE_LIMIT
    ensures ZoneIndex(ZoneIndex(n).size) == ZoneIndex(n)
  {
    IndexIsSize(n);
    OwnClass(ZoneIndex(n).index);
  }

  lemma OwnClass(i: nat)
    requires i < NZONES - 1
    ensures 0 < SizeOf(i) < ZONE_LIMIT && ZoneIndex(SizeOf(i)) == Class(i, SizeOf(i))
  {
  }

  // ---- zone layout ----

  // The test of rt_malloc holds exactly for numbers with one bit set.
  lemma PowerTest(x: bv16)
    requires 0 < x <= 16384
    ensures (x | (x - 1)) + 1 == x << 1 <==> x & (x - 1) == 0
    ensures x >= 8 ==> (x & (x - 1) == 0 <==>
      x == 8 || x == 16 || x == 32 || x == 64 || x == 128 || x == 256 || x == 512
      || x == 1024 || x == 2048 || x == 4096 || x == 8192 || x == 16384)
  {
  }

  // Offset of the first chunk: behind the header, aligned to the size for powers of two and
  // to eight bytes otherwise.
  function Offset(size: nat): nat
    requires size > 0
  {
    if PowerOfTwo(size) then RoundUp(ZONE_HEADER, size) else RoundUp(ZONE_HEADER, 8)
  }

  function ZoneSize(zp: nat): nat { zp * PAGE }

  // rt_system_heap_init picks 32, 64 or 128 KB zones.
  predicate ZonePages(zp: nat) { zp == 8 || zp == 16 || zp == 32 }

  // zone_limit
  function Limit(zp: nat): nat {
    if ZoneSize(zp) / 4 > ZONE_LIMIT then ZONE_LIMIT else ZoneSize(zp) / 4
  }

  // Requests for a quarter of a zone, or for 16 KB, and more are large.
  lemma LimitIs(zp: nat, n: nat)
    ensures n < Limit(zp) <==> n < 16384 && n < zp * 4096 / 4
    ensures Limit(8) == 8192 && Limit(16) == Limit(32) == 16384
  {
  }

  function Chunks(zp: nat, size: nat): nat
    requires size > 0 && Offset(size) <= ZoneSize(zp)
  {
    (ZoneSize(zp) - Offset(size)) / size
  }

  function ChunkStart(size: nat, k: nat): nat
    requires size > 0
  {
    Offset(size) + k * size
  }

  lemma OffsetBound(size: nat)
    requires size > 0
    ensures ZONE_HEADER <= Offset(size) && Offset(size) <= ZONE_HEADER + size + 8
    ensures 0 < size <= ZONE_LIMIT ==> Offset(size) <= ZONE_LIMIT
  {
  }

  // Every class has room for at least three chunks, so a zone never starts out full.
  lemma ChunksEnough(zp: nat, n: nat)
    requires ZonePages(zp) && 0 < n < Limit(zp)
    ensures n < ZONE_LIMIT
    ensures var size := ZoneIndex(n).size; Offset(size) <= ZoneSize(zp) && Chunks(zp, size) >= 3
  {
    var size := ZoneIndex(n).size;
    assert size <= ZoneSize(zp) / 4;
    OffsetBound(size);
    assert ZoneSize(zp) - Offset(size) >= 3 * size;
    DivAtLeast(ZoneSize(zp) - Offset(size), size, 3);
  }

  lemma DivAtLeast(a: nat, b: nat, k: nat)
    requires b > 0 && a >= k * b
    ensures a / b >= k
  {
    if a / b < k {
      MulLess(a / b, k, b);
    }
  }

  // Chunks lie behind the header, inside the zone, ...
  lemma ChunkInside(zp: nat, size: nat, k: nat)
    requires size > 0 && Offset(size) <= ZoneSize(zp) && k < Chunks(zp, size)
    ensures ZONE_HEADER <= ChunkStart(size, k) && ChunkStart(size, k) + size <= ZoneSize(zp)
  {
    var room := ZoneSize(zp) - Offset(size);
    MulLess(k, room / size, size);
    OffsetBound(size);
  }

  // ... are as many as fit ...
  lemma ChunksMost(zp: nat, size: nat)
    requires size > 0 && Offset(size) <= ZoneSize(zp)
    ensures ChunkStart(size, Chunks(zp, size)) + size > ZoneSize(zp)
    ensures Offset(size) < ZONE_HEADER + (if PowerOfTwo(size) then size else 8)
  {
    var room := ZoneSize(zp) - Offset(size);
    assert room == room / size * size + room % size;
  }

  // ... do not overlap, ...
  lemma ChunksApart(size: nat, j: nat, k: nat)
    requires size > 0 && j < k
    ensures ChunkStart(size, j) + size <= ChunkStart(size, k)
  {
    MulLess(j, k, size);
  }

  // ... and power-of-two chunks are naturally aligned exactly when their zone is.
  lemma ChunkAligned(size: nat, z: nat, k: nat)
    requires PowerOfTwo(size)
    ensures (z * PAGE + ChunkStart(size, k)) % size == 0 <==> (z * PAGE) % size == 0
  {
    var o := Offset(size) / size;
    assert o * size == Offset(size);
    assert (o + k) * size == ChunkStart(size, k);
    MultipleAdded(z * PAGE, o + k, size);
  }

  // Zones start on pages, which is enough for chunks up to a page.
  lemma SmallChunkAligned(size: nat, z: nat, k: nat)
    requires PowerOfTwo(size) && size <= PAGE
    ensures (z * PAGE + ChunkStart(size, k)) % size == 0
  {
    PowerDivides(size);
    ChunkAligned(size, z, k);
    PagesAligned(z, size);
    hide PowerOfTwo, ChunkStart;
  }

  lemma PowerDivides(size: nat)
    requires PowerOfTwo(size) && size <= PAGE
    ensures PAGE % size == 0
  {
    if size == 8 || size == 16 || size == 32 || size == 64 {
    } else if size == 128 || size == 256 || size == 512 {
    }
  }

  lemma {:induction false} PagesAligned(z: nat, size: nat)
    requires size > 0 && PAGE % size == 0
    ensures (z * PAGE) % size == 0
  {
    if z > 0 {
      PagesAligned(z - 1, size);
      var q := PAGE / size;
      assert q * size == PAGE;
      assert z * PAGE == (z - 1) * PAGE + q * size;
      MultipleAdded((z - 1) * PAGE, q, size);
    }
  }

  // A chunk of two pages in a zone on an odd page is not.
  lemma LargeChunkMisaligned()
    ensures PowerOfTwo(8192) && (1 * PAGE + ChunkStart(8192, 0)) % 8192 != 0
  {
    ChunkAligned(8192, 1, 0);
  }

  lemma MultipleAdded(a: nat, m: nat, b: nat)
    requires b > 0
    ensures (a + m * b) % b == a % b
  {
    assert (a / b + m) * b == a / b * b + m * b;
    DivUnique(a + m * b, b, a / b + m, a % b);
  }

  lemma DivUnique(x: int, b: nat, q: int, r: nat)
    requires b > 0 && x == q * b + r && r < b
    ensures x / b == q && x % b == r
  {
    var q2 := x / b;
    assert x == q2 * b + x % b;
    if q < q2 {
      MulLess(q, q2, b);
    } else if q2 < q {
      MulLess(q2, q, b);
    }
  }
}
