// The bitmaps of rt-thread/src/scheduler.c that tell which priorities have ready threads, and
// __rt_ffs of kservice.c, which finds the best one. Smaller priority numbers are better. With up
// to 32 priorities one word holds a bit each; with more, a byte holds the bits of eight
// priorities and the word tells which bytes are not zero. A word or byte is modelled by its
// bits, least significant first; or-ing in or masking out `1 << n` sets or clears bit n.
module ReadyBits {

  type Bits = seq<bool>

  function Zeros(n: nat): Bits { seq(n, _ => false) }

  predicate Any(b: Bits) { true in b }

  // ---- __rt_ffs ----

  // __lowest_bit_bitmap: the number of the lowest bit that is set, 0 if none is.
  function LowestBit(b: Bits): nat {
    if b == [] || b[0] || !Any(b) then 0 else 1 + LowestBit(b[1..])
  }

  // The byte of the word from bit k on, if it is not zero, decides.
  function Ffs(w: Bits): nat
    requires |w| == 32
  {
    if !Any(w) then 0
    else if Any(w[..8]) then LowestBit(w[..8]) + 1
    else if Any(w[8..16]) then LowestBit(w[8..16]) + 9
    else if Any(w[16..24]) then LowestBit(w[16..24]) + 17
    else LowestBit(w[24..]) + 25
  }

  ghost predicate IsLowest(b: Bits, n: nat) {
    n < |b| && b[n] && forall k :: 0 <= k < n ==> !b[k]
  }

  lemma {:induction false} LowestBitIs(b: Bits)
    requires Any(b)
    ensures IsLowest(b, LowestBit(b))
    decreases |b|
  {
    if !b[0] {
      assert b == [b[0]] + b[1..];
      LowestBitIs(b[1..]);
    }
  }

  // __rt_ffs is the number, counted from one, of the lowest bit that is set, 0 if none is.
  lemma FfsIsLowest(w: Bits)
    requires |w| == 32
    ensures Ffs(w) == 0 <==> !Any(w)
    ensures Any(w) ==> Ffs(w) > 0 && IsLowest(w, Ffs(w) - 1)
  {
    if Any(w) {
      var from := if Any(w[..8]) then 0 else if Any(w[8..16]) then 8 else if Any(w[16..24]) then 16 else 24;
      assert forall k :: 0 <= k < from ==> !w[k] by {
        forall k | 0 <= k < from
          ensures !w[k]
        {
          assert k < 8 ==> w[..8][k] == w[k];
          assert 8 <= k < 16 ==> w[8..16][k - 8] == w[k];
          assert 16 <= k < 24 ==> w[16..24][k - 16] == w[k];
        }
      }
      var byte := w[from..from + 8];
      assert from == 24 ==> w[24..] == byte;
      var i :| 0 <= i < 32 && w[i];
      assert from == 24 ==> byte[i - 24];
      LowestBitIs(byte);
    }
  }

  // ---- the two shapes of the bitmap ----

  // `group` is rt_thread_ready_priority_group, `ready` is rt_thread_ready_table.
  datatype Bitmap = Bitmap(wide: bool, group: Bits, ready: seq<Bits>)

  predicate PrioOk(wide: bool, p: nat) { if wide then p < 256 else p < 32 }

  // The word tells which bytes are not zero.
  ghost predicate BitmapOk(b: Bitmap) {
    && |b.group| == 32 && |b.ready| == 32 && (forall n :: 0 <= n < 32 ==> |b.ready[n]| == 8)
    && (b.wide ==> forall n :: 0 <= n < 32 ==> (b.group[n] <==> Any(b.ready[n])))
  }

  // Priority p is marked as having ready threads.
  ghost predicate Marked(b: Bitmap, p: nat)
    requires BitmapOk(b) && PrioOk(b.wide, p)
  {
    if b.wide then b.ready[p / 8][p % 8] else b.group[p]
  }

  // The last lines of rt_schedule_insert_thread
  function Mark(b: Bitmap, p: nat): Bitmap
    requires BitmapOk(b) && PrioOk(b.wide, p)
  {
    if b.wide then
      b.(ready := b.ready[p / 8 := b.ready[p / 8][p % 8 := true]], group := b.group[p / 8 := true])
    else b.(group := b.group[p := true])
  }

  // The last lines of rt_schedule_remove_thread, for a list that became empty
  function Unmark(b: Bitmap, p: nat): Bitmap
    requires BitmapOk(b) && PrioOk(b.wide, p)
  {
    if b.wide then
      var byte := b.ready[p / 8][p % 8 := false];
      b.(ready := b.ready[p / 8 := byte], group := if !Any(byte) then b.group[p / 8 := false] else b.group)
    else b.(group := b.group[p := false])
  }

  // _get_highest_priority_thread
  function Highest(b: Bitmap): int
    requires BitmapOk(b) && Any(b.group)
  {
    FfsIsLowest(b.group);
    var number := Ffs(b.group) - 1;
    if b.wide then number * 8 + Ffs(b.ready[number] + Zeros(24)) - 1 else number
  }

  lemma MarkOk(b: Bitmap, p: nat)
    requires BitmapOk(b) && PrioOk(b.wide, p)
    ensures BitmapOk(Mark(b, p))
    ensures forall q: nat :: PrioOk(b.wide, q) ==> (Marked(Mark(b, p), q) <==> p == q || Marked(b, q))
  {
    if b.wide {
      assert Mark(b, p).ready[p / 8][p % 8];
    }
  }

  lemma UnmarkOk(b: Bitmap, p: nat)
    requires BitmapOk(b) && PrioOk(b.wide, p)
    ensures BitmapOk(Unmark(b, p))
    ensures forall q: nat :: PrioOk(b.wide, q) ==> (Marked(Unmark(b, p), q) <==> p != q && Marked(b, q))
  {
    if b.wide {
      var byte := b.ready[p / 8][p % 8 := false];
      if Any(byte) {
        var i :| 0 <= i < 8 && byte[i];
        assert b.ready[p / 8][i];
      }
    }
  }

  // When some priority is marked, the search finds the best marked one.
  lemma HighestIsBest(b: Bitmap, p: nat)
    requires BitmapOk(b) && PrioOk(b.wide, p) && Marked(b, p)
    ensures Any(b.group) && 0 <= Highest(b) && PrioOk(b.wide, Highest(b)) && Marked(b, Highest(b)) && Highest(b) <= p
  {
    if b.wide {
      WideBest(b, p);
    } else {
      assert b.group[p];
      FfsIsLowest(b.group);
    }
  }

  lemma WideBest(b: Bitmap, p: nat)
    requires BitmapOk(b) && b.wide && p < 256 && Marked(b, p)
    ensures Any(b.group) && 0 <= Highest(b) < 256 && Marked(b, Highest(b)) && Highest(b) <= p
  {
    assert Any(b.ready[p / 8]) && b.group[p / 8];
    FfsIsLowest(b.group);
    var n := Ffs(b.group) - 1;
    assert b.group[n] && n <= p / 8;
    assert Any(b.ready[n]);
    ByteLowest(b.ready[n]);
    var r := Ffs(b.ready[n] + Zeros(24)) - 1;
    assert Highest(b) == n * 8 + r;
    assert (n * 8 + r) / 8 == n && (n * 8 + r) % 8 == r;
    assert n == p / 8 ==> r <= p % 8;
  }

  lemma ByteLowest(byte: Bits)
    requires |byte| == 8 && Any(byte)
    ensures Ffs(byte + Zeros(24)) > 0 && IsLowest(byte, Ffs(byte + Zeros(24)) - 1)
  {
    var w := byte + Zeros(24);
    var i :| 0 <= i < 8 && byte[i];
    assert w[i];
    FfsIsLowest(w);
    assert forall k :: 0 <= k < 8 ==> w[k] == byte[k];
  }

  // With nothing marked the word is zero.
  lemma NothingMarked(b: Bitmap)
    requires BitmapOk(b) && forall p: nat :: PrioOk(b.wide, p) ==> !Marked(b, p)
    ensures !Any(b.group)
  {
    if Any(b.group) {
      var n :| 0 <= n < 32 && b.group[n];
      if b.wide {
        var i :| 0 <= i < 8 && b.ready[n][i];
        assert Marked(b, n * 8 + i);
      } else {
        assert Marked(b, n);
      }
    }
  }

  // ---- __rt_ffs on machine words ----

  function LowestBitOf(b: bv32): bv32 {
    if b & 0x01 != 0 then 0
    else if b & 0x02 != 0 then 1
    else if b & 0x04 != 0 then 2
    else if b & 0x08 != 0 then 3
    else if b & 0x10 != 0 then 4
    else if b & 0x20 != 0 then 5
    else if b & 0x40 != 0 then 6
    else if b & 0x80 != 0 then 7
    else 0
  }

  function FfsWord(value: bv32): bv32 {
    if value == 0 then 0
    else if value & 0xff != 0 then LowestBitOf(value & 0xff) + 1
    else if value & 0xff00 != 0 then LowestBitOf((value & 0xff00) >> 8) + 9
    else if value & 0xff_0000 != 0 then LowestBitOf((value & 0xff_0000) >> 16) + 17
    else LowestBitOf((value & 0xff00_0000) >> 24) + 25
  }

  // The same on 32-bit words: bit FfsWord(value) - 1 is set and all lower bits are clear.
  lemma FfsWordIsLowest(value: bv32)
    ensures FfsWord(value) == 0 <==> value == 0
    ensures value != 0 ==>
      && 1 <= FfsWord(value) && FfsWord(value) <= 32
      && value & (1 << (FfsWord(value) - 1)) != 0
      && value & ((1 << (FfsWord(value) - 1)) - 1) == 0
  {
  }
}
