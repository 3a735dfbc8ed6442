// The page buffer of qu_dong/OLED/OLED.c: 8 pages of 128 bytes, a byte holding eight pixels of
// one column, top pixel in bit 0. A byte is modelled by its bits, least significant first; the
// lemmas at the end tie the operations used here to those on eight-bit words.
module Oled {

  const PAGES := 8
  const COLUMNS := 128
  const ROWS := 64
  const INT16_MAX := 0x7FFF

  type Int16 = i: int | -0x8000 <= i <= INT16_MAX

  type UInt8 = i: int | 0 <= i <= 0xFF

  type Byte = b: seq<bool> | |b| == 8 witness [false, false, false, false, false, false, false, false]

  // (uint8_t)(b << s) and b >> s
  function Shl(b: Byte, s: nat): (r: Byte) { seq(8, k requires 0 <= k < 8 => k >= s && b[k - s]) }

  function Shr(b: Byte, s: nat): (r: Byte) { seq(8, k requires 0 <= k < 8 => k + s < 8 && b[k + s]) }

  function Or(a: Byte, b: Byte): (r: Byte) { seq(8, k requires 0 <= k < 8 => a[k] || b[k]) }

  // C's / and % by eight
  function CDiv8(a: int): int { if a >= 0 then a / 8 else -((-a) / 8) }

  function CMod8(a: int): int { a - 8 * CDiv8(a) }

  // (Height - 1) / 8 + 1: an image of no height still has one page.
  function ImagePages(height: nat): nat { CDiv8(height - 1) + 1 }

  // As many pages as it takes to cover the rows of the image, and no more.
  lemma PagesCover(height: nat)
    ensures height >= 1 ==> 8 * (ImagePages(height) - 1) < height <= 8 * ImagePages(height)
    ensures ImagePages(height) == if height == 0 then 1 else (height + 7) / 8
  {
  }

  // Row r of column c of an image of the given width, page by page.
  function ImageBit(image: seq<Byte>, width: nat, c: nat, r: nat): bool
    requires c < width && (r / 8) * width + c < |image|
  {
    image[(r / 8) * width + c][r % 8]
  }

  predicate Inside(x: int, y: int, left: int, top: int, width: nat, height: nat) {
    left <= x < left + width && top <= y < top + height
  }

  predicate OnScreen(x: int, y: int) { 0 <= x < COLUMNS && 0 <= y < ROWS }

  // A byte for every eight rows, or part of them, of every column; at least one a column.
  ghost predicate ImageOk(image: seq<Byte>, width: nat, height: nat) {
    |image| >= (if height == 0 then 1 else (height + 7) / 8) * width
  }

  lemma ImageIndex(image: seq<Byte>, width: nat, pages: nat, c: nat, j: nat)
    requires |image| >= pages * width && c < width && j < pages
    ensures 0 <= j * width + c < |image|
  {
    assert (j + 1) * width <= pages * width;
    assert (j + 1) * width == j * width + width;
  }

  // Column c, row r of the image is set; false outside its pages.
  ghost predicate Painted(image: seq<Byte>, width: nat, height: nat, c: int, r: int)
    requires ImageOk(image, width, height)
  {
    0 <= c < width && 0 <= r < 8 * ImagePages(height)
    && (ImageIndex(image, width, ImagePages(height), c, r / 8); ImageBit(image, width, c, r))
  }

  // Bit r % 8 of byte (r / 8) * width + c of the image
  ghost predicate BitAt(image: seq<Byte>, width: nat, c: int, r: int) {
    0 <= c < width && 0 <= r && (r / 8) * width + c < |image| && image[(r / 8) * width + c][r % 8]
  }

  // The rows that fill up the last byte of each column, or the one byte of an image of no height,
  // are blank.
  ghost predicate BlankBelow(image: seq<Byte>, width: nat, height: nat) {
    forall c, r :: height <= r && (r < 8 || r < (height + 7) / 8 * 8) ==> !BitAt(image, width, c, r)
  }

  // What OLED_ShowImage makes of a pixel that was `was`.
  ghost predicate After(image: seq<Byte>, width: nat, height: nat, X: int, Y: int, x: int, y: int, was: bool)
    requires ImageOk(image, width, height)
  {
    Painted(image, width, height, x - X, y - Y) || (!Inside(x, y, X, Y, width, height) && was)
  }

  // An image that is blank below is shown bit by bit, and everything around it is left alone.
  lemma PixelPerfect(image: seq<Byte>, width: nat, height: nat, X: int, Y: int, x: int, y: int, was: bool)
    requires ImageOk(image, width, height) && BlankBelow(image, width, height)
    ensures Inside(x, y, X, Y, width, height) ==>
      && 0 <= (y - Y) / 8 * width + (x - X) < |image|
      && (After(image, width, height, X, Y, x, y, was) <==> image[(y - Y) / 8 * width + (x - X)][(y - Y) % 8])
    ensures !Inside(x, y, X, Y, width, height) ==> After(image, width, height, X, Y, x, y, was) == was
  {
    PaintedBits(image, width, height, x - X, y - Y);
  }

  // What is painted, without reference to pages.
  lemma PaintedBits(image: seq<Byte>, width: nat, height: nat, c: int, r: int)
    requires ImageOk(image, width, height)
    ensures Painted(image, width, height, c, r) <==> (r < 8 || r < (height + 7) / 8 * 8) && BitAt(image, width, c, r)
    ensures 0 <= c < width && 0 <= r < height ==> 0 <= r / 8 * width + c < |image|
  {
    PagesCover(height);
    if 0 <= c < width && 0 <= r < 8 * ImagePages(height) {
      ImageIndex(image, width, ImagePages(height), c, r / 8);
    }
  }

  // ---- the 16-bit counters of OLED_ClearArea ----

  // i ++
  function Inc(i: Int16): Int16 { if i == INT16_MAX then -0x8000 else i + 1 }

  // The counter of a loop that starts at `first`, after n rounds.
  function Counter(first: Int16, n: nat): Int16 {
    if n == 0 then first else Inc(Counter(first, n - 1))
  }

  // for (i = first; i < bound; i ++) is over after n rounds, and not before.
  ghost predicate OverAt(first: Int16, bound: int, n: nat) {
    Counter(first, n) >= bound && forall k: nat :: k < n ==> Counter(first, k) < bound
  }

  ghost predicate Ends(first: Int16, bound: int) { exists n: nat :: OverAt(first, bound, n) }

  // The outer loop is over after n rounds, in each of which the inner loop ends.
  ghost predicate AreaOverAt(X: Int16, Y: Int16, width: UInt8, height: UInt8, n: nat) {
    OverAt(Y, Y + height, n) && (n > 0 ==> Ends(X, X + width))
  }

  ghost predicate AreaEnds(X: Int16, Y: Int16, width: UInt8, height: UInt8) {
    exists n: nat :: AreaOverAt(X, Y, width, height, n)
  }

  predicate Countable(X: Int16, Y: Int16, width: UInt8, height: UInt8) {
    height == 0 || (X + width <= INT16_MAX && Y + height <= INT16_MAX)
  }

  lemma {:induction false} CounterCounts(first: Int16, n: nat)
    requires first + n <= INT16_MAX
    ensures Counter(first, n) == first + n
  {
    if n > 0 {
      CounterCounts(first, n - 1);
    }
  }

  // The rounds in which the counter has reached the bound: from the last one on, if the bound
  // is a 16-bit number, and otherwise none.
  lemma OverExactlyAt(first: Int16, size: UInt8, n: nat)
    ensures OverAt(first, first + size, n) <==> n == size && first + size <= INT16_MAX
  {
    if first + size <= INT16_MAX {
      forall k: nat | k <= size
        ensures Counter(first, k) == first + k
      {
        CounterCounts(first, k);
      }
      assert Counter(first, size) == first + size;
    }
  }

  // The loops of OLED_ClearArea end exactly for areas of no height and for those whose bounds
  // are 16-bit numbers.
  lemma AreaEndsExactly(X: Int16, Y: Int16, width: UInt8, height: UInt8)
    ensures AreaEnds(X, Y, width, height) <==> Countable(X, Y, width, height)
  {
    OverExactlyAt(X, width, width);
    OverExactlyAt(Y, height, height);
    if Countable(X, Y, width, height) {
      assert AreaOverAt(X, Y, width, height, height);
    }
    if n: nat :| AreaOverAt(X, Y, width, height, n) {
      OverExactlyAt(Y, height, n);
      if n > 0 {
        var k: nat :| OverAt(X, X + width, k);
        OverExactlyAt(X, width, k);
      }
    }
  }

  // Clearing one pixel at the right end of the coordinates never ends.
  lemma AreaRunsForever()
    ensures !AreaEnds(INT16_MAX, 0, 1, 1) && forall n: nat :: Counter(INT16_MAX, n) < INT16_MAX + 1
  {
    AreaEndsExactly(INT16_MAX, 0, 1, 1);
  }

  class Screen {
    const buf: array2<Byte> // OLED_DisplayBuf

    ghost predicate Valid() { buf.Length0 == PAGES && buf.Length1 == COLUMNS }

    constructor ()
      ensures Valid() && fresh(buf)
      ensures forall x, y :: OnScreen(x, y) ==> !Pixel(x, y)
    {
      buf := new Byte[PAGES, COLUMNS]((p, x) => [false, false, false, false, false, false, false, false]);
    }

    ghost predicate Pixel(x: int, y: int)
      requires Valid() && OnScreen(x, y)
      reads buf
    {
      buf[y / 8, x][y % 8]
    }

    // OLED_DrawPoint
    method DrawPoint(X: int, Y: int)
      requires Valid()
      modifies buf
      ensures forall x, y :: OnScreen(x, y) ==> (Pixel(x, y) <==> (x == X && y == Y) || old(Pixel(x, y)))
    {
      if X >= 0 && X <= 127 && Y >= 0 && Y <= 63 {
        buf[Y / 8, X] := buf[Y / 8, X][Y % 8 := true];
      }
    }

    // OLED_GetPoint
    method GetPoint(X: int, Y: int) returns (r: nat)
      requires Valid()
      ensures r == if OnScreen(X, Y) && Pixel(X, Y) then 1 else 0
    {
      if X >= 0 && X <= 127 && Y >= 0 && Y <= 63 {
        if buf[Y / 8, X][Y % 8] {
          return 1;
        }
      }
      return 0;
    }

    // OLED_ClearArea, for the areas on which it ends; see AreaEndsExactly.
    method ClearArea(X: Int16, Y: Int16, width: UInt8, height: UInt8)
      requires Valid() && Countable(X, Y, width, height)
      modifies buf
      ensures forall x, y :: OnScreen(x, y) ==>
        (Pixel(x, y) <==> !Inside(x, y, X, Y, width, height) && old(Pixel(x, y)))
    {
      var j: Int16 := Y;
      while j < Y + height
        invariant Y <= j <= Y + height
        invariant forall x, y :: OnScreen(x, y) ==>
          (Pixel(x, y) <==> !Inside(x, y, X, Y, width, j - Y) && old(Pixel(x, y)))
      {
        ClearRow(X, j, width);
        j := Inc(j);
      }
    }

    method ClearRow(X: Int16, j: Int16, width: UInt8)
      requires Valid() && X + width <= INT16_MAX
      modifies buf
      ensures forall x, y :: OnScreen(x, y) ==> (Pixel(x, y) <==> !(y == j && X <= x < X + width) && old(Pixel(x, y)))
    {
      var i: Int16 := X;
      while i < X + width
        invariant X <= i <= X + width
        invariant forall x, y :: OnScreen(x, y) ==> (Pixel(x, y) <==> !(y == j && X <= x < i) && old(Pixel(x, y)))
      {
        if i >= 0 && i <= 127 && j >= 0 && j <= 63 {
          buf[j / 8, i] := buf[j / 8, i][j % 8 := false];
        }
        i := Inc(i);
      }
    }

    // OLED_ShowImage: the rectangle is cleared and the image or-ed in, page by page.
    method ShowImage(X: Int16, Y: Int16, width: UInt8, height: UInt8, image: seq<Byte>)
      requires Valid() && Countable(X, Y, width, height)
      requires ImageOk(image, width, height)
      modifies buf
      ensures BlankBelow(image, width, height) ==>
        forall x, y :: OnScreen(x, y) ==>
          (Pixel(x, y) <==> if Inside(x, y, X, Y, width, height) then BitAt(image, width, x - X, y - Y) else old(Pixel(x, y)))
      ensures forall x, y :: OnScreen(x, y) ==>
        (Pixel(x, y) <==> Painted(image, width, height, x - X, y - Y)
                          || (!Inside(x, y, X, Y, width, height) && old(Pixel(x, y))))
    {
      ClearArea(X, Y, width, height);
      var j := 0;
      while j < ImagePages(height)
        invariant 0 <= j <= ImagePages(height)
        invariant forall x, y :: OnScreen(x, y) ==>
          (Pixel(x, y) <==> (y - Y < 8 * j && Painted(image, width, height, x - X, y - Y))
                            || (!Inside(x, y, X, Y, width, height) && old(Pixel(x, y))))
      {
        ShowPage(X, Y, width, height, image, j);
        j := j + 1;
      }
      if BlankBelow(image, width, height) {
        forall x, y | OnScreen(x, y)
          ensures Pixel(x, y) <==> if Inside(x, y, X, Y, width, height) then BitAt(image, width, x - X, y - Y) else old(Pixel(x, y))
        {
          PixelPerfect(image, width, height, X, Y, x, y, old(Pixel(x, y)));
        }
      }
    }

    // The inner loop: page j of the image.
    method ShowPage(X: int, Y: int, width: nat, height: nat, image: seq<Byte>, j: nat)
      requires Valid() && ImageOk(image, width, height) && j < ImagePages(height)
      modifies buf
      ensures forall x, y :: OnScreen(x, y) ==>
        (Pixel(x, y) <==> old(Pixel(x, y))
                          || (8 * j <= y - Y < 8 * j + 8 && Painted(image, width, height, x - X, y - Y)))
    {
      var i := 0;
      while i < width
        invariant 0 <= i <= width
        invariant forall x, y :: OnScreen(x, y) ==>
          (Pixel(x, y) <==> old(Pixel(x, y))
                            || (x - X < i && 8 * j <= y - Y < 8 * j + 8 && Painted(image, width, height, x - X, y - Y)))
      {
        ImageIndex(image, width, ImagePages(height), i, j);
        if X + i >= 0 && X + i <= 127 {
          Blit(X + i, Y, j, image[j * width + i]);
        }
        i := i + 1;
      }
    }

    // One byte of the image, shifted over the two pages it meets.
    method Blit(x0: int, Y: int, j: nat, b: Byte)
      requires Valid() && 0 <= x0 < COLUMNS
      modifies buf
      ensures forall x, y :: OnScreen(x, y) ==>
        (Pixel(x, y) <==> old(Pixel(x, y)) || (x == x0 && 8 * j <= y - Y < 8 * j + 8 && b[y - Y - 8 * j]))
    {
      var page, shift := CDiv8(Y), CMod8(Y);
      if Y < 0 {
        page := page - 1;
        shift := shift + 8;
      }
      assert Y == 8 * page + shift && 0 <= shift <= 8;
      if page + j >= 0 && page + j <= 7 {
        buf[page + j, x0] := Or(buf[page + j, x0], Shl(b, shift));
      }
      if page + j + 1 >= 0 && page + j + 1 <= 7 {
        buf[page + j + 1, x0] := Or(buf[page + j + 1, x0], Shr(b, 8 - shift));
      }
    }
  }

  // ---- when the picture is exact ----

  // The picture is exact: inside the rectangle every on-screen pixel is its image bit, outside it
  // is as before.
  ghost predicate ExactAt(image: seq<Byte>, width: UInt8, height: UInt8, X: Int16, Y: Int16, x: int, y: int, was: bool)
    requires ImageOk(image, width, height)
  {
    After(image, width, height, X, Y, x, y, was)
    == if Inside(x, y, X, Y, width, height) then BitAt(image, width, x - X, y - Y) else was
  }

  // It is for every position OLED_ShowImage can paint at, every on-screen pixel and every
  // background exactly when the image is blank below.
  lemma ExactExactlyWhen(image: seq<Byte>, width: UInt8, height: UInt8)
    requires ImageOk(image, width, height)
    ensures BlankBelow(image, width, height) <==>
      forall X: Int16, Y: Int16, x, y, was :: Countable(X, Y, width, height) && OnScreen(x, y) ==>
        ExactAt(image, width, height, X, Y, x, y, was)
  {
    if BlankBelow(image, width, height) {
      forall X: Int16, Y: Int16, x, y, was | Countable(X, Y, width, height) && OnScreen(x, y)
        ensures ExactAt(image, width, height, X, Y, x, y, was)
      {
        PixelPerfect(image, width, height, X, Y, x, y, was);
      }
    } else {
      var c, r :| height <= r && (r < 8 || r < (height + 7) / 8 * 8) && BitAt(image, width, c, r);
      PaintedBits(image, width, height, c, r);
      var X: Int16, Y: Int16 := -c, -r;
      assert OnScreen(0, 0) && After(image, width, height, X, Y, 0, 0, false);
      assert !ExactAt(image, width, height, X, Y, 0, 0, false);
    }
  }

  // An image of no height paints its first page all the same.
  lemma NoHeightPaints()
    ensures var image := [[true, false, false, false, false, false, false, false]];
      ImageOk(image, 1, 0) && Painted(image, 1, 0, 0, 0)
  {
    var image: seq<Byte> := [[true, false, false, false, false, false, false, false]];
    assert ImageBit(image, 1, 0, 0);
  }

  // ---- the byte operations on machine words ----

  lemma ShiftLeftBit(b: bv8, s: bv8, k: bv8)
    requires s <= 8 && k < 8
    ensures ((b << s) >> k) & 1 == if k >= s then (b >> (k - s)) & 1 else 0
  {
  }

  lemma ShiftRightBit(b: bv8, s: bv8, k: bv8)
    requires s <= 8 && k < 8
    ensures ((b >> s) >> k) & 1 == if k < 8 - s then (b >> (k + s)) & 1 else 0
  {
  }

  lemma OrBit(a: bv8, b: bv8, k: bv8)
    requires k < 8
    ensures ((a | b) >> k) & 1 == 1 <==> (a >> k) & 1 == 1 || (b >> k) & 1 == 1
  {
  }

  // |= 0x01 << n and &= ~(0x01 << n)
  lemma SetAndClearBit(a: bv8, n: bv8, k: bv8)
    requires n < 8 && k < 8
    ensures ((a | (1 << n)) >> k) & 1 == 1 <==> k == n || (a >> k) & 1 == 1
    ensures ((a & !(1 << n)) >> k) & 1 == 1 <==> k != n && (a >> k) & 1 == 1
  {
  }
}
