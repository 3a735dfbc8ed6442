// Machine words and the arithmetic of division that several modules share.
module Words {

  const WORD_RANGE := 0x1_0000_0000 // rt_size_t, rt_tick_t and rt_uint32_t have 32 bits

  lemma {:induction false} MulLess(x: int, y: int, b: nat)
    requires x < y
    ensures x * b + b <= y * b
    decreases y - x
  {
    if x + 1 < y {
      MulLess(x, y - 1, b);
    }
    assert (y - 1) * b + b == y * b;
  }
}
