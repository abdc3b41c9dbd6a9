/** C++ unsigned 32-bit arithmetic over unbounded integers. */
module Unsigned {

  /** Assignment to an `unsigned int`: the value brought into [0, 2^32) by
      adding or subtracting 2^32, that is, reduced modulo 2^32 (`U32Mod`). */
  function U32(v: int): (r: nat)
    ensures r < 0x1_0000_0000
    decreases if v < 0 then 0x1_0000_0000 - v else v
  {
    if v < 0 then U32(v + 0x1_0000_0000)
    else if v < 0x1_0000_0000 then v
    else U32(v - 0x1_0000_0000)
  }

  lemma {:induction false} U32Mod(v: int)
    ensures U32(v) == v % 0x1_0000_0000
    decreases if v < 0 then 0x1_0000_0000 - v else v
  {
    var q, r := v / 0x1_0000_0000, v % 0x1_0000_0000;
    if v < 0 {
      U32Mod(v + 0x1_0000_0000);
      assert v + 0x1_0000_0000 == (q + 1) * 0x1_0000_0000 + r;
    } else if v >= 0x1_0000_0000 {
      U32Mod(v - 0x1_0000_0000);
      assert v - 0x1_0000_0000 == (q - 1) * 0x1_0000_0000 + r;
    }
  }
}
