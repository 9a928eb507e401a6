// ilog2(): the position of the highest set bit, found by two table look-ups.
module Log2 {
  // The look-up table: the number of significant bits of x, for x below 16.
  function Tab(x: bv32): bv32 {
    if x == 0 then 0 else if x == 1 then 1 else if x <= 3 then 2 else if x <= 7 then 3 else 4
  }

  // Bit i says whether bits 4i + 4 to 4i + 7 of the 16-bit number q hold a one.
  function Nibbles(q: bv32): bv32 {
    var q1 := q | (q >> 1);
    var q2 := q1 | (q1 >> 2);
    ((q2 & 0x10) >> 4) | ((q2 & 0x100) >> 7) | ((q2 & 0x1000) >> 10)
  }

  function ShiftNibbles(q: bv32, t: bv32): bv32 {
    if t == 0 then q else if t == 1 then q >> 4 else if t == 2 then q >> 8 else q >> 12
  }

  // The position of the highest set bit: q shifted right by it is 1.  In unsigned arithmetic the
  // result for 0 wraps to 2^32 - 1.
  function Ilog2(q: bv32): (r: bv32)
    ensures q != 0 ==> r < 32 && q >> r == 1
    ensures q == 0 ==> r == 0xffffffff
  {
    var high := (q & 0xffff0000) != 0;
    var half := if high then q >> 16 else q;
    var t := Tab(Nibbles(half));
    (if high then 16 else 0) + t * 4 + Tab(ShiftNibbles(half, t)) - 1
  }
}
