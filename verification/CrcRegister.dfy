/** The 32-bit cyclic redundancy check of libupkeeper/upkeeper/upk_crc32.c: the shift register. */
module CrcRegister {

  /** The polynomial of section 8 of RFC 1952, reflected. */
  const POLY: bv32 := 0xEDB88320

  /** The topmost bit of the register. */
  const TOP: bv32 := 0x8000_0000

  function Xor(a: bv32, b: bv32): bv32 {
    a ^ b
  }

  /** One step of the register: divide by x, subtracting the polynomial when a bit falls out. */
  function Shift(r: bv32): bv32 {
    if r & 1 == 1 then (r >> 1) ^ POLY else r >> 1
  }

  function Shifts(r: bv32, n: nat): bv32
    decreases n
  {
    if n == 0 then r else Shifts(Shift(r), n - 1)
  }

  function Bit(b: bool): bv32 {
    if b then 1 else 0
  }

  /** The reference computation: feed the bits of a message, one at a time, into the register. */
  function Feed(r: bv32, bits: seq<bool>): bv32
    decreases |bits|
  {
    if bits == [] then r else Feed(Shift(Xor(r, Bit(bits[0]))), bits[1..])
  }

  // ---- the register is linear ----

  lemma XorLaws(a: bv32, b: bv32)
    ensures Xor(a, b) == Xor(b, a)
    ensures Xor(a, a) == 0
    ensures Xor(a, 0) == a
  {
  }

  lemma RawAssociative(a: bv32, b: bv32, c: bv32)
    ensures (a ^ b) ^ c == a ^ (b ^ c)
  {
  }

  lemma XorAssociative(a: bv32, b: bv32, c: bv32)
    ensures Xor(Xor(a, b), c) == Xor(a, Xor(b, c))
  {
    RawAssociative(a, b, c);
  }

  lemma XorCancel(a: bv32, b: bv32)
    ensures Xor(a, b) == 0 <==> a == b
  {
    hide Xor;
    XorLaws(a, b);
    XorLaws(b, b);
    XorLaws(b, 0);
    XorAssociative(a, b, b);
    XorLaws(a, 0);
  }

  lemma LowBit(r: bv32)
    ensures r & 1 != 1 ==> r & 1 == 0
  {
  }

  lemma ShiftXorEven(a: bv32, b: bv32)
    requires a & 1 == 0 && b & 1 == 0
    ensures Shift(a ^ b) == Shift(a) ^ Shift(b)
  {
  }

  lemma ShiftXorMixed(a: bv32, b: bv32)
    requires a & 1 == 0 && b & 1 == 1
    ensures Shift(a ^ b) == Shift(a) ^ Shift(b)
  {
  }

  lemma ShiftXorOdd(a: bv32, b: bv32)
    requires a & 1 == 1 && b & 1 == 1
    ensures Shift(a ^ b) == Shift(a) ^ Shift(b)
  {
  }

  lemma ShiftXor(a: bv32, b: bv32)
    ensures Shift(Xor(a, b)) == Xor(Shift(a), Shift(b))
  {
    hide Shift;
    LowBit(a);
    LowBit(b);
    if a & 1 == 0 {
      if b & 1 == 0 {
        ShiftXorEven(a, b);
      } else {
        ShiftXorMixed(a, b);
      }
    } else if b & 1 == 0 {
      ShiftXorMixed(b, a);
      XorLaws(a, b);
      XorLaws(Shift(a), Shift(b));
    } else {
      ShiftXorOdd(a, b);
    }
  }

  lemma {:induction false} ShiftsXor(a: bv32, b: bv32, n: nat)
    ensures Shifts(Xor(a, b), n) == Xor(Shifts(a, n), Shifts(b, n))
    decreases n
  {
    hide Xor, Shift;
    if n > 0 {
      ShiftXor(a, b);
      ShiftsXor(Shift(a), Shift(b), n - 1);
    }
  }

  /** Because the polynomial has its top bit set, no two registers step to the same one. */
  lemma ShiftInjective(a: bv32, b: bv32)
    requires Shift(a) == Shift(b)
    ensures a == b
  {
  }

  lemma ShiftZero(r: bv32)
    ensures Shift(r) == 0 <==> r == 0
  {
    if Shift(r) == 0 {
      ShiftInjective(r, 0);
    }
  }

  lemma {:induction false} ShiftsZero(r: bv32, n: nat)
    ensures Shifts(r, n) == 0 <==> r == 0
    decreases n
  {
    hide Shift;
    if n > 0 {
      ShiftZero(r);
      ShiftsZero(Shift(r), n - 1);
    }
  }

  lemma {:induction false} ShiftsCompose(r: bv32, m: nat, n: nat)
    ensures Shifts(Shifts(r, m), n) == Shifts(r, m + n)
    decreases m
  {
    hide Shift;
    if m > 0 {
      ShiftsCompose(Shift(r), m - 1, n);
    }
  }

  lemma FourShifts(r: bv32)
    ensures Shifts(r, 4) == Shift(Shift(Shift(Shift(r))))
  {
    hide Shift;
    assert Shifts(r, 4) == Shifts(Shift(Shift(r)), 2);
  }

  /** Eight steps, as the inner loop of the table generator takes them. */
  function ByteShift(r: bv32): bv32 {
    Shift(Shift(Shift(Shift(Shift(Shift(Shift(Shift(r))))))))
  }

  lemma EightShifts(r: bv32)
    ensures Shifts(r, 8) == ByteShift(r)
  {
    hide Shift, Shifts;
    FourShifts(r);
    FourShifts(Shifts(r, 4));
    ShiftsCompose(r, 4, 4);
  }

  lemma ByteShiftHigh(r: bv32)
    ensures ByteShift(r & 0xFFFF_FF00) == r >> 8
  {
  }

  lemma SplitMask(r: bv32)
    ensures r == Xor(r & 0xFFFF_FF00, r & 0xFF)
    ensures (r >> 8) & 0x00FF_FFFF == r >> 8
  {
  }

  /** Eight bit-steps are one table lookup xor one shift: the identity behind the table-driven loop. */
  lemma ByteStep(r: bv32)
    ensures Shifts(r, 8) == Xor((r >> 8) & 0x00FF_FFFF, Shifts(r & 0xFF, 8))
  {
    hide *;
    SplitMask(r);
    EightShifts(r & 0xFFFF_FF00);
    ByteShiftHigh(r);
    ShiftsXor(r & 0xFFFF_FF00, r & 0xFF, 8);
  }

  // ---- feeding at most 32 bits is one xor followed by shifts ----

  function Double(w: bv32): bv32 {
    w << 1
  }

  function Or(v: bv32, w: bv32): bv32 {
    v | w
  }

  /** A word with one more bit below it. */
  function Join(b: bool, w: bv32): bv32 {
    Or(Bit(b), Double(w))
  }

  /** The bits as one word, the first bit lowest. */
  function Pack(bits: seq<bool>): bv32
    decreases |bits|
  {
    if bits == [] then 0 else Join(bits[0], Pack(bits[1..]))
  }

  predicate Clear(w: bv32) {
    w & TOP == 0
  }

  /** The word can be shifted left k times without losing a set bit. */
  predicate Room(w: bv32, k: nat)
    decreases k
  {
    k > 0 ==> Clear(w) && Room(Double(w), k - 1)
  }

  lemma OrDouble(v: bv32, w: bv32)
    ensures Double(Or(v, w)) == Or(Double(v), Double(w))
  {
    assert (v | w) << 1 == (v << 1) | (w << 1);
  }

  lemma OrClear(v: bv32, w: bv32)
    requires Clear(v) && Clear(w)
    ensures Clear(Or(v, w))
  {
  }

  lemma {:induction false} RoomOr(v: bv32, w: bv32, k: nat)
    requires Room(v, k) && Room(w, k)
    ensures Room(Or(v, w), k)
    decreases k
  {
    hide Or, Double, Clear;
    if k > 0 {
      OrDouble(v, w);
      OrClear(v, w);
      RoomOr(Double(v), Double(w), k - 1);
    }
  }

  lemma {:induction false} RoomLess(w: bv32, j: nat, k: nat)
    requires Room(w, k) && j <= k
    ensures Room(w, j)
    decreases j
  {
    hide Double, Clear;
    if j > 0 {
      RoomLess(Double(w), j - 1, k - 1);
    }
  }

  lemma {:induction false} ZeroRoom(k: nat)
    ensures Room(0, k)
  {
    if k > 0 {
      ZeroRoom(k - 1);
    }
  }

  lemma BitRoom(b: bool)
    ensures Room(Bit(b), 31)
  {
    ZeroRoom(31);
    assert Room(0x1000_0000, 3);
    assert Room(0x400_0000, 5) && Room(0x100_0000, 7);
    assert Room(0x40_0000, 9) && Room(0x10_0000, 11);
    assert Room(0x4_0000, 13) && Room(0x1_0000, 15);
    assert Room(0x4000, 17) && Room(0x1000, 19);
    assert Room(0x400, 21) && Room(0x100, 23);
    assert Room(0x40, 25) && Room(0x10, 27);
    assert Room(4, 29) && Room(1, 31);
  }

  lemma {:induction false} PackRoom(bits: seq<bool>)
    requires |bits| <= 32
    ensures Room(Pack(bits), 32 - |bits|)
    decreases |bits|
  {
    hide Bit, Double, Or, Clear;
    if bits == [] {
      ZeroRoom(32);
    } else {
      PackRoom(bits[1..]);
      BitRoom(bits[0]);
      RoomLess(Bit(bits[0]), 32 - |bits|, 31);
      RoomOr(Bit(bits[0]), Double(Pack(bits[1..])), 32 - |bits|);
    }
  }

  lemma PackClear(bits: seq<bool>)
    requires |bits| <= 31
    ensures Clear(Pack(bits))
  {
    hide Pack, Clear, Double;
    PackRoom(bits);
  }

  lemma JoinXor(b: bool, w: bv32)
    ensures Join(b, w) == Xor(Bit(b), Double(w))
  {
    if b {
    } else {
    }
  }

  lemma JoinClear(b: bool, w: bv32)
    requires Clear(w)
    ensures Shift(Double(w)) == w
    ensures Join(b, w) == 0 <==> !b && w == 0
  {
    if b {
    } else {
    }
  }

  /** A bit pattern still to come can be folded into the register in advance. */
  lemma ShiftAhead(r: bv32, b: bool, w: bv32)
    requires Clear(w)
    ensures Shift(Xor(r, Join(b, w))) == Xor(Shift(Xor(r, Bit(b))), w)
  {
    hide *;
    JoinClear(b, w);
    JoinXor(b, w);
    XorAssociative(r, Bit(b), Double(w));
    ShiftXor(Xor(r, Bit(b)), Double(w));
  }

  /** Up to 32 message bits may be xored into the register at once. */
  lemma {:induction false} FeedPack(r: bv32, bits: seq<bool>)
    requires |bits| <= 32
    ensures Feed(r, bits) == Shifts(Xor(r, Pack(bits)), |bits|)
    decreases |bits|
  {
    hide Xor, Shift, Bit, Join, Clear;
    if bits == [] {
      XorLaws(r, r);
    } else {
      PackClear(bits[1..]);
      ShiftAhead(r, bits[0], Pack(bits[1..]));
      FeedPack(Shift(Xor(r, Bit(bits[0]))), bits[1..]);
    }
  }

  lemma {:induction false} PackZero(bits: seq<bool>)
    requires |bits| <= 32
    ensures Pack(bits) == 0 <==> AllZero(bits)
    decreases |bits|
  {
    hide Join, Clear;
    if bits == [] {
    } else {
      var rest := bits[1..];
      PackClear(rest);
      JoinClear(bits[0], Pack(rest));
      PackZero(rest);
      assert forall k :: 0 < k < |bits| ==> bits[k] == rest[k - 1];
    }
  }

  // ---- laws of the reference computation ----

  /** Splitting the message anywhere and continuing from the intermediate register changes nothing. */
  lemma {:induction false} FeedConcat(r: bv32, x: seq<bool>, y: seq<bool>)
    ensures Feed(r, x + y) == Feed(Feed(r, x), y)
    decreases |x|
  {
    hide Xor, Shift, Bit;
    if x == [] {
      assert x + y == y;
    } else {
      assert (x + y)[1..] == x[1..] + y;
      FeedConcat(Shift(Xor(r, Bit(x[0]))), x[1..], y);
    }
  }

  function XorBits(x: seq<bool>, y: seq<bool>): (d: seq<bool>)
    requires |x| == |y|
    ensures |d| == |x|
  {
    seq(|x|, k requires 0 <= k < |x| => x[k] != y[k])
  }

  lemma BitXor(b: bool, c: bool)
    ensures Bit(b != c) == Xor(Bit(b), Bit(c))
  {
  }

  lemma Interchange(a: bv32, b: bv32, c: bv32, d: bv32)
    ensures Xor(Xor(a, b), Xor(c, d)) == Xor(Xor(a, c), Xor(b, d))
  {
    hide *;
    XorAssociative(a, b, Xor(c, d));
    XorAssociative(b, c, d);
    XorLaws(b, c);
    XorAssociative(c, b, d);
    XorAssociative(a, c, Xor(b, d));
  }

  /** The register is linear in both its start value and the message. */
  lemma {:induction false} FeedXor(r: bv32, q: bv32, x: seq<bool>, y: seq<bool>)
    requires |x| == |y|
    ensures Feed(Xor(r, q), XorBits(x, y)) == Xor(Feed(r, x), Feed(q, y))
    decreases |x|
  {
    hide Xor, Shift, Bit;
    var d := XorBits(x, y);
    if x == [] {
    } else {
      assert d[1..] == XorBits(x[1..], y[1..]);
      var r1, q1 := Xor(r, Bit(x[0])), Xor(q, Bit(y[0]));
      BitXor(x[0], y[0]);
      Interchange(r, q, Bit(x[0]), Bit(y[0]));
      ShiftXor(r1, q1);
      FeedXor(Shift(r1), Shift(q1), x[1..], y[1..]);
    }
  }

  predicate AllZero(bits: seq<bool>) {
    forall k :: 0 <= k < |bits| ==> !bits[k]
  }

  /** A message of zeros maps a register to zero only if it was zero. */
  lemma {:induction false} FeedZeros(r: bv32, bits: seq<bool>)
    requires AllZero(bits)
    ensures Feed(r, bits) == 0 <==> r == 0
    decreases |bits|
  {
    hide Xor, Shift;
    if bits != [] {
      XorLaws(r, r);
      ShiftZero(r);
      FeedZeros(Shift(r), bits[1..]);
    }
  }
}
