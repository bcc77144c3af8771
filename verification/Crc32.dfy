/** upk_crc32, upk_create_crc32_table and upk_verify_crc32, against the bit-serial computation. */
module Crc32 {
  import opened CrcRegister
  import CrcTable

  predicate Low(w: bv32) {
    w & 1 == 1
  }

  function Half(w: bv32): bv32 {
    w >> 1
  }

  /** The n lowest bits of a word, lowest first. */
  function WordBits(w: bv32, n: nat): (bits: seq<bool>)
    ensures |bits| == n
    decreases n
  {
    if n == 0 then [] else [Low(w)] + WordBits(Half(w), n - 1)
  }

  /** The bits of a byte in the order in which the register takes them. */
  function ByteBits(b: bv8): (bits: seq<bool>)
    ensures |bits| == 8
  {
    WordBits(b as bv32, 8)
  }

  /** The bits of a block: bit k is bit k % 8 of byte k / 8. */
  function Bits(block: seq<bv8>): (bits: seq<bool>)
    ensures |bits| == 8 * |block|
  {
    if block == [] then [] else ByteBits(block[0]) + Bits(block[1..])
  }

  /** What upk_crc32 is meant to compute: the register starts at zero, the result is complemented. */
  function Checksum(block: seq<bv8>): bv32 {
    Xor(Feed(0, Bits(block)), 0xFFFF_FFFF)
  }

  // ---- the table-driven loop refines the bit-serial computation ----

  /** The word has no bit set beyond the n lowest. */
  predicate Fits(w: bv32, n: nat)
    decreases n
  {
    if n == 0 then w == 0 else Fits(Half(w), n - 1)
  }

  lemma JoinHalf(w: bv32)
    ensures Join(Low(w), Half(w)) == w
  {
    if Low(w) {
    } else {
    }
  }

  lemma {:induction false} PackWord(w: bv32, n: nat)
    requires Fits(w, n)
    ensures Pack(WordBits(w, n)) == w
    decreases n
  {
    hide Low, Half, Join;
    if n > 0 {
      PackWord(Half(w), n - 1);
      assert WordBits(w, n)[1..] == WordBits(Half(w), n - 1);
      JoinHalf(w);
    }
  }

  lemma ByteFits(b: bv8)
    ensures Fits(b as bv32, 8)
  {
    var h := Half(Half(Half(Half(b as bv32))));
    assert Half(Half(Half(Half(h)))) == 0;
    assert Fits(h, 4);
    assert Fits(Half(Half(b as bv32)), 6);
  }

  lemma PackByte(b: bv8)
    ensures Pack(ByteBits(b)) == b as bv32
  {
    hide Pack, WordBits, Fits;
    ByteFits(b);
    PackWord(b as bv32, 8);
  }

  lemma MaskByte(r: bv32, b: bv8)
    ensures (Xor(r, b as bv32) >> 8) & 0x00FF_FFFF == (r >> 8) & 0x00FF_FFFF
    ensures Xor(r, b as bv32) & 0xFF < 256
  {
  }

  /** One iteration of the loop of upk_crc32 takes in the eight bits of one byte. */
  lemma TableStep(r: bv32, b: bv8)
    ensures Xor(r, b as bv32) & 0xFF < 256
    ensures 0 <= (Xor(r, b as bv32) & 0xFF) as int < 256
    ensures Feed(r, ByteBits(b))
         == Xor((r >> 8) & 0x00FF_FFFF, CrcTable.Literal()[(Xor(r, b as bv32) & 0xFF) as int])
  {
    hide *;
    MaskByte(r, b);
    FeedPack(r, ByteBits(b));
    PackByte(b);
    ByteStep(Xor(r, b as bv32));
    CrcTable.LiteralIsGenerated(Xor(r, b as bv32) & 0xFF);
  }

  lemma {:induction false} BitsConcat(a: seq<bv8>, b: seq<bv8>)
    ensures Bits(a + b) == Bits(a) + Bits(b)
  {
    hide ByteBits;
    if a == [] {
      assert a + b == b;
    } else {
      assert (a + b)[1..] == a[1..] + b;
      BitsConcat(a[1..], b);
    }
  }

  lemma BitsSnoc(block: seq<bv8>, b: bv8)
    ensures Bits(block + [b]) == Bits(block) + ByteBits(b)
  {
    hide ByteBits;
    BitsConcat(block, [b]);
    assert Bits([b]) == ByteBits(b) + Bits([]);
  }

  /** upk_crc32: for every block the table-driven loop gives the bit-serial checksum. */
  method Compute(block: array<bv8>, len: nat) returns (crc: bv32)
    requires len <= block.Length
    ensures crc == Checksum(block[..len])
  {
    hide Xor, Shift, ByteBits, Feed;
    var table := CrcTable.Literal();
    crc := 0;
    assert Feed(0, Bits(block[..0])) == 0 by {
      FeedNothing();
    }
    for i := 0 to len
      invariant crc == Feed(0, Bits(block[..i]))
    {
      TableStep(crc, block[i]);
      assert block[..i + 1] == block[..i] + [block[i]];
      BitsSnoc(block[..i], block[i]);
      FeedConcat(0, Bits(block[..i]), ByteBits(block[i]));
      crc := Xor((crc >> 8) & 0x00FF_FFFF, table[(Xor(crc, block[i] as bv32) & 0xFF) as int]);
    }
    crc := Xor(crc, 0xFFFF_FFFF);
  }

  lemma FeedNothing()
    ensures Feed(0, Bits([])) == 0
  {
  }

  /** upk_verify_crc32 accepts exactly the stored checksum. */
  method Verify(block: array<bv8>, crc32: bv32, len: nat) returns (ok: bool)
    requires len <= block.Length
    ensures ok <==> Checksum(block[..len]) == crc32
  {
    var crc := Compute(block, len);
    ok := crc == crc32;
  }

  lemma NextIndex(i: bv32)
    requires i < 256
    ensures (i + 1) as int == i as int + 1
    ensures i + 1 <= 256
  {
  }

  /** upk_create_crc32_table: the generator fills in the very table that upk_crc32 spells out. */
  method CreateTable(table: array<bv32>)
    requires table.Length == 256
    modifies table
    ensures table[..] == CrcTable.Literal()
  {
    hide *;
    var crc: bv32, i: bv32 := 0, 0;
    while i < 256
      invariant i <= 256 && 0 <= i as int <= 256
      invariant crc == i
      invariant forall k :: 0 <= k < i as int ==> table[k] == CrcTable.Literal()[k]
      decreases 256 - i as int
    {
      var j := 8;
      ShiftsNone(crc);
      while j > 0
        invariant 0 <= j <= 8
        invariant crc == Shifts(i, 8 - j)
        modifies {}
      {
        ShiftsSnoc(i, 8 - j);
        ShiftDefinition(crc);
        crc := if crc & 1 == 1 then (crc >> 1) ^ POLY else crc >> 1;
        j := j - 1;
      }
      CrcTable.LiteralIsGenerated(i);
      table[i as int] := crc;
      NextIndex(i);
      i := i + 1;
      crc := i;
    }
  }

  lemma ShiftDefinition(r: bv32)
    ensures Shift(r) == if r & 1 == 1 then (r >> 1) ^ POLY else r >> 1
  {
  }

  lemma ShiftsNone(r: bv32)
    ensures Shifts(r, 0) == r
  {
  }

  lemma ShiftsSnoc(r: bv32, n: nat)
    ensures Shifts(r, n + 1) == Shift(Shifts(r, n))
  {
    hide Shift;
    ShiftsCompose(r, n, 1);
    assert Shifts(Shifts(r, n), 1) == Shifts(Shift(Shifts(r, n)), 0);
  }

  // ---- algebra ----

  function XorBlocks(a: seq<bv8>, b: seq<bv8>): (d: seq<bv8>)
    requires |a| == |b|
    ensures |d| == |a|
  {
    seq(|a|, i requires 0 <= i < |a| => a[i] ^ b[i])
  }

  lemma HalfXor(v: bv32, w: bv32)
    ensures Low(Xor(v, w)) == (Low(v) != Low(w))
    ensures Half(Xor(v, w)) == Xor(Half(v), Half(w))
  {
    assert (v ^ w) >> 1 == (v >> 1) ^ (w >> 1);
  }

  lemma XorBitsCons(p: bool, q: bool, x: seq<bool>, y: seq<bool>)
    requires |x| == |y|
    ensures XorBits([p] + x, [q] + y) == [p != q] + XorBits(x, y)
  {
  }

  lemma {:induction false} WordBitsXor(v: bv32, w: bv32, n: nat)
    ensures WordBits(Xor(v, w), n) == XorBits(WordBits(v, n), WordBits(w, n))
    decreases n
  {
    hide Low, Half, Xor, XorBits;
    if n > 0 {
      HalfXor(v, w);
      WordBitsXor(Half(v), Half(w), n - 1);
      XorBitsCons(Low(v), Low(w), WordBits(Half(v), n - 1), WordBits(Half(w), n - 1));
    }
  }

  lemma WidenXor(x: bv8, y: bv8)
    ensures (x ^ y) as bv32 == Xor(x as bv32, y as bv32)
  {
  }

  lemma ByteBitsXor(x: bv8, y: bv8)
    ensures ByteBits(x ^ y) == XorBits(ByteBits(x), ByteBits(y))
  {
    hide WordBits, Xor;
    WidenXor(x, y);
    WordBitsXor(x as bv32, y as bv32, 8);
  }

  lemma XorBitsConcat(a: seq<bool>, b: seq<bool>, c: seq<bool>, d: seq<bool>)
    requires |a| == |b| && |c| == |d|
    ensures XorBits(a, b) + XorBits(c, d) == XorBits(a + c, b + d)
  {
  }

  lemma {:induction false} BitsXor(a: seq<bv8>, b: seq<bv8>)
    requires |a| == |b|
    ensures Bits(XorBlocks(a, b)) == XorBits(Bits(a), Bits(b))
  {
    hide ByteBits;
    var d := XorBlocks(a, b);
    if a == [] {
    } else {
      assert d[1..] == XorBlocks(a[1..], b[1..]);
      ByteBitsXor(a[0], b[0]);
      BitsXor(a[1..], b[1..]);
      XorBitsConcat(ByteBits(a[0]), ByteBits(b[0]), Bits(a[1..]), Bits(b[1..]));
    }
  }

  /** The checksum is affine over xor of equal-length blocks. */
  lemma ChecksumXor(a: seq<bv8>, b: seq<bv8>)
    requires |a| == |b|
    ensures Checksum(XorBlocks(a, b)) == Xor(Xor(Checksum(a), Checksum(b)), 0xFFFF_FFFF)
  {
    hide Xor, Feed, Bits;
    BitsXor(a, b);
    FeedXor(0, 0, Bits(a), Bits(b));
    XorLaws(0, 0);
    var x, y, ones: bv32 := Feed(0, Bits(a)), Feed(0, Bits(b)), 0xFFFF_FFFF;
    Interchange(x, ones, y, ones);
    XorLaws(ones, ones);
    XorLaws(Xor(x, y), 0);
  }

  /** The loop can stop after any prefix and continue from the register it has reached. */
  lemma ChecksumSplit(a: seq<bv8>, b: seq<bv8>)
    ensures Checksum(a + b) == Xor(Feed(Feed(0, Bits(a)), Bits(b)), 0xFFFF_FFFF)
  {
    hide Xor, Feed, Bits;
    BitsConcat(a, b);
    FeedConcat(0, Bits(a), Bits(b));
  }

  /** Any number of leading zero bytes leaves the checksum unchanged. */
  lemma LeadingZeros(n: nat, block: seq<bv8>)
    ensures Checksum(seq(n, i => 0) + block) == Checksum(block)
  {
    hide Xor, Feed, ByteBits;
    var zeros: seq<bv8> := seq(n, i => 0);
    BitsConcat(zeros, block);
    ZeroBits(n);
    FeedConcat(0, Bits(zeros), Bits(block));
    FeedZeros(0, Bits(zeros));
  }

  lemma ZeroByte()
    ensures AllZero(ByteBits(0))
  {
  }

  lemma {:induction false} ZeroBits(n: nat)
    ensures AllZero(Bits(seq(n, i => 0)))
  {
    hide ByteBits;
    if n > 0 {
      var zeros: seq<bv8> := seq(n, i => 0);
      assert zeros[1..] == seq(n - 1, i => 0);
      ZeroByte();
      ZeroBits(n - 1);
    }
  }

  // ---- burst errors ----

  /** All bits in which two blocks differ lie among n consecutive ones, beginning at bit s. */
  predicate DifferWithin(a: seq<bv8>, b: seq<bv8>, s: nat, n: nat)
    requires |a| == |b|
  {
    forall k :: 0 <= k < 8 * |a| && Bits(a)[k] != Bits(b)[k] ==> s <= k < s + n
  }

  lemma ByteBitsInjective(x: bv8, y: bv8)
    requires ByteBits(x) == ByteBits(y)
    ensures x == y
  {
    hide ByteBits;
    PackByte(x);
    PackByte(y);
  }

  lemma {:induction false} BitsInjective(a: seq<bv8>, b: seq<bv8>)
    requires |a| == |b| && Bits(a) == Bits(b)
    ensures a == b
  {
    hide ByteBits;
    if a != [] {
      assert ByteBits(a[0]) == Bits(a)[..8] == Bits(b)[..8] == ByteBits(b[0]);
      assert Bits(a[1..]) == Bits(a)[8..] == Bits(b)[8..] == Bits(b[1..]);
      ByteBitsInjective(a[0], b[0]);
      BitsInjective(a[1..], b[1..]);
      assert a == [a[0]] + a[1..] && b == [b[0]] + b[1..];
    }
  }

  /** A message that is zero outside 32 consecutive bits leaves the register zero only if it is all zero. */
  lemma BurstRegister(d: seq<bool>, s: nat)
    requires forall k :: 0 <= k < |d| && d[k] ==> s <= k < s + 32
    ensures Feed(0, d) == 0 <==> AllZero(d)
  {
    hide Xor, Feed, Shifts, Pack;
    var lo := if s <= |d| then s else |d|;
    var hi := if s + 32 <= |d| then s + 32 else |d|;
    var before, window, after := d[..lo], d[lo..hi], d[hi..];
    assert d == (before + window) + after;
    FeedConcat(0, before + window, after);
    FeedConcat(0, before, window);
    FeedZeros(0, before);
    FeedPack(0, window);
    XorLaws(Pack(window), 0);
    XorLaws(0, Pack(window));
    ShiftsZero(Pack(window), |window|);
    PackZero(window);
    FeedZeros(Feed(0, before + window), after);
    assert AllZero(d) ==> AllZero(window);
    if AllZero(window) {
      forall k | 0 <= k < |d|
        ensures !d[k]
      {
        if lo <= k < hi {
          assert d[k] == window[k - lo];
        }
      }
    }
  }

  lemma SameChecksum(a: seq<bv8>, b: seq<bv8>)
    requires |a| == |b|
    ensures Checksum(a) == Checksum(b) <==> Feed(0, XorBits(Bits(a), Bits(b))) == 0
  {
    hide Xor, Feed, Bits;
    var x, y, ones: bv32 := Feed(0, Bits(a)), Feed(0, Bits(b)), 0xFFFF_FFFF;
    FeedXor(0, 0, Bits(a), Bits(b));
    XorLaws(0, 0);
    XorCancel(x, y);
    XorCancel(Xor(x, ones), Xor(y, ones));
    Interchange(x, ones, y, ones);
    XorLaws(ones, ones);
    XorLaws(Xor(x, y), 0);
  }

  /** Every change confined to 32 consecutive bits, at any alignment and in blocks of any length, is detected. */
  lemma BurstDetected(a: seq<bv8>, b: seq<bv8>, s: nat)
    requires |a| == |b| && DifferWithin(a, b, s, 32)
    ensures Checksum(a) == Checksum(b) <==> a == b
  {
    hide Feed, Checksum, Bits;
    var d := XorBits(Bits(a), Bits(b));
    assert forall k :: 0 <= k < |d| && d[k] ==> s <= k < s + 32;
    BurstRegister(d, s);
    SameChecksum(a, b);
    if AllZero(d) {
      assert forall k :: 0 <= k < |d| ==> d[k] == (Bits(a)[k] != Bits(b)[k]);
      assert Bits(a) == Bits(b);
      BitsInjective(a, b);
    }
  }

  lemma ByteFeed(r: bv32, b: bv8)
    ensures Feed(r, ByteBits(b)) == ByteShift(Xor(r, b as bv32))
  {
    hide *;
    FeedPack(r, ByteBits(b));
    PackByte(b);
    EightShifts(Xor(r, b as bv32));
  }

  lemma {:induction false} FeedCons(r: bv32, b: bv8, rest: seq<bv8>)
    ensures Feed(r, Bits([b] + rest)) == Feed(ByteShift(Xor(r, b as bv32)), Bits(rest))
  {
    hide Feed, ByteBits, ByteShift, Xor;
    assert ([b] + rest)[1..] == rest;
    FeedConcat(r, ByteBits(b), Bits(rest));
    ByteFeed(r, b);
  }

  lemma PolynomialSteps()
    ensures ByteShift(Xor(0, 0x41)) == 0x01DB7106
    ensures ByteShift(Xor(0x01DB7106, 0x06)) == 0x0001DB71
    ensures ByteShift(Xor(0x0001DB71, 0x71)) == 0x000001DB
    ensures ByteShift(Xor(0x000001DB, 0xDB)) == 0x00000001
    ensures ByteShift(Xor(0x00000001, 0x01)) == 0
  {
  }

  const BURST: seq<bv8> := [0x41, 0x06, 0x71, 0xDB, 0x01]
  const ZEROS: seq<bv8> := [0, 0, 0, 0, 0]

  lemma ZerosAreZero()
    ensures |Bits(ZEROS)| == 40 && AllZero(Bits(ZEROS))
  {
    hide ByteBits;
    ZeroBits(5);
    assert seq<bv8>(5, i => 0) == ZEROS;
  }

  lemma OneBit()
    ensures ByteBits(0x01) == [true, false, false, false, false, false, false, false]
  {
  }

  /** The burst reaches from bit 0 to bit 32 and no further. */
  lemma BurstOf33()
    ensures DifferWithin(BURST, ZEROS, 0, 33)
  {
    hide ByteBits, WordBits;
    ZerosAreZero();
    OneBit();
    var front: seq<bv8> := [0x41, 0x06, 0x71, 0xDB];
    var last: seq<bv8> := [0x01];
    assert BURST == front + last;
    BitsConcat(front, last);
    assert last[1..] == [] && Bits(last) == ByteBits(0x01) + [];
    assert forall k :: 33 <= k < 40 ==> Bits(BURST)[k] == ByteBits(0x01)[k - 32];
  }

  lemma BurstVanishes()
    ensures Feed(0, Bits(BURST)) == 0
  {
    hide Feed, ByteShift, Xor, Bits;
    var d4: seq<bv8> := [0x01];
    var d3: seq<bv8> := [0xDB] + d4;
    var d2: seq<bv8> := [0x71] + d3;
    var d1: seq<bv8> := [0x06] + d2;
    assert BURST == [0x41] + d1;
    PolynomialSteps();
    FeedCons(0, 0x41, d1);
    FeedCons(0x01DB7106, 0x06, d2);
    FeedCons(0x0001DB71, 0x71, d3);
    FeedCons(0x000001DB, 0xDB, d4);
    assert d4 == [0x01] + [];
    FeedCons(0x00000001, 0x01, []);
    FeedZeros(0, Bits([]));
  }

  /**
   The bound is sharp: a change within 33 consecutive bits, shaped like the polynomial itself, goes
   unnoticed.
   */
  lemma LongerBurstMissed()
    ensures BURST != ZEROS && DifferWithin(BURST, ZEROS, 0, 33)
    ensures Checksum(BURST) == Checksum(ZEROS)
  {
    hide Feed, Bits, Xor, DifferWithin;
    BurstOf33();
    BurstVanishes();
    ZerosAreZero();
    FeedZeros(0, Bits(ZEROS));
    assert BURST[0] != ZEROS[0];
  }

  /** Every change within n consecutive bits, in blocks of any length, shows in the checksum. */
  ghost predicate BurstLaw(n: nat) {
    forall a, b, s: nat | |a| == |b| && DifferWithin(a, b, s, n) :: Checksum(a) == Checksum(b) <==> a == b
  }

  /** The bursts that the checksum detects are exactly those of up to 32 bits. */
  lemma BurstLawHolds(n: nat)
    ensures BurstLaw(n) <==> n <= 32
  {
    hide Checksum, Bits;
    if n <= 32 {
      forall a, b, s: nat | |a| == |b| && DifferWithin(a, b, s, n)
        ensures Checksum(a) == Checksum(b) <==> a == b
      {
        BurstDetected(a, b, s);
      }
    } else {
      LongerBurstMissed();
      assert DifferWithin(BURST, ZEROS, 0, n);
    }
  }
}
