/** Bursts of up to 32 bits, wherever they begin, change the checksum. */
module Crc32Bursts {
  import opened Crc32Table
  import opened Crc32

  function Double(x: bv32): bv32 {
    x << 1
  }

  function One(bit: bool): bv32 {
    if bit then 1 else 0
  }

  predicate TopClear(x: bv32) {
    x & 0x8000_0000 == 0
  }

  /** A word of `n` low bits. */
  function Room(n: int): bv32 {
    match n
    case 0 => 0x0
    case 1 => 0x1
    case 2 => 0x3
    case 3 => 0x7
    case 4 => 0xF
    case 5 => 0x1F
    case 6 => 0x3F
    case 7 => 0x7F
    case 8 => 0xFF
    case 9 => 0x1FF
    case 10 => 0x3FF
    case 11 => 0x7FF
    case 12 => 0xFFF
    case 13 => 0x1FFF
    case 14 => 0x3FFF
    case 15 => 0x7FFF
    case 16 => 0xFFFF
    case 17 => 0x1FFFF
    case 18 => 0x3FFFF
    case 19 => 0x7FFFF
    case 20 => 0xFFFFF
    case 21 => 0x1FFFFF
    case 22 => 0x3FFFFF
    case 23 => 0x7FFFFF
    case 24 => 0xFFFFFF
    case 25 => 0x1FFFFFF
    case 26 => 0x3FFFFFF
    case 27 => 0x7FFFFFF
    case 28 => 0xFFFFFFF
    case 29 => 0x1FFFFFFF
    case 30 => 0x3FFFFFFF
    case 31 => 0x7FFFFFFF
    case _ => 0xFFFF_FFFF
  }

  /** Room for one more bit. */
  function Wider(room: bv32): bv32 {
    (room << 1) | 1
  }

  predicate FitsIn(d: bv32, room: bv32) {
    d | room == room
  }

  // ----- Word operations

  lemma RoomGrows(n: int)
    requires 0 <= n < 32
    ensures Room(n + 1) == Wider(Room(n)) && TopClear(Room(n))
  {
  }

  lemma FitsBelowTop(d: bv32, room: bv32)
    requires FitsIn(d, room) && TopClear(room)
    ensures TopClear(d)
  {
  }

  lemma DoubleFits(d: bv32, room: bv32)
    requires FitsIn(d, room)
    ensures FitsIn(Double(d), Wider(room))
  {
  }

  lemma OneFits(p: bool, room: bv32)
    ensures FitsIn(One(p), Wider(room))
  {
    hide FitsIn, Wider;
    ZeroFits(Wider(room));
    LowBitFits(room);
  }

  lemma ZeroFits(room: bv32)
    ensures FitsIn(0, room)
  {
  }

  lemma LowBitFits(room: bv32)
    ensures FitsIn(1, Wider(room))
  {
    var r := room << 1;
    assert 1 | (r | 1) == r | 1;
  }

  lemma PlusFits(x: bv32, y: bv32, room: bv32)
    requires FitsIn(x, room) && FitsIn(y, room)
    ensures FitsIn(Plus(x, y), room)
  {
  }

  lemma FitsAfter(d: bv32, room: bv32, p: bool, q: bool)
    requires FitsIn(d, room)
    ensures FitsIn(Plus(Double(d), Plus(One(p), One(q))), Wider(room))
  {
    hide FitsIn, Plus, Double, One, Wider;
    DoubleFits(d, room);
    OneFits(p, room);
    OneFits(q, room);
    PlusFits(One(p), One(q), Wider(room));
    PlusFits(Double(d), Plus(One(p), One(q)), Wider(room));
  }

  lemma DoubleIsEven(d: bv32)
    requires TopClear(d)
    ensures !Odd(Double(d)) && Half(Double(d)) == d
  {
  }

  lemma BitEnters(c: bv32, bit: bool)
    ensures BitStep(c, bit) == Shift(Plus(c, One(bit)))
  {
    hide BitStep, Shift, Plus, Half, Odd;
    BitStepByHalf(c, bit);
    ShiftByHalf(Plus(c, One(bit)));
    HalfPlus(c, One(bit));
    OddPlus(c, One(bit));
    SmallWords(bit);
    PlusZero(Half(c));
  }

  lemma SmallWords(bit: bool)
    ensures (Odd(One(bit)) <==> bit) && Half(One(bit)) == 0
  {
  }

  lemma ShiftOfDouble(d: bv32)
    requires TopClear(d)
    ensures Shift(Double(d)) == d
  {
    hide Shift, Half, Odd, Double;
    DoubleIsEven(d);
    ShiftByHalf(Double(d));
  }

  lemma ShiftInjective(x: bv32, y: bv32)
    requires Shift(x) == Shift(y)
    ensures x == y
  {
    hide Shift, Plus;
    ShiftLinear(x, y);
    SumZero(Shift(x), Shift(y));
    ShiftKernel(Plus(x, y));
    SumZero(x, y);
  }

  lemma NothingDoubled(d: bv32, p: bool, q: bool)
    requires TopClear(d) && Plus(Double(d), Plus(One(p), One(q))) == 0
    ensures d == 0 && p == q
  {
    assert (d << 1) & 1 == 0;
  }

  // ----- Bit steps undone

  /** The difference of two registers before a bit, from the difference after it. */
  lemma BitBack(x: bv32, y: bv32, p: bool, q: bool)
    requires TopClear(Plus(BitStep(x, p), BitStep(y, q)))
    ensures Plus(x, y) == Plus(Double(Plus(BitStep(x, p), BitStep(y, q))), Plus(One(p), One(q)))
  {
    hide BitStep, Shift, Plus, One, Double, TopClear;
    var d := Plus(BitStep(x, p), BitStep(y, q));
    var u, v := Plus(x, One(p)), Plus(y, One(q));
    BitEnters(x, p);
    BitEnters(y, q);
    ShiftLinear(u, v);
    ShiftOfDouble(d);
    ShiftInjective(Plus(u, v), Double(d));
    PlusRegroups(x, y, One(p), One(q));
    AddBack(Plus(x, y), Plus(One(p), One(q)), Double(d));
  }

  lemma BitBackFits(x: bv32, y: bv32, p: bool, q: bool, n: int)
    requires 0 <= n < 32 && FitsIn(Plus(BitStep(x, p), BitStep(y, q)), Room(n))
    ensures FitsIn(Plus(x, y), Room(n + 1))
    ensures x == y ==> p == q
  {
    hide BitStep, Plus, One, Double, TopClear, FitsIn, Room, Wider;
    var d := Plus(BitStep(x, p), BitStep(y, q));
    RoomGrows(n);
    FitsBelowTop(d, Room(n));
    BitBack(x, y, p, q);
    FitsAfter(d, Room(n), p, q);
    SumZero(x, y);
    if x == y {
      NothingDoubled(d, p, q);
    }
  }

  /** Up to 32 bits map injectively to the register, whatever it held. */
  lemma {:induction false} FewBits(c: bv32, p: seq<bool>, q: seq<bool>)
    requires |p| == |q| <= 32
    requires FitsIn(Plus(BitSteps(c, p), BitSteps(c, q)), Room(32 - |p|))
    ensures p == q
  {
    hide BitStep, Plus, FitsIn, Room;
    if |p| > 0 {
      var n := |p| - 1;
      BitBackFits(BitSteps(c, p[..n]), BitSteps(c, q[..n]), p[n], q[n], 31 - n);
      FewBits(c, p[..n], q[..n]);
      assert p == p[..n] + [p[n]];
      assert q == q[..n] + [q[n]];
    }
  }

  lemma BitStepInjective(x: bv32, y: bv32, bit: bool)
    requires BitStep(x, bit) == BitStep(y, bit)
    ensures x == y
  {
    hide BitStep, Shift, Plus, One;
    BitEnters(x, bit);
    BitEnters(y, bit);
    ShiftInjective(Plus(x, One(bit)), Plus(y, One(bit)));
    AddBack(x, One(bit), Plus(x, One(bit)));
    AddBack(y, One(bit), Plus(y, One(bit)));
  }

  lemma {:induction false} BitStepsInjective(x: bv32, y: bv32, s: seq<bool>)
    requires BitSteps(x, s) == BitSteps(y, s)
    ensures x == y
  {
    hide BitStep;
    if s != [] {
      var n := |s| - 1;
      BitStepInjective(BitSteps(x, s[..n]), BitSteps(y, s[..n]), s[n]);
      BitStepsInjective(x, y, s[..n]);
    }
  }

  // ----- Files as bits

  lemma BitsInjective(b: bv8, c: bv8)
    requires Bits(b) == Bits(c)
    ensures b == c
  {
    assert Bits(b)[0] == Bits(c)[0] && Bits(b)[1] == Bits(c)[1] && Bits(b)[2] == Bits(c)[2] && Bits(b)[3] == Bits(c)[3];
    assert Bits(b)[4] == Bits(c)[4] && Bits(b)[5] == Bits(c)[5] && Bits(b)[6] == Bits(c)[6] && Bits(b)[7] == Bits(c)[7];
  }

  lemma BitsLength(b: bv8)
    ensures |Bits(b)| == 8
  {
  }

  lemma {:induction false} BitCount(data: seq<bv8>)
    ensures |AllBits(data)| == 8 * |data|
  {
    hide Bits;
    if data != [] {
      var n := |data| - 1;
      BitCount(data[..n]);
      BitsLength(data[n]);
    }
  }

  lemma {:induction false} AllBitsInjective(f: seq<bv8>, g: seq<bv8>)
    requires |f| == |g| && AllBits(f) == AllBits(g)
    ensures f == g
  {
    hide Bits;
    if f != [] {
      var n := |f| - 1;
      BitCount(f[..n]);
      BitCount(g[..n]);
      var a, b := AllBits(f[..n]), AllBits(g[..n]);
      assert a == AllBits(f)[..8 * n] && b == AllBits(g)[..8 * n];
      assert Bits(f[n]) == AllBits(f)[8 * n..] && Bits(g[n]) == AllBits(g)[8 * n..];
      AllBitsInjective(f[..n], g[..n]);
      BitsInjective(f[n], g[n]);
      assert f == f[..n] + [f[n]];
      assert g == g[..n] + [g[n]];
    }
  }

  lemma NoDifference(x: bv32, room: bv32)
    ensures FitsIn(Plus(x, x), room)
  {
  }

  lemma Cut<T>(s: seq<T>, i: nat, k: nat)
    requires i <= k <= |s|
    ensures s == s[..i] + s[i..k] + s[k..]
  {
  }

  /** Messages of equal length that differ only within 32 consecutive bits leave the
      register in different states. */
  lemma BitBurst(c: bv32, a: seq<bool>, b: seq<bool>, at: nat)
    requires |a| == |b| && a != b
    requires forall j :: 0 <= j < |a| && !(at <= j < at + 32) ==> a[j] == b[j]
    ensures BitSteps(c, a) != BitSteps(c, b)
  {
    hide BitSteps, Plus, FitsIn, Room;
    if BitSteps(c, a) == BitSteps(c, b) {
      var i := if at < |a| then at else |a|;
      var k := if at + 32 < |a| then at + 32 else |a|;
      var head, p, q, tail := a[..i], a[i..k], b[i..k], a[k..];
      Cut(a, i, k);
      Cut(b, i, k);
      assert b[..i] == head && b[k..] == tail;
      var r := BitSteps(c, head);
      BitsConcat(c, head + p, tail);
      BitsConcat(c, head + q, tail);
      BitsConcat(c, head, p);
      BitsConcat(c, head, q);
      BitStepsInjective(BitSteps(r, p), BitSteps(r, q), tail);
      NoDifference(BitSteps(r, p), Room(32 - |p|));
      FewBits(r, p, q);
      assert false;
    }
  }

  /** Files of equal length that differ only within 32 consecutive bits, at any position,
      have different checksums. */
  lemma BitBurstIsDetected(f: seq<bv8>, g: seq<bv8>, at: nat)
    requires |f| == |g| && f != g
    requires (BitCount(f); BitCount(g);
              forall j :: 0 <= j < |AllBits(f)| && !(at <= j < at + 32) ==> AllBits(f)[j] == AllBits(g)[j])
    ensures Reference(f) != Reference(g)
  {
    hide BitSteps, Invert, AllBits;
    var a, b := AllBits(f), AllBits(g);
    BitCount(f);
    BitCount(g);
    if a == b {
      AllBitsInjective(f, g);
      assert false;
    }
    BitBurst(ONES, a, b, at);
    InvertTwice(BitSteps(ONES, a));
    InvertTwice(BitSteps(ONES, b));
  }
}
