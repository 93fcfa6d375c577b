/** CRC-32 of separate debug files. */
module Crc32 {
  import opened Crc32Table

  // ----- Word operations. The proofs treat them as plain functions with the few
  // properties stated as lemmas.

  /** Addition of polynomials over two elements. */
  function Plus(x: bv32, y: bv32): bv32 {
    x ^ y
  }

  function Invert(x: bv32): bv32 {
    !x
  }

  function Half(w: bv32): bv32 {
    w >> 1
  }

  function Down8(x: bv32): bv32 {
    x >> 8
  }

  function Widen(b: bv8): bv32 {
    b as bv32
  }

  function LowByte(x: bv32): bv8 {
    (x & 0xFF) as bv8
  }

  function HighBytes(x: bv32): bv32 {
    x & 0xFFFF_FF00
  }

  predicate Odd(x: bv32) {
    x & 1 == 1
  }

  const ONES: bv32 := 0xFFFF_FFFF

  // ----- Bit-at-a-time division, as the reference

  /** The bits of a byte, least significant first. */
  function Bits(b: bv8): (s: seq<bool>)
    ensures |s| == 8
  {
    [b & 1 == 1, b & 2 == 2, b & 4 == 4, b & 8 == 8, b & 16 == 16, b & 32 == 32, b & 64 == 64, b & 128 == 128]
  }

  /** One message bit enters the division register. */
  function BitStep(c: bv32, bit: bool): bv32 {
    if (c & 1 == 1) != bit then (c >> 1) ^ POLY else c >> 1
  }

  function BitSteps(c: bv32, bits: seq<bool>): bv32 {
    if bits == [] then c else BitStep(BitSteps(c, bits[..|bits| - 1]), bits[|bits| - 1])
  }

  function AllBits(data: seq<bv8>): seq<bool> {
    if data == [] then [] else AllBits(data[..|data| - 1]) + Bits(data[|data| - 1])
  }

  /** CRC-32 of RFC 1952, section 8: all bits of the message divided one by one,
      register preset to ones and inverted at the end. */
  function Reference(data: seq<bv8>): bv32 {
    Invert(BitSteps(ONES, AllBits(data)))
  }

  // ----- The code

  /** The body of the loop of gnu_debuglink_crc32. */
  function TableStep(c: bv32, b: bv8): bv32 {
    Plus(Entry(LowByte(Plus(c, Widen(b)))), Down8(c))
  }

  function TableSteps(c: bv32, data: seq<bv8>): bv32 {
    if data == [] then c else TableStep(TableSteps(c, data[..|data| - 1]), data[|data| - 1])
  }

  /** gnu_debuglink_crc32. */
  method Update(crc: bv32, buf: seq<bv8>) returns (r: bv32)
    ensures r == Invert(TableSteps(Invert(crc), buf))
  {
    hide TableStep, Invert;
    r := Invert(crc);
    var i := 0;
    while i < |buf|
      invariant 0 <= i <= |buf| && r == TableSteps(Invert(crc), buf[..i])
    {
      assert buf[..i + 1][..i] == buf[..i];
      r := TableStep(r, buf[i]);
      i := i + 1;
    }
    assert buf[..i] == buf;
    r := Invert(r);
  }

  function Concat(chunks: seq<seq<bv8>>): seq<bv8> {
    if chunks == [] then [] else Concat(chunks[..|chunks| - 1]) + chunks[|chunks| - 1]
  }

  /** file_crc32: `chunks` is what read() delivers until it returns nothing. */
  method FileCrc(chunks: seq<seq<bv8>>) returns (crc: bv32)
    ensures crc == Reference(Concat(chunks))
  {
    hide TableSteps, BitSteps, Invert;
    ghost var data: seq<bv8> := [];
    crc := 0;
    var i := 0;
    EmptyFile();
    while i < |chunks|
      invariant 0 <= i <= |chunks| && data == Concat(chunks[..i]) && crc == Invert(TableSteps(ONES, data))
    {
      OneMoreChunk(data, chunks[i]);
      assert chunks[..i + 1][..i] == chunks[..i];
      crc := Update(crc, chunks[i]);
      data := data + chunks[i];
      i := i + 1;
    }
    assert chunks[..i] == chunks;
    TableIsBitwise(ONES, data);
  }

  lemma EmptyFile()
    ensures Invert(TableSteps(ONES, [])) == 0
  {
  }

  /** The final inversion of one call is undone by the initial one of the next. */
  lemma OneMoreChunk(data: seq<bv8>, chunk: seq<bv8>)
    ensures TableSteps(Invert(Invert(TableSteps(ONES, data))), chunk) == TableSteps(ONES, data + chunk)
  {
    hide TableSteps, Invert;
    InvertTwice(TableSteps(ONES, data));
    StepsConcat(ONES, data, chunk);
  }

  lemma InvertTwice(c: bv32)
    ensures Invert(Invert(c)) == c
  {
  }

  lemma {:induction false} StepsConcat(c: bv32, a: seq<bv8>, b: seq<bv8>)
    ensures TableSteps(c, a + b) == TableSteps(TableSteps(c, a), b)
  {
    hide TableStep;
    if b == [] {
      assert a + b == a;
    } else {
      var n := |b| - 1;
      StepsConcat(c, a, b[..n]);
      assert (a + b)[..|a| + n] == a + b[..n];
    }
  }

  // ----- Division is linear

  lemma HalfPlus(x: bv32, y: bv32)
    ensures Half(Plus(x, y)) == Plus(Half(x), Half(y))
  {
  }

  lemma OddPlus(x: bv32, y: bv32)
    ensures Odd(Plus(x, y)) <==> Odd(x) != Odd(y)
  {
  }

  lemma PlusCommutes(x: bv32, y: bv32)
    ensures Plus(x, y) == Plus(y, x)
  {
  }

  lemma PlusAssociates(x: bv32, y: bv32, z: bv32)
    ensures Plus(Plus(x, y), z) == Plus(x, Plus(y, z))
  {
  }

  lemma PlusSelf(x: bv32)
    ensures Plus(x, x) == 0
  {
  }

  lemma PlusZero(x: bv32)
    ensures Plus(x, 0) == x
  {
  }

  lemma ShiftByHalf(c: bv32)
    ensures Shift(c) == if Odd(c) then Plus(Half(c), POLY) else Half(c)
  {
  }

  lemma PlusRegroups(a: bv32, b: bv32, x: bv32, y: bv32)
    ensures Plus(Plus(a, x), Plus(b, y)) == Plus(Plus(a, b), Plus(x, y))
  {
    hide Plus;
    PlusAssociates(a, x, Plus(b, y));
    PlusAssociates(x, b, y);
    PlusCommutes(x, b);
    PlusAssociates(b, x, y);
    PlusAssociates(a, b, Plus(x, y));
  }

  lemma ShiftLinear(x: bv32, y: bv32)
    ensures Shift(Plus(x, y)) == Plus(Shift(x), Shift(y))
  {
    hide Shift, Plus, Odd, Half;
    var a, b := if Odd(x) then POLY else 0, if Odd(y) then POLY else 0;
    ShiftByHalf(x);
    ShiftByHalf(y);
    ShiftByHalf(Plus(x, y));
    HalfPlus(x, y);
    OddPlus(x, y);
    PlusZero(Half(x));
    PlusZero(Half(y));
    PlusRegroups(Half(x), Half(y), a, b);
    PlusSelf(POLY);
    PlusZero(POLY);
    PlusCommutes(0, POLY);
    PlusZero(0);
    PlusZero(Half(Plus(x, y)));
  }

  lemma Shift8Linear(x: bv32, y: bv32)
    ensures Shift8(Plus(x, y)) == Plus(Shift8(x), Shift8(y))
  {
    hide Shift, Plus;
    var a, b := x, y;
    ShiftLinear(a, b); a, b := Shift(a), Shift(b);
    ShiftLinear(a, b); a, b := Shift(a), Shift(b);
    ShiftLinear(a, b); a, b := Shift(a), Shift(b);
    ShiftLinear(a, b); a, b := Shift(a), Shift(b);
    ShiftLinear(a, b); a, b := Shift(a), Shift(b);
    ShiftLinear(a, b); a, b := Shift(a), Shift(b);
    ShiftLinear(a, b); a, b := Shift(a), Shift(b);
    ShiftLinear(a, b);
  }

  // ----- Table steps are bit steps

  lemma Split(x: bv32)
    ensures Plus(Widen(LowByte(x)), HighBytes(x)) == x
  {
  }

  lemma HighBytesStay(c: bv32, b: bv8)
    ensures Down8(HighBytes(Plus(c, Widen(b)))) == Down8(c)
  {
  }

  lemma ShiftOfHighBytes(x: bv32)
    ensures Shift8(HighBytes(x)) == Down8(HighBytes(x))
  {
    hide Shift8, Down8, HighBytes;
    NoLowByte(x);
    EvenShifts(HighBytes(x));
  }

  lemma NoLowByte(x: bv32)
    ensures LowByte(HighBytes(x)) == 0
  {
  }

  lemma EvenShifts(h: bv32)
    requires LowByte(h) == 0
    ensures Shift8(h) == Down8(h)
  {
    assert h & 0xFF == 0;
  }

  /** One table step is the division of the register with the byte added. */
  lemma TableStepShifts(c: bv32, b: bv8)
    ensures TableStep(c, b) == Shift8(Plus(c, Widen(b)))
  {
    hide Entry, Shift8, Plus, Widen, LowByte, HighBytes, Down8;
    var x := Plus(c, Widen(b));
    Split(x);
    HighBytesStay(c, b);
    Shift8Linear(Widen(LowByte(x)), HighBytes(x));
    ShiftOfHighBytes(x);
    EntryShifts(LowByte(x));
  }

  lemma EntryShifts(b: bv8)
    ensures Entry(b) == Shift8(Widen(b))
  {
    hide Entry, Shift8;
    TableIsRight(b);
  }

  lemma Snoc(c: bv32, bits: seq<bool>, bit: bool)
    ensures BitSteps(c, bits + [bit]) == BitStep(BitSteps(c, bits), bit)
  {
    hide BitStep;
    assert (bits + [bit])[..|bits|] == bits;
  }

  lemma BitStepByHalf(r: bv32, bit: bool)
    ensures BitStep(r, bit) == if Odd(r) != bit then Plus(Half(r), POLY) else Half(r)
  {
  }

  /** Feeding the low bit of `w` to the register is shifting their sum. */
  lemma FeedBit(r: bv32, w: bv32)
    ensures Plus(BitStep(r, Odd(w)), Half(w)) == Shift(Plus(r, w))
  {
    hide BitStep, Shift, Plus, Half, Odd;
    BitStepByHalf(r, Odd(w));
    ShiftByHalf(Plus(r, w));
    HalfPlus(r, w);
    OddPlus(r, w);
    PlusAssociates(Half(r), POLY, Half(w));
    PlusCommutes(POLY, Half(w));
    PlusAssociates(Half(r), Half(w), POLY);
  }

  lemma FeedNext(c: bv32, bits: seq<bool>, w: bv32)
    ensures Plus(BitSteps(c, bits + [Odd(w)]), Half(w)) == Shift(Plus(BitSteps(c, bits), w))
  {
    hide BitStep, Shift, Plus, Half, Odd, BitSteps;
    Snoc(c, bits, Odd(w));
    FeedBit(BitSteps(c, bits), w);
  }

  lemma BitsOfWord(b: bv8)
    ensures var w0 := Widen(b); var w1 := Half(w0); var w2 := Half(w1); var w3 := Half(w2);
            var w4 := Half(w3); var w5 := Half(w4); var w6 := Half(w5); var w7 := Half(w6);
            && Bits(b) == [Odd(w0), Odd(w1), Odd(w2), Odd(w3), Odd(w4), Odd(w5), Odd(w6), Odd(w7)]
            && Half(w7) == 0
  {
  }

  /** A byte fed bit by bit is a byte added to the register and shifted out. */
  lemma EightBits(c: bv32, b: bv8)
    ensures BitSteps(c, Bits(b)) == Shift8(Plus(c, Widen(b)))
  {
    hide BitStep, Shift, BitSteps, Bits, Plus, Half, Odd, Widen;
    var s: seq<bool>, w := [], Widen(b);
    NoBits(c);
    FeedNext(c, s, w); s, w := s + [Odd(w)], Half(w);
    FeedNext(c, s, w); s, w := s + [Odd(w)], Half(w);
    FeedNext(c, s, w); s, w := s + [Odd(w)], Half(w);
    FeedNext(c, s, w); s, w := s + [Odd(w)], Half(w);
    FeedNext(c, s, w); s, w := s + [Odd(w)], Half(w);
    FeedNext(c, s, w); s, w := s + [Odd(w)], Half(w);
    FeedNext(c, s, w); s, w := s + [Odd(w)], Half(w);
    FeedNext(c, s, w); s, w := s + [Odd(w)], Half(w);
    BitsOfWord(b);
    assert s == Bits(b);
    PlusZero(BitSteps(c, s));
  }

  lemma NoBits(c: bv32)
    ensures BitSteps(c, []) == c
  {
  }

  lemma {:induction false} BitsConcat(c: bv32, a: seq<bool>, b: seq<bool>)
    ensures BitSteps(c, a + b) == BitSteps(BitSteps(c, a), b)
  {
    hide BitStep;
    if b == [] {
      assert a + b == a;
    } else {
      var n := |b| - 1;
      BitsConcat(c, a, b[..n]);
      assert (a + b)[..|a| + n] == a + b[..n];
    }
  }

  /** The table-driven loop divides the message bit by bit. */
  lemma {:induction false} TableIsBitwise(c: bv32, data: seq<bv8>)
    ensures TableSteps(c, data) == BitSteps(c, AllBits(data))
  {
    hide TableStep, BitStep, BitSteps, Shift8, Bits, Plus, Widen;
    if data == [] {
      NoBits(c);
    } else {
      var n := |data| - 1;
      var r := TableSteps(c, data[..n]);
      TableIsBitwise(c, data[..n]);
      TableStepShifts(r, data[n]);
      EightBits(r, data[n]);
      BitsConcat(c, AllBits(data[..n]), Bits(data[n]));
    }
  }

  // ----- Short bursts of changes are always detected

  function Up8(x: bv32): bv32 {
    x << 8
  }

  /** The bits in which two bytes differ. */
  function Differ(p: bv8, q: bv8): bv8 {
    p ^ q
  }

  /** `d` fits in its low `n` bytes. */
  predicate Fits(d: bv32, n: int) {
    match n
    case 0 => d == 0
    case 1 => d < 0x100
    case 2 => d < 0x1_0000
    case 3 => d < 0x100_0000
    case _ => true
  }

  lemma ShiftKernel(x: bv32)
    requires Shift(x) == 0
    ensures x == 0
  {
  }

  lemma Shift8Kernel(x: bv32)
    requires Shift8(x) == 0
    ensures x == 0
  {
    hide Shift;
    var a := Shift(x); var b := Shift(a); var c := Shift(b); var d := Shift(c);
    var e := Shift(d); var f := Shift(e); var g := Shift(f);
    ShiftKernel(g); ShiftKernel(f); ShiftKernel(e); ShiftKernel(d);
    ShiftKernel(c); ShiftKernel(b); ShiftKernel(a); ShiftKernel(x);
  }

  lemma SumZero(x: bv32, y: bv32)
    ensures Plus(x, y) == 0 <==> x == y
  {
  }

  lemma Shift8Injective(x: bv32, y: bv32)
    requires Shift8(x) == Shift8(y)
    ensures x == y
  {
    hide Shift8, Plus;
    Shift8Linear(x, y);
    SumZero(Shift8(x), Shift8(y));
    Shift8Kernel(Plus(x, y));
    SumZero(x, y);
  }

  lemma UpThenDown(d: bv32)
    requires Fits(d, 3)
    ensures LowByte(Up8(d)) == 0 && Down8(Up8(d)) == d
  {
  }

  lemma ShiftBack(d: bv32)
    requires Fits(d, 3)
    ensures Shift8(Up8(d)) == d
  {
    hide Shift8, Down8, Up8, LowByte, Fits;
    UpThenDown(d);
    EvenShifts(Up8(d));
  }

  lemma Regroup(x: bv32, y: bv32, p: bv8, q: bv8)
    ensures Plus(Plus(x, Widen(p)), Plus(y, Widen(q))) == Plus(Plus(x, y), Widen(Differ(p, q)))
  {
    hide Plus, Widen, Differ;
    PlusRegroups(x, y, Widen(p), Widen(q));
    WidenDiffer(p, q);
  }

  lemma WidenDiffer(p: bv8, q: bv8)
    ensures Widen(Differ(p, q)) == Plus(Widen(p), Widen(q))
  {
  }

  lemma AddBack(d: bv32, w: bv32, u: bv32)
    requires Plus(d, w) == u
    ensures d == Plus(u, w)
  {
  }

  /** One step undone: the difference before the step, from the difference after it. */
  lemma StepBack(x: bv32, y: bv32, p: bv8, q: bv8)
    requires Fits(Plus(TableStep(x, p), TableStep(y, q)), 3)
    ensures Plus(x, y) == Plus(Up8(Plus(TableStep(x, p), TableStep(y, q))), Widen(Differ(p, q)))
  {
    hide TableStep, Shift8, Plus, Widen, Fits, Up8, Differ;
    var d := Plus(TableStep(x, p), TableStep(y, q));
    var u, v := Plus(x, Widen(p)), Plus(y, Widen(q));
    TableStepShifts(x, p);
    TableStepShifts(y, q);
    Shift8Linear(u, v);
    ShiftBack(d);
    Shift8Injective(Plus(u, v), Up8(d));
    Regroup(x, y, p, q);
    AddBack(Plus(x, y), Widen(Differ(p, q)), Up8(d));
  }

  lemma MoreRoom(d: bv32, b: bv8, n: int)
    requires 0 <= n < 4 && Fits(d, n)
    ensures Fits(d, 3) && Fits(Plus(Up8(d), Widen(b)), n + 1)
  {
  }

  lemma NothingLeft(d: bv32, p: bv8, q: bv8)
    requires Fits(d, 3) && Plus(Up8(d), Widen(Differ(p, q))) == 0
    ensures d == 0 && p == q
  {
    assert (d << 8) & 0xFF == 0;
    assert (p ^ q) as bv32 & 0xFF == (p ^ q) as bv32;
  }

  /** A difference that leaves room for a byte came from one that fits with it. */
  lemma StepBackFits(x: bv32, y: bv32, p: bv8, q: bv8, n: int)
    requires 0 <= n < 4 && Fits(Plus(TableStep(x, p), TableStep(y, q)), n)
    ensures Fits(Plus(x, y), n + 1)
    ensures x == y ==> p == q
  {
    hide TableStep, Plus, Widen, Fits, Up8, Differ;
    var d := Plus(TableStep(x, p), TableStep(y, q));
    MoreRoom(d, Differ(p, q), n);
    StepBack(x, y, p, q);
    SumZero(x, y);
    if x == y {
      NothingLeft(d, p, q);
    }
  }

  lemma LastStep(c: bv32, s: seq<bv8>, n: int)
    requires |s| == n + 1 && n >= 0
    ensures TableSteps(c, s) == TableStep(TableSteps(c, s[..n]), s[n])
  {
    hide TableStep;
  }

  /** Up to four bytes map injectively to the register, whatever it held. */
  lemma {:induction false} FewBytes(c: bv32, p: seq<bv8>, q: seq<bv8>)
    requires |p| == |q| <= 4
    requires Fits(Plus(TableSteps(c, p), TableSteps(c, q)), 4 - |p|)
    ensures p == q
  {
    hide TableStep, TableSteps, Plus, Fits;
    if |p| > 0 {
      var n := |p| - 1;
      LastStep(c, p, n);
      LastStep(c, q, n);
      StepBackFits(TableSteps(c, p[..n]), TableSteps(c, q[..n]), p[n], q[n], 3 - n);
      FewBytes(c, p[..n], q[..n]);
      assert p == p[..n] + [p[n]];
      assert q == q[..n] + [q[n]];
    }
  }

  lemma TableStepInjective(x: bv32, y: bv32, b: bv8)
    requires TableStep(x, b) == TableStep(y, b)
    ensures x == y
  {
    hide TableStep, Shift8, Plus, Widen;
    var u, v := Plus(x, Widen(b)), Plus(y, Widen(b));
    TableStepShifts(x, b);
    TableStepShifts(y, b);
    Shift8Injective(u, v);
    AddBack(x, Widen(b), u);
    AddBack(y, Widen(b), v);
  }

  /** Different registers stay different over equal bytes. */
  lemma {:induction false} StepsInjective(x: bv32, y: bv32, s: seq<bv8>)
    requires TableSteps(x, s) == TableSteps(y, s)
    ensures x == y
  {
    hide TableStep;
    if s != [] {
      var n := |s| - 1;
      TableStepInjective(TableSteps(x, s[..n]), TableSteps(y, s[..n]), s[n]);
      StepsInjective(x, y, s[..n]);
    }
  }

  lemma NoDifferenceFits(x: bv32, n: int)
    ensures Fits(Plus(x, x), n)
  {
  }

  /** Files of equal length that differ only within four consecutive bytes have
      different checksums. */
  lemma BurstIsDetected(f: seq<bv8>, g: seq<bv8>, at: nat)
    requires |f| == |g| && f != g
    requires forall j :: 0 <= j < |f| && !(at <= j < at + 4) ==> f[j] == g[j]
    ensures Reference(f) != Reference(g)
  {
    hide TableStep, TableSteps, BitSteps, Plus, Fits, Invert;
    if Reference(f) == Reference(g) {
      InvertTwice(BitSteps(ONES, AllBits(f)));
      InvertTwice(BitSteps(ONES, AllBits(g)));
      TableIsBitwise(ONES, f);
      TableIsBitwise(ONES, g);
      var i := if at < |f| then at else |f|;
      var k := if at + 4 < |f| then at + 4 else |f|;
      var head, p, q, tail := f[..i], f[i..k], g[i..k], f[k..];
      assert f == head + p + tail;
      assert g == head + q + tail;
      var c := TableSteps(ONES, head);
      StepsConcat(ONES, head + p, tail);
      StepsConcat(ONES, head + q, tail);
      StepsConcat(ONES, head, p);
      StepsConcat(ONES, head, q);
      StepsInjective(TableSteps(c, p), TableSteps(c, q), tail);
      NoDifferenceFits(TableSteps(c, p), 4 - |p|);
      FewBytes(c, p, q);
      assert false;
    }
  }
}
