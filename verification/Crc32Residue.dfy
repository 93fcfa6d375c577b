/** The checksum of a file is the one word that, appended to it, leaves the register in a
    fixed state. */
module Crc32Residue {
  import opened Crc32Table
  import opened Crc32

  /** What the register holds after any file that is followed by its checksum. */
  const RESIDUE: bv32 := 0xDEBB_20E3

  /** The bytes of a word, low byte first. */
  function LittleEndian(w: bv32): seq<bv8> {
    [LowByte(w), LowByte(Down8(w)), LowByte(Down8(Down8(w))), LowByte(Down8(Down8(Down8(w))))]
  }

  function Shift32(c: bv32): bv32 {
    Shift8(Shift8(Shift8(Shift8(c))))
  }

  lemma DownOfHigh(w: bv32)
    ensures Down8(HighBytes(w)) == Down8(w)
  {
  }

  lemma FourBytes(w: bv32)
    ensures Down8(Down8(Down8(Down8(w)))) == 0
  {
  }

  /** A word whose low byte enters the register: the rest of it is still to come. */
  lemma ByteOfWord(c: bv32, w: bv32)
    ensures Shift8(Plus(c, w)) == Plus(TableStep(c, LowByte(w)), Down8(w))
  {
    hide Shift8, Plus, TableStep, Widen, LowByte, HighBytes, Down8;
    Split(w);
    PlusAssociates(c, Widen(LowByte(w)), HighBytes(w));
    Shift8Linear(Plus(c, Widen(LowByte(w))), HighBytes(w));
    ShiftOfHighBytes(w);
    DownOfHigh(w);
    TableStepShifts(c, LowByte(w));
  }

  /** The four bytes of a word enter the register as the word does at once. */
  lemma WordEnters(c: bv32, w: bv32)
    ensures TableSteps(c, LittleEndian(w)) == Shift32(Plus(c, w))
  {
    hide Shift8, Plus, TableStep, LowByte, Down8;
    var w1 := Down8(w);
    var w2 := Down8(w1);
    var w3 := Down8(w2);
    var c1 := TableStep(c, LowByte(w));
    var c2 := TableStep(c1, LowByte(w1));
    var c3 := TableStep(c2, LowByte(w2));
    var c4 := TableStep(c3, LowByte(w3));
    ByteOfWord(c, w);
    ByteOfWord(c1, w1);
    ByteOfWord(c2, w2);
    ByteOfWord(c3, w3);
    FourBytes(w);
    PlusZero(c4);
    FourSteps(c, LowByte(w), LowByte(w1), LowByte(w2), LowByte(w3));
  }

  lemma FourSteps(c: bv32, b0: bv8, b1: bv8, b2: bv8, b3: bv8)
    ensures TableSteps(c, [b0, b1, b2, b3]) == TableStep(TableStep(TableStep(TableStep(c, b0), b1), b2), b3)
  {
    hide TableStep;
    var s := [b0, b1, b2, b3];
    LastStep(c, s, 3);
    LastStep(c, s[..3], 2);
    LastStep(c, s[..2], 1);
    LastStep(c, s[..1], 0);
    assert s[..3][..2] == s[..2] && s[..2][..1] == s[..1] && s[..1][..0] == [];
  }

  lemma OnesShifted()
    ensures Shift32(ONES) == RESIDUE
  {
    assert Shift8(ONES) == 0x2DFD_1072;
    assert Shift8(0x2DFD_1072) == 0xBE26_ED00;
    assert Shift8(0xBE26_ED00) == 0x00BE_26ED;
  }

  lemma Shift32Injective(x: bv32, y: bv32)
    requires Shift32(x) == Shift32(y)
    ensures x == y
  {
    hide Shift8;
    Shift8Injective(Shift8(Shift8(Shift8(x))), Shift8(Shift8(Shift8(y))));
    Shift8Injective(Shift8(Shift8(x)), Shift8(Shift8(y)));
    Shift8Injective(Shift8(x), Shift8(y));
    Shift8Injective(x, y);
  }

  lemma PlusInverted(x: bv32)
    ensures Plus(x, Invert(x)) == ONES
  {
  }

  lemma Complement(x: bv32, w: bv32)
    ensures Plus(x, w) == ONES <==> w == Invert(x)
  {
    hide Plus, Invert;
    PlusInverted(x);
    if Plus(x, w) == ONES {
      PlusCommutes(x, w);
      PlusCommutes(x, Invert(x));
      AddBack(w, x, ONES);
      AddBack(Invert(x), x, ONES);
    }
  }

  /** Followed by four bytes, a file leaves the residue in the register if and only if the
      bytes are those of its checksum, low byte first. */
  lemma ChecksumLeavesResidue(data: seq<bv8>, w: bv32)
    ensures BitSteps(ONES, AllBits(data + LittleEndian(w))) == RESIDUE <==> w == Reference(data)
  {
    hide BitSteps, TableSteps, Plus, Invert, Shift32, LittleEndian;
    var r := TableSteps(ONES, data);
    TableIsBitwise(ONES, data);
    TableIsBitwise(ONES, data + LittleEndian(w));
    StepsConcat(ONES, data, LittleEndian(w));
    WordEnters(r, w);
    OnesShifted();
    Complement(r, w);
    if Shift32(Plus(r, w)) == RESIDUE {
      Shift32Injective(Plus(r, w), ONES);
    }
  }
}
