/** The text of the traced process: bytes that the tracer reads and writes one
    8-byte little-endian word at a time (PTRACE_PEEKTEXT and PTRACE_POKETEXT). */
module TargetText {

  type Text = seq<bv8>

  const TRAP: bv8 := 0xCC

  /** The bytes of a word in memory order. */
  function Bytes(w: bv64): (s: seq<bv8>)
    ensures |s| == 8
  {
    [(w & 0xFF) as bv8, ((w >> 8) & 0xFF) as bv8, ((w >> 16) & 0xFF) as bv8, ((w >> 24) & 0xFF) as bv8,
     ((w >> 32) & 0xFF) as bv8, ((w >> 40) & 0xFF) as bv8, ((w >> 48) & 0xFF) as bv8, ((w >> 56) & 0xFF) as bv8]
  }

  /** The word whose bytes in memory order are `s`. */
  function Pack(s: seq<bv8>): bv64
    requires |s| == 8
  {
    (s[0] as bv64) | ((s[1] as bv64) << 8) | ((s[2] as bv64) << 16) | ((s[3] as bv64) << 24)
    | ((s[4] as bv64) << 32) | ((s[5] as bv64) << 40) | ((s[6] as bv64) << 48) | ((s[7] as bv64) << 56)
  }

  function Peek(t: Text, a: nat): bv64
    requires a + 8 <= |t|
  {
    Pack(t[a..a + 8])
  }

  function Poke(t: Text, a: nat, w: bv64): (t': Text)
    requires a + 8 <= |t|
    ensures |t'| == |t|
  {
    t[..a] + Bytes(w) + t[a + 8..]
  }

  /** The word `set_breakpoint` writes in place of `code`. */
  function TrapWord(code: bv64): bv64 {
    (code & 0xFFFF_FFFF_FFFF_FF00) | 0xCC
  }

  predicate IsBreakpoint(t: Text, a: nat)
    requires a + 8 <= |t|
  {
    Peek(t, a) & 0xFF == 0xCC
  }

  /** `orig` with the trap byte at every address of `traps`. */
  function Patched(orig: Text, traps: set<nat>): (t: Text)
    ensures |t| == |orig|
    ensures forall i :: 0 <= i < |orig| ==> t[i] == if i in traps then TRAP else orig[i]
  {
    seq(|orig|, i requires 0 <= i < |orig| => if i in traps then TRAP else orig[i])
  }

  lemma BytesOfPack(s: seq<bv8>)
    requires |s| == 8
    ensures Bytes(Pack(s)) == s
  {
    PackUnpack(s[0], s[1], s[2], s[3], s[4], s[5], s[6], s[7]);
    assert s == [s[0], s[1], s[2], s[3], s[4], s[5], s[6], s[7]];
  }

  lemma PackUnpack(b0: bv8, b1: bv8, b2: bv8, b3: bv8, b4: bv8, b5: bv8, b6: bv8, b7: bv8)
    ensures Bytes(Pack([b0, b1, b2, b3, b4, b5, b6, b7])) == [b0, b1, b2, b3, b4, b5, b6, b7]
  {
  }

  lemma BytesOfTrapWord(code: bv64)
    ensures Bytes(TrapWord(code)) == Bytes(code)[0 := TRAP]
  {
  }

  lemma IsBreakpointReadsOneByte(t: Text, a: nat)
    requires a + 8 <= |t|
    ensures IsBreakpoint(t, a) <==> t[a] == TRAP
  {
  }

  /** Nothing but `a` itself is patched in the word that starts at `a`. */
  ghost predicate AloneInWord(traps: set<nat>, a: nat) {
    forall b :: b in traps && a <= b < a + 8 ==> b == a
  }

  lemma PeekUnpatched(orig: Text, traps: set<nat>, a: nat)
    requires a + 8 <= |orig| && AloneInWord(traps, a) && a !in traps
    ensures Peek(Patched(orig, traps), a) == Peek(orig, a)
  {
    assert Patched(orig, traps)[a..a + 8] == orig[a..a + 8];
  }

  lemma PokeBytes(t: Text, a: nat, w: bv64, i: nat)
    requires a + 8 <= |t| && i < |t|
    ensures Poke(t, a, w)[i] == if a <= i < a + 8 then Bytes(w)[i - a] else t[i]
  {
  }

  /** Writing the original word back removes exactly the trap at `a`. */
  lemma Restore(orig: Text, traps: set<nat>, a: nat)
    requires a + 8 <= |orig| && AloneInWord(traps, a)
    ensures Poke(Patched(orig, traps), a, Peek(orig, a)) == Patched(orig, traps - {a})
  {
    BytesOfPack(orig[a..a + 8]);
    var l := Poke(Patched(orig, traps), a, Peek(orig, a));
    forall i | 0 <= i < |orig|
      ensures l[i] == Patched(orig, traps - {a})[i]
    {
      PokeBytes(Patched(orig, traps), a, Peek(orig, a), i);
    }
  }

  /** Writing the trap word adds exactly the trap at `a`. */
  lemma SetTrap(orig: Text, traps: set<nat>, a: nat)
    requires a + 8 <= |orig| && AloneInWord(traps, a)
    ensures Poke(Patched(orig, traps), a, TrapWord(Peek(orig, a))) == Patched(orig, traps + {a})
  {
    BytesOfPack(orig[a..a + 8]);
    BytesOfTrapWord(Peek(orig, a));
    var l := Poke(Patched(orig, traps), a, TrapWord(Peek(orig, a)));
    forall i | 0 <= i < |orig|
      ensures l[i] == Patched(orig, traps + {a})[i]
    {
      PokeBytes(Patched(orig, traps), a, TrapWord(Peek(orig, a)), i);
    }
  }

  /** What a write of a saved word leaves: outside the word the traps `x` that are set
      now, inside it the traps `y` that were set when the word was saved. */
  function WrittenBack(x: set<nat>, y: set<nat>, a: nat): set<nat> {
    (set b | b in x && !(a <= b < a + 8)) + (set b | b in y && a <= b < a + 8)
  }

  lemma WriteBack(orig: Text, x: set<nat>, y: set<nat>, a: nat)
    requires a + 8 <= |orig|
    ensures Poke(Patched(orig, x), a, Peek(Patched(orig, y), a)) == Patched(orig, WrittenBack(x, y, a))
  {
    hide Peek, Poke, Bytes, Pack;
    var t, w := Patched(orig, x), Peek(Patched(orig, y), a);
    ReadBytes(Patched(orig, y), a);
    var l := Poke(t, a, w);
    PokeLength(t, a, w);
    forall i | 0 <= i < |orig|
      ensures l[i] == Patched(orig, WrittenBack(x, y, a))[i]
    {
      PokeBytes(t, a, w, i);
    }
  }

  lemma PokeLength(t: Text, a: nat, w: bv64)
    requires a + 8 <= |t|
    ensures |Poke(t, a, w)| == |t|
  {
  }

  /** Different traps show, where the original has no trap of its own. */
  lemma SameTraps(orig: Text, x: set<nat>, y: set<nat>)
    requires forall b :: b in x + y ==> b < |orig| && orig[b] != TRAP
    ensures Patched(orig, x) == Patched(orig, y) <==> x == y
  {
    if Patched(orig, x) == Patched(orig, y) {
      forall b | b in x + y
        ensures b in x && b in y
      {
        assert Patched(orig, x)[b] == Patched(orig, y)[b];
      }
    }
  }

  /** Exactly when writing a saved word back removes the trap at `a` and nothing else: the
      rest of the word has the same traps now as when the word was saved, and none was
      at `a`. So overlapping words plant a trap again, or remove one. */
  lemma RestoreSavedExact(orig: Text, x: set<nat>, y: set<nat>, a: nat)
    requires a + 8 <= |orig| && forall b :: b in x + y ==> b < |orig| && orig[b] != TRAP
    ensures Poke(Patched(orig, x), a, Peek(Patched(orig, y), a)) == Patched(orig, x - {a}) <==>
            forall b :: a <= b < a + 8 ==> (b in y <==> b in x && b != a)
  {
    hide Peek, Poke, Patched;
    WriteBack(orig, x, y, a);
    var l := WrittenBack(x, y, a);
    assert forall b :: b in l + (x - {a}) ==> b in x + y;
    SameTraps(orig, l, x - {a});
    if l == x - {a} {
      forall b | a <= b < a + 8
        ensures b in y <==> b in x && b != a
      {
        assert b in l <==> b in y;
      }
    }
  }

  /** In particular for a word saved from the untouched text. */
  lemma RestoreExact(orig: Text, x: set<nat>, a: nat)
    requires a + 8 <= |orig| && forall b :: b in x ==> b < |orig| && orig[b] != TRAP
    ensures Poke(Patched(orig, x), a, Peek(orig, a)) == Patched(orig, x - {a}) <==> AloneInWord(x, a)
  {
    hide Peek, Poke;
    assert Patched(orig, {}) == orig;
    RestoreSavedExact(orig, x, {}, a);
  }

  /** A word that was saved while a trap sat at a later byte `b` of it plants that trap in
      a text that was clean. */
  lemma OverlapPlantsTrap(orig: Text, a: nat, b: nat)
    requires a + 8 <= |orig| && a < b < a + 8
    ensures Poke(orig, a, Peek(Patched(orig, {b}), a)) == Patched(orig, {b})
  {
    hide Peek, Poke;
    assert Patched(orig, {}) == orig;
    WriteBack(orig, {}, {b}, a);
    assert WrittenBack({}, {b}, a) == {b};
  }

  lemma ReadBytes(t: Text, a: nat)
    requires a + 8 <= |t|
    ensures Bytes(Peek(t, a)) == t[a..a + 8]
  {
    BytesOfPack(t[a..a + 8]);
  }
}
