/** The in-use bitmap of the object pool: 32 words of 32 bits, one bit per
    slot of the 1024-slot arena (fobj.c:24-31). Between collections a set bit
    means "in use"; during a collection the same words are the mark set. */
module Bitmap {

  const Capacity: int := 1024
  const WordCount: int := 32

  /** An index into the object arena. */
  type Slot = i: int | 0 <= i < 1024

  /** No slot occurs twice in `s`. */
  predicate Distinct(s: seq<Slot>)
  {
    forall k, l :: 0 <= k < l < |s| ==> s[k] != s[l]
  }

  type Bits = b: seq<bv32> | |b| == 32 witness seq(32, _ => 0)

  /** The word `idx >> 5` holding the bit of slot `idx`. */
  function WordOf(idx: Slot): int
  {
    idx / 32
  }

  /** For every 10-bit slot index the C operators used by
      `fobj_obj_index_used` are division and remainder by 32, so `WordOf`
      and `MaskOf` address exactly the bit the source touches. */
  lemma ShiftAndMaskAreDivMod(x: bv10)
    ensures (x >> 5) as int == (x as int) / 32
    ensures (x & 31) as int == (x as int) % 32
  {
  }

  /** Whether the bit of slot `idx`, under mask `1 << (idx & 31)` of word
      `idx >> 5`, is set. */
  predicate Test(b: Bits, idx: Slot)
  {
    BitOf(b[WordOf(idx)], idx % 32)
  }

  /** The set of slots whose bit is set. */
  function Members(b: Bits): set<Slot>
  {
    set i: Slot | 0 <= i < 1024 && Test(b, i)
  }

  /** The slots whose bit is clear. */
  function Clear(b: Bits): set<Slot>
  {
    set i: Slot | 0 <= i < 1024 && !Test(b, i)
  }

  /** The all-zero bitmap (`bzero` / `calloc`). */
  function Empty(): (b: Bits)
    ensures Members(b) == {}
  {
    seq(32, _ => 0)
  }

  /** Bit `k` of a 32-bit word. */
  predicate BitOf(w: bv32, k: nat)
    requires k < 32
  {
    w & (1 << k) != 0
  }

  /** `w | (1 << x)`: the word with bit `x` set and every other bit kept. */
  function SetBit(w: bv32, x: nat): (r: bv32)
    requires x < 32
    ensures forall y: nat :: y < 32 ==> (BitOf(r, y) <==> y == x || BitOf(w, y))
  {
    var r := w | (1 << x);
    forall y: nat | y < 32
      ensures BitOf(r, y) <==> y == x || BitOf(w, y)
    {
      SetBitSets(w, x);
      SetBitKeeps(w, x, y);
      if y != x {
        SetBitOnly(w, x, y);
      }
    }
    r
  }

  lemma SetBitSets(w: bv32, x: nat)
    requires x < 32
    ensures BitOf(w | (1 << x), x)
  {
  }

  lemma SetBitKeeps(w: bv32, x: nat, y: nat)
    requires x < 32 && y < 32
    ensures BitOf(w, y) ==> BitOf(w | (1 << x), y)
  {
  }

  lemma SetBitOnly(w: bv32, x: nat, y: nat)
    requires x < 32 && y < 32 && x != y
    ensures BitOf(w | (1 << x), y) ==> BitOf(w, y)
  {
  }

  /** `fobj_obj_index_used` (fobj.c:44-56): test-and-set of the bit of slot
      `idx`. Returns the prior bit and the bitmap with that bit set; no other
      slot's bit changes. */
  function TestAndSet(b: Bits, idx: Slot): (r: (bool, Bits))
    ensures r.0 == Test(b, idx)
    ensures Test(r.1, idx)
    ensures forall j: Slot :: j != idx ==> Test(r.1, j) == Test(b, j)
  {
    var w := WordOf(idx);
    if BitOf(b[w], idx % 32) then
      (true, b)
    else
      (false, b[w := SetBit(b[w], idx % 32)])
  }

  /** In terms of sets: test-and-set reports membership and inserts. */
  lemma TestAndSetMembers(b: Bits, idx: Slot)
    ensures Members(TestAndSet(b, idx).1) == Members(b) + {idx}
    ensures Clear(TestAndSet(b, idx).1) == Clear(b) - {idx}
    ensures TestAndSet(b, idx).0 <==> idx in Members(b)
  {
  }

  lemma AndNotKept(a: bv32, c: bv32, y: nat)
    requires y < 32
    ensures BitOf(a & !c, y) ==> BitOf(a, y) && !BitOf(c, y)
  {
  }

  lemma AndNotSet(a: bv32, c: bv32, y: nat)
    requires y < 32
    ensures BitOf(a, y) && !BitOf(c, y) ==> BitOf(a & !c, y)
  {
  }

  /** `a & ~c`: the bits of `a` that are clear in `c`. */
  function AndNot(a: bv32, c: bv32): (r: bv32)
    ensures forall y: nat :: y < 32 ==> (BitOf(r, y) <==> BitOf(a, y) && !BitOf(c, y))
  {
    var r := a & !c;
    forall y: nat | y < 32
      ensures BitOf(r, y) <==> BitOf(a, y) && !BitOf(c, y)
    {
      AndNotKept(a, c, y);
      AndNotSet(a, c, y);
    }
    r
  }

  /** The sweep mask of fobj.c:157, word by word: `~copy & marked`. Its set
      bits are the slots marked in this collection that were clear in the
      snapshot. */
  function SweepMask(copy: Bits, marked: Bits): (r: Bits)
    ensures forall j: Slot :: Test(r, j) <==> !Test(copy, j) && Test(marked, j)
  {
    seq(32, i requires 0 <= i < 32 => AndNot(marked[i], copy[i]))
  }

  /** The mask the comment at fobj.c:139 describes: previously in use and not
      reached, `copy & ~marked`. */
  function GarbageMask(copy: Bits, marked: Bits): (r: Bits)
    ensures forall j: Slot :: Test(r, j) <==> Test(copy, j) && !Test(marked, j)
  {
    seq(32, i requires 0 <= i < 32 => AndNot(copy[i], marked[i]))
  }
}
