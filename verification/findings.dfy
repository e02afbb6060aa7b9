/** Defects of fobj.c, each as the code behaves and as its comments and the
    purpose of the surrounding functions evidently intend, with the
    discrepancy exhibited and the intended property proved of the corrected
    definition. (The inverted
    index guard of farray.c is `Farray.StoreAsWritten`.) */
module Findings {
  import opened Common
  import opened Bitmap
  import opened Objects
  import opened Mark
  import opened Pool

  /** The pool invariant the names `inuse_bitmap` and `next_free` imply:
      the free list has no repeated entry, and a slot is on it exactly when
      its in-use bit is clear. */
  predicate FreeMatchesBitmap(p: Pool)
  {
    && p.Valid()
    && Distinct(FreeList(p))
    && forall x: Slot :: x in FreeList(p) <==> !Test(p.inuse, x)
  }

  lemma InitMatches()
    ensures FreeMatchesBitmap(Init())
  {
    var p := Init();
    forall x: Slot
      ensures x in FreeList(p)
    {
      assert FreeList(p)[x] == x;
    }
  }

  // ---- fobj_new never sets the in-use bit (fobj.c:115-121)

  /** As written, every allocation breaks the invariant: the slot it hands
      out has left the free list but its bit is still clear, so the next
      collection treats it as never allocated. */
  lemma NewLeavesSlotUnmarked(e: Env, tag: Tag)
    requires e.Valid() && FreeMatchesBitmap(e.pool)
    requires !e.debugCollect && e.pool.numFree > 0
    ensures New(e, tag).Ok?
    ensures var (e', s) := New(e, tag).value;
      s !in FreeList(e'.pool) && !Test(e'.pool.inuse, s) && !FreeMatchesBitmap(e'.pool)
  {
    var (e', s) := New(e, tag).value;
    assert FreeList(e.pool) == FreeList(e'.pool) + [s];
    var fl := FreeList(e'.pool);
    assert forall i :: 0 <= i < |fl| ==> fl[i] == FreeList(e.pool)[i];
    assert s == FreeList(e.pool)[|fl|];
    assert s in FreeList(e.pool);
  }

  /** The corrected pop: as `fobj_new`, and also sets the slot's bit. */
  function PopIntended(e: Env, tag: Tag): (r: (Env, Slot))
    requires e.Valid() && e.pool.numFree > 0
    ensures r.0.Valid() && r.1 == Pop(e, tag).1
    ensures Members(r.0.pool.inuse) == Members(e.pool.inuse) + {r.1}
    ensures r.0.pool == Pop(e, tag).0.pool.(inuse := r.0.pool.inuse)
  {
    var (e1, s) := Pop(e, tag);
    TestAndSetMembers(e1.pool.inuse, s);
    (e1.(pool := e1.pool.(inuse := TestAndSet(e1.pool.inuse, s).1)), s)
  }

  /** The corrected pop keeps the invariant. */
  lemma PopIntendedKeepsInvariant(e: Env, tag: Tag)
    requires e.Valid() && FreeMatchesBitmap(e.pool) && e.pool.numFree > 0
    ensures FreeMatchesBitmap(PopIntended(e, tag).0.pool)
  {
    var (e', s) := PopIntended(e, tag);
    var fl := FreeList(e'.pool);
    assert FreeList(e.pool) == fl + [s];
    assert forall i :: 0 <= i < |fl| ==> fl[i] == FreeList(e.pool)[i];
    forall x: Slot
      ensures x in fl <==> !Test(e'.pool.inuse, x)
    {
      if x in fl {
        var i :| 0 <= i < |fl| && fl[i] == x;
        assert FreeList(e.pool)[i] != FreeList(e.pool)[|fl|];
      }
      assert x in FreeList(e.pool) <==> x in fl || x == s;
    }
  }

  // ---- the sweep mask is `~copy & marked` (fobj.c:157)

  /** With the mask of fobj.c:157 as written (and the slot layout of
      fobj.c:162 corrected, as in `Pool.Collect`), the very first
      collection after any number of allocations from a fresh pool (in a
      non-DEBUG build, where no earlier collection has run) reclaims
      every slot reachable from the roots: the bitmap is still clear, so
      each reachable slot is "marked and not in the snapshot". */
  lemma FirstCollectionReclaimsReachable(e: Env)
    requires e.Valid() && Members(e.pool.inuse) == {}
    ensures forall x: Slot :: x in Reclaimed(e) <==> Reachable(e.pool.objs, RootList(e), x)
  {
    forall x: Slot
      ensures !Test(e.pool.inuse, x)
    {
      assert x !in Members(e.pool.inuse);
    }
    ReclaimedAreNewlyMarked(e);
  }

  /** In particular, with the same mask and the slot layout corrected, a
      live data stack whose bit is clear is zeroed and put on the free list
      while `f->dstack` still points at it. */
  lemma DataStackReclaimed(e: Env, s: Slot)
    requires e.Valid() && e.roots.dstack == Some(s) && !Test(e.pool.inuse, s)
    requires Collect(e).Ok?
    ensures Collect(e).value.pool.objs[s] == Zeroed
    ensures s in FreeList(Collect(e).value.pool)
  {
    assert Path(e.pool.objs, RootList(e), [s]);
    ReclaimedAreNewlyMarked(e);
    CollectReclaims(e);
    assert FreeList(Collect(e).value.pool) == FreeList(e.pool) + Reclaimed(e);
  }

  /** The seven roots and the hold stack, whose items `fobj_hold`
      (fobj.c:181-184) exists to keep alive across a collection. */
  function RootsWithHold(e: Env): seq<Option<Slot>>
  {
    RootList(e) + [Some(e.holdStack)]
  }

  /** A collection that sweeps the mask the comment at fobj.c:139 describes,
      `copy & ~marked`: slots in use before the collection and not reached
      from `roots`. */
  function CollectFrom(e: Env, roots: seq<Option<Slot>>): (r: Result<Env>)
    requires e.Valid()
    ensures r.Ok? ==> r.value.Valid() && r.value == e.(pool := r.value.pool)
  {
    var p := e.pool;
    var marks := MarkFrom(p.objs, roots).bits;
    var swept :- Sweep(p.(inuse := marks), GarbageMask(p.inuse, marks), Intended, 0);
    Ok(e.(pool := swept.pool))
  }

  /** The slots `CollectFrom` reclaims, in the order it pushes them. */
  function Garbage(e: Env, roots: seq<Option<Slot>>): seq<Slot>
    requires e.Valid()
  {
    FreedList(GarbageMask(e.pool.inuse, MarkFrom(e.pool.objs, roots).bits), 0)
  }

  /** The corrected collection reclaims exactly the slots that were in use
      and are unreachable from the roots, and keeps every reachable slot
      as it was. */
  lemma CollectFromReclaimsGarbage(e: Env, roots: seq<Option<Slot>>)
    requires e.Valid()
    ensures forall x: Slot :: x in Garbage(e, roots) <==>
              Test(e.pool.inuse, x) && !Reachable(e.pool.objs, roots, x)
    ensures CollectFrom(e, roots).Ok? <==> e.pool.numFree + |Garbage(e, roots)| <= Capacity
    ensures CollectFrom(e, roots).Ok? ==> Pushed(e.pool, CollectFrom(e, roots).value.pool, Garbage(e, roots))
    ensures CollectFrom(e, roots).Ok? ==> forall x: Slot ::
              CollectFrom(e, roots).value.pool.objs[x] ==
                if x in Garbage(e, roots) then Zeroed else e.pool.objs[x]
  {
    var p := e.pool;
    var marks := MarkFrom(p.objs, roots).bits;
    forall x: Slot
      ensures x in Members(marks) <==> Reachable(p.objs, roots, x)
    {
      MarkedIsReachable(p.objs, roots, x);
    }
    SweepReclaims(p.(inuse := marks), GarbageMask(p.inuse, marks), 0);
  }

  // ---- the root list omits `f->hold_stack` (fobj.c:148-154)

  /** As written, holding an object does not make it reachable: a held
      object that no chain from the seven roots reaches is left unmarked. */
  lemma HeldObjectNotMarked(e: Env, s: Slot)
    requires e.Valid()
    requires Some(s) in HeldItems(e)
    requires !Reachable(e.pool.objs, RootList(e), s)
    ensures s !in Members(Marks(e))
  {
    MarkedIsReachable(e.pool.objs, RootList(e), s);
  }

  /** So once the mask is corrected, a held object that is in use and not
      reachable from the seven roots is reclaimed while it is held. */
  lemma HeldObjectReclaimed(e: Env, s: Slot)
    requires e.Valid()
    requires Some(s) in HeldItems(e) && Test(e.pool.inuse, s)
    requires !Reachable(e.pool.objs, RootList(e), s)
    requires CollectFrom(e, RootList(e)).Ok?
    ensures CollectFrom(e, RootList(e)).value.pool.objs[s] == Zeroed
  {
    CollectFromReclaimsGarbage(e, RootList(e));
  }

  /** The corrected collector: the hold stack is an eighth root and the
      sweep reclaims `copy & ~marked`. */
  function CollectIntended(e: Env): (r: Result<Env>)
    requires e.Valid()
    ensures r.Ok? ==> r.value.Valid() && r.value == e.(pool := r.value.pool)
  {
    CollectFrom(e, RootsWithHold(e))
  }

  /** With the hold stack among the roots, every held object survives a
      collection unchanged. */
  lemma HeldObjectSurvives(e: Env, s: Slot)
    requires e.Valid()
    requires e.pool.objs[e.holdStack].tag == Stack
    requires Some(s) in HeldItems(e)
    requires CollectIntended(e).Ok?
    ensures s !in Garbage(e, RootsWithHold(e))
    ensures CollectIntended(e).value.pool.objs[s] == e.pool.objs[s]
  {
    var roots := RootsWithHold(e);
    assert roots[7] == Some(e.holdStack);
    assert Step(e.pool.objs, e.holdStack, s);
    assert Path(e.pool.objs, roots, [e.holdStack, s]);
    CollectFromReclaimsGarbage(e, roots);
  }

  /** Every object reachable from the roots is in use: the heap holds no
      reference to a free slot. */
  ghost predicate RootedInUse(e: Env)
    requires e.Valid()
  {
    forall x: Slot :: Reachable(e.pool.objs, RootsWithHold(e), x) ==> Test(e.pool.inuse, x)
  }

  lemma {:induction false} BoundedCard(s: set<int>, n: nat)
    requires forall x :: x in s ==> 0 <= x < n
    ensures |s| <= n
    decreases n
  {
    if n == 0 {
      assert forall x :: x !in s;
      assert s == {};
    } else {
      BoundedCard(s - {n - 1}, n - 1);
      assert |s| <= |s - {n - 1}| + 1;
    }
  }

  function Elems(s: seq<Slot>): set<int>
  {
    set x | x in s
  }

  lemma {:induction false} DistinctCard(s: seq<Slot>)
    requires Distinct(s)
    ensures |Elems(s)| == |s|
    decreases |s|
  {
    if s == [] {
      assert Elems(s) == {};
    } else {
      var t := s[1..];
      assert Distinct(t) by {
        forall i, j | 0 <= i < j < |t|
          ensures t[i] != t[j]
        {
          assert t[i] == s[i + 1] && t[j] == s[j + 1];
        }
      }
      DistinctCard(t);
      assert Elems(s) == {s[0] as int} + Elems(t);
      assert s[0] !in t by {
        forall i | 0 <= i < |t|
          ensures t[i] != s[0]
        {
          assert t[i] == s[i + 1];
        }
      }
    }
  }

  /** A free list with no repeated entry fits in `next_free`. */
  lemma DistinctFits(s: seq<Slot>)
    requires Distinct(s)
    ensures |s| <= Capacity
  {
    DistinctCard(s);
    BoundedCard(Elems(s), Capacity);
  }

  /** The corrected collector on a heap that keeps the invariant and has no
      reference to a free slot never overflows the free list, and afterwards
      a slot is free exactly when it is unreachable, with its bit clear. */
  lemma CollectIntendedKeepsInvariant(e: Env)
    requires e.Valid() && FreeMatchesBitmap(e.pool) && RootedInUse(e)
    ensures CollectIntended(e).Ok?
    ensures FreeMatchesBitmap(CollectIntended(e).value.pool)
    ensures forall x: Slot :: x in FreeList(CollectIntended(e).value.pool) <==>
              !Reachable(e.pool.objs, RootsWithHold(e), x)
  {
    var roots := RootsWithHold(e);
    var g := Garbage(e, roots);
    var fl := FreeList(e.pool);
    CollectFromReclaimsGarbage(e, roots);
    assert forall x :: x in g ==> x !in fl;
    assert forall x :: x in fl ==> x !in g;
    DistinctConcat(fl, g);
    DistinctFits(fl + g);
    var q := CollectIntended(e).value.pool;
    assert FreeList(q) == fl + g;
    FreeAfterCollect(e, q);
  }

  lemma FreeAfterCollect(e: Env, q: Pool)
    requires e.Valid() && FreeMatchesBitmap(e.pool) && RootedInUse(e)
    requires CollectIntended(e).Ok? && q == CollectIntended(e).value.pool
    requires FreeList(q) == FreeList(e.pool) + Garbage(e, RootsWithHold(e))
    ensures forall x: Slot :: x in FreeList(q) <==> !Reachable(e.pool.objs, RootsWithHold(e), x)
    ensures forall x: Slot :: x in FreeList(q) <==> !Test(q.inuse, x)
  {
    var roots := RootsWithHold(e);
    CollectFromReclaimsGarbage(e, roots);
    assert q.inuse == MarkFrom(e.pool.objs, roots).bits;
    forall x: Slot
      ensures x in FreeList(q) <==> !Reachable(e.pool.objs, roots, x)
      ensures x in FreeList(q) <==> !Test(q.inuse, x)
    {
      MarkedIsReachable(e.pool.objs, roots, x);
    }
  }

  /** The corrected allocation: collect with the corrected collector when
      exhausted (and always in a DEBUG build), then pop and set the bit. */
  function NewIntended(e: Env, tag: Tag): (r: Result<(Env, Slot)>)
    requires e.Valid()
    ensures r.Ok? ==> r.value.0.Valid() && r.value.1 in Members(r.value.0.pool.inuse)
    ensures r.Ok? ==> r.value.0.pool.objs[r.value.1].tag == tag
    ensures !e.debugCollect && e.pool.numFree > 0 ==> r == Ok(PopIntended(e, tag))
  {
    var e1 :- if e.pool.numFree == 0 then CollectIntended(e) else Ok(e);
    var e2 :- if e.debugCollect then CollectIntended(e1) else Ok(e1);
    if e2.pool.numFree <= 0 then Err(OutOfMemory) else Ok(PopIntended(e2, tag))
  }

  // ---- the sweep starts every word at `&m->objs[n]`, n == 32 (fobj.c:162)

  /** A sweep over a mask with no bit set from `k` on changes nothing. */
  lemma {:induction false} SweepNothing(p: Pool, freed: Bits, layout: Layout, k: nat)
    requires p.Valid() && k <= Capacity
    requires forall x: Slot :: k <= x ==> !Test(freed, x)
    ensures Sweep(p, freed, layout, k) == Ok(Swept(p, []))
    decreases Capacity - k
  {
    if k < Capacity {
      SweepNothing(p, freed, layout, k + 1);
    }
  }

  lemma LowBitOnly(y: nat)
    requires 0 < y < 32
    ensures !BitOf(1, y)
  {
  }

  /** The mask with only the bit of slot 0 set. */
  function SlotZeroMask(): (b: Bits)
    ensures forall x: Slot :: Test(b, x) <==> x == 0
  {
    var b: Bits := Empty()[0 := 1];
    forall x: Slot
      ensures Test(b, x) <==> x == 0
    {
      if 0 < x < 32 {
        LowBitOnly(x);
      }
    }
    b
  }

  /** As written, freeing slot 0 zeroes and pushes slot 32 instead, and
      leaves slot 0 as it was; the intended layout frees slot 0. */
  lemma SweepAsWrittenMisplaces(p: Pool)
    requires p.Valid() && p.numFree < Capacity
    ensures Sweep(p, SlotZeroMask(), AsWritten, 0).Ok?
    ensures var q := Sweep(p, SlotZeroMask(), AsWritten, 0).value.pool;
      && q.objs[32] == Zeroed
      && q.objs[0] == p.objs[0]
      && FreeList(q) == FreeList(p) + [32]
    ensures Sweep(p, SlotZeroMask(), Intended, 0).Ok?
    ensures var q := Sweep(p, SlotZeroMask(), Intended, 0).value.pool;
      && q.objs[0] == Zeroed
      && FreeList(q) == FreeList(p) + [0]
  {
    var freed := SlotZeroMask();
    assert Test(freed, 0);
    assert SlotAt(AsWritten, 0, 0) == 32;
    SweepNothing(Reclaim(p, 32), freed, AsWritten, 1);
    SweepNothing(Reclaim(p, 0), freed, Intended, 1);
  }
}
