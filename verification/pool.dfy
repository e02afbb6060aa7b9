/** The object pool of fobj.c: a fixed arena of 1024 slots, a LIFO free list
    (`next_free[0 .. num_free_objs)`), the in-use bitmap, the collector that
    snapshots, marks from the interpreter's roots and sweeps, the hold stack,
    and the allocating constructors built on `fobj_new`. */
module Pool {
  import opened Common
  import opened Bitmap
  import opened Objects
  import opened Mark
  import Farray

  /** `struct fobj_mem_s` (fobj.c:26-31). `next_free` holds `uint16_t`
      values, all of them slot indices. */
  datatype Pool = Pool(inuse: Bits, numFree: int, nextFree: seq<Slot>, objs: seq<Obj>)
  {
    predicate Valid()
    {
      0 <= numFree <= Capacity && |nextFree| == Capacity && |objs| == Capacity
    }
  }

  /** The seven roots `fobj_garbage_collection` visits (fobj.c:148-154). */
  datatype Roots = Roots(
    dstack: Option<Slot>, rstack: Option<Slot>, currentCompiling: Option<Slot>,
    newWords: Option<Slot>, words: Option<Slot>, inputStr: Option<Slot>,
    running: Option<Slot>)

  /** The part of `fenv_t` the core uses. `maxHoldSp` is the process-global
      `fobj_max_hold_sp`; `debugCollect` is whether the build defines DEBUG,
      which makes every allocation collect first. */
  datatype Env = Env(pool: Pool, roots: Roots, holdStack: Slot, maxHoldSp: int, debugCollect: bool)
  {
    predicate Valid()
    {
      pool.Valid()
    }
  }

  /** The roots in the order fobj.c:148-154 visits them. */
  function RootList(e: Env): (r: seq<Option<Slot>>)
    ensures |r| == 7
    ensures r[0] == e.roots.dstack && r[1] == e.roots.rstack
    ensures r[2] == e.roots.currentCompiling && r[3] == e.roots.newWords
    ensures r[4] == e.roots.words && r[5] == e.roots.inputStr && r[6] == e.roots.running
  {
    var r := e.roots;
    [r.dstack, r.rstack, r.currentCompiling, r.newWords, r.words, r.inputStr, r.running]
  }

  /** The free-list entries, bottom to top. */
  function FreeList(p: Pool): seq<Slot>
    requires p.Valid()
  {
    p.nextFree[..p.numFree]
  }

  /** `fobj_obj_mem_init` (fobj.c:64-72): every slot zeroed and free, the
      free list holding 0 .. 1023 in order, the bitmap clear. */
  function Init(): (p: Pool)
    ensures p.Valid()
  {
    Pool(Empty(), Capacity, seq(Capacity, i requires 0 <= i < Capacity => i as Slot), seq(Capacity, _ => Zeroed))
  }

  // ---------------------------------------------------------------- sweep

  /** Which slot the sweep frees for bit `b` of word `w`. The source starts
      every word at `&m->objs[n]` with `n == 32` (fobj.c:162), so the slot is
      `32 + b`; the evident intent is `32 * w + b`. */
  datatype Layout = Intended | AsWritten

  /** Under the intended layout the freed slot is the one whose bitmap
      address is word `w`, bit `b`, the address `Test` reads; as written
      every word is mapped onto slots 32 .. 63. */
  function SlotAt(layout: Layout, w: int, b: int): (r: Slot)
    requires 0 <= w < WordCount && 0 <= b < 32
    ensures layout.Intended? ==> WordOf(r) == w && r % 32 == b
    ensures layout.AsWritten? ==> 32 <= r < 64 && r % 32 == b
  {
    match layout
    case Intended => 32 * w + b
    case AsWritten => 32 + b
  }

  /** Each slot of `s` is smaller than the next, so none repeats. */
  predicate Ascending(s: seq<Slot>)
  {
    forall i, j :: 0 <= i < j < |s| ==> s[i] < s[j]
  }

  /** The slots of `freed` from `k` on, in ascending order: the order in
      which the sweep visits them under the intended layout. */
  function FreedList(freed: Bits, k: nat): (r: seq<Slot>)
    requires k <= Capacity
    ensures forall x: Slot :: x in r <==> k <= x && Test(freed, x)
    ensures Ascending(r)
    decreases Capacity - k
  {
    if k == Capacity then []
    else
      var rest := FreedList(freed, k + 1);
      assert forall j :: 0 <= j < |rest| ==> rest[j] in rest;
      if Test(freed, k) then [k as Slot] + rest else rest
  }

  /** The slots among `ss` whose type has a free hook, in order: the hooks
      the sweep calls. */
  function FreeHooks(objs: seq<Obj>, ss: seq<Slot>): (r: seq<Slot>)
    requires |objs| == Capacity
    ensures forall x :: x in r <==> x in ss && HasOp(objs[x].tag, FreeOp)
    ensures Ascending(ss) ==> Ascending(r)
  {
    if ss == [] then []
    else
      var rest := FreeHooks(objs, ss[1..]);
      assert Ascending(ss) ==> Ascending(ss[1..]) && forall j :: 0 <= j < |rest| ==> ss[0] < rest[j] by {
        if Ascending(ss) {
          assert forall j :: 0 <= j < |rest| ==> rest[j] in ss[1..];
          assert forall y :: y in ss[1..] ==> ss[0] < y;
        }
      }
      (if HasOp(objs[ss[0]].tag, FreeOp) then [ss[0]] else []) + rest
  }

  /** `p'` is `p` with `fl` pushed onto the free list, in order. */
  predicate Pushed(p: Pool, p': Pool, fl: seq<Slot>)
    requires p.Valid() && p'.Valid()
  {
    && p'.numFree == p.numFree + |fl|
    && FreeList(p') == FreeList(p) + fl
    && p'.nextFree[p'.numFree..] == p.nextFree[p'.numFree..]
  }

  /** The result of a sweep: the pool and the slots whose free hook ran. */
  datatype Swept = Swept(pool: Pool, hooks: seq<Slot>)

  /** The sweep loop (fobj.c:156-178), bit by bit from bit `k` on: for every
      set bit the slot's free hook runs, the slot is zeroed and its index is
      pushed onto `next_free`. A push beyond the 1024 entries of `next_free`
      is an out-of-bounds write in C and is reported as FreeListOverflow. */
  function Sweep(p: Pool, freed: Bits, layout: Layout, k: nat): (r: Result<Swept>)
    requires p.Valid() && k <= Capacity
    ensures r.Ok? ==> r.value.pool.Valid() && r.value.pool.inuse == p.inuse
    ensures r.Err? ==> r.error == FreeListOverflow
    decreases Capacity - k
  {
    if k == Capacity then
      Ok(Swept(p, []))
    else if !Test(freed, k) then
      Sweep(p, freed, layout, k + 1)
    else
      var s := SlotAt(layout, k / 32, k % 32);
      var hook := if HasOp(p.objs[s].tag, FreeOp) then [s] else [];
      if p.numFree >= Capacity then
        Err(FreeListOverflow)
      else
        var rest :- Sweep(Reclaim(p, s), freed, layout, k + 1);
        Ok(Swept(rest.pool, hook + rest.hooks))
  }

  /** One reclaimed slot (fobj.c:172-176): zeroed, and its index written at
      `next_free[num_free_objs++]`. */
  function Reclaim(p: Pool, s: Slot): (r: Pool)
    requires p.Valid() && p.numFree < Capacity
    ensures r.Valid() && r.inuse == p.inuse
    ensures Pushed(p, r, [s])
    ensures forall x: Slot :: r.objs[x] == if x == s then Zeroed else p.objs[x]
  {
    var r := p.(objs := p.objs[s := Zeroed], nextFree := p.nextFree[p.numFree := s], numFree := p.numFree + 1);
    assert FreeList(r) == FreeList(p) + [s];
    r
  }

  lemma PushedTransitive(p: Pool, q: Pool, u: Pool, a: seq<Slot>, b: seq<Slot>)
    requires p.Valid() && q.Valid() && u.Valid()
    requires Pushed(p, q, a) && Pushed(q, u, b)
    ensures Pushed(p, u, a + b)
  {
    assert u.nextFree[u.numFree..] == q.nextFree[q.numFree..][u.numFree - q.numFree..];
    assert p.nextFree[u.numFree..] == p.nextFree[q.numFree..][u.numFree - q.numFree..];
  }

  /** Under the intended layout the sweep fails exactly when the freed slots
      do not fit on the free list; otherwise it pushes them in ascending
      order (so the highest one is allocated next), zeroes exactly them, and
      runs the free hook of each one whose type has one, once. */
  lemma {:induction false} SweepReclaims(p: Pool, freed: Bits, k: nat)
    requires p.Valid() && k <= Capacity
    ensures Sweep(p, freed, Intended, k).Ok? <==> p.numFree + |FreedList(freed, k)| <= Capacity
    ensures Sweep(p, freed, Intended, k).Ok? ==>
              Pushed(p, Sweep(p, freed, Intended, k).value.pool, FreedList(freed, k))
    ensures Sweep(p, freed, Intended, k).Ok? ==>
              forall x: Slot :: Sweep(p, freed, Intended, k).value.pool.objs[x] ==
                (if k <= x && Test(freed, x) then Zeroed else p.objs[x])
    ensures Sweep(p, freed, Intended, k).Ok? ==>
              Sweep(p, freed, Intended, k).value.hooks == FreeHooks(p.objs, FreedList(freed, k))
    ensures Sweep(p, freed, Intended, k).Ok? ==> Ascending(Sweep(p, freed, Intended, k).value.hooks)
    decreases Capacity - k
  {
    var r := Sweep(p, freed, Intended, k);
    if k == Capacity {
      assert FreedList(freed, k) == [];
      assert Pushed(p, p, []);
    } else if !Test(freed, k) {
      SweepReclaims(p, freed, k + 1);
    } else {
      var s: Slot := k;
      assert SlotAt(Intended, k / 32, k % 32) == s;
      var fl := FreedList(freed, k + 1);
      assert FreedList(freed, k) == [s] + fl;
      if p.numFree < Capacity {
        var p' := Reclaim(p, s);
        SweepReclaims(p', freed, k + 1);
        if r.Ok? {
          var rest := Sweep(p', freed, Intended, k + 1).value;
          PushedTransitive(p, p', rest.pool, [s], fl);
          assert forall x :: x in fl ==> k < x;
          FreeHooksUnchanged(p.objs, p'.objs, fl, s);
        }
      }
    }
  }

  /** Zeroing a slot not in `ss` does not change which hooks run for `ss`. */
  lemma {:induction false} FreeHooksUnchanged(objs: seq<Obj>, objs': seq<Obj>, ss: seq<Slot>, s: Slot)
    requires |objs| == Capacity && |objs'| == Capacity
    requires s !in ss
    requires forall x: Slot :: x != s ==> objs'[x] == objs[x]
    ensures FreeHooks(objs', ss) == FreeHooks(objs, ss)
    decreases |ss|
  {
    if ss != [] {
      FreeHooksUnchanged(objs, objs', ss[1..], s);
    }
  }

  // -------------------------------------------------------------- collect

  /** `fobj_garbage_collection` (fobj.c:135-179): snapshot the bitmap, clear
      it, mark from the seven roots, then sweep the mask `~copy & marked`
      that fobj.c:157 computes. The sweep uses the intended slot layout
      `32 * w + b`; see `Layout`. */
  function Collect(e: Env): (r: Result<Env>)
    requires e.Valid()
    ensures r.Ok? ==> r.value.Valid() && r.value == e.(pool := r.value.pool)
    ensures r.Err? ==> r.error == FreeListOverflow
  {
    var p := e.pool;
    var copy := p.inuse;
    var marks := MarkFrom(p.objs, RootList(e)).bits;
    var swept :- Sweep(p.(inuse := marks), SweepMask(copy, marks), Intended, 0);
    Ok(e.(pool := swept.pool))
  }

  /** The slots a collection of `e` reclaims, in the order it pushes them. */
  function Reclaimed(e: Env): seq<Slot>
    requires e.Valid()
  {
    FreedList(SweepMask(e.pool.inuse, MarkFrom(e.pool.objs, RootList(e)).bits), 0)
  }

  /** The mark bits a collection of `e` computes. */
  function Marks(e: Env): Bits
    requires e.Valid()
  {
    MarkFrom(e.pool.objs, RootList(e)).bits
  }

  lemma MarksAreReachable(e: Env)
    requires e.Valid()
    ensures forall x: Slot :: x in Members(Marks(e)) <==> Reachable(e.pool.objs, RootList(e), x)
  {
    forall x: Slot
      ensures x in Members(Marks(e)) <==> Reachable(e.pool.objs, RootList(e), x)
    {
      MarkedIsReachable(e.pool.objs, RootList(e), x);
    }
  }

  /** The slots a collection reclaims, as fobj.c:157 computes them: those
      reachable from the roots whose bit was clear in the snapshot. */
  lemma ReclaimedAreNewlyMarked(e: Env)
    requires e.Valid()
    ensures forall x: Slot :: x in Reclaimed(e) <==>
              Reachable(e.pool.objs, RootList(e), x) && !Test(e.pool.inuse, x)
  {
    MarksAreReachable(e);
  }

  /** What a collection does. The new bitmap is the set of slots reachable
      from the roots; the reclaimed slots are zeroed and pushed in ascending
      order and every other slot is kept. The collection fails only when
      they do not fit on the free list. */
  lemma CollectReclaims(e: Env)
    requires e.Valid()
    ensures Collect(e).Ok? <==> e.pool.numFree + |Reclaimed(e)| <= Capacity
    ensures Collect(e).Ok? ==> forall x: Slot ::
              x in Members(Collect(e).value.pool.inuse) <==> Reachable(e.pool.objs, RootList(e), x)
    ensures Collect(e).Ok? ==> Pushed(e.pool, Collect(e).value.pool, Reclaimed(e))
    ensures Collect(e).Ok? ==> forall x: Slot ::
              Collect(e).value.pool.objs[x] == if x in Reclaimed(e) then Zeroed else e.pool.objs[x]
  {
    var p := e.pool;
    var marks := Marks(e);
    MarksAreReachable(e);
    SweepReclaims(p.(inuse := marks), SweepMask(p.inuse, marks), 0);
  }

  // ----------------------------------------------------------- allocation

  /** The allocation step of `fobj_new` (fobj.c:115-121): pop the top of the
      free list and tag that slot; its payload is left as it was. The
      in-use bit is not touched. */
  function Pop(e: Env, tag: Tag): (r: (Env, Slot))
    requires e.Valid() && e.pool.numFree > 0
    ensures r.0.Valid() && r.0 == e.(pool := r.0.pool)
    ensures FreeList(e.pool) == FreeList(r.0.pool) + [r.1]
    ensures r.0.pool.nextFree == e.pool.nextFree
    ensures r.0.pool.inuse == e.pool.inuse
    ensures r.0.pool.objs[r.1] == Obj(tag, e.pool.objs[r.1].payload)
    ensures forall x: Slot :: x != r.1 ==> r.0.pool.objs[x] == e.pool.objs[x]
  {
    var p := e.pool;
    var i := p.numFree - 1;
    var s := p.nextFree[i];
    var p' := p.(numFree := i, objs := p.objs[s := p.objs[s].(tag := tag)]);
    assert FreeList(p) == FreeList(p') + [s];
    (e.(pool := p'), s)
  }

  /** `fobj_new` (fobj.c:99-122): collect when the pool is exhausted (and
      before every allocation in a DEBUG build), then fail with OutOfMemory
      if still no slot is free, else pop. */
  function New(e: Env, tag: Tag): (r: Result<(Env, Slot)>)
    requires e.Valid()
    ensures r.Ok? ==> r.value.0.Valid() && r.value.0.roots == e.roots && r.value.0.holdStack == e.holdStack
    ensures r.Ok? ==> r.value.0.pool.objs[r.value.1].tag == tag
    ensures r.Err? ==> r.error in {OutOfMemory, FreeListOverflow}
    ensures !e.debugCollect && e.pool.numFree > 0 ==> r == Ok(Pop(e, tag))
    ensures !e.debugCollect && e.pool.numFree == 0 && Collect(e).Ok? ==>
              if Collect(e).value.pool.numFree == 0 then r == Err(OutOfMemory)
              else r == Ok(Pop(Collect(e).value, tag))
  {
    var e1 :- if e.pool.numFree == 0 then Collect(e) else Ok(e);
    var e2 :- if e.debugCollect then Collect(e1) else Ok(e1);
    PopIfFree(e2, tag)
  }

  /** The `fassert` of fobj.c:113 followed by the pop. */
  function PopIfFree(e: Env, tag: Tag): (r: Result<(Env, Slot)>)
    requires e.Valid()
    ensures e.pool.numFree == 0 <==> r == Err(OutOfMemory)
    ensures e.pool.numFree > 0 ==> r == Ok(Pop(e, tag))
  {
    if e.pool.numFree <= 0 then Err(OutOfMemory) else Ok(Pop(e, tag))
  }

  /** The free list of a fresh pool pops slots in descending order: with `k`
      slots free the next allocation takes slot `k - 1`, and the free list
      below it is untouched. */
  lemma AllocateFromInit(e: Env, tag: Tag)
    requires e.Valid() && !e.debugCollect && e.pool.numFree > 0
    requires forall i :: 0 <= i < Capacity ==> e.pool.nextFree[i] == i
    ensures New(e, tag).Ok?
    ensures New(e, tag).value.1 == e.pool.numFree - 1
    ensures New(e, tag).value.0.pool.numFree == e.pool.numFree - 1
    ensures forall i :: 0 <= i < Capacity ==> New(e, tag).value.0.pool.nextFree[i] == i
  {
  }

  /** The pool `fobj_obj_mem_init` builds: all 1024 slots free, `next_free[i]
      == i`, every slot zeroed and the bitmap clear. */
  lemma InitIsEmpty()
    ensures Init().numFree == Capacity
    ensures forall i :: 0 <= i < Capacity ==> Init().nextFree[i] == i
    ensures Members(Init().inuse) == {}
    ensures forall x: Slot :: Init().objs[x] == Zeroed
  {
  }

  /** LIFO reuse: when an exhausted pool's collection reclaims slots, the
      allocation that triggered it gets the last slot the sweep pushed. */
  lemma CollectThenAllocate(e: Env, tag: Tag)
    requires e.Valid() && !e.debugCollect && e.pool.numFree == 0
    requires Collect(e).Ok? && |Reclaimed(e)| > 0
    ensures New(e, tag).Ok?
    ensures New(e, tag).value.1 == Reclaimed(e)[|Reclaimed(e)| - 1]
  {
    CollectReclaims(e);
    var p' := Collect(e).value.pool;
    assert FreeList(p') == Reclaimed(e);
    assert p'.nextFree[p'.numFree - 1] == FreeList(p')[p'.numFree - 1];
  }

  // ------------------------------------------------------------ hold stack

  /** The items of the hold stack below its stack pointer. */
  function HeldItems(e: Env): seq<Option<Slot>>
    requires e.Valid()
  {
    var o := e.pool.objs[e.holdStack];
    if o.payload.Refs? then o.payload.refs else []
  }

  /** `fobj_hold` (fobj.c:181-184): push `p` onto the hold stack. The
      push itself is `fstack_store`, which is not part of this model. */
  function Hold(e: Env, p: Option<Slot>): (r: Env)
    requires e.Valid()
    ensures r.Valid() && r == e.(pool := r.pool) && r.pool == e.pool.(objs := r.pool.objs)
    ensures HeldItems(r) == HeldItems(e) + [p]
    ensures r.pool.objs[e.holdStack].tag == e.pool.objs[e.holdStack].tag
    ensures forall x: Slot :: x != e.holdStack ==> r.pool.objs[x] == e.pool.objs[x]
  {
    var o := e.pool.objs[e.holdStack];
    e.(pool := e.pool.(objs := e.pool.objs[e.holdStack := o.(payload := Refs(HeldItems(e) + [p]))]))
  }

  /** `fobj_hold_n` (fobj.c:186-195), with the variadic arguments as a
      sequence: hold each in order. */
  method HoldAll(e: Env, ps: seq<Option<Slot>>) returns (r: Env)
    requires e.Valid()
    ensures r.Valid() && r == e.(pool := r.pool) && r.pool == e.pool.(objs := r.pool.objs)
    ensures HeldItems(r) == HeldItems(e) + ps
    ensures r.pool.objs[e.holdStack].tag == e.pool.objs[e.holdStack].tag
    ensures forall x: Slot :: x != e.holdStack ==> r.pool.objs[x] == e.pool.objs[x]
  {
    r := e;
    var i := 0;
    while i < |ps|
      invariant 0 <= i <= |ps|
      invariant r.Valid() && r == e.(pool := r.pool) && r.pool == e.pool.(objs := r.pool.objs)
      invariant HeldItems(r) == HeldItems(e) + ps[..i]
      invariant r.pool.objs[e.holdStack].tag == e.pool.objs[e.holdStack].tag
      invariant forall x: Slot :: x != e.holdStack ==> r.pool.objs[x] == e.pool.objs[x]
    {
      r := Hold(r, ps[i]);
      assert ps[..i + 1] == ps[..i] + [ps[i]];
      i := i + 1;
    }
    assert ps[..i] == ps;
  }

  /** `fobj_hold_clear` (fobj.c:197-206): record the high-water mark, then
      empty the hold stack in one step. */
  function HoldClear(e: Env): (r: Env)
    requires e.Valid()
    ensures r.Valid() && r == e.(pool := r.pool, maxHoldSp := r.maxHoldSp)
    ensures r.pool == e.pool.(objs := r.pool.objs)
    ensures HeldItems(r) == []
    ensures r.maxHoldSp >= e.maxHoldSp && r.maxHoldSp >= |HeldItems(e)|
    ensures r.maxHoldSp == e.maxHoldSp || r.maxHoldSp == |HeldItems(e)|
    ensures r.pool.objs[e.holdStack].tag == e.pool.objs[e.holdStack].tag
    ensures forall x: Slot :: x != e.holdStack ==> r.pool.objs[x] == e.pool.objs[x]
  {
    var sp := |HeldItems(e)|;
    var o := e.pool.objs[e.holdStack];
    var e' := e.(pool := e.pool.(objs := e.pool.objs[e.holdStack := o.(payload := Refs([]))]));
    if sp > e.maxHoldSp then e'.(maxHoldSp := sp) else e'
  }

  // -------------------------------------------------- allocating constructors

  /** `farray_new` (farray.c:23-29): a new array object with no elements. */
  function ArrayNew(e: Env): (r: Result<(Env, Slot)>)
    requires e.Valid()
    ensures r.Ok? <==> New(e, Array).Ok?
    ensures r.Ok? ==> r.value.0.Valid() && r.value.1 == New(e, Array).value.1
    ensures r.Ok? ==>
              var (e1, s) := New(e, Array).value;
              r.value.0 == e1.(pool := e1.pool.(objs := e1.pool.objs[s := Obj(Array, Refs([]))]))
    ensures r.Ok? ==> r.value.0.pool.objs[r.value.1] == Obj(Array, Refs(Farray.New()))
    ensures r.Ok? ==> |ArrayElems(r.value.0.pool.objs[r.value.1])| == 0
  {
    var (e1, s) :- New(e, Array);
    Ok((e1.(pool := e1.pool.(objs := e1.pool.objs[s := Obj(Array, Refs(Farray.New()))])), s))
  }

  /** `findex_new` (fobj.c:279-288): with no index the container itself is
      returned and nothing is allocated; otherwise exactly one index object
      holding the pair is allocated. */
  function IndexNew(e: Env, addr: Option<Slot>, index: Option<Slot>): (r: Result<(Env, Option<Slot>)>)
    requires e.Valid()
    ensures index.None? ==> r == Ok((e, addr))
    ensures index.Some? ==> (r.Ok? <==> New(e, Index).Ok?)
    ensures index.Some? && r.Ok? ==>
              var (e1, s) := New(e, Index).value;
              && r.value.1 == Some(s)
              && r.value.0 == e1.(pool := e1.pool.(objs := e1.pool.objs[s := Obj(Index, IndexRef(addr, index))]))
    ensures index.Some? && !e.debugCollect && e.pool.numFree > 0 ==>
              r.Ok? && r.value.0.pool.numFree == e.pool.numFree - 1
  {
    if index.None? then Ok((e, addr))
    else
      var (e1, s) :- New(e, Index);
      Ok((e1.(pool := e1.pool.(objs := e1.pool.objs[s := Obj(Index, IndexRef(addr, index))])), Some(s)))
  }

  /** `fstate_new` (fobj.c:306-313): a new state record. */
  function StateNew(e: Env, state: int, offset: int): (r: Result<(Env, Slot)>)
    requires e.Valid()
    ensures r.Ok? <==> New(e, State).Ok?
    ensures r.Ok? ==> r.value.0.Valid() && r.value.1 == New(e, State).value.1
    ensures r.Ok? ==>
              var (e1, s) := New(e, State).value;
              r.value.0 == e1.(pool := e1.pool.(objs := e1.pool.objs[s := Obj(State, StateRec(state, offset))]))
    ensures r.Ok? ==> r.value.0.pool.objs[r.value.1] == Obj(State, StateRec(state, offset))
    ensures r.Ok? ==> Children(r.value.0.pool.objs[r.value.1]) == []
  {
    var (e1, s) :- New(e, State);
    Ok((e1.(pool := e1.pool.(objs := e1.pool.objs[s := Obj(State, StateRec(state, offset))])), s))
  }

  // ---------------------------------------------------------- dispatch

  /** The elements of an array object; a zeroed payload is `num == 0`. */
  function ArrayElems(o: Obj): Farray.Elems
  {
    if o.payload.Refs? then o.payload.refs else []
  }

  /** The object a possibly-NULL reference points to. */
  function Deref(e: Env, p: Option<Slot>): Option<Obj>
    requires e.Valid()
  {
    if p.None? then None else Some(e.pool.objs[p.value])
  }

  /** A dispatched call either completes within this model or is handed to
      the hook of a type this model does not cover. */
  datatype Handled<T> = Done(value: T) | External(tag: Tag)

  /** `fobj_store` (fobj.c:247-253) followed, for an array, by
      `farray_store`. */
  function Store(e: Env, addr: Slot, index: Option<Slot>, data: Option<Slot>)
    : (r: Result<Handled<(Env, seq<Farray.Ownership>)>>)
    requires e.Valid()
    ensures !HasOp(e.pool.objs[addr].tag, StoreOp) ==>
              r == Err(UsageError(Row(e.pool.objs[addr].tag).name + " ! not supported"))
    ensures HasOp(e.pool.objs[addr].tag, StoreOp) && e.pool.objs[addr].tag != Array ==>
              r == Ok(External(e.pool.objs[addr].tag))
    ensures e.pool.objs[addr].tag == Array ==>
              var a := Farray.Store(ArrayElems(e.pool.objs[addr]), Deref(e, index), data);
              (r.Ok? <==> a.Ok?) &&
              (r.Err? ==> r.error == a.error) &&
              (r.Ok? ==> (
                 && r.value.Done?
                 && r.value.value.1 == a.value.1
                 && r.value.value.0.Valid()
                 && r.value.value.0 == e.(pool := r.value.value.0.pool)
                 && r.value.value.0.pool == e.pool.(objs := r.value.value.0.pool.objs)
                 && ArrayElems(r.value.value.0.pool.objs[addr]) == a.value.0
                 && r.value.value.0.pool.objs[addr].tag == Array
                 && (forall x: Slot :: x != addr ==> r.value.value.0.pool.objs[x] == e.pool.objs[x])))
  {
    var o := e.pool.objs[addr];
    match Guard(o.tag, StoreOp)
    case Refused(msg) => Err(UsageError(msg))
    case CallHook(t) =>
      if t != Array then Ok(External(t))
      else
        var (elems, log) :- Farray.Store(ArrayElems(o), Deref(e, index), data);
        var o' := o.(payload := Refs(elems));
        Ok(Done((e.(pool := e.pool.(objs := e.pool.objs[addr := o'])), log)))
  }

  /** `fobj_fetch` (fobj.c:239-245) followed, for an array, by
      `farray_fetch`. */
  function Fetch(e: Env, addr: Slot, index: Option<Slot>)
    : (r: Result<Handled<(Option<Slot>, seq<Farray.Ownership>)>>)
    requires e.Valid()
    ensures !HasOp(e.pool.objs[addr].tag, FetchOp) ==>
              r == Err(UsageError(Row(e.pool.objs[addr].tag).name + " @ not supported"))
    ensures HasOp(e.pool.objs[addr].tag, FetchOp) && e.pool.objs[addr].tag != Array ==>
              r == Ok(External(e.pool.objs[addr].tag))
    ensures e.pool.objs[addr].tag == Array ==>
              var a := Farray.Fetch(ArrayElems(e.pool.objs[addr]), Deref(e, index));
              (r.Ok? <==> a.Ok?) && (r.Err? ==> r.error == a.error) && (r.Ok? ==> r.value == Done(a.value))
  {
    var o := e.pool.objs[addr];
    match Guard(o.tag, FetchOp)
    case Refused(msg) => Err(UsageError(msg))
    case CallHook(t) =>
      if t != Array then Ok(External(t))
      else
        var v :- Farray.Fetch(ArrayElems(o), Deref(e, index));
        Ok(Done(v))
  }
}
