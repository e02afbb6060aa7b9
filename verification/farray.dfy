/** The growable, sparsely indexed array container of farray.c. Its payload
    is the sequence `elems[0 .. num)` of possibly-NULL references; gaps are
    NULL. Ownership effects of `fobj_retain`/`fobj_release` are returned as a
    log of events, since their implementation is not part of this model. */
module Farray {
  import opened Common
  import opened Bitmap
  import opened Objects

  type Elems = seq<Option<Slot>>

  /** One call of `fobj_retain` or `fobj_release` on a possibly-NULL
      reference. */
  datatype Ownership = Retain(ref: Option<Slot>) | Release(ref: Option<Slot>)

  /** Number of occurrences of `e` in `log`. */
  function Count(log: seq<Ownership>, e: Ownership): nat
  {
    if log == [] then 0
    else (if log[0] == e then 1 else 0) + Count(log[1..], e)
  }

  /** `farray_new` (farray.c:23-29), on the payload: `num = 0`, `elems = NULL`. */
  function New(): (a: Elems)
    ensures |a| == 0
  {
    []
  }

  /** `farray_grow` (farray.c:43-49). The source asserts `n > num`; the old
      prefix is kept and every new position is a gap. */
  function Grow(a: Elems, n: int): (r: Elems)
    requires n > |a|
    ensures |r| == n
    ensures r[..|a|] == a
    ensures forall k :: |a| <= k < n ==> r[k].None?
  {
    a + seq(n - |a|, _ => None)
  }

  /** `farray_num_index` (farray.c:51-57): the position of element `n`, or
      NULL when `n` is out of range. */
  function NumIndex(a: Elems, n: int): (r: Option<nat>)
    ensures r.None? <==> n < 0 || n >= |a|
    ensures r.Some? ==> r.value == n && r.value < |a|
  {
    if n < 0 then None
    else if n >= |a| then None
    else Some(n)
  }

  /** `farray_obj_fetch` (farray.c:59-66): NULL for no position; otherwise
      the element, retained once. `fobj_retain` returns its argument. */
  function ObjFetch(a: Elems, p: Option<nat>): (r: (Option<Slot>, seq<Ownership>))
    requires p.Some? ==> p.value < |a|
    ensures p.None? ==> r == (None, [])
    ensures p.Some? ==> r.0 == a[p.value] && r.1 == [Retain(a[p.value])]
  {
    if p.None? then (None, [])
    else (a[p.value], [Retain(a[p.value])])
  }

  /** `farray_obj_store` (farray.c:68-77): the previous element is released
      when it is not NULL, and the new one is retained and written. */
  function ObjStore(a: Elems, p: nat, data: Option<Slot>): (r: (Elems, seq<Ownership>))
    requires p < |a|
    ensures |r.0| == |a| && r.0[p] == data
    ensures forall k :: 0 <= k < |a| && k != p ==> r.0[k] == a[k]
    ensures r.1 == (if a[p].Some? then [Release(a[p])] else []) + [Retain(data)]
  {
    (a[p := data], (if a[p].Some? then [Release(a[p])] else []) + [Retain(data)])
  }

  /** The value of a number object; a zeroed payload reads as 0. */
  function NumberValue(o: Obj): int
  {
    if o.payload.Num? then o.payload.n else 0
  }

  /** The index check `farray_store` and `farray_fetch` evidently intend: the
      index must be a non-NULL number. Returns its value. */
  function IndexValue(index: Option<Obj>): (r: Result<int>)
    ensures r.Ok? <==> index.Some? && index.value.tag == Number
    ensures r.Err? ==> r.error == UsageError("array must be indexed by NUM")
    ensures r.Ok? ==> r.value == NumberValue(index.value)
  {
    if index.None? || index.value.tag != Number then
      Err(UsageError("array must be indexed by NUM"))
    else
      Ok(NumberValue(index.value))
  }

  /** `farray_store` (farray.c:79-96) with the intended index check. An
      in-range index overwrites; an index at or past the end grows the array
      to `n + 1`; a negative index makes `farray_grow(n + 1)` fail its
      assertion. */
  function Store(a: Elems, index: Option<Obj>, data: Option<Slot>): (r: Result<(Elems, seq<Ownership>)>)
    ensures IndexValue(index).Err? ==> r == Err(IndexValue(index).error)
    ensures IndexValue(index).Ok? && IndexValue(index).value < 0 ==>
              r == Err(AssertionFailed("n > a->num"))
    ensures IndexValue(index).Ok? && IndexValue(index).value >= 0 ==> r.Ok?
  {
    var n :- IndexValue(index);
    var p := NumIndex(a, n);
    if p.Some? then
      Ok(ObjStore(a, p.value, data))
    else if n + 1 > |a| then
      var g := Grow(a, n + 1);
      Ok(ObjStore(g, n, data))
    else
      Err(AssertionFailed("n > a->num"))
  }

  /** `farray_fetch` (farray.c:98-107) with the intended index check. */
  function Fetch(a: Elems, index: Option<Obj>): (r: Result<(Option<Slot>, seq<Ownership>)>)
    ensures r.Err? <==> IndexValue(index).Err?
    ensures r.Err? ==> r.error == IndexValue(index).error
  {
    var n :- IndexValue(index);
    Ok(ObjFetch(a, NumIndex(a, n)))
  }

  /** `farray_free` (farray.c:31-40): every position is released once, in
      order, gaps included. */
  function Free(a: Elems): (log: seq<Ownership>)
    ensures |log| == |a|
    ensures forall k :: 0 <= k < |a| ==> log[k] == Release(a[k])
  {
    seq(|a|, k requires 0 <= k < |a| => Release(a[k]))
  }

  /** A number object with value `n`, as an index argument. */
  function NumArg(n: int): Option<Obj>
  {
    Some(Obj(Number, Num(n)))
  }

  /** Storing at or past the end grows the array to exactly `n + 1`
      elements: the old prefix is kept, the positions between the old end
      and `n` are gaps, `data` is at `n`, and only `data` is retained. */
  lemma StoreGrows(a: Elems, n: int, data: Option<Slot>)
    requires n >= |a|
    ensures Store(a, NumArg(n), data).Ok?
    ensures var (r, log) := Store(a, NumArg(n), data).value;
      && |r| == n + 1
      && r[..|a|] == a
      && (forall k :: |a| <= k < n ==> r[k].None?)
      && r[n] == data
      && log == [Retain(data)]
  {
    var g := Grow(a, n + 1);
    assert g[n].None?;
    var r := Store(a, NumArg(n), data).value.0;
    assert r == g[n := data];
    assert r[..|a|] == g[..|a|];
  }

  /** Storing in range keeps the length, writes `data` at `n` and leaves
      every other position unchanged. */
  lemma StoreOverwrites(a: Elems, n: int, data: Option<Slot>)
    requires 0 <= n < |a|
    ensures Store(a, NumArg(n), data).Ok?
    ensures var (r, log) := Store(a, NumArg(n), data).value;
      && |r| == |a|
      && r[n] == data
      && (forall k :: 0 <= k < |a| && k != n ==> r[k] == a[k])
      && log == (if a[n].Some? then [Release(a[n])] else []) + [Retain(data)]
  {
  }

  /** A negative index is not a usage error: `farray_num_index` reports no
      position and `farray_grow(n + 1)` then fails its `n > num` assertion. */
  lemma StoreNegativeAborts(a: Elems, n: int, data: Option<Slot>)
    requires n < 0
    ensures Store(a, NumArg(n), data) == Err(AssertionFailed("n > a->num"))
  {
  }

  /** Fetch never fails on a number index: out of range it yields NULL and
      retains nothing; in range it yields the element, retained once. */
  lemma FetchRange(a: Elems, n: int)
    ensures Fetch(a, NumArg(n)).Ok?
    ensures n < 0 || n >= |a| ==> Fetch(a, NumArg(n)).value == (None, [])
    ensures 0 <= n < |a| ==> Fetch(a, NumArg(n)).value == (a[n], [Retain(a[n])])
  {
  }

  /** The element a fetch yields. */
  function At(a: Elems, n: int): Option<Slot>
  {
    match Fetch(a, NumArg(n))
    case Ok(v) => v.0
    case Err(_) => None
  }

  /** Read after write: after storing `data` at `i >= 0`, fetching `i`
      yields `data`; fetching any other in-range position yields what it
      held before, or NULL for a gap the store created; fetching beyond the
      new end yields NULL. */
  lemma {:induction false} ReadAfterWrite(a: Elems, i: int, data: Option<Slot>, j: int)
    requires i >= 0
    ensures Store(a, NumArg(i), data).Ok?
    ensures var r := Store(a, NumArg(i), data).value.0;
      At(r, j) == if j == i then data else if 0 <= j < |a| then a[j] else None
  {
    if i < |a| {
      StoreOverwrites(a, i, data);
    } else {
      StoreGrows(a, i, data);
    }
    var r := Store(a, NumArg(i), data).value.0;
    FetchRange(r, j);
    FetchRange(a, j);
    if i >= |a| && 0 <= j < |a| {
      assert r[j] == r[..|a|][j];
    }
  }

  /** Overwriting releases the previous element exactly once when it is not
      NULL, never when it is NULL, and retains the new element exactly
      once. */
  lemma OverwriteOwnership(a: Elems, n: int, data: Option<Slot>)
    requires 0 <= n < |a|
    ensures var log := Store(a, NumArg(n), data).value.1;
      && Count(log, Retain(data)) == 1
      && Count(log, Release(a[n])) == (if a[n].Some? then 1 else 0)
      && (forall x :: x != a[n] ==> Count(log, Release(x)) == 0)
  {
    StoreOverwrites(a, n, data);
    var log := Store(a, NumArg(n), data).value.1;
    var tail := [Retain(data)];
    assert tail[1..] == [];
    assert forall e :: Count(tail, e) == (if e == Retain(data) then 1 else 0);
    if a[n].Some? {
      assert log == [Release(a[n])] + tail;
      assert log[1..] == tail;
      assert forall e :: Count(log, e) == (if e == Release(a[n]) then 1 else 0) + Count(tail, e);
    } else {
      assert log == tail;
    }
  }

  /** The scenario: a new array, 5 stored at 0 and 9 at 2, has length 3,
      a gap at 1 and the two values where they were stored. */
  lemma StoreScenario(five: Slot, nine: Slot)
    ensures Store(New(), NumArg(0), Some(five)).Ok?
    ensures var a1 := Store(New(), NumArg(0), Some(five)).value.0;
      && Store(a1, NumArg(2), Some(nine)).Ok?
      && var a2 := Store(a1, NumArg(2), Some(nine)).value.0;
      && |a2| == 3
      && At(a2, 0) == Some(five)
      && At(a2, 1) == None
      && At(a2, 2) == Some(nine)
  {
    StoreGrows(New(), 0, Some(five));
    var a1 := Store(New(), NumArg(0), Some(five)).value.0;
    StoreGrows(a1, 2, Some(nine));
    ReadAfterWrite(a1, 2, Some(nine), 0);
    ReadAfterWrite(a1, 2, Some(nine), 1);
    ReadAfterWrite(a1, 2, Some(nine), 2);
  }

  /** Arrays only grow: a successful store never shortens the array. */
  lemma StoreNeverShrinks(a: Elems, index: Option<Obj>, data: Option<Slot>)
    requires Store(a, index, data).Ok?
    ensures |Store(a, index, data).value.0| >= |a|
  {
  }

  /** `farray_free` releases every present element exactly as many times as
      it occurs in the array. */
  lemma {:induction false} FreeReleasesEach(a: Elems, x: Option<Slot>)
    ensures Count(Free(a), Release(x)) == CountElem(a, x)
    decreases |a|
  {
    if a != [] {
      assert Free(a) == [Release(a[0])] + Free(a[1..]);
      assert ([Release(a[0])] + Free(a[1..]))[1..] == Free(a[1..]);
      FreeReleasesEach(a[1..], x);
    }
  }

  /** Number of positions of `a` holding `x`. */
  function CountElem(a: Elems, x: Option<Slot>): nat
  {
    if a == [] then 0 else (if a[0] == x then 1 else 0) + CountElem(a[1..], x)
  }

  /** `farray_store` as written (farray.c:81, farray.c:100): the guard
      `fassert(f, index == NULL, ...)` is inverted, so a non-NULL index is
      always refused and a NULL index passes the guard and is dereferenced
      at the next line. */
  function StoreAsWritten(a: Elems, index: Option<Obj>, data: Option<Slot>): (r: Result<(Elems, seq<Ownership>)>)
    ensures index.Some? ==> r == Err(UsageError("array must be indexed by NUM"))
    ensures index.None? ==> r == Err(NullDereference)
  {
    if index.Some? then Err(UsageError("array must be indexed by NUM"))
    else Err(NullDereference)
  }

  /** `farray_fetch` as written has the same inverted guard. */
  function FetchAsWritten(a: Elems, index: Option<Obj>): (r: Result<(Option<Slot>, seq<Ownership>)>)
    ensures index.Some? ==> r == Err(UsageError("array must be indexed by NUM"))
    ensures index.None? ==> r == Err(NullDereference)
  {
    if index.Some? then Err(UsageError("array must be indexed by NUM"))
    else Err(NullDereference)
  }

  /** With the guard as written no store or fetch ever succeeds, while with
      the intended guard a store at any non-negative number index does. */
  lemma GuardAsWrittenRefusesAll(a: Elems, n: int, data: Option<Slot>)
    requires n >= 0
    ensures StoreAsWritten(a, NumArg(n), data).Err?
    ensures FetchAsWritten(a, NumArg(n)).Err?
    ensures Store(a, NumArg(n), data).Ok?
    ensures Fetch(a, NumArg(n)).Ok?
  {
  }
}
