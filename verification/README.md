# Object pool, mark-and-sweep collector and sparse array of tyForth

This project models, in Dafny, the object-memory core of a small Forth-like
interpreter. That core has two parts.

- `fobj.c` is the object pool: a fixed arena of 1024 object slots, a LIFO free
  list (`next_free`, `num_free_objs`), and a 32 x 32-bit in-use bitmap that
  doubles as the mark set. It also holds the mark-and-sweep collector, which
  runs inside an allocation when the pool is exhausted. Around them sit the
  hold stack, the per-type operation table with its dispatch guards, the
  identity-fallback comparator, and the constructors built on `fobj_new`.
- `farray.c` is the growable, sparsely indexed array container. Its payload is
  modelled as `seq<Option<Slot>>`: stores past the end grow the array and
  leave NULL gaps, and fetches out of range return NULL.

Everything is immutable data and pure functions. A pool is a record of the
bitmap (`seq<bv32>`), the free-list count, `next_free` and the slot contents.
The interpreter environment adds the seven roots, the hold stack, the
hold-stack high-water mark and the DEBUG flag. The mark phase is a pair of
mutually recursive functions whose termination measure is the set of
unmarked slots. That measure is what makes marking terminate on cyclic
graphs.

Modules, one per file: `Common` (option, result, failure kinds), `Bitmap`,
`Objects` (tags, `op_table`, payloads, dispatch guard, comparator), `Mark`,
`Farray`, `Pool`, and `Findings` (the defects of the source, each as written
and as intended).

The source has five defects, listed under "Findings". Where the code and the
intent its comments and surrounding functions state disagree, the model
follows the code.

- `Pool.Collect` sweeps the mask exactly as fobj.c:157 computes it, from the
  seven roots the code visits.
- `Pool.New` does not set the in-use bit.
- There are two departures from the code as written. The first is the
  sweep's slot layout. `Pool.Collect` uses the evident `32 * word + bit`.
  The layout as written, with every word starting at slot 32, is
  `Pool.Sweep` with `AsWritten`.
- The corrected collector (`Findings.CollectIntended`) and the corrected
  allocation (`Findings.NewIntended`) are separate definitions, with their
  intended properties proved.
- The second is the array index guard. `Farray.Store` and `Farray.Fetch`,
  which `Pool.Store` and `Pool.Fetch` reach, accept a non-NULL number index.
  The guard as written (farray.c:81 and 100) is `Farray.StoreAsWritten` and
  `Farray.FetchAsWritten`.

## Model

| member | source | states |
|---|---|---|
| Bitmap.ShiftAndMaskAreDivMod | fobj.c:46-47 | for every 10-bit slot index, `idx >> 5` and `idx & 31` are the quotient and remainder by 32, so the model's word and bit address the bit the source touches |
| Bitmap.TestAndSet | fobj.c:44-56 | returns the slot's prior bit, leaves that bit set, and leaves every other slot's bit unchanged |
| Bitmap.TestAndSetMembers | fobj.c:44-56 | as sets: the result reports membership, and the member set gains exactly the slot while the clear set loses it |
| Bitmap.Empty | fobj.c:146 | the cleared bitmap has no member |
| Bitmap.SweepMask | fobj.c:157 | a slot's bit is set in `~copy & marked` iff it is clear in the snapshot and set in the marks |
| Bitmap.GarbageMask | fobj.c:139 | a slot's bit is set in `copy & ~marked` iff it was in use in the snapshot and is not marked |
| Objects.Row | fobj.c:12-22 | `op_table` read by column: the field after the name is NULL in every row and the next eight are visit, free, print, cmp, store, fetch, add and sub; exactly table, array, hash, stack, index and word have a visit hook, exactly string, array, hash, stack and word a free hook, exactly number and string cmp, add and sub, exactly table, array, hash and stack a store hook, and those four plus string a fetch hook; the invalid tag and the state tag have no row and no name |
| Objects.Children | fobj.c:130-132 | a type without a visit hook has no children; an index object's children are its container and then its pending index |
| Objects.Guard | fobj.c:223-253 | for the four guarded operators (add, sub, fetch, store), a dispatch proceeds to the type's hook iff `op_table` supplies it; otherwise a usage error names the type and the operator ("<> + not supported", "<> - not supported", "@ not supported", "! not supported") |
| Objects.StoreFetchCoherence | fobj.c:14-21 | every type except string has both a store and a fetch hook or neither; string has fetch without store |
| Objects.Compare | fobj.c:255-264 | the type's comparator is used iff both objects share a type that has one; otherwise the result is -1/0/1, is 0 iff the objects are the same, and is negative iff the first slot comes first |
| Objects.CompareAntisymmetric | fobj.c:259-263 | the positional fallback is antisymmetric: swapping the operands negates the result |
| Objects.CompareTransitive | fobj.c:259-263 | the positional fallback is transitive |
| Objects.HeterogeneousUsesPosition | fobj.c:257 | objects of different types, or of a type without a comparator, never reach a type's comparator |
| Mark.Visit | fobj.c:124-133 | visiting NULL or an already-marked object changes nothing and calls no hook; otherwise the object ends up marked, the marks only grow, each new hook call is for a newly marked object with a visit hook, and no new hook call repeats |
| Mark.VisitAll | fobj.c:290-295 | visiting a list of references marks every non-NULL one, and every newly marked object has all its children marked |
| Mark.ExtendsTransitive | fobj.c:128 | two successive stretches of marking compose: marks grow and hook calls stay one per newly marked object |
| Mark.MarkFrom | fobj.c:145-154 | after clearing and visiting the roots, every root is marked, the marked set is closed under the visit hooks, hooks are called exactly for marked objects that have one, and none is called twice |
| Mark.VisitAllWithin | fobj.c:128-132 | marking never leaves a closed set that holds everything already marked and every reference still to visit |
| Mark.MarkedIsLeast | fobj.c:145-154 | the marked set lies inside every closed set that holds the roots |
| Mark.MarkedIsReachable | fobj.c:145-154 | a slot is marked iff a chain of visit-hook references leads to it from a root |
| Mark.IndexMarksBoth | fobj.c:290-295 | a marked index object has both its container and its pending index marked |
| Farray.New | farray.c:23-29 | a new array has no elements |
| Farray.Grow | farray.c:43-49 | growing to `n > num` gives length `n`, keeps the old prefix and makes every new position NULL |
| Farray.NumIndex | farray.c:51-57 | returns NULL iff `n < 0` or `n >= num`, and otherwise the position `n` |
| Farray.ObjFetch | farray.c:59-66 | no position gives NULL and no retain; a position gives its element retained once |
| Farray.ObjStore | farray.c:68-77 | writes `data` at the position, leaves every other position, releases the old element only if it is non-NULL and retains the new one |
| Farray.IndexValue | farray.c:81-85 | the index is accepted iff it is a non-NULL number, and its value is the number's value; otherwise "array must be indexed by NUM" |
| Farray.Store | farray.c:79-96 | a bad index is a usage error; a negative number fails the `n > num` assertion; any non-negative number succeeds |
| Farray.Fetch | farray.c:98-107 | fails only for a bad index, with the same usage error |
| Farray.Free | farray.c:31-40 | releases every position once, in order |
| Farray.StoreGrows | farray.c:87-95 | storing at `n >= num` gives length exactly `n + 1`: the prefix is kept, positions `num .. n-1` are gaps, `data` is at `n`, and only `data` is retained |
| Farray.StoreOverwrites | farray.c:87-95 | storing at `0 <= n < num` keeps the length, writes `data` at `n` and leaves every other position unchanged |
| Farray.StoreNegativeAborts | farray.c:87-91 | a negative index ends in the internal assertion failure of `farray_grow`, not a usage error |
| Farray.FetchRange | farray.c:98-107 | fetch never fails on a number: out of range it gives NULL with no retain, in range the element retained once |
| Farray.ReadAfterWrite | farray.c:79-107 | after a store at `i`, fetching `i` gives the stored value, other old positions keep their values, new gaps and positions past the end give NULL |
| Farray.OverwriteOwnership | farray.c:68-77 | an overwrite retains the new element exactly once, releases the previous one exactly once if it was non-NULL and never otherwise, and releases nothing else |
| Farray.StoreScenario | farray.c:79-107 | new array, 5 stored at 0 and 9 at 2: length 3, a gap at 1, and 5 and 9 fetched back |
| Farray.StoreNeverShrinks | farray.c:43-49 | no store shortens an array |
| Farray.FreeReleasesEach | farray.c:33-35 | freeing releases each reference as many times as it occurs in the array |
| Farray.StoreAsWritten | farray.c:81-82 | as written, a non-NULL index is always refused and a NULL index is dereferenced |
| Farray.FetchAsWritten | farray.c:100-101 | the same inverted guard on fetch |
| Farray.GuardAsWrittenRefusesAll | farray.c:81-82 | with the guard as written no store or fetch at a valid index succeeds, while with the intended guard both do |
| Pool.RootList | fobj.c:148-154 | the seven roots in the order the collector visits them, data stack first and the running word last; `f->hold_stack` is not one of them |
| Pool.Init | fobj.c:64-72 | the initial pool is well formed |
| Pool.InitIsEmpty | fobj.c:64-72 | initially `num_free_objs == 1024`, `next_free[i] == i`, every slot is zeroed and no bit is set |
| Pool.SlotAt | fobj.c:162-175 | the slot freed for bit `b` of word `w`: under the intended layout the slot whose bitmap word is `w` and bit is `b`, the slot `Test` reads; as written always a slot in 32 .. 63 with bit `b` |
| Pool.FreedList | fobj.c:156-163 | lists exactly the slots of a mask from a given bit on, in strictly ascending order |
| Pool.FreeHooks | fobj.c:169-171 | the free hooks called are exactly for the listed slots whose type has one, in the order of the list; from an ascending list they come out ascending, so none repeats |
| Pool.Reclaim | fobj.c:172-176 | a reclaimed slot is zeroed and pushed on top of the free list; nothing else changes |
| Pool.PushedTransitive | fobj.c:174-176 | two successive pushes onto the free list are one push of both lists |
| Pool.Sweep | fobj.c:156-178 | the sweep keeps the pool well formed and leaves the bitmap as the marks; it fails only on a free-list overflow |
| Pool.SweepReclaims | fobj.c:156-178 | with the intended layout the sweep fails iff the freed slots overflow `next_free`; otherwise it pushes them in ascending order, zeroes exactly them, keeps every other slot, and runs the free hook of each one that has one, in ascending order and so once each |
| Pool.Collect | fobj.c:135-179 | a collection fails only on free-list overflow, and changes only the pool |
| Pool.MarksAreReachable | fobj.c:145-154 | the collection's marks are exactly the slots reachable from the seven roots |
| Pool.ReclaimedAreNewlyMarked | fobj.c:157 | the reclaimed slots are exactly those reachable from the roots whose bit was clear in the snapshot |
| Pool.CollectReclaims | fobj.c:135-179 | after a collection the bitmap is the reachable set; the reclaimed slots are zeroed and pushed in ascending order, every other slot is kept, and the collection fails iff they overflow the free list |
| Pool.Pop | fobj.c:115-121 | allocation pops the top of the free list, so the old free list is the new one plus the returned slot; that slot gets the type, and nothing else changes, the bitmap included |
| Pool.PopIfFree | fobj.c:113-121 | with no free slot the result is the out-of-memory failure, otherwise the pop |
| Pool.New | fobj.c:99-122 | with free slots and no DEBUG build, allocation pops without collecting; when exhausted it collects once, then fails with out-of-memory if still exhausted or pops from the collected pool; it fails only with out-of-memory or overflow |
| Pool.AllocateFromInit | fobj.c:115-121 | from a free list `next_free[i] == i` with `k` free, allocation returns slot `k-1`, leaves `k-1` free and leaves the free list unchanged |
| Pool.CollectThenAllocate | fobj.c:101-121 | when an exhausted pool's collection reclaims slots, the allocation gets the last slot the sweep pushed |
| Pool.Hold | fobj.c:181-184 | holding pushes the reference onto the hold stack and changes no other slot |
| Pool.HoldAll | fobj.c:186-195 | holding a list pushes all of it, in order, onto the hold stack |
| Pool.HoldClear | fobj.c:197-206 | clearing empties the hold stack in one step and changes nothing else in the pool or the environment; the high-water mark becomes the larger of itself and the old depth |
| Pool.ArrayNew | farray.c:23-29 | succeeds iff `fobj_new` does; the result is `fobj_new`'s environment with the allocated slot holding an array with no elements, and nothing else changed |
| Pool.IndexNew | fobj.c:279-288 | with a NULL index it returns the container and allocates nothing; otherwise it allocates exactly one index object holding the pair |
| Pool.StateNew | fobj.c:306-313 | succeeds iff `fobj_new` does; the result is `fobj_new`'s environment with the allocated slot holding a state record of the two integers, which has no children, and nothing else changed |
| Pool.Store | fobj.c:247-253 | a type without a store hook gives "! not supported"; other non-array types go to their hook; an array fails with exactly `Farray.Store`'s error, or is updated exactly as `Farray.Store` says, with no other slot, nor the free list, nor the bitmap changed |
| Pool.Fetch | fobj.c:239-245 | a type without a fetch hook gives "@ not supported"; other non-array types go to their hook; an array gives exactly `Farray.Fetch`'s result or error |
| Findings.InitMatches | fobj.c:64-72 | the initial pool satisfies the pool invariant: the free list has no repeats, and a slot is on it iff its bit is clear |
| Findings.NewLeavesSlotUnmarked | fobj.c:115-121 | as written, in a non-DEBUG build every allocation with a free slot breaks that invariant: the slot handed out is off the free list with its bit still clear |
| Findings.PopIntended | fobj.c:115-121 | the corrected pop is `fobj_new`'s pop that also adds the slot to the bitmap |
| Findings.PopIntendedKeepsInvariant | fobj.c:115-121 | the corrected pop keeps the invariant |
| Findings.FirstCollectionReclaimsReachable | fobj.c:157 | with the mask as written (and the slot layout corrected, as in `Pool.Collect`), with a clear bitmap (as after any allocations from a fresh pool in a non-DEBUG build, before the first collection) a collection reclaims exactly the reachable slots |
| Findings.DataStackReclaimed | fobj.c:148-157 | with the mask as written and the slot layout corrected, a data stack whose bit is clear is zeroed and put on the free list while still a root |
| Findings.CollectFrom | fobj.c:139 | a collection sweeping `copy & ~marked` changes only the pool |
| Findings.CollectFromReclaimsGarbage | fobj.c:139 | with the corrected mask the reclaimed slots are exactly those in use and unreachable, and every reachable slot is kept |
| Findings.HeldObjectNotMarked | fobj.c:148-154 | as written, a held object is not marked when no root reaches it |
| Findings.HeldObjectReclaimed | fobj.c:181-184 | so with only the mask corrected, a held, in-use object that no root reaches is reclaimed while held |
| Findings.CollectIntended | fobj.c:135-179 | the corrected collector changes only the pool |
| Findings.HeldObjectSurvives | fobj.c:181-184 | with the hold stack as a root, every held object survives a collection unchanged |
| Findings.CollectIntendedKeepsInvariant | fobj.c:135-179 | on a heap that keeps the invariant, where every reachable slot is in use, the corrected collector never overflows; afterwards a slot is free iff it is unreachable, and the invariant holds |
| Findings.NewIntended | fobj.c:99-122 | the corrected allocation returns a slot whose bit is set and which has the type; in a non-DEBUG build with free slots it is the corrected pop |
| Findings.SweepNothing | fobj.c:158-160 | a mask with no bit set changes nothing |
| Findings.SlotZeroMask | fobj.c:157 | the mask whose only set bit is slot 0's |
| Findings.SweepAsWrittenMisplaces | fobj.c:162-176 | as written, freeing slot 0 zeroes and pushes slot 32 and leaves slot 0; the intended layout frees slot 0 |
| Findings.DistinctFits | fobj.c:29 | a free list without repeats fits in the 1024 entries of `next_free` |

## Left out

- Printing (`fobj_print`, `farray_print`) is console output. `farray_print` also asserts the wrong tag (`FOBJ_TABLE`, farray.c:13).
- `fobj_hash` hashes the raw bytes of an object, so it depends on memory layout.
- `fenv_new` and `fenv_free` are allocation plumbing, as are `calloc`, `realloc` and `free`. Backing storage is modelled as sequences.
- `fobj_obj_mem_index` and `fobj_obj_mem_used` check that a pointer lies inside the arena. References are slot indices here, so they always do.
- `fobj_is_index` is a one-line tag test and is not modelled.
- The hooks of the other types (`fstack_*`, `ftable_*`, `fhash_*`, `fstr_*`, `fnum_*`, `fword_*`) are not part of this model. What their visit hooks reach is each object's `Refs` payload. A dispatch to one of their hooks ends in `External`.
- `farray_visit` is named in `op_table` but is not in farray.c. The array's visit hook is taken to visit every element.
- The push inside `fobj_hold` is `fstack_store`, which is not part of this model. It is taken to append to the stack.
- `fobj_retain` and `fobj_release` are not part of this model. Their calls are returned as a log of `Ownership` events, and `fobj_retain` is taken to return its argument.
- `fnumber_t` may be floating point. Array indices are modelled as `int`.
- Farray.Store: array lengths and positions are unbounded integers, so a store at any non-negative index succeeds. In C, `farray_grow` takes an `int` length (farray.c:43, called with `n+1` at farray.c:90), the position is cast with `(int) n` (farray.c:56), and the result of `realloc` is never checked (farray.c:46). A store at `n >= INT_MAX`, or one that exhausts memory, therefore overflows or fails an assertion instead of growing the array. The same bound is absent from Farray.StoreGrows and Farray.ReadAfterWrite, which state length `n + 1` and the read back for every non-negative `n`.
- Farray.StoreGrows: states length exactly `n + 1` for every `n >= num`, without the `int` bound of `farray_grow` described above.
- Farray.ReadAfterWrite: states success and the read back for every non-negative index, without the `int` bound of `farray_grow` described above.
- The DEBUG always-collect path is the `debugCollect` flag of the environment.
- The process-global `fobj_max_hold_sp` is the `maxHoldSp` field of the environment.
- `FOBJ_STATE` has no row in `op_table`, so it is modelled with every hook absent. The invalid tag's name, a NULL `%s` in C, is modelled as the empty string.
- Pool.Sweep: its own contract states only well-formedness, the bitmap and the overflow failure. What it reclaims under the intended layout is `Pool.SweepReclaims`. Under the layout as written, only the counterexample `Findings.SweepAsWrittenMisplaces` is proved.
- Pool.Collect: the free hooks the sweep runs are returned by `Pool.Sweep` but dropped by `Pool.Collect`, because `fobj_garbage_collection` returns nothing.
- Pool.New: in a DEBUG build the contract states only the tag, well-formedness and the failure kinds. The collection-then-pop sequence is stated only for the non-DEBUG build.
- Pool.Pop: the allocated slot keeps whatever payload it had. Only a zeroed slot (from `fobj_obj_mem_init` or the sweep) is "zero-initialized".
- As written, a sweep can push a slot that is already on the free list. Such duplicates are not prevented, and only a push beyond 1024 entries is reported, as `FreeListOverflow`.
- `fobj_hold` exists to keep objects alive, yet the collector visits seven roots and not the hold stack. The comment at fobj.c:139 says the collector frees objects "no longer used", yet the mask at fobj.c:157 selects the opposite. The model follows the code, and the corrected behaviour, with the hold stack as an eighth root, is in `Findings`.
- A negative index is not a usage error: `farray_fetch` returns NULL for it through `farray_num_index`, and `farray_store` fails the `n > a->num` assertion of `farray_grow`. The model follows the code.

## Findings

| source | as written | input that shows it | evidently intended | confidence | as-written member | corrected member |
|---|---|---|---|---|---|---|
| fobj.c:115-121 | `fobj_new` pops a slot but never sets its in-use bit | any allocation from a pool where free list and bitmap agree: the slot is off the free list with its bit clear | set the slot's bit when allocating | high; not executed | Pool.New, shown by Findings.NewLeavesSlotUnmarked | Findings.NewIntended / Findings.PopIntended, proved by Findings.PopIntendedKeepsInvariant |
| fobj.c:157 | the sweep mask is `~copy & marked` | with the slot layout of fobj.c:162 corrected, as in `Pool.Collect`: a data stack root whose bit is clear, as after any allocation from a fresh pool in a non-DEBUG build before the first collection, is zeroed and freed while still referenced | `copy & ~marked`, as the comment at fobj.c:139 says | high; not executed | Pool.Collect, shown by Findings.DataStackReclaimed and Findings.FirstCollectionReclaimsReachable | Findings.CollectFrom, proved by Findings.CollectFromReclaimsGarbage |
| fobj.c:162 | every word's bits are mapped from `&m->objs[n]` with `n == 32` | a mask with only slot 0 set: slot 32 is zeroed and pushed, slot 0 is left alone | start word `i` at `&m->objs[32 * i]` | high; not executed | Pool.Sweep with `AsWritten`, shown by Findings.SweepAsWrittenMisplaces | Pool.Sweep with `Intended`, proved by Pool.SweepReclaims |
| fobj.c:148-154 | the roots omit `f->hold_stack`, so `fobj_hold` protects nothing | all seven roots NULL and an object held: it is not marked; with the corrected mask it is reclaimed while held | also visit `f->hold_stack` | high; not executed | Pool.RootList, shown by Findings.HeldObjectNotMarked and Findings.HeldObjectReclaimed | Findings.CollectIntended, proved by Findings.HeldObjectSurvives and Findings.CollectIntendedKeepsInvariant |
| farray.c:81 | `fassert(f, index == NULL, ...)` in `farray_store` and `farray_fetch` (also farray.c:100) | any number index is refused with "array must be indexed by NUM"; a NULL index passes and is dereferenced | `fassert(f, index != NULL, ...)` | high; not executed | Farray.StoreAsWritten / Farray.FetchAsWritten, shown by Farray.GuardAsWrittenRefusesAll | Farray.Store / Farray.Fetch, proved by Farray.ReadAfterWrite and Farray.StoreGrows |
