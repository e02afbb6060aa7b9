/** Objects of the runtime and the per-type operation table of fobj.c:12-22:
    type tags, payloads, which hooks each type supplies, the dispatch guards
    of `fobj_add`/`fobj_sub`/`fobj_fetch`/`fobj_store`, and the fallback
    comparator of `fobj_cmp`. */
module Objects {
  import opened Common
  import opened Bitmap

  /** The type tag, in the order of the rows of `op_table`; the zeroth
      entry is invalid and is also the tag of a zeroed slot. `State` is the
      tag `fstate_new` uses, which has no row in `op_table`. */
  datatype Tag = Invalid | Number | String | Table | Array | Hash | Stack | Index | Word | State

  /** The operations a row of `op_table` may supply. */
  datatype Op = VisitOp | FreeOp | PrintOp | CmpOp | StoreOp | FetchOp | AddOp | SubOp

  /** One row of `op_table`: the type's name and which hooks are non-NULL. */
  datatype Entry = Entry(
    name: string,
    visits: bool, frees: bool, prints: bool, compares: bool,
    stores: bool, fetches: bool, adds: bool, subs: bool)

  /** `op_table` (fobj.c:12-22). Members left out of an initializer are NULL.
      Every row leaves the field after the name NULL; the next eight fields
      are, in order, the visit, free, print, cmp, store, fetch, add and sub
      hooks. Read by column: */
  function Row(t: Tag): (r: Entry)
    ensures r.name == "" <==> t == Invalid || t == State
    ensures r.visits <==> t in {Table, Array, Hash, Stack, Index, Word}
    ensures r.frees <==> t in {String, Array, Hash, Stack, Word}
    ensures r.prints <==> t !in {Invalid, State, Index}
    ensures r.compares <==> t in {Number, String}
    ensures r.stores <==> t in {Table, Array, Hash, Stack}
    ensures r.fetches <==> t in {String, Table, Array, Hash, Stack}
    ensures r.adds <==> t in {Number, String}
    ensures r.subs <==> t in {Number, String}
  {
    match t
    case Number => Entry("number", false, false, true,  true,  false, false, true,  true)
    case String => Entry("string", false, true,  true,  true,  false, true,  true,  true)
    case Table  => Entry("table",  true,  false, true,  false, true,  true,  false, false)
    case Array  => Entry("array",  true,  true,  true,  false, true,  true,  false, false)
    case Hash   => Entry("hash",   true,  true,  true,  false, true,  true,  false, false)
    case Stack  => Entry("stack",  true,  true,  true,  false, true,  true,  false, false)
    case Index  => Entry("index",  true,  false, false, false, false, false, false, false)
    case Word   => Entry("word",   true,  true,  true,  false, false, false, false, false)
    case Invalid => Entry("", false, false, false, false, false, false, false, false)
    case State   => Entry("", false, false, false, false, false, false, false, false)
  }

  predicate HasOp(t: Tag, op: Op)
  {
    var e := Row(t);
    match op
    case VisitOp => e.visits
    case FreeOp => e.frees
    case PrintOp => e.prints
    case CmpOp => e.compares
    case StoreOp => e.stores
    case FetchOp => e.fetches
    case AddOp => e.adds
    case SubOp => e.subs
  }

  /** The operators whose dispatch is guarded by an assertion that the
      hook exists (fobj.c:223-253); visit, free and cmp test the hook and
      fall back instead, and print is not part of this model. */
  type Guarded = op: Op | op.AddOp? || op.SubOp? || op.FetchOp? || op.StoreOp? witness AddOp

  /** The tail of the "not supported" message for each guarded operator. */
  function Unsupported(op: Guarded): string
  {
    match op
    case AddOp => " <> + not supported"
    case SubOp => " <> - not supported"
    case FetchOp => " @ not supported"
    case StoreOp => " ! not supported"
  }

  /** The payload union of an object, as far as the core needs it.
      - Zero: the all-zero bytes of a fresh or swept slot;
      - Num: the value of a number object (used as an array index);
      - Refs: the references a container holds: an array's elements, a
        stack's items, and for tables, hashes and words the children their
        visit hooks reach;
      - IndexRef: the (container, pending index) pair of an index object;
      - StateRec: the two integers of a state record. */
  datatype Payload =
    | Zero
    | Num(n: int)
    | Refs(refs: seq<Option<Slot>>)
    | IndexRef(addr: Option<Slot>, index: Option<Slot>)
    | StateRec(state: int, offset: int)

  datatype Obj = Obj(tag: Tag, payload: Payload)

  /** A slot after `bzero`: tag 0, zero payload. */
  const Zeroed: Obj := Obj(Invalid, Zero)

  /** The references the type's visit hook passes to `fobj_visit`. A type
      without a visit hook has none, whatever its payload; an index object
      visits its container and then its pending index (fobj.c:290-295). */
  function Children(o: Obj): (r: seq<Option<Slot>>)
    ensures !HasOp(o.tag, VisitOp) ==> r == []
    ensures o.tag == Index && o.payload.IndexRef? ==> r == [o.payload.addr, o.payload.index]
  {
    if !HasOp(o.tag, VisitOp) then []
    else
      match o.payload
      case Refs(rs) => rs
      case IndexRef(a, i) => [a, i]
      case _ => []
  }

  /** The outcome of a dispatch guard: either the type's hook is called, or
      a usage error names the type and the operator. */
  datatype Dispatch = CallHook(tag: Tag) | Refused(message: string)

  /** The guard in front of every dispatched operator (fobj.c:223-253):
      `fassert(f, !!op_table[t].op, 1, "%s <op> not supported", name)`. */
  function Guard(t: Tag, op: Guarded): (r: Dispatch)
    ensures r.CallHook? <==> HasOp(t, op)
    ensures r.CallHook? ==> r.tag == t
    ensures r.Refused? ==> r.message == Row(t).name + Unsupported(op)
  {
    if HasOp(t, op) then CallHook(t)
    else Refused(Row(t).name + Unsupported(op))
  }

  /** Array, hash, stack and table objects can both be stored into and
      fetched from; a string supports fetch without store, the one row whose
      store and fetch hooks disagree. */
  lemma StoreFetchCoherence(t: Tag)
    ensures t != String ==> (HasOp(t, StoreOp) <==> HasOp(t, FetchOp))
    ensures HasOp(String, FetchOp) && !HasOp(String, StoreOp)
  {
  }

  /** The outcome of `fobj_cmp`: the type's comparator is called, or the
      objects are ordered by their position in the arena. */
  datatype Ordering = TypeCompare(tag: Tag) | Position(sign: int)

  /** `fobj_cmp` (fobj.c:255-264). The comparator of a type is used only
      when both objects have that type and the type supplies one; otherwise
      the result orders the two slots' addresses. */
  function Compare(objs: seq<Obj>, a: Slot, b: Slot): (r: Ordering)
    requires |objs| == Capacity
    ensures r.TypeCompare? <==> objs[a].tag == objs[b].tag && HasOp(objs[a].tag, CmpOp)
    ensures r.TypeCompare? ==> r.tag == objs[a].tag
    ensures r.Position? ==> r.sign in {-1, 0, 1}
    ensures r.Position? ==> (r.sign == 0 <==> a == b)
    ensures r.Position? ==> (r.sign < 0 <==> a < b)
  {
    if objs[a].tag == objs[b].tag && HasOp(objs[a].tag, CmpOp) then
      TypeCompare(objs[a].tag)
    else if a < b then Position(-1)
    else if a == b then Position(0)
    else Position(1)
  }

  /** The positional fallback is antisymmetric: swapping the operands
      negates the result, and it never consults a type's comparator. */
  lemma CompareAntisymmetric(objs: seq<Obj>, a: Slot, b: Slot)
    requires |objs| == Capacity
    requires Compare(objs, a, b).Position?
    ensures Compare(objs, b, a).Position?
    ensures Compare(objs, b, a).sign == -Compare(objs, a, b).sign
  {
  }

  /** The positional fallback is transitive: it is the order of slots. */
  lemma CompareTransitive(objs: seq<Obj>, a: Slot, b: Slot, c: Slot)
    requires |objs| == Capacity
    requires Compare(objs, a, b) == Position(-1)
    requires Compare(objs, b, c) == Position(-1)
    requires Compare(objs, a, c).Position?
    ensures Compare(objs, a, c) == Position(-1)
  {
  }

  /** Objects of different types, or of a type without a comparator, are
      always ordered by position. */
  lemma HeterogeneousUsesPosition(objs: seq<Obj>, a: Slot, b: Slot)
    requires |objs| == Capacity
    requires objs[a].tag != objs[b].tag || !HasOp(objs[a].tag, CmpOp)
    ensures Compare(objs, a, b).Position? && Compare(objs, b, a).Position?
  {
  }
}
