/** The mark phase of the collector: `fobj_visit` (fobj.c:124-133) and the
    per-type visit hooks it calls, over a frozen arena. The bitmap doubles as
    the mark set and its test-and-set is the cycle guard. */
module Mark {
  import opened Common
  import opened Bitmap
  import opened Objects

  /** The state of a mark phase: the mark bits and, in call order, every
      slot whose type's visit hook has been called. */
  datatype Marking = Marking(bits: Bits, hooked: seq<Slot>)

  /** Every non-NULL reference in `rs` is in `s`. */
  predicate RefsIn(rs: seq<Option<Slot>>, s: set<Slot>)
  {
    forall k :: 0 <= k < |rs| && rs[k].Some? ==> rs[k].value in s
  }

  /** No object in `s` refers, through its visit hook, outside `s`. */
  ghost predicate Closed(objs: seq<Obj>, s: set<Slot>)
    requires |objs| == Capacity
  {
    forall x :: x in s ==> RefsIn(Children(objs[x]), s)
  }

  /** The hook calls `r` added on top of `m`. */
  function NewHooks(m: Marking, r: Marking): seq<Slot>
    requires |m.hooked| <= |r.hooked|
  {
    r.hooked[|m.hooked|..]
  }

  /** `r` continues the mark phase `m`: marks only grow, the earlier hook
      calls are kept, and the calls added are exactly one per newly marked
      object whose type has a visit hook. */
  ghost predicate Extends(objs: seq<Obj>, m: Marking, r: Marking)
    requires |objs| == Capacity
  {
    && Members(m.bits) <= Members(r.bits)
    && Clear(r.bits) <= Clear(m.bits)
    && |m.hooked| <= |r.hooked|
    && r.hooked[..|m.hooked|] == m.hooked
    && (forall x :: x in NewHooks(m, r) <==>
          x in Members(r.bits) - Members(m.bits) && HasOp(objs[x].tag, VisitOp))
    && Distinct(NewHooks(m, r))
  }

  lemma ExtendsTransitive(objs: seq<Obj>, a: Marking, b: Marking, c: Marking)
    requires |objs| == Capacity
    requires Extends(objs, a, b) && Extends(objs, b, c)
    ensures Extends(objs, a, c)
  {
    NewHooksConcat(a, b, c);
    var ab, bc := NewHooks(a, b), NewHooks(b, c);
    assert forall x :: x in ab ==> x in Members(b.bits);
    assert forall x :: x in bc ==> x !in Members(b.bits);
    DistinctConcat(ab, bc);
  }

  /** The hook calls of two successive stretches are those of the first
      followed by those of the second. */
  lemma NewHooksConcat(a: Marking, b: Marking, c: Marking)
    requires |a.hooked| <= |b.hooked| <= |c.hooked|
    requires b.hooked[..|a.hooked|] == a.hooked && c.hooked[..|b.hooked|] == b.hooked
    ensures c.hooked[..|a.hooked|] == a.hooked
    ensures NewHooks(a, c) == NewHooks(a, b) + NewHooks(b, c)
  {
    assert c.hooked[..|b.hooked|][..|a.hooked|] == c.hooked[..|a.hooked|];
  }

  /** Two lists without repeats and with no common element concatenate to a
      list without repeats. */
  lemma DistinctConcat(s: seq<Slot>, t: seq<Slot>)
    requires Distinct(s) && Distinct(t)
    requires forall x :: x in s ==> x !in t
    ensures Distinct(s + t)
  {
    forall k, l | 0 <= k < l < |s + t|
      ensures (s + t)[k] != (s + t)[l]
    {
      if l < |s| {
      } else if k >= |s| {
        assert (s + t)[k] == t[k - |s|] && (s + t)[l] == t[l - |s|];
      } else {
        assert (s + t)[k] == s[k] && s[k] in s;
        assert (s + t)[l] == t[l - |s|] && t[l - |s|] in t;
      }
    }
  }

  /** `fobj_visit`: NULL is ignored; an object whose bit was already set is
      left alone, without calling its hook; otherwise its bit is set and its
      type's visit hook visits each of its children in turn. */
  function Visit(objs: seq<Obj>, m: Marking, p: Option<Slot>): (r: Marking)
    requires |objs| == Capacity
    ensures p.None? || p.value in Members(m.bits) ==> r == m
    ensures Extends(objs, m, r)
    ensures p.Some? ==> p.value in Members(r.bits)
    ensures forall x :: x in Members(r.bits) - Members(m.bits) ==>
              RefsIn(Children(objs[x]), Members(r.bits))
    decreases Clear(m.bits), 0
  {
    if p.None? then m
    else
      var (prior, bits) := TestAndSet(m.bits, p.value);
      if prior then m
      else
        TestAndSetMembers(m.bits, p.value);
        var o := objs[p.value];
        var m1 := Marking(bits, if HasOp(o.tag, VisitOp) then m.hooked + [p.value] else m.hooked);
        assert Extends(objs, m, m1) by {
          assert NewHooks(m, m1) == if HasOp(o.tag, VisitOp) then [p.value] else [];
        }
        var r := VisitAll(objs, m1, Children(o), 0);
        ExtendsTransitive(objs, m, m1, r);
        r
  }

  /** The loop of a visit hook: visit `ps[i..]` in order. */
  function VisitAll(objs: seq<Obj>, m: Marking, ps: seq<Option<Slot>>, i: nat): (r: Marking)
    requires |objs| == Capacity
    requires i <= |ps|
    ensures Extends(objs, m, r)
    ensures RefsIn(ps[i..], Members(r.bits))
    ensures forall x :: x in Members(r.bits) - Members(m.bits) ==>
              RefsIn(Children(objs[x]), Members(r.bits))
    decreases Clear(m.bits), |ps| - i + 1
  {
    if i == |ps| then
      assert NewHooks(m, m) == [];
      m
    else
      var m1 := Visit(objs, m, ps[i]);
      var r := VisitAll(objs, m1, ps, i + 1);
      ExtendsTransitive(objs, m, m1, r);
      RefsInCons(ps, i, Members(r.bits));
      assert forall x :: x in Members(r.bits) - Members(m.bits) ==>
          RefsIn(Children(objs[x]), Members(r.bits)) by {
        forall x | x in Members(m1.bits) - Members(m.bits)
          ensures RefsIn(Children(objs[x]), Members(r.bits))
        {
          RefsInGrows(Children(objs[x]), Members(m1.bits), Members(r.bits));
        }
      }
      r
  }

  /** The mark phase of `fobj_garbage_collection` (fobj.c:145-154): the
      bitmap is cleared, then each root is visited in order. The marked set
      contains the roots and is closed under the visit hooks, and no hook
      runs twice. */
  function MarkFrom(objs: seq<Obj>, roots: seq<Option<Slot>>): (r: Marking)
    requires |objs| == Capacity
    ensures RefsIn(roots, Members(r.bits))
    ensures Closed(objs, Members(r.bits))
    ensures forall x :: x in r.hooked <==> x in Members(r.bits) && HasOp(objs[x].tag, VisitOp)
    ensures Distinct(r.hooked)
  {
    var m0 := Marking(Empty(), []);
    var r := VisitAll(objs, m0, roots, 0);
    assert roots[0..] == roots;
    assert NewHooks(m0, r) == r.hooked;
    r
  }

  lemma {:induction false} VisitWithin(objs: seq<Obj>, m: Marking, p: Option<Slot>, s: set<Slot>)
    requires |objs| == Capacity
    requires Closed(objs, s)
    requires Members(m.bits) <= s
    requires p.Some? ==> p.value in s
    ensures Members(Visit(objs, m, p).bits) <= s
    decreases Clear(m.bits), 0
  {
    if p.Some? {
      var (prior, bits) := TestAndSet(m.bits, p.value);
      if !prior {
        TestAndSetMembers(m.bits, p.value);
        var o := objs[p.value];
        var m1 := Marking(bits, if HasOp(o.tag, VisitOp) then m.hooked + [p.value] else m.hooked);
        VisitAllWithin(objs, m1, Children(o), 0, s);
      }
    }
  }

  lemma {:induction false} VisitAllWithin(objs: seq<Obj>, m: Marking, ps: seq<Option<Slot>>, i: nat, s: set<Slot>)
    requires |objs| == Capacity
    requires i <= |ps|
    requires Closed(objs, s)
    requires Members(m.bits) <= s
    requires RefsIn(ps[i..], s)
    ensures Members(VisitAll(objs, m, ps, i).bits) <= s
    decreases Clear(m.bits), |ps| - i + 1
  {
    if i < |ps| {
      RefsInSuffix(ps, i, s);
      var m1 := Visit(objs, m, ps[i]);
      VisitWithin(objs, m, ps[i], s);
      VisitAllWithin(objs, m1, ps, i + 1, s);
    }
  }

  /** A suffix whose first reference and remainder lie in `s` lies in `s`. */
  lemma RefsInCons(ps: seq<Option<Slot>>, i: nat, s: set<Slot>)
    requires i < |ps| && RefsIn(ps[i + 1..], s)
    requires ps[i].Some? ==> ps[i].value in s
    ensures RefsIn(ps[i..], s)
  {
    assert ps[i..] == [ps[i]] + ps[i + 1..];
  }

  lemma RefsInGrows(ps: seq<Option<Slot>>, s: set<Slot>, t: set<Slot>)
    requires RefsIn(ps, s) && s <= t
    ensures RefsIn(ps, t)
  {
  }

  /** Peeling the first reference off a suffix keeps `RefsIn`. */
  lemma RefsInSuffix(ps: seq<Option<Slot>>, i: nat, s: set<Slot>)
    requires i < |ps| && RefsIn(ps[i..], s)
    ensures ps[i].Some? ==> ps[i].value in s
    ensures RefsIn(ps[i + 1..], s)
  {
    assert ps[i..][0] == ps[i];
    assert ps[i + 1..] == ps[i..][1..];
  }

  /** The marked set is the least closed set holding the roots: any set
      that holds every root and is closed under the visit hooks holds every
      marked slot. */
  lemma MarkedIsLeast(objs: seq<Obj>, roots: seq<Option<Slot>>, s: set<Slot>)
    requires |objs| == Capacity
    requires Closed(objs, s)
    requires RefsIn(roots, s)
    ensures Members(MarkFrom(objs, roots).bits) <= s
  {
    assert roots[0..] == roots;
    VisitAllWithin(objs, Marking(Empty(), []), roots, 0, s);
  }

  /** `b` is passed to `fobj_visit` by the visit hook of `a`. */
  ghost predicate Step(objs: seq<Obj>, a: Slot, b: Slot)
    requires |objs| == Capacity
  {
    Some(b) in Children(objs[a])
  }

  /** A chain of visit-hook references that starts at a root. */
  ghost predicate Path(objs: seq<Obj>, roots: seq<Option<Slot>>, path: seq<Slot>)
    requires |objs| == Capacity
  {
    && |path| > 0
    && Some(path[0]) in roots
    && forall k :: 0 < k < |path| ==> Step(objs, path[k - 1], path[k])
  }

  ghost predicate Reachable(objs: seq<Obj>, roots: seq<Option<Slot>>, x: Slot)
    requires |objs| == Capacity
  {
    exists path :: Path(objs, roots, path) && path[|path| - 1] == x
  }

  lemma {:induction false} PathInClosed(objs: seq<Obj>, roots: seq<Option<Slot>>, path: seq<Slot>, s: set<Slot>)
    requires |objs| == Capacity
    requires Path(objs, roots, path)
    requires RefsIn(roots, s) && Closed(objs, s)
    ensures path[|path| - 1] in s
    decreases |path|
  {
    if |path| == 1 {
      var k :| 0 <= k < |roots| && roots[k] == Some(path[0]);
    } else {
      var prefix := path[..|path| - 1];
      assert Path(objs, roots, prefix) by {
        forall k | 0 < k < |prefix|
          ensures Step(objs, prefix[k - 1], prefix[k])
        {
          assert Step(objs, path[k - 1], path[k]);
        }
      }
      PathInClosed(objs, roots, prefix, s);
      var a, b := path[|path| - 2], path[|path| - 1];
      assert Step(objs, a, b);
      var k :| 0 <= k < |Children(objs[a])| && Children(objs[a])[k] == Some(b);
    }
  }

  /** The set of slots reachable from the roots is closed and holds them. */
  lemma ReachableIsClosed(objs: seq<Obj>, roots: seq<Option<Slot>>)
    requires |objs| == Capacity
    ensures RefsIn(roots, set x: Slot | 0 <= x < Capacity && Reachable(objs, roots, x))
    ensures Closed(objs, set x: Slot | 0 <= x < Capacity && Reachable(objs, roots, x))
  {
    var s := set x: Slot | 0 <= x < Capacity && Reachable(objs, roots, x);
    forall k | 0 <= k < |roots| && roots[k].Some?
      ensures roots[k].value in s
    {
      assert Path(objs, roots, [roots[k].value]);
    }
    forall x | x in s
      ensures RefsIn(Children(objs[x]), s)
    {
      var path :| Path(objs, roots, path) && path[|path| - 1] == x;
      forall k | 0 <= k < |Children(objs[x])| && Children(objs[x])[k].Some?
        ensures Children(objs[x])[k].value in s
      {
        var c := Children(objs[x])[k].value;
        assert Step(objs, x, c);
        PathExtends(objs, roots, path, c);
        assert (path + [c])[|path + [c]| - 1] == c;
      }
    }
  }

  /** A path followed by one more visit-hook reference is a path. */
  lemma PathExtends(objs: seq<Obj>, roots: seq<Option<Slot>>, path: seq<Slot>, c: Slot)
    requires |objs| == Capacity
    requires Path(objs, roots, path) && Step(objs, path[|path| - 1], c)
    ensures Path(objs, roots, path + [c])
  {
    var longer := path + [c];
    forall j | 0 < j < |longer|
      ensures Step(objs, longer[j - 1], longer[j])
    {
      if j < |path| {
        assert Step(objs, path[j - 1], path[j]);
      }
    }
  }

  /** After the mark phase the set bits are exactly the slots reachable from
      the roots through the visit hooks. */
  lemma MarkedIsReachable(objs: seq<Obj>, roots: seq<Option<Slot>>, x: Slot)
    requires |objs| == Capacity
    ensures x in Members(MarkFrom(objs, roots).bits) <==> Reachable(objs, roots, x)
  {
    var m := Members(MarkFrom(objs, roots).bits);
    if Reachable(objs, roots, x) {
      var path :| Path(objs, roots, path) && path[|path| - 1] == x;
      PathInClosed(objs, roots, path, m);
    }
    if x in m {
      ReachableIsClosed(objs, roots);
      MarkedIsLeast(objs, roots, set y: Slot | 0 <= y < Capacity && Reachable(objs, roots, y));
    }
  }

  /** An index object that is marked has its container and its pending index
      marked too (fobj.c:290-295). */
  lemma IndexMarksBoth(objs: seq<Obj>, roots: seq<Option<Slot>>, x: Slot)
    requires |objs| == Capacity
    requires objs[x].tag == Index && objs[x].payload.IndexRef?
    requires x in Members(MarkFrom(objs, roots).bits)
    ensures objs[x].payload.addr.Some? ==> objs[x].payload.addr.value in Members(MarkFrom(objs, roots).bits)
    ensures objs[x].payload.index.Some? ==> objs[x].payload.index.value in Members(MarkFrom(objs, roots).bits)
  {
    var c := Children(objs[x]);
    assert c[0] == objs[x].payload.addr && c[1] == objs[x].payload.index;
  }
}
