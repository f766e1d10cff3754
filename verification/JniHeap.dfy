/** Reference counts of the fake Java objects and the cascade that releasing a
    reference can start (source/jni_fake.c lines 188 to 303). An object is named
    by its place in the heap, and a freed place is never used again. */
module JniHeap {
  import opened Bytes

  /** What a `void *` to a Java value can be: null, a value the process owns for
      good (class, method id, interned string), or a counted object. */
  datatype Handle = Null | Pooled(n: nat) | Managed(id: nat)

  datatype Kind = Plain | ObjectArray | Handler | Message

  /** `kids` are array elements, a handler's callback, or a message's target. */
  datatype Obj = Obj(kind: Kind, refs: nat, kids: seq<Handle>)

  type Heap = seq<Option<Obj>>

  /** retain_managed_ref refuses to count further than this. */
  const RETAIN_LIMIT: nat := 0xFFFF_FFFE

  predicate Live(h: Heap, id: nat) { id < |h| && h[id].Some? }

  predicate Usable(h: Heap, ref: Handle) { ref.Managed? ==> Live(h, ref.id) }

  function Refs(h: Heap, id: nat): nat { if Live(h, id) then h[id].value.refs else 0 }

  /** The references held inside an object. */
  ghost function KidsOf(o: Option<Obj>): multiset<Handle> {
    if o.Some? then multiset(o.value.kids) else multiset{}
  }

  ghost function Held(o: Option<Obj>, id: nat): nat { KidsOf(o)[Managed(id)] }

  /** How many references to `id` the objects of the heap hold. */
  ghost function HeldIn(h: Heap, id: nat): nat {
    if |h| == 0 then 0 else HeldIn(h[..|h| - 1], id) + Held(h[|h| - 1], id)
  }

  /** How many owners object `id` has: outside the heap, and inside it. */
  ghost function Owners(h: Heap, roots: multiset<Handle>, id: nat): nat {
    roots[Managed(id)] + HeldIn(h, id)
  }

  /** Every count is exact: a live object has `refs` owners, one at least, and
      nothing owns what is not live. */
  ghost predicate Accounted(h: Heap, roots: multiset<Handle>) {
    forall id: nat :: Refs(h, id) == Owners(h, roots, id) && (Live(h, id) ==> Refs(h, id) >= 1)
  }

  lemma {:induction false} HeldUpdate(h: Heap, i: nat, x: Option<Obj>, id: nat)
    requires i < |h|
    ensures HeldIn(h[i := x], id) + Held(h[i], id) == HeldIn(h, id) + Held(x, id)
    decreases |h|
  {
    hide Held;
    var n := |h| - 1;
    if i == n {
      assert h[i := x][..n] == h[..n];
    } else {
      HeldUpdate(h[..n], i, x, id);
      assert h[i := x][..n] == h[..n][i := x];
    }
  }

  lemma HeldAppend(h: Heap, x: Option<Obj>, id: nat)
    ensures HeldIn(h + [x], id) == HeldIn(h, id) + Held(x, id)
  {
    assert (h + [x])[..|h|] == h;
  }

  /** What a live object holds is live. */
  lemma KidIsLive(h: Heap, roots: multiset<Handle>, id: nat, k: nat)
    requires Accounted(h, roots) && Live(h, id) && k < |h[id].value.kids|
    ensures Usable(h, h[id].value.kids[k])
  {
    var o := h[id].value;
    assert o.kids[k] in multiset(o.kids);
    if o.kids[k].Managed? {
      HeldUpdate(h, id, None, o.kids[k].id);
      assert Refs(h, o.kids[k].id) == Owners(h, roots, o.kids[k].id);
    }
  }

  lemma RootIsLive(h: Heap, roots: multiset<Handle>, ref: Handle)
    requires Accounted(h, roots) && ref in roots
    ensures Usable(h, ref)
  {
    if ref.Managed? {
      assert Refs(h, ref.id) == Owners(h, roots, ref.id);
    }
  }

  /** Only counted objects matter to the accounts. */
  lemma SameRoots(h: Heap, roots: multiset<Handle>, others: multiset<Handle>)
    requires Accounted(h, roots)
    requires forall id: nat :: roots[Managed(id)] == others[Managed(id)]
    ensures Accounted(h, others)
  {
    forall id: nat
      ensures Refs(h, id) == Owners(h, others, id) && (Live(h, id) ==> Refs(h, id) >= 1)
    {
      assert Refs(h, id) == Owners(h, roots, id);
    }
  }

  // ---- one more owner ----

  predicate CanRetain(h: Heap, ref: Handle) {
    ref.Managed? ==> Live(h, ref.id) && 0 < h[ref.id].value.refs < RETAIN_LIMIT
  }

  function Retained(h: Heap, ref: Handle): Heap
    requires CanRetain(h, ref)
  {
    if ref.Managed? then h[ref.id := Some(h[ref.id].value.(refs := h[ref.id].value.refs + 1))] else h
  }

  lemma RetainKeeps(h: Heap, roots: multiset<Handle>, ref: Handle)
    requires Accounted(h, roots) && CanRetain(h, ref)
    ensures Accounted(Retained(h, ref), roots + multiset{ref})
  {
    hide HeldIn;
    var g := Retained(h, ref);
    forall id: nat
      ensures Refs(g, id) == Owners(g, roots + multiset{ref}, id) && (Live(g, id) ==> Refs(g, id) >= 1)
    {
      assert Refs(h, id) == Owners(h, roots, id);
      if ref.Managed? { HeldUpdate(h, ref.id, g[ref.id], id); }
    }
  }

  /** A new object with one owner, holding `kids` that were counted already. */
  lemma AllocKeeps(h: Heap, roots: multiset<Handle>, o: Obj)
    requires Accounted(h, roots + multiset(o.kids)) && o.refs == 1
    ensures Accounted(h + [Some(o)], roots + multiset{Managed(|h|)})
  {
    hide HeldIn;
    var g := h + [Some(o)];
    forall id: nat
      ensures Refs(g, id) == Owners(g, roots + multiset{Managed(|h|)}, id) && (Live(g, id) ==> Refs(g, id) >= 1)
    {
      HeldAppend(h, Some(o), id);
      assert Refs(h, id) == Owners(h, roots + multiset(o.kids), id);
    }
  }

  /** Object `id` holds `val` instead of its `k`-th reference. */
  function WithKid(h: Heap, id: nat, k: nat, val: Handle): Heap {
    if Live(h, id) && k < |h[id].value.kids| then
      h[id := Some(h[id].value.(kids := h[id].value.kids[k := val]))]
    else
      h
  }

  lemma WithKidKeeps(h: Heap, roots: multiset<Handle>, id: nat, k: nat, val: Handle)
    requires Live(h, id) && k < |h[id].value.kids| && Accounted(h, roots + multiset{val})
    ensures Accounted(WithKid(h, id, k, val), roots + multiset{h[id].value.kids[k]})
  {
    hide HeldIn;
    var kids := h[id].value.kids;
    var g := WithKid(h, id, k, val);
    assert multiset(kids[k := val]) + multiset{kids[k]} == multiset(kids) + multiset{val};
    forall j: nat
      ensures Refs(g, j) == Owners(g, roots + multiset{kids[k]}, j) && (Live(g, j) ==> Refs(g, j) >= 1)
    {
      HeldUpdate(h, id, g[id], j);
      assert Refs(h, j) == Owners(h, roots + multiset{val}, j);
    }
  }

  // ---- one owner less ----

  function SumRefs(h: Heap): nat {
    if |h| == 0 then 0 else SumRefs(h[..|h| - 1]) + Refs(h, |h| - 1)
  }

  lemma {:induction false} SumRefsUpdate(h: Heap, i: nat, x: Option<Obj>)
    requires i < |h|
    ensures SumRefs(h[i := x]) + Refs(h, i) == SumRefs(h) + Refs(h[i := x], i)
    decreases |h|
  {
    var n := |h| - 1;
    if i == n {
      assert h[i := x][..n] == h[..n];
    } else {
      SumRefsUpdate(h[..n], i, x);
      assert h[i := x][..n] == h[..n][i := x];
    }
  }

  /** `id` loses an owner; the last one frees it. */
  function Loosened(h: Heap, id: nat): (g: Heap)
    requires Live(h, id) && h[id].value.refs > 0
    ensures SumRefs(g) < SumRefs(h)
  {
    var o := h[id].value;
    var x := if o.refs == 1 then None else Some(o.(refs := o.refs - 1));
    SumRefsUpdate(h, id, x);
    h[id := x]
  }

  /** The heap after dropping the references in `todo`, first to last, and in
      turn those that the objects freed on the way held. */
  function Drop(h: Heap, todo: seq<Handle>): Heap
    decreases SumRefs(h), |todo|
  {
    if todo == [] then h
    else
      var ref := todo[0];
      if !(ref.Managed? && Live(h, ref.id) && h[ref.id].value.refs > 0) then Drop(h, todo[1..])
      else
        var freed := if h[ref.id].value.refs == 1 then h[ref.id].value.kids else [];
        Drop(Loosened(h, ref.id), freed + todo[1..])
  }

  lemma DropNothing(h: Heap)
    ensures Drop(h, []) == h
  {
  }

  lemma LoosenKeeps(h: Heap, roots: multiset<Handle>, id: nat)
    requires Accounted(h, roots + multiset{Managed(id)}) && Live(h, id)
    ensures Refs(h, id) > 0
    ensures h[id].value.refs == 1 ==> Accounted(Loosened(h, id), roots + multiset(h[id].value.kids))
    ensures h[id].value.refs > 1 ==> Accounted(Loosened(h, id), roots)
  {
    hide HeldIn, SumRefs;
    var all := roots + multiset{Managed(id)};
    assert Refs(h, id) == Owners(h, all, id);
    var g := Loosened(h, id);
    var rest := if h[id].value.refs == 1 then roots + multiset(h[id].value.kids) else roots;
    forall j: nat
      ensures Refs(g, j) == Owners(g, rest, j) && (Live(g, j) ==> Refs(g, j) >= 1)
    {
      HeldUpdate(h, id, g[id], j);
      assert Refs(h, j) == Owners(h, all, j);
    }
  }

  /** Dropping references keeps every count exact, for all remaining owners. */
  lemma {:induction false} DropKeeps(h: Heap, todo: seq<Handle>, roots: multiset<Handle>)
    requires Accounted(h, roots + multiset(todo))
    ensures Accounted(Drop(h, todo), roots)
    decreases SumRefs(h), |todo|
  {
    hide HeldIn, SumRefs, Accounted;
    if todo == [] {
      assert roots + multiset(todo) == roots;
    } else {
      var ref, rest := todo[0], todo[1..];
      assert todo == [ref] + rest;
      assert roots + multiset(todo) == (roots + multiset(rest)) + multiset{ref};
      RootIsLive(h, roots + multiset(todo), ref);
      if ref.Managed? {
        LoosenKeeps(h, roots + multiset(rest), ref.id);
        var kids := h[ref.id].value.kids;
        if h[ref.id].value.refs == 1 {
          assert (roots + multiset(rest)) + multiset(kids) == roots + multiset(kids + rest);
          DropKeeps(Loosened(h, ref.id), kids + rest, roots);
        } else {
          assert [] + rest == rest;
          DropKeeps(Loosened(h, ref.id), rest, roots);
        }
      } else {
        SameRoots(h, roots + multiset(todo), roots + multiset(rest));
        DropKeeps(h, rest, roots);
      }
    }
  }

  /** Dropping in two parts is dropping in one go. */
  lemma {:induction false} DropConcat(h: Heap, a: seq<Handle>, b: seq<Handle>)
    ensures Drop(h, a + b) == Drop(Drop(h, a), b)
    decreases SumRefs(h), |a|
  {
    hide SumRefs;
    if a == [] {
      assert a + b == b;
    } else {
      var ref := a[0];
      assert (a + b)[1..] == a[1..] + b;
      if !(ref.Managed? && Live(h, ref.id) && h[ref.id].value.refs > 0) {
        DropConcat(h, a[1..], b);
      } else {
        var freed := if h[ref.id].value.refs == 1 then h[ref.id].value.kids else [];
        assert freed + (a + b)[1..] == (freed + a[1..]) + b;
        DropConcat(Loosened(h, ref.id), freed + a[1..], b);
      }
    }
  }

  /** What survives keeps its contents, and nothing comes back. */
  lemma {:induction false} DropOnlyFrees(h: Heap, todo: seq<Handle>)
    ensures |Drop(h, todo)| == |h| && SumRefs(Drop(h, todo)) <= SumRefs(h)
    ensures forall id: nat | Live(Drop(h, todo), id) ::
              Live(h, id) && Drop(h, todo)[id].value.kids == h[id].value.kids
                  && Drop(h, todo)[id].value.kind == h[id].value.kind
    decreases SumRefs(h), |todo|
  {
    hide SumRefs;
    if todo != [] {
      var ref := todo[0];
      if !(ref.Managed? && Live(h, ref.id) && h[ref.id].value.refs > 0) {
        DropOnlyFrees(h, todo[1..]);
      } else {
        var freed := if h[ref.id].value.refs == 1 then h[ref.id].value.kids else [];
        DropOnlyFrees(Loosened(h, ref.id), freed + todo[1..]);
      }
    }
  }

  /** Releasing frees exactly the objects left without an owner. */
  lemma DropFreesExactly(h: Heap, todo: seq<Handle>, roots: multiset<Handle>, id: nat)
    requires Accounted(h, roots + multiset(todo)) && Live(h, id)
    ensures Live(Drop(h, todo), id) <==> Owners(Drop(h, todo), roots, id) > 0
  {
    hide HeldIn;
    DropKeeps(h, todo, roots);
    assert Refs(Drop(h, todo), id) == Owners(Drop(h, todo), roots, id);
  }

  /** Nothing is freed early: what the remaining owners reach, through any
      number of objects, outlives the release. */
  lemma {:induction false} ReachableSurvives(h: Heap, todo: seq<Handle>, roots: multiset<Handle>, path: seq<nat>)
    requires Accounted(h, roots + multiset(todo)) && |path| > 0 && Managed(path[0]) in roots
    requires forall i | 0 <= i < |path| - 1 :: Live(h, path[i]) && Managed(path[i + 1]) in h[path[i]].value.kids
    ensures Live(Drop(h, todo), path[|path| - 1])
    decreases |path|
  {
    hide Accounted, SumRefs, Drop;
    DropKeeps(h, todo, roots);
    var g := Drop(h, todo);
    if |path| == 1 {
      RootIsLive(g, roots, Managed(path[0]));
    } else {
      var n := |path| - 2;
      ReachableSurvives(h, todo, roots, path[..n + 1]);
      DropOnlyFrees(h, todo);
      var k :| 0 <= k < |g[path[n]].value.kids| && g[path[n]].value.kids[k] == Managed(path[n + 1]);
      KidIsLive(g, roots, path[n], k);
    }
  }
}
