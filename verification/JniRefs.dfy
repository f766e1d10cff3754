/** The reference tables of the fake JNI environment (source/jni_fake.c lines
    145 to 346, 812 to 935, 1572 to 1617, 1675 to 1698 and 2074 to 2125). */
module JniRefs {
  import opened Bytes
  import opened JniHeap

  const MAX_LOCALS: nat := 262144
  const MAX_FRAMES: nat := 128
  const MAX_GLOBAL_REFS: nat := 65536
  const UINT32_MAX: nat := 0xFFFF_FFFF

  /** One entry of the global table: a single owner however many aliases. */
  datatype GlobalRef = GlobalRef(obj: Handle, count: nat)

  function Objs(globals: seq<GlobalRef>): (r: seq<Handle>)
    ensures |r| == |globals|
  {
    if globals == [] then [] else Objs(globals[..|globals| - 1]) + [globals[|globals| - 1].obj]
  }

  lemma {:induction false} ObjAt(globals: seq<GlobalRef>, i: nat)
    requires i < |globals|
    ensures Objs(globals)[i] == globals[i].obj
  {
    var n := |globals| - 1;
    if i < n { ObjAt(globals[..n], i); }
  }

  lemma ObjsAppend(globals: seq<GlobalRef>, g: GlobalRef)
    ensures Objs(globals + [g]) == Objs(globals) + [g.obj]
  {
    assert (globals + [g])[..|globals|] == globals;
  }

  /** Entry `i` leaves, the last entry takes its place. */
  function SwapRemove<T>(s: seq<T>, i: nat): seq<T>
    requires i < |s|
  {
    s[i := s[|s| - 1]][..|s| - 1]
  }

  lemma SwapRemoveObjs(globals: seq<GlobalRef>, i: nat)
    requires i < |globals|
    ensures Objs(SwapRemove(globals, i)) == SwapRemove(Objs(globals), i)
  {
    hide Objs;
    var a, b := Objs(SwapRemove(globals, i)), SwapRemove(Objs(globals), i);
    forall k: nat | k < |a| ensures a[k] == b[k] {
      ObjAt(SwapRemove(globals, i), k);
      ObjAt(globals, k);
      ObjAt(globals, |globals| - 1);
    }
  }

  lemma SwapRemoveParts(s: seq<Handle>, i: nat, x: Handle)
    requires i < |s|
    ensures multiset(s)[x] == multiset(SwapRemove(s, i))[x] + (if x == s[i] then 1 else 0)
  {
    var last := s[|s| - 1];
    assert s[i := last] == SwapRemove(s, i) + [last];
    assert multiset(SwapRemove(s, i) + [last])[x] == multiset(SwapRemove(s, i))[x] + (if x == last then 1 else 0);
    assert multiset(s[i := last])[x] + (if x == s[i] then 1 else 0) == multiset(s)[x] + (if x == last then 1 else 0);
  }

  ghost predicate GlobalsOk(globals: seq<GlobalRef>) {
    && |globals| <= MAX_GLOBAL_REFS
    && (forall i | 0 <= i < |globals| :: globals[i].obj != Null && 1 <= globals[i].count <= UINT32_MAX)
    && (forall i, j | 0 <= i < j < |globals| :: globals[i].obj != globals[j].obj)
  }

  lemma CountBounds(globals: seq<GlobalRef>, i: nat)
    requires GlobalsOk(globals) && i < |globals|
    ensures 1 <= globals[i].count <= UINT32_MAX && globals[i].obj != Null
  {
  }

  lemma GlobalsUpdate(globals: seq<GlobalRef>, i: nat, count: nat)
    requires GlobalsOk(globals) && i < |globals| && 1 <= count <= UINT32_MAX
    ensures GlobalsOk(globals[i := GlobalRef(globals[i].obj, count)])
    ensures Objs(globals[i := GlobalRef(globals[i].obj, count)]) == Objs(globals)
  {
    hide Objs;
    var g := globals[i := GlobalRef(globals[i].obj, count)];
    forall k: nat | k < |g| ensures Objs(g)[k] == Objs(globals)[k] {
      ObjAt(g, k);
      ObjAt(globals, k);
    }
  }

  lemma GlobalsAppend(globals: seq<GlobalRef>, obj: Handle)
    requires GlobalsOk(globals) && |globals| < MAX_GLOBAL_REFS && obj != Null && obj !in Objs(globals)
    ensures GlobalsOk(globals + [GlobalRef(obj, 1)])
  {
    hide Objs;
    forall k: nat | k < |globals| ensures globals[k].obj != obj { ObjAt(globals, k); }
  }

  lemma NullIsNoGlobal(globals: seq<GlobalRef>)
    requires GlobalsOk(globals)
    ensures Null !in Objs(globals)
  {
    hide Objs;
    forall k: nat | k < |globals| ensures Objs(globals)[k] != Null { ObjAt(globals, k); }
  }

  lemma GlobalsRemove(globals: seq<GlobalRef>, i: nat)
    requires GlobalsOk(globals) && i < |globals|
    ensures GlobalsOk(SwapRemove(globals, i))
  {
  }

  function Fill(n: nat, x: Handle): (r: seq<Handle>)
    ensures |r| == n && forall i | 0 <= i < n :: r[i] == x
  {
    seq(n, _ => x)
  }

  lemma FillUpdate(n: nat, i: nat, x: Handle, y: Handle)
    requires i < n
    ensures (Fill(i, x) + Fill(n - i, y))[i := x] == Fill(i + 1, x) + Fill(n - i - 1, y)
  {
  }

  // ---- what is given back ----

  /** `n` owners more of one object. */
  function Times(h: Heap, ref: Handle, n: nat): Heap
    requires Usable(h, ref)
  {
    if ref.Managed? then h[ref.id := Some(h[ref.id].value.(refs := h[ref.id].value.refs + n))] else h
  }

  /** Dropping the owners just added restores the heap. */
  lemma {:induction false} DropTimes(h: Heap, ref: Handle, n: nat, todo: seq<Handle>)
    requires Usable(h, ref) && (ref.Managed? ==> h[ref.id].value.refs > 0)
    requires |todo| >= n && (forall i | 0 <= i < n :: todo[i] == ref) && (forall i | n <= i < |todo| :: todo[i] == Null)
    ensures Drop(Times(h, ref, n), todo) == h
    decreases |todo|
  {
    hide SumRefs;
    if |todo| == 0 {
      assert Times(h, ref, 0) == h;
    } else if n == 0 {
      assert Times(h, ref, 0) == h;
      DropTimes(h, ref, 0, todo[1..]);
    } else if ref.Managed? {
      assert Loosened(Times(h, ref, n), ref.id) == Times(h, ref, n - 1);
      assert [] + todo[1..] == todo[1..];
      DropTimes(h, ref, n - 1, todo[1..]);
    } else {
      DropTimes(h, ref, n - 1, todo[1..]);
    }
  }

  lemma RetainDropped(h: Heap, ref: Handle)
    requires CanRetain(h, ref)
    ensures Drop(Retained(h, ref), [ref]) == h
  {
    assert Retained(h, ref) == Times(h, ref, 1);
    DropTimes(h, ref, 1, [ref]);
  }

  /** So does freeing an object that holds them, but for the place it leaves. */
  lemma MadeDropped(h: Heap, ref: Handle, n: nat, kind: Kind, kids: seq<Handle>)
    requires Usable(h, ref) && (ref.Managed? && n > 0 ==> h[ref.id].value.refs > 0)
    requires |kids| >= n && (forall i | 0 <= i < n :: kids[i] == ref) && (forall i | n <= i < |kids| :: kids[i] == Null)
    ensures Drop(Times(h, ref, n) + [Some(Obj(kind, 1, kids))], [Managed(|h|)]) == h + [None]
  {
    hide SumRefs;
    var g := Times(h, ref, n) + [Some(Obj(kind, 1, kids))];
    assert Loosened(g, |h|) == Times(h, ref, n) + [None];
    assert kids + [Managed(|h|)][1..] == kids;
    if n == 0 {
      assert Times(h, ref, 0) == h;
      NullsDropped(h + [None], kids);
    } else {
      assert Times(h, ref, n) + [None] == Times(h + [None], ref, n);
      DropTimes(h + [None], ref, n, kids);
    }
  }

  lemma NullsDropped(h: Heap, todo: seq<Handle>)
    requires forall i | 0 <= i < |todo| :: todo[i] == Null
    ensures Drop(h, todo) == h
  {
    DropTimes(h, Null, 0, todo);
  }

  // ---- local frames ----

  function WithoutAt<T>(s: seq<T>, i: nat): seq<T>
    requires i < |s|
  {
    s[..i] + s[i + 1..]
  }

  lemma WithoutAtParts(s: seq<Handle>, i: nat, x: Handle)
    requires i < |s|
    ensures multiset(s)[x] == multiset(WithoutAt(s, i))[x] + (if x == s[i] then 1 else 0)
  {
    assert s == s[..i] + [s[i]] + s[i + 1..];
  }

  /** `s` without the first `x` in it. */
  function RemoveFirst(s: seq<Handle>, x: Handle): seq<Handle> {
    if s == [] then [] else if s[0] == x then s[1..] else [s[0]] + RemoveFirst(s[1..], x)
  }

  lemma {:induction false} RemoveFirstParts(s: seq<Handle>, x: Handle, y: Handle)
    ensures multiset(s)[y] == multiset(RemoveFirst(s, x))[y] + (if x in s && y == x then 1 else 0)
    ensures x !in s ==> RemoveFirst(s, x) == s
  {
    if s != [] {
      assert s == [s[0]] + s[1..];
      if s[0] != x { RemoveFirstParts(s[1..], x, y); }
    }
  }

  lemma {:induction false} RemoveFirstGrows(s: seq<Handle>, r: Handle, x: Handle)
    ensures RemoveFirst(s + [r], x) == if x !in s && r == x then s else RemoveFirst(s, x) + [r]
  {
    if s == [] {
      assert s + [r] == [r];
      assert RemoveFirst([r], x) == if r == x then [] else [r];
    } else {
      assert (s + [r])[1..] == s[1..] + [r];
      if s[0] == x {
      } else {
        RemoveFirstGrows(s[1..], r, x);
        if x !in s && r == x {
          assert [s[0]] + s[1..] == s;
        }
      }
    }
  }

  /** The frame marks once slot `i` below some of them is gone. */
  function Shifted(frames: seq<nat>, i: nat): (r: seq<nat>)
    ensures |r| == |frames|
    ensures forall k | 0 <= k < |frames| :: r[k] == if frames[k] > i then frames[k] - 1 else frames[k]
  {
    seq(|frames|, k requires 0 <= k < |frames| => if frames[k] > i then frames[k] - 1 else frames[k])
  }

  /** Each frame keeps its locals, less the slot that is gone. */
  lemma ShiftedFrames(s: seq<Handle>, frames: seq<nat>, i: nat, k: nat)
    requires i < |s| && k < |frames| && frames[k] <= |s|
    ensures Shifted(frames, i)[k] <= |WithoutAt(s, i)|
    ensures WithoutAt(s, i)[..Shifted(frames, i)[k]] ==
              if i < frames[k] then WithoutAt(s[..frames[k]], i) else s[..frames[k]]
  {
  }

  ghost predicate FramesOk(frames: seq<nat>, top: nat) {
    && |frames| <= MAX_FRAMES
    && (forall i, j | 0 <= i <= j < |frames| :: frames[i] <= frames[j])
    && (forall i | 0 <= i < |frames| :: frames[i] <= top)
  }

  // ---- the accounts as the tables change ----

  /** Everything that owns references from outside the heap. */
  ghost function Roots(locals: seq<Handle>, globals: seq<GlobalRef>, pending: Handle, queue: seq<Handle>,
                       foreign: multiset<Handle>): multiset<Handle> {
    multiset(locals) + multiset(Objs(globals)) + multiset{pending} + multiset(queue) + foreign
  }

  /** The same with references the running call has in its hands. */
  ghost predicate Balanced(h: Heap, hand: seq<Handle>, locals: seq<Handle>, globals: seq<GlobalRef>, pending: Handle,
                           queue: seq<Handle>, foreign: multiset<Handle>) {
    Accounted(h, multiset(hand) + Roots(locals, globals, pending, queue, foreign))
  }

  lemma Drops(h: Heap, roots: multiset<Handle>, dropped: seq<Handle>, rest: multiset<Handle>)
    requires Accounted(h, roots)
    requires forall id: nat :: roots[Managed(id)] == multiset(dropped)[Managed(id)] + rest[Managed(id)]
    ensures Accounted(Drop(h, dropped), rest)
  {
    SameRoots(h, roots, rest + multiset(dropped));
    DropKeeps(h, dropped, rest);
  }

  lemma DropHand(h: Heap, hand: seq<Handle>, l: seq<Handle>, g: seq<GlobalRef>, p: Handle, q: seq<Handle>,
      f: multiset<Handle>)
    requires Balanced(h, hand, l, g, p, q, f)
    ensures Balanced(Drop(h, hand), [], l, g, p, q, f)
  {
    Drops(h, multiset(hand) + Roots(l, g, p, q, f), hand, multiset([]) + Roots(l, g, p, q, f));
  }

  lemma RetainToHand(h: Heap, ref: Handle, hand: seq<Handle>, l: seq<Handle>, g: seq<GlobalRef>, p: Handle,
      q: seq<Handle>, f: multiset<Handle>)
    requires Balanced(h, hand, l, g, p, q, f) && CanRetain(h, ref)
    ensures Balanced(Retained(h, ref), [ref] + hand, l, g, p, q, f)
  {
    var roots := Roots(l, g, p, q, f);
    RetainKeeps(h, multiset(hand) + roots, ref);
    SameRoots(Retained(h, ref), (multiset(hand) + roots) + multiset{ref}, multiset([ref] + hand) + roots);
  }

  lemma HandToLocal(h: Heap, ref: Handle, l: seq<Handle>, g: seq<GlobalRef>, p: Handle, q: seq<Handle>,
      f: multiset<Handle>)
    requires Balanced(h, [ref], l, g, p, q, f)
    ensures Balanced(h, [], l + [ref], g, p, q, f)
  {
    SameRoots(h, multiset([ref]) + Roots(l, g, p, q, f), multiset([]) + Roots(l + [ref], g, p, q, f));
  }

  lemma NullHand(h: Heap, l: seq<Handle>, g: seq<GlobalRef>, p: Handle, q: seq<Handle>, f: multiset<Handle>)
    requires Balanced(h, [Null], l, g, p, q, f)
    ensures Balanced(h, [], l, g, p, q, f)
  {
    SameRoots(h, multiset([Null]) + Roots(l, g, p, q, f), multiset([]) + Roots(l, g, p, q, f));
  }

  lemma LocalToHand(h: Heap, i: nat, l: seq<Handle>, g: seq<GlobalRef>, p: Handle, q: seq<Handle>, f: multiset<Handle>)
    requires Balanced(h, [], l, g, p, q, f) && i < |l|
    ensures Balanced(h, [l[i]], WithoutAt(l, i), g, p, q, f)
  {
    forall id: nat ensures multiset(l)[Managed(id)]
        == multiset(WithoutAt(l, i))[Managed(id)] + multiset([l[i]])[Managed(id)] {
      WithoutAtParts(l, i, Managed(id));
    }
    SameRoots(h, multiset([]) + Roots(l, g, p, q, f), multiset([l[i]]) + Roots(WithoutAt(l, i), g, p, q, f));
  }

  lemma HandToGlobal(h: Heap, ref: Handle, l: seq<Handle>, g: seq<GlobalRef>, p: Handle, q: seq<Handle>,
      f: multiset<Handle>)
    requires Balanced(h, [ref], l, g, p, q, f)
    ensures Balanced(h, [], l, g + [GlobalRef(ref, 1)], p, q, f)
  {
    ObjsAppend(g, GlobalRef(ref, 1));
    SameRoots(h, multiset([ref]) + Roots(l, g, p, q, f), multiset([]) + Roots(l, g + [GlobalRef(ref, 1)], p, q, f));
  }

  lemma SameObjs(h: Heap, hand: seq<Handle>, l: seq<Handle>, g: seq<GlobalRef>, k: seq<GlobalRef>, p: Handle,
      q: seq<Handle>, f: multiset<Handle>)
    requires Balanced(h, hand, l, g, p, q, f) && Objs(k) == Objs(g)
    ensures Balanced(h, hand, l, k, p, q, f)
  {
  }

  lemma GlobalToHand(h: Heap, i: nat, l: seq<Handle>, g: seq<GlobalRef>, p: Handle, q: seq<Handle>, f: multiset<Handle>)
    requires Balanced(h, [], l, g, p, q, f) && i < |g|
    ensures Balanced(h, [g[i].obj], l, SwapRemove(g, i), p, q, f)
  {
    hide Accounted, Objs;
    var objs, kept := Objs(g), Objs(SwapRemove(g, i));
    ObjAt(g, i);
    SwapRemoveObjs(g, i);
    forall id: nat ensures multiset(objs)[Managed(id)]
        == multiset(kept)[Managed(id)] + multiset([objs[i]])[Managed(id)] {
      SwapRemoveParts(objs, i, Managed(id));
    }
    SameRoots(h, multiset([]) + Roots(l, g, p, q, f), multiset([objs[i]]) + Roots(l, SwapRemove(g, i), p, q, f));
  }

  /** Popping a frame: its slots go, but the first one holding the result is
      kept in hand. */
  lemma FrameToHand(h: Heap, mark: nat, result: Handle, l: seq<Handle>, g: seq<GlobalRef>, p: Handle, q: seq<Handle>,
      f: multiset<Handle>)
    requires Balanced(h, [], l, g, p, q, f) && mark <= |l|
    ensures Balanced(Drop(h, RemoveFirst(l[mark..], result)),
                     if result in l[mark..] then [result] else [], l[..mark], g, p, q, f)
  {
    hide Accounted, Objs, Drop;
    var dropped := RemoveFirst(l[mark..], result);
    var hand := if result in l[mark..] then [result] else [];
    assert l == l[..mark] + l[mark..];
    forall id: nat
      ensures multiset(l)[Managed(id)]
          == multiset(dropped)[Managed(id)] + multiset(hand)[Managed(id)] + multiset(l[..mark])[Managed(id)]
    {
      RemoveFirstParts(l[mark..], result, Managed(id));
      assert multiset(l)[Managed(id)] == multiset(l[..mark])[Managed(id)] + multiset(l[mark..])[Managed(id)];
    }
    Drops(h, multiset([]) + Roots(l, g, p, q, f), dropped, multiset(hand) + Roots(l[..mark], g, p, q, f));
  }

  lemma AllLocalsDrop(h: Heap, l: seq<Handle>, g: seq<GlobalRef>, p: Handle, q: seq<Handle>, f: multiset<Handle>)
    requires Balanced(h, [], l, g, p, q, f)
    ensures Balanced(Drop(h, l), [], [], g, p, q, f)
  {
    Drops(h, multiset([]) + Roots(l, g, p, q, f), l, multiset([]) + Roots([], g, p, q, f));
  }

  /** A new object takes over the references in hand, and is in hand itself. */
  lemma HandToObject(h: Heap, kind: Kind, kids: seq<Handle>, l: seq<Handle>, g: seq<GlobalRef>, p: Handle,
      q: seq<Handle>, f: multiset<Handle>)
    requires Balanced(h, kids, l, g, p, q, f)
    ensures Balanced(h + [Some(Obj(kind, 1, kids))], [Managed(|h|)], l, g, p, q, f)
  {
    hide Accounted, Objs;
    var roots := Roots(l, g, p, q, f);
    SameRoots(h, multiset(kids) + roots, roots + multiset(kids));
    AllocKeeps(h, roots, Obj(kind, 1, kids));
    SameRoots(h + [Some(Obj(kind, 1, kids))], roots + multiset{Managed(|h|)}, multiset([Managed(|h|)]) + roots);
  }

  lemma NullsInHand(h: Heap, n: nat, l: seq<Handle>, g: seq<GlobalRef>, p: Handle, q: seq<Handle>, f: multiset<Handle>)
    requires Balanced(h, [], l, g, p, q, f)
    ensures Balanced(h, Fill(n, Null), l, g, p, q, f)
  {
    hide Accounted, Objs;
    var nulls := Fill(n, Null);
    forall id: nat ensures multiset(nulls)[Managed(id)] == 0 {
      assert Managed(id) !in nulls;
    }
    SameRoots(h, multiset([]) + Roots(l, g, p, q, f), multiset(nulls) + Roots(l, g, p, q, f));
  }

  /** The reference in hand changes places with one held by an object. */
  lemma HandToKid(h: Heap, id: nat, k: nat, val: Handle, hand: seq<Handle>, l: seq<Handle>, g: seq<GlobalRef>,
      p: Handle, q: seq<Handle>, f: multiset<Handle>)
    requires Balanced(h, [val] + hand, l, g, p, q, f) && Live(h, id) && k < |h[id].value.kids|
    ensures Balanced(WithKid(h, id, k, val), [h[id].value.kids[k]] + hand, l, g, p, q, f)
  {
    hide Accounted, Objs, WithKid;
    var roots := multiset(hand) + Roots(l, g, p, q, f);
    var previous := h[id].value.kids[k];
    SameRoots(h, multiset([val] + hand) + Roots(l, g, p, q, f), roots + multiset{val});
    WithKidKeeps(h, roots, id, k, val);
    SameRoots(WithKid(h, id, k, val), roots + multiset{previous}, multiset([previous] + hand) + Roots(l, g, p, q, f));
  }

  lemma NullFromHand(h: Heap, hand: seq<Handle>, l: seq<Handle>, g: seq<GlobalRef>, p: Handle, q: seq<Handle>,
      f: multiset<Handle>)
    requires Balanced(h, [Null] + hand, l, g, p, q, f)
    ensures Balanced(h, hand, l, g, p, q, f)
  {
    SameRoots(h, multiset([Null] + hand) + Roots(l, g, p, q, f), multiset(hand) + Roots(l, g, p, q, f));
  }

  lemma HandToQueue(h: Heap, ref: Handle, l: seq<Handle>, g: seq<GlobalRef>, p: Handle, q: seq<Handle>,
      f: multiset<Handle>)
    requires Balanced(h, [ref], l, g, p, q, f)
    ensures Balanced(h, [], l, g, p, q + [ref], f)
  {
    SameRoots(h, multiset([ref]) + Roots(l, g, p, q, f), multiset([]) + Roots(l, g, p, q + [ref], f));
  }

  lemma QueueToForeign(h: Heap, l: seq<Handle>, g: seq<GlobalRef>, p: Handle, q: seq<Handle>, f: multiset<Handle>)
    requires Balanced(h, [], l, g, p, q, f) && q != []
    ensures Balanced(h, [], l, g, p, q[1..], f + multiset{q[0]})
  {
    assert q == [q[0]] + q[1..];
    SameRoots(h, multiset([]) + Roots(l, g, p, q, f), multiset([]) + Roots(l, g, p, q[1..], f + multiset{q[0]}));
  }

  lemma ForeignToHand(h: Heap, ref: Handle, l: seq<Handle>, g: seq<GlobalRef>, p: Handle, q: seq<Handle>,
      f: multiset<Handle>)
    requires Balanced(h, [], l, g, p, q, f) && ref in f
    ensures Balanced(h, [ref], l, g, p, q, f - multiset{ref})
  {
    SameRoots(h, multiset([]) + Roots(l, g, p, q, f), multiset([ref]) + Roots(l, g, p, q, f - multiset{ref}));
  }

  lemma HandToPending(h: Heap, ref: Handle, l: seq<Handle>, g: seq<GlobalRef>, p: Handle, q: seq<Handle>,
      f: multiset<Handle>)
    requires Balanced(h, [ref], l, g, p, q, f)
    ensures Balanced(h, [p], l, g, ref, q, f)
  {
    SameRoots(h, multiset([ref]) + Roots(l, g, p, q, f), multiset([p]) + Roots(l, g, ref, q, f));
  }

  lemma RootUsable(h: Heap, ref: Handle, hand: seq<Handle>, l: seq<Handle>, g: seq<GlobalRef>, p: Handle,
      q: seq<Handle>, f: multiset<Handle>)
    requires Balanced(h, hand, l, g, p, q, f) && ref in Roots(l, g, p, q, f)
    ensures Usable(h, ref)
  {
    RootIsLive(h, multiset(hand) + Roots(l, g, p, q, f), ref);
  }

  /** A root outside the popped frame is still a root afterwards. */
  lemma StaysRoot(ref: Handle, l: seq<Handle>, mark: nat, g: seq<GlobalRef>, p: Handle, q: seq<Handle>,
      f: multiset<Handle>)
    requires mark <= |l| && ref in Roots(l, g, p, q, f) && ref !in l[mark..]
    ensures ref in Roots(l[..mark], g, p, q, f)
  {
    assert l == l[..mark] + l[mark..];
    assert multiset(l)[ref] == multiset(l[..mark])[ref] + multiset(l[mark..])[ref];
    assert ref !in multiset(l[mark..]);
  }

  lemma KidUsable(h: Heap, id: nat, k: nat, l: seq<Handle>, g: seq<GlobalRef>, p: Handle, q: seq<Handle>,
      f: multiset<Handle>)
    requires Balanced(h, [], l, g, p, q, f) && Live(h, id) && k < |h[id].value.kids|
    ensures Usable(h, h[id].value.kids[k])
  {
    KidIsLive(h, multiset([]) + Roots(l, g, p, q, f), id, k);
  }

  /** The heap while an array of `n` references to `init` is made behind `before`:
      `i` of them are in, each counted, and nothing else changed. */
  ghost predicate Filled(before: Heap, now: Heap, init: Handle, i: int, n: int) {
    && 0 <= i <= n && |now| == |before| + 1 && Usable(before, init)
    && now[|before|] == Some(Obj(ObjectArray, 1, Fill(i, init) + Fill(n - i, Null)))
    && forall id: nat | id < |before| ::
         now[id] ==
            if init == Managed(id) && before[id].Some? then Some(before[id].value.(refs := before[id].value.refs + i))
            else before[id]
  }

  lemma FilledNone(before: Heap, init: Handle, n: nat)
    requires Usable(before, init)
    ensures Filled(before, before + [Some(Obj(ObjectArray, 1, Fill(n, Null)))], init, 0, n)
  {
    assert Fill(0, init) + Fill(n, Null) == Fill(n, Null);
  }

  /** Can `n` owners be added, one after the other? */
  ghost predicate CanRetainTimes(h: Heap, ref: Handle, n: int)
    requires Usable(h, ref)
  {
    n <= 0 || !ref.Managed? || (0 < h[ref.id].value.refs && h[ref.id].value.refs + n <= RETAIN_LIMIT)
  }

  /** Freeing the unfinished array gives back every owner it had. */
  lemma FilledDropped(before: Heap, now: Heap, init: Handle, i: nat, n: nat)
    requires Filled(before, now, init, i, n) && CanRetainTimes(before, init, i)
    ensures Drop(now, [Managed(|before|)]) == before + [None]
  {
    hide Drop;
    var kids := Fill(i, init) + Fill(n - i, Null);
    assert now == Times(before, init, i) + [Some(Obj(ObjectArray, 1, kids))];
    MadeDropped(before, init, i, ObjectArray, kids);
  }

  lemma NothingHeld(h: Heap, kind: Kind, kids: seq<Handle>)
    requires kids == []
    ensures Drop(h + [Some(Obj(kind, 1, kids))], [Managed(|h|)]) == h + [None]
  {
    assert Times(h, Null, 0) == h;
    MadeDropped(h, Null, 0, kind, kids);
  }

  lemma FilledCanRetain(before: Heap, now: Heap, init: Handle, i: nat, n: nat)
    requires Filled(before, now, init, i, n) && i < n && CanRetainTimes(before, init, i)
    ensures Usable(now, init) && (CanRetain(now, init) <==> CanRetainTimes(before, init, i + 1))
    ensures !CanRetain(now, init) ==> !CanRetainTimes(before, init, n)
  {
  }

  lemma FilledMore(before: Heap, now: Heap, init: Handle, i: nat, n: nat)
    requires Filled(before, now, init, i, n) && i < n
    ensures Usable(now, init) && init != Managed(|before|)
    ensures Live(now, |before|) && i < |now[|before|].value.kids| && now[|before|].value.kids[i] == Null
    ensures CanRetain(now, init) ==> Filled(before, WithKid(Retained(now, init), |before|, i, init), init, i + 1, n)
  {
    FillUpdate(n, i, init, Null);
  }

  /** One thread's JNI state over the shared heap. `foreign` stands for the
      references other threads own, `hand` for those the running call holds. */
  class JniEnv {
    var heap: Heap
    var locals: seq<Handle>
    var capacity: nat
    var frames: seq<nat>
    var globals: seq<GlobalRef>
    var pending: Handle
    var queue: seq<Handle>              // messages waiting for the handler thread
    ghost var foreign: multiset<Handle>

    ghost predicate Tables()
      reads this
    {
      && |locals| <= capacity <= MAX_LOCALS && Null !in locals
      && FramesOk(frames, |locals|)
      && GlobalsOk(globals)
    }

    /** Every count equals the object's owners, the references `hand` that the
        running call holds among them. */
    ghost predicate Holding(hand: seq<Handle>)
      reads this
    {
      Tables() && Balanced(heap, hand, locals, globals, pending, queue, foreign)
    }

    ghost predicate Valid()
      reads this
    {
      Holding([])
    }

    /** Room for one more local, when the table holds `top`. */
    predicate HasRoom(top: nat, memory: bool)
      reads this
    {
      top < capacity || (memory && top < MAX_LOCALS)
    }

    constructor ()
      ensures Valid() && locals == [] && frames == [] && globals == [] && queue == [] && pending == Null && heap == []
    {
      heap, locals, capacity, frames, globals, pending, queue := [], [], 0, [], [], Null, [];
      foreign := multiset{};
    }

    /** Adds an owner, unless the count is at its limit. */
    method RetainRef(ref: Handle) returns (ok: bool)
      requires Usable(heap, ref)
      modifies this`heap
      ensures ok == CanRetain(old(heap), ref)
      ensures heap == if ok then Retained(old(heap), ref) else old(heap)
    {
      if !ref.Managed? { return true; }
      var o := heap[ref.id].value;
      if 0 < o.refs < RETAIN_LIMIT {
        heap := heap[ref.id := Some(o.(refs := o.refs + 1))];
        return true;
      }
      return false;
    }

    /** Drops an owner; the last one frees the object and, one after the other,
        drops the references it held. */
    method FreeRef(ref: Handle)
      modifies this`heap
      ensures heap == Drop(old(heap), [ref])
      ensures SumRefs(heap) <= SumRefs(old(heap))
      decreases SumRefs(heap)
    {
      DropOnlyFrees(heap, [ref]);
      if ref.Managed? && ref.id < |heap| && heap[ref.id].Some? && heap[ref.id].value.refs > 0 {
        var o := heap[ref.id].value;
        ghost var g := Loosened(heap, ref.id);
        assert [ref][1..] == [];
        if o.refs > 1 {
          heap := heap[ref.id := Some(o.(refs := o.refs - 1))];
          assert Drop(g, [] + []) == g;
        } else {
          heap := heap[ref.id := None];
          assert o.kids + [] == o.kids;
          for i := 0 to |o.kids|
            invariant heap == Drop(g, o.kids[..i]) && SumRefs(heap) <= SumRefs(g)
          {
            FreeRef(o.kids[i]);
            DropConcat(g, o.kids[..i], [o.kids[i]]);
            assert o.kids[..i + 1] == o.kids[..i] + [o.kids[i]];
          }
          assert o.kids[..|o.kids|] == o.kids;
        }
      }
    }

    /** Gives the owner in hand to the local table; without room it is dropped
        and the result is null. `memory` is whether the table could grow. */
    method RegLocal(ref: Handle, memory: bool) returns (r: Handle)
      requires Holding([ref])
      modifies this`heap, this`locals, this`capacity
      ensures Valid() && capacity >= old(capacity) && (r == ref || r == Null)
      ensures r == ref <==> ref == Null || old(HasRoom(|locals|, memory))
      ensures r == ref && ref != Null ==> locals == old(locals) + [ref] && heap == old(heap)
      ensures r != ref || ref == Null ==> locals == old(locals)
      ensures r != ref ==> heap == Drop(old(heap), [ref])
      ensures ref == Null ==> heap == old(heap)
    {
      hide Balanced, Drop, GlobalsOk;
      if ref == Null {
        NullHand(heap, locals, globals, pending, queue, foreign);
        return Null;
      }
      if |locals| == capacity && capacity < MAX_LOCALS && memory {
        var next := if capacity > 0 then capacity * 2 else 256;
        capacity := if next > MAX_LOCALS then MAX_LOCALS else next;
      }
      if |locals| < capacity {
        HandToLocal(heap, ref, locals, globals, pending, queue, foreign);
        locals := locals + [ref];
        return ref;
      }
      DropHand(heap, [ref], locals, globals, pending, queue, foreign);
      FreeRef(ref);
      return Null;
    }

    /** Drops the newest local slot holding `ref`, and moves later slots and
        the frame marks above it down. */
    method DeleteLocal(ref: Handle) returns (ghost at: Option<nat>)
      requires Valid()
      modifies this`heap, this`locals, this`frames
      ensures Valid()
      ensures at.None? <==> ref !in old(locals)
      ensures at.None? ==> heap == old(heap) && locals == old(locals) && frames == old(frames)
      ensures at.Some? ==>
          at.value < |old(locals)| && old(locals)[at.value] == ref && ref !in old(locals)[at.value + 1..]
      ensures at.Some? ==> locals == old(locals)[..at.value] + old(locals)[at.value + 1..]
      ensures at.Some? ==> |frames| == |old(frames)| && forall k | 0 <= k < |frames| ::
                frames[k] == if old(frames)[k] > at.value then old(frames)[k] - 1 else old(frames)[k]
      ensures at.Some? ==> heap == Drop(old(heap), [ref])
    {
      hide Balanced, Drop, GlobalsOk;
      if ref == Null { return None; }
      var i := |locals|;
      while i > 0 && locals[i - 1] != ref
        invariant 0 <= i <= |locals| && ref !in locals[i..]
      {
        i := i - 1;
        assert locals[i..] == [locals[i]] + locals[i + 1..];
      }
      if i == 0 { return None; }
      i := i - 1;
      at := Some(i);
      LocalToHand(heap, i, locals, globals, pending, queue, foreign);
      locals := locals[..i] + locals[i + 1..];
      DropHand(heap, [ref], locals, globals, pending, queue, foreign);
      ShiftFrames(i);
      FreeRef(ref);
    }

    method ShiftFrames(i: nat)
      modifies this`frames
      ensures frames == Shifted(old(frames), i)
    {
      var frame := 0;
      while frame < |frames|
        invariant 0 <= frame <= |frames| == |old(frames)|
        invariant forall k | 0 <= k < |frames| ::
            frames[k] == if k < frame then Shifted(old(frames), i)[k] else old(frames)[k]
      {
        if frames[frame] > i { frames := frames[frame := frames[frame] - 1]; }
        frame := frame + 1;
      }
    }

    method NewLocalRef(obj: Handle, memory: bool) returns (r: Handle)
      requires Valid() && Usable(heap, obj)
      modifies this`heap, this`locals, this`capacity
      ensures Valid() && (r == obj || r == Null)
      ensures r != Null <==> obj != Null && CanRetain(old(heap), obj) && old(HasRoom(|locals|, memory))
      ensures r != Null ==> locals == old(locals) + [obj] && heap == Retained(old(heap), obj)
      ensures r == Null ==> locals == old(locals)
      ensures r == Null ==> heap == old(heap)
    {
      hide Balanced, Drop, GlobalsOk;
      if obj == Null { return Null; }
      var ok := RetainRef(obj);
      if !ok { return Null; }
      RetainToHand(old(heap), obj, [], locals, globals, pending, queue, foreign);
      assert [obj] + [] == [obj];
      RetainDropped(old(heap), obj);
      r := RegLocal(obj, memory);
    }

    /** A global reference: an alias of the object's entry, or a new entry,
        which alone owns the object. */
    method NewGlobalRef(obj: Handle) returns (r: Handle, ghost at: nat)
      requires Valid() && Usable(heap, obj)
      modifies this`heap, this`globals
      ensures Valid() && (r == obj || r == Null)
      ensures r == Null ==> heap == old(heap) && globals == old(globals)
      ensures obj != Null && obj in Objs(old(globals)) ==> at < |old(globals)| && old(globals)[at].obj == obj
      ensures r != Null <==>
                obj != Null && (if obj in Objs(old(globals)) then old(globals)[at].count < UINT32_MAX
                                else |old(globals)| < MAX_GLOBAL_REFS && CanRetain(old(heap), obj))
      ensures r != Null && obj in Objs(old(globals)) ==>
                && heap == old(heap)
                && globals == old(globals)[at := GlobalRef(obj, old(globals)[at].count + 1)]
      ensures r != Null && obj !in Objs(old(globals)) ==>
                && CanRetain(old(heap), obj) && heap == Retained(old(heap), obj)
                && globals == old(globals) + [GlobalRef(obj, 1)]
    {
      hide Balanced, Objs, GlobalsOk, FramesOk;
      at := 0;
      if obj == Null { return Null, 0; }
      var i := FindGlobal(obj);
      if i < |globals| {
        at := i;
        if globals[i].count == UINT32_MAX { return Null, i; }
        CountBounds(globals, i);
        GlobalsUpdate(globals, i, globals[i].count + 1);
        SameObjs(heap, [], locals, globals, globals[i := GlobalRef(obj, globals[i].count + 1)], pending, queue,
            foreign);
        globals := globals[i := GlobalRef(obj, globals[i].count + 1)];
        return obj, i;
      }
      if |globals| >= MAX_GLOBAL_REFS { return Null, 0; }
      var ok := RetainRef(obj);
      if !ok { return Null, 0; }
      RetainToHand(old(heap), obj, [], locals, globals, pending, queue, foreign);
      assert [obj] + [] == [obj];
      HandToGlobal(heap, obj, locals, globals, pending, queue, foreign);
      GlobalsAppend(globals, obj);
      globals := globals + [GlobalRef(obj, 1)];
      return obj, 0;
    }

    method FindGlobal(obj: Handle) returns (i: nat)
      ensures i <= |globals| && (i < |globals| ==> globals[i].obj == obj && obj in Objs(globals))
      ensures i == |globals| ==> obj !in Objs(globals)
    {
      hide Objs;
      i := 0;
      while i < |globals| && globals[i].obj != obj
        invariant i <= |globals| && forall k | 0 <= k < i :: Objs(globals)[k] != obj
      {
        ObjAt(globals, i);
        i := i + 1;
      }
      if i < |globals| { ObjAt(globals, i); }
    }

    /** Drops an alias; the last one gives up the entry's owner. */
    method DeleteGlobalRef(obj: Handle) returns (ghost at: nat)
      requires Valid()
      modifies this`heap, this`globals
      ensures Valid()
      ensures obj !in Objs(old(globals)) ==> heap == old(heap) && globals == old(globals)
      ensures obj in Objs(old(globals)) ==> at < |old(globals)| && old(globals)[at].obj == obj
      ensures obj in Objs(old(globals)) && old(globals)[at].count > 1 ==>
                heap == old(heap) && globals == old(globals)[at := GlobalRef(obj, old(globals)[at].count - 1)]
      ensures obj in Objs(old(globals)) && old(globals)[at].count == 1 ==>
                heap == Drop(old(heap), [obj]) && globals == SwapRemove(old(globals), at)
    {
      hide Balanced, Objs, Drop, GlobalsOk, FramesOk, SwapRemove;
      at := 0;
      NullIsNoGlobal(globals);
      if obj == Null { return; }
      var i := FindGlobal(obj);
      if i < |globals| {
        at := i;
        CountBounds(globals, i);
        if globals[i].count > 1 {
          GlobalsUpdate(globals, i, globals[i].count - 1);
          SameObjs(heap, [], locals, globals, globals[i := GlobalRef(obj, globals[i].count - 1)], pending, queue,
              foreign);
          globals := globals[i := GlobalRef(obj, globals[i].count - 1)];
        } else {
          GlobalToHand(heap, i, locals, globals, pending, queue, foreign);
          DropHand(heap, [obj], locals, SwapRemove(globals, i), pending, queue, foreign);
          GlobalsRemove(globals, i);
          globals := SwapRemove(globals, i);
          FreeRef(obj);
        }
      }
    }

    method PushLocalFrame(cap: int, memory: bool) returns (ok: bool)
      requires Valid()
      modifies this`frames, this`capacity
      ensures Valid() && capacity >= old(capacity)
      ensures ok ==>
          0 <= cap <= MAX_LOCALS - |locals| && frames == old(frames) + [|locals|] && |locals| + cap <= capacity
      ensures !ok ==> frames == old(frames) && capacity == old(capacity)
      ensures ok <==>
                && 0 <= cap <= MAX_LOCALS - |locals| && |old(frames)| < MAX_FRAMES
                && (memory || |locals| + cap <= old(capacity))
    {
      hide Balanced, GlobalsOk;
      if cap < 0 || |frames| >= MAX_FRAMES || cap > MAX_LOCALS - |locals| { return false; }
      if |locals| + cap > capacity {
        var next := if capacity > 0 then capacity else 256;
        while next < |locals| + cap && next < MAX_LOCALS
          invariant next >= capacity && next > 0
          decreases MAX_LOCALS - next
        {
          next := next * 2;
        }
        if next > MAX_LOCALS { next := MAX_LOCALS; }
        if !memory { return false; }
        capacity := next;
      }
      frames := frames + [|locals|];
      return true;
    }

    /** Drops the references of the newest frame, except the first one to
        `result`, which moves to the frame below; a result the frame does not
        hold gets a new local there. */
    method PopLocalFrame(result: Handle, memory: bool) returns (r: Handle)
      requires Valid()
      requires result in Roots(locals, globals, pending, queue, foreign) || !result.Managed?
      modifies this`heap, this`locals, this`capacity, this`frames
      ensures Valid()
      ensures old(frames) == [] ==> r == Null && heap == old(heap) && locals == old(locals) && frames == []
      ensures old(frames) != [] ==> frames == old(frames)[..|old(frames)| - 1]
      ensures old(frames) != [] ==>
                var mark := old(frames)[|old(frames)| - 1];
                var dropped := Drop(old(heap), RemoveFirst(old(locals)[mark..], result));
                if result != Null && result in old(locals)[mark..] then
                  r == result && locals == old(locals)[..mark] + [result] && heap == dropped
                else if r != Null then
                  r == result && locals == old(locals)[..mark] + [result] && CanRetain(dropped, result)
                      && heap == Retained(dropped, result)
                else
                  && locals == old(locals)[..mark]
                  && (result == Null || !CanRetain(dropped, result) || !old(HasRoom(mark, memory)))
                  && heap == dropped
    {
      hide Balanced, Drop, GlobalsOk, RemoveFirst, Roots, Retained, CanRetain;
      if |frames| <= 0 { return Null; }
      var mark := frames[|frames| - 1];
      frames := frames[..|frames| - 1];
      ghost var frame, l := locals[mark..], locals;
      FrameToHand(heap, mark, result, locals, globals, pending, queue, foreign);
      var transferred := DropFrame(mark, result);
      locals := locals[..mark];
      if result == Null {
        assert Null !in frame;
        return Null;
      }
      if transferred {
        r := RegLocal(result, memory);
      } else {
        if result.Managed? {
          StaysRoot(result, l, mark, globals, pending, queue, foreign);
          RootUsable(heap, result, [], locals, globals, pending, queue, foreign);
        }
        r := NewLocalRef(result, memory);
      }
    }

    method DropFrame(mark: nat, result: Handle) returns (transferred: bool)
      requires mark <= |locals|
      modifies this`heap
      ensures transferred == (result in locals[mark..])
      ensures heap == Drop(old(heap), RemoveFirst(locals[mark..], result))
    {
      hide Drop, SumRefs, RemoveFirst, Retained;
      transferred := false;
      ghost var h := heap;
      DropNothing(h);
      RemoveFirstParts([], result, result);
      assert locals[mark..mark] == [];
      for i := mark to |locals|
        invariant transferred == (result in locals[mark..i])
        invariant heap == Drop(h, RemoveFirst(locals[mark..i], result))
      {
        RemoveFirstGrows(locals[mark..i], locals[i], result);
        assert locals[mark..i + 1] == locals[mark..i] + [locals[i]];
        if locals[i] == result && !transferred {
          RemoveFirstParts(locals[mark..i], result, result);
          transferred := true;
        } else {
          DropConcat(h, RemoveFirst(locals[mark..i], result), [locals[i]]);
          FreeRef(locals[i]);
        }
      }
      assert locals[mark..|locals|] == locals[mark..];
    }

    // ---- objects ----

    /** Plain storage for a new object; `allocates` is whether there was memory. */
    method AllocObject(allocates: bool, memory: bool) returns (r: Handle)
      requires Valid()
      modifies this`heap, this`locals, this`capacity
      ensures Valid() && r in {Null, Managed(|old(heap)|)}
      ensures r != Null <==> allocates && old(HasRoom(|locals|, memory))
      ensures locals == if r != Null then old(locals) + [r] else old(locals)
      ensures heap == if r != Null then old(heap) + [Some(Obj(Plain, 1, []))]
                      else if allocates then old(heap) + [None] else old(heap)
    {
      hide Balanced, Drop, GlobalsOk;
      if !allocates { return Null; }
      HandToObject(heap, Plain, [], locals, globals, pending, queue, foreign);
      NothingHeld(heap, Plain, []);
      var ref := Managed(|heap|);
      heap := heap + [Some(Obj(Plain, 1, []))];
      r := RegLocal(ref, memory);
    }

    /** A handler with its callback, or a message with its target. */
    method MakeHolder(kind: Kind, held: Handle, allocates: bool, memory: bool) returns (r: Handle)
      requires Valid() && Usable(heap, held) && kind in {Handler, Message}
      modifies this`heap, this`locals, this`capacity
      ensures Valid() && r in {Null, Managed(|old(heap)|)}
      ensures r != Null <==> allocates && CanRetain(old(heap), held) && old(HasRoom(|locals|, memory))
      ensures locals == if r != Null then old(locals) + [r] else old(locals)
      ensures if !allocates || !CanRetain(old(heap), held) then heap == old(heap)
              else
                heap == if r != Null then Retained(old(heap), held) + [Some(Obj(kind, 1, [held]))]
                    else old(heap) + [None]
    {
      hide Balanced, Drop, GlobalsOk;
      if !allocates { return Null; }
      var ok := RetainRef(held);
      if !ok { return Null; }
      RetainToHand(old(heap), held, [], locals, globals, pending, queue, foreign);
      assert [held] + [] == [held];
      assert Retained(old(heap), held) == Times(old(heap), held, 1);
      MadeDropped(old(heap), held, 1, kind, [held]);
      HandToObject(heap, kind, [held], locals, globals, pending, queue, foreign);
      var ref := Managed(|heap|);
      heap := heap + [Some(Obj(kind, 1, [held]))];
      r := RegLocal(ref, memory);
    }

    /** Retains `init` into an empty place of an array that is being made. */
    method RetainInto(id: nat, i: nat, init: Handle) returns (ok: bool)
      requires Holding([Managed(id)]) && Usable(heap, init) && init != Managed(id)
      requires Live(heap, id) && i < |heap[id].value.kids| && heap[id].value.kids[i] == Null
      modifies this`heap
      ensures Holding([Managed(id)]) && Usable(heap, init)
      ensures ok == CanRetain(old(heap), init)
      ensures heap == if ok then WithKid(Retained(old(heap), init), id, i, init) else old(heap)
    {
      hide Balanced, Drop, GlobalsOk, FramesOk;
      ghost var h := heap;
      ok := RetainRef(init);
      if !ok { return; }
      RetainToHand(h, init, [Managed(id)], locals, globals, pending, queue, foreign);
      HandToKid(heap, id, i, init, [Managed(id)], locals, globals, pending, queue, foreign);
      heap := WithKid(heap, id, i, init);
      NullFromHand(heap, [Managed(id)], locals, globals, pending, queue, foreign);
    }

    /** An array of `len` references to `init`: as many owners more, or none. */
    method NewObjectArray(len: int, init: Handle, allocates: bool, memory: bool) returns (r: Handle)
      requires Valid() && Usable(heap, init)
      modifies this`heap, this`locals, this`capacity
      ensures Valid() && r in {Null, Managed(|old(heap)|)}
      ensures r == Null ==> heap == if len < 0 || !allocates then old(heap) else old(heap) + [None]
      ensures r != Null <==>
                && len >= 0 && allocates && CanRetainTimes(old(heap), init, len)
                && old(HasRoom(|locals|, memory))
      ensures r != Null ==> locals == old(locals) + [r] && Filled(old(heap), heap, init, len, len)
      ensures r == Null ==> locals == old(locals)
    {
      hide Balanced, Drop, GlobalsOk, FramesOk, Filled;
      if len < 0 || !allocates { return Null; }
      var n: nat := len;
      var ref := Managed(|heap|);
      NullsInHand(heap, n, locals, globals, pending, queue, foreign);
      HandToObject(heap, ObjectArray, Fill(n, Null), locals, globals, pending, queue, foreign);
      FilledNone(heap, init, n);
      heap := heap + [Some(Obj(ObjectArray, 1, Fill(n, Null)))];
      for i := 0 to n
        invariant Holding([ref]) && Filled(old(heap), heap, init, i, n) && locals == old(locals)
        invariant capacity == old(capacity)
        invariant CanRetainTimes(old(heap), init, i)
      {
        FilledMore(old(heap), heap, init, i, n);
        FilledCanRetain(old(heap), heap, init, i, n);
        FilledDropped(old(heap), heap, init, i, n);
        var ok := RetainInto(ref.id, i, init);
        if !ok {
          DropHand(heap, [ref], locals, globals, pending, queue, foreign);
          FreeRef(ref);
          return Null;
        }
      }
      FilledDropped(old(heap), heap, init, n, n);
      r := RegLocal(ref, memory);
    }

    /** An element, as a new local reference. */
    method GetObjectArrayElement(obj: Handle, i: int, memory: bool) returns (r: Handle)
      requires Valid() && Usable(heap, obj)
      modifies this`heap, this`locals, this`capacity
      ensures Valid()
      ensures r != Null ==>
          obj.Managed? && old(heap)[obj.id].value.kind == ObjectArray && 0 <= i < |old(heap)[obj.id].value.kids|
      ensures r != Null ==> r == old(heap)[obj.id].value.kids[i] && CanRetain(old(heap), r)
      ensures r != Null ==> heap == Retained(old(heap), r) && locals == old(locals) + [r]
      ensures r == Null ==> locals == old(locals) && heap == old(heap)
      ensures r == Null ==>
                !obj.Managed? || old(heap)[obj.id].value.kind != ObjectArray || i < 0
                    || i >= |old(heap)[obj.id].value.kids|
                || old(heap)[obj.id].value.kids[i] == Null || !CanRetain(old(heap), old(heap)[obj.id].value.kids[i])
                || !old(HasRoom(|locals|, memory))
    {
      hide Balanced, Drop, GlobalsOk;
      if !obj.Managed? { return Null; }
      var a := heap[obj.id].value;
      if a.kind != ObjectArray || i < 0 || i >= |a.kids| { return Null; }
      var item := a.kids[i];
      KidUsable(heap, obj.id, i, locals, globals, pending, queue, foreign);
      var retained := RetainRef(item);
      if !retained { return Null; }
      RetainToHand(old(heap), item, [], locals, globals, pending, queue, foreign);
      assert [item] + [] == [item];
      RetainDropped(old(heap), item);
      r := RegLocal(item, memory);
    }

    /** Replaces an element and drops the one it had. */
    method SetObjectArrayElement(obj: Handle, i: int, val: Handle)
      requires Valid() && Usable(heap, obj) && Usable(heap, val)
      modifies this`heap
      ensures Valid()
      ensures if obj.Managed? && old(heap)[obj.id].value.kind == ObjectArray && 0 <= i < |old(heap)[obj.id].value.kids|
                 && old(heap)[obj.id].value.kids[i] != val && CanRetain(old(heap), val) then
                heap == Drop(WithKid(Retained(old(heap), val), obj.id, i, val), [old(heap)[obj.id].value.kids[i]])
              else
                heap == old(heap)
    {
      hide Balanced, Drop, GlobalsOk;
      if !obj.Managed? { return; }
      var a := heap[obj.id].value;
      if a.kind != ObjectArray || i < 0 || i >= |a.kids| || a.kids[i] == val { return; }
      var retained := RetainRef(val);
      if !retained { return; }
      var previous := a.kids[i];
      RetainToHand(old(heap), val, [], locals, globals, pending, queue, foreign);
      HandToKid(heap, obj.id, i, val, [], locals, globals, pending, queue, foreign);
      heap := WithKid(heap, obj.id, i, val);
      assert [previous] + [] == [previous];
      DropHand(heap, [previous], locals, globals, pending, queue, foreign);
      FreeRef(previous);
    }

    // ---- exceptions, messages, thread exit ----

    /** The pending exception is an owner; replacing it drops the previous one. */
    method SetPendingException(exception: Handle) returns (ok: bool)
      requires Valid() && Usable(heap, exception)
      modifies this`heap, this`pending
      ensures Valid()
      ensures ok ==> pending == exception
      ensures !ok ==> pending == old(pending) && heap == old(heap) && !CanRetain(heap, exception)
      ensures ok && old(pending) != exception ==> CanRetain(old(heap), exception)
      ensures ok && old(pending) != exception ==> heap == Drop(Retained(old(heap), exception), [old(pending)])
      ensures old(pending) == exception ==> ok && heap == old(heap)
    {
      hide Balanced, Drop, GlobalsOk;
      if pending == exception { return true; }
      var retained := RetainRef(exception);
      if !retained { return false; }
      RetainToHand(old(heap), exception, [], locals, globals, pending, queue, foreign);
      assert [exception] + [] == [exception];
      HandToPending(heap, exception, locals, globals, pending, queue, foreign);
      var previous := pending;
      pending := exception;
      DropHand(heap, [previous], locals, globals, pending, queue, foreign);
      FreeRef(previous);
      return true;
    }

    /** Queues a message for the handler thread; `started` is whether the node
        and the worker thread could be had. */
    method EnqueueMessage(message: Handle, started: bool) returns (ok: bool)
      requires Valid() && Usable(heap, message)
      modifies this`heap, this`queue
      ensures Valid()
      ensures ok ==> message.Managed? && old(heap)[message.id].value.kind == Message && CanRetain(old(heap), message)
      ensures ok ==> queue == old(queue) + [message] && heap == Retained(old(heap), message)
      ensures !ok ==> queue == old(queue) && heap == old(heap)
      ensures ok <==>
                && started && message.Managed? && old(heap)[message.id].value.kind == Message
                && CanRetain(old(heap), message)
    {
      hide Balanced, Drop, GlobalsOk;
      if !message.Managed? || heap[message.id].value.kind != Message { return false; }
      var retained := RetainRef(message);
      if !retained { return false; }
      RetainToHand(old(heap), message, [], locals, globals, pending, queue, foreign);
      assert [message] + [] == [message];
      if !started {
        RetainDropped(old(heap), message);
        DropHand(heap, [message], locals, globals, pending, queue, foreign);
        FreeRef(message);
        return false;
      }
      HandToQueue(heap, message, locals, globals, pending, queue, foreign);
      queue := queue + [message];
      return true;
    }

    /** The handler thread takes the oldest message. While it dispatches, other
        calls run; the message is among what they see owned elsewhere, until
        `ReleaseMessage`. */
    method TakeMessage() returns (message: Handle)
      requires Valid() && queue != []
      modifies this`queue, this`foreign
      ensures Valid() && old(queue) == [message] + queue && foreign == old(foreign) + multiset{message}
      ensures Usable(heap, message)
    {
      hide Balanced, GlobalsOk, FramesOk;
      QueueToForeign(heap, locals, globals, pending, queue, foreign);
      message := queue[0];
      queue, foreign := queue[1..], foreign + multiset{message};
      RootUsable(heap, message, [], locals, globals, pending, queue, foreign);
    }

    method ReleaseMessage(message: Handle)
      requires Valid() && message in foreign
      modifies this`heap, this`foreign
      ensures Valid() && heap == Drop(old(heap), [message]) && foreign == old(foreign) - multiset{message}
    {
      hide Balanced, Drop, GlobalsOk;
      ForeignToHand(heap, message, locals, globals, pending, queue, foreign);
      DropHand(heap, [message], locals, globals, pending, queue, foreign - multiset{message});
      foreign := foreign - multiset{message};
      FreeRef(message);
    }

    /** A thread that ends drops all its locals, then its pending exception. */
    method ThreadExitCleanup()
      requires Valid()
      modifies this`heap, this`locals, this`capacity, this`frames, this`pending
      ensures Valid() && locals == [] && frames == [] && pending == Null
      ensures heap == Drop(Drop(old(heap), old(locals)), if old(pending) == Null then [] else [old(pending)])
    {
      hide Balanced, Drop, GlobalsOk, SumRefs;
      ghost var h := heap;
      AllLocalsDrop(heap, locals, globals, pending, queue, foreign);
      DropNothing(h);
      for i := 0 to |locals|
        invariant locals == old(locals) && frames == old(frames) && pending == old(pending)
        invariant heap == Drop(h, locals[..i])
      {
        DropConcat(h, locals[..i], [locals[i]]);
        assert locals[..i + 1] == locals[..i] + [locals[i]];
        FreeRef(locals[i]);
      }
      assert locals[..|locals|] == locals;
      locals, capacity, frames := [], 0, [];
      DropNothing(heap);
      var _ := SetPendingException(Null);
    }
  }
}
