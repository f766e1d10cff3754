/** JNI references under every interleaving of threads (source/jni_fake.c lines 122
    to 346, 889 to 901, 1577 to 1617 and 2104 to 2125). A step is one atomic change
    of a count, or one move of a reference between places that own it, under the
    lock or in a table of the thread's own. A call of `JniEnv` is several such steps;
    between them its thread holds references in its hand. */
module JniThreads {
  import opened Bytes
  import opened JniHeap
  import opened JniRefs

  /** One thread: its local table, its pending exception, and what its running call
      holds. */
  datatype Thread = Thread(locals: seq<Handle>, pending: Handle, hand: seq<Handle>)

  datatype World = World(heap: Heap, threads: seq<Thread>, globals: seq<GlobalRef>, queue: seq<Handle>)

  const START := World([], [], [], [])

  ghost function OwnedBy(t: Thread): multiset<Handle> {
    multiset(t.locals) + multiset{t.pending} + multiset(t.hand)
  }

  ghost function OwnedByAll(threads: seq<Thread>): multiset<Handle> {
    if threads == [] then multiset{} else OwnedByAll(threads[..|threads| - 1]) + OwnedBy(threads[|threads| - 1])
  }

  /** Everything that owns references from outside the heap. */
  ghost function RootsOf(w: World): multiset<Handle> {
    OwnedByAll(w.threads) + multiset(Objs(w.globals)) + multiset(w.queue)
  }

  /** Every count equals the number of owners, whoever they are. */
  ghost predicate Inv(w: World) { Accounted(w.heap, RootsOf(w)) }

  // ---- steps ----

  datatype Step =
    | Begin                              // a thread attaches
    | Retain(t: nat, ref: Handle)        // one more owner, in hand
    | Release(t: nat)                    // one owner less; the last one takes over what the object held
    | Make(t: nat, kind: Kind, n: nat)   // a new object, holding the first `n` references in hand
    | ToLocal(t: nat)
    | FromLocal(t: nat, i: nat)
    | SwapPending(t: nat)
    | ToGlobal(t: nat)
    | Alias(i: nat, count: nat)          // an entry gains or loses an alias, and stays one owner
    | FromGlobal(t: nat, i: nat)
    | ToQueue(t: nat)
    | FromQueue(t: nat)
    | SwapKid(t: nat, id: nat, k: nat)

  /** A reference some owner holds, so that a caller may pass it. */
  ghost predicate Owned(w: World, ref: Handle) {
    ref in RootsOf(w) || (exists id: nat :: Live(w.heap, id) && ref in w.heap[id].value.kids) || !ref.Managed?
  }

  ghost predicate HasHand(w: World, t: nat, n: nat) { t < |w.threads| && n <= |w.threads[t].hand| }

  ghost predicate Allowed(w: World, s: Step) {
    match s
    case Begin => true
    case Retain(t, ref) => t < |w.threads| && Owned(w, ref) && CanRetain(w.heap, ref)
    case Release(t) => HasHand(w, t, 1)
    case Make(t, _, n) => HasHand(w, t, n)
    case ToLocal(t) => HasHand(w, t, 1)
    case FromLocal(t, i) => t < |w.threads| && i < |w.threads[t].locals|
    case SwapPending(t) => HasHand(w, t, 1)
    case ToGlobal(t) => HasHand(w, t, 1)
    case Alias(i, _) => i < |w.globals|
    case FromGlobal(t, i) => t < |w.threads| && i < |w.globals|
    case ToQueue(t) => HasHand(w, t, 1)
    case FromQueue(t) => t < |w.threads| && w.queue != []
    case SwapKid(t, id, k) => HasHand(w, t, 1) && Live(w.heap, id) && k < |w.heap[id].value.kids|
  }

  function SetThread(w: World, t: nat, x: Thread): World
    requires t < |w.threads|
  {
    w.(threads := w.threads[t := x])
  }

  function SetHand(w: World, t: nat, hand: seq<Handle>): World
    requires t < |w.threads|
  {
    SetThread(w, t, w.threads[t].(hand := hand))
  }

  /** The atomic decrement of free_ref: the thread that takes the count to zero
      frees the object and then owns what it held. */
  function Released(h: Heap, ref: Handle): (Heap, seq<Handle>) {
    if !(ref.Managed? && Live(h, ref.id) && h[ref.id].value.refs > 0) then (h, [])
    else (Loosened(h, ref.id), if h[ref.id].value.refs == 1 then h[ref.id].value.kids else [])
  }

  ghost function After(w: World, s: Step): World
    requires Allowed(w, s)
  {
    match s
    case Begin => w.(threads := w.threads + [Thread([], Null, [])])
    case Retain(t, ref) => SetHand(w, t, [ref] + w.threads[t].hand).(heap := Retained(w.heap, ref))
    case Release(t) =>
      var (heap, kids) := Released(w.heap, w.threads[t].hand[0]);
      SetHand(w, t, kids + w.threads[t].hand[1..]).(heap := heap)
    case Make(t, kind, n) =>
      SetHand(w, t, [Managed(|w.heap|)] + w.threads[t].hand[n..]).(
        heap := w.heap + [Some(Obj(kind, 1, w.threads[t].hand[..n]))])
    case ToLocal(t) =>
      var x := w.threads[t];
      SetThread(w, t, x.(locals := x.locals + [x.hand[0]], hand := x.hand[1..]))
    case FromLocal(t, i) =>
      var x := w.threads[t];
      SetThread(w, t, x.(locals := WithoutAt(x.locals, i), hand := [x.locals[i]] + x.hand))
    case SwapPending(t) =>
      var x := w.threads[t];
      SetThread(w, t, x.(pending := x.hand[0], hand := [x.pending] + x.hand[1..]))
    case ToGlobal(t) =>
      SetHand(w, t, w.threads[t].hand[1..]).(globals := w.globals + [GlobalRef(w.threads[t].hand[0], 1)])
    case Alias(i, count) => w.(globals := w.globals[i := GlobalRef(w.globals[i].obj, count)])
    case FromGlobal(t, i) =>
      SetHand(w, t, [w.globals[i].obj] + w.threads[t].hand).(globals := SwapRemove(w.globals, i))
    case ToQueue(t) => SetHand(w, t, w.threads[t].hand[1..]).(queue := w.queue + [w.threads[t].hand[0]])
    case FromQueue(t) => SetHand(w, t, [w.queue[0]] + w.threads[t].hand).(queue := w.queue[1..])
    case SwapKid(t, id, k) =>
      SetHand(w, t, [w.heap[id].value.kids[k]] + w.threads[t].hand[1..]).(
        heap := WithKid(w.heap, id, k, w.threads[t].hand[0]))
  }

  // ---- owners as things move ----

  lemma {:induction false} OwnedConcat(a: seq<Thread>, b: seq<Thread>)
    ensures OwnedByAll(a + b) == OwnedByAll(a) + OwnedByAll(b)
    decreases |b|
  {
    hide OwnedBy;
    if b == [] {
      assert a + b == a;
    } else {
      var n := |b| - 1;
      assert (a + b)[..|a + b| - 1] == a + b[..n];
      OwnedConcat(a, b[..n]);
    }
  }

  /** What all threads but `t` own. */
  ghost function OwnedByOthers(threads: seq<Thread>, t: nat): multiset<Handle>
    requires t < |threads|
  {
    OwnedByAll(threads[..t]) + OwnedByAll(threads[t + 1..])
  }

  lemma OthersAndOne(threads: seq<Thread>, t: nat, x: Thread)
    requires t < |threads|
    ensures OwnedByAll(threads[t := x]) == OwnedByOthers(threads, t) + OwnedBy(x)
    ensures OwnedByOthers(threads[t := x], t) == OwnedByOthers(threads, t)
  {
    hide OwnedBy;
    var all := threads[t := x];
    assert all[..t] == threads[..t] && all[t + 1..] == threads[t + 1..];
    assert all == all[..t] + ([x] + all[t + 1..]);
    assert [x][..0] == [] && OwnedByAll([x]) == OwnedBy(x);
    OwnedConcat([x], all[t + 1..]);
    OwnedConcat(all[..t], [x] + all[t + 1..]);
  }

  /** The owners apart from what thread `t` has in hand. */
  ghost function Base(w: World, t: nat): multiset<Handle>
    requires t < |w.threads|
  {
    OwnedByOthers(w.threads, t) + multiset(Objs(w.globals)) + multiset(w.queue)
    + (multiset(w.threads[t].locals) + multiset{w.threads[t].pending})
  }

  /** The roots are the base and the hand, whatever the hand and the heap. */
  lemma HandRoots(w: World, t: nat, hand: seq<Handle>, heap: Heap)
    requires t < |w.threads|
    ensures RootsOf(SetHand(w, t, hand).(heap := heap)) == Base(w, t) + multiset(hand)
    ensures RootsOf(w) == Base(w, t) + multiset(w.threads[t].hand)
  {
    hide Objs, OwnedByAll, OwnedByOthers;
    var x := w.threads[t];
    OthersAndOne(w.threads, t, x.(hand := hand));
    OthersAndOne(w.threads, t, x);
    assert w.threads[t := x] == w.threads;
  }

  /** Both in one: how the owners change when a step changes thread `t` and tables. */
  lemma BaseRoots(w: World, u: World, t: nat)
    requires t < |w.threads| && t < |u.threads| && u.threads == w.threads[t := u.threads[t]]
    ensures RootsOf(w) == Base(w, t) + multiset(w.threads[t].hand)
    ensures RootsOf(u) == Base(u, t) + multiset(u.threads[t].hand)
    ensures OwnedByOthers(u.threads, t) == OwnedByOthers(w.threads, t)
  {
    hide Objs, OwnedBy, Base, RootsOf;
    HandRoots(w, t, [], w.heap);
    HandRoots(u, t, [], u.heap);
    OthersAndOne(w.threads, t, u.threads[t]);
  }

  /** A hand is its first references and the rest. */
  lemma HandSplits(hand: seq<Handle>, n: nat)
    requires n <= |hand|
    ensures multiset(hand) == multiset(hand[..n]) + multiset(hand[n..])
  {
    assert hand == hand[..n] + hand[n..];
  }

  lemma HeadAndTail(hand: seq<Handle>)
    requires hand != []
    ensures multiset(hand) == multiset{hand[0]} + multiset(hand[1..])
  {
    assert hand == [hand[0]] + hand[1..];
  }

  lemma Prepended(a: seq<Handle>, b: seq<Handle>)
    ensures multiset(a + b) == multiset(a) + multiset(b)
  {
  }

  // ---- every step keeps the owner equation ----

  lemma BeginKeeps(w: World)
    requires Inv(w)
    ensures Inv(After(w, Begin))
  {
    hide Accounted, Objs;
    var u := After(w, Begin);
    assert u.threads[..|w.threads|] == w.threads;
    SameRoots(w.heap, RootsOf(w), RootsOf(u));
  }

  lemma RetainStepKeeps(w: World, t: nat, ref: Handle)
    requires Inv(w) && Allowed(w, Retain(t, ref))
    ensures Inv(After(w, Retain(t, ref)))
  {
    hide Accounted, RootsOf, Base, CanRetain, Retained, Owned;
    var hand := w.threads[t].hand;
    HandRoots(w, t, [ref] + hand, Retained(w.heap, ref));
    RetainKeeps(w.heap, RootsOf(w), ref);
    Prepended([ref], hand);
    assert RootsOf(After(w, Retain(t, ref))) == RootsOf(w) + multiset{ref};
  }

  lemma ReleaseKeeps(w: World, t: nat)
    requires Inv(w) && Allowed(w, Release(t))
    ensures Inv(After(w, Release(t)))
  {
    hide Accounted, RootsOf, Base, Loosened;
    var hand := w.threads[t].hand;
    var ref, u := hand[0], After(w, Release(t));
    var (heap, kids) := Released(w.heap, ref);
    HandRoots(w, t, kids + hand[1..], heap);
    HeadAndTail(hand);
    Prepended(kids, hand[1..]);
    var rest := Base(w, t) + multiset(hand[1..]);
    assert RootsOf(w) == rest + multiset{ref};
    assert RootsOf(u) == rest + multiset(kids);
    RootIsLive(w.heap, RootsOf(w), ref);
    if ref.Managed? {
      LoosenKeeps(w.heap, rest, ref.id);
      if w.heap[ref.id].value.refs > 1 { assert rest + multiset(kids) == rest; }
    } else {
      SameRoots(w.heap, RootsOf(w), RootsOf(u));
    }
  }

  lemma MakeKeeps(w: World, t: nat, kind: Kind, n: nat)
    requires Inv(w) && Allowed(w, Make(t, kind, n))
    ensures Inv(After(w, Make(t, kind, n)))
  {
    hide Accounted, RootsOf, Base;
    var hand, self := w.threads[t].hand, Managed(|w.heap|);
    var o := Obj(kind, 1, hand[..n]);
    HandRoots(w, t, [self] + hand[n..], w.heap + [Some(o)]);
    HandSplits(hand, n);
    Prepended([self], hand[n..]);
    var rest := Base(w, t) + multiset(hand[n..]);
    assert RootsOf(w) == rest + multiset(o.kids);
    AllocKeeps(w.heap, rest, o);
    assert RootsOf(After(w, Make(t, kind, n))) == rest + multiset{self};
  }

  lemma SwapKidKeeps(w: World, t: nat, id: nat, k: nat)
    requires Inv(w) && Allowed(w, SwapKid(t, id, k))
    ensures Inv(After(w, SwapKid(t, id, k)))
  {
    hide Accounted, RootsOf, Base, WithKid;
    var hand := w.threads[t].hand;
    var previous := w.heap[id].value.kids[k];
    HandRoots(w, t, [previous] + hand[1..], WithKid(w.heap, id, k, hand[0]));
    HeadAndTail(hand);
    Prepended([previous], hand[1..]);
    var rest := Base(w, t) + multiset(hand[1..]);
    assert RootsOf(w) == rest + multiset{hand[0]};
    WithKidKeeps(w.heap, rest, id, k, hand[0]);
    assert RootsOf(After(w, SwapKid(t, id, k))) == rest + multiset{previous};
  }

  /** Moves between places that own: the heap stays, and so do the owners. */
  lemma MoveKeeps(w: World, s: Step)
    requires Inv(w) && Allowed(w, s) && Moves(s)
    ensures Inv(After(w, s))
  {
    hide Accounted, RootsOf, Base, OwnedBy, OwnedByOthers, Objs, SwapRemove, WithoutAt;
    var u := After(w, s);
    BaseRoots(w, u, s.t);
    forall id: nat ensures RootsOf(w)[Managed(id)] == RootsOf(u)[Managed(id)] {
      SameOwners(w, s, Managed(id));
    }
    SameRoots(w.heap, RootsOf(w), RootsOf(u));
  }

  predicate Moves(s: Step) {
    s.ToLocal? || s.FromLocal? || s.SwapPending? || s.ToGlobal? || s.FromGlobal? || s.ToQueue? || s.FromQueue?
  }

  lemma SameOwners(w: World, s: Step, ref: Handle)
    requires Allowed(w, s) && Moves(s)
    ensures var u := After(w, s);
            Base(w, s.t)[ref] + multiset(w.threads[s.t].hand)[ref]
                == Base(u, s.t)[ref] + multiset(u.threads[s.t].hand)[ref]
  {
    hide Base;
    if s.ToLocal? || s.FromLocal? || s.SwapPending? {
      SameInThread(w, s, ref);
    } else if s.ToQueue? || s.FromQueue? {
      SameInQueue(w, s, ref);
    } else {
      SameInGlobals(w, s, ref);
    }
  }

  lemma SameInThread(w: World, s: Step, ref: Handle)
    requires Allowed(w, s) && (s.ToLocal? || s.FromLocal? || s.SwapPending?)
    ensures var u := After(w, s);
            Base(w, s.t)[ref] + multiset(w.threads[s.t].hand)[ref]
                == Base(u, s.t)[ref] + multiset(u.threads[s.t].hand)[ref]
  {
    hide OwnedBy, OwnedByOthers, Objs, SwapRemove, WithoutAt, OwnedByAll, Owned;
    var x := w.threads[s.t];
    OthersAndOne(w.threads, s.t, After(w, s).threads[s.t]);
    if s.FromLocal? { WithoutAtParts(x.locals, s.i, ref); } else { HeadAndTail(x.hand); }
  }

  lemma SameInQueue(w: World, s: Step, ref: Handle)
    requires Allowed(w, s) && (s.ToQueue? || s.FromQueue?)
    ensures var u := After(w, s);
            Base(w, s.t)[ref] + multiset(w.threads[s.t].hand)[ref]
                == Base(u, s.t)[ref] + multiset(u.threads[s.t].hand)[ref]
  {
    hide OwnedBy, OwnedByOthers, Objs, SwapRemove, WithoutAt, OwnedByAll, Owned;
    OthersAndOne(w.threads, s.t, After(w, s).threads[s.t]);
    if s.FromQueue? { HeadAndTail(w.queue); } else { HeadAndTail(w.threads[s.t].hand); }
  }

  lemma SameInGlobals(w: World, s: Step, ref: Handle)
    requires Allowed(w, s) && (s.ToGlobal? || s.FromGlobal?)
    ensures var u := After(w, s);
            Base(w, s.t)[ref] + multiset(w.threads[s.t].hand)[ref]
                == Base(u, s.t)[ref] + multiset(u.threads[s.t].hand)[ref]
  {
    hide OwnedBy, OwnedByOthers, Objs, SwapRemove, WithoutAt, OwnedByAll, Owned;
    var x := w.threads[s.t];
    OthersAndOne(w.threads, s.t, After(w, s).threads[s.t]);
    if s.ToGlobal? {
      HeadAndTail(x.hand);
      ObjsAppend(w.globals, GlobalRef(x.hand[0], 1));
    } else {
      ObjAt(w.globals, s.i);
      SwapRemoveObjs(w.globals, s.i);
      SwapRemoveParts(Objs(w.globals), s.i, ref);
    }
  }

  lemma AliasKeeps(w: World, i: nat, count: nat)
    requires Inv(w) && Allowed(w, Alias(i, count))
    ensures Inv(After(w, Alias(i, count)))
  {
    hide Accounted, Objs;
    AliasObjs(w.globals, i, count);
  }

  lemma AliasObjs(globals: seq<GlobalRef>, i: nat, count: nat)
    requires i < |globals|
    ensures Objs(globals[i := GlobalRef(globals[i].obj, count)]) == Objs(globals)
  {
    hide Objs;
    var g := globals[i := GlobalRef(globals[i].obj, count)];
    forall k | 0 <= k < |g| ensures Objs(g)[k] == Objs(globals)[k] {
      ObjAt(g, k);
      ObjAt(globals, k);
    }
  }

  lemma StepKeeps(w: World, s: Step)
    requires Inv(w) && Allowed(w, s)
    ensures Inv(After(w, s))
  {
    hide Inv, Allowed, After;
    match s
    case Begin => BeginKeeps(w);
    case Retain(t, ref) => RetainStepKeeps(w, t, ref);
    case Release(t) => ReleaseKeeps(w, t);
    case Make(t, kind, n) => MakeKeeps(w, t, kind, n);
    case SwapKid(t, id, k) => SwapKidKeeps(w, t, id, k);
    case Alias(i, count) => AliasKeeps(w, i, count);
    case _ => MoveKeeps(w, s);
  }

  // ---- runs ----

  ghost predicate Runs(w: World, steps: seq<Step>, u: World)
    decreases |steps|
  {
    if steps == [] then u == w
    else Allowed(w, steps[0]) && Runs(After(w, steps[0]), steps[1..], u)
  }

  lemma {:induction false} RunKeeps(w: World, steps: seq<Step>, u: World)
    requires Inv(w) && Runs(w, steps, u)
    ensures Inv(u)
    decreases |steps|
  {
    hide Inv, Allowed, After;
    if steps != [] {
      StepKeeps(w, steps[0]);
      RunKeeps(After(w, steps[0]), steps[1..], u);
    }
  }

  lemma StartInv()
    ensures Inv(START)
  {
  }

  /** In every reachable state: each object's count is the number of its owners,
      over all threads, tables, the queue, running calls and other objects; a live
      object has one; and whatever anyone owns is live. */
  lemma CountsAreOwners(steps: seq<Step>, w: World, id: nat, ref: Handle)
    requires Runs(START, steps, w)
    ensures Refs(w.heap, id) == Owners(w.heap, RootsOf(w), id)
    ensures Live(w.heap, id) <==> Owners(w.heap, RootsOf(w), id) > 0
    ensures Owned(w, ref) ==> Usable(w.heap, ref)
  {
    hide Runs, HeldIn, RootsOf;
    StartInv();
    RunKeeps(START, steps, w);
    assert Refs(w.heap, id) == Owners(w.heap, RootsOf(w), id);
    if ref in RootsOf(w) {
      RootIsLive(w.heap, RootsOf(w), ref);
    } else if Owned(w, ref) && ref.Managed? {
      var o: nat :| Live(w.heap, o) && ref in w.heap[o].value.kids;
      var k :| 0 <= k < |w.heap[o].value.kids| && w.heap[o].value.kids[k] == ref;
      KidIsLive(w.heap, RootsOf(w), o, k);
    }
  }

  /** An object is freed by the release of its last owner and by nothing else. */
  lemma FreedByLastOwner(w: World, s: Step, id: nat)
    requires Inv(w) && Allowed(w, s) && Live(w.heap, id)
    ensures !Live(After(w, s).heap, id) <==>
              s.Release? && w.threads[s.t].hand[0] == Managed(id) && Owners(w.heap, RootsOf(w), id) == 1
  {
    hide HeldIn, RootsOf, Owned, SumRefs;
    assert Refs(w.heap, id) == Owners(w.heap, RootsOf(w), id);
  }

  /** And for good: a freed object never lives again. */
  lemma {:induction false} FreedForGood(w: World, steps: seq<Step>, u: World, id: nat)
    requires Runs(w, steps, u) && id < |w.heap| && !Live(w.heap, id)
    ensures id < |u.heap| && !Live(u.heap, id)
    decreases |steps|
  {
    hide Owned;
    if steps != [] {
      StaysFreed(w, steps[0], id);
      FreedForGood(After(w, steps[0]), steps[1..], u, id);
    }
  }

  lemma StaysFreed(w: World, s: Step, id: nat)
    requires Allowed(w, s) && id < |w.heap| && !Live(w.heap, id)
    ensures id < |After(w, s).heap| && !Live(After(w, s).heap, id)
  {
    hide Owned, SumRefs;
  }

  // ---- a call by itself ----

  /** The releases of one thread, when no other thread comes between: its recursive
      release of the first `n` references in hand is `Drop`. */
  lemma {:induction false} ReleasesAreDrop(w: World, t: nat, n: nat) returns (steps: seq<Step>)
    requires t < |w.threads| && n <= |w.threads[t].hand|
    ensures Runs(w, steps, SetHand(w, t, w.threads[t].hand[n..]).(heap := Drop(w.heap, w.threads[t].hand[..n])))
    decreases SumRefs(w.heap), n
  {
    hide SumRefs, Owned;
    var hand := w.threads[t].hand;
    if n == 0 {
      steps := [];
      assert hand[0..] == hand && hand[..0] == [];
      assert SetHand(w, t, hand) == w by { assert w.threads[t := w.threads[t]] == w.threads; }
    } else {
      var u := After(w, Release(t));
      var (heap, kids) := Released(w.heap, hand[0]);
      var m := |kids| + (n - 1);
      assert hand[..n][0] == hand[0] && hand[..n][1..] == hand[1..][..n - 1];
      assert (kids + hand[1..])[..m] == kids + hand[1..][..n - 1];
      assert (kids + hand[1..])[m..] == hand[n..];
      DropStep(w.heap, hand[..n]);
      var rest := ReleasesAreDrop(u, t, m);
      steps := [Release(t)] + rest;
      assert steps[1..] == rest;
      assert u.threads[t := u.threads[t].(hand := hand[n..])] == w.threads[t := w.threads[t].(hand := hand[n..])];
    }
  }

  lemma DropStep(h: Heap, todo: seq<Handle>)
    requires todo != []
    ensures var (heap, kids) := Released(h, todo[0]);
            && Drop(h, todo) == Drop(heap, kids + todo[1..])
            && SumRefs(heap) <= SumRefs(h) && (SumRefs(heap) == SumRefs(h) ==> kids == [])
  {
    hide SumRefs;
    assert [] + todo[1..] == todo[1..];
  }

  /** What a `JniEnv` sees: its thread's tables, and everything other threads own as
      one multiset. Its validity is the owner equation of the whole. */
  lemma EnvSeesWorld(w: World, t: nat)
    requires t < |w.threads|
    ensures var x := w.threads[t];
            Inv(w) <==> Balanced(w.heap, x.hand, x.locals, w.globals, x.pending, w.queue, OwnedByOthers(w.threads, t))
  {
    hide Accounted, Objs;
    var x := w.threads[t];
    HandRoots(w, t, [], w.heap);
    assert RootsOf(w) == multiset(x.hand) + Roots(x.locals, w.globals, x.pending, w.queue, OwnedByOthers(w.threads, t));
  }

  // ---- calls are runs ----

  lemma Then(w: World, s: Step, steps: seq<Step>, u: World)
    requires Allowed(w, s) && Runs(After(w, s), steps, u)
    ensures Runs(w, [s] + steps, u)
  {
    hide Allowed, After;
    assert ([s] + steps)[1..] == steps;
  }

  lemma TwoSteps(w: World, a: Step, b: Step)
    requires Allowed(w, a) && Allowed(After(w, a), b)
    ensures Runs(w, [a, b], After(After(w, a), b))
  {
    hide Allowed, After;
    assert Runs(After(After(w, a), b), [], After(After(w, a), b));
    Then(After(w, a), b, [], After(After(w, a), b));
    assert [b] + [] == [b];
    Then(w, a, [b], After(After(w, a), b));
    assert [a] + [b] == [a, b];
  }

  /** Thread `t` as it was, with other locals. */
  function WithLocals(w: World, t: nat, locals: seq<Handle>): World
    requires t < |w.threads|
  {
    SetThread(w, t, Thread(locals, w.threads[t].pending, []))
  }

  predicate Idle(w: World, t: nat) { t < |w.threads| && w.threads[t].hand == [] }

  /** NewLocalRef, and GetObjectArrayElement of that element. */
  lemma NewLocalIsRun(w: World, t: nat, ref: Handle)
    requires Idle(w, t) && Owned(w, ref) && CanRetain(w.heap, ref)
    ensures Runs(w, [Retain(t, ref), ToLocal(t)],
                 WithLocals(w, t, w.threads[t].locals + [ref]).(heap := Retained(w.heap, ref)))
  {
    hide Owned, CanRetain, Retained, Runs;
    var u := After(w, Retain(t, ref));
    assert [ref] + [] == [ref] && u.threads[t].hand[1..] == [];
    TwoSteps(w, Retain(t, ref), ToLocal(t));
    assert After(u, ToLocal(t)).threads == WithLocals(w, t, w.threads[t].locals + [ref]).threads;
  }

  /** NewGlobalRef with a new entry. */
  lemma NewGlobalIsRun(w: World, t: nat, ref: Handle)
    requires Idle(w, t) && Owned(w, ref) && CanRetain(w.heap, ref)
    ensures Runs(w, [Retain(t, ref), ToGlobal(t)],
                 w.(heap := Retained(w.heap, ref), globals := w.globals + [GlobalRef(ref, 1)]))
  {
    hide Owned, CanRetain, Retained, Runs;
    var u := After(w, Retain(t, ref));
    assert u.threads[t].hand[1..] == [];
    TwoSteps(w, Retain(t, ref), ToGlobal(t));
    assert After(u, ToGlobal(t)).threads == w.threads;
  }

  /** EnqueueMessage. */
  lemma EnqueueIsRun(w: World, t: nat, ref: Handle)
    requires Idle(w, t) && Owned(w, ref) && CanRetain(w.heap, ref)
    ensures Runs(w, [Retain(t, ref), ToQueue(t)], w.(heap := Retained(w.heap, ref), queue := w.queue + [ref]))
  {
    hide Owned, CanRetain, Retained, Runs;
    var u := After(w, Retain(t, ref));
    assert u.threads[t].hand[1..] == [];
    TwoSteps(w, Retain(t, ref), ToQueue(t));
    assert After(u, ToQueue(t)).threads == w.threads;
  }

  /** AllocObject. */
  lemma AllocIsRun(w: World, t: nat)
    requires Idle(w, t)
    ensures Runs(w, [Make(t, Plain, 0), ToLocal(t)],
                 WithLocals(w, t, w.threads[t].locals + [Managed(|w.heap|)]).(
                   heap := w.heap + [Some(Obj(Plain, 1, []))]))
  {
    var u := After(w, Make(t, Plain, 0));
    assert u.threads[t].hand == [Managed(|w.heap|)] && w.threads[t].hand[..0] == [];
    TwoSteps(w, Make(t, Plain, 0), ToLocal(t));
    assert After(u, ToLocal(t)).threads == WithLocals(w, t, w.threads[t].locals + [Managed(|w.heap|)]).threads;
  }

  /** A handler with its callback, a message with its target. */
  lemma MakeHolderIsRun(w: World, t: nat, kind: Kind, held: Handle)
    requires Idle(w, t) && Owned(w, held) && CanRetain(w.heap, held)
    ensures Runs(w, [Retain(t, held)] + [Make(t, kind, 1), ToLocal(t)],
                 WithLocals(w, t, w.threads[t].locals + [Managed(|w.heap|)]).(
                   heap := Retained(w.heap, held) + [Some(Obj(kind, 1, [held]))]))
  {
    hide Owned, CanRetain, Retained;
    SameLength(w.heap, held);
    var u := After(w, Retain(t, held));
    assert u.threads[t].hand == [held] && [held][..1] == [held] && [held][1..] == [];
    var v := After(u, Make(t, kind, 1));
    assert v.threads[t].hand == [Managed(|w.heap|)];
    TwoSteps(u, Make(t, kind, 1), ToLocal(t));
    Then(w, Retain(t, held), [Make(t, kind, 1), ToLocal(t)], After(v, ToLocal(t)));
    assert After(v, ToLocal(t)).threads == WithLocals(w, t, w.threads[t].locals + [Managed(|w.heap|)]).threads;
  }

  lemma SameLength(h: Heap, ref: Handle)
    requires CanRetain(h, ref)
    ensures |Retained(h, ref)| == |h|
  {
  }

  /** Releasing all that is in hand ends a call. */
  lemma EndsReleased(w: World, t: nat, u: World) returns (steps: seq<Step>)
    requires t < |w.threads| && u == SetHand(w, t, []).(heap := Drop(w.heap, w.threads[t].hand))
    ensures Runs(w, steps, u)
  {
    hide Drop;
    var hand := w.threads[t].hand;
    assert hand[|hand|..] == [] && hand[..|hand|] == hand;
    steps := ReleasesAreDrop(w, t, |hand|);
  }

  /** DeleteLocalRef of slot `i`. */
  lemma DeleteLocalIsRun(w: World, t: nat, i: nat) returns (steps: seq<Step>)
    requires Idle(w, t) && i < |w.threads[t].locals|
    ensures Runs(w, steps,
        WithLocals(w, t, WithoutAt(w.threads[t].locals, i)).(heap := Drop(w.heap, [w.threads[t].locals[i]])))
  {
    hide Drop, WithoutAt;
    var x := w.threads[t];
    var u := After(w, FromLocal(t, i));
    assert u.threads[t].hand == [x.locals[i]];
    var end := SetHand(u, t, []).(heap := Drop(w.heap, [x.locals[i]]));
    steps := EndsReleased(u, t, end);
    Then(w, FromLocal(t, i), steps, end);
    steps := [FromLocal(t, i)] + steps;
    assert end.threads == WithLocals(w, t, WithoutAt(x.locals, i)).threads;
  }

  /** DeleteGlobalRef of the last alias of entry `i`. */
  lemma DeleteGlobalIsRun(w: World, t: nat, i: nat) returns (steps: seq<Step>)
    requires Idle(w, t) && i < |w.globals|
    ensures Runs(w, steps, w.(heap := Drop(w.heap, [w.globals[i].obj]), globals := SwapRemove(w.globals, i)))
  {
    hide Drop, SwapRemove;
    var u := After(w, FromGlobal(t, i));
    assert u.threads[t].hand == [w.globals[i].obj];
    var end := SetHand(u, t, []).(heap := Drop(w.heap, [w.globals[i].obj]));
    steps := EndsReleased(u, t, end);
    Then(w, FromGlobal(t, i), steps, end);
    steps := [FromGlobal(t, i)] + steps;
    assert end.threads == w.threads;
  }

  /** The handler thread takes a message and releases it after dispatch. */
  lemma DispatchIsRun(w: World, t: nat) returns (steps: seq<Step>)
    requires Idle(w, t) && w.queue != []
    ensures Runs(w, steps, w.(heap := Drop(w.heap, [w.queue[0]]), queue := w.queue[1..]))
  {
    hide Drop;
    var u := After(w, FromQueue(t));
    assert u.threads[t].hand == [w.queue[0]];
    var end := SetHand(u, t, []).(heap := Drop(w.heap, [w.queue[0]]));
    steps := EndsReleased(u, t, end);
    Then(w, FromQueue(t), steps, end);
    steps := [FromQueue(t)] + steps;
    assert end.threads == w.threads;
  }

  /** Throw, or clearing the exception: the new one is retained, the old released. */
  lemma SetPendingIsRun(w: World, t: nat, exception: Handle) returns (steps: seq<Step>)
    requires Idle(w, t) && Owned(w, exception) && CanRetain(w.heap, exception)
    ensures Runs(w, steps, SetThread(w, t, w.threads[t].(pending := exception)).(
                             heap := Drop(Retained(w.heap, exception), [w.threads[t].pending])))
  {
    hide Drop, Owned, CanRetain, Retained;
    var x := w.threads[t];
    var u := After(w, Retain(t, exception));
    assert u.threads[t].hand == [exception] && [exception][1..] == [];
    var v := After(u, SwapPending(t));
    assert v.threads[t].hand == [x.pending];
    var end := SetHand(v, t, []).(heap := Drop(Retained(w.heap, exception), [x.pending]));
    steps := EndsReleased(v, t, end);
    Then(u, SwapPending(t), steps, end);
    Then(w, Retain(t, exception), [SwapPending(t)] + steps, end);
    steps := [Retain(t, exception)] + ([SwapPending(t)] + steps);
    assert end.threads == SetThread(w, t, x.(pending := exception)).threads;
  }

  /** SetObjectArrayElement. */
  lemma SetElementIsRun(w: World, t: nat, id: nat, k: nat, val: Handle) returns (steps: seq<Step>)
    requires Idle(w, t) && Owned(w, val) && CanRetain(w.heap, val) && Live(w.heap, id) && k < |w.heap[id].value.kids|
    ensures Runs(w, steps, w.(heap := Drop(WithKid(Retained(w.heap, val), id, k, val), [w.heap[id].value.kids[k]])))
  {
    hide Drop, Owned, CanRetain, Retained, WithKid;
    var previous := w.heap[id].value.kids[k];
    SameKids(w.heap, val, id);
    var u := After(w, Retain(t, val));
    assert u.threads[t].hand == [val] && [val][1..] == [];
    var v := After(u, SwapKid(t, id, k));
    assert v.threads[t].hand == [previous];
    var end := SetHand(v, t, []).(heap := Drop(WithKid(Retained(w.heap, val), id, k, val), [previous]));
    steps := EndsReleased(v, t, end);
    Then(u, SwapKid(t, id, k), steps, end);
    Then(w, Retain(t, val), [SwapKid(t, id, k)] + steps, end);
    steps := [Retain(t, val)] + ([SwapKid(t, id, k)] + steps);
    assert end.threads == w.threads;
  }

  lemma SameKids(h: Heap, ref: Handle, id: nat)
    requires CanRetain(h, ref) && Live(h, id)
    ensures Live(Retained(h, ref), id) && Retained(h, ref)[id].value.kids == h[id].value.kids
  {
  }

  lemma {:induction false} RunsJoin(w: World, a: seq<Step>, u: World, b: seq<Step>, v: World)
    requires Runs(w, a, u) && Runs(u, b, v)
    ensures Runs(w, a + b, v)
    decreases |a|
  {
    hide Allowed, After;
    if a == [] {
      assert a + b == b;
    } else {
      assert (a + b)[1..] == a[1..] + b;
      RunsJoin(After(w, a[0]), a[1..], u, b, v);
    }
  }

  /** One slot of a frame: `kept` stays in hand, the slot's reference is released. */
  lemma DropSlot(w: World, t: nat, mark: nat, kept: seq<Handle>) returns (steps: seq<Step>)
    requires t < |w.threads| && mark < |w.threads[t].locals| && w.threads[t].hand == kept
    ensures var x := w.threads[t];
            Runs(w, steps,
                 SetThread(w, t, x.(locals := WithoutAt(x.locals, mark))).(heap := Drop(w.heap, [x.locals[mark]])))
  {
    hide Drop, WithoutAt;
    var x := w.threads[t];
    var u := After(w, FromLocal(t, mark));
    assert u.threads[t].hand == [x.locals[mark]] + kept;
    assert ([x.locals[mark]] + kept)[..1] == [x.locals[mark]] && ([x.locals[mark]] + kept)[1..] == kept;
    var end := SetHand(u, t, kept).(heap := Drop(w.heap, [x.locals[mark]]));
    steps := ReleasesAreDrop(u, t, 1);
    Then(w, FromLocal(t, mark), steps, end);
    steps := [FromLocal(t, mark)] + steps;
    assert end.threads == SetThread(w, t, x.(locals := WithoutAt(x.locals, mark))).threads;
  }

  /** The slots a frame still holds, without the one that is kept. */
  function ToDrop(frame: seq<Handle>, result: Handle, kept: seq<Handle>): seq<Handle> {
    if kept == [] then RemoveFirst(frame, result) else frame
  }

  function ToKeep(frame: seq<Handle>, result: Handle, kept: seq<Handle>): seq<Handle> {
    if kept == [] && result in frame then [result] else kept
  }

  /** After the frame from `mark` on is popped. */
  ghost function Popped(w: World, t: nat, mark: nat, result: Handle, kept: seq<Handle>): World
    requires t < |w.threads| && mark <= |w.threads[t].locals|
  {
    var x := w.threads[t];
    var frame := x.locals[mark..];
    SetThread(w, t, x.(locals := x.locals[..mark], hand := ToKeep(frame, result, kept))).(
      heap := Drop(w.heap, ToDrop(frame, result, kept)))
  }

  /** PopLocalFrame up to what becomes of the result, and with a null result the end
      of a thread: slot after slot is released, but the first one holding the result
      is kept in hand. */
  lemma {:induction false} PopFrameIsRun(w: World, t: nat, mark: nat, result: Handle, kept: seq<Handle>)
      returns (steps: seq<Step>)
    requires t < |w.threads| && mark <= |w.threads[t].locals| && w.threads[t].hand == kept && kept in {[], [result]}
    ensures Runs(w, steps, Popped(w, t, mark, result, kept))
    decreases |w.threads[t].locals| - mark
  {
    hide Drop, Allowed, Runs, After, Popped;
    var x := w.threads[t];
    if mark == |x.locals| {
      steps := [];
      PoppedNothing(w, t, mark, result, kept);
      NoRun(w, Popped(w, t, mark, result, kept));
    } else if kept == [] && x.locals[mark] == result {
      KeepsResult(w, t, mark, result);
      PoppedKept(w, t, mark, result);
      var rest := PopFrameIsRun(After(w, FromLocal(t, mark)), t, mark, result, [result]);
      Then(w, FromLocal(t, mark), rest, Popped(w, t, mark, result, kept));
      steps := [FromLocal(t, mark)] + rest;
    } else {
      var first := DropSlot(w, t, mark, kept);
      PoppedDropped(w, t, mark, result, kept);
      var u := SetThread(w, t, x.(locals := WithoutAt(x.locals, mark))).(heap := Drop(w.heap, [x.locals[mark]]));
      var rest := PopFrameIsRun(u, t, mark, result, kept);
      RunsJoin(w, first, u, rest, Popped(w, t, mark, result, kept));
      steps := first + rest;
    }
  }

  lemma PoppedNothing(w: World, t: nat, mark: nat, result: Handle, kept: seq<Handle>)
    requires t < |w.threads| && mark == |w.threads[t].locals| && w.threads[t].hand == kept
    ensures Popped(w, t, mark, result, kept) == w
  {
    hide Drop;
    var x := w.threads[t];
    DropNothing(w.heap);
    assert x.locals[..mark] == x.locals && x.(locals := x.locals[..mark], hand := kept) == x;
    assert w.threads[t := x] == w.threads;
  }

  lemma PoppedKept(w: World, t: nat, mark: nat, result: Handle)
    requires t < |w.threads| && mark < |w.threads[t].locals| && w.threads[t].locals[mark] == result
    ensures var x := w.threads[t];
            var u := SetThread(w, t, x.(locals := WithoutAt(x.locals, mark), hand := [result]));
            Popped(w, t, mark, result, []) == Popped(u, t, mark, result, [result])
  {
    hide Drop;
    var x := w.threads[t];
    var frame, left := x.locals[mark..], WithoutAt(x.locals, mark);
    assert frame[0] == result && left[mark..] == frame[1..] && left[..mark] == x.locals[..mark];
  }

  lemma PoppedDropped(w: World, t: nat, mark: nat, result: Handle, kept: seq<Handle>)
    requires t < |w.threads| && mark < |w.threads[t].locals| && (kept == [] ==> w.threads[t].locals[mark] != result)
    ensures var x := w.threads[t];
            var u := SetThread(w, t, x.(locals := WithoutAt(x.locals, mark))).(heap := Drop(w.heap, [x.locals[mark]]));
            Popped(w, t, mark, result, kept) == Popped(u, t, mark, result, kept)
  {
    hide Drop;
    var x := w.threads[t];
    var frame, left := x.locals[mark..], WithoutAt(x.locals, mark);
    assert left[mark..] == frame[1..] && left[..mark] == x.locals[..mark];
    assert frame == [frame[0]] + frame[1..];
    DropConcat(w.heap, [frame[0]], ToDrop(frame[1..], result, kept));
  }

  lemma NoRun(w: World, u: World)
    requires u == w
    ensures Runs(w, [], u)
  {
  }

  lemma KeepsResult(w: World, t: nat, mark: nat, result: Handle)
    requires t < |w.threads| && mark < |w.threads[t].locals| && w.threads[t].hand == []
        && w.threads[t].locals[mark] == result
    ensures Allowed(w, FromLocal(t, mark))
    ensures After(w, FromLocal(t, mark))
            == SetThread(w, t, w.threads[t].(locals := WithoutAt(w.threads[t].locals, mark), hand := [result]))
  {
    assert [result] + [] == [result];
  }
}
