/** The queue of callbacks to the game's main object (source/combo_bridge.c
    lines 78 to 97, 129 to 300 and 323 to 345). `combo_bridge_after_render` drains
    it. The main loop calls that once a frame (source/main.c:2764), and the JNI
    dispatch of "login_switch_role" calls it again (source/unity_jni.c:1167): in
    the middle of a frame, inside a handler that another drain is running, or on
    another thread. So any number of drains may be under way at once. */
module CallbackQueue {
  import opened Bytes
  import opened Counting

  const EVENT_CAPACITY: nat := 64
  const PENDING_CAPACITY: nat := 64
  const PAYLOAD_CAPACITY: nat := 256 * 1024
  const AGGREGATE_CAPACITY: nat := 2 * 1024 * 1024
  const DRAIN_PER_FRAME: nat := 8
  const NAME_CAPACITY: nat := 128

  datatype Route = InitResponse | Notification | InvokeResponse | OtherNotify | DownloadNotification

  datatype Event = Event(route: Route, index: int, arrival: nat, payload: bytes, terminal: bool)

  /** A slot of the pending table. */
  datatype Slot = Slot(active: bool, index: int, name: string, terminalQueued: bool)

  const NO_SLOT := Slot(false, 0, "", false)

  /** What a drain is doing with the event in its hands. */
  datatype Phase = Looking | Holding(event: Event) | InUnity(event: Event) | Over

  /** A call of combo_bridge_after_render that may drain, and the events it took. */
  datatype Drain = Drain(thread: nat, taken: nat, phase: Phase)

  /** What happened, in order, as far as delivery is concerned: the focus changed,
      nativeRender returned, combo_bridge_after_render was called, a drain took an
      event from the queue, a drain called Unity with its payload. */
  datatype Mark =
    | FocusChange
    | Rendered
    | Called
    | Took(arrival: nat, drain: nat)
    | Delivered(arrival: nat, drain: nat, route: Route, payload: bytes)

  datatype View = View(
    events: seq<Event>, pending: seq<Slot>, payloadBytes: nat, arrivals: nat,
    accepting: bool, focused: bool, renderReady: bool,
    drains: seq<Drain>,
    trace: seq<Mark>)

  predicate RequiresPending(r: Route) { r.InitResponse? || r.InvokeResponse? }

  /** The slot find_pending_locked returns, or the number of slots. */
  function FindPending(pending: seq<Slot>, index: int): (k: nat)
    ensures k <= |pending| && (k < |pending| ==> pending[k].active && pending[k].index == index)
    ensures forall j | 0 <= j < k :: !(pending[j].active && pending[j].index == index)
  {
    if pending == [] || (pending[0].active && pending[0].index == index) then 0
      else 1 + FindPending(pending[1..], index)
  }

  function FindFree(pending: seq<Slot>): (k: nat)
    ensures k <= |pending| && (k < |pending| ==> !pending[k].active)
    ensures forall j | 0 <= j < k :: pending[j].active
  {
    if pending == [] || !pending[0].active then 0 else 1 + FindFree(pending[1..])
  }

  function Total(events: seq<Event>): nat {
    if events == [] then 0 else Total(events[..|events| - 1]) + |events[|events| - 1].payload|
  }

  // ---- operations ----

  predicate CanObserve(v: View, name: string, index: int) {
    && 0 < |name| < NAME_CAPACITY && v.accepting && index >= 0
    && FindPending(v.pending, index) == |v.pending| && FindFree(v.pending) < |v.pending|
  }

  /** A one-way call, with a negative index, is accepted but never pending. */
  function Observe(v: View, name: string, index: int): View {
    if CanObserve(v, name, index) then
      v.(pending := v.pending[FindFree(v.pending) := Slot(true, index, name, false)])
    else v
  }

  predicate CanEnqueue(v: View, route: Route, index: int, payload: bytes, terminal: bool) {
    && |payload| <= PAYLOAD_CAPACITY && 0 !in payload && v.accepting
    && (RequiresPending(route) ==>
          var k := FindPending(v.pending, index);
          && k < |v.pending|
          && (route.InitResponse? ==> v.pending[k].name == "login_init")
          && (terminal ==> !v.pending[k].terminalQueued))
    && |v.events| < EVENT_CAPACITY && v.payloadBytes + |payload| <= AGGREGATE_CAPACITY
  }

  function Enqueue(v: View, route: Route, index: int, payload: bytes, terminal: bool): View {
    if !CanEnqueue(v, route, index, payload, terminal) then v
    else
      var e := Event(route, index, v.arrivals + 1, payload, terminal);
      var k := FindPending(v.pending, index);
      v.(events := v.events + [e], arrivals := v.arrivals + 1, payloadBytes := v.payloadBytes + |payload|,
         pending := if RequiresPending(route) && terminal && k < |v.pending|
                    then v.pending[k := v.pending[k].(terminalQueued := true)] else v.pending)
  }

  function SetFocus(v: View, focused: bool): View {
    v.(focused := focused, renderReady := false, trace := v.trace + [FocusChange])
  }

  /** combo_bridge_after_render, up to its loop. */
  function Call(v: View, thread: nat): View {
    var w := v.(trace := v.trace + [Called]);
    if v.accepting && v.focused then w.(renderReady := true, drains := v.drains + [Drain(thread, 0, Looking)]) else w
  }

  predicate CanPop(v: View) { v.accepting && v.focused && v.renderReady && v.events != [] }

  function SetPhase(v: View, d: nat, phase: Phase): View
    requires d < |v.drains|
  {
    v.(drains := v.drains[d := v.drains[d].(phase := phase)])
  }

  /** One turn of the loop, up to the call into Unity; or the loop ends. */
  function Take(v: View, d: nat): View
    requires d < |v.drains|
  {
    if v.drains[d].taken >= DRAIN_PER_FRAME || !CanPop(v) then SetPhase(v, d, Over)
    else
      var e := v.events[0];
      v.(events := v.events[1..],
         payloadBytes := if |e.payload| <= v.payloadBytes then v.payloadBytes - |e.payload| else 0,
         drains := v.drains[d := Drain(v.drains[d].thread, v.drains[d].taken + 1, Holding(e))],
         trace := v.trace + [Took(e.arrival, d)])
  }

  /** Unity is called with the event taken. */
  function Deliver(v: View, d: nat): View
    requires d < |v.drains| && v.drains[d].phase.Holding?
  {
    var e := v.drains[d].phase.event;
    SetPhase(v, d, InUnity(e)).(trace := v.trace + [Delivered(e.arrival, d, e.route, e.payload)])
  }

  /** Unity returned: a terminal response releases its index. */
  function Complete(v: View, d: nat): View
    requires d < |v.drains| && v.drains[d].phase.InUnity?
  {
    var e := v.drains[d].phase.event;
    var k := FindPending(v.pending, e.index);
    SetPhase(v, d, Looking).(
      pending := if RequiresPending(e.route) && e.terminal && k < |v.pending|
                 then v.pending[k := NO_SLOT] else v.pending)
  }

  function ShutDown(v: View): View {
    v.(events := [], pending := seq(|v.pending|, _ => NO_SLOT), payloadBytes := 0, accepting := false,
        focused := false, renderReady := false)
  }

  datatype Action =
    | ObserveInvoke(name: string, index: int)
    | EnqueueCallback(route: Route, index: int, payload: bytes, terminal: bool)
    | SetFocused(focused: bool)
    | RenderReturned
    | AfterRender(thread: nat)
    | TakeEvent(d: nat)
    | CallUnity(d: nat)
    | CompleteEvent(d: nat)
    | Shutdown

  /** The drains a thread is in are nested: only the innermost one runs. */
  predicate Outside(p: Phase) { p.InUnity? || p.Over? }

  predicate Innermost(v: View, d: nat)
    requires d < |v.drains|
  {
    forall i | d < i < |v.drains| && v.drains[i].thread == v.drains[d].thread :: v.drains[i].phase.Over?
  }

  /** What can happen next. combo_bridge_after_render may be called whenever its
      thread runs code outside the bridge: between drains, or called from one. */
  predicate Allowed(v: View, a: Action) {
    match a
    case AfterRender(thread) =>
      forall i | 0 <= i < |v.drains| && v.drains[i].thread == thread :: Outside(v.drains[i].phase)
    case TakeEvent(d) => d < |v.drains| && Innermost(v, d) && v.drains[d].phase.Looking?
    case CallUnity(d) => d < |v.drains| && v.drains[d].phase.Holding?
    case CompleteEvent(d) => d < |v.drains| && Innermost(v, d) && v.drains[d].phase.InUnity?
    case _ => true
  }

  function After(v: View, a: Action): View
    requires Allowed(v, a)
  {
    match a
    case ObserveInvoke(name, index) => Observe(v, name, index)
    case EnqueueCallback(route, index, payload, terminal) => Enqueue(v, route, index, payload, terminal)
    case SetFocused(focused) => SetFocus(v, focused)
    case RenderReturned => v.(trace := v.trace + [Rendered])
    case AfterRender(thread) => Call(v, thread)
    case TakeEvent(d) => Take(v, d)
    case CallUnity(d) => Deliver(v, d)
    case CompleteEvent(d) => Complete(v, d)
    case Shutdown => ShutDown(v)
  }

  // ---- the invariant ----

  predicate Ends(e: Event, index: int) { RequiresPending(e.route) && e.terminal && e.index == index }

  function Ending(index: int): Event -> bool { (e: Event) => Ends(e, index) }

  predicate InHand(p: Phase) { p.Holding? || p.InUnity? }

  predicate HoldsEnd(d: Drain, index: int) { InHand(d.phase) && Ends(d.phase.event, index) }

  function HoldingEnd(index: int): Drain -> bool { (d: Drain) => HoldsEnd(d, index) }

  /** The terminal responses for `index`, queued or in the hands of a drain. */
  function Outstanding(v: View, index: int): nat {
    Count(v.drains, HoldingEnd(index)) + Count(v.events, Ending(index))
  }

  predicate QueueOk(v: View) {
    && |v.events| <= EVENT_CAPACITY && v.payloadBytes == Total(v.events) <= AGGREGATE_CAPACITY
    && (forall i, j | 0 <= i < j < |v.events| :: v.events[i].arrival < v.events[j].arrival)
    && (forall i | 0 <= i < |v.events| ::
        v.events[i].arrival <= v.arrivals && |v.events[i].payload| <= PAYLOAD_CAPACITY)
  }

  /** Events are taken in order of arrival. */
  predicate TakenInOrder(trace: seq<Mark>) {
    forall i, j | 0 <= i < j < |trace| && trace[i].Took? && trace[j].Took? :: trace[i].arrival < trace[j].arrival
  }

  /** No event is delivered twice. */
  predicate DeliveredOnce(trace: seq<Mark>) {
    forall i, j | 0 <= i < j < |trace| && trace[i].Delivered? && trace[j].Delivered? ::
        trace[i].arrival != trace[j].arrival
  }

  /** Mark `m` is about an event taken from the queue before `arrival`. */
  predicate Before(m: Mark, arrival: nat) { (m.Took? || m.Delivered?) ==> m.arrival < arrival }

  predicate DeliveriesOk(v: View) {
    && TakenInOrder(v.trace) && DeliveredOnce(v.trace)
    && (forall i, j | 0 <= i < |v.trace| && 0 <= j < |v.events| :: Before(v.trace[i], v.events[j].arrival))
    && (forall i | 0 <= i < |v.trace| :: Before(v.trace[i], v.arrivals + 1))
  }

  predicate HandsOk(v: View) {
    && (forall d | 0 <= d < |v.drains| && InHand(v.drains[d].phase) :: v.drains[d].phase.event.arrival <= v.arrivals)
    && (forall d, j | 0 <= d < |v.drains| && InHand(v.drains[d].phase) && 0 <= j < |v.events| ::
          v.drains[d].phase.event.arrival < v.events[j].arrival)
    && (forall c, d | 0 <= c < d < |v.drains| && v.drains[c].phase.Holding? && v.drains[d].phase.Holding? ::
          v.drains[c].phase.event.arrival != v.drains[d].phase.event.arrival)
    && (forall d, i | 0 <= d < |v.drains| && v.drains[d].phase.Holding? && 0 <= i < |v.trace|
        && v.trace[i].Delivered? ::
          v.trace[i].arrival != v.drains[d].phase.event.arrival)
  }

  /** Is the last `m` later than the last change of focus? */
  predicate Since(trace: seq<Mark>, m: Mark) {
    trace != [] && (trace[|trace| - 1] == m
                    || (trace[|trace| - 1] != FocusChange && Since(trace[..|trace| - 1], m)))
  }

  predicate CallsOk(v: View) {
    && (v.renderReady <==> v.accepting && v.focused && Since(v.trace, Called))
    && (forall k | 0 <= k < |v.trace| && v.trace[k].Took? :: Since(v.trace[..k], Called))
  }

  predicate PendingOk(v: View) {
    && |v.pending| == PENDING_CAPACITY
    && (forall i, j | 0 <= i < j < |v.pending| && v.pending[i].active && v.pending[j].active ::
        v.pending[i].index != v.pending[j].index)
    && (forall k | 0 <= k < |v.pending| && v.pending[k].active ::
          v.pending[k].index >= 0 && Outstanding(v, v.pending[k].index) == One(v.pending[k].terminalQueued))
  }

  /** Until the shutdown, an outstanding terminal response has its index pending. */
  ghost predicate EndsPending(v: View) {
    v.accepting ==> forall index :: Outstanding(v, index) > 0 ==> FindPending(v.pending, index) < |v.pending|
  }

  predicate TakesIn(m: Mark, d: nat) { m.Took? && m.drain == d }

  function TakenBy(d: nat): Mark -> bool { (m: Mark) => TakesIn(m, d) }

  predicate DrainsOk(v: View) {
    && (forall d: nat | d < |v.drains| :: v.drains[d].taken == Count(v.trace, TakenBy(d)) <= DRAIN_PER_FRAME)
    && (forall k | 0 <= k < |v.trace| && v.trace[k].Took? :: v.trace[k].drain < |v.drains|)
  }

  /** Under an open drain of its thread a drain is in Unity's hands. */
  predicate NestedOk(v: View) {
    forall i, j | 0 <= i < j < |v.drains| && v.drains[i].thread == v.drains[j].thread && !v.drains[j].phase.Over? ::
      Outside(v.drains[i].phase)
  }

  ghost predicate Inv(v: View) {
    && QueueOk(v) && DeliveriesOk(v) && HandsOk(v) && CallsOk(v) && DrainsOk(v) && NestedOk(v)
    && (v.accepting ==> PendingOk(v)) && EndsPending(v)
    && (!v.accepting ==> v.events == [] && forall k | 0 <= k < |v.pending| :: !v.pending[k].active)
  }

  const START := View([], seq(PENDING_CAPACITY, _ => NO_SLOT), 0, 0, true, false, false, [], [])

  lemma StartInv()
    ensures Inv(START)
  {
    assert forall index :: Outstanding(START, index) == 0;
  }

  // ---- the queue: order and size ----

  lemma TotalAppend(events: seq<Event>, e: Event)
    ensures Total(events + [e]) == Total(events) + |e.payload|
  {
    assert (events + [e])[..|events|] == events;
  }

  lemma {:induction false} TotalHead(events: seq<Event>)
    requires events != []
    ensures Total(events) == |events[0].payload| + Total(events[1..])
    decreases |events|
  {
    var n := |events| - 1;
    if n > 0 {
      TotalHead(events[..n]);
      assert events[..n][1..] == events[1..][..n - 1];
    }
  }

  lemma QueueKeeps(v: View, a: Action)
    requires Inv(v) && Allowed(v, a)
    ensures QueueOk(After(v, a))
  {
    hide DeliveriesOk, HandsOk, CallsOk, DrainsOk, NestedOk, PendingOk, EndsPending, CanEnqueue, Total;
    match a
    case EnqueueCallback(route, index, payload, terminal) =>
      if CanEnqueue(v, route, index, payload, terminal) { EnqueuedQueue(v, route, index, payload, terminal); }
    case TakeEvent(d) => if v.events != [] { PoppedQueue(v, d); }
    case Shutdown => NoEvents(After(v, a));
    case _ =>
  }

  lemma NoEvents(v: View)
    requires v.events == [] && v.payloadBytes == 0
    ensures QueueOk(v)
  {
  }

  lemma EnqueuedQueue(v: View, route: Route, index: int, payload: bytes, terminal: bool)
    requires QueueOk(v) && CanEnqueue(v, route, index, payload, terminal)
    ensures QueueOk(Enqueue(v, route, index, payload, terminal))
  {
    hide Total;
    TotalAppend(v.events, Event(route, index, v.arrivals + 1, payload, terminal));
  }

  lemma PoppedQueue(v: View, d: nat)
    requires QueueOk(v) && v.events != [] && d < |v.drains|
    ensures QueueOk(Take(v, d))
  {
    hide Total;
    TotalHead(v.events);
  }

  // ---- taking and delivering ----

  lemma DeliveriesKeep(v: View, a: Action)
    requires Inv(v) && Allowed(v, a)
    ensures DeliveriesOk(After(v, a))
  {
    hide Total, QueueOk, HandsOk, CallsOk, DrainsOk, NestedOk, PendingOk, EndsPending, FindPending, FindFree, Before;
    match a
    case EnqueueCallback(route, index, payload, terminal) => EnqueueDeliveries(v, route, index, payload, terminal);
    case TakeEvent(d) => TakeDeliveries(v, d);
    case CallUnity(d) => CallDeliveries(v, d);
    case SetFocused(_) => MarkDeliveries(v, After(v, a));
    case RenderReturned => MarkDeliveries(v, After(v, a));
    case AfterRender(_) => MarkDeliveries(v, After(v, a));
    case _ =>
  }

  lemma EnqueueDeliveries(v: View, route: Route, index: int, payload: bytes, terminal: bool)
    requires DeliveriesOk(v)
    ensures DeliveriesOk(Enqueue(v, route, index, payload, terminal))
  {
    hide Total, CanEnqueue, FindPending;
  }

  /** Marks that are about no event. */
  lemma MarkDeliveries(v: View, w: View)
    requires DeliveriesOk(v) && w.events == v.events && w.arrivals == v.arrivals && |w.trace| == |v.trace| + 1
    requires w.trace[..|v.trace|] == v.trace && !w.trace[|v.trace|].Took? && !w.trace[|v.trace|].Delivered?
    ensures DeliveriesOk(w)
  {
    assert forall i | 0 <= i < |v.trace| :: w.trace[i] == v.trace[i];
  }

  lemma TakeDeliveries(v: View, d: nat)
    requires DeliveriesOk(v) && QueueOk(v) && d < |v.drains|
    ensures DeliveriesOk(Take(v, d))
  {
    hide Total;
  }

  lemma CallDeliveries(v: View, d: nat)
    requires DeliveriesOk(v) && HandsOk(v) && d < |v.drains| && v.drains[d].phase.Holding?
    ensures DeliveriesOk(Deliver(v, d))
  {
  }

  lemma HandsKeep(v: View, a: Action)
    requires Inv(v) && Allowed(v, a)
    ensures HandsOk(After(v, a))
  {
    hide Total, QueueOk, DeliveriesOk, CallsOk, DrainsOk, NestedOk, PendingOk, EndsPending, FindPending, FindFree;
    match a
    case TakeEvent(d) => TakeHands(v, d);
    case CallUnity(d) => CallHands(v, d);
    case _ => SameHands(v, After(v, a));
  }

  lemma SameHands(v: View, w: View)
    requires HandsOk(v) && w.arrivals >= v.arrivals
    requires forall d | 0 <= d < |w.drains| && InHand(w.drains[d].phase) ::
               d < |v.drains| && InHand(v.drains[d].phase) && w.drains[d].phase == v.drains[d].phase
    requires forall j | 0 <= j < |w.events| ::
               w.events[j].arrival > v.arrivals || (j < |v.events| && w.events[j] == v.events[j])
    requires forall i | 0 <= i < |w.trace| && w.trace[i].Delivered? :: i < |v.trace| && w.trace[i] == v.trace[i]
    ensures HandsOk(w)
  {
  }

  lemma CallHands(v: View, d: nat)
    requires HandsOk(v) && d < |v.drains| && v.drains[d].phase.Holding?
    ensures HandsOk(Deliver(v, d))
  {
  }

  lemma TakeHands(v: View, d: nat)
    requires QueueOk(v) && HandsOk(v) && DeliveriesOk(v) && d < |v.drains| && v.drains[d].phase.Looking?
    ensures HandsOk(Take(v, d))
  {
    hide Total;
  }

  /** A later mark other than a change of focus does not matter. */
  lemma SinceAppend(trace: seq<Mark>, m: Mark, next: Mark)
    ensures Since(trace + [next], m) == (next == m || (next != FocusChange && Since(trace, m)))
  {
    assert (trace + [next])[..|trace|] == trace;
  }

  /** What `Since` says, at a glance. */
  lemma {:induction false} SinceMeans(trace: seq<Mark>, m: Mark)
    requires m != FocusChange
    ensures Since(trace, m) <==>
              exists r :: 0 <= r < |trace| && trace[r] == m && forall i | r < i < |trace| :: trace[i] != FocusChange
    decreases |trace|
  {
    if trace != [] {
      var n := |trace| - 1;
      SinceMeans(trace[..n], m);
      if trace[n] == m {
      } else if trace[n] != FocusChange && Since(trace[..n], m) {
        var r :| 0 <= r < n && trace[..n][r] == m && forall i | r < i < n :: trace[..n][i] != FocusChange;
        assert trace[r] == m && forall i | r < i < |trace| :: trace[i] != FocusChange by {
          forall i | r < i < |trace| ensures trace[i] != FocusChange { if i < n { assert trace[..n][i] == trace[i]; } }
        }
      }
      if r :| 0 <= r < |trace| && trace[r] == m && forall i | r < i < |trace| :: trace[i] != FocusChange {
        if r < n {
          assert trace[..n][r] == m && forall i | r < i < n :: trace[..n][i] == trace[i] != FocusChange;
        }
      }
    }
  }

  lemma CallsKeep(v: View, a: Action)
    requires Inv(v) && Allowed(v, a)
    ensures CallsOk(After(v, a))
  {
    hide QueueOk, DeliveriesOk, HandsOk, DrainsOk, NestedOk, PendingOk, EndsPending, Since, FindPending, FindFree;
    var w := After(v, a);
    if |w.trace| > |v.trace| { SinceAppend(v.trace, Called, w.trace[|v.trace|]); }
    forall k | 0 <= k < |w.trace| && w.trace[k].Took? ensures Since(w.trace[..k], Called) {
      assert w.trace[..k] == v.trace[..k];
      if k == |v.trace| { assert v.trace[..k] == v.trace; }
    }
  }

  // ---- drains ----

  lemma {:induction false} CountSplit<T>(s: seq<T>, t: seq<T>, p: T -> bool)
    ensures Count(s + t, p) == Count(s, p) + Count(t, p)
    decreases |s|
  {
    if s == [] {
      assert s + t == t;
    } else {
      CountSplit(s[1..], t, p);
      assert (s + t)[1..] == s[1..] + t;
    }
  }

  lemma CountAppend<T>(s: seq<T>, x: T, p: T -> bool)
    ensures Count(s + [x], p) == Count(s, p) + One(p(x))
  {
    CountSplit(s, [x], p);
    assert [x][1..] == [];
  }

  lemma DrainsKeep(v: View, a: Action)
    requires Inv(v) && Allowed(v, a)
    ensures DrainsOk(After(v, a))
  {
    hide QueueOk, DeliveriesOk, HandsOk, CallsOk, NestedOk, PendingOk, EndsPending, Count, FindPending, FindFree;
    var w := After(v, a);
    forall d: nat | d < |w.drains| ensures w.drains[d].taken == Count(w.trace, TakenBy(d)) <= DRAIN_PER_FRAME {
      if |w.trace| > |v.trace| {
        assert w.trace == v.trace + [w.trace[|v.trace|]];
        CountAppend(v.trace, w.trace[|v.trace|], TakenBy(d));
      }
      if d == |v.drains| { CountZero(v.trace, TakenBy(d)); }
    }
  }

  lemma NestedKeeps(v: View, a: Action)
    requires Inv(v) && Allowed(v, a)
    ensures NestedOk(After(v, a))
  {
    hide QueueOk, DeliveriesOk, HandsOk, CallsOk, DrainsOk, PendingOk, EndsPending, FindPending, FindFree;
  }

  // ---- the pending table ----

  lemma Found(pending: seq<Slot>, k: nat)
    requires k < |pending| && pending[k].active
    ensures FindPending(pending, pending[k].index) <= k
  {
  }

  lemma OnlyFound(v: View, k: nat)
    requires PendingOk(v) && k < |v.pending| && v.pending[k].active
    ensures FindPending(v.pending, v.pending[k].index) == k
  {
    hide Count;
    Found(v.pending, k);
  }

  /** A terminal response under way is the only one of its index, which is pending. */
  lemma AtMostOneEnd(v: View, index: int)
    requires v.accepting && PendingOk(v) && EndsPending(v)
    ensures Outstanding(v, index) <= 1
    ensures Outstanding(v, index) > 0 ==> FindPending(v.pending, index) < |v.pending|
  {
    hide Outstanding;
    if Outstanding(v, index) > 0 { assert v.pending[FindPending(v.pending, index)].index == index; }
  }

  lemma ObserveKeeps(v: View, name: string, index: int)
    requires Inv(v)
    ensures var w := Observe(v, name, index); (w.accepting ==> PendingOk(w)) && EndsPending(w)
  {
    hide Count, QueueOk, DeliveriesOk, HandsOk, CallsOk, DrainsOk, NestedOk;
    if CanObserve(v, name, index) {
      var w := Observe(v, name, index);
      AtMostOneEnd(v, index);
      assert forall i :: Outstanding(w, i) == Outstanding(v, i);
      forall i | Outstanding(w, i) > 0 ensures FindPending(w.pending, i) < |w.pending| {
        var k := FindPending(v.pending, i);
        assert w.pending[k] == v.pending[k];
        Found(w.pending, k);
      }
    }
  }

  lemma EnqueueKeeps(v: View, route: Route, index: int, payload: bytes, terminal: bool)
    requires Inv(v)
    ensures var w := Enqueue(v, route, index, payload, terminal); (w.accepting ==> PendingOk(w)) && EndsPending(w)
  {
    hide Count, QueueOk, DeliveriesOk, HandsOk, CallsOk, DrainsOk, NestedOk, FindPending, Outstanding;
    if CanEnqueue(v, route, index, payload, terminal) {
      var w := Enqueue(v, route, index, payload, terminal);
      var e := w.events[|v.events|];
      forall i ensures Outstanding(w, i) == Outstanding(v, i) + One(Ends(e, i)) {
        EnqueueOutstanding(v, w, e, i);
      }
      forall k | 0 <= k < |w.pending| && w.pending[k].active
        ensures w.pending[k].index >= 0 && Outstanding(w, w.pending[k].index) == One(w.pending[k].terminalQueued)
      {
        OnlyFound(v, k);
      }
      forall i | Outstanding(w, i) > 0 ensures FindPending(w.pending, i) < |w.pending| {
        var k := FindPending(v.pending, i);
        assert k < |v.pending|;
        Found(w.pending, k);
      }
    }
  }

  lemma EnqueueOutstanding(v: View, w: View, e: Event, index: int)
    requires w.drains == v.drains && w.events == v.events + [e]
    ensures Outstanding(w, index) == Outstanding(v, index) + One(Ends(e, index))
  {
    CountAppend(v.events, e, Ending(index));
  }

  lemma CountHead<T>(s: seq<T>, p: T -> bool)
    requires s != []
    ensures Count(s, p) == One(p(s[0])) + Count(s[1..], p)
  {
  }

  /** Taking an event moves it from the queue into a hand. */
  lemma TakeKeepsOutstanding(v: View, d: nat, index: int)
    requires d < |v.drains| && v.drains[d].phase.Looking?
    ensures Outstanding(Take(v, d), index) == Outstanding(v, index)
  {
    hide Count;
    CountUpdate(v.drains, d, Take(v, d).drains[d], HoldingEnd(index));
    if v.events != [] { CountHead(v.events, Ending(index)); }
  }

  lemma DeliverKeepsOutstanding(v: View, d: nat, index: int)
    requires d < |v.drains| && v.drains[d].phase.Holding?
    ensures Outstanding(Deliver(v, d), index) == Outstanding(v, index)
  {
    hide Count;
    CountUpdate(v.drains, d, Deliver(v, d).drains[d], HoldingEnd(index));
  }

  lemma CompleteDropsOutstanding(v: View, d: nat, index: int)
    requires d < |v.drains| && v.drains[d].phase.InUnity?
    ensures Outstanding(Complete(v, d), index) + One(Ends(v.drains[d].phase.event, index)) == Outstanding(v, index)
  {
    hide Count, FindPending;
    CountUpdate(v.drains, d, Complete(v, d).drains[d], HoldingEnd(index));
  }

  lemma CallKeepsOutstanding(v: View, thread: nat, index: int)
    ensures Outstanding(Call(v, thread), index) == Outstanding(v, index)
  {
    hide Count;
    CountAppend(v.drains, Drain(thread, 0, Looking), HoldingEnd(index));
  }

  /** What leaves the pending table and the outstanding responses alone. */
  lemma SamePending(v: View, w: View)
    requires (v.accepting ==> PendingOk(v)) && EndsPending(v)
    requires w.pending == v.pending && w.accepting == v.accepting
    requires forall i :: Outstanding(w, i) == Outstanding(v, i)
    ensures (w.accepting ==> PendingOk(w)) && EndsPending(w)
  {
    hide Outstanding;
  }

  lemma CompleteKeeps(v: View, d: nat)
    requires Inv(v) && d < |v.drains| && v.drains[d].phase.InUnity?
    ensures var w := Complete(v, d); (w.accepting ==> PendingOk(w)) && EndsPending(w)
  {
    hide Outstanding, Count, QueueOk, DeliveriesOk, HandsOk, CallsOk, DrainsOk, NestedOk, FindPending;
    var w, e := Complete(v, d), v.drains[d].phase.event;
    forall i ensures Outstanding(w, i) + One(Ends(e, i)) == Outstanding(v, i) { CompleteDropsOutstanding(v, d, i); }
    if v.accepting {
      AtMostOneEnd(v, e.index);
      forall k | 0 <= k < |w.pending| && w.pending[k].active
        ensures w.pending[k].index >= 0 && Outstanding(w, w.pending[k].index) == One(w.pending[k].terminalQueued)
      {
        OnlyFound(v, k);
      }
      forall i | Outstanding(w, i) > 0 ensures FindPending(w.pending, i) < |w.pending| {
        AtMostOneEnd(v, i);
        var k := FindPending(v.pending, i);
        assert w.pending[k] == v.pending[k];
        Found(w.pending, k);
      }
    }
  }

  lemma PendingKeeps(v: View, a: Action)
    requires Inv(v) && Allowed(v, a)
    ensures (After(v, a).accepting ==> PendingOk(After(v, a))) && EndsPending(After(v, a))
  {
    hide Count, QueueOk, DeliveriesOk, HandsOk, CallsOk, DrainsOk, NestedOk, PendingOk, EndsPending, FindPending,
         FindFree, CanEnqueue, CanPop;
    var w := After(v, a);
    match a
    case ObserveInvoke(name, index) => ObserveKeeps(v, name, index);
    case EnqueueCallback(route, index, payload, terminal) => EnqueueKeeps(v, route, index, payload, terminal);
    case SetFocused(_) => SamePending(v, w);
    case RenderReturned => SamePending(v, w);
    case AfterRender(thread) =>
      forall i ensures Outstanding(w, i) == Outstanding(v, i) { CallKeepsOutstanding(v, thread, i); }
      SamePending(v, w);
    case TakeEvent(d) =>
      forall i ensures Outstanding(w, i) == Outstanding(v, i) { TakeKeepsOutstanding(v, d, i); }
      SamePending(v, w);
    case CallUnity(d) =>
      forall i ensures Outstanding(w, i) == Outstanding(v, i) { DeliverKeepsOutstanding(v, d, i); }
      SamePending(v, w);
    case CompleteEvent(d) => CompleteKeeps(v, d);
    case Shutdown => NotAccepting(w);
  }

  lemma NotAccepting(v: View)
    requires !v.accepting
    ensures EndsPending(v)
  {
  }

  /** Every action keeps the invariant. */
  lemma ActionKeeps(v: View, a: Action)
    requires Inv(v) && Allowed(v, a)
    ensures Inv(After(v, a))
  {
    hide QueueOk, DeliveriesOk, HandsOk, CallsOk, DrainsOk, NestedOk, PendingOk, EndsPending, FindPending, FindFree;
    QueueKeeps(v, a);
    DeliveriesKeep(v, a);
    HandsKeep(v, a);
    CallsKeep(v, a);
    DrainsKeep(v, a);
    NestedKeeps(v, a);
    PendingKeeps(v, a);
  }

  // ---- which indices are pending ----

  /** The call pending under `index`. */
  function NameOf(v: View, index: int): Option<string> {
    var k := FindPending(v.pending, index);
    if k < |v.pending| then Some(v.pending[k].name) else None
  }

  predicate Opens(v: View, a: Action, index: int) {
    a.ObserveInvoke? && a.index == index && CanObserve(v, a.name, index)
  }

  /** The delivery of a terminal response for `index` returns, or the bridge shuts down. */
  predicate Closes(v: View, a: Action, index: int)
    requires Allowed(v, a)
  {
    a.Shutdown? || (a.CompleteEvent? && Ends(v.drains[a.d].phase.event, index))
  }

  /** A call is observed exactly while the bridge accepts, if its name fits, its
      index is neither negative nor pending, and a slot is free. */
  lemma ObservedExactly(v: View, name: string, index: int)
    ensures CanObserve(v, name, index) <==>
              && 0 < |name| < NAME_CAPACITY && v.accepting && index >= 0
              && (forall k | 0 <= k < |v.pending| && v.pending[k].active :: v.pending[k].index != index)
              && (exists k | 0 <= k < |v.pending| :: !v.pending[k].active)
  {
    var k := FindFree(v.pending);
    if k < |v.pending| { assert !v.pending[k].active; }
  }

  /** A callback is accepted exactly while the bridge accepts, if its payload has no
      NUL and there is room for it, and, for a response, if its index is pending,
      for login_init where the route says so, and no terminal response for it is
      already under way. */
  lemma EnqueuedExactly(v: View, route: Route, index: int, payload: bytes, terminal: bool)
    requires Inv(v)
    ensures CanEnqueue(v, route, index, payload, terminal) <==>
              && |payload| <= PAYLOAD_CAPACITY && 0 !in payload && v.accepting
              && |v.events| < EVENT_CAPACITY && Total(v.events) + |payload| <= AGGREGATE_CAPACITY
              && (RequiresPending(route) ==> NameOf(v, index).Some?)
              && (route.InitResponse? ==> NameOf(v, index) == Some("login_init"))
              && (RequiresPending(route) && terminal ==> Outstanding(v, index) == 0)
  {
    hide Outstanding, Total, DeliveriesOk, HandsOk, CallsOk, DrainsOk, NestedOk, EndsPending;
    if v.accepting {
      var k := FindPending(v.pending, index);
      assert k < |v.pending| ==> Outstanding(v, index) == One(v.pending[k].terminalQueued);
    }
  }

  /** The delivery of a terminal response returned: its slot is free, every other
      slot is what it was, and its index can be observed again. */
  lemma CompleteReleases(v: View, d: nat, name: string)
    requires Inv(v) && Allowed(v, CompleteEvent(d))
    ensures var e, w := v.drains[d].phase.event, Complete(v, d);
            && |w.pending| == |v.pending|
            && (RequiresPending(e.route) && e.terminal ==>
                  && (forall k | 0 <= k < |w.pending| && w.pending[k].active :: w.pending[k].index != e.index)
                  && (v.accepting && 0 < |name| < NAME_CAPACITY ==> CanObserve(w, name, e.index)))
            && (forall k | 0 <= k < |v.pending| :: w.pending[k] == v.pending[k] || Freed(v.pending[k], w.pending[k], e))
  {
    hide QueueOk, DeliveriesOk, HandsOk, CallsOk, DrainsOk, NestedOk, FindPending, FindFree;
    var e, w := v.drains[d].phase.event, Complete(v, d);
    var k := FindPending(v.pending, e.index);
    if v.accepting && RequiresPending(e.route) && e.terminal {
      HeldIsOutstanding(v, d);
      AtMostOneEnd(v, e.index);
      assert !w.pending[k].active && v.pending[k].index == e.index;
      ObservedExactly(w, name, e.index);
    }
  }

  predicate Freed(before: Slot, now: Slot, e: Event) {
    RequiresPending(e.route) && e.terminal && before.active && before.index == e.index && !now.active
  }

  lemma HeldIsOutstanding(v: View, d: nat)
    requires d < |v.drains| && InHand(v.drains[d].phase)
    requires RequiresPending(v.drains[d].phase.event.route) && v.drains[d].phase.event.terminal
    ensures Outstanding(v, v.drains[d].phase.event.index) > 0
  {
    hide Count;
    CountZero(v.drains, HoldingEnd(v.drains[d].phase.event.index));
  }

  /** One step: an index is pending from the call observed under it until the
      delivery of its terminal response returns, and keeps its name meanwhile. */
  lemma NamesMove(v: View, a: Action, index: int)
    requires Inv(v) && Allowed(v, a)
    ensures NameOf(After(v, a), index) ==
              if Opens(v, a, index) then Some(a.name)
              else if Closes(v, a, index) then None
              else NameOf(v, index)
  {
    hide QueueOk, DeliveriesOk, HandsOk, CallsOk, DrainsOk, NestedOk, EndsPending, FindPending, FindFree, CanEnqueue,
         Outstanding, NameOf;
    var w := After(v, a);
    NoName(v, index);
    match a
    case ObserveInvoke(name, i) =>
      NoName(v, i);
      if CanObserve(v, name, i) { NamesAt(v, w, FindFree(v.pending), index); }
    case EnqueueCallback(_, i, _, _) =>
      var k := FindPending(v.pending, i);
      if w.pending != v.pending { NamesAt(v, w, k, index); } else { SameNames(v, w, index); }
    case CompleteEvent(d) =>
      var k := FindPending(v.pending, v.drains[d].phase.event.index);
      if w.pending != v.pending { NamesAt(v, w, k, index); } else { SameNames(v, w, index); }
    case Shutdown => NoName(w, index);
    case _ => SameNames(v, w, index);
  }

  lemma ObserveNames(v: View, name: string, index: int)
    requires Inv(v)
    ensures forall i ::
              NameOf(Observe(v, name, index), i) ==
              if CanObserve(v, name, index) && i == index then Some(name) else NameOf(v, i)
  {
    hide Inv, NameOf, CanObserve;
    var a := ObserveInvoke(name, index);
    forall i
      ensures NameOf(Observe(v, name, index), i) ==
              if CanObserve(v, name, index) && i == index then Some(name) else NameOf(v, i)
    {
      NamesMove(v, a, i);
      assert After(v, a) == Observe(v, name, index);
    }
  }

  lemma SameNames(v: View, w: View, index: int)
    requires w.pending == v.pending
    ensures NameOf(w, index) == NameOf(v, index)
  {
  }

  lemma NoName(v: View, index: int)
    ensures NameOf(v, index).None? <==>
              forall k | 0 <= k < |v.pending| && v.pending[k].active :: v.pending[k].index != index
  {
    hide FindPending;
  }

  /** What changing one slot does to the names. */
  lemma NamesAt(v: View, w: View, k: nat, index: int)
    requires k < |v.pending| == |w.pending| && w.pending == v.pending[k := w.pending[k]]
    requires forall i, j | 0 <= i < j < |v.pending| && v.pending[i].active && v.pending[j].active ::
               v.pending[i].index != v.pending[j].index
    requires w.pending[k].active && !v.pending[k].active ==> NameOf(v, w.pending[k].index).None?
    requires w.pending[k].active && v.pending[k].active ==> w.pending[k].index == v.pending[k].index
    ensures NameOf(w, index) ==
              if w.pending[k].active && w.pending[k].index == index then Some(w.pending[k].name)
              else if v.pending[k].active && v.pending[k].index == index then None
              else NameOf(v, index)
    ensures v.pending[k].active ==> NameOf(v, v.pending[k].index) == Some(v.pending[k].name)
  {
    hide FindPending;
    var i, j := FindPending(v.pending, index), FindPending(w.pending, index);
    if i < |v.pending| && i != k { assert w.pending[i] == v.pending[i]; }
    if j < |w.pending| && j != k { assert w.pending[j] == v.pending[j]; }
  }

  // ---- runs ----

  ghost predicate Runs(v: View, actions: seq<Action>, w: View)
    decreases |actions|
  {
    if actions == [] then v == w
    else Allowed(v, actions[0]) && Runs(After(v, actions[0]), actions[1..], w)
  }

  lemma {:induction false} RunKeeps(v: View, actions: seq<Action>, w: View)
    requires Inv(v) && Runs(v, actions, w)
    ensures Inv(w)
    decreases |actions|
  {
    hide Inv, Allowed, After;
    if actions != [] {
      ActionKeeps(v, actions[0]);
      RunKeeps(After(v, actions[0]), actions[1..], w);
    }
  }

  /** Whatever drains run at once: events leave the queue in order of arrival and
      none is delivered twice; the byte counter is the sum of the payloads queued;
      no drain takes more than eight. */
  lemma DrainedInOrder(actions: seq<Action>, w: View, d: nat)
    requires Runs(START, actions, w)
    ensures TakenInOrder(w.trace) && DeliveredOnce(w.trace)
    ensures w.payloadBytes == Total(w.events) <= AGGREGATE_CAPACITY && |w.events| <= EVENT_CAPACITY
    ensures Count(w.trace, TakenBy(d)) <= DRAIN_PER_FRAME
  {
    hide HandsOk, CallsOk, PendingOk, EndsPending, NestedOk, Count, Runs;
    StartInv();
    RunKeeps(START, actions, w);
    if d >= |w.drains| { CountZero(w.trace, TakenBy(d)); }
  }

  /** Between a change of focus and taking an event, combo_bridge_after_render was called. */
  lemma TakenAfterCall(actions: seq<Action>, w: View, k: nat)
    requires Runs(START, actions, w) && k < |w.trace| && w.trace[k].Took?
    ensures exists r :: 0 <= r < k && w.trace[r] == Called && forall m | r < m < k :: w.trace[m] != FocusChange
  {
    hide QueueOk, DeliveriesOk, HandsOk, DrainsOk, PendingOk, EndsPending, NestedOk, Runs, Since;
    StartInv();
    RunKeeps(START, actions, w);
    SinceMeans(w.trace[..k], Called);
    var r :| 0 <= r < k && w.trace[..k][r] == Called && forall m | r < m < k :: w.trace[..k][m] != FocusChange;
    assert w.trace[r] == Called;
    forall m | r < m < k ensures w.trace[m] != FocusChange { assert w.trace[..k][m] == w.trace[m]; }
  }

  /** One terminal response at most is outstanding for an index, in the queue or
      in any drain's hands, and while it is, the index cannot be observed again. */
  lemma OneTerminalResponse(actions: seq<Action>, w: View, index: int, name: string)
    requires Runs(START, actions, w) && w.accepting
    ensures Outstanding(w, index) <= 1
    ensures Outstanding(w, index) > 0 ==> !CanObserve(w, name, index)
  {
    hide Outstanding, Runs, QueueOk, DeliveriesOk, HandsOk, CallsOk, DrainsOk, NestedOk;
    StartInv();
    RunKeeps(START, actions, w);
    AtMostOneEnd(w, index);
  }

  // ---- delivery after a completed render: when it holds ----

  /** Before every delivery a render completed after the last change of focus. */
  predicate DeliveredAfterRender(trace: seq<Mark>) {
    forall k | 0 <= k < |trace| && trace[k].Delivered? :: Since(trace[..k], Rendered)
  }

  /** The calls that respect it: combo_bridge_after_render when a render completed
      since the focus changed, or when it will not drain; and the focus changes
      while no drain is about to call Unity. */
  predicate Respects(v: View, a: Action) {
    match a
    case AfterRender(_) => v.accepting && v.focused ==> Since(v.trace, Rendered)
    case SetFocused(_) => forall d | 0 <= d < |v.drains| :: !v.drains[d].phase.Holding?
    case _ => true
  }

  ghost predicate RespectfulRun(v: View, actions: seq<Action>, w: View)
    decreases |actions|
  {
    if actions == [] then v == w
    else Allowed(v, actions[0]) && Respects(v, actions[0]) && RespectfulRun(After(v, actions[0]), actions[1..], w)
  }

  predicate Kept(v: View) {
    && DeliveredAfterRender(v.trace)
    && (v.renderReady ==> Since(v.trace, Rendered))
    && (forall d | 0 <= d < |v.drains| && v.drains[d].phase.Holding? :: Since(v.trace, Rendered))
  }

  lemma RespectKeeps(v: View, a: Action)
    requires Kept(v) && Allowed(v, a) && Respects(v, a)
    ensures Kept(After(v, a))
  {
    hide Since, FindPending, FindFree, CanEnqueue;
    var w := After(v, a);
    if |w.trace| > |v.trace| {
      SinceAppend(v.trace, Rendered, w.trace[|v.trace|]);
    }
    forall k | 0 <= k < |w.trace| && w.trace[k].Delivered? ensures Since(w.trace[..k], Rendered) {
      assert w.trace[..k] == v.trace[..k];
      if k == |v.trace| { assert v.trace[..k] == v.trace; }
    }
  }

  lemma {:induction false} RespectfulRunKeeps(v: View, actions: seq<Action>, w: View)
    requires Kept(v) && RespectfulRun(v, actions, w)
    ensures Kept(w)
    decreases |actions|
  {
    hide Kept, Allowed, After, Respects;
    if actions != [] {
      RespectKeeps(v, actions[0]);
      RespectfulRunKeeps(After(v, actions[0]), actions[1..], w);
    }
  }

  /** A respectful run delivers only after completed renders. */
  lemma RespectfulRunsDeliverAfterRender(actions: seq<Action>, w: View, k: nat)
    requires RespectfulRun(START, actions, w) && k < |w.trace| && w.trace[k].Delivered?
    ensures exists r :: 0 <= r < k && w.trace[r] == Rendered && forall m | r < m < k :: w.trace[m] != FocusChange
  {
    hide RespectfulRun, Since;
    RespectfulRunKeeps(START, actions, w);
    SinceMeans(w.trace[..k], Rendered);
    var r :| 0 <= r < k && w.trace[..k][r] == Rendered && forall m | r < m < k :: w.trace[..k][m] != FocusChange;
    assert w.trace[r] == Rendered;
    forall m | r < m < k ensures w.trace[m] != FocusChange { assert w.trace[..k][m] == w.trace[m]; }
  }

  /** And exactly those: after a step that does not respect it, the rest of the
      program being as careful as one likes, an event is delivered too early. */
  lemma DeliveredAfterRenderExactly(v: View, a: Action)
    requires Inv(v) && Kept(v) && Allowed(v, a)
    ensures (forall actions, w :: RespectfulRun(After(v, a), actions, w) ==> DeliveredAfterRender(w.trace))
        <==> Respects(v, a)
  {
    hide RespectfulRun, Inv, Allowed, After, Respects;
    if Respects(v, a) {
      RespectKeeps(v, a);
      forall actions, w | RespectfulRun(After(v, a), actions, w) ensures DeliveredAfterRender(w.trace) {
        RespectfulRunKeeps(After(v, a), actions, w);
      }
    } else {
      var actions, w := TooEarly(v, a);
      assert RespectfulRun(After(v, a), actions, w);
    }
  }

  lemma TooEarly(v: View, a: Action) returns (actions: seq<Action>, w: View)
    requires Inv(v) && Allowed(v, a) && !Respects(v, a)
    ensures RespectfulRun(After(v, a), actions, w) && !DeliveredAfterRender(w.trace)
  {
    hide Inv, RespectfulRun, Since, FindPending, FindFree, DeliveredAfterRender;
    var u := After(v, a);
    SinceAppend(v.trace, Rendered, u.trace[|v.trace|]);
    if a.SetFocused? {
      var d :| 0 <= d < |v.drains| && v.drains[d].phase.Holding?;
      actions, w := DeliverNow(u, d);
    } else {
      ActionKeeps(v, a);
      var d := |v.drains|;
      var x := u;
      var before: seq<Action> := [];
      if u.events == [] {
        EmptyAdmits(u);
        x := After(u, EnqueueCallback(OtherNotify, 0, [], false));
        before := [EnqueueCallback(OtherNotify, 0, [], false)];
      }
      var y := After(x, TakeEvent(d));
      SinceAppend(x.trace, Rendered, y.trace[|x.trace|]);
      actions, w := DeliverNow(y, d);
      actions := RunFirst(x, TakeEvent(d), actions, w);
      if before != [] { actions := RunFirst(u, before[0], actions, w); }
    }
  }

  /** Unity is called now, with no render completed since the focus changed. */
  lemma DeliverNow(v: View, d: nat) returns (actions: seq<Action>, w: View)
    requires d < |v.drains| && v.drains[d].phase.Holding? && !Since(v.trace, Rendered)
    ensures RespectfulRun(v, actions, w) && !DeliveredAfterRender(w.trace)
  {
    hide Since;
    actions, w := [CallUnity(d)], Deliver(v, d);
    assert RespectfulRun(w, actions[1..], w);
    assert w.trace[|v.trace|].Delivered? && w.trace[..|v.trace|] == v.trace;
  }

  lemma RunFirst(v: View, a: Action, rest: seq<Action>, w: View) returns (actions: seq<Action>)
    requires Allowed(v, a) && Respects(v, a) && RespectfulRun(After(v, a), rest, w)
    ensures RespectfulRun(v, actions, w)
  {
    hide Allowed, Respects, After;
    actions := [a] + rest;
    assert actions[1..] == rest;
  }

  lemma EmptyAdmits(v: View)
    requires Inv(v) && v.accepting && v.events == []
    ensures CanEnqueue(v, OtherNotify, 0, [], false)
  {
    hide DeliveriesOk, HandsOk, CallsOk, DrainsOk, NestedOk, PendingOk, EndsPending;
  }

  /** The failing run of the program: focus is gained, and in the next frame the
      game switches role. Its answer is delivered before any render completed. */
  lemma SwitchRoleDeliversBeforeRender(payload: bytes)
    requires 0 !in payload && |payload| <= PAYLOAD_CAPACITY
    ensures var v := After(After(After(START, SetFocused(true)), ObserveInvoke("login_switch_role", 0)),
                           EnqueueCallback(InvokeResponse, 0, payload, true));
            exists w ::
              && Runs(v, [AfterRender(0), TakeEvent(0), CallUnity(0)], w)
              && w.trace == [FocusChange, Called, Took(1, 0), Delivered(1, 0, InvokeResponse, payload)]
              && !DeliveredAfterRender(w.trace)
  {
    hide FindPending, FindFree, Since;
    var v := SwitchRoleQueued(payload);
    var x := After(v, AfterRender(0));
    var y := After(x, TakeEvent(0));
    var w := After(y, CallUnity(0));
    ThreeSteps(v, AfterRender(0), TakeEvent(0), CallUnity(0));
    assert w.trace == [FocusChange, Called, Took(1, 0), Delivered(1, 0, InvokeResponse, payload)];
    assert w.trace[..3] == [FocusChange, Called, Took(1, 0)];
    SinceMeans(w.trace[..3], Rendered);
    assert w.trace[3].Delivered?;
  }

  lemma SwitchRoleQueued(payload: bytes) returns (v: View)
    requires 0 !in payload && |payload| <= PAYLOAD_CAPACITY
    ensures v == After(After(After(START, SetFocused(true)), ObserveInvoke("login_switch_role", 0)),
                       EnqueueCallback(InvokeResponse, 0, payload, true))
    ensures v.events == [Event(InvokeResponse, 0, 1, payload, true)] && v.trace == [FocusChange] && v.drains == []
    ensures v.accepting && v.focused && v.payloadBytes == |payload|
  {
    hide Since;
    var a := After(START, SetFocused(true));
    var b := After(a, ObserveInvoke("login_switch_role", 0));
    NoneActive(START.pending, 0);
    assert FindFree(START.pending) == 0;
    assert b.pending[0] == Slot(true, 0, "login_switch_role", false);
    assert FindPending(b.pending, 0) == 0;
    v := After(b, EnqueueCallback(InvokeResponse, 0, payload, true));
  }

  lemma ThreeSteps(v: View, a: Action, b: Action, c: Action)
    requires Allowed(v, a) && Allowed(After(v, a), b) && Allowed(After(After(v, a), b), c)
    ensures Runs(v, [a, b, c], After(After(After(v, a), b), c))
  {
    hide Allowed, After;
    var u := After(v, a);
    var x := After(u, b);
    var w := After(x, c);
    assert [b, c][1..] == [c] && [a, b, c][1..] == [b, c];
    assert Runs(w, [c][1..], w);
    assert Runs(x, [c], w);
    assert Runs(u, [b, c], w);
  }

  lemma {:induction false} NoneActive(pending: seq<Slot>, index: int)
    requires forall k | 0 <= k < |pending| :: !pending[k].active
    ensures FindPending(pending, index) == |pending|
    decreases |pending|
  {
    if pending != [] { NoneActive(pending[1..], index); }
  }

  // ---- delivery in order of arrival: when it holds ----

  predicate DeliveredInOrder(trace: seq<Mark>) {
    forall i, j | 0 <= i < j < |trace| && trace[i].Delivered? && trace[j].Delivered? ::
        trace[i].arrival < trace[j].arrival
  }

  /** A drain takes an event while no other is about to call Unity with one. */
  predicate Orderly(v: View, a: Action)
    requires Allowed(v, a)
  {
    a.TakeEvent? ==>
      (forall d | 0 <= d < |v.drains| :: !v.drains[d].phase.Holding?) || v.drains[a.d].taken >= DRAIN_PER_FRAME
          || !CanPop(v)
  }

  ghost predicate OrderlyRun(v: View, actions: seq<Action>, w: View)
    decreases |actions|
  {
    if actions == [] then v == w
    else Allowed(v, actions[0]) && Orderly(v, actions[0]) && OrderlyRun(After(v, actions[0]), actions[1..], w)
  }

  predicate InStep(v: View) {
    && DeliveredInOrder(v.trace)
    && (forall c, d | 0 <= c < d < |v.drains| :: !v.drains[c].phase.Holding? || !v.drains[d].phase.Holding?)
    && (forall d, i | 0 <= d < |v.drains| && v.drains[d].phase.Holding? && 0 <= i < |v.trace|
        && v.trace[i].Delivered? ::
          v.trace[i].arrival < v.drains[d].phase.event.arrival)
  }

  lemma OrderlyKeeps(v: View, a: Action)
    requires Inv(v) && InStep(v) && Allowed(v, a) && Orderly(v, a)
    ensures InStep(After(v, a))
  {
    hide QueueOk, HandsOk, CallsOk, DrainsOk, NestedOk, PendingOk, EndsPending, FindPending, FindFree, CanEnqueue;
  }

  lemma {:induction false} OrderlyRunKeeps(v: View, actions: seq<Action>, w: View)
    requires Inv(v) && InStep(v) && OrderlyRun(v, actions, w)
    ensures InStep(w)
    decreases |actions|
  {
    hide Inv, InStep, Allowed, After, Orderly;
    if actions != [] {
      ActionKeeps(v, actions[0]);
      OrderlyKeeps(v, actions[0]);
      OrderlyRunKeeps(After(v, actions[0]), actions[1..], w);
    }
  }

  /** Deliveries follow arrival as long as no event is taken while another drain
      is about to deliver one, and exactly then: otherwise the later event can
      reach Unity first. */
  lemma DeliveredInOrderExactly(v: View, a: Action)
    requires Inv(v) && InStep(v) && Allowed(v, a)
    ensures (forall actions, w :: OrderlyRun(After(v, a), actions, w) ==> DeliveredInOrder(w.trace)) <==> Orderly(v, a)
  {
    hide OrderlyRun, Inv, Allowed, After, Orderly;
    ActionKeeps(v, a);
    if Orderly(v, a) {
      OrderlyKeeps(v, a);
      forall actions, w | OrderlyRun(After(v, a), actions, w) ensures DeliveredInOrder(w.trace) {
        OrderlyRunKeeps(After(v, a), actions, w);
      }
    } else {
      var actions, w := OutOfOrder(v, a);
      assert OrderlyRun(After(v, a), actions, w);
    }
  }

  lemma OutOfOrder(v: View, a: Action) returns (actions: seq<Action>, w: View)
    requires Inv(v) && Allowed(v, a) && !Orderly(v, a)
    ensures OrderlyRun(After(v, a), actions, w) && !DeliveredInOrder(w.trace)
  {
    hide QueueOk, DeliveriesOk, CallsOk, DrainsOk, NestedOk, PendingOk, EndsPending, FindPending, FindFree, OrderlyRun;
    var c :| 0 <= c < |v.drains| && v.drains[c].phase.Holding?;
    var u := After(v, a);
    var x := After(u, CallUnity(a.d));
    w := After(x, CallUnity(c));
    actions := [CallUnity(a.d), CallUnity(c)];
    TwoSteps(u, CallUnity(a.d), CallUnity(c));
    var n := |u.trace|;
    var later, earlier := v.events[0], v.drains[c].phase.event;
    assert w.trace[n] == Delivered(later.arrival, a.d, later.route, later.payload);
    assert w.trace[n + 1] == Delivered(earlier.arrival, c, earlier.route, earlier.payload);
  }

  lemma TwoSteps(v: View, a: Action, b: Action)
    requires Allowed(v, a) && Orderly(v, a)
    requires Allowed(After(v, a), b) && Orderly(After(v, a), b)
    ensures OrderlyRun(v, [a, b], After(After(v, a), b))
  {
    hide Allowed, Orderly, After;
    var w := After(After(v, a), b);
    assert OrderlyRun(w, [b][1..], w);
    assert [a, b][1..] == [b];
  }

  /** While one thread makes all the calls, nested as they may be, no two events
      are about to be delivered at once. */
  lemma OneThreadIsOrderly(v: View, a: Action)
    requires Inv(v) && Allowed(v, a)
    requires forall i, j | 0 <= i < j < |v.drains| :: v.drains[i].thread == v.drains[j].thread
    ensures Orderly(v, a)
  {
    hide QueueOk, DeliveriesOk, HandsOk, CallsOk, DrainsOk, PendingOk, EndsPending;
    if a.TakeEvent? {
      forall d | 0 <= d < |v.drains| ensures !v.drains[d].phase.Holding? {
        if d < a.d { assert v.drains[d].thread == v.drains[a.d].thread; }
        if a.d < d { assert v.drains[a.d].thread == v.drains[d].thread; }
      }
    }
  }

  predicate OnThread(a: Action, thread: nat) { a.AfterRender? ==> a.thread == thread }

  lemma {:induction false} OneThreadRuns(v: View, actions: seq<Action>, w: View, thread: nat)
    requires Inv(v) && Runs(v, actions, w) && (forall i | 0 <= i < |actions| :: OnThread(actions[i], thread))
    requires forall i | 0 <= i < |v.drains| :: v.drains[i].thread == thread
    ensures OrderlyRun(v, actions, w)
    decreases |actions|
  {
    hide Inv, Orderly, FindPending, FindFree, CanEnqueue;
    if actions != [] {
      assert OnThread(actions[0], thread);
      ActionKeeps(v, actions[0]);
      OneThreadIsOrderly(v, actions[0]);
      OneThreadRuns(After(v, actions[0]), actions[1..], w, thread);
    }
  }

  /** So a program that calls combo_bridge_after_render on one thread, from
      handlers too, delivers in order of arrival. */
  lemma OneThreadDeliversInOrder(actions: seq<Action>, w: View, thread: nat)
    requires Runs(START, actions, w) && forall i | 0 <= i < |actions| :: OnThread(actions[i], thread)
    ensures DeliveredInOrder(w.trace)
  {
    hide Inv, Runs, OrderlyRun;
    StartInv();
    OneThreadRuns(START, actions, w, thread);
    OrderlyRunKeeps(START, actions, w);
  }

  // ---- the queue itself ----

  /** The place `i` after `head` in the circular array. */
  function Place(head: nat, i: nat): (p: nat)
    ensures p < EVENT_CAPACITY
  {
    (head + i) % EVENT_CAPACITY
  }

  function EventAt(s: seq<Event>, head: nat, i: nat): Event
    requires |s| == EVENT_CAPACITY
  {
    s[Place(head, i)]
  }

  /** The `count` events from `head` on. */
  function Circular(s: seq<Event>, head: nat, count: nat): (r: seq<Event>)
    requires |s| == EVENT_CAPACITY
    ensures |r| == count
    ensures forall i | 0 <= i < count :: r[i] == EventAt(s, head, i)
  {
    seq(count, i requires 0 <= i < count => EventAt(s, head, i))
  }

  lemma CircularPut(s: seq<Event>, head: nat, count: nat, e: Event)
    requires |s| == EVENT_CAPACITY && head < |s| && count < |s|
    ensures Circular(s[Place(head, count) := e], head, count + 1) == Circular(s, head, count) + [e]
  {
    hide Place;
    var t := s[Place(head, count) := e];
    forall i | 0 <= i < count ensures EventAt(t, head, i) == EventAt(s, head, i) {
      OtherPlace(head, i, count);
    }
  }

  lemma OtherPlace(head: nat, i: nat, count: nat)
    requires head < EVENT_CAPACITY && i < count < EVENT_CAPACITY
    ensures Place(head, i) != Place(head, count)
  {
  }

  lemma CircularTake(s: seq<Event>, head: nat, count: nat, blank: Event)
    requires |s| == EVENT_CAPACITY && head < |s| && 0 < count <= |s|
    ensures Circular(s, head, count)[0] == s[head]
    ensures Circular(s[head := blank], Place(head, 1), count - 1) == Circular(s, head, count)[1..]
  {
    hide Place;
    FirstPlace(head);
    var t := s[head := blank];
    assert EventAt(s, head, 0) == s[head];
    forall i | 0 <= i < count - 1 ensures EventAt(t, Place(head, 1), i) == EventAt(s, head, i + 1) {
      NextPlace(head, i);
    }
  }

  lemma FirstPlace(head: nat)
    requires head < EVENT_CAPACITY
    ensures Place(head, 0) == head
  {
  }

  lemma NextPlace(head: nat, i: nat)
    requires head < EVENT_CAPACITY && i < EVENT_CAPACITY - 1
    ensures Place(Place(head, 1), i) == Place(head, i + 1) != head
  {
  }

  lemma FindIs(pending: seq<Slot>, index: int, k: nat)
    requires k <= |pending| && (k < |pending| ==> pending[k].active && pending[k].index == index)
    requires forall j | 0 <= j < k :: !(pending[j].active && pending[j].index == index)
    ensures k == FindPending(pending, index)
  {
  }

  lemma FreeIs(pending: seq<Slot>, k: nat)
    requires k <= |pending| && (k < |pending| ==> !pending[k].active)
    requires forall j | 0 <= j < k :: pending[j].active
    ensures k == FindFree(pending)
  {
  }

  // ActionKeeps, action by action.

  lemma ObserveInv(v: View, name: string, index: int)
    requires Inv(v)
    ensures Inv(Observe(v, name, index))
  {
    hide Inv;
    ActionKeeps(v, ObserveInvoke(name, index));
  }

  lemma EnqueueInv(v: View, route: Route, index: int, payload: bytes, terminal: bool)
    requires Inv(v)
    ensures Inv(Enqueue(v, route, index, payload, terminal))
  {
    hide Inv;
    ActionKeeps(v, EnqueueCallback(route, index, payload, terminal));
  }

  lemma FocusInv(v: View, focused: bool)
    requires Inv(v)
    ensures Inv(SetFocus(v, focused))
  {
    hide Inv;
    ActionKeeps(v, SetFocused(focused));
  }

  /** The circular array of events. */
  class EventRing {
    const slots: array<Event>
    var head: nat
    var count: nat

    ghost predicate Valid()
      reads this
    {
      slots.Length == EVENT_CAPACITY && head < EVENT_CAPACITY && count <= EVENT_CAPACITY
    }

    ghost function Contents(): seq<Event>
      requires Valid()
      reads this, slots
    {
      Circular(slots[..], head, count)
    }

    constructor ()
      ensures Valid() && Contents() == [] && count == 0 && fresh(slots)
    {
      slots := new Event[EVENT_CAPACITY](_ => Event(Notification, 0, 0, [], false));
      head, count := 0, 0;
    }

    method Push(e: Event)
      requires Valid() && count < EVENT_CAPACITY
      modifies this, slots
      ensures Valid() && Contents() == old(Contents()) + [e] && count == old(count) + 1
    {
      hide Place, Circular;
      CircularPut(slots[..], head, count, e);
      ghost var before := slots[..];
      slots[Place(head, count)] := e;
      assert slots[..] == before[Place(head, count) := e];
      count := count + 1;
    }

    method Take() returns (e: Event)
      requires Valid() && count > 0
      modifies this, slots
      ensures Valid() && count == old(count) - 1
      ensures |old(Contents())| > 0 && e == old(Contents())[0] && Contents() == old(Contents())[1..]
    {
      hide Place, Circular;
      var blank := Event(InitResponse, 0, 0, [], false);
      CircularTake(slots[..], head, count, blank);
      ghost var before := slots[..];
      e := slots[head];
      slots[head] := blank;
      assert slots[..] == before[head := blank];
      head := Place(head, 1);
      count := count - 1;
    }
  }

  class ComboBridge {
    const queue: EventRing
    const pending: array<Slot>
    var payloadBytes: nat
    var arrivals: nat
    var accepting: bool
    var focused: bool
    var renderReady: bool
    ghost var drains: seq<Drain>
    ghost var trace: seq<Mark>

    ghost function Now(): View
      requires queue.Valid()
      reads this, queue, queue.slots, pending
    {
      View(queue.Contents(), pending[..], payloadBytes, arrivals, accepting, focused, renderReady, drains, trace)
    }

    ghost predicate Valid()
      reads this, queue, queue.slots, pending
    {
      queue.Valid() && Inv(Now())
    }

    constructor ()
      ensures Valid() && Now() == START && fresh(queue) && fresh(queue.slots) && fresh(pending)
    {
      queue := new EventRing();
      pending := new Slot[PENDING_CAPACITY](_ => NO_SLOT);
      payloadBytes, arrivals, accepting, focused, renderReady := 0, 0, true, false, false;
      drains, trace := [], [];
      new;
      assert pending[..] == seq(PENDING_CAPACITY, _ => NO_SLOT);
      assert Now() == START;
    }

    method FindPendingSlot(index: int) returns (k: nat)
      ensures k == FindPending(pending[..], index)
    {
      k := 0;
      while k < pending.Length && !(pending[k].active && pending[k].index == index)
        invariant k <= pending.Length && forall j | 0 <= j < k :: !(pending[j].active && pending[j].index == index)
      {
        k := k + 1;
      }
      FindIs(pending[..], index, k);
    }

    method AllocPendingSlot() returns (k: nat)
      ensures k == FindFree(pending[..])
    {
      k := 0;
      while k < pending.Length && pending[k].active
        invariant k <= pending.Length && forall j | 0 <= j < k :: pending[j].active
      {
        k := k + 1;
      }
      FreeIs(pending[..], k);
    }

    method ObserveCall(name: string, index: int) returns (ok: bool)
      requires Valid()
      modifies pending
      ensures Valid() && Now() == Observe(old(Now()), name, index)
      ensures ok == (0 < |name| < NAME_CAPACITY && accepting && (index < 0 || CanObserve(old(Now()), name, index)))
      ensures forall i :: NameOf(Now(), i) == if ok && index == i >= 0 then Some(name) else NameOf(old(Now()), i)
    {
      hide Inv, FindPending, FindFree, NameOf;
      ObserveInv(Now(), name, index);
      ObserveNames(Now(), name, index);
      if |name| == 0 || |name| >= NAME_CAPACITY || !accepting { return false; }
      if index < 0 { return true; }
      var found := FindPendingSlot(index);
      if found < pending.Length { return false; }
      var k := AllocPendingSlot();
      if k == pending.Length { return false; }
      ghost var v := Now();
      pending[k] := Slot(true, index, name, false);
      assert pending[..] == v.pending[k := pending[k]];
      assert Now() == Observe(v, name, index);
      return true;
    }

    /** The checks of combo_bridge_enqueue_callback, in its order. */
    method Admits(route: Route, index: int, payload: bytes, terminal: bool) returns (ok: bool, k: nat)
      requires queue.Valid() && payloadBytes <= AGGREGATE_CAPACITY
      ensures ok == CanEnqueue(Now(), route, index, payload, terminal)
      ensures ok ==> k == FindPending(pending[..], index) && queue.count < EVENT_CAPACITY
    {
      hide FindPending;
      k := 0;
      if |payload| > PAYLOAD_CAPACITY || 0 in payload || !accepting { return false, k; }
      k := FindPendingSlot(index);
      if RequiresPending(route) {
        if k == pending.Length { return false, k; }
        if route.InitResponse? && pending[k].name != "login_init" { return false, k; }
        if terminal && pending[k].terminalQueued { return false, k; }
      }
      ok := !(queue.count == EVENT_CAPACITY || |payload| > AGGREGATE_CAPACITY - payloadBytes);
    }

    method EnqueuePayload(route: Route, index: int, payload: bytes, terminal: bool) returns (ok: bool)
      requires Valid()
      modifies this`payloadBytes, this`arrivals, queue, queue.slots, pending
      ensures Valid() && Now() == Enqueue(old(Now()), route, index, payload, terminal)
      ensures ok == CanEnqueue(old(Now()), route, index, payload, terminal)
      ensures queue.Contents() ==
                old(queue.Contents()) + (if ok then [Event(route, index, arrivals, payload, terminal)] else [])
      ensures arrivals == old(arrivals) + (if ok then 1 else 0)
    {
      hide Inv, FindPending, CanEnqueue, Circular;
      EnqueueInv(Now(), route, index, payload, terminal);
      BytesBounded(Now());
      var admitted, k := Admits(route, index, payload, terminal);
      if !admitted { return false; }
      ghost var v := Now();
      var e := Event(route, index, arrivals + 1, payload, terminal);
      queue.Push(e);
      arrivals, payloadBytes := arrivals + 1, payloadBytes + |payload|;
      if RequiresPending(route) && terminal && k < pending.Length {
        pending[k] := pending[k].(terminalQueued := true);
      }
      assert pending[..] == Enqueue(v, route, index, payload, terminal).pending;
      return true;
    }

    method ChangeFocus(focus: bool)
      requires Valid()
      modifies this`focused, this`renderReady, this`trace
      ensures Valid() && Now() == SetFocus(old(Now()), focus)
    {
      hide Inv;
      FocusInv(Now(), focus);
      focused, renderReady, trace := focus, false, trace + [FocusChange];
    }

    /** combo_bridge_after_render up to its loop: nothing is asked of the caller but
        that its thread is not in the middle of another call. */
    method BeginDrain(ghost thread: nat) returns (canDrain: bool, ghost d: nat)
      requires Valid() && Allowed(Now(), AfterRender(thread))
      modifies this`renderReady, this`drains, this`trace
      ensures Valid() && Now() == Call(old(Now()), thread)
      ensures canDrain == (accepting && focused) && d == |old(drains)|
    {
      hide Inv;
      ActionKeeps(Now(), AfterRender(thread));
      d := |drains|;
      if accepting && focused { renderReady := true; }
      canDrain := accepting && focused && renderReady;
      if canDrain { drains := drains + [Drain(thread, 0, Looking)]; }
      trace := trace + [Called];
    }

    /** One turn of the draining loop; `turns` counts the events taken so far. */
    method PopEvent(turns: nat, ghost d: nat) returns (event: Option<Event>)
      requires Valid() && Allowed(Now(), TakeEvent(d)) && drains[d].taken == turns
      modifies this, queue, queue.slots
      ensures Valid() && Now() == Take(old(Now()), d)
      ensures event.Some? <==>
                turns < DRAIN_PER_FRAME && accepting && focused && renderReady && old(queue.Contents()) != []
      ensures event.Some? ==> drains[d].phase == Holding(event.value)
      ensures event.Some? ==> old(queue.Contents()) == [event.value] + queue.Contents()
    {
      hide Inv, Circular;
      ActionKeeps(Now(), TakeEvent(d));
      if queue.count > 0 { HeadBounded(Now()); }
      ghost var v := Now();
      if turns >= DRAIN_PER_FRAME || !accepting || !focused || !renderReady || queue.count == 0 {
        drains := drains[d := drains[d].(phase := Over)];
        return None;
      }
      var e := queue.Take();
      payloadBytes := payloadBytes - |e.payload|;
      drains, trace := drains[d := Drain(drains[d].thread, turns + 1, Holding(e))], trace + [Took(e.arrival, d)];
      event := Some(e);
      assert Now() == Take(v, d) by {
        assert queue.Contents() == Take(v, d).events && pending[..] == v.pending;
      }
    }

    /** g_unity_send_message, up to the handler it runs. */
    method SendMessage(event: Event, ghost d: nat)
      requires Valid() && d < |drains| && drains[d].phase == Holding(event)
      modifies this`drains, this`trace
      ensures Valid() && Now() == Deliver(old(Now()), d)
    {
      hide Inv;
      ActionKeeps(Now(), CallUnity(d));
      drains := drains[d := drains[d].(phase := InUnity(event))];
      trace := trace + [Delivered(event.arrival, d, event.route, event.payload)];
    }

    method CompleteTerminal(event: Event, ghost d: nat)
      requires Valid() && Allowed(Now(), CompleteEvent(d)) && drains[d].phase.event == event
      modifies this`drains, pending
      ensures Valid() && Now() == Complete(old(Now()), d)
      ensures RequiresPending(event.route) && event.terminal ==>
                forall k | 0 <= k < pending.Length && pending[k].active :: pending[k].index != event.index
      ensures accepting && RequiresPending(event.route) && event.terminal ==>
                forall name | 0 < |name| < NAME_CAPACITY :: CanObserve(Now(), name, event.index)
      ensures forall k | 0 <= k < pending.Length ::
                pending[k] == old(pending[k]) || Freed(old(pending[k]), pending[k], event)
    {
      hide Inv, FindPending;
      ActionKeeps(Now(), CompleteEvent(d));
      ghost var v := Now();
      forall name { CompleteReleases(v, d, name); }
      assert forall k | 0 <= k < pending.Length :: v.pending[k] == pending[k];
      drains := drains[d := drains[d].(phase := Looking)];
      if !RequiresPending(event.route) || !event.terminal {
        assert Now() == Complete(v, d);
        return;
      }
      var k := FindPendingSlot(event.index);
      if k < pending.Length {
        pending[k] := NO_SLOT;
        assert pending[..] == v.pending[k := NO_SLOT];
      }
      assert Now() == Complete(v, d);
      assert forall j | 0 <= j < pending.Length :: pending[j] == Complete(v, d).pending[j];
    }
  }

  lemma BytesBounded(v: View)
    requires Inv(v)
    ensures v.payloadBytes <= AGGREGATE_CAPACITY && |v.events| <= EVENT_CAPACITY
  {
    hide DeliveriesOk, HandsOk, CallsOk, DrainsOk, NestedOk, PendingOk, EndsPending;
  }

  lemma HeadBounded(v: View)
    requires Inv(v) && v.events != []
    ensures |v.events[0].payload| <= v.payloadBytes
  {
    hide DeliveriesOk, HandsOk, CallsOk, DrainsOk, NestedOk, PendingOk, EndsPending;
    TotalHead(v.events);
  }
}
