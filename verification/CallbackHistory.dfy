/** What a whole run of the callback queue did, told from the calls alone: which
    indices were observed and not yet answered, which requests were accepted, what
    the focus was last set to (source/combo_bridge.c lines 129 to 345). The state
    the queue keeps is then proved to be exactly that history. */
module CallbackHistory {
  import opened Bytes
  import opened Counting
  import opened CallbackQueue

  /** The call waiting under `index` at the end of a run, `now` waiting at its start:
      the one last observed under it, unless the delivery of a terminal response for
      `index` returned since, or the bridge shut down. */
  ghost function Awaited(v: View, actions: seq<Action>, index: int, now: Option<string>): Option<string>
    requires exists w :: Runs(v, actions, w)
    decreases |actions|
  {
    if actions == [] then now
    else
      RunStep(v, actions);
      var a := actions[0];
      var next := if Opens(v, a, index) then Some(a.name) else if Closes(v, a, index) then None else now;
      Awaited(After(v, a), actions[1..], index, next)
  }

  lemma RunStep(v: View, actions: seq<Action>)
    requires actions != [] && exists w :: Runs(v, actions, w)
    ensures Allowed(v, actions[0]) && exists w :: Runs(After(v, actions[0]), actions[1..], w)
  {
    var w :| Runs(v, actions, w);
    assert Runs(After(v, actions[0]), actions[1..], w);
  }

  lemma {:induction false} AwaitedIs(v: View, actions: seq<Action>, w: View, index: int)
    requires Inv(v) && Runs(v, actions, w)
    ensures NameOf(w, index) == Awaited(v, actions, index, NameOf(v, index))
    decreases |actions|
  {
    hide Inv, NameOf, After, Allowed, Opens, Closes;
    if actions != [] {
      ActionKeeps(v, actions[0]);
      NamesMove(v, actions[0], index);
      AwaitedIs(After(v, actions[0]), actions[1..], w, index);
    }
  }

  /** Over a whole run: an index is pending, under the name it was observed with,
      exactly from its being observed until the delivery of its terminal response
      returned. While it is not, and a slot is free, it can be observed again. */
  lemma PendingExactly(actions: seq<Action>, w: View, index: int, name: string)
    requires Runs(START, actions, w)
    ensures NameOf(w, index) == Awaited(START, actions, index, None)
    ensures w.accepting && index >= 0 && 0 < |name| < NAME_CAPACITY && Awaited(START, actions, index, None).None?
              && (exists k | 0 <= k < |w.pending| :: !w.pending[k].active)
            ==> CanObserve(w, name, index)
  {
    hide Inv, Runs, Awaited;
    StartInv();
    NoName(START, index);
    AwaitedIs(START, actions, w, index);
    NoName(w, index);
    ObservedExactly(w, name, index);
  }

  // ---- what was accepted ----

  /** The request a step accepts, numbered as the bridge numbers it. */
  function Entry(v: View, a: Action): (log: seq<Event>) {
    if a.EnqueueCallback? && CanEnqueue(v, a.route, a.index, a.payload, a.terminal)
    then [Event(a.route, a.index, v.arrivals + 1, a.payload, a.terminal)] else []
  }

  /** The requests a run accepted, in order. */
  ghost function Accepted(v: View, actions: seq<Action>): seq<Event>
    requires exists w :: Runs(v, actions, w)
    decreases |actions|
  {
    if actions == [] then []
    else
      RunStep(v, actions);
      Entry(v, actions[0]) + Accepted(After(v, actions[0]), actions[1..])
  }

  predicate IsTook(m: Mark) { m.Took? }

  /** `e` is the request accepted under its number. */
  predicate Logged(log: seq<Event>, e: Event) { 1 <= e.arrival <= |log| && log[e.arrival - 1] == e }

  /** What Unity was called with is what was accepted under that number. */
  predicate HandedOver(log: seq<Event>, m: Mark) {
    m.Delivered? ==>
      1 <= m.arrival <= |log| && log[m.arrival - 1].payload == m.payload && log[m.arrival - 1].route == m.route
  }

  /** The state against the log of accepted requests: the queue is its tail, and
      what left the queue is the rest. */
  predicate Follows(v: View, log: seq<Event>) {
    && v.arrivals == |log|
    && (forall i | 0 <= i < |log| :: log[i].arrival == i + 1)
    && |v.events| <= |log|
    && (forall j | 0 <= j < |v.events| :: Logged(log, v.events[j]))
    && (v.accepting ==> v.events == log[|log| - |v.events|..] && Count(v.trace, IsTook) + |v.events| == |log|)
    && (forall d | 0 <= d < |v.drains| && InHand(v.drains[d].phase) :: Logged(log, v.drains[d].phase.event))
    && (forall k | 0 <= k < |v.trace| :: HandedOver(log, v.trace[k]))
  }

  lemma FollowsOn(v: View, a: Action, log: seq<Event>)
    requires Inv(v) && Allowed(v, a) && Follows(v, log)
    ensures Follows(After(v, a), log + Entry(v, a))
  {
    hide Inv, Follows, FindPending, FindFree, CanObserve, CanEnqueue;
    match a
    case EnqueueCallback(route, index, payload, terminal) => EnqueueFollows(v, a, log);
    case TakeEvent(d) => NothingNew(v, a, log); TakeFollows(v, d, log);
    case CallUnity(d) => NothingNew(v, a, log); DeliverFollows(v, d, log);
    case _ => NothingNew(v, a, log); SameFollows(v, After(v, a), log);
  }

  lemma NothingNew(v: View, a: Action, log: seq<Event>)
    requires !a.EnqueueCallback?
    ensures log + Entry(v, a) == log
  {
  }

  lemma EnqueueFollows(v: View, a: Action, log: seq<Event>)
    requires a.EnqueueCallback? && Follows(v, log)
    ensures Follows(After(v, a), log + Entry(v, a))
  {
    hide FindPending, CanEnqueue, Count;
    var w, all := After(v, a), log + Entry(v, a);
    if Entry(v, a) == [] {
      assert all == log;
    } else {
      forall e | Logged(log, e) ensures Logged(all, e) { }
      forall m | HandedOver(log, m) ensures HandedOver(all, m) { }
      var n := |log| - |v.events|;
      assert v.accepting ==> all[n..] == log[n..] + Entry(v, a);
    }
  }

  lemma TakeFollows(v: View, d: nat, log: seq<Event>)
    requires d < |v.drains| && Follows(v, log)
    ensures Follows(Take(v, d), log)
  {
    hide Count;
    var w := Take(v, d);
    if |w.trace| > |v.trace| {
      CountAppend(v.trace, w.trace[|v.trace|], IsTook);
      assert Logged(log, v.events[0]);
    }
  }

  lemma DeliverFollows(v: View, d: nat, log: seq<Event>)
    requires d < |v.drains| && v.drains[d].phase.Holding? && Follows(v, log)
    ensures Follows(Deliver(v, d), log)
  {
    hide Count;
    var w := Deliver(v, d);
    CountAppend(v.trace, w.trace[|v.trace|], IsTook);
    assert Logged(log, v.drains[d].phase.event);
  }

  /** Steps that neither queue nor take nor deliver. */
  lemma SameFollows(v: View, w: View, log: seq<Event>)
    requires Follows(v, log) && w.arrivals == v.arrivals && (w.accepting ==> v.accepting)
    requires w.events == v.events || (w.events == [] && !w.accepting)
    requires forall d | 0 <= d < |w.drains| && InHand(w.drains[d].phase) ::
               d < |v.drains| && v.drains[d].phase == w.drains[d].phase
    requires w.trace == v.trace
             || exists m :: w.trace == v.trace + [m] && !IsTook(m) && !m.Delivered?
    ensures Follows(w, log)
  {
    hide Count, Logged;
    if w.trace != v.trace { CountAppend(v.trace, w.trace[|v.trace|], IsTook); }
  }

  lemma {:induction false} AcceptedIs(v: View, actions: seq<Action>, w: View, log: seq<Event>)
    requires Inv(v) && Runs(v, actions, w) && Follows(v, log)
    ensures Follows(w, log + Accepted(v, actions))
    decreases |actions|
  {
    hide Inv, Follows, After, Allowed, Entry;
    if actions == [] {
      assert log + Accepted(v, actions) == log;
    } else {
      var u := After(v, actions[0]);
      ActionKeeps(v, actions[0]);
      FollowsOn(v, actions[0], log);
      AcceptedIs(u, actions[1..], w, log + Entry(v, actions[0]));
      assert log + Accepted(v, actions) == log + Entry(v, actions[0]) + Accepted(u, actions[1..]);
    }
  }

  /** Over a whole run, however many drains run: Unity is handed the payload, under
      the route, that was accepted at that arrival; and until the shutdown the
      queue is what was accepted less what was taken, so no callback is lost. */
  lemma DeliveredAsAccepted(actions: seq<Action>, w: View)
    requires Runs(START, actions, w)
    ensures var log := Accepted(START, actions);
            && (forall k | 0 <= k < |w.trace| && w.trace[k].Delivered? ::
                  && 1 <= w.trace[k].arrival <= |log|
                  && w.trace[k].payload == log[w.trace[k].arrival - 1].payload
                  && w.trace[k].route == log[w.trace[k].arrival - 1].route)
            && (forall i | 0 <= i < |log| :: log[i].arrival == i + 1)
            && (w.accepting ==>
                  Count(w.trace, IsTook) <= |log| && w.events == log[Count(w.trace, IsTook)..])
  {
    hide Inv, Runs, Accepted, Count;
    StartInv();
    CountZero(START.trace, IsTook);
    AcceptedIs(START, actions, w, []);
    assert [] + Accepted(START, actions) == Accepted(START, actions);
    forall k | 0 <= k < |w.trace| && w.trace[k].Delivered?
      ensures HandedOver(Accepted(START, actions), w.trace[k])
    {
    }
  }

  // ---- when events are taken ----

  /** The focus the last change set, none having been gained at the start or after
      a shutdown. */
  function LastFocus(actions: seq<Action>, now: bool): bool {
    if actions == [] then now
    else
      var a := actions[0];
      LastFocus(actions[1..], if a.SetFocused? then a.focused else now && !a.Shutdown?)
  }

  lemma {:induction false} SettingsAre(v: View, actions: seq<Action>, w: View)
    requires Runs(v, actions, w)
    ensures w.accepting <==> v.accepting && forall i | 0 <= i < |actions| :: !actions[i].Shutdown?
    ensures w.focused == LastFocus(actions, v.focused)
    decreases |actions|
  {
    hide CanObserve, CanEnqueue, FindPending, FindFree, CanPop;
    if actions != [] {
      SettingsAre(After(v, actions[0]), actions[1..], w);
      assert forall i | 0 < i < |actions| :: actions[i] == actions[1..][i - 1];
    }
  }

  /** When a drain looks for an event, it takes the oldest accepted and not yet
      taken, exactly if no shutdown came, the focus was last set, the program
      called combo_bridge_after_render since, something is queued, and the drain
      took fewer than eight. */
  lemma TakesExactly(actions: seq<Action>, w: View, d: nat)
    requires Runs(START, actions, w) && Allowed(w, TakeEvent(d))
    ensures var x, log := After(w, TakeEvent(d)), Accepted(START, actions);
            var n := Count(w.trace, IsTook);
            var takes := && (forall i | 0 <= i < |actions| :: !actions[i].Shutdown?)
                         && LastFocus(actions, false) && Since(w.trace, Called) && n < |log|
                         && Count(w.trace, TakenBy(d)) < DRAIN_PER_FRAME;
            x.drains[d].phase == if takes then Holding(log[n]) else Over
  {
    hide Runs, Accepted, Count, Since, QueueOk, DeliveriesOk, HandsOk, PendingOk, EndsPending, NestedOk;
    StartInv();
    RunKeeps(START, actions, w);
    SettingsAre(START, actions, w);
    DeliveredAsAccepted(actions, w);
  }
}
