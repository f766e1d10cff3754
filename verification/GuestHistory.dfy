/** What a guest thread's record says, told by the events of the run alone
    (source/imports.c lines 984 to 1043, 1157 to 1199, 1227 to 1247, 1274 to 1424
    and 1476 to 1660): every mark on it is exactly what was done to it. */
module GuestHistory {
  import opened Bytes
  import opened GuestThreads

  /** The events that made the records, in order: the i-th made record i. */
  function Creations(events: seq<Event>): seq<Event> {
    if events == [] then []
    else
      var n := |events| - 1;
      Creations(events[..n]) + (if events[n].Allocate? || events[n].Register? then [events[n]] else [])
  }

  lemma CreationsGrow(events: seq<Event>, e: Event)
    ensures Creations(events + [e]) == Creations(events) + (if e.Allocate? || e.Register? then [e] else [])
  {
    assert (events + [e])[..|events|] == events;
  }

  predicate Did(events: seq<Event>, i: nat, step: Step) { On(i, step) in events }

  ghost predicate WasPublished(events: seq<Event>, i: nat) { exists t :: Did(events, i, Publish(t)) }

  /** How record `i` was made and linked. */
  ghost predicate Origin(events: seq<Event>, i: nat, r: Record, made: Event) {
    && (r.external <==> made.Register?)
    && (r.detached <==> made == Allocate(true) || Did(events, i, Detach))
    && (r.published <==> made.Register? || WasPublished(events, i))
    && (made.Register? ==> r.thread == made.thread)
    && (forall t :: Did(events, i, Publish(t)) ==> r.thread == t)
    && (r.listed <==> r.published && !r.freed)
    && (r.ready <==> made.Register? || Did(events, i, ChildReady))
    && (r.returned <==> made.Register? || Did(events, i, CreatorReturns))
    && (r.creator == Failed <==> Did(events, i, CreateFails))
  }

  /** How far its thread is. */
  ghost predicate Course(events: seq<Event>, i: nat, r: Record) {
    && (r.state == Exited <==> Did(events, i, FinishExit) || Did(events, i, ExternalDone))
    && (r.state == Exiting <==>
          && (Did(events, i, BeginExit) || Did(events, i, ExternalExit))
          && !Did(events, i, FinishExit) && !Did(events, i, ExternalDone))
    && (r.state == Live <==>
          && r.ready && r.published && !Did(events, i, BeginExit) && !Did(events, i, ExternalExit))
    && (r.child == Ended <==> Did(events, i, NativeEnd) || Did(events, i, ExternalDone))
  }

  /** Who took it to join or reap it, and how that ended. */
  ghost predicate Claims(events: seq<Event>, i: nat, r: Record) {
    && (r.claimed <==> Did(events, i, ClaimJoin) || Did(events, i, ClaimReap))
    && r.joins == (if Did(events, i, NativeJoin(true)) then 1 else 0)
    && (r.claimer == Joined(true) || (r.claimer == Done && !r.failed) <==> Did(events, i, NativeJoin(true)))
    && (r.claimer == Joined(false) || r.failed <==> Did(events, i, NativeJoin(false)))
    && (r.claimer == Done <==> Did(events, i, FinishReap))
    && (r.failed <==> Did(events, i, FinishReap) && Did(events, i, NativeJoin(false)))
    && (r.freed <==>
          || Did(events, i, CreateFails) || Did(events, i, ExternalDone)
          || (Did(events, i, FinishReap) && Did(events, i, NativeJoin(true))))
  }

  ghost predicate Story(events: seq<Event>, i: nat, r: Record, made: Event) {
    Origin(events, i, r, made) && Course(events, i, r) && Claims(events, i, r)
  }

  lemma Later(events: seq<Event>, e: Event, i: nat)
    ensures forall step :: Did(events + [e], i, step) <==> Did(events, i, step) || e == On(i, step)
    ensures WasPublished(events + [e], i) <==> WasPublished(events, i) || (e.On? && e.i == i && e.step.Publish?)
  {
    assert forall step :: Did(events + [e], i, step) <==> Did(events, i, step) || e == On(i, step);
    if e.On? && e.i == i && e.step.Publish? { assert Did(events + [e], i, Publish(e.step.thread)); }
    if WasPublished(events, i) {
      var t :| Did(events, i, Publish(t));
      assert Did(events + [e], i, Publish(t));
    }
  }

  lemma OriginStep(events: seq<Event>, i: nat, r: Record, made: Event, step: Step)
    requires Inv(r) && Enabled(r, step) && Origin(events, i, r, made)
    ensures Origin(events + [On(i, step)], i, After(r, step), made)
  {
    hide Did;
    Later(events, On(i, step), i);
  }

  lemma CourseStep(events: seq<Event>, i: nat, r: Record, step: Step)
    requires Inv(r) && Enabled(r, step) && Course(events, i, r)
    ensures Course(events + [On(i, step)], i, After(r, step))
  {
    hide Did, WasPublished;
    Later(events, On(i, step), i);
  }

  lemma ClaimsStep(events: seq<Event>, i: nat, r: Record, step: Step)
    requires Inv(r) && Enabled(r, step) && Claims(events, i, r)
    ensures Claims(events + [On(i, step)], i, After(r, step))
  {
    hide Did, WasPublished;
    Later(events, On(i, step), i);
  }

  /** Record `i` after the step, or after a snapshot borrowed it. */
  lemma StoryStep(events: seq<Event>, i: nat, r: Record, made: Event, step: Step)
    requires Inv(r) && Enabled(r, step) && Story(events, i, r, made)
    ensures Story(events + [On(i, step)], i, After(r, step), made)
  {
    hide Inv, Enabled, After, Origin, Course, Claims;
    OriginStep(events, i, r, made, step);
    CourseStep(events, i, r, step);
    ClaimsStep(events, i, r, step);
  }

  /** Events about other records leave it alone. */
  lemma StoryElsewhere(events: seq<Event>, i: nat, r: Record, made: Event, e: Event)
    requires Story(events, i, r, made) && !(e.On? && e.i == i)
    ensures Story(events + [e], i, r, made)
  {
    hide Did, WasPublished;
    Later(events, e, i);
  }

  /** Borrowing shows in no mark but the count. */
  lemma StoryBorrowed(events: seq<Event>, i: nat, r: Record, made: Event)
    requires Story(events, i, r, made)
    ensures Story(events, i, Borrowed(r), made)
  {
    hide Did, WasPublished;
  }

  /** A record just made. */
  lemma StoryBegins(events: seq<Event>, i: nat, made: Event)
    requires made.Allocate? || made.Register?
    requires forall step :: !Did(events, i, step)
    ensures Story(events, i, if made.Allocate? then NewRecord(made.detached) else ExternalRecord(made.thread), made)
  {
    hide Did;
  }

  /** The records against the events so far. */
  ghost predicate Told(events: seq<Event>, records: seq<Record>) {
    && |records| == |Creations(events)|
    && (forall i | 0 <= i < |records| ::
          Creations(events)[i].Allocate? || Creations(events)[i].Register?)
    && (forall i | 0 <= i < |records| :: Story(events, i, records[i], Creations(events)[i]))
    && (forall i: nat, step | i >= |records| :: !Did(events, i, step))
  }

  lemma ToldOn(events: seq<Event>, records: seq<Record>, e: Event)
    requires AllInv(records) && Possible(records, e) && Told(events, records)
    ensures Told(events + [e], Applied(records, e))
  {
    hide Inv, Enabled, After, Story, Did, Borrowed;
    var after, now := Applied(records, e), events + [e];
    CreationsGrow(events, e);
    forall i: nat, step | i >= |after| ensures !Did(now, i, step) { Later(events, e, i); }
    forall i: nat | i < |after| ensures Story(now, i, after[i], Creations(now)[i]) {
      if i == |records| {
        forall step ensures !Did(now, i, step) { Later(events, e, i); }
        StoryBegins(now, i, e);
      } else if e.On? && e.i == i {
        StoryStep(events, i, records[i], Creations(events)[i], e.step);
      } else {
        StoryElsewhere(events, i, records[i], Creations(events)[i], e);
        StoryBorrowed(now, i, records[i], Creations(events)[i]);
      }
    }
  }

  lemma {:induction false} ToldOver(records: seq<Record>, events: seq<Event>, after: seq<Record>, past: seq<Event>)
    requires AllInv(records) && Runs(records, events, after) && Told(past, records)
    ensures Told(past + events, after)
    decreases |events|
  {
    hide Inv, Possible, Applied, Told;
    if events == [] {
      assert past + events == past;
    } else {
      EventKeeps(records, events[0]);
      ToldOn(past, records, events[0]);
      ToldOver(Applied(records, events[0]), events[1..], after, past + [events[0]]);
      assert past + events == past + [events[0]] + events[1..];
    }
  }

  /** The borrowers of record `i` still out after a run: one for each time it was
      acquired or a snapshot found it live and unclaimed, less the releases. */
  function Lent(records: seq<Record>, events: seq<Event>, i: nat, out: int): int
    decreases |events|
  {
    if events == [] || !Possible(records, events[0]) then out
    else
      var e := events[0];
      var taken := e == On(i, Acquire) || (e.Snapshot? && i < |records| && Borrowable(records[i]));
      Lent(Applied(records, e), events[1..], i,
           out + (if taken then 1 else 0) - (if e == On(i, Release) then 1 else 0))
  }

  function LeasesOf(records: seq<Record>, i: nat): nat { if i < |records| then records[i].borrowers else 0 }

  lemma OthersLendNothing(r: Record, step: Step)
    requires !BorrowerStep(step)
    ensures After(r, step).borrowers == r.borrowers
  {
    if CreatorStep(step) {
    } else if ChildStep(step) {
    } else if ClaimerStep(step) {
    }
  }

  lemma LeaseIsBorrower(r: Record)
    requires Inv(r) && r.leases > 0
    ensures r.borrowers > 0
  {
  }

  lemma OneLent(r: Record, step: Step)
    requires Inv(r) && Enabled(r, step)
    ensures After(r, step).borrowers ==
              r.borrowers + (if step == Acquire then 1 else 0) - (if step == Release then 1 else 0)
  {
    hide Inv, CreatorAfter, ChildAfter, ClaimerAfter, ExternalAfter;
    if BorrowerStep(step) {
      if step == Release { LeaseIsBorrower(r); }
    } else {
      OthersLendNothing(r, step);
    }
  }

  lemma LentStep(records: seq<Record>, e: Event, i: nat)
    requires AllInv(records) && Possible(records, e)
    ensures LeasesOf(Applied(records, e), i) ==
              LeasesOf(records, i)
              + (if e == On(i, Acquire) || (e.Snapshot? && i < |records| && Borrowable(records[i])) then 1 else 0)
              - (if e == On(i, Release) then 1 else 0)
  {
    hide Inv, Enabled, After, Borrowable;
    if e.On? { OneLent(records[e.i], e.step); }
    if e.Snapshot? && i < |records| && Borrowable(records[i]) {
      BorrowableEnabled(records[i]);
      OneLent(records[i], Acquire);
    }
  }

  lemma {:induction false} LentIs(records: seq<Record>, events: seq<Event>, after: seq<Record>, i: nat)
    requires AllInv(records) && Runs(records, events, after)
    ensures LeasesOf(after, i) == Lent(records, events, i, LeasesOf(records, i))
    decreases |events|
  {
    hide Inv, Possible, Applied, LeasesOf, Borrowable;
    if events != [] {
      EventKeeps(records, events[0]);
      LentStep(records, events[0], i);
      LentIs(Applied(records, events[0]), events[1..], after, i);
    }
  }

  /** Over a whole run from an empty registry, whatever the interleaving: a record
      is detached, published under its thread, exiting or exited, claimed, joined,
      quarantined, freed and listed exactly if the events made it so, and it has
      as many borrowers as took it and did not give it back. */
  lemma RecordsAreHistory(events: seq<Event>, records: seq<Record>, i: nat)
    requires Runs([], events, records) && i < |records|
    ensures i < |Creations(events)| && Story(events, i, records[i], Creations(events)[i])
    ensures records[i].borrowers == Lent([], events, i, 0)
  {
    hide Inv, Possible, Applied, Story, Runs, Lent;
    assert Told([], []);
    ToldOver([], events, records, []);
    assert [] + events == events;
    LentIs([], events, records, i);
  }
}
