/** The registry of guest threads (source/imports.c lines 984 to 1043, 1157 to
    1199, 1227 to 1247, 1274 to 1424 and 1476 to 1660). A step is what one
    actor does between two points where it holds the registry mutex or waits:
    the creator, the new thread itself, borrowers, a joiner, the reaper. */
module GuestThreads {
  import opened Bytes

  datatype State = Creating | Live | Exiting | Exited

  /** How far pthread_create_fake is with its record. */
  datatype Creator = Allocated | AwaitingChild | Returned | Failed

  /** How far the new thread is. */
  datatype Child = NotStarted | Started | AwaitingCreator | InGuest | Draining | Destructors | Finished | Ended

  /** The joiner or reaper that claimed the record. */
  datatype Claimer = Nobody | AwaitingBorrowers | Joining | Joined(ok: bool) | Done

  datatype Record = Record(
    thread: nat,
    state: State, published: bool, ready: bool, returned: bool,
    borrowers: nat, detached: bool, claimed: bool, failed: bool, external: bool,
    listed: bool, freed: bool,
    creator: Creator, child: Child, claimer: Claimer,
    leases: nat,             // references handed out to borrowers and not yet given back
    joins: nat)              // native joins that succeeded

  /** The record pthread_create_fake allocates. */
  function NewRecord(detached: bool): Record {
    Record(0, Creating, false, false, false, 0, detached, false, false, false, false, false, Allocated, NotStarted,
        Nobody, 0, 0)
  }

  /** The record of a thread this layer did not create. */
  function ExternalRecord(thread: nat): Record {
    Record(thread, Live, true, true, true, 0, false, false, false, true, true, false, Returned, InGuest, Nobody, 0, 0)
  }

  datatype Step =
    | StartNative               // pthread_create succeeds: the thread exists
    | CreateFails
    | ChildReady                // trampoline, up to its wait
    | Publish(thread: nat)      // creator, up to its wait
    | CreatorReturns
    | EnterGuest                // the trampoline's wait is over
    | Acquire
    | Release
    | BeginExit                 // up to its wait
    | ExitDrained
    | FinishExit
    | NativeEnd
    | ClaimJoin                 // pthread_join_fake, up to its wait
    | ClaimReap                 // the reaper takes a candidate
    | ClaimDrained
    | NativeJoin(ok: bool)
    | FinishReap
    | Detach
    | ExternalExit              // destructor of an external record, up to its wait
    | ExternalDone

  /** May the step run? The tests are the source's own, on the fields and on
      where the acting thread is. */
  predicate Enabled(r: Record, step: Step) {
    match step
    case StartNative => r.creator == Allocated && r.child == NotStarted
    case CreateFails => r.creator == Allocated && r.child == NotStarted
    case ChildReady => r.child == Started
    case Publish(_) => r.creator == Allocated && r.child != NotStarted
    case CreatorReturns => r.creator == AwaitingChild && r.ready
    case EnterGuest => r.child == AwaitingCreator && r.returned
    case Acquire => r.listed && r.state == Live && !r.claimed
    case Release => r.leases > 0
    case BeginExit => r.child == InGuest && !r.external
    case ExitDrained => r.child == Draining && r.borrowers == 0 && !r.external
    case FinishExit => r.child == Destructors && !r.external
    case NativeEnd => r.child == Finished
    case ClaimJoin => r.listed && !r.external && !r.detached && !r.claimed
    case ClaimReap =>
      r.listed && r.detached && r.returned && r.state == Exited && r.borrowers == 0 && !r.claimed && !r.failed
    case ClaimDrained => r.claimer == AwaitingBorrowers && r.borrowers == 0
    case NativeJoin(ok) => r.claimer == Joining && (ok ==> r.child == Ended)
    case FinishReap => r.claimer.Joined?
    case Detach => r.listed && !r.external && !r.detached && !r.claimed
    case ExternalExit => r.child == InGuest && r.external
    case ExternalDone => r.child == Draining && r.external && r.borrowers == 0
  }

  // Who takes the step.

  predicate CreatorStep(step: Step) {
    step.StartNative? || step.CreateFails? || step.Publish? || step.CreatorReturns?
  }

  predicate ChildStep(step: Step) {
    step.ChildReady? || step.EnterGuest? || step.BeginExit? || step.ExitDrained? || step.FinishExit? || step.NativeEnd?
  }

  predicate BorrowerStep(step: Step) {
    step.Acquire? || step.Release?
  }

  predicate ClaimerStep(step: Step) {
    step.ClaimJoin? || step.ClaimReap? || step.ClaimDrained? || step.NativeJoin? || step.FinishReap? || step.Detach?
  }

  predicate ExternalStep(step: Step) {
    step.ExternalExit? || step.ExternalDone?
  }

  // The record after the step, by who takes it.

  function CreatorAfter(r: Record, step: Step): Record
    requires CreatorStep(step)
  {
    match step
    case StartNative => r.(child := Started)
    case CreateFails => r.(creator := Failed, freed := true)
    case Publish(thread) =>
      r.(creator := AwaitingChild, thread := thread, listed := true, published := true,
          state := if r.ready then Live else r.state)
    case CreatorReturns => r.(creator := Returned, state := Live, returned := true)
  }

  function ChildAfter(r: Record, step: Step): Record
    requires ChildStep(step)
  {
    match step
    case ChildReady => r.(child := AwaitingCreator, ready := true, state := if r.published then Live else r.state)
    case EnterGuest => r.(child := InGuest)
    case BeginExit => r.(child := Draining, state := if r.state == Live then Exiting else r.state)
    case ExitDrained => r.(child := Destructors)
    case FinishExit => r.(child := Finished, state := Exited)
    case NativeEnd => r.(child := Ended)
  }

  function BorrowerAfter(r: Record, step: Step): Record
    requires BorrowerStep(step)
  {
    match step
    case Acquire => r.(borrowers := r.borrowers + 1, leases := r.leases + 1)
    case Release =>
      r.(borrowers := if r.borrowers > 0 then r.borrowers - 1 else 0,
         leases := if r.leases > 0 then r.leases - 1 else 0)
  }

  function ClaimerAfter(r: Record, step: Step): Record
    requires ClaimerStep(step)
  {
    match step
    case ClaimJoin => r.(claimed := true, claimer := AwaitingBorrowers)
    case ClaimReap => r.(claimed := true, claimer := Joining)
    case ClaimDrained => r.(claimer := Joining)
    case NativeJoin(ok) => r.(claimer := Joined(ok), joins := if ok then r.joins + 1 else r.joins)
    case FinishReap => if r.claimer == Joined(true) then r.(claimer := Done, listed := false, freed := true)
      else r.(claimer := Done, failed := true)
    case Detach => r.(detached := true)
  }

  function ExternalAfter(r: Record, step: Step): Record
    requires ExternalStep(step)
  {
    match step
    case ExternalExit => r.(child := Draining, state := if r.state == Live then Exiting else r.state)
    case ExternalDone => r.(child := Ended, state := Exited, listed := false, freed := true)
  }

  function After(r: Record, step: Step): Record {
    if CreatorStep(step) then CreatorAfter(r, step)
    else if ChildStep(step) then ChildAfter(r, step)
    else if BorrowerStep(step) then BorrowerAfter(r, step)
    else if ClaimerStep(step) then ClaimerAfter(r, step)
    else ExternalAfter(r, step)
  }

  /** The state follows from how far creator and child are. */
  function StateOf(r: Record): State {
    match r.child
    case NotStarted => Creating
    case Started => Creating
    case AwaitingCreator => if r.published then Live else Creating
    case InGuest => Live
    case Draining => Exiting
    case Destructors => Exiting
    case Finished => Exited
    case Ended => Exited
  }

  predicate Inv(r: Record) {
    && r.state == StateOf(r)
    && r.leases == r.borrowers
    && r.ready == (r.child !in {NotStarted, Started})
    && r.published == (r.creator in {AwaitingChild, Returned})
    && r.returned == (r.creator == Returned)
    && (r.child in {InGuest, Draining, Destructors, Finished, Ended} ==> r.returned)
    && (r.creator == Returned ==> r.ready)
    && (r.creator in {AwaitingChild, Returned} ==> r.child != NotStarted)
    && (r.creator == Failed ==> r.child == NotStarted)
    && r.listed == (r.published && !r.freed)
    && (r.freed ==>
          || r.creator == Failed
          || (r.external && r.child == Ended)
          || (r.claimer == Done && !r.failed && r.child == Ended))
    && (r.borrowers > 0 ==> r.state == Live || r.child == Draining)
    && r.claimed == (r.claimer != Nobody)
    && (r.claimer in {Joining, Joined(true), Joined(false), Done} ==> r.borrowers == 0)
    && (r.claimer == Joined(true) ==> r.child == Ended)
    && r.joins == (if r.claimer == Joined(true) || (r.claimer == Done && !r.failed) then 1 else 0)
    && (r.claimed ==> r.published && !r.external)
    && (r.claimer == Done && !r.failed ==> r.freed)
    && (r.failed ==> r.claimer == Done)
    && (r.creator == Failed ==> r.freed)
    && (r.external ==>
          && r.creator == Returned && r.child in {InGuest, Draining, Ended} && !r.detached
          && (r.child == Ended <==> r.freed))
  }

  function Next(s: State): State {
    match s
    case Creating => Live
    case Live => Exiting
    case Exiting => Exited
    case Exited => Exited
  }

  function Rank(s: State): nat {
    match s case Creating => 0 case Live => 1 case Exiting => 2 case Exited => 3
  }

  lemma InitialRecords(detached: bool, thread: nat)
    ensures Inv(NewRecord(detached)) && Inv(ExternalRecord(thread))
  {
  }

  lemma CreatorKeeps(r: Record, step: Step)
    requires Inv(r) && Enabled(r, step) && CreatorStep(step)
    ensures Inv(CreatorAfter(r, step)) && CreatorAfter(r, step).state in {r.state, Next(r.state)}
    ensures CreatorAfter(r, step).joins >= r.joins && (r.claimed ==> CreatorAfter(r, step).claimed)
    ensures Rank(r.state) >= 2 || r.claimed ==> CreatorAfter(r, step).leases <= r.leases
  {
  }

  lemma ChildKeeps(r: Record, step: Step)
    requires Inv(r) && Enabled(r, step) && ChildStep(step)
    ensures Inv(ChildAfter(r, step)) && ChildAfter(r, step).state in {r.state, Next(r.state)}
    ensures ChildAfter(r, step).joins >= r.joins && (r.claimed ==> ChildAfter(r, step).claimed)
    ensures Rank(r.state) >= 2 || r.claimed ==> ChildAfter(r, step).leases <= r.leases
  {
  }

  lemma BorrowerKeeps(r: Record, step: Step)
    requires Inv(r) && Enabled(r, step) && BorrowerStep(step)
    ensures Inv(BorrowerAfter(r, step)) && BorrowerAfter(r, step).state in {r.state, Next(r.state)}
    ensures BorrowerAfter(r, step).joins >= r.joins && (r.claimed ==> BorrowerAfter(r, step).claimed)
    ensures Rank(r.state) >= 2 || r.claimed ==> BorrowerAfter(r, step).leases <= r.leases
  {
  }

  lemma ClaimerKeeps(r: Record, step: Step)
    requires Inv(r) && Enabled(r, step) && ClaimerStep(step)
    ensures Inv(ClaimerAfter(r, step)) && ClaimerAfter(r, step).state in {r.state, Next(r.state)}
    ensures ClaimerAfter(r, step).joins >= r.joins && (r.claimed ==> ClaimerAfter(r, step).claimed)
    ensures Rank(r.state) >= 2 || r.claimed ==> ClaimerAfter(r, step).leases <= r.leases
  {
  }

  lemma ExternalKeeps(r: Record, step: Step)
    requires Inv(r) && Enabled(r, step) && ExternalStep(step)
    ensures Inv(ExternalAfter(r, step)) && ExternalAfter(r, step).state in {r.state, Next(r.state)}
    ensures ExternalAfter(r, step).joins >= r.joins && (r.claimed ==> ExternalAfter(r, step).claimed)
    ensures Rank(r.state) >= 2 || r.claimed ==> ExternalAfter(r, step).leases <= r.leases
  {
  }

  /** Every step keeps the invariant; the state moves forward only, one stage at
      a time; and nobody borrows a record that is exiting or claimed. */
  lemma StepKeeps(r: Record, step: Step)
    requires Inv(r) && Enabled(r, step)
    ensures Inv(After(r, step)) && After(r, step).state in {r.state, Next(r.state)}
    ensures After(r, step).joins >= r.joins && (r.claimed ==> After(r, step).claimed)
    ensures Rank(r.state) >= 2 || r.claimed ==> After(r, step).leases <= r.leases
  {
    hide Inv, Enabled, Rank, Next, CreatorAfter, ChildAfter, BorrowerAfter, ClaimerAfter, ExternalAfter;
    if CreatorStep(step) { CreatorKeeps(r, step); }
    else if ChildStep(step) { ChildKeeps(r, step); }
    else if BorrowerStep(step) { BorrowerKeeps(r, step); }
    else if ClaimerStep(step) { ClaimerKeeps(r, step); }
    else { ExternalKeeps(r, step); }
  }

  /** No actor ever touches a record that was freed. */
  lemma NoUseAfterFree(r: Record, step: Step)
    requires Inv(r) && Enabled(r, step)
    ensures !r.freed
  {
  }

  /** Is some actor in the middle of an operation on the record? */
  predicate Busy(r: Record) {
    || r.creator in {Allocated, AwaitingChild}
    || r.child in {Started, AwaitingCreator, InGuest, Draining, Destructors, Finished}
    || r.claimer in {AwaitingBorrowers, Joining, Joined(true), Joined(false)}
    || r.leases > 0
  }

  /** Steps that carry on an operation under way, rather than start one or give it up. */
  predicate Continues(step: Step) {
    !(step.Acquire? || step.ClaimJoin? || step.ClaimReap? || step.Detach? || step == NativeJoin(false))
  }

  /** No record is stuck by itself: while anyone is busy with it, some actor can
      carry on; for a claimer that waits to join, the thread itself can, provided
      its own code lets it. `JoinersCarryOn` is about threads that join others. */
  lemma SomeoneCarriesOn(r: Record)
    requires Inv(r) && Busy(r)
    ensures exists step :: Enabled(r, step) && Continues(step)
  {
    if r.leases > 0 {
      assert Enabled(r, Release);
    } else if r.creator == Allocated {
      assert Enabled(r, if r.child == NotStarted then StartNative else Publish(0));
    } else if r.child == Started {
      assert Enabled(r, ChildReady);
    } else if r.creator == AwaitingChild {
      assert Enabled(r, CreatorReturns);
    } else if r.claimer == AwaitingBorrowers {
      assert Enabled(r, ClaimDrained);
    } else if r.claimer.Joined? {
      assert Enabled(r, FinishReap);
    } else if r.external {
      assert Enabled(r, if r.child == InGuest then ExternalExit else ExternalDone);
    } else {
      var step := match r.child
                  case AwaitingCreator => EnterGuest
                  case InGuest => BeginExit
                  case Draining => ExitDrained
                  case Destructors => FinishExit
                  case Finished => NativeEnd
                  case _ => NativeJoin(true);
      assert Enabled(r, step);
    }
  }

  // ---- the registry: any number of records, any interleaving ----

  datatype Event =
    | Allocate(detached: bool)
    | Register(thread: nat)           // an external thread registers itself
    | On(i: nat, step: Step)
    | Snapshot                        // borrows every live unclaimed record at once

  predicate Borrowable(r: Record) { r.listed && r.state == Live && !r.claimed }

  function Borrowed(r: Record): Record {
    if Borrowable(r) then After(r, Acquire) else r
  }

  predicate Possible(records: seq<Record>, e: Event) {
    match e
    case Allocate(_) => true
    case Register(thread) => forall i | 0 <= i < |records| && records[i].listed :: records[i].thread != thread
    case On(i, step) => i < |records| && Enabled(records[i], step)
    case Snapshot => true
  }

  function Applied(records: seq<Record>, e: Event): seq<Record>
    requires Possible(records, e)
  {
    match e
    case Allocate(detached) => records + [NewRecord(detached)]
    case Register(thread) => records + [ExternalRecord(thread)]
    case On(i, step) => records[i := After(records[i], step)]
    case Snapshot => seq(|records|, i requires 0 <= i < |records| => Borrowed(records[i]))
  }

  predicate AllInv(records: seq<Record>) { forall i | 0 <= i < |records| :: Inv(records[i]) }

  predicate Runs(records: seq<Record>, events: seq<Event>, after: seq<Record>)
    decreases |events|
  {
    if events == [] then after == records
    else Possible(records, events[0]) && Runs(Applied(records, events[0]), events[1..], after)
  }

  /** What one event does to one record: nothing, or one enabled step. */
  lemma OneStep(records: seq<Record>, e: Event, i: nat)
    requires AllInv(records) && Possible(records, e) && i < |records|
    ensures i < |Applied(records, e)| && AllInv(Applied(records, e))
    ensures Applied(records, e)[i] == records[i] ||
            exists step :: Enabled(records[i], step) && Applied(records, e)[i] == After(records[i], step)
  {
    hide Inv, Enabled, After;
    var after := Applied(records, e);
    InitialRecords(e.Allocate? && e.detached, if e.Register? then e.thread else 0);
    forall j | 0 <= j < |after| ensures Inv(after[j]) {
      if e.On? && j == e.i { StepKeeps(records[j], e.step); }
      if e.Snapshot? && Borrowable(records[j]) { BorrowableEnabled(records[j]); StepKeeps(records[j], Acquire); }
    }
    if e.Snapshot? && Borrowable(records[i]) {
      BorrowableEnabled(records[i]);
      assert Enabled(records[i], Acquire) && after[i] == After(records[i], Acquire);
    }
  }

  lemma BorrowableEnabled(r: Record)
    ensures Borrowable(r) == Enabled(r, Acquire)
  {
  }

  lemma {:induction false} RunKeeps(records: seq<Record>, events: seq<Event>, after: seq<Record>)
    requires AllInv(records) && Runs(records, events, after)
    ensures AllInv(after) && |after| >= |records|
    decreases |events|
  {
    hide Inv, Enabled, After, Possible;
    if events != [] {
      EventKeeps(records, events[0]);
      RunKeeps(Applied(records, events[0]), events[1..], after);
    }
  }

  // ---- threads that join threads ----

  /** Thread of record `joiner[j]` is inside pthread_join on record `j`. */
  ghost predicate JoinersOk(records: seq<Record>, joiner: map<nat, nat>) {
    forall j | j in joiner ::
      && j < |records| && joiner[j] < |records|
      && records[j].claimer in {AwaitingBorrowers, Joining, Joined(true), Joined(false)}
      && records[joiner[j]].child == InGuest
  }

  /** The step is guest code of record `i` going on, which it cannot inside a join. */
  predicate Blocked(joiner: map<nat, nat>, i: nat, step: Step) {
    (step.BeginExit? || step.ExternalExit?) && exists j :: j in joiner && joiner[j] == i
  }

  ghost predicate CanGo(records: seq<Record>, joiner: map<nat, nat>, i: nat, step: Step) {
    i < |records| && Enabled(records[i], step) && Continues(step) && !Blocked(joiner, i, step)
  }

  /** No deadlock unless threads join in a circle: if every thread ranks above the
      threads it joins, then while anyone is busy some actor can carry on. */
  lemma {:induction false} JoinersCarryOn(records: seq<Record>, joiner: map<nat, nat>, rank: nat -> nat, i: nat)
    requires AllInv(records) && JoinersOk(records, joiner) && i < |records| && Busy(records[i])
    requires forall j | j in joiner :: rank(j) < rank(joiner[j])
    ensures exists k: nat, step :: CanGo(records, joiner, k, step)
    decreases rank(i)
  {
    hide Inv, Enabled;
    SomeoneCarriesOn(records[i]);
    var step :| Enabled(records[i], step) && Continues(step);
    if Blocked(joiner, i, step) {
      var j :| j in joiner && joiner[j] == i;
      JoinersCarryOn(records, joiner, rank, j);
    } else {
      assert CanGo(records, joiner, i, step);
    }
  }

  /** A thread whose record another thread has claimed and now joins. */
  function Waiter(thread: nat): Record {
    Record(thread, Live, true, true, true, 0, false, true, false, false, true, false, Returned, InGuest, Joining, 0, 0)
  }

  predicate StepsRun(r: Record, steps: seq<Step>, after: Record)
    decreases |steps|
  {
    if steps == [] then after == r
    else Enabled(r, steps[0]) && StepsRun(After(r, steps[0]), steps[1..], after)
  }

  lemma {:induction false} StepsOnRecord(records: seq<Record>, i: nat, steps: seq<Step>, after: Record)
      returns (events: seq<Event>)
    requires i < |records| && StepsRun(records[i], steps, after)
    ensures Runs(records, events, records[i := after])
    decreases |steps|
  {
    hide Enabled, After;
    if steps == [] {
      events := [];
      assert records[i := after] == records;
    } else {
      var next := records[i := After(records[i], steps[0])];
      var rest := StepsOnRecord(next, i, steps[1..], after);
      assert next[i := after] == records[i := after];
      events := [On(i, steps[0])] + rest;
      assert events[1..] == rest;
    }
  }

  /** The record of a thread that runs guest code. */
  function InGuestCode(thread: nat): Record {
    Record(thread, Live, true, true, true, 0, false, false, false, false, true, false, Returned, InGuest, Nobody, 0, 0)
  }

  lemma Starts(thread: nat)
    ensures StepsRun(NewRecord(false), [StartNative, ChildReady, Publish(thread), CreatorReturns, EnterGuest],
                     InGuestCode(thread))
  {
    var a := After(NewRecord(false), StartNative);
    var b := After(a, ChildReady);
    var c := After(b, Publish(thread));
    var d := After(c, CreatorReturns);
    assert After(d, EnterGuest) == InGuestCode(thread);
    hide Enabled, After;
    StepFirst(d, EnterGuest, [], InGuestCode(thread));
    StepFirst(c, CreatorReturns, [EnterGuest], InGuestCode(thread));
    StepFirst(b, Publish(thread), [CreatorReturns, EnterGuest], InGuestCode(thread));
    StepFirst(a, ChildReady, [Publish(thread), CreatorReturns, EnterGuest], InGuestCode(thread));
    StepFirst(NewRecord(false), StartNative, [ChildReady, Publish(thread), CreatorReturns, EnterGuest],
              InGuestCode(thread));
  }

  lemma IsJoined(thread: nat)
    ensures StepsRun(InGuestCode(thread), [ClaimJoin, ClaimDrained], Waiter(thread))
  {
    var a := After(InGuestCode(thread), ClaimJoin);
    assert After(a, ClaimDrained) == Waiter(thread);
    StepFirst(a, ClaimDrained, [], Waiter(thread));
    StepFirst(InGuestCode(thread), ClaimJoin, [ClaimDrained], Waiter(thread));
  }

  lemma StepFirst(r: Record, step: Step, steps: seq<Step>, after: Record)
    requires Enabled(r, step) && StepsRun(After(r, step), steps, after)
    ensures StepsRun(r, [step] + steps, after)
  {
    hide Enabled, After;
    assert ([step] + steps)[1..] == steps;
  }

  lemma {:induction false} StepsJoin(r: Record, a: seq<Step>, mid: Record, b: seq<Step>, after: Record)
    requires StepsRun(r, a, mid) && StepsRun(mid, b, after)
    ensures StepsRun(r, a + b, after)
    decreases |a|
  {
    hide Enabled, After;
    if a == [] {
      assert a + b == b;
    } else {
      assert (a + b)[1..] == a[1..] + b;
      StepsJoin(After(r, a[0]), a[1..], mid, b, after);
    }
  }

  lemma BecomesWaiter(thread: nat) returns (steps: seq<Step>)
    ensures StepsRun(NewRecord(false), steps, Waiter(thread))
  {
    hide StepsRun;
    Starts(thread);
    IsJoined(thread);
    steps := [StartNative, ChildReady, Publish(thread), CreatorReturns, EnterGuest];
    StepsJoin(NewRecord(false), steps, InGuestCode(thread), [ClaimJoin, ClaimDrained], Waiter(thread));
    steps := steps + [ClaimJoin, ClaimDrained];
  }

  lemma {:induction false} RunsJoin(records: seq<Record>, a: seq<Event>, mid: seq<Record>, b: seq<Event>,
      after: seq<Record>)
    requires Runs(records, a, mid) && Runs(mid, b, after)
    ensures Runs(records, a + b, after)
    decreases |a|
  {
    hide Possible, Applied;
    if a == [] {
      assert a + b == b;
    } else {
      assert (a + b)[1..] == a[1..] + b;
      RunsJoin(Applied(records, a[0]), a[1..], mid, b, after);
    }
  }

  /** Two threads that join each other, which the registry lets them do: a run that
      ends with both busy and nobody able to carry on. */
  lemma JoinEachOtherIsStuck()
    ensures exists events, records: seq<Record>, joiner: map<nat, nat> ::
              && Runs([], events, records) && JoinersOk(records, joiner) && |records| == 2
              && Busy(records[0]) && Busy(records[1])
              && forall i: nat, step :: !CanGo(records, joiner, i, step)
  {
    var r := NewRecord(false);
    var start := [Allocate(false), Allocate(false)];
    assert start[1..] == [Allocate(false)] && [Allocate(false)][1..] == [];
    assert Runs([r], [Allocate(false)], [r, r]) by { assert Runs([r, r], [], [r, r]); }
    assert Runs([], start, [r, r]) by { assert [] + [r] == [r]; }
    var first := BecomesWaiter(1);
    var a := StepsOnRecord([r, r], 0, first, Waiter(1));
    assert [r, r][0 := Waiter(1)] == [Waiter(1), r];
    var second := BecomesWaiter(2);
    var b := StepsOnRecord([Waiter(1), r], 1, second, Waiter(2));
    var records := [Waiter(1), Waiter(2)];
    assert [Waiter(1), r][1 := Waiter(2)] == records;
    RunsJoin([], start, [r, r], a, [Waiter(1), r]);
    RunsJoin([], start + a, [Waiter(1), r], b, records);
    var joiner: map<nat, nat> := map[0 := 1, 1 := 0];
    BothStuck(records, joiner);
  }

  lemma BothStuck(records: seq<Record>, joiner: map<nat, nat>)
    requires records == [Waiter(1), Waiter(2)] && joiner == map[0 := 1, 1 := 0]
    ensures JoinersOk(records, joiner) && Busy(records[0]) && Busy(records[1])
    ensures forall i: nat, step :: !CanGo(records, joiner, i, step)
  {
    assert 0 in joiner && joiner[0] == 1 && 1 in joiner && joiner[1] == 0;
    forall i: nat, step ensures !CanGo(records, joiner, i, step) {
      if i < 2 { assert records[i] == Waiter(i + 1); }
    }
  }

  lemma EventKeeps(records: seq<Record>, e: Event)
    requires AllInv(records) && Possible(records, e)
    ensures AllInv(Applied(records, e)) && |Applied(records, e)| >= |records|
  {
    hide Inv, Enabled, After;
    if |records| > 0 {
      OneStep(records, e, 0);
    } else {
      InitialRecords(e.Allocate? && e.detached, if e.Register? then e.thread else 0);
    }
  }

  /** Whatever the interleaving from an empty registry: guest code runs only in
      published records; after the exit drain, and from the native join on,
      nobody borrows; a record is natively joined once at most, after its
      thread ended; a freed record has no borrower and no running thread. */
  lemma RegistryIsSafe(events: seq<Event>, records: seq<Record>, i: nat)
    requires Runs([], events, records) && i < |records|
    ensures records[i].child in {InGuest, Draining, Destructors, Finished, Ended} ==>
              records[i].published && records[i].returned
    ensures records[i].state == Exited || records[i].child == Destructors ==> records[i].leases == 0
    ensures records[i].claimer in {Joining, Joined(true), Joined(false), Done} ==> records[i].leases == 0
    ensures records[i].joins <= 1 && (records[i].joins == 1 ==> records[i].child == Ended && !records[i].external)
    ensures records[i].freed ==> records[i].leases == 0 && !records[i].listed && records[i].child in {NotStarted, Ended}
    ensures records[i].freed && records[i].child == Ended && !records[i].external ==> records[i].joins == 1
    ensures records[i].leases > 0 ==>
        !records[i].freed && records[i].joins == 0 && records[i].child in {AwaitingCreator, InGuest, Draining}
  {
    RunKeeps([], events, records);
  }

  /** Once exiting or claimed, a record's borrowers only go away; the state never
      goes back; and a freed record stays as it is. */
  lemma {:induction false} RecordsOnlyAge(records: seq<Record>, events: seq<Event>, after: seq<Record>, i: nat)
    requires AllInv(records) && Runs(records, events, after) && i < |records|
    ensures i < |after| && Rank(records[i].state) <= Rank(after[i].state)
    ensures records[i].joins <= after[i].joins && (records[i].claimed ==> after[i].claimed)
    ensures Rank(records[i].state) >= 2 || records[i].claimed ==> after[i].leases <= records[i].leases
    ensures records[i].freed ==> after[i] == records[i]
    decreases |events|
  {
    hide Inv, Enabled, After, Possible, Applied;
    if events != [] {
      OneStep(records, events[0], i);
      StepAges(records[i], Applied(records, events[0])[i]);
      RecordsOnlyAge(Applied(records, events[0]), events[1..], after, i);
    }
  }

  lemma StepAges(r: Record, s: Record)
    requires Inv(r) && (s == r || exists step :: Enabled(r, step) && s == After(r, step))
    ensures Rank(r.state) <= Rank(s.state) && r.joins <= s.joins && (r.claimed ==> s.claimed)
    ensures Rank(r.state) >= 2 || r.claimed ==> s.leases <= r.leases
    ensures r.freed ==> s == r
  {
    hide Inv, Enabled, After;
    if s != r {
      var step :| Enabled(r, step) && s == After(r, step);
      NoUseAfterFree(r, step);
      StepKeeps(r, step);
    }
  }

  // ---- the registry itself: records in memory, and the list of them ----

  function Without(list: seq<nat>, target: nat): seq<nat> {
    if list == [] then [] else if list[0] == target then list[1..] else [list[0]] + Without(list[1..], target)
  }

  predicate Distinct(list: seq<nat>) { forall i, j | 0 <= i < j < |list| :: list[i] != list[j] }

  lemma {:induction false} WithoutIs(list: seq<nat>, k: nat)
    requires k < |list| && list[k] !in list[..k]
    ensures Without(list, list[k]) == list[..k] + list[k + 1..]
    decreases |list|
  {
    if k > 0 {
      assert list[0] in list[..k];
      assert list[..k] == [list[0]] + list[1..][..k - 1];
      WithoutIs(list[1..], k - 1);
    }
  }

  lemma {:induction false} WithoutNone(list: seq<nat>, target: nat)
    requires target !in list
    ensures Without(list, target) == list
    decreases |list|
  {
    if list != [] {
      assert list == [list[0]] + list[1..];
      WithoutNone(list[1..], target);
    }
  }

  lemma WithoutKeeps(list: seq<nat>, target: nat)
    requires Distinct(list)
    ensures Distinct(Without(list, target))
    ensures forall x: nat :: x in Without(list, target) <==> x in list && x != target
  {
    hide Without;
    if target in list {
      var k :| 0 <= k < |list| && list[k] == target;
      WithoutIs(list, k);
      assert list == list[..k] + [target] + list[k + 1..];
    } else {
      WithoutNone(list, target);
    }
  }

  /** The records a snapshot borrows, in list order. */
  function Picked(records: seq<Record>, list: seq<nat>): seq<nat> {
    if list == [] then []
    else
      var n := |list| - 1;
      if list[n] < |records| && Borrowable(records[list[n]]) then Picked(records, list[..n]) + [list[n]]
      else Picked(records, list[..n])
  }

  /** The first record of the list with this thread. */
  function FirstOf(records: seq<Record>, list: seq<nat>, thread: nat): Option<nat> {
    if list == [] then None
    else if list[0] < |records| && records[list[0]].thread == thread then Some(list[0])
    else FirstOf(records, list[1..], thread)
  }

  /** Which record each call acts on: the first of its thread, if that will do. */
  function AcquiredOf(records: seq<Record>, list: seq<nat>, thread: nat): Option<nat> {
    var first := FirstOf(records, list, thread);
    if thread != 0 && first.Some? && first.value < |records|
       && records[first.value].state == Live && !records[first.value].claimed then first else None
  }

  function JoinableOf(records: seq<Record>, list: seq<nat>, thread: nat): Option<nat> {
    var first := FirstOf(records, list, thread);
    if thread != 0 && first.Some? && first.value < |records|
       && !records[first.value].external && !records[first.value].detached && !records[first.value].claimed
    then first else None
  }

  lemma AllocatedIsUnlisted(r: Record)
    requires Inv(r) && r.creator == Allocated
    ensures !r.listed
  {
  }

  lemma JoinedIsListed(r: Record)
    requires Inv(r) && (Enabled(r, FinishReap) || Enabled(r, ExternalDone))
    ensures r.listed && (Enabled(r, FinishReap) ==> r.claimer.Joined?)
  {
  }

  class Registry {
    var records: seq<Record>
    var list: seq<nat>

    ghost predicate Linked()
      reads this
    {
      && Distinct(list)
      && (forall k | 0 <= k < |list| :: list[k] < |records| && records[list[k]].listed)
      && (forall i | 0 <= i < |records| && records[i].listed :: i in list)
    }

    ghost predicate Valid()
      reads this
    {
      AllInv(records) && Linked()
    }

    constructor ()
      ensures Valid() && records == [] && list == []
    {
      records, list := [], [];
    }

    method Find(thread: nat) returns (found: Option<nat>)
      requires Linked()
      ensures found == FirstOf(records, list, thread)
      ensures found.Some? ==>
          found.value < |records| && records[found.value].listed && records[found.value].thread == thread
      ensures found.None? ==> forall i | 0 <= i < |records| && records[i].listed :: records[i].thread != thread
    {
      for k := 0 to |list|
        invariant forall j | 0 <= j < k :: records[list[j]].thread != thread
        invariant FirstOf(records, list, thread) == FirstOf(records, list[k..], thread)
      {
        assert list[k..][0] == list[k] && list[k..][1..] == list[k + 1..];
        if records[list[k]].thread == thread { return Some(list[k]); }
      }
      return None;
    }

    /** One enabled step of one record that stays where it is in the list. */
    method Take(i: nat, step: Step, r: Record)
      requires Valid() && i < |records| && Enabled(records[i], step) && r == After(records[i], step)
          && r.listed == records[i].listed
      modifies this`records
      ensures Valid() && records == Applied(old(records), On(i, step))
    {
      hide Inv, Enabled, After;
      StepKeeps(records[i], step);
      records := records[i := r];
    }

    method Acquire(thread: nat) returns (found: Option<nat>)
      requires Valid()
      modifies this`records
      ensures Valid() && found == AcquiredOf(old(records), list, thread)
      ensures found.Some? ==>
          Possible(old(records), On(found.value, Step.Acquire)) && old(records)[found.value].thread == thread
      ensures found.Some? ==> records == Applied(old(records), On(found.value, Step.Acquire))
      ensures found.None? ==> records == old(records)
    {
      if thread == 0 { return None; }
      found := Find(thread);
      if found.Some? {
        var r := records[found.value];
        if r.state != Live || r.claimed { return None; }
        Take(found.value, Step.Acquire, r.(borrowers := r.borrowers + 1, leases := r.leases + 1));
      }
    }

    method Release(i: nat)
      requires Valid() && i < |records| && records[i].leases > 0
      modifies this`records
      ensures Valid() && records == Applied(old(records), On(i, Step.Release))
    {
      var r := records[i];
      if r.borrowers > 0 {
        Take(i, Step.Release, r.(borrowers := r.borrowers - 1, leases := r.leases - 1));
      }
    }

    /** Borrows every live unclaimed record, or none when they do not fit. */
    method TakeSnapshot(capacity: nat) returns (ok: bool, refs: seq<nat>)
      requires Valid()
      modifies this`records
      ensures Valid()
      ensures ok ==> refs == Picked(old(records), list) && records == Applied(old(records), Snapshot)
      ensures !ok ==> refs == [] && records == old(records)
      ensures ok <==> |Picked(old(records), list)| <= capacity
    {
      hide Inv, After, Linked, Picked;
      var count := CountBorrowable();
      if count > capacity { return false, []; }
      refs := BorrowAll();
      return true, refs;
    }

    method CountBorrowable() returns (count: nat)
      requires Linked()
      ensures count == |Picked(records, list)|
    {
      count := 0;
      for k := 0 to |list|
        invariant count == |Picked(records, list[..k])|
      {
        assert list[..k + 1][..k] == list[..k];
        if records[list[k]].state == Live && !records[list[k]].claimed { count := count + 1; }
      }
      assert list[..|list|] == list;
    }

    method BorrowAll() returns (refs: seq<nat>)
      requires Valid()
      modifies this`records
      ensures Valid() && refs == Picked(old(records), list) && records == Applied(old(records), Snapshot)
    {
      hide Inv, After, Borrowable, Borrowed;
      refs := [];
      ghost var done: set<nat> := {};
      for k := 0 to |list|
        invariant |records| == |old(records)| && refs == Picked(old(records), list[..k])
        invariant forall j | 0 <= j < |list| :: list[j] in done <==> j < k
        invariant forall i: nat | i < |records| ::
            records[i] == if i in done then Borrowed(old(records)[i]) else old(records)[i]
      {
        var i := list[k];
        assert list[..k + 1][..k] == list[..k];
        BorrowedIs(old(records)[i]);
        done := done + {i};
        if records[i].state == Live && !records[i].claimed {
          records := records[i := records[i].(borrowers := records[i].borrowers + 1, leases := records[i].leases + 1)];
          refs := refs + [i];
        }
      }
      assert list[..|list|] == list;
      forall i: nat | i < |records| ensures records[i] == Borrowed(old(records)[i])
          && records[i].listed == old(records)[i].listed {
        BorrowedIs(old(records)[i]);
      }
      assert records == Applied(old(records), Snapshot);
      EventKeeps(old(records), Snapshot);
    }

    /** The reaper's choice: the first detached, returned, exited record that
        nobody borrows, claimed or failed to join. */
    method ClaimReapable() returns (found: Option<nat>)
      requires Valid()
      modifies this`records
      ensures Valid()
      ensures found.Some? ==> Possible(old(records), On(found.value, ClaimReap))
      ensures found.Some? ==> records == Applied(old(records), On(found.value, ClaimReap))
      ensures found.None? ==>
          records == old(records) && forall i | 0 <= i < |records| :: !Enabled(records[i], ClaimReap)
      ensures found.Some? ==> exists k :: 0 <= k < |list| && list[k] == found.value
                                          && forall j | 0 <= j < k :: !Enabled(old(records)[list[j]], ClaimReap)
    {
      hide Inv;
      for k := 0 to |list|
        invariant records == old(records) && forall j | 0 <= j < k :: !Enabled(records[list[j]], ClaimReap)
      {
        var r := records[list[k]];
        if r.detached && r.returned && r.state == Exited && r.borrowers == 0 && !r.claimed && !r.failed {
          ghost var before := records;
          assert list[k] == list[k] && forall j | 0 <= j < k :: !Enabled(before[list[j]], ClaimReap);
          Take(list[k], ClaimReap, r.(claimed := true, claimer := Joining));
          return Some(list[k]);
        }
      }
      return None;
    }

    /** pthread_join, called by thread `self`, up to its wait for the borrowers. */
    method ClaimForJoin(thread: nat, self: nat) returns (found: Option<nat>)
      requires Valid()
      modifies this`records
      ensures Valid() && found == if thread == self then None else JoinableOf(old(records), list, thread)
      ensures found.Some? ==>
          Possible(old(records), On(found.value, ClaimJoin)) && old(records)[found.value].thread == thread
      ensures found.Some? ==> records == Applied(old(records), On(found.value, ClaimJoin))
      ensures found.None? ==> records == old(records)
    {
      hide Inv;
      if thread == 0 || thread == self { return None; }
      found := Find(thread);
      if found.Some? {
        var r := records[found.value];
        if r.external || r.detached || r.claimed { return None; }
        Take(found.value, ClaimJoin, r.(claimed := true, claimer := AwaitingBorrowers));
      }
    }

    /** pthread_detach, when the reaper could be started. */
    method MarkDetached(thread: nat, reaperOk: bool) returns (found: Option<nat>)
      requires Valid()
      modifies this`records
      ensures Valid() && found == if reaperOk then JoinableOf(old(records), list, thread) else None
      ensures found.Some? ==>
          Possible(old(records), On(found.value, Detach)) && old(records)[found.value].thread == thread
      ensures found.Some? ==> records == Applied(old(records), On(found.value, Detach))
      ensures found.None? ==> records == old(records)
    {
      hide Inv;
      if thread == 0 || !reaperOk { return None; }
      found := Find(thread);
      if found.Some? {
        var r := records[found.value];
        if r.external || r.detached || r.claimed { return None; }
        Take(found.value, Detach, r.(detached := true));
      }
    }

    /** The creator puts its record first in the list, up to its wait. */
    method PublishRecord(i: nat, thread: nat)
      requires Valid() && i < |records| && Enabled(records[i], Publish(thread))
      modifies this
      ensures Valid() && records == Applied(old(records), On(i, Publish(thread))) && list == [i] + old(list)
    {
      hide Inv;
      var r := records[i];
      AllocatedIsUnlisted(r);
      StepKeeps(r, Publish(thread));
      r := r.(thread := thread, listed := true, published := true, creator := AwaitingChild);
      if r.ready { r := r.(state := Live); }
      list := [i] + list;
      records := records[i := r];
    }

    method ChildIsReady(i: nat)
      requires Valid() && i < |records| && Enabled(records[i], ChildReady)
      modifies this`records
      ensures Valid() && records == Applied(old(records), On(i, ChildReady))
    {
      hide Inv;
      var r := records[i].(ready := true, child := AwaitingCreator);
      if r.published { r := r.(state := Live); }
      Take(i, ChildReady, r);
    }

    method CreatorIsDone(i: nat)
      requires Valid() && i < |records| && Enabled(records[i], CreatorReturns)
      modifies this`records
      ensures Valid() && records == Applied(old(records), On(i, CreatorReturns))
    {
      hide Inv;
      Take(i, CreatorReturns, records[i].(state := Live, returned := true, creator := Returned));
    }

    method BeginThreadExit(i: nat)
      requires Valid() && i < |records| && Enabled(records[i], BeginExit)
      modifies this`records
      ensures Valid() && records == Applied(old(records), On(i, BeginExit))
    {
      hide Inv;
      var r := records[i].(child := Draining);
      if r.state == Live { r := r.(state := Exiting); }
      Take(i, BeginExit, r);
    }

    method FinishThreadExit(i: nat)
      requires Valid() && i < |records| && Enabled(records[i], FinishExit)
      modifies this`records
      ensures Valid() && records == Applied(old(records), On(i, FinishExit))
    {
      hide Inv;
      Take(i, FinishExit, records[i].(child := Finished, state := Exited));
    }

    /** After the native join: the record leaves the list and is freed, or is
        kept for good when the join failed. */
    method FinishReaping(i: nat)
      requires Valid() && i < |records| && Enabled(records[i], FinishReap)
      modifies this
      ensures Valid() && records == Applied(old(records), On(i, FinishReap))
      ensures list == if old(records)[i].claimer == Joined(true) then Without(old(list), i) else old(list)
    {
      hide Inv, Enabled;
      var r := records[i];
      StepKeeps(r, FinishReap);
      JoinedIsListed(r);
      if r.claimer.ok {
        Unlinked(records, list, i, r.(claimer := Done, listed := false, freed := true));
        RemoveLocked(i);
        records := records[i := r.(claimer := Done, listed := false, freed := true)];
      } else {
        records := records[i := r.(claimer := Done, failed := true)];
      }
    }

    method RemoveLocked(target: nat)
      modifies this`list
      ensures list == Without(old(list), target)
    {
      var k := 0;
      while k < |list| && list[k] != target
        invariant k <= |list| && target !in list[..k]
      {
        k := k + 1;
      }
      if k < |list| {
        WithoutIs(list, k);
        list := list[..k] + list[k + 1..];
      } else {
        WithoutNone(list, target);
      }
    }

    /** A thread this layer did not create shows itself to the guest. */
    method RegisterExternal(thread: nat) returns (found: Option<nat>)
      requires Valid()
      modifies this
      ensures Valid()
      ensures found.Some? ==>
          Possible(old(records), Register(thread)) && records == Applied(old(records), Register(thread))
      ensures found.Some? ==> found.value == |old(records)| && list == [found.value] + old(list)
      ensures found.None? ==>
          records == old(records) && exists i :: 0 <= i < |records| && records[i].listed && records[i].thread == thread
    {
      var existing := Find(thread);
      if existing.Some? { return None; }
      InitialRecords(false, thread);
      hide Inv;
      found := Some(|records|);
      list := [|records|] + list;
      records := records + [ExternalRecord(thread)];
    }

    /** The destructor of an external record, once its borrowers are gone. */
    method FinishExternal(i: nat)
      requires Valid() && i < |records| && Enabled(records[i], ExternalDone)
      modifies this
      ensures Valid() && records == Applied(old(records), On(i, ExternalDone)) && list == Without(old(list), i)
    {
      hide Inv, Enabled;
      var r := records[i];
      StepKeeps(r, ExternalDone);
      JoinedIsListed(r);
      Unlinked(records, list, i, r.(child := Ended, state := Exited, listed := false, freed := true));
      RemoveLocked(i);
      records := records[i := r.(child := Ended, state := Exited, listed := false, freed := true)];
    }
  }

  lemma BorrowedIs(r: Record)
    ensures Borrowable(r) == (r.listed && r.state == Live && !r.claimed)
    ensures Borrowed(r) == if Borrowable(r) then r.(borrowers := r.borrowers + 1, leases := r.leases + 1) else r
    ensures Borrowed(r).listed == r.listed
  {
  }

  /** Without its record, a linked list still lists exactly the listed ones. */
  lemma Unlinked(records: seq<Record>, list: seq<nat>, i: nat, r: Record)
    requires Distinct(list) && i < |records| && records[i].listed && !r.listed
    requires forall k | 0 <= k < |list| :: list[k] < |records| && records[list[k]].listed
    requires forall j | 0 <= j < |records| && records[j].listed :: j in list
    ensures Distinct(Without(list, i))
    ensures forall k | 0 <= k < |Without(list, i)| ::
        Without(list, i)[k] < |records| && records[i := r][Without(list, i)[k]].listed
    ensures forall j | 0 <= j < |records| && records[i := r][j].listed :: j in Without(list, i)
  {
    WithoutKeeps(list, i);
    var rest := Without(list, i);
    forall k | 0 <= k < |rest| ensures rest[k] < |records| && records[i := r][rest[k]].listed {
      assert rest[k] in rest;
    }
  }
}
