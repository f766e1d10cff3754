/** The wait-and-wake loopers (source/android_native_unity.c lines 258 to 439,
    441 to 600 and 658 to 856). Every section under the lock is one step, and
    callbacks run between steps, so they may do anything, polling included.
    Generations are unbounded here; the source's 64-bit ones skip zero. */
module Looper {
  import opened Bytes

  const MAX_LOOPERS: nat := 32
  const MAX_FDS: nat := 32

  /** One registration slot. */
  datatype Reg = Reg(used: bool, fd: int, ident: int, callback: bool, generation: nat)

  datatype Response = Response(fd: int, ident: int)

  datatype Looper = Looper(
    used: bool, owner: Option<nat>, refs: nat, allowNonCallbacks: bool, generation: nat,
    nextFd: nat, wake: nat, consumed: nat,
    fds: seq<Reg>, responses: seq<Response>, at: nat,
    seen: nat)                 // the latest wake a finished poll accounted for

  datatype Cookie = Cookie(slot: nat, generation: nat)

  /** A registration copied while the lock was held. */
  datatype Copy = Copy(slot: nat, reg: Reg)

  datatype PollPhase =
    | Looping
    | Clocking                                       // nothing came; the clock is read without the lock
    | Waiting(copies: seq<Copy>)                     // in poll(), without the lock
    | Calling(batch: seq<Copy>, at: nat, through: nat)   // callbacks; `through` is the consume snapshot
    | Returned(result: PollResult)

  datatype PollResult = Ident(ident: int) | WakeResult | CallbackResult | Timeout | Error

  datatype Poll = Poll(slot: nat, generation: nat, phase: PollPhase)

  datatype View = View(loopers: seq<Looper>, cookies: seq<Option<Cookie>>, polls: seq<Poll>)

  // ---- one looper ----

  function ClearFd(l: Looper, k: nat): Looper
    requires k < |l.fds|
  {
    l.(fds := l.fds[k := Reg(false, -1, 0, false, l.nextFd + 1)], nextFd := l.nextFd + 1)
  }

  function ClearFrom(l: Looper, k: nat): (r: Looper)
    requires k <= |l.fds|
    ensures |r.fds| == |l.fds|
    decreases |l.fds| - k
  {
    if k == |l.fds| then l else ClearFrom(ClearFd(l, k), k + 1)
  }

  function Retire(l: Looper): Looper {
    ClearFrom(l, 0).(owner := None, refs := 0, allowNonCallbacks := false, used := false,
                     generation := l.generation + 1, wake := 0, consumed := 0, seen := 0, responses := [], at := 0)
  }

  function Allocate(l: Looper, tid: nat, allow: bool): Looper {
    ClearFrom(l, 0).(owner := Some(tid), refs := 1, allowNonCallbacks := allow, used := true,
                     generation := l.generation + 1, wake := 0, consumed := 0, seen := 0, responses := [], at := 0)
  }

  function Disassociate(l: Looper): Looper {
    var m := l.(owner := None, generation := l.generation + 1, refs := if l.refs > 0 then l.refs - 1 else 0);
    if m.refs == 0 then Retire(m) else m
  }

  function Signal(l: Looper): Looper { l.(wake := l.wake + 1) }

  predicate HasWake(l: Looper) { l.wake != l.consumed }

  function Max(a: nat, b: nat): nat { if a < b then b else a }

  /** A poll accounts for the wakes up to `through`. */
  function Consume(l: Looper, through: nat): Looper { l.(consumed := through, seen := Max(l.seen, through)) }

  /** The slot a registration of `fd` goes to: its own, or the first free one. */
  function FindFd(fds: seq<Reg>, fd: int): (k: nat)
    ensures k <= |fds| && (k < |fds| ==> fds[k].used && fds[k].fd == fd)
    ensures forall j | 0 <= j < k :: !(fds[j].used && fds[j].fd == fd)
  {
    if fds == [] || (fds[0].used && fds[0].fd == fd) then 0 else 1 + FindFd(fds[1..], fd)
  }

  function FindUnused(fds: seq<Reg>): (k: nat)
    ensures k <= |fds| && (k < |fds| ==> !fds[k].used)
    ensures forall j | 0 <= j < k :: fds[j].used
  {
    if fds == [] || !fds[0].used then 0 else 1 + FindUnused(fds[1..])
  }

  function Target(fds: seq<Reg>, fd: int): (k: nat)
    ensures k <= |fds|
  {
    if FindFd(fds, fd) < |fds| then FindFd(fds, fd) else FindUnused(fds)
  }

  predicate CanAdd(l: Looper, fd: int, ident: int, callback: bool) {
    fd >= 0 && (callback || ident >= 0) && l.used && (callback || l.allowNonCallbacks) && Target(l.fds, fd) < |l.fds|
  }

  function AddFd(l: Looper, fd: int, ident: int, callback: bool): Looper
    requires CanAdd(l, fd, ident, callback)
  {
    l.(fds := l.fds[Target(l.fds, fd) := Reg(true, fd, ident, callback, l.nextFd + 1)], nextFd := l.nextFd + 1)
  }

  function RemoveFd(l: Looper, fd: int): Looper {
    if l.used && FindFd(l.fds, fd) < |l.fds| then ClearFd(l, FindFd(l.fds, fd)) else l
  }

  /** The registrations in use, in slot order. */
  function Copies(fds: seq<Reg>): seq<Copy> {
    if fds == [] then []
    else
      var n := |fds| - 1;
      Copies(fds[..n]) + (if fds[n].used then [Copy(n, fds[n])] else [])
  }

  /** Is the copy still the registration in its slot? */
  predicate Current(l: Looper, c: Copy) {
    c.slot < |l.fds| && l.fds[c.slot].used && l.fds[c.slot].fd == c.reg.fd
        && l.fds[c.slot].generation == c.reg.generation
  }

  // ---- sections ----

  predicate LiveAt(v: View, slot: nat, generation: nat) {
    slot < |v.loopers| && v.loopers[slot].used && v.loopers[slot].generation == generation
  }

  /** The looper of thread `t`, through its cookie. */
  predicate CurrentOf(v: View, t: nat, slot: nat) {
    && t < |v.cookies| && v.cookies[t].Some? && v.cookies[t].value.slot == slot
    && LiveAt(v, slot, v.cookies[t].value.generation) && v.loopers[slot].owner == Some(t)
  }

  datatype Step =
    | Prepare(t: nat, slot: nat, allow: bool, stored: bool)    // slot: the free one; stored: the thread key was set
    | Acquire(slot: nat)
    | Release(slot: nat)
    | Wake(slot: nat)
    | Add(slot: nat, fd: int, ident: int, callback: bool)
    | Remove(slot: nat, fd: int)
    | ThreadExit(t: nat)
    | PollBegin(t: nat, slot: nat)
    | PollLoop(p: nat, expired: bool, waitFailed: bool)
    | PollInterrupted(p: nat)
    | PollFailed(p: nat)
    | PollReady(p: nat, ready: seq<bool>)
    | PollClock(p: nat, expired: bool)
    | CallbackDone(p: nat, keep: bool)
    | BatchDone(p: nat)

  predicate InPhase(v: View, p: nat) { p < |v.polls| && v.polls[p].slot < |v.loopers| }

  predicate Allowed(v: View, s: Step) {
    match s
    case Prepare(t, slot, _, _) =>
      t < |v.cookies| && slot < |v.loopers| && !v.loopers[slot].used
      && forall k | 0 <= k < |v.loopers| :: !CurrentOf(v, t, k)
    case Acquire(slot) => slot < |v.loopers|
    case Release(slot) => slot < |v.loopers|
    case Wake(slot) => slot < |v.loopers|
    case Add(slot, fd, ident, callback) => slot < |v.loopers| && CanAdd(v.loopers[slot], fd, ident, callback)
    case Remove(slot, _) => slot < |v.loopers|
    case ThreadExit(t) => t < |v.cookies| && v.cookies[t].Some? && v.cookies[t].value.slot < |v.loopers|
    case PollBegin(t, slot) => CurrentOf(v, t, slot)
    case PollLoop(p, _, _) => InPhase(v, p) && v.polls[p].phase == Looping
    case PollInterrupted(p) => InPhase(v, p) && v.polls[p].phase.Waiting?
    case PollFailed(p) => InPhase(v, p) && v.polls[p].phase.Waiting?
    case PollReady(p, ready) => InPhase(v, p) && v.polls[p].phase.Waiting? && |ready| == |v.polls[p].phase.copies|
    case PollClock(p, _) => InPhase(v, p) && v.polls[p].phase == Clocking
    case CallbackDone(p, _) => InPhase(v, p) && v.polls[p].phase.Calling?
      && v.polls[p].phase.at < |v.polls[p].phase.batch|
    case BatchDone(p) => InPhase(v, p) && v.polls[p].phase.Calling? && v.polls[p].phase.at == |v.polls[p].phase.batch|
  }

  function SetLooper(v: View, slot: nat, l: Looper): View
    requires slot < |v.loopers|
  {
    v.(loopers := v.loopers[slot := l])
  }

  function SetPhase(v: View, p: nat, phase: PollPhase): View
    requires p < |v.polls|
  {
    v.(polls := v.polls[p := v.polls[p].(phase := phase)])
  }

  predicate HasResponse(l: Looper) { l.at < |l.responses| }

  function Took(l: Looper): Looper
    requires HasResponse(l)
  {
    if l.at + 1 == |l.responses| then l.(responses := [], at := 0) else l.(at := l.at + 1)
  }

  /** The copies that are ready, still current, and pass `wanted`. */
  function Ready(l: Looper, copies: seq<Copy>, ready: seq<bool>, callback: bool): seq<Copy>
    requires |ready| == |copies|
  {
    if copies == [] then []
    else
      var n := |copies| - 1;
      Ready(l, copies[..n], ready[..n], callback)
      + (if ready[n] && Current(l, copies[n]) && copies[n].reg.callback == callback then [copies[n]] else [])
  }

  function Queue(l: Looper, copies: seq<Copy>): Looper
    decreases |copies|
  {
    if copies == [] then l
    else
      var m := if |l.responses| >= MAX_FDS then l
          else l.(responses := l.responses + [Response(copies[0].reg.fd, copies[0].reg.ident)]);
      Queue(m, copies[1..])
  }

  function After(v: View, s: Step): View
    requires Allowed(v, s)
  {
    match s
    case Prepare(t, slot, allow, stored) =>
      var l := Allocate(v.loopers[slot], t, allow);
      if stored then SetLooper(v, slot, l).(cookies := v.cookies[t := Some(Cookie(slot, l.generation))])
      else SetLooper(v, slot, Retire(l)).(cookies := v.cookies[t := None])
    case Acquire(slot) =>
      if v.loopers[slot].used then SetLooper(v, slot, v.loopers[slot].(refs := v.loopers[slot].refs + 1)) else v
    case Release(slot) =>
      var l := v.loopers[slot];
      if !l.used || l.refs == 0 then v
      else if l.refs == 1 then SetLooper(v, slot, Retire(l))
      else SetLooper(v, slot, l.(refs := l.refs - 1))
    case Wake(slot) => if v.loopers[slot].used then SetLooper(v, slot, Signal(v.loopers[slot])) else v
    case Add(slot, fd, ident, callback) => SetLooper(v, slot, AddFd(v.loopers[slot], fd, ident, callback))
    case Remove(slot, fd) => SetLooper(v, slot, RemoveFd(v.loopers[slot], fd))
    case ThreadExit(t) =>
      var c := v.cookies[t].value;
      var w := v.(cookies := v.cookies[t := None]);
      if LiveAt(v, c.slot, c.generation) then SetLooper(w, c.slot, Disassociate(v.loopers[c.slot])) else w
    case PollBegin(t, slot) =>
      var l := v.loopers[slot];
      if HasResponse(l) then
        SetLooper(v, slot, Took(l)).(
          polls := v.polls + [Poll(slot, l.generation, Returned(Ident(l.responses[l.at].ident)))])
      else v.(polls := v.polls + [Poll(slot, l.generation, Looping)])
    case PollLoop(p, expired, waitFailed) => LoopSection(v, p, expired, waitFailed)
    case PollInterrupted(p) =>
      var q := v.polls[p];
      var w := SetPhase(v, p, Returned(WakeResult));
      if LiveAt(v, q.slot, q.generation)
      then SetLooper(w, q.slot, Consume(v.loopers[q.slot], v.loopers[q.slot].wake)) else w
    case PollFailed(p) => SetPhase(v, p, Returned(Error))
    case PollReady(p, ready) => ReadySection(v, p, ready)
    case PollClock(p, expired) => SetPhase(v, p, if expired then Returned(Timeout) else Looping)
    case CallbackDone(p, keep) => CallbackSection(v, p, keep)
    case BatchDone(p) => BatchSection(v, p)
  }

  /** The top of the loop; without registrations the wait happens here. */
  function LoopSection(v: View, p: nat, expired: bool, waitFailed: bool): View
    requires InPhase(v, p)
  {
    var q := v.polls[p];
    var l := v.loopers[q.slot];
    if !LiveAt(v, q.slot, q.generation) then SetPhase(v, p, Returned(Error))
    else if HasResponse(l) then SetLooper(SetPhase(v, p, Returned(Ident(l.responses[l.at].ident))), q.slot, Took(l))
    else if Copies(l.fds) != [] then SetPhase(v, p, Waiting(Copies(l.fds)))
    else if HasWake(l) then SetLooper(SetPhase(v, p, Returned(WakeResult)), q.slot, Consume(l, l.wake))
    else if expired then SetPhase(v, p, Returned(Timeout))
    else if waitFailed then SetPhase(v, p, Returned(Error))
    else v
  }

  /** After poll(): the ready batch is copied, or the call ends or goes round. */
  function ReadySection(v: View, p: nat, ready: seq<bool>): View
    requires InPhase(v, p) && v.polls[p].phase.Waiting? && |ready| == |v.polls[p].phase.copies|
  {
    var q := v.polls[p];
    if !LiveAt(v, q.slot, q.generation) then SetPhase(v, p, Returned(Error))
    else
      var l := v.loopers[q.slot];
      var m := Queue(l, Ready(l, q.phase.copies, ready, false));
      var batch := Ready(l, q.phase.copies, ready, true);
      if batch != [] then SetLooper(SetPhase(v, p, Calling(batch, 0, l.wake)), q.slot, m)
      else if HasResponse(m) then
        SetLooper(SetPhase(v, p, Returned(Ident(m.responses[m.at].ident))), q.slot, Consume(Took(m), l.wake))
      else if HasWake(m) then SetLooper(SetPhase(v, p, Returned(WakeResult)), q.slot, Consume(m, m.wake))
      else SetLooper(SetPhase(v, p, Clocking), q.slot, m)
  }

  /** A callback returned: zero removes the registration it was copied from. */
  function CallbackSection(v: View, p: nat, keep: bool): View
    requires InPhase(v, p) && v.polls[p].phase.Calling? && v.polls[p].phase.at < |v.polls[p].phase.batch|
  {
    var q := v.polls[p];
    var c := q.phase.batch[q.phase.at];
    var w := SetPhase(v, p, q.phase.(at := q.phase.at + 1));
    if !keep && LiveAt(v, q.slot, q.generation) && Current(v.loopers[q.slot], c)
    then SetLooper(w, q.slot, ClearFd(v.loopers[q.slot], c.slot)) else w
  }

  function BatchSection(v: View, p: nat): View
    requires InPhase(v, p) && v.polls[p].phase.Calling?
  {
    var q := v.polls[p];
    if !LiveAt(v, q.slot, q.generation) then SetPhase(v, p, Returned(CallbackResult))
    else
      var l := v.loopers[q.slot];
      if HasResponse(l) then
        SetLooper(SetPhase(v, p, Returned(Ident(l.responses[l.at].ident))), q.slot, Consume(Took(l), q.phase.through))
      else SetLooper(SetPhase(v, p, Returned(CallbackResult)), q.slot, Consume(l, q.phase.through))
  }

  // ---- the invariant ----

  /** A registration's generation and its descriptor are its own. */
  predicate RegsOk(l: Looper) {
    && |l.fds| == MAX_FDS && |l.responses| <= MAX_FDS
    && (forall k | 0 <= k < |l.fds| :: l.fds[k].generation <= l.nextFd)
    && (forall j, k | 0 <= j < k < |l.fds| && l.fds[j].used && l.fds[k].used ::
        l.fds[j].generation != l.fds[k].generation && l.fds[j].fd != l.fds[k].fd)
  }

  predicate WakesOk(l: Looper) { l.consumed <= l.seen <= l.wake }

  /** A copy is old or exactly what its slot holds. */
  predicate CopyOk(l: Looper, c: Copy) {
    && c.slot < |l.fds| && c.reg.generation <= l.nextFd && c.reg.used
    && (l.fds[c.slot].generation == c.reg.generation ==> l.fds[c.slot] == c.reg)
  }

  function CopiesOf(phase: PollPhase): seq<Copy> {
    match phase
    case Waiting(copies) => copies
    case Calling(batch, _, _) => batch
    case _ => []
  }

  predicate PollOk(v: View, q: Poll) {
    && q.slot < |v.loopers| && q.generation <= v.loopers[q.slot].generation
    && (!v.loopers[q.slot].used ==> q.generation < v.loopers[q.slot].generation)
    && (forall i | 0 <= i < |CopiesOf(q.phase)| :: CopyOk(v.loopers[q.slot], CopiesOf(q.phase)[i]))
    && (q.phase.Calling? ==> q.phase.at <= |q.phase.batch|)
    && (q.phase.Calling? && LiveAt(v, q.slot, q.generation) ==> q.phase.through <= v.loopers[q.slot].wake)
  }

  predicate CookieOk(v: View, t: nat, c: Cookie) {
    && c.slot < |v.loopers| && c.generation <= v.loopers[c.slot].generation
    && (!v.loopers[c.slot].used ==> c.generation < v.loopers[c.slot].generation)
    && (LiveAt(v, c.slot, c.generation) ==> v.loopers[c.slot].owner == Some(t))
  }

  ghost predicate Inv(v: View) {
    && (forall k | 0 <= k < |v.loopers| :: RegsOk(v.loopers[k]) && WakesOk(v.loopers[k]))
    && (forall t | 0 <= t < |v.cookies| && v.cookies[t].Some? :: CookieOk(v, t, v.cookies[t].value))
    && (forall p | 0 <= p < |v.polls| :: PollOk(v, v.polls[p]))
  }

  // ---- what a section does to one looper ----

  /** A looper after any section: the generation never goes back and moves on
      when a slot is taken or given up; registrations in place are old ones or new. */
  predicate Follows(l: Looper, m: Looper) {
    && m.generation >= l.generation && m.nextFd >= l.nextFd && |m.fds| == |l.fds|
    && (forall k | 0 <= k < |l.fds| :: m.fds[k] == l.fds[k] || m.fds[k].generation > l.nextFd)
    && (m.generation == l.generation ==> m.used == l.used && m.owner == l.owner && m.wake >= l.wake)
    && (!m.used && l.used ==> m.generation > l.generation)
    && (m.used && !l.used ==> m.generation > l.generation)
  }

  lemma FollowsItself(l: Looper)
    ensures Follows(l, l)
  {
  }

  lemma FollowsTwice(l: Looper, m: Looper, n: Looper)
    requires Follows(l, m) && Follows(m, n)
    ensures Follows(l, n)
  {
  }

  lemma ClearFollows(l: Looper, k: nat)
    requires RegsOk(l) && k < |l.fds|
    ensures Follows(l, ClearFd(l, k)) && RegsOk(ClearFd(l, k))
  {
  }

  lemma {:induction false} ClearFromFollows(l: Looper, k: nat)
    requires RegsOk(l) && k <= |l.fds|
    ensures Follows(l, ClearFrom(l, k)) && RegsOk(ClearFrom(l, k))
    ensures ClearFrom(l, k).generation == l.generation && ClearFrom(l, k).used == l.used
    decreases |l.fds| - k
  {
    hide RegsOk, Follows;
    if k < |l.fds| {
      ClearFollows(l, k);
      ClearFromFollows(ClearFd(l, k), k + 1);
      FollowsTwice(l, ClearFd(l, k), ClearFrom(l, k));
    } else {
      FollowsItself(l);
    }
  }

  lemma RetireFollows(l: Looper)
    requires RegsOk(l)
    ensures Follows(l, Retire(l)) && RegsOk(Retire(l)) && WakesOk(Retire(l)) && Retire(l).generation > l.generation
  {
    hide ClearFrom;
    ClearFromFollows(l, 0);
  }

  lemma AllocateFollows(l: Looper, t: nat, allow: bool)
    requires RegsOk(l)
    ensures Follows(l, Allocate(l, t, allow)) && RegsOk(Allocate(l, t, allow)) && WakesOk(Allocate(l, t, allow))
  {
    hide ClearFrom;
    ClearFromFollows(l, 0);
  }

  lemma DisassociateFollows(l: Looper)
    requires RegsOk(l) && WakesOk(l) && l.used
    ensures Follows(l, Disassociate(l)) && RegsOk(Disassociate(l)) && WakesOk(Disassociate(l))
        && Disassociate(l).generation > l.generation
  {
    hide ClearFrom;
    var m := l.(owner := None, generation := l.generation + 1, refs := if l.refs > 0 then l.refs - 1 else 0);
    hide Retire;
    RetireFollows(m);
    if m.refs == 0 {
      assert Follows(l, Retire(m));
    }
  }

  lemma AddFollows(l: Looper, fd: int, ident: int, callback: bool)
    requires RegsOk(l) && WakesOk(l) && CanAdd(l, fd, ident, callback)
    ensures Follows(l, AddFd(l, fd, ident, callback)) && RegsOk(AddFd(l, fd, ident, callback))
        && WakesOk(AddFd(l, fd, ident, callback))
  {
    hide FindFd, FindUnused;
    OwnSlot(l.fds, fd);
  }

  /** No other slot holds the descriptor. */
  lemma OwnSlot(fds: seq<Reg>, fd: int)
    requires forall j, k | 0 <= j < k < |fds| && fds[j].used && fds[k].used :: fds[j].fd != fds[k].fd
    ensures forall k | 0 <= k < |fds| && fds[k].used && fds[k].fd == fd :: k == Target(fds, fd)
  {
    hide FindFd, FindUnused;
  }

  /** The registration of descriptor `fd`. */
  function RegOf(l: Looper, fd: int): Option<Reg> {
    var k := FindFd(l.fds, fd);
    if k < |l.fds| then Some(l.fds[k]) else None
  }

  /** addFd registers its descriptor anew, with a generation never used before, and
      leaves the others alone. */
  lemma AddRegisters(l: Looper, fd: int, ident: int, callback: bool, other: int)
    requires RegsOk(l) && CanAdd(l, fd, ident, callback)
    ensures RegOf(AddFd(l, fd, ident, callback), other) ==
              if other == fd then Some(Reg(true, fd, ident, callback, l.nextFd + 1)) else RegOf(l, other)
  {
    hide FindFd, FindUnused;
    var m, t := AddFd(l, fd, ident, callback), Target(l.fds, fd);
    var k, n := FindFd(l.fds, other), FindFd(m.fds, other);
    OwnSlot(l.fds, fd);
    assert forall j | 0 <= j < |l.fds| && j != t :: m.fds[j] == l.fds[j];
    if other == fd {
      assert m.fds[t].used && m.fds[t].fd == fd;
    } else if k < |l.fds| {
      assert m.fds[k] == l.fds[k];
    }
  }

  /** It is refused only if the arguments do not fit the looper, or if all slots
      hold other descriptors. */
  lemma AddsExactly(l: Looper, fd: int, ident: int, callback: bool)
    ensures CanAdd(l, fd, ident, callback) <==>
              && l.used && fd >= 0 && (if callback then true else ident >= 0 && l.allowNonCallbacks)
              && exists k | 0 <= k < |l.fds| :: !l.fds[k].used || l.fds[k].fd == fd
  {
    hide FindFd, FindUnused;
    var k := Target(l.fds, fd);
    if k < |l.fds| { assert !l.fds[k].used || l.fds[k].fd == fd; }
  }

  /** removeFd leaves no registration of its descriptor, and the others alone. */
  lemma RemoveUnregisters(l: Looper, fd: int, other: int)
    requires RegsOk(l) && l.used
    ensures RegOf(RemoveFd(l, fd), other) == if other == fd then None else RegOf(l, other)
  {
    hide FindFd;
    var m := RemoveFd(l, fd);
    var k, n := FindFd(l.fds, other), FindFd(m.fds, other);
    if other != fd && k < |l.fds| { assert m.fds[k] == l.fds[k]; }
  }

  lemma RemoveFollows(l: Looper, fd: int)
    requires RegsOk(l) && WakesOk(l)
    ensures Follows(l, RemoveFd(l, fd)) && RegsOk(RemoveFd(l, fd)) && WakesOk(RemoveFd(l, fd))
  {
    hide FindFd;
  }

  lemma {:induction false} QueueFollows(l: Looper, copies: seq<Copy>)
    requires RegsOk(l)
    ensures RegsOk(Queue(l, copies)) && Queue(l, copies).(responses := l.responses) == l
    decreases |copies|
  {
    if copies != [] {
      var m := if |l.responses| >= MAX_FDS then l
          else l.(responses := l.responses + [Response(copies[0].reg.fd, copies[0].reg.ident)]);
      QueueFollows(m, copies[1..]);
    }
  }

  /** Anything that leaves the registrations alone and accounts only for wakes
      that came. */
  lemma ConsumeFollows(l: Looper, through: nat)
    requires RegsOk(l) && WakesOk(l) && through <= l.wake
    ensures Follows(l, Consume(l, through)) && RegsOk(Consume(l, through)) && WakesOk(Consume(l, through))
  {
  }

  // ---- copies stay old or exact ----

  lemma CopyFollows(l: Looper, m: Looper, c: Copy)
    requires CopyOk(l, c) && Follows(l, m)
    ensures CopyOk(m, c)
  {
  }

  lemma {:induction false} CopiesAreOk(l: Looper, n: nat, i: nat)
    requires RegsOk(l) && n <= |l.fds| && i < |Copies(l.fds[..n])|
    ensures CopyOk(l, Copies(l.fds[..n])[i])
    decreases n
  {
    hide RegsOk;
    assert n > 0;
    assert l.fds[..n][..n - 1] == l.fds[..n - 1];
    if i < |Copies(l.fds[..n - 1])| {
      CopiesAreOk(l, n - 1, i);
    } else {
      RegBounded(l, n - 1);
    }
  }

  lemma RegBounded(l: Looper, k: nat)
    requires RegsOk(l) && k < |l.fds|
    ensures l.fds[k].generation <= l.nextFd
  {
  }

  lemma {:induction false} ReadyAreCopies(l: Looper, copies: seq<Copy>, ready: seq<bool>, callback: bool, i: nat)
    requires |ready| == |copies| && i < |Ready(l, copies, ready, callback)|
    ensures Ready(l, copies, ready, callback)[i] in copies
    decreases |copies|
  {
    var n := |copies| - 1;
    if i < |Ready(l, copies[..n], ready[..n], callback)| {
      ReadyAreCopies(l, copies[..n], ready[..n], callback, i);
    }
  }

  // ---- every section keeps the invariant ----

  /** A section that changes one looper as `Follows` allows, and the cookies and
      polls in a way that is right for it. */
  lemma LooperChangeKeeps(v: View, w: View, slot: nat)
    requires Inv(v) && slot < |v.loopers| && |w.loopers| == |v.loopers|
        && w.loopers == v.loopers[slot := w.loopers[slot]]
    requires RegsOk(w.loopers[slot]) && WakesOk(w.loopers[slot]) && Follows(v.loopers[slot], w.loopers[slot])
    ensures forall k | 0 <= k < |w.loopers| :: RegsOk(w.loopers[k]) && WakesOk(w.loopers[k])
    ensures forall t | 0 <= t < |v.cookies| && v.cookies[t].Some? :: CookieOk(w, t, v.cookies[t].value)
    ensures forall p | 0 <= p < |v.polls| :: PollOk(w, v.polls[p])
  {
    forall t | 0 <= t < |v.cookies| && v.cookies[t].Some? ensures CookieOk(w, t, v.cookies[t].value) {
      hide RegsOk, WakesOk, PollOk;
      assert CookieOk(v, t, v.cookies[t].value);
    }
    forall p | 0 <= p < |v.polls| ensures PollOk(w, v.polls[p]) {
      PollFollows(v, w, slot, v.polls[p]);
    }
  }

  lemma PollFollows(v: View, w: View, slot: nat, q: Poll)
    requires PollOk(v, q) && slot < |v.loopers| && |w.loopers| == |v.loopers|
        && w.loopers == v.loopers[slot := w.loopers[slot]]
    requires Follows(v.loopers[slot], w.loopers[slot])
    ensures PollOk(w, q)
  {
    forall i | 0 <= i < |CopiesOf(q.phase)| ensures CopyOk(w.loopers[q.slot], CopiesOf(q.phase)[i]) {
      hide Follows;
      if q.slot == slot { CopyFollows(v.loopers[slot], w.loopers[slot], CopiesOf(q.phase)[i]); }
    }
    hide CopyOk;
  }

  /** The same with one poll's phase changed as well. */
  lemma PollChangeKeeps(v: View, w: View, slot: nat, p: nat)
    requires Inv(v) && p < |v.polls| && slot < |v.loopers| && |w.loopers| == |v.loopers|
        && w.loopers == v.loopers[slot := w.loopers[slot]]
    requires RegsOk(w.loopers[slot]) && WakesOk(w.loopers[slot]) && Follows(v.loopers[slot], w.loopers[slot])
    requires w.cookies == v.cookies && |w.polls| == |v.polls| && w.polls == v.polls[p := w.polls[p]]
        && PollOk(w, w.polls[p])
    ensures Inv(w)
  {
    hide RegsOk, WakesOk, Follows, CookieOk, PollOk;
    LooperChangeKeeps(v, w, slot);
  }

  lemma TookFollows(l: Looper)
    requires RegsOk(l) && HasResponse(l)
    ensures RegsOk(Took(l)) && Follows(l, Took(l)) && Took(l).wake == l.wake && Took(l).seen == l.seen
        && Took(l).consumed == l.consumed
  {
  }

  /** A finished poll holds no copies, so it is fine wherever its slot is. */
  lemma ReturnedOk(v: View, w: View, p: nat, result: PollResult)
    requires Inv(v) && p < |v.polls| && InPhase(v, p) && |w.loopers| == |v.loopers|
    requires Follows(v.loopers[v.polls[p].slot], w.loopers[v.polls[p].slot])
    ensures PollOk(w, v.polls[p].(phase := Returned(result)))
  {
    assert PollOk(v, v.polls[p]);
  }

  lemma TableStepKeeps(v: View, s: Step)
    requires Inv(v) && Allowed(v, s) && (s.Acquire? || s.Release? || s.Wake? || s.Add? || s.Remove?)
    ensures Inv(After(v, s))
  {
    hide Target, FindFd, AddFd, RemoveFd, Retire, CookieOk, PollOk;
    var l := v.loopers[s.slot];
    assert RegsOk(l) && WakesOk(l);
    FollowsItself(l);
    RetireFollows(l);
    if s.Add? { AddFollows(l, s.fd, s.ident, s.callback); }
    if s.Remove? { RemoveFollows(l, s.fd); }
    LooperChangeKeeps(v, After(v, s), s.slot);
  }

  lemma ThreadStepKeeps(v: View, s: Step)
    requires Inv(v) && Allowed(v, s) && (s.Prepare? || s.ThreadExit?)
    ensures Inv(After(v, s))
  {
    hide Retire, Allocate, Disassociate, PollOk;
    var w := After(v, s);
    if s.Prepare? {
      PrepareFollows(v.loopers[s.slot], s.t, s.allow, s.stored);
      LooperChangeKeeps(v, w, s.slot);
    } else {
      var c := v.cookies[s.t].value;
      assert CookieOk(v, s.t, c);
      assert RegsOk(v.loopers[c.slot]) && WakesOk(v.loopers[c.slot]);
      FollowsItself(v.loopers[c.slot]);
      if LiveAt(v, c.slot, c.generation) { DisassociateFollows(v.loopers[c.slot]); }
      LooperChangeKeeps(v, w, c.slot);
    }
  }

  lemma PrepareFollows(l: Looper, t: nat, allow: bool, stored: bool)
    requires RegsOk(l)
    ensures var m := if stored then Allocate(l, t, allow) else Retire(Allocate(l, t, allow));
            Follows(l, m) && RegsOk(m) && WakesOk(m)
    ensures var m := Allocate(l, t, allow); m.used && m.owner == Some(t)
  {
    hide Retire;
    AllocateFollows(l, t, allow);
    RetireFollows(Allocate(l, t, allow));
    FollowsTwice(l, Allocate(l, t, allow), Retire(Allocate(l, t, allow)));
  }

  lemma BeginKeeps(v: View, s: Step)
    requires Inv(v) && Allowed(v, s) && s.PollBegin?
    ensures Inv(After(v, s))
  {
    hide CookieOk, Took;
    var w := After(v, s);
    var l := v.loopers[s.slot];
    assert RegsOk(l) && WakesOk(l);
    FollowsItself(l);
    if HasResponse(l) { TookFollows(l); }
    LooperChangeKeeps(v, w, s.slot);
  }

  lemma LoopKeeps(v: View, p: nat, expired: bool, waitFailed: bool)
    requires Inv(v) && InPhase(v, p) && v.polls[p].phase == Looping
    ensures Inv(LoopSection(v, p, expired, waitFailed))
  {
    hide RegsOk, WakesOk, Follows, CookieOk, PollOk, Took, Consume, Copies;
    var q := v.polls[p];
    var l := v.loopers[q.slot];
    var w := LoopSection(v, p, expired, waitFailed);
    assert RegsOk(l) && WakesOk(l) && PollOk(v, q);
    FollowsItself(l);
    if HasResponse(l) { TookFollows(l); TookWakes(l); }
    WakeBounded(l);
    ConsumeFollows(l, l.wake);
    if w != v {
      if w.polls[p].phase.Waiting? { WaitingOk(v, p); } else { ReturnedOk(v, w, p, w.polls[p].phase.result); }
      PollChangeKeeps(v, w, q.slot, p);
    }
  }

  lemma TookWakes(l: Looper)
    requires WakesOk(l) && HasResponse(l)
    ensures WakesOk(Took(l))
  {
  }

  lemma WakeBounded(l: Looper)
    requires WakesOk(l)
    ensures l.consumed <= l.wake
  {
  }

  lemma WaitingOk(v: View, p: nat)
    requires Inv(v) && InPhase(v, p)
    ensures PollOk(SetPhase(v, p, Waiting(Copies(v.loopers[v.polls[p].slot].fds))),
        v.polls[p].(phase := Waiting(Copies(v.loopers[v.polls[p].slot].fds))))
  {
    hide Copies, CookieOk;
    var l := v.loopers[v.polls[p].slot];
    assert PollOk(v, v.polls[p]) && RegsOk(l);
    assert l.fds[..|l.fds|] == l.fds;
    forall i: nat | i < |Copies(l.fds)| ensures CopyOk(l, Copies(l.fds)[i]) { CopiesAreOk(l, |l.fds|, i); }
  }

  lemma EndKeeps(v: View, s: Step)
    requires Inv(v) && Allowed(v, s) && (s.PollInterrupted? || s.PollFailed?)
    ensures Inv(After(v, s))
  {
    hide RegsOk, WakesOk, Follows, CookieOk, PollOk, Consume;
    var q := v.polls[s.p];
    var l := v.loopers[q.slot];
    var w := After(v, s);
    assert RegsOk(l) && WakesOk(l);
    FollowsItself(l);
    ConsumeFollows(l, l.wake);
    ReturnedOk(v, w, s.p, w.polls[s.p].phase.result);
    PollChangeKeeps(v, w, q.slot, s.p);
  }

  lemma QueueKeeps(l: Looper, copies: seq<Copy>)
    requires RegsOk(l) && WakesOk(l)
    ensures RegsOk(Queue(l, copies)) && WakesOk(Queue(l, copies)) && Follows(l, Queue(l, copies))
        && Queue(l, copies).wake == l.wake
  {
    QueueFollows(l, copies);
  }

  /** The looper after the section that follows poll(), whichever way it ends. */
  lemma ReadyLooper(l: Looper, copies: seq<Copy>, through: nat)
    requires RegsOk(l) && WakesOk(l) && through == l.wake
    ensures var m := Queue(l, copies);
            && Follows(l, m) && RegsOk(m) && WakesOk(m) && m.wake == l.wake
            && Follows(l, Consume(m, through)) && RegsOk(Consume(m, through)) && WakesOk(Consume(m, through))
            && (HasResponse(m) ==>
                  && Follows(l, Consume(Took(m), through))
                  && RegsOk(Consume(Took(m), through))
                  && WakesOk(Consume(Took(m), through)))
  {
    hide RegsOk, WakesOk, Follows, Queue, Took, Consume;
    QueueKeeps(l, copies);
    var m := Queue(l, copies);
    ConsumeFollows(m, through);
    FollowsTwice(l, m, Consume(m, through));
    if HasResponse(m) {
      TookFollows(m);
      TookWakes(m);
      ConsumeFollows(Took(m), through);
      FollowsTwice(l, m, Took(m));
      FollowsTwice(l, Took(m), Consume(Took(m), through));
    }
  }

  lemma ReadyKeeps(v: View, p: nat, ready: seq<bool>)
    requires Inv(v) && InPhase(v, p) && v.polls[p].phase.Waiting? && |ready| == |v.polls[p].phase.copies|
    ensures Inv(ReadySection(v, p, ready))
  {
    hide RegsOk, WakesOk, Follows, CookieOk, PollOk, Queue, Took, Consume, Ready;
    var q := v.polls[p];
    var l := v.loopers[q.slot];
    var w := ReadySection(v, p, ready);
    assert RegsOk(l) && WakesOk(l) && PollOk(v, q);
    FollowsItself(l);
    ReadyLooper(l, Ready(l, q.phase.copies, ready, false), l.wake);
    if w.polls[p].phase.Calling? {
      CallingOk(v, w, p, ready);
    } else if w.polls[p].phase.Returned? {
      ReturnedOk(v, w, p, w.polls[p].phase.result);
    } else {
      NoCopiesOk(v, w, p, Clocking);
    }
    PollChangeKeeps(v, w, q.slot, p);
  }

  lemma ClockKeeps(v: View, p: nat, expired: bool)
    requires Inv(v) && InPhase(v, p) && v.polls[p].phase == Clocking
    ensures Inv(After(v, PollClock(p, expired)))
  {
    hide RegsOk, WakesOk, Follows, CookieOk, PollOk;
    var w := After(v, PollClock(p, expired));
    var l := v.loopers[v.polls[p].slot];
    assert RegsOk(l) && WakesOk(l);
    FollowsItself(l);
    NoCopiesOk(v, w, p, w.polls[p].phase);
    PollChangeKeeps(v, w, v.polls[p].slot, p);
  }

  lemma NoCopiesOk(v: View, w: View, p: nat, phase: PollPhase)
    requires Inv(v) && InPhase(v, p) && |w.loopers| == |v.loopers|
    requires Follows(v.loopers[v.polls[p].slot], w.loopers[v.polls[p].slot])
    requires !phase.Waiting? && !phase.Calling?
    ensures PollOk(w, v.polls[p].(phase := phase))
  {
    assert PollOk(v, v.polls[p]);
  }

  lemma CallingOk(v: View, w: View, p: nat, ready: seq<bool>)
    requires Inv(v) && InPhase(v, p) && v.polls[p].phase.Waiting? && |ready| == |v.polls[p].phase.copies|
    requires |w.loopers| == |v.loopers| && w.loopers == v.loopers[v.polls[p].slot := w.loopers[v.polls[p].slot]]
    requires Follows(v.loopers[v.polls[p].slot], w.loopers[v.polls[p].slot])
    requires w.loopers[v.polls[p].slot].wake == v.loopers[v.polls[p].slot].wake
    ensures var l := v.loopers[v.polls[p].slot];
            PollOk(w, v.polls[p].(phase := Calling(Ready(l, v.polls[p].phase.copies, ready, true), 0, l.wake)))
  {
    hide RegsOk, CookieOk, Ready;
    var q := v.polls[p];
    var l := v.loopers[q.slot];
    assert PollOk(v, q);
    PollFollows(v, w, q.slot, q);
    hide Follows, CopyOk;
    var batch := Ready(l, q.phase.copies, ready, true);
    forall i: nat | i < |batch| ensures CopyOk(w.loopers[q.slot], batch[i]) {
      ReadyAreCopies(l, q.phase.copies, ready, true, i);
      var j :| 0 <= j < |q.phase.copies| && q.phase.copies[j] == batch[i];
      assert CopyOk(w.loopers[q.slot], CopiesOf(q.phase)[j]);
    }
  }

  lemma CallbackKeeps(v: View, p: nat, keep: bool)
    requires Inv(v) && InPhase(v, p) && v.polls[p].phase.Calling? && v.polls[p].phase.at < |v.polls[p].phase.batch|
    ensures Inv(CallbackSection(v, p, keep))
  {
    hide RegsOk, WakesOk, Follows, CookieOk;
    var q := v.polls[p];
    var l := v.loopers[q.slot];
    var c := q.phase.batch[q.phase.at];
    var w := CallbackSection(v, p, keep);
    assert RegsOk(l) && WakesOk(l) && PollOk(v, q);
    FollowsItself(l);
    if w.loopers[q.slot] != l { ClearFollows(l, c.slot); ClearWakes(l, c.slot); }
    PollFollows(v, w, q.slot, q);
    AdvancedOk(w, q);
    hide PollOk;
    PollChangeKeeps(v, w, q.slot, p);
  }

  lemma AdvancedOk(v: View, q: Poll)
    requires PollOk(v, q) && q.phase.Calling? && q.phase.at < |q.phase.batch|
    ensures PollOk(v, q.(phase := q.phase.(at := q.phase.at + 1)))
  {
    hide CopyOk;
    var r := q.(phase := q.phase.(at := q.phase.at + 1));
    assert CopiesOf(r.phase) == CopiesOf(q.phase);
    forall i | 0 <= i < |CopiesOf(r.phase)| ensures CopyOk(v.loopers[r.slot], CopiesOf(r.phase)[i]) {
      assert CopyOk(v.loopers[q.slot], CopiesOf(q.phase)[i]);
    }
  }

  lemma ClearWakes(l: Looper, k: nat)
    requires WakesOk(l) && k < |l.fds|
    ensures WakesOk(ClearFd(l, k))
  {
  }

  lemma BatchKeeps(v: View, p: nat)
    requires Inv(v) && InPhase(v, p) && v.polls[p].phase.Calling?
    ensures Inv(BatchSection(v, p))
  {
    hide RegsOk, WakesOk, Follows, CookieOk, Took, Consume;
    var q := v.polls[p];
    var l := v.loopers[q.slot];
    var w := BatchSection(v, p);
    assert RegsOk(l) && WakesOk(l) && PollOk(v, q);
    FollowsItself(l);
    if LiveAt(v, q.slot, q.generation) {
      ConsumeFollows(l, q.phase.through);
      if HasResponse(l) {
        TookFollows(l);
        TookWakes(l);
        ConsumeFollows(Took(l), q.phase.through);
        FollowsTwice(l, Took(l), Consume(Took(l), q.phase.through));
      }
    }
    ReturnedOk(v, w, p, w.polls[p].phase.result);
    hide PollOk;
    PollChangeKeeps(v, w, q.slot, p);
  }

  /** Every section keeps the invariant. */
  lemma StepKeeps(v: View, s: Step)
    requires Inv(v) && Allowed(v, s)
    ensures Inv(After(v, s))
  {
    hide Inv, LoopSection, ReadySection, CallbackSection, BatchSection;
    match s
    case Prepare(_, _, _, _) => ThreadStepKeeps(v, s);
    case ThreadExit(_) => ThreadStepKeeps(v, s);
    case PollBegin(_, _) => BeginKeeps(v, s);
    case PollLoop(p, expired, waitFailed) => LoopKeeps(v, p, expired, waitFailed);
    case PollInterrupted(_) => EndKeeps(v, s);
    case PollFailed(_) => EndKeeps(v, s);
    case PollReady(p, ready) => ReadyKeeps(v, p, ready);
    case PollClock(p, expired) => ClockKeeps(v, p, expired);
    case CallbackDone(p, keep) => CallbackKeeps(v, p, keep);
    case BatchDone(p) => BatchKeeps(v, p);
    case _ => TableStepKeeps(v, s);
  }

  // ---- whole runs ----

  ghost predicate Runs(v: View, steps: seq<Step>, w: View)
    decreases |steps|
  {
    if steps == [] then v == w
    else Allowed(v, steps[0]) && Runs(After(v, steps[0]), steps[1..], w)
  }

  lemma {:induction false} RunKeeps(v: View, steps: seq<Step>, w: View)
    requires Inv(v) && Runs(v, steps, w)
    ensures Inv(w)
    decreases |steps|
  {
    hide Inv, Allowed, After;
    if steps != [] {
      StepKeeps(v, steps[0]);
      RunKeeps(After(v, steps[0]), steps[1..], w);
    }
  }

  /** Slots nobody used yet, threads without a looper. */
  predicate Fresh(v: View) {
    && (forall k | 0 <= k < |v.loopers| ::
          v.loopers[k] == Looper(false, None, 0, false, 0, 0, 0, 0, seq(MAX_FDS, _ => Reg(false, -1, 0, false, 0)),
              [], 0, 0))
    && (forall t | 0 <= t < |v.cookies| :: v.cookies[t].None?) && v.polls == []
  }

  lemma FreshInv(v: View)
    requires Fresh(v)
    ensures Inv(v)
  {
  }

  /** In any run, a thread's cookie names a living looper only if the thread owns
      it: a stale cookie never acts on the slot's next occupant. */
  lemma CookiesNeverGoAstray(v: View, steps: seq<Step>, w: View, t: nat, u: nat)
    requires Fresh(v) && Runs(v, steps, w)
    requires t < |w.cookies| && w.cookies[t].Some? && LiveAt(w, w.cookies[t].value.slot, w.cookies[t].value.generation)
    ensures w.loopers[w.cookies[t].value.slot].owner == Some(t)
    ensures u < |w.cookies| && w.cookies[u] == w.cookies[t] ==> u == t
  {
    FreshInv(v);
    RunKeeps(v, steps, w);
    assert CookieOk(w, t, w.cookies[t].value);
    if u < |w.cookies| && w.cookies[u] == w.cookies[t] { assert CookieOk(w, u, w.cookies[u].value); }
  }

  predicate Known(v: View, slot: nat, generation: nat) {
    slot < |v.loopers| && generation <= v.loopers[slot].generation
  }

  /** What one section does to the looper of a slot. */
  lemma StepFollows(v: View, s: Step, slot: nat)
    requires Inv(v) && Allowed(v, s) && slot < |v.loopers|
    ensures |After(v, s).loopers| == |v.loopers| && Follows(v.loopers[slot], After(v, s).loopers[slot])
  {
    hide CookieOk, PollOk, Follows, RegsOk, WakesOk, Retire, Allocate, Disassociate, AddFd, RemoveFd, Took,
        Consume, Queue, Ready, Copies, LoopSection,
      ReadySection, CallbackSection, BatchSection, ClearFd;
    assert forall k | 0 <= k < |v.loopers| :: RegsOk(v.loopers[k]) && WakesOk(v.loopers[k]);
    FollowsItself(v.loopers[slot]);
    match s
    case Prepare(t, k, allow, stored) => PrepareFollows(v.loopers[k], t, allow, stored);
    case Release(k) => RetireFollows(v.loopers[k]); RefsFollow(v.loopers[k]);
    case Acquire(k) => RefsFollow(v.loopers[k]);
    case Wake(k) => SignalFollows(v.loopers[k]);
    case Add(k, fd, ident, callback) => AddFollows(v.loopers[k], fd, ident, callback);
    case Remove(k, fd) => RemoveFollows(v.loopers[k], fd);
    case ThreadExit(t) =>
      var c := v.cookies[t].value;
      if LiveAt(v, c.slot, c.generation) { DisassociateFollows(v.loopers[c.slot]); }
    case PollBegin(_, k) => if HasResponse(v.loopers[k]) { TookFollows(v.loopers[k]); }
    case PollLoop(p, expired, waitFailed) => LoopFollows(v, p, expired, waitFailed);
    case PollInterrupted(p) =>
      WakeBounded(v.loopers[v.polls[p].slot]);
      ConsumeFollows(v.loopers[v.polls[p].slot], v.loopers[v.polls[p].slot].wake);
    case PollFailed(_) =>
    case PollReady(p, ready) => ReadyFollows(v, p, ready);
    case PollClock(_, _) =>
    case CallbackDone(p, keep) => CallbackFollows(v, p, keep);
    case BatchDone(p) => BatchFollows(v, p);
  }

  lemma RefsFollow(l: Looper)
    ensures forall n: nat :: Follows(l, l.(refs := n))
  {
  }

  lemma SignalFollows(l: Looper)
    ensures Follows(l, Signal(l))
  {
  }

  lemma LoopFollows(v: View, p: nat, expired: bool, waitFailed: bool)
    requires Inv(v) && InPhase(v, p)
    ensures var w := LoopSection(v, p, expired, waitFailed); var k := v.polls[p].slot;
            |w.loopers| == |v.loopers| && w.loopers == v.loopers[k := w.loopers[k]]
                && Follows(v.loopers[k], w.loopers[k])
  {
    hide CookieOk, PollOk, Follows, RegsOk, WakesOk, Took, Consume, Copies;
    var l := v.loopers[v.polls[p].slot];
    assert RegsOk(l) && WakesOk(l);
    FollowsItself(l);
    WakeBounded(l);
    ConsumeFollows(l, l.wake);
    if HasResponse(l) { TookFollows(l); }
  }

  lemma ReadyFollows(v: View, p: nat, ready: seq<bool>)
    requires Inv(v) && InPhase(v, p) && v.polls[p].phase.Waiting? && |ready| == |v.polls[p].phase.copies|
    ensures var w := ReadySection(v, p, ready); var k := v.polls[p].slot;
            |w.loopers| == |v.loopers| && w.loopers == v.loopers[k := w.loopers[k]]
                && Follows(v.loopers[k], w.loopers[k])
  {
    hide CookieOk, PollOk, Follows, RegsOk, WakesOk, Took, Consume, Queue, Ready;
    var l := v.loopers[v.polls[p].slot];
    assert RegsOk(l) && WakesOk(l);
    FollowsItself(l);
    ReadyLooper(l, Ready(l, v.polls[p].phase.copies, ready, false), l.wake);
  }

  lemma CallbackFollows(v: View, p: nat, keep: bool)
    requires Inv(v) && InPhase(v, p) && v.polls[p].phase.Calling? && v.polls[p].phase.at < |v.polls[p].phase.batch|
    ensures var w := CallbackSection(v, p, keep); var k := v.polls[p].slot;
            |w.loopers| == |v.loopers| && w.loopers == v.loopers[k := w.loopers[k]]
                && Follows(v.loopers[k], w.loopers[k])
  {
    hide CookieOk, PollOk, Follows, RegsOk, WakesOk, ClearFd;
    var q := v.polls[p];
    var l := v.loopers[q.slot];
    assert RegsOk(l);
    FollowsItself(l);
    if Current(l, q.phase.batch[q.phase.at]) { ClearFollows(l, q.phase.batch[q.phase.at].slot); }
  }

  lemma BatchFollows(v: View, p: nat)
    requires Inv(v) && InPhase(v, p) && v.polls[p].phase.Calling?
    ensures var w := BatchSection(v, p); var k := v.polls[p].slot;
            |w.loopers| == |v.loopers| && w.loopers == v.loopers[k := w.loopers[k]]
                && Follows(v.loopers[k], w.loopers[k])
  {
    hide CookieOk, Follows, RegsOk, WakesOk, Took, Consume, CopyOk;
    var q := v.polls[p];
    var l := v.loopers[q.slot];
    assert RegsOk(l) && WakesOk(l) && PollOk(v, q);
    FollowsItself(l);
    if LiveAt(v, q.slot, q.generation) {
      ConsumeFollows(l, q.phase.through);
      if HasResponse(l) {
        TookFollows(l);
        TookWakes(l);
        ConsumeFollows(Took(l), q.phase.through);
        FollowsTwice(l, Took(l), Consume(Took(l), q.phase.through));
      }
    }
  }

  /** An instance that ended stays ended, so whoever still holds its generation,
      a cookie or a poll under way, touches nothing from then on. */
  lemma {:induction false} EndedStaysEnded(v: View, steps: seq<Step>, w: View, slot: nat, generation: nat)
    requires Inv(v) && Runs(v, steps, w) && Known(v, slot, generation) && !LiveAt(v, slot, generation)
    ensures Known(w, slot, generation) && !LiveAt(w, slot, generation)
    decreases |steps|
  {
    hide Inv, Allowed, After;
    if steps != [] {
      StepKeeps(v, steps[0]);
      StepFollows(v, steps[0], slot);
      EndedStaysEnded(After(v, steps[0]), steps[1..], w, slot, generation);
    }
  }

  /** A callback that returns zero removes nothing but the registration its batch
      copied: the same descriptor, identifier and callback, unchanged since. */
  lemma CallbackRemovesItsOwn(v: View, p: nat)
    requires Inv(v) && Allowed(v, CallbackDone(p, false))
    ensures var q := v.polls[p]; var c := q.phase.batch[q.phase.at]; var w := After(v, CallbackDone(p, false));
            && |w.loopers| == |v.loopers|
            && (w.loopers != v.loopers ==>
                  && LiveAt(v, q.slot, q.generation) && c.slot < |v.loopers[q.slot].fds|
                      && v.loopers[q.slot].fds[c.slot] == c.reg
                  && w.loopers == v.loopers[q.slot := ClearFd(v.loopers[q.slot], c.slot)])
            && ((LiveAt(v, q.slot, q.generation) && c.slot < |v.loopers[q.slot].fds|
                && v.loopers[q.slot].fds[c.slot] == c.reg) ==>
                  w.loopers == v.loopers[q.slot := ClearFd(v.loopers[q.slot], c.slot)])
  {
    hide RegsOk, WakesOk, CookieOk;
    var q := v.polls[p];
    assert PollOk(v, q);
    assert CopyOk(v.loopers[q.slot], CopiesOf(q.phase)[q.phase.at]);
  }

  // ---- wakes ----

  /** The slot whose wakes a step accounts for, and up to which one: a poll that
      ends does so for the wakes it saw when it copied its batch of callbacks, or
      without one for those it sees now. */
  function Accounted(v: View, s: Step): Option<(nat, nat)>
    requires Allowed(v, s)
  {
    if s.PollLoop? || s.PollInterrupted? || s.PollReady? || s.BatchDone? then
      var q := v.polls[s.p];
      var l := v.loopers[q.slot];
      if LiveAt(v, q.slot, q.generation) && Ends(l, q.phase, s)
      then Some((q.slot, if s.BatchDone? then q.phase.through else l.wake)) else None
    else None
  }

  /** Does the step end a poll of `l` that is in `phase`, for a wake or with a
      response that came after the wait? */
  predicate Ends(l: Looper, phase: PollPhase, s: Step)
    requires s.PollReady? ==> phase.Waiting? && |s.ready| == |phase.copies|
  {
    match s
    case PollLoop(_, _, _) => !HasResponse(l) && Copies(l.fds) == [] && HasWake(l)
    case PollReady(_, ready) =>
      && Ready(l, phase.copies, ready, true) == []
      && (HasWake(l) || HasResponse(Queue(l, Ready(l, phase.copies, ready, false))))
    case _ => s.PollInterrupted? || s.BatchDone?
  }

  /** What a step accounts for is what becomes of the consumed wakes. */
  lemma StepAccounts(v: View, s: Step, slot: nat)
    requires Inv(v) && Allowed(v, s) && slot < |v.loopers| && v.loopers[slot].used
    requires |After(v, s).loopers| == |v.loopers|
    requires After(v, s).loopers[slot].used && After(v, s).loopers[slot].generation == v.loopers[slot].generation
    ensures var now := After(v, s).loopers[slot].consumed;
            match Accounted(v, s)
            case None => now == v.loopers[slot].consumed
            case Some(a) => now == if a.0 == slot then a.1 else v.loopers[slot].consumed
  {
    hide CookieOk, PollOk, Follows, RegsOk, WakesOk, Copies, Ready, Queue, FindFd, FindUnused;
    match s
    case Prepare(t, k, allow, stored) => AllocateMovesOn(v.loopers[k], t, allow);
    case ThreadExit(t) => DisassociateMovesOn(v.loopers[v.cookies[t].value.slot]);
    case Release(k) => RetireMovesOn(v.loopers[k]);
    case PollReady(p, ready) =>
      QueueWakes(v.loopers[v.polls[p].slot], Ready(v.loopers[v.polls[p].slot], v.polls[p].phase.copies, ready, false));
    case _ =>
  }

  lemma AllocateMovesOn(l: Looper, t: nat, allow: bool)
    ensures Allocate(l, t, allow).generation > l.generation && Retire(Allocate(l, t, allow)).generation > l.generation
  {
    hide ClearFrom;
  }

  lemma RetireMovesOn(l: Looper)
    ensures Retire(l).generation > l.generation
  {
    hide ClearFrom;
  }

  lemma DisassociateMovesOn(l: Looper)
    ensures Disassociate(l).generation > l.generation
  {
    hide ClearFrom;
  }

  /** No step of the run ends a poll whose snapshot includes wake `n` of the slot. */
  ghost predicate NoneSees(v: View, steps: seq<Step>, slot: nat, n: nat)
    decreases |steps|
  {
    steps == [] ||
    (&& Allowed(v, steps[0])
     && (Accounted(v, steps[0]).Some? && Accounted(v, steps[0]).value.0 == slot ==> Accounted(v, steps[0]).value.1 < n)
     && NoneSees(After(v, steps[0]), steps[1..], slot, n))
  }

  lemma {:induction false} PendingUntilSeen(v: View, steps: seq<Step>, w: View, slot: nat, generation: nat, n: nat)
    requires Inv(v) && Runs(v, steps, w) && LiveAt(v, slot, generation) && LiveAt(w, slot, generation)
    requires v.loopers[slot].consumed < n <= v.loopers[slot].wake && NoneSees(v, steps, slot, n)
    ensures w.loopers[slot].consumed < n <= w.loopers[slot].wake
    decreases |steps|
  {
    hide Inv, Allowed, After, Accounted, LiveAt;
    if steps != [] {
      var u := After(v, steps[0]);
      StepKeeps(v, steps[0]);
      IsLive(v, slot, generation);
      StepFollows(v, steps[0], slot);
      if !LiveAt(u, slot, generation) {
        StillKnown(v, u, slot, generation);
        EndedStaysEnded(u, steps[1..], w, slot, generation);
        assert false;
      }
      IsLive(u, slot, generation);
      StepAccounts(v, steps[0], slot);
      PendingUntilSeen(u, steps[1..], w, slot, generation, n);
    }
  }

  lemma IsLive(v: View, slot: nat, generation: nat)
    ensures LiveAt(v, slot, generation) <==>
              slot < |v.loopers| && v.loopers[slot].used && v.loopers[slot].generation == generation
  {
  }

  lemma StillKnown(v: View, u: View, slot: nat, generation: nat)
    requires LiveAt(v, slot, generation) && |u.loopers| == |v.loopers| && Follows(v.loopers[slot], u.loopers[slot])
    ensures Known(u, slot, generation)
  {
  }

  /** A wake stays pending, whatever runs, callbacks that poll again included,
      until a poll ends whose snapshot is not older than the wake. */
  lemma LaterWakesStayPending(v: View, slot: nat, steps: seq<Step>, w: View)
    requires Inv(v) && slot < |v.loopers| && v.loopers[slot].used
    requires Runs(After(v, Wake(slot)), steps, w)
    requires NoneSees(After(v, Wake(slot)), steps, slot, v.loopers[slot].wake + 1)
    requires LiveAt(w, slot, v.loopers[slot].generation)
    ensures HasWake(w.loopers[slot])
  {
    hide Inv, Runs, NoneSees;
    var u := After(v, Wake(slot));
    StepKeeps(v, Wake(slot));
    WakePends(v, slot);
    PendingUntilSeen(u, steps, w, slot, v.loopers[slot].generation, v.loopers[slot].wake + 1);
  }

  /** What a poll accounts for: a batch of callbacks, exactly the wakes from
      before the batch was copied; so a wake during the callbacks stays. */
  lemma WakesDuringCallbacksStay(v: View, p: nat)
    requires Inv(v) && Allowed(v, BatchDone(p)) && LiveAt(v, v.polls[p].slot, v.polls[p].generation)
    requires v.loopers[v.polls[p].slot].wake > v.polls[p].phase.through
    ensures HasWake(After(v, BatchDone(p)).loopers[v.polls[p].slot])
    ensures After(v, BatchDone(p)).polls[p].phase.Returned?
  {
    hide Inv;
  }

  /** No poll times out under the lock, or goes on to read the clock without it,
      over a pending wake. */
  lemma NoTimeoutOverAWake(v: View, s: Step, p: nat)
    requires Allowed(v, s) && !s.PollClock? && p < |v.polls| && v.polls[p].phase !in {Clocking, Returned(Timeout)}
    requires p < |After(v, s).polls| && After(v, s).polls[p].phase in {Clocking, Returned(Timeout)}
    ensures var l := v.polls[p].slot;
            l < |v.loopers| && LiveAt(v, l, v.polls[p].generation) && !HasWake(v.loopers[l])
                && !HasWake(After(v, s).loopers[l])
  {
    hide Took, Ready, Copies, Retire, Allocate, Disassociate, AddFd, RemoveFd;
    if s.PollReady? {
      var q := v.polls[s.p];
      if LiveAt(v, q.slot, q.generation) {
        QueueWakes(v.loopers[q.slot], Ready(v.loopers[q.slot], q.phase.copies, s.ready, false));
      }
    }
  }

  /** The gap between the two: a wake that comes before the clock is read does not
      stop the timeout. It stays pending, and a poll that times out there leaves a
      wake pending exactly when one was when it read the clock. */
  lemma LateWakeIsLeft(v: View, p: nat)
    requires Inv(v) && Allowed(v, PollClock(p, true))
    ensures var slot, w := v.polls[p].slot, After(v, PollClock(p, true));
            && w.polls[p].phase == Returned(Timeout) && w.loopers == v.loopers
            && (v.loopers[slot].used ==>
                  var late := After(After(v, Wake(slot)), PollClock(p, true));
                  late.polls[p].phase == Returned(Timeout) && HasWake(late.loopers[slot]))
  {
    assert WakesOk(v.loopers[v.polls[p].slot]);
  }

  lemma {:induction false} QueueWakes(l: Looper, copies: seq<Copy>)
    ensures Queue(l, copies).wake == l.wake && Queue(l, copies).consumed == l.consumed
    decreases |copies|
  {
    if copies != [] {
      var m := if |l.responses| >= MAX_FDS then l
          else l.(responses := l.responses + [Response(copies[0].reg.fd, copies[0].reg.ident)]);
      QueueWakes(m, copies[1..]);
    }
  }

  // ---- the table itself ----

  lemma FdIs(fds: seq<Reg>, fd: int, k: nat)
    requires k <= |fds| && (k < |fds| ==> fds[k].used && fds[k].fd == fd)
    requires forall j | 0 <= j < k :: !(fds[j].used && fds[j].fd == fd)
    ensures k == FindFd(fds, fd)
  {
  }

  lemma UnusedIs(fds: seq<Reg>, k: nat)
    requires k <= |fds| && (k < |fds| ==> !fds[k].used)
    requires forall j | 0 <= j < k :: fds[j].used
    ensures k == FindUnused(fds)
  {
  }

  /** The slot of the thread's own looper. */
  function OwnOf(v: View, t: nat): Option<nat>
    requires t < |v.cookies|
  {
    if v.cookies[t].Some? && CurrentOf(v, t, v.cookies[t].value.slot) then Some(v.cookies[t].value.slot) else None
  }

  /** The first slot not in use, or the number of slots. */
  function FindFree(loopers: seq<Looper>): (k: nat)
    ensures k <= |loopers| && (k < |loopers| ==> !loopers[k].used)
    ensures forall j | 0 <= j < k :: loopers[j].used
  {
    if loopers == [] || !loopers[0].used then 0 else 1 + FindFree(loopers[1..])
  }

  lemma FreeIs(loopers: seq<Looper>, k: nat)
    requires k <= |loopers| && (k < |loopers| ==> !loopers[k].used)
    requires forall j | 0 <= j < k :: loopers[j].used
    ensures k == FindFree(loopers)
  {
  }

  lemma CopiesGrow(fds: seq<Reg>, n: nat)
    requires n < |fds|
    ensures Copies(fds[..n + 1]) == Copies(fds[..n]) + (if fds[n].used then [Copy(n, fds[n])] else [])
  {
    assert fds[..n + 1][..n] == fds[..n];
  }

  lemma ReadyGrow(l: Looper, copies: seq<Copy>, ready: seq<bool>, n: nat, callback: bool)
    requires |ready| == |copies| && n < |copies|
    ensures var before := Ready(l, copies[..n], ready[..n], callback);
            Ready(l, copies[..n + 1], ready[..n + 1], callback) ==
            if ready[n] && Current(l, copies[n]) && copies[n].reg.callback == callback then before + [copies[n]]
            else before
  {
    assert copies[..n + 1][..n] == copies[..n] && ready[..n + 1][..n] == ready[..n];
  }

  lemma {:induction false} QueueGrow(l: Looper, copies: seq<Copy>, c: Copy)
    ensures var m := Queue(l, copies);
            Queue(l, copies + [c]) ==
            if |m.responses| >= MAX_FDS then m
            else m.(responses := m.responses + [Response(c.reg.fd, c.reg.ident)])
    decreases |copies|
  {
    if copies == [] {
      assert [] + [c] == [c] && [c][1..] == [];
    } else {
      var m := if |l.responses| >= MAX_FDS then l
          else l.(responses := l.responses + [Response(copies[0].reg.fd, copies[0].reg.ident)]);
      QueueGrow(m, copies[1..], c);
      assert (copies + [c])[1..] == copies[1..] + [c];
    }
  }

  class LooperTable {
    const loopers: array<Looper>
    const cookies: array<Option<Cookie>>
    ghost var polls: seq<Poll>

    ghost function Table(): View
      reads this, loopers, cookies
    {
      View(loopers[..], cookies[..], polls)
    }

    constructor (threads: nat)
      ensures Fresh(Table()) && Inv(Table()) && loopers.Length == MAX_LOOPERS && cookies.Length == threads
      ensures fresh(loopers) && fresh(cookies)
    {
      loopers := new Looper[MAX_LOOPERS](_ =>
        Looper(false, None, 0, false, 0, 0, 0, 0, seq(MAX_FDS, _ => Reg(false, -1, 0, false, 0)), [], 0, 0));
      cookies := new Option<Cookie>[threads](_ => None);
      polls := [];
      new;
      FreshInv(Table());
    }

    /** The place addFd takes: one pass over the slots that stops at the
        descriptor's own registration and remembers the first free slot. */
    static method FindTarget(fds: seq<Reg>, fd: int) returns (k: nat)
      ensures k == Target(fds, fd)
    {
      var free: nat := |fds|;
      for i := 0 to |fds|
        invariant forall j | 0 <= j < i :: !(fds[j].used && fds[j].fd == fd)
        invariant free <= |fds|
            && (free < |fds| ==> free < i && !fds[free].used && forall j | 0 <= j < free :: fds[j].used)
        invariant free == |fds| ==> forall j | 0 <= j < i :: fds[j].used
      {
        if fds[i].used && fds[i].fd == fd {
          FdIs(fds, fd, i);
          return i;
        }
        if !fds[i].used && free == |fds| { free := i; }
      }
      FdIs(fds, fd, |fds|);
      UnusedIs(fds, free);
      return free;
    }

    /** ALooper_addFd on a descriptor that is open. */
    method AddRegistration(slot: nat, fd: int, ident: int, callback: bool) returns (ok: bool)
      requires Inv(Table()) && slot < loopers.Length
      modifies loopers
      ensures ok == CanAdd(old(loopers[slot]), fd, ident, callback)
      ensures ok ==> Table() == After(old(Table()), Add(slot, fd, ident, callback))
      ensures !ok ==> Table() == old(Table())
      ensures Inv(Table())
      ensures ok ==> forall other ::
                RegOf(loopers[slot], other) ==
                if other == fd then Some(Reg(true, fd, ident, callback, old(loopers[slot]).nextFd + 1))
                else RegOf(old(loopers[slot]), other)
    {
      hide Inv, Target, RegOf;
      var l := loopers[slot];
      assert RegsOk(l) by { LooperOk(Table(), slot); }
      if fd < 0 || (!callback && ident < 0) || !l.used || (!callback && !l.allowNonCallbacks) { return false; }
      var k := FindTarget(l.fds, fd);
      if k == |l.fds| { return false; }
      StepKeeps(Table(), Add(slot, fd, ident, callback));
      forall other { AddRegisters(l, fd, ident, callback, other); }
      ghost var v := Table();
      loopers[slot] := l.(fds := l.fds[k := Reg(true, fd, ident, callback, l.nextFd + 1)], nextFd := l.nextFd + 1);
      assert loopers[..] == v.loopers[slot := loopers[slot]];
      return true;
    }

    method RemoveRegistration(slot: nat, fd: int) returns (removed: bool)
      requires Inv(Table()) && slot < loopers.Length
      modifies loopers
      ensures Inv(Table()) && Table() == After(old(Table()), Remove(slot, fd))
      ensures removed == (old(loopers[slot]).used && RegOf(old(loopers[slot]), fd).Some?)
      ensures old(loopers[slot]).used ==> forall other ::
                RegOf(loopers[slot], other) == if other == fd then None else RegOf(old(loopers[slot]), other)
    {
      hide Inv, FindFd;
      LooperOk(Table(), slot);
      if loopers[slot].used { forall other { RemoveUnregisters(loopers[slot], fd, other); } }
      StepKeeps(Table(), Remove(slot, fd));
      ghost var v := Table();
      var l := loopers[slot];
      removed := false;
      if l.used {
        var k := 0;
        while k < |l.fds| && !(l.fds[k].used && l.fds[k].fd == fd)
          invariant k <= |l.fds| && forall j | 0 <= j < k :: !(l.fds[j].used && l.fds[j].fd == fd)
        {
          k := k + 1;
        }
        FdIs(l.fds, fd, k);
        if k < |l.fds| {
          loopers[slot] := ClearFd(l, k);
          removed := true;
        }
      }
      assert loopers[..] == v.loopers[slot := loopers[slot]];
    }

    method WakeUp(slot: nat)
      requires Inv(Table()) && slot < loopers.Length
      modifies loopers
      ensures Inv(Table()) && Table() == After(old(Table()), Wake(slot))
      ensures old(loopers[slot]).used ==> HasWake(loopers[slot])
    {
      hide Inv;
      WakePends(Table(), slot);
      StepKeeps(Table(), Wake(slot));
      ghost var v := Table();
      if loopers[slot].used {
        loopers[slot] := loopers[slot].(wake := loopers[slot].wake + 1);
      }
      assert loopers[..] == v.loopers[slot := loopers[slot]];
    }

    /** Clears the slots one by one, as both retirement and allocation do. */
    static method ClearAll(l: Looper) returns (r: Looper)
      ensures r == ClearFrom(l, 0)
    {
      r := l;
      for k := 0 to |l.fds|
        invariant |r.fds| == |l.fds| && ClearFrom(l, 0) == ClearFrom(r, k)
      {
        r := r.(fds := r.fds[k := Reg(false, -1, 0, false, r.nextFd + 1)], nextFd := r.nextFd + 1);
      }
    }

    method ReleaseReference(slot: nat)
      requires Inv(Table()) && slot < loopers.Length
      modifies loopers
      ensures Inv(Table()) && Table() == After(old(Table()), Release(slot))
    {
      hide Inv, ClearFrom;
      StepKeeps(Table(), Release(slot));
      ghost var v := Table();
      var l := loopers[slot];
      if l.used && l.refs > 0 {
        if l.refs == 1 {
          var cleared := ClearAll(l);
          loopers[slot] := cleared.(owner := None, refs := 0, allowNonCallbacks := false, used := false,
                                    generation := l.generation + 1, wake := 0, consumed := 0, seen := 0,
                                    responses := [], at := 0);
        } else {
          loopers[slot] := l.(refs := l.refs - 1);
        }
      }
      assert loopers[..] == v.loopers[slot := loopers[slot]];
    }

    /** ALooper_prepare on a thread: its own looper, or the first free slot.
        `keyOk` is whether there is a thread key, `stored` whether it could be set. */
    method PrepareThread(t: nat, allow: bool, keyOk: bool, stored: bool)
      returns (slot: Option<nat>, ghost step: Option<Step>)
      requires Inv(Table()) && t < cookies.Length
      modifies loopers, cookies
      ensures Inv(Table())
      ensures var own, free := OwnOf(old(Table()), t), FindFree(old(loopers[..]));
              if !keyOk then slot == None && step == None
              else if own.Some? then slot == own && step == None
              else if free == loopers.Length then slot == None && step == None
              else slot == (if stored then Some(free) else None) && step == Some(Prepare(t, free, allow, stored))
      ensures step.None? ==> Table() == old(Table())
      ensures step.Some? ==> Allowed(old(Table()), step.value) && Table() == After(old(Table()), step.value)
      ensures slot.Some? ==> CurrentOf(Table(), t, slot.value)
    {
      hide Inv, ClearFrom, FindFree;
      if !keyOk { return None, None; }
      var c := cookies[t];
      if c.Some? && c.value.slot < loopers.Length {
        var l := loopers[c.value.slot];
        if l.used && l.generation == c.value.generation && l.owner == Some(t) { return Some(c.value.slot), None; }
      }
      var k := 0;
      while k < loopers.Length && loopers[k].used
        invariant k <= loopers.Length && forall j | 0 <= j < k :: loopers[j].used
      {
        k := k + 1;
      }
      FreeIs(loopers[..], k);
      if k == loopers.Length { return None, None; }
      step := Some(Prepare(t, k, allow, stored));
      StepKeeps(Table(), step.value);
      ghost var v := Table();
      var taken := Allocate(loopers[k], t, allow);
      if stored {
        loopers[k] := taken;
        cookies[t] := Some(Cookie(k, taken.generation));
        slot := Some(k);
      } else {
        loopers[k] := Retire(taken);
        cookies[t] := None;
        slot := None;
      }
      assert loopers[..] == v.loopers[k := loopers[k]] && cookies[..] == v.cookies[t := cookies[t]];
    }

    /** The thread-key destructor. */
    method ExitThread(t: nat)
      requires Inv(Table()) && t < cookies.Length && cookies[t].Some?
      modifies loopers, cookies
      ensures Inv(Table()) && Allowed(old(Table()), ThreadExit(t)) && Table() == After(old(Table()), ThreadExit(t))
    {
      hide Inv, Disassociate;
      CookieInTable(Table(), t);
      StepKeeps(Table(), ThreadExit(t));
      ghost var v := Table();
      var c := cookies[t].value;
      if loopers[c.slot].used && loopers[c.slot].generation == c.generation {
        loopers[c.slot] := Disassociate(loopers[c.slot]);
        assert loopers[..] == v.loopers[c.slot := loopers[c.slot]];
      }
      cookies[t] := None;
      assert cookies[..] == v.cookies[t := None];
    }

    /** The loop that copies the registrations before poll(). */
    method TakeCopies(slot: nat) returns (copies: seq<Copy>)
      requires slot < loopers.Length
      ensures copies == Copies(loopers[slot].fds)
    {
      var fds := loopers[slot].fds;
      copies := [];
      for i := 0 to |fds|
        invariant copies == Copies(fds[..i])
      {
        CopiesGrow(fds, i);
        if fds[i].used { copies := copies + [Copy(i, fds[i])]; }
      }
      assert fds[..|fds|] == fds;
    }

    /** The start of pollOnce on the thread's own looper. */
    method BeginPoll(t: nat, slot: nat) returns (next: PollPhase, ghost p: nat)
      requires Inv(Table()) && CurrentOf(Table(), t, slot)
      modifies this, loopers
      ensures Inv(Table()) && Table() == After(old(Table()), PollBegin(t, slot))
      ensures p == |old(polls)| < |polls| && polls[p].phase == next
    {
      hide Inv;
      StepKeeps(Table(), PollBegin(t, slot));
      ghost var v := Table();
      p := |polls|;
      var l := loopers[slot];
      next := Looping;
      if l.at < |l.responses| {
        next := Returned(Ident(l.responses[l.at].ident));
        loopers[slot] := Took(l);
      }
      polls := polls + [Poll(slot, l.generation, next)];
      assert loopers[..] == v.loopers[slot := loopers[slot]];
    }

    /** The top of the loop of pollOnce: `expired` is whether the time is up,
        `waitFailed` whether the wait without registrations ended in an error. */
    method TurnPoll(ghost p: nat, slot: nat, generation: nat, expired: bool, waitFailed: bool) returns (next: PollPhase)
      requires Inv(Table()) && Allowed(Table(), PollLoop(p, expired, waitFailed))
      requires polls[p] == Poll(slot, generation, Looping)
      modifies this, loopers
      ensures Inv(Table()) && Table() == After(old(Table()), PollLoop(p, expired, waitFailed))
      ensures p < |polls| && polls[p].phase == next
    {
      hide Inv, Copies;
      StepKeeps(Table(), PollLoop(p, expired, waitFailed));
      ghost var v := Table();
      var l := loopers[slot];
      next := Looping;
      if !l.used || l.generation != generation {
        next := Returned(Error);
      } else if l.at < |l.responses| {
        next := Returned(Ident(l.responses[l.at].ident));
        loopers[slot] := Took(l);
      } else {
        var copies := TakeCopies(slot);
        if copies != [] {
          next := Waiting(copies);
        } else if l.wake != l.consumed {
          next := Returned(WakeResult);
          loopers[slot] := Consume(l, l.wake);
        } else if expired {
          next := Returned(Timeout);
        } else if waitFailed {
          next := Returned(Error);
        }
      }
      polls := polls[p := Poll(slot, generation, next)];
      assert loopers[..] == v.loopers[slot := loopers[slot]];
      assert next == Looping ==> polls == v.polls;
    }

    /** The loop over what poll() reported: callbacks are copied for the calls to
        come, the others answered in the response list. */
    static method GatherReady(l: Looper, copies: seq<Copy>, ready: seq<bool>) returns (m: Looper, batch: seq<Copy>)
      requires |ready| == |copies|
      ensures batch == Ready(l, copies, ready, true)
      ensures m == Queue(l, Ready(l, copies, ready, false))
    {
      hide Current;
      m, batch := l, [];
      for i := 0 to |copies|
        invariant batch == Ready(l, copies[..i], ready[..i], true)
        invariant m == Queue(l, Ready(l, copies[..i], ready[..i], false))
      {
        ReadyGrow(l, copies, ready, i, true);
        ReadyGrow(l, copies, ready, i, false);
        if ready[i] && Current(l, copies[i]) {
          if copies[i].reg.callback {
            batch := batch + [copies[i]];
          } else {
            QueueGrow(l, Ready(l, copies[..i], ready[..i], false), copies[i]);
            if |m.responses| < MAX_FDS {
              m := m.(responses := m.responses + [Response(copies[i].reg.fd, copies[i].reg.ident)]);
            }
          }
        }
      }
      assert copies[..|copies|] == copies && ready[..|ready|] == ready;
    }

    /** pollOnce after poll() returned, up to the callbacks or the end of the turn. */
    method FinishWait(ghost p: nat, slot: nat, generation: nat, copies: seq<Copy>, ready: seq<bool>)
      returns (next: PollPhase)
      requires Inv(Table()) && Allowed(Table(), PollReady(p, ready))
      requires polls[p] == Poll(slot, generation, Waiting(copies))
      modifies this, loopers
      ensures Inv(Table()) && Table() == After(old(Table()), PollReady(p, ready))
      ensures p < |polls| && polls[p].phase == next
    {
      hide Inv, Ready, Queue;
      StepKeeps(Table(), PollReady(p, ready));
      ghost var v := Table();
      var l := loopers[slot];
      if !l.used || l.generation != generation {
        next := Returned(Error);
      } else {
        var m, batch := GatherReady(l, copies, ready);
        if batch != [] {
          next := Calling(batch, 0, l.wake);
        } else if m.at < |m.responses| {
          next := Returned(Ident(m.responses[m.at].ident));
          m := Consume(Took(m), l.wake);
        } else if m.wake != m.consumed {
          next := Returned(WakeResult);
          m := Consume(m, m.wake);
        } else {
          next := Clocking;
        }
        loopers[slot] := m;
      }
      polls := polls[p := Poll(slot, generation, next)];
      assert loopers[..] == v.loopers[slot := loopers[slot]];
    }

    /** pollOnce after the callbacks of its batch. */
    method FinishBatch(ghost p: nat, slot: nat, generation: nat, through: nat) returns (result: PollResult)
      requires Inv(Table()) && Allowed(Table(), BatchDone(p))
      requires polls[p].slot == slot && polls[p].generation == generation && polls[p].phase.through == through
      modifies this, loopers
      ensures Inv(Table()) && Table() == After(old(Table()), BatchDone(p))
      ensures p < |polls| && polls[p].phase == Returned(result)
    {
      hide Inv;
      StepKeeps(Table(), BatchDone(p));
      ghost var v := Table();
      var l := loopers[slot];
      result := CallbackResult;
      if l.used && l.generation == generation {
        if l.at < |l.responses| {
          result := Ident(l.responses[l.at].ident);
          l := Took(l);
        }
        loopers[slot] := Consume(l, through);
      }
      polls := polls[p := polls[p].(phase := Returned(result))];
      assert loopers[..] == v.loopers[slot := loopers[slot]];
    }

    /** After a callback returned: `c` is its copy, made for instance
        `generation` of the slot. */
    method FinishCallback(ghost p: nat, slot: nat, generation: nat, c: Copy, keep: bool)
      requires Inv(Table()) && Allowed(Table(), CallbackDone(p, keep))
      requires polls[p].slot == slot && polls[p].generation == generation
          && polls[p].phase.batch[polls[p].phase.at] == c
      modifies this, loopers
      ensures Inv(Table()) && Table() == After(old(Table()), CallbackDone(p, keep))
    {
      hide Inv;
      StepKeeps(Table(), CallbackDone(p, keep));
      ghost var v := Table();
      if !keep {
        var l := loopers[slot];
        if l.used && l.generation == generation && c.slot < |l.fds| {
          var entry := l.fds[c.slot];
          if entry.used && entry.fd == c.reg.fd && entry.generation == c.reg.generation {
            loopers[slot] := ClearFd(l, c.slot);
          }
        }
      }
      polls := polls[p := polls[p].(phase := polls[p].phase.(at := polls[p].phase.at + 1))];
      assert loopers[..] == v.loopers[slot := loopers[slot]];
    }
  }

  lemma LooperOk(v: View, slot: nat)
    requires Inv(v) && slot < |v.loopers|
    ensures RegsOk(v.loopers[slot])
  {
  }

  lemma WakePends(v: View, slot: nat)
    requires Inv(v) && slot < |v.loopers|
    ensures v.loopers[slot].consumed <= v.loopers[slot].wake
  {
    assert WakesOk(v.loopers[slot]);
  }

  lemma CookieInTable(v: View, t: nat)
    requires Inv(v) && t < |v.cookies| && v.cookies[t].Some?
    ensures v.cookies[t].value.slot < |v.loopers|
  {
    assert CookieOk(v, t, v.cookies[t].value);
  }
}
