/** What a poll of a looper hands out (source/android_native_unity.c lines 341 to
    365 and 658 to 856): which registrations it copies, which callbacks it runs,
    which identifiers it queues and in what order it returns them. */
module LooperPolls {
  import opened Bytes
  import opened Looper

  // ---- the copies, the batch and the queue, element by element ----

  /** In slot order, so no slot twice. */
  predicate InSlotOrder(copies: seq<Copy>) {
    forall i, j | 0 <= i < j < |copies| :: copies[i].slot < copies[j].slot
  }

  /** The copies are exactly the registrations in use, in slot order. */
  lemma {:induction false} CopiesExactly(fds: seq<Reg>)
    ensures InSlotOrder(Copies(fds))
    ensures forall c :: c in Copies(fds) <==> c.slot < |fds| && fds[c.slot].used && fds[c.slot] == c.reg
    decreases |fds|
  {
    if fds != [] {
      var n := |fds| - 1;
      CopiesExactly(fds[..n]);
      var before := Copies(fds[..n]);
      assert Copies(fds) == before + (if fds[n].used then [Copy(n, fds[n])] else []);
      forall i | 0 <= i < |before| ensures before[i].slot < n { assert before[i] in before; }
      forall c ensures c in Copies(fds) <==> c.slot < |fds| && fds[c.slot].used && fds[c.slot] == c.reg {
        if c.slot < n { assert fds[..n][c.slot] == fds[c.slot]; }
      }
    }
  }

  /** poll() reported copy `n`, and its registration is still the one in its slot. */
  predicate Reported(l: Looper, copies: seq<Copy>, ready: seq<bool>, n: nat) {
    n < |copies| == |ready| && ready[n] && copies[n].slot < |l.fds| && l.fds[copies[n].slot] == copies[n].reg
  }

  /** Copy `c` is to be passed on, to be called if `callback`, else to be queued. */
  predicate Passes(l: Looper, copies: seq<Copy>, ready: seq<bool>, callback: bool, c: Copy) {
    c.reg.callback == callback && exists n | 0 <= n < |copies| :: Reported(l, copies, ready, n) && copies[n] == c
  }

  /** With copies made under the lock, what is passed on are exactly the copies
      poll() reported whose registration is still in place, with a callback or
      without as wanted, in slot order. */
  lemma {:induction false} ReadyExactly(l: Looper, copies: seq<Copy>, ready: seq<bool>, callback: bool)
    requires |ready| == |copies| && InSlotOrder(copies) && forall i | 0 <= i < |copies| :: CopyOk(l, copies[i])
    ensures InSlotOrder(Ready(l, copies, ready, callback))
    ensures forall c :: c in Ready(l, copies, ready, callback) <==> Passes(l, copies, ready, callback, c)
    decreases |copies|
  {
    hide Ready, Passes, Reported, CopyOk;
    if copies == [] {
      NothingReady(l, copies, ready, callback);
    } else {
      var n: nat := |copies| - 1;
      var before, all := Ready(l, copies[..n], ready[..n], callback), Ready(l, copies, ready, callback);
      ReadyExactly(l, copies[..n], ready[..n], callback);
      ReadyLast(l, copies, ready, callback);
      forall i | 0 <= i < |before| ensures before[i].slot < copies[n].slot {
        assert before[i] in before;
        PassesIsCopy(l, copies[..n], ready[..n], callback, before[i]);
      }
      forall c ensures c in all <==> Passes(l, copies, ready, callback, c) {
        PassesLast(l, copies, ready, callback, c);
      }
    }
  }

  lemma NothingReady(l: Looper, copies: seq<Copy>, ready: seq<bool>, callback: bool)
    requires |ready| == |copies| == 0
    ensures Ready(l, copies, ready, callback) == []
    ensures forall c :: !Passes(l, copies, ready, callback, c)
  {
  }

  lemma PassesIsCopy(l: Looper, copies: seq<Copy>, ready: seq<bool>, callback: bool, c: Copy)
    requires Passes(l, copies, ready, callback, c)
    ensures c in copies
  {
  }

  lemma PassesLast(l: Looper, copies: seq<Copy>, ready: seq<bool>, callback: bool, c: Copy)
    requires |ready| == |copies| > 0
    ensures var n := |copies| - 1;
            Passes(l, copies, ready, callback, c) <==>
              || Passes(l, copies[..n], ready[..n], callback, c)
              || (Reported(l, copies, ready, n) && copies[n].reg.callback == callback && copies[n] == c)
  {
    var n: nat := |copies| - 1;
    if Passes(l, copies[..n], ready[..n], callback, c) {
      var m :| 0 <= m < n && Reported(l, copies[..n], ready[..n], m) && copies[..n][m] == c;
      assert Reported(l, copies, ready, m);
    }
    if m :| 0 <= m < n && Reported(l, copies, ready, m) && copies[m] == c {
      assert Reported(l, copies[..n], ready[..n], m) && copies[..n][m] == c;
    }
  }

  lemma ReadyLast(l: Looper, copies: seq<Copy>, ready: seq<bool>, callback: bool)
    requires |ready| == |copies| > 0 && CopyOk(l, copies[|copies| - 1])
    ensures var n := |copies| - 1;
            Ready(l, copies, ready, callback) ==
              Ready(l, copies[..n], ready[..n], callback)
              + (if Reported(l, copies, ready, n) && copies[n].reg.callback == callback then [copies[n]] else [])
  {
  }

  function ResponseOf(c: Copy): Response { Response(c.reg.fd, c.reg.ident) }

  function ResponsesOf(copies: seq<Copy>): (r: seq<Response>)
    ensures |r| == |copies|
  {
    seq(|copies|, i requires 0 <= i < |copies| => ResponseOf(copies[i]))
  }

  /** How many of `n` responses there is room for. */
  function Room(l: Looper, n: nat): (r: nat)
    ensures r <= n
  {
    if |l.responses| >= MAX_FDS then 0 else if n < MAX_FDS - |l.responses| then n else MAX_FDS - |l.responses|
  }

  /** Queueing appends a response for each copy, in order, as far as there is room
      for 32, and does nothing else. */
  lemma {:induction false} QueueExactly(l: Looper, copies: seq<Copy>)
    ensures Queue(l, copies) ==
              l.(responses := l.responses + ResponsesOf(copies[..Room(l, |copies|)]))
    decreases |copies|
  {
    if copies == [] {
      assert l.responses + ResponsesOf(copies[..0]) == l.responses;
    } else if |l.responses| >= MAX_FDS {
      QueueExactly(l, copies[1..]);
      assert copies[1..][..0] == copies[..0];
    } else {
      var m := l.(responses := l.responses + [ResponseOf(copies[0])]);
      QueueExactly(m, copies[1..]);
      var k := Room(m, |copies| - 1);
      assert Room(l, |copies|) == k + 1;
      assert m.responses + ResponsesOf(copies[1..][..k]) == l.responses + ResponsesOf(copies[..k + 1]);
    }
  }

  /** The responses not yet handed out. */
  function Unread(l: Looper): seq<Response> { if l.at <= |l.responses| then l.responses[l.at..] else [] }

  /** A list read to its end is emptied. */
  predicate ReadingOk(l: Looper) { l.at < |l.responses| || (l.at == 0 && l.responses == []) }

  function Idents(responses: seq<Response>): (r: seq<int>)
    ensures |r| == |responses|
  {
    seq(|responses|, i requires 0 <= i < |responses| => responses[i].ident)
  }

  lemma TookExactly(l: Looper)
    requires HasResponse(l)
    ensures Unread(l) == [l.responses[l.at]] + Unread(Took(l)) && ReadingOk(Took(l))
    ensures Took(l) == l.(responses := Took(l).responses, at := Took(l).at)
  {
  }

  // ---- one step: what is queued and what is handed out ----

  /** The responses a step queues for instance `generation` of a slot. */
  function QueuedBy(v: View, s: Step, slot: nat, generation: nat): seq<Response>
    requires Allowed(v, s)
  {
    if s.PollReady? && v.polls[s.p].slot == slot && v.polls[s.p].generation == generation && LiveAt(v, slot, generation)
    then
      var quiet := Ready(v.loopers[slot], v.polls[s.p].phase.copies, s.ready, false);
      ResponsesOf(quiet[..Room(v.loopers[slot], |quiet|)])
    else []
  }

  /** The poll a step is about. */
  function PollOf(v: View, s: Step): Option<nat> {
    match s
    case PollBegin(_, _) => Some(|v.polls|)
    case PollLoop(p, _, _) => Some(p)
    case PollInterrupted(p) => Some(p)
    case PollFailed(p) => Some(p)
    case PollReady(p, _) => Some(p)
    case PollClock(p, _) => Some(p)
    case CallbackDone(p, _) => Some(p)
    case BatchDone(p) => Some(p)
    case _ => None
  }

  predicate ReturnsIdent(q: Poll) { q.phase.Returned? && q.phase.result.Ident? }

  /** The identifier a step returns from a poll of that instance. */
  function HandedBy(v: View, s: Step, slot: nat, generation: nat): seq<int>
    requires Allowed(v, s)
  {
    var p, w := PollOf(v, s), After(v, s);
    if p.Some? && p.value < |w.polls| && w.polls[p.value].slot == slot && w.polls[p.value].generation == generation
       && ReturnsIdent(w.polls[p.value])
    then [w.polls[p.value].phase.result.ident] else []
  }

  /** The looper `m` after a step that may take the next response of `l` for a
      poll that ends up in `phase`. */
  predicate Serves(l: Looper, m: Looper, phase: PollPhase) {
    && ReadingOk(m)
    && Idents(Unread(l)) ==
       (if phase.Returned? && phase.result.Ident? then [phase.result.ident] else []) + Idents(Unread(m))
  }

  lemma TookServes(l: Looper, m: Looper)
    requires HasResponse(l) && m.responses == Took(l).responses && m.at == Took(l).at
    ensures Serves(l, m, Returned(Ident(l.responses[l.at].ident)))
  {
    hide Took;
    TookExactly(l);
  }

  lemma NoneServed(l: Looper, m: Looper, phase: PollPhase)
    requires ReadingOk(l) && m.responses == l.responses && m.at == l.at
    requires !(phase.Returned? && phase.result.Ident?)
    ensures Serves(l, m, phase)
  {
  }

  lemma QueuedUnread(v: View, s: Step)
    requires Allowed(v, s) && s.PollReady? && LiveAt(v, v.polls[s.p].slot, v.polls[s.p].generation)
    requires ReadingOk(v.loopers[v.polls[s.p].slot])
    ensures var q := v.polls[s.p];
            var m := Queue(v.loopers[q.slot], Ready(v.loopers[q.slot], q.phase.copies, s.ready, false));
            && ReadingOk(m) && Unread(m) == Unread(v.loopers[q.slot]) + QueuedBy(v, s, q.slot, q.generation)
            && m.generation == v.loopers[q.slot].generation
  {
    hide Ready;
    var q := v.polls[s.p];
    QueueExactly(v.loopers[q.slot], Ready(v.loopers[q.slot], q.phase.copies, s.ready, false));
  }

  lemma ReadyServes(v: View, s: Step)
    requires Allowed(v, s) && s.PollReady? && LiveAt(v, v.polls[s.p].slot, v.polls[s.p].generation)
    requires ReadingOk(v.loopers[v.polls[s.p].slot])
    ensures var q, w := v.polls[s.p], ReadySection(v, s.p, s.ready);
            && q.slot < |w.loopers| && w.loopers[q.slot].generation == v.loopers[q.slot].generation
            && ReadingOk(w.loopers[q.slot])
            && Idents(Unread(v.loopers[q.slot]) + QueuedBy(v, s, q.slot, q.generation))
               == HandedBy(v, s, q.slot, q.generation) + Idents(Unread(w.loopers[q.slot]))
  {
    hide Ready, Took, Queue, Idents, Unread, QueuedBy, ReadingOk;
    var q, w := v.polls[s.p], ReadySection(v, s.p, s.ready);
    var l := v.loopers[q.slot];
    var m := Queue(l, Ready(l, q.phase.copies, s.ready, false));
    QueuedUnread(v, s);
    if ReturnsIdent(w.polls[s.p]) {
      TookServes(m, w.loopers[q.slot]);
      TookExactly(m);
    } else {
      NoneServed(m, w.loopers[q.slot], w.polls[s.p].phase);
    }
  }

  /** One step: what waits to be handed out is what waited before and what the
      step queued, less what it handed out from the front. */
  lemma UnreadMoves(v: View, s: Step, slot: nat, generation: nat)
    requires Inv(v) && Allowed(v, s) && slot < |v.loopers| && ReadingOk(v.loopers[slot])
    ensures |After(v, s).loopers| == |v.loopers|
    ensures var l, m := v.loopers[slot], After(v, s).loopers[slot];
            && ReadingOk(m)
            && (l.generation == m.generation == generation && m.owner.Some? ==>
                  Idents(Unread(l) + QueuedBy(v, s, slot, generation))
                  == HandedBy(v, s, slot, generation) + Idents(Unread(m)))
            && (l.generation != m.generation && m.owner.Some? ==> Unread(m) == [])
  {
    hide Inv, LoopSection, ReadySection, CallbackSection, BatchSection, Retire, Allocate, Disassociate, AddFd, RemoveFd,
         Took, Idents, QueuedBy, Unread, Follows;
    var w := After(v, s);
    StepFollows(v, s, slot);
    var l, m := v.loopers[slot], w.loopers[slot];
    NothingQueued(v, s, slot, generation);
    NoIdents(l);
    match s
    case Prepare(t, k, allow, stored) => ClearedReads(v.loopers[k], t, allow);
    case Release(k) => ClearedReads(v.loopers[k], 0, false); SameReads(l, m);
    case ThreadExit(t) =>
      DisassociateReads(v.loopers[v.cookies[t].value.slot]); SameReads(l, m);
    case Add(k, fd, ident, callback) => AddReads(v.loopers[k], fd, ident, callback); SameReads(l, m);
    case Remove(k, fd) => RemoveReads(v.loopers[k], fd); SameReads(l, m);
    case PollBegin(t, k) => BeginReads(v, s, slot, generation);
    case PollLoop(p, expired, waitFailed) => LoopReads(v, s, slot, generation);
    case PollReady(p, ready) =>
      if slot == v.polls[p].slot {
        ReadyReads(v, p, ready, generation);
      } else {
        ReadyOther(v, p, ready, slot, generation);
      }
    case CallbackDone(p, keep) => CallbackReads(v, p, keep, slot); SameReads(l, m);
    case BatchDone(p) => BatchReads(v, p, slot, generation);
    case _ => SameReads(l, m);
  }

  lemma NothingQueued(v: View, s: Step, slot: nat, generation: nat)
    requires Allowed(v, s)
    ensures !s.PollReady? || v.polls[s.p].slot != slot ==> QueuedBy(v, s, slot, generation) == []
  {
  }

  lemma NoIdents(l: Looper)
    ensures Idents(Unread(l) + []) == Idents(Unread(l)) == [] + Idents(Unread(l))
  {
    assert Unread(l) + [] == Unread(l);
  }

  lemma SameReads(l: Looper, m: Looper)
    ensures m.responses == l.responses && m.at == l.at ==> Unread(m) == Unread(l) && (ReadingOk(l) ==> ReadingOk(m))
  {
  }

  lemma ClearedReads(l: Looper, t: nat, allow: bool)
    ensures Unread(Retire(l)) == Unread(Allocate(l, t, allow)) == Unread(Retire(Allocate(l, t, allow))) == []
    ensures ReadingOk(Retire(l)) && ReadingOk(Allocate(l, t, allow)) && ReadingOk(Retire(Allocate(l, t, allow)))
    ensures Retire(l).generation > l.generation && Retire(l).owner.None?
    ensures Allocate(l, t, allow).generation > l.generation
    ensures Retire(Allocate(l, t, allow)).generation > l.generation && Retire(Allocate(l, t, allow)).owner.None?
  {
    hide ClearFrom;
  }

  lemma DisassociateReads(l: Looper)
    ensures Disassociate(l).owner.None? && (ReadingOk(l) ==> ReadingOk(Disassociate(l)))
  {
    hide ClearFrom;
  }

  lemma AddReads(l: Looper, fd: int, ident: int, callback: bool)
    requires CanAdd(l, fd, ident, callback)
    ensures var m := AddFd(l, fd, ident, callback);
            m.responses == l.responses && m.at == l.at && m.generation == l.generation
  {
  }

  lemma RemoveReads(l: Looper, fd: int)
    ensures var m := RemoveFd(l, fd);
            m.responses == l.responses && m.at == l.at && m.generation == l.generation
  {
  }

  lemma CallbackReads(v: View, p: nat, keep: bool, slot: nat)
    requires Allowed(v, CallbackDone(p, keep)) && slot < |v.loopers|
    ensures var w := CallbackSection(v, p, keep);
            |w.loopers| == |v.loopers| && w.loopers[slot].responses == v.loopers[slot].responses
                && w.loopers[slot].at == v.loopers[slot].at && w.loopers[slot].generation == v.loopers[slot].generation
                && p < |w.polls| && w.polls[p].phase.Calling?
  {
  }

  lemma BeginReads(v: View, s: Step, slot: nat, generation: nat)
    requires Inv(v) && Allowed(v, s) && s.PollBegin? && slot < |v.loopers| && ReadingOk(v.loopers[slot])
    ensures var l, m := v.loopers[slot], After(v, s).loopers[slot];
            && ReadingOk(m) && m.generation == l.generation
            && (l.generation == generation ==>
                Idents(Unread(l)) == HandedBy(v, s, slot, generation) + Idents(Unread(m)))
  {
    hide Inv, Took, Idents, Unread;
    var l, w := v.loopers[slot], After(v, s);
    NoIdents(l);
    if slot == s.slot && HasResponse(l) {
      TookServes(l, w.loopers[slot]);
      TookExactly(l);
    }
  }

  lemma LoopReads(v: View, s: Step, slot: nat, generation: nat)
    requires Inv(v) && Allowed(v, s) && s.PollLoop? && slot < |v.loopers| && ReadingOk(v.loopers[slot])
    ensures var l, m := v.loopers[slot], After(v, s).loopers[slot];
            && ReadingOk(m) && m.generation == l.generation
            && (l.generation == generation ==>
                Idents(Unread(l)) == HandedBy(v, s, slot, generation) + Idents(Unread(m)))
  {
    hide Inv, Took, Idents, Unread, Copies;
    var l, w := v.loopers[slot], After(v, s);
    NoIdents(l);
    SameReads(l, w.loopers[slot]);
    if slot == v.polls[s.p].slot && HasResponse(l) && LiveAt(v, slot, v.polls[s.p].generation) {
      TookServes(l, w.loopers[slot]);
      TookExactly(l);
    }
  }

  lemma ReadyReads(v: View, p: nat, ready: seq<bool>, generation: nat)
    requires Inv(v) && Allowed(v, PollReady(p, ready)) && ReadingOk(v.loopers[v.polls[p].slot])
    ensures var s, slot := PollReady(p, ready), v.polls[p].slot;
            var l, m := v.loopers[slot], After(v, s).loopers[slot];
            && ReadingOk(m) && m.generation == l.generation
            && (l.generation == generation && m.owner.Some? ==>
                  Idents(Unread(l) + QueuedBy(v, s, slot, generation))
                  == HandedBy(v, s, slot, generation) + Idents(Unread(m)))
  {
    hide Inv, Took, Idents, Unread, Ready, Queue, ReadingOk;
    var q := v.polls[p];
    NoIdents(v.loopers[q.slot]);
    if LiveAt(v, q.slot, q.generation) { ReadyServes(v, PollReady(p, ready)); }
  }

  lemma ReadyOther(v: View, p: nat, ready: seq<bool>, slot: nat, generation: nat)
    requires Allowed(v, PollReady(p, ready)) && slot < |v.loopers| && slot != v.polls[p].slot
    ensures var s := PollReady(p, ready);
            |After(v, s).loopers| == |v.loopers| && After(v, s).loopers[slot] == v.loopers[slot]
                && HandedBy(v, s, slot, generation) == []
  {
    hide Ready, Queue, Took;
  }

  lemma BatchReads(v: View, p: nat, slot: nat, generation: nat)
    requires Inv(v) && Allowed(v, BatchDone(p)) && slot < |v.loopers| && ReadingOk(v.loopers[slot])
    ensures var s := BatchDone(p);
            var l, m := v.loopers[slot], After(v, s).loopers[slot];
            && ReadingOk(m) && m.generation == l.generation
            && (l.generation == generation ==>
                Idents(Unread(l)) == HandedBy(v, s, slot, generation) + Idents(Unread(m)))
  {
    hide Inv, Took, Idents, Unread;
    var l, w := v.loopers[slot], After(v, BatchDone(p));
    NoIdents(l);
    SameReads(l, w.loopers[slot]);
    if slot == v.polls[p].slot && HasResponse(l) && LiveAt(v, slot, v.polls[p].generation) {
      TookServes(l, w.loopers[slot]);
      TookExactly(l);
    }
  }

  // ---- whole runs: who was reported ready ----

  /** poll() reported the descriptor of `copy` to a poll of that instance, while
      the registration was the one copied. */
  datatype Report = Report(slot: nat, generation: nat, copy: Copy)

  ghost function Reports(v: View, s: Step): set<Report>
    requires Allowed(v, s)
  {
    if s.PollReady? && LiveAt(v, v.polls[s.p].slot, v.polls[s.p].generation) then
      var q := v.polls[s.p];
      set n | 0 <= n < |s.ready| && Reported(v.loopers[q.slot], q.phase.copies, s.ready, n) ::
        Report(q.slot, q.generation, q.phase.copies[n])
    else {}
  }

  /** Some registration without a callback was reported, with that identifier. */
  ghost predicate Answers(log: set<Report>, slot: nat, generation: nat, ident: int) {
    exists c :: Report(slot, generation, c) in log && !c.reg.callback && c.reg.ident == ident
  }

  ghost predicate LooperHistory(l: Looper, slot: nat, log: set<Report>) {
    && ReadingOk(l)
    && (l.owner.Some? ==>
          forall i | 0 <= i < |Unread(l)| :: Answers(log, slot, l.generation, Idents(Unread(l))[i]))
  }

  ghost predicate PollHistory(v: View, q: Poll, log: set<Report>) {
    && q.slot < |v.loopers|
    && InSlotOrder(CopiesOf(q.phase))
    && (LiveAt(v, q.slot, q.generation) ==> v.loopers[q.slot].owner.Some?)
    && (q.phase.Calling? ==>
          forall c | c in q.phase.batch :: Report(q.slot, q.generation, c) in log && c.reg.callback)
    && (ReturnsIdent(q) ==> Answers(log, q.slot, q.generation, q.phase.result.ident))
  }

  ghost predicate History(v: View, log: set<Report>) {
    && (forall k | 0 <= k < |v.loopers| :: LooperHistory(v.loopers[k], k, log))
    && (forall p | 0 <= p < |v.polls| :: PollHistory(v, v.polls[p], log))
  }

  /** What a step queues was reported. */
  lemma QueuedWereReported(v: View, s: Step, slot: nat, generation: nat, i: nat)
    requires Inv(v) && Allowed(v, s) && i < |QueuedBy(v, s, slot, generation)|
    requires s.PollReady? ==> InSlotOrder(v.polls[s.p].phase.copies)
    ensures Answers(Reports(v, s), slot, generation, QueuedBy(v, s, slot, generation)[i].ident)
  {
    hide Ready, RegsOk, WakesOk, CookieOk, Reported, CopyOk;
    var q := v.polls[s.p];
    var l := v.loopers[slot];
    CopiesStayOk(v, s.p);
    assert CopiesOf(q.phase) == q.phase.copies;
    ReadyExactly(l, q.phase.copies, s.ready, false);
    var c := Ready(l, q.phase.copies, s.ready, false)[i];
    assert Passes(l, q.phase.copies, s.ready, false, c);
    var n :| 0 <= n < |q.phase.copies| && Reported(l, q.phase.copies, s.ready, n) && q.phase.copies[n] == c;
    assert Report(slot, generation, c) in Reports(v, s);
  }

  lemma CopiesStayOk(v: View, p: nat)
    requires Inv(v) && p < |v.polls|
    ensures v.polls[p].slot < |v.loopers|
    ensures forall i | 0 <= i < |CopiesOf(v.polls[p].phase)| ::
              CopyOk(v.loopers[v.polls[p].slot], CopiesOf(v.polls[p].phase)[i])
  {
    hide CopyOk, RegsOk, WakesOk, CookieOk;
    assert PollOk(v, v.polls[p]);
  }

  /** What a step makes of the looper in a slot. */
  lemma LooperHistoryKept(v: View, s: Step, slot: nat, log: set<Report>)
    requires Inv(v) && Allowed(v, s) && History(v, log) && slot < |v.loopers|
    ensures slot < |After(v, s).loopers| && LooperHistory(After(v, s).loopers[slot], slot, log + Reports(v, s))
  {
    hide Inv, After, Allowed, Unread, Reports, QueuedBy, HandedBy, ReadingOk, PollHistory;
    var l, generation := v.loopers[slot], v.loopers[slot].generation;
    var all := log + Reports(v, s);
    assert LooperHistory(l, slot, log);
    UnreadMoves(v, s, slot, generation);
    StepFollows(v, s, slot);
    var m := After(v, s).loopers[slot];
    if m.owner.Some? && m.generation == generation {
      var given, queued := HandedBy(v, s, slot, generation), QueuedBy(v, s, slot, generation);
      forall i | 0 <= i < |Unread(m)| ensures Answers(all, slot, generation, Idents(Unread(m))[i]) {
        var j := |given| + i;
        assert Idents(Unread(m))[i] == Idents(Unread(l) + queued)[j];
        if j < |Unread(l)| {
          AnswersMore(log, all, slot, generation, Idents(Unread(l))[j]);
        } else {
          OrderIfReady(v, s, log);
          QueuedWereReported(v, s, slot, generation, j - |Unread(l)|);
          AnswersMore(Reports(v, s), all, slot, generation, queued[j - |Unread(l)|].ident);
        }
      }
    }
  }

  lemma AnswersMore(log: set<Report>, all: set<Report>, slot: nat, generation: nat, ident: int)
    requires log <= all && Answers(log, slot, generation, ident)
    ensures Answers(all, slot, generation, ident)
  {
  }

  lemma OrderIfReady(v: View, s: Step, log: set<Report>)
    requires Allowed(v, s) && History(v, log)
    ensures s.PollReady? ==> InSlotOrder(v.polls[s.p].phase.copies)
  {
    if s.PollReady? { assert PollHistory(v, v.polls[s.p], log); }
  }

  /** A step changes the poll it is about and no other. */
  lemma PollsMove(v: View, s: Step, p: nat)
    requires Allowed(v, s) && p < |After(v, s).polls|
    ensures |After(v, s).polls| >= |v.polls|
    ensures p >= |v.polls| ==> PollOf(v, s) == Some(p) && s.PollBegin?
    ensures p < |v.polls| && PollOf(v, s) != Some(p) ==> After(v, s).polls[p] == v.polls[p]
    ensures p < |v.polls| ==>
              After(v, s).polls[p].slot == v.polls[p].slot && After(v, s).polls[p].generation == v.polls[p].generation
  {
    hide Retire, Allocate, Disassociate, AddFd, RemoveFd, Took, Ready, Queue, Copies, CurrentOf;
  }

  /** A poll returns an identifier only while its instance lives, and leaves it living. */
  lemma IdentFromLive(v: View, s: Step, p: nat)
    requires Inv(v) && Allowed(v, s) && PollOf(v, s) == Some(p) && p < |After(v, s).polls|
    requires ReturnsIdent(After(v, s).polls[p])
    ensures var q, w := After(v, s).polls[p], After(v, s);
            && LiveAt(v, q.slot, q.generation) && |w.loopers| == |v.loopers|
            && w.loopers[q.slot].generation == q.generation
            && w.loopers[q.slot].owner == v.loopers[q.slot].owner
  {
    hide Inv, Ready, Queue, Copies;
    if s.PollReady? {
      var l := v.loopers[v.polls[s.p].slot];
      QueueExactly(l, Ready(l, v.polls[s.p].phase.copies, s.ready, false));
    }
  }

  /** So what it returns was reported. */
  lemma IdentWasReported(v: View, s: Step, p: nat, log: set<Report>)
    requires Inv(v) && Allowed(v, s) && History(v, log) && PollOf(v, s) == Some(p) && p < |After(v, s).polls|
    requires ReturnsIdent(After(v, s).polls[p])
    requires LiveAt(v, After(v, s).polls[p].slot, After(v, s).polls[p].generation) ==>
               v.loopers[After(v, s).polls[p].slot].owner.Some?
    ensures var q := After(v, s).polls[p];
            Answers(log + Reports(v, s), q.slot, q.generation, q.phase.result.ident)
  {
    hide Inv, After, Allowed, Unread, Reports, QueuedBy, ReadingOk, PollHistory, History;
    var q, w := After(v, s).polls[p], After(v, s);
    var all := log + Reports(v, s);
    IdentFromLive(v, s, p);
    OneLooper(v, log, q.slot);
    UnreadMoves(v, s, q.slot, q.generation);
    var l, queued := v.loopers[q.slot], QueuedBy(v, s, q.slot, q.generation);
    assert HandedBy(v, s, q.slot, q.generation) == [q.phase.result.ident];
    assert Idents(Unread(l) + queued)[0] == q.phase.result.ident;
    if Unread(l) != [] {
      assert Idents(Unread(l))[0] == q.phase.result.ident;
      AnswersMore(log, all, q.slot, q.generation, q.phase.result.ident);
    } else {
      OrderIfReady(v, s, log);
      QueuedWereReported(v, s, q.slot, q.generation, 0);
      AnswersMore(Reports(v, s), all, q.slot, q.generation, q.phase.result.ident);
    }
  }

  lemma OneLooper(v: View, log: set<Report>, slot: nat)
    requires History(v, log) && slot < |v.loopers|
    ensures LooperHistory(v.loopers[slot], slot, log)
  {
  }

  /** The batch is made of what was reported. */
  lemma BatchWasReported(v: View, p: nat, ready: seq<bool>, log: set<Report>)
    requires Inv(v) && Allowed(v, PollReady(p, ready)) && InSlotOrder(v.polls[p].phase.copies)
    requires LiveAt(v, v.polls[p].slot, v.polls[p].generation)
    ensures var q := v.polls[p];
            var batch := Ready(v.loopers[q.slot], q.phase.copies, ready, true);
            && InSlotOrder(batch)
            && forall c | c in batch ::
                 Report(q.slot, q.generation, c) in Reports(v, PollReady(p, ready)) && c.reg.callback
  {
    hide Ready, Reported, CopyOk, Inv;
    var q := v.polls[p];
    var l := v.loopers[q.slot];
    CopiesStayOk(v, p);
    assert CopiesOf(q.phase) == q.phase.copies;
    ReadyExactly(l, q.phase.copies, ready, true);
    forall c | c in Ready(l, q.phase.copies, ready, true)
      ensures Report(q.slot, q.generation, c) in Reports(v, PollReady(p, ready)) && c.reg.callback
    {
      assert Passes(l, q.phase.copies, ready, true, c);
      var n :| 0 <= n < |q.phase.copies| && Reported(l, q.phase.copies, ready, n) && q.phase.copies[n] == c;
      assert Report(q.slot, q.generation, c) in Reports(v, PollReady(p, ready));
    }
  }

  /** A poll a step is not about. */
  lemma OtherPollKept(v: View, w: View, q: Poll, log: set<Report>, all: set<Report>)
    requires PollOk(v, q) && PollHistory(v, q, log) && log <= all && |w.loopers| == |v.loopers|
    requires Follows(v.loopers[q.slot], w.loopers[q.slot])
    ensures PollHistory(w, q, all)
  {
    hide CopyOk;
    if ReturnsIdent(q) { AnswersMore(log, all, q.slot, q.generation, q.phase.result.ident); }
  }

  /** The phases a poll can come to. */
  lemma PhasesMove(v: View, s: Step, p: nat)
    requires Allowed(v, s) && PollOf(v, s) == Some(p) && p < |After(v, s).polls|
    ensures var q := After(v, s).polls[p];
            && (s.PollBegin? ==> LiveAt(v, q.slot, q.generation) && v.loopers[q.slot].owner.Some?)
            && (q.phase.Waiting? ==> q.slot < |v.loopers| && q.phase.copies == Copies(v.loopers[q.slot].fds))
            && (q.phase.Calling? ==>
                  || (s.CallbackDone? && v.polls[p].phase.Calling? && q.phase.batch == v.polls[p].phase.batch)
                  || (s.PollReady? && LiveAt(v, q.slot, q.generation)
                      && q.phase.batch == Ready(v.loopers[q.slot], v.polls[p].phase.copies, s.ready, true)))
  {
    hide Took, Ready, Queue, Copies;
  }

  lemma PollHistoryKept(v: View, s: Step, p: nat, log: set<Report>)
    requires Inv(v) && Allowed(v, s) && History(v, log) && p < |After(v, s).polls|
    ensures PollHistory(After(v, s), After(v, s).polls[p], log + Reports(v, s))
  {
    hide Inv, After, Allowed, Reports, Follows, Ready, Copies, PollOk;
    var w, q, all := After(v, s), After(v, s).polls[p], log + Reports(v, s);
    PollsMove(v, s, p);
    if p < |v.polls| {
      PollInTable(v, p);
      StepFollows(v, s, v.polls[p].slot);
      OtherPollKept(v, w, v.polls[p], log, all);
    }
    if PollOf(v, s) == Some(p) {
      PhasesMove(v, s, p);
      if ReturnsIdent(q) { IdentWasReported(v, s, p, log); }
      if q.phase.Waiting? { CopiesExactly(v.loopers[q.slot].fds); }
      if q.phase.Calling? && s.PollReady? {
        OrderIfReady(v, s, log);
        BatchWasReported(v, p, s.ready, log);
      }
      if s.PollBegin? {
        StepFollows(v, s, q.slot);
        OwnerKept(v, w, q.slot);
      }
    }
  }

  lemma OwnerKept(v: View, w: View, slot: nat)
    requires slot < |v.loopers| == |w.loopers| && Follows(v.loopers[slot], w.loopers[slot])
    ensures v.loopers[slot].generation == w.loopers[slot].generation ==>
              w.loopers[slot].owner == v.loopers[slot].owner
  {
  }

  lemma PollInTable(v: View, p: nat)
    requires Inv(v) && p < |v.polls|
    ensures PollOk(v, v.polls[p]) && v.polls[p].slot < |v.loopers|
  {
    hide CopyOk, RegsOk, WakesOk, CookieOk;
  }

  lemma HistoryKept(v: View, s: Step, log: set<Report>)
    requires Inv(v) && Allowed(v, s) && History(v, log)
    ensures History(After(v, s), log + Reports(v, s))
  {
    hide Inv, After, Allowed, Reports, LooperHistory, PollHistory;
    var w, all := After(v, s), log + Reports(v, s);
    forall k | 0 <= k < |w.loopers| ensures LooperHistory(w.loopers[k], k, all) {
      SlotsStay(v, s);
      LooperHistoryKept(v, s, k, log);
    }
    forall p | 0 <= p < |w.polls| ensures PollHistory(w, w.polls[p], all) { PollHistoryKept(v, s, p, log); }
  }

  lemma SlotsStay(v: View, s: Step)
    requires Inv(v) && Allowed(v, s)
    ensures |After(v, s).loopers| == |v.loopers|
  {
    hide Inv, Follows, After, Allowed;
    if v.loopers != [] { StepFollows(v, s, 0); } else { NoLoopers(v, s); }
  }

  lemma NoLoopers(v: View, s: Step)
    requires Allowed(v, s) && v.loopers == []
    ensures After(v, s).loopers == []
  {
  }

  /** Everything poll() reported in a run. */
  ghost function AllReports(v: View, steps: seq<Step>): set<Report>
    requires exists w :: Runs(v, steps, w)
    decreases |steps|
  {
    if steps == [] then {}
    else
      FirstStep(v, steps);
      Reports(v, steps[0]) + AllReports(After(v, steps[0]), steps[1..])
  }

  lemma FirstStep(v: View, steps: seq<Step>)
    requires steps != [] && exists w :: Runs(v, steps, w)
    ensures Allowed(v, steps[0]) && exists w :: Runs(After(v, steps[0]), steps[1..], w)
  {
    var w :| Runs(v, steps, w);
    assert Runs(After(v, steps[0]), steps[1..], w);
  }

  lemma {:induction false} HistoryOver(v: View, steps: seq<Step>, w: View, log: set<Report>)
    requires Inv(v) && Runs(v, steps, w) && History(v, log)
    ensures History(w, log + AllReports(v, steps))
    decreases |steps|
  {
    hide Inv, After, Allowed, Reports, History;
    if steps == [] {
      assert log + AllReports(v, steps) == log;
    } else {
      StepKeeps(v, steps[0]);
      HistoryKept(v, steps[0], log);
      HistoryOver(After(v, steps[0]), steps[1..], w, log + Reports(v, steps[0]));
      assert log + AllReports(v, steps) == log + Reports(v, steps[0]) + AllReports(After(v, steps[0]), steps[1..]);
    }
  }

  /** Over a whole run: a poll returns an identifier only of a registration without
      a callback whose descriptor was reported ready for that looper instance, and
      every callback a poll runs is one of a registration reported ready for it. */
  lemma OnlyReadyIsDispatched(v: View, steps: seq<Step>, w: View, p: nat)
    requires Fresh(v) && Runs(v, steps, w) && p < |w.polls|
    ensures var q, log := w.polls[p], AllReports(v, steps);
            && (q.phase.Returned? && q.phase.result.Ident? ==>
                  exists c :: Report(q.slot, q.generation, c) in log && !c.reg.callback
                              && c.reg.ident == q.phase.result.ident)
            && (q.phase.Calling? && q.phase.at < |q.phase.batch| ==>
                  var c := q.phase.batch[q.phase.at];
                  Report(q.slot, q.generation, c) in log && c.reg.callback)
            && (q.phase.Calling? ==> InSlotOrder(q.phase.batch))
  {
    hide Inv, Runs, AllReports, LooperHistory;
    FreshInv(v);
    assert History(v, {}) by { FreshHistory(v); }
    HistoryOver(v, steps, w, {});
    assert {} + AllReports(v, steps) == AllReports(v, steps);
    assert PollHistory(w, w.polls[p], AllReports(v, steps));
  }

  lemma FreshHistory(v: View)
    requires Fresh(v)
    ensures History(v, {})
  {
  }

  // ---- whole runs: in the order queued ----

  /** The identifiers queued for an instance in a run, and those its polls returned. */
  ghost function Queued(v: View, steps: seq<Step>, slot: nat, generation: nat): seq<int>
    requires exists w :: Runs(v, steps, w)
    decreases |steps|
  {
    if steps == [] then []
    else
      FirstStep(v, steps);
      Idents(QueuedBy(v, steps[0], slot, generation)) + Queued(After(v, steps[0]), steps[1..], slot, generation)
  }

  ghost function Handed(v: View, steps: seq<Step>, slot: nat, generation: nat): seq<int>
    requires exists w :: Runs(v, steps, w)
    decreases |steps|
  {
    if steps == [] then []
    else
      FirstStep(v, steps);
      HandedBy(v, steps[0], slot, generation) + Handed(After(v, steps[0]), steps[1..], slot, generation)
  }

  /** How the identifiers queued and handed out so far stand to those waiting. */
  predicate InStep(v: View, slot: nat, generation: nat, queued: seq<int>, handed: seq<int>) {
    && slot < |v.loopers| && ReadingOk(v.loopers[slot])
    && (v.loopers[slot].generation < generation ==> queued == handed == [])
    && (v.loopers[slot].generation == generation && v.loopers[slot].owner.Some? ==>
          queued == handed + Idents(Unread(v.loopers[slot])))
  }

  lemma InStepKept(v: View, s: Step, slot: nat, generation: nat, queued: seq<int>, handed: seq<int>)
    requires Inv(v) && Allowed(v, s) && InStep(v, slot, generation, queued, handed)
    ensures InStep(After(v, s), slot, generation,
                   queued + Idents(QueuedBy(v, s, slot, generation)), handed + HandedBy(v, s, slot, generation))
  {
    hide Inv, After, Allowed, Unread, QueuedBy, HandedBy, ReadingOk;
    UnreadMoves(v, s, slot, generation);
    StepFollows(v, s, slot);
    var l, m := v.loopers[slot], After(v, s).loopers[slot];
    var more, given := QueuedBy(v, s, slot, generation), HandedBy(v, s, slot, generation);
    OwnerKept(v, After(v, s), slot);
    if l.generation < generation { NotYet(v, s, slot, generation); }
    if l.generation == m.generation == generation && m.owner.Some? {
      calc {
        queued + Idents(more);
        handed + Idents(Unread(l)) + Idents(more);
        { assert Idents(Unread(l) + more) == Idents(Unread(l)) + Idents(more); }
        handed + Idents(Unread(l) + more);
        handed + given + Idents(Unread(m));
      }
    }
  }

  /** Nothing is queued for or handed to an instance that is yet to come. */
  lemma NotYet(v: View, s: Step, slot: nat, generation: nat)
    requires Inv(v) && Allowed(v, s) && slot < |v.loopers| && v.loopers[slot].generation < generation
    ensures QueuedBy(v, s, slot, generation) == [] && HandedBy(v, s, slot, generation) == []
  {
    hide Inv, After, Allowed;
    var p := PollOf(v, s);
    if HandedBy(v, s, slot, generation) != [] { IdentFromLive(v, s, p.value); }
  }

  lemma {:induction false} InStepOver(v: View, steps: seq<Step>, w: View, slot: nat, generation: nat,
                                      queued: seq<int>, handed: seq<int>)
    requires Inv(v) && Runs(v, steps, w) && InStep(v, slot, generation, queued, handed)
    ensures InStep(w, slot, generation,
                   queued + Queued(v, steps, slot, generation), handed + Handed(v, steps, slot, generation))
    decreases |steps|
  {
    hide Inv, After, Allowed, QueuedBy, HandedBy, InStep;
    if steps == [] {
      assert queued + [] == queued && handed + [] == handed;
    } else {
      var u, s := After(v, steps[0]), steps[0];
      StepKeeps(v, s);
      InStepKept(v, s, slot, generation, queued, handed);
      var more, given := Idents(QueuedBy(v, s, slot, generation)), HandedBy(v, s, slot, generation);
      InStepOver(u, steps[1..], w, slot, generation, queued + more, handed + given);
      assert queued + Queued(v, steps, slot, generation)
          == queued + more + Queued(u, steps[1..], slot, generation);
      assert handed + Handed(v, steps, slot, generation)
          == handed + given + Handed(u, steps[1..], slot, generation);
    }
  }

  /** Over a whole run: the polls of a living instance return the identifiers
      queued for it, each once and in the order queued; what they have not
      returned still waits. */
  lemma IdentsInOrder(v: View, steps: seq<Step>, w: View, slot: nat)
    requires Fresh(v) && Runs(v, steps, w) && slot < |v.loopers| && slot < |w.loopers|
    requires w.loopers[slot].used && w.loopers[slot].owner.Some?
    ensures var g := w.loopers[slot].generation;
            Queued(v, steps, slot, g) == Handed(v, steps, slot, g) + Idents(Unread(w.loopers[slot]))
  {
    hide Inv, Runs, Queued, Handed, Idents;
    FreshInv(v);
    var g := w.loopers[slot].generation;
    assert InStep(v, slot, g, [], []) by { FreshHistory(v); }
    InStepOver(v, steps, w, slot, g, [], []);
    assert [] + Queued(v, steps, slot, g) == Queued(v, steps, slot, g);
    assert [] + Handed(v, steps, slot, g) == Handed(v, steps, slot, g);
  }

  // ---- how an instance ends ----

  /** The thread-key destructor of the instance's own thread. */
  predicate ExitsFrom(v: View, s: Step, slot: nat, generation: nat)
    requires Allowed(v, s)
  {
    s.ThreadExit? && v.cookies[s.t].value == Cookie(slot, generation)
  }

  /** An instance lives on until its thread exits or its last reference is
      released; meanwhile only acquiring and releasing move its references. */
  lemma EndsExactly(v: View, s: Step, slot: nat, generation: nat)
    requires Inv(v) && Allowed(v, s) && LiveAt(v, slot, generation)
    ensures var l, w := v.loopers[slot], After(v, s);
            && (LiveAt(w, slot, generation) <==>
                  !(s == Release(slot) && l.refs == 1) && !ExitsFrom(v, s, slot, generation))
            && (LiveAt(w, slot, generation) && l.refs > 0 ==>
                  w.loopers[slot].refs ==
                  l.refs + (if s == Acquire(slot) then 1 else 0) - (if s == Release(slot) then 1 else 0))
  {
    hide Inv, Ready, Queue, Copies, Retire, Disassociate, FindFd, FindUnused, Allocate;
    var l := v.loopers[slot];
    RetireMovesOn(l);
    DisassociateMovesOn(l);
    if s.PollReady? {
      var m := v.loopers[v.polls[s.p].slot];
      QueueExactly(m, Ready(m, v.polls[s.p].phase.copies, s.ready, false));
    }
    if s.Prepare? { AllocateMovesOn(v.loopers[s.slot], s.t, s.allow); }
  }

  // ---- how the section after poll() ends ----

  /** Ready callbacks come before identifiers, identifiers before a wake, and only
      without any of them is the clock read. */
  lemma ReadyOutcome(v: View, p: nat, ready: seq<bool>)
    requires Inv(v) && Allowed(v, PollReady(p, ready)) && InSlotOrder(v.polls[p].phase.copies)
    requires ReadingOk(v.loopers[v.polls[p].slot])
    ensures var q, phase := v.polls[p], After(v, PollReady(p, ready)).polls[p].phase;
            var l, live := v.loopers[q.slot], LiveAt(v, q.slot, q.generation);
            var calls := exists c | c in q.phase.copies :: Passes(l, q.phase.copies, ready, true, c);
            var quiet := exists c | c in q.phase.copies :: Passes(l, q.phase.copies, ready, false, c);
            var idents := Unread(l) != [] || quiet;
            && (phase == Returned(Error) <==> !live)
            && (phase.Calling? <==> live && calls)
            && (phase.Calling? ==> forall c :: c in phase.batch <==> Passes(l, q.phase.copies, ready, true, c))
            && (phase.Returned? && phase.result.Ident? <==> live && !calls && idents)
            && (phase == Returned(WakeResult) <==> live && !calls && !idents && HasWake(l))
            && (phase == Clocking <==> live && !calls && !idents && !HasWake(l))
  {
    hide Inv, Ready, Queue, Passes, CopyOk, Took;
    var q := v.polls[p];
    var l := v.loopers[q.slot];
    CopiesStayOk(v, p);
    assert CopiesOf(q.phase) == q.phase.copies;
    ReadyExactly(l, q.phase.copies, ready, true);
    ReadyExactly(l, q.phase.copies, ready, false);
    var batch, quiet := Ready(l, q.phase.copies, ready, true), Ready(l, q.phase.copies, ready, false);
    QueueExactly(l, quiet);
    if batch != [] { PassesIsCopy(l, q.phase.copies, ready, true, batch[0]); }
    if quiet != [] {
      assert quiet[0] in quiet;
      PassesIsCopy(l, q.phase.copies, ready, false, quiet[0]);
    }
  }
}
