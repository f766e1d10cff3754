/** The descriptor table of open pack files (source/asset_pack.c lines 693 to
    909 and 1176 to 1198) as a protocol: threads take one critical section at a
    time, and a condition wait is a section that cannot run yet. */
module PackHandles {
  import opened Counting
  import opened Bytes

  datatype SlotState = Free | Active | Closing

  /** `ops` counts the operations under way on the slot (its pins). */
  datatype Slot = Slot(state: SlotState, fd: int, ops: nat, file: nat)

  /** Where each thread is. A pin remembers the open file found with it. */
  datatype Thread =
    | Idle
    | Opening(file: nat)                                          // created, not yet installed
    | Using(slot: nat, file: nat)                                 // reading, or duplicating
    | Moving(slot: nat, file: nat, target: int, ours: Option<nat>) // dup2: `ours` is the target slot it drains
    | Moved(slot: nat, file: nat, retired: Option<nat>)           // dup2: table updated
    | Draining(slot: nat)                                         // close: waits for the pins to go
    | Retiring(file: nat)                                         // about to free an open file

  datatype View = View(
    slots: seq<Slot>,
    files: map<nat, nat>,      // open files in memory and their `references`
    destroyed: set<nat>,
    nextFile: nat,
    threads: seq<Thread>,
    dupLock: Option<nat>)

  // ---- who holds what ----

  predicate Holds(s: Slot, f: nat) { s.state != Free && s.file == f }

  predicate Pins(t: Thread, k: nat) { (t.Using? || t.Moving? || t.Moved?) && t.slot == k }

  /** Thread `t` put slot `k` into Closing. */
  predicate Empties(t: Thread, k: nat) { (t.Draining? && t.slot == k) || (t.Moving? && t.ours == Some(k)) }

  /** Thread `t` must still install or free open file `f`. */
  predicate Owes(t: Thread, f: nat) {
    ((t.Opening? || t.Retiring?) && t.file == f) || (t.Moved? && t.retired == Some(f))
  }

  function Holding(f: nat): Slot -> bool { (s: Slot) => Holds(s, f) }

  function Pinning(k: nat): Thread -> bool { (t: Thread) => Pins(t, k) }

  function Emptying(k: nat): Thread -> bool { (t: Thread) => Empties(t, k) }

  function Owing(f: nat): Thread -> bool { (t: Thread) => Owes(t, f) }

  predicate InSlot(v: View, k: nat) { k < |v.slots| && v.slots[k].state != Free }

  /** A thread's program point agrees with the table. */
  ghost predicate ThreadOk(v: View, p: nat)
    requires p < |v.threads|
  {
    match v.threads[p]
    case Idle => true
    case Opening(f) => f in v.files
    case Retiring(f) => f in v.files
    case Using(k, f) => InSlot(v, k) && v.slots[k].file == f
    case Draining(k) => InSlot(v, k) && v.slots[k].state == Closing
    case Moving(k, f, target, ours) =>
      && target >= 0 && InSlot(v, k) && v.slots[k].file == f && v.slots[k].fd != target && v.dupLock == Some(p)
      && (ours.Some? ==> InSlot(v, ours.value) && v.slots[ours.value].state == Closing
                         && v.slots[ours.value].fd == target)
    case Moved(k, f, retired) =>
      && InSlot(v, k) && v.slots[k].file == f && v.dupLock == Some(p)
      && (retired.Some? ==> retired.value in v.files)
  }

  ghost predicate FdsDistinct(slots: seq<Slot>) {
    forall i, j | 0 <= i < j < |slots| && slots[i].state != Free && slots[j].state != Free :: slots[i].fd != slots[j].fd
  }

  ghost predicate CountsRight(v: View) {
    && (forall f | f in v.files :: v.files[f] == Count(v.slots, Holding(f)))
    && (forall k | 0 <= k < |v.slots| :: v.slots[k].ops == Count(v.threads, Pinning(k)))
    && (forall k | 0 <= k < |v.slots| :: Count(v.threads, Emptying(k)) == One(v.slots[k].state == Closing))
    && (forall f | f in v.files :: Count(v.threads, Owing(f)) == One(v.files[f] == 0))
  }

  ghost predicate Inv(v: View) {
    && FdsDistinct(v.slots)
    && (forall k | 0 <= k < |v.slots| && v.slots[k].state != Free :: v.slots[k].file in v.files)
    && CountsRight(v)
    && (forall p | 0 <= p < |v.threads| :: ThreadOk(v, p))
    && (v.dupLock.Some? ==> v.dupLock.value < |v.threads|
                            && var t := v.threads[v.dupLock.value]; t.Moving? || t.Moved?)
    && v.files.Keys !! v.destroyed
    && (forall f: nat :: f < v.nextFile <==> f in v.files || f in v.destroyed)
  }

  // ---- table searches ----

  /** The slot `find_handle_locked` returns. */
  ghost predicate Found(slots: seq<Slot>, fd: int, includeClosing: bool, k: nat) {
    && k < |slots| && slots[k].fd == fd && fd >= 0
    && (slots[k].state == Active || (includeClosing && slots[k].state == Closing))
  }

  ghost predicate NotFound(slots: seq<Slot>, fd: int, includeClosing: bool) {
    forall k: nat :: !Found(slots, fd, includeClosing, k)
  }

  // ---- what descriptors name ----

  /** The open file `fd` names: that of its slot. A slot that is being closed or
      replaced still names its file to the calls that pinned it. */
  ghost function FileOf(slots: seq<Slot>, fd: int): Option<nat> {
    if k :| 0 <= k < |slots| && slots[k].state != Free && slots[k].fd == fd then Some(slots[k].file) else None
  }

  /** What a new call finds: closing descriptors are out of reach. */
  ghost function Opens(slots: seq<Slot>, fd: int): Option<nat> {
    if k :| 0 <= k < |slots| && slots[k].state == Active && slots[k].fd == fd then Some(slots[k].file) else None
  }

  /** No descriptor names, or opens, another file than before. */
  ghost predicate NamesKept(before: seq<Slot>, after: seq<Slot>) {
    forall fd: int :: FileOf(after, fd) == FileOf(before, fd) && Opens(after, fd) == Opens(before, fd)
  }

  /** Descriptor `target` names `named` and is found to open `found`; no other one changed. */
  ghost predicate OnlyChanged(before: seq<Slot>, after: seq<Slot>, target: int, named: Option<nat>,
                              found: Option<nat>) {
    && FileOf(after, target) == named && Opens(after, target) == found
    && forall fd: int | fd != target :: FileOf(after, fd) == FileOf(before, fd) && Opens(after, fd) == Opens(before, fd)
  }

  /** One reference moved from open file `from` to open file `to`, if there are such. */
  ghost predicate ReferenceMoved(before: map<nat, nat>, after: map<nat, nat>, from: Option<nat>, to: Option<nat>) {
    && after.Keys == before.Keys
    && forall f | f in before :: after[f] + One(from == Some(f)) == before[f] + One(to == Some(f))
  }

  lemma FileOfSlot(slots: seq<Slot>, k: nat)
    requires FdsDistinct(slots) && k < |slots| && slots[k].state != Free
    ensures FileOf(slots, slots[k].fd) == Some(slots[k].file)
    ensures Opens(slots, slots[k].fd) == if slots[k].state == Active then Some(slots[k].file) else None
  {
    var fd := slots[k].fd;
    assert exists m :: 0 <= m < |slots| && slots[m].state != Free && slots[m].fd == fd;
    assert forall m | 0 <= m < |slots| && slots[m].state != Free && slots[m].fd == fd :: m == k;
  }

  /** What every descriptor names after one slot changed. */
  lemma SlotChanged(slots: seq<Slot>, k: nat, x: Slot, fd: int)
    requires k < |slots| && FdsDistinct(slots) && FdsDistinct(slots[k := x])
    ensures FileOf(slots[k := x], fd) ==
              if x.state != Free && x.fd == fd then Some(x.file)
              else if slots[k].state != Free && slots[k].fd == fd then None
              else FileOf(slots, fd)
    ensures Opens(slots[k := x], fd) ==
              if x.state == Active && x.fd == fd then Some(x.file)
              else if x.state != Free && x.fd == fd then None
              else if slots[k].state == Active && slots[k].fd == fd then None
              else Opens(slots, fd)
  {
    var after := slots[k := x];
    if x.state != Free && x.fd == fd {
      FileOfSlot(after, k);
    } else if slots[k].state != Free && slots[k].fd == fd {
      FileOfSlot(slots, k);
      forall m | 0 <= m < |after| ensures after[m].state == Free || after[m].fd != fd {
        if m != k { assert after[m] == slots[m]; }
      }
    } else if exists m :: 0 <= m < |slots| && slots[m].state != Free && slots[m].fd == fd {
      var m :| 0 <= m < |slots| && slots[m].state != Free && slots[m].fd == fd;
      assert after[m] == slots[m];
      FileOfSlot(slots, m);
      FileOfSlot(after, m);
    } else {
      forall m | 0 <= m < |after| ensures after[m].state == Free || after[m].fd != fd {
        if m != k { assert after[m] == slots[m]; }
      }
    }
  }

  // ---- critical sections ----

  datatype Step =
    | Create
    | Install(fd: int, into: Option<nat>)  // the free slot used; None: table full or fd taken
    | Pin(k: nat)
    | Unpin
    | BeginClose(k: nat)
    | FinishClose
    | Destroy
    | BeginDup2(k: nat, target: int, openOk: bool)   // pins the source and opens a native descriptor
    | ClaimTarget(t: nat)                  // the target is open: start draining it
    | FillTarget(into: Option<nat>)        // the target is unused: take a slot, or fail
    | ReplaceTarget(nativeOk: bool)        // the drained target gets the source's open file
    | EndDup2

  function SetThread(v: View, p: nat, t: Thread): View
    requires p < |v.threads|
  {
    v.(threads := v.threads[p := t])
  }

  function SetSlot(v: View, k: nat, s: Slot): View
    requires k < |v.slots|
  {
    v.(slots := v.slots[k := s])
  }

  function AddReference(v: View, f: nat): View
    requires f in v.files
  {
    v.(files := v.files[f := v.files[f] + 1])
  }

  function DropReference(v: View, f: nat): View
    requires f in v.files && v.files[f] > 0
  {
    v.(files := v.files[f := v.files[f] - 1])
  }

  /** Slot `k` takes over `fd` and one more reference to `f`. */
  function PutHandle(v: View, k: nat, fd: int, f: nat): View
    requires k < |v.slots| && f in v.files
  {
    AddReference(SetSlot(v, k, Slot(Active, fd, 0, f)), f)
  }

  /** May thread `p` run this section now? Waiting is not being allowed to. */
  ghost predicate Enabled(v: View, p: nat, step: Step) {
    && p < |v.threads|
    && var t := v.threads[p];
       match step
       case Create => t.Idle?
       case Install(fd, into) =>
         && (t.Opening? || t.Using?) && fd >= 0
         && (into.Some? <==> NotFound(v.slots, fd, true) && exists m :: 0 <= m < |v.slots| && v.slots[m].state == Free)
         && (into.Some? ==> into.value < |v.slots| && v.slots[into.value].state == Free)
       case Pin(k) => t.Idle? && k < |v.slots| && v.slots[k].state == Active
       case Unpin => t.Using?
       case BeginClose(k) => t.Idle? && k < |v.slots| && v.slots[k].state == Active
       case FinishClose => t.Draining? && t.slot < |v.slots| && v.slots[t.slot].ops == 0
       case Destroy => t.Retiring? || (t.Moved? && t.retired.Some?)
       case BeginDup2(k, target, _) =>
         && t.Idle? && v.dupLock == None && target >= 0
         && k < |v.slots| && v.slots[k].state == Active && v.slots[k].fd != target
       case ClaimTarget(m) => t.Moving? && t.ours == None && m < |v.slots| && v.slots[m].state == Active
         && v.slots[m].fd == t.target
       case FillTarget(into) =>
         && t.Moving? && t.ours == None && NotFound(v.slots, t.target, true)
         && (into.Some? ==> into.value < |v.slots| && v.slots[into.value].state == Free)
       case ReplaceTarget(_) => t.Moving? && t.ours.Some? && t.ours.value < |v.slots| && v.slots[t.ours.value].ops == 0
       case EndDup2 => t.Moved? && t.retired == None
  }

  /** The state after the section. */
  ghost function After(v: View, p: nat, step: Step): View
    requires Inv(v) && Enabled(v, p, step)
  {
    assert ThreadOk(v, p);
    var t := v.threads[p];
    match step
    case Create =>
      SetThread(v.(files := v.files[v.nextFile := 0], nextFile := v.nextFile + 1), p, Opening(v.nextFile))
    case Install(fd, into) =>
      var next := if t.Using? then t else if into.Some? then Idle else Retiring(t.file);
      SetThread(if into.Some? then PutHandle(v, into.value, fd, t.file) else v, p, next)
    case Pin(k) =>
      SetThread(SetSlot(v, k, v.slots[k].(ops := v.slots[k].ops + 1)), p, Using(k, v.slots[k].file))
    case Unpin =>
      SetThread(Released(v, p, t.slot), p, Idle)
    case BeginClose(k) =>
      SetThread(SetSlot(v, k, v.slots[k].(state := Closing)), p, Draining(k))
    case FinishClose =>
      var f := v.slots[t.slot].file;
      Referenced(v, t.slot);
      var w := DropReference(SetSlot(v, t.slot, Slot(Free, -1, 0, 0)), f);
      SetThread(w, p, if w.files[f] == 0 then Retiring(f) else Idle)
    case Destroy =>
      var f := if t.Retiring? then t.file else t.retired.value;
      SetThread(v.(files := v.files - {f}, destroyed := v.destroyed + {f}), p,
                if t.Retiring? then Idle else t.(retired := None))
    case BeginDup2(k, target, openOk) =>
      var w := SetSlot(v, k, v.slots[k].(ops := v.slots[k].ops + 1));
      var next := if openOk then Moving(k, v.slots[k].file, target, None) else Moved(k, v.slots[k].file, None);
      SetThread(w.(dupLock := Some(p)), p, next)
    case ClaimTarget(m) =>
      SetThread(SetSlot(v, m, v.slots[m].(state := Closing)), p, t.(ours := Some(m)))
    case FillTarget(into) =>
      SetThread(if into.Some? then PutHandle(v, into.value, t.target, t.file) else v, p, Moved(t.slot, t.file, None))
    case ReplaceTarget(nativeOk) =>
      EmptiedIsClosing(v, t.ours.value, p);
      Replaced(v, p, t.ours.value, nativeOk)
    case EndDup2 =>
      SetThread(Released(v, p, t.slot).(dupLock := None), p, Idle)
  }

  /** The drained target slot `m` gets the source's open file, and its own loses
      a reference; when the native call fails the slot is active again. */
  ghost function Replaced(v: View, p: nat, m: nat, nativeOk: bool): View
    requires p < |v.threads| && v.threads[p].Moving? && m < |v.slots|
    requires v.slots[m].file in v.files && v.files[v.slots[m].file] > 0 && v.threads[p].file in v.files
  {
    var t := v.threads[p];
    var g := v.slots[m].file;
    if !nativeOk then
      SetThread(SetSlot(v, m, v.slots[m].(state := Active)), p, Moved(t.slot, t.file, None))
    else if g == t.file then
      SetThread(SetSlot(v, m, Slot(Active, t.target, 0, t.file)), p, Moved(t.slot, t.file, None))
    else
      var w := PutHandle(DropReference(v, g), m, t.target, t.file);
      SetThread(w, p, Moved(t.slot, t.file, if w.files[g] == 0 then Some(g) else None))
  }

  /** One pin less on slot `k`, which thread `p` pins. */
  ghost function Released(v: View, p: nat, k: nat): View
    requires Inv(v) && p < |v.threads| && k < |v.slots| && Pins(v.threads[p], k)
  {
    PinCounted(v, p, k);
    SetSlot(v, k, v.slots[k].(ops := v.slots[k].ops - 1))
  }

  lemma PinCounted(v: View, p: nat, k: nat)
    requires Inv(v) && p < |v.threads| && k < |v.slots| && Pins(v.threads[p], k)
    ensures v.slots[k].ops > 0
  {
    CountZero(v.threads, Pinning(k));
  }

  lemma Referenced(v: View, k: nat)
    requires Inv(v) && InSlot(v, k)
    ensures v.slots[k].file in v.files && v.files[v.slots[k].file] > 0
  {
    CountZero(v.slots, Holding(v.slots[k].file));
    assert Holds(v.slots[k], v.slots[k].file);
  }

  // ---- the invariant ----

  ghost predicate Init(v: View) {
    && (forall k | 0 <= k < |v.slots| :: v.slots[k].state == Free && v.slots[k].ops == 0)
    && v.files == map[] && v.destroyed == {} && v.nextFile == 0 && v.dupLock == None
    && (forall p | 0 <= p < |v.threads| :: v.threads[p] == Idle)
  }

  lemma InitInv(v: View)
    requires Init(v)
    ensures Inv(v)
  {
    forall k | 0 <= k < |v.slots| ensures Count(v.threads, Pinning(k)) == 0 && Count(v.threads, Emptying(k)) == 0 {
      CountZero(v.threads, Pinning(k));
      CountZero(v.threads, Emptying(k));
    }
  }

  /** How the per-slot and per-file tallies move when one thread moves. */
  lemma ThreadTallies(threads: seq<Thread>, p: nat, t: Thread)
    requires p < |threads|
    ensures forall k: nat ::
        Count(threads[p := t], Pinning(k)) + One(Pins(threads[p], k)) == Count(threads, Pinning(k)) + One(Pins(t, k))
    ensures forall k: nat ::
      Count(threads[p := t], Emptying(k)) + One(Empties(threads[p], k))
      == Count(threads, Emptying(k)) + One(Empties(t, k))
    ensures forall f: nat ::
        Count(threads[p := t], Owing(f)) + One(Owes(threads[p], f)) == Count(threads, Owing(f)) + One(Owes(t, f))
  {
    forall k: nat
      ensures Count(threads[p := t], Pinning(k)) + One(Pins(threads[p], k))
          == Count(threads, Pinning(k)) + One(Pins(t, k))
    {
      CountUpdate(threads, p, t, Pinning(k));
    }
    forall k: nat
      ensures Count(threads[p := t], Emptying(k)) + One(Empties(threads[p], k))
          == Count(threads, Emptying(k)) + One(Empties(t, k))
    {
      CountUpdate(threads, p, t, Emptying(k));
    }
    forall f: nat
      ensures Count(threads[p := t], Owing(f)) + One(Owes(threads[p], f)) == Count(threads, Owing(f)) + One(Owes(t, f))
    {
      CountUpdate(threads, p, t, Owing(f));
    }
  }

  function HoldsAt(slots: seq<Slot>, k: nat, f: nat): nat {
    if k < |slots| then One(Holds(slots[k], f)) else 0
  }

  /** Thread `p` and slot `k` (if there is one) move, and every number moves
      with what they contribute to it. */
  ghost predicate Balanced(v: View, w: View, p: nat, k: nat)
    requires p < |v.threads|
  {
    && |w.threads| == |v.threads| && w.threads == v.threads[p := w.threads[p]]
    && |w.slots| == |v.slots| && w.slots == (if k < |v.slots| then v.slots[k := w.slots[k]] else v.slots)
    && w.files.Keys <= v.files.Keys
    && BalancedSlots(v, w, p)
    && BalancedFiles(v, w, p, k)
  }

  ghost predicate BalancedSlots(v: View, w: View, p: nat)
    requires p < |v.threads| && |w.threads| == |v.threads| && |w.slots| == |v.slots|
  {
    forall j: nat | j < |v.slots| ::
      && w.slots[j].ops + One(Pins(v.threads[p], j)) == v.slots[j].ops + One(Pins(w.threads[p], j))
      && One(w.slots[j].state == Closing) + One(Empties(v.threads[p], j))
         == One(v.slots[j].state == Closing) + One(Empties(w.threads[p], j))
  }

  ghost predicate BalancedFiles(v: View, w: View, p: nat, k: nat)
    requires p < |v.threads| && |w.threads| == |v.threads| && w.files.Keys <= v.files.Keys
  {
    forall f | f in w.files ::
      && w.files[f] + HoldsAt(v.slots, k, f) == v.files[f] + HoldsAt(w.slots, k, f)
      && One(w.files[f] == 0) + One(Owes(v.threads[p], f)) == One(v.files[f] == 0) + One(Owes(w.threads[p], f))
  }

  lemma BalancedCounts(v: View, w: View, p: nat, k: nat)
    requires Inv(v) && p < |v.threads| && Balanced(v, w, p, k)
    ensures CountsRight(w)
  {
    hide Count, HoldsAt;
    ThreadTallies(v.threads, p, w.threads[p]);
    forall f | f in w.files ensures w.files[f] == Count(w.slots, Holding(f)) {
      SlotTally(v.slots, w.slots, k, f);
    }
  }

  lemma SlotTally(slots: seq<Slot>, after: seq<Slot>, k: nat, f: nat)
    requires |after| == |slots| && after == (if k < |slots| then slots[k := after[k]] else slots)
    ensures Count(after, Holding(f)) + HoldsAt(slots, k, f) == Count(slots, Holding(f)) + HoldsAt(after, k, f)
  {
    if k < |slots| { CountUpdate(slots, k, after[k], Holding(f)); }
  }

  lemma CreateKeeps(v: View, p: nat, step: Step)
    requires Inv(v) && Enabled(v, p, step) && step.Create?
    ensures Inv(After(v, p, step))
  {
    hide Count;
    ThreadTallies(v.threads, p, Opening(v.nextFile));
    var f := v.nextFile;
    assert Count(v.slots, Holding(f)) == 0 by { CountZero(v.slots, Holding(f)); }
    assert Count(v.threads, Owing(f)) == 0 by { CountZero(v.threads, Owing(f));
      forall q | 0 <= q < |v.threads| ensures !Owes(v.threads[q], f) { assert ThreadOk(v, q); }
    }
    var w := After(v, p, step);
    forall q | 0 <= q < |w.threads| ensures ThreadOk(w, q) { assert ThreadOk(v, q); }
  }

  // ---- consequences of the invariant ----

  lemma FreeIsUnpinned(v: View, k: nat)
    requires Inv(v) && k < |v.slots| && v.slots[k].state == Free
    ensures v.slots[k].ops == 0
  {
    hide Count, FdsDistinct;
    forall q | 0 <= q < |v.threads| ensures !Pins(v.threads[q], k) { assert ThreadOk(v, q); }
    CountZero(v.threads, Pinning(k));
  }

  /** A slot without pins is no thread's source. */
  lemma UnpinnedHasNoUser(v: View, k: nat, q: nat)
    requires Inv(v) && k < |v.slots| && v.slots[k].ops == 0 && q < |v.threads|
    ensures !Pins(v.threads[q], k)
  {
    hide Count, FdsDistinct, ThreadOk;
    CountZero(v.threads, Pinning(k));
  }

  /** One thread at most empties a slot. */
  lemma OneEmptier(v: View, k: nat, p: nat, q: nat)
    requires Inv(v) && k < |v.slots| && p < |v.threads| && q < |v.threads|
    requires Empties(v.threads[p], k) && Empties(v.threads[q], k)
    ensures p == q && v.slots[k].state == Closing
  {
    hide Count, FdsDistinct, ThreadOk;
    CountUnique(v.threads, Emptying(k), p, q);
    CountZero(v.threads, Emptying(k));
  }

  /** Only a file without references is owed anything, and by one thread. */
  lemma OneOwner(v: View, f: nat, p: nat, q: nat)
    requires Inv(v) && f in v.files && p < |v.threads| && q < |v.threads|
    requires Owes(v.threads[p], f) && Owes(v.threads[q], f)
    ensures p == q && v.files[f] == 0
  {
    hide Count, FdsDistinct, ThreadOk;
    CountUnique(v.threads, Owing(f), p, q);
    CountZero(v.threads, Owing(f));
  }

  lemma PinnedFileReferenced(v: View, p: nat)
    requires Inv(v) && p < |v.threads| && (v.threads[p].Using? || v.threads[p].Moving? || v.threads[p].Moved?)
    ensures v.threads[p].file in v.files && v.files[v.threads[p].file] > 0 && InSlot(v, v.threads[p].slot)
    ensures v.slots[v.threads[p].slot].file == v.threads[p].file
  {
    hide Count, FdsDistinct;
    assert ThreadOk(v, p);
    Referenced(v, v.threads[p].slot);
  }

  lemma OpeningUnreferenced(v: View, p: nat)
    requires Inv(v) && p < |v.threads| && (v.threads[p].Opening? || v.threads[p].Retiring?)
    ensures v.threads[p].file in v.files && v.files[v.threads[p].file] == 0
  {
    hide Count, FdsDistinct, CountsRight;
    assert ThreadOk(v, p);
    OneOwner(v, v.threads[p].file, p, p);
  }

  lemma UsingInSlot(v: View, p: nat)
    requires Inv(v) && p < |v.threads| && (v.threads[p].Using? || v.threads[p].Moving? || v.threads[p].Moved?)
    ensures InSlot(v, v.threads[p].slot)
  {
    hide Count, FdsDistinct, CountsRight;
    assert ThreadOk(v, p);
  }

  lemma EmptiedIsClosing(v: View, k: nat, p: nat)
    requires Inv(v) && p < |v.threads| && Empties(v.threads[p], k)
    ensures InSlot(v, k) && v.slots[k].state == Closing && v.slots[k].file in v.files && v.files[v.slots[k].file] > 0
  {
    hide Count, FdsDistinct, CountsRight;
    assert ThreadOk(v, p);
    Referenced(v, k);
  }

  /** Once slot `k` is drained by `p`, no other thread has to do with it. */
  lemma Drained(v: View, k: nat, p: nat, q: nat)
    requires Inv(v) && k < |v.slots| && v.slots[k].ops == 0 && p < |v.threads| && q < |v.threads| && q != p
    requires Empties(v.threads[p], k)
    ensures !Pins(v.threads[q], k) && !Empties(v.threads[q], k)
  {
    hide Inv;
    UnpinnedHasNoUser(v, k, q);
    if Empties(v.threads[q], k) { OneEmptier(v, k, p, q); }
  }

  lemma Unreferenced(v: View, f: nat)
    requires Inv(v) && f in v.files && v.files[f] == 0
    ensures forall k | 0 <= k < |v.slots| && v.slots[k].state != Free :: v.slots[k].file != f
  {
    hide Count, FdsDistinct, ThreadOk;
    CountZero(v.slots, Holding(f));
    assert forall k | 0 <= k < |v.slots| :: !Holds(v.slots[k], f);
  }

  // ---- each section keeps the invariant ----

  lemma FdFree(v: View, k: nat, fd: int, s: Slot)
    requires k < |v.slots| && FdsDistinct(v.slots) && NotFound(v.slots, fd, true) && fd >= 0 && s.fd == fd
    ensures FdsDistinct(v.slots[k := s])
  {
    forall i | 0 <= i < |v.slots| && v.slots[i].state != Free
      ensures v.slots[i].fd != fd
    {
      assert !Found(v.slots, fd, true, i);
    }
  }

  lemma InstallCounts(v: View, p: nat, step: Step)
    requires Inv(v) && Enabled(v, p, step) && step.Install?
    ensures CountsRight(After(v, p, step))
  {
    hide Count, Inv, NotFound;
    var k := if step.into.Some? then step.into.value else |v.slots|;
    if v.threads[p].Opening? { OpeningUnreferenced(v, p); } else { PinnedFileReferenced(v, p); }
    if step.into.Some? { FreeIsUnpinned(v, k); }
    BalancedCounts(v, After(v, p, step), p, k);
  }

  lemma InstallThreads(v: View, p: nat, step: Step, q: nat)
    requires Inv(v) && Enabled(v, p, step) && step.Install? && q < |v.threads|
    ensures ThreadOk(After(v, p, step), q)
  {
    hide Count, CountsRight, FdsDistinct;
    assert ThreadOk(v, p) && ThreadOk(v, q);
    var k := if step.into.Some? then step.into.value else |v.slots|;
    if v.threads[p].Opening? { OpeningUnreferenced(v, p); } else { PinnedFileReferenced(v, p); }
    if step.into.Some? { FreeIsUnpinned(v, k); }
  }

  lemma InstallKeeps(v: View, p: nat, step: Step)
    requires Inv(v) && Enabled(v, p, step) && step.Install?
    ensures Inv(After(v, p, step))
  {
    hide Count, CountsRight;
    InstallCounts(v, p, step);
    var w := After(v, p, step);
    forall q | 0 <= q < |w.threads| ensures ThreadOk(w, q) { InstallThreads(v, p, step, q); }
    assert ThreadOk(v, p);
    var k := if step.into.Some? then step.into.value else |v.slots|;
    if v.threads[p].Opening? { OpeningUnreferenced(v, p); } else { PinnedFileReferenced(v, p); }
    if step.into.Some? { FreeIsUnpinned(v, k); }
    if step.into.Some? { FdFree(v, k, step.fd, w.slots[k]); }
  }

  lemma PinCounts(v: View, p: nat, step: Step)
    requires Inv(v) && Enabled(v, p, step) && step.Pin?
    ensures CountsRight(After(v, p, step))
  {
    hide Count, CountsRight, FdsDistinct;
    assert ThreadOk(v, p);
    BalancedCounts(v, After(v, p, step), p, step.k);
  }

  lemma PinThreads(v: View, p: nat, step: Step, q: nat)
    requires Inv(v) && Enabled(v, p, step) && step.Pin? && q < |v.threads|
    ensures ThreadOk(After(v, p, step), q)
  {
    hide Count, CountsRight, FdsDistinct;
    assert ThreadOk(v, p) && ThreadOk(v, q);
  }

  lemma PinKeeps(v: View, p: nat, step: Step)
    requires Inv(v) && Enabled(v, p, step) && step.Pin?
    ensures Inv(After(v, p, step))
  {
    hide Count, CountsRight;
    PinCounts(v, p, step);
    var w := After(v, p, step);
    forall q | 0 <= q < |w.threads| ensures ThreadOk(w, q) { PinThreads(v, p, step, q); }
    assert ThreadOk(v, p);
  }

  lemma UnpinCounts(v: View, p: nat, step: Step)
    requires Inv(v) && Enabled(v, p, step) && (step.Unpin? || step.EndDup2?)
    ensures CountsRight(After(v, p, step))
  {
    hide Count, Inv, NotFound;
    UsingInSlot(v, p);
    PinCounted(v, p, v.threads[p].slot);
    BalancedCounts(v, After(v, p, step), p, v.threads[p].slot);
  }

  lemma UnpinThreads(v: View, p: nat, step: Step, q: nat)
    requires Inv(v) && Enabled(v, p, step) && (step.Unpin? || step.EndDup2?) && q < |v.threads|
    ensures ThreadOk(After(v, p, step), q)
  {
    hide Count, CountsRight, FdsDistinct;
    assert ThreadOk(v, p) && ThreadOk(v, q);
    PinCounted(v, p, v.threads[p].slot);
  }

  lemma UnpinKeeps(v: View, p: nat, step: Step)
    requires Inv(v) && Enabled(v, p, step) && (step.Unpin? || step.EndDup2?)
    ensures Inv(After(v, p, step))
  {
    hide Count, CountsRight;
    UnpinCounts(v, p, step);
    var w := After(v, p, step);
    forall q | 0 <= q < |w.threads| ensures ThreadOk(w, q) { UnpinThreads(v, p, step, q); }
    assert ThreadOk(v, p);
    PinCounted(v, p, v.threads[p].slot);
  }

  lemma BeginCloseCounts(v: View, p: nat, step: Step)
    requires Inv(v) && Enabled(v, p, step) && step.BeginClose?
    ensures CountsRight(After(v, p, step))
  {
    hide Count, CountsRight, FdsDistinct;
    assert ThreadOk(v, p);
    BalancedCounts(v, After(v, p, step), p, step.k);
  }

  lemma BeginCloseThreads(v: View, p: nat, step: Step, q: nat)
    requires Inv(v) && Enabled(v, p, step) && step.BeginClose? && q < |v.threads|
    ensures ThreadOk(After(v, p, step), q)
  {
    hide Count, CountsRight, FdsDistinct;
    assert ThreadOk(v, p) && ThreadOk(v, q);
  }

  lemma BeginCloseKeeps(v: View, p: nat, step: Step)
    requires Inv(v) && Enabled(v, p, step) && step.BeginClose?
    ensures Inv(After(v, p, step))
  {
    hide Count, CountsRight;
    BeginCloseCounts(v, p, step);
    var w := After(v, p, step);
    forall q | 0 <= q < |w.threads| ensures ThreadOk(w, q) { BeginCloseThreads(v, p, step, q); }
    assert ThreadOk(v, p);
  }

  lemma FinishCloseCounts(v: View, p: nat, step: Step)
    requires Inv(v) && Enabled(v, p, step) && step.FinishClose?
    ensures CountsRight(After(v, p, step))
  {
    hide Count, Inv, NotFound;
    var k := v.threads[p].slot;
    EmptiedIsClosing(v, k, p);
    BalancedCounts(v, After(v, p, step), p, k);
  }

  lemma FinishCloseThreads(v: View, p: nat, step: Step, q: nat)
    requires Inv(v) && Enabled(v, p, step) && step.FinishClose? && q < |v.threads|
    ensures ThreadOk(After(v, p, step), q)
  {
    hide Count, CountsRight, FdsDistinct;
    assert ThreadOk(v, p) && ThreadOk(v, q);
    var k := v.threads[p].slot;
    EmptiedIsClosing(v, k, p);
    if q != p { Drained(v, k, p, q); }
  }

  lemma FinishCloseKeeps(v: View, p: nat, step: Step)
    requires Inv(v) && Enabled(v, p, step) && step.FinishClose?
    ensures Inv(After(v, p, step))
  {
    hide Count, CountsRight;
    FinishCloseCounts(v, p, step);
    var w := After(v, p, step);
    forall q | 0 <= q < |w.threads| ensures ThreadOk(w, q) { FinishCloseThreads(v, p, step, q); }
    assert ThreadOk(v, p);
    var k := v.threads[p].slot;
    EmptiedIsClosing(v, k, p);
  }

  lemma DestroyCounts(v: View, p: nat, step: Step)
    requires Inv(v) && Enabled(v, p, step) && step.Destroy?
    ensures CountsRight(After(v, p, step))
  {
    hide Count, CountsRight, FdsDistinct;
    assert ThreadOk(v, p);
    var t := v.threads[p];
    var f := if t.Retiring? then t.file else t.retired.value;
    OneOwner(v, f, p, p);
    Unreferenced(v, f);
    BalancedCounts(v, After(v, p, step), p, |v.slots|);
  }

  lemma DestroyThreads(v: View, p: nat, step: Step, q: nat)
    requires Inv(v) && Enabled(v, p, step) && step.Destroy? && q < |v.threads|
    ensures ThreadOk(After(v, p, step), q)
  {
    hide Count, CountsRight, FdsDistinct;
    assert ThreadOk(v, p) && ThreadOk(v, q);
    var t := v.threads[p];
    var f := if t.Retiring? then t.file else t.retired.value;
    OneOwner(v, f, p, p);
    Unreferenced(v, f);
    if q != p && Owes(v.threads[q], f) { OneOwner(v, f, p, q); }
  }

  lemma DestroyKeeps(v: View, p: nat, step: Step)
    requires Inv(v) && Enabled(v, p, step) && step.Destroy?
    ensures Inv(After(v, p, step))
  {
    hide Count, CountsRight;
    DestroyCounts(v, p, step);
    var w := After(v, p, step);
    forall q | 0 <= q < |w.threads| ensures ThreadOk(w, q) { DestroyThreads(v, p, step, q); }
    assert ThreadOk(v, p);
    var t := v.threads[p];
    var f := if t.Retiring? then t.file else t.retired.value;
    OneOwner(v, f, p, p);
    Unreferenced(v, f);
  }

  lemma BeginDup2Counts(v: View, p: nat, step: Step)
    requires Inv(v) && Enabled(v, p, step) && step.BeginDup2?
    ensures CountsRight(After(v, p, step))
  {
    hide Count, CountsRight, FdsDistinct;
    assert ThreadOk(v, p);
    BalancedCounts(v, After(v, p, step), p, step.k);
  }

  lemma BeginDup2Threads(v: View, p: nat, step: Step, q: nat)
    requires Inv(v) && Enabled(v, p, step) && step.BeginDup2? && q < |v.threads|
    ensures ThreadOk(After(v, p, step), q)
  {
    hide Count, CountsRight, FdsDistinct;
    assert ThreadOk(v, p) && ThreadOk(v, q);
  }

  lemma BeginDup2Keeps(v: View, p: nat, step: Step)
    requires Inv(v) && Enabled(v, p, step) && step.BeginDup2?
    ensures Inv(After(v, p, step))
  {
    hide Count, CountsRight;
    BeginDup2Counts(v, p, step);
    var w := After(v, p, step);
    forall q | 0 <= q < |w.threads| ensures ThreadOk(w, q) { BeginDup2Threads(v, p, step, q); }
    assert ThreadOk(v, p);
  }

  lemma ClaimTargetCounts(v: View, p: nat, step: Step)
    requires Inv(v) && Enabled(v, p, step) && step.ClaimTarget?
    ensures CountsRight(After(v, p, step))
  {
    hide Count, CountsRight, FdsDistinct;
    assert ThreadOk(v, p);
    BalancedCounts(v, After(v, p, step), p, step.t);
  }

  lemma ClaimTargetThreads(v: View, p: nat, step: Step, q: nat)
    requires Inv(v) && Enabled(v, p, step) && step.ClaimTarget? && q < |v.threads|
    ensures ThreadOk(After(v, p, step), q)
  {
    hide Count, CountsRight, FdsDistinct;
    assert ThreadOk(v, p) && ThreadOk(v, q);
  }

  lemma ClaimTargetKeeps(v: View, p: nat, step: Step)
    requires Inv(v) && Enabled(v, p, step) && step.ClaimTarget?
    ensures Inv(After(v, p, step))
  {
    hide Count, CountsRight;
    ClaimTargetCounts(v, p, step);
    var w := After(v, p, step);
    forall q | 0 <= q < |w.threads| ensures ThreadOk(w, q) { ClaimTargetThreads(v, p, step, q); }
    assert ThreadOk(v, p);
  }

  lemma FillTargetCounts(v: View, p: nat, step: Step)
    requires Inv(v) && Enabled(v, p, step) && step.FillTarget?
    ensures CountsRight(After(v, p, step))
  {
    hide Count, Inv, NotFound;
    var k := if step.into.Some? then step.into.value else |v.slots|;
    PinnedFileReferenced(v, p);
    if step.into.Some? { FreeIsUnpinned(v, k); }
    BalancedCounts(v, After(v, p, step), p, k);
  }

  lemma FillTargetThreads(v: View, p: nat, step: Step, q: nat)
    requires Inv(v) && Enabled(v, p, step) && step.FillTarget? && q < |v.threads|
    ensures ThreadOk(After(v, p, step), q)
  {
    hide Count, CountsRight, FdsDistinct;
    assert ThreadOk(v, p) && ThreadOk(v, q);
    var k := if step.into.Some? then step.into.value else |v.slots|;
    PinnedFileReferenced(v, p);
    if step.into.Some? { FreeIsUnpinned(v, k); }
  }

  lemma FillTargetKeeps(v: View, p: nat, step: Step)
    requires Inv(v) && Enabled(v, p, step) && step.FillTarget?
    ensures Inv(After(v, p, step))
  {
    hide Count, CountsRight;
    FillTargetCounts(v, p, step);
    var w := After(v, p, step);
    forall q | 0 <= q < |w.threads| ensures ThreadOk(w, q) { FillTargetThreads(v, p, step, q); }
    assert ThreadOk(v, p);
    var k := if step.into.Some? then step.into.value else |v.slots|;
    PinnedFileReferenced(v, p);
    if step.into.Some? { FreeIsUnpinned(v, k); }
    if step.into.Some? { FdFree(v, k, v.threads[p].target, w.slots[k]); }
  }

  lemma ReplacedBalanced(v: View, p: nat, m: nat, nativeOk: bool)
    requires p < |v.threads| && v.threads[p].Moving? && m < |v.slots| && v.threads[p].ours == Some(m)
    requires v.slots[m].file in v.files && v.files[v.slots[m].file] > 0
    requires v.threads[p].file in v.files && v.files[v.threads[p].file] > 0
    requires v.slots[m].state == Closing && v.slots[m].ops == 0
    ensures Balanced(v, Replaced(v, p, m, nativeOk), p, m)
  {
    var w := Replaced(v, p, m, nativeOk);
    assert BalancedSlots(v, w, p) by { hide HoldsAt, Holds, Owes; }
    assert BalancedFiles(v, w, p, m) by { hide BalancedSlots, Pins, Empties; }
  }

  lemma ReplaceTargetCounts(v: View, p: nat, step: Step)
    requires Inv(v) && Enabled(v, p, step) && step.ReplaceTarget?
    ensures CountsRight(After(v, p, step))
  {
    hide Count, Inv, NotFound, Balanced;
    var m := v.threads[p].ours.value;
    EmptiedIsClosing(v, m, p);
    PinnedFileReferenced(v, p);
    ReplacedBalanced(v, p, m, step.nativeOk);
    BalancedCounts(v, After(v, p, step), p, m);
  }

  lemma ReplaceTargetThreads(v: View, p: nat, step: Step, q: nat)
    requires Inv(v) && Enabled(v, p, step) && step.ReplaceTarget? && q < |v.threads|
    ensures ThreadOk(After(v, p, step), q)
  {
    hide Count, CountsRight, FdsDistinct;
    assert ThreadOk(v, p) && ThreadOk(v, q);
    var m := v.threads[p].ours.value;
    EmptiedIsClosing(v, m, p);
    PinnedFileReferenced(v, p);
    if q != p { Drained(v, m, p, q); }
  }

  lemma ReplaceTargetKeeps(v: View, p: nat, step: Step)
    requires Inv(v) && Enabled(v, p, step) && step.ReplaceTarget?
    ensures Inv(After(v, p, step))
  {
    hide Count, CountsRight;
    ReplaceTargetCounts(v, p, step);
    var w := After(v, p, step);
    forall q | 0 <= q < |w.threads| ensures ThreadOk(w, q) { ReplaceTargetThreads(v, p, step, q); }
    assert ThreadOk(v, p);
    var m := v.threads[p].ours.value;
    EmptiedIsClosing(v, m, p);
    PinnedFileReferenced(v, p);
  }

  /** Every section keeps the invariant. */
  lemma StepKeeps(v: View, p: nat, step: Step)
    requires Inv(v) && Enabled(v, p, step)
    ensures Inv(After(v, p, step))
  {
    hide Inv, Enabled, After, Count;
    match step
    case Create => CreateKeeps(v, p, step);
    case Install(_, _) => InstallKeeps(v, p, step);
    case Pin(_) => PinKeeps(v, p, step);
    case Unpin => UnpinKeeps(v, p, step);
    case EndDup2 => UnpinKeeps(v, p, step);
    case BeginClose(_) => BeginCloseKeeps(v, p, step);
    case FinishClose => FinishCloseKeeps(v, p, step);
    case Destroy => DestroyKeeps(v, p, step);
    case BeginDup2(_, _, _) => BeginDup2Keeps(v, p, step);
    case ClaimTarget(_) => ClaimTargetKeeps(v, p, step);
    case FillTarget(_) => FillTargetKeeps(v, p, step);
    case ReplaceTarget(_) => ReplaceTargetKeeps(v, p, step);
  }

  // ---- whole runs ----

  datatype Event = Event(p: nat, step: Step)

  /** `w` is reached from `v` by the given sections, in that order. */
  ghost predicate Runs(v: View, events: seq<Event>, w: View)
    requires Inv(v)
    decreases |events|
  {
    if events == [] then
      v == w
    else
      && Enabled(v, events[0].p, events[0].step)
      && (StepKeeps(v, events[0].p, events[0].step);
          Runs(After(v, events[0].p, events[0].step), events[1..], w))
  }

  lemma {:induction false} RunKeeps(v: View, events: seq<Event>, w: View)
    requires Inv(v) && Runs(v, events, w)
    ensures Inv(w)
    decreases |events|
  {
    hide Inv, Enabled, After;
    if events != [] {
      StepKeeps(v, events[0].p, events[0].step);
      RunKeeps(After(v, events[0].p, events[0].step), events[1..], w);
    }
  }

  /** What holds after any run: an open file's references are the slots pointing
      at it; a descriptor has one slot at most; files in memory and freed ones
      never overlap; and once no call is under way, exactly the files that a
      slot points at are still in memory, all others having been freed. */
  lemma TableIsSafe(v: View, events: seq<Event>, w: View)
    requires Init(v) && (InitInv(v); Runs(v, events, w))
    ensures forall f | f in w.files :: w.files[f] == Count(w.slots, Holding(f))
    ensures forall i, j | 0 <= i < j < |w.slots| && w.slots[i].state != Free && w.slots[j].state != Free ::
              w.slots[i].fd != w.slots[j].fd
    ensures w.files.Keys !! w.destroyed
    ensures (forall q | 0 <= q < |w.threads| :: w.threads[q] == Idle) ==>
              && (forall f: nat | f < w.nextFile :: f in w.destroyed <==> Count(w.slots, Holding(f)) == 0)
              && (forall k | 0 <= k < |w.slots| :: w.slots[k].state in {Free, Active} && w.slots[k].ops == 0)
  {
    hide Count, ThreadOk;
    InitInv(v);
    RunKeeps(v, events, w);
    if forall q | 0 <= q < |w.threads| :: w.threads[q] == Idle {
      forall f: nat | f < w.nextFile ensures f in w.destroyed <==> Count(w.slots, Holding(f)) == 0 {
        CountZero(w.threads, Owing(f));
        CountZero(w.slots, Holding(f));
      }
      forall k | 0 <= k < |w.slots| ensures w.slots[k].state in {Free, Active} && w.slots[k].ops == 0 {
        CountZero(w.threads, Emptying(k));
        CountZero(w.threads, Pinning(k));
      }
    }
  }

  // ---- what each section does to the descriptors ----

  lemma SlotNames(v: View, k: nat)
    requires Inv(v) && InSlot(v, k)
    ensures FileOf(v.slots, v.slots[k].fd) == Some(v.slots[k].file)
  {
    FileOfSlot(v.slots, k);
  }

  lemma MovingSlots(v: View, p: nat)
    requires Inv(v) && p < |v.threads| && v.threads[p].Moving?
    ensures var t := v.threads[p];
            && InSlot(v, t.slot) && v.slots[t.slot].file == t.file
            && (t.ours.Some? ==> InSlot(v, t.ours.value) && v.slots[t.ours.value].fd == t.target)
  {
    assert ThreadOk(v, p);
  }

  /** open and dup: the descriptor was free and names the open file; without a slot
      nothing changes. */
  lemma InstallNames(v: View, p: nat, step: Step)
    requires Inv(v) && Enabled(v, p, step) && step.Install?
    ensures var w, file := After(v, p, step), v.threads[p].file;
            if step.into.Some? then
              && FileOf(v.slots, step.fd) == None
              && OnlyChanged(v.slots, w.slots, step.fd, Some(file), Some(file))
              && ReferenceMoved(v.files, w.files, None, Some(file))
            else w.slots == v.slots && w.files == v.files
  {
    hide CountsRight;
    var w := After(v, p, step);
    StepKeeps(v, p, step);
    if step.into.Some? {
      NoSlotNoFile(v.slots, step.fd);
      forall fd: int {
        SlotChanged(v.slots, step.into.value, w.slots[step.into.value], fd);
      }
    }
  }

  lemma NoSlotNoFile(slots: seq<Slot>, fd: int)
    requires NotFound(slots, fd, true) && fd >= 0
    ensures FileOf(slots, fd) == None && Opens(slots, fd) == None
  {
    forall k | 0 <= k < |slots| ensures slots[k].state == Free || slots[k].fd != fd {
      assert !Found(slots, fd, true, k);
    }
  }

  /** close, first section: no new call finds the descriptor, those under way do. */
  lemma BeginCloseNames(v: View, p: nat, step: Step)
    requires Inv(v) && Enabled(v, p, step) && (step.BeginClose? || step.ClaimTarget?)
    ensures var w, k := After(v, p, step), if step.BeginClose? then step.k else step.t;
            && OnlyChanged(v.slots, w.slots, v.slots[k].fd, Some(v.slots[k].file), None) && w.files == v.files
            && Opens(v.slots, v.slots[k].fd) == Some(v.slots[k].file)
  {
    hide CountsRight;
    var w, k := After(v, p, step), if step.BeginClose? then step.k else step.t;
    StepKeeps(v, p, step);
    FileOfSlot(v.slots, k);
    forall fd: int {
      SlotChanged(v.slots, k, w.slots[k], fd);
    }
  }

  /** close, second section: the descriptor names nothing, its file has a reference less. */
  lemma FinishCloseNames(v: View, p: nat)
    requires Inv(v) && Enabled(v, p, FinishClose)
    ensures var w, k := After(v, p, FinishClose), v.threads[p].slot;
            && OnlyChanged(v.slots, w.slots, v.slots[k].fd, None, None)
            && ReferenceMoved(v.files, w.files, Some(v.slots[k].file), None)
  {
    hide CountsRight;
    var w, k := After(v, p, FinishClose), v.threads[p].slot;
    StepKeeps(v, p, FinishClose);
    assert ThreadOk(v, p);
    Referenced(v, k);
    forall fd: int {
      SlotChanged(v.slots, k, w.slots[k], fd);
    }
  }

  /** dup2 onto an unused descriptor: it names the file of the source; or nothing
      changes. */
  lemma FillTargetNames(v: View, p: nat, step: Step)
    requires Inv(v) && Enabled(v, p, step) && step.FillTarget?
    ensures v.threads[p].Moving? && InSlot(v, v.threads[p].slot)
    ensures var w, t := After(v, p, step), v.threads[p];
            if step.into.Some? then
              && FileOf(v.slots, t.target) == None
              && OnlyChanged(v.slots, w.slots, t.target, Some(v.slots[t.slot].file), Some(v.slots[t.slot].file))
              && ReferenceMoved(v.files, w.files, None, Some(v.slots[t.slot].file))
            else w.slots == v.slots && w.files == v.files
  {
    hide CountsRight;
    var w, t := After(v, p, step), v.threads[p];
    StepKeeps(v, p, step);
    assert ThreadOk(v, p);
    NoSlotNoFile(v.slots, t.target);
    if step.into.Some? {
      forall fd: int {
        SlotChanged(v.slots, step.into.value, w.slots[step.into.value], fd);
      }
    }
  }

  /** dup2 onto an open descriptor: if the native call succeeds it names the file of
      the source, and one reference moves unless they were the same; if it fails it
      opens the file it had. No other descriptor changes. */
  lemma ReplaceTargetNames(v: View, p: nat, nativeOk: bool)
    requires Inv(v) && Enabled(v, p, ReplaceTarget(nativeOk))
    ensures v.threads[p].Moving? && InSlot(v, v.threads[p].slot) && InSlot(v, v.threads[p].ours.value)
    ensures FileOf(v.slots, v.threads[p].target) == Some(v.slots[v.threads[p].ours.value].file)
    ensures Opens(v.slots, v.threads[p].target) == None
    ensures var w, t := After(v, p, ReplaceTarget(nativeOk)), v.threads[p];
            var had, gets := v.slots[t.ours.value].file, v.slots[t.slot].file;
            if nativeOk then
              && OnlyChanged(v.slots, w.slots, t.target, Some(gets), Some(gets))
              && ReferenceMoved(v.files, w.files, Some(had), Some(gets))
            else
              && OnlyChanged(v.slots, w.slots, t.target, Some(had), Some(had))
              && w.files == v.files
  {
    hide CountsRight;
    var w, t := After(v, p, ReplaceTarget(nativeOk)), v.threads[p];
    StepKeeps(v, p, ReplaceTarget(nativeOk));
    assert ThreadOk(v, p);
    EmptiedIsClosing(v, t.ours.value, p);
    FileOfSlot(v.slots, t.ours.value);
    forall fd: int {
      SlotChanged(v.slots, t.ours.value, w.slots[t.ours.value], fd);
    }
  }

  /** Every other section leaves all descriptors alone, and the references of every
      open file that was there before and after. */
  lemma OthersKeepNames(v: View, p: nat, step: Step)
    requires Inv(v) && Enabled(v, p, step)
    requires step.Create? || step.Pin? || step.Unpin? || step.Destroy? || step.BeginDup2? || step.EndDup2?
    ensures var w := After(v, p, step);
            && NamesKept(v.slots, w.slots)
            && forall f | f in v.files && f in w.files :: w.files[f] == v.files[f]
  {
    hide CountsRight;
    var w := After(v, p, step);
    StepKeeps(v, p, step);
    assert ThreadOk(v, p);
    var t := v.threads[p];
    var k := if step.Pin? || step.BeginDup2? then step.k
             else if step.Unpin? || step.EndDup2? then t.slot
             else |v.slots|;
    if k < |v.slots| {
      FileOfSlot(v.slots, k);
      forall fd: int ensures FileOf(w.slots, fd) == FileOf(v.slots, fd) && Opens(w.slots, fd) == Opens(v.slots, fd) {
        SlotChanged(v.slots, k, w.slots[k], fd);
      }
    }
  }

  /** So after a successful dup2 both descriptors name one file. */
  lemma Dup2NamesSource(v: View, p: nat, step: Step)
    requires Inv(v) && Enabled(v, p, step)
    requires step == ReplaceTarget(true) || (step.FillTarget? && step.into.Some?)
    ensures v.threads[p].Moving? && InSlot(v, v.threads[p].slot)
    ensures var w, t := After(v, p, step), v.threads[p];
            && FileOf(w.slots, t.target) == FileOf(w.slots, v.slots[t.slot].fd) == FileOf(v.slots, v.slots[t.slot].fd)
            && FileOf(w.slots, t.target).Some?
  {
    hide CountsRight, After;
    var t := v.threads[p];
    MovingSource(v, p, step);
    FileOfSlot(v.slots, t.slot);
    if step.FillTarget? { FillTargetNames(v, p, step); } else { ReplaceTargetNames(v, p, true); }
  }

  lemma MovingSource(v: View, p: nat, step: Step)
    requires Inv(v) && Enabled(v, p, step) && (step.ReplaceTarget? || step.FillTarget?)
    ensures var t := v.threads[p];
            t.Moving? && InSlot(v, t.slot) && v.slots[t.slot].fd != t.target && FdsDistinct(v.slots)
  {
    assert ThreadOk(v, p);
  }

  /** What the section that frees open files may count on: the file it owes is in
      memory, unreferenced, not freed before, and owed by no other thread. */
  lemma FreedOnce(v: View, p: nat, step: Step, f: nat)
    requires Inv(v) && Enabled(v, p, step) && step.Destroy? && Owes(v.threads[p], f)
    ensures f in v.files && v.files[f] == 0 && f !in v.destroyed
    ensures After(v, p, step).destroyed == v.destroyed + {f} && f !in After(v, p, step).files
    ensures forall q | 0 <= q < |v.threads| && q != p :: !Owes(v.threads[q], f)
    ensures forall q | 0 <= q < |v.threads| :: !Owes(After(v, p, step).threads[q], f)
  {
    hide Count, CountsRight, FdsDistinct;
    assert ThreadOk(v, p);
    OneOwner(v, f, p, p);
    forall q | 0 <= q < |v.threads| && q != p ensures !Owes(v.threads[q], f) {
      if Owes(v.threads[q], f) { OneOwner(v, f, p, q); }
    }
  }

  /** And no other section frees anything. */
  lemma OnlyDestroyFrees(v: View, p: nat, step: Step)
    requires Inv(v) && Enabled(v, p, step) && !step.Destroy?
    ensures After(v, p, step).destroyed == v.destroyed && v.files.Keys <= After(v, p, step).files.Keys
  {
    hide Count, CountsRight, FdsDistinct, ThreadOk;
  }

  lemma {:induction false} FreedForever(v: View, events: seq<Event>, w: View)
    requires Inv(v) && Runs(v, events, w)
    ensures v.destroyed <= w.destroyed
    decreases |events|
  {
    if events != [] {
      StepKeeps(v, events[0].p, events[0].step);
      FreedForever(After(v, events[0].p, events[0].step), events[1..], w);
    }
  }

  lemma OthersStay(v: View, q: nat, step: Step, p: nat)
    requires Inv(v) && Enabled(v, q, step) && p < |v.threads| && p != q
    ensures |After(v, q, step).threads| == |v.threads| && After(v, q, step).threads[p] == v.threads[p]
  {
    hide Inv;
  }

  /** While a thread keeps its pin, whatever the others do, the slot is not
      freed and keeps its open file, which stays in memory. */
  lemma {:induction false} PinHolds(v: View, events: seq<Event>, w: View, p: nat)
    requires Inv(v) && Runs(v, events, w) && p < |v.threads|
    requires v.threads[p].Using? || v.threads[p].Moving? || v.threads[p].Moved?
    requires forall i | 0 <= i < |events| :: events[i].p != p
    ensures p < |w.threads| && w.threads[p] == v.threads[p] && InSlot(w, v.threads[p].slot)
    ensures w.slots[v.threads[p].slot].file == v.threads[p].file && v.threads[p].file in w.files
    decreases |events|
  {
    hide Inv, Enabled, After;
    PinnedFileReferenced(v, p);
    if events != [] {
      OthersStay(v, events[0].p, events[0].step, p);
      StepKeeps(v, events[0].p, events[0].step);
      PinHolds(After(v, events[0].p, events[0].step), events[1..], w, p);
    }
  }

  // ---- draining never deadlocks ----

  ghost predicate CanGo(v: View, p: nat) { exists step :: Enabled(v, p, step) }

  /** Thread `p` waits on the condition variable for something `q` has to do. */
  ghost predicate WaitsFor(v: View, p: nat, q: nat)
    requires p < |v.threads|
  {
    && q < |v.threads|
    && match v.threads[p]
       case Draining(k) => Pins(v.threads[q], k)
       case Moving(_, _, target, ours) =>
         if ours.Some? then Pins(v.threads[q], ours.value)
         else
           exists m ::
             0 <= m < |v.slots| && v.slots[m].fd == target && v.slots[m].state == Closing && Empties(v.threads[q], m)
       case _ => false
  }

  /** Uses wait for nothing; a close waits for uses, a dup2 for closes and uses,
      and the close of a dup2's own source for that dup2. */
  ghost function Rank(v: View, p: nat): nat
    requires p < |v.threads|
  {
    match v.threads[p]
    case Draining(k) =>
      if exists q ::
           0 <= q < |v.threads| && (v.threads[q].Moving? || v.threads[q].Moved?) && v.threads[q].slot == k
      then 3 else 1
    case Moving(_, _, _, _) => 2
    case _ => 0
  }

  /** The waits form no cycle. */
  lemma WaitsGoDown(v: View, p: nat, q: nat)
    requires Inv(v) && p < |v.threads| && WaitsFor(v, p, q)
    ensures v.threads[q] != Idle && Rank(v, q) < Rank(v, p)
  {
    hide Count, CountsRight;
    assert ThreadOk(v, p) && ThreadOk(v, q);
    if v.threads[p].Moving? && v.threads[p].ours == None {
      var m :| 0 <= m < |v.slots| && v.slots[m].fd == v.threads[p].target && v.slots[m].state == Closing
          && Empties(v.threads[q], m);
      forall r | 0 <= r < |v.threads| && (v.threads[r].Moving? || v.threads[r].Moved?) ensures v.threads[r].slot != m {
        assert ThreadOk(v, r);
      }
    }
  }

  /** A thread inside a call either can run its next section or waits for someone. */
  lemma StuckWaits(v: View, p: nat)
    requires Inv(v) && p < |v.threads| && v.threads[p] != Idle
    ensures CanGo(v, p) || exists q :: WaitsFor(v, p, q)
  {
    hide Count, CountsRight, FdsDistinct;
    assert ThreadOk(v, p);
    match v.threads[p]
    case Opening(_) =>
      if k: nat :| NotFound(v.slots, 0, true) && k < |v.slots| && v.slots[k].state == Free {
        assert Enabled(v, p, Install(0, Some(k)));
      } else {
        assert Enabled(v, p, Install(0, None));
      }
    case Using(_, _) => assert Enabled(v, p, Unpin);
    case Retiring(_) => assert Enabled(v, p, Destroy);
    case Moved(_, _, retired) => assert Enabled(v, p, if retired.Some? then Destroy else EndDup2);
    case Draining(k) =>
      if v.slots[k].ops == 0 { assert Enabled(v, p, FinishClose); } else { PinnedBySomeone(v, k, p); }
    case Moving(_, _, _, _) => MovingWaits(v, p);
  }

  lemma MovingWaits(v: View, p: nat)
    requires Inv(v) && p < |v.threads| && v.threads[p].Moving?
    ensures CanGo(v, p) || exists q :: WaitsFor(v, p, q)
  {
    hide Count, CountsRight, FdsDistinct;
    assert ThreadOk(v, p);
    var t := v.threads[p];
    if t.ours.Some? {
      if v.slots[t.ours.value].ops == 0 {
        assert Enabled(v, p, ReplaceTarget(true));
      } else {
        PinnedBySomeone(v, t.ours.value, p);
      }
    } else if m: nat :| Found(v.slots, t.target, true, m) {
      if v.slots[m].state == Active { assert Enabled(v, p, ClaimTarget(m)); } else { ClosingHasCloser(v, p, m); }
    } else {
      assert Enabled(v, p, FillTarget(None));
    }
  }

  lemma ClosingHasCloser(v: View, p: nat, m: nat)
    requires Inv(v) && p < |v.threads| && v.threads[p].Moving? && v.threads[p].ours == None
    requires Found(v.slots, v.threads[p].target, true, m) && v.slots[m].state == Closing
    ensures exists q :: WaitsFor(v, p, q)
  {
    hide Count;
    CountZero(v.threads, Emptying(m));
    var q :| 0 <= q < |v.threads| && Emptying(m)(v.threads[q]);
    assert WaitsFor(v, p, q);
  }

  lemma PinnedBySomeone(v: View, k: nat, p: nat)
    requires Inv(v) && k < |v.slots| && v.slots[k].ops > 0 && p < |v.threads|
    requires v.threads[p] == Draining(k) || (v.threads[p].Moving? && v.threads[p].ours == Some(k))
    ensures exists q :: WaitsFor(v, p, q)
  {
    hide Count;
    CountZero(v.threads, Pinning(k));
    var q :| 0 <= q < |v.threads| && Pinning(k)(v.threads[q]);
    assert WaitsFor(v, p, q);
  }

  /** No deadlock: as long as a call is under way, some call can go on. */
  lemma {:induction false} SomeoneCanGo(v: View, p: nat)
    requires Inv(v) && p < |v.threads| && v.threads[p] != Idle
    ensures exists q :: 0 <= q < |v.threads| && v.threads[q] != Idle && CanGo(v, q)
    decreases Rank(v, p)
  {
    hide Inv, CanGo, Rank;
    StuckWaits(v, p);
    if !CanGo(v, p) {
      var q :| WaitsFor(v, p, q);
      WaitsGoDown(v, p, q);
      SomeoneCanGo(v, q);
    }
  }

  // ---- the table itself ----

  /** The descriptor table, its open files, and where each caller is. */
  class PackTable {
    const slots: array<Slot>
    var files: map<nat, nat>
    var nextFile: nat
    ghost var dupLock: Option<nat>   // the caller inside the dup lock
    ghost var destroyed: set<nat>
    ghost var threads: seq<Thread>

    ghost function Table(): View
      reads this, slots
    {
      View(slots[..], files, destroyed, nextFile, threads, dupLock)
    }

    constructor (capacity: nat, ghost callers: seq<Thread>)
      requires forall p | 0 <= p < |callers| :: callers[p] == Idle
      ensures Init(Table()) && slots.Length == capacity && threads == callers && fresh(slots)
    {
      slots := new Slot[capacity](_ => Slot(Free, -1, 0, 0));
      files, nextFile, dupLock, destroyed, threads := map[], 0, None, {}, callers;
    }

    method FindHandle(fd: int, includeClosing: bool) returns (found: Option<nat>)
      ensures found.Some? ==> Found(slots[..], fd, includeClosing, found.value)
      ensures found.None? ==> NotFound(slots[..], fd, includeClosing)
    {
      if fd < 0 { return None; }
      for i := 0 to slots.Length
        invariant forall k: nat | k < i :: !Found(slots[..], fd, includeClosing, k)
      {
        var s := slots[i];
        if s.fd == fd && (s.state == Active || (includeClosing && s.state == Closing)) {
          return Some(i);
        }
      }
      return None;
    }

    method FindFree() returns (found: Option<nat>)
      ensures found.Some? ==> found.value < slots.Length && slots[found.value].state == Free
      ensures found.None? ==> forall k | 0 <= k < slots.Length :: slots[k].state != Free
    {
      for i := 0 to slots.Length
        invariant forall k | 0 <= k < i :: slots[k].state != Free
      {
        if slots[i].state == Free { return Some(i); }
      }
      return None;
    }

    /** open: a new open file without references. */
    method CreateOpenFile(ghost p: nat) returns (file: nat)
      requires Inv(Table()) && Enabled(Table(), p, Create)
      modifies this
      ensures Table() == After(old(Table()), p, Create) && threads[p] == Opening(file)
    {
      file := nextFile;
      files, nextFile := files[file := 0], nextFile + 1;
      threads := threads[p := Opening(file)];
    }

    /** Installs a descriptor and takes one open-file reference; fails when the
        table is full or the descriptor is already in it. */
    method InstallHandle(ghost p: nat, fd: int, file: nat) returns (ok: bool, ghost step: Step)
      requires Inv(Table()) && p < |threads| && fd >= 0
      requires threads[p] == Opening(file) || (threads[p].Using? && threads[p].file == file)
      modifies this, slots
      ensures step.Install? && step.fd == fd && ok == step.into.Some?
      ensures Enabled(old(Table()), p, step) && Table() == After(old(Table()), p, step)
      ensures if ok then
                && FileOf(old(slots[..]), fd) == None
                && OnlyChanged(old(slots[..]), slots[..], fd, Some(file), Some(file))
                && ReferenceMoved(old(files), files, None, Some(file))
              else slots[..] == old(slots[..]) && files == old(files)
    {
      hide Inv;
      assert file in files by {
        if threads[p].Using? {
          PinnedFileReferenced(Table(), p);
        } else {
          OpeningUnreferenced(Table(), p);
        }
      }
      var slot := FindFree();
      var taken := FindHandle(fd, true);
      ok := slot.Some? && taken.None?;
      step := Install(fd, if ok then slot else None);
      InstallNames(Table(), p, step);
      if ok {
        files := files[file := files[file] + 1];
        slots[slot.value] := Slot(Active, fd, 0, file);
        assert slots[..] == old(slots[..])[slot.value := Slot(Active, fd, 0, file)];
      }
      if threads[p].Opening? {
        threads := threads[p := if ok then Idle else Retiring(file)];
      }
      assert threads == old(threads)[p := threads[p]];
    }

    /** Pins the active slot of `fd`, if there is one. */
    method AcquireHandle(ghost p: nat, fd: int) returns (slot: Option<nat>)
      requires Inv(Table()) && p < |threads| && threads[p] == Idle
      modifies this, slots
      ensures slot.None? ==> NotFound(old(slots[..]), fd, false) && Table() == old(Table())
      ensures slot.Some? ==>
          Found(old(slots[..]), fd, false, slot.value) && Table() == After(old(Table()), p, Pin(slot.value))
    {
      hide Inv;
      slot := FindHandle(fd, false);
      if slot.Some? {
        var k := slot.value;
        slots[k] := slots[k].(ops := slots[k].ops + 1);
        threads := threads[p := Using(k, slots[k].file)];
        assert slots[..] == old(slots[..])[k := slots[k]];
      }
    }

    method ReleaseHandle(ghost p: nat, slot: nat)
      requires Inv(Table()) && p < |threads| && threads[p].Using? && threads[p].slot == slot
      modifies this, slots
      ensures Table() == After(old(Table()), p, Unpin)
    {
      hide Inv;
      UsingInSlot(Table(), p);
      PinCounted(Table(), p, slot);
      if slots[slot].ops > 0 {
        slots[slot] := slots[slot].(ops := slots[slot].ops - 1);
      }
      threads := threads[p := Idle];
      assert slots[..] == old(slots[..])[slot := slots[slot]];
    }

    /** close, up to its wait. */
    method BeginCloseFd(ghost p: nat, fd: int) returns (slot: Option<nat>)
      requires Inv(Table()) && p < |threads| && threads[p] == Idle
      modifies this, slots
      ensures slot.None? ==> NotFound(old(slots[..]), fd, false) && Table() == old(Table())
      ensures slot.Some? ==>
          Found(old(slots[..]), fd, false, slot.value) && Table() == After(old(Table()), p, BeginClose(slot.value))
      ensures slot.Some? ==>
                OnlyChanged(old(slots[..]), slots[..], fd, FileOf(old(slots[..]), fd), None) && files == old(files)
    {
      hide Inv;
      slot := FindHandle(fd, false);
      if slot.Some? {
        var k := slot.value;
        BeginCloseNames(Table(), p, BeginClose(k));
        SlotNames(Table(), k);
        slots[k] := slots[k].(state := Closing);
        threads := threads[p := Draining(k)];
        assert slots[..] == old(slots[..])[k := slots[k]];
      }
    }

    /** close, once the slot is drained; `retired` must still be freed. */
    method FinishCloseFd(ghost p: nat, slot: nat) returns (retired: Option<nat>)
      requires Inv(Table()) && p < |threads| && threads[p] == Draining(slot) && slot < slots.Length
          && slots[slot].ops == 0
      modifies this, slots
      ensures Table() == After(old(Table()), p, FinishClose)
      ensures threads[p] == if retired.Some? then Retiring(retired.value) else Idle
      ensures OnlyChanged(old(slots[..]), slots[..], old(slots[slot]).fd, None, None)
      ensures ReferenceMoved(old(files), files, FileOf(old(slots[..]), old(slots[slot]).fd), None)
    {
      hide Inv, FileOf, Opens, OnlyChanged, ReferenceMoved;
      FinishCloseNames(Table(), p);
      EmptiedIsClosing(Table(), slot, p);
      SlotNames(Table(), slot);
      var file := slots[slot].file;
      retired := None;
      if files[file] > 0 {
        files := files[file := files[file] - 1];
        if files[file] == 0 { retired := Some(file); }
      }
      slots[slot] := Slot(Free, -1, 0, 0);
      threads := threads[p := if retired.Some? then Retiring(file) else Idle];
      assert slots[..] == old(slots[..])[slot := slots[slot]];
    }

    /** Takes the dup lock and pins the source; `openOk` is whether the backing file
        could be opened once more. */
    method BeginDup2Fd(ghost p: nat, fd: int, target: int, openOk: bool) returns (slot: Option<nat>)
      requires Inv(Table()) && p < |threads| && threads[p] == Idle && dupLock == None && target >= 0 && fd != target
      modifies this, slots
      ensures slot.None? ==> NotFound(old(slots[..]), fd, false) && Table() == old(Table())
      ensures slot.Some? ==> Found(old(slots[..]), fd, false, slot.value)
      ensures slot.Some? ==> Table() == After(old(Table()), p, BeginDup2(slot.value, target, openOk))
    {
      hide Inv;
      slot := FindHandle(fd, false);
      if slot.Some? {
        var k := slot.value;
        slots[k] := slots[k].(ops := slots[k].ops + 1);
        dupLock := Some(p);
        threads := threads[p := if openOk then Moving(k, slots[k].file, target, None)
            else Moved(k, slots[k].file, None)];
        assert slots[..] == old(slots[..])[k := slots[k]];
      }
    }

    /** dup2 meets the table: it starts draining an open target, takes a free
        slot for an unused one, or waits while another thread closes it. */
    method TakeTarget(ghost p: nat, source: nat, file: nat, target: int, nativeOk: bool)
      returns (wait: bool, ghost step: Step)
      requires Inv(Table()) && p < |threads| && threads[p] == Moving(source, file, target, None)
      modifies this, slots
      ensures wait ==> Table() == old(Table()) && exists q :: WaitsFor(Table(), p, q)
      ensures !wait ==> (step.ClaimTarget? || step.FillTarget?) && Enabled(old(Table()), p, step)
      ensures !wait ==> Table() == After(old(Table()), p, step)
      ensures !wait && step == FillTarget(None) ==>
          !nativeOk || forall k | 0 <= k < slots.Length :: slots[k].state != Free
      ensures !wait && step.FillTarget? && step.into.Some? ==> nativeOk
      ensures source < slots.Length
      ensures !wait && step.FillTarget? ==>
                if step.into.Some? then
                  var gets := FileOf(old(slots[..]), old(slots[source]).fd);
                  && gets.Some? && OnlyChanged(old(slots[..]), slots[..], target, gets, gets)
                  && ReferenceMoved(old(files), files, None, gets)
                else slots[..] == old(slots[..]) && files == old(files)
    {
      hide Inv, Count, FileOf, Opens, OnlyChanged, ReferenceMoved;
      MovingSlots(Table(), p);
      SlotNames(Table(), source);
      PinnedFileReferenced(Table(), p);
      var found := FindHandle(target, true);
      if found.Some? {
        var m := found.value;
        wait, step := slots[m].state == Closing, ClaimTarget(m);
        if wait {
          ClosingHasCloser(Table(), p, m);
        } else {
          slots[m] := slots[m].(state := Closing);
          threads := threads[p := Moving(source, file, target, Some(m))];
          assert slots[..] == old(slots[..])[m := slots[m]];
        }
      } else {
        var slot := FindFree();
        if !nativeOk { slot := None; }
        wait, step := false, FillTarget(slot);
        FillTargetNames(Table(), p, step);
        if slot.Some? {
          files := files[file := files[file] + 1];
          slots[slot.value] := Slot(Active, target, 0, file);
          assert slots[..] == old(slots[..])[slot.value := slots[slot.value]];
        }
        threads := threads[p := Moved(source, file, None)];
      }
    }

    /** dup2 once its target slot is drained; `nativeOk` is how dup2 on the
        backing descriptors went. */
    method ReplaceDrained(ghost p: nat, source: nat, file: nat, target: int, m: nat, nativeOk: bool)
      returns (retired: Option<nat>)
      requires Inv(Table()) && p < |threads| && threads[p] == Moving(source, file, target, Some(m))
      requires m < slots.Length && slots[m].ops == 0
      modifies this, slots
      ensures Table() == After(old(Table()), p, ReplaceTarget(nativeOk)) && threads[p] == Moved(source, file, retired)
      ensures source < slots.Length
      ensures var had, gets := FileOf(old(slots[..]), target), FileOf(old(slots[..]), old(slots[source]).fd);
              && had.Some? && gets.Some?
              && if nativeOk then
                   && OnlyChanged(old(slots[..]), slots[..], target, gets, gets)
                   && ReferenceMoved(old(files), files, had, gets)
                 else
                   OnlyChanged(old(slots[..]), slots[..], target, had, had) && files == old(files)
    {
      hide Inv, FileOf, Opens, OnlyChanged, ReferenceMoved;
      MovingSlots(Table(), p);
      SlotNames(Table(), source);
      SlotNames(Table(), m);
      ReplaceTargetNames(Table(), p, nativeOk);
      EmptiedIsClosing(Table(), m, p);
      PinnedFileReferenced(Table(), p);
      retired := None;
      if !nativeOk {
        slots[m] := slots[m].(state := Active);
      } else {
        var previous := slots[m].file;
        if previous != file {
          if files[previous] > 0 {
            files := files[previous := files[previous] - 1];
            if files[previous] == 0 { retired := Some(previous); }
          }
          files := files[file := files[file] + 1];
        }
        slots[m] := Slot(Active, target, 0, file);
      }
      threads := threads[p := Moved(source, file, retired)];
      assert slots[..] == old(slots[..])[m := slots[m]];
    }

    method EndDup2Fd(ghost p: nat, source: nat)
      requires Inv(Table()) && p < |threads| && threads[p].Moved? && threads[p].slot == source
          && threads[p].retired == None
      modifies this, slots
      ensures Table() == After(old(Table()), p, EndDup2)
    {
      hide Inv;
      UsingInSlot(Table(), p);
      PinCounted(Table(), p, source);
      if slots[source].ops > 0 {
        slots[source] := slots[source].(ops := slots[source].ops - 1);
      }
      dupLock := None;
      threads := threads[p := Idle];
      assert slots[..] == old(slots[..])[source := slots[source]];
    }

    /** destroy_open_file: frees an open file nobody references. */
    method DestroyOpenFile(ghost p: nat, file: nat)
      requires Inv(Table()) && p < |threads|
          && (threads[p] == Retiring(file) || (threads[p].Moved? && threads[p].retired == Some(file)))
      modifies this
      ensures Table() == After(old(Table()), p, Destroy)
    {
      files, destroyed := files - {file}, destroyed + {file};
      threads := threads[p := if threads[p].Retiring? then Idle else threads[p].(retired := None)];
    }
  }
}
