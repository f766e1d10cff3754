/** The in-process pipe (source/fakefd.c lines 56 to 110, 340 to 399, 435 to
    475 and 500 to 567): descriptors, reference counts, and reads, writes and
    capacity changes that take the lock in turn. A blocked call gives up the lock
    in a condition wait and tries again in a later section. */
module Pipe {
  import opened Bytes
  import opened Counting

  const ATOMIC_CAP: nat := 4096
  const DEFAULT_CAP: nat := 4096
  const MAX_CAP: nat := 0x10_0000

  datatype End = ReadEnd | WriteEnd

  /** One read or write call; `wrote` is how far a write got. */
  datatype Op = Op(end: End, data: bytes, count: nat, wrote: nat, active: bool)

  /** A run of bytes that one section of one call put into the pipe. */
  datatype Segment = Segment(op: nat, data: bytes)

  datatype View = View(
    contents: bytes, capacity: nat, readRefs: nat, writeRefs: nat,
    fds: seq<Option<End>>, ops: seq<Op>,
    log: seq<Segment>, delivered: bytes)

  datatype Result = Waits | Moved(n: nat) | Again | BrokenPipe

  predicate Readers(v: View) { v.readRefs > 0 }

  predicate Writers(v: View) { v.writeRefs > 0 }

  /** The pipe's memory is freed with its last reference. */
  predicate Freed(v: View) { !Readers(v) && !Writers(v) }

  function Min(a: nat, b: nat): nat { if a < b then a else b }

  // ---- one section of a write ----

  function Room(v: View): nat { if |v.contents| <= v.capacity then v.capacity - |v.contents| else 0 }

  /** A write that may be atomic waits for room for all of it. */
  predicate MustWait(v: View, n: nat, wrote: nat) {
    (Room(v) == 0 || (wrote == 0 && n <= ATOMIC_CAP && Room(v) < n)) && Readers(v)
  }

  /** How many bytes the section moves. */
  function WriteChunk(v: View, n: nat, wrote: nat): (chunk: nat)
    requires wrote <= n
    ensures chunk <= n - wrote && chunk <= Room(v)
  {
    if wrote == n || MustWait(v, n, wrote) || !Readers(v) then 0 else Min(n - wrote, Room(v))
  }

  function WriteResult(v: View, n: nat, wrote: nat, nonblock: bool): Result
    requires wrote <= n
  {
    if wrote == n then Moved(n)
    else if MustWait(v, n, wrote) then (if !nonblock then Waits else if wrote > 0 then Moved(wrote) else Again)
    else if !Readers(v) then (if wrote > 0 then Moved(wrote) else BrokenPipe)
    else
      var after := wrote + WriteChunk(v, n, wrote);
      if after == n || nonblock then Moved(after) else Waits
  }

  /** A write of at most 4096 bytes moves all or nothing in a section. */
  lemma SmallWritesAreWhole(v: View, n: nat, wrote: nat)
    requires n <= ATOMIC_CAP && wrote in {0, n} && v.capacity >= ATOMIC_CAP
    ensures wrote + WriteChunk(v, n, wrote) in {0, n}
  {
  }

  // ---- one section of a read ----

  function ReadResult(v: View, n: nat, nonblock: bool): Result {
    if n > 0 && v.contents == [] && Writers(v) then (if nonblock then Again else Waits)
    else Moved(Min(n, |v.contents|))
  }

  // ---- capacity ----

  /** What F_SETPIPE_SZ rounds its argument to. */
  function Rounded(argument: nat): nat { (argument + ATOMIC_CAP - 1) / ATOMIC_CAP * ATOMIC_CAP }

  lemma RoundedBounds(argument: nat)
    requires 0 < argument <= MAX_CAP
    ensures argument <= Rounded(argument) < argument + ATOMIC_CAP && Rounded(argument) <= MAX_CAP
    ensures Rounded(argument) >= ATOMIC_CAP
  {
    var k := (argument + ATOMIC_CAP - 1) / ATOMIC_CAP;
    assert 1 <= k <= 256;
  }

  predicate CapacityOk(v: View, argument: int) {
    0 < argument <= MAX_CAP && |v.contents| <= Rounded(argument)
  }

  // ---- events ----

  datatype Event =
    | BeginWrite(slot: nat, data: bytes)
    | BeginRead(slot: nat, count: nat)
    | Section(op: nat, nonblock: bool)
    | Dup(slot: nat, target: nat)
    | Close(slot: nat)
    | SetCapacity(slot: nat, argument: int)

  predicate Open(v: View, slot: nat) { slot < |v.fds| && v.fds[slot].Some? }

  predicate Allowed(v: View, e: Event) {
    match e
    case BeginWrite(slot, _) => Open(v, slot) && v.fds[slot] == Some(WriteEnd)
    case BeginRead(slot, _) => Open(v, slot) && v.fds[slot] == Some(ReadEnd)
    case Section(op, _) => op < |v.ops| && v.ops[op].active && v.ops[op].wrote <= |v.ops[op].data|
    case Dup(slot, target) => Open(v, slot) && target < |v.fds| && v.fds[target].None?
    case Close(slot) => Open(v, slot)
    case SetCapacity(slot, _) => Open(v, slot)
  }

  function AddRefs(v: View, end: End, n: int): View
    requires n >= -1
  {
    if end == ReadEnd then v.(readRefs := if v.readRefs + n >= 0 then v.readRefs + n else 0)
    else v.(writeRefs := if v.writeRefs + n >= 0 then v.writeRefs + n else 0)
  }

  /** The section of a write call: one segment, and the reference goes when the
      call returns. */
  function WriteSection(v: View, i: nat, nonblock: bool): View
    requires i < |v.ops| && v.ops[i].wrote <= |v.ops[i].data|
  {
    var o := v.ops[i];
    var chunk := WriteChunk(v, |o.data|, o.wrote);
    var part := o.data[o.wrote..o.wrote + chunk];
    var finished := WriteResult(v, |o.data|, o.wrote, nonblock) != Waits;
    var w := v.(contents := v.contents + part, log := if part == [] then v.log else v.log + [Segment(i, part)],
                ops := v.ops[i := o.(wrote := o.wrote + chunk, active := !finished)]);
    if finished then AddRefs(w, WriteEnd, -1) else w
  }

  function ReadSection(v: View, i: nat, nonblock: bool): View
    requires i < |v.ops|
  {
    var o := v.ops[i];
    var result := ReadResult(v, o.count, nonblock);
    if result == Waits then v
    else
      var n := if result.Moved? then Min(result.n, |v.contents|) else 0;
      AddRefs(v.(contents := v.contents[n..], delivered := v.delivered + v.contents[..n],
          ops := v.ops[i := o.(active := false)]),
              ReadEnd, -1)
  }

  function After(v: View, e: Event): View
    requires Allowed(v, e)
  {
    match e
    case BeginWrite(slot, data) => AddRefs(v.(ops := v.ops + [Op(WriteEnd, data, 0, 0, true)]), WriteEnd, 1)
    case BeginRead(slot, count) => AddRefs(v.(ops := v.ops + [Op(ReadEnd, [], count, 0, true)]), ReadEnd, 1)
    case Section(op, nonblock) => if v.ops[op].end == WriteEnd then WriteSection(v, op, nonblock)
      else ReadSection(v, op, nonblock)
    case Dup(slot, target) => AddRefs(v.(fds := v.fds[target := v.fds[slot]]), v.fds[slot].value, 1)
    case Close(slot) => AddRefs(v.(fds := v.fds[slot := None]), v.fds[slot].value, -1)
    case SetCapacity(slot, argument) => if CapacityOk(v, argument) then v.(capacity := Rounded(argument)) else v
  }

  // ---- the invariant ----

  function Flatten(log: seq<Segment>): bytes {
    if log == [] then [] else Flatten(log[..|log| - 1]) + log[|log| - 1].data
  }

  /** What one call put into the pipe, in order. */
  function OfOp(log: seq<Segment>, i: nat): bytes {
    if log == [] then []
    else OfOp(log[..|log| - 1], i) + (if log[|log| - 1].op == i then log[|log| - 1].data else [])
  }

  predicate IsEnd(fd: Option<End>, end: End) { fd == Some(end) }

  predicate UsesEnd(o: Op, end: End) { o.active && o.end == end }

  function OnEnd(end: End): Option<End> -> bool { (fd: Option<End>) => IsEnd(fd, end) }

  function UsingEnd(end: End): Op -> bool { (o: Op) => UsesEnd(o, end) }

  /** Descriptors and calls under way: the owners of an end. */
  function Owners(v: View, end: End): nat { Count(v.fds, OnEnd(end)) + Count(v.ops, UsingEnd(end)) }

  ghost predicate OpOk(v: View, i: nat)
    requires i < |v.ops|
  {
    && v.ops[i].wrote <= |v.ops[i].data|
    && OfOp(v.log, i) == v.ops[i].data[..v.ops[i].wrote]
    && (|v.ops[i].data| <= ATOMIC_CAP ==> v.ops[i].wrote in {0, |v.ops[i].data|})
  }

  ghost predicate Inv(v: View) {
    && |v.contents| <= v.capacity && ATOMIC_CAP <= v.capacity <= MAX_CAP
    && RefsRight(v)
    && v.delivered + v.contents == Flatten(v.log)
    && (forall i | 0 <= i < |v.ops| :: OpOk(v, i))
    && (forall k | 0 <= k < |v.log| :: v.log[k].op < |v.ops| && v.log[k].data != [])
    && (forall j, k | 0 <= j < k < |v.log| && v.log[j].op == v.log[k].op :: |v.ops[v.log[j].op].data| > ATOMIC_CAP)
  }

  /** pipe(): two descriptors, nothing buffered. */
  function NewPipe(slots: nat): View
    requires slots >= 2
  {
    View([], DEFAULT_CAP, 1, 1, [Some(ReadEnd), Some(WriteEnd)] + seq(slots - 2, _ => None), [], [], [])
  }

  lemma NewPipeInv(slots: nat)
    requires slots >= 2
    ensures Inv(NewPipe(slots))
  {
    var v := NewPipe(slots);
    hide Count;
    NewPipeOwners(slots, ReadEnd);
    NewPipeOwners(slots, WriteEnd);
    CountZero(v.ops, UsingEnd(ReadEnd));
    CountZero(v.ops, UsingEnd(WriteEnd));
  }

  lemma NewPipeOwners(slots: nat, end: End)
    requires slots >= 2
    ensures Count(NewPipe(slots).fds, OnEnd(end)) == 1
  {
    hide Count;
    var blank: seq<Option<End>> := seq(slots, _ => None);
    forall i | 0 <= i < slots ensures !OnEnd(end)(blank[i]) { assert blank[i] == None; }
    CountZero(blank, OnEnd(end));
    CountUpdate(blank, 0, Some(ReadEnd), OnEnd(end));
    CountUpdate(blank[0 := Some(ReadEnd)], 1, Some(WriteEnd), OnEnd(end));
    assert NewPipe(slots).fds == blank[0 := Some(ReadEnd)][1 := Some(WriteEnd)];
    if end == ReadEnd { assert OnEnd(end)(Some(ReadEnd)) && !OnEnd(end)(Some(WriteEnd)); }
    else { assert !OnEnd(end)(Some(ReadEnd)) && OnEnd(end)(Some(WriteEnd)); }
  }

  lemma FlattenAppend(log: seq<Segment>, s: Segment)
    ensures Flatten(log + [s]) == Flatten(log) + s.data
  {
    assert (log + [s])[..|log|] == log;
  }

  lemma OfOpAppend(log: seq<Segment>, s: Segment, i: nat)
    ensures OfOp(log + [s], i) == OfOp(log, i) + (if s.op == i then s.data else [])
  {
    assert (log + [s])[..|log|] == log;
  }

  /** A call that put nothing in has no segment. */
  lemma {:induction false} OfOpEmpty(log: seq<Segment>, i: nat, k: nat)
    requires OfOp(log, i) == [] && k < |log| && (forall j | 0 <= j < |log| :: log[j].data != [])
    ensures log[k].op != i
    decreases |log|
  {
    var n := |log| - 1;
    if k < n { OfOpEmpty(log[..n], i, k); }
  }

  lemma {:induction false} OfOpNone(log: seq<Segment>, i: nat)
    requires forall k | 0 <= k < |log| :: log[k].op != i
    ensures OfOp(log, i) == []
    decreases |log|
  {
    if log != [] { OfOpNone(log[..|log| - 1], i); }
  }

  lemma CountAppend<T>(s: seq<T>, x: T, p: T -> bool)
    ensures Count(s + [x], p) == Count(s, p) + Counting.One(p(x))
    decreases |s|
  {
    if s == [] {
      assert (s + [x])[1..] == [];
    } else {
      CountAppend(s[1..], x, p);
      assert (s + [x])[1..] == s[1..] + [x];
    }
  }

  // ---- ownership ----

  predicate RefsRight(v: View) { v.readRefs == Owners(v, ReadEnd) && v.writeRefs == Owners(v, WriteEnd) }

  lemma FdsMove(v: View, slot: nat, fd: Option<End>, end: End)
    requires slot < |v.fds|
    ensures Owners(v.(fds := v.fds[slot := fd]), end) + Counting.One(IsEnd(v.fds[slot], end))
      == Owners(v, end) + Counting.One(IsEnd(fd, end))
  {
    CountUpdate(v.fds, slot, fd, OnEnd(end));
  }

  lemma OpsMove(v: View, i: nat, o: Op, end: End)
    requires i < |v.ops|
    ensures Owners(v.(ops := v.ops[i := o]), end) + Counting.One(UsesEnd(v.ops[i], end))
        == Owners(v, end) + Counting.One(UsesEnd(o, end))
  {
    CountUpdate(v.ops, i, o, UsingEnd(end));
  }

  lemma OpsGrow(v: View, o: Op, end: End)
    ensures Owners(v.(ops := v.ops + [o]), end) == Owners(v, end) + Counting.One(UsesEnd(o, end))
  {
    CountAppend(v.ops, o, UsingEnd(end));
  }

  /** Only descriptors and calls under way own an end. */
  lemma SameOwners(v: View, w: View, end: End)
    requires v.fds == w.fds && v.ops == w.ops
    ensures Owners(v, end) == Owners(w, end)
  {
  }

  /** Whoever acts owns the end it acts on, so the pipe is still there. */
  lemma OwnerHolds(v: View, e: Event)
    requires Inv(v) && Allowed(v, e)
    ensures !Freed(v)
    ensures e.Section? ==> (if v.ops[e.op].end == ReadEnd then Readers(v) else Writers(v))
    ensures e.Close? || e.Dup? ==> (if v.fds[e.slot].value == ReadEnd then Readers(v) else Writers(v))
  {
    if e.Section? { OpHolds(v, e.op); } else { FdHolds(v, e.slot); }
  }

  lemma OpHolds(v: View, i: nat)
    requires RefsRight(v) && i < |v.ops| && v.ops[i].active
    ensures if v.ops[i].end == ReadEnd then Readers(v) else Writers(v)
  {
    hide Count;
    var end := v.ops[i].end;
    CountZero(v.ops, UsingEnd(end));
    assert UsingEnd(end)(v.ops[i]);
    if end == ReadEnd { assert v.readRefs > 0; } else { assert v.writeRefs > 0; }
  }

  lemma FdHolds(v: View, slot: nat)
    requires RefsRight(v) && Open(v, slot)
    ensures if v.fds[slot].value == ReadEnd then Readers(v) else Writers(v)
  {
    hide Count;
    var end := v.fds[slot].value;
    CountZero(v.fds, OnEnd(end));
    assert OnEnd(end)(v.fds[slot]);
    if end == ReadEnd { assert v.readRefs > 0; } else { assert v.writeRefs > 0; }
  }

  // ---- every event keeps the invariant ----

  lemma DescriptorEventKeeps(v: View, e: Event)
    requires Inv(v) && Allowed(v, e) && (e.Dup? || e.Close?)
    ensures Inv(After(v, e))
  {
    hide Count, Owners, Flatten, OfOp;
    OwnerHolds(v, e);
    var end := v.fds[e.slot].value;
    var slot := if e.Dup? then e.target else e.slot;
    var fd := if e.Dup? then v.fds[e.slot] else None;
    FdsMove(v, slot, fd, ReadEnd);
    FdsMove(v, slot, fd, WriteEnd);
    SameOwners(v.(fds := v.fds[slot := fd]), After(v, e), ReadEnd);
    SameOwners(v.(fds := v.fds[slot := fd]), After(v, e), WriteEnd);
    forall i | 0 <= i < |v.ops| ensures OpOk(After(v, e), i) { assert OpOk(v, i); }
  }

  lemma BeginKeeps(v: View, e: Event)
    requires Inv(v) && Allowed(v, e) && (e.BeginWrite? || e.BeginRead?)
    ensures Inv(After(v, e))
  {
    hide Count, Owners, Flatten, OfOp;
    var w := After(v, e);
    var o := w.ops[|v.ops|];
    OpsGrow(v, o, ReadEnd);
    OpsGrow(v, o, WriteEnd);
    SameOwners(v.(ops := v.ops + [o]), w, ReadEnd);
    SameOwners(v.(ops := v.ops + [o]), w, WriteEnd);
    OfOpNone(v.log, |v.ops|);
    forall i | 0 <= i < |w.ops| ensures OpOk(w, i) { if i < |v.ops| { assert OpOk(v, i); } }
  }

  lemma CapacityKeeps(v: View, e: Event)
    requires Inv(v) && Allowed(v, e) && e.SetCapacity?
    ensures Inv(After(v, e)) && After(v, e).contents == v.contents
  {
    hide Count, Flatten, OfOp, Rounded;
    if CapacityOk(v, e.argument) { RoundedBounds(e.argument); }
    forall i | 0 <= i < |v.ops| ensures OpOk(After(v, e), i) { assert OpOk(v, i); }
  }

  lemma ReadKeeps(v: View, i: nat, nonblock: bool)
    requires Inv(v) && i < |v.ops| && v.ops[i].active && v.ops[i].end == ReadEnd
    ensures Inv(ReadSection(v, i, nonblock))
  {
    hide Count, Owners, Flatten, OfOp;
    assert OpOk(v, i);
    OpHolds(v, i);
    var w := ReadSection(v, i, nonblock);
    if ReadResult(v, v.ops[i].count, nonblock) != Waits {
      var o := v.ops[i].(active := false);
      OpsMove(v, i, o, ReadEnd);
      OpsMove(v, i, o, WriteEnd);
      SameOwners(v.(ops := v.ops[i := o]), w, ReadEnd);
      SameOwners(v.(ops := v.ops[i := o]), w, WriteEnd);
      forall j | 0 <= j < |w.ops| ensures OpOk(w, j) { assert OpOk(v, j); }
    }
  }

  /** What a write section changes besides the reference. */
  lemma WriteMoves(v: View, i: nat, nonblock: bool)
    requires Inv(v) && i < |v.ops| && v.ops[i].active && v.ops[i].end == WriteEnd && v.ops[i].wrote <= |v.ops[i].data|
    ensures var w := WriteSection(v, i, nonblock);
            && |w.contents| <= w.capacity && w.delivered + w.contents == Flatten(w.log)
            && (forall j | 0 <= j < |w.ops| :: OpOk(w, j))
  {
    hide Count, Owners, Flatten, OfOp;
    var w := WriteSection(v, i, nonblock);
    var o := v.ops[i];
    var chunk := WriteChunk(v, |o.data|, o.wrote);
    var part := o.data[o.wrote..o.wrote + chunk];
    assert OpOk(v, i);
    FlattenAppend(v.log, Segment(i, part));
    if |o.data| <= ATOMIC_CAP { SmallWritesAreWhole(v, |o.data|, o.wrote); }
    forall j: nat | j < |w.ops| ensures OpOk(w, j) {
      assert OpOk(v, j);
      OfOpAppend(v.log, Segment(i, part), j);
      assert o.data[..o.wrote + chunk] == o.data[..o.wrote] + part;
    }
  }

  /** A second segment comes only from a write longer than 4096 bytes. */
  lemma WriteSegments(v: View, i: nat, nonblock: bool)
    requires Inv(v) && i < |v.ops| && v.ops[i].active && v.ops[i].end == WriteEnd && v.ops[i].wrote <= |v.ops[i].data|
    ensures var w := WriteSection(v, i, nonblock);
            && (forall k | 0 <= k < |w.log| :: w.log[k].op < |w.ops| && w.log[k].data != [])
            && (forall j, k | 0 <= j < k < |w.log| && w.log[j].op == w.log[k].op ::
                |w.ops[w.log[j].op].data| > ATOMIC_CAP)
  {
    hide Count, Owners, Flatten, OfOp;
    var w := WriteSection(v, i, nonblock);
    var o := v.ops[i];
    assert OpOk(v, i);
    if WriteChunk(v, |o.data|, o.wrote) > 0 && |o.data| <= ATOMIC_CAP {
      assert o.wrote == 0;
      forall j: nat | j < |v.log| ensures v.log[j].op != i { OfOpEmpty(v.log, i, j); }
    }
  }

  lemma WriteKeeps(v: View, i: nat, nonblock: bool)
    requires Inv(v) && i < |v.ops| && v.ops[i].active && v.ops[i].end == WriteEnd && v.ops[i].wrote <= |v.ops[i].data|
    ensures Inv(WriteSection(v, i, nonblock))
  {
    hide Count, Owners, Flatten, OfOp, OpOk;
    WriteMoves(v, i, nonblock);
    WriteSegments(v, i, nonblock);
    WriteRefs(v, i, nonblock);
  }

  lemma WriteRefs(v: View, i: nat, nonblock: bool)
    requires RefsRight(v) && i < |v.ops| && v.ops[i].active && v.ops[i].end == WriteEnd
        && v.ops[i].wrote <= |v.ops[i].data|
    ensures RefsRight(WriteSection(v, i, nonblock))
    ensures WriteSection(v, i, nonblock).capacity == v.capacity
  {
    hide Count, Owners, MustWait, WriteChunk;
    OpHolds(v, i);
    var w := WriteSection(v, i, nonblock);
    OpsMove(v, i, w.ops[i], ReadEnd);
    OpsMove(v, i, w.ops[i], WriteEnd);
    SameOwners(v.(ops := v.ops[i := w.ops[i]]), w, ReadEnd);
    SameOwners(v.(ops := v.ops[i := w.ops[i]]), w, WriteEnd);
  }

  lemma EventKeeps(v: View, e: Event)
    requires Inv(v) && Allowed(v, e)
    ensures Inv(After(v, e))
  {
    hide Inv, WriteSection, ReadSection, AddRefs;
    match e
    case BeginWrite(_, _) => BeginKeeps(v, e);
    case BeginRead(_, _) => BeginKeeps(v, e);
    case Section(op, nonblock) =>
      if v.ops[op].end == WriteEnd { WriteKeeps(v, op, nonblock); } else { ReadKeeps(v, op, nonblock); }
    case Dup(_, _) => DescriptorEventKeeps(v, e);
    case Close(_) => DescriptorEventKeeps(v, e);
    case SetCapacity(_, _) => CapacityKeeps(v, e);
  }

  ghost predicate Runs(v: View, events: seq<Event>, w: View)
    decreases |events|
  {
    if events == [] then v == w
    else Allowed(v, events[0]) && Runs(After(v, events[0]), events[1..], w)
  }

  lemma {:induction false} RunKeeps(v: View, events: seq<Event>, w: View)
    requires Inv(v) && Runs(v, events, w)
    ensures Inv(w)
    decreases |events|
  {
    hide Inv, Allowed, After;
    if events != [] {
      EventKeeps(v, events[0]);
      RunKeeps(After(v, events[0]), events[1..], w);
    }
  }

  /** For any interleaving: the bytes read, then the bytes buffered, are the
      bytes the writes put in, in order; each write put in a prefix of its data;
      and a write of at most 4096 bytes is one unbroken segment or nothing. */
  lemma BytesFlowInOrder(slots: nat, events: seq<Event>, w: View)
    requires slots >= 2 && Runs(NewPipe(slots), events, w)
    ensures w.delivered + w.contents == Flatten(w.log)
    ensures forall i | 0 <= i < |w.ops| ::
        w.ops[i].wrote <= |w.ops[i].data| && OfOp(w.log, i) == w.ops[i].data[..w.ops[i].wrote]
    ensures forall i | 0 <= i < |w.ops| && |w.ops[i].data| <= ATOMIC_CAP :: w.ops[i].wrote in {0, |w.ops[i].data|}
    ensures forall j, k | 0 <= j < k < |w.log| && w.log[j].op == w.log[k].op ::
              w.log[j].op < |w.ops| && |w.ops[w.log[j].op].data| > ATOMIC_CAP
    ensures |w.contents| <= w.capacity && ATOMIC_CAP <= w.capacity <= MAX_CAP
  {
    hide Inv, Runs, NewPipe, Flatten, OfOp;
    NewPipeInv(slots);
    RunKeeps(NewPipe(slots), events, w);
    InvMeans(w);
  }

  lemma InvMeans(w: View)
    requires Inv(w)
    ensures w.delivered + w.contents == Flatten(w.log)
    ensures forall i | 0 <= i < |w.ops| ::
        w.ops[i].wrote <= |w.ops[i].data| && OfOp(w.log, i) == w.ops[i].data[..w.ops[i].wrote]
    ensures forall i | 0 <= i < |w.ops| && |w.ops[i].data| <= ATOMIC_CAP :: w.ops[i].wrote in {0, |w.ops[i].data|}
    ensures forall j, k | 0 <= j < k < |w.log| && w.log[j].op == w.log[k].op ::
              w.log[j].op < |w.ops| && |w.ops[w.log[j].op].data| > ATOMIC_CAP
    ensures |w.contents| <= w.capacity && ATOMIC_CAP <= w.capacity <= MAX_CAP
  {
    forall i: nat | i < |w.ops|
      ensures w.ops[i].wrote <= |w.ops[i].data| && OfOp(w.log, i) == w.ops[i].data[..w.ops[i].wrote]
      ensures |w.ops[i].data| <= ATOMIC_CAP ==> w.ops[i].wrote in {0, |w.ops[i].data|}
    {
      assert OpOk(w, i);
    }
  }

  /** References are exactly the owners, so an end lives as long as somebody can
      use it, and no call or descriptor ever meets a freed pipe. */
  lemma PipeOutlivesItsUsers(slots: nat, events: seq<Event>, w: View, e: Event)
    requires slots >= 2 && Runs(NewPipe(slots), events, w)
    ensures w.readRefs == Owners(w, ReadEnd) && w.writeRefs == Owners(w, WriteEnd)
    ensures Allowed(w, e) ==> !Freed(w)
  {
    NewPipeInv(slots);
    RunKeeps(NewPipe(slots), events, w);
    if Allowed(w, e) { OwnerHolds(w, e); }
  }

  // ---- readiness ----

  /** What poll reports on the read end: data, or the writers are gone. */
  predicate PollIn(v: View) { v.contents != [] }

  predicate PollHup(v: View) { !Writers(v) }

  predicate PollOut(v: View) { Readers(v) && |v.contents| < v.capacity }

  predicate PollErr(v: View) { !Readers(v) }

  /** A read does not wait exactly when poll reports data or a hang-up. */
  lemma PollInIsReadable(v: View, n: nat)
    requires n > 0
    ensures ReadResult(v, n, false) != Waits <==> PollIn(v) || PollHup(v)
  {
  }

  /** A first write section moves bytes or fails at once, rather than wait, exactly
      when poll reports an error, or reports room and the write is longer than
      4096 bytes or fits; so readiness promises nothing to longer small writes. */
  lemma PollOutIsWritable(v: View, n: nat)
    requires n > 0 && |v.contents| <= v.capacity
    ensures !MustWait(v, n, 0) <==> PollErr(v) || (PollOut(v) && (n > ATOMIC_CAP || n <= v.capacity - |v.contents|))
    ensures PollOut(v) ==> !MustWait(v, 1, 0)
  {
  }
}
