/** The pipe's ring buffer in memory, and the sections of a read, a write and a
    capacity change on it (source/fakefd.c lines 358 to 399, 450 to 474 and 539
    to 567), refining the byte string of module Pipe. */
module PipeBuffer {
  import opened Bytes
  import Pipe

  /** Places of a ring of `cap` bytes; the sums stay below twice `cap`. */
  function Wrap(x: nat, cap: nat): (r: nat)
    requires cap > 0
    ensures r < cap
    ensures x < cap ==> r == x
    ensures cap <= x < 2 * cap ==> r == x - cap
  {
    WrapIs(x, cap);
    x % cap
  }

  lemma WrapIs(x: nat, cap: nat)
    requires cap > 0
    ensures 0 <= x % cap < cap
    ensures x < cap ==> x % cap == x
    ensures cap <= x < 2 * cap ==> x % cap == x - cap
  {
    if cap <= x < 2 * cap {
      assert x == cap * 1 + (x - cap);
    }
  }

  /** The byte `i` places on from `start`, around the ring. */
  function Place(s: bytes, start: nat, i: nat): byte
    requires |s| > 0
  {
    s[Wrap(start + i, |s|)]
  }

  /** The `len` bytes from `head` on, around the ring. */
  function Ring(s: bytes, head: nat, len: nat): (r: bytes)
    requires |s| > 0
    ensures |r| == len
    ensures forall i | 0 <= i < len :: r[i] == Place(s, head, i)
  {
    seq(len, i requires 0 <= i < len => Place(s, head, i))
  }

  /** Writing behind the contents, in two pieces when the ring ends between. */
  lemma RingPut(before: bytes, after: bytes, head: nat, len: nat, part: bytes)
    requires |before| == |after| > 0 && head < |before| && len + |part| <= |before|
    requires forall i | 0 <= i < |part| :: Place(after, head + len, i) == part[i]
    requires forall i | 0 <= i < len :: Place(after, head, i) == Place(before, head, i)
    ensures Ring(after, head, len + |part|) == Ring(before, head, len) + part
  {
    var r := Ring(after, head, len + |part|);
    forall i | 0 <= i < len + |part| ensures r[i] == (Ring(before, head, len) + part)[i] {
      if i >= len {
        assert Place(after, head, i) == Place(after, head + len, i - len);
      }
    }
  }

  lemma RingTake(s: bytes, head: nat, len: nat)
    requires |s| > 0 && head < |s| && 0 < len <= |s|
    ensures Ring(s, head, len) == [s[head]] + Ring(s, Wrap(head + 1, |s|), len - 1)
  {
    var r, t := Ring(s, head, len), Ring(s, Wrap(head + 1, |s|), len - 1);
    forall i | 1 <= i < len ensures r[i] == t[i - 1] {
      assert Place(s, Wrap(head + 1, |s|), i - 1) == Place(s, head, i);
    }
  }

  class PipeBuffer {
    var buf: array<byte>
    var head: nat
    var len: nat
    var readers: bool
    var writers: bool

    ghost predicate Valid()
      reads this, buf
    {
      Pipe.ATOMIC_CAP <= buf.Length <= Pipe.MAX_CAP && head < buf.Length && len <= buf.Length
    }

    ghost function Contents(): bytes
      requires Valid()
      reads this, buf
    {
      Ring(buf[..], head, len)
    }

    /** What a section looks at, as the protocol sees it. */
    ghost function Seen(): Pipe.View
      requires Valid()
      reads this, buf
    {
      Pipe.View(Contents(), buf.Length, if readers then 1 else 0, if writers then 1 else 0, [], [], [], [])
    }

    constructor ()
      ensures Valid() && Contents() == [] && readers && writers && buf.Length == Pipe.DEFAULT_CAP && fresh(buf)
    {
      buf := new byte[Pipe.DEFAULT_CAP](_ => 0);
      head, len, readers, writers := 0, 0, true, true;
    }

    /** The two copies of a write section. */
    method Put(part: bytes)
      requires Valid() && len + |part| <= buf.Length
      modifies buf, this`len
      ensures Valid() && Contents() == old(Contents()) + part
    {
      hide Wrap, Place, Ring;
      var tail := Wrap(head + len, buf.Length);
      var first := buf.Length - tail;
      if first > |part| { first := |part|; }
      ghost var before := buf[..];
      Copy(tail, part, 0, first);
      Copy(0, part, first, |part| - first);
      PutPlaces(before, buf[..], head, len, part, tail, first);
      RingPut(before, buf[..], head, len, part);
      len := len + |part|;
    }

    /** memcpy into the buffer at `at`, of the `n` bytes of `part` from `skip` on. */
    method Copy(at: nat, part: bytes, skip: nat, n: nat)
      requires at + n <= buf.Length && skip + n <= |part|
      modifies buf
      ensures forall j | 0 <= j < buf.Length ::
          buf[j] == if at <= j < at + n then part[skip + (j - at)] else old(buf[j])
    {
      for i := 0 to n
        invariant forall j | 0 <= j < buf.Length ::
            buf[j] == if at <= j < at + i then part[skip + (j - at)] else old(buf[j])
      {
        buf[at + i] := part[skip + i];
      }
    }

    /** One section of a write call, from `wrote` on. */
    method WriteSection(source: bytes, wrote: nat, nonblock: bool) returns (now: nat, result: Pipe.Result)
      requires Valid() && wrote <= |source|
      modifies buf, this`len
      ensures Valid() && now == wrote + Pipe.WriteChunk(old(Seen()), |source|, wrote)
      ensures result == Pipe.WriteResult(old(Seen()), |source|, wrote, nonblock)
      ensures Contents() == old(Contents()) + source[wrote..now]
      ensures !readers ==>
                now == wrote && result ==
                if wrote == 0 && source != [] then Pipe.BrokenPipe else Pipe.Moved(wrote)
      ensures readers ==>
                var room := buf.Length - old(len);
                now == if wrote == 0 && room < |source| <= Pipe.ATOMIC_CAP then 0
                       else wrote + Pipe.Min(|source| - wrote, room)
      ensures readers && now == |source| ==> result == Pipe.Moved(now)
      ensures readers && now < |source| ==>
                result == if !nonblock then Pipe.Waits else if now > 0 then Pipe.Moved(now) else Pipe.Again
    {
      now := wrote;
      if wrote == |source| { return wrote, Pipe.Moved(wrote); }
      var available := buf.Length - len;
      if (available == 0 || (wrote == 0 && |source| <= Pipe.ATOMIC_CAP && available < |source|)) && readers {
        if !nonblock { return wrote, Pipe.Waits; }
        return wrote, if wrote > 0 then Pipe.Moved(wrote) else Pipe.Again;
      }
      if !readers { return wrote, if wrote > 0 then Pipe.Moved(wrote) else Pipe.BrokenPipe; }
      var chunk := |source| - wrote;
      if chunk > available { chunk := available; }
      Put(source[wrote..wrote + chunk]);
      now := wrote + chunk;
      result := if now == |source| || nonblock then Pipe.Moved(now) else Pipe.Waits;
    }

    /** One section of a read call: it takes from the front, byte by byte. */
    method ReadSection(n: nat, nonblock: bool) returns (data: bytes, result: Pipe.Result)
      requires Valid() && n > 0
      modifies this`head, this`len
      ensures Valid() && result == Pipe.ReadResult(old(Seen()), n, nonblock)
      ensures old(Contents()) == data + Contents()
      ensures |data| == Pipe.Min(n, old(len))
      ensures result ==
                if old(len) > 0 || !writers then Pipe.Moved(|data|) else if nonblock then Pipe.Again else Pipe.Waits
    {
      hide Ring, Wrap, Place;
      data := [];
      if len == 0 && writers { return [], if nonblock then Pipe.Again else Pipe.Waits; }
      while |data| < n && len > 0
        invariant Valid() && |data| <= n && old(Contents()) == data + Contents()
        decreases len
      {
        RingTake(buf[..], head, len);
        ghost var before, rest := data, Ring(buf[..], Wrap(head + 1, buf.Length), len - 1);
        data := data + [buf[head]];
        assert before + ([buf[head]] + rest) == data + rest;
        head := Wrap(head + 1, buf.Length);
        len := len - 1;
      }
      result := Pipe.Moved(|data|);
    }

    /** F_SETPIPE_SZ: None is an error. A change of capacity moves the unread
        bytes to the front of a new buffer; `allocates` is whether there is memory
        for it. */
    method SetCapacity(argument: int, allocates: bool) returns (r: Option<nat>)
      requires Valid()
      modifies this`buf, this`head
      ensures Valid() && Contents() == old(Contents())
      ensures r.Some? <==>
                Pipe.CapacityOk(old(Seen()), argument) && (allocates || Pipe.Rounded(argument) == old(buf.Length))
      ensures r.Some? ==> r.value == buf.Length == Pipe.Rounded(argument)
      ensures r.None? || r.value == old(buf.Length) ==> buf == old(buf) && head == old(head)
    {
      if argument <= 0 || argument > Pipe.MAX_CAP { return None; }
      Pipe.RoundedBounds(argument);
      var capacity := Pipe.Rounded(argument);
      hide Pipe.Rounded;
      if capacity < len { return None; }
      if capacity != buf.Length {
        if !allocates { return None; }
        var replacement := new byte[capacity](_ => 0);
        for i := 0 to len
          invariant buf == old(buf) && head == old(head)
          invariant forall j | 0 <= j < i :: replacement[j] == Contents()[j]
        {
          assert Contents()[i] == Place(buf[..], head, i);
          replacement[i] := buf[Wrap(head + i, buf.Length)];
        }
        ghost var before := Contents();
        buf, head := replacement, 0;
        assert forall j | 0 <= j < len :: Place(buf[..], 0, j) == before[j];
      }
      return Some(buf.Length);
    }
  }

  /** Where the two copies of a write put its bytes, seen around the ring. */
  lemma PutPlaces(before: bytes, after: bytes, head: nat, len: nat, part: bytes, tail: nat, first: nat)
    requires |before| == |after| > 0 && head < |before| && len + |part| <= |before|
    requires tail == Wrap(head + len, |before|)
        && first == (if |before| - tail > |part| then |part| else |before| - tail)
    requires forall j | 0 <= j < |before| ::
               after[j] == if j < |part| - first then part[first + j]
                   else if tail <= j < tail + first then part[j - tail] else before[j]
    ensures forall i | 0 <= i < |part| :: Place(after, head + len, i) == part[i]
    ensures forall i | 0 <= i < len :: Place(after, head, i) == Place(before, head, i)
  {
    var cap := |before|;
    forall i | 0 <= i < |part| ensures Place(after, head + len, i) == part[i] {
      PlaceOf(head, len, i, cap, tail, first, |part|);
    }
    forall i | 0 <= i < len ensures Place(after, head, i) == Place(before, head, i) {
      PlaceOutside(head, len, i, cap, tail, first, |part|);
    }
  }

  lemma PlaceOf(head: nat, len: nat, i: nat, cap: nat, tail: nat, first: nat, n: nat)
    requires cap > 0 && head < cap && len + n <= cap && i < n && tail == Wrap(head + len, cap)
    requires first == if cap - tail > n then n else cap - tail
    ensures Wrap(head + len + i, cap) == if i < first then tail + i else i - first
  {
    hide Wrap;
  }

  lemma PlaceOutside(head: nat, len: nat, i: nat, cap: nat, tail: nat, first: nat, n: nat)
    requires cap > 0 && head < cap && len + n <= cap && i < len && tail == Wrap(head + len, cap)
    requires first == if cap - tail > n then n else cap - tail
    ensures var p := Wrap(head + i, cap); p >= n - first && !(tail <= p < tail + first)
  {
    hide Wrap;
  }
}
