/** A file whose physical size runs ahead of its logical size
    (source/genshin_compat.c lines 727 to 731, 873 to 1011, 1045 to 1293 and
    1472 to 1480), against a plain file of bytes. */
module TrackedFile {
  import opened Bytes

  const INT64_MAX: nat := 0x7FFF_FFFF_FFFF_FFFF
  const TRANSFER_PAGE: nat := 0x1_0000
  const BULK_THRESHOLD: nat := 0x10_0000
  const BULK_EXTENT: nat := 0x10_0000

  // ---- plain files ----

  function Zeros(n: nat): (z: bytes)
    ensures |z| == n && forall i | 0 <= i < n :: z[i] == 0
  {
    seq(n, _ => 0)
  }

  /** At least `n` bytes long, zero-filled. */
  function Grown(c: bytes, n: nat): (r: bytes)
    ensures |r| == if n <= |c| then |c| else n
    ensures forall i | 0 <= i < |r| :: r[i] == if i < |c| then c[i] else 0
  {
    if n <= |c| then c else c + Zeros(n - |c|)
  }

  /** Exactly `n` bytes long. */
  function Resized(c: bytes, n: nat): (r: bytes)
    ensures |r| == n
    ensures forall i | 0 <= i < n :: r[i] == if i < |c| then c[i] else 0
  {
    if n <= |c| then c[..n] else Grown(c, n)
  }

  function Patched(c: bytes, offset: nat, data: bytes): (r: bytes)
    requires offset + |data| <= |c|
    ensures |r| == |c|
    ensures forall i | 0 <= i < |c| :: r[i] == if offset <= i < offset + |data| then data[i - offset] else c[i]
  {
    c[..offset] + data + c[offset + |data|..]
  }

  /** pwrite on a plain file: grows over a hole of zeros, then overwrites. */
  function PlainWrite(c: bytes, offset: nat, data: bytes): bytes {
    if data == [] then c else Patched(Grown(c, offset + |data|), offset, data)
  }

  function PlainRead(c: bytes, offset: nat, count: nat): bytes {
    if offset >= |c| then [] else if offset + count <= |c| then c[offset..offset + count] else c[offset..]
  }

  /** A plain write is read back, and leaves every other byte alone. */
  lemma PlainWriteRead(c: bytes, offset: nat, data: bytes, i: nat)
    requires data != [] && i < |PlainWrite(c, offset, data)|
    ensures PlainRead(PlainWrite(c, offset, data), offset, |data|) == data
    ensures !(offset <= i < offset + |data|) ==> PlainWrite(c, offset, data)[i] == if i < |c| then c[i] else 0
    ensures |PlainWrite(c, offset, data)| == if offset + |data| > |c| then offset + |data| else |c|
  {
    var w := PlainWrite(c, offset, data);
    assert forall k | 0 <= k < |data| :: w[offset + k] == data[k];
  }

  /** Reading on: a second read continues the first. */
  lemma ReadOn(c: bytes, offset: nat, data: bytes, count: nat)
    requires data == PlainRead(c, offset, |data|)
    ensures var got := PlainRead(c, offset + |data|, count);
            |got| <= count && data + got == PlainRead(c, offset, |data| + |got|)
  {
    if offset < |c| {
      var got := PlainRead(c, offset + |data|, count);
      var end := offset + |data| + |got|;
      assert data == c[offset..offset + |data|] && got == c[offset + |data|..end];
      assert c[offset..end] == c[offset..offset + |data|] + c[offset + |data|..end];
    }
  }

  lemma ReadPastEnd(c: bytes, offset: nat, count: nat)
    requires offset >= |c|
    ensures PlainRead(c, offset, count) == [] && PlainRead(c, offset, 0) == []
  {
  }

  lemma ReadNothing(c: bytes, offset: nat)
    ensures PlainRead(c, offset, 0) == []
  {
  }

  lemma ReadIsPrefix(c: bytes, offset: nat, count: nat, n: nat)
    requires n == |PlainRead(c, offset, count)|
    ensures n <= count && PlainRead(c, offset, count) == PlainRead(c, offset, n)
  {
  }

  /** Reading the front of a disk is reading the disk, less. */
  lemma ReadClamped(disk: bytes, logical: nat, offset: nat, count: nat)
    requires logical <= |disk| && offset < logical
    ensures PlainRead(disk[..logical], offset, count) == PlainRead(disk, offset, Min(count, logical - offset))
  {
  }

  // ---- sizes ----

  /** Up to the next whole extent. */
  function RoundUp(end: nat): nat { (end + BULK_EXTENT - 1) / BULK_EXTENT * BULK_EXTENT }

  lemma RoundUpBounds(end: nat)
    ensures end <= RoundUp(end) < end + BULK_EXTENT
  {
  }

  function Min(a: nat, b: nat): nat { if a < b then a else b }

  function Max(a: nat, b: nat): nat { if a < b then b else a }

  lemma PatchMore(c: bytes, offset: nat, data: bytes, done: nat, wanted: nat)
    requires offset + |data| <= |c| && done + wanted <= |data|
    ensures Patched(Patched(c, offset, data[..done]), offset + done, data[done..done + wanted])
        == Patched(c, offset, data[..done + wanted])
  {
  }

  /** Patching a disk patches the file it begins with. */
  lemma PatchedPrefix(disk: bytes, logical: nat, offset: nat, data: bytes)
    requires offset + |data| <= logical <= |disk|
    ensures Patched(disk, offset, data)[..logical] == Patched(disk[..logical], offset, data)
  {
  }

  // ---- what the storage answers ----

  /** How many bytes arrive page by page, up to the first page refused. */
  function PagesTaken(count: nat, pageOk: nat -> bool, page: nat): (n: nat)
    ensures n <= count && (n == 0 <==> count == 0 || !pageOk(page))
    ensures (forall i :: pageOk(i)) ==> n == count
  {
    if count == 0 || !pageOk(page) then 0
    else if count <= TRANSFER_PAGE then count
    else TRANSFER_PAGE + PagesTaken(count - TRANSFER_PAGE, pageOk, page + 1)
  }

  /** How much of a write arrives: all of it directly, or the pages taken. */
  function Arrived(count: nat, directOk: bool, pageOk: nat -> bool): (n: nat)
    ensures n <= count && (n == 0 <==> count == 0 || (!directOk && !pageOk(0)))
    ensures directOk || (forall i :: pageOk(i)) ==> n == count
  {
    if directOk then count else PagesTaken(count, pageOk, 0)
  }

  lemma ArrivedIs(count: nat, directOk: bool, pageOk: nat -> bool)
    ensures Arrived(count, directOk, pageOk) == if directOk then count else PagesTaken(count, pageOk, 0)
  {
  }

  /** A read of `wanted` bytes where the storage has `left`; None is an error
      before the first byte. */
  function Received(left: nat, wanted: nat, directOk: bool, pageOk: nat -> bool): (r: Option<nat>)
    ensures r.Some? ==> r.value <= Min(left, wanted)
    ensures r.None? <==> wanted > 0 && !directOk && !pageOk(0)
    ensures wanted > 0 && r == Some(0) ==> left == 0
    ensures directOk || (forall i :: pageOk(i)) ==> r == Some(Min(left, wanted))
  {
    if directOk then Some(Min(left, wanted))
    else if wanted > 0 && !pageOk(0) then None
    else Some(PagesGot(left, wanted, pageOk, 0))
  }

  /** The pages of a read, up to the first refused or short one. */
  function PagesGot(left: nat, wanted: nat, pageOk: nat -> bool, page: nat): (n: nat)
    ensures n <= Min(left, wanted) && (wanted > 0 && pageOk(page) && left > 0 ==> n > 0)
    ensures (forall i :: pageOk(i)) ==> n == Min(left, wanted)
    decreases wanted
  {
    if wanted == 0 || !pageOk(page) then 0
    else
      var chunk := Min(wanted, TRANSFER_PAGE);
      if left < chunk then left else chunk + PagesGot(left - chunk, wanted - chunk, pageOk, page + 1)
  }

  // ---- the loop of a sequential read ----

  /** What one positional read answers, `left` bytes before the end its user
      sees; a known end is not asked of the storage. */
  function ChunkGot(known: bool, left: nat, wanted: nat, directOk: bool, pageOk: nat -> bool): (r: Option<nat>)
    ensures r.Some? ==> r.value <= Min(left, wanted)
  {
    if known && left == 0 then Some(0)
    else Received(left, if known then Min(left, wanted) else wanted, directOk, pageOk)
  }

  /** How many bytes a sequential read of `wanted` gathers from its call number
      `call` on, and whether it then moves the cursor. */
  function Gathered(known: bool, left: nat, wanted: nat, directOk: nat -> bool, pageOk: (nat, nat) -> bool, call: nat)
    : (r: (nat, bool))
    ensures r.0 <= Min(left, wanted)
    decreases wanted
  {
    if wanted == 0 then (0, true)
    else
      match ChunkGot(known, left, wanted, directOk(call), (i: nat) => pageOk(call, i))
      case None => (0, false)
      case Some(n) =>
        if n == 0 then (0, true)
        else
          var rest := Gathered(known, left - n, wanted - n, directOk, pageOk, call + 1);
          (n + rest.0, rest.1)
  }

  /** No call is refused outright. */
  ghost predicate NoneRefused(directOk: nat -> bool, pageOk: (nat, nat) -> bool) {
    forall call :: directOk(call) || pageOk(call, 0)
  }

  /** Then the whole visible part is read and the cursor moves. */
  lemma {:induction false} NoneRefusedIsComplete(known: bool, left: nat, wanted: nat, directOk: nat -> bool,
      pageOk: (nat, nat) -> bool, call: nat)
    requires NoneRefused(directOk, pageOk)
    ensures Gathered(known, left, wanted, directOk, pageOk, call) == (Min(left, wanted), true)
    decreases wanted
  {
    hide Gathered, ChunkGot;
    GatheredStep(known, left, wanted, directOk, pageOk, call);
    if wanted > 0 {
      assert directOk(call) || pageOk(call, 0);
      var r := ChunkGot(known, left, wanted, directOk(call), (i: nat) => pageOk(call, i));
      ChunkProgress(known, left, wanted, directOk(call), (i: nat) => pageOk(call, i));
      if r.value > 0 {
        NoneRefusedIsComplete(known, left - r.value, wanted - r.value, directOk, pageOk, call + 1);
      }
    }
  }

  lemma ChunkProgress(known: bool, left: nat, wanted: nat, directOk: bool, pageOk: nat -> bool)
    requires wanted > 0 && (directOk || pageOk(0))
    ensures var r := ChunkGot(known, left, wanted, directOk, pageOk); r.Some? && (r.value == 0 ==> left == 0)
  {
  }

  /** A read of a file of known size moves the cursor exactly when it is complete. */
  lemma {:induction false} ShortReadStays(left: nat, wanted: nat, directOk: nat -> bool, pageOk: (nat, nat) -> bool,
      call: nat)
    ensures var r := Gathered(true, left, wanted, directOk, pageOk, call); r.1 <==> r.0 == Min(left, wanted)
    decreases wanted
  {
    hide Gathered, ChunkGot;
    GatheredStep(true, left, wanted, directOk, pageOk, call);
    if wanted > 0 {
      var r := ChunkGot(true, left, wanted, directOk(call), (i: nat) => pageOk(call, i));
      ChunkOfKnown(left, wanted, directOk(call), (i: nat) => pageOk(call, i));
      if r.Some? && r.value > 0 {
        ShortReadStays(left - r.value, wanted - r.value, directOk, pageOk, call + 1);
      }
    }
  }

  lemma ChunkOfKnown(left: nat, wanted: nat, directOk: bool, pageOk: nat -> bool)
    requires wanted > 0
    ensures var r := ChunkGot(true, left, wanted, directOk, pageOk);
            (r.None? ==> left > 0) && (r == Some(0) <==> left == 0) && (r.Some? ==> r.value <= Min(left, wanted))
  {
  }

  lemma ChunkBounded(known: bool, left: nat, wanted: nat, directOk: bool, pageOk: nat -> bool)
    ensures var r := ChunkGot(known, left, wanted, directOk, pageOk); r.Some? ==> r.value <= left && r.value <= wanted
  {
  }

  lemma GatheredStep(known: bool, left: nat, wanted: nat, directOk: nat -> bool, pageOk: (nat, nat) -> bool, call: nat)
    ensures Gathered(known, left, wanted, directOk, pageOk, call)
            == if wanted == 0 then (0, true)
               else
                 match ChunkGot(known, left, wanted, directOk(call), (i: nat) => pageOk(call, i))
                 case None => (0, false)
                 case Some(n) =>
                   if n == 0 then (0, true)
                   else
                     var rest := Gathered(known, left - n, wanted - n, directOk, pageOk, call + 1);
                     (n + rest.0, rest.1)
  {
  }

  /** May the cursor stay behind although bytes were returned? */
  ghost predicate StaysBehind(known: bool, left: nat, wanted: nat) {
    exists directOk: nat -> bool, pageOk: (nat, nat) -> bool ::
      var r := Gathered(known, left, wanted, directOk, pageOk, 0); r.0 > 0 && !r.1
  }

  /** Whatever the storage refuses, the cursor advances by the bytes returned,
      exactly for reads that one page serves: of the visible bytes when the size
      is known, of the whole request when it is not. */
  lemma CursorFollowsExactly(known: bool, left: nat, wanted: nat)
    ensures !StaysBehind(known, left, wanted) <==>
              if known then Min(left, wanted) <= TRANSFER_PAGE
              else left == 0 || wanted == 0 || (wanted <= left && wanted <= TRANSFER_PAGE)
  {
    if known && Min(left, wanted) <= TRANSFER_PAGE {
      forall directOk: nat -> bool, pageOk: (nat, nat) -> bool
        ensures var r := Gathered(known, left, wanted, directOk, pageOk, 0); r.0 > 0 ==> r.1
      {
        OnePage(left, wanted, directOk, pageOk);
      }
    } else if !known && (left == 0 || wanted == 0 || (wanted <= left && wanted <= TRANSFER_PAGE)) {
      forall directOk: nat -> bool, pageOk: (nat, nat) -> bool
        ensures var r := Gathered(known, left, wanted, directOk, pageOk, 0); r.0 > 0 ==> r.1
      {
        OneChunk(left, wanted, directOk, pageOk);
      }
    } else {
      var directOk: nat -> bool := _ => false;
      var pageOk: (nat, nat) -> bool := (call, page) => call == 0 && page == 0;
      SecondCallRefused(known, left, wanted);
      assert Gathered(known, left, wanted, directOk, pageOk, 0).0 > 0;
    }
  }

  lemma OnePage(left: nat, wanted: nat, directOk: nat -> bool, pageOk: (nat, nat) -> bool)
    requires Min(left, wanted) <= TRANSFER_PAGE
    ensures var r := Gathered(true, left, wanted, directOk, pageOk, 0); r.0 > 0 ==> r.1
  {
    if wanted > 0 && left > 0 {
      var r := ChunkGot(true, left, wanted, directOk(0), (i: nat) => pageOk(0, i));
      assert r.Some? ==> r.value == Min(left, wanted);
      if r.Some? { ShortReadStays(left - r.value, wanted - r.value, directOk, pageOk, 1); }
    }
  }

  lemma OneChunk(left: nat, wanted: nat, directOk: nat -> bool, pageOk: (nat, nat) -> bool)
    requires left == 0 || wanted == 0 || (wanted <= left && wanted <= TRANSFER_PAGE)
    ensures var r := Gathered(false, left, wanted, directOk, pageOk, 0); r.0 > 0 ==> r.1
  {
    if wanted > 0 && left > 0 {
      var r := ChunkGot(false, left, wanted, directOk(0), (i: nat) => pageOk(0, i));
      assert r.Some? ==> r.value == wanted;
      if r.Some? { assert Gathered(false, left - wanted, 0, directOk, pageOk, 1) == (0, true); }
    }
  }

  /** The failing answers: the first page arrives, and nothing after it. */
  lemma SecondCallRefused(known: bool, left: nat, wanted: nat)
    requires left > 0 && wanted > 0
    requires if known then Min(left, wanted) > TRANSFER_PAGE else wanted > left || wanted > TRANSFER_PAGE
    ensures Gathered(known, left, wanted, _ => false, (call, page) => call == 0 && page == 0, 0)
        == (Min(left, Min(wanted, TRANSFER_PAGE)), false)
  {
    var pageOk: (nat, nat) -> bool := (call, page) => call == 0 && page == 0;
    var first: nat -> bool := (i: nat) => pageOk(0, i);
    var n := Min(left, Min(wanted, TRANSFER_PAGE));
    var w := if known then Min(left, wanted) else wanted;
    FirstPageOnly(left, w, first);
    assert ChunkGot(known, left, wanted, false, first) == Some(n);
    assert Gathered(known, left - n, wanted - n, _ => false, pageOk, 1) == (0, false);
  }

  lemma FirstPageOnly(left: nat, wanted: nat, pageOk: nat -> bool)
    requires wanted > 0 && pageOk(0) && !pageOk(1)
    ensures PagesGot(left, wanted, pageOk, 0) == Min(left, Min(wanted, TRANSFER_PAGE))
  {
    var chunk := Min(wanted, TRANSFER_PAGE);
    if left >= chunk { assert PagesGot(left - chunk, wanted - chunk, pageOk, 1) == 0; }
  }

  /** The bytes from `offset` to the end. */
  function Left(c: bytes, offset: nat): nat { if offset >= |c| then 0 else |c| - offset }

  lemma LeftOn(c: bytes, offset: nat, n: nat)
    requires n <= Left(c, offset)
    ensures Left(c, offset + n) == Left(c, offset) - n
  {
  }

  function Size(r: Option<bytes>): Option<nat> { if r.None? then None else Some(|r.value|) }

  lemma ReadSize(c: bytes, offset: nat, count: nat)
    ensures |PlainRead(c, offset, count)| == Min(Left(c, offset), count)
  {
  }

  lemma PagesStep(left: nat, wanted: nat, pageOk: nat -> bool, page: nat)
    ensures var chunk := Min(wanted, TRANSFER_PAGE);
            PagesGot(left, wanted, pageOk, page)
            == if wanted == 0 || !pageOk(page) then 0
               else if left < chunk then left else chunk + PagesGot(left - chunk, wanted - chunk, pageOk, page + 1)
  {
  }

  lemma TakenStep(count: nat, pageOk: nat -> bool, page: nat)
    ensures PagesTaken(count, pageOk, page)
            == if count == 0 || !pageOk(page) then 0
               else if count <= TRANSFER_PAGE then count
                   else TRANSFER_PAGE + PagesTaken(count - TRANSFER_PAGE, pageOk, page + 1)
    ensures count <= TRANSFER_PAGE ==> PagesTaken(0, pageOk, page + 1) == 0
  {
  }

  /** What lies behind the bytes wanted does not matter. */
  lemma {:induction false} PagesClamped(left: nat, visible: nat, wanted: nat, pageOk: nat -> bool, page: nat)
    requires wanted <= visible <= left
    ensures PagesGot(left, wanted, pageOk, page) == PagesGot(visible, wanted, pageOk, page)
    decreases wanted
  {
    if wanted > 0 && pageOk(page) {
      var chunk := Min(wanted, TRANSFER_PAGE);
      PagesClamped(left - chunk, visible - chunk, wanted - chunk, pageOk, page + 1);
    }
  }

  lemma ReceivedClamped(left: nat, visible: nat, wanted: nat, directOk: bool, pageOk: nat -> bool)
    requires wanted <= visible <= left
    ensures Received(left, wanted, directOk, pageOk) == Received(visible, wanted, directOk, pageOk)
  {
    PagesClamped(left, visible, wanted, pageOk, 0);
  }

  // ---- what a write leaves behind ----

  /** The visible file after a write of which `arrived` bytes arrived, or whose
      room could not be made: the file then grows into what was preallocated. */
  function AfterWrite(c: bytes, physical: nat, offset: nat, data: bytes, ready: bool, arrived: nat): bytes
    requires arrived <= |data|
  {
    if ready then Patched(Grown(c, offset + |data|), offset, data[..arrived])
    else Grown(c, Min(offset + |data|, physical))
  }

  lemma AfterWriteCases(c: bytes, physical: nat, offset: nat, data: bytes, n: nat)
    requires n <= |data|
    ensures AfterWrite(c, physical, offset, data, true, n) == Patched(Grown(c, offset + |data|), offset, data[..n])
    ensures AfterWrite(c, physical, offset, data, false, n) == Grown(c, Min(offset + |data|, physical))
    ensures Patched(Grown(c, offset + |data|), offset, []) == Grown(c, offset + |data|)
    ensures data == [] ==> PlainWrite(c, offset, data[..0]) == c
  {
  }

  lemma ArrivedWhole(c: bytes, physical: nat, offset: nat, data: bytes)
    ensures data != [] || offset <= |c| ==>
        AfterWrite(c, physical, offset, data, true, |data|) == PlainWrite(c, offset, data)
  {
    assert data[..|data|] == data;
  }

  /** A write cut short is a plain short write exactly when it fits the file: the
      logical size was already moved to the end of the whole write. The same
      holds of an empty write past the end. */
  lemma ShortWriteIsPlainExactly(c: bytes, physical: nat, offset: nat, data: bytes, arrived: nat)
    requires arrived <= |data| && (arrived < |data| || data == [])
    ensures AfterWrite(c, physical, offset, data, true, arrived) == PlainWrite(c, offset, data[..arrived])
            <==> offset + |data| <= |c|
  {
    var w := AfterWrite(c, physical, offset, data, true, arrived);
    assert |w| == Max(|c|, offset + |data|);
    if offset + |data| <= |c| {
      assert Grown(c, offset + |data|) == c == Grown(c, offset + arrived);
      if arrived == 0 { assert Patched(c, offset, data[..0]) == c; }
    } else {
      assert |PlainWrite(c, offset, data[..arrived])| < |w|;
    }
  }

  /** Appending at the physical size is a plain append exactly when nothing is
      preallocated. */
  lemma AppendIsPlainExactly(c: bytes, physical: nat, data: bytes)
    requires |c| <= physical && data != []
    ensures PlainWrite(c, physical, data) == c + data <==> physical == |c|
  {
    if physical == |c| {
      assert PlainWrite(c, physical, data) == c + data;
    } else {
      assert |PlainWrite(c, physical, data)| == physical + |data|;
    }
  }

  /** A failed extension leaves the file as it was exactly when the write fits
      or nothing is preallocated past the end. */
  lemma FailedExtensionIsPlainExactly(c: bytes, physical: nat, end: nat)
    requires |c| <= physical
    ensures Grown(c, Min(end, physical)) == c <==> end <= |c| || physical == |c|
  {
    if end > |c| && physical > |c| {
      assert |Grown(c, Min(end, physical))| != |c|;
    }
  }

  class TrackedFile {
    var disk: bytes            // what the storage holds
    var tracked: bool          // the file has a size record
    var initialized: bool
    var logical: nat
    var physical: nat
    var bulkEligible: bool
    var cursor: nat
    const sync: bool           // opened with O_SYNC
    const append: bool

    ghost predicate Valid()
      reads this
    {
      && |disk| <= INT64_MAX
      && (tracked && initialized ==>
            && logical <= physical == |disk|
            && forall i | logical <= i < |disk| :: disk[i] == 0)
    }

    /** The file as its users see it. */
    ghost function Contents(): bytes
      requires Valid()
      reads this
    {
      if tracked && initialized then disk[..logical] else disk
    }

    constructor (content: bytes, sync: bool, append: bool)
      requires |content| <= INT64_MAX
      ensures Valid() && Contents() == content == disk && !tracked && cursor == 0
      ensures this.sync == sync && this.append == append
    {
      disk, tracked, initialized, logical, physical, bulkEligible, cursor := content, false, false, 0, 0, false, 0;
      this.sync, this.append := sync, append;
    }

    // ---- the storage ----

    method FsSetSize(size: nat, ok: bool)
      requires size <= INT64_MAX
      modifies this`disk
      ensures disk == if ok then Resized(old(disk), size) else old(disk)
    {
      if ok { disk := Resized(disk, size); }
    }

    method FsWrite(offset: nat, data: bytes, ok: bool)
      requires offset + |data| <= |disk|
      modifies this`disk
      ensures disk == if ok then Patched(old(disk), offset, data) else old(disk)
    {
      if ok { disk := Patched(disk, offset, data); }
    }

    // ---- size records ----

    /** nx_file_io_track_open on a writable descriptor, when a slot is free. */
    method TrackOpen(eligible: bool)
      requires Valid()
      modifies this
      ensures Valid() && tracked && Contents() == old(Contents()) && cursor == old(cursor) && disk == old(disk)
      ensures bulkEligible == (eligible || (old(tracked) && old(bulkEligible)))
      ensures initialized == (old(tracked) && old(initialized))
    {
      if !tracked {
        logical, physical, initialized, bulkEligible, tracked := 0, 0, false, eligible, true;
      } else if eligible {
        bulkEligible := true;
      }
    }

    /** The size known before the write. */
    function Known(): nat
      reads this
    {
      if tracked && initialized then logical else |disk|
    }

    /** The size to ask for: whole extents for a large enough bulk file. */
    function Asked(end: nat): nat
      reads this
    {
      if tracked && bulkEligible && !sync && end > Known() && end >= BULK_THRESHOLD
        && end <= INT64_MAX - (BULK_EXTENT - 1)
      then RoundUp(end) else end
    }

    /** Can room be made for a write that ends at `end`? Only an unknown size has
        to be asked for, and only a size past the physical end to be set; a
        rounded size that is refused is asked for again unrounded. */
    predicate CanPrepare(end: nat, queryOk: bool, firstOk: bool, secondOk: bool)
      reads this
    {
      && (!(tracked && initialized) ==> queryOk)
      && (end <= Known() || Asked(end) <= |disk| || firstOk || (secondOk && Asked(end) != end))
    }

    /** Makes room for a write that ends at `end`. On failure the file may
        still have grown, by zeros, into what was preallocated. */
    method PrepareWrite(end: nat, queryOk: bool, firstOk: bool, secondOk: bool) returns (ok: bool)
      requires Valid() && end <= INT64_MAX
      modifies this
      ensures Valid() && tracked == old(tracked) && cursor == old(cursor)
      ensures ok ==> Contents() == Grown(old(Contents()), end) && end <= |disk|
      ensures !ok ==> Contents() == Grown(old(Contents()), Min(end, |old(disk)|)) && disk == old(disk)
      ensures ok == old(CanPrepare(end, queryOk, firstOk, secondOk))
      ensures !ok ==> (Contents() == old(Contents()) <==> end <= |old(Contents())| || |old(disk)| == |old(Contents())|)
      ensures ok && firstOk ==> |disk| == Max(|old(disk)|, old(Asked(end)))
    {
      hide RoundUp;
      ghost var c := Contents();
      FailedExtensionIsPlainExactly(c, |disk|, end);
      if !tracked {
        if !queryOk { return false; }
        if end <= |disk| { return true; }
        FsSetSize(end, firstOk);
        return firstOk;
      }
      if !initialized {
        if !queryOk { return false; }
        logical, physical, initialized := |disk|, |disk|, true;
      }
      if end <= logical { return true; }
      RoundUpBounds(end);
      var target := Asked(end);
      ok := Extend(end, target, firstOk, secondOk);
    }

    method Extend(end: nat, target: nat, firstOk: bool, secondOk: bool) returns (ok: bool)
      requires Valid() && tracked && initialized && logical < end <= target <= INT64_MAX
      modifies this`disk, this`logical, this`physical
      ensures Valid()
      ensures ok ==> Contents() == Grown(old(Contents()), end) && end <= |disk|
      ensures !ok ==> Contents() == Grown(old(Contents()), Min(end, |old(disk)|)) && disk == old(disk)
      ensures ok == (firstOk || (secondOk && target != end) || target <= old(physical))
      ensures ok && firstOk ==> |disk| == Max(|old(disk)|, target)
    {
      ghost var c, d := Contents(), disk;
      logical := end;
      if target > physical {
        ok := firstOk;
        var asked := target;
        FsSetSize(asked, ok);
        if !ok && asked != end {
          asked := end;
          ok := secondOk;
          FsSetSize(asked, ok);
        }
        if !ok {
          if logical > physical { logical := physical; }
          assert disk[..logical] == Grown(c, Min(end, |d|));
          return;
        }
        physical := asked;
      }
      ok := true;
      assert disk[..logical] == Grown(c, end);
    }

    // ---- positional input and output ----

    /** Reads through the storage; never past the logical size. A result of None
        is an error before the first byte. */
    method PRead(offset: nat, count: nat, directOk: bool, pageOk: nat -> bool) returns (r: Option<bytes>)
      requires Valid() && count > 0 && offset + count <= INT64_MAX
      ensures r.Some? ==> r.value == PlainRead(Contents(), offset, |r.value|) && |r.value| <= count
      ensures Size(r) == ChunkGot(tracked && initialized, Left(Contents(), offset), count, directOk, pageOk)
      ensures directOk || (forall i :: pageOk(i)) ==> r == Some(PlainRead(Contents(), offset, count))
    {
      hide PlainRead;
      if !tracked || !initialized {
        r := PReadDisk(offset, count, directOk, pageOk);
      } else if offset >= logical {
        ReadPastEnd(Contents(), offset, count);
        r := Some([]);
      } else {
        ReceivedClamped(|disk| - offset, logical - offset, Min(count, logical - offset), directOk, pageOk);
        r := PReadDisk(offset, Min(count, logical - offset), directOk, pageOk);
        ReadClamped(disk, logical, offset, count);
        if r.Some? { ReadClamped(disk, logical, offset, |r.value|); }
      }
    }

    /** The transfer itself: direct, or page by page. */
    method PReadDisk(offset: nat, wanted: nat, directOk: bool, pageOk: nat -> bool) returns (r: Option<bytes>)
      requires wanted > 0
      ensures r.Some? ==> r.value == PlainRead(disk, offset, |r.value|) && |r.value| <= wanted
      ensures Size(r) == Received(Left(disk, offset), wanted, directOk, pageOk)
      ensures directOk || (forall i :: pageOk(i)) ==> r == Some(PlainRead(disk, offset, wanted))
    {
      hide PlainRead, PagesGot, Left, Min;
      ghost var left := Left(disk, offset);
      ReadIsPrefix(disk, offset, wanted, |PlainRead(disk, offset, wanted)|);
      ReadSize(disk, offset, wanted);
      if directOk {
        return Some(PlainRead(disk, offset, wanted));
      }
      r := ReadPages(offset, wanted, pageOk);
    }

    /** Page by page, up to the first page refused or short. */
    method ReadPages(offset: nat, wanted: nat, pageOk: nat -> bool) returns (r: Option<bytes>)
      requires wanted > 0
      ensures r.Some? ==> r.value == PlainRead(disk, offset, |r.value|)
      ensures Size(r) == if pageOk(0) then Some(PagesGot(Left(disk, offset), wanted, pageOk, 0)) else None
    {
      hide PlainRead, PagesGot, Left;
      ghost var left, all := Left(disk, offset), PagesGot(Left(disk, offset), wanted, pageOk, 0);
      var data := [];
      var page := 0;
      ReadNothing(disk, offset);
      while |data| < wanted
        invariant |data| <= wanted && |data| <= left && data == PlainRead(disk, offset, |data|)
        invariant page > 0 ==> pageOk(0) && data != []
        invariant page == 0 ==> data == []
        invariant all == |data| + PagesGot(left - |data|, wanted - |data|, pageOk, page)
        decreases wanted - |data|
      {
        var chunk := if wanted - |data| < TRANSFER_PAGE then wanted - |data| else TRANSFER_PAGE;
        PagesStep(left - |data|, wanted - |data|, pageOk, page);
        if !pageOk(page) {
          return if data == [] then None else Some(data);
        }
        LeftOn(disk, offset, |data|);
        ReadSize(disk, offset + |data|, chunk);
        ReadOn(disk, offset, data, chunk);
        var got := PlainRead(disk, offset + |data|, chunk);
        data := data + got;
        if |got| < chunk { return Some(data); }
        page := page + 1;
      }
      PagesStep(left - |data|, 0, pageOk, page);
      return Some(data);
    }

    /** Writes through the storage. A write that is not complete leaves what
        `AfterWrite` says, which is not always what a plain file would hold. */
    method PWrite(offset: nat, data: bytes, queryOk: bool, firstOk: bool, secondOk: bool,
                  directOk: bool, pageOk: nat -> bool, flushOk: bool)
      returns (r: int)
      requires Valid() && offset + |data| <= INT64_MAX
      modifies this
      ensures Valid() && tracked == old(tracked) && cursor == old(cursor)
      ensures var ready, n := old(CanPrepare(offset + |data|, queryOk, firstOk, secondOk)),
          Arrived(|data|, directOk, pageOk);
              && Contents() == AfterWrite(old(Contents()), |old(disk)|, offset, data, ready, n)
              && r == (if !ready || (n == 0 && data != []) || (sync && !flushOk) then -1 else n)
              && (ready && firstOk ==> |disk| == Max(|old(disk)|, old(Asked(offset + |data|))))
      ensures r == |data| && data != [] ==> Contents() == PlainWrite(old(Contents()), offset, data)
      ensures 0 <= r < |data| ==>
                (Contents() == PlainWrite(old(Contents()), offset, data[..r]) <==> offset + |data| <= |old(Contents())|)
      ensures r == 0 && data == [] ==> (Contents() == old(Contents()) <==> offset <= |old(Contents())|)
      ensures !old(CanPrepare(offset + |data|, queryOk, firstOk, secondOk)) ==>
                (Contents() == old(Contents())
                 <==> offset + |data| <= |old(Contents())| || |old(disk)| == |old(Contents())|)
    {
      hide PlainWrite, Arrived, PagesTaken, CanPrepare, Asked, AfterWrite, Grown, Patched, Max, Min;
      var end := offset + |data|;
      ghost var c, d := Contents(), disk;
      ghost var n := Arrived(|data|, directOk, pageOk);
      AfterWriteCases(c, |d|, offset, data, n);
      var ready := PrepareWrite(end, queryOk, firstOk, secondOk);
      if !ready { return -1; }
      ArrivedIs(|data|, directOk, pageOk);
      ArrivedWhole(c, |d|, offset, data);
      if n < |data| || data == [] { ShortWriteIsPlainExactly(c, |d|, offset, data, n); }
      if directOk {
        WriteAt(offset, data, true);
        assert data[..|data|] == data;
        return if sync && !flushOk then -1 else |data|;
      }
      var written := Bounce(offset, data, pageOk);
      return if (written == 0 && data != []) || (sync && !flushOk) then -1 else written;
    }

    /** The transfer page by page, up to the first page refused. */
    method Bounce(offset: nat, data: bytes, pageOk: nat -> bool) returns (written: nat)
      requires Valid() && offset + |data| <= |Contents()|
      modifies this`disk
      ensures Valid() && written == PagesTaken(|data|, pageOk, 0)
      ensures Contents() == Patched(old(Contents()), offset, data[..written]) && |disk| == |old(disk)|
    {
      hide PagesTaken;
      ghost var grown := Contents();
      written := 0;
      var page := 0;
      while written < |data|
        invariant written <= |data| && Valid() && |Contents()| == |grown| && |disk| == |old(disk)|
        invariant Contents() == Patched(grown, offset, data[..written])
        invariant PagesTaken(|data|, pageOk, 0) == written + PagesTaken(|data| - written, pageOk, page)
        decreases |data| - written
      {
        var wanted := if |data| - written < TRANSFER_PAGE then |data| - written else TRANSFER_PAGE;
        TakenStep(|data| - written, pageOk, page);
        if !pageOk(page) { return; }
        PatchMore(grown, offset, data, written, wanted);
        WriteAt(offset + written, data[written..written + wanted], true);
        written := written + wanted;
        page := page + 1;
      }
    }

    /** One storage write inside the logical size. */
    method WriteAt(offset: nat, data: bytes, ok: bool)
      requires Valid() && offset + |data| <= |Contents()|
      modifies this`disk
      ensures Valid() && Contents() == if ok then Patched(old(Contents()), offset, data) else old(Contents())
      ensures |disk| == |old(disk)|
    {
      if tracked && initialized { PatchedPrefix(disk, logical, offset, data); }
      FsWrite(offset, data, ok);
    }

    // ---- the shared cursor ----

    /** read: from the cursor on, one positional read after another. Call number
        `k` is answered by `directOk(k)` and `pageOk(k, _)`. When one is refused
        after bytes arrived, they are returned and the cursor stays. */
    method Read(count: nat, directOk: nat -> bool, pageOk: (nat, nat) -> bool) returns (r: Option<bytes>)
      requires Valid()
      modifies this`cursor
      ensures Valid() && Contents() == old(Contents())
      ensures old(cursor) + count > INT64_MAX ==> r.None? && cursor == old(cursor)
      ensures old(cursor) + count <= INT64_MAX ==>
                var known, left := tracked && initialized, Left(Contents(), old(cursor));
                var (n, moves) := Gathered(known, left, count, directOk, pageOk, 0);
                && (r.None? <==> n == 0 && !moves)
                && (r.Some? ==> |r.value| == n && r.value == PlainRead(Contents(), old(cursor), n))
                && cursor == (if moves then old(cursor) + n else old(cursor))
      ensures old(cursor) + count <= INT64_MAX && NoneRefused(directOk, pageOk)
              ==> r == Some(PlainRead(Contents(), old(cursor), count)) && cursor == old(cursor) + |r.value|
    {
      hide PlainRead, Gathered, ChunkGot, NoneRefused, Left;
      if cursor + count > INT64_MAX { return None; }
      ghost var known, left := tracked && initialized, Left(Contents(), cursor);
      if NoneRefused(directOk, pageOk) { NoneRefusedIsComplete(known, left, count, directOk, pageOk, 0); }
      ReadSize(Contents(), cursor, count);
      ReadIsPrefix(Contents(), cursor, count, Min(left, count));
      var data, moves := Gather(count, directOk, pageOk);
      if data == [] && !moves { return None; }
      if moves { cursor := cursor + |data|; }
      return Some(data);
    }

    /** The loop of `Read`: `moves` unless a call was refused. */
    method Gather(count: nat, directOk: nat -> bool, pageOk: (nat, nat) -> bool) returns (data: bytes, moves: bool)
      requires Valid() && cursor + count <= INT64_MAX
      ensures (|data|, moves) == Gathered(tracked && initialized, Left(Contents(), cursor), count, directOk, pageOk, 0)
      ensures data == PlainRead(Contents(), cursor, |data|)
    {
      hide PlainRead, Gathered, ChunkGot, Left, Min;
      ghost var c, known, left := Contents(), tracked && initialized, Left(Contents(), cursor);
      ghost var all := Gathered(known, left, count, directOk, pageOk, 0);
      var call := 0;
      data := [];
      ReadNothing(c, cursor);
      while |data| < count
        invariant |data| <= count && |data| <= left && data == PlainRead(c, cursor, |data|)
        invariant var rest := Gathered(known, left - |data|, count - |data|, directOk, pageOk, call);
                  all == (|data| + rest.0, rest.1)
        decreases count - |data|
      {
        GatheredStep(known, left - |data|, count - |data|, directOk, pageOk, call);
        LeftOn(c, cursor, |data|);
        var chunk := PRead(cursor + |data|, count - |data|, directOk(call), (i: nat) => pageOk(call, i));
        if chunk.None? { return data, false; }
        if chunk.value == [] { return data, true; }
        ChunkBounded(known, left - |data|, count - |data|, directOk(call), (i: nat) => pageOk(call, i));
        ReadOn(c, cursor, data, |chunk.value|);
        data := data + chunk.value;
        call := call + 1;
      }
      GatheredStep(known, left - |data|, 0, directOk, pageOk, call);
      return data, true;
    }

    /** Where a sequential write goes: the cursor, or the physical end. */
    function WriteOffset(): nat
      reads this
    {
      if append then |disk| else cursor
    }

    /** write: at the cursor, or at the physical end when appending. */
    method Write(data: bytes, sizeOk: bool, queryOk: bool, firstOk: bool, secondOk: bool,
                 directOk: bool, pageOk: nat -> bool, flushOk: bool)
      returns (r: int)
      requires Valid()
      modifies this
      ensures Valid() && tracked == old(tracked)
      ensures var at := old(WriteOffset());
              var ready, n := old(CanPrepare(at + |data|, queryOk, firstOk, secondOk)),
                  Arrived(|data|, directOk, pageOk);
              if (append && !sizeOk) || at + |data| > INT64_MAX then
                r == -1 && Contents() == old(Contents()) && disk == old(disk) && cursor == old(cursor)
              else
                && Contents() == AfterWrite(old(Contents()), |old(disk)|, at, data, ready, n)
                && r == (if !ready || (n == 0 && data != []) || (sync && !flushOk) then -1 else n)
                && cursor == (if r > 0 then at + r else old(cursor))
                && (ready && firstOk ==> |disk| == Max(|old(disk)|, old(Asked(at + |data|))))
      ensures r == |data| && data != [] ==> Contents() == PlainWrite(old(Contents()), old(WriteOffset()), data)
      ensures append && r == |data| && data != [] ==>
                (Contents() == old(Contents()) + data <==> |old(disk)| == |old(Contents())|)
    {
      hide PlainWrite, AfterWrite, Arrived, CanPrepare, Asked, Grown, Patched;
      var offset := cursor;
      if append {
        if !sizeOk { return -1; }
        offset := |disk|;
      }
      if |data| > INT64_MAX - offset { return -1; }
      if data != [] { AppendIsPlainExactly(Contents(), |disk|, data); }
      r := PWrite(offset, data, queryOk, firstOk, secondOk, directOk, pageOk, flushOk);
      if r > 0 { cursor := offset + r; }
    }

    // ---- truncation and last close ----

    method Truncate(length: nat, ok: bool)
      requires Valid() && length <= INT64_MAX
      modifies this
      ensures Valid() && Contents() == if ok then Resized(old(Contents()), length) else old(Contents())
    {
      ghost var c := Contents();
      FsSetSize(length, ok);
      if ok && tracked {
        logical, physical, initialized := length, length, true;
      }
      assert ok ==> Contents() == Resized(c, length);
    }

    /** Last close of the handle: trims what was preallocated. */
    method Finalize(references: nat, trimOk: bool)
      requires Valid()
      modifies this
      ensures Valid()
      ensures references > 1 ==> Contents() == old(Contents()) && disk == old(disk) && tracked == old(tracked)
      ensures references <= 1 ==> !tracked
      ensures references <= 1 && trimOk ==> disk == old(Contents())
      ensures references <= 1 && !trimOk ==> disk == Grown(old(Contents()), |old(disk)|)
    {
      if references > 1 || !tracked { return; }
      var trim := initialized && physical > logical;
      var size := logical;
      ghost var c, d := Contents(), disk;
      tracked, initialized, bulkEligible := false, false, false;
      if trim {
        FsSetSize(size, trimOk);
        if trimOk { physical := size; }
      }
      assert trimOk ==> disk == c;
      assert !trimOk ==> disk == Grown(c, |d|);
    }
  }

  // ---- the failures happen ----

  const MIB: nat := 0x10_0000

  /** A bulk file opened for appending, and one write that ends just past 1 MiB:
      the storage holds 2 MiB, of which 1 MiB and a byte are the file. */
  method Preallocated() returns (f: TrackedFile)
    ensures fresh(f) && f.Valid() && f.tracked && f.append && !f.sync
    ensures |f.Contents()| == MIB + 1 && |f.disk| == 2 * MIB
  {
    f := new TrackedFile([], false, true);
    f.TrackOpen(true);
    var data := Zeros(MIB + 1);
    assert RoundUp(MIB + 1) == 2 * MIB;
    var r := f.Write(data, true, true, true, true, true, _ => true, true);
    assert r == MIB + 1;
  }

  /** A refused extension: the write fails, and the file has grown by almost 1 MiB
      of zeros nobody wrote. */
  method RefusedExtension() returns (f: TrackedFile, r: int)
    ensures fresh(f) && f.Valid() && r == -1 && |f.Contents()| == 2 * MIB
  {
    hide RoundUp;
    f := Preallocated();
    RoundUpBounds(3 * MIB);
    r := f.PWrite(3 * MIB - 1, [7], true, false, false, true, _ => true, true);
  }

  /** An append of one byte: the file has grown to 2 MiB and a byte, with a hole
      of zeros before the byte appended. */
  method AppendBehindAHole() returns (f: TrackedFile, r: int)
    ensures fresh(f) && f.Valid() && r == 1 && |f.Contents()| == 2 * MIB + 1
    ensures f.Contents()[2 * MIB - 1] == 0 && f.Contents()[2 * MIB] == 7
  {
    hide RoundUp;
    f := Preallocated();
    ghost var c := f.Contents();
    r := f.Write([7], true, true, true, true, true, _ => true, true);
  }

  /** A write of two pages of which the second is refused: one page is reported,
      and the file is one page longer than the bytes that arrived. */
  method RefusedPage() returns (f: TrackedFile, r: int)
    ensures fresh(f) && f.Valid() && r == TRANSFER_PAGE && |f.Contents()| == MIB + 1 + 2 * TRANSFER_PAGE
  {
    hide RoundUp;
    f := Preallocated();
    var firstOnly: nat -> bool := page => page == 0;
    assert PagesTaken(2 * TRANSFER_PAGE, firstOnly, 0) == TRANSFER_PAGE;
    r := f.PWrite(MIB + 1, Zeros(2 * TRANSFER_PAGE), true, true, true, false, firstOnly, true);
  }

  /** A read of more than a page whose second call is refused returns the first
      page and leaves the cursor, so the same bytes come again. */
  method RefusedRead() returns (f: TrackedFile, r: Option<bytes>, again: Option<bytes>)
    ensures r.Some? && |r.value| == TRANSFER_PAGE && again == r
  {
    f := new TrackedFile(Zeros(2 * TRANSFER_PAGE), false, false);
    var firstOnly: (nat, nat) -> bool := (call, page) => call == 0 && page == 0;
    SecondCallRefused(false, 2 * TRANSFER_PAGE, 2 * TRANSFER_PAGE);
    r := f.Read(2 * TRANSFER_PAGE, _ => false, firstOnly);
    again := f.Read(TRANSFER_PAGE, _ => true, firstOnly);
  }
}
