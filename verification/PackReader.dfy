/** The shared cursor of an open pack entry (source/asset_pack.c lines 911 to
    978 and 1062 to 1114): reads through a 64 KiB cache return what an uncached
    cursor over the entry's bytes would. */
module PackReader {
  import opened Bytes
  import opened AssetIndex

  const CACHE_SIZE: nat := 65536
  const LONG_MAX: int := 0x7fff_ffff_ffff_ffff
  const LONG_MIN: int := -0x8000_0000_0000_0000

  datatype Whence = Set | Current | End | Unknown
  datatype SeekError = IsDirectory | Invalid | Overflow
  datatype Seek = Moved(position: nat) | Failed(error: SeekError)

  // ---- the uncached cursor ----

  /** What a read of `count` bytes at `position` returns. */
  function Visible(content: bytes, position: nat, count: nat): bytes {
    if position >= |content| then []
    else if count > |content| - position then content[position..]
    else content[position..position + count]
  }

  function Sum(counts: seq<nat>): nat { if counts == [] then 0 else counts[0] + Sum(counts[1..]) }

  /** The bytes of several reads in a row. */
  function Pieces(content: bytes, position: nat, counts: seq<nat>): bytes
    decreases |counts|
  {
    if counts == [] then []
    else
      var first := Visible(content, position, counts[0]);
      first + Pieces(content, position + |first|, counts[1..])
  }

  lemma TwoReads(content: bytes, position: nat, n: nat, m: nat)
    ensures var first := Visible(content, position, n);
            Visible(content, position, n + m) == first + Visible(content, position + |first|, m)
  {
    if position < |content| && n + m <= |content| - position {
      assert content[position..position + n + m]
          == content[position..position + n] + content[position + n..position + n + m];
    } else if position < |content| && n <= |content| - position {
      assert content[position..] == content[position..position + n] + content[position + n..];
    }
  }

  /** Reading in any pieces is reading once. */
  lemma {:induction false} ReadsCompose(content: bytes, position: nat, counts: seq<nat>)
    ensures Pieces(content, position, counts) == Visible(content, position, Sum(counts))
    decreases |counts|
  {
    hide Visible;
    if counts == [] {
      NothingRead(content, position);
    } else {
      TwoReads(content, position, counts[0], Sum(counts[1..]));
      ReadsCompose(content, position + |Visible(content, position, counts[0])|, counts[1..]);
    }
  }

  lemma NothingRead(content: bytes, position: nat)
    ensures Visible(content, position, 0) == []
  {
  }

  /** What has been read so far, compared with what is visible. */
  lemma VisibleSoFar(content: bytes, start: nat, done: nat, count: nat)
    requires done <= count && start + done <= |content|
    ensures Visible(content, start, done) == content[start..start + done]
    ensures done <= |Visible(content, start, count)|
    ensures done == count || start + done == |content| ==> done == |Visible(content, start, count)|
  {
  }

  /** Where a seek lands, in exact integers. */
  function SeekTarget(size: nat, position: nat, offset: int, whence: Whence): Option<int> {
    match whence
    case Set => Some(offset)
    case Current => Some(position + offset)
    case End => Some(size + offset)
    case Unknown => None
  }

  function PlainSeek(size: nat, position: nat, offset: int, whence: Whence): Seek {
    match SeekTarget(size, position, 0, whence)
    case None => Failed(Invalid)
    case Some(base) =>
      if base > LONG_MAX then Failed(Overflow)
      else if base + offset < 0 then Failed(Invalid)
      else if base + offset > LONG_MAX then Failed(Overflow)
      else Moved(base + offset)
  }

  /** A seek from `base` to `target`: it moves there exactly if neither is too large
      for the file interface and the target is not before the start. */
  predicate Lands(r: Seek, base: nat, target: int) {
    && (r.Moved? <==> base <= LONG_MAX && 0 <= target <= LONG_MAX)
    && (r.Moved? ==> r.position == target)
    && (r == Failed(Invalid) <==> base <= LONG_MAX && target < 0)
    && (r == Failed(Overflow) <==> base > LONG_MAX || target > LONG_MAX)
  }

  /** The three origins of a seek: the start, the position, the end. */
  lemma SeeksFrom(size: nat, position: nat, offset: int)
    ensures Lands(PlainSeek(size, position, offset, Set), 0, offset)
    ensures Lands(PlainSeek(size, position, offset, Current), position, position + offset)
    ensures Lands(PlainSeek(size, position, offset, End), size, size + offset)
    ensures PlainSeek(size, position, offset, Unknown) == Failed(Invalid)
  {
  }

  function Min(a: nat, b: nat): nat { if a < b then a else b }

  // ---- the cached cursor ----

  /** Where the cache lies in the entry, and whether its memory is there. */
  datatype Window = Window(offset: nat, size: nat, present: bool)

  datatype Cursor = Cursor(position: nat, window: Window)

  /** How many bytes the cache can serve from the position on. */
  function Ahead(c: Cursor): nat {
    if c.window.present && c.window.offset <= c.position < c.window.offset + c.window.size
    then c.window.offset + c.window.size - c.position else 0
  }

  predicate InEntry(length: nat, c: Cursor) {
    c.window.size <= CACHE_SIZE && (c.window.size > 0 ==> c.window.offset + c.window.size <= length)
  }

  /** The answer to a read: everything visible, unless the cache does not reach
      that far and memory or the disk fails. Then it is what the cache held, or
      an error when that is nothing. */
  function ReadCount(length: nat, c: Cursor, count: nat, memoryOk: bool, diskOk: bool): int {
    if c.position >= length then 0
    else
      var visible := Min(count, length - c.position);
      if count > CACHE_SIZE / 2 then (if diskOk then visible else -1)
      else if visible <= Ahead(c) || ((c.window.present || memoryOk) && diskOk) then visible
      else if Ahead(c) > 0 then Ahead(c) else -1
  }

  /** Where the cache lies after that read. */
  function NextWindow(length: nat, c: Cursor, count: nat, memoryOk: bool, diskOk: bool): Window {
    var next := c.position + Ahead(c);
    if c.position >= length || count > CACHE_SIZE / 2 || count <= Ahead(c) then c.window
    else if !c.window.present && !memoryOk then c.window
    else if next >= length || !diskOk then Window(next, 0, true)
    else if c.position + count <= next + Min(CACHE_SIZE, length - next)
    then Window(next, Min(CACHE_SIZE, length - next), true)
    else Window(length, 0, true)
  }

  /** Reads that do not go through the cache, and reads without a failure. */
  lemma Directly(content: bytes, c: Cursor, count: nat, memoryOk: bool, diskOk: bool)
    ensures var n, w := ReadCount(|content|, c, count, memoryOk, diskOk),
        NextWindow(|content|, c, count, memoryOk, diskOk);
            && (c.position >= |content| ==> n == 0 && w == c.window)
            && (c.position < |content| && count > CACHE_SIZE / 2 ==>
                  n == (if diskOk then |Visible(content, c.position, count)| else -1) && w == c.window)
            && (memoryOk && diskOk ==> n == |Visible(content, c.position, count)|)
    ensures Visible(content, c.position, 0) == []
    ensures var all := Visible(content, c.position, count); Visible(content, c.position, |all|) == all
  {
  }

  // ---- the loop over cached pieces ----

  datatype Turn = Turn(got: int, window: Window)

  /** One round of the loop: how many bytes it takes, and the cache after it. */
  function Round(length: nat, c: Cursor, limit: nat, memoryOk: bool, diskOk: bool): Turn {
    var left: nat := if c.position < length then length - c.position else 0;
    if Ahead(c) > 0 then Turn(Min(limit, Ahead(c)), c.window)
    else if !c.window.present && !memoryOk then Turn(-1, c.window)
    else if left == 0 then Turn(0, Window(c.position, 0, true))
    else if !diskOk then Turn(-1, Window(c.position, 0, true))
    else Turn(Min(limit, Min(CACHE_SIZE, left)), Window(c.position, Min(CACHE_SIZE, left), true))
  }

  /** After `done` bytes and `asked` disk reads of a read that began at `c`: the
      old cache first, then the one window loaded behind it. */
  predicate Stage(length: nat, c: Cursor, count: nat, memoryOk: bool, diskOk: bool, done: nat, asked: nat, w: Window) {
    && c.position < length && count <= CACHE_SIZE / 2 && InEntry(length, c) && done <= count
    && if asked == 0 then w == c.window && done <= Ahead(c)
       else
         var next := c.position + Ahead(c);
         && asked == 1 && (c.window.present || memoryOk) && diskOk && next < length && Ahead(c) < count
         && w == Window(next, Min(CACHE_SIZE, length - next), true)
         && Ahead(c) <= done && c.position + done <= next + w.size
  }

  lemma StageStart(length: nat, c: Cursor, count: nat, memoryOk: bool, diskOk: bool)
    requires c.position < length && count <= CACHE_SIZE / 2 && InEntry(length, c)
    ensures Stage(length, c, count, memoryOk, diskOk, 0, 0, c.window)
  {
  }

  /** A round that takes bytes asks the disk at most once. */
  lemma StageStep(length: nat, c: Cursor, count: nat, memoryOk: bool, answers: nat -> bool, done: nat, asked: nat,
      w: Window)
    requires Stage(length, c, count, memoryOk, answers(0), done, asked, w) && done < count
    ensures var here := Cursor(c.position + done, w);
            var Turn(got, next) := Round(length, here, count - done, memoryOk, answers(asked));
            got > 0 ==>
              Stage(length, c, count, memoryOk, answers(0), done + got, if Ahead(here) > 0 then asked else asked + 1,
                  next)
  {
  }

  /** A round that takes none ends the read as `ReadCount` says. */
  lemma StageStop(length: nat, c: Cursor, count: nat, memoryOk: bool, answers: nat -> bool, done: nat, asked: nat,
      w: Window)
    requires Stage(length, c, count, memoryOk, answers(0), done, asked, w) && done < count
    ensures var here := Cursor(c.position + done, w);
            var Turn(got, next) := Round(length, here, count - done, memoryOk, answers(asked));
            got <= 0 ==>
              && ReadCount(length, c, count, memoryOk, answers(0)) == (if done > 0 then done else got)
              && NextWindow(length, c, count, memoryOk, answers(0)) == next
  {
  }

  lemma StageEnd(length: nat, c: Cursor, count: nat, memoryOk: bool, diskOk: bool, asked: nat, w: Window)
    requires Stage(length, c, count, memoryOk, diskOk, count, asked, w)
    ensures ReadCount(length, c, count, memoryOk, diskOk) == count
        && NextWindow(length, c, count, memoryOk, diskOk) == w
  {
  }

  // ---- sequences of reads and seeks ----

  /** An open file: the bytes of its entry, or a directory. Every call names what
      memory and the disk answer if they are asked. */
  datatype Source = Source(content: bytes, directory: bool)

  datatype Op =
    | ReadOp(count: nat, memoryOk: bool, diskOk: bool)
    | SeekOp(offset: int, whence: Whence)

  datatype Answer = Got(data: bytes) | ReadError | Sought(seek: Seek)

  predicate Works(op: Op) { op.ReadOp? ==> op.memoryOk && op.diskOk }

  /** One call on a file without a cache. */
  function PlainAnswer(f: Source, position: nat, op: Op): Answer {
    match op
    case ReadOp(count, _, _) => if f.directory then ReadError else Got(Visible(f.content, position, count))
    case SeekOp(offset, whence) =>
      Sought(if f.directory then Failed(IsDirectory) else PlainSeek(|f.content|, position, offset, whence))
  }

  /** Where an answer leaves the position: advanced by exactly the bytes returned,
      or at the target of a seek, or unmoved. */
  function Advanced(position: nat, a: Answer): nat {
    match a
    case Got(data) => position + |data|
    case ReadError => position
    case Sought(seek) => if seek.Moved? then seek.position else position
  }

  function PlainRun(f: Source, position: nat, ops: seq<Op>): seq<Answer>
    decreases |ops|
  {
    if ops == [] then []
    else
      var a := PlainAnswer(f, position, ops[0]);
      [a] + PlainRun(f, Advanced(position, a), ops[1..])
  }

  /** One call on the file with its cache. */
  function CachedAnswer(f: Source, c: Cursor, op: Op): (Answer, Cursor) {
    match op
    case ReadOp(count, memoryOk, diskOk) =>
      if f.directory then (ReadError, c)
      else
        var n := ReadCount(|f.content|, c, count, memoryOk, diskOk);
        (if n < 0 then ReadError else Got(Visible(f.content, c.position, n)),
         Cursor(if n < 0 then c.position else c.position + n, NextWindow(|f.content|, c, count, memoryOk, diskOk)))
    case SeekOp(offset, whence) =>
      var r := if f.directory then Failed(IsDirectory) else PlainSeek(|f.content|, c.position, offset, whence);
      (Sought(r), if r.Moved? then c.(position := r.position) else c)
  }

  function CachedRun(f: Source, c: Cursor, ops: seq<Op>): seq<Answer>
    decreases |ops|
  {
    if ops == [] then []
    else
      var (a, next) := CachedAnswer(f, c, ops[0]);
      [a] + CachedRun(f, next, ops[1..])
  }

  /** An answer is the one of the file without a cache, cut short at most, and
      only when memory or the disk failed. */
  predicate Answers(f: Source, position: nat, op: Op, a: Answer) {
    var plain := PlainAnswer(f, position, op);
    if Works(op) || op.SeekOp? || f.directory then a == plain
    else a == ReadError || (a.Got? && a.data <= plain.data && |a.data| <= |plain.data|)
  }

  /** Every answer of a run, each at the position the answers before it left. */
  predicate AllAnswer(f: Source, position: nat, ops: seq<Op>, answers: seq<Answer>)
    decreases |ops|
  {
    |answers| == |ops| &&
    (ops != [] ==>
       && Answers(f, position, ops[0], answers[0])
       && AllAnswer(f, Advanced(position, answers[0]), ops[1..], answers[1..]))
  }

  lemma AnswerIsPlain(f: Source, c: Cursor, op: Op)
    requires InEntry(|f.content|, c)
    ensures var (a, next) := CachedAnswer(f, c, op);
            Answers(f, c.position, op, a) && next.position == Advanced(c.position, a) && InEntry(|f.content|, next)
  {
    hide PlainSeek;
    if op.ReadOp? && !f.directory {
      var n := ReadCount(|f.content|, c, op.count, op.memoryOk, op.diskOk);
      if n >= 0 {
        assert n <= |Visible(f.content, c.position, op.count)|;
        assert Visible(f.content, c.position, n) == Visible(f.content, c.position, op.count)[..n];
      }
    }
  }

  /** Whatever memory and the disk answer, over any sequence of reads and seeks
      through any descriptors of the open file, each call answers as the file
      without a cache would, except that a failure may cut a read short. */
  lemma {:induction false} CacheIsInvisible(f: Source, c: Cursor, ops: seq<Op>)
    requires InEntry(|f.content|, c)
    ensures AllAnswer(f, c.position, ops, CachedRun(f, c, ops))
    decreases |ops|
  {
    hide CachedAnswer, Answers, InEntry;
    if ops != [] {
      AnswerIsPlain(f, c, ops[0]);
      var (a, next) := CachedAnswer(f, c, ops[0]);
      CacheIsInvisible(f, next, ops[1..]);
      assert CachedRun(f, c, ops)[1..] == CachedRun(f, next, ops[1..]);
    }
  }

  /** When nothing fails the answers are the same. */
  lemma {:induction false} CachedEqualsUncached(f: Source, c: Cursor, ops: seq<Op>)
    requires InEntry(|f.content|, c) && forall k | 0 <= k < |ops| :: Works(ops[k])
    ensures CachedRun(f, c, ops) == PlainRun(f, c.position, ops)
    decreases |ops|
  {
    hide CachedAnswer, PlainAnswer, InEntry;
    if ops != [] {
      AnswerIsPlain(f, c, ops[0]);
      assert Works(ops[0]);
      var (a, next) := CachedAnswer(f, c, ops[0]);
      CachedEqualsUncached(f, next, ops[1..]);
    }
  }

  /** A piece of the cached window is the same piece of the entry. */
  lemma CachedPiece(content: bytes, cache: bytes, offset: nat, size: nat, inside: nat, take: nat)
    requires offset + size <= |content| && size <= |cache| && cache[..size] == content[offset..offset + size]
    requires inside + take <= size
    ensures cache[inside..inside + take] == content[offset + inside..offset + inside + take]
  {
    SliceOfSlice(content, offset, offset + size, inside, inside + take);
    SliceOfSlice(cache, 0, size, inside, inside + take);
  }

  class OpenFile {
    const pack: bytes
    const entry: DiskEntry
    const directory: bool
    var position: nat
    var cacheOffset: nat
    var cacheSize: nat
    var cache: array?<byte>

    ghost predicate Valid()
      reads this, cache
    {
      && entry.offset + entry.size <= |pack|
      && (cache == null ==> cacheSize == 0)
      && (cache != null ==>
            && cache.Length == CACHE_SIZE && cacheSize <= CACHE_SIZE
            && (cacheSize > 0 ==>
                  && cacheOffset + cacheSize <= entry.size
                  && cache[..cacheSize] == Content()[cacheOffset..cacheOffset + cacheSize]))
    }

    /** The bytes of the entry. */
    ghost function Content(): (r: bytes)
      ensures entry.offset + entry.size <= |pack| ==> |r| == entry.size
    {
      if entry.offset + entry.size <= |pack| then pack[entry.offset..entry.offset + entry.size] else []
    }

    /** The file as the sequences above see it. */
    ghost function File(): Source { Source(Content(), directory) }

    ghost function Now(): Cursor
      reads this
    {
      Cursor(position, Window(cacheOffset, cacheSize, cache != null))
    }

    constructor (pack: bytes, entry: DiskEntry, directory: bool)
      requires entry.offset + entry.size <= |pack|
      ensures Valid() && position == 0 && this.pack == pack && this.entry == entry && this.directory == directory
      ensures cache == null
    {
      this.pack, this.entry, this.directory := pack, entry, directory;
      position, cacheOffset, cacheSize, cache := 0, 0, 0, null;
    }

    /** source/asset_pack.c `read_handle_at` into `buffer[..count]`. When the disk
        fails, nothing is promised of the buffer. */
    method ReadHandleAt(buffer: array<byte>, count: nat, offset: nat, diskOk: bool) returns (got: int)
      requires entry.offset + entry.size <= |pack| && count <= buffer.Length
      modifies buffer
      ensures got == if directory then -1 else if offset >= entry.size then 0
                     else if diskOk then |Visible(Content(), offset, count)| else -1
      ensures got >= 0 ==> buffer[..got] == Visible(Content(), offset, count) && buffer[got..] == old(buffer[got..])
    {
      if directory {
        return -1;
      }
      if offset >= entry.size {
        return 0;
      }
      var wanted := count;
      var available := entry.size - offset;
      if count > available {
        wanted := available;
      }
      if !diskOk {
        return -1;
      }
      CopyInto(buffer, 0, pack[entry.offset + offset..entry.offset + offset + wanted]);
      assert Content()[offset..offset + wanted] == pack[entry.offset + offset..entry.offset + offset + wanted];
      assert buffer[..wanted] == buffer[0..wanted];
      return wanted;
    }

    /** The cache serves the byte at `position`. */
    predicate Cached()
      reads this
    {
      cache != null && cacheOffset <= position < cacheOffset + cacheSize
    }

    /** Load the cache at `position`. */
    method Fill(memoryOk: bool, diskOk: bool) returns (got: int)
      requires Valid() && !directory
      modifies this`cache, this`cacheOffset, this`cacheSize, cache
      ensures Valid() && (cache == old(cache) || fresh(cache))
      ensures var present := old(cache) != null || memoryOk;
              var left: nat := if position < entry.size then entry.size - position else 0;
              && got == (if !present then -1 else if left == 0 then 0 else if diskOk then Min(CACHE_SIZE, left) else -1)
              && Now() == (if present then Cursor(position, Window(position, if got > 0 then got else 0, true))
                  else old(Now()))
    {
      if cache == null {
        if !memoryOk {
          return -1;
        }
        cache := new byte[CACHE_SIZE];
      }
      cacheOffset, cacheSize := position, 0;
      got := ReadHandleAt(cache, CACHE_SIZE, cacheOffset, diskOk);
      if got > 0 {
        cacheSize := got;
      }
    }

    /** source/asset_pack.c `asset_pack_read_fd` and `asset_pack_operation_read`.
        `diskOk(k)` is the answer to the k-th disk read of the call; it never
        makes a second one. */
    method Read(buffer: array<byte>, count: nat, memoryOk: bool, diskOk: nat -> bool) returns (result: int)
      requires Valid() && count <= buffer.Length && buffer != cache
      modifies this`position, this`cache, this`cacheOffset, this`cacheSize, cache, buffer
      ensures Valid() && (cache == old(cache) || fresh(cache))
      ensures (if result < 0 then ReadError else Got(Visible(Content(), old(position), result)), Now())
              == CachedAnswer(File(), old(Now()), ReadOp(count, memoryOk, diskOk(0)))
      ensures result == -1 || (0 <= result == |Visible(Content(), old(position), result)|)
      ensures result >= 0 ==> buffer[..result] == Visible(Content(), old(position), result)
                              && buffer[result..] == old(buffer[result..])
      ensures memoryOk && diskOk(0) && !directory ==> result == |Visible(Content(), old(position), count)|
    {
      hide Visible, Content, ReadCount, NextWindow;
      ContentLength();
      Directly(Content(), Now(), count, memoryOk, diskOk(0));
      if directory {
        return -1;
      }
      if position >= entry.size {
        return 0;
      }
      if count > CACHE_SIZE / 2 {
        result := ReadHandleAt(buffer, count, position, diskOk(0));
        if result > 0 {
          position := position + result;
        }
        return;
      }
      result := ReadThroughCache(buffer, count, memoryOk, diskOk);
    }

    method ReadThroughCache(buffer: array<byte>, count: nat, memoryOk: bool, diskOk: nat -> bool) returns (result: int)
      requires Valid() && count <= buffer.Length && buffer != cache && position < entry.size && !directory
      requires count <= CACHE_SIZE / 2
      modifies this`position, this`cache, this`cacheOffset, this`cacheSize, cache, buffer
      ensures Valid() && (cache == old(cache) || fresh(cache))
      ensures result == ReadCount(entry.size, old(Now()), count, memoryOk, diskOk(0))
      ensures Now() == Cursor(if result < 0 then old(position) else old(position) + result,
                              NextWindow(entry.size, old(Now()), count, memoryOk, diskOk(0)))
      ensures result == -1 || (0 <= result == |Visible(Content(), old(position), result)|)
      ensures result >= 0 ==> buffer[..result] == Visible(Content(), old(position), result)
                              && buffer[result..] == old(buffer[result..])
    {
      hide Visible, Content, Valid, Stage, Round, Ahead, ReadCount, NextWindow, InEntry, Cached;
      result := 0;
      ghost var content, c := Content(), Now();
      ghost var start := c.position;
      var done: nat := 0;
      var asked: nat := 0;
      assert |content| == entry.size && Stage(entry.size, c, count, memoryOk, diskOk(0), 0, 0, c.window) by {
        ContentLength();
        StageStart(entry.size, c, count, memoryOk, diskOk(0));
      }
      while done < count
        invariant Valid() && (cache == old(cache) || fresh(cache)) && buffer != cache
        invariant done <= count && position == start + done <= entry.size && result == done
        invariant buffer[..done] == content[start..start + done]
        invariant buffer[done..] == old(buffer[done..])
        invariant Stage(entry.size, c, count, memoryOk, diskOk(0), done, asked, Now().window)
        decreases count - done
      {
        StageStep(entry.size, c, count, memoryOk, diskOk, done, asked, Now().window);
        StageStop(entry.size, c, count, memoryOk, diskOk, done, asked, Now().window);
        CachedIsAhead();
        var cached := Cached();
        var got := Advance(buffer, done, count - done, memoryOk, diskOk(asked));
        if got <= 0 {
          VisibleSoFar(content, start, done, count);
          return if done > 0 then done else got;
        }
        if !cached {
          asked := asked + 1;
        }
        assert content[start..start + done + got]
            == content[start..start + done] + content[start + done..start + done + got];
        assert old(buffer[done..])[got..] == old(buffer[done + got..]);
        done, result := done + got, done + got;
      }
      StageEnd(entry.size, c, count, memoryOk, diskOk(0), asked, Now().window);
      VisibleSoFar(content, start, done, count);
    }

    lemma CachedIsAhead()
      ensures Cached() <==> Ahead(Now()) > 0
    {
    }

    lemma ContentLength()
      requires Valid()
      ensures |Content()| == entry.size && InEntry(entry.size, Now())
    {
    }

    /** One round of the cached read: at least one byte, or why there is none. */
    method Advance(buffer: array<byte>, done: nat, limit: nat, memoryOk: bool, diskOk: bool) returns (got: int)
      requires Valid() && limit > 0 && done + limit <= buffer.Length && buffer != cache && position <= entry.size
          && !directory
      modifies this`position, this`cache, this`cacheOffset, this`cacheSize, cache, buffer
      ensures Valid() && (cache == old(cache) || fresh(cache))
      ensures Turn(got, Now().window) == Round(entry.size, old(Now()), limit, memoryOk, diskOk)
      ensures -1 <= got <= limit
      ensures got <= 0 ==> position == old(position) && buffer[..] == old(buffer[..])
      ensures got > 0 ==> position == old(position) + got <= entry.size
      ensures got > 0 ==> buffer[..done + got] == old(buffer[..done]) + Content()[old(position)..position]
      ensures got > 0 ==> buffer[done + got..] == old(buffer[done + got..])
    {
      if !Cached() {
        got := Fill(memoryOk, diskOk);
        if got <= 0 {
          return;
        }
      }
      var piece := TakeCached(limit);
      CopyInto(buffer, done, piece);
      position := position + |piece|;
      return |piece|;
    }

    /** The cached bytes from `position` on, at most `limit` of them. */
    method TakeCached(limit: nat) returns (piece: bytes)
      requires Valid() && Cached() && limit > 0
      ensures |piece| == Min(limit, Ahead(Now())) > 0 && position + |piece| <= entry.size
      ensures piece == Content()[position..position + |piece|]
    {
      var inside := position - cacheOffset;
      var available := cacheSize - inside;
      var take := if limit < available then limit else available;
      CachedPiece(Content(), cache[..], cacheOffset, cacheSize, inside, take);
      piece := cache[inside..inside + take];
    }

    /** source/asset_pack.c `asset_pack_lseek_fd`, in the 64-bit arithmetic it
        uses: it moves to the exact integer target or leaves the position alone. */
    method LSeek(offset: int, whence: Whence) returns (r: Seek)
      requires Valid() && LONG_MIN <= offset <= LONG_MAX
      modifies this`position
      ensures Valid()
      ensures (Sought(r), Now()) == CachedAnswer(File(), old(Now()), SeekOp(offset, whence))
      ensures directory ==> r == Failed(IsDirectory)
      ensures !directory && whence == Set ==> Lands(r, 0, offset)
      ensures !directory && whence == Current ==> Lands(r, old(position), old(position) + offset)
      ensures !directory && whence == End ==> Lands(r, entry.size, entry.size + offset)
      ensures !directory && whence == Unknown ==> r == Failed(Invalid)
      ensures position == if r.Moved? then r.position else old(position)
    {
      if directory {
        return Failed(IsDirectory);
      }
      var base;
      match whence {
        case Set => base := 0;
        case Current => base := position;
        case End => base := entry.size;
        case Unknown => return Failed(Invalid);
      }
      if base > LONG_MAX {
        return Failed(Overflow);
      }
      var target;
      if offset < 0 {
        assert LONG_MIN <= offset + 1 && -(offset + 1) <= LONG_MAX;
        var magnitude := -(offset + 1) + 1;
        if magnitude > base {
          return Failed(Invalid);
        }
        target := base - magnitude;
      } else {
        if offset > LONG_MAX - base {
          return Failed(Overflow);
        }
        target := base + offset;
      }
      position := target;
      return Moved(target);
    }
  }
}
