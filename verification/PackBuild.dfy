/** Building a pack (source/asset_pack.c `asset_pack_build`) and the round trip:
    what was packed is what is read back, and nothing else. */
module PackBuild {
  import opened Bytes
  import opened PathOrder
  import opened AssetIndex
  import opened PackFormat

  /** A file of the extracted tree: its relative path, a C string, and its bytes. */
  datatype SourceFile = SourceFile(path: bytes, content: bytes)

  // ---- sorting ----

  ghost predicate SortedFiles(fs: seq<SourceFile>) {
    forall k | 0 < k < |fs| :: Compare(fs[k - 1].path, fs[k].path) <= 0
  }

  function Insert(f: SourceFile, fs: seq<SourceFile>): seq<SourceFile> {
    if |fs| == 0 || Compare(f.path, fs[0].path) <= 0 then [f] + fs else [fs[0]] + Insert(f, fs[1..])
  }

  /** `qsort` by path. */
  function Sort(fs: seq<SourceFile>): seq<SourceFile> {
    if |fs| == 0 then [] else Insert(fs[0], Sort(fs[1..]))
  }

  lemma {:induction false} InsertKeeps(f: SourceFile, fs: seq<SourceFile>)
    ensures multiset(Insert(f, fs)) == multiset(fs) + multiset{f} && |Insert(f, fs)| == |fs| + 1
    ensures Insert(f, fs)[0] == f || (|fs| > 0 && Insert(f, fs)[0] == fs[0])
    decreases |fs|
  {
    hide Compare;
    if |fs| > 0 {
      assert fs == [fs[0]] + fs[1..];
      if Compare(f.path, fs[0].path) > 0 { InsertKeeps(f, fs[1..]); }
    }
  }

  lemma SortedCons(f: SourceFile, fs: seq<SourceFile>)
    requires SortedFiles(fs) && (fs != [] ==> Compare(f.path, fs[0].path) <= 0)
    ensures SortedFiles([f] + fs)
  {
    hide Compare;
    forall k | 0 < k < |fs| + 1 ensures Compare(([f] + fs)[k - 1].path, ([f] + fs)[k].path) <= 0 {
      if k > 1 {
        assert Compare(fs[k - 2].path, fs[k - 1].path) <= 0;
      }
    }
  }

  lemma SortedTail(fs: seq<SourceFile>)
    requires SortedFiles(fs) && fs != []
    ensures SortedFiles(fs[1..]) && (|fs| > 1 ==> Compare(fs[0].path, fs[1].path) <= 0)
  {
    hide Compare;
    forall k | 0 < k < |fs[1..]| ensures Compare(fs[1..][k - 1].path, fs[1..][k].path) <= 0 {
      assert Compare(fs[k].path, fs[k + 1].path) <= 0;
    }
  }

  lemma {:induction false} InsertSorts(f: SourceFile, fs: seq<SourceFile>)
    requires SortedFiles(fs)
    ensures SortedFiles(Insert(f, fs)) && multiset(Insert(f, fs)) == multiset(fs) + multiset{f}
    ensures |Insert(f, fs)| == |fs| + 1
    decreases |fs|
  {
    hide Compare, SortedFiles;
    InsertKeeps(f, fs);
    if |fs| > 0 && Compare(f.path, fs[0].path) > 0 {
      CompareAntisymmetric(f.path, fs[0].path);
      SortedTail(fs);
      InsertSorts(f, fs[1..]);
      InsertKeeps(f, fs[1..]);
      SortedCons(fs[0], Insert(f, fs[1..]));
    } else {
      SortedCons(f, fs);
    }
  }

  lemma {:induction false} SortSorts(fs: seq<SourceFile>)
    ensures SortedFiles(Sort(fs)) && multiset(Sort(fs)) == multiset(fs) && |Sort(fs)| == |fs|
    decreases |fs|, 1
  {
    hide Insert, Compare;
    if |fs| > 0 {
      SortStep(fs);
    }
  }

  lemma {:induction false} SortStep(fs: seq<SourceFile>)
    requires fs != []
    ensures SortedFiles(Sort(fs)) && multiset(Sort(fs)) == multiset(fs) && |Sort(fs)| == |fs|
    decreases |fs|, 0
  {
    hide Insert, Compare, SortedFiles;
    SortSorts(fs[1..]);
    InsertSorts(fs[0], Sort(fs[1..]));
    assert fs == [fs[0]] + fs[1..];
  }

  // ---- layout ----

  function Align16(v: nat): (r: nat)
    ensures v < WORD - 16 ==> v <= r < v + 16 && r % 16 == 0
  {
    (v + 15) % WORD / 16 * 16
  }

  /** Where the pack ends after its first `k` files. */
  function Position(fs: seq<SourceFile>, k: nat): nat
    requires k <= |fs|
  {
    if k == 0 then PACK_HEADER else Align16(Position(fs, k - 1)) + |fs[k - 1].content|
  }

  function Offset(fs: seq<SourceFile>, k: nat): nat
    requires k < |fs|
  {
    Align16(Position(fs, k))
  }

  function Zeros(n: nat): bytes { seq(n, _ => 0) }

  /** The pack behind its header, after the first `k` files. */
  function Data(fs: seq<SourceFile>, k: nat): bytes
    requires k <= |fs|
  {
    if k == 0 then []
    else
      var gap := Offset(fs, k - 1) - Position(fs, k - 1);
      Data(fs, k - 1) + (Zeros(if gap < 0 then 0 else gap) + fs[k - 1].content)
  }

  /** The contents alone, in order: what the data checksum covers. */
  function Contents(fs: seq<SourceFile>, k: nat): bytes
    requires k <= |fs|
  {
    if k == 0 then [] else Contents(fs, k - 1) + fs[k - 1].content
  }

  /** The path table of the first `k` files. */
  function Table(fs: seq<SourceFile>, k: nat): bytes
    requires k <= |fs|
  {
    if k == 0 then [] else Table(fs, k - 1) + (fs[k - 1].path + [0])
  }

  function Entry(fs: seq<SourceFile>, k: nat): DiskEntry
    requires k < |fs|
  {
    DiskEntry(Offset(fs, k), |fs[k].content|, |Table(fs, k)|, |fs[k].path|)
  }

  function EntryImages(fs: seq<SourceFile>, k: nat): bytes
    requires k <= |fs|
  {
    if k == 0 then [] else EntryImages(fs, k - 1) + Record(EntryFields(Entry(fs, k - 1)))
  }

  function DataChecksum(fs: seq<SourceFile>): word { Fnv(FNV_START, Contents(fs, |fs|)) }

  function PackHeaderOf(fs: seq<SourceFile>, client: nat, id: nat): PackHeader {
    PackHeader(PACK_VERSION, client, id, Position(fs, |fs|), DataChecksum(fs))
  }

  function PackImage(fs: seq<SourceFile>, client: nat, id: nat): bytes {
    PackHeaderOf(fs, client, id).Image() + Data(fs, |fs|)
  }

  function IndexHeaderOf(fs: seq<SourceFile>, client: nat, id: nat): IndexHeader {
    IndexHeader(PACK_VERSION, |fs|, client, 0, id, Position(fs, |fs|), |Table(fs, |fs|)|,
                Fnv(Fnv(FNV_START, EntryImages(fs, |fs|)), Table(fs, |fs|)), DataChecksum(fs))
  }

  function IndexImage(fs: seq<SourceFile>, client: nat, id: nat): bytes {
    IndexHeaderOf(fs, client, id).Image() + (EntryImages(fs, |fs|) + Table(fs, |fs|))
  }

  /** No file of the platform is longer than `off_t` can say. */
  const MAX_FILE: nat := 0x7fff_ffff_ffff_ffff

  ghost predicate Fits(fs: seq<SourceFile>) {
    forall k | 0 <= k <= |fs| :: Position(fs, k) <= MAX_FILE
  }

  // ---- the images hold what they should, where they should ----

  /** The layout: aligned, in order, without overlap. */
  lemma Layout(fs: seq<SourceFile>, k: nat)
    requires k < |fs| && Fits(fs)
    ensures Offset(fs, k) % 16 == 0 && PACK_HEADER <= Position(fs, k) <= Offset(fs, k)
    ensures Offset(fs, k) + |fs[k].content| == Position(fs, k + 1)
  {
    assert Position(fs, k) <= MAX_FILE;
    PositionAtLeastHeader(fs, k);
  }

  lemma {:induction false} PositionAtLeastHeader(fs: seq<SourceFile>, k: nat)
    requires k <= |fs| && Fits(fs)
    ensures PACK_HEADER <= Position(fs, k)
    decreases k
  {
    if k > 0 {
      PositionAtLeastHeader(fs, k - 1);
      assert Position(fs, k - 1) <= MAX_FILE;
    }
  }

  lemma {:induction false} PositionMonotone(fs: seq<SourceFile>, i: nat, j: nat)
    requires i <= j <= |fs| && Fits(fs)
    ensures Position(fs, i) <= Position(fs, j)
    decreases j
  {
    if i < j {
      PositionMonotone(fs, i, j - 1);
      Layout(fs, j - 1);
    }
  }

  lemma {:induction false} DataLength(fs: seq<SourceFile>, k: nat)
    requires k <= |fs| && Fits(fs)
    ensures PACK_HEADER + |Data(fs, k)| == Position(fs, k)
    decreases k
  {
    if k > 0 {
      DataLength(fs, k - 1);
      Layout(fs, k - 1);
    }
  }

  lemma {:induction false} DataHolds(fs: seq<SourceFile>, k: nat, n: nat)
    requires k < n <= |fs| && Fits(fs)
    ensures PACK_HEADER <= Offset(fs, k)
    ensures At(Data(fs, n), Offset(fs, k) - PACK_HEADER, fs[k].content)
    decreases n
  {
    hide Align16, At, Offset, Position;
    Layout(fs, k);
    DataLength(fs, n - 1);
    Layout(fs, n - 1);
    var pad := Zeros(Offset(fs, n - 1) - Position(fs, n - 1));
    if k == n - 1 {
      assert Data(fs, n) == (Data(fs, k) + pad) + fs[k].content;
      AtEnd(Data(fs, k) + pad, fs[k].content);
    } else {
      DataHolds(fs, k, n - 1);
      AtExtended(Data(fs, n - 1), pad + fs[n - 1].content, Offset(fs, k) - PACK_HEADER, fs[k].content);
    }
  }

  lemma AtEnd(s: bytes, t: bytes)
    ensures At(s + t, |s|, t)
  {
    AtSlice(s + t, |s|, |s| + |t|);
    assert (s + t)[|s|..|s| + |t|] == t;
  }

  lemma AtExtended(s: bytes, t: bytes, i: nat, part: bytes)
    requires At(s, i, part)
    ensures At(s + t, i, part)
  {
    AtBounded(s + t, |s|, i, part);
    assert (s + t)[..|s|] == s;
  }

  lemma AtShifted(s: bytes, t: bytes, i: nat, part: bytes)
    requires At(t, i, part)
    ensures At(s + t, |s| + i, part)
  {
    AtIsSlice(t, i, part);
    assert (s + t)[|s| + i..|s| + i + |part|] == t[i..i + |part|];
  }

  lemma {:induction false} TableHolds(fs: seq<SourceFile>, k: nat, n: nat)
    requires k < n <= |fs|
    ensures At(Table(fs, n), |Table(fs, k)|, fs[k].path + [0])
    decreases n
  {
    if k == n - 1 {
      AtEnd(Table(fs, k), fs[k].path + [0]);
    } else {
      TableHolds(fs, k, n - 1);
      AtExtended(Table(fs, n - 1), fs[n - 1].path + [0], |Table(fs, k)|, fs[k].path + [0]);
    }
  }

  lemma EntryImageLength(e: DiskEntry)
    ensures |Record(EntryFields(e))| == ENTRY
  {
    hide Record;
    var f := EntryFields(e);
    RecordLength(f);
    Widths(f);
    assert Width(f[..1]) == 8 && Width(f[..2]) == 16 && Width(f[..3]) == 20 && Width(f[..4]) == 24;
  }

  lemma {:induction false} EntryImagesLength(fs: seq<SourceFile>, k: nat)
    requires k <= |fs|
    ensures |EntryImages(fs, k)| == k * ENTRY
    decreases k
  {
    hide Record, EntryFields, Entry;
    if k > 0 {
      EntryImagesLength(fs, k - 1);
      EntryImageLength(Entry(fs, k - 1));
    }
  }

  lemma {:induction false} EntryImagesHold(fs: seq<SourceFile>, k: nat, n: nat)
    requires k < n <= |fs|
    ensures At(EntryImages(fs, n), k * ENTRY, Record(EntryFields(Entry(fs, k))))
    decreases n
  {
    hide At, Record, EntryFields, Entry;
    EntryImagesLength(fs, n - 1);
    var image := Record(EntryFields(Entry(fs, n - 1)));
    if k == n - 1 {
      AtEnd(EntryImages(fs, k), image);
    } else {
      EntryImagesHold(fs, k, n - 1);
      AtExtended(EntryImages(fs, n - 1), image, k * ENTRY, Record(EntryFields(Entry(fs, k))));
    }
  }

  lemma {:induction false} TableMonotone(fs: seq<SourceFile>, i: nat, j: nat)
    requires i <= j <= |fs|
    ensures |Table(fs, i)| <= |Table(fs, j)| && j <= |Table(fs, j)|
    decreases j
  {
    if i < j {
      TableMonotone(fs, i, j - 1);
    } else if j > 0 {
      TableMonotone(fs, j - 1, j - 1);
    }
  }

  // ---- reading the images back ----

  /** What the builder checks before it writes anything. */
  predicate Plausible(fs: seq<SourceFile>, client: nat) {
    0 < |fs| <= MAX_COUNT && |Table(fs, |fs|)| <= 0xffff_ffff && 0 < client <= 0xffff_ffff
  }

  function Listing(fs: seq<SourceFile>): Index {
    Index(seq(|fs|, k requires 0 <= k < |fs| => Entry(fs, k)), Table(fs, |fs|))
  }

  lemma HeadersReadBack(fs: seq<SourceFile>, client: nat, id: word)
    requires Plausible(fs, client) && Fits(fs)
    ensures var pack, index := PackImage(fs, client, id), IndexImage(fs, client, id);
            && |pack| == Position(fs, |fs|) >= PACK_HEADER && |index| >= INDEX_HEADER
            && pack[..8] == PACK_MAGIC && index[..8] == INDEX_MAGIC
            && ReadPackHeader(pack) == PackHeaderOf(fs, client, id)
            && ReadIndexHeader(index) == IndexHeaderOf(fs, client, id)
            && pack[PACK_HEADER..] == Data(fs, |fs|)
            && index[INDEX_HEADER..] == EntryImages(fs, |fs|) + Table(fs, |fs|)
  {
    hide Record, ReadPackHeader, ReadIndexHeader, At, Fnv, Position, Align16, Data, EntryImages, Table, Contents,
        Power256;
    Powers();
    assert Position(fs, |fs|) <= MAX_FILE;
    DataLength(fs, |fs|);
    var p, x := PackHeaderOf(fs, client, id), IndexHeaderOf(fs, client, id);
    assert InRange(p.Fields()) && InRange(x.Fields());
    AtPrefix(p.Image(), Data(fs, |fs|));
    AtPrefix(x.Image(), EntryImages(fs, |fs|) + Table(fs, |fs|));
    PackHeaderRoundTrip(PackImage(fs, client, id), p);
    IndexHeaderRoundTrip(IndexImage(fs, client, id), x);
  }

  lemma AtPrefix(s: bytes, t: bytes)
    ensures At(s + t, 0, s)
  {
    AtSlice(s + t, 0, |s|);
    assert (s + t)[0..|s|] == s;
  }

  lemma EntryInRange(fs: seq<SourceFile>, k: nat)
    requires |Table(fs, |fs|)| <= 0xffff_ffff && Fits(fs) && k < |fs|
    ensures InRange(EntryFields(Entry(fs, k)))
  {
    hide Align16, Power256, Position, Offset;
    Powers();
    Layout(fs, k);
    assert Position(fs, k + 1) <= MAX_FILE;
    TableMonotone(fs, k + 1, |fs|);
  }

  lemma TablesReadBack(fs: seq<SourceFile>, client: nat, id: word)
    requires Plausible(fs, client) && Fits(fs)
    ensures var index := IndexImage(fs, client, id);
            && |index| >= INDEX_HEADER && EntriesEnd(index) <= |index|
            && Tables(index) == Listing(fs)
            && index[INDEX_HEADER..EntriesEnd(index)] == EntryImages(fs, |fs|)
            && index[EntriesEnd(index)..] == Table(fs, |fs|)
            && |index| == INDEX_HEADER + |fs| * ENTRY + |Table(fs, |fs|)|
  {
    hide Record, ReadPackHeader, ReadIndexHeader, At, Fnv, ReadEntry, EntryFields, Entry, InRange, PackImage,
         Position, Align16, EntryImages, Table, Contents;
    HeadersReadBack(fs, client, id);
    EntryImagesLength(fs, |fs|);
    var index := IndexImage(fs, client, id);
    var head := IndexHeaderOf(fs, client, id).Image();
    var entries, table := EntryImages(fs, |fs|), Table(fs, |fs|);
    assert index[INDEX_HEADER..][..|entries|] == entries && index[INDEX_HEADER..][|entries|..] == table;
    assert index[INDEX_HEADER..EntriesEnd(index)] == index[INDEX_HEADER..][..|entries|];
    assert index[EntriesEnd(index)..] == index[INDEX_HEADER..][|entries|..];
    forall k | 0 <= k < |fs| ensures ReadEntry(index, INDEX_HEADER + k * ENTRY) == Entry(fs, k) {
      EntryImagesHold(fs, k, |fs|);
      AtExtended(entries, table, k * ENTRY, Record(EntryFields(Entry(fs, k))));
      AtShifted(index[..INDEX_HEADER], entries + table, k * ENTRY, Record(EntryFields(Entry(fs, k))));
      assert index == index[..INDEX_HEADER] + index[INDEX_HEADER..];
      EntryInRange(fs, k);
      EntryRoundTrip(index, INDEX_HEADER + k * ENTRY, Entry(fs, k));
    }
    assert Tables(index).entries == Listing(fs).entries;
  }

  /** The files a pack can hold. */
  ghost predicate Packable(fs: seq<SourceFile>) {
    && 0 < |fs| <= MAX_COUNT && |Table(fs, |fs|)| <= MAX_PATHS
    && (forall k | 0 <= k < |fs| :: ValidRelative(fs[k].path))
    && (forall k | 0 < k < |fs| :: Less(fs[k - 1].path, fs[k].path))
  }

  ghost predicate CPaths(fs: seq<SourceFile>) {
    forall k | 0 <= k < |fs| :: 0 !in fs[k].path
  }

  /** Names in the listing are the paths, and end where the entry says. */
  lemma ListingNames(fs: seq<SourceFile>, k: nat)
    requires CPaths(fs) && k < |fs|
    ensures var e, table := Entry(fs, k), Table(fs, |fs|);
            && e.pathOffset + e.pathLength + 1 <= |table|
            && table[e.pathOffset + e.pathLength] == 0
            && table[e.pathOffset..e.pathOffset + e.pathLength] == fs[k].path
            && CString(table, e.pathOffset) == fs[k].path
  {
    hide CString;
    var at, path, table := |Table(fs, k)|, fs[k].path, Table(fs, |fs|);
    TableHolds(fs, k, |fs|);
    CStringAt(table, at, path);
    AtConcat(table, at, path, [0]);
    AtIsSlice(table, at, path);
    AtByte(table, at + |path|, 0);
  }

  lemma EntryFitsExactly(fs: seq<SourceFile>, k: nat)
    requires CPaths(fs) && Fits(fs) && k < |fs|
    ensures EntryFits(Listing(fs), Position(fs, |fs|), k)
            <==> ValidRelative(fs[k].path) && (k > 0 ==> Less(fs[k - 1].path, fs[k].path))
  {
    hide CString, Align16, Less, ValidRelative, Position, Offset, Table;
    ListingNames(fs, k);
    Layout(fs, k);
    PositionMonotone(fs, k + 1, |fs|);
    assert fs[k].path == [] ==> !ValidRelative(fs[k].path) by { EmptyPathInvalid(); }
    if k > 0 {
      ListingNames(fs, k - 1);
    }
  }

  lemma EmptyPathInvalid()
    ensures !ValidRelative([])
  {
  }

  /** The loader accepts the images exactly when the files can be packed, and
      then holds exactly their listing. */
  lemma ImagesLoadExactly(fs: seq<SourceFile>, client: nat, id: word)
    requires CPaths(fs) && Fits(fs) && Plausible(fs, client)
    ensures Load(PackImage(fs, client, id), IndexImage(fs, client, id), client)
            == if Packable(fs) then Some(Listing(fs)) else None
  {
    hide Fnv, EntryFits, Position, PackImage, IndexImage, Entry, Less, ValidRelative, ReadEntry, ReadPackHeader,
        ReadIndexHeader,
         Table, EntryImages, Contents, Tables;
    var pack, index := PackImage(fs, client, id), IndexImage(fs, client, id);
    HeadersReadBack(fs, client, id);
    TablesReadBack(fs, client, id);
    TableMonotone(fs, |fs|, |fs|);
    if Loadable(pack, index, client) {
      forall k | 0 <= k < |fs| ensures ValidRelative(fs[k].path) && (k > 0 ==> Less(fs[k - 1].path, fs[k].path)) {
        assert EntryFits(Listing(fs), |pack|, k);
        EntryFitsExactly(fs, k);
      }
    }
    if Packable(fs) {
      forall k | 0 <= k < |fs| ensures EntryFits(Listing(fs), |pack|, k) {
        EntryFitsExactly(fs, k);
      }
    }
  }

  // ---- reading a file ----

  ghost predicate InPack(index: Index, pack: bytes) {
    forall k | 0 <= k < |index.entries| :: index.entries[k].offset + index.entries[k].size <= |pack|
  }

  ghost function Slice(index: Index, pack: bytes, k: nat): bytes
    requires InPack(index, pack) && k < |index.entries|
  {
    pack[index.entries[k].offset..index.entries[k].offset + index.entries[k].size]
  }

  /** The bytes of the entry with that path. */
  ghost function Lookup(index: Index, pack: bytes, path: bytes): Option<bytes>
    requires index.Sorted() && InPack(index, pack)
  {
    if ValidRelative(path) && path in index.Names() then
      var k :| 0 <= k < |index.Names()| && index.Names()[k] == path;
      Some(Slice(index, pack, k))
    else None
  }

  /** source/asset_pack.c `asset_pack_read_all_relative` on an opened pack. */
  method ReadAll(index: Index, pack: bytes, path: bytes) returns (r: Option<bytes>)
    requires index.Sorted() && InPack(index, pack)
    ensures r == Lookup(index, pack, path)
    ensures r.Some? <==> ValidRelative(path) && path in index.Names()
    ensures forall k | 0 <= k < |index.entries| && index.Names()[k] == path && r.Some? ::
              r.value == pack[index.entries[k].offset..index.entries[k].offset + index.entries[k].size]
  {
    if !ValidRelative(path) {
      return None;
    }
    var found, at := index.ComparePath(path);
    if !found {
      return None;
    }
    var e := index.entries[at];
    NameIsUnique(index.Names(), at);
    return Some(pack[e.offset..e.offset + e.size]);
  }

  lemma NameIsUnique(names: seq<bytes>, at: nat)
    requires Ascending(names) && at < |names|
    ensures forall k | 0 <= k < |names| && names[k] == names[at] :: k == at
  {
    forall k | 0 <= k < |names| && names[k] == names[at] ensures k == at {
      if k < at {
        AscendingFar(names, k, at);
      } else if at < k {
        AscendingFar(names, at, k);
      }
    }
  }

  /** Build, then load: the names are the paths, in ascending order, every
      entry's slice of the pack is that file's bytes, and there are no others. */
  lemma RoundTrip(fs: seq<SourceFile>, client: nat, id: word)
    requires CPaths(fs) && Fits(fs) && 0 < client <= 0xffff_ffff && Packable(fs)
    ensures var pack := PackImage(fs, client, id);
            var loaded := Load(pack, IndexImage(fs, client, id), client);
            && loaded.Some?
            && var t := loaded.value;
               && t.Sorted() && |t.Names()| == |fs|
               && forall k | 0 <= k < |fs| ::
                    && t.Names()[k] == fs[k].path
                    && t.entries[k].offset + t.entries[k].size <= |pack|
                    && pack[t.entries[k].offset..t.entries[k].offset + t.entries[k].size] == fs[k].content
  {
    hide Load, PackImage, IndexImage, Table, CString, Entry, Packable;
    var pack, index := PackImage(fs, client, id), IndexImage(fs, client, id);
    assert Plausible(fs, client) by { PackableIsPlausible(fs, client); }
    ImagesLoadExactly(fs, client, id);
    LoadedIsSorted(pack, index, client);
    var t := Listing(fs);
    forall k | 0 <= k < |fs|
      ensures t.Names()[k] == fs[k].path
      ensures pack[t.entries[k].offset..t.entries[k].offset + t.entries[k].size] == fs[k].content
    {
      ListingNames(fs, k);
      assert t.Names()[k] == t.Name(k);
      ContentInPack(fs, client, id, k);
    }
  }

  lemma PackableIsPlausible(fs: seq<SourceFile>, client: nat)
    requires Packable(fs) && 0 < client <= 0xffff_ffff
    ensures Plausible(fs, client)
  {
  }

  lemma PackBehindHeader(fs: seq<SourceFile>, client: nat, id: word)
    requires Plausible(fs, client) && Fits(fs)
    ensures |PackImage(fs, client, id)| >= PACK_HEADER
    ensures PackImage(fs, client, id)[PACK_HEADER..] == Data(fs, |fs|)
  {
    hide PackImage, Position, Data, ReadPackHeader, ReadIndexHeader, IndexImage, Fnv, Table;
    HeadersReadBack(fs, client, id);
  }

  lemma ContentInPack(fs: seq<SourceFile>, client: nat, id: word, k: nat)
    requires Plausible(fs, client) && Fits(fs) && k < |fs|
    ensures var pack, e := PackImage(fs, client, id), Entry(fs, k);
            e.offset + e.size <= |pack| && pack[e.offset..e.offset + e.size] == fs[k].content
  {
    hide PackImage, Position, Offset, Align16, Data, At, Table;
    var pack := PackImage(fs, client, id);
    PackBehindHeader(fs, client, id);
    Layout(fs, k);
    DataHolds(fs, k, |fs|);
    var i := Offset(fs, k) - PACK_HEADER;
    AtShifted(pack[..PACK_HEADER], Data(fs, |fs|), i, fs[k].content);
    assert pack == pack[..PACK_HEADER] + pack[PACK_HEADER..];
    AtIsSlice(pack, Offset(fs, k), fs[k].content);
  }
}
