/** Which file sets a pack can hold, in whatever order they were found
    (source/asset_pack.c lines 362 to 400 and 446 to 611), and the round trip over
    such a set: build, load, read by path. */
module PackFiles {
  import opened Bytes
  import opened PathOrder
  import opened AssetIndex
  import opened PackFormat
  import opened PackBuild

  /** The room the paths take in the index, each with its NUL. */
  function PathRoom(fs: seq<SourceFile>): nat {
    if fs == [] then 0 else |fs[0].path| + 1 + PathRoom(fs[1..])
  }

  ghost predicate DistinctPaths(fs: seq<SourceFile>) {
    forall i, j | 0 <= i < j < |fs| :: fs[i].path != fs[j].path
  }

  /** The file sets the format allows. */
  ghost predicate Allowed(files: seq<SourceFile>) {
    && 0 < |files| <= MAX_COUNT && PathRoom(files) <= MAX_PATHS
    && (forall k | 0 <= k < |files| :: ValidRelative(files[k].path))
    && DistinctPaths(files)
  }

  // ---- what sorting does not change ----

  lemma {:induction false} PathRoomSnoc(fs: seq<SourceFile>, f: SourceFile)
    ensures PathRoom(fs + [f]) == PathRoom(fs) + |f.path| + 1
    decreases |fs|
  {
    if fs != [] {
      assert (fs + [f])[1..] == fs[1..] + [f];
      PathRoomSnoc(fs[1..], f);
    }
  }

  lemma {:induction false} TableRoom(fs: seq<SourceFile>, k: nat)
    requires k <= |fs|
    ensures |Table(fs, k)| == PathRoom(fs[..k])
    decreases k
  {
    if k > 0 {
      TableRoom(fs, k - 1);
      PathRoomSnoc(fs[..k - 1], fs[k - 1]);
      assert fs[..k] == fs[..k - 1] + [fs[k - 1]];
    }
  }

  lemma {:induction false} InsertRoom(f: SourceFile, fs: seq<SourceFile>)
    ensures PathRoom(Insert(f, fs)) == PathRoom(fs) + |f.path| + 1
    decreases |fs|
  {
    hide Compare;
    if |fs| == 0 || Compare(f.path, fs[0].path) <= 0 {
      assert ([f] + fs)[1..] == fs;
    } else {
      InsertRoom(f, fs[1..]);
      assert ([fs[0]] + Insert(f, fs[1..]))[1..] == Insert(f, fs[1..]);
    }
  }

  lemma {:induction false} SortRoom(fs: seq<SourceFile>)
    ensures PathRoom(Sort(fs)) == PathRoom(fs)
    decreases |fs|
  {
    hide Insert;
    if |fs| > 0 {
      SortRoom(fs[1..]);
      InsertRoom(fs[0], Sort(fs[1..]));
    }
  }

  ghost predicate Absent(path: bytes, fs: seq<SourceFile>) {
    forall k | 0 <= k < |fs| :: fs[k].path != path
  }

  lemma DistinctCons(f: SourceFile, fs: seq<SourceFile>)
    ensures DistinctPaths([f] + fs) <==> Absent(f.path, fs) && DistinctPaths(fs)
  {
    var all := [f] + fs;
    assert forall k | 0 <= k < |fs| :: all[k + 1] == fs[k];
    if DistinctPaths(all) {
      forall k | 0 <= k < |fs| ensures fs[k].path != f.path { assert all[0].path != all[k + 1].path; }
      forall i, j | 0 <= i < j < |fs| ensures fs[i].path != fs[j].path { assert all[i + 1].path != all[j + 1].path; }
    }
  }

  lemma SameMembers(fs: seq<SourceFile>, gs: seq<SourceFile>)
    requires multiset(fs) == multiset(gs)
    ensures forall f :: f in fs <==> f in gs
  {
    forall f ensures f in fs <==> f in gs {
      assert f in multiset(fs) <==> f in multiset(gs);
    }
  }

  lemma AbsentInserted(path: bytes, f: SourceFile, fs: seq<SourceFile>)
    ensures Absent(path, Insert(f, fs)) <==> f.path != path && Absent(path, fs)
  {
    hide Insert, Compare;
    InsertKeeps(f, fs);
    SameMembers(Insert(f, fs), fs + [f]);
    if Absent(path, Insert(f, fs)) {
      assert f in fs + [f] by { assert (fs + [f])[|fs|] == f; }
      forall k | 0 <= k < |fs| ensures fs[k].path != path { assert (fs + [f])[k] == fs[k] && fs[k] in fs + [f]; }
    }
    if f.path != path && Absent(path, fs) {
      forall k | 0 <= k < |Insert(f, fs)| ensures Insert(f, fs)[k].path != path { assert Insert(f, fs)[k] in fs + [f]; }
    }
  }

  lemma {:induction false} InsertDistinct(f: SourceFile, fs: seq<SourceFile>)
    ensures DistinctPaths(Insert(f, fs)) <==> Absent(f.path, fs) && DistinctPaths(fs)
    decreases |fs|
  {
    hide Compare, DistinctPaths;
    DistinctCons(f, fs);
    if |fs| > 0 && Compare(f.path, fs[0].path) > 0 {
      var rest := fs[1..];
      InsertDistinct(f, rest);
      AbsentInserted(fs[0].path, f, rest);
      DistinctCons(fs[0], rest);
      DistinctCons(fs[0], Insert(f, rest));
      assert fs == [fs[0]] + rest;
      assert Absent(f.path, fs) <==> f.path != fs[0].path && Absent(f.path, rest);
    }
  }

  lemma {:induction false} SortDistinct(fs: seq<SourceFile>)
    ensures DistinctPaths(Sort(fs)) <==> DistinctPaths(fs)
    decreases |fs|
  {
    hide Insert, DistinctPaths, Absent;
    if |fs| > 0 {
      var rest := fs[1..];
      SortDistinct(rest);
      InsertDistinct(fs[0], Sort(rest));
      DistinctCons(fs[0], rest);
      assert fs == [fs[0]] + rest;
      AbsentSorted(fs[0].path, rest);
    }
  }

  lemma AbsentSorted(path: bytes, fs: seq<SourceFile>)
    ensures Absent(path, Sort(fs)) <==> Absent(path, fs)
  {
    hide Sort;
    SortSorts(fs);
    SameMembers(fs, Sort(fs));
    if Absent(path, Sort(fs)) {
      forall k | 0 <= k < |fs| ensures fs[k].path != path { assert fs[k] in Sort(fs); }
    }
    if Absent(path, fs) {
      forall k | 0 <= k < |Sort(fs)| ensures Sort(fs)[k].path != path { assert Sort(fs)[k] in fs; }
    }
  }

  /** In a sorted list, distinct and strictly ascending are the same. */
  lemma StrictlySorted(fs: seq<SourceFile>)
    requires SortedFiles(fs)
    ensures DistinctPaths(fs) <==> forall k | 0 < k < |fs| :: Less(fs[k - 1].path, fs[k].path)
  {
    hide Compare;
    if DistinctPaths(fs) {
      forall k | 0 < k < |fs| ensures Less(fs[k - 1].path, fs[k].path) {
        assert fs[k - 1].path != fs[k].path;
      }
    } else {
      var i, j :| 0 <= i < j < |fs| && fs[i].path == fs[j].path;
      var names := seq(|fs|, k requires 0 <= k < |fs| => fs[k].path);
      if forall k | 0 < k < |fs| :: Less(fs[k - 1].path, fs[k].path) {
        AscendingFar(names, i, j);
        assert false;
      }
    }
  }

  /** Sorted, a file set can be packed exactly when the format allows it. */
  lemma PackableExactly(files: seq<SourceFile>)
    ensures Packable(Sort(files)) <==> Allowed(files)
  {
    hide Sort, Table, PathRoom, SortedFiles, ValidRelative, Less, DistinctPaths;
    var fs := Sort(files);
    SortSorts(files);
    SortRoom(files);
    SortDistinct(files);
    StrictlySorted(fs);
    TableRoom(fs, |fs|);
    assert fs[..|fs|] == fs;
    SameMembers(files, fs);
    if Packable(fs) {
      forall k | 0 <= k < |files| ensures ValidRelative(files[k].path) { assert files[k] in fs; }
    }
    if Allowed(files) {
      forall k | 0 <= k < |fs| ensures ValidRelative(fs[k].path) { assert fs[k] in files; }
    }
  }

  // ---- the round trip of a set ----

  lemma FoundAt(t: Index, pack: bytes, k: nat)
    requires t.Sorted() && InPack(t, pack) && k < |t.entries| && ValidRelative(t.Names()[k])
    ensures Lookup(t, pack, t.Names()[k]) == Some(Slice(t, pack, k))
  {
    hide Slice;
    assert t.Names()[k] in t.Names();
    NameIsUnique(t.Names(), k);
  }

  lemma SortKeepsCPaths(files: seq<SourceFile>)
    requires CPaths(files)
    ensures CPaths(Sort(files))
  {
    SortSorts(files);
    SameMembers(files, Sort(files));
    forall k | 0 <= k < |Sort(files)| ensures 0 !in Sort(files)[k].path { assert Sort(files)[k] in files; }
  }

  /** Build, load, read by path, for files found in any order: when the format
      allows the set, the pack opens, every path reads back exactly its file's
      bytes, and every other path fails. When it does not, either the builder's
      own limits stop it first or the pack is refused. */
  lemma SetRoundTrip(files: seq<SourceFile>, client: nat, id: word)
    requires CPaths(files) && Fits(Sort(files)) && 0 < client <= 0xffff_ffff
    ensures var pack := PackImage(Sort(files), client, id);
            var loaded := Load(pack, IndexImage(Sort(files), client, id), client);
            && (!Allowed(files) ==> !Plausible(Sort(files), client) || loaded == None)
            && (Allowed(files) ==>
                  && Plausible(Sort(files), client) && loaded.Some?
                  && loaded.value.Sorted() && InPack(loaded.value, pack)
                  && (forall f | f in files :: Lookup(loaded.value, pack, f.path) == Some(f.content))
                  && (forall path | Absent(path, files) :: Lookup(loaded.value, pack, path) == None))
  {
    hide Load, PackImage, IndexImage, Packable, Allowed, Sort, Plausible, Fits, Lookup, Slice, Absent, CPaths, Listing;
    var fs := Sort(files);
    PackableExactly(files);
    SortKeepsCPaths(files);
    if Packable(fs) {
      PackableIsPlausible(fs, client);
      ImagesLoadExactly(fs, client, id);
      var pack := PackImage(fs, client, id);
      RoundTrip(fs, client, id);
      var t := Load(pack, IndexImage(fs, client, id), client).value;
      SortSorts(files);
      ReadsBack(t, pack, files);
    } else if Plausible(fs, client) {
      ImagesLoadExactly(fs, client, id);
    }
  }

  lemma ReadsBack(t: Index, pack: bytes, files: seq<SourceFile>)
    requires Packable(Sort(files)) && t.Sorted() && |t.entries| == |files|
    requires var fs := Sort(files); |fs| == |files| && forall k | 0 <= k < |fs| ::
               && t.Names()[k] == fs[k].path && t.entries[k].offset + t.entries[k].size <= |pack|
               && pack[t.entries[k].offset..t.entries[k].offset + t.entries[k].size] == fs[k].content
    ensures InPack(t, pack)
    ensures forall f | f in files :: Lookup(t, pack, f.path) == Some(f.content)
    ensures forall path | Absent(path, files) :: Lookup(t, pack, path) == None
  {
    hide Packable, Sort, Lookup, Slice, Absent, ValidRelative;
    var fs := Sort(files);
    SortSorts(files);
    SameMembers(files, fs);
    forall f | f in files ensures Lookup(t, pack, f.path) == Some(f.content) {
      var k :| 0 <= k < |fs| && fs[k] == f;
      PackablePath(fs, k);
      SliceIs(t, pack, k);
      FoundAt(t, pack, k);
    }
    forall path | Absent(path, files) ensures Lookup(t, pack, path) == None {
      AbsentSorted(path, files);
      NotFound(t, pack, fs, path);
    }
  }

  lemma PackablePath(fs: seq<SourceFile>, k: nat)
    requires Packable(fs) && k < |fs|
    ensures ValidRelative(fs[k].path)
  {
  }

  lemma SliceIs(t: Index, pack: bytes, k: nat)
    requires InPack(t, pack) && k < |t.entries|
    ensures Slice(t, pack, k) == pack[t.entries[k].offset..t.entries[k].offset + t.entries[k].size]
  {
  }

  lemma NotFound(t: Index, pack: bytes, fs: seq<SourceFile>, path: bytes)
    requires t.Sorted() && InPack(t, pack) && |t.Names()| == |fs| && forall k | 0 <= k < |fs| ::
        t.Names()[k] == fs[k].path
    requires Absent(path, fs)
    ensures Lookup(t, pack, path) == None
  {
    hide ValidRelative;
    assert path !in t.Names();
  }
}
