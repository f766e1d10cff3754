/** The loaded asset index: binary search, directories and their listings
    (source/asset_pack.c lines 200 to 241 and 1227 to 1295). */
module AssetIndex {
  import opened Bytes
  import opened PathOrder

  datatype DiskEntry = DiskEntry(offset: nat, size: nat, pathOffset: nat, pathLength: nat)

  /** The C string in `table` at `i`. */
  function CString(table: bytes, i: nat): bytes
    requires i <= |table|
    decreases |table| - i
  {
    if i == |table| || table[i] == 0 then [] else [table[i]] + CString(table, i + 1)
  }

  lemma {:induction false} CStringAt(table: bytes, i: nat, text: bytes)
    requires At(table, i, text + [0]) && 0 !in text
    ensures i <= |table| && CString(table, i) == text
    decreases |text|
  {
    AtConcat(table, i, text, [0]);
    AtFirst(table, i, text);
    if |text| == 0 {
      AtByte(table, i, 0);
    } else {
      assert text + [0] == [text[0]] + (text[1..] + [0]);
      AtConcat(table, i, [text[0]], text[1..] + [0]);
      CStringAt(table, i + 1, text[1..]);
    }
  }

  /** The global tables once a pack is open. */
  datatype Index = Index(entries: seq<DiskEntry>, table: bytes) {
    predicate InTable() {
      forall k | 0 <= k < |entries| :: entries[k].pathOffset <= |table|
    }

    function Name(k: nat): bytes
      requires InTable() && k < |entries|
    {
      CString(table, entries[k].pathOffset)
    }

    function Names(): (r: seq<bytes>)
      requires InTable()
      ensures |r| == |entries| && forall k | 0 <= k < |r| :: r[k] == Name(k)
    {
      seq(|entries|, k requires 0 <= k < |entries| => Name(k))
    }

    /** What loading guarantees: names strictly ascending. */
    ghost predicate Sorted() {
      InTable() && Ascending(Names())
    }

    /** source/asset_pack.c `entry_compare_path`. */
    method ComparePath(path: bytes) returns (found: bool, index: nat)
      requires Sorted()
      ensures InsertionPoint(Names(), path, index)
      ensures found <==> path in Names()
      ensures found ==> index < |entries| && Names()[index] == path
    {
      var names := Names();
      var low, high := 0, |entries|;
      while low < high
        invariant 0 <= low <= high <= |entries|
        invariant forall k | 0 <= k < low :: Less(names[k], path)
        invariant forall k | high <= k < |names| :: Less(path, names[k])
      {
        var mid := low + (high - low) / 2;
        var c := Compare(path, Name(mid));
        if c == 0 {
          SortedAround(names, mid, path);
          return true, mid;
        }
        SortedAround(names, mid, path);
        if c < 0 {
          high := mid;
        } else {
          low := mid + 1;
        }
      }
      return false, low;
    }
  }

  /** One comparison settles every entry on its far side. */
  lemma SortedAround(names: seq<bytes>, mid: nat, path: bytes)
    requires Ascending(names) && mid < |names|
    ensures Compare(path, names[mid]) <= 0 ==> forall k | mid < k < |names| :: Less(path, names[k])
    ensures Compare(path, names[mid]) < 0 ==> Less(path, names[mid])
    ensures Compare(path, names[mid]) >= 0 ==> forall k | 0 <= k < mid :: Less(names[k], path)
    ensures Compare(path, names[mid]) > 0 ==> Less(names[mid], path)
  {
    CompareAntisymmetric(names[mid], path);
    forall k | mid < k < |names| && Compare(path, names[mid]) <= 0 ensures Less(path, names[k]) {
      AscendingFar(names, mid, k);
      if Compare(path, names[mid]) < 0 {
        LessTransitive(path, names[mid], names[k]);
      }
    }
    forall k | 0 <= k < mid && Compare(path, names[mid]) >= 0 ensures Less(names[k], path) {
      AscendingFar(names, k, mid);
      if Compare(path, names[mid]) > 0 {
        LessTransitive(names[k], names[mid], path);
      }
    }
  }

  // ---- directories ----

  const PATH_CAPACITY: nat := 768
  const NAME_CAPACITY: nat := 256

  /** Is there an entry below directory `dir` (the root when empty)? */
  ghost predicate HasBelow(names: seq<bytes>, dir: bytes) {
    exists k :: 0 <= k < |names| && Below(names[k], dir)
  }

  predicate Below(name: bytes, dir: bytes) {
    dir == [] || StartsWith(name, dir + [SLASH])
  }

  /** source/asset_pack.c `find_directory_relative`, without the inode. */
  method FindDirectory(index: Index, path: bytes) returns (found: bool)
    requires index.Sorted()
    ensures found <==> (path == [] || (ValidRelative(path) && |path| + 2 <= PATH_CAPACITY))
                       && HasBelow(index.Names(), path)
  {
    if path != [] && !ValidRelative(path) {
      return false;
    }
    if path == [] {
      found := |index.entries| != 0;
      assert found ==> Below(index.Names()[0], path);
      return;
    }
    if |path| + 2 > PATH_CAPACITY {
      return false;
    }
    var prefix := path + [SLASH];
    var exact, at := index.ComparePath(prefix);
    InsertionPointDecidesPrefix(index.Names(), prefix, at);
    assert forall k | 0 <= k < |index.Names()| :: StartsWith(index.Names()[k], prefix) == Below(index.Names()[k], path);
    return at < |index.entries| && StartsWith(index.Name(at), prefix);
  }

  /** The linear scan of source/asset_pack.c `asset_pack_opendir_path`. */
  method OpenDirectory(index: Index, path: bytes) returns (found: bool)
    requires index.Sorted()
    ensures found <==> exists k :: 0 <= k < |index.Names()| && Below(index.Names()[k], path)
                                     && (path == [] ==> index.Names()[k] != [])
  {
    found := false;
    for i := 0 to |index.entries|
      invariant !found
      invariant forall k | 0 <= k < i :: !(Below(index.Names()[k], path) && (path == [] ==> index.Names()[k] != []))
    {
      var entry := index.Name(i);
      assert entry == index.Names()[i];
      if (path == [] && entry != []) || (path != [] && Below(entry, path)) {
        return true;
      }
    }
  }

  /** Both tests of a directory on one path. The scan does not count an empty entry
      below the root, and the search refuses a path that is invalid or too long for
      its buffer; otherwise they agree. */
  method DirectoryTestsAgree(index: Index, path: bytes) returns (found: bool, scanned: bool)
    requires index.Sorted()
    ensures found == scanned
            <==> if path == [] then index.Names() != [[]]
                 else (ValidRelative(path) && |path| + 2 <= PATH_CAPACITY) || !HasBelow(index.Names(), path)
    ensures scanned <==> HasBelow(index.Names(), path) && (path == [] ==> index.Names() != [[]])
  {
    found := FindDirectory(index, path);
    scanned := OpenDirectory(index, path);
    ghost var names := index.Names();
    if path == [] {
      RootEntries(names);
    } else if HasBelow(names, path) {
      ghost var k :| 0 <= k < |names| && Below(names[k], path);
    }
  }

  /** Below the root lies every entry, and a non-empty one unless only [] does. */
  lemma RootEntries(names: seq<bytes>)
    requires Ascending(names)
    ensures HasBelow(names, []) <==> names != []
    ensures (exists k :: 0 <= k < |names| && Below(names[k], []) && names[k] != []) <==> names != [] && names != [[]]
  {
    if names != [] { assert Below(names[0], []); }
    if |names| > 1 {
      assert Less(names[0], names[1]);
      assert names[1] != [] && Below(names[1], []);
    } else if |names| == 1 {
      assert names == [names[0]];
    }
  }
}
