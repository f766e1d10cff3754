/** Reading a pack directory (source/asset_pack.c `asset_pack_readdir_path`):
    the reader compares each child only with the one emitted last, and still
    emits every immediate child once. */
module AssetListing {
  import opened Bytes
  import opened PathOrder
  import opened AssetIndex

  /** The bytes before the first slash. */
  function FirstPart(t: bytes): (c: bytes)
    ensures |c| <= |t| && SLASH !in c && t[..|c|] == c && (|c| < |t| ==> t[|c|] == SLASH)
  {
    if |t| == 0 || t[0] == SLASH then [] else
      var rest := FirstPart(t[1..]);
      assert t == [t[0]] + t[1..];
      [t[0]] + rest
  }

  /** What is left of an entry below `dir`. */
  function Tail(name: bytes, dir: bytes): bytes
    requires Below(name, dir)
  {
    if dir == [] then name else name[|dir| + 1..]
  }

  function Child(name: bytes, dir: bytes): bytes
    requires Below(name, dir)
  {
    FirstPart(Tail(name, dir))
  }

  datatype Node = Node(name: bytes, directory: bool)

  function NodeOf(name: bytes, dir: bytes): Node
    requires Below(name, dir)
  {
    Node(Child(name, dir), |Child(name, dir)| < |Tail(name, dir)|)
  }

  /** The entries the reader does not skip. */
  predicate Listed(name: bytes, dir: bytes) {
    Below(name, dir) && 0 < |Child(name, dir)| < NAME_CAPACITY
  }

  /** What reading on from entry `i` emits after `last`. */
  function ListFrom(names: seq<bytes>, dir: bytes, i: nat, last: bytes): seq<Node>
    requires i <= |names|
    decreases |names| - i
  {
    if i == |names| then []
    else if !Listed(names[i], dir) || Child(names[i], dir) == last then ListFrom(names, dir, i + 1, last)
    else [NodeOf(names[i], dir)] + ListFrom(names, dir, i + 1, Child(names[i], dir))
  }

  const DOT: Node := Node([0x2e], true)
  const DOT_DOT: Node := Node([0x2e, 0x2e], true)

  class PackDir {
    const index: Index
    const prefix: bytes
    var cursor: nat
    var dots: nat
    var last: bytes

    ghost predicate Valid()
      reads this
    {
      index.InTable() && cursor <= |index.entries| && dots <= 2
    }

    /** Everything still to be emitted. */
    ghost function Remaining(): seq<Node>
      requires Valid()
      reads this
    {
      [DOT, DOT_DOT][dots..] + ListFrom(index.Names(), prefix, cursor, last)
    }

    constructor (index: Index, prefix: bytes)
      requires index.InTable()
      ensures Valid() && this.index == index && this.prefix == prefix
      ensures Remaining() == [DOT, DOT_DOT] + ListFrom(index.Names(), prefix, 0, [])
    {
      this.index, this.prefix, cursor, dots, last := index, prefix, 0, 0, [];
    }

    method ReadDirectory() returns (r: Option<Node>)
      requires Valid()
      modifies this
      ensures Valid()
      ensures r == if old(Remaining()) == [] then None else Some(old(Remaining())[0])
      ensures r.Some? ==> Remaining() == old(Remaining())[1..]
      ensures r.None? ==> Remaining() == []
    {
      if dots < 2 {
        dots := dots + 1;
        return Some(if dots == 1 then DOT else DOT_DOT);
      }
      ghost var names := index.Names();
      while cursor < |index.entries|
        invariant Valid() && dots == 2 && last == old(last)
        invariant ListFrom(names, prefix, cursor, last) == ListFrom(names, prefix, old(cursor), last)
      {
        var entry := index.Name(cursor);
        assert entry == names[cursor];
        cursor := cursor + 1;
        if !Below(entry, prefix) {
          continue;
        }
        var child := Child(entry, prefix);
        if |child| == 0 || |child| >= NAME_CAPACITY || child == last {
          continue;
        }
        last := child;
        return Some(Node(child, |child| < |Tail(entry, prefix)|));
      }
      return None;
    }
  }

  // ---- every child once ----

  /** No path is the directory of another, as on any file system. */
  ghost predicate NoFileIsDirectory(names: seq<bytes>) {
    forall i, j :: 0 <= i < |names| && 0 <= j < |names| ==> !StartsWith(names[j], names[i] + [SLASH])
  }

  /** A file shown in `dir` whose path is the directory of another entry. */
  ghost predicate Clash(names: seq<bytes>, dir: bytes, i: nat, j: nat) {
    && i < |names| && j < |names| && Listed(names[i], dir) && !NodeOf(names[i], dir).directory
    && StartsWith(names[j], names[i] + [SLASH])
  }

  /** No file shown in `dir` is also a directory. The loader does not check this:
      a file system gives it, and it is what a listing needs. */
  ghost predicate NoClash(names: seq<bytes>, dir: bytes) {
    forall i: nat, j: nat :: !Clash(names, dir, i, j)
  }

  lemma FileSystemHasNoClash(names: seq<bytes>, dir: bytes)
    requires NoFileIsDirectory(names)
    ensures NoClash(names, dir)
  {
  }

  ghost predicate Shows(names: seq<bytes>, dir: bytes, k: nat, child: bytes) {
    k < |names| && Listed(names[k], dir) && Child(names[k], dir) == child
  }

  ghost predicate Seen(names: seq<bytes>, dir: bytes, i: nat, child: bytes) {
    exists k: nat :: k < i && Shows(names, dir, k, child)
  }

  /** `last` is the child shown by the nearest listed entry before `i`, and
      empty when there is none. */
  ghost predicate Resumes(names: seq<bytes>, dir: bytes, i: nat, last: bytes) {
    && (last == [] || Seen(names, dir, i, last))
    && (forall k: nat :: k < i <= |names| && Nearest(names, dir, k, i) ==> Child(names[k], dir) == last)
  }

  ghost predicate Nearest(names: seq<bytes>, dir: bytes, k: nat, i: nat)
    ensures Nearest(names, dir, k, i) ==> k < |names| && Below(names[k], dir)
  {
    k < i <= |names| && Listed(names[k], dir) && forall m: nat :: k < m < i ==> !Listed(names[m], dir)
  }

  function Base(dir: bytes): bytes { if dir == [] then [] else dir + [SLASH] }

  /** An entry is its directory, its child and what is left. */
  lemma NameSplits(name: bytes, dir: bytes)
    requires Below(name, dir)
    ensures var base := if dir == [] then [] else dir + [SLASH];
            && name == base + Tail(name, dir)
            && (NodeOf(name, dir).directory ==> StartsWith(name, base + (Child(name, dir) + [SLASH])))
            && (!NodeOf(name, dir).directory ==> name == base + Child(name, dir))
  {
    hide Tail, At, Below, FirstPart;
    var base := if dir == [] then [] else dir + [SLASH];
    var t, c := Tail(name, dir), Child(name, dir);
    NameIsBaseAndTail(name, dir);
    FirstPartSplits(t);
    if |c| < |t| {
      StartsWithPart(name, base, c + [SLASH], t[|c| + 1..]);
    }
  }

  lemma FirstPartSplits(t: bytes)
    ensures var c := FirstPart(t);
            |c| <= |t| && t == if |c| < |t| then (c + [SLASH]) + t[|c| + 1..] else c
  {
    hide FirstPart;
    var c := FirstPart(t);
    assert t[..|c|] == c;
    if |c| < |t| {
      assert t == t[..|c|] + [t[|c|]] + t[|c| + 1..];
    }
  }

  lemma NameIsBaseAndTail(name: bytes, dir: bytes)
    requires Below(name, dir)
    ensures name == (if dir == [] then [] else dir + [SLASH]) + Tail(name, dir)
  {
    if dir != [] {
      AtIsSlice(name, 0, dir + [SLASH]);
      assert name == name[0..|dir| + 1] + name[|dir| + 1..];
    } else {
      assert name == [] + name;
    }
  }

  lemma StartsWithPart(name: bytes, base: bytes, part: bytes, rest: bytes)
    requires name == base + (part + rest)
    ensures StartsWith(name, base + part)
  {
    assert name == (base + part) + rest;
    AtSelf(name);
    AtConcat(name, 0, base + part, rest);
  }

  lemma AtSelf(s: bytes)
    ensures At(s, 0, s)
  {
    AtSlice(s, 0, |s|);
    assert s[0..|s|] == s;
  }

  lemma {:induction false} FirstPartIs(t: bytes, c: bytes)
    requires SLASH !in c && |c| < |t| && t[..|c|] == c && t[|c|] == SLASH
    ensures FirstPart(t) == c
    decreases |c|
  {
    if |c| > 0 {
      assert t[0] == c[0];
      assert t[1..][..|c| - 1] == t[..|c|][1..];
      FirstPartIs(t[1..], c[1..]);
    }
  }

  /** Starting with a directory's path, its child and a slash shows the child. */
  lemma StartsShows(name: bytes, dir: bytes, c: bytes)
    requires SLASH !in c
    requires var base := if dir == [] then [] else dir + [SLASH]; StartsWith(name, base + (c + [SLASH]))
    ensures Below(name, dir) && NodeOf(name, dir) == Node(c, true)
  {
    var base := if dir == [] then [] else dir + [SLASH];
    AtConcat(name, 0, base, c + [SLASH]);
    AtConcat(name, |base|, c, [SLASH]);
    AtByte(name, |base| + |c|, SLASH);
    AtIsSlice(name, |base|, c);
    var t := Tail(name, dir);
    assert t[..|c|] == c by {
      if dir == [] {
        assert name[0..|c|] == name[..|c|];
      } else {
        assert name[|base|..][..|c|] == name[|base|..|base| + |c|];
      }
    }
    assert t[|c|] == SLASH;
    FirstPartIs(t, c);
  }

  /** Of two entries showing one child the later one shows a directory. Everything
      between them shows it too exactly when the earlier one does; otherwise the
      earlier one is a file whose path is the directory of the later one. */
  lemma ClassIsContiguous(names: seq<bytes>, dir: bytes, i: nat, j: nat)
    requires Ascending(names) && i < j < |names|
    requires Below(names[i], dir) && Below(names[j], dir) && Child(names[i], dir) == Child(names[j], dir)
    ensures NodeOf(names[j], dir).directory
    ensures NodeOf(names[i], dir).directory
            <==> forall m | i <= m <= j ::
                Below(names[m], dir) && NodeOf(names[m], dir) == Node(Child(names[i], dir), true)
    ensures !NodeOf(names[i], dir).directory ==> StartsWith(names[j], names[i] + [SLASH])
  {
    hide Child, Tail, At, Below, NodeOf;
    var c := Child(names[i], dir);
    LaterIsDirectory(names, dir, i, j);
    if NodeOf(names[i], dir).directory {
      forall m | i <= m <= j ensures Below(names[m], dir) && NodeOf(names[m], dir) == Node(c, true) {
        BetweenDirectories(names, dir, i, m, j);
      }
    }
  }

  lemma BetweenDirectories(names: seq<bytes>, dir: bytes, i: nat, m: nat, j: nat)
    requires Ascending(names) && i <= m <= j && i < j < |names|
    requires Below(names[i], dir) && Below(names[j], dir) && Child(names[i], dir) == Child(names[j], dir)
    requires NodeOf(names[i], dir).directory && NodeOf(names[j], dir).directory
    ensures Below(names[m], dir) && NodeOf(names[m], dir) == Node(Child(names[i], dir), true)
  {
    hide Child, Tail, At, Below, NodeOf;
    var c := Child(names[i], dir);
    NameSplits(names[i], dir);
    NameSplits(names[j], dir);
    AscendingFar(names, i, j);
    if i < m {
      AscendingFar(names, i, m);
    }
    if m < j {
      AscendingFar(names, m, j);
    }
    PrefixInterval(names[i], names[m], names[j], Base(dir) + (c + [SLASH]));
    ChildHasNoSlash(names[i], dir);
    StartsShows(names[m], dir, c);
  }

  lemma ChildHasNoSlash(name: bytes, dir: bytes)
    requires Below(name, dir)
    ensures SLASH !in Child(name, dir)
  {
  }

  /** A file comes before everything in a directory of the same name. */
  lemma LaterIsDirectory(names: seq<bytes>, dir: bytes, i: nat, j: nat)
    requires Ascending(names) && i < j < |names|
    requires Below(names[i], dir) && Below(names[j], dir) && Child(names[i], dir) == Child(names[j], dir)
    ensures NodeOf(names[j], dir).directory
    ensures !NodeOf(names[i], dir).directory ==> StartsWith(names[j], names[i] + [SLASH])
  {
    hide Child, Tail, At, Below, Compare;
    var c := Child(names[i], dir);
    NameSplits(names[i], dir);
    NameSplits(names[j], dir);
    AscendingFar(names, i, j);
    assert (Base(dir) + c) + [SLASH] == Base(dir) + (c + [SLASH]);
    if !NodeOf(names[j], dir).directory {
      if NodeOf(names[i], dir).directory {
        StartsShorter(names[i], names[j]);
        PrefixNotAbove(names[i], names[j]);
      }
      CompareAntisymmetric(names[i], names[j]);
      assert false;
    }
  }

  lemma StartsShorter(name: bytes, path: bytes)
    requires StartsWith(name, path + [SLASH])
    ensures StartsWith(name, path)
  {
    AtConcat(name, 0, path, [SLASH]);
  }

  /** Without a clash all entries that show one child show the same node. */
  lemma SameNode(names: seq<bytes>, dir: bytes, i: nat, j: nat)
    requires Ascending(names) && NoClash(names, dir) && i < j < |names|
    requires Listed(names[i], dir) && Listed(names[j], dir) && Child(names[i], dir) == Child(names[j], dir)
    ensures NodeOf(names[i], dir).directory && NodeOf(names[j], dir).directory
  {
    hide Child, Tail, At, Below;
    LaterIsDirectory(names, dir, i, j);
    assert !Clash(names, dir, i, j);
  }

  /** A child shown before is still the last one emitted. */
  lemma SeenIsLast(names: seq<bytes>, dir: bytes, i: nat, last: bytes)
    requires Ascending(names) && NoClash(names, dir) && i < |names| && Resumes(names, dir, i, last)
    requires Listed(names[i], dir) && Seen(names, dir, i, Child(names[i], dir))
    ensures Child(names[i], dir) == last
  {
    hide Child, Tail, Below, NoClash;
    var k: nat :| k < i && Shows(names, dir, k, Child(names[i], dir));
    var m := NearestListed(names, dir, k, i);
    SameNode(names, dir, k, i);
    BetweenDirectories(names, dir, k, m, i);
    assert NodeOf(names[m], dir).name == Child(names[m], dir);
  }

  lemma {:induction false} NearestListed(names: seq<bytes>, dir: bytes, k: nat, i: nat) returns (m: nat)
    requires k < i <= |names| && Listed(names[k], dir)
    ensures k <= m && Nearest(names, dir, m, i)
    decreases i
  {
    if Listed(names[i - 1], dir) || k == i - 1 {
      m := i - 1;
    } else {
      m := NearestListed(names, dir, k, i - 1);
    }
  }

  ghost predicate Distinct(nodes: seq<Node>) {
    forall a, b :: 0 <= a < b < |nodes| ==> nodes[a].name != nodes[b].name
  }

  lemma SeenNext(names: seq<bytes>, dir: bytes, i: nat)
    ensures forall c :: Seen(names, dir, i + 1, c) <==> Seen(names, dir, i, c) || Shows(names, dir, i, c)
  {
    forall c ensures Seen(names, dir, i + 1, c) <==> Seen(names, dir, i, c) || Shows(names, dir, i, c) {
      if Seen(names, dir, i + 1, c) {
        var k: nat :| k < i + 1 && Shows(names, dir, k, c);
      }
    }
  }

  lemma ResumesNext(names: seq<bytes>, dir: bytes, i: nat, last: bytes)
    requires i < |names|
    ensures Listed(names[i], dir) ==> Resumes(names, dir, i + 1, Child(names[i], dir))
    ensures !Listed(names[i], dir) && Resumes(names, dir, i, last) ==> Resumes(names, dir, i + 1, last)
  {
    SeenNext(names, dir, i);
    forall k: nat | Nearest(names, dir, k, i + 1)
      ensures k == i || (Nearest(names, dir, k, i) && !Listed(names[i], dir))
    {
    }
    if Listed(names[i], dir) {
      assert Shows(names, dir, i, Child(names[i], dir));
    }
  }

  /** The rest of a listing, as its entries: exactly the children not seen. */
  ghost predicate Exact(names: seq<bytes>, dir: bytes, i: nat, nodes: seq<Node>) {
    && Distinct(nodes)
    && (forall e :: e in nodes ==> !Seen(names, dir, i, e.name) && ShownFrom(names, dir, i, e))
    && (forall k :: i <= k < |names| && Listed(names[k], dir) && !Seen(names, dir, i, Child(names[k], dir)) ==>
          NodeOf(names[k], dir) in nodes)
  }

  ghost predicate ShownFrom(names: seq<bytes>, dir: bytes, i: nat, e: Node) {
    exists k :: i <= k < |names| && Listed(names[k], dir) && NodeOf(names[k], dir) == e
  }

  lemma {:induction false} ListFromExact(names: seq<bytes>, dir: bytes, i: nat, last: bytes)
    requires Ascending(names) && NoClash(names, dir) && i <= |names| && Resumes(names, dir, i, last)
    ensures Exact(names, dir, i, ListFrom(names, dir, i, last))
    decreases |names| - i
  {
    hide Exact, Resumes, NoClash;
    if i == |names| {
      assert Exact(names, dir, i, []) by { ExactAtEnd(names, dir); }
    } else {
      ResumesNext(names, dir, i, last);
      if !Listed(names[i], dir) {
        ListFromExact(names, dir, i + 1, last);
        ExactSkip(names, dir, i, ListFrom(names, dir, i + 1, last));
      } else {
        var c := Child(names[i], dir);
        ListFromExact(names, dir, i + 1, c);
        if c == last {
          assert Seen(names, dir, i, last) by { ResumesSeen(names, dir, i, last); }
          ExactSkip(names, dir, i, ListFrom(names, dir, i + 1, last));
        } else {
          if Seen(names, dir, i, c) {
            SeenIsLast(names, dir, i, last);
          }
          ExactStep(names, dir, i, ListFrom(names, dir, i + 1, c));
        }
      }
    }
  }

  lemma ResumesSeen(names: seq<bytes>, dir: bytes, i: nat, last: bytes)
    requires Resumes(names, dir, i, last) && last != []
    ensures Seen(names, dir, i, last)
  {
  }

  lemma ExactAtEnd(names: seq<bytes>, dir: bytes)
    ensures Exact(names, dir, |names|, [])
  {
  }

  lemma ExactSkip(names: seq<bytes>, dir: bytes, i: nat, rest: seq<Node>)
    requires i < |names| && Exact(names, dir, i + 1, rest)
    requires Listed(names[i], dir) ==> Seen(names, dir, i, Child(names[i], dir))
    ensures Exact(names, dir, i, rest)
  {
    hide Child, Tail, Below, Listed;
    SeenNext(names, dir, i);
    forall e | e in rest ensures !Seen(names, dir, i, e.name) && ShownFrom(names, dir, i, e) {
      assert !Seen(names, dir, i + 1, e.name) && ShownFrom(names, dir, i + 1, e);
    }
  }

  lemma ExactStep(names: seq<bytes>, dir: bytes, i: nat, rest: seq<Node>)
    requires Ascending(names) && NoClash(names, dir) && i < |names| && Exact(names, dir, i + 1, rest)
    requires Listed(names[i], dir) && !Seen(names, dir, i, Child(names[i], dir))
    ensures Exact(names, dir, i, [NodeOf(names[i], dir)] + rest)
  {
    hide Child, Tail, Below, NoClash;
    var node, c := NodeOf(names[i], dir), Child(names[i], dir);
    SeenNext(names, dir, i);
    assert Shows(names, dir, i, c);
    var nodes := [node] + rest;
    forall e | e in nodes ensures !Seen(names, dir, i, e.name) && ShownFrom(names, dir, i, e) {
      if e in rest {
        assert !Seen(names, dir, i + 1, e.name) && ShownFrom(names, dir, i + 1, e);
      }
    }
    forall b | 0 < b < |nodes| ensures nodes[b].name != c {
      assert nodes[b] in rest;
    }
    forall k | i <= k < |names| && Listed(names[k], dir) && !Seen(names, dir, i, Child(names[k], dir))
      ensures NodeOf(names[k], dir) in nodes
    {
      if k > i && Child(names[k], dir) == c {
        SameNode(names, dir, i, k);
      }
    }
  }

  /** Every entry that is not skipped has its child in the listing, in any case. */
  lemma {:induction false} ChildIsNamed(names: seq<bytes>, dir: bytes, i: nat, last: bytes, k: nat)
    requires i <= k < |names| && Listed(names[k], dir)
    ensures Child(names[k], dir) == last
            || exists e :: e in ListFrom(names, dir, i, last) && e.name == Child(names[k], dir)
    decreases |names| - i
  {
    hide Child, Tail, Below;
    if !Listed(names[i], dir) || Child(names[i], dir) == last {
      if i < k { ChildIsNamed(names, dir, i + 1, last, k); }
    } else {
      assert NodeOf(names[i], dir) in ListFrom(names, dir, i, last);
      if i < k && Child(names[k], dir) != Child(names[i], dir) {
        ChildIsNamed(names, dir, i + 1, Child(names[i], dir), k);
      }
    }
  }

  /** The listing emits nothing but nodes of entries. */
  lemma {:induction false} OnlyShown(names: seq<bytes>, dir: bytes, i: nat, last: bytes)
    requires i <= |names|
    ensures forall e | e in ListFrom(names, dir, i, last) :: ShownFrom(names, dir, i, e)
    decreases |names| - i
  {
    hide Child, Tail, Below;
    if i < |names| {
      var rest := if !Listed(names[i], dir) || Child(names[i], dir) == last then last else Child(names[i], dir);
      OnlyShown(names, dir, i + 1, rest);
      forall e | e in ListFrom(names, dir, i, last) ensures ShownFrom(names, dir, i, e) {
        if e in ListFrom(names, dir, i + 1, rest) {
          assert ShownFrom(names, dir, i + 1, e);
        }
      }
    }
  }

  /** An entry whose child was not shown before is emitted. */
  lemma {:induction false} FirstIsEmitted(names: seq<bytes>, dir: bytes, s: nat, last: bytes, i: nat)
    requires s <= i < |names| && Resumes(names, dir, s, last)
    requires Listed(names[i], dir) && !Seen(names, dir, i, Child(names[i], dir))
    ensures NodeOf(names[i], dir) in ListFrom(names, dir, s, last)
    decreases i - s
  {
    hide Child, Tail, Below, Resumes;
    if s == i {
      if Child(names[i], dir) == last { ResumesSeen(names, dir, i, last); }
    } else {
      ResumesNext(names, dir, s, last);
      if !Listed(names[s], dir) {
        FirstIsEmitted(names, dir, s + 1, last, i);
      } else {
        FirstIsEmitted(names, dir, s + 1, Child(names[s], dir), i);
      }
    }
  }

  /** Nothing before a file shows its name. */
  lemma FileNotSeen(names: seq<bytes>, dir: bytes, i: nat)
    requires Ascending(names) && i < |names| && Listed(names[i], dir) && !NodeOf(names[i], dir).directory
    ensures !Seen(names, dir, i, Child(names[i], dir))
  {
    hide Child, Tail, Below, At;
    if Seen(names, dir, i, Child(names[i], dir)) {
      var k: nat :| k < i && Shows(names, dir, k, Child(names[i], dir));
      LaterIsDirectory(names, dir, k, i);
    }
  }

  /** A whole listing, "." and ".." aside: each node shown by some entry, once, and
      no other, exactly when no file it shows is also a directory. */
  lemma ListingIsExact(names: seq<bytes>, dir: bytes)
    requires Ascending(names)
    ensures var nodes := ListFrom(names, dir, 0, []);
            (Distinct(nodes) && (forall e :: e in nodes <==> ShownFrom(names, dir, 0, e))) <==> NoClash(names, dir)
  {
    hide Child, Tail, Below, NoClash;
    var nodes := ListFrom(names, dir, 0, []);
    if NoClash(names, dir) {
      ListFromExact(names, dir, 0, []);
      forall e | ShownFrom(names, dir, 0, e) ensures e in nodes {
        var k :| 0 <= k < |names| && Listed(names[k], dir) && NodeOf(names[k], dir) == e;
        assert !Seen(names, dir, 0, Child(names[k], dir));
      }
    } else {
      var i, j := ClashOf(names, dir);
      ClashShows(names, dir, i, j);
      var e, g := NodeOf(names[i], dir), NodeOf(names[j], dir);
      assert ShownFrom(names, dir, 0, e) && ShownFrom(names, dir, 0, g);
      if e in nodes && g in nodes {
        var a :| 0 <= a < |nodes| && nodes[a] == e;
        var b :| 0 <= b < |nodes| && nodes[b] == g;
        assert !Distinct(nodes) by { if a < b { } else { assert b < a; } }
      }
    }
  }

  lemma ClashOf(names: seq<bytes>, dir: bytes) returns (i: nat, j: nat)
    requires !NoClash(names, dir)
    ensures Clash(names, dir, i, j)
  {
    i, j :| Clash(names, dir, i, j);
  }

  /** The other entry of a clash shows a directory of the same name. */
  lemma ClashShows(names: seq<bytes>, dir: bytes, i: nat, j: nat)
    requires Clash(names, dir, i, j)
    ensures Listed(names[j], dir) && NodeOf(names[j], dir) == Node(Child(names[i], dir), true)
  {
    hide Child, Tail, Below, At, NodeOf;
    var c := Child(names[i], dir);
    NameSplits(names[i], dir);
    assert (Base(dir) + c) + [SLASH] == Base(dir) + (c + [SLASH]);
    ChildHasNoSlash(names[i], dir);
    StartsShows(names[j], dir, c);
    assert NodeOf(names[j], dir).name == Child(names[j], dir) by { NodeIsChild(names[j], dir); }
  }

  lemma NodeIsChild(name: bytes, dir: bytes)
    requires Below(name, dir)
    ensures NodeOf(name, dir).name == Child(name, dir)
  {
  }

  lemma {:induction false} NoEmptyComponent(path: bytes, i: nat, part: nat, k: nat)
    requires part <= i <= |path| && ValidFrom(path, i, part)
    requires i <= k && k + 1 < |path| && path[k] == SLASH
    ensures path[k + 1] != SLASH
    decreases |path| - i
  {
    if path[i] == SLASH {
      assert ValidFrom(path, i + 1, 0);
      if k > i {
        NoEmptyComponent(path, i + 1, 0, k);
      }
    } else {
      NoEmptyComponent(path, i + 1, part + 1, k);
    }
  }

  /** A valid path below a directory is skipped only for a child of 256 bytes or
      more. */
  lemma ValidChildNonempty(name: bytes, dir: bytes)
    requires ValidRelative(name) && Below(name, dir)
    ensures Child(name, dir) != []
  {
    NameSplits(name, dir);
    if dir != [] {
      AtConcat(name, 0, dir, [SLASH]);
      AtByte(name, |dir|, SLASH);
      if |dir| + 1 < |name| {
        NoEmptyComponent(name, 0, 0, |dir|);
      }
    }
  }

  /** Some entry lies below the child `c` of `dir`. */
  ghost predicate HasEntries(names: seq<bytes>, dir: bytes, c: bytes) {
    exists m :: 0 <= m < |names| && StartsWith(names[m], Base(dir) + (c + [SLASH]))
  }

  /** An entry shows its child rightly unless it is a file of a clash. */
  lemma RightlyShown(names: seq<bytes>, dir: bytes, k: nat)
    requires k < |names| && Listed(names[k], dir)
    ensures (NodeOf(names[k], dir).directory <==> HasEntries(names, dir, Child(names[k], dir)))
            <==> forall j: nat :: !Clash(names, dir, k, j)
  {
    hide Child, Tail, At, Below;
    var c := Child(names[k], dir);
    NameSplits(names[k], dir);
    assert (Base(dir) + c) + [SLASH] == Base(dir) + (c + [SLASH]);
    if NodeOf(names[k], dir).directory {
      assert StartsWith(names[k], Base(dir) + (c + [SLASH]));
    } else if HasEntries(names, dir, c) {
      var m :| 0 <= m < |names| && StartsWith(names[m], Base(dir) + (c + [SLASH]));
      assert Clash(names, dir, k, m);
    }
  }

  /** Every node is a directory exactly when something lies below it. */
  ghost predicate RightlyTyped(names: seq<bytes>, dir: bytes, nodes: seq<Node>) {
    forall e | e in nodes :: e.directory <==> HasEntries(names, dir, e.name)
  }

  /** The listing of a directory of any pack with valid paths. It shows every
      immediate child with a name under 256 bytes and nothing else; each once, as
      what it is, exactly when no file of the directory is also a directory. */
  lemma ChildrenListedOnce(names: seq<bytes>, dir: bytes)
    requires Ascending(names) && forall k | 0 <= k < |names| :: ValidRelative(names[k])
    ensures var nodes := ListFrom(names, dir, 0, []);
            && (forall k | 0 <= k < |names| && Below(names[k], dir) && |Child(names[k], dir)| < NAME_CAPACITY ::
                  exists e :: e in nodes && e.name == Child(names[k], dir))
            && (forall e | e in nodes ::
                  |e.name| < NAME_CAPACITY
                  && exists k :: 0 <= k < |names| && Below(names[k], dir) && NodeOf(names[k], dir) == e)
            && (Distinct(nodes) && RightlyTyped(names, dir, nodes) <==> NoClash(names, dir))
  {
    hide Child, Tail, Below, ValidRelative, NoClash, Distinct, RightlyTyped, ListFrom;
    EveryChildNamed(names, dir);
    OnlyChildren(names, dir);
    if NoClash(names, dir) {
      ListingIsExact(names, dir);
      NoClashTypes(names, dir, ListFrom(names, dir, 0, []));
    } else {
      ClashMistypes(names, dir);
    }
  }

  lemma EveryChildNamed(names: seq<bytes>, dir: bytes)
    requires forall k | 0 <= k < |names| :: ValidRelative(names[k])
    ensures forall k | 0 <= k < |names| && Below(names[k], dir) && |Child(names[k], dir)| < NAME_CAPACITY ::
              exists e :: e in ListFrom(names, dir, 0, []) && e.name == Child(names[k], dir)
  {
    hide Child, Tail, Below, ValidRelative, ListFrom;
    forall k | 0 <= k < |names| && Below(names[k], dir) && |Child(names[k], dir)| < NAME_CAPACITY
      ensures exists e :: e in ListFrom(names, dir, 0, []) && e.name == Child(names[k], dir)
    {
      ValidChildNonempty(names[k], dir);
      ChildIsNamed(names, dir, 0, [], k);
    }
  }

  lemma OnlyChildren(names: seq<bytes>, dir: bytes)
    ensures forall e | e in ListFrom(names, dir, 0, []) ::
              |e.name| < NAME_CAPACITY
              && exists k :: 0 <= k < |names| && Below(names[k], dir) && NodeOf(names[k], dir) == e
  {
    hide Child, Tail, Below, ListFrom;
    OnlyShown(names, dir, 0, []);
    forall e | e in ListFrom(names, dir, 0, [])
      ensures |e.name| < NAME_CAPACITY
      ensures exists k :: 0 <= k < |names| && Below(names[k], dir) && NodeOf(names[k], dir) == e
    {
      assert ShownFrom(names, dir, 0, e);
    }
  }

  /** The file of a clash is emitted as a file, though entries lie below it. */
  lemma ClashMistypes(names: seq<bytes>, dir: bytes)
    requires Ascending(names) && !NoClash(names, dir)
    ensures !RightlyTyped(names, dir, ListFrom(names, dir, 0, []))
  {
    hide Child, Tail, Below, HasEntries, ListFrom;
    var i, j := ClashOf(names, dir);
    FileNotSeen(names, dir, i);
    FirstIsEmitted(names, dir, 0, [], i);
    RightlyShown(names, dir, i);
    assert NodeOf(names[i], dir) in ListFrom(names, dir, 0, []);
  }

  lemma NoClashTypes(names: seq<bytes>, dir: bytes, nodes: seq<Node>)
    requires NoClash(names, dir) && forall e | e in nodes :: ShownFrom(names, dir, 0, e)
    ensures RightlyTyped(names, dir, nodes)
  {
    hide Child, Tail, Below, HasEntries;
    forall e | e in nodes ensures e.directory <==> HasEntries(names, dir, e.name) {
      assert ShownFrom(names, dir, 0, e);
      var k :| 0 <= k < |names| && Listed(names[k], dir) && NodeOf(names[k], dir) == e;
      RightlyShown(names, dir, k);
    }
  }

  // "a", "a-b" and "a/b"
  const PLAIN: bytes := [0x61]
  const DASHED: bytes := [0x61, 0x2d, 0x62]
  const NESTED: bytes := [0x61, 0x2f, 0x62]

  /** The failing listing: valid paths in ascending order, of which one is another's
      directory. "-" sorts before "/", so "a" is shown again after "a-b". */
  lemma FileListedTwice()
    ensures var names := [PLAIN, DASHED, NESTED];
            && Ascending(names) && (forall k | 0 <= k < |names| :: ValidRelative(names[k]))
            && ListFrom(names, [], 0, []) == [Node(PLAIN, false), Node(DASHED, false), Node(PLAIN, true)]
  {
    var names := [PLAIN, DASHED, NESTED];
    SpellOut();
    assert forall k | 0 <= k < 3 :: Below(names[k], []) && Tail(names[k], []) == names[k];
    assert ListFrom(names, [], 3, PLAIN) == [];
    assert ListFrom(names, [], 2, DASHED) == [Node(PLAIN, true)];
    assert ListFrom(names, [], 1, PLAIN) == [Node(DASHED, false), Node(PLAIN, true)];
  }

  lemma SpellOut()
    ensures FirstPart(PLAIN) == PLAIN && FirstPart(DASHED) == DASHED && FirstPart(NESTED) == PLAIN
    ensures ValidRelative(PLAIN) && ValidRelative(DASHED) && ValidRelative(NESTED)
    ensures Less(PLAIN, DASHED) && Less(DASHED, NESTED)
  {
    assert PLAIN[1..] == [] && DASHED[1..] == [0x2d, 0x62] && DASHED[1..][1..] == [0x62] && NESTED[1..] == [0x2f, 0x62];
    assert DASHED[1..][1..][1..] == [];
    assert NESTED[1..][1..] == [0x62];
  }
}
