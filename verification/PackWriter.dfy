/** The loops of source/asset_pack.c `asset_pack_build` and `verify_pack_data`:
    they write exactly the images of PackBuild, whatever chunks the reads return,
    and succeed exactly on the file sets a pack can hold. */
module PackWriter {
  import opened Bytes
  import opened PathOrder
  import opened AssetIndex
  import opened PackFormat
  import opened PackBuild
  import opened PackFiles

  const CHUNK: nat := 0x10_0000

  /** Paths and sizes hashed in order. */
  function IdHash(fs: seq<SourceFile>, k: nat): word
    requires k <= |fs|
  {
    if k == 0 then FNV_START
    else Fnv(Fnv(IdHash(fs, k - 1), fs[k - 1].path), Le(|fs[k - 1].content|, 8))
  }

  function PackId(fs: seq<SourceFile>, nonce: word): (id: word)
    ensures id != 0
  {
    var id := Fnv(IdHash(fs, |fs|), Le(nonce, 8));
    if id == 0 then 1 else id
  }

  method HashId(fs: seq<SourceFile>, nonce: word) returns (id: word)
    ensures id == PackId(fs, nonce)
  {
    hide Fnv, Le;
    id := FNV_START;
    for i := 0 to |fs|
      invariant id == IdHash(fs, i)
    {
      id := FnvBytes(id, fs[i].path);
      id := FnvBytes(id, Le(|fs[i].content|, 8));
    }
    id := FnvBytes(id, Le(nonce, 8));
    if id == 0 {
      id := 1;
    }
  }

  /** The first loop: where each file goes, and how much room paths need. */
  method LayOut(fs: seq<SourceFile>) returns (ok: bool, offsets: seq<nat>, packSize: nat, pathsSize: nat)
    requires Fits(fs)
    ensures ok <==> |Table(fs, |fs|)| <= 0xffff_ffff
    ensures ok ==> |offsets| == |fs| && (forall k | 0 <= k < |fs| :: offsets[k] == Offset(fs, k))
    ensures ok ==> packSize == Position(fs, |fs|) && pathsSize == |Table(fs, |fs|)|
  {
    hide Align16;
    ok, offsets, packSize, pathsSize := true, [], PACK_HEADER, 0;
    for i := 0 to |fs|
      invariant |offsets| == i && forall k | 0 <= k < i :: offsets[k] == Offset(fs, k)
      invariant packSize == Position(fs, i) && pathsSize == |Table(fs, i)| <= 0xffff_ffff
    {
      var length := |fs[i].path|;
      TableMonotone(fs, i + 1, |fs|);
      if length > 0xffff_ffff || pathsSize + length + 1 > 0xffff_ffff {
        return false, offsets, packSize, pathsSize;
      }
      packSize := Align16(packSize);
      offsets := offsets + [packSize];
      Layout(fs, i);
      assert Position(fs, i + 1) <= MAX_FILE;
      if WORD - 1 - packSize < |fs[i].content| {
        assert false;
      }
      packSize := packSize + |fs[i].content|;
      pathsSize := pathsSize + length + 1;
    }
  }

  /** Copying one file; each read may return less than asked. */
  method CopyFile(content: bytes, file: bytes, checksum: word) returns (written: bytes, hash: word)
    ensures written == file + content && hash == Fnv(checksum, content)
  {
    hide Fnv;
    written, hash := file, checksum;
    var done := 0;
    assert content[..0] == [] && Fnv(checksum, []) == checksum by { FnvEmpty(checksum); }
    while done < |content|
      invariant done <= |content| && written == file + content[..done] && hash == Fnv(checksum, content[..done])
      decreases |content| - done
    {
      var chunk := if |content| - done > CHUNK then CHUNK else |content| - done;
      var got :| 1 <= got <= chunk;
      var buffer := content[done..done + got];
      written := written + buffer;
      ghost var before := hash;
      hash := FnvBytes(hash, buffer);
      FnvConcat(checksum, content[..done], buffer);
      assert content[..done + got] == content[..done] + buffer;
      done := done + got;
    }
    assert content[..done] == content;
  }

  lemma FnvEmpty(hash: word)
    ensures Fnv(hash, []) == hash
  {
  }

  /** One file more in the pack. */
  lemma DataStep(fs: seq<SourceFile>, i: nat)
    requires i < |fs| && Fits(fs)
    ensures Position(fs, i) <= Offset(fs, i) && Offset(fs, i) + |fs[i].content| == Position(fs, i + 1)
    ensures Data(fs, i + 1) == Data(fs, i) + (Zeros(Offset(fs, i) - Position(fs, i)) + fs[i].content)
    ensures Contents(fs, i + 1) == Contents(fs, i) + fs[i].content
  {
    hide Align16, Zeros;
    Layout(fs, i);
  }

  lemma NoData(fs: seq<SourceFile>)
    ensures Position(fs, 0) == PACK_HEADER && Data(fs, 0) == [] && Contents(fs, 0) == []
  {
  }

  /** The pack file: a provisional header, padding and contents, then the header
      written again with the checksum. */
  method WritePack(fs: seq<SourceFile>, offsets: seq<nat>, packSize: nat, client: nat, id: word)
      returns (pack: bytes, checksum: word)
    requires Fits(fs) && Plausible(fs, client) && packSize == Position(fs, |fs|)
    requires |offsets| == |fs| && forall k | 0 <= k < |fs| :: offsets[k] == Offset(fs, k)
    ensures pack == PackImage(fs, client, id) && checksum == DataChecksum(fs)
  {
    hide Fnv, Align16, Record, Data, Contents, Position, Offset, Fits, Plausible, Zeros, Table;
    var header := PackHeader(PACK_VERSION, client, id, packSize, 0).Image();
    HeaderLength(PackHeader(PACK_VERSION, client, id, packSize, 0));
    pack, checksum := header, FNV_START;
    var position := PACK_HEADER;
    FnvEmpty(FNV_START);
    NoData(fs);
    for i := 0 to |fs|
      invariant pack == header + Data(fs, i) && position == Position(fs, i)
      invariant checksum == Fnv(FNV_START, Contents(fs, i))
    {
      DataStep(fs, i);
      var gap := if offsets[i] > position then offsets[i] - position else 0;
      pack := pack + Zeros(gap);
      position := offsets[i];
      FnvConcat(FNV_START, Contents(fs, i), fs[i].content);
      pack, checksum := CopyFile(fs[i].content, pack, checksum);
      position := position + |fs[i].content|;
      assert (header + Data(fs, i)) + Zeros(gap) + fs[i].content
          == header + (Data(fs, i) + (Zeros(gap) + fs[i].content));
    }
    var final := PackHeader(PACK_VERSION, client, id, packSize, checksum);
    HeaderLength(final);
    pack := final.Image() + pack[PACK_HEADER..];
  }

  lemma HeaderLength(h: PackHeader)
    ensures |h.Image()| == PACK_HEADER
  {
    hide Record;
    var f := h.Fields();
    RecordLength(f);
    Widths(f);
    assert Width(f[..1]) == 4 && Width(f[..2]) == 8 && Width(f[..3]) == 16 && Width(f[..4]) == 24
        && Width(f[..5]) == 32;
  }

  /** The index file. */
  method WriteIndex(fs: seq<SourceFile>, offsets: seq<nat>, packSize: nat, client: nat, id: word, checksum: word)
      returns (index: bytes)
    requires Plausible(fs, client) && packSize == Position(fs, |fs|) && checksum == DataChecksum(fs)
    requires |offsets| == |fs| && forall k | 0 <= k < |fs| :: offsets[k] == Offset(fs, k)
    ensures index == IndexImage(fs, client, id)
  {
    hide Fnv, Align16, Record, Offset, Position;
    var entries: bytes, table: bytes := [], [];
    for i := 0 to |fs|
      invariant entries == EntryImages(fs, i) && table == Table(fs, i)
    {
      entries := entries + Record(EntryFields(DiskEntry(offsets[i], |fs[i].content|, |table|, |fs[i].path|)));
      table := table + (fs[i].path + [0]);
    }
    var hash := FnvBytes(FNV_START, entries);
    hash := FnvBytes(hash, table);
    var header := IndexHeader(PACK_VERSION, |fs|, client, 0, id, packSize, |table|, hash, checksum);
    index := header.Image() + (entries + table);
  }

  /** The bytes of the first `k` entries, one after the other. */
  function Slices(pack: bytes, entries: seq<DiskEntry>, k: nat): bytes
    requires k <= |entries| && forall m | 0 <= m < k :: entries[m].offset + entries[m].size <= |pack|
  {
    if k == 0 then []
    else Slices(pack, entries, k - 1) + pack[entries[k - 1].offset..entries[k - 1].offset + entries[k - 1].size]
  }

  /** source/asset_pack.c `verify_pack_data`. */
  method VerifyPackData(pack: bytes, entries: seq<DiskEntry>, expected: word) returns (ok: bool)
    requires forall m | 0 <= m < |entries| :: entries[m].offset + entries[m].size <= |pack|
    ensures ok <==> Fnv(FNV_START, Slices(pack, entries, |entries|)) == expected
  {
    hide Fnv;
    var checksum: word := FNV_START;
    FnvEmpty(FNV_START);
    for i := 0 to |entries|
      invariant checksum == Fnv(FNV_START, Slices(pack, entries, i))
    {
      var e := entries[i];
      var whole := pack[e.offset..e.offset + e.size];
      ghost var start := checksum;
      FnvEmpty(start);
      assert whole[..0] == [];
      var offset := 0;
      while offset < e.size
        invariant offset <= e.size && checksum == Fnv(start, whole[..offset])
        decreases e.size - offset
      {
        var chunk := if e.size - offset > CHUNK then CHUNK else e.size - offset;
        var buffer := pack[e.offset + offset..e.offset + offset + chunk];
        FnvConcat(start, whole[..offset], buffer);
        assert whole[..offset + chunk] == whole[..offset] + buffer;
        checksum := FnvBytes(checksum, buffer);
        offset := offset + chunk;
      }
      assert whole[..offset] == whole;
      FnvConcat(FNV_START, Slices(pack, entries, i), whole);
    }
    return checksum == expected;
  }

  lemma {:induction false} SlicesAreContents(fs: seq<SourceFile>, client: nat, id: word, k: nat)
    requires Plausible(fs, client) && Fits(fs) && k <= |fs|
    ensures var pack, entries := PackImage(fs, client, id), Listing(fs).entries;
            && (forall m | 0 <= m < |fs| :: entries[m].offset + entries[m].size <= |pack|)
            && Slices(pack, entries, k) == Contents(fs, k)
    decreases k
  {
    hide PackImage, Entry;
    forall m | 0 <= m < |fs| ensures Entry(fs, m).offset + Entry(fs, m).size <= |PackImage(fs, client, id)| {
      ContentInPack(fs, client, id, m);
    }
    if k > 0 {
      SlicesAreContents(fs, client, id, k - 1);
      ContentInPack(fs, client, id, k - 1);
    }
  }

  /** source/asset_pack.c `asset_pack_build`, given the files found. */
  method Build(files: seq<SourceFile>, client: nat, nonce: word) returns (r: Option<(bytes, bytes)>)
    requires CPaths(files) && client <= 0xffff_ffff && Fits(Sort(files))
    ensures r.Some? <==> client > 0 && Allowed(files)
    ensures r.Some? ==> var fs := Sort(files);
                        r.value == (PackImage(fs, client, PackId(fs, nonce)), IndexImage(fs, client, PackId(fs, nonce)))
  {
    hide Fnv, PackImage, IndexImage, Load, PackId, Table, Position, Offset, Listing;
    SortSorts(files);
    PackableExactly(files);
    if |files| == 0 || |files| > MAX_COUNT {
      return None;
    }
    var fs := Sort(files);
    SortKeepsCPaths(files);
    var ok, offsets, packSize, pathsSize := LayOut(fs);
    if !ok {
      return None;
    }
    var id := HashId(fs, nonce);
    if client == 0 {
      return None;
    }
    var pack, checksum := WritePack(fs, offsets, packSize, client, id);
    var index := WriteIndex(fs, offsets, packSize, client, id, checksum);
    ImagesLoadExactly(fs, client, id);
    var loaded := LoadPair(pack, index, client);
    if loaded == None {
      return None;
    }
    SlicesAreContents(fs, client, id, |fs|);
    ListingCount(fs);
    var verified := VerifyPackData(pack, loaded.value.entries, checksum);
    if !verified {
      return None;
    }
    return Some((pack, index));
  }

  lemma ListingCount(fs: seq<SourceFile>)
    ensures |Listing(fs).entries| == |fs|
  {
  }
}
