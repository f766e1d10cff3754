/** The on-disk pack and index of source/asset_pack.c: little-endian records,
    16-byte aligned contents, an FNV-1a checksum. Building then loading is the
    identity on the packed files. */
module PackFormat {
  import opened Bytes
  import opened PathOrder
  import opened AssetIndex

  // ---- the checksum ----

  const WORD: nat := 0x1_0000_0000_0000_0000
  const FNV_START: nat := 1469598103934665603
  const FNV_PRIME: nat := 1099511628211

  type word = x: int | 0 <= x < WORD

  /** Exclusive or of the low `bits` bits. */
  function Xor(x: nat, y: nat, bits: nat): (r: nat)
    decreases bits
  {
    if bits == 0 then 0
    else (if x % 2 != y % 2 then 1 else 0) + 2 * Xor(x / 2, y / 2, bits - 1)
  }

  /** One round: `hash ^= b; hash *= prime`, modulo 2^64. */
  function FnvStep(hash: word, b: byte): word {
    ((hash / 256 * 256 + Xor(hash % 256, b, 8)) * FNV_PRIME) % WORD
  }

  /** source/asset_pack.c `fnv_bytes`. */
  function Fnv(hash: word, data: bytes): word
    decreases |data|
  {
    if |data| == 0 then hash else Fnv(FnvStep(hash, data[0]), data[1..])
  }

  /** Hashing in chunks is hashing at once. */
  lemma {:induction false} FnvConcat(hash: word, a: bytes, b: bytes)
    ensures Fnv(Fnv(hash, a), b) == Fnv(hash, a + b)
    decreases |a|
  {
    hide FnvStep;
    if |a| == 0 {
      assert a + b == b;
    } else {
      FnvConcat(FnvStep(hash, a[0]), a[1..], b);
      assert (a + b)[1..] == a[1..] + b;
    }
  }

  method FnvBytes(start: word, data: bytes) returns (hash: word)
    ensures hash == Fnv(start, data)
  {
    hide FnvStep;
    hash := start;
    for i := 0 to |data|
      invariant Fnv(start, data) == Fnv(hash, data[i..])
    {
      assert data[i..][1..] == data[i + 1..];
      hash := FnvStep(hash, data[i]);
    }
  }

  // ---- little-endian integers ----

  function Power256(n: nat): nat { if n == 0 then 1 else 256 * Power256(n - 1) }

  function Le(v: nat, n: nat): (r: bytes)
    ensures |r| == n
    decreases n
  {
    if n == 0 then [] else [v % 256] + Le(v / 256, n - 1)
  }

  function UnLe(s: bytes, i: nat, n: nat): nat
    requires i + n <= |s|
    decreases n
  {
    if n == 0 then 0 else s[i] + 256 * UnLe(s, i + 1, n - 1)
  }

  lemma {:induction false} LeRoundTrip(s: bytes, i: nat, v: nat, n: nat)
    requires At(s, i, Le(v, n)) && v < Power256(n)
    ensures i + n <= |s| && UnLe(s, i, n) == v
    decreases n
  {
    AtFirst(s, i, Le(v, n));
    if n > 0 {
      AtConcat(s, i, [v % 256], Le(v / 256, n - 1));
      assert v / 256 < Power256(n - 1);
      LeRoundTrip(s, i + 1, v / 256, n - 1);
    }
  }

  lemma Powers()
    ensures Power256(4) == 0x1_0000_0000 && Power256(8) == WORD
  {
    assert Power256(2) == 65536 && Power256(4) == 256 * (256 * Power256(2));
    assert Power256(6) == 256 * (256 * Power256(4)) && Power256(8) == 256 * (256 * Power256(6));
  }

  // ---- records ----

  const PACK_MAGIC: bytes := [0x47, 0x49, 0x4e, 0x58, 0x50, 0x41, 0x4b, 0x31]   // GINXPAK1
  const INDEX_MAGIC: bytes := [0x47, 0x49, 0x4e, 0x58, 0x49, 0x44, 0x58, 0x31]  // GINXIDX1
  const PACK_VERSION: nat := 3
  const PACK_HEADER: nat := 40
  const INDEX_HEADER: nat := 64
  const ENTRY: nat := 24
  const MAX_COUNT: nat := 100000
  const MAX_PATHS: nat := 0x400_0000

  /** A record is a list of little-endian fields, each with its width. */
  datatype Field = Field(value: nat, width: nat)

  function Record(fields: seq<Field>): bytes {
    if |fields| == 0 then [] else Le(fields[0].value, fields[0].width) + Record(fields[1..])
  }

  function Width(fields: seq<Field>): nat {
    if |fields| == 0 then 0 else fields[0].width + Width(fields[1..])
  }

  ghost predicate InRange(fields: seq<Field>) {
    forall k | 0 <= k < |fields| :: fields[k].value < Power256(fields[k].width)
  }

  lemma {:induction false} RecordLength(fields: seq<Field>)
    ensures |Record(fields)| == Width(fields)
    decreases |fields|
  {
    if |fields| > 0 {
      RecordLength(fields[1..]);
    }
  }

  /** Each field of a record reads back where the earlier ones end. */
  lemma {:induction false} RecordField(s: bytes, i: nat, fields: seq<Field>, k: nat)
    requires At(s, i, Record(fields)) && InRange(fields) && k < |fields|
    ensures i + Width(fields[..k]) + fields[k].width <= |s|
    ensures UnLe(s, i + Width(fields[..k]), fields[k].width) == fields[k].value
    decreases |fields|
  {
    AtConcat(s, i, Le(fields[0].value, fields[0].width), Record(fields[1..]));
    if k == 0 {
      LeRoundTrip(s, i, fields[0].value, fields[0].width);
    } else {
      RecordField(s, i + fields[0].width, fields[1..], k - 1);
      assert fields[1..][..k - 1] == fields[..k][1..];
    }
  }

  datatype PackHeader = PackHeader(version: nat, client: nat, id: nat, size: nat, checksum: nat) {
    function Fields(): seq<Field> {
      [Field(version, 4), Field(client, 4), Field(id, 8), Field(size, 8), Field(checksum, 8)]
    }
    function Image(): bytes { PACK_MAGIC + Record(Fields()) }
  }

  datatype IndexHeader = IndexHeader(
    version: nat, count: nat, client: nat, reserved: nat, id: nat,
    packSize: nat, pathsSize: nat, checksum: nat, dataChecksum: nat)
  {
    function Fields(): seq<Field> {
      [Field(version, 4), Field(count, 4), Field(client, 4), Field(reserved, 4), Field(id, 8),
       Field(packSize, 8), Field(pathsSize, 8), Field(checksum, 8), Field(dataChecksum, 8)]
    }
    function Image(): bytes { INDEX_MAGIC + Record(Fields()) }
  }

  function EntryFields(e: DiskEntry): seq<Field> {
    [Field(e.offset, 8), Field(e.size, 8), Field(e.pathOffset, 4), Field(e.pathLength, 4)]
  }

  function ReadPackHeader(s: bytes): PackHeader
    requires |s| >= PACK_HEADER
  {
    PackHeader(UnLe(s, 8, 4), UnLe(s, 12, 4), UnLe(s, 16, 8), UnLe(s, 24, 8), UnLe(s, 32, 8))
  }

  function ReadIndexHeader(s: bytes): IndexHeader
    requires |s| >= INDEX_HEADER
  {
    IndexHeader(UnLe(s, 8, 4), UnLe(s, 12, 4), UnLe(s, 16, 4), UnLe(s, 20, 4), UnLe(s, 24, 8),
                UnLe(s, 32, 8), UnLe(s, 40, 8), UnLe(s, 48, 8), UnLe(s, 56, 8))
  }

  function ReadEntry(s: bytes, i: nat): DiskEntry
    requires i + ENTRY <= |s|
  {
    DiskEntry(UnLe(s, i, 8), UnLe(s, i + 8, 8), UnLe(s, i + 16, 4), UnLe(s, i + 20, 4))
  }

  lemma PackHeaderRoundTrip(s: bytes, h: PackHeader)
    requires At(s, 0, h.Image()) && InRange(h.Fields())
    ensures |h.Image()| == PACK_HEADER <= |s| && s[..8] == PACK_MAGIC && ReadPackHeader(s) == h
  {
    hide UnLe, Le, InRange;
    var f := h.Fields();
    AtConcat(s, 0, PACK_MAGIC, Record(f));
    assert s[0..8] == s[..8];
    RecordLength(f);
    Widths(f);
    AtFirst(s, 8, Record(f));
    RecordField(s, 8, f, 0);
    RecordField(s, 8, f, 1);
    RecordField(s, 8, f, 2);
    RecordField(s, 8, f, 3);
    RecordField(s, 8, f, 4);
  }

  /** Where the fields of a record begin. */
  lemma Widths(f: seq<Field>)
    ensures forall k | 0 <= k < |f| :: Width(f[..k + 1]) == Width(f[..k]) + f[k].width
    ensures Width(f[..0]) == 0 && (f == [] ==> Width(f) == 0) && Width(f[..|f|]) == Width(f)
  {
    assert f[..|f|] == f;
    forall k | 0 <= k < |f| ensures Width(f[..k + 1]) == Width(f[..k]) + f[k].width {
      WidthSnoc(f[..k], f[k]);
      assert f[..k + 1] == f[..k] + [f[k]];
    }
  }

  lemma {:induction false} WidthSnoc(f: seq<Field>, last: Field)
    ensures Width(f + [last]) == Width(f) + last.width
    decreases |f|
  {
    if |f| > 0 {
      assert (f + [last])[1..] == f[1..] + [last];
      WidthSnoc(f[1..], last);
    }
  }

  lemma IndexWidth(h: IndexHeader)
    ensures Width(h.Fields()) == INDEX_HEADER - 8
  {
    hide Width;
    var f := h.Fields();
    Widths(f);
    assert Width(f[..1]) == f[0].width;
    assert Width(f[..2]) == Width(f[..1]) + f[1].width;
    assert Width(f[..3]) == Width(f[..2]) + f[2].width;
    assert Width(f[..4]) == Width(f[..3]) + f[3].width;
    assert Width(f[..5]) == Width(f[..4]) + f[4].width;
    assert Width(f[..6]) == Width(f[..5]) + f[5].width;
    assert Width(f[..7]) == Width(f[..6]) + f[6].width;
    assert Width(f[..8]) == Width(f[..7]) + f[7].width;
    assert Width(f[..9]) == Width(f[..8]) + f[8].width;
    assert f[..9] == f;
  }

  lemma IndexHeaderRoundTrip(s: bytes, h: IndexHeader)
    requires At(s, 0, h.Image()) && InRange(h.Fields())
    ensures |h.Image()| == INDEX_HEADER <= |s| && s[..8] == INDEX_MAGIC && ReadIndexHeader(s) == h
  {
    hide UnLe, Le, InRange;
    var f := h.Fields();
    AtConcat(s, 0, INDEX_MAGIC, Record(f));
    assert s[0..8] == s[..8];
    RecordLength(f);
    IndexWidth(h);
    AtFirst(s, 8, Record(f));
    IndexFieldsAt(s, h);
  }

  lemma IndexFieldsAt(s: bytes, h: IndexHeader)
    requires At(s, 8, Record(h.Fields())) && InRange(h.Fields()) && |s| >= INDEX_HEADER
    ensures ReadIndexHeader(s) == h
  {
    hide UnLe, Le, InRange, Record, At;
    var f := h.Fields();
    Widths(f);
    RecordField(s, 8, f, 0);
    RecordField(s, 8, f, 1);
    RecordField(s, 8, f, 2);
    RecordField(s, 8, f, 3);
    RecordField(s, 8, f, 4);
    RecordField(s, 8, f, 5);
    RecordField(s, 8, f, 6);
    RecordField(s, 8, f, 7);
    RecordField(s, 8, f, 8);
  }

  lemma EntryRoundTrip(s: bytes, i: nat, e: DiskEntry)
    requires At(s, i, Record(EntryFields(e))) && InRange(EntryFields(e))
    ensures |Record(EntryFields(e))| == ENTRY && i + ENTRY <= |s| && ReadEntry(s, i) == e
  {
    hide UnLe, Le, InRange;
    var f := EntryFields(e);
    RecordLength(f);
    Widths(f);
    AtFirst(s, i, Record(f));
    RecordField(s, i, f, 0);
    RecordField(s, i, f, 1);
    RecordField(s, i, f, 2);
    RecordField(s, i, f, 3);
  }

  // ---- loading ----

  predicate EntryAccepted(e: DiskEntry, table: bytes, packSize: nat) {
    && e.pathLength > 0
    && e.pathOffset + e.pathLength + 1 <= |table|
    && table[e.pathOffset + e.pathLength] == 0
    && ValidRelative(table[e.pathOffset..e.pathOffset + e.pathLength])
    && PACK_HEADER <= e.offset <= packSize
    && e.size <= packSize - e.offset
  }

  /** The loader's test of entry `k`: acceptable, its name above the one before. */
  predicate EntryFits(t: Index, packSize: nat, k: nat)
    requires k < |t.entries|
  {
    && EntryAccepted(t.entries[k], t.table, packSize)
    && (k > 0 ==> t.entries[k - 1].pathOffset <= |t.table|
                  && Less(CString(t.table, t.entries[k - 1].pathOffset), CString(t.table, t.entries[k].pathOffset)))
  }

  predicate HeadersAgree(pack: bytes, index: bytes, client: nat)
    requires |pack| >= PACK_HEADER && |index| >= INDEX_HEADER
  {
    var p, x := ReadPackHeader(pack), ReadIndexHeader(index);
    && pack[..8] == PACK_MAGIC && index[..8] == INDEX_MAGIC
    && p.version == PACK_VERSION && x.version == PACK_VERSION
    && p.client == client && x.client == client
    && p.id == x.id && p.size == |pack| && p.checksum == x.dataChecksum
    && x.packSize == |pack|
    && 0 < x.count <= MAX_COUNT && 0 < x.pathsSize <= MAX_PATHS
    && INDEX_HEADER + x.count * ENTRY + x.pathsSize == |index|
  }

  function EntriesEnd(index: bytes): nat
    requires |index| >= INDEX_HEADER
  {
    INDEX_HEADER + ReadIndexHeader(index).count * ENTRY
  }

  /** The tables an index file holds. */
  function Tables(index: bytes): (r: Index)
    requires |index| >= INDEX_HEADER && EntriesEnd(index) <= |index|
    ensures |r.entries| == ReadIndexHeader(index).count
  {
    Index(seq(ReadIndexHeader(index).count,
              k requires 0 <= k < ReadIndexHeader(index).count => ReadEntry(index, INDEX_HEADER + k * ENTRY)),
          index[EntriesEnd(index)..])
  }

  predicate Loadable(pack: bytes, index: bytes, client: nat) {
    && |pack| >= PACK_HEADER && |index| >= INDEX_HEADER
    && HeadersAgree(pack, index, client)
    && Fnv(Fnv(FNV_START, index[INDEX_HEADER..EntriesEnd(index)]), index[EntriesEnd(index)..])
       == ReadIndexHeader(index).checksum
    && var t := Tables(index);
       forall k | 0 <= k < |t.entries| :: EntryFits(t, |pack|, k)
  }

  function Load(pack: bytes, index: bytes, client: nat): Option<Index> {
    if Loadable(pack, index, client) then Some(Tables(index)) else None
  }

  /** source/asset_pack.c `load_pair` on the bytes of the two files. */
  method LoadPair(pack: bytes, index: bytes, client: nat) returns (r: Option<Index>)
    ensures r == Load(pack, index, client)
  {
    hide UnLe, Fnv, EntryFits;
    if |pack| < PACK_HEADER || |index| < INDEX_HEADER || !HeadersAgree(pack, index, client) {
      return None;
    }
    var end := EntriesEnd(index);
    var checksum := FnvBytes(FNV_START, index[INDEX_HEADER..end]);
    checksum := FnvBytes(checksum, index[end..]);
    if checksum != ReadIndexHeader(index).checksum {
      return None;
    }
    var t := Tables(index);
    for k := 0 to |t.entries|
      invariant forall m | 0 <= m < k :: EntryFits(t, |pack|, m)
    {
      if !EntryFits(t, |pack|, k) {
        return None;
      }
    }
    return Some(t);
  }

  /** Whatever was loaded has strictly ascending names and contents inside the pack. */
  lemma LoadedIsSorted(pack: bytes, index: bytes, client: nat)
    requires Load(pack, index, client).Some?
    ensures var t := Load(pack, index, client).value;
            && t.Sorted()
            && forall k | 0 <= k < |t.entries| :: t.entries[k].offset + t.entries[k].size <= |pack|
  {
    hide UnLe, Fnv;
    var t := Tables(index);
    forall k | 0 <= k < |t.entries|
      ensures t.entries[k].pathOffset <= |t.table| && t.entries[k].offset + t.entries[k].size <= |pack|
    {
      assert EntryFits(t, |pack|, k);
    }
    forall k | 0 < k < |t.Names()| ensures Less(t.Names()[k - 1], t.Names()[k]) {
      assert EntryFits(t, |pack|, k);
      assert t.Names()[k] == t.Name(k) && t.Names()[k - 1] == t.Name(k - 1);
    }
  }
}
