/** What the loader of source/asset_pack.c (lines 249 to 330) checks, byte for byte,
    and what its checksum is for: which single damaged byte it notices. */
module PackDamage {
  import opened Bytes
  import opened PathOrder
  import opened AssetIndex
  import opened PackFormat

  // ---- the tests, on the raw bytes ----

  /** Entry `k` of an index whose path table begins at `table`. */
  predicate RawEntry(index: bytes, table: nat, packSize: nat, k: nat)
    requires 64 + 24 * k + 24 <= table <= |index|
  {
    var at := 64 + 24 * k;
    var offset, size := UnLe(index, at, 8), UnLe(index, at + 8, 8);
    var path, length := table + UnLe(index, at + 16, 4), UnLe(index, at + 20, 4);
    && 0 < length && path + length < |index| && index[path + length] == 0
    && ValidRelative(index[path..path + length])
    && 40 <= offset && offset + size <= packSize
    && (k > 0 ==>
          var previous := table + UnLe(index, at - 8, 4);
          previous <= |index| && Less(CString(index, previous), CString(index, path)))
  }

  /** The files are a pack: "GINXPAK1" and "GINXIDX1", version 3, the client asked
      for, one identity, the sizes of the files themselves, one data checksum, and
      an index whose own checksum is right. */
  predicate RawPair(pack: bytes, index: bytes, client: nat) {
    && |pack| >= 40 && |index| >= 64
    && pack[..8] == [0x47, 0x49, 0x4e, 0x58, 0x50, 0x41, 0x4b, 0x31]
    && index[..8] == [0x47, 0x49, 0x4e, 0x58, 0x49, 0x44, 0x58, 0x31]
    && UnLe(pack, 8, 4) == 3 && UnLe(index, 8, 4) == 3
    && UnLe(pack, 12, 4) == client && UnLe(index, 16, 4) == client
    && UnLe(pack, 16, 8) == UnLe(index, 24, 8)
    && UnLe(pack, 24, 8) == |pack| && UnLe(index, 32, 8) == |pack|
    && UnLe(pack, 32, 8) == UnLe(index, 56, 8)
    && 0 < UnLe(index, 12, 4) <= 100000 && 0 < UnLe(index, 40, 8) <= 0x400_0000
    && TableAt(index) + UnLe(index, 40, 8) == |index|
    && Fnv(FNV_START, index[64..]) == UnLe(index, 48, 8)
  }

  /** Where the path table begins. */
  function TableAt(index: bytes): nat
    requires |index| >= 64
  {
    64 + 24 * UnLe(index, 12, 4)
  }

  predicate RawAccepted(pack: bytes, index: bytes, client: nat) {
    RawPair(pack, index, client) && forall k | 0 <= k < UnLe(index, 12, 4) :: RawEntry(index, TableAt(index), |pack|, k)
  }

  /** A C string does not depend on what lies before it. */
  lemma {:induction false} CStringSuffix(s: bytes, from: nat, i: nat)
    requires from <= |s| && from + i <= |s|
    ensures CString(s[from..], i) == CString(s, from + i)
    decreases |s| - from - i
  {
    if from + i < |s| {
      assert s[from..][i] == s[from + i];
      if s[from + i] != 0 { CStringSuffix(s, from, i + 1); }
    }
  }

  lemma EntryIsRaw(pack: bytes, index: bytes, k: nat)
    requires |index| >= INDEX_HEADER && EntriesEnd(index) <= |index| && k < ReadIndexHeader(index).count
    ensures EntryFits(Tables(index), |pack|, k) <==> RawEntry(index, EntriesEnd(index), |pack|, k)
  {
    hide UnLe, CString, ValidRelative, Less;
    var t, table := Tables(index), EntriesEnd(index);
    var e := t.entries[k];
    assert e == ReadEntry(index, INDEX_HEADER + k * ENTRY);
    if e.pathOffset + e.pathLength + 1 <= |t.table| {
      assert t.table[e.pathOffset..e.pathOffset + e.pathLength]
          == index[table + e.pathOffset..table + e.pathOffset + e.pathLength];
    }
    if e.pathOffset <= |t.table| { CStringSuffix(index, table, e.pathOffset); }
    if k > 0 {
      var d := t.entries[k - 1];
      assert d == ReadEntry(index, INDEX_HEADER + (k - 1) * ENTRY);
      if d.pathOffset <= |t.table| { CStringSuffix(index, table, d.pathOffset); }
    }
  }

  lemma PairIsRaw(pack: bytes, index: bytes, client: nat)
    ensures RawPair(pack, index, client) <==>
              && |pack| >= PACK_HEADER && |index| >= INDEX_HEADER && HeadersAgree(pack, index, client)
              && Fnv(Fnv(FNV_START, index[INDEX_HEADER..EntriesEnd(index)]), index[EntriesEnd(index)..])
                 == ReadIndexHeader(index).checksum
  {
    hide UnLe, Fnv;
    if |pack| >= PACK_HEADER && |index| >= INDEX_HEADER && EntriesEnd(index) <= |index| {
      FnvConcat(FNV_START, index[INDEX_HEADER..EntriesEnd(index)], index[EntriesEnd(index)..]);
      assert index[64..] == index[INDEX_HEADER..EntriesEnd(index)] + index[EntriesEnd(index)..];
    }
  }

  /** The loader accepts exactly the files that pass every test. */
  lemma LoadsExactly(pack: bytes, index: bytes, client: nat)
    ensures Load(pack, index, client).Some? <==> RawAccepted(pack, index, client)
  {
    hide UnLe, Fnv, EntryFits, RawEntry, HeadersAgree, RawPair;
    PairIsRaw(pack, index, client);
    if RawPair(pack, index, client) {
      PairFacts(pack, index, client);
      forall k | 0 <= k < ReadIndexHeader(index).count
        ensures EntryFits(Tables(index), |pack|, k) <==> RawEntry(index, EntriesEnd(index), |pack|, k)
      {
        EntryIsRaw(pack, index, k);
      }
    }
  }

  lemma PairFacts(pack: bytes, index: bytes, client: nat)
    requires RawPair(pack, index, client)
    ensures |index| >= INDEX_HEADER && EntriesEnd(index) <= |index| && |pack| >= PACK_HEADER
    ensures ReadIndexHeader(index).count == UnLe(index, 12, 4) && EntriesEnd(index) == TableAt(index)
  {
    hide UnLe, Fnv;
  }

  // ---- the checksum tells bytes apart ----

  function Two(n: nat): nat { if n == 0 then 1 else 2 * Two(n - 1) }

  lemma {:induction false} XorBound(x: nat, y: nat, n: nat)
    ensures Xor(x, y, n) < Two(n)
    decreases n
  {
    if n > 0 { XorBound(x / 2, y / 2, n - 1); }
  }

  predicate Bit(x: nat, k: nat) { if k == 0 then x % 2 == 1 else Bit(x / 2, k - 1) }

  /** Exclusive or, bit by bit. */
  lemma {:induction false} XorBits(x: nat, y: nat, n: nat, k: nat)
    requires k < n
    ensures Bit(Xor(x, y, n), k) <==> Bit(x, k) != Bit(y, k)
    decreases n
  {
    if k > 0 { XorBits(x / 2, y / 2, n - 1, k - 1); }
  }

  lemma {:induction false} XorTellsApart(x: nat, y: nat, z: nat, n: nat)
    requires y < Two(n) && z < Two(n) && Xor(x, y, n) == Xor(x, z, n)
    ensures y == z
    decreases n
  {
    if n > 0 {
      assert Two(n) == 2 * Two(n - 1);
      XorTellsApart(x / 2, y / 2, z / 2, n - 1);
    }
  }

  lemma {:induction false} XorSwaps(x: nat, y: nat, n: nat)
    ensures Xor(x, y, n) == Xor(y, x, n)
    decreases n
  {
    if n > 0 { XorSwaps(x / 2, y / 2, n - 1); }
  }

  /** 2^64 and the prime: the prime is odd, so it has an inverse. */
  const FNV_INVERSE: nat := 14886173955864302971
  const INVERSE_QUOTIENT: nat := 887285111055

  lemma PrimeTellsApart(x: word, y: word)
    requires (x * FNV_PRIME) % WORD == (y * FNV_PRIME) % WORD
    ensures x == y
  {
    var d := x - y;
    var k := x * FNV_PRIME / WORD - y * FNV_PRIME / WORD;
    assert d * FNV_PRIME == WORD * k;
    Inverse(d, k);
  }

  lemma Inverse(d: int, k: int)
    requires d < WORD && -d < WORD && d * FNV_PRIME == WORD * k
    ensures d == 0
  {
    assert FNV_PRIME * FNV_INVERSE == 1 + WORD * INVERSE_QUOTIENT;
    var z := k * FNV_INVERSE - d * INVERSE_QUOTIENT;
    assert d == WORD * z;
  }

  /** The hash before its multiplication. */
  function Mixed(hash: word, b: byte): nat { hash / 256 * 256 + Xor(hash % 256, b, 8) }

  lemma MixedTellsApart(g: word, h: word, b: byte, c: byte)
    ensures Mixed(g, b) < WORD
    ensures Mixed(g, b) == Mixed(h, b) ==> g == h
    ensures Mixed(g, b) == Mixed(g, c) ==> b == c
  {
    hide Xor;
    assert Two(4) == 16 && Two(8) == 16 * Two(4);
    XorBound(g % 256, b, 8);
    XorBound(h % 256, b, 8);
    XorBound(g % 256, c, 8);
    if Mixed(g, b) == Mixed(h, b) {
      SameParts(g / 256, Xor(g % 256, b, 8), h / 256, Xor(h % 256, b, 8));
      XorSwaps(g % 256, b, 8);
      XorSwaps(h % 256, b, 8);
      XorTellsApart(b, g % 256, h % 256, 8);
    }
    if Mixed(g, b) == Mixed(g, c) { XorTellsApart(g % 256, b, c, 8); }
  }

  lemma SameParts(a: nat, low: nat, c: nat, least: nat)
    requires low < 256 && least < 256 && a * 256 + low == c * 256 + least
    ensures a == c && low == least
  {
  }

  /** One round is injective in the hash and in the byte. */
  lemma StepTellsApart(g: word, h: word, b: byte, c: byte)
    ensures FnvStep(g, b) == FnvStep(h, b) ==> g == h
    ensures FnvStep(g, b) == FnvStep(g, c) ==> b == c
  {
    hide Xor;
    MixedTellsApart(g, h, b, c);
    MixedTellsApart(h, g, b, c);
    MixedTellsApart(g, g, c, c);
    if FnvStep(g, b) == FnvStep(h, b) { PrimeTellsApart(Mixed(g, b), Mixed(h, b)); }
    if FnvStep(g, b) == FnvStep(g, c) { PrimeTellsApart(Mixed(g, b), Mixed(g, c)); }
  }

  lemma {:induction false} FnvTellsApart(g: word, h: word, data: bytes)
    requires Fnv(g, data) == Fnv(h, data)
    ensures g == h
    decreases |data|
  {
    hide FnvStep;
    if |data| > 0 {
      FnvTellsApart(FnvStep(g, data[0]), FnvStep(h, data[0]), data[1..]);
      StepTellsApart(g, h, data[0], data[0]);
    }
  }

  /** Changing one byte changes the checksum. */
  lemma OneByteChangesChecksum(start: word, data: bytes, i: nat, b: byte)
    requires i < |data| && b != data[i]
    ensures Fnv(start, data[i := b]) != Fnv(start, data)
  {
    hide FnvStep;
    var h := Fnv(start, data[..i]);
    FnvConcat(start, data[..i], data[i..]);
    FnvConcat(start, data[..i], [b] + data[i + 1..]);
    assert data == data[..i] + data[i..] && data[i := b] == data[..i] + ([b] + data[i + 1..]);
    assert data[i..][1..] == data[i + 1..] && ([b] + data[i + 1..])[1..] == data[i + 1..];
    if Fnv(start, data[i := b]) == Fnv(start, data) {
      FnvTellsApart(FnvStep(h, data[i]), FnvStep(h, b), data[i + 1..]);
      StepTellsApart(h, h, data[i], b);
    }
  }

  /** Changing one byte changes exactly the integers that contain it. */
  lemma {:induction false} OneByteChangesInteger(s: bytes, j: nat, n: nat, i: nat, b: byte)
    requires j + n <= |s| && i < |s| && b != s[i]
    ensures UnLe(s[i := b], j, n) == UnLe(s, j, n) <==> !(j <= i < j + n)
    decreases n
  {
    if n > 0 { OneByteChangesInteger(s, j + 1, n - 1, i, b); }
  }

  // ---- one damaged byte ----

  /** In the index every byte matters but the four that are reserved. */
  lemma DamagedIndex(pack: bytes, index: bytes, client: nat, i: nat, b: byte)
    requires Load(pack, index, client).Some? && i < |index| && b != index[i]
    ensures Load(pack, index[i := b], client).Some? <==> 20 <= i < 24
  {
    hide UnLe, Fnv, Load, CString, ValidRelative, Less;
    LoadsExactly(pack, index, client);
    LoadsExactly(pack, index[i := b], client);
    var s := index[i := b];
    IndexIntegers(index, i, b);
    if i >= 64 {
      assert s[64..] == index[64..][i - 64 := b];
      OneByteChangesChecksum(FNV_START, index[64..], i - 64, b);
    } else {
      assert s[64..] == index[64..];
      if i < 8 { assert s[..8][i] != index[..8][i]; } else { assert s[..8] == index[..8]; }
    }
    if 20 <= i < 24 {
      forall k | 0 <= k < UnLe(s, 12, 4) ensures RawEntry(s, TableAt(s), |pack|, k) {
        EntryOf(pack, index, client, k);
        SameEntry(index, i, b, TableAt(index), |pack|, k);
      }
    }
  }

  lemma EntryOf(pack: bytes, index: bytes, client: nat, k: nat)
    requires RawAccepted(pack, index, client) && k < UnLe(index, 12, 4)
    ensures 64 + 24 * k + 24 <= TableAt(index) <= |index| && RawEntry(index, TableAt(index), |pack|, k)
  {
    hide RawEntry, Fnv, UnLe;
  }

  lemma IndexIntegers(index: bytes, i: nat, b: byte)
    requires |index| >= 64 && i < |index| && b != index[i]
    ensures var s := index[i := b];
            && (UnLe(s, 8, 4) == UnLe(index, 8, 4) <==> !(8 <= i < 12))
            && (UnLe(s, 12, 4) == UnLe(index, 12, 4) <==> !(12 <= i < 16))
            && (UnLe(s, 16, 4) == UnLe(index, 16, 4) <==> !(16 <= i < 20))
            && (UnLe(s, 24, 8) == UnLe(index, 24, 8) <==> !(24 <= i < 32))
            && (UnLe(s, 32, 8) == UnLe(index, 32, 8) <==> !(32 <= i < 40))
            && (UnLe(s, 40, 8) == UnLe(index, 40, 8) <==> !(40 <= i < 48))
            && (UnLe(s, 48, 8) == UnLe(index, 48, 8) <==> !(48 <= i < 56))
            && (UnLe(s, 56, 8) == UnLe(index, 56, 8) <==> !(56 <= i < 64))
  {
    hide UnLe;
    OneByteChangesInteger(index, 8, 4, i, b);
    OneByteChangesInteger(index, 12, 4, i, b);
    OneByteChangesInteger(index, 16, 4, i, b);
    OneByteChangesInteger(index, 24, 8, i, b);
    OneByteChangesInteger(index, 32, 8, i, b);
    OneByteChangesInteger(index, 40, 8, i, b);
    OneByteChangesInteger(index, 48, 8, i, b);
    OneByteChangesInteger(index, 56, 8, i, b);
  }

  /** Entries do not look at the header. */
  lemma SameEntry(index: bytes, i: nat, b: byte, table: nat, packSize: nat, k: nat)
    requires i < 64 && 64 + 24 * k + 24 <= table <= |index| && b != index[i]
    requires RawEntry(index, table, packSize, k)
    ensures RawEntry(index[i := b], table, packSize, k)
  {
    hide UnLe, CString, ValidRelative, Less;
    var s, at := index[i := b], 64 + 24 * k;
    OneByteChangesInteger(index, at, 8, i, b);
    OneByteChangesInteger(index, at + 8, 8, i, b);
    OneByteChangesInteger(index, at + 16, 4, i, b);
    OneByteChangesInteger(index, at + 20, 4, i, b);
    var path, length := table + UnLe(index, at + 16, 4), UnLe(index, at + 20, 4);
    assert s[path..path + length] == index[path..path + length];
    SameString(index, i, b, path);
    if k > 0 {
      OneByteChangesInteger(index, at - 8, 4, i, b);
      SameString(index, i, b, table + UnLe(index, at - 8, 4));
    }
  }

  lemma SameString(s: bytes, i: nat, b: byte, path: nat)
    requires i < path <= |s|
    ensures CString(s[i := b], path) == CString(s, path)
  {
    CStringSuffix(s, path, 0);
    CStringSuffix(s[i := b], path, 0);
    assert s[i := b][path..] == s[path..];
  }

  /** In the pack every byte of the header matters; the contents are checked when
      the pack is built, not when it is loaded. */
  lemma DamagedPack(pack: bytes, index: bytes, client: nat, i: nat, b: byte)
    requires Load(pack, index, client).Some? && i < |pack| && b != pack[i]
    ensures Load(pack[i := b], index, client).Some? <==> i >= 40
  {
    hide UnLe, Fnv, RawEntry, Load;
    LoadsExactly(pack, index, client);
    LoadsExactly(pack[i := b], index, client);
    var s := pack[i := b];
    OneByteChangesInteger(pack, 8, 4, i, b);
    OneByteChangesInteger(pack, 12, 4, i, b);
    OneByteChangesInteger(pack, 16, 8, i, b);
    OneByteChangesInteger(pack, 24, 8, i, b);
    OneByteChangesInteger(pack, 32, 8, i, b);
    if i < 8 { assert s[..8][i] != pack[..8][i]; } else { assert s[..8] == pack[..8]; }
  }
}
