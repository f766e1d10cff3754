/** C strings under `strcmp` (bytes compared as unsigned values) and the shape
    of the relative paths an asset pack stores. */
module PathOrder {
  import opened Bytes

  const SLASH: byte := 0x2f

  /** `strcmp`: negative, zero or positive. */
  function Compare(a: bytes, b: bytes): (c: int)
    ensures c == 0 <==> a == b
  {
    if |a| == 0 then if |b| == 0 then 0 else -1
    else if |b| == 0 then 1
    else if a[0] != b[0] then a[0] as int - b[0] as int
    else
      assert a == [a[0]] + a[1..] && b == [b[0]] + b[1..];
      Compare(a[1..], b[1..])
  }

  predicate Less(a: bytes, b: bytes) { Compare(a, b) < 0 }

  predicate StartsWith(a: bytes, prefix: bytes) { At(a, 0, prefix) }

  lemma {:induction false} CompareAntisymmetric(a: bytes, b: bytes)
    ensures Compare(a, b) < 0 <==> Compare(b, a) > 0
    decreases |a|
  {
    if |a| > 0 && |b| > 0 && a[0] == b[0] {
      CompareAntisymmetric(a[1..], b[1..]);
    }
  }

  lemma {:induction false} LessTransitive(a: bytes, b: bytes, c: bytes)
    requires Less(a, b) && Less(b, c)
    ensures Less(a, c)
    decreases |a|
  {
    if |a| > 0 && a[0] == b[0] == c[0] {
      LessTransitive(a[1..], b[1..], c[1..]);
    }
  }

  lemma StartsWithByByte(a: bytes, prefix: bytes)
    ensures StartsWith(a, []) 
    ensures |prefix| > 0 ==>
              (StartsWith(a, prefix) <==> |a| > 0 && a[0] == prefix[0] && StartsWith(a[1..], prefix[1..]))
  {
    if |prefix| > 0 {
      assert prefix == [prefix[0]] + prefix[1..];
      AtConcat(a, 0, [prefix[0]], prefix[1..]);
      AtByte(a, 0, prefix[0]);
      if |a| > 0 && |prefix| <= |a| {
        assert a[1..|prefix|] == a[1..][0..|prefix| - 1];
      }
    }
  }

  /** A string is not above anything it is a prefix of. */
  lemma {:induction false} PrefixNotAbove(a: bytes, prefix: bytes)
    requires StartsWith(a, prefix)
    ensures Compare(prefix, a) <= 0
    decreases |prefix|
  {
    StartsWithByByte(a, prefix);
    if |prefix| > 0 {
      PrefixNotAbove(a[1..], prefix[1..]);
    }
  }

  /** The strings with one prefix form an interval of the order. */
  lemma {:induction false} PrefixInterval(low: bytes, mid: bytes, high: bytes, prefix: bytes)
    requires StartsWith(low, prefix) && StartsWith(high, prefix)
    requires Compare(low, mid) <= 0 && Compare(mid, high) <= 0
    ensures StartsWith(mid, prefix)
    decreases |prefix|
  {
    StartsWithByByte(low, prefix);
    StartsWithByByte(mid, prefix);
    StartsWithByByte(high, prefix);
    if |prefix| > 0 {
      PrefixInterval(low[1..], mid[1..], high[1..], prefix[1..]);
    }
  }

  // ---- strictly sorted lists ----

  /** As the loader checks it: each string above the one before. */
  ghost predicate Ascending(names: seq<bytes>) {
    forall k | 0 < k < |names| :: Less(names[k - 1], names[k])
  }

  lemma {:induction false} AscendingFar(names: seq<bytes>, i: nat, j: nat)
    requires Ascending(names) && i < j < |names|
    ensures Less(names[i], names[j])
    decreases j
  {
    assert Less(names[j - 1], names[j]);
    if i < j - 1 {
      AscendingFar(names, i, j - 1);
      LessTransitive(names[i], names[j - 1], names[j]);
    }
  }

  /** All below `at` are below `key`, all from `at` on are not. */
  ghost predicate InsertionPoint(names: seq<bytes>, key: bytes, at: nat) {
    && at <= |names|
    && (forall k | 0 <= k < at :: Less(names[k], key))
    && (forall k | at <= k < |names| :: Compare(key, names[k]) <= 0)
  }

  /** Testing the one string at the insertion point of a prefix decides whether
      any string of the list has that prefix. */
  lemma InsertionPointDecidesPrefix(names: seq<bytes>, prefix: bytes, at: nat)
    requires Ascending(names) && InsertionPoint(names, prefix, at)
    ensures (at < |names| && StartsWith(names[at], prefix))
        <==> (exists k :: 0 <= k < |names| && StartsWith(names[k], prefix))
  {
    forall k | 0 <= k < |names| && StartsWith(names[k], prefix)
      ensures at < |names| && StartsWith(names[at], prefix)
    {
      PrefixNotAbove(names[k], prefix);
      CompareAntisymmetric(names[k], prefix);
      assert at <= k;
      if at < k {
        AscendingFar(names, at, k);
        PrefixOfItself(prefix);
        PrefixInterval(prefix, names[at], names[k], prefix);
      }
    }
  }

  lemma PrefixOfItself(prefix: bytes)
    ensures StartsWith(prefix, prefix)
  {
    AtSlice(prefix, 0, |prefix|);
    assert prefix[0..|prefix|] == prefix;
  }

  // ---- relative paths ----

  /** The loop of `valid_relative` from index `i`, `part` bytes into a component. */
  function ValidFrom(path: bytes, i: nat, part: nat): bool
    requires part <= i <= |path|
    decreases |path| - i
  {
    if i == |path| || path[i] == SLASH then
      && part > 0
      && !(part == 1 && path[i - 1] == 0x2e)
      && !(part == 2 && path[i - 2] == 0x2e && path[i - 1] == 0x2e)
      && (i < |path| ==> ValidFrom(path, i + 1, 0))
    else path[i] != 0x5c && path[i] != 0x3a && ValidFrom(path, i + 1, part + 1)
  }

  function ValidRelative(path: bytes): bool {
    path != [] && path[0] != SLASH && path[|path| - 1] != SLASH && ValidFrom(path, 0, 0)
  }

  /** source/asset_pack.c `valid_relative`. */
  method CheckRelative(path: bytes) returns (ok: bool)
    ensures ok == ValidRelative(path)
  {
    if |path| == 0 || path[0] == SLASH || path[|path| - 1] == SLASH {
      return false;
    }
    var part: nat := 0;
    for i := 0 to |path| + 1
      invariant part <= i && (i <= |path| ==> ValidFrom(path, 0, 0) == ValidFrom(path, i, part))
      invariant i == |path| + 1 ==> ValidFrom(path, 0, 0)
    {
      if i == |path| || path[i] == SLASH {
        if part == 0 || (part == 1 && path[i - 1] == 0x2e)
           || (part == 2 && path[i - 2] == 0x2e && path[i - 1] == 0x2e) {
          return false;
        }
        part := 0;
      } else {
        if path[i] == 0x5c || path[i] == 0x3a {
          return false;
        }
        part := part + 1;
      }
    }
    return true;
  }

  // ---- what a valid path is: its components ----

  ghost predicate Component(c: bytes) {
    && c != [] && c != [0x2e] && c != [0x2e, 0x2e]
    && SLASH !in c && 0x5c !in c && 0x3a !in c
  }

  function Join(parts: seq<bytes>): bytes
    requires |parts| > 0
  {
    if |parts| == 1 then parts[0] else parts[0] + ([SLASH] + Join(parts[1..]))
  }

  ghost predicate Components(parts: seq<bytes>) {
    |parts| > 0 && forall k | 0 <= k < |parts| :: Component(parts[k])
  }

  /** The scan from the middle of a component accepts exactly the ends of
      component lists. */
  lemma {:induction false} ValidFromSound(path: bytes, i: nat, part: nat) returns (parts: seq<bytes>)
    requires part <= i <= |path| && ValidFrom(path, i, part)
    requires forall k | i - part <= k < i :: path[k] !in {SLASH, 0x5c, 0x3a}
    ensures Components(parts) && path[i - part..] == Join(parts)
    decreases |path| - i
  {
    if i == |path| || path[i] == SLASH {
      var first := path[i - part..i];
      forall b | b in first ensures b !in {SLASH, 0x5c, 0x3a} {
        var k :| 0 <= k < |first| && first[k] == b;
        assert path[i - part + k] == b;
      }
      assert part >= 1 ==> first[part - 1] == path[i - 1];
      assert part >= 2 ==> first[part - 2] == path[i - 2];
      if i == |path| {
        parts := [first];
        assert path[i - part..] == first;
      } else {
        var rest := ValidFromSound(path, i + 1, 0);
        parts := [first] + rest;
        assert path[i + 1 - 0..] == path[i + 1..];
        assert parts[1..] == rest;
        assert path[i - part..] == first + ([path[i]] + path[i + 1..]);
      }
    } else {
      parts := ValidFromSound(path, i + 1, part + 1);
    }
  }

  lemma {:induction false} ValidFromComplete(path: bytes, start: nat, i: nat, parts: seq<bytes>)
    requires Components(parts) && start <= |path| && path[start..] == Join(parts)
    requires start <= i <= start + |parts[0]|
    ensures i <= |path| && ValidFrom(path, i, i - start)
    decreases |path| - start, start + |parts[0]| - i
  {
    hide ValidFrom;
    JoinPlaces(path, start, parts);
    if i < start + |parts[0]| {
      ValidFromComplete(path, start, i + 1, parts);
    } else if |parts| > 1 {
      ValidFromComplete(path, i + 1, i + 1, parts[1..]);
    }
    ValidFromStep(path, start, i, parts);
  }

  /** Where the first component and the slash behind it are. */
  lemma JoinPlaces(path: bytes, start: nat, parts: seq<bytes>)
    requires Components(parts) && start <= |path| && path[start..] == Join(parts)
    ensures start + |parts[0]| <= |path| && path[start..start + |parts[0]|] == parts[0]
    ensures |parts| == 1 ==> start + |parts[0]| == |path|
    ensures |parts| > 1 ==> start + |parts[0]| < |path| && path[start + |parts[0]|] == SLASH
                            && path[start + |parts[0]| + 1..] == Join(parts[1..])
  {
    hide Component;
    var first := parts[0];
    assert |Join(parts)| >= |first|;
    assert path[start..start + |first|] == path[start..][..|first|] == first;
    if |parts| > 1 {
      assert path[start + |first|] == path[start..][|first|];
      assert path[start + |first| + 1..] == path[start..][|first| + 1..] == Join(parts[1..]);
    }
  }

  /** One step of the check, inside a component or at its end. */
  lemma ValidFromStep(path: bytes, start: nat, i: nat, parts: seq<bytes>)
    requires Components(parts) && start <= i <= start + |parts[0]| <= |path|
        && path[start..start + |parts[0]|] == parts[0]
    requires i < start + |parts[0]| ==> i < |path| && ValidFrom(path, i + 1, i + 1 - start)
    requires i == start + |parts[0]| && |parts| > 1 ==> i < |path| && path[i] == SLASH && ValidFrom(path, i + 1, 0)
    requires |parts| == 1 ==> start + |parts[0]| == |path|
    ensures ValidFrom(path, i, i - start)
  {
    var first := parts[0];
    assert forall k | 0 <= k < |first| :: path[start + k] == path[start..start + |first|][k] == first[k];
    if i < start + |first| {
      assert path[i] == first[i - start] && path[i] in first;
    } else {
      assert |first| == 1 ==> first == [path[i - 1]];
      assert |first| == 2 ==> first == [path[i - 2], path[i - 1]];
    }
  }

  lemma {:induction false} JoinEnds(parts: seq<bytes>)
    requires Components(parts)
    ensures var p := Join(parts);
            |p| > 0 && p[0] != SLASH && p[|p| - 1] != SLASH
    decreases |parts|
  {
    assert Component(parts[0]) && parts[0][0] in parts[0] && parts[0][|parts[0]| - 1] in parts[0];
    if |parts| > 1 {
      JoinEnds(parts[1..]);
    }
  }

  /** A path is accepted exactly when it is one or more components joined by
      slashes, none empty, "." or "..", none with a backslash or a colon. */
  lemma ValidRelativeExactly(path: bytes)
    ensures ValidRelative(path) <==> exists parts :: Components(parts) && path == Join(parts)
  {
    assert path[0..] == path;
    if ValidRelative(path) {
      var parts := ValidFromSound(path, 0, 0);
    }
    forall parts | Components(parts) && path == Join(parts) ensures ValidRelative(path) {
      JoinEnds(parts);
      ValidFromComplete(path, 0, 0, parts);
    }
  }
}
