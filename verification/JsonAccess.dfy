/** Looking into a parsed text: members, elements and decoded strings
    (source/json_min.c lines 233 to 430). */
module JsonAccess {
  import opened Bytes
  import opened Utf8
  import opened JsonGrammar
  import opened JsonScanner
  import opened JsonTheorems

  datatype Lookup = Malformed | Absent | Found(span: Span)

  // ---- member names ----

  datatype NameUnit = NameUnit(codepoint: int, next: nat)

  /** What `strchr` and the table of replacements make of an escape letter. */
  function Replacement(e: byte): Option<byte> {
    if e == 0 then Some(0) else ShortEscape(e)
  }

  /** The next unit of a name: a byte, or what its escape stands for. */
  function NextNameUnit(s: bytes, i: nat): (r: Option<NameUnit>)
    requires i < |s|
    ensures r.Some? ==> i < r.value.next <= |s|
  {
    if s[i] != 0x5c then Some(NameUnit(s[i], i + 1))
    else if i + 1 == |s| then None
    else if s[i + 1] == 0x75 then
      var h :- ReadHex4(s, i + 2);
      Some(NameUnit(h.Value(), i + 6))
    else
      var c :- Replacement(s[i + 1]);
      Some(NameUnit(c, i + 2))
  }

  /** Does the rest of the name at `i`, up to its quotation mark, spell the
      rest of the key? */
  function NameMatches(s: bytes, i: nat, key: bytes): bool
    requires i <= |s|
    decreases |s| - i
  {
    if i == |s| then false
    else if s[i] == 0x22 then key == []
    else
      var unit := NextNameUnit(s, i);
      unit.Some? && unit.value.codepoint <= 0x7f && key != []
      && unit.value.codepoint == key[0] && NameMatches(s, unit.value.next, key[1..])
  }

  /** source/json_min.c `string_matches_key`; the name is `s[i..]`. */
  method StringMatchesKey(s: bytes, i: nat, key: bytes) returns (r: bool)
    requires i <= |s|
    ensures r == (i < |s| && s[i] == 0x22 && NameMatches(s, i + 1, key))
  {
    if i >= |s| || s[i] != 0x22 {
      return false;
    }
    var start, expected := i + 1, 0;
    while start < |s| && s[start] != 0x22
      invariant i < start <= |s| && expected <= |key|
      invariant NameMatches(s, i + 1, key) == NameMatches(s, start, key[expected..])
      decreases |s| - start
    {
      var unit := NextNameUnit(s, start);
      if unit == None || unit.value.codepoint > 0x7f || expected == |key| || unit.value.codepoint != key[expected] {
        return false;
      }
      assert key[expected..][1..] == key[expected + 1..];
      start, expected := unit.value.next, expected + 1;
    }
    return start < |s| && expected == |key|;
  }

  /** The decoded name is the key, all of it ASCII. */
  ghost predicate AsciiEqual(name: seq<scalar>, key: bytes) {
    |name| == |key| && forall k | 0 <= k < |key| :: name[k] == key[k] && key[k] < 0x80
  }

  lemma {:induction false} NameMatchesDecoded(s: bytes, i: nat, cs: seq<Char>, key: bytes)
    requires ValidChars(cs) && At(s, i, CharsText(cs))
    ensures NameMatches(s, i, key) <==> AsciiEqual(Meanings(cs), key)
    decreases |cs|
  {
    hide At, Char.Text, Char.Valid;
    AtFirst(s, i, CharsText(cs));
    if |cs| > 0 {
      var c := cs[0];
      AtConcat(s, i, c.Text(), CharsText(cs[1..]));
      NameUnitDecoded(s, i, c);
      CharComplete(s, i, c);
      if key != [] && c.Meaning() == key[0] && key[0] < 0x80 {
        NameMatchesDecoded(s, i + |c.Text()|, cs[1..], key[1..]);
        AsciiEqualStep(c.Meaning(), Meanings(cs[1..]), key);
      }
    }
  }

  lemma AsciiEqualStep(c: scalar, rest: seq<scalar>, key: bytes)
    requires key != [] && c == key[0] && key[0] < 0x80
    ensures AsciiEqual([c] + rest, key) <==> AsciiEqual(rest, key[1..])
  {
    if AsciiEqual([c] + rest, key) {
      forall k | 0 <= k < |key[1..]| ensures rest[k] == key[1..][k] && key[1..][k] < 0x80 {
        assert ([c] + rest)[k + 1] == key[k + 1];
      }
    }
  }

  /** A unit below 0x80 is the whole meaning of its character. */
  lemma NameUnitDecoded(s: bytes, i: nat, c: Char)
    requires c.Valid() && At(s, i, c.Text())
    ensures i < |s|
    ensures var u := NextNameUnit(s, i);
            && u.Some?
            && (u.value.codepoint <= 0x7f <==> c.Meaning() <= 0x7f)
            && (u.value.codepoint <= 0x7f ==> u.value == NameUnit(c.Meaning(), i + |c.Text()|))
  {
    match c
    case Plain(cp) =>
      EncodedIsRead(s, i, cp);
    case Short(e) =>
      EscapeComplete(s, i + 1, c);
      assert s[i + 1] == s[i..i + 2][1] == e;
    case Unit(h) =>
      HexAt(s, i + 1, h);
    case Pair(h, l) =>
      AtConcat(s, i, h.Text(), l.Text());
      HexAt(s, i + 1, h);
  }

  // ---- members ----

  function GetMember(s: bytes, i: nat, key: bytes): (r: Lookup)
    requires i <= |s|
    ensures r.Found? ==> r.span.start + r.span.length <= |s|
    decreases |s| - i
  {
    if i == |s| then Absent
    else if ScanName(s, i).None? then Malformed
    else
      var start := ScanName(s, i).value;
      var v := ScanValue(s, start, 1);
      if v.None? then Malformed
      else if NameMatches(s[..ScanString(s, i).value], i + 1, key) then
        Found(Span(start, v.value.end - start, v.value.kind))
      else
        var p := SkipSpace(s, v.value.end);
        if p == |s| then Absent
        else if s[p] != 0x2c then Malformed
        else GetMember(s, SkipSpace(s, p + 1), key)
  }

  predicate Inside(json: bytes, span: Span) { span.start + span.length <= |json| }

  function ObjectGet(json: bytes, obj: Span, key: bytes): (r: Lookup)
    requires Inside(json, obj)
    ensures r.Found? ==> Inside(json, r.span)
  {
    if obj.kind != Object || obj.length < 2 then Malformed
    else
      var s := json[..obj.start + obj.length - 1];
      GetMember(s, SkipSpace(s, obj.start + 1), key)
  }

  /** One member: its name, the colon and its value. */
  method SkipMember(cursor: JsonCursor) returns (ok: bool, keyEnd: nat, value: Span)
    requires cursor.Valid()
    modifies cursor
    ensures cursor.Valid()
    ensures var s, i := cursor.text, old(cursor.cursor);
            && ok == (ScanName(s, i).Some? && ScanValue(s, ScanName(s, i).value, 1).Some?)
            && (ok ==>
                  var start, v := ScanName(s, i).value, ScanValue(s, ScanName(s, i).value, 1).value;
                  && keyEnd == ScanString(s, i).value
                  && value == Span(start, v.end - start, v.kind)
                  && cursor.cursor == v.end)
  {
    hide ScanString, ScanValue, SkipSpace;
    keyEnd, value := 0, Span(0, 0, Null);
    ok := cursor.SkipString();
    if !ok {
      return;
    }
    keyEnd := cursor.cursor;
    cursor.SkipSpaces();
    if cursor.cursor >= |cursor.text| || cursor.text[cursor.cursor] != 0x3a {
      ok := false;
      return;
    }
    cursor.cursor := cursor.cursor + 1;
    cursor.SkipSpaces();
    var start := cursor.cursor;
    var kind := cursor.SkipValue(1);
    ok := kind.Some?;
    if ok {
      value := Span(start, cursor.cursor - start, kind.value);
    }
  }

  /** source/json_min.c `json_min_object_get`. */
  method JsonObjectGet(json: bytes, obj: Span, key: bytes) returns (r: Lookup)
    requires Inside(json, obj)
    ensures r == ObjectGet(json, obj, key)
  {
    hide ScanString, ScanValue, SkipSpace, NameMatches, ScanName;
    if obj.kind != Object || obj.length < 2 {
      return Malformed;
    }
    var s := json[..obj.start + obj.length - 1];
    var cursor := new JsonCursor(s, obj.start + 1);
    cursor.SkipSpaces();
    while cursor.cursor < |s|
      invariant cursor.Valid() && cursor.text == s
      invariant ObjectGet(json, obj, key) == GetMember(s, cursor.cursor, key)
      decreases |s| - cursor.cursor
    {
      var keyStart := cursor.cursor;
      var ok, keyEnd, value := SkipMember(cursor);
      if !ok {
        return Malformed;
      }
      NameQuote(s, keyStart);
      var matches := StringMatchesKey(s[..keyEnd], keyStart, key);
      if matches {
        return Found(value);
      }
      cursor.SkipSpaces();
      if cursor.cursor == |s| {
        break;
      }
      if s[cursor.cursor] != 0x2c {
        return Malformed;
      }
      cursor.cursor := cursor.cursor + 1;
      cursor.SkipSpaces();
    }
    return Absent;
  }

  lemma NameQuote(s: bytes, i: nat)
    requires i <= |s| && ScanName(s, i).Some?
    ensures ScanString(s, i).Some? && i < ScanString(s, i).value <= |s| && s[i] == 0x22
  {
  }

  lemma ItemIsNamed(its: Items)
    requires ValidItems(its, Object)
    ensures its.item.name.Some? && ValidName(its.item.name.value)
    ensures its.More? ==> ValidItems(its.rest, Object)
  {
    assert ValidItem(its.item, Object);
  }

  /** The first member of that name, if any. */
  ghost function FirstMember(its: Items, key: bytes): Option<Value>
    requires ValidItems(its, Object)
  {
    ItemIsNamed(its);
    if AsciiEqual(Meanings(its.item.name.value.chars), key) then Some(its.item.value)
    else if its.More? then FirstMember(its.rest, key)
    else None
  }

  /** What a lookup must answer: absent, or the span of the wanted value. */
  ghost predicate Answers(json: bytes, r: Lookup, wanted: Option<Value>) {
    match wanted
    case None => r == Absent
    case Some(v) => r.Found? && Denotes(json, r.span, v)
  }

  /** `s` is `json` cut just before the closing bracket of the container whose
      items stand at `start`. */
  ghost predicate Interior(json: bytes, s: bytes, start: nat, its: Items, kind: Kind) {
    && ValidItems(its, kind) && ItemsDepth(its) + 1 <= MAX_DEPTH
    && At(json, start, ItemsText(its, kind))
    && |s| == start + |ItemsText(its, kind)| - 1 && |s| <= |json| && s == json[..|s|]
  }

  /** The first item inside a container scans to its end there too, although
      the bound now cuts the text: what follows is a comma or the bound. */
  lemma InteriorItem(json: bytes, s: bytes, start: nat, its: Items, kind: Kind)
    requires Interior(json, s, start, its, kind)
    ensures start <= |s| && ItemScan(s, start, 0, its.item, kind)
    ensures var p := start + |ItemText(its.item)|;
            if its.Last? then p == |s|
            else p < |s| && s[p] == 0x2c && Interior(json, s, p + 1, its.rest, kind)
  {
    hide At, ItemText, ItemScan, ValidItem, Text, KindOf;
    var it := its.item;
    var p := start + |ItemText(it)|;
    match its
    case Last(_) =>
      AtConcat(json, start, ItemText(it), [Close(kind)]);
      AtFirst(json, start, ItemsText(its, kind));
      AtBounded(json, |s|, start, ItemText(it));
      ItemComplete(s, start, 0, it, kind);
    case More(_, rest) =>
      AtConcat(json, start, ItemText(it), [0x2c] + ItemsText(rest, kind));
      AtConcat(json, p, [0x2c], ItemsText(rest, kind));
      AtFirst(json, start, ItemsText(its, kind));
      AtByte(json, p, 0x2c);
      ItemsNonempty(rest, kind);
      AtBounded(json, |s|, start, ItemText(it));
      ItemComplete(s, start, 0, it, kind);
  }

  lemma ItemsNonempty(its: Items, kind: Kind)
    ensures |ItemsText(its, kind)| >= 1
  {
  }

  lemma {:induction false} GetMemberFinds(json: bytes, s: bytes, start: nat, its: Items, key: bytes)
    requires Interior(json, s, start, its, Object)
    ensures start <= |s| && Answers(json, GetMember(s, SkipSpace(s, start), key), FirstMember(its, key))
    decreases its
  {
    hide At, ItemsText, SkipSpace, ScanValue, ScanName, ScanString, NameMatches, Text, Valid, Depth, StringText,
        AsciiEqual, Meanings, ValidItems;
    InteriorItem(json, s, start, its, Object);
    ItemIsNamed(its);
    var it := its.item;
    var i := start + |it.before|;
    var cs := it.name.value.chars;
    var keyEnd := i + |StringText(cs)|;
    AtFirst(s, i, StringText(cs));
    AtBounded(s, keyEnd, i, StringText(cs));
    NameOfItem(s[..keyEnd], i, cs, key);
    var k := i + |NameText(it.name)|;
    AtFirst(s, k, Text(it.value));
    AtBounded(json, |s|, k, Text(it.value));
    if !AsciiEqual(Meanings(cs), key) && its.More? {
      GetMemberFinds(json, s, start + |ItemText(it)| + 1, its.rest, key);
    }
  }

  lemma NameOfItem(s: bytes, i: nat, cs: seq<Char>, key: bytes)
    requires ValidChars(cs) && At(s, i, StringText(cs))
    ensures i + 1 <= |s| && (NameMatches(s, i + 1, key) <==> AsciiEqual(Meanings(cs), key))
  {
    hide At, NameMatches;
    AtConcat(s, i, [0x22], CharsText(cs));
    AtFirst(s, i, [0x22]);
    NameMatchesDecoded(s, i + 1, cs, key);
  }

  /** Looking up a member of an accepted object, or of any object reached from
      it, never reports malformed text, and finds the first member of that name. */
  lemma ObjectGetFindsFirst(json: bytes, obj: Span, v: Value, key: bytes)
    requires Denotes(json, obj, v) && KindOf(v) == Object
    ensures Inside(json, obj)
    ensures Answers(json, ObjectGet(json, obj, key),
                    if v.Full? then FirstMember(v.items, key) else None)
  {
    hide At, ItemsText, ValidItems, GetMember, FirstMember;
    AtFirst(json, obj.start, Text(v));
    ContainerLength(v);
    var s := json[..obj.start + obj.length - 1];
    match v
    case Empty(k, w) =>
      AtConcat(json, obj.start, [Open(k)], w + [Close(k)]);
      EmptyInterior(json, s, obj.start + 1, w, k);
      assert GetMember(s, |s|, key) == Absent by { GetMemberAtEnd(s, key); }
    case Full(k, its) =>
      ItemsNonempty(its, k);
      AtConcat(json, obj.start, [Open(k)], ItemsText(its, k));
      GetMemberFinds(json, s, obj.start + 1, its, key);
  }

  lemma ContainerLength(v: Value)
    requires Valid(v) && KindOf(v) in {Object, Array}
    ensures |Text(v)| >= 2 && (v.Empty? || v.Full?)
  {
    if v.Full? {
      ItemsNonempty(v.items, v.kind);
    }
  }

  lemma GetMemberAtEnd(s: bytes, key: bytes)
    ensures GetMember(s, |s|, key) == Absent
  {
  }

  lemma EmptyInterior(json: bytes, s: bytes, i: nat, w: bytes, kind: Kind)
    requires Spaces(w) && At(json, i, w + [Close(kind)]) && |s| == i + |w| && s == json[..|s|]
    ensures SkipSpace(s, i) == |s|
  {
    AtConcat(json, i, w, [Close(kind)]);
    AtBounded(json, |s|, i, w);
    SpaceComplete(s, i, w);
  }

  // ---- elements ----

  /** The walk over an array from its element number `count`: towards the
      wanted one or, for None, to the end; with the number of elements passed. */
  function Walk(s: bytes, i: nat, wanted: Option<nat>, count: nat): (r: (Lookup, nat))
    requires i <= |s|
    ensures r.0.Found? ==> r.0.span.start + r.0.span.length <= |s|
    decreases |s| - i
  {
    if i == |s| then (Absent, count)
    else
      var v := ScanValue(s, i, 1);
      if v.None? then (Malformed, count)
      else if wanted == Some(count) then (Found(Span(i, v.value.end - i, v.value.kind)), count)
      else
        var p := SkipSpace(s, v.value.end);
        if p == |s| then (Absent, count + 1)
        else if s[p] != 0x2c then (Malformed, count + 1)
        else Walk(s, SkipSpace(s, p + 1), wanted, count + 1)
  }

  function WalkArray(json: bytes, arr: Span, wanted: Option<nat>): (r: (Lookup, nat))
    requires Inside(json, arr)
    ensures r.0.Found? ==> Inside(json, r.0.span)
  {
    if arr.kind != Array || arr.length < 2 then (Malformed, 0)
    else
      var s := json[..arr.start + arr.length - 1];
      Walk(s, SkipSpace(s, arr.start + 1), wanted, 0)
  }

  /** source/json_min.c `array_walk`. */
  method ArrayWalk(json: bytes, arr: Span, wanted: Option<nat>) returns (r: Lookup, count: nat)
    requires Inside(json, arr)
    ensures (r, count) == WalkArray(json, arr, wanted)
  {
    hide ScanValue, SkipSpace;
    count := 0;
    if arr.kind != Array || arr.length < 2 {
      return Malformed, 0;
    }
    var s := json[..arr.start + arr.length - 1];
    var cursor := new JsonCursor(s, arr.start + 1);
    cursor.SkipSpaces();
    while cursor.cursor < |s|
      invariant cursor.Valid() && cursor.text == s
      invariant WalkArray(json, arr, wanted) == Walk(s, cursor.cursor, wanted, count)
      decreases |s| - cursor.cursor
    {
      var start := cursor.cursor;
      var kind := cursor.SkipValue(1);
      if kind == None {
        return Malformed, count;
      }
      if wanted == Some(count) {
        return Found(Span(start, cursor.cursor - start, kind.value)), count;
      }
      count := count + 1;
      cursor.SkipSpaces();
      if cursor.cursor == |s| {
        return Absent, count;
      }
      if s[cursor.cursor] != 0x2c {
        return Malformed, count;
      }
      cursor.cursor := cursor.cursor + 1;
      cursor.SkipSpaces();
    }
    return Absent, count;
  }

  /** What walking over these elements must give. */
  ghost predicate Walked(json: bytes, r: (Lookup, nat), elements: seq<Item>, wanted: Option<nat>, count: nat) {
    if wanted.Some? && count <= wanted.value < count + |elements| then
      Answers(json, r.0, Some(elements[wanted.value - count].value)) && r.1 == wanted.value
    else
      r == (Absent, count + |elements|)
  }

  lemma {:induction false} WalkFinds(json: bytes, s: bytes, start: nat, its: Items, wanted: Option<nat>, count: nat)
    requires Interior(json, s, start, its, Array) && (wanted.Some? ==> count <= wanted.value)
    ensures start <= |s|
    ensures Walked(json, Walk(s, SkipSpace(s, start), wanted, count), ItemSeq(its), wanted, count)
    decreases its
  {
    hide At, ItemsText, SkipSpace, ScanValue, ScanName, ScanString, Text, Valid, Depth, StringText;
    InteriorItem(json, s, start, its, Array);
    var it := its.item;
    ItemIsBare(its);
    var k := start + |it.before| + |NameText(it.name)|;
    AtFirst(s, k, Text(it.value));
    AtBounded(json, |s|, k, Text(it.value));
    if wanted != Some(count) && its.More? {
      WalkFinds(json, s, start + |ItemText(it)| + 1, its.rest, wanted, count + 1);
    }
  }

  lemma ItemIsBare(its: Items)
    requires ValidItems(its, Array)
    ensures its.item.name == None
    ensures its.More? ==> ValidItems(its.rest, Array)
  {
    assert ValidItem(its.item, Array);
  }

  /** Counting and indexing an accepted array, or any array reached from it,
      agree with its elements and never report malformed text. */
  lemma ArrayAccess(json: bytes, arr: Span, v: Value, wanted: Option<nat>)
    requires Denotes(json, arr, v) && KindOf(v) == Array
    ensures Inside(json, arr)
    ensures Walked(json, WalkArray(json, arr, wanted), Children(v), wanted, 0)
  {
    hide At, ItemsText, ValidItems, Walk, ItemSeq;
    AtFirst(json, arr.start, Text(v));
    ContainerLength(v);
    var s := json[..arr.start + arr.length - 1];
    match v
    case Empty(k, w) =>
      AtConcat(json, arr.start, [Open(k)], w + [Close(k)]);
      EmptyInterior(json, s, arr.start + 1, w, k);
      WalkAtEnd(s, wanted);
    case Full(k, its) =>
      ItemsNonempty(its, k);
      AtConcat(json, arr.start, [Open(k)], ItemsText(its, k));
      WalkFinds(json, s, arr.start + 1, its, wanted, 0);
  }

  lemma WalkAtEnd(s: bytes, wanted: Option<nat>)
    ensures Walk(s, |s|, wanted, 0) == (Absent, 0)
  {
  }
}
