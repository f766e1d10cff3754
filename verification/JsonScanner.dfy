/** The scanner of source/json_min.c. The functions say where each routine
    leaves its cursor (None: the routine reports malformed text); the class
    holds the cursor and the loops. Theorems about them are in JsonTheorems. */
module JsonScanner {
  import opened Bytes
  import opened Utf8
  import opened JsonGrammar

  // ---- where each routine stops ----

  function SkipSpace(s: bytes, i: nat): (r: nat)
    requires i <= |s|
    ensures i <= r <= |s|
    decreases |s| - i
  {
    if i < |s| && IsSpace(s[i]) then SkipSpace(s, i + 1) else i
  }

  function ReadHex4(s: bytes, i: nat): (r: Option<Hex4>)
    ensures r.Some? ==> i + 4 <= |s| && r.value.Valid()
  {
    if i + 4 > |s| then None
    else
      var h := Hex4(s[i], s[i + 1], s[i + 2], s[i + 3]);
      if h.Valid() then Some(h) else None
  }

  /** The C library's `strchr` also finds the terminating NUL. */
  predicate FoundInEscapes(e: byte) { ShortEscape(e).Some? || e == 0 }

  /** From just after a backslash to just after the escape. */
  function ScanEscape(s: bytes, i: nat): (r: Option<nat>)
    requires i <= |s|
    ensures r.Some? ==> i < r.value <= |s|
  {
    if i >= |s| then None
    else if FoundInEscapes(s[i]) then Some(i + 1)
    else if s[i] != 0x75 then None
    else
      var h :- ReadHex4(s, i + 1);
      if h.Value() == 0 then None
      else if HighSurrogate(h.Value()) then
        if i + 11 > |s| || s[i + 5] != 0x5c || s[i + 6] != 0x75 then None
        else
          var l :- ReadHex4(s, i + 7);
          if LowSurrogate(l.Value()) then Some(i + 11) else None
      else if LowSurrogate(h.Value()) then None
      else Some(i + 5)
  }

  /** One character of a string, `s[i]` not being a quotation mark. */
  function ScanChar(s: bytes, i: nat): (r: Option<nat>)
    requires i < |s|
    ensures r.Some? ==> i < r.value <= |s|
  {
    if s[i] < 0x20 then None
    else if s[i] >= 0x80 then
      var d :- Read(s, i);
      Some(d.end)
    else if s[i] == 0x5c then ScanEscape(s, i + 1)
    else Some(i + 1)
  }

  function ScanChars(s: bytes, i: nat): (r: Option<nat>)
    requires i <= |s|
    ensures r.Some? ==> i < r.value <= |s|
    decreases |s| - i
  {
    if i == |s| then None
    else if s[i] == 0x22 then Some(i + 1)
    else
      var j :- ScanChar(s, i);
      ScanChars(s, j)
  }

  function ScanString(s: bytes, i: nat): (r: Option<nat>)
    requires i <= |s|
    ensures r.Some? ==> i + 1 < r.value <= |s|
  {
    if i < |s| && s[i] == 0x22 then ScanChars(s, i + 1) else None
  }

  function ScanDigits(s: bytes, i: nat): (r: nat)
    requires i <= |s|
    ensures i <= r <= |s|
    decreases |s| - i
  {
    if i < |s| && IsDigit(s[i]) then ScanDigits(s, i + 1) else i
  }

  /** At least one digit. */
  function ScanSomeDigits(s: bytes, i: nat): (r: Option<nat>)
    requires i <= |s|
    ensures r.Some? ==> i < r.value <= |s|
  {
    if i < |s| && IsDigit(s[i]) then Some(ScanDigits(s, i)) else None
  }

  function ScanInteger(s: bytes, i: nat): (r: Option<nat>)
    requires i <= |s|
    ensures r.Some? ==> i < r.value <= |s|
  {
    if i < |s| && s[i] == 0x30 then
      if i + 1 < |s| && IsDigit(s[i + 1]) then None else Some(i + 1)
    else ScanSomeDigits(s, i)
  }

  function ScanFraction(s: bytes, i: nat): (r: Option<nat>)
    requires i <= |s|
    ensures r.Some? ==> i <= r.value <= |s|
  {
    if i < |s| && s[i] == 0x2e then ScanSomeDigits(s, i + 1) else Some(i)
  }

  function ScanPower(s: bytes, i: nat): (r: Option<nat>)
    requires i <= |s|
    ensures r.Some? ==> i <= r.value <= |s|
  {
    if i < |s| && s[i] in {0x45, 0x65} then
      if i + 1 < |s| && s[i + 1] in {0x2b, 0x2d} then ScanSomeDigits(s, i + 2)
      else ScanSomeDigits(s, i + 1)
    else Some(i)
  }

  function ScanNumber(s: bytes, i: nat): (r: Option<nat>)
    requires i <= |s|
    ensures r.Some? ==> i < r.value <= |s|
  {
    var start := if i < |s| && s[i] == 0x2d then i + 1 else i;
    var j :- ScanInteger(s, start);
    var k :- ScanFraction(s, j);
    ScanPower(s, k)
  }

  datatype Scanned = Scanned(end: nat, kind: Kind)

  function ScanWord(s: bytes, i: nat, kind: Kind): Option<Scanned> {
    if At(s, i, WordText(kind)) then Some(Scanned(i + |WordText(kind)|, kind)) else None
  }

  /** A member's name, the colon and the white space around it. */
  function ScanName(s: bytes, i: nat): (r: Option<nat>)
    requires i <= |s|
    ensures r.Some? ==> i < r.value <= |s|
  {
    var j :- ScanString(s, i);
    var k := SkipSpace(s, j);
    if k < |s| && s[k] == 0x3a then Some(SkipSpace(s, k + 1)) else None
  }

  function ScanValue(s: bytes, i: nat, depth: nat): (r: Option<Scanned>)
    requires i <= |s|
    ensures r.Some? ==> i < r.value.end <= |s|
    decreases |s| - i, 1
  {
    var k := SkipSpace(s, i);
    if k == |s| then None
    else if s[k] == 0x7b then ScanContainer(s, k, depth, Object)
    else if s[k] == 0x5b then ScanContainer(s, k, depth, Array)
    else if s[k] == 0x22 then
      var j :- ScanString(s, k);
      Some(Scanned(j, String))
    else if s[k] == 0x74 then ScanWord(s, k, True)
    else if s[k] == 0x66 then ScanWord(s, k, False)
    else if s[k] == 0x6e then ScanWord(s, k, Null)
    else
      var j :- ScanNumber(s, k);
      Some(Scanned(j, Number))
  }

  function ScanContainer(s: bytes, i: nat, depth: nat, kind: Kind): (r: Option<Scanned>)
    requires i <= |s|
    ensures r.Some? ==> i < r.value.end <= |s|
    decreases |s| - i, 0
  {
    if depth >= MAX_DEPTH || i == |s| || s[i] != Open(kind) then None
    else
      var k := SkipSpace(s, i + 1);
      if k < |s| && s[k] == Close(kind) then Some(Scanned(k + 1, kind))
      else
        var j :- ScanItems(s, k, depth, kind);
        Some(Scanned(j, kind))
  }

  /** One item with the white space behind it. */
  function ScanItem(s: bytes, i: nat, depth: nat, kind: Kind): (r: Option<nat>)
    requires i <= |s|
    ensures r.Some? ==> i < r.value <= |s|
    decreases |s| - i, 2
  {
    var k :- if kind == Object then ScanName(s, i) else Some(i);
    var v :- ScanValue(s, k, depth + 1);
    Some(SkipSpace(s, v.end))
  }

  /** From the first byte of an item to just after the closing bracket. */
  function ScanItems(s: bytes, i: nat, depth: nat, kind: Kind): (r: Option<nat>)
    requires i <= |s|
    ensures r.Some? ==> i < r.value <= |s|
    decreases |s| - i, 3
  {
    var p :- ScanItem(s, i, depth, kind);
    if p == |s| then None
    else if s[p] == Close(kind) then Some(p + 1)
    else if s[p] != 0x2c then None
    else ScanItems(s, SkipSpace(s, p + 1), depth, kind)
  }

  /** A value returned to callers: a span of the text and its kind. */
  datatype Span = Span(start: nat, length: nat, kind: Kind)

  function Parse(json: bytes): (r: Option<Span>)
    ensures r.Some? ==> r.value.start + r.value.length <= |json|
  {
    if |json| == 0 || 0 in json then None
    else
      var start := SkipSpace(json, 0);
      var v :- ScanValue(json, start, 0);
      if SkipSpace(json, v.end) != |json| then None
      else Some(Span(start, v.end - start, v.kind))
  }

  // ---- the cursor ----

  /** `text` holds the bytes below the end bound, `cursor` the next index. */
  class JsonCursor {
    const text: bytes
    var cursor: nat

    ghost predicate Valid()
      reads this
    {
      cursor <= |text|
    }

    constructor (text: bytes, start: nat)
      requires start <= |text|
      ensures Valid() && this.text == text && cursor == start
    {
      this.text := text;
      this.cursor := start;
    }

    method SkipSpaces()
      requires Valid()
      modifies this
      ensures Valid() && cursor == SkipSpace(text, old(cursor))
    {
      while cursor < |text|
        invariant old(cursor) <= cursor <= |text|
        invariant SkipSpace(text, cursor) == SkipSpace(text, old(cursor))
      {
        if !IsSpace(text[cursor]) {
          break;
        }
        cursor := cursor + 1;
      }
    }

    method SkipEscape() returns (ok: bool)
      requires Valid()
      modifies this
      ensures Valid() && ok == ScanEscape(text, old(cursor)).Some?
      ensures ok ==> cursor == ScanEscape(text, old(cursor)).value
    {
      if cursor >= |text| {
        return false;
      }
      var escaped := text[cursor];
      cursor := cursor + 1;
      if FoundInEscapes(escaped) {
        return true;
      }
      if escaped != 0x75 || |text| - cursor < 4 {
        return false;
      }
      var unit := ReadHex4(text, cursor);
      if unit == None {
        return false;
      }
      cursor := cursor + 4;
      var codepoint := unit.value.Value();
      if codepoint == 0 {
        return false;
      }
      if HighSurrogate(codepoint) {
        if |text| - cursor < 6 || text[cursor] != 0x5c || text[cursor + 1] != 0x75 {
          return false;
        }
        var low := ReadHex4(text, cursor + 2);
        if low == None || !LowSurrogate(low.value.Value()) {
          return false;
        }
        cursor := cursor + 6;
      } else if LowSurrogate(codepoint) {
        return false;
      }
      return true;
    }

    method SkipString() returns (ok: bool)
      requires Valid()
      modifies this
      ensures Valid() && ok == ScanString(text, old(cursor)).Some?
      ensures ok ==> cursor == ScanString(text, old(cursor)).value
    {
      if cursor >= |text| || text[cursor] != 0x22 {
        return false;
      }
      cursor := cursor + 1;
      while cursor < |text|
        invariant cursor <= |text|
        invariant ScanChars(text, cursor) == ScanString(text, old(cursor))
      {
        var c := text[cursor];
        cursor := cursor + 1;
        if c == 0x22 {
          return true;
        }
        if c < 0x20 {
          return false;
        }
        if c >= 0x80 {
          cursor := cursor - 1;
          var r := ReadUtf8(text, cursor);
          if r == None {
            return false;
          }
          cursor := r.value.end;
        } else if c == 0x5c {
          var escaped := SkipEscape();
          if !escaped {
            return false;
          }
        }
      }
      return false;
    }

    /** A run of digits of any length, also none. */
    method SkipDigits()
      requires Valid()
      modifies this
      ensures Valid() && cursor == ScanDigits(text, old(cursor))
    {
      while cursor < |text| && IsDigit(text[cursor])
        invariant old(cursor) <= cursor <= |text|
        invariant ScanDigits(text, cursor) == ScanDigits(text, old(cursor))
      {
        cursor := cursor + 1;
      }
    }

    method SkipInteger() returns (ok: bool)
      requires Valid()
      modifies this
      ensures Valid() && ok == ScanInteger(text, old(cursor)).Some?
      ensures ok ==> cursor == ScanInteger(text, old(cursor)).value
    {
      if cursor >= |text| {
        return false;
      }
      if text[cursor] == 0x30 {
        cursor := cursor + 1;
        return !(cursor < |text| && IsDigit(text[cursor]));
      }
      if !IsDigit(text[cursor]) {
        return false;
      }
      SkipDigits();
      return true;
    }

    method SkipFraction() returns (ok: bool)
      requires Valid()
      modifies this
      ensures Valid() && ok == ScanFraction(text, old(cursor)).Some?
      ensures ok ==> cursor == ScanFraction(text, old(cursor)).value
    {
      if cursor < |text| && text[cursor] == 0x2e {
        cursor := cursor + 1;
        if cursor >= |text| || !IsDigit(text[cursor]) {
          return false;
        }
        SkipDigits();
      }
      return true;
    }

    method SkipPower() returns (ok: bool)
      requires Valid()
      modifies this
      ensures Valid() && ok == ScanPower(text, old(cursor)).Some?
      ensures ok ==> cursor == ScanPower(text, old(cursor)).value
    {
      if cursor < |text| && (text[cursor] == 0x65 || text[cursor] == 0x45) {
        cursor := cursor + 1;
        if cursor < |text| && (text[cursor] == 0x2b || text[cursor] == 0x2d) {
          cursor := cursor + 1;
        }
        if cursor >= |text| || !IsDigit(text[cursor]) {
          return false;
        }
        SkipDigits();
      }
      return true;
    }

    method SkipNumber() returns (ok: bool)
      requires Valid()
      modifies this
      ensures Valid() && ok == ScanNumber(text, old(cursor)).Some?
      ensures ok ==> cursor == ScanNumber(text, old(cursor)).value
    {
      if cursor < |text| && text[cursor] == 0x2d {
        cursor := cursor + 1;
      }
      ok := SkipInteger();
      if ok {
        ok := SkipFraction();
      }
      if ok {
        ok := SkipPower();
      }
    }

    method ConsumeWord(kind: Kind) returns (r: Option<Kind>)
      requires Valid()
      modifies this
      ensures Valid() && r == (if ScanWord(text, old(cursor), kind).Some? then Some(kind) else None)
      ensures r.Some? ==> cursor == ScanWord(text, old(cursor), kind).value.end
    {
      if !At(text, cursor, WordText(kind)) {
        return None;
      }
      cursor := cursor + |WordText(kind)|;
      return Some(kind);
    }

    ghost predicate Outcome(r: Option<Kind>, expected: Option<Scanned>)
      reads this
    {
      && Valid()
      && r.Some? == expected.Some?
      && (r.Some? ==> r.value == expected.value.kind && cursor == expected.value.end)
    }

    method SkipName() returns (ok: bool)
      requires Valid()
      modifies this
      ensures Valid() && ok == ScanName(text, old(cursor)).Some?
      ensures ok ==> cursor == ScanName(text, old(cursor)).value
    {
      ok := SkipString();
      if !ok {
        return;
      }
      SkipSpaces();
      if cursor >= |text| || text[cursor] != 0x3a {
        return false;
      }
      cursor := cursor + 1;
      SkipSpaces();
    }

    method SkipContainer(depth: nat, kind: Kind) returns (r: Option<Kind>)
      requires Valid()
      modifies this
      ensures Outcome(r, ScanContainer(text, old(cursor), depth, kind))
      decreases |text| - cursor, 0
    {
      if depth >= MAX_DEPTH || cursor >= |text| || text[cursor] != Open(kind) {
        return None;
      }
      cursor := cursor + 1;
      SkipSpaces();
      if cursor < |text| && text[cursor] == Close(kind) {
        cursor := cursor + 1;
        return Some(kind);
      }
      var ok := SkipItems(depth, kind);
      return if ok then Some(kind) else None;
    }

    method SkipItem(depth: nat, kind: Kind) returns (ok: bool)
      requires Valid()
      modifies this
      ensures Valid() && ok == ScanItem(text, old(cursor), depth, kind).Some?
      ensures ok ==> cursor == ScanItem(text, old(cursor), depth, kind).value
      decreases |text| - cursor, 2
    {
      if kind == Object {
        var named := SkipName();
        if !named {
          return false;
        }
      }
      var child := SkipValue(depth + 1);
      if child == None {
        return false;
      }
      SkipSpaces();
      return true;
    }

    /** The loop of `skip_container`. */
    method SkipItems(depth: nat, kind: Kind) returns (ok: bool)
      requires Valid()
      modifies this
      ensures Valid() && ok == ScanItems(text, old(cursor), depth, kind).Some?
      ensures ok ==> cursor == ScanItems(text, old(cursor), depth, kind).value
      decreases |text| - cursor, 3
    {
      hide ScanItem, SkipSpace;
      while true
        invariant old(cursor) <= cursor <= |text|
        invariant ScanItems(text, cursor, depth, kind) == ScanItems(text, old(cursor), depth, kind)
        decreases |text| - cursor
      {
        ok := SkipItem(depth, kind);
        if !ok || cursor >= |text| {
          return false;
        }
        if text[cursor] == Close(kind) {
          cursor := cursor + 1;
          return true;
        }
        if text[cursor] != 0x2c {
          return false;
        }
        cursor := cursor + 1;
        SkipSpaces();
      }
    }

    method SkipValue(depth: nat) returns (r: Option<Kind>)
      requires Valid()
      modifies this
      ensures Outcome(r, ScanValue(text, old(cursor), depth))
      decreases |text| - cursor, 1
    {
      SkipSpaces();
      if cursor >= |text| {
        return None;
      }
      var c := text[cursor];
      if c == 0x7b {
        r := SkipContainer(depth, Object);
      } else if c == 0x5b {
        r := SkipContainer(depth, Array);
      } else if c == 0x22 {
        var ok := SkipString();
        r := if ok then Some(String) else None;
      } else if c == 0x74 {
        r := ConsumeWord(True);
      } else if c == 0x66 {
        r := ConsumeWord(False);
      } else if c == 0x6e {
        r := ConsumeWord(Null);
      } else {
        var ok := SkipNumber();
        r := if ok then Some(Number) else None;
      }
    }
  }

  /** source/json_min.c `json_min_parse`. */
  method JsonParse(json: bytes) returns (r: Option<Span>)
    ensures r == Parse(json)
  {
    if |json| == 0 || 0 in json {
      return None;
    }
    var cursor := new JsonCursor(json, 0);
    cursor.SkipSpaces();
    var start := cursor.cursor;
    var kind := cursor.SkipValue(0);
    if kind == None {
      return None;
    }
    var end := cursor.cursor;
    cursor.SkipSpaces();
    if cursor.cursor != |json| {
      return None;
    }
    return Some(Span(start, end - start, kind.value));
  }
}
