/** Decoding a JSON string (source/json_min.c lines 358 to 430) and printing one
    (source/combo_auth.c lines 347 to 403), each against the grammar, so that
    one undoes the other. */
module JsonStrings {
  import opened Bytes
  import opened Utf8
  import opened JsonGrammar
  import opened JsonScanner
  import opened JsonTheorems
  import opened JsonAccess

  // ---- decoding ----

  /** One decoded character: a raw one, or what an escape stands for. */
  function DecodeChar(s: bytes, i: nat): (r: Option<Decoded>)
    requires i < |s|
    ensures r.Some? ==> i < r.value.end <= |s| && 0 <= r.value.cp <= 0x10ffff
  {
    if s[i] >= 0x80 then
      var d :- Read(s, i);
      assert Scalar(d.cp) by { ReadIsEncoded(s, i); }
      Some(d)
    else if s[i] != 0x5c then Some(Decoded(s[i], i + 1))
    else if i + 1 == |s| then None
    else if s[i + 1] == 0x75 then DecodeUnit(s, i + 2)
    else
      var c :- Replacement(s[i + 1]);
      Some(Decoded(c as int, i + 2))
  }

  /** A `\u` escape, from its digits on; an unpaired low surrogate passes. */
  function DecodeUnit(s: bytes, i: nat): (r: Option<Decoded>)
    requires i <= |s|
    ensures r.Some? ==> i < r.value.end <= |s| && 0 <= r.value.cp <= 0x10ffff
  {
    var h :- ReadHex4(s, i);
    if h.Value() == 0 then None
    else if !HighSurrogate(h.Value()) then Some(Decoded(h.Value(), i + 4))
    else if i + 10 > |s| || s[i + 4] != 0x5c || s[i + 5] != 0x75 then None
    else
      var l :- ReadHex4(s, i + 6);
      if LowSurrogate(l.Value()) then
        Some(Decoded(0x10000 + (h.Value() - 0xd800) * 1024 + (l.Value() - 0xdc00), i + 10))
      else None
  }

  function DecodeFrom(s: bytes, i: nat): Option<bytes>
    requires i <= |s|
    decreases |s| - i
  {
    if i == |s| then Some([])
    else
      var d :- DecodeChar(s, i);
      var rest :- DecodeFrom(s, d.end);
      Some(Encode(d.cp) + rest)
  }

  /** The bytes a string value decodes to. */
  function StringBytes(json: bytes, value: Span): Option<bytes>
    requires Inside(json, value)
  {
    if value.kind != String || value.length < 2 || json[value.start] != 0x22
       || json[value.start + value.length - 1] != 0x22
    then None
    else DecodeFrom(json[..value.start + value.length - 1], value.start + 1)
  }

  /** source/json_min.c `append_utf8`: one byte is kept for the terminator. */
  method AppendUtf8(out: array<byte>, used: nat, cp: int) returns (ok: bool, now: nat)
    requires used < out.Length && 0 <= cp <= 0x10ffff
    modifies out
    ensures ok <==> used + |Encode(cp)| < out.Length
    ensures ok ==> now == used + |Encode(cp)| && out[..now] == old(out[..used]) + Encode(cp)
  {
    var encoded := Encode(cp);
    if out.Length - used <= |encoded| {
      return false, used;
    }
    CopyInto(out, used, encoded);
    now := used + |encoded|;
    return true, now;
  }

  /** source/json_min.c `json_min_string`; the capacity is `out.Length`. */
  method JsonString(json: bytes, value: Span, out: array<byte>) returns (ok: bool)
    requires Inside(json, value)
    modifies out
    ensures ok <==> StringBytes(json, value).Some? && |StringBytes(json, value).value| < out.Length
    ensures ok ==> var text := StringBytes(json, value).value;
                   out[..|text|] == text && out[|text|] == 0
  {
    hide DecodeChar, Encode;
    if value.kind != String || out.Length == 0 || value.length < 2 || json[value.start] != 0x22
       || json[value.start + value.length - 1] != 0x22 {
      return false;
    }
    var s := json[..value.start + value.length - 1];
    var cursor: nat, used: nat := value.start + 1, 0;
    assert out[..0] == [];
    assert forall t: bytes :: [] + t == t;
    while cursor < |s|
      invariant cursor <= |s| && used < out.Length
      invariant StringBytes(json, value) ==
                if DecodeFrom(s, cursor).None? then None else Some(out[..used] + DecodeFrom(s, cursor).value)
      decreases |s| - cursor
    {
      var d := DecodeChar(s, cursor);
      if d == None {
        return false;
      }
      ghost var before, rest := out[..used], DecodeFrom(s, d.value.end);
      var appended, now := AppendUtf8(out, used, d.value.cp);
      if !appended {
        return false;
      }
      assert rest.Some? ==> (before + Encode(d.value.cp)) + rest.value == before + (Encode(d.value.cp) + rest.value);
      cursor, used := d.value.end, now;
    }
    out[used] := 0;
    return true;
  }

  lemma DecodeOneChar(s: bytes, i: nat, c: Char)
    requires c.Valid() && At(s, i, c.Text())
    ensures i < |s| && DecodeChar(s, i) == Some(Decoded(c.Meaning(), i + |c.Text()|))
  {
    match c
    case Plain(cp) =>
      EncodedIsRead(s, i, cp);
    case Short(e) =>
      EscapeComplete(s, i + 1, c);
      assert s[i + 1] == s[i..i + 2][1] == e;
    case Unit(h) =>
      HexAt(s, i + 1, h);
    case Pair(h, l) =>
      AtConcat(s, i, h.Text(), l.Text());
      HexAt(s, i + 1, h);
      HexAt(s, i + 7, l);
  }

  lemma {:induction false} DecodeAllChars(s: bytes, i: nat, cs: seq<Char>)
    requires ValidChars(cs) && At(s + [0x22], i, CharsText(cs)) && i + |CharsText(cs)| == |s| + 1
    ensures i <= |s| && DecodeFrom(s, i) == Some(EncodeAll(Meanings(cs)))
    decreases |cs|
  {
    hide At, Char.Text, Char.Valid, Char.Meaning, DecodeChar, Encode;
    var t := s + [0x22];
    if |cs| > 0 {
      var c := cs[0];
      AtConcat(t, i, c.Text(), CharsText(cs[1..]));
      CharsNonempty(cs[1..]);
      AtBounded(t, |s|, i, c.Text());
      assert t[..|s|] == s;
      DecodeOneChar(s, i, c);
      DecodeAllChars(s, i + |c.Text()|, cs[1..]);
    }
  }

  lemma CharsNonempty(cs: seq<Char>)
    ensures |CharsText(cs)| >= 1
  {
  }

  /** A string value decodes to the UTF-8 form of the characters it means. */
  lemma StringBytesAreMeanings(json: bytes, value: Span, cs: seq<Char>)
    requires Denotes(json, value, Str(cs))
    ensures Inside(json, value) && StringBytes(json, value) == Some(EncodeAll(Meanings(cs)))
  {
    hide At, DecodeFrom, CharsText, Valid, Depth;
    assert ValidChars(cs) && Text(Str(cs)) == StringText(cs) by { StringIsValid(cs); }
    AtConcat(json, value.start, [0x22], CharsText(cs));
    AtFirst(json, value.start, [0x22]);
    CharsNonempty(cs);
    var i, n := value.start + 1, |CharsText(cs)|;
    AtFirst(json, i, CharsText(cs));
    AtIsSlice(json, i, CharsText(cs));
    LastQuote(cs);
    var s := json[..value.start + value.length - 1];
    assert json[i + n - 1] == json[i..i + n][n - 1];
    assert s + [0x22] == json[..i + n];
    AtBounded(json, i + n, i, CharsText(cs));
    DecodeAllChars(s, i, cs);
  }

  lemma StringIsValid(cs: seq<Char>)
    requires Valid(Str(cs))
    ensures ValidChars(cs)
  {
  }

  lemma {:induction false} LastQuote(cs: seq<Char>)
    ensures var t := CharsText(cs); |t| >= 1 && t[|t| - 1] == 0x22
    decreases |cs|
  {
    if |cs| > 0 {
      LastQuote(cs[1..]);
    }
  }

  // ---- printing ----

  function HexDigit(n: int): byte
    requires 0 <= n < 16
  {
    if n < 10 then 0x30 + n else 0x61 + n - 10
  }

  /** How the printer writes one byte. */
  function EscapeByte(b: byte): bytes {
    match b
    case 0x22 => [0x5c, 0x22]
    case 0x5c => [0x5c, 0x5c]
    case 0x08 => [0x5c, 0x62]
    case 0x0c => [0x5c, 0x66]
    case 0x0a => [0x5c, 0x6e]
    case 0x0d => [0x5c, 0x72]
    case 0x09 => [0x5c, 0x74]
    case _ => if b < 0x20 then [0x5c, 0x75, 0x30, 0x30, HexDigit(b / 16), HexDigit(b % 16)] else [b]
  }

  function EscapeBytes(text: bytes): bytes {
    if |text| == 0 then [] else EscapeByte(text[0]) + EscapeBytes(text[1..])
  }

  function Quote(text: bytes): bytes { [0x22] + (EscapeBytes(text) + [0x22]) }

  /** source/combo_auth.c `StringBuilder`; the capacity is `data.Length`, and
      one byte stays free for the terminator. */
  class StringBuilder {
    const data: array<byte>
    var length: nat
    var failed: bool

    ghost predicate Valid()
      reads this
    {
      length < data.Length
    }

    function Contents(): bytes
      requires Valid()
      reads this, data
    {
      data[..length]
    }

    constructor (capacity: nat)
      requires capacity > 0
      ensures Valid() && fresh(data) && data.Length == capacity && Contents() == [] && !failed
    {
      data := new byte[capacity];
      length, failed := 0, false;
    }

    method RawN(text: bytes)
      requires Valid()
      modifies this, data
      ensures Valid()
      ensures failed == (old(failed) || old(length) + |text| >= data.Length)
      ensures Contents() == if failed then old(Contents()) else old(Contents()) + text
    {
      if failed || |text| > data.Length - length - 1 {
        failed := true;
        return;
      }
      CopyInto(data, length, text);
      length := length + |text|;
    }

    /** What a run of appended pieces leaves behind. */
    ghost predicate Appended(before: bytes, wasFailed: bool, text: bytes)
      reads this, data
    {
      && Valid()
      && failed == (wasFailed || |before| + |text| >= data.Length)
      && (!failed ==> Contents() == before + text)
    }

    /** source/combo_auth.c `builder_json_string`. */
    method PrintString(text: bytes)
      requires Valid()
      modifies this, data
      ensures Appended(old(Contents()), old(failed), Quote(text))
    {
      hide EscapeByte, EscapeBytes, QuotedPrefix, Quote;
      QuotedPrefixes(text, 0);
      RawN([0x22]);
      var cursor := 0;
      while cursor < |text| && !failed
        invariant cursor <= |text|
        invariant Appended(old(Contents()), old(failed), QuotedPrefix(text, cursor))
      {
        QuotedPrefixes(text, cursor);
        AppendNext(old(Contents()), old(failed), QuotedPrefix(text, cursor), EscapeByte(text[cursor]));
        cursor := cursor + 1;
      }
      QuotedPrefixes(text, cursor);
      AppendNext(old(Contents()), old(failed), QuotedPrefix(text, cursor), [0x22]);
    }

    /** One more piece behind those of a run. */
    method AppendNext(ghost before: bytes, ghost wasFailed: bool, ghost text: bytes, piece: bytes)
      requires Appended(before, wasFailed, text)
      modifies this, data
      ensures Appended(before, wasFailed, text + piece)
    {
      assert (before + text) + piece == before + (text + piece);
      RawN(piece);
    }
  }

  /** What has been printed before byte `k` of the text. */
  ghost function QuotedPrefix(text: bytes, k: nat): bytes
    requires k <= |text|
  {
    [0x22] + EscapeBytes(text[..k])
  }

  lemma QuotedPrefixes(text: bytes, k: nat)
    requires k <= |text|
    ensures QuotedPrefix(text, 0) == [0x22]
    ensures k < |text| ==> QuotedPrefix(text, k + 1) == QuotedPrefix(text, k) + EscapeByte(text[k])
    ensures Quote(text) == QuotedPrefix(text, |text|) + [0x22] && |QuotedPrefix(text, k)| < |Quote(text)|
  {
    hide EscapeByte;
    assert text[..0] == [] && text[..|text|] == text;
    if k < |text| {
      EscapeBytesSnoc(text[..k], text[k]);
      assert text[..k + 1] == text[..k] + [text[k]];
    }
    EscapeBytesConcat(text[..k], text[k..]);
    assert text == text[..k] + text[k..];
  }

  lemma {:induction false} EscapeBytesConcat(a: bytes, b: bytes)
    ensures EscapeBytes(a + b) == EscapeBytes(a) + EscapeBytes(b)
    decreases |a|
  {
    hide EscapeByte;
    if |a| == 0 {
      assert a + b == b;
    } else {
      EscapeBytesConcat(a[1..], b);
      assert (a + b)[1..] == a[1..] + b;
    }
  }

  lemma EscapeBytesSnoc(a: bytes, b: byte)
    ensures EscapeBytes(a + [b]) == EscapeBytes(a) + EscapeByte(b)
  {
    EscapeBytesConcat(a, [b]);
    assert [b][1..] == [];
    assert EscapeBytes([b]) == EscapeByte(b) + EscapeBytes([]);
  }

  // ---- one undoes the other ----

  /** The character the printer writes for a code point. */
  function CharFor(cp: scalar): (c: Char)
    requires cp != 0
    ensures c.Valid() && c.Meaning() == cp
  {
    if cp in {0x22, 0x5c} then Short(cp)
    else if cp == 0x08 then Short(0x62)
    else if cp == 0x0c then Short(0x66)
    else if cp == 0x0a then Short(0x6e)
    else if cp == 0x0d then Short(0x72)
    else if cp == 0x09 then Short(0x74)
    else if cp < 0x20 then Unit(Hex4(0x30, 0x30, HexDigit(cp / 16), HexDigit(cp % 16)))
    else Plain(cp)
  }

  function CharsFor(cps: seq<scalar>): (cs: seq<Char>)
    requires 0 !in cps
    ensures |cs| == |cps|
  {
    if |cps| == 0 then [] else [CharFor(cps[0])] + CharsFor(cps[1..])
  }

  lemma {:induction false} CharsForMeaning(cps: seq<scalar>)
    requires 0 !in cps
    ensures ValidChars(CharsFor(cps)) && Meanings(CharsFor(cps)) == cps
    decreases |cps|
  {
    hide CharFor, Char.Valid, Char.Meaning;
    if |cps| > 0 {
      CharsForMeaning(cps[1..]);
      assert CharsFor(cps)[1..] == CharsFor(cps[1..]);
      assert cps == [cps[0]] + cps[1..];
    }
  }

  lemma EscapeAscii(b: byte)
    requires 0 < b < 0x80
    ensures EscapeByte(b) == CharFor(b).Text()
  {
  }

  lemma EscapeOne(cp: scalar)
    requires cp != 0
    ensures EscapeBytes(Encode(cp)) == CharFor(cp).Text()
  {
    hide EscapeByte, EscapeBytes;
    if cp < 0x80 {
      EscapeAscii(cp);
      HighBytesUnescaped([]);
      EscapeBytesSnoc([], cp);
      assert Encode(cp) == [] + [cp];
    } else {
      EncodeHigh(cp);
      HighBytesUnescaped(Encode(cp));
    }
  }

  lemma {:induction false} HighBytesUnescaped(e: bytes)
    requires forall k | 0 <= k < |e| :: e[k] >= 0x80
    ensures EscapeBytes(e) == e
    decreases |e|
  {
    if |e| > 0 {
      HighBytesUnescaped(e[1..]);
      assert EscapeByte(e[0]) == [e[0]];
    }
  }

  lemma {:induction false} EscapeAll(cps: seq<scalar>)
    requires 0 !in cps
    ensures EscapeBytes(EncodeAll(cps)) + [0x22] == CharsText(CharsFor(cps))
    decreases |cps|
  {
    hide CharFor, Char.Text, Encode, EscapeBytes;
    if |cps| > 0 {
      EscapeOne(cps[0]);
      EscapeAll(cps[1..]);
      EscapeBytesConcat(Encode(cps[0]), EncodeAll(cps[1..]));
      assert CharsFor(cps)[1..] == CharsFor(cps[1..]);
    } else {
      assert EscapeBytes([]) == [] by { HighBytesUnescaped([]); }
    }
  }

  /** Every NUL-free valid UTF-8 text, printed as a JSON string, is accepted as
      one string value and decodes to itself. */
  lemma PrintedStringRoundTrip(cps: seq<scalar>)
    requires 0 !in cps
    ensures var text := EncodeAll(cps);
            var json := Quote(text);
            var value := Span(0, |json|, String);
            Parse(json) == Some(value) && StringBytes(json, value) == Some(text)
  {
    hide Parse, StringBytes, CharsText, CharsFor, EscapeBytes, EncodeAll;
    var json, cs := Quote(EncodeAll(cps)), CharsFor(cps);
    CharsForMeaning(cps);
    EscapeAll(cps);
    assert json == StringText(cs) == Text(Str(cs));
    assert Spells(json, [], Str(cs), []);
    ParseAcceptsExactly(json);
    assert At(json, 0, json) by { AtSlice(json, 0, |json|); assert json[0..|json|] == json; }
    StringBytesAreMeanings(json, Span(0, |json|, String), cs);
  }
}
