/** The JSON grammar of RFC 8259, sections 2 to 7, as concrete syntax trees:
    a text belongs to the language when it is the printed form of a
    well-formed tree. The three restrictions of source/json_min.h are part of
    well-formedness: no escaped U+0000, surrogate escapes only in pairs, and a
    bound on the nesting of containers (`Depth`). Nothing here scans. */
module JsonGrammar {
  import opened Bytes
  import opened Utf8

  // ---- white space (section 2) ----

  predicate IsSpace(b: byte) { b == 0x20 || b == 0x09 || b == 0x0a || b == 0x0d }

  ghost predicate Spaces(w: bytes) { forall k | 0 <= k < |w| :: IsSpace(w[k]) }

  // ---- numbers (section 6) ----

  predicate IsDigit(b: byte) { 0x30 <= b <= 0x39 }

  ghost predicate Digits(d: bytes) { |d| > 0 && forall k | 0 <= k < |d| :: IsDigit(d[k]) }

  datatype Exponent = Exponent(marker: byte, sign: bytes, digits: bytes)

  ghost predicate ValidExponent(e: Option<Exponent>) {
    e.Some? ==>
      && e.value.marker in {0x45, 0x65}
      && (e.value.sign == [] || e.value.sign == [0x2b] || e.value.sign == [0x2d])
      && Digits(e.value.digits)
  }

  function PowerText(e: Option<Exponent>): bytes {
    if e.None? then [] else [e.value.marker] + (e.value.sign + e.value.digits)
  }

  /** An empty `fraction` and `exponent.None?` stand for absent parts. */
  datatype Numeral = Numeral(minus: bool, integer: bytes, fraction: bytes, exponent: Option<Exponent>) {
    ghost predicate Valid() {
      && Digits(integer) && (integer[0] == 0x30 ==> |integer| == 1)
      && (fraction != [] ==> Digits(fraction))
      && ValidExponent(exponent)
    }

    function Sign(): bytes { if minus then [0x2d] else [] }
    function Fraction(): bytes { if fraction == [] then [] else [0x2e] + fraction }
    function Power(): bytes { PowerText(exponent) }
    function Text(): bytes { Sign() + (integer + (Fraction() + Power())) }
  }

  // ---- strings (section 7) ----

  function HexValue(b: byte): (v: int)
    ensures -1 <= v < 16
  {
    if 0x30 <= b <= 0x39 then b - 0x30
    else if 0x61 <= b <= 0x66 then b - 0x61 + 10
    else if 0x41 <= b <= 0x46 then b - 0x41 + 10
    else -1
  }

  datatype Hex4 = Hex4(a: byte, b: byte, c: byte, d: byte) {
    predicate Valid() {
      HexValue(a) >= 0 && HexValue(b) >= 0 && HexValue(c) >= 0 && HexValue(d) >= 0
    }
    function Value(): (v: int)
      ensures Valid() ==> 0 <= v < 0x10000
    {
      ((HexValue(a) * 16 + HexValue(b)) * 16 + HexValue(c)) * 16 + HexValue(d)
    }
    function Text(): bytes { [0x5c, 0x75, a, b, c, d] }
  }

  predicate HighSurrogate(u: int) { 0xd800 <= u <= 0xdbff }
  predicate LowSurrogate(u: int) { 0xdc00 <= u <= 0xdfff }

  /** The character a two-character escape stands for; None for any other letter. */
  function ShortEscape(e: byte): Option<byte> {
    match e
    case 0x22 => Some(0x22)   // "
    case 0x5c => Some(0x5c)   // \
    case 0x2f => Some(0x2f)   // /
    case 0x62 => Some(0x08)   // b
    case 0x66 => Some(0x0c)   // f
    case 0x6e => Some(0x0a)   // n
    case 0x72 => Some(0x0d)   // r
    case 0x74 => Some(0x09)   // t
    case _ => None
  }

  datatype Char =
    | Plain(cp: scalar)
    | Short(letter: byte)
    | Unit(hex: Hex4)
    | Pair(high: Hex4, low: Hex4)
  {
    predicate Valid() {
      match this
      case Plain(cp) => cp >= 0x20 && cp != 0x22 && cp != 0x5c
      case Short(e) => ShortEscape(e).Some?
      case Unit(h) => h.Valid() && h.Value() != 0 && Scalar(h.Value())
      case Pair(h, l) => h.Valid() && l.Valid() && HighSurrogate(h.Value()) && LowSurrogate(l.Value())
    }

    function Text(): bytes {
      match this
      case Plain(cp) => Encode(cp)
      case Short(e) => [0x5c, e]
      case Unit(h) => h.Text()
      case Pair(h, l) => h.Text() + l.Text()
    }

    /** The character meant. */
    function Meaning(): (cp: scalar)
      requires Valid()
      ensures this != Plain(0) && cp != 0
    {
      match this
      case Plain(cp) => cp
      case Short(e) => ShortEscape(e).value as int
      case Unit(h) => h.Value()
      case Pair(h, l) => 0x10000 + (h.Value() - 0xd800) * 1024 + (l.Value() - 0xdc00)
    }
  }

  ghost predicate ValidChars(cs: seq<Char>) { forall k | 0 <= k < |cs| :: cs[k].Valid() }

  /** The characters of a string and its closing quotation mark. */
  function CharsText(cs: seq<Char>): bytes {
    if |cs| == 0 then [0x22] else cs[0].Text() + CharsText(cs[1..])
  }

  function StringText(cs: seq<Char>): bytes { [0x22] + CharsText(cs) }

  ghost function Meanings(cs: seq<Char>): seq<scalar>
    requires ValidChars(cs)
  {
    if |cs| == 0 then [] else [cs[0].Meaning()] + Meanings(cs[1..])
  }

  // ---- values (sections 3 to 5) ----

  datatype Kind = Object | Array | String | Number | True | False | Null

  function Open(kind: Kind): byte { if kind == Object then 0x7b else 0x5b }
  function Close(kind: Kind): byte { if kind == Object then 0x7d else 0x5d }

  /** The name of an object member with the white space around its colon. */
  datatype Name = Name(chars: seq<Char>, before: bytes, after: bytes)

  datatype Value =
    | Word(word: Kind)
    | Num(numeral: Numeral)
    | Str(chars: seq<Char>)
    | Empty(kind: Kind, space: bytes)
    | Full(kind: Kind, items: Items)

  /** One element of an array or, when `name` is present, one member of an object. */
  datatype Item = Item(before: bytes, name: Option<Name>, value: Value, after: bytes)

  datatype Items = Last(item: Item) | More(item: Item, rest: Items)

  function WordText(kind: Kind): bytes {
    match kind
    case True => [0x74, 0x72, 0x75, 0x65]
    case False => [0x66, 0x61, 0x6c, 0x73, 0x65]
    case Null => [0x6e, 0x75, 0x6c, 0x6c]
    case _ => []
  }

  ghost predicate ValidName(n: Name) { ValidChars(n.chars) && Spaces(n.before) && Spaces(n.after) }

  ghost predicate ValidItem(it: Item, kind: Kind) {
    && Spaces(it.before) && Spaces(it.after) && Valid(it.value)
    && (kind == Object <==> it.name.Some?)
    && (it.name.Some? ==> ValidName(it.name.value))
  }

  ghost predicate ValidItems(its: Items, kind: Kind) {
    ValidItem(its.item, kind) && (its.More? ==> ValidItems(its.rest, kind))
  }

  ghost predicate Valid(v: Value) {
    match v
    case Word(k) => k in {True, False, Null}
    case Num(n) => n.Valid()
    case Str(cs) => ValidChars(cs)
    case Empty(k, w) => k in {Object, Array} && Spaces(w)
    case Full(k, its) => k in {Object, Array} && ValidItems(its, k)
  }

  function KindOf(v: Value): Kind {
    match v
    case Word(k) => k
    case Num(_) => Number
    case Str(_) => String
    case Empty(k, _) => k
    case Full(k, _) => k
  }

  function NameText(name: Option<Name>): bytes {
    if name.None? then []
    else StringText(name.value.chars) + (name.value.before + ([0x3a] + name.value.after))
  }

  function ItemText(it: Item): bytes {
    it.before + (NameText(it.name) + (Text(it.value) + it.after))
  }

  /** The items, the commas between them and the closing bracket. */
  function ItemsText(its: Items, kind: Kind): bytes {
    match its
    case Last(it) => ItemText(it) + [Close(kind)]
    case More(it, rest) => ItemText(it) + ([0x2c] + ItemsText(rest, kind))
  }

  function Text(v: Value): (r: bytes) {
    match v
    case Word(k) => WordText(k)
    case Num(n) => n.Text()
    case Str(cs) => StringText(cs)
    case Empty(k, w) => [Open(k)] + (w + [Close(k)])
    case Full(k, its) => [Open(k)] + ItemsText(its, k)
  }

  /** How many containers are nested at the deepest point. */
  function Depth(v: Value): nat {
    match v
    case Empty(_, _) => 1
    case Full(_, its) => 1 + ItemsDepth(its)
    case _ => 0
  }

  function ItemsDepth(its: Items): nat {
    match its
    case Last(it) => Depth(it.value)
    case More(it, rest) =>
      if Depth(it.value) > ItemsDepth(rest) then Depth(it.value) else ItemsDepth(rest)
  }

  const MAX_DEPTH: nat := 32

  /** The language: white space, one value nested at most 32 deep, white space. */
  ghost predicate Spells(text: bytes, before: bytes, v: Value, after: bytes) {
    && Spaces(before) && Valid(v) && Depth(v) <= MAX_DEPTH && Spaces(after)
    && text == before + (Text(v) + after)
  }

  ghost predicate JsonText(text: bytes) {
    exists before, v, after :: Spells(text, before, v, after)
  }

  // ---- items as a sequence ----

  function ItemSeq(its: Items): (r: seq<Item>)
    ensures |r| >= 1
  {
    match its
    case Last(it) => [it]
    case More(it, rest) => [it] + ItemSeq(rest)
  }

  function Children(v: Value): seq<Item> {
    if v.Full? then ItemSeq(v.items) else []
  }
}
