/** The scanner accepts exactly the grammar. Soundness builds the syntax tree
    of whatever was scanned; completeness shows that the printed form of any
    tree is scanned to its end in every context where it may stand. */
module JsonTheorems {
  import opened Bytes
  import opened Utf8
  import opened JsonGrammar
  import opened JsonScanner

  // ---- white space ----

  lemma {:induction false} SpaceSound(s: bytes, i: nat)
    requires i <= |s|
    ensures var j := SkipSpace(s, i);
            Spaces(s[i..j]) && At(s, i, s[i..j]) && (j < |s| ==> !IsSpace(s[j]))
    decreases |s| - i
  {
    var j := SkipSpace(s, i);
    if j > i {
      SpaceSound(s, i + 1);
      assert s[i..j] == [s[i]] + s[i + 1..j];
    }
  }

  lemma {:induction false} SpaceComplete(s: bytes, i: nat, w: bytes)
    requires Spaces(w) && At(s, i, w)
    requires i + |w| < |s| ==> !IsSpace(s[i + |w|])
    ensures SkipSpace(s, i) == i + |w|
    decreases |w|
  {
    if |w| > 0 {
      assert w[0] == s[i];
      assert w[1..] == s[i + 1..i + |w|];
      SpaceComplete(s, i + 1, w[1..]);
    }
  }

  // ---- strings ----

  lemma HexAt(s: bytes, i: nat, h: Hex4)
    requires 1 <= i && At(s, i - 1, h.Text())
    ensures i + 5 <= |s| && s[i - 1] == 0x5c && s[i] == 0x75
    ensures s[i + 1] == h.a && s[i + 2] == h.b && s[i + 3] == h.c && s[i + 4] == h.d
    ensures h.Valid() ==> ReadHex4(s, i + 1) == Some(h)
  {
    forall k | 0 <= k < 6 ensures s[i - 1 + k] == h.Text()[k] {
      assert s[i - 1 + k] == s[i - 1..i + 5][k];
    }
    assert s[i - 1 + 0] == 0x5c && s[i - 1 + 1] == 0x75 && s[i - 1 + 2] == h.a
        && s[i - 1 + 3] == h.b && s[i - 1 + 4] == h.c && s[i - 1 + 5] == h.d;
  }

  lemma HexText(s: bytes, i: nat)
    requires i >= 2 && ReadHex4(s, i).Some? && s[i - 2] == 0x5c && s[i - 1] == 0x75
    ensures At(s, i - 2, ReadHex4(s, i).value.Text())
  {
    assert s[i - 2..i + 4] == [s[i - 2], s[i - 1], s[i], s[i + 1], s[i + 2], s[i + 3]];
  }

  lemma EscapeSound(s: bytes, i: nat) returns (c: Char)
    requires 0 !in s && 1 <= i <= |s| && s[i - 1] == 0x5c && ScanEscape(s, i).Some?
    ensures c.Valid() && At(s, i - 1, c.Text()) && ScanEscape(s, i).value == i - 1 + |c.Text()|
  {
    if FoundInEscapes(s[i]) {
      assert s[i] in s;
      c := Short(s[i]);
      assert s[i - 1..i + 1] == [s[i - 1], s[i]];
    } else {
      var h := ReadHex4(s, i + 1).value;
      HexText(s, i + 1);
      if HighSurrogate(h.Value()) {
        var l := ReadHex4(s, i + 7).value;
        HexText(s, i + 7);
        AtConcat(s, i - 1, h.Text(), l.Text());
        c := Pair(h, l);
      } else {
        assert h.Value() < 0x10000;
        c := Unit(h);
      }
    }
  }

  lemma EscapeComplete(s: bytes, i: nat, c: Char)
    requires 1 <= i && c.Valid() && !c.Plain? && At(s, i - 1, c.Text())
    ensures i < |s| && s[i - 1] == 0x5c && ScanEscape(s, i) == Some(i - 1 + |c.Text()|)
  {
    match c
    case Short(e) =>
      assert s[i - 1..i + 1] == [s[i - 1], s[i]];
      assert s[i] == c.Text()[1];
    case Unit(h) =>
      HexAt(s, i, h);
    case Pair(h, l) =>
      AtConcat(s, i - 1, h.Text(), l.Text());
      HexAt(s, i, h);
      HexAt(s, i + 6, l);
  }

  lemma CharSound(s: bytes, i: nat) returns (c: Char)
    requires 0 !in s && i < |s| && s[i] != 0x22 && ScanChar(s, i).Some?
    ensures c.Valid() && At(s, i, c.Text()) && ScanChar(s, i).value == i + |c.Text()|
  {
    if s[i] >= 0x80 {
      ReadIsEncoded(s, i);
      c := Plain(Read(s, i).value.cp);
    } else if s[i] == 0x5c {
      c := EscapeSound(s, i + 1);
    } else {
      c := Plain(s[i]);
      assert s[i..i + 1] == [s[i]];
    }
  }

  lemma CharComplete(s: bytes, i: nat, c: Char)
    requires c.Valid() && At(s, i, c.Text())
    ensures i < |s| && s[i] != 0x22 && ScanChar(s, i) == Some(i + |c.Text()|)
  {
    if c.Plain? {
      EncodedIsRead(s, i, c.cp);
    } else {
      EscapeComplete(s, i + 1, c);
    }
  }

  lemma {:induction false} CharsSound(s: bytes, i: nat) returns (cs: seq<Char>)
    requires 0 !in s && i <= |s| && ScanChars(s, i).Some?
    ensures ValidChars(cs) && At(s, i, CharsText(cs)) && ScanChars(s, i).value == i + |CharsText(cs)|
    decreases |s| - i
  {
    hide At, ScanChar, Char.Text, Char.Valid;
    if s[i] == 0x22 {
      cs := [];
      AtByte(s, i, 0x22);
    } else {
      var c := CharSound(s, i);
      var rest := CharsSound(s, i + |c.Text()|);
      cs := [c] + rest;
      AtConcat(s, i, c.Text(), CharsText(rest));
    }
  }

  lemma {:induction false} CharsComplete(s: bytes, i: nat, cs: seq<Char>)
    requires ValidChars(cs) && At(s, i, CharsText(cs))
    ensures ScanChars(s, i) == Some(i + |CharsText(cs)|)
    decreases |cs|
  {
    hide At, ScanChar, Char.Text, Char.Valid;
    if |cs| == 0 {
      AtByte(s, i, 0x22);
    } else {
      AtConcat(s, i, cs[0].Text(), CharsText(cs[1..]));
      CharComplete(s, i, cs[0]);
      CharsComplete(s, i + |cs[0].Text()|, cs[1..]);
    }
  }

  lemma StringSound(s: bytes, i: nat) returns (cs: seq<Char>)
    requires 0 !in s && i <= |s| && ScanString(s, i).Some?
    ensures ValidChars(cs) && At(s, i, StringText(cs)) && ScanString(s, i).value == i + |StringText(cs)|
  {
    cs := CharsSound(s, i + 1);
    AtByte(s, i, 0x22);
    AtConcat(s, i, [0x22], CharsText(cs));
  }

  lemma StringComplete(s: bytes, i: nat, cs: seq<Char>)
    requires ValidChars(cs) && At(s, i, StringText(cs))
    ensures i < |s| && s[i] == 0x22 && ScanString(s, i) == Some(i + |StringText(cs)|)
  {
    AtConcat(s, i, [0x22], CharsText(cs));
    AtByte(s, i, 0x22);
    CharsComplete(s, i + 1, cs);
  }

  // ---- numbers ----

  lemma {:induction false} DigitsSound(s: bytes, i: nat)
    requires i < |s| && IsDigit(s[i])
    ensures var j := ScanDigits(s, i);
            i < j && Digits(s[i..j]) && At(s, i, s[i..j])
    decreases |s| - i
  {
    var j := ScanDigits(s, i);
    if i + 1 < |s| && IsDigit(s[i + 1]) {
      DigitsSound(s, i + 1);
      assert s[i..j] == [s[i]] + s[i + 1..j];
    } else {
      assert ScanDigits(s, i + 1) == i + 1;
    }
  }

  lemma {:induction false} DigitsComplete(s: bytes, i: nat, d: bytes)
    requires Digits(d) && At(s, i, d)
    requires i + |d| < |s| ==> !IsDigit(s[i + |d|])
    ensures i < |s| && s[i] == d[0] && ScanSomeDigits(s, i) == Some(i + |d|)
    decreases |d|
  {
    assert d[0] == s[i];
    if |d| > 1 {
      assert d[1..] == s[i + 1..i + |d|];
      DigitsComplete(s, i + 1, d[1..]);
    } else {
      assert ScanDigits(s, i + 1) == i + 1;
    }
  }

  lemma FractionSound(s: bytes, i: nat) returns (f: bytes)
    requires i <= |s| && ScanFraction(s, i).Some?
    ensures f != [] ==> Digits(f)
    ensures var t := if f == [] then [] else [0x2e] + f;
            At(s, i, t) && ScanFraction(s, i).value == i + |t|
  {
    if i < |s| && s[i] == 0x2e {
      DigitsSound(s, i + 1);
      f := s[i + 1..ScanDigits(s, i + 1)];
      AtByte(s, i, 0x2e);
      AtConcat(s, i, [0x2e], f);
    } else {
      f := [];
    }
  }

  lemma PowerSound(s: bytes, i: nat) returns (e: Option<Exponent>)
    requires i <= |s| && ScanPower(s, i).Some?
    ensures ValidExponent(e) && At(s, i, PowerText(e)) && ScanPower(s, i).value == i + |PowerText(e)|
  {
    hide At, ScanDigits, Digits;
    if i < |s| && s[i] in {0x45, 0x65} {
      var start := if i + 1 < |s| && s[i + 1] in {0x2b, 0x2d} then i + 2 else i + 1;
      DigitsSound(s, start);
      var x := Exponent(s[i], s[i + 1..start], s[start..ScanDigits(s, start)]);
      assert start == i + 2 ==> x.sign == [s[i + 1]];
      SignAt(s, i + 1, start);
      AtByte(s, i, s[i]);
      AtConcat(s, i + 1, x.sign, x.digits);
      AtConcat(s, i, [s[i]], x.sign + x.digits);
      e := Some(x);
    } else {
      AtEmpty(s, i);
      e := None;
    }
  }

  lemma SignAt(s: bytes, i: nat, j: nat)
    requires i <= j <= |s|
    ensures At(s, i, s[i..j])
  {
  }

  /** The integer part of a number, where its sign ends. */
  lemma IntegerSound(s: bytes, start: nat) returns (integer: bytes)
    requires start <= |s| && ScanInteger(s, start).Some?
    ensures Digits(integer) && (integer[0] == 0x30 ==> |integer| == 1)
    ensures At(s, start, integer) && ScanInteger(s, start).value == start + |integer|
  {
    hide At, ScanDigits;
    integer := s[start..ScanInteger(s, start).value];
    if s[start] == 0x30 {
      AtByte(s, start, 0x30);
      assert integer == [0x30];
    } else {
      DigitsSound(s, start);
    }
  }

  lemma NumberSound(s: bytes, i: nat) returns (n: Numeral)
    requires i <= |s| && ScanNumber(s, i).Some?
    ensures n.Valid() && At(s, i, n.Text()) && ScanNumber(s, i).value == i + |n.Text()|
  {
    hide At, ScanPower, PowerText, ValidExponent, ScanFraction, ScanInteger, Digits;
    var minus := i < |s| && s[i] == 0x2d;
    var start := if minus then i + 1 else i;
    var integer := IntegerSound(s, start);
    var j := start + |integer|;
    var fraction := FractionSound(s, j);
    var k := ScanFraction(s, j).value;
    var power := PowerSound(s, k);
    n := Numeral(minus, integer, fraction, power);
    NumeralAt(s, i, n);
  }

  /** A numeral stands where its parts stand one behind the other. */
  lemma NumeralAt(s: bytes, i: nat, n: Numeral)
    requires n.minus ==> i < |s| && s[i] == 0x2d
    requires At(s, i + |n.Sign()|, n.integer) && At(s, i + |n.Sign()| + |n.integer|, n.Fraction())
    requires At(s, i + |n.Sign()| + |n.integer| + |n.Fraction()|, n.Power())
    ensures At(s, i, n.Text()) && |n.Text()| == |n.Sign()| + |n.integer| + |n.Fraction()| + |n.Power()|
  {
    hide At, PowerText;
    var start := i + |n.Sign()|;
    if n.minus { AtByte(s, i, 0x2d); } else { AtFirst(s, i, n.integer); AtEmpty(s, i); }
    AtConcat(s, start + |n.integer|, n.Fraction(), n.Power());
    AtConcat(s, start, n.integer, n.Fraction() + n.Power());
    AtConcat(s, i, n.Sign(), n.integer + (n.Fraction() + n.Power()));
  }

  /** What may stand behind a value inside a text. */
  ghost predicate Follow(s: bytes, j: nat) {
    j >= |s| || IsSpace(s[j]) || s[j] in {0x2c, 0x5d, 0x7d}
  }

  lemma PowerComplete(s: bytes, i: nat, n: Numeral)
    requires n.Valid() && At(s, i, n.Power()) && Follow(s, i + |n.Power()|)
    ensures ScanPower(s, i) == Some(i + |n.Power()|)
    ensures i < |s| ==> !IsDigit(s[i]) && s[i] != 0x2e
  {
    if n.exponent.Some? { ExponentComplete(s, i, n.exponent.value); }
  }

  lemma ExponentComplete(s: bytes, i: nat, e: Exponent)
    requires ValidExponent(Some(e)) && At(s, i, PowerText(Some(e))) && Follow(s, i + |PowerText(Some(e))|)
    ensures ScanPower(s, i) == Some(i + |PowerText(Some(e))|)
    ensures i < |s| && s[i] == e.marker
  {
    hide At, ScanDigits, ScanSomeDigits;
    AtConcat(s, i, [e.marker], e.sign + e.digits);
    AtByte(s, i, e.marker);
    AtConcat(s, i + 1, e.sign, e.digits);
    DigitsComplete(s, i + 1 + |e.sign|, e.digits);
    if e.sign != [] {
      AtByte(s, i + 1, e.sign[0]);
    }
  }

  lemma FractionComplete(s: bytes, j: nat, n: Numeral)
    requires n.Valid() && At(s, j, n.Fraction() + n.Power()) && Follow(s, j + |n.Fraction()| + |n.Power()|)
    ensures ScanFraction(s, j) == Some(j + |n.Fraction()|)
    ensures ScanPower(s, j + |n.Fraction()|) == Some(j + |n.Fraction()| + |n.Power()|)
    ensures j < |s| ==> !IsDigit(s[j])
  {
    hide At, ScanPower, ScanDigits, PowerText, ValidExponent;
    AtConcat(s, j, n.Fraction(), n.Power());
    PowerComplete(s, j + |n.Fraction()|, n);
    if n.fraction != [] {
      AtConcat(s, j, [0x2e], n.fraction);
      AtByte(s, j, 0x2e);
      DigitsComplete(s, j + 1, n.fraction);
    }
  }

  lemma NumberComplete(s: bytes, i: nat, n: Numeral)
    requires n.Valid() && At(s, i, n.Text()) && Follow(s, i + |n.Text()|)
    ensures ScanNumber(s, i) == Some(i + |n.Text()|)
    ensures i < |s| && (s[i] == 0x2d || IsDigit(s[i]))
  {
    hide At, ScanPower, ScanDigits, PowerText, ValidExponent, ScanFraction;
    AtConcat(s, i, n.Sign(), n.integer + (n.Fraction() + n.Power()));
    var start := i + |n.Sign()|;
    AtConcat(s, start, n.integer, n.Fraction() + n.Power());
    var j := start + |n.integer|;
    FractionComplete(s, j, n);
    DigitsComplete(s, start, n.integer);
    if n.minus {
      AtByte(s, i, 0x2d);
    }
  }

  // ---- values: soundness ----

  ghost predicate ValueAt(s: bytes, i: nat, v: Value, depth: nat) {
    Valid(v) && Depth(v) + depth <= MAX_DEPTH && At(s, i, Text(v))
  }

  lemma {:induction false} ValueSound(s: bytes, i: nat, depth: nat) returns (v: Value)
    requires 0 !in s && i <= |s| && depth <= MAX_DEPTH && ScanValue(s, i, depth).Some?
    ensures var k := SkipSpace(s, i);
            && ValueAt(s, k, v, depth)
            && ScanValue(s, i, depth).value == Scanned(k + |Text(v)|, KindOf(v))
    decreases |s| - i, 1
  {
    var k := SkipSpace(s, i);
    if s[k] == 0x7b {
      v := ContainerSound(s, k, depth, Object);
    } else if s[k] == 0x5b {
      v := ContainerSound(s, k, depth, Array);
    } else if s[k] == 0x22 {
      var cs := StringSound(s, k);
      v := Str(cs);
    } else if s[k] == 0x74 {
      v := Word(True);
    } else if s[k] == 0x66 {
      v := Word(False);
    } else if s[k] == 0x6e {
      v := Word(Null);
    } else {
      var n := NumberSound(s, k);
      v := Num(n);
    }
  }

  lemma {:induction false} ContainerSound(s: bytes, i: nat, depth: nat, kind: Kind) returns (v: Value)
    requires 0 !in s && i <= |s| && kind in {Object, Array} && ScanContainer(s, i, depth, kind).Some?
    ensures ValueAt(s, i, v, depth)
    ensures ScanContainer(s, i, depth, kind).value == Scanned(i + |Text(v)|, KindOf(v))
    decreases |s| - i, 0
  {
    hide At, ScanItems, ItemsText, SkipSpace, ValidItems;
    var k := SkipSpace(s, i + 1);
    AtByte(s, i, Open(kind));
    if k < |s| && s[k] == Close(kind) {
      SpaceSound(s, i + 1);
      var w := s[i + 1..k];
      AtByte(s, k, Close(kind));
      AtConcat(s, i + 1, w, [Close(kind)]);
      AtConcat(s, i, [Open(kind)], w + [Close(kind)]);
      v := Empty(kind, w);
    } else {
      var its := ItemsSound(s, i + 1, depth, kind);
      AtConcat(s, i, [Open(kind)], ItemsText(its, kind));
      v := Full(kind, its);
    }
  }

  lemma NameSound(s: bytes, i: nat) returns (n: Name)
    requires 0 !in s && i <= |s| && ScanName(s, i).Some?
    ensures ValidName(n) && At(s, i, NameText(Some(n))) && ScanName(s, i).value == i + |NameText(Some(n))|
  {
    hide At, ScanString, SkipSpace, StringText, ValidChars, Spaces;
    var cs := StringSound(s, i);
    var j := ScanString(s, i).value;
    SpaceSound(s, j);
    var k := SkipSpace(s, j);
    SpaceSound(s, k + 1);
    var l := SkipSpace(s, k + 1);
    n := Name(cs, s[j..k], s[k + 1..l]);
    AtByte(s, k, 0x3a);
    AtConcat(s, k, [0x3a], n.after);
    AtConcat(s, j, n.before, [0x3a] + n.after);
    AtConcat(s, i, StringText(cs), n.before + ([0x3a] + n.after));
  }

  /** `start` is where the white space before the item begins. */
  lemma {:induction false} ItemSound(s: bytes, start: nat, depth: nat, kind: Kind) returns (it: Item)
    requires 0 !in s && start <= |s| && depth < MAX_DEPTH && kind in {Object, Array}
    requires ScanItem(s, SkipSpace(s, start), depth, kind).Some?
    ensures ValidItem(it, kind) && Depth(it.value) + depth + 1 <= MAX_DEPTH
    ensures At(s, start, ItemText(it))
    ensures ScanItem(s, SkipSpace(s, start), depth, kind).value == start + |ItemText(it)|
    decreases |s| - start, 2
  {
    hide At, ScanName, ScanValue, SkipSpace, Text, Valid, StringText;
    var i := SkipSpace(s, start);
    SpaceSound(s, start);
    var name: Option<Name>;
    var k: nat;
    if kind == Object {
      var n := NameSound(s, i);
      name, k := Some(n), ScanName(s, i).value;
      NameThenSpace(s, i);
    } else {
      name, k := None, i;
      SkipSpaceTwice(s, start);
      AtEmpty(s, i);
    }
    var v := ValueSound(s, k, depth + 1);
    var j := ScanValue(s, k, depth + 1).value.end;
    SpaceSound(s, j);
    it := Item(s[start..i], name, v, s[j..SkipSpace(s, j)]);
    AtConcat(s, k, Text(v), it.after);
    AtConcat(s, i, NameText(name), Text(v) + it.after);
    AtConcat(s, start, it.before, NameText(name) + (Text(v) + it.after));
  }

  lemma {:induction false} SkipSpaceTwice(s: bytes, i: nat)
    requires i <= |s|
    ensures SkipSpace(s, SkipSpace(s, i)) == SkipSpace(s, i)
  {
    SpaceSound(s, i);
  }

  lemma NameThenSpace(s: bytes, i: nat)
    requires i <= |s| && ScanName(s, i).Some?
    ensures SkipSpace(s, ScanName(s, i).value) == ScanName(s, i).value
  {
    SkipSpaceTwice(s, SkipSpace(s, ScanString(s, i).value) + 1);
  }

  lemma {:induction false} ItemsSound(s: bytes, start: nat, depth: nat, kind: Kind) returns (its: Items)
    requires 0 !in s && start <= |s| && depth < MAX_DEPTH && kind in {Object, Array}
    requires ScanItems(s, SkipSpace(s, start), depth, kind).Some?
    ensures ValidItems(its, kind) && ItemsDepth(its) + depth + 1 <= MAX_DEPTH
    ensures At(s, start, ItemsText(its, kind))
    ensures ScanItems(s, SkipSpace(s, start), depth, kind).value == start + |ItemsText(its, kind)|
    decreases |s| - start, 3
  {
    hide At, ScanItem, SkipSpace, ItemText;
    var it := ItemSound(s, start, depth, kind);
    var p := start + |ItemText(it)|;
    AtByte(s, p, s[p]);
    if s[p] == Close(kind) {
      its := Last(it);
      AtConcat(s, start, ItemText(it), [Close(kind)]);
    } else {
      var rest := ItemsSound(s, p + 1, depth, kind);
      its := More(it, rest);
      AtConcat(s, p, [0x2c], ItemsText(rest, kind));
      AtConcat(s, start, ItemText(it), [0x2c] + ItemsText(rest, kind));
    }
  }

  // ---- values: completeness ----

  lemma {:induction false} ValueComplete(s: bytes, i: nat, depth: nat, v: Value)
    requires ValueAt(s, i, v, depth) && Follow(s, i + |Text(v)|)
    ensures i < |s| && !IsSpace(s[i]) && s[i] !in {0x2c, 0x5d, 0x7d}
    ensures ScanValue(s, i, depth) == Some(Scanned(i + |Text(v)|, KindOf(v)))
    decreases v, 1
  {
    hide At, ScanContainer, ScanNumber, ScanString;
    match v
    case Word(k) =>
      AtFirst(s, i, Text(v));
    case Num(n) =>
      NumberComplete(s, i, n);
    case Str(cs) =>
      StringComplete(s, i, cs);
    case _ =>
      ContainerComplete(s, i, depth, v);
  }

  lemma {:induction false} ContainerComplete(s: bytes, i: nat, depth: nat, v: Value)
    requires ValueAt(s, i, v, depth) && (v.Empty? || v.Full?)
    ensures i < |s| && s[i] == Open(v.kind)
    ensures ScanContainer(s, i, depth, v.kind) == Some(Scanned(i + |Text(v)|, v.kind))
    decreases v, 0
  {
    hide At, ScanItems, ItemsText;
    match v
    case Empty(k, w) =>
      AtConcat(s, i, [Open(k)], w + [Close(k)]);
      AtByte(s, i, Open(k));
      AtConcat(s, i + 1, w, [Close(k)]);
      AtByte(s, i + 1 + |w|, Close(k));
      SpaceComplete(s, i + 1, w);
    case Full(k, its) =>
      AtConcat(s, i, [Open(k)], ItemsText(its, k));
      AtByte(s, i, Open(k));
      ItemsComplete(s, i + 1, depth, its, k);
  }

  /** White space and then a structural byte or the end may follow a value. */
  lemma SpaceFollows(s: bytes, j: nat, w: bytes)
    requires Spaces(w) && At(s, j, w)
    requires var p := j + |w|; p < |s| ==> s[p] in {0x2c, 0x5d, 0x7d}
    ensures Follow(s, j) && SkipSpace(s, j) == j + |w|
  {
    AtFirst(s, j, w);
    SpaceComplete(s, j, w);
  }

  lemma NameComplete(s: bytes, i: nat, n: Name)
    requires ValidName(n) && At(s, i, NameText(Some(n)))
    requires var j := i + |NameText(Some(n))|; j < |s| && !IsSpace(s[j])
    ensures ScanString(s, i) == Some(i + |StringText(n.chars)|)
    ensures ScanName(s, i) == Some(i + |NameText(Some(n))|) && i < |s| && s[i] == 0x22
  {
    hide At, ScanString, SkipSpace, StringText, ValidChars, Spaces;
    AtConcat(s, i, StringText(n.chars), n.before + ([0x3a] + n.after));
    StringComplete(s, i, n.chars);
    var j := i + |StringText(n.chars)|;
    AtConcat(s, j, n.before, [0x3a] + n.after);
    var k := j + |n.before|;
    AtConcat(s, k, [0x3a], n.after);
    AtByte(s, k, 0x3a);
    SpaceComplete(s, j, n.before);
    SpaceComplete(s, k + 1, n.after);
  }

  /** The parts of an item, where they stand, and what scanning each gives. */
  ghost predicate ItemScan(s: bytes, start: nat, depth: nat, it: Item, kind: Kind) {
    var i := start + |it.before|;
    var k := i + |NameText(it.name)|;
    var j := k + |Text(it.value)|;
    && start <= |s| && k <= |s| && j <= |s|
    && SkipSpace(s, start) == i < |s| && s[i] !in {0x5d, 0x7d}
    && ValueAt(s, k, it.value, depth + 1)
    && (it.name.Some? ==>
          && At(s, i, StringText(it.name.value.chars))
          && ScanString(s, i) == Some(i + |StringText(it.name.value.chars)|)
          && ScanName(s, i) == Some(k))
    && SkipSpace(s, k) == k
    && ScanValue(s, k, depth + 1) == Some(Scanned(j, KindOf(it.value)))
    && SkipSpace(s, j) == start + |ItemText(it)|
  }

  lemma {:induction false} ItemComplete(s: bytes, start: nat, depth: nat, it: Item, kind: Kind)
    requires ValidItem(it, kind) && Depth(it.value) + depth + 1 <= MAX_DEPTH
    requires At(s, start, ItemText(it))
    requires var p := start + |ItemText(it)|; p < |s| ==> s[p] in {0x2c, 0x5d, 0x7d}
    ensures ItemScan(s, start, depth, it, kind)
    ensures var i := SkipSpace(s, start); i < |s| && s[i] !in {0x5d, 0x7d}
    ensures ScanItem(s, SkipSpace(s, start), depth, kind) == Some(start + |ItemText(it)|)
    decreases it
  {
    hide At, ScanName, ScanString, ScanValue, SkipSpace, Text, StringText, Spaces, Depth, Follow;
    var i := start + |it.before|;
    var k := i + |NameText(it.name)|;
    var j := k + |Text(it.value)|;
    AtConcat(s, start, it.before, NameText(it.name) + (Text(it.value) + it.after));
    AtConcat(s, i, NameText(it.name), Text(it.value) + it.after);
    AtConcat(s, k, Text(it.value), it.after);
    SpaceFollows(s, j, it.after);
    ValueComplete(s, k, depth + 1, it.value);
    assert SkipSpace(s, k) == k by { SpaceComplete(s, k, []); }
    if it.name.Some? {
      NameComplete(s, i, it.name.value);
      AtConcat(s, i, StringText(it.name.value.chars), it.name.value.before + ([0x3a] + it.name.value.after));
    }
    SpaceComplete(s, start, it.before);
  }

  lemma {:induction false} ItemsComplete(s: bytes, start: nat, depth: nat, its: Items, kind: Kind)
    requires ValidItems(its, kind) && ItemsDepth(its) + depth + 1 <= MAX_DEPTH
    requires At(s, start, ItemsText(its, kind))
    ensures start < |s| && SkipSpace(s, start) < |s| && s[SkipSpace(s, start)] != Close(kind)
    ensures ScanItems(s, SkipSpace(s, start), depth, kind) == Some(start + |ItemsText(its, kind)|)
    decreases its
  {
    hide At, ScanItem, SkipSpace, ItemText, ItemScan, ValidItem;
    var it := its.item;
    var p := start + |ItemText(it)|;
    match its
    case Last(_) =>
      AtConcat(s, start, ItemText(it), [Close(kind)]);
      AtByte(s, p, Close(kind));
      ItemComplete(s, start, depth, it, kind);
    case More(_, rest) =>
      AtConcat(s, start, ItemText(it), [0x2c] + ItemsText(rest, kind));
      AtConcat(s, p, [0x2c], ItemsText(rest, kind));
      AtByte(s, p, 0x2c);
      ItemComplete(s, start, depth, it, kind);
      ItemsComplete(s, p + 1, depth, rest, kind);
  }

  // ---- whole texts ----

  /** A span that stands for a tree: where it is, how long, of which kind. */
  ghost predicate Denotes(json: bytes, span: Span, v: Value) {
    && ValueAt(json, span.start, v, 0)
    && span.length == |Text(v)| && span.kind == KindOf(v)
  }

  lemma ParseSound(json: bytes) returns (before: bytes, v: Value, after: bytes)
    requires Parse(json).Some?
    ensures Spells(json, before, v, after) && Parse(json).value.start == |before|
    ensures Denotes(json, Parse(json).value, v)
  {
    hide At, ScanValue, SkipSpace, Text, Valid, Depth, Spaces;
    var start := SkipSpace(json, 0);
    SpaceSound(json, 0);
    v := ValueSound(json, start, 0);
    SkipSpaceTwice(json, 0);
    var end := ScanValue(json, start, 0).value.end;
    SpaceSound(json, end);
    before, after := json[..start], json[end..];
    AtFirst(json, start, Text(v));
    AtIsSlice(json, start, Text(v));
    assert json[0..start] == before && json[end..|json|] == after;
    assert json == json[..start] + (json[start..end] + json[end..]);
  }

  lemma ParseComplete(json: bytes, before: bytes, v: Value, after: bytes)
    requires Spells(json, before, v, after)
    ensures 0 !in json ==> Parse(json) == Some(Span(|before|, |Text(v)|, KindOf(v)))
  {
    hide Text, Valid, Depth, ScanValue, SkipSpace, At;
    assert At(json, 0, before + (Text(v) + after)) by {
      AtSlice(json, 0, |json|);
      assert json[0..|json|] == json;
    }
    AtConcat(json, 0, before, Text(v) + after);
    AtConcat(json, |before|, Text(v), after);
    var j := |before| + |Text(v)|;
    assert Follow(json, j) by {
      AtFirst(json, j, after);
    }
    ValueComplete(json, |before|, 0, v);
    SpaceComplete(json, 0, before);
    SpaceComplete(json, j, after);
  }

  // ---- no text of the language holds a NUL byte ----

  lemma NulFreeConcat(a: bytes, b: bytes)
    ensures 0 in a + b <==> 0 in a || 0 in b
  {
  }

  lemma CharNulFree(c: Char)
    requires c.Valid()
    ensures 0 !in c.Text()
  {
    match c
    case Pair(h, l) => NulFreeConcat(h.Text(), l.Text());
    case _ =>
  }

  lemma {:induction false} CharsNulFree(cs: seq<Char>)
    requires ValidChars(cs)
    ensures 0 !in StringText(cs)
    decreases |cs|
  {
    hide Char.Text, Char.Valid;
    if |cs| > 0 {
      CharNulFree(cs[0]);
      CharsNulFree(cs[1..]);
      NulFreeConcat([0x22], CharsText(cs[1..]));
      NulFreeConcat(cs[0].Text(), CharsText(cs[1..]));
      NulFreeConcat([0x22], CharsText(cs));
    }
  }

  lemma SpacesNulFree(w: bytes)
    requires Spaces(w)
    ensures 0 !in w
  {
  }

  lemma NumberNulFree(n: Numeral)
    requires n.Valid()
    ensures 0 !in n.Text()
  {
    NulFreeConcat(n.Sign(), n.integer + (n.Fraction() + n.Power()));
    NulFreeConcat(n.integer, n.Fraction() + n.Power());
    NulFreeConcat(n.Fraction(), n.Power());
  }

  lemma {:induction false} ValueNulFree(v: Value)
    requires Valid(v)
    ensures 0 !in Text(v)
    decreases v
  {
    match v
    case Word(k) =>
    case Num(n) => NumberNulFree(n);
    case Str(cs) => CharsNulFree(cs);
    case Empty(k, w) =>
      SpacesNulFree(w);
    case Full(k, its) =>
      ItemsNulFree(its, k);
      NulFreeConcat([Open(k)], ItemsText(its, k));
  }

  lemma {:induction false} ItemNulFree(it: Item, kind: Kind)
    requires ValidItem(it, kind)
    ensures 0 !in ItemText(it)
    decreases it
  {
    hide StringText, Text;
    ValueNulFree(it.value);
    SpacesNulFree(it.before);
    SpacesNulFree(it.after);
    if it.name.Some? {
      var n := it.name.value;
      CharsNulFree(n.chars);
      SpacesNulFree(n.before);
      SpacesNulFree(n.after);
      NulFreeConcat([0x3a], n.after);
      NulFreeConcat(n.before, [0x3a] + n.after);
      NulFreeConcat(StringText(n.chars), n.before + ([0x3a] + n.after));
    }
    NulFreeConcat(Text(it.value), it.after);
    NulFreeConcat(NameText(it.name), Text(it.value) + it.after);
    NulFreeConcat(it.before, NameText(it.name) + (Text(it.value) + it.after));
  }

  lemma {:induction false} ItemsNulFree(its: Items, kind: Kind)
    requires ValidItems(its, kind)
    ensures 0 !in ItemsText(its, kind)
    decreases its
  {
    hide ItemText, ValidItem;
    ItemNulFree(its.item, kind);
    match its
    case Last(it) =>
      NulFreeConcat(ItemText(it), [Close(kind)]);
    case More(it, rest) =>
      ItemsNulFree(rest, kind);
      NulFreeConcat([0x2c], ItemsText(rest, kind));
      NulFreeConcat(ItemText(it), [0x2c] + ItemsText(rest, kind));
  }

  /** The parser accepts exactly the language, and returns the span of the value. */
  lemma ParseAcceptsExactly(json: bytes)
    ensures Parse(json).Some? <==> JsonText(json)
    ensures forall before, v, after :: Spells(json, before, v, after) ==>
              Parse(json) == Some(Span(|before|, |Text(v)|, KindOf(v)))
  {
    hide Text, Valid, Depth;
    if Parse(json).Some? {
      var before, v, after := ParseSound(json);
    }
    forall before, v, after | Spells(json, before, v, after)
      ensures Parse(json) == Some(Span(|before|, |Text(v)|, KindOf(v)))
    {
      ValueNulFree(v);
      SpacesNulFree(before);
      SpacesNulFree(after);
      NulFreeConcat(Text(v), after);
      NulFreeConcat(before, Text(v) + after);
      ParseComplete(json, before, v, after);
    }
  }
}
