/** Java strings over C strings (source/jni_fake.c lines 464 to 530 and 1958 to
    1991): UTF-16 units in and out, UTF-8 inside, modified UTF-8 for JNI. A C
    string is the bytes before its NUL. */
module JavaStrings {
  import opened Bytes
  import opened Utf8

  type unit = x: int | 0 <= x < 0x10000

  const REPLACEMENT: int := 0xfffd

  // ---- decoding arbitrary C strings ----

  /** Lead bytes as the decoder takes them: more than UTF-8 allows. */
  function WideLead(first: byte): Option<(nat, int)> {
    if 0xc0 <= first <= 0xdf then Some((1, first - 0xc0))
    else if 0xe0 <= first <= 0xef then Some((2, first - 0xe0))
    else if 0xf0 <= first <= 0xf7 then Some((3, first - 0xf0))
    else None
  }

  /** utf8_next: a sequence that is cut short costs one byte and is replaced. It
      never looks past the end of the text. */
  function Next(s: bytes, i: nat): (d: Decoded)
    requires i < |s|
    ensures i < d.end <= |s| && Scalar(d.cp)
  {
    if s[i] < 0x80 then Decoded(s[i], i + 1)
    else
      match WideLead(s[i])
      case None => Decoded(REPLACEMENT, i + 1)
      case Some((more, bits)) =>
        if i + 1 + more > |s| then Decoded(REPLACEMENT, i + 1)
        else
          match Continue(s, i + 1, more, bits)
          case None => Decoded(REPLACEMENT, i + 1)
          case Some(cp) => Decoded(if Scalar(cp) then cp else REPLACEMENT, i + 1 + more)
  }

  function UnitsOf(cp: int): (r: seq<unit>)
    requires Scalar(cp)
    ensures |r| == if cp >= 0x10000 then 2 else 1
  {
    if cp < 0x10000 then [cp] else [0xd800 + (cp - 0x10000) / 1024, 0xdc00 + (cp - 0x10000) % 1024]
  }

  /** What the string exposes as UTF-16. */
  function Decode(s: bytes, i: nat): seq<unit>
    requires i <= |s|
    decreases |s| - i
  {
    if i == |s| then [] else UnitsOf(Next(s, i).cp) + Decode(s, Next(s, i).end)
  }

  function Units(cps: seq<scalar>): seq<unit> {
    if cps == [] then [] else UnitsOf(cps[0]) + Units(cps[1..])
  }

  /** On proper UTF-8 the decoder reads scalar by scalar. */
  lemma NextOfEncoded(s: bytes, i: nat, cp: int)
    requires Scalar(cp) && At(s, i, Encode(cp))
    ensures i < |s| && Next(s, i) == Decoded(cp, i + |Encode(cp)|)
  {
    hide Encode, At;
    EncodedIsRead(s, i, cp);
    ReadIsNext(s, i);
  }

  lemma ReadIsNext(s: bytes, i: nat)
    requires i < |s| && Read(s, i).Some?
    ensures Next(s, i) == Read(s, i).value
  {
  }

  lemma {:induction false} DecodeEncoded(s: bytes, i: nat, cps: seq<scalar>)
    requires i <= |s| && s[i..] == EncodeAll(cps)
    ensures Decode(s, i) == Units(cps)
    decreases |cps|
  {
    hide Next, Encode, UnitsOf;
    if cps != [] {
      var e, rest := Encode(cps[0]), EncodeAll(cps[1..]);
      assert s[i..] == e + rest;
      assert s[i..][..|e|] == e;
      assert s[i..i + |e|] == s[i..][..|e|];
      NextOfEncoded(s, i, cps[0]);
      assert s[i + |e|..] == s[i..][|e|..] == rest;
      DecodeEncoded(s, i + |e|, cps[1..]);
    }
  }

  // ---- UTF-16 in ----

  predicate High(u: unit) { 0xd800 <= u <= 0xdbff }

  predicate Low(u: unit) { 0xdc00 <= u <= 0xdfff }

  function Combine(h: unit, l: unit): (cp: int)
    requires High(h) && Low(l)
    ensures Scalar(cp) && cp >= 0x10000 && UnitsOf(cp) == [h, l]
  {
    var cp := 0x10000 + ((h - 0xd800) * 1024 + (l - 0xdc00));
    assert (cp - 0x10000) / 1024 == h - 0xd800 && (cp - 0x10000) % 1024 == l - 0xdc00;
    cp
  }

  /** One turn of NewString's loop: a pair joins, any other surrogate is
      replaced. The end is where the next turn starts. */
  function Step(u: seq<unit>, i: nat): (d: Decoded)
    requires i < |u|
    ensures i < d.end <= |u| && Scalar(d.cp)
  {
    if High(u[i]) && i + 1 < |u| && Low(u[i + 1]) then Decoded(Combine(u[i], u[i + 1]), i + 2)
    else if High(u[i]) || Low(u[i]) then Decoded(REPLACEMENT, i + 1)
    else Decoded(u[i], i + 1)
  }

  function Scalars(u: seq<unit>, i: nat): seq<scalar>
    requires i <= |u|
    decreases |u| - i
  {
    if i == |u| then [] else [Step(u, i).cp] + Scalars(u, Step(u, i).end)
  }

  /** A surrogate without its other half beside it. */
  predicate Unpaired(u: seq<unit>, k: nat)
    requires k < |u|
  {
    || (High(u[k]) && !(k + 1 < |u| && Low(u[k + 1])))
    || (Low(u[k]) && !(k > 0 && High(u[k - 1])))
  }

  function Replaced(u: seq<unit>): (r: seq<unit>)
    ensures |r| == |u|
    ensures forall k | 0 <= k < |u| :: r[k] == if Unpaired(u, k) then REPLACEMENT else u[k]
  {
    seq(|u|, k requires 0 <= k < |u| => if Unpaired(u, k) then REPLACEMENT else u[k])
  }

  /** Reading and writing out again replaces the unpaired surrogates and nothing
      else; `i` is not the middle of a pair. */
  lemma {:induction false} UnitsOfScalars(u: seq<unit>, i: nat)
    requires i <= |u| && !(0 < i < |u| && High(u[i - 1]) && Low(u[i]))
    ensures Units(Scalars(u, i)) == Replaced(u)[i..]
    decreases |u| - i
  {
    hide Units, UnitsOf, Replaced, Unpaired, Step;
    if i == |u| {
      UnitsNone();
    } else {
      var d := Step(u, i);
      StepReplaces(u, i);
      UnitsOfScalars(u, d.end);
      UnitsFirst(d.cp, Scalars(u, d.end));
    }
  }

  /** One turn: a pair stands, and anything else is one unit, replaced if need be. */
  lemma StepReplaces(u: seq<unit>, i: nat)
    requires i < |u| && !(0 < i && High(u[i - 1]) && Low(u[i]))
    ensures var d := Step(u, i);
            && !(d.end < |u| && High(u[d.end - 1]) && Low(u[d.end]))
            && Replaced(u)[i..] == UnitsOf(d.cp) + Replaced(u)[d.end..]
  {
    hide UnitsOf, Replaced;
    var d, r := Step(u, i), Replaced(u);
    if d.end == i + 2 {
      assert r[i..] == [r[i], r[i + 1]] + r[i + 2..];
    } else {
      SmallUnits(d.cp);
      assert r[i..] == [r[i]] + r[i + 1..];
    }
  }

  lemma UnitsNone()
    ensures Units([]) == []
  {
  }

  lemma SmallUnits(cp: int)
    requires Scalar(cp) && cp < 0x10000
    ensures UnitsOf(cp) == [cp]
  {
  }

  lemma UnitsFirst(cp: scalar, rest: seq<scalar>)
    ensures Units([cp] + rest) == UnitsOf(cp) + Units(rest)
  {
    assert ([cp] + rest)[1..] == rest;
  }

  // ---- the NUL ----

  /** The part before the first zero. */
  function BeforeZero(s: seq<int>): (r: seq<int>)
    ensures |r| <= |s| && r == s[..|r|] && 0 !in r && (|r| < |s| ==> s[|r|] == 0)
  {
    if s == [] || s[0] == 0 then []
    else
      assert s == [s[0]] + s[1..];
      [s[0]] + BeforeZero(s[1..])
  }

  lemma BeforeZeroIs(s: seq<int>, n: nat)
    requires n <= |s| && 0 !in s[..n] && (n < |s| ==> s[n] == 0)
    ensures BeforeZero(s) == s[..n]
  {
    var m := |BeforeZero(s)|;
    assert forall k | 0 <= k < n :: s[k] == s[..n][k] && s[k] != 0;
    assert forall k | 0 <= k < m :: s[k] == s[..m][k] && s[k] != 0;
  }

  lemma {:induction false} EncodeAllConcat(a: seq<scalar>, b: seq<scalar>)
    ensures EncodeAll(a + b) == EncodeAll(a) + EncodeAll(b)
    decreases |a|
  {
    hide Encode;
    if a == [] {
      assert a + b == b;
    } else {
      assert (a + b)[1..] == a[1..] + b;
      EncodeAllConcat(a[1..], b);
    }
  }

  lemma {:induction false} NoZeroInside(cps: seq<scalar>)
    requires 0 !in cps
    ensures 0 !in EncodeAll(cps)
    decreases |cps|
  {
    if cps != [] {
      assert cps[0] in cps;
      if cps[0] >= 0x80 { EncodeHigh(cps[0]); }
      NoZeroInside(cps[1..]);
    }
  }

  /** Cutting the UTF-8 at its first zero byte cuts the text at its first U+0000. */
  lemma CutEncoded(cps: seq<scalar>, n: nat)
    requires n <= |cps| && 0 !in cps[..n] && (n < |cps| ==> cps[n] == 0)
    ensures BeforeZero(EncodeAll(cps)) == EncodeAll(cps[..n])
  {
    hide EncodeAll;
    var kept := EncodeAll(cps[..n]);
    NoZeroInside(cps[..n]);
    assert cps == cps[..n] + cps[n..];
    EncodeAllConcat(cps[..n], cps[n..]);
    if n < |cps| { ZeroFirst(cps[n..]); }
    else { EncodeNone(); assert cps[n..] == []; }
    assert EncodeAll(cps)[..|kept|] == kept;
    BeforeZeroIs(EncodeAll(cps), |kept|);
  }

  lemma EncodeNone()
    ensures EncodeAll([]) == []
  {
  }

  lemma ZeroFirst(cps: seq<scalar>)
    requires cps != [] && cps[0] == 0
    ensures EncodeAll(cps) != [] && EncodeAll(cps)[0] == 0
  {
  }

  /** Cutting the units at the first zero cuts what is read from them there. */
  lemma {:induction false} CutScalars(u: seq<unit>, z: nat, i: nat) returns (tail: seq<scalar>)
    requires i <= z <= |u| && 0 !in u[i..z] && (z < |u| ==> u[z] == 0)
    ensures Scalars(u, i) == Scalars(u[..z], i) + tail && (tail == [] || tail[0] == 0)
    ensures 0 !in Scalars(u[..z], i)
    decreases z - i
  {
    hide Step;
    if i == z {
      tail := Scalars(u, i);
      if z < |u| { StepZero(u, z); }
    } else {
      StepCut(u, z, i);
      var j := Step(u, i).end;
      assert 0 !in u[j..z] by { assert u[i..z][j - i..] == u[j..z]; }
      tail := CutScalars(u, z, j);
    }
  }

  lemma StepZero(u: seq<unit>, i: nat)
    requires i < |u| && u[i] == 0
    ensures Step(u, i) == Decoded(0, i + 1)
  {
  }

  lemma StepCut(u: seq<unit>, z: nat, i: nat)
    requires i < z <= |u| && 0 !in u[i..z] && (z < |u| ==> u[z] == 0)
    ensures Step(u[..z], i) == Step(u, i) && Step(u, i).end <= z && Step(u, i).cp != 0
  {
    assert u[i] in u[i..z];
  }

  /** The bytes NewString keeps: its UTF-8, up to the first zero byte. */
  function NewString(u: seq<unit>): bytes {
    BeforeZero(EncodeAll(Scalars(u, 0)))
  }

  /** A string made from UTF-16 reads back as the units before the first zero,
      with exactly the unpaired surrogates replaced. */
  lemma NewStringReadsBack(u: seq<unit>)
    ensures Decode(NewString(u), 0) == Replaced(BeforeZero(u))
  {
    hide Decode, Scalars, EncodeAll, Units;
    var z := |BeforeZero(u)|;
    var tail := CutScalars(u, z, 0);
    var cps := Scalars(u, 0);
    var n := |Scalars(u[..z], 0)|;
    assert cps[..n] == Scalars(u[..z], 0) && cps[n..] == tail;
    CutEncoded(cps, n);
    var s := NewString(u);
    assert s[0..] == s;
    DecodeEncoded(s, 0, cps[..n]);
    UnitsOfScalars(u[..z], 0);
    assert Replaced(u[..z])[0..] == Replaced(u[..z]);
  }

  /** The round trip is the identity exactly on well-formed UTF-16 without NUL. */
  lemma RoundTripExactly(u: seq<unit>)
    ensures Decode(NewString(u), 0) == u <==> 0 !in u && forall k | 0 <= k < |u| :: !Unpaired(u, k)
  {
    NewStringReadsBack(u);
    hide NewString, Decode;
    var cut := BeforeZero(u);
    if 0 !in u {
      assert cut == u;
    } else {
      assert u[..|u|] == u && cut != u;
    }
  }

  // ---- modified UTF-8 ----

  function ModifiedUnit(u: unit): (r: bytes)
    ensures |r| == UnitSize(u) && 0 !in r
  {
    if 0 < u < 0x80 then [u]
    else if u < 0x800 then [0xc0 + u / 64, 0x80 + u % 64]
    else [0xe0 + u / 4096, 0x80 + u / 64 % 64, 0x80 + u % 64]
  }

  /** mutf8_unit_size. */
  function UnitSize(u: unit): nat {
    if u == 0 then 2 else if u < 0x80 then 1 else if u < 0x800 then 2 else 3
  }

  function Modified(us: seq<unit>): bytes {
    if us == [] then [] else Modified(us[..|us| - 1]) + ModifiedUnit(us[|us| - 1])
  }

  function ModifiedSize(us: seq<unit>): nat {
    if us == [] then 0 else ModifiedSize(us[..|us| - 1]) + UnitSize(us[|us| - 1])
  }

  /** The size computed first is the size written, and there is no NUL inside. */
  lemma {:induction false} ModifiedFits(us: seq<unit>)
    ensures |Modified(us)| == ModifiedSize(us) && 0 !in Modified(us)
    decreases |us|
  {
    if us != [] { ModifiedFits(us[..|us| - 1]); }
  }

  /** The value of an encoding, and what its bytes look like. */
  lemma UnitValue(u: unit)
    ensures var m := ModifiedUnit(u);
            match |m|
            case 1 => m[0] == u && m[0] < 0x80
            case 2 => u == (m[0] as int - 0xc0) * 64 + Low6(m[1]) && m[0] >= 0xc0 && 0x80 <= m[1] < 0xc0
            case 3 => u == ((m[0] as int - 0xe0) * 64 + Low6(m[1])) * 64 + Low6(m[2]) && 0x80 <= m[1] < 0xc0
              && 0x80 <= m[2] < 0xc0
            case _ => false
  {
    assert u / 64 / 64 == u / 4096;
  }

  /** It is the shortest form, but for NUL: one byte exactly for 1 to 0x7f, three
      exactly from 0x800 on, and for a unit that is no surrogate its UTF-8. */
  lemma ShortestForm(u: unit)
    ensures |ModifiedUnit(u)| == 1 <==> 1 <= u <= 0x7f
    ensures |ModifiedUnit(u)| == 2 <==> u == 0 || 0x80 <= u <= 0x7ff
    ensures |ModifiedUnit(u)| == 3 <==> 0x800 <= u
    ensures u != 0 && !High(u) && !Low(u) ==> ModifiedUnit(u) == Encode(u)
    ensures ModifiedUnit(0) == [0xc0, 0x80]
  {
  }

  /** The last bytes of an encoding say which unit they are. */
  lemma LastUnit(x: bytes, y: bytes, a: unit, b: unit)
    requires x + ModifiedUnit(a) == y + ModifiedUnit(b)
    ensures a == b && x == y
  {
    hide ModifiedUnit, UnitSize;
    UnitValue(a);
    UnitValue(b);
    SameEnd(x, y, ModifiedUnit(a), ModifiedUnit(b));
  }

  /** How many bytes an encoding has, from its last two bytes. */
  predicate Shaped(m: bytes) {
    match |m|
    case 1 => m[0] < 0x80
    case 2 => m[0] >= 0xc0 && m[1] >= 0x80
    case 3 => 0x80 <= m[1] < 0xc0 && m[2] >= 0x80
    case _ => false
  }

  lemma SameEnd(x: bytes, y: bytes, m: bytes, n: bytes)
    requires x + m == y + n && Shaped(m) && Shaped(n)
    ensures m == n && x == y
  {
    var s := x + m;
    assert s[|s| - 1] == m[|m| - 1] == n[|n| - 1];
    if |m| >= 2 && |n| >= 2 {
      assert s[|s| - 2] == m[|m| - 2] == n[|n| - 2];
    }
    assert |m| == |n|;
    assert x == s[..|x|] == y && m == s[|x|..] == n;
  }

  /** Different UTF-16 has different modified UTF-8. */
  lemma {:induction false} ModifiedIsInjective(us: seq<unit>, vs: seq<unit>)
    requires Modified(us) == Modified(vs)
    ensures us == vs
    decreases |us|
  {
    hide ModifiedUnit;
    if us == [] || vs == [] {
      ModifiedEmpty(us);
      ModifiedEmpty(vs);
    } else {
      var m, n := |us| - 1, |vs| - 1;
      LastUnit(Modified(us[..m]), Modified(vs[..n]), us[m], vs[n]);
      ModifiedIsInjective(us[..m], vs[..n]);
      assert us == us[..m] + [us[m]] && vs == vs[..n] + [vs[n]];
    }
  }

  lemma ModifiedEmpty(us: seq<unit>)
    ensures Modified(us) == [] <==> us == []
  {
    if us != [] { assert |ModifiedUnit(us[|us| - 1])| > 0; }
  }

  lemma ModifiedAppend(us: seq<unit>, n: nat)
    requires n < |us|
    ensures Modified(us[..n + 1]) == Modified(us[..n]) + ModifiedUnit(us[n])
    ensures ModifiedSize(us[..n + 1]) == ModifiedSize(us[..n]) + UnitSize(us[n])
  {
    assert us[..n + 1][..n] == us[..n];
  }

  lemma {:induction false} SizeMonotone(us: seq<unit>, n: nat)
    requires n <= |us|
    ensures ModifiedSize(us[..n]) <= ModifiedSize(us)
    decreases |us|
  {
    var m := |us| - 1;
    if n < |us| {
      assert us[..m][..n] == us[..n];
      SizeMonotone(us[..m], n);
    } else {
      assert us[..n] == us;
    }
  }

  // ---- the loops ----

  /** utf16_len: how many units the string exposes. */
  method Utf16Length(s: bytes) returns (n: nat)
    ensures n == |Decode(s, 0)|
  {
    n := 0;
    var p := 0;
    while p < |s|
      invariant p <= |s| && n + |Decode(s, p)| == |Decode(s, 0)|
      decreases |s| - p
    {
      var d := Next(s, p);
      n := n + (if d.cp >= 0x10000 then 2 else 1);
      p := d.end;
    }
  }

  /** jni_utf8_to_utf16 into a buffer that holds what utf16_len counted. */
  method Utf8ToUtf16(s: bytes, out: array<unit>) returns (n: nat)
    requires |Decode(s, 0)| <= out.Length
    modifies out
    ensures n == |Decode(s, 0)| && out[..n] == Decode(s, 0)
  {
    hide Next, UnitsOf;
    n := 0;
    var p := 0;
    while p < |s|
      invariant p <= |s| && n <= out.Length && out[..n] + Decode(s, p) == Decode(s, 0)
      decreases |s| - p
    {
      var d := Next(s, p);
      ghost var before, rest := out[..n], Decode(s, d.end);
      assert before + (UnitsOf(d.cp) + rest) == (before + UnitsOf(d.cp)) + rest;
      assert |before| + |UnitsOf(d.cp)| + |rest| == |Decode(s, 0)|;
      WriteUnits(out, n, d.cp);
      n := n + (if d.cp >= 0x10000 then 2 else 1);
      assert out[..n] == before + UnitsOf(d.cp);
      p := d.end;
    }
    assert Decode(s, p) == [];
  }

  method WriteUnits(out: array<unit>, n: nat, cp: int)
    requires Scalar(cp) && n + |UnitsOf(cp)| <= out.Length
    modifies out
    ensures out[..n] == old(out[..n]) && out[n..n + |UnitsOf(cp)|] == UnitsOf(cp)
    ensures out[..n + |UnitsOf(cp)|] == old(out[..n]) + UnitsOf(cp)
  {
    if cp < 0x10000 {
      out[n] := cp;
    } else {
      var rest := cp - 0x10000;
      out[n], out[n + 1] := 0xd800 + rest / 1024, 0xdc00 + rest % 1024;
    }
    assert out[n..n + |UnitsOf(cp)|] == UnitsOf(cp);
    assert out[..n + |UnitsOf(cp)|] == out[..n] + out[n..n + |UnitsOf(cp)|];
  }

  /** utf16_to_mutf8: sizes first, then the bytes and a NUL. */
  method Utf16ToModified(u: seq<unit>) returns (out: array<byte>, length: nat)
    ensures fresh(out) && out.Length == length + 1 && out[..length] == Modified(u) && out[length] == 0
  {
    hide ModifiedUnit, UnitSize;
    var n := 0;
    for i := 0 to |u|
      invariant n == ModifiedSize(u[..i])
    {
      ModifiedAppend(u, i);
      n := n + UnitSize(u[i]);
    }
    assert u[..|u|] == u;
    out := new byte[n + 1](_ => 0);
    length := 0;
    for i := 0 to |u|
      invariant length == ModifiedSize(u[..i]) <= n && out[..length] == Modified(u[..i]) && fresh(out)
    {
      ModifiedAppend(u, i);
      SizeMonotone(u, i + 1);
      CopyInto(out, length, ModifiedUnit(u[i]));
      length := length + |ModifiedUnit(u[i])|;
    }
    ModifiedFits(u);
    out[length] := 0;
  }

  /** j_NewString's loop, into a buffer of four bytes a unit and one for the NUL. */
  method WriteUtf8(u: seq<unit>) returns (out: array<byte>, length: nat)
    ensures fresh(out) && length < out.Length && out[..length] == EncodeAll(Scalars(u, 0)) && out[length] == 0
  {
    hide Encode, Step;
    out := new byte[|u| * 4 + 1](_ => 0);
    length := 0;
    var i := 0;
    while i < |u|
      invariant i <= |u| && length <= i * 4 && fresh(out)
      invariant out[..length] + EncodeAll(Scalars(u, i)) == EncodeAll(Scalars(u, 0))
      decreases |u| - i
    {
      var d := Step(u, i);
      ghost var before, rest := out[..length], EncodeAll(Scalars(u, d.end));
      EncodeFirst(d.cp, Scalars(u, d.end));
      CopyInto(out, length, Encode(d.cp));
      assert before + (Encode(d.cp) + rest) == (before + Encode(d.cp)) + rest;
      length := length + |Encode(d.cp)|;
      i := d.end;
    }
    out[length] := 0;
  }

  lemma EncodeFirst(cp: scalar, rest: seq<scalar>)
    ensures EncodeAll([cp] + rest) == Encode(cp) + EncodeAll(rest)
  {
    assert ([cp] + rest)[1..] == rest;
  }
}
