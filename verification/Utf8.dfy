/** Unicode scalar values and their UTF-8 form (RFC 3629, section 3), with the
    reader and the writer of source/json_min.c checked against it. */
module Utf8 {
  import opened Bytes

  predicate Scalar(cp: int) {
    0 <= cp <= 0x10ffff && !(0xd800 <= cp <= 0xdfff)
  }

  function Encode(cp: int): (r: bytes)
    requires 0 <= cp <= 0x10ffff
    ensures 1 <= |r| <= 4
  {
    if cp < 0x80 then [cp]
    else if cp < 0x800 then [0xc0 + cp / 64, 0x80 + cp % 64]
    else if cp < 0x10000 then [0xe0 + cp / 4096, 0x80 + cp / 64 % 64, 0x80 + cp % 64]
    else [0xf0 + cp / 262144, 0x80 + cp / 4096 % 64, 0x80 + cp / 64 % 64, 0x80 + cp % 64]
  }

  /** Beyond ASCII every byte of an encoding has its top bit set. */
  lemma EncodeHigh(cp: int)
    requires 0x80 <= cp <= 0x10ffff
    ensures forall k | 0 <= k < |Encode(cp)| :: Encode(cp)[k] >= 0x80
  {
  }

  type scalar = cp: int | 0 <= cp <= 0x10ffff && !(0xd800 <= cp <= 0xdfff)

  function EncodeAll(cps: seq<scalar>): bytes {
    if |cps| == 0 then [] else Encode(cps[0]) + EncodeAll(cps[1..])
  }

  datatype Decoded = Decoded(cp: int, end: nat)

  predicate Continuation(b: byte) { 0x80 <= b < 0xc0 }

  /** The low six bits of a continuation byte. */
  function Low6(b: byte): int { b as int - 0x80 }

  /** How many continuation bytes a lead byte announces, the bits it carries
      and the least code point it may stand for. */
  function Lead(first: byte): Option<(nat, int, int)> {
    if 0xc2 <= first <= 0xdf then Some((1, first - 0xc0, 0x80))
    else if 0xe0 <= first <= 0xef then Some((2, first - 0xe0, 0x800))
    else if 0xf0 <= first <= 0xf4 then Some((3, first - 0xf0, 0x10000))
    else None
  }

  /** `acc` extended by `n` continuation bytes at `i`. */
  function Continue(s: bytes, i: nat, n: nat, acc: int): Option<int>
    requires i + n <= |s|
    decreases n
  {
    if n == 0 then Some(acc)
    else if !Continuation(s[i]) then None
    else Continue(s, i + 1, n - 1, acc * 64 + Low6(s[i]))
  }

  function Read(s: bytes, i: nat): (r: Option<Decoded>)
    requires i < |s|
    ensures r.Some? ==> i < r.value.end <= |s| && r.value.end <= i + 4
  {
    if s[i] < 0x80 then Some(Decoded(s[i], i + 1))
    else
      var (more, bits, minimum) :- Lead(s[i]);
      if i + 1 + more > |s| then None
      else
        var cp :- Continue(s, i + 1, more, bits);
        if cp < minimum || !Scalar(cp) then None
        else Some(Decoded(cp, i + 1 + more))
  }

  /** Six bits at a time: the arithmetic behind every continuation byte. */
  lemma Shift6(high: int, low: int)
    requires 0 <= high && 0 <= low < 64
    ensures (high * 64 + low) / 64 == high && (high * 64 + low) % 64 == low
  {
  }

  lemma Encode2(a: int, b: int)
    requires 0 <= a < 32 && 0 <= b < 64 && 0x80 <= a * 64 + b
    ensures Encode(a * 64 + b) == [0xc0 + a, 0x80 + b]
  {
    Shift6(a, b);
  }

  lemma Encode3(a: int, b: int, c: int)
    requires 0 <= a < 16 && 0 <= b < 64 && 0 <= c < 64 && 0x800 <= (a * 64 + b) * 64 + c
    ensures Encode((a * 64 + b) * 64 + c) == [0xe0 + a, 0x80 + b, 0x80 + c]
  {
    Shift6(a * 64 + b, c);
    Shift6(a, b);
    assert ((a * 64 + b) * 64 + c) / 4096 == a;
  }

  lemma Encode4(a: int, b: int, c: int, d: int)
    requires 0 <= a < 8 && 0 <= b < 64 && 0 <= c < 64 && 0 <= d < 64
    requires 0x10000 <= ((a * 64 + b) * 64 + c) * 64 + d <= 0x10ffff
    ensures Encode(((a * 64 + b) * 64 + c) * 64 + d) == [0xf0 + a, 0x80 + b, 0x80 + c, 0x80 + d]
  {
    var cp := ((a * 64 + b) * 64 + c) * 64 + d;
    Shift6((a * 64 + b) * 64 + c, d);
    Shift6(a * 64 + b, c);
    Shift6(a, b);
    assert cp / 4096 == a * 64 + b;
    assert cp / 262144 == a;
  }

  lemma Continue1(s: bytes, i: nat, acc: int)
    requires i < |s|
    ensures Continue(s, i, 1, acc) == if Continuation(s[i]) then Some(acc * 64 + Low6(s[i])) else None
  {
    assert Continuation(s[i]) ==> Continue(s, i + 1, 0, acc * 64 + Low6(s[i])) == Some(acc * 64 + Low6(s[i]));
  }

  lemma Continue2(s: bytes, i: nat, acc: int)
    requires i + 2 <= |s|
    ensures Continue(s, i, 2, acc) ==
            if Continuation(s[i]) && Continuation(s[i + 1])
            then Some((acc * 64 + Low6(s[i])) * 64 + Low6(s[i + 1])) else None
  {
    Continue1(s, i + 1, acc * 64 + Low6(s[i]));
  }

  lemma Continue3(s: bytes, i: nat, acc: int)
    requires i + 3 <= |s|
    ensures Continue(s, i, 3, acc) ==
            if Continuation(s[i]) && Continuation(s[i + 1]) && Continuation(s[i + 2])
            then Some(((acc * 64 + Low6(s[i])) * 64 + Low6(s[i + 1])) * 64 + Low6(s[i + 2])) else None
  {
    Continue2(s, i + 1, acc * 64 + Low6(s[i]));
  }

  /** The outcome of a read: a scalar value whose encoding was consumed. */
  ghost predicate Consumed(s: bytes, i: nat, d: Decoded) {
    Scalar(d.cp) && d.end == i + |Encode(d.cp)| && At(s, i, Encode(d.cp))
  }

  lemma ReadIsEncoded2(s: bytes, i: nat)
    requires i < |s| && 0xc2 <= s[i] <= 0xdf && Read(s, i).Some?
    ensures Consumed(s, i, Read(s, i).value)
  {
    Continue1(s, i + 1, s[i] - 0xc0);
    Encode2(s[i] - 0xc0, Low6(s[i + 1]));
    assert s[i..i + 2] == [s[i], s[i + 1]];
  }

  lemma ReadIsEncoded3(s: bytes, i: nat)
    requires i < |s| && 0xe0 <= s[i] <= 0xef && Read(s, i).Some?
    ensures Consumed(s, i, Read(s, i).value)
  {
    Continue2(s, i + 1, s[i] - 0xe0);
    Encode3(s[i] - 0xe0, Low6(s[i + 1]), Low6(s[i + 2]));
    assert s[i..i + 3] == [s[i], s[i + 1], s[i + 2]];
  }

  lemma ReadIsEncoded4(s: bytes, i: nat)
    requires i < |s| && 0xf0 <= s[i] <= 0xf4 && Read(s, i).Some?
    ensures Consumed(s, i, Read(s, i).value)
  {
    Continue3(s, i + 1, s[i] - 0xf0);
    Encode4(s[i] - 0xf0, Low6(s[i + 1]), Low6(s[i + 2]), Low6(s[i + 3]));
    assert s[i..i + 4] == [s[i], s[i + 1], s[i + 2], s[i + 3]];
  }

  /** What the reader returns is a scalar value whose encoding it consumed. */
  lemma ReadIsEncoded(s: bytes, i: nat)
    requires i < |s| && Read(s, i).Some?
    ensures Consumed(s, i, Read(s, i).value)
  {
    if s[i] < 0x80 {
      assert s[i..i + 1] == [s[i]];
    } else if s[i] <= 0xdf {
      ReadIsEncoded2(s, i);
    } else if s[i] <= 0xef {
      ReadIsEncoded3(s, i);
    } else {
      ReadIsEncoded4(s, i);
    }
  }

  /** The bits of a code point, six at a time. */
  lemma Bits(cp: int)
    requires 0 <= cp <= 0x10ffff
    ensures cp == cp / 64 * 64 + cp % 64
    ensures cp / 64 == cp / 4096 * 64 + cp / 64 % 64
    ensures cp / 4096 == cp / 262144 * 64 + cp / 4096 % 64
  {
    assert cp / 64 / 64 == cp / 4096;
    assert cp / 4096 / 64 == cp / 262144;
  }

  /** Every encoding of a scalar value is read back, whatever follows it. */
  lemma EncodedIsRead(s: bytes, i: nat, cp: int)
    requires Scalar(cp) && At(s, i, Encode(cp))
    ensures i < |s| && Read(s, i) == Some(Decoded(cp, i + |Encode(cp)|))
    ensures (s[i] < 0x80) == (cp < 0x80) && (cp < 0x80 ==> s[i] == cp)
  {
    var e := Encode(cp);
    forall k | 0 <= k < |e| ensures s[i + k] == e[k] {
      assert s[i + k] == s[i..i + |e|][k];
    }
    assert s[i] == s[i + 0] == e[0];
    Bits(cp);
    if cp < 0x80 {
    } else if cp < 0x800 {
      assert s[i + 1] == e[1];
      Continue1(s, i + 1, s[i] - 0xc0);
    } else if cp < 0x10000 {
      assert s[i + 1] == e[1] && s[i + 2] == e[2];
      Continue2(s, i + 1, s[i] - 0xe0);
    } else {
      assert s[i + 1] == e[1] && s[i + 2] == e[2] && s[i + 3] == e[3];
      Continue3(s, i + 1, s[i] - 0xf0);
    }
  }

  /** source/json_min.c `read_utf8`: the continuation loop. */
  method ReadUtf8(s: bytes, i: nat) returns (r: Option<Decoded>)
    requires i <= |s|
    ensures r == if i < |s| then Read(s, i) else None
  {
    if i >= |s| {
      return None;
    }
    var first := s[i];
    if first < 0x80 {
      return Some(Decoded(first, i + 1));
    }
    var lead := Lead(first);
    if lead == None {
      return None;
    }
    var (more, bits, minimum) := lead.value;
    if |s| - (i + 1) < more {
      return None;
    }
    var cp := bits;
    for k := 0 to more
      invariant Continue(s, i + 1, more, bits) == Continue(s, i + 1 + k, more - k, cp)
    {
      if !Continuation(s[i + 1 + k]) {
        return None;
      }
      cp := cp * 64 + Low6(s[i + 1 + k]);
    }
    if cp < minimum || !Scalar(cp) {
      return None;
    }
    return Some(Decoded(cp, i + 1 + more));
  }
}
