/** Bytes, byte strings and the small vocabulary every other module shares. */
module Bytes {

  type byte = x: int | 0 <= x < 256
  type bytes = seq<byte>

  datatype Option<+T> = None | Some(value: T) {
    predicate IsFailure() { None? }
    function PropagateFailure<U>(): Option<U>
      requires None?
    {
      None
    }
    function Extract(): T
      requires Some?
    {
      value
    }
  }

  /** `part` occurs in `s` at index `i`. */
  predicate At(s: bytes, i: nat, part: bytes) {
    i + |part| <= |s| && s[i..i + |part|] == part
  }

  /** A concatenation occurs where its two halves occur one after the other. */
  lemma AtConcat(s: bytes, i: nat, a: bytes, b: bytes)
    ensures At(s, i, a + b) <==> At(s, i, a) && At(s, i + |a|, b)
  {
    if At(s, i, a + b) {
      assert s[i..i + |a|] == s[i..i + |a + b|][..|a|] == (a + b)[..|a|] == a;
      assert s[i + |a|..i + |a| + |b|] == s[i..i + |a + b|][|a|..] == (a + b)[|a|..] == b;
    }
    if At(s, i, a) && At(s, i + |a|, b) {
      assert s[i..i + |a + b|] == s[i..i + |a|] + s[i + |a|..i + |a| + |b|];
    }
  }

  /** Occurrences below a bound do not depend on what follows the bound. */
  lemma AtBounded(s: bytes, end: nat, i: nat, part: bytes)
    requires end <= |s|
    ensures At(s[..end], i, part) <==> At(s, i, part) && i + |part| <= end
  {
    if i + |part| <= end {
      assert s[..end][i..i + |part|] == s[i..i + |part|];
    }
  }

  lemma AtFirst(s: bytes, i: nat, part: bytes)
    requires At(s, i, part)
    ensures i + |part| <= |s| && (part != [] ==> i < |s| && s[i] == part[0])
  {
    if |part| > 0 {
      assert s[i] == s[i..i + |part|][0];
    }
  }

  lemma AtEmpty(s: bytes, i: nat)
    ensures At(s, i, []) <==> i <= |s|
  {
  }

  lemma AtSlice(s: bytes, i: nat, j: nat)
    requires i <= j <= |s|
    ensures At(s, i, s[i..j])
  {
  }

  lemma AtIsSlice(s: bytes, i: nat, part: bytes)
    requires At(s, i, part)
    ensures i + |part| <= |s| && s[i..i + |part|] == part
  {
  }

  lemma AtByte(s: bytes, i: nat, b: byte)
    ensures At(s, i, [b]) <==> i < |s| && s[i] == b
  {
    if i < |s| {
      assert s[i..i + 1] == [s[i]];
    }
  }

  lemma SliceOfSlice(s: bytes, a: nat, b: nat, i: nat, j: nat)
    requires a <= b <= |s| && i <= j <= b - a
    ensures s[a..b][i..j] == s[a + i..a + j]
  {
    forall k | 0 <= k < j - i ensures s[a..b][i..j][k] == s[a + i..a + j][k] {
    }
  }

  /** `memcpy` into an array. */
  method CopyInto(a: array<byte>, at: nat, source: bytes)
    requires at + |source| <= a.Length
    modifies a
    ensures a[..at] == old(a[..at]) && a[at..at + |source|] == source
    ensures a[at + |source|..] == old(a[at + |source|..])
    ensures a[..at + |source|] == old(a[..at]) + source
  {
    for k := 0 to |source|
      invariant forall m | 0 <= m < at :: a[m] == old(a[m])
      invariant forall m | 0 <= m < k :: a[at + m] == source[m]
      invariant forall m | at + |source| <= m < a.Length :: a[m] == old(a[m])
    {
      a[at + k] := source[k];
    }
    assert a[at..at + |source|] == source;
    assert a[..at + |source|] == a[..at] + a[at..at + |source|];
  }
}
