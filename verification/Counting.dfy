/** Counting the elements of a sequence that satisfy a test. */
module Counting {

  function Count<T>(s: seq<T>, p: T -> bool): nat {
    if |s| == 0 then 0 else (if p(s[0]) then 1 else 0) + Count(s[1..], p)
  }

  function One(b: bool): nat { if b then 1 else 0 }

  /** Replacing one element moves the count by what that element contributes. */
  lemma {:induction false} CountUpdate<T>(s: seq<T>, i: nat, x: T, p: T -> bool)
    requires i < |s|
    ensures Count(s[i := x], p) + One(p(s[i])) == Count(s, p) + One(p(x))
    decreases |s|
  {
    if i == 0 {
      assert s[i := x][1..] == s[1..];
    } else {
      CountUpdate(s[1..], i - 1, x, p);
      assert s[i := x][1..] == s[1..][i - 1 := x];
    }
  }

  /** A count is zero exactly when nothing satisfies the test. */
  lemma {:induction false} CountZero<T>(s: seq<T>, p: T -> bool)
    ensures Count(s, p) == 0 <==> forall i | 0 <= i < |s| :: !p(s[i])
    decreases |s|
  {
    if |s| > 0 {
      CountZero(s[1..], p);
      assert forall i | 0 < i < |s| :: s[i] == s[1..][i - 1];
      if Count(s[1..], p) != 0 {
        var i :| 0 <= i < |s[1..]| && p(s[1..][i]);
        assert p(s[i + 1]);
      }
    }
  }

  /** A count of one singles out its element. */
  lemma CountUnique<T>(s: seq<T>, p: T -> bool, i: nat, j: nat)
    requires i < |s| && j < |s| && p(s[i]) && p(s[j]) && Count(s, p) <= 1
    ensures i == j
  {
    if i != j {
      CountPair(s, p, if i < j then i else j, if i < j then j else i);
    }
  }

  lemma {:induction false} CountPair<T>(s: seq<T>, p: T -> bool, i: nat, j: nat)
    requires i < j < |s| && p(s[i]) && p(s[j])
    ensures Count(s, p) >= 2
    decreases |s|
  {
    if i == 0 {
      CountZero(s[1..], p);
      assert p(s[1..][j - 1]);
    } else {
      assert s[1..][i - 1] == s[i] && s[1..][j - 1] == s[j];
      CountPair(s[1..], p, i - 1, j - 1);
    }
  }
}
