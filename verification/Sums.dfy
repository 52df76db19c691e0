/** Sums over sequences, and how they change when one element changes. */
module Sums {

  function Total<T>(s: seq<T>, f: T -> int): int {
    if s == [] then 0 else Total(s[..|s| - 1], f) + f(s[|s| - 1])
  }

  lemma TotalAppend<T>(s: seq<T>, x: T, f: T -> int)
    ensures Total(s + [x], f) == Total(s, f) + f(x)
  {
    assert (s + [x])[..|s|] == s;
  }

  lemma {:induction false} TotalConcat<T>(s: seq<T>, t: seq<T>, f: T -> int)
    ensures Total(s + t, f) == Total(s, f) + Total(t, f)
  {
    if t == [] {
      assert s + t == s;
    } else {
      TotalConcat(s, t[..|t| - 1], f);
      assert (s + t)[..|s + t| - 1] == s + t[..|t| - 1];
    }
  }

  lemma TotalSplit<T>(s: seq<T>, k: nat, f: T -> int)
    requires k < |s|
    ensures Total(s, f) == Total(s[..k], f) + f(s[k]) + Total(s[k + 1..], f)
  {
    assert s == s[..k] + [s[k]] + s[k + 1..];
    TotalConcat(s[..k] + [s[k]], s[k + 1..], f);
    TotalAppend(s[..k], s[k], f);
  }

  lemma TotalUpdate<T>(s: seq<T>, k: nat, x: T, f: T -> int)
    requires k < |s|
    ensures Total(s[k := x], f) == Total(s, f) - f(s[k]) + f(x)
  {
    TotalSplit(s, k, f);
    TotalSplit(s[k := x], k, f);
    assert s[k := x][..k] == s[..k] && s[k := x][k + 1..] == s[k + 1..];
  }

  lemma TotalDrop<T>(s: seq<T>, k: nat, f: T -> int)
    requires k < |s|
    ensures Total(s[..k] + s[k + 1..], f) == Total(s, f) - f(s[k])
  {
    TotalSplit(s, k, f);
    TotalConcat(s[..k], s[k + 1..], f);
  }

  lemma {:induction false} TotalNonNegative<T>(s: seq<T>, f: T -> int)
    requires forall i :: 0 <= i < |s| ==> f(s[i]) >= 0
    ensures Total(s, f) >= 0
  {
    if s != [] {
      TotalNonNegative(s[..|s| - 1], f);
    }
  }
}
