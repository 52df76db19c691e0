/** Lists of addresses, as the intrusive lists of the kernel are modelled. */
module Lists {
  function Without(s: seq<nat>, x: nat): (r: seq<nat>) {
    if s == [] then [] else (if s[0] == x then [] else [s[0]]) + Without(s[1..], x)
  }

  predicate Distinct(s: seq<nat>) {
    forall i, j :: 0 <= i < j < |s| ==> s[i] != s[j]
  }

  /** The sequence without its k-th element. */
  function Drop<T>(s: seq<T>, k: nat): seq<T>
    requires k < |s|
  {
    s[..k] + s[k + 1..]
  }

  lemma {:induction false} WithoutIn(s: seq<nat>, x: nat)
    ensures forall y :: y in Without(s, x) <==> y in s && y != x
  {
    if s != [] {
      WithoutIn(s[1..], x);
      assert s == [s[0]] + s[1..];
    }
  }

  lemma {:induction false} WithoutDistinct(s: seq<nat>, x: nat)
    requires Distinct(s)
    ensures Distinct(Without(s, x))
  {
    if s != [] {
      WithoutDistinct(s[1..], x);
      WithoutIn(s[1..], x);
      assert s[0] !in s[1..];
      if s[0] != x { PushDistinct(Without(s[1..], x), s[0]); }
    }
  }

  lemma PushDistinct(s: seq<nat>, x: nat)
    requires Distinct(s) && x !in s
    ensures Distinct([x] + s)
  {
  }

  lemma {:induction false} WithoutAbsent(s: seq<nat>, x: nat)
    requires x !in s
    ensures Without(s, x) == s
  {
    if s != [] {
      WithoutAbsent(s[1..], x);
    }
  }

  lemma {:induction false} WithoutSize(s: seq<nat>, x: nat)
    requires Distinct(s)
    ensures |Without(s, x)| == |s| - if x in s then 1 else 0
  {
    if s == [] {
    } else if s[0] == x {
      assert x !in s[1..];
      WithoutAbsent(s[1..], x);
    } else {
      WithoutSize(s[1..], x);
      assert s == [s[0]] + s[1..];
    }
  }

  function Except(s: seq<nat>, zs: seq<nat>): seq<nat> {
    if s == [] then [] else (if s[0] in zs then [] else [s[0]]) + Except(s[1..], zs)
  }

  lemma {:induction false} ExceptNone(s: seq<nat>)
    ensures Except(s, []) == s
  {
    if s != [] { ExceptNone(s[1..]); }
  }

  lemma {:induction false} ExceptIn(s: seq<nat>, zs: seq<nat>)
    ensures forall x :: x in Except(s, zs) <==> x in s && x !in zs
  {
    if s != [] { ExceptIn(s[1..], zs); assert s == [s[0]] + s[1..]; }
  }

  lemma {:induction false} ExceptOne(s: seq<nat>, zs: seq<nat>, x: nat)
    ensures Without(Except(s, zs), x) == Except(s, zs + [x])
  {
    if s != [] {
      ExceptOne(s[1..], zs, x);
      var t := Except(s[1..], zs);
      if s[0] in zs {
        assert [] + t == t;
      } else {
        assert ([s[0]] + t)[1..] == t;
        assert s[0] == x ==> [] + Without(t, x) == Without(t, x);
      }
    }
  }

  lemma {:induction false} WithoutConcat(s: seq<nat>, t: seq<nat>, x: nat)
    ensures Without(s + t, x) == Without(s, x) + Without(t, x)
  {
    if s == [] {
      assert s + t == t;
    } else {
      assert (s + t)[1..] == s[1..] + t;
      WithoutConcat(s[1..], t, x);
    }
  }

  lemma {:induction false} ExceptDistinct(s: seq<nat>, zs: seq<nat>)
    requires Distinct(s)
    ensures Distinct(Except(s, zs))
  {
    if s != [] {
      ExceptDistinct(s[1..], zs);
      ExceptIn(s[1..], zs);
      assert s[0] !in s[1..];
      if s[0] !in zs { PushDistinct(Except(s[1..], zs), s[0]); }
    }
  }

  lemma JoinDistinct(s: seq<nat>, t: seq<nat>)
    requires Distinct(s) && Distinct(t) && forall x :: x in s ==> x !in t
    ensures Distinct(s + t)
  {
    forall i, j | 0 <= i < j < |s + t| ensures (s + t)[i] != (s + t)[j] {
      if i < |s| <= j { assert s[i] in s && t[j - |s|] in t; }
    }
  }

  lemma SameLength(s: seq<nat>, t: seq<nat>)
    requires Distinct(s) && Distinct(t) && forall x :: x in s <==> x in t
    ensures |s| == |t|
  {
    DistinctSize(s);
    DistinctSize(t);
    assert Elements(s) == Elements(t);
  }

  function Elements(s: seq<nat>): set<nat> {
    set x | x in s
  }

  lemma {:induction false} DistinctSize(s: seq<nat>)
    requires Distinct(s)
    ensures |Elements(s)| == |s|
  {
    if s != [] {
      DistinctSize(s[1..]);
      assert Elements(s) == {s[0]} + Elements(s[1..]);
      assert s[0] !in Elements(s[1..]);
    }
  }
}
