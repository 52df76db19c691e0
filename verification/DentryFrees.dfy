/** Exactly which dentries dput and prune_dcache free, and what they leave of the others (fs/dcache.c:118-160,
    294-352). */
module DentryFrees {
  import opened Forests
  import opened Lists
  import opened TreeLayout
  import opened DentryCache
  import opened Options

  predicate Gone(dc: Cache, r: Cache, x: nat) {
    x in dc.parent && x !in r.parent
  }

  /** Once nobody refers to `x` any more it is freed rather than kept for later: its file system wants it gone, or
      no lookup can find it. */
  predicate Goes(dc: Cache, x: nat) {
    x in dc.doomed || x !in dc.hashed
  }

  predicate LastRef(dc: Cache, x: nat) {
    x in dc.count && dc.count[x] == 1
  }

  /** `c` is all that refers to `x`. */
  predicate OnlyChild(dc: Cache, x: nat, c: nat) {
    x in dc.kids && x in dc.count && dc.kids[x] == [c] && dc.count[x] == 1
  }

  /** `x` goes, and all that referred to it was one child, which went. */
  ghost predicate Follows(dc: Cache, r: Cache, x: nat) {
    Goes(dc, x) && exists c :: OnlyChild(dc, x, c) && Gone(dc, r, c)
  }

  // ---- dget

  lemma UnusedIdle(dc: Cache, x: nat)
    requires Inv(dc)
    ensures x in dc.unused <==> Idle(dc, x)
  {
    assert x in dc.unused <==> Idle(dc, x) && x !in {};
  }

  /** One reference more, the flag, and off the unused list. */
  lemma GetMeans(dc: Cache, d: nat)
    requires Inv(dc) && d in dc.count
    ensures var r := Get(dc, d);
            && r.count == dc.count[d := dc.count[d] + 1] && r.unused == Without(dc.unused, d) && d !in r.unused
            && r.parent == dc.parent && r.kids == dc.kids && r.hashed == dc.hashed && r.refd == dc.refd + {d}
  {
    UnusedIdle(dc, d);
    GetFields(dc, d);
  }

  lemma GetFields(dc: Cache, d: nat)
    requires d in dc.count && (d in dc.unused <==> dc.count[d] == 0)
    ensures var r := Get(dc, d);
            && r.count == dc.count[d := dc.count[d] + 1] && r.unused == Without(dc.unused, d) && d !in r.unused
            && r.parent == dc.parent && r.kids == dc.kids && r.hashed == dc.hashed && r.refd == dc.refd + {d}
  {
    OffList(dc.unused, d, dc.count[d] == 0);
  }

  lemma OffList(s: seq<nat>, d: nat, listed: bool)
    requires d in s <==> listed
    ensures Without(s, d) == (if listed then Without(s, d) else s) && d !in Without(s, d)
  {
    if !listed { WithoutAbsent(s, d); }
    WithoutIn(s, d);
  }

  // ---- dput

  /** From `dc` to `r` exactly these are freed: `d`, if that was its last reference and it goes; and then its
      ancestors, one after the other, each held only by the one freed before it. */
  ghost predicate FreesExactly(dc: Cache, r: Cache, d: nat) {
    && r.parent.Keys <= dc.parent.Keys
    && forall x {:trigger Gone(dc, r, x)} :: x in dc.parent ==>
         (Gone(dc, r, x) <==> if x == d then Goes(dc, d) && LastRef(dc, d) else Follows(dc, r, x))
  }

  lemma KillSame(dc: Cache, d: nat, x: nat)
    requires d in dc.parent && dc.parent[d] in dc.kids && x != d && x != dc.parent[d]
    ensures var k := Kill(dc, d);
            && (x in k.kids <==> x in dc.kids) && (x in dc.kids ==> k.kids[x] == dc.kids[x])
            && (x in k.count <==> x in dc.count) && (x in dc.count ==> k.count[x] == dc.count[x])
            && (Goes(k, x) <==> Goes(dc, x))
  {
  }

  /** The parent of the one freed, seen before and after. */
  lemma ParentFollows(dc: Cache, d: nat, r: Cache)
    requires Inv(dc) && d in dc.parent && dc.parent[d] != d && d !in r.parent
    ensures dc.parent[d] in dc.kids && dc.parent[d] in dc.count
    ensures Follows(dc, r, dc.parent[d]) <==> Goes(dc, dc.parent[d]) && dc.count[dc.parent[d]] == 1
  {
    var p := dc.parent[d];
    ClosedTree(TreeOf(dc), d);
    assert IsChild(TreeOf(dc), p, d);
    assert Held(dc, p) >= 0;
    if dc.count[p] == 1 {
      assert |dc.kids[p]| == 1 && dc.kids[p] == [d];
      assert OnlyChild(dc, p, d) && Gone(dc, r, d);
    }
  }

  lemma OtherFollows(dc: Cache, d: nat, r: Cache, x: nat)
    requires Inv(dc) && d in dc.parent && dc.parent[d] in dc.kids && x != d && x != dc.parent[d]
    ensures Follows(dc, r, x) <==> Follows(Kill(dc, d), r, x)
  {
    var k := Kill(dc, d);
    KillSame(dc, d, x);
    forall c | OnlyChild(dc, x, c) ensures OnlyChild(k, x, c) && (Gone(dc, r, c) <==> Gone(k, r, c)) {
      assert IsChild(TreeOf(dc), x, c);
    }
    forall c | OnlyChild(k, x, c) ensures OnlyChild(dc, x, c) && (Gone(dc, r, c) <==> Gone(k, r, c)) {
      assert IsChild(TreeOf(dc), x, c);
    }
  }

  lemma RootFollows(dc: Cache, d: nat, r: Cache, x: nat)
    requires Inv(dc) && d in dc.parent && dc.parent[d] == d && r.parent == dc.parent - {d}
    ensures !Follows(dc, r, x)
  {
    forall c | OnlyChild(dc, x, c) ensures !Gone(dc, r, c) {
      assert IsChild(TreeOf(dc), x, c);
    }
  }

  lemma {:induction false} PutFrees(dc: Cache, d: nat)
    requires Inv(dc) && d in dc.parent && Held(dc, d) > 0
    ensures FreesExactly(dc, Put(dc, d), d)
    decreases |dc.parent|
  {
    var r := Put(dc, d);
    if dc.count[d] == 1 && Goes(dc, d) {
      AfterLastHold(dc, d);
      var k, p := Kill(dc, d), dc.parent[d];
      if p == d {
        forall x ensures !Follows(dc, r, x) { RootFollows(dc, d, r, x); }
      } else {
        PutFrees(k, p);
        PutKeeps(k, p);
        ParentFollows(dc, d, r);
        forall x | x in dc.parent && x != d && x != p ensures Follows(dc, r, x) <==> Gone(dc, r, x) {
          OtherFollows(dc, d, r, x);
          assert Gone(k, r, x) <==> Follows(k, r, x);
        }
        assert Gone(k, r, p) <==> Goes(k, p) && k.count[p] == 1;
      }
    }
  }

  /** What is left: the dentry the freeing stopped at, if it did not reach a root, has one reference less, and is
      first on the unused list if that was the last; all others are as they were. */
  ghost predicate StopsAt(dc: Cache, r: Cache, d: nat, y: Option<nat>) {
    && r.doomed == dc.doomed && r.hashed == dc.hashed - Freed(dc, r) && r.refd == dc.refd - Freed(dc, r)
    && (forall x :: x in r.parent ==> x in dc.parent && r.parent[x] == dc.parent[x])
    && (forall x :: x in r.count && y != Some(x) ==> x in dc.count && r.count[x] == dc.count[x])
    && (forall x :: x in r.kids && y != Some(x) ==> x in dc.kids && r.kids[x] == dc.kids[x])
    && (y.Some? ==> y.value in r.count && y.value in dc.count && r.count[y.value] + 1 == dc.count[y.value])
    && r.unused == (if y.Some? && r.count[y.value] == 0 then [y.value] else []) + dc.unused
    && (y.Some? <==> Reaches(dc, r, d))
  }

  function Freed(dc: Cache, r: Cache): set<nat> {
    dc.parent.Keys - r.parent.Keys
  }

  lemma StopsHere(dc: Cache, d: nat)
    requires Inv(dc) && d in dc.parent && Held(dc, d) > 0 && !(dc.count[d] == 1 && Goes(dc, d))
    ensures StopsAt(dc, Put(dc, d), d, Some(d))
  {
    var r := Put(dc, d);
    assert Freed(dc, r) == {};
    assert dc.count[d] > 1 ==> [] + dc.unused == dc.unused;
  }

  /** The freeing reaches a dentry that stays from `d` just if it does from the parent. */
  ghost predicate Reaches(dc: Cache, r: Cache, d: nat) {
    d in r.parent || exists c :: Gone(dc, r, c) && Par(dc.parent, c) in r.parent
  }

  lemma ReachesAbove(dc: Cache, d: nat, r: Cache)
    requires d in dc.parent && dc.parent[d] in dc.kids && dc.parent[d] != d && d !in r.parent
    ensures Reaches(dc, r, d) <==> Reaches(Kill(dc, d), r, dc.parent[d])
  {
    var k, p := Kill(dc, d), dc.parent[d];
    assert Gone(dc, r, d) && Par(dc.parent, d) == p;
    forall c | Gone(dc, r, c) && c != d ensures Gone(k, r, c) && Par(k.parent, c) == Par(dc.parent, c) {}
    forall c | Gone(k, r, c) ensures Gone(dc, r, c) && Par(k.parent, c) == Par(dc.parent, c) {}
  }

  lemma StopsAbove(dc: Cache, d: nat, r: Cache, y: Option<nat>)
    requires Inv(dc) && d in dc.parent && dc.parent[d] in dc.kids && dc.parent[d] != d && dc.count[d] == 1
    requires dc.parent[d] in Kill(dc, d).parent && d !in r.parent && r.parent.Keys <= Kill(dc, d).parent.Keys
    requires StopsAt(Kill(dc, d), r, dc.parent[d], y) && r.count.Keys == r.kids.Keys == r.parent.Keys
    requires y.None? || y.value != dc.parent[d] ==> dc.parent[d] !in r.parent
    ensures StopsAt(dc, r, d, y)
  {
    ReachesAbove(dc, d, r);
    assert Freed(dc, r) == Freed(Kill(dc, d), r) + {d};
  }

  lemma StopsNowhere(dc: Cache, d: nat)
    requires Inv(dc) && d in dc.parent && Held(dc, d) > 0 && dc.count[d] == 1 && dc.parent[d] == d
    ensures d in dc.kids && StopsAt(dc, Kill(dc, d), d, None)
  {
    var r := Kill(dc, d);
    assert Freed(dc, r) == {d};
    assert [] + dc.unused == dc.unused;
    forall c | Gone(dc, r, c) ensures Par(dc.parent, c) !in r.parent {}
  }

  lemma {:induction false} PutStops(dc: Cache, d: nat) returns (y: Option<nat>)
    requires Inv(dc) && d in dc.parent && Held(dc, d) > 0
    ensures StopsAt(dc, Put(dc, d), d, y)
    ensures y != Some(d) ==> d !in Put(dc, d).parent
    decreases |dc.parent|
  {
    if !(dc.count[d] == 1 && Goes(dc, d)) {
      y := Some(d);
      StopsHere(dc, d);
    } else if dc.parent[d] == d {
      y := None;
      StopsNowhere(dc, d);
    } else {
      AfterLastHold(dc, d);
      y := PutStops(Kill(dc, d), dc.parent[d]);
      PutKeeps(Kill(dc, d), dc.parent[d]);
      StopsAbove(dc, d, Put(dc, d), y);
    }
  }

  /** The caller's reference to `d` was the last one: `d` is freed just if it goes; otherwise it is first on the
      unused list and nothing else changes. */
  ghost predicate LastPut(dc: Cache, r: Cache, d: nat) {
    && (d !in r.parent <==> d in dc.doomed || d !in dc.hashed)
    && (d in r.parent ==>
          && r.parent == dc.parent && r.kids == dc.kids && r.hashed == dc.hashed && r.refd == dc.refd
          && r.count == dc.count[d := 0] && r.unused == [d] + dc.unused)
  }

  /** dput as a whole. */
  ghost predicate Released(dc: Cache, r: Cache, d: nat) {
    && FreesExactly(dc, r, d) && (exists y :: StopsAt(dc, r, d, y))
    && (LastRef(dc, d) ==> LastPut(dc, r, d))
    && (d in dc.count && dc.count[d] > 1 ==> r == dc.(count := dc.count[d := dc.count[d] - 1]))
  }

  lemma PutMeans(dc: Cache, d: nat)
    requires Inv(dc) && d in dc.parent && Held(dc, d) > 0
    ensures Released(dc, Put(dc, d), d)
  {
    PutFrees(dc, d);
    var y := PutStops(dc, d);
    assert Gone(dc, Put(dc, d), d) <==> Goes(dc, d) && LastRef(dc, d);
  }

  // ---- prune_dcache

  function Tail(dc: Cache): nat
    requires dc.unused != []
  {
    dc.unused[|dc.unused| - 1]
  }

  /** What freeing the tail `t` of the unused list frees and leaves: `t`, and ancestors held only by one freed
      before them; the list without it, behind at most one dentry that was in use. */
  ghost predicate Evicts(dc: Cache, r: Cache) {
    && dc.unused != [] && Inv(r) && r.parent.Keys <= dc.parent.Keys && r.doomed == dc.doomed
    && r.hashed == dc.hashed - Freed(dc, r) && r.refd == dc.refd - Freed(dc, r)
    && (forall x {:trigger Gone(dc, r, x)} :: x in dc.parent ==>
          (Gone(dc, r, x) <==> x == Tail(dc) || Follows(dc, r, x)))
    && (r.unused == dc.unused[..|dc.unused| - 1] ||
        exists y :: y !in dc.unused && r.unused == [y] + dc.unused[..|dc.unused| - 1])
  }

  lemma EvictRoot(dc: Cache)
    requires Inv(dc) && dc.unused != [] && Tail(dc) in dc.parent && dc.parent[Tail(dc)] == Tail(dc)
    ensures Evicts(dc, Evict(dc))
  {
    var t, r := Tail(dc), Evict(dc);
    EvictKeeps(dc);
    assert Freed(dc, r) == {t};
    forall x ensures !Follows(dc, r, x) { RootFollows(dc, t, r, x); }
  }

  /** Who goes with the tail, told from what its parent's dput does. */
  lemma EvictFollows(dc: Cache, k: Cache, r: Cache, t: nat, p: nat, x: nat)
    requires Inv(dc) && t in dc.parent && p == dc.parent[t] && p in dc.kids && p != t && t !in r.parent
    requires k == Kill(dc, t).(unused := k.unused, nr := k.nr) && FreesExactly(k, r, p) && p in k.parent
    requires x in dc.parent && x != t
    ensures Gone(dc, r, x) <==> Follows(dc, r, x)
  {
    assert Gone(k, r, x) <==> Gone(dc, r, x);
    if x == p {
      ParentFollows(dc, t, r);
    } else {
      OtherFollows(dc, t, r, x);
      var j := Kill(dc, t);
      forall c ensures OnlyChild(j, x, c) <==> OnlyChild(k, x, c)
               ensures Gone(j, r, c) <==> Gone(k, r, c) {}
    }
  }

  lemma EvictChild(dc: Cache)
    requires Inv(dc) && dc.unused != [] && Tail(dc) in dc.parent && dc.parent[Tail(dc)] != Tail(dc)
    ensures Evicts(dc, Evict(dc))
  {
    var t, r := Tail(dc), Evict(dc);
    var p := dc.parent[t];
    AfterUnlisting(dc);
    var k := Kill(Unlisted(dc), t);
    PutFrees(k, p);
    PutKeeps(k, p);
    var y := PutStops(k, p);
    EvictsBy(dc, k, r, p, y);
  }

  lemma EvictsBy(dc: Cache, k: Cache, r: Cache, p: nat, y: Option<nat>)
    requires Inv(dc) && dc.unused != [] && Tail(dc) in dc.parent && dc.parent[Tail(dc)] != Tail(dc)
    requires p == dc.parent[Tail(dc)] && p in dc.kids && k == Kill(Unlisted(dc), Tail(dc)) && p in k.parent
    requires Inv(r) && FreesExactly(k, r, p) && StopsAt(k, r, p, y)
    ensures Evicts(dc, r)
  {
    var t := Tail(dc);
    EvictSets(dc, k, r, t, p);
    forall x | x in dc.parent && x != t ensures Gone(dc, r, x) <==> Follows(dc, r, x) {
      EvictFollows(dc, k, r, t, p, x);
    }
    StopNotListed(dc, k, r, p, y);
  }

  lemma EvictSets(dc: Cache, k: Cache, r: Cache, t: nat, p: nat)
    requires t in dc.parent && p == dc.parent[t] && p in dc.kids
    requires k == Kill(dc, t).(unused := k.unused, nr := k.nr) && r.parent.Keys <= k.parent.Keys
    requires r.hashed == k.hashed - Freed(k, r) && r.refd == k.refd - Freed(k, r)
    ensures r.hashed == dc.hashed - Freed(dc, r) && r.refd == dc.refd - Freed(dc, r) && Gone(dc, r, t)
  {
    assert Freed(dc, r) == Freed(k, r) + {t};
  }

  lemma StopNotListed(dc: Cache, k: Cache, r: Cache, p: nat, y: Option<nat>)
    requires Inv(dc) && dc.unused != [] && Tail(dc) in dc.parent && dc.parent[Tail(dc)] in dc.kids
    requires k == Kill(Unlisted(dc), Tail(dc)) && StopsAt(k, r, p, y)
    ensures r.unused == dc.unused[..|dc.unused| - 1] ||
            exists y :: y !in dc.unused && r.unused == [y] + dc.unused[..|dc.unused| - 1]
  {
    var init := dc.unused[..|dc.unused| - 1];
    if y.Some? && r.count[y.value] == 0 {
      UnusedIdle(dc, y.value);
      assert r.unused == [y.value] + init;
    } else {
      assert [] + init == init;
    }
  }

  lemma EvictFrees(dc: Cache)
    requires Inv(dc) && dc.unused != []
    ensures Evicts(dc, Evict(dc))
  {
    AfterUnlisting(dc);
    if dc.parent[Tail(dc)] == Tail(dc) { EvictRoot(dc); } else { EvictChild(dc); }
  }

  /** None of the other unused dentries is freed with it. */
  lemma UnusedStays(dc: Cache, r: Cache, x: nat)
    requires Inv(dc) && Evicts(dc, r) && x in dc.unused && x != Tail(dc)
    ensures x in r.parent
  {
    UnusedIdle(dc, x);
    assert !Follows(dc, r, x);
    assert Gone(dc, r, x) <==> x == Tail(dc) || Follows(dc, r, x);
  }

  /** How many of `s` have not been referenced lately. */
  function Unref(s: seq<nat>, refd: set<nat>): nat {
    if s == [] then 0 else Unref(s[..|s| - 1], refd) + if s[|s| - 1] in refd then 0 else 1
  }

  lemma {:induction false} UnrefSame(s: seq<nat>, refd: set<nat>, refd': set<nat>)
    requires forall x :: x in s ==> (x in refd <==> x in refd')
    ensures Unref(s, refd) == Unref(s, refd')
  {
    if s != [] {
      assert s == s[..|s| - 1] + [s[|s| - 1]];
      UnrefSame(s[..|s| - 1], refd, refd');
    }
  }

  /** s[i] is one of the `n` unreferenced ones nearest to the tail. */
  predicate Picked(s: seq<nat>, refd: set<nat>, n: int, i: nat)
    requires i < |s|
  {
    s[i] !in refd && Unref(s[i + 1..], refd) < n
  }

  lemma UnrefLast(s: seq<nat>, refd: set<nat>, i: nat)
    requires i + 1 < |s|
    ensures Unref(s[i + 1..], refd) == Unref(s[..|s| - 1][i + 1..], refd) + if s[|s| - 1] in refd then 0 else 1
  {
    var a := s[i + 1..];
    assert a[..|a| - 1] == s[..|s| - 1][i + 1..] && a[|a| - 1] == s[|s| - 1];
  }

  /** Of the part `rest` of the list that has not been visited, exactly the picked ones are freed; of the part in
      front none; and what else is freed is ancestors that go. */
  ghost predicate PrunesExactly(dc: Cache, r: Cache, n: int, front: seq<nat>, rest: seq<nat>) {
    && (forall i {:trigger rest[i]} :: 0 <= i < |rest| ==> (Gone(dc, r, rest[i]) <==> Picked(rest, dc.refd, n, i)))
    && (forall x :: x in front ==> !Gone(dc, r, x))
    && (forall x {:trigger Gone(dc, r, x)} :: Gone(dc, r, x) && x !in rest ==> Goes(dc, x))
  }

  lemma LastOf(front: seq<nat>, rest: seq<nat>)
    requires rest != []
    ensures var s := front + rest; s[|s| - 1] == rest[|rest| - 1] && s[..|s| - 1] == front + rest[..|rest| - 1]
  {
  }

  lemma Joining(t: nat, front: seq<nat>, rest: seq<nat>)
    ensures [t] + (front + rest) == ([t] + front) + rest
  {
  }

  /** A turn that spares the tail. */
  lemma TurnSpares(dc: Cache, front: seq<nat>, rest: seq<nat>)
    requires Inv(dc) && rest != [] && dc.unused == front + rest && rest[|rest| - 1] in dc.refd
    ensures Inv(Spare(dc)) && Tail(dc) == rest[|rest| - 1]
    ensures Spare(dc).unused == ([rest[|rest| - 1]] + front) + rest[..|rest| - 1]
    ensures Unref(rest[..|rest| - 1], Spare(dc).refd) == Unref(rest, dc.refd)
  {
    var t, rest' := rest[|rest| - 1], rest[..|rest| - 1];
    LastOf(front, rest);
    TailAlone(front, rest);
    SpareInv(dc);
    Joining(t, front, rest');
    UnrefSame(rest', dc.refd, Spare(dc).refd);
  }

  /** A turn that frees the tail. */
  lemma TurnEvicts(dc: Cache, e: Cache, front: seq<nat>, rest: seq<nat>) returns (front': seq<nat>)
    requires Inv(dc) && rest != [] && dc.unused == front + rest && rest[|rest| - 1] !in dc.refd && Evicts(dc, e)
    ensures forall x :: x in front + rest[..|rest| - 1] ==> x in e.parent
    ensures e.unused == front' + rest[..|rest| - 1] && (forall x :: x in front ==> x in front')
    ensures Unref(rest[..|rest| - 1], e.refd) + 1 == Unref(rest, dc.refd)
  {
    var t, rest' := rest[|rest| - 1], rest[..|rest| - 1];
    LastOf(front, rest);
    TailAlone(front, rest);
    forall x | x in front + rest' ensures x in e.parent { UnusedStays(dc, e, x); }
    front' := if e.unused == front + rest' then front else [e.unused[0]] + front;
    assert e.unused == front' + rest';
    forall x | x in rest' ensures x in dc.refd <==> x in e.refd { assert x in front + rest'; }
    UnrefSame(rest', dc.refd, e.refd);
  }

  lemma {:induction false} PruneFrom(dc: Cache, n: int, front: seq<nat>, rest: seq<nat>)
    requires Inv(dc) && dc.unused == front + rest && 1 <= n <= Unref(rest, dc.refd)
    ensures PrunesExactly(dc, Prune(dc, n), n, front, rest)
    decreases |rest|, 1
  {
    if rest[|rest| - 1] in dc.refd {
      TurnSpares(dc, front, rest);
      PruneFrom(Spare(dc), n, [rest[|rest| - 1]] + front, rest[..|rest| - 1]);
      PruneSpared(dc, Prune(dc, n), n, front, rest);
    } else {
      EvictFrees(dc);
      PruneFreeing(dc, Evict(dc), n, front, rest);
    }
  }

  lemma {:induction false} PruneFreeing(dc: Cache, e: Cache, n: int, front: seq<nat>, rest: seq<nat>)
    requires Inv(dc) && dc.unused == front + rest && 1 <= n <= Unref(rest, dc.refd) && rest[|rest| - 1] !in dc.refd
    requires Evicts(dc, e)
    ensures PrunesExactly(dc, if n == 1 then e else Prune(e, n - 1), n, front, rest)
    decreases |rest|, 0
  {
    var front' := TurnEvicts(dc, e, front, rest);
    if n == 1 {
      PruneLast(dc, e, front, rest);
    } else {
      PruneOn(e, n - 1, front', rest[..|rest| - 1]);
      PruneEvicted(dc, e, Prune(e, n - 1), n, front, front', rest);
    }
  }

  lemma {:induction false} PruneOn(e: Cache, n: int, front: seq<nat>, rest: seq<nat>)
    requires Inv(e) && e.unused == front + rest && 1 <= n <= Unref(rest, e.refd)
    ensures PrunesExactly(e, Prune(e, n), n, front, rest) && Prune(e, n).parent.Keys <= e.parent.Keys
    decreases |rest|, 2
  {
    PruneFrom(e, n, front, rest);
    PruneOnlyFrees(e, n);
  }

  lemma PruneOnlyFrees(dc: Cache, n: int)
    requires Inv(dc)
    ensures Prune(dc, n).parent.Keys <= dc.parent.Keys
  {
    PruneKeeps(dc, n);
  }

  lemma TailAlone(front: seq<nat>, rest: seq<nat>)
    requires rest != [] && Distinct(front + rest)
    ensures rest[|rest| - 1] !in front && rest[|rest| - 1] !in rest[..|rest| - 1]
  {
    var s := front + rest;
    assert s[|s| - 1] == rest[|rest| - 1];
    assert forall i :: 0 <= i < |front| ==> s[i] == front[i];
    assert forall i :: 0 <= i < |rest| - 1 ==> s[|front| + i] == rest[i];
  }

  lemma PruneSpared(dc: Cache, r: Cache, n: int, front: seq<nat>, rest: seq<nat>)
    requires Inv(dc) && rest != [] && dc.unused == front + rest && rest[|rest| - 1] in dc.refd && n >= 1
    requires var t := rest[|rest| - 1];
             PrunesExactly(Spare(dc), r, n, [t] + front, rest[..|rest| - 1])
    ensures PrunesExactly(dc, r, n, front, rest)
  {
    var s, t, rest' := Spare(dc), rest[|rest| - 1], rest[..|rest| - 1];
    assert rest == rest' + [t] && t == Tail(dc);
    TailAlone(front, rest);
    forall x ensures Gone(dc, r, x) <==> Gone(s, r, x) {}
    forall i | 0 <= i < |rest| ensures Gone(dc, r, rest[i]) <==> Picked(rest, dc.refd, n, i) {
      if i < |rest'| {
        UnrefLast(rest, dc.refd, i);
        assert forall x :: x in rest'[i + 1..] ==> x in rest';
        UnrefSame(rest'[i + 1..], dc.refd, s.refd);
        assert rest[i] == rest'[i] && Picked(rest, dc.refd, n, i) == Picked(rest', s.refd, n, i);
      } else {
        assert t in [t] + front;
      }
    }
    assert forall x :: x in front ==> x in [t] + front;
  }

  lemma PruneLast(dc: Cache, e: Cache, front: seq<nat>, rest: seq<nat>)
    requires Inv(dc) && rest != [] && dc.unused == front + rest && rest[|rest| - 1] !in dc.refd && Evicts(dc, e)
    requires forall x :: x in front + rest[..|rest| - 1] ==> x in e.parent
    ensures PrunesExactly(dc, e, 1, front, rest)
  {
    var t, rest' := rest[|rest| - 1], rest[..|rest| - 1];
    assert t == Tail(dc) && rest == rest' + [t];
    UnusedIdle(dc, t);
    forall i | 0 <= i < |rest| ensures Gone(dc, e, rest[i]) <==> Picked(rest, dc.refd, 1, i) {
      if i < |rest'| {
        UnrefLast(rest, dc.refd, i);
        assert rest[i] == rest'[i] && rest'[i] in front + rest';
      } else {
        assert rest[i + 1..] == [];
      }
    }
    forall x | x in front ensures !Gone(dc, e, x) { assert x in front + rest'; }
    forall x | Gone(dc, e, x) && x !in rest ensures Goes(dc, x) {
      assert x != t && Follows(dc, e, x);
    }
  }

  lemma PruneEvicted(dc: Cache, e: Cache, r: Cache, n: int, front: seq<nat>, front': seq<nat>, rest: seq<nat>)
    requires Inv(dc) && rest != [] && dc.unused == front + rest && rest[|rest| - 1] !in dc.refd
    requires Evicts(dc, e) && n > 1
    requires forall x :: x in front + rest[..|rest| - 1] ==> x in e.parent
    requires forall x :: x in front ==> x in front'
    requires PrunesExactly(e, r, n - 1, front', rest[..|rest| - 1]) && r.parent.Keys <= e.parent.Keys
    ensures PrunesExactly(dc, r, n, front, rest)
  {
    var t, rest' := rest[|rest| - 1], rest[..|rest| - 1];
    assert t == Tail(dc) && rest == rest' + [t];
    UnusedIdle(dc, t);
    assert Gone(dc, e, t);
    forall i | 0 <= i < |rest| ensures Gone(dc, r, rest[i]) <==> Picked(rest, dc.refd, n, i) {
      if i < |rest'| {
        UnrefLast(rest, dc.refd, i);
        forall x | x in rest'[i..] ensures x in dc.refd <==> x in e.refd { assert x in front + rest'; }
        assert rest'[i] == rest'[i..][0] && rest'[i + 1..] == rest'[i..][1..];
        UnrefSame(rest'[i + 1..], dc.refd, e.refd);
        assert rest[i] == rest'[i] && rest'[i] in front + rest';
        assert Gone(e, r, rest'[i]) <==> Picked(rest', e.refd, n - 1, i);
        UnusedIdle(dc, rest'[i]);
      } else {
        assert rest[i + 1..] == [];
      }
    }
    forall x | x in front ensures !Gone(dc, r, x) {
      assert x in front + rest' && x in front';
      assert !Gone(e, r, x);
    }
    forall x | Gone(dc, r, x) && x !in rest ensures Goes(dc, x) {
      if Gone(dc, e, x) {
        assert x != t && Follows(dc, e, x);
      } else {
        assert Gone(e, r, x) && Goes(e, x);
      }
    }
  }

  /** prune_dcache asked for no more dentries than are unreferenced. */
  lemma PruneExactly(dc: Cache, n: int)
    requires Inv(dc) && 1 <= n <= Unref(dc.unused, dc.refd)
    ensures PrunesExactly(dc, Prune(dc, n), n, [], dc.unused)
  {
    assert dc.unused == [] + dc.unused;
    PruneFrom(dc, n, [], dc.unused);
  }

  /** Asked for more, it frees all of those. */
  lemma {:induction false} PruneMany(dc: Cache, n: int, front: seq<nat>, rest: seq<nat>, x: nat)
    requires Inv(dc) && dc.unused == front + rest && (n <= 0 || n > Unref(rest, dc.refd))
    requires x in rest && x !in dc.refd
    ensures Gone(dc, Prune(dc, n), x)
    decreases |rest|, 1
  {
    var t, rest' := rest[|rest| - 1], rest[..|rest| - 1];
    assert rest == rest' + [t] && t == Tail(dc);
    if t in dc.refd {
      TurnSpares(dc, front, rest);
      PruneMany(Spare(dc), n, [t] + front, rest', x);
    } else {
      EvictFrees(dc);
      UnusedIdle(dc, t);
      UnusedIdle(dc, x);
      var front' := TurnEvicts(dc, Evict(dc), front, rest);
      PruneManyFrees(dc, Evict(dc), n, front', rest', t, x);
    }
  }

  lemma {:induction false} PruneManyFrees(dc: Cache, e: Cache, n: int, front: seq<nat>, rest: seq<nat>, t: nat, x: nat)
    requires Inv(dc) && Evicts(dc, e) && t == Tail(dc) && t in dc.parent
    requires e.unused == front + rest && n != 1 && (n <= 0 || n - 1 > Unref(rest, e.refd))
    requires x in rest || x == t
    requires x !in dc.refd && x in dc.parent
    ensures Gone(dc, Prune(e, n - 1), x)
    decreases |rest| + 1, 0
  {
    PruneKeeps(e, n - 1);
    assert Gone(dc, e, t);
    if x != t { PruneMany(e, n - 1, front, rest, x); }
  }

  /** It stops when it has freed as many as it was asked for, or nothing is unused. */
  lemma {:induction false} PruneEnough(dc: Cache, n: int)
    requires Inv(dc)
    ensures Enough(dc, Prune(dc, n), n)
    decreases |dc.parent|, |dc.refd|, 1
  {
    if dc.unused == [] {
    } else if Tail(dc) in dc.refd {
      SpareInv(dc);
      PruneEnough(Spare(dc), n);
    } else {
      EvictKeeps(dc);
      EnoughFreed(dc, Evict(dc), n);
    }
  }

  lemma {:induction false} EnoughFreed(dc: Cache, e: Cache, n: int)
    requires Inv(e) && |e.parent| < |dc.parent|
    ensures Enough(dc, if n == 1 then e else Prune(e, n - 1), n)
    decreases |dc.parent|, |dc.refd|, 0
  {
    if n != 1 { PruneEnough(e, n - 1); }
  }

  predicate Enough(dc: Cache, r: Cache, n: int) {
    r.unused == [] || (n >= 1 && |r.parent| + n <= |dc.parent|)
  }

  /** Whatever the number asked for, no dentry goes that someone holds, or holds one below. */
  lemma PruneBusy(dc: Cache, n: int, x: nat)
    requires Inv(dc) && Busy(dc, x)
    ensures x in Prune(dc, n).parent
  {
    var r := Prune(dc, n);
    PruneKeeps(dc, n);
    var y :| Below(dc.parent, y, x) && Held(dc, y) > 0;
    assert Held(r, y) == Held(dc, y) - Loses({}, y);
    BelowKept(dc, r, y, x);
  }

  lemma NoneUnused(dc: Cache, r: Cache, x: nat)
    requires Inv(dc) && Inv(r) && Shrinks(dc, r, {}) && r.unused == [] && x in r.parent
    ensures Busy(dc, x)
  {
    UnusedIdle(r, x);
    assert Held(r, x) == Held(dc, x) - Loses({}, x) && Held(r, x) >= 0;
    BelowSelf(dc.parent, x);
    if Held(r, x) == 0 {
      var c := r.kids[x][0];
      assert IsChild(TreeOf(r), x, c);
      ParentBelow(r.parent, c);
      forall y ensures !Idle(r, y) { UnusedIdle(r, y); }
      FindHeld(dc, r, x, c);
      var y :| Below(dc.parent, y, c) && Held(dc, y) > 0;
      BelowKept(dc, r, c, x);
      BelowTrans(dc.parent, y, c, x);
    }
  }

  /** Asked for 0, or for more than there are, it leaves exactly the busy dentries. */
  lemma PruneLeaves(dc: Cache, n: int, x: nat)
    requires Inv(dc) && (n <= 0 || n > |dc.parent|) && x in dc.parent
    ensures x in Prune(dc, n).parent <==> Busy(dc, x)
  {
    PruneEnough(dc, n);
    PruneKeeps(dc, n);
    if x in Prune(dc, n).parent { NoneUnused(dc, Prune(dc, n), x); }
    if Busy(dc, x) { PruneBusy(dc, n, x); }
  }

  /** prune_dcache as a whole. */
  ghost predicate Pruned(dc: Cache, r: Cache, n: int) {
    && (1 <= n <= Unref(dc.unused, dc.refd) ==> PrunesExactly(dc, r, n, [], dc.unused))
    && (n <= 0 || n > Unref(dc.unused, dc.refd) ==> forall x :: x in dc.unused && x !in dc.refd ==> Gone(dc, r, x))
    && Enough(dc, r, n)
    && (forall x {:trigger Busy(dc, x)} :: Busy(dc, x) ==> x in r.parent)
    && (n <= 0 || n > |dc.parent| ==> forall x {:trigger Busy(dc, x)} :: x in dc.parent ==>
                                        (x in r.parent <==> Busy(dc, x)))
  }

  lemma PruneMeans(dc: Cache, n: int)
    requires Inv(dc)
    ensures Pruned(dc, Prune(dc, n), n)
  {
    if 1 <= n <= Unref(dc.unused, dc.refd) {
      PruneExactly(dc, n);
    } else {
      assert dc.unused == [] + dc.unused;
      forall x | x in dc.unused && x !in dc.refd ensures Gone(dc, Prune(dc, n), x) {
        PruneMany(dc, n, [], dc.unused, x);
      }
    }
    PruneEnough(dc, n);
    forall x | Busy(dc, x) ensures x in Prune(dc, n).parent { PruneBusy(dc, n, x); }
    if n <= 0 || n > |dc.parent| {
      forall x | x in dc.parent ensures x in Prune(dc, n).parent <==> Busy(dc, x) { PruneLeaves(dc, n, x); }
    }
  }
}
