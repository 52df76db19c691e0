/** The dentry cache as a value: reference counts, the tree of dentries and the list of unused ones
    (fs/dcache.c:118-160, 294-352, 477-537). */
module DentryCache {
  import opened Forests
  import opened Lists
  import opened TreeLayout

  /** Dentries are named by their addresses.  `hashed` are those on a hash chain, `refd` those with
      DCACHE_REFERENCED set, `doomed` those whose d_delete operation answers yes; `unused` is the list
      dentry_unused from head to tail and `nr` is nr_unused. */
  datatype Cache = Cache(parent: map<nat, nat>, kids: map<nat, seq<nat>>, count: map<nat, nat>, hashed: set<nat>,
                         refd: set<nat>, doomed: set<nat>, unused: seq<nat>, nr: int)

  function TreeOf(dc: Cache): Tree {
    Tree(dc.parent, dc.kids)
  }

  /** References to `x` other than those its children hold. */
  function Held(dc: Cache, x: nat): int {
    if x in dc.count && x in dc.kids then dc.count[x] - |dc.kids[x]| else 0
  }

  predicate Idle(dc: Cache, x: nat) {
    x in dc.count && dc.count[x] == 0
  }

  /** Every child holds a reference to its parent, and the unused list holds exactly the dentries
      without references, except `but`. */
  ghost predicate InvBut(dc: Cache, but: set<nat>) {
    && TreeOk(TreeOf(dc)) && dc.count.Keys == dc.parent.Keys
    && (forall x {:trigger Held(dc, x)} :: Held(dc, x) >= 0)
    && Distinct(dc.unused) && dc.nr == |dc.unused|
    && (forall x {:trigger Idle(dc, x)} :: x in dc.unused <==> Idle(dc, x) && x !in but)
  }

  ghost predicate Inv(dc: Cache) {
    InvBut(dc, {})
  }

  // ---- freeing one dentry

  /** list_del of d_child, and d_free. */
  function Kill(dc: Cache, d: nat): Cache
    requires d in dc.parent && dc.parent[d] in dc.kids
  {
    var p := dc.parent[d];
    dc.(parent := dc.parent - {d}, kids := dc.kids[p := Without(dc.kids[p], d)] - {d}, count := dc.count - {d},
        hashed := dc.hashed - {d}, refd := dc.refd - {d})
  }

  lemma ClosedTree(tr: Tree, d: nat)
    requires TreeOk(tr) && d in tr.parent
    ensures Par(tr.parent, d) in tr.kids
  {
    if tr.parent[d] != d { assert IsChild(tr, tr.parent[d], d); }
  }

  /** Taking a childless dentry off leaves a tree. */
  lemma KillTree(dc: Cache, d: nat)
    requires TreeOk(TreeOf(dc)) && d in dc.parent && dc.parent[d] in dc.kids && dc.kids[d] == []
    ensures TreeOk(TreeOf(Kill(dc, d)))
  {
    var tr, r := TreeOf(dc), TreeOf(Kill(dc, d));
    var p := dc.parent[d];
    WithoutIn(dc.kids[p], d);
    WithoutDistinct(dc.kids[p], d);
    forall m, c ensures IsChild(r, m, c) <==> c in r.parent && r.parent[c] == m != c {
      assert IsChild(tr, m, c) <==> c in tr.parent && tr.parent[c] == m != c;
      assert !IsChild(tr, d, c);
    }
    forall m ensures Grounded(r.parent, m) {
      NoChildAbove(tr, d, m);
      KillUp(tr, d, m);
    }
  }

  /** Nothing but `d` is below the childless `d`. */
  lemma {:induction false} NoChildAbove(tr: Tree, d: nat, m: nat)
    requires TreeOk(tr) && d in tr.kids && tr.kids[d] == []
    ensures m != d ==> !Below(tr.parent, m, d)
  {
    if m != d && Below(tr.parent, m, d) {
      var n: nat :| Up(tr.parent, m, n) == d;
      ReachedByChild(tr, d, m, n);
    }
  }

  lemma KillUp(tr: Tree, d: nat, m: nat)
    requires Forest(tr.parent) && (m != d ==> !Below(tr.parent, m, d))
    ensures Grounded(tr.parent - {d}, m)
  {
    var par, par' := tr.parent, tr.parent - {d};
    if m == d {
      assert IsRoot(par', Up(par', m, 0));
    } else {
      assert Grounded(par, m);
      var n: nat :| IsRoot(par, Up(par, m, n));
      UpSame(par, par', m, n);
      assert IsRoot(par', Up(par', m, n));
    }
  }

  /** Freeing an unlisted childless dentry keeps the invariant; its parent is held once more. */
  lemma KillInv(dc: Cache, d: nat)
    requires InvBut(dc, {d}) && d in dc.parent && dc.kids[d] == []
    ensures dc.parent[d] in dc.kids && Inv(Kill(dc, d)) && d !in Kill(dc, d).parent
    ensures forall x {:trigger Held(Kill(dc, d), x)} :: x != d ==>
              Held(Kill(dc, d), x) == Held(dc, x) + if x == dc.parent[d] then 1 else 0
  {
    ClosedTree(TreeOf(dc), d);
    KillTree(dc, d);
    var r, p := Kill(dc, d), dc.parent[d];
    if p != d {
      assert IsChild(TreeOf(dc), p, d);
      WithoutSize(dc.kids[p], d);
    }
    forall x ensures x != d ==> Held(r, x) == Held(dc, x) + if x == p then 1 else 0
             ensures Held(r, x) >= 0 {
      assert Held(dc, x) >= 0;
    }
    forall x ensures x in r.unused <==> Idle(r, x) && x !in {} {
      assert x in dc.unused <==> Idle(dc, x) && x !in {d};
    }
  }

  // ---- what freeing may do

  function Loses(drop: set<nat>, x: nat): int {
    if x in drop then 1 else 0
  }

  /** From `dc` to `r` dentries were freed, the others keep their parent, and all holds on dentries
      are as before, but for one on each of `drop`: no dentry is freed while it is held. */
  ghost predicate Shrinks(dc: Cache, r: Cache, drop: set<nat>) {
    && r.parent.Keys <= dc.parent.Keys && r.doomed == dc.doomed
    && (forall x {:trigger Par(r.parent, x)} :: x in r.parent ==> Par(r.parent, x) == Par(dc.parent, x))
    && (forall x {:trigger Held(r, x)} :: Held(r, x) == Held(dc, x) - Loses(drop, x))
  }

  lemma ShrinksTrans(a: Cache, b: Cache, c: Cache, d1: set<nat>, d2: set<nat>)
    requires Shrinks(a, b, d1) && Shrinks(b, c, d2) && d1 !! d2
    ensures Shrinks(a, c, d1 + d2)
  {
    forall x ensures Held(c, x) == Held(a, x) - Loses(d1 + d2, x) {
      assert Held(c, x) == Held(b, x) - Loses(d2, x);
      assert Held(b, x) == Held(a, x) - Loses(d1, x);
    }
    forall x | x in c.parent ensures Par(c.parent, x) == Par(a.parent, x) {
      assert Par(c.parent, x) == Par(b.parent, x);
    }
  }

  /** Freeing `d` and dropping the reference it held on its parent. */
  lemma FreedShrinks(dc: Cache, d: nat, r: Cache, drop: set<nat>)
    requires InvBut(dc, {d}) && d in dc.parent && dc.kids[d] == []
    requires dc.parent[d] in dc.kids && drop <= {d} && Held(dc, d) == Loses(drop, d)
    requires if dc.parent[d] == d then r == Kill(dc, d) else Shrinks(Kill(dc, d), r, {dc.parent[d]})
    ensures Shrinks(dc, r, drop) && d !in r.parent
  {
    KillInv(dc, d);
    var k, p := Kill(dc, d), dc.parent[d];
    forall x ensures Held(r, x) == Held(dc, x) - Loses(drop, x) {
      assert Held(r, x) == Held(k, x) - Loses(if p == d then {} else {p}, x);
      assert x != d ==> Held(k, x) == Held(dc, x) + if x == p then 1 else 0;
      assert Held(k, d) == 0;
    }
    forall x | x in r.parent ensures Par(r.parent, x) == Par(dc.parent, x) {
      assert Par(r.parent, x) == Par(k.parent, x);
    }
  }

  // ---- dget

  /** __dget_locked by a successful lookup: the first reference takes the dentry off the unused list. */
  function Get(dc: Cache, d: nat): Cache
    requires d in dc.count
  {
    var listed := if dc.count[d] == 0 then dc.(unused := Without(dc.unused, d), nr := dc.nr - 1) else dc;
    listed.(count := dc.count[d := dc.count[d] + 1], refd := dc.refd + {d})
  }

  lemma GetKeeps(dc: Cache, d: nat)
    requires Inv(dc) && d in dc.count
    ensures Inv(Get(dc, d)) && Shrinks(Get(dc, d), dc, {d})
  {
    var r := Get(dc, d);
    WithoutIn(dc.unused, d);
    WithoutDistinct(dc.unused, d);
    WithoutSize(dc.unused, d);
    assert d in dc.unused <==> Idle(dc, d) && d !in {};
    forall x ensures Held(r, x) >= 0 && Held(dc, x) == Held(r, x) - Loses({d}, x) {
      assert Held(dc, x) >= 0;
    }
    forall x ensures x in r.unused <==> Idle(r, x) && x !in {} {
      assert x in dc.unused <==> Idle(dc, x) && x !in {};
    }
  }

  // ---- dput

  lemma StillUsed(dc: Cache, d: nat)
    requires Inv(dc) && d in dc.parent && Held(dc, d) > 0 && dc.count[d] > 1
    ensures var r := dc.(count := dc.count[d := dc.count[d] - 1]); Inv(r) && Shrinks(dc, r, {d})
  {
    var r := dc.(count := dc.count[d := dc.count[d] - 1]);
    forall x ensures Held(r, x) >= 0 && Held(r, x) == Held(dc, x) - Loses({d}, x) {
      assert Held(dc, x) >= 0;
    }
    forall x ensures x in r.unused <==> Idle(r, x) && x !in {} {
      assert x in dc.unused <==> Idle(dc, x) && x !in {};
    }
  }

  lemma NowUnused(dc: Cache, d: nat)
    requires Inv(dc) && d in dc.parent && Held(dc, d) > 0 && dc.count[d] == 1
    ensures var r := dc.(count := dc.count[d := 0], unused := [d] + dc.unused, nr := dc.nr + 1);
            Inv(r) && Shrinks(dc, r, {d})
  {
    var r := dc.(count := dc.count[d := 0], unused := [d] + dc.unused, nr := dc.nr + 1);
    forall x ensures Held(r, x) >= 0 && Held(r, x) == Held(dc, x) - Loses({d}, x) {
      assert Held(dc, x) >= 0;
    }
    forall x ensures x in r.unused <==> Idle(r, x) && x !in {} {
      assert x in dc.unused <==> Idle(dc, x) && x !in {};
    }
    assert d in dc.unused <==> Idle(dc, d) && d !in {};
    PushDistinct(dc.unused, d);
  }

  /** The last reference to `d` is that of the caller: it has no children and is not listed. */
  lemma LastHold(dc: Cache, d: nat)
    requires Inv(dc) && d in dc.parent && Held(dc, d) > 0 && dc.count[d] == 1
    ensures dc.kids[d] == [] && InvBut(dc, {d}) && Held(dc, d) == 1
  {
    forall x ensures x in dc.unused <==> Idle(dc, x) && x !in {d} {
      assert x in dc.unused <==> Idle(dc, x) && x !in {};
    }
  }

  lemma FewerDentries(dc: Cache, d: nat)
    requires d in dc.parent && dc.parent[d] in dc.kids
    ensures |Kill(dc, d).parent| < |dc.parent|
  {
    assert Kill(dc, d).parent.Keys == dc.parent.Keys - {d};
    assert |dc.parent.Keys| == |dc.parent| && |Kill(dc, d).parent.Keys| == |Kill(dc, d).parent|;
  }

  lemma CountKept(dc: Cache, r: Cache)
    requires r.parent.Keys <= dc.parent.Keys
    ensures |r.parent| <= |dc.parent|
  {
    CardinalityMonotone(r.parent.Keys, dc.parent.Keys);
    assert |dc.parent.Keys| == |dc.parent| && |r.parent.Keys| == |r.parent|;
  }

  /** What freeing `d` leaves, and that its parent is then held by the caller. */
  lemma AfterLastHold(dc: Cache, d: nat)
    requires Inv(dc) && d in dc.parent && Held(dc, d) > 0 && dc.count[d] == 1
    ensures dc.parent[d] in dc.kids && Inv(Kill(dc, d)) && |Kill(dc, d).parent| < |dc.parent|
    ensures dc.parent[d] != d ==> dc.parent[d] in Kill(dc, d).parent && Held(Kill(dc, d), dc.parent[d]) > 0
  {
    LastHold(dc, d);
    KillInv(dc, d);
    FewerDentries(dc, d);
    var k, p := Kill(dc, d), dc.parent[d];
    assert p != d ==> Held(k, p) == Held(dc, p) + 1 && Held(dc, p) >= 0;
  }

  /** dput, called by a holder of `d`: with the last reference gone, `d` is put on the unused list or
      freed; then the reference it held on its parent is dropped in the same way. */
  ghost function Put(dc: Cache, d: nat): Cache
    requires Inv(dc) && d in dc.parent && Held(dc, d) > 0
    decreases |dc.parent|
  {
    if dc.count[d] > 1 then
      dc.(count := dc.count[d := dc.count[d] - 1])
    else if d in dc.doomed || d !in dc.hashed then
      AfterLastHold(dc, d);
      if dc.parent[d] == d then Kill(dc, d) else Put(Kill(dc, d), dc.parent[d])
    else
      dc.(count := dc.count[d := 0], unused := [d] + dc.unused, nr := dc.nr + 1)
  }

  /** dput keeps the invariant, frees no dentry that is held, and drops the caller's hold only. */
  lemma {:induction false} PutKeeps(dc: Cache, d: nat)
    requires Inv(dc) && d in dc.parent && Held(dc, d) > 0
    ensures Inv(Put(dc, d)) && Shrinks(dc, Put(dc, d), {d})
    decreases |dc.parent|
  {
    if dc.count[d] > 1 {
      StillUsed(dc, d);
    } else if d in dc.doomed || d !in dc.hashed {
      AfterLastHold(dc, d);
      LastHold(dc, d);
      if dc.parent[d] != d { PutKeeps(Kill(dc, d), dc.parent[d]); }
      FreedShrinks(dc, d, Put(dc, d), {d});
    } else {
      NowUnused(dc, d);
    }
  }

  // ---- prune_dcache

  /** The tail of the unused list, removed from it. */
  function Unlisted(dc: Cache): Cache
    requires dc.unused != []
  {
    dc.(unused := dc.unused[..|dc.unused| - 1], nr := dc.nr - 1)
  }

  lemma UnlistedInv(dc: Cache)
    requires Inv(dc) && dc.unused != []
    ensures var d := dc.unused[|dc.unused| - 1];
            InvBut(Unlisted(dc), {d}) && d in dc.parent && dc.kids[d] == [] && Held(dc, d) == 0
  {
    var d, r := dc.unused[|dc.unused| - 1], Unlisted(dc);
    assert dc.unused == r.unused + [d];
    assert Idle(dc, d);
    assert Held(dc, d) >= 0;
    forall x ensures Held(r, x) >= 0 { assert Held(dc, x) >= 0; }
    forall x ensures x in r.unused <==> Idle(r, x) && x !in {d} {
      assert x in dc.unused <==> Idle(dc, x) && x !in {};
    }
  }

  lemma AfterUnlisting(dc: Cache)
    requires Inv(dc) && dc.unused != []
    ensures var d, u := dc.unused[|dc.unused| - 1], Unlisted(dc);
            && d in dc.parent && dc.parent[d] in dc.kids && Inv(Kill(u, d)) && |Kill(u, d).parent| < |dc.parent|
            && (dc.parent[d] != d ==> dc.parent[d] in Kill(u, d).parent && Held(Kill(u, d), dc.parent[d]) > 0)
  {
    var d, u := dc.unused[|dc.unused| - 1], Unlisted(dc);
    UnlistedInv(dc);
    KillInv(u, d);
    FewerDentries(u, d);
    var k, p := Kill(u, d), dc.parent[d];
    assert p != d ==> Held(k, p) == Held(u, p) + 1 && Held(u, p) >= 0;
  }

  /** prune_one_dentry, of the tail of the unused list. */
  ghost function Evict(dc: Cache): Cache
    requires Inv(dc) && dc.unused != []
  {
    AfterUnlisting(dc);
    var d, u := dc.unused[|dc.unused| - 1], Unlisted(dc);
    if dc.parent[d] == d then Kill(u, d) else Put(Kill(u, d), dc.parent[d])
  }

  lemma EvictKeeps(dc: Cache)
    requires Inv(dc) && dc.unused != []
    ensures Inv(Evict(dc)) && Shrinks(dc, Evict(dc), {}) && |Evict(dc).parent| < |dc.parent|
  {
    var d, u := dc.unused[|dc.unused| - 1], Unlisted(dc);
    AfterUnlisting(dc);
    UnlistedInv(dc);
    var k, p, r := Kill(u, d), dc.parent[d], Evict(dc);
    if p != d { PutKeeps(k, p); }
    FreedShrinks(u, d, r, {});
    UnlistedShrinks(dc, r);
    CountKept(k, r);
  }

  lemma UnlistedShrinks(dc: Cache, r: Cache)
    requires Inv(dc) && dc.unused != [] && Shrinks(Unlisted(dc), r, {})
    ensures Shrinks(dc, r, {})
  {
    forall x ensures Held(r, x) == Held(dc, x) - Loses({}, x) {
      assert Held(r, x) == Held(Unlisted(dc), x) - Loses({}, x);
    }
  }

  /** A recently referenced tail is spared: its flag is cleared and it goes to the head. */
  function Spare(dc: Cache): Cache
    requires dc.unused != []
  {
    var d := dc.unused[|dc.unused| - 1];
    dc.(unused := [d] + dc.unused[..|dc.unused| - 1], refd := dc.refd - {d})
  }

  lemma SpareInv(dc: Cache)
    requires Inv(dc) && dc.unused != []
    ensures Inv(Spare(dc)) && Shrinks(dc, Spare(dc), {})
  {
    var d, r := dc.unused[|dc.unused| - 1], Spare(dc);
    assert dc.unused == dc.unused[..|dc.unused| - 1] + [d];
    forall x ensures Held(r, x) >= 0 && Held(r, x) == Held(dc, x) - Loses({}, x) { assert Held(dc, x) >= 0; }
    forall x ensures x in r.unused <==> Idle(r, x) && x !in {} {
      assert x in dc.unused <==> Idle(dc, x) && x !in {};
    }
  }

  /** prune_dcache: from the tail of the unused list, until `n` dentries are freed or none is left. */
  ghost function Prune(dc: Cache, n: int): Cache
    requires Inv(dc)
    decreases |dc.parent|, |dc.refd|
  {
    if dc.unused == [] then
      dc
    else if dc.unused[|dc.unused| - 1] in dc.refd then
      SpareInv(dc);
      Prune(Spare(dc), n)
    else if n == 1 then
      Evict(dc)
    else
      EvictKeeps(dc);
      Prune(Evict(dc), n - 1)
  }

  /** What one turn of the pruning leaves to do. */
  ghost predicate Pruning(dc: Cache, r: Cache, n: int, m: int) {
    && Inv(dc) && Inv(r) && n - 1 <= m <= n && (m < n || r.unused != [])
    && (|r.parent| < |dc.parent| || (|r.parent| == |dc.parent| && |r.refd| < |dc.refd|))
    && if m == 0 && n == 1 then r == Prune(dc, n) else Prune(r, m) == Prune(dc, n)
  }

  lemma PruneSpares(dc: Cache, n: int)
    requires Inv(dc) && dc.unused != [] && dc.unused[|dc.unused| - 1] in dc.refd
    ensures Pruning(dc, Spare(dc), n, n)
  {
    SpareInv(dc);
  }

  lemma PruneEvicts(dc: Cache, n: int)
    requires Inv(dc) && dc.unused != [] && dc.unused[|dc.unused| - 1] !in dc.refd
    ensures Pruning(dc, Evict(dc), n, n - 1)
  {
    EvictKeeps(dc);
  }

  /** prune_dcache frees no dentry that is held, and frees one if any is unused. */
  lemma {:induction false} PruneKeeps(dc: Cache, n: int)
    requires Inv(dc)
    ensures var r := Prune(dc, n);
            && Inv(r) && Shrinks(dc, r, {}) && |r.parent| <= |dc.parent|
            && (dc.unused != [] ==> |r.parent| < |dc.parent|)
    decreases |dc.parent|, |dc.refd|
  {
    if dc.unused == [] {
    } else if dc.unused[|dc.unused| - 1] in dc.refd {
      SpareInv(dc);
      PruneKeeps(Spare(dc), n);
      ShrinksTrans(dc, Spare(dc), Prune(dc, n), {}, {});
    } else {
      EvictKeeps(dc);
      if n != 1 {
        PruneKeeps(Evict(dc), n - 1);
        ShrinksTrans(dc, Evict(dc), Prune(dc, n), {}, {});
      }
    }
  }

  // ---- select_parent

  /** The dentries among the first `i` after the top that have no references. */
  function Idles(order: seq<nat>, count: map<nat, nat>, i: nat): seq<nat>
    requires i < |order|
  {
    if i == 0 then [] else
      Idles(order, count, i - 1) + if order[i] in count && count[order[i]] == 0 then [order[i]] else []
  }

  /** Moving `x` from its place to the tail. */
  lemma MoveToTail(s: seq<nat>, zs: seq<nat>, x: nat)
    requires x !in zs
    ensures Without(Except(s, zs) + zs, x) + [x] == Except(s, zs + [x]) + (zs + [x])
  {
    WithoutConcat(Except(s, zs), zs, x);
    ExceptOne(s, zs, x);
    WithoutAbsent(zs, x);
  }

  lemma {:induction false} IdlesIn(order: seq<nat>, count: map<nat, nat>, i: nat)
    requires i < |order|
    ensures forall x :: x in Idles(order, count, i) ==> x in count && count[x] == 0
    ensures forall x :: x in Idles(order, count, i) ==> exists j :: 0 < j <= i && order[j] == x
    ensures forall j :: 0 < j <= i && order[j] in count && count[order[j]] == 0 ==> order[j] in Idles(order, count, i)
  {
    if i > 0 { IdlesIn(order, count, i - 1); }
  }

  lemma {:induction false} IdlesDistinct(order: seq<nat>, count: map<nat, nat>, i: nat)
    requires i < |order| && Distinct(order)
    ensures Distinct(Idles(order, count, i))
  {
    if i > 0 {
      IdlesDistinct(order, count, i - 1);
      IdlesIn(order, count, i - 1);
      JoinDistinct(Idles(order, count, i - 1), if order[i] in count && count[order[i]] == 0 then [order[i]] else []);
    }
  }

  /** select_parent: the unused dentries below `top` go to the tail of the unused list, in preorder. */
  ghost function Selected(dc: Cache, top: nat): seq<nat>
    requires Inv(dc) && top in dc.parent
  {
    var l := LayoutOf(TreeOf(dc), top);
    Idles(l.order, dc.count, |l.order| - 1)
  }

  ghost function Select(dc: Cache, top: nat): Cache
    requires Inv(dc) && top in dc.parent
  {
    dc.(unused := Except(dc.unused, Selected(dc, top)) + Selected(dc, top))
  }

  lemma SelectInv(dc: Cache, top: nat)
    requires Inv(dc) && top in dc.parent
    ensures Inv(Select(dc, top)) && Shrinks(dc, Select(dc, top), {})
    ensures forall x :: x in Selected(dc, top) <==> Idle(dc, x) && Below(dc.parent, x, top) && x != top
  {
    var r, zs := Select(dc, top), Selected(dc, top);
    SelectedExactly(dc, top);
    var l := LayoutOf(TreeOf(dc), top);
    IdlesDistinct(l.order, dc.count, |l.order| - 1);
    ExceptIn(dc.unused, zs);
    ExceptDistinct(dc.unused, zs);
    JoinDistinct(Except(dc.unused, zs), zs);
    forall x ensures x in r.unused <==> Idle(r, x) && x !in {} {
      assert x in dc.unused <==> Idle(dc, x) && x !in {};
    }
    assert forall x :: x in r.unused <==> x in dc.unused by {
      forall x ensures x in r.unused <==> x in dc.unused {
        assert x in dc.unused <==> Idle(dc, x) && x !in {};
      }
    }
    SameLength(r.unused, dc.unused);
    forall x ensures Held(r, x) >= 0 && Held(r, x) == Held(dc, x) - Loses({}, x) { assert Held(dc, x) >= 0; }
  }

  lemma SelectedExactly(dc: Cache, top: nat)
    requires Inv(dc) && top in dc.parent
    ensures forall x :: x in Selected(dc, top) <==> Idle(dc, x) && Below(dc.parent, x, top) && x != top
  {
    var tr := TreeOf(dc);
    var l := LayoutOf(tr, top);
    IdlesIn(l.order, dc.count, |l.order| - 1);
    forall x ensures x in Selected(dc, top) <==> Idle(dc, x) && Below(dc.parent, x, top) && x != top {
      LaidExactly(tr, top, l, x);
    }
  }

  // ---- shrink_dcache_parent

  /** Below `top` every dentry has references. */
  ghost predicate AllUsed(dc: Cache, top: nat) {
    forall x {:trigger Idle(dc, x)} :: x != top && Below(dc.parent, x, top) ==> !Idle(dc, x)
  }

  /** Someone holds `x` or a dentry below it. */
  ghost predicate Busy(dc: Cache, x: nat) {
    exists y :: Below(dc.parent, y, x) && Held(dc, y) > 0
  }

  /** Of the dentries below `top`, exactly the busy ones are left. */
  lemma ShrunkExactly(dc: Cache, r: Cache, top: nat, x: nat)
    requires Inv(dc) && Inv(r) && Shrinks(dc, r, {}) && top in r.parent && AllUsed(r, top)
    requires x in dc.parent && x != top && Below(dc.parent, x, top)
    ensures x in r.parent <==> Busy(dc, x)
  {
    if x in r.parent {
      BelowKept(dc, r, x, top);
      FindHeld(dc, r, top, x);
    }
    if Busy(dc, x) {
      var y :| Below(dc.parent, y, x) && Held(dc, y) > 0;
      assert Held(r, y) == Held(dc, y) - Loses({}, y);
      BelowKept(dc, r, y, x);
    }
  }

  /** Ancestors of what is left are left, and the same as before. */
  lemma BelowKept(dc: Cache, r: Cache, y: nat, x: nat)
    requires Inv(r) && Shrinks(dc, r, {}) && y in r.parent
    ensures Below(r.parent, y, x) <==> Below(dc.parent, y, x)
    ensures Below(dc.parent, y, x) ==> x in r.parent
  {
    forall n: nat ensures Up(r.parent, y, n) == Up(dc.parent, y, n) && Up(r.parent, y, n) in r.parent {
      UpKept(dc, r, y, n);
    }
  }

  lemma {:induction false} UpKept(dc: Cache, r: Cache, y: nat, n: nat)
    requires Inv(r) && Shrinks(dc, r, {}) && y in r.parent
    ensures Up(r.parent, y, n) == Up(dc.parent, y, n) && Up(r.parent, y, n) in r.parent
    decreases n
  {
    if n > 0 {
      ClosedTree(TreeOf(r), y);
      assert Par(r.parent, y) == Par(dc.parent, y);
      UpKept(dc, r, Par(r.parent, y), n - 1);
    }
  }

  /** A dentry that is only referenced by its children has one; going down ends at a held one. */
  lemma {:induction false} FindHeld(dc: Cache, r: Cache, top: nat, x: nat)
    requires Inv(r) && Shrinks(dc, r, {}) && AllUsed(r, top) && x in r.parent && x != top && Below(r.parent, x, top)
    ensures Busy(dc, x)
    decreases |Subtree(TreeOf(r), x)|
  {
    var tr := TreeOf(r);
    assert Held(r, x) == Held(dc, x) - Loses({}, x);
    if Held(r, x) > 0 {
      BelowSelf(dc.parent, x);
    } else {
      assert !Idle(r, x) && Held(r, x) >= 0;
      var c := r.kids[x][0];
      assert IsChild(tr, x, c);
      SmallerSubtree(tr, x, c);
      ChildNotAbove(r.parent, c);
      ParentBelow(r.parent, c);
      BelowTrans(r.parent, c, x, top);
      FindHeld(dc, r, top, c);
      var y :| Below(dc.parent, y, c) && Held(dc, y) > 0;
      BelowKept(dc, r, c, x);
      BelowTrans(dc.parent, y, c, x);
    }
  }
}
