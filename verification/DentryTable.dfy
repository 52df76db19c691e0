/** The dentry cache as it is changed in place: dput, prune_dcache, select_parent, have_submounts and
    shrink_dcache_parent (fs/dcache.c:118-160, 294-352, 432-537). */
module DentryTables {
  import opened DentryCache
  import opened DentryFrees
  import opened Forests
  import opened Lists
  import opened TreeLayout

  class DentryTable {
    var parent: map<nat, nat>
    var kids: map<nat, seq<nat>>
    var count: map<nat, nat>
    var hashed: set<nat>
    var refd: set<nat>
    const doomed: set<nat>
    var unused: seq<nat>
    var nr: int

    function Abs(): Cache
      reads this
    {
      Cache(parent, kids, count, hashed, refd, doomed, unused, nr)
    }

    /** list_del of d_child and d_free (lines 146-154 and 298-302). */
    method Free(d: nat) returns (p: nat)
      requires d in parent && parent[d] in kids
      modifies this
      ensures Abs() == Kill(old(Abs()), d) && p == old(parent)[d]
    {
      p := parent[d];
      kids := kids[p := Without(kids[p], d)];
      hashed := hashed - {d};
      parent, kids, count, refd := parent - {d}, kids - {d}, count - {d}, refd - {d};
    }

    /** __dget_locked, and the flag d_lookup sets. */
    method DgetLocked(d: nat)
      requires Inv(Abs()) && d in parent
      modifies this
      ensures Abs() == Get(old(Abs()), d) && Inv(Abs())
      ensures count == old(count)[d := old(count)[d] + 1] && unused == Without(old(unused), d) && d !in unused
      ensures parent == old(parent) && kids == old(kids) && hashed == old(hashed) && refd == old(refd) + {d}
    {
      GetKeeps(Abs(), d);
      GetMeans(Abs(), d);
      count := count[d := count[d] + 1];
      if count[d] == 1 {
        nr := nr - 1;
        unused := Without(unused, d);
      }
      refd := refd + {d};
    }

    /** The loop of dput, from `repeat` on. */
    method DropRefs(d0: nat)
      requires Inv(Abs()) && d0 in parent && Held(Abs(), d0) > 0
      modifies this
      ensures Abs() == Put(old(Abs()), d0)
    {
      var d := d0;
      while true
        invariant Inv(Abs()) && d in parent && Held(Abs(), d) > 0
        invariant Put(Abs(), d) == Put(old(Abs()), d0)
        decreases |parent|
      {
        if count[d] > 1 {
          count := count[d := count[d] - 1];
          return;
        }
        if d !in doomed && d in hashed {
          count := count[d := 0];
          unused := [d] + unused;
          nr := nr + 1;
          return;
        }
        AfterLastHold(Abs(), d);
        var p := Free(d);
        if p == d {
          return;
        }
        d := p;
      }
    }

    /** dput. */
    method Dput(d0: nat)
      requires Inv(Abs()) && d0 in parent && Held(Abs(), d0) > 0
      modifies this
      ensures Abs() == Put(old(Abs()), d0) && Released(old(Abs()), Abs(), d0)
    {
      PutMeans(Abs(), d0);
      DropRefs(d0);
    }

    /** The tail of the unused list is taken off it. */
    method DropTail() returns (d: nat)
      requires unused != []
      modifies this
      ensures Abs() == Unlisted(old(Abs())) && d == old(unused)[|old(unused)| - 1]
    {
      d := unused[|unused| - 1];
      unused := unused[..|unused| - 1];
      nr := nr - 1;
    }

    /** The dentry at the tail is taken off and freed: lines 332-347. */
    method PruneOne()
      requires Inv(Abs()) && unused != []
      modifies this
      ensures Abs() == Evict(old(Abs()))
    {
      AfterUnlisting(Abs());
      var d := DropTail();
      var p := Free(d);
      if p != d {
        Dput(p);
      }
    }

    /** A dentry that was referenced goes back to the front. */
    method SpareOne()
      requires unused != []
      modifies this`unused, this`refd
      ensures Abs() == Spare(old(Abs()))
    {
      var d := unused[|unused| - 1];
      refd := refd - {d};
      unused := [d] + unused[..|unused| - 1];
    }

    /** One turn of prune_dcache: the tail is spared, or freed and counted. */
    method PruneTurn(n: int) returns (m: int)
      requires Inv(Abs()) && unused != []
      modifies this
      ensures Pruning(old(Abs()), Abs(), n, m)
    {
      var d := unused[|unused| - 1];
      m := n;
      if d in refd {
        PruneSpares(Abs(), n);
        SpareOne();
      } else {
        PruneEvicts(Abs(), n);
        PruneOne();
        m := n - 1;
      }
    }

    /** prune_dcache. */
    method PruneDcache(count0: int)
      requires Inv(Abs())
      modifies this
      ensures Abs() == Prune(old(Abs()), count0) && Pruned(old(Abs()), Abs(), count0)
    {
      PruneMeans(Abs(), count0);
      var n := count0;
      while unused != []
        invariant Inv(Abs()) && Prune(Abs(), n) == Prune(old(Abs()), count0)
        decreases |parent|, |refd|
      {
        var m := PruneTurn(n);
        if m == 0 && m < n {
          return;
        }
        n := m;
      }
    }

    /** have_submounts: is a dentry at or below `top` a mount point? */
    method HaveSubmounts(top: nat, mountpoints: set<nat>) returns (r: bool)
      requires Inv(Abs()) && top in parent
      ensures r <==> exists x :: x in mountpoints && Below(parent, x, top)
    {
      BelowSelf(parent, top);
      if top in mountpoints {
        return true;
      }
      ghost var tr := TreeOf(Abs());
      ghost var l := LayoutOf(tr, top);
      var tp, k: nat := top, 0;
      ghost var i: nat := 0;
      WalkStart(tr, top, l);
      while k < |kids[tp]| || tp != top
        invariant WalkAt(tr, l, tp, k, i)
        invariant forall j :: 0 <= j <= i ==> l.order[j] !in mountpoints
        decreases |l.order| - i, l.at[tp]
      {
        if k < |kids[tp]| {
          WalkVisit(tr, top, l, tp, k, i);
          var dentry := kids[tp][k];
          i := i + 1;
          if dentry in mountpoints {
            LaidExactly(tr, top, l, dentry);
            return true;
          }
          if kids[dentry] != [] {
            tp, k := dentry, 0;
          } else {
            k := k + 1;
          }
        } else {
          WalkAscend(tr, top, l, tp, i);
          k := IndexOf(kids[parent[tp]], tp) + 1;
          tp := parent[tp];
        }
      }
      forall x | x in mountpoints ensures !Below(parent, x, top) {
        LaidExactly(tr, top, l, x);
      }
      return false;
    }

    /** The tail of the unused list receives an unused dentry (lines 491-495). */
    method ToTail(dentry: nat, found: int, ghost dc: Cache, ghost top: nat, ghost l: Layout, ghost i: nat)
      returns (found': int)
      requires Selecting(dc, Abs(), top, l, i, found) && i + 1 < |l.order| && l.order[i + 1] == dentry
      modifies this`unused
      ensures Selecting(dc, Abs(), top, l, i + 1, found')
    {
      ghost var zs := Idles(l.order, dc.count, i);
      found' := found;
      assert InTree(l, dentry) && zs + [] == zs;
      if count[dentry] == 0 {
        NotYet(l, dc.count, i);
        MoveToTail(dc.unused, zs, dentry);
        unused := Without(unused, dentry) + [dentry];
        found' := found + 1;
      }
    }

    /** The walk of select_parent goes on to the next child (lines 487-507). */
    method SelectChild(tp: nat, k: nat, found: int, ghost dc: Cache, ghost top: nat, ghost l: Layout, ghost i: nat)
      returns (tp': nat, k': nat, found': int)
      requires WalkAt(TreeOf(dc), l, tp, k, i) && Selecting(dc, Abs(), top, l, i, found) && k < |dc.kids[tp]|
      modifies this`unused
      ensures WalkAt(TreeOf(dc), l, tp', k', i + 1) && Selecting(dc, Abs(), top, l, i + 1, found')
    {
      WalkVisit(TreeOf(dc), top, l, tp, k, i);
      var dentry := kids[tp][k];
      found' := ToTail(dentry, found, dc, top, l, i);
      if kids[dentry] != [] {
        tp', k' := dentry, 0;
      } else {
        tp', k' := tp, k + 1;
      }
    }

    /** The walk climbs to what follows its finished subtree (lines 511-519). */
    method Climb(tp: nat, ghost dc: Cache, ghost top: nat, ghost l: Layout, ghost i: nat) returns (tp': nat, k: nat)
      requires Inv(dc) && Laid(TreeOf(dc), top, l) && tp != top && kids == dc.kids && parent == dc.parent
      requires tp in dc.kids && WalkAt(TreeOf(dc), l, tp, |dc.kids[tp]|, i)
      ensures WalkAt(TreeOf(dc), l, tp', k, i) && tp in l.at && l.at[tp'] < l.at[tp]
    {
      WalkAscend(TreeOf(dc), top, l, tp, i);
      k := IndexOf(kids[parent[tp]], tp) + 1;
      tp' := parent[tp];
    }

    /** The goto walk of select_parent, along a layout of the tree below `top`. */
    method SelectWalk(top: nat, ghost dc: Cache, ghost l: Layout) returns (found: int, ghost i: nat)
      requires Abs() == dc && Inv(dc) && Laid(TreeOf(dc), top, l)
      modifies this`unused
      ensures Selecting(dc, Abs(), top, l, i, found) && l.end[top] == i + 1
    {
      var tp, k: nat := top, 0;
      i, found := 0, 0;
      WalkStart(TreeOf(dc), top, l);
      ExceptNone(unused);
      while k < |kids[tp]| || tp != top
        invariant WalkAt(TreeOf(dc), l, tp, k, i) && Selecting(dc, Abs(), top, l, i, found)
        decreases |l.order| - i, l.at[tp]
      {
        if k < |kids[tp]| {
          tp, k, found := SelectChild(tp, k, found, dc, top, l, i);
          i := i + 1;
        } else {
          tp, k := Climb(tp, dc, top, l, i);
        }
      }
    }

    /** select_parent. */
    method SelectParent(top: nat) returns (found: int)
      requires Inv(Abs()) && top in parent
      modifies this`unused
      ensures Abs() == Select(old(Abs()), top) && found == |Selected(old(Abs()), top)|
    {
      ghost var l := LayoutOf(TreeOf(Abs()), top);
      ghost var i;
      found, i := SelectWalk(top, Abs(), l);
    }

    /** shrink_dcache_parent: in the end no dentry below `top` is unused. */
    method ShrinkDcacheParent(top: nat)
      requires Inv(Abs()) && top in parent && Held(Abs(), top) > 0
      modifies this
      ensures Inv(Abs()) && Shrinks(old(Abs()), Abs(), {}) && top in parent && AllUsed(Abs(), top)
      ensures forall x {:trigger Busy(old(Abs()), x)} :: x in old(parent) && x != top && Below(old(parent), x, top) ==>
                (x in parent <==> Busy(old(Abs()), x))
    {
      ghost var dc := Abs();
      SelectInv(dc, top);
      var found := SelectParent(top);
      ghost var before := dc;
      while found != 0
        invariant Inv(before) && top in before.parent && Abs() == Select(before, top)
        invariant found == |Selected(before, top)|
        invariant Inv(Abs()) && Shrinks(dc, Abs(), {})
        decreases |parent|
      {
        ghost var selected := Abs();
        assert unused != [];
        PruneKeeps(Abs(), found);
        PruneDcache(found);
        ShrinksTrans(dc, selected, Abs(), {}, {});
        assert Held(Abs(), top) == Held(dc, top) - Loses({}, top);
        before := Abs();
        SelectInv(before, top);
        found := SelectParent(top);
        ShrinksTrans(dc, before, Abs(), {}, {});
      }
      NoneSelected(before, top);
      forall x | x in dc.parent && x != top && Below(dc.parent, x, top) ensures x in parent <==> Busy(dc, x) {
        ShrunkExactly(dc, Abs(), top, x);
      }
    }
  }

  /** select_parent after `i` dentries below `top`. */
  ghost predicate Selecting(dc: Cache, r: Cache, top: nat, l: Layout, i: nat, found: int) {
    && Inv(dc) && Laid(TreeOf(dc), top, l) && i < |l.order|
    && r == dc.(unused := Except(dc.unused, Idles(l.order, dc.count, i)) + Idles(l.order, dc.count, i))
    && found == |Idles(l.order, dc.count, i)|
  }

  lemma NotYet(l: Layout, count: map<nat, nat>, i: nat)
    requires Positions(l) && i + 1 < |l.order|
    ensures l.order[i + 1] !in Idles(l.order, count, i)
  {
    IdlesIn(l.order, count, i);
  }

  lemma NoneSelected(dc: Cache, top: nat)
    requires Inv(dc) && top in dc.parent && Selected(dc, top) == []
    ensures Select(dc, top) == dc && AllUsed(dc, top)
  {
    ExceptNone(dc.unused);
    SelectInv(dc, top);
    forall x | x != top && Below(dc.parent, x, top) ensures !Idle(dc, x) {
      assert x !in Selected(dc, top);
    }
  }
}
