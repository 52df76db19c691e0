/** Moving a mount and pivoting the root (fs/namespace.c:550-608, 900-963). */
module MountMoves {
  import opened Forests
  import opened Lists
  import opened MountTree
  import opened TreeLayout
  import opened Options

  // ---- do_move_mount, lines 596-597

  function Move(ns: NS, m: nat, p: nat, d: nat): NS
    requires Fields(ns) && m in ns.parent && p in ns.parent
  {
    DetachFields(ns, m);
    Attach(Detach(ns, m), m, p, d)
  }

  /** A mount moved to a place that is not below it leaves the tree a forest and all indexes right. */
  lemma MoveInv(ns: NS, m: nat, p: nat, d: nat)
    requires Inv(ns) && Attached(ns, m) && p in ns.parent && !Below(ns.parent, p, m)
    ensures Inv(Move(ns, m, p, d))
  {
    DetachInv(ns, m);
    BelowElsewhere(ns.parent, m, m, p, m);
    AttachInv(Detach(ns, m), m, p, d);
  }

  /** From `ns` to `r` only the mounts of `moved` hang elsewhere, and only the child lists of `lists` changed; no
      mount shows another root or superblock. */
  predicate OnlyMoved(ns: NS, r: NS, moved: set<nat>, lists: set<nat>) {
    && r.parent.Keys == ns.parent.Keys && r.point.Keys == ns.point.Keys && r.kids.Keys == ns.kids.Keys
    && (forall x :: x in ns.parent && x !in moved ==> r.parent[x] == ns.parent[x])
    && (forall x :: x in ns.point && x !in moved ==> r.point[x] == ns.point[x])
    && (forall x :: x in ns.kids && x !in lists ==> r.kids[x] == ns.kids[x])
    && r.root == ns.root && r.sb == ns.sb
  }

  /** The mount hangs on dentry `d` of `p` and comes first among the children of `p`; nothing else moves. */
  lemma MoveMeans(ns: NS, m: nat, p: nat, d: nat)
    requires Fields(ns) && m in ns.parent && p in ns.parent && p != m
    ensures var r := Move(ns, m, p, d);
            && OnlyMoved(ns, r, {m}, {p, ns.parent[m]}) && HangsOn(r, m, p, d)
  {
    DetachMeans(ns, m);
    var n1 := Detach(ns, m);
    AttachMeans(n1, m, p, d);
    MovedWider(ns, n1, {m}, {m}, {p, ns.parent[m]}, {ns.parent[m]});
    MovedMore(ns, n1, Attach(n1, m, p, d), {m}, {m}, {p, ns.parent[m]}, {p});
  }

  /** Its old parent loses it from its child list, and its new one has it in front. */
  lemma MoveLists(ns: NS, m: nat, p: nat, d: nat)
    requires Inv(ns) && Attached(ns, m) && p in ns.parent && p != m
    ensures var r, q := Move(ns, m, p, d), ns.parent[m];
            && q in ns.kids && r.kids[p] == [m] + Without(ns.kids[p], m)
            && (q != p ==> r.kids[q] == Without(ns.kids[q], m))
  {
    var q := Par(ns.parent, m);
    assert IsKid(ns, q, m);
    if q != p {
      assert !IsKid(ns, p, m);
      WithoutAbsent(ns.kids[p], m);
    }
  }

  /** After a move the place moved to shows the mount, and every place that did not show it before shows what it
      showed. */
  lemma MoveShows(ns: NS, m: nat, p: nat, d: nat, p': nat, d': nat)
    requires Inv(ns) && Attached(ns, m) && p in ns.parent && !Below(ns.parent, p, m)
    ensures Visible(Move(ns, m, p, d), p, d) == Some(m)
    ensures (p' != p || d' != d) && Visible(ns, p', d') != Some(m) ==>
              Visible(Move(ns, m, p, d), p', d') == Visible(ns, p', d')
  {
    BelowSelf(ns.parent, m);
    DetachInv(ns, m);
    AttachShows(Detach(ns, m), m, p, d, p, d);
    AttachShows(Detach(ns, m), m, p, d, p', d');
    if Visible(ns, p', d') != Some(m) { DetachShows(ns, m, p', d'); }
  }

  // ---- sys_pivot_root, lines 960-963

  /** Detach `new` and `user`, hang `user` on (om, od), and `new` where `user` was. */
  function Pivot(ns: NS, new_: nat, user: nat, om: nat, od: nat): NS
    requires Fields(ns) && new_ in ns.parent && user in ns.parent && om in ns.parent
  {
    DetachFields(ns, new_);
    var n1 := Detach(ns, new_);
    DetachFields(n1, user);
    var p, d := Par(n1.parent, user), n1.point[user];
    var n2 := Detach(n1, user);
    AttachFields(n2, user, om, od);
    Attach(Attach(n2, user, om, od), new_, p, d)
  }

  /** What sys_pivot_root has checked: put_old is reachable from the new root, and neither is the
      current root. */
  ghost predicate PivotChecked(ns: NS, new_: nat, user: nat, om: nat) {
    && new_ in ns.parent && user in ns.parent && om in ns.parent
    && new_ != user && om != user && Below(ns.parent, om, new_)
  }

  /** What it has not checked. */
  ghost predicate PivotSafe(ns: NS, new_: nat, user: nat) {
    Attached(ns, user) && Attached(ns, new_) && !Below(ns.parent, user, new_)
  }

  function PivotParent(par: map<nat, nat>, new_: nat, user: nat, om: nat): map<nat, nat> {
    par[new_ := new_][user := user][user := om][new_ := Par(par[new_ := new_], user)]
  }

  lemma PivotParents(ns: NS, new_: nat, user: nat, om: nat, od: nat)
    requires Fields(ns) && new_ in ns.parent && user in ns.parent && om in ns.parent
    ensures Pivot(ns, new_, user, om, od).parent == PivotParent(ns.parent, new_, user, om)
  {
  }

  lemma DetachMeans(ns: NS, m: nat)
    requires Fields(ns) && m in ns.parent
    ensures var r := Detach(ns, m);
            Fields(r) && r.parent[m] == m && OnlyMoved(ns, r, {m}, {ns.parent[m]})
  {
    DetachFields(ns, m);
  }

  lemma AttachMeans(ns: NS, m: nat, p: nat, d: nat)
    requires Fields(ns) && m in ns.parent && p in ns.parent
    ensures var r := Attach(ns, m, p, d);
            Fields(r) && r.parent[m] == p && r.point[m] == d && OnlyMoved(ns, r, {m}, {p})
  {
    AttachFields(ns, m, p, d);
  }

  lemma MovedMore(a: NS, b: NS, c: NS, moved: set<nat>, moved': set<nat>, lists: set<nat>, lists': set<nat>)
    requires OnlyMoved(a, b, moved, lists) && OnlyMoved(b, c, moved', lists') && moved' <= moved && lists' <= lists
    ensures OnlyMoved(a, c, moved, lists)
  {
  }

  lemma MovedWider(a: NS, b: NS, moved: set<nat>, moved': set<nat>, lists: set<nat>, lists': set<nat>)
    requires OnlyMoved(a, b, moved', lists') && moved' <= moved && lists' <= lists
    ensures OnlyMoved(a, b, moved, lists)
  {
  }

  /** One mount taken off, another moved, and the first hung up again. */
  lemma FourSteps(ns: NS, n1: NS, n2: NS, n3: NS, n4: NS, new_: nat, user: nat, q: nat, p: nat, om: nat)
    requires OnlyMoved(ns, n1, {new_}, {q}) && OnlyMoved(n1, n2, {user}, {p})
    requires OnlyMoved(n2, n3, {user}, {om}) && OnlyMoved(n3, n4, {new_}, {p})
    ensures OnlyMoved(ns, n4, {new_, user}, {q, p, om})
  {
    var moved, lists := {new_, user}, {q, p, om};
    MovedWider(ns, n1, moved, {new_}, lists, {q});
    MovedMore(ns, n1, n2, moved, {user}, lists, {p});
    MovedMore(ns, n2, n3, moved, {user}, lists, {om});
    MovedMore(ns, n3, n4, moved, {new_}, lists, {p});
  }

  /** The steps of Pivot, named. */
  lemma PivotSteps(ns: NS, new_: nat, user: nat, om: nat, od: nat, n1: NS, n2: NS, n3: NS)
    requires Fields(ns) && new_ in ns.parent && user in ns.parent && om in ns.parent && new_ != user
    requires n1 == Detach(ns, new_) && Fields(n1) && user in n1.parent && n2 == Detach(n1, user)
    requires Fields(n2) && user in n2.parent && om in n2.parent && n3 == Attach(n2, user, om, od)
    ensures Fields(n3) && new_ in n3.parent && ns.parent[user] in n3.parent
    ensures Pivot(ns, new_, user, om, od) == Attach(n3, new_, ns.parent[user], ns.point[user])
  {
    AttachFields(n2, user, om, od);
  }

  /** The old root hangs on (om, od), the new root where the old one hung, and nothing else moves. */
  lemma PivotMeans(ns: NS, new_: nat, user: nat, om: nat, od: nat)
    requires Fields(ns) && new_ in ns.parent && user in ns.parent && om in ns.parent && new_ != user
    ensures var r := Pivot(ns, new_, user, om, od);
            && OnlyMoved(ns, r, {new_, user}, {ns.parent[new_], ns.parent[user], om})
            && r.parent[user] == om && r.point[user] == od
            && r.parent[new_] == ns.parent[user] && r.point[new_] == ns.point[user]
  {
    var p, d := ns.parent[user], ns.point[user];
    DetachMeans(ns, new_);
    var n1 := Detach(ns, new_);
    DetachMeans(n1, user);
    var n2 := Detach(n1, user);
    AttachMeans(n2, user, om, od);
    var n3 := Attach(n2, user, om, od);
    PivotSteps(ns, new_, user, om, od, n1, n2, n3);
    AttachMeans(n3, new_, p, d);
    FourSteps(ns, n1, n2, n3, Pivot(ns, new_, user, om, od), new_, user, ns.parent[new_], p, om);
  }

  /** `om` is not below `user` once `new` has been cut off. */
  lemma OldNotBelowUser(par: map<nat, nat>, new_: nat, user: nat, om: nat)
    requires new_ != user && Below(par, om, new_) && !Below(par, user, new_)
    ensures !Below(par[new_ := new_], om, user)
  {
    var par1 := par[new_ := new_];
    BelowCut(par, new_, new_, om);
    BelowElsewhere(par, new_, new_, user, new_);
    var n: nat :| Up(par1, om, n) == new_;
    forall k: nat ensures Up(par1, om, k) != user {
      if k <= n {
        UpAdd(par1, om, k, n - k);
      } else {
        UpAdd(par1, om, n, k - n);
        UpRoot(par1, new_, k - n);
      }
    }
  }

  /** The place of `user` is not below `new`, before and after `user` has moved. */
  lemma PlaceNotBelowNew(par: map<nat, nat>, new_: nat, user: nat, om: nat)
    requires Forest(par) && new_ != user && !IsRoot(par, user) && !Below(par, user, new_)
    ensures var par1 := par[new_ := new_];
            Par(par1, user) == Par(par, user) && !Below(par1[user := user][user := om], Par(par, user), new_)
  {
    var par1 := par[new_ := new_];
    var p := Par(par, user);
    if Below(par, p, new_) { ParentBelow(par, user); BelowTrans(par, user, p, new_); }
    ChildNotAbove(par, user);
    BelowElsewhere(par, new_, new_, p, new_);
    BelowElsewhere(par, new_, new_, p, user);
    BelowElsewhere(par1, user, user, p, new_);
    BelowElsewhere(par1, user, user, p, user);
    BelowElsewhere(par1[user := user], user, om, p, new_);
  }

  /** With both mounts attached and the current root not below the new one, pivoting keeps the
      tree a forest and all indexes right. */
  lemma PivotInv(ns: NS, new_: nat, user: nat, om: nat, od: nat)
    requires Inv(ns) && PivotChecked(ns, new_, user, om) && PivotSafe(ns, new_, user)
    ensures Inv(Pivot(ns, new_, user, om, od))
  {
    var par := ns.parent;
    var par1 := par[new_ := new_];
    var n1 := Detach(ns, new_);
    DetachInv(ns, new_);
    assert n1.parent == par1;
    var n2 := Detach(n1, user);
    DetachInv(n1, user);
    OldNotBelowUser(par, new_, user, om);
    BelowElsewhere(par1, user, user, om, user);
    AttachInv(n2, user, om, od);
    PlaceNotBelowNew(par, new_, user, om);
    AttachInv(Attach(n2, user, om, od), new_, Par(par1, user), n1.point[user]);
  }

  // ---- without those conditions pivot_root breaks the tree

  ghost predicate MeetsBy(par: map<nat, nat>, x: nat, m: nat, k: nat) {
    exists j: nat :: j <= k && Up(par, x, j) == m
  }

  /** A way up to `m` that avoids `u` is still there when the parents of `m` and `u` have changed. */
  lemma PathKept(par: map<nat, nat>, par': map<nat, nat>, x: nat, m: nat, u: nat)
    requires Below(par, x, m)
    requires forall y :: y != m && y != u ==> Par(par', y) == Par(par, y)
    requires forall k: nat :: Up(par, x, k) == u ==> MeetsBy(par, x, m, k)
    ensures Below(par', x, m)
  {
    var n: nat :| Up(par, x, n) == m;
    var first := FirstMeeting(par, x, m, n);
    forall k: nat | k < first ensures Par(par', Up(par, x, k)) == Par(par, Up(par, x, k)) {
      assert Up(par, x, k) != m && !MeetsBy(par, x, m, k);
    }
    UpSame(par, par', x, first);
  }

  lemma CycleBreaks(par: map<nat, nat>, m: nat)
    requires Par(par, m) != m && Below(par, Par(par, m), m)
    ensures !Forest(par)
  {
    var n: nat :| Up(par, Par(par, m), n) == m;
    assert Up(par, m, n + 1) == m;
    if Grounded(par, m) { NoCycle(par, m, n + 1); }
  }

  /** The current root has no parent: it ends up below the new root and the new root on it. */
  lemma PivotUnattached(ns: NS, new_: nat, user: nat, om: nat, od: nat)
    requires Inv(ns) && PivotChecked(ns, new_, user, om) && !Attached(ns, user)
    ensures !Forest(Pivot(ns, new_, user, om, od).parent)
  {
    var par := ns.parent;
    var par4 := PivotParent(par, new_, user, om);
    PivotParents(ns, new_, user, om, od);
    assert Par(par4, user) == om && Par(par4, new_) == user;
    MeetsBeforeRoot(par, om, new_, user);
    PathKept(par, par4, om, new_, user);
    ParentBelow(par4, new_);
    BelowTrans(par4, om, new_, user);
    CycleBreaks(par4, user);
  }

  /** On the way up to a root everything above the start has been met. */
  lemma MeetsBeforeRoot(par: map<nat, nat>, x: nat, m: nat, root: nat)
    requires Below(par, x, m) && IsRoot(par, root) && m != root
    ensures forall k: nat :: Up(par, x, k) == root ==> MeetsBy(par, x, m, k)
  {
    forall k: nat | Up(par, x, k) == root ensures MeetsBy(par, x, m, k) {
      var n: nat :| Up(par, x, n) == m;
      if n > k {
        UpAdd(par, x, k, n - k);
        UpRoot(par, root, n - k);
      }
    }
  }

  /** The current root is below the new root, and not directly on it: the new root ends up below itself. */
  lemma PivotBelow(ns: NS, new_: nat, user: nat, om: nat, od: nat)
    requires Inv(ns) && PivotChecked(ns, new_, user, om) && Attached(ns, user) && Below(ns.parent, user, new_)
    requires Par(ns.parent, user) != new_
    ensures !Forest(Pivot(ns, new_, user, om, od).parent)
  {
    var par := ns.parent;
    var p := Par(par, user);
    var par4 := PivotParent(par, new_, user, om);
    PivotParents(ns, new_, user, om, od);
    assert Par(par4, new_) == p;
    BelowStep(par, user, new_);
    ChildNotAbove(par, user);
    PathKept(par, par4, p, new_, user);
    CycleBreaks(par4, new_);
  }

  /** The current root hangs on the new root itself: the new root ends up in its own child list. */
  lemma PivotOnNew(ns: NS, new_: nat, user: nat, om: nat, od: nat)
    requires Inv(ns) && PivotChecked(ns, new_, user, om) && Par(ns.parent, user) == new_
    ensures !KidsAgree(Pivot(ns, new_, user, om, od))
  {
    var n4 := Pivot(ns, new_, user, om, od);
    PivotParents(ns, new_, user, om, od);
    assert IsKid(n4, new_, new_) && n4.parent[new_] == new_;
  }

  /** How far d_mounted of `d` is from the number of mounts on it. */
  ghost function Off(ns: NS, d: nat): int {
    MountedAt(ns, d) - |MountsOn(ns, d)|
  }

  lemma DetachRootOff(ns: NS, m: nat)
    requires Fields(ns) && m in ns.parent && !Attached(ns, m)
    ensures Off(Detach(ns, m), ns.point[m]) == Off(ns, ns.point[m]) - 1
  {
    var d := ns.point[m];
    forall x ensures x in MountsOn(Detach(ns, m), d) <==> x in MountsOn(ns, d) {
      assert HangsAt(Detach(ns, m), x, d) <==> HangsAt(ns, x, d);
    }
    assert MountsOn(Detach(ns, m), d) == MountsOn(ns, d);
  }

  lemma DetachOff(ns: NS, m: nat, d: nat)
    requires Fields(ns) && Attached(ns, m)
    ensures Off(Detach(ns, m), d) == Off(ns, d)
  {
    DetachOn(ns, m, d);
  }

  lemma AttachOff(ns: NS, m: nat, p: nat, e: nat, d: nat)
    requires Fields(ns) && m in ns.parent && p in ns.parent && !Attached(ns, m) && m != p
    ensures Off(Attach(ns, m, p, e), d) == Off(ns, d)
  {
    AttachOn(ns, m, p, e, d);
  }

  /** The new root has no parent: its mount point is counted down all the same. */
  lemma PivotNewUnattached(ns: NS, new_: nat, user: nat, om: nat, od: nat)
    requires Fields(ns) && new_ in ns.point && MountedAt(ns, ns.point[new_]) == |MountsOn(ns, ns.point[new_])|
    requires new_ in ns.parent && om in ns.parent && Attached(ns, user) && !Attached(ns, new_)
    requires new_ != user && om != user && Par(ns.parent, user) != new_
    ensures !CountsAgree(Pivot(ns, new_, user, om, od))
  {
    var d := ns.point[new_];
    DetachFields(ns, new_);
    var n1 := Detach(ns, new_);
    assert Off(ns, d) == 0;
    DetachRootOff(ns, new_);
    ReattachOff(n1, user, om, od, new_, Par(n1.parent, user), n1.point[user], d);
    assert Off(Pivot(ns, new_, user, om, od), d) == -1;
  }

  /** The other three moves of pivot_root keep the counts as right or wrong as they were. */
  lemma ReattachOff(ns: NS, user: nat, om: nat, od: nat, new_: nat, p: nat, e: nat, d: nat)
    requires Fields(ns) && Attached(ns, user) && om in ns.parent && om != user && p in ns.parent
    requires new_ in ns.parent && !Attached(ns, new_) && new_ != user && new_ != p
    ensures Fields(Detach(ns, user)) && Fields(Attach(Detach(ns, user), user, om, od))
    ensures Off(Attach(Attach(Detach(ns, user), user, om, od), new_, p, e), d) == Off(ns, d)
  {
    DetachFields(ns, user);
    var n2 := Detach(ns, user);
    AttachFields(n2, user, om, od);
    DetachOff(ns, user, d);
    AttachOff(n2, user, om, od, d);
    AttachOff(Attach(n2, user, om, od), new_, p, e, d);
  }

  /** pivot_root keeps the mount tree in order exactly when the current root and the new root are
      both attached and the current root is not below the new one. */
  lemma PivotExactly(ns: NS, new_: nat, user: nat, om: nat, od: nat)
    requires Inv(ns) && PivotChecked(ns, new_, user, om)
    ensures Inv(Pivot(ns, new_, user, om, od)) <==> PivotSafe(ns, new_, user)
  {
    if PivotSafe(ns, new_, user) {
      PivotInv(ns, new_, user, om, od);
    } else if !Attached(ns, user) {
      PivotUnattached(ns, new_, user, om, od);
    } else if Par(ns.parent, user) == new_ {
      PivotOnNew(ns, new_, user, om, od);
    } else if !Attached(ns, new_) {
      PivotNewUnattached(ns, new_, user, om, od);
    } else {
      PivotBelow(ns, new_, user, om, od);
    }
  }

  /** In particular when the new root is strictly below the current one, which is attached. */
  lemma PivotBelowCurrent(ns: NS, new_: nat, user: nat, om: nat, od: nat)
    requires Inv(ns) && PivotChecked(ns, new_, user, om) && Attached(ns, user) && Below(ns.parent, new_, user)
    ensures Inv(Pivot(ns, new_, user, om, od))
  {
    var par := ns.parent;
    if IsRoot(par, new_) {
      var n: nat :| Up(par, new_, n) == user;
      UpRoot(par, new_, n);
    }
    if Below(par, user, new_) {
      BelowStep(par, new_, user);
      BelowTrans(par, Par(par, new_), user, new_);
      ChildNotAbove(par, new_);
    }
    PivotInv(ns, new_, user, om, od);
  }

  /** Mount 0 is the root of the namespace and the current root; mount 1 hangs on its dentry 20. */
  function Booted(): NS {
    NS(map[0 := 0, 1 := 0], map[0 := 10, 1 := 20], map[0 := 10, 1 := 11], map[0 := 1, 1 := 2],
       map[0 := [1], 1 := []], map[0 := [1]], map[20 := 1], (p, d) => 0)
  }

  lemma BootedForest(par: map<nat, nat>)
    requires par == Booted().parent
    ensures Forest(par) && Below(par, 1, 0)
  {
    assert Up(par, 1, 1) == Up(par, 0, 0) == 0;
    forall m: nat ensures Grounded(par, m) {
      assert IsRoot(par, Up(par, m, if m == 1 then 1 else 0));
    }
  }

  lemma BootedCounts(ns: NS)
    requires ns == Booted()
    ensures CountsAgree(ns)
  {
    forall d ensures MountedAt(ns, d) == |MountsOn(ns, d)| {
      assert MountsOn(ns, d) == if d == 20 then {1} else {};
    }
  }

  lemma BootedKids(ns: NS)
    requires ns == Booted()
    ensures Fields(ns) && KidsAgree(ns)
  {
    forall m, c ensures IsKid(ns, m, c) <==> c in ns.parent && ns.parent[c] == m != c {
      assert IsKid(ns, m, c) <==> m == 0 && c == 1;
    }
  }

  lemma BootedChains(ns: NS)
    requires ns == Booted()
    ensures ChainsAgree(ns)
  {
    forall b, c ensures InChain(ns, b, c) <==> Attached(ns, c) && c in ns.point && BucketOf(ns, c) == b {
      assert InChain(ns, b, c) <==> b == 0 && c == 1;
    }
  }


  /** With the unattached root as the current one, all checks pass and the parent links end in a cycle. */
  lemma PivotExample(ns: NS, od: nat)
    requires ns == Booted()
    ensures Inv(ns) && PivotChecked(ns, 1, 0, 1) && !Forest(Pivot(ns, 1, 0, 1, od).parent)
  {
    BootedKids(ns);
    BootedChains(ns);
    BootedCounts(ns);
    BootedForest(ns.parent);
    BelowSelf(ns.parent, 1);
    PivotUnattached(ns, 1, 0, 1, od);
  }
}
