/** The mount tree as the kernel updates it in place (fs/namespace.c:71-132, 413-449, 550-608, 900-963). */
module MountNamespaces {
  import opened Forests
  import opened Lists
  import opened TreeLayout
  import opened MountTree
  import opened MountMoves
  import opened MountCopy
  import opened Options

  datatype Errno = Ok | EINVAL | ELOOP | EBUSY

  class Namespace {
    var parent: map<nat, nat>
    var point: map<nat, nat>
    var root: map<nat, nat>
    var sb: map<nat, nat>
    var kids: map<nat, seq<nat>>
    var chains: map<nat, seq<nat>>
    var mounted: map<nat, int>
    const hash: (nat, nat) -> nat

    constructor (hash: (nat, nat) -> nat)
      ensures this.hash == hash && Abs() == NS(map[], map[], map[], map[], map[], map[], map[], hash)
    {
      parent, point, root, sb, kids, chains, mounted := map[], map[], map[], map[], map[], map[], map[];
      this.hash := hash;
    }

    ghost function Abs(): NS
      reads this
    {
      NS(parent, point, root, sb, kids, chains, mounted, hash)
    }

    function Bucket(b: nat): seq<nat>
      reads this
    {
      if b in chains then chains[b] else []
    }

    function MountCount(d: nat): int
      reads this
    {
      if d in mounted then mounted[d] else 0
    }

    /** lookup_mnt: the mount hanging on dentry `d` of mount `m`, if there is one. */
    method LookupMnt(m: nat, d: nat) returns (r: Option<nat>)
      requires Inv(Abs())
      ensures r.Some? ==> HangsOn(Abs(), r.value, m, d)
      ensures r.None? ==> forall c :: !HangsOn(Abs(), c, m, d)
      ensures r == Visible(Abs(), m, d)
    {
      var b := Bucket(hash(m, d));
      var i := 0;
      while i < |b|
        invariant i <= |b| && forall j :: 0 <= j < i ==> !HangsOn(Abs(), b[j], m, d)
        invariant FirstOn(Abs(), b[i..], m, d) == Visible(Abs(), m, d)
      {
        LookupAgrees(Abs(), m, d, b[i]);
        assert InChain(Abs(), hash(m, d), b[i]);
        if parent[b[i]] == m && point[b[i]] == d {
          return Some(b[i]);
        }
        i := i + 1;
      }
      forall c ensures !HangsOn(Abs(), c, m, d) {
        LookupAgrees(Abs(), m, d, c);
        if c in b {
          var j :| 0 <= j < |b| && b[j] == c;
        }
      }
      return None;
    }

    /** detach_mnt; the old place of `m` is returned. */
    method DetachMnt(m: nat) returns (p: nat, d: nat)
      requires Fields(Abs()) && m in parent
      modifies this
      ensures Abs() == Detach(old(Abs()), m)
      ensures p == Par(old(parent), m) && d == old(point)[m]
    {
      p, d := Par(parent, m), point[m];
      var b := hash(parent[m], point[m]);
      parent := parent[m := m];
      point := point[m := root[m]];
      kids := kids[p := Without(kids[p], m)];
      chains := chains[b := Without(Bucket(b), m)];
      mounted := mounted[d := MountCount(d) - 1];
    }

    /** attach_mnt. */
    method AttachMnt(m: nat, p: nat, d: nat)
      requires Fields(Abs()) && m in parent && p in parent
      modifies this
      ensures Abs() == Attach(old(Abs()), m, p, d)
    {
      parent := parent[m := p];
      point := point[m := d];
      chains := chains[hash(p, d) := [m] + Bucket(hash(p, d))];
      kids := kids[p := [m] + kids[p]];
      mounted := mounted[d := MountCount(d) + 1];
    }

    /** next_mnt: the mount after `p` in the walk below `top`. */
    method NextMnt(p0: nat, top: nat, ghost l: Layout) returns (r: Option<nat>)
      requires TreeOk(TreeOf(Abs())) && Laid(TreeOf(Abs()), top, l) && p0 in l.at
      ensures r == if l.at[p0] + 1 < |l.order| then Some(l.order[l.at[p0] + 1]) else None
    {
      var p := p0;
      assert InTree(l, p);
      if kids[p] != [] {
        assert KidsLaid(l, p, kids[p]);
        return Some(kids[p][0]);
      }
      while true
        invariant p in l.at && l.end[p] == l.at[p0] + 1
        decreases l.at[p]
      {
        if p == top {
          return None;
        }
        ClimbStep(TreeOf(Abs()), top, l, p);
        var ks := kids[Par(parent, p)];
        var i := IndexOf(ks, p);
        if i + 1 < |ks| {
          return Some(ks[i + 1]);
        }
        p := Par(parent, p);
      }
    }

    /** clone_mnt, with the mount point set as copy_tree does for the first clone. */
    method CloneMnt(q: nat, pt: nat, rt: nat, s: nat)
      requires q !in parent
      modifies this
      ensures Abs() == AddMount(old(Abs()), q, pt, rt, s)
    {
      parent, point, root, sb, kids := parent[q := q], point[q := pt], root[q := rt], sb[q := s], kids[q := []];
    }

    /** The inner loop of copy_tree: `p` climbs to the parent of `next`, and `q` from clone to clone
        along with it. */
    method Rewind(p0: nat, q0: nat, next: nat, ghost top: nat, ghost dentry: nat, ghost ns: NS, ghost l: Layout,
                  ghost clone: map<nat, nat>, ghost i: nat)
      returns (p: nat, q: nat)
      requires Inv(ns) && Laid(TreeOf(ns), top, l) && Copied(ns, Abs(), top, dentry, l, clone, i)
      requires i + 1 < |l.order| && p0 == l.order[i] && p0 in clone && q0 == clone[p0] && next == l.order[i + 1]
      ensures p == Par(ns.parent, next) && p in clone && q == clone[p]
    {
      p, q := p0, q0;
      assert InTree(l, next) && next != top && SameMount(ns, Abs(), next);
      ghost var t := Par(ns.parent, next);
      InvTree(ns);
      StartsWhere(TreeOf(ns), top, l, i);
      while p != parent[next]
        invariant p in l.at && p in clone && q == clone[p] && (p == t || l.end[p] == i + 1)
        decreases l.at[p]
      {
        assert InTree(l, p) && SameMount(ns, Abs(), p);
        ClimbStep(TreeOf(ns), top, l, p);
        NextIsKid(TreeOf(ns), top, l, p, i);
        p := parent[p];
        q := parent[q];
      }
    }

    /** Clone a mount and attach the clone to (p, d). */
    method GraftMount(q: nat, p: nat, d: nat, rt: nat, s: nat)
      requires Fields(Abs()) && q !in parent && p in parent
      modifies this
      ensures Abs() == Graft(old(Abs()), q, p, d, rt, s)
      ensures parent.Keys == old(parent).Keys + {q}
    {
      AddMountFields(Abs(), q, rt, rt, s);
      CloneMnt(q, rt, rt, s);
      AttachMnt(q, p, d);
    }

    /** One turn of the outer loop of copy_tree: `next` is cloned as `q`, and the clone attached to the
        clone of its parent. */
    method CloneNext(p0: nat, q0: nat, next: nat, q: nat, ghost top: nat, ghost dentry: nat, ghost ns: NS,
                     ghost l: Layout, ghost clone: map<nat, nat>, ghost i: nat)
      requires Inv(ns) && Laid(TreeOf(ns), top, l) && Copied(ns, Abs(), top, dentry, l, clone, i)
      requires i + 1 < |l.order| && next == l.order[i + 1] && q !in parent && q !in ns.parent
      requires p0 == l.order[i] && p0 in clone && q0 == clone[p0]
      modifies this
      ensures Copied(ns, Abs(), top, dentry, l, clone[next := q], i + 1) && next !in clone
      ensures parent.Keys == old(parent).Keys + {q}
    {
      var t, p := Rewind(p0, q0, next, top, dentry, ns, l, clone, i);
      ghost var before := Abs();
      CopyStep(ns, before, top, dentry, l, clone, i, q);
      NextInOrder(l, clone, i);
      assert SameMount(ns, before, next);
      GraftMount(q, p, point[next], root[next], sb[next]);
    }

    /** next_mnt on the source tree while it is being copied. */
    method NextToCopy(p: nat, top: nat, ghost dentry: nat, ghost ns: NS, ghost l: Layout,
                      ghost clone: map<nat, nat>, ghost i: nat)
      returns (r: Option<nat>)
      requires Laid(TreeOf(ns), top, l) && Copied(ns, Abs(), top, dentry, l, clone, i)
      requires i < |l.order| && p == l.order[i]
      ensures r == if i + 1 < |l.order| then Some(l.order[i + 1]) else None
    {
      LaidSame(ns, Abs(), top, l);
      InvTree(Abs());
      r := NextMnt(p, top, l);
    }

    /** The first clone, of the top of the tree (lines 418-423). */
    method CloneTop(top: nat, dentry: nat, q: nat, ghost l: Layout)
      requires Inv(Abs()) && Laid(TreeOf(Abs()), top, l) && q !in parent
      modifies this
      ensures Copied(old(Abs()), Abs(), top, dentry, l, map[top := q], 0)
      ensures parent.Keys == old(parent).Keys + {q}
    {
      CopyStart(Abs(), top, dentry, l, q);
      CloneMnt(q, point[top], dentry, sb[top]);
    }

    method CopyFirst(top: nat, dentry: nat, ids: seq<nat>, ghost l: Layout) returns (copies: seq<nat>)
      requires Inv(Abs()) && Laid(TreeOf(Abs()), top, l)
      requires |ids| >= |l.order| && Distinct(ids) && Unused(ids, parent, 0)
      modifies this
      ensures copies == [ids[0]]
      ensures Copying(old(Abs()), Abs(), top, dentry, ids, l, map[top := ids[0]], copies, 0, top, ids[0])
    {
      ghost var before := parent;
      CloneTop(top, dentry, ids[0], l);
      StillUnused(ids, before, parent, 0);
      copies := [ids[0]];
    }

    /** One turn of the loop of copy_tree. */
    method CopyOne(p: nat, q: nat, next: nat, copies: seq<nat>, ids: seq<nat>, ghost top: nat, ghost dentry: nat,
                   ghost ns: NS, ghost l: Layout, ghost clone: map<nat, nat>, ghost i: nat)
      returns (more: seq<nat>)
      requires Inv(ns) && Laid(TreeOf(ns), top, l) && |ids| >= |l.order| && Distinct(ids) && Unused(ids, ns.parent, 0)
      requires Copying(ns, Abs(), top, dentry, ids, l, clone, copies, i, p, q)
      requires i + 1 < |l.order| && next == l.order[i + 1]
      modifies this
      ensures |copies| < |ids| && more == copies + [ids[|copies|]]
      ensures Copying(ns, Abs(), top, dentry, ids, l, clone[next := ids[|copies|]], more, i + 1, next, ids[|copies|])
    {
      var n := |copies|;
      ghost var before := parent;
      CloneNext(p, q, next, ids[n], top, dentry, ns, l, clone, i);
      StillUnused(ids, before, parent, n);
      CopiesPush(l, clone, copies, i, next, ids[n]);
      more := copies + [ids[n]];
    }

    /** copy_tree: every mount below `top` is visited once, in preorder, and its clone attached to the
        clone of its parent.  `ids` are the addresses the clones are given; `copies` is the order in
        which they join the mnt_list of the first one. */
    method CopyTree(top: nat, dentry: nat, ids: seq<nat>, ghost l: Layout)
      returns (res: nat, copies: seq<nat>, ghost clone: map<nat, nat>)
      requires Inv(Abs()) && Laid(TreeOf(Abs()), top, l)
      requires |ids| >= |l.order| && Distinct(ids) && Unused(ids, parent, 0)
      modifies this
      ensures MirrorImage(old(Abs()), Abs(), top, dentry, l, clone)
      ensures CopiesOf(l, clone, copies, |l.order|) && |copies| > 0 && res == copies[0]
    {
      ghost var ns := Abs();
      var p, q := top, ids[0];
      copies := CopyFirst(top, dentry, ids, l);
      res, clone := q, map[top := q];
      ghost var i := 0;
      var next := NextToCopy(p, top, dentry, ns, l, clone, i);
      while next.Some?
        invariant Copying(ns, Abs(), top, dentry, ids, l, clone, copies, i, p, q) && res == copies[0]
        invariant next == if i + 1 < |l.order| then Some(l.order[i + 1]) else None
        decreases |l.order| - i
      {
        copies := CopyOne(p, q, next.value, copies, ids, top, dentry, ns, l, clone, i);
        p, q := next.value, ids[|copies| - 1];
        clone := clone[p := q];
        i := i + 1;
        next := NextToCopy(p, top, dentry, ns, l, clone, i);
      }
      CopyDone(ns, Abs(), top, dentry, l, clone);
    }

    /** check_mnt without the comparison: the mount at the top of the tree of `m`. */
    method TopMount(m: nat) returns (r: nat)
      requires Fields(Abs()) && Forest(parent) && m in parent
      ensures r in parent && !Attached(Abs(), r) && Below(parent, m, r)
    {
      assert Grounded(parent, m);
      ghost var n: nat :| IsRoot(parent, Up(parent, m, n));
      r := m;
      BelowSelf(parent, m);
      while parent[r] != r
        invariant r in parent && IsRoot(parent, Up(parent, r, n)) && Below(parent, m, r)
        decreases n
      {
        ParentBelow(parent, r);
        BelowTrans(parent, m, r, Par(parent, r));
        assert n > 0;
        assert Up(parent, r, n) == Up(parent, Par(parent, r), n - 1);
        r := Par(parent, r);
        n := n - 1;
      }
    }

    /** do_move_mount from line 583 on: `m` is moved to dentry `d` of mount `p`, unless it is the root
        of its tree or `p` is below it. */
    method DoMoveMount(m: nat, p: nat, d: nat) returns (err: Errno)
      requires Inv(Abs()) && m in parent && p in parent
      modifies this
      ensures Inv(Abs())
      ensures err == (if !old(Attached(Abs(), m)) then EINVAL else if old(Below(parent, p, m)) then ELOOP else Ok)
      ensures Abs() == if err == Ok then Move(old(Abs()), m, p, d) else old(Abs())
      ensures err == Ok ==> HangsOn(Abs(), m, p, d) && OnlyMoved(old(Abs()), Abs(), {m}, {p, old(parent)[m]})
    {
      if parent[m] == m {
        return EINVAL;
      }
      assert Grounded(parent, p);
      ghost var n: nat :| IsRoot(parent, Up(parent, p, n));
      var t := p;
      BelowSelf(parent, p);
      while parent[t] != t
        invariant t in parent && IsRoot(parent, Up(parent, t, n)) && Below(parent, p, t)
        invariant Below(parent, p, m) <==> Below(parent, t, m)
        modifies {}
        decreases n
      {
        if t == m {
          return ELOOP;
        }
        ParentBelow(parent, t);
        BelowTrans(parent, p, t, Par(parent, t));
        if Below(parent, t, m) { BelowStep(parent, t, m); }
        if Below(parent, Par(parent, t), m) { BelowTrans(parent, t, Par(parent, t), m); }
        assert n > 0;
        assert Up(parent, t, n) == Up(parent, Par(parent, t), n - 1);
        t := Par(parent, t);
        n := n - 1;
      }
      forall k: nat ensures Up(parent, t, k) != m { UpRoot(parent, t, k); }
      MoveInv(Abs(), m, p, d);
      MoveMeans(Abs(), m, p, d);
      DetachFields(Abs(), m);
      var op, od := DetachMnt(m);
      AttachMnt(m, p, d);
      return Ok;
    }

    /** The walk of sys_pivot_root from the mount of put_old up to the new root (lines 946-955). */
    method Climbs(om: nat, new_: nat) returns (found: bool)
      requires Fields(Abs()) && Forest(parent) && om in parent && new_ in parent
      ensures found <==> Below(parent, om, new_)
    {
      BelowSelf(parent, new_);
      if om == new_ {
        return true;
      }
      var t := om;
      assert Grounded(parent, om);
      ghost var n: nat :| IsRoot(parent, Up(parent, om, n));
      while true
        invariant t in parent && t != new_ && IsRoot(parent, Up(parent, t, n))
        invariant Below(parent, om, new_) <==> Below(parent, t, new_)
        decreases n
      {
        if parent[t] == t {
          forall k: nat ensures Up(parent, t, k) != new_ { UpRoot(parent, t, k); }
          return false;
        }
        ParentBelow(parent, t);
        if Below(parent, t, new_) { BelowStep(parent, t, new_); }
        if Below(parent, Par(parent, t), new_) { BelowTrans(parent, t, Par(parent, t), new_); }
        if parent[t] == new_ {
          return true;
        }
        assert n > 0;
        assert Up(parent, t, n) == Up(parent, Par(parent, t), n - 1);
        t := Par(parent, t);
        n := n - 1;
      }
    }

    /** The four moves of sys_pivot_root (lines 960-963). */
    method SwapMounts(new_: nat, user: nat, om: nat, od: nat)
      requires Fields(Abs()) && new_ in parent && user in parent && om in parent && new_ != user
      modifies this
      ensures Abs() == Pivot(old(Abs()), new_, user, om, od)
    {
      DetachFields(Abs(), new_);
      var np, nd := DetachMnt(new_);
      DetachFields(Abs(), user);
      var rp, rd := DetachMnt(user);
      AttachFields(Abs(), user, om, od);
      AttachMnt(user, om, od);
      AttachMnt(new_, rp, rd);
    }

    /** sys_pivot_root from line 939 on, without the dentry checks. */
    method PivotRoot(new_: nat, user: nat, om: nat, od: nat) returns (err: Errno)
      requires Inv(Abs()) && new_ in parent && user in parent && om in parent
      modifies this
      ensures err == if new_ == user || om == user then EBUSY
                     else if !old(Below(parent, om, new_)) then EINVAL else Ok
      ensures Abs() == if err == Ok then Pivot(old(Abs()), new_, user, om, od) else old(Abs())
      ensures Inv(Abs()) <==> err != Ok || PivotSafe(old(Abs()), new_, user)
      ensures err == Ok ==>
                && parent[user] == om && point[user] == od
                && parent[new_] == old(parent)[user] && point[new_] == old(point)[user]
                && OnlyMoved(old(Abs()), Abs(), {new_, user}, {old(parent)[new_], old(parent)[user], om})
    {
      if new_ == user || om == user {
        return EBUSY;
      }
      var found := Climbs(om, new_);
      if !found {
        return EINVAL;
      }
      PivotExactly(Abs(), new_, user, om, od);
      PivotMeans(Abs(), new_, user, om, od);
      SwapMounts(new_, user, om, od);
      return Ok;
    }
  }

  /** The first `n` mounts in the list of copies are the clones of the first `n` in preorder. */
  predicate CopiesOf(l: Layout, clone: map<nat, nat>, copies: seq<nat>, n: nat) {
    |copies| == n <= |l.order| && forall i :: 0 <= i < n ==> l.order[i] in clone && copies[i] == clone[l.order[i]]
  }

  /** The loop of copy_tree at the i-th mount of the walk: `p` is that mount, `q` its clone. */
  ghost predicate Copying(ns0: NS, ns: NS, top: nat, dentry: nat, ids: seq<nat>, l: Layout, clone: map<nat, nat>,
                          copies: seq<nat>, i: int, p: nat, q: nat)
  {
    && 0 <= i < |l.order| && Copied(ns0, ns, top, dentry, l, clone, i)
    && p == l.order[i] && p in clone && q == clone[p]
    && CopiesOf(l, clone, copies, i + 1) && Unused(ids, ns.parent, i + 1)
  }

  /** The addresses from the n-th on are not those of mounts. */
  predicate Unused(ids: seq<nat>, parent: map<nat, nat>, n: nat) {
    forall i :: n <= i < |ids| ==> ids[i] !in parent
  }

  lemma StillUnused(ids: seq<nat>, before: map<nat, nat>, after: map<nat, nat>, n: nat)
    requires Distinct(ids) && Unused(ids, before, n) && n < |ids| && after.Keys == before.Keys + {ids[n]}
    ensures Unused(ids, after, n + 1)
  {
  }

  lemma CopiesPush(l: Layout, clone: map<nat, nat>, copies: seq<nat>, i: nat, p: nat, q: nat)
    requires CopiesOf(l, clone, copies, i + 1) && i + 1 < |l.order| && p == l.order[i + 1] && p !in clone
    ensures CopiesOf(l, clone[p := q], copies + [q], i + 2)
  {
  }

  lemma NextInOrder(l: Layout, clone: map<nat, nat>, i: nat)
    requires Positions(l) && Cloned(l, clone, i) && i + 1 < |l.order|
    ensures l.order[i + 1] in l.at && l.at[l.order[i + 1]] == i + 1 && l.order[i + 1] !in clone
  {
  }

  lemma LaidSame(ns0: NS, ns: NS, top: nat, l: Layout)
    requires Laid(TreeOf(ns0), top, l) && Untouched(ns0, ns)
    ensures Laid(TreeOf(ns), top, l)
  {
    forall m | InTree(l, m)
      ensures m in ns.kids && m in ns.parent && KidsLaid(l, m, ns.kids[m])
      ensures m != top ==> HasParent(TreeOf(ns), m) && Par(ns.parent, m) in l.at
    {
      assert SameMount(ns0, ns, m);
    }
  }

  /** The mount at position i is the parent of the next one, or its own subtree ends there. */
  lemma StartsWhere(tr: Tree, top: nat, l: Layout, i: nat)
    requires Laid(tr, top, l) && TreeOk(tr) && i + 1 < |l.order|
    ensures l.order[i] in l.end && (l.order[i] == Par(tr.parent, l.order[i + 1]) || l.end[l.order[i]] == i + 1)
  {
    var p := l.order[i];
    assert InTree(l, p);
    var ks := tr.kids[p];
    if ks != [] {
      assert l.at[ks[0]] == i + 1;
      assert l.order[i + 1] == ks[0];
      assert IsChild(tr, p, ks[0]);
    }
  }

  /** If the subtree of `p` ends at position i + 1 and a sibling follows, that sibling stands there. */
  lemma NextIsKid(tr: Tree, top: nat, l: Layout, p: nat, i: nat)
    requires Laid(tr, top, l) && TreeOk(tr) && i + 1 < |l.order| && p in l.at && p in l.end && l.end[p] == i + 1
    ensures p != top
    ensures Par(tr.parent, p) == Par(tr.parent, l.order[i + 1]) ||
            (Par(tr.parent, p) in l.end && l.end[Par(tr.parent, p)] == i + 1)
  {
    ClimbStep(tr, top, l, p);
    var t := Par(tr.parent, p);
    var ks := tr.kids[t];
    var j := IndexOf(ks, p);
    if j + 1 < |ks| {
      assert l.order[i + 1] == ks[j + 1];
      assert IsChild(tr, t, ks[j + 1]);
    }
  }
}
