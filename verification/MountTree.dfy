/** The mount tree: parent links, child lists, the hash of mount points and the mount counts of
    dentries (fs/namespace.c:34-116, 550-608, 900-963). */
module MountTree {
  import opened Forests
  import opened Lists
  import opened Options
  import opened TreeLayout

  /** The fields of all mounts; mounts and dentries are named by their addresses.  `chains` are the
      buckets of mount_hashtable, filled by `hash`, which may be any function; `mounted` are the
      d_mounted counts of dentries. */
  datatype NS = NS(parent: map<nat, nat>, point: map<nat, nat>, root: map<nat, nat>, sb: map<nat, nat>,
                   kids: map<nat, seq<nat>>, chains: map<nat, seq<nat>>, mounted: map<nat, int>,
                   hash: (nat, nat) -> nat)

  function Chain(ns: NS, b: nat): seq<nat> {
    if b in ns.chains then ns.chains[b] else []
  }

  function MountedAt(ns: NS, d: nat): int {
    if d in ns.mounted then ns.mounted[d] else 0
  }

  predicate Fields(ns: NS) {
    && ns.parent.Keys == ns.point.Keys == ns.root.Keys == ns.sb.Keys == ns.kids.Keys
    && forall m {:trigger Par(ns.parent, m)} :: m in ns.parent ==> Par(ns.parent, m) in ns.parent
  }

  predicate Attached(ns: NS, m: nat) {
    m in ns.parent && ns.parent[m] != m
  }

  /** `m` hangs on dentry `d` of mount `p`. */
  predicate HangsOn(ns: NS, m: nat, p: nat, d: nat) {
    m in ns.parent && m in ns.point && ns.parent[m] == p != m && ns.point[m] == d
  }

  function BucketOf(ns: NS, m: nat): nat
    requires m in ns.parent && m in ns.point
  {
    ns.hash(ns.parent[m], ns.point[m])
  }

  // ---- attach and detach

  /** detach_mnt. */
  function Detach(ns: NS, m: nat): NS
    requires Fields(ns) && m in ns.parent
  {
    var p, d, b := Par(ns.parent, m), ns.point[m], BucketOf(ns, m);
    ns.(parent := ns.parent[m := m], point := ns.point[m := ns.root[m]],
        kids := ns.kids[p := Without(ns.kids[p], m)],
        chains := ns.chains[b := Without(Chain(ns, b), m)],
        mounted := ns.mounted[d := MountedAt(ns, d) - 1])
  }

  /** attach_mnt at dentry `d` of mount `p`. */
  function Attach(ns: NS, m: nat, p: nat, d: nat): NS
    requires Fields(ns) && m in ns.parent && p in ns.parent
  {
    var b := ns.hash(p, d);
    ns.(parent := ns.parent[m := p], point := ns.point[m := d],
        kids := ns.kids[p := [m] + ns.kids[p]],
        chains := ns.chains[b := [m] + Chain(ns, b)],
        mounted := ns.mounted[d := MountedAt(ns, d) + 1])
  }

  // ---- the invariant

  predicate IsKid(ns: NS, m: nat, c: nat) {
    m in ns.kids && c in ns.kids[m]
  }

  /** Child lists are exactly the parent links, each child listed once. */
  ghost predicate KidsAgree(ns: NS) {
    && (forall m :: m in ns.kids ==> Distinct(ns.kids[m]))
    && (forall m, c {:trigger IsKid(ns, m, c)} :: IsKid(ns, m, c) <==> c in ns.parent && ns.parent[c] == m != c)
  }

  predicate InChain(ns: NS, b: nat, c: nat) {
    c in Chain(ns, b)
  }

  /** Bucket `b` holds exactly the attached mounts whose parent and mount point hash to it. */
  ghost predicate ChainsAgree(ns: NS) {
    && (forall b :: Distinct(Chain(ns, b)))
    && (forall b, c {:trigger InChain(ns, b, c)} ::
          InChain(ns, b, c) <==> Attached(ns, c) && c in ns.point && BucketOf(ns, c) == b)
  }

  predicate HangsAt(ns: NS, m: nat, d: nat) {
    m in ns.parent && ns.parent[m] != m && m in ns.point && ns.point[m] == d
  }

  ghost function MountsOn(ns: NS, d: nat): set<nat> {
    set m | m in ns.parent.Keys && HangsAt(ns, m, d)
  }

  ghost predicate CountsAgree(ns: NS) {
    forall d :: MountedAt(ns, d) == |MountsOn(ns, d)|
  }

  ghost predicate Inv(ns: NS) {
    Fields(ns) && KidsAgree(ns) && ChainsAgree(ns) && CountsAgree(ns) && Forest(ns.parent)
  }

  function TreeOf(ns: NS): Tree {
    Tree(ns.parent, ns.kids)
  }

  lemma InvTree(ns: NS)
    requires Inv(ns)
    ensures TreeOk(TreeOf(ns))
  {
    forall m, c ensures IsChild(TreeOf(ns), m, c) <==> c in ns.parent && ns.parent[c] == m != c {
      assert IsKid(ns, m, c) <==> c in ns.parent && ns.parent[c] == m != c;
    }
  }

  // ---- detaching an attached mount

  lemma DetachKids(ns: NS, m: nat)
    requires Fields(ns) && KidsAgree(ns) && Attached(ns, m)
    ensures KidsAgree(Detach(ns, m))
  {
    var nt := Detach(ns, m);
    var p := Par(ns.parent, m);
    WithoutIn(ns.kids[p], m);
    WithoutDistinct(ns.kids[p], m);
    forall x, c ensures IsKid(nt, x, c) <==> c in nt.parent && nt.parent[c] == x != c {
      assert IsKid(ns, x, c) <==> c in ns.parent && ns.parent[c] == x != c;
      assert IsKid(nt, x, c) <==> IsKid(ns, x, c) && !(x == p && c == m);
    }
  }

  lemma DetachFields(ns: NS, m: nat)
    requires Fields(ns) && m in ns.parent
    ensures Fields(Detach(ns, m))
  {
    var nt := Detach(ns, m);
    forall x | x in nt.parent ensures Par(nt.parent, x) in nt.parent {
      assert Par(nt.parent, x) == if x == m then m else Par(ns.parent, x);
    }
  }

  lemma DetachChains(ns: NS, m: nat)
    requires Fields(ns) && ChainsAgree(ns) && Attached(ns, m)
    ensures ChainsAgree(Detach(ns, m))
  {
    var nt := Detach(ns, m);
    var b := BucketOf(ns, m);
    WithoutIn(Chain(ns, b), m);
    WithoutDistinct(Chain(ns, b), m);
    forall a, c ensures InChain(nt, a, c) <==> Attached(nt, c) && c in nt.point && BucketOf(nt, c) == a {
      assert InChain(ns, a, c) <==> Attached(ns, c) && c in ns.point && BucketOf(ns, c) == a;
      assert InChain(nt, a, c) <==> InChain(ns, a, c) && !(a == b && c == m);
    }
    forall a ensures Distinct(Chain(nt, a)) { assert Distinct(Chain(ns, a)); }
  }

  lemma DetachCounts(ns: NS, m: nat)
    requires Fields(ns) && CountsAgree(ns) && Attached(ns, m)
    ensures CountsAgree(Detach(ns, m))
  {
    var nt := Detach(ns, m);
    forall d ensures MountedAt(nt, d) == |MountsOn(nt, d)| {
      assert MountedAt(ns, d) == |MountsOn(ns, d)|;
      DetachOn(ns, m, d);
    }
  }

  lemma DetachHangs(ns: NS, m: nat, x: nat, e: nat)
    requires Fields(ns) && Attached(ns, m)
    ensures HangsAt(Detach(ns, m), x, e) <==> HangsAt(ns, x, e) && x != m
  {
  }

  lemma DetachOn(ns: NS, m: nat, e: nat)
    requires Fields(ns) && Attached(ns, m)
    ensures |MountsOn(Detach(ns, m), e)| == |MountsOn(ns, e)| - if e == ns.point[m] then 1 else 0
  {
    var on, on' := MountsOn(ns, e), MountsOn(Detach(ns, m), e);
    forall x ensures x in on' <==> x in on && x != m {
      DetachHangs(ns, m, x, e);
    }
    OneLess(on, on', m);
    assert m in on <==> e == ns.point[m];
  }

  lemma DetachInv(ns: NS, m: nat)
    requires Inv(ns) && Attached(ns, m)
    ensures Inv(Detach(ns, m))
  {
    DetachFields(ns, m);
    DetachKids(ns, m);
    DetachChains(ns, m);
    DetachCounts(ns, m);
    CutForest(ns.parent, m);
    assert Detach(ns, m).parent == ns.parent[m := m];
  }

  // ---- attaching a root

  lemma AttachFields(ns: NS, m: nat, p: nat, d: nat)
    requires Fields(ns) && m in ns.parent && p in ns.parent
    ensures Fields(Attach(ns, m, p, d))
  {
    var nt := Attach(ns, m, p, d);
    forall x | x in nt.parent ensures Par(nt.parent, x) in nt.parent {
      assert Par(nt.parent, x) == if x == m then p else Par(ns.parent, x);
    }
  }

  lemma AttachKids(ns: NS, m: nat, p: nat, d: nat)
    requires Fields(ns) && KidsAgree(ns) && m in ns.parent && p in ns.parent && !Attached(ns, m) && m != p
    ensures KidsAgree(Attach(ns, m, p, d))
  {
    var nt := Attach(ns, m, p, d);
    assert !IsKid(ns, p, m);
    PushDistinct(ns.kids[p], m);
    forall x, c ensures IsKid(nt, x, c) <==> c in nt.parent && nt.parent[c] == x != c {
      assert IsKid(ns, x, c) <==> c in ns.parent && ns.parent[c] == x != c;
      assert IsKid(nt, x, c) <==> IsKid(ns, x, c) || (x == p && c == m);
    }
  }

  lemma AttachChains(ns: NS, m: nat, p: nat, d: nat)
    requires Fields(ns) && ChainsAgree(ns) && m in ns.parent && p in ns.parent && !Attached(ns, m) && m != p
    ensures ChainsAgree(Attach(ns, m, p, d))
  {
    var nt := Attach(ns, m, p, d);
    var b := ns.hash(p, d);
    assert !InChain(ns, b, m);
    PushDistinct(Chain(ns, b), m);
    forall a, c ensures InChain(nt, a, c) <==> Attached(nt, c) && c in nt.point && BucketOf(nt, c) == a {
      assert InChain(ns, a, c) <==> Attached(ns, c) && c in ns.point && BucketOf(ns, c) == a;
      assert InChain(nt, a, c) <==> InChain(ns, a, c) || (a == b && c == m);
    }
    forall a ensures Distinct(Chain(nt, a)) { assert Distinct(Chain(ns, a)); }
  }

  lemma AttachCounts(ns: NS, m: nat, p: nat, d: nat)
    requires Fields(ns) && CountsAgree(ns) && m in ns.parent && p in ns.parent && !Attached(ns, m) && m != p
    ensures CountsAgree(Attach(ns, m, p, d))
  {
    var nt := Attach(ns, m, p, d);
    forall e ensures MountedAt(nt, e) == |MountsOn(nt, e)| {
      assert MountedAt(ns, e) == |MountsOn(ns, e)|;
      AttachOn(ns, m, p, d, e);
    }
  }

  lemma AttachHangs(ns: NS, m: nat, p: nat, d: nat, x: nat, e: nat)
    requires Fields(ns) && m in ns.parent && p in ns.parent && !Attached(ns, m) && m != p
    ensures HangsAt(Attach(ns, m, p, d), x, e) <==> HangsAt(ns, x, e) || (x == m && e == d)
  {
  }

  lemma AttachOn(ns: NS, m: nat, p: nat, d: nat, e: nat)
    requires Fields(ns) && m in ns.parent && p in ns.parent && !Attached(ns, m) && m != p
    ensures |MountsOn(Attach(ns, m, p, d), e)| == |MountsOn(ns, e)| + if e == d then 1 else 0
  {
    var on, on' := MountsOn(ns, e), MountsOn(Attach(ns, m, p, d), e);
    forall x ensures x in on' <==> x in on || (x == m && e == d) {
      AttachHangs(ns, m, p, d, x, e);
    }
    OneMore(on, on', m, e == d);
  }

  lemma OneMore(a: set<nat>, b: set<nat>, m: nat, more: bool)
    requires m !in a && forall x :: x in b <==> x in a || (x == m && more)
    ensures |b| == |a| + if more then 1 else 0
  {
    assert b == a + if more then {m} else {};
  }

  lemma OneLess(a: set<nat>, b: set<nat>, m: nat)
    requires forall x :: x in b <==> x in a && x != m
    ensures |b| == |a| - if m in a then 1 else 0
  {
    assert b == a - {m};
  }

  lemma AttachInv(ns: NS, m: nat, p: nat, d: nat)
    requires Inv(ns) && m in ns.parent && p in ns.parent && !Attached(ns, m) && !Below(ns.parent, p, m)
    ensures Inv(Attach(ns, m, p, d))
  {
    BelowSelf(ns.parent, m);
    AttachFields(ns, m, p, d);
    AttachKids(ns, m, p, d);
    AttachChains(ns, m, p, d);
    AttachCounts(ns, m, p, d);
    HangForest(ns.parent, m, p);
  }

  // ---- lookup

  /** What lookup_mnt returns: the first mount of the bucket hanging on (m, d), if any. */
  lemma LookupAgrees(ns: NS, m: nat, d: nat, c: nat)
    requires Inv(ns)
    ensures HangsOn(ns, c, m, d) <==>
              c in Chain(ns, ns.hash(m, d)) && c in ns.point && ns.parent[c] == m && ns.point[c] == d
  {
    assert InChain(ns, ns.hash(m, d), c) <==> Attached(ns, c) && c in ns.point && BucketOf(ns, c) == ns.hash(m, d);
  }

  // ---- which of several mounts on one place is seen

  /** The first mount of the bucket `b` that hangs on dentry `d` of `p`. */
  function FirstOn(ns: NS, b: seq<nat>, p: nat, d: nat): Option<nat> {
    if b == [] then None
    else if HangsOn(ns, b[0], p, d) then Some(b[0])
    else FirstOn(ns, b[1..], p, d)
  }

  /** The mount lookup_mnt finds on dentry `d` of `p`. */
  function Visible(ns: NS, p: nat, d: nat): Option<nat> {
    FirstOn(ns, Chain(ns, ns.hash(p, d)), p, d)
  }

  lemma {:induction false} FirstSame(ns: NS, r: NS, b: seq<nat>, p: nat, d: nat)
    requires forall i :: 0 <= i < |b| ==> (HangsOn(ns, b[i], p, d) <==> HangsOn(r, b[i], p, d))
    ensures FirstOn(r, b, p, d) == FirstOn(ns, b, p, d)
  {
    if b != [] { FirstSame(ns, r, b[1..], p, d); }
  }

  lemma {:induction false} FirstWithout(ns: NS, b: seq<nat>, m: nat, p: nat, d: nat)
    requires FirstOn(ns, b, p, d) != Some(m)
    ensures FirstOn(ns, Without(b, m), p, d) == FirstOn(ns, b, p, d)
  {
    if b != [] && !HangsOn(ns, b[0], p, d) {
      FirstWithout(ns, b[1..], m, p, d);
      if b[0] == m {
        assert Without(b, m) == Without(b[1..], m);
      } else {
        assert Without(b, m)[0] == b[0] && Without(b, m)[1..] == Without(b[1..], m);
      }
    } else if b != [] {
      assert Without(b, m)[0] == b[0];
    }
  }

  /** A mount hung up is the one seen there, over any that hung there before; all other places show what they
      showed. */
  lemma AttachShows(ns: NS, m: nat, p: nat, d: nat, p': nat, d': nat)
    requires Inv(ns) && m in ns.parent && !Attached(ns, m) && p in ns.parent && m != p
    ensures Visible(Attach(ns, m, p, d), p', d') == if p' == p && d' == d then Some(m) else Visible(ns, p', d')
  {
    var r, h := Attach(ns, m, p, d), ns.hash(p', d');
    var b := Chain(ns, h);
    assert !InChain(ns, h, m);
    FirstSame(ns, r, b, p', d');
    assert h == ns.hash(p, d) ==> Chain(r, h) == [m] + b && ([m] + b)[1..] == b;
  }

  /** A mount taken off shows what hung under it; places that did not show it show what they showed. */
  lemma DetachShows(ns: NS, m: nat, p': nat, d': nat)
    requires Inv(ns) && Attached(ns, m) && Visible(ns, p', d') != Some(m)
    ensures Visible(Detach(ns, m), p', d') == Visible(ns, p', d')
  {
    var r, h := Detach(ns, m), ns.hash(p', d');
    var b := Chain(ns, h);
    WithoutIn(b, m);
    FirstWithout(ns, b, m, p', d');
    if h == BucketOf(ns, m) {
      assert forall i :: 0 <= i < |Without(b, m)| ==> Without(b, m)[i] in Without(b, m);
      FirstSame(ns, r, Without(b, m), p', d');
    } else {
      assert !InChain(ns, h, m);
      FirstSame(ns, r, b, p', d');
    }
  }
}
