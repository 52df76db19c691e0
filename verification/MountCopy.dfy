/** The walk over a mount tree and the copying of one (fs/namespace.c:118-149, 413-449). */
module MountCopy {
  import opened Forests
  import opened Lists
  import opened TreeLayout
  import opened MountTree

  // ---- the copy

  /** The clones of `s`, in reverse: attach_mnt puts each new child in front. */
  function Mirror(clone: map<nat, nat>, s: seq<nat>): seq<nat>
    requires forall x :: x in s ==> x in clone
  {
    if s == [] then []
    else [clone[s[|s| - 1]]] + Mirror(clone, s[..|s| - 1])
  }

  /** How many of the children `ks` stand at position `i` or before. */
  function Seen(l: Layout, ks: seq<nat>, i: int): (n: nat)
    requires forall j :: 0 <= j < |ks| ==> ks[j] in l.at
    ensures n <= |ks|
  {
    if ks == [] then 0
    else Seen(l, ks[..|ks| - 1], i) + if l.at[ks[|ks| - 1]] <= i then 1 else 0
  }

  /** The children seen so far are the first ones. */
  lemma {:induction false} SeenPrefix(l: Layout, m: nat, ks: seq<nat>, i: int, j: nat, upto: nat)
    requires Positions(l) && KidsLaid(l, m, ks) && j < upto <= |ks|
    ensures j < Seen(l, ks[..upto], i) <==> l.at[ks[j]] <= i
    decreases upto
  {
    assert ks[..upto][..upto - 1] == ks[..upto - 1];
    assert ks[..upto][upto - 1] == ks[upto - 1];
    if j < upto - 1 {
      SeenPrefix(l, m, ks, i, j, upto - 1);
      KidsInOrder(l, m, ks, j, upto - 1);
    } else if j > 0 {
      KidsInOrder(l, m, ks, j - 1, j);
      SeenPrefix(l, m, ks, i, j - 1, upto - 1);
    } else {
      assert ks[..0] == [];
    }
  }

  lemma SeenIff(l: Layout, m: nat, ks: seq<nat>, i: int, j: nat)
    requires Positions(l) && KidsLaid(l, m, ks) && j < |ks|
    ensures j < Seen(l, ks, i) <==> l.at[ks[j]] <= i
  {
    SeenPrefix(l, m, ks, i, j, |ks|);
    assert ks[..|ks|] == ks;
  }

  /** The count of children seen is pinned down by the first one not seen. */
  lemma SeenIs(l: Layout, m: nat, ks: seq<nat>, i: int, n: nat)
    requires Positions(l) && KidsLaid(l, m, ks) && n <= |ks|
    requires n > 0 ==> l.at[ks[n - 1]] <= i
    requires n < |ks| ==> l.at[ks[n]] > i
    ensures Seen(l, ks, i) == n
  {
    if n > 0 { SeenIff(l, m, ks, i, n - 1); }
    if n < |ks| { SeenIff(l, m, ks, i, n); }
  }

  lemma SeenSame(l: Layout, m: nat, ks: seq<nat>, i: nat)
    requires Positions(l) && KidsLaid(l, m, ks) && forall j :: 0 <= j < |ks| ==> l.at[ks[j]] != i + 1
    ensures Seen(l, ks, i + 1) == Seen(l, ks, i)
  {
    var n := Seen(l, ks, i);
    if n > 0 { SeenIff(l, m, ks, i, n - 1); }
    if n < |ks| { SeenIff(l, m, ks, i, n); }
    SeenIs(l, m, ks, i + 1, n);
  }

  lemma SeenAdds(l: Layout, m: nat, ks: seq<nat>, i: nat, j: nat)
    requires Positions(l) && KidsLaid(l, m, ks) && j < |ks| && l.at[ks[j]] == i + 1
    ensures Seen(l, ks, i) == j && Seen(l, ks, i + 1) == j + 1
  {
    if j > 0 { KidsInOrder(l, m, ks, j - 1, j); }
    if j + 1 < |ks| { KidsInOrder(l, m, ks, j, j + 1); }
    SeenIs(l, m, ks, i, j);
    SeenIs(l, m, ks, i + 1, j + 1);
  }

  /** Position i + 1 adds one to the children seen of exactly its own parent. */
  lemma SeenNext(tr: Tree, root: nat, l: Layout, m: nat, i: nat)
    requires Laid(tr, root, l) && TreeOk(tr) && m in l.at && i + 1 < |l.order|
    ensures m in tr.kids && forall j :: 0 <= j < |tr.kids[m]| ==> tr.kids[m][j] in l.at
    ensures var next := l.order[i + 1];
            var ks := tr.kids[m];
            if Par(tr.parent, next) == m
            then Seen(l, ks, i) < |ks| && ks[Seen(l, ks, i)] == next && Seen(l, ks, i + 1) == Seen(l, ks, i) + 1
            else Seen(l, ks, i + 1) == Seen(l, ks, i)
  {
    assert InTree(l, m);
    var next := l.order[i + 1];
    var ks := tr.kids[m];
    assert KidsLaid(l, m, ks) && l.at[next] == i + 1;
    if Par(tr.parent, next) == m {
      KidListed(tr, root, l, next);
      SeenAdds(l, m, ks, i, IndexOf(ks, next));
    } else {
      forall j | 0 <= j < |ks| ensures l.at[ks[j]] != i + 1 {
        assert IsChild(tr, m, ks[j]);
        assert l.order[l.at[ks[j]]] == ks[j];
      }
      SeenSame(l, m, ks, i);
    }
  }

  lemma {:induction false} MirrorExtend(clone: map<nat, nat>, clone': map<nat, nat>, s: seq<nat>)
    requires forall x :: x in s ==> x in clone && x in clone' && clone'[x] == clone[x]
    ensures Mirror(clone', s) == Mirror(clone, s)
  {
    if s != [] {
      MirrorExtend(clone, clone', s[..|s| - 1]);
    }
  }

  // ---- a fresh mount

  /** clone_mnt: mount `q`, its own parent, of superblock `sb` with root `rt`. */
  function AddMount(ns: NS, q: nat, pt: nat, rt: nat, sb: nat): NS {
    ns.(parent := ns.parent[q := q], point := ns.point[q := pt], root := ns.root[q := rt], sb := ns.sb[q := sb],
        kids := ns.kids[q := []])
  }

  lemma AddMountFields(ns: NS, q: nat, pt: nat, rt: nat, sb: nat)
    requires Fields(ns)
    ensures Fields(AddMount(ns, q, pt, rt, sb))
  {
    var nt := AddMount(ns, q, pt, rt, sb);
    forall x | x in nt.parent ensures Par(nt.parent, x) in nt.parent {
      assert x != q ==> Par(nt.parent, x) == Par(ns.parent, x);
    }
  }

  lemma AddMountKids(ns: NS, q: nat, pt: nat, rt: nat, sb: nat)
    requires Fields(ns) && KidsAgree(ns) && q !in ns.parent
    ensures KidsAgree(AddMount(ns, q, pt, rt, sb))
  {
    var nt := AddMount(ns, q, pt, rt, sb);
    forall x, c ensures IsKid(nt, x, c) <==> c in nt.parent && nt.parent[c] == x != c {
      assert IsKid(ns, x, c) <==> c in ns.parent && ns.parent[c] == x != c;
      assert c in ns.parent ==> Par(ns.parent, c) in ns.parent;
    }
  }

  lemma AddMountChains(ns: NS, q: nat, pt: nat, rt: nat, sb: nat)
    requires Fields(ns) && ChainsAgree(ns) && q !in ns.parent
    ensures ChainsAgree(AddMount(ns, q, pt, rt, sb))
  {
    var nt := AddMount(ns, q, pt, rt, sb);
    forall b, c ensures InChain(nt, b, c) <==> Attached(nt, c) && c in nt.point && BucketOf(nt, c) == b {
      assert InChain(ns, b, c) <==> Attached(ns, c) && c in ns.point && BucketOf(ns, c) == b;
      assert Chain(nt, b) == Chain(ns, b);
    }
    forall b ensures Distinct(Chain(nt, b)) { assert Distinct(Chain(ns, b)); }
  }

  lemma AddMountCounts(ns: NS, q: nat, pt: nat, rt: nat, sb: nat)
    requires Fields(ns) && CountsAgree(ns) && q !in ns.parent
    ensures CountsAgree(AddMount(ns, q, pt, rt, sb))
  {
    var nt := AddMount(ns, q, pt, rt, sb);
    forall d ensures MountedAt(nt, d) == |MountsOn(nt, d)| {
      assert MountedAt(ns, d) == |MountsOn(ns, d)|;
      forall x ensures x in MountsOn(nt, d) <==> x in MountsOn(ns, d) {
        assert HangsAt(nt, x, d) <==> HangsAt(ns, x, d);
      }
      assert MountsOn(nt, d) == MountsOn(ns, d);
    }
  }

  lemma AddMountInv(ns: NS, q: nat, pt: nat, rt: nat, sb: nat)
    requires Inv(ns) && q !in ns.parent
    ensures Inv(AddMount(ns, q, pt, rt, sb))
  {
    AddMountFields(ns, q, pt, rt, sb);
    AddMountKids(ns, q, pt, rt, sb);
    AddMountChains(ns, q, pt, rt, sb);
    AddMountCounts(ns, q, pt, rt, sb);
    CutForest(ns.parent, q);
  }

  /** Nothing is below a mount that is nobody's parent. */
  lemma {:induction false} NotBelowLeaf(par: map<nat, nat>, x: nat, q: nat, n: nat)
    requires x != q && forall y :: y in par && y != q ==> par[y] != q
    ensures Up(par, x, n) != q
    decreases n
  {
    if n > 0 {
      NotBelowLeaf(par, Par(par, x), q, n - 1);
    }
  }

  /** Clone a mount and attach the clone to (p, d). */
  function Graft(ns: NS, q: nat, p: nat, d: nat, rt: nat, sb: nat): NS
    requires Fields(ns) && q !in ns.parent && p in ns.parent
  {
    AddMountFields(ns, q, rt, rt, sb);
    Attach(AddMount(ns, q, rt, rt, sb), q, p, d)
  }

  lemma GraftInv(ns: NS, q: nat, p: nat, d: nat, rt: nat, sb: nat)
    requires Inv(ns) && q !in ns.parent && p in ns.parent
    ensures Inv(Graft(ns, q, p, d, rt, sb))
  {
    AddMountInv(ns, q, rt, rt, sb);
    var nt := AddMount(ns, q, rt, rt, sb);
    forall y | y in nt.parent && y != q ensures nt.parent[y] != q {
      assert Par(ns.parent, y) in ns.parent;
    }
    forall n: nat ensures Up(nt.parent, p, n) != q { NotBelowLeaf(nt.parent, p, q, n); }
    AttachInv(nt, q, p, d);
  }

  // ---- the state of the copy when the mounts at positions 0..i have been cloned

  predicate SameMount(ns: NS, nt: NS, x: nat) {
    && x in ns.parent && x in ns.point && x in ns.root && x in ns.sb && x in ns.kids
    && x in nt.parent && x in nt.point && x in nt.root && x in nt.sb && x in nt.kids
    && nt.parent[x] == ns.parent[x] && nt.point[x] == ns.point[x] && nt.root[x] == ns.root[x]
    && nt.sb[x] == ns.sb[x] && nt.kids[x] == ns.kids[x]
  }

  /** Mount `x` mirrors `m`: same superblock, mount point and root (the root of the whole copy is the
      given dentry), on the clone of the parent of `m`, with the clones of the first `n` children. */
  ghost predicate Mirrors(ns0: NS, ns: NS, top: nat, dentry: nat, clone: map<nat, nat>, m: nat, n: nat) {
    && m in clone && m in ns0.kids && m in ns0.parent && m in ns0.point && m in ns0.root && m in ns0.sb
    && n <= |ns0.kids[m]| && (forall j :: 0 <= j < n ==> ns0.kids[m][j] in clone)
    && var x := clone[m];
       && x in ns.parent && x in ns.point && x in ns.root && x in ns.sb && x in ns.kids && x !in ns0.parent
       && ns.sb[x] == ns0.sb[m] && ns.point[x] == ns0.point[m]
       && ns.root[x] == (if m == top then dentry else ns0.root[m])
       && (if m == top then ns.parent[x] == x
           else Par(ns0.parent, m) in clone && ns.parent[x] == clone[Par(ns0.parent, m)])
       && ns.kids[x] == Mirror(clone, ns0.kids[m][..n])
  }

  /** Exactly the mounts at positions 0..i have clones, and no two the same. */
  ghost predicate Cloned(l: Layout, clone: map<nat, nat>, i: int) {
    && (forall m :: m in clone <==> m in l.at && l.at[m] <= i)
    && (forall m, n :: m in clone && n in clone && m != n ==> clone[m] != clone[n])
  }

  /** The mounts that were there before are as they were. */
  ghost predicate Untouched(ns0: NS, ns: NS) {
    forall x {:trigger SameMount(ns0, ns, x)} :: x in ns0.parent ==> SameMount(ns0, ns, x)
  }

  ghost predicate MirrorsSoFar(ns0: NS, ns: NS, top: nat, dentry: nat, l: Layout, clone: map<nat, nat>, i: int,
                               m: nat)
  {
    && m in ns0.kids && (forall j :: 0 <= j < |ns0.kids[m]| ==> ns0.kids[m][j] in l.at)
    && Mirrors(ns0, ns, top, dentry, clone, m, Seen(l, ns0.kids[m], i))
  }

  ghost predicate Copied(ns0: NS, ns: NS, top: nat, dentry: nat, l: Layout, clone: map<nat, nat>, i: int) {
    && Inv(ns) && Cloned(l, clone, i) && Untouched(ns0, ns)
    && (forall m {:trigger InTree(l, m)} :: InTree(l, m) && m in clone ==>
          MirrorsSoFar(ns0, ns, top, dentry, l, clone, i, m))
  }

  lemma CopyStart(ns: NS, top: nat, dentry: nat, l: Layout, q: nat)
    requires Inv(ns) && Laid(TreeOf(ns), top, l) && q !in ns.parent
    ensures InTree(l, top) && top in ns.point && top in ns.sb
    ensures Copied(ns, AddMount(ns, q, ns.point[top], dentry, ns.sb[top]), top, dentry, l, map[top := q], 0)
  {
    assert InTree(l, top);
    AddMountInv(ns, q, ns.point[top], dentry, ns.sb[top]);
    StartCloned(l, top, q);
    StartMirrors(ns, top, dentry, l, q);
  }

  lemma StartCloned(l: Layout, top: nat, q: nat)
    requires Positions(l) && l.order[0] == top
    ensures Cloned(l, map[top := q], 0)
  {
    forall m ensures m in map[top := q] <==> m in l.at && l.at[m] <= 0 {
      assert m in l.at && l.at[m] == 0 ==> m == l.order[0];
    }
  }

  lemma StartMirrors(ns: NS, top: nat, dentry: nat, l: Layout, q: nat)
    requires Fields(ns) && Laid(TreeOf(ns), top, l) && q !in ns.parent && InTree(l, top)
    ensures var nt := AddMount(ns, q, ns.point[top], dentry, ns.sb[top]);
            Untouched(ns, nt) && MirrorsSoFar(ns, nt, top, dentry, l, map[top := q], 0, top)
  {
    AddUntouched(ns, q, ns.point[top], dentry, ns.sb[top]);
    NoneSeen(ns, top, l, top, 0);
  }

  lemma AddUntouched(ns: NS, q: nat, point: nat, root: nat, sb: nat)
    requires Fields(ns) && q !in ns.parent
    ensures Untouched(ns, AddMount(ns, q, point, root, sb))
  {
    assert forall x :: x in ns.parent ==> SameMount(ns, AddMount(ns, q, point, root, sb), x);
  }

  /** When the walk arrives at a mount it has seen none of its children. */
  lemma NoneSeen(ns: NS, top: nat, l: Layout, x: nat, i: int)
    requires Fields(ns) && Laid(TreeOf(ns), top, l) && InTree(l, x) && l.at[x] == i
    ensures x in ns.kids && (forall j :: 0 <= j < |ns.kids[x]| ==> ns.kids[x][j] in l.at)
    ensures Seen(l, ns.kids[x], i) == 0 && ns.kids[x][..0] == []
  {
    var ks := ns.kids[x];
    assert KidsLaid(l, x, ks);
    SeenIs(l, x, ks, i, 0);
  }

  /** Everything the graft of `q` leaves alone. */
  lemma GraftFrame(ns: NS, q: nat, p: nat, d: nat, rt: nat, sb: nat, x: nat)
    requires Fields(ns) && q !in ns.parent && p in ns.parent && x in ns.parent
    ensures var nt := Graft(ns, q, p, d, rt, sb);
            && x in nt.parent && x in nt.point && x in nt.root && x in nt.sb && x in nt.kids
            && nt.parent[x] == ns.parent[x] && nt.point[x] == ns.point[x] && nt.root[x] == ns.root[x]
            && nt.sb[x] == ns.sb[x] && nt.kids[x] == if x == p then [q] + ns.kids[x] else ns.kids[x]
  {
  }

  lemma GraftNew(ns: NS, q: nat, p: nat, d: nat, rt: nat, sb: nat)
    requires Fields(ns) && q !in ns.parent && p in ns.parent
    ensures var nt := Graft(ns, q, p, d, rt, sb);
            && q in nt.parent && q in nt.point && q in nt.root && q in nt.sb && q in nt.kids
            && nt.parent[q] == p && nt.point[q] == d && nt.root[q] == rt && nt.sb[q] == sb && nt.kids[q] == []
  {
  }

  lemma GraftUntouched(ns0: NS, ns: NS, q: nat, p: nat, d: nat, rt: nat, sb: nat)
    requires Fields(ns) && q !in ns.parent && p in ns.parent && p !in ns0.parent && Untouched(ns0, ns)
    ensures Untouched(ns0, Graft(ns, q, p, d, rt, sb))
  {
    forall x | x in ns0.parent ensures SameMount(ns0, Graft(ns, q, p, d, rt, sb), x) {
      assert SameMount(ns0, ns, x);
      GraftFrame(ns, q, p, d, rt, sb, x);
    }
  }

  /** Mount `m`, cloned before, still mirrors after the clone `q` of the next mount has been grafted. */
  lemma StillMirrors(ns0: NS, ns: NS, top: nat, dentry: nat, l: Layout, clone: map<nat, nat>, i: nat, q: nat, m: nat,
                     p: nat, d: nat, rt: nat, sb: nat)
    requires Fields(ns) && Laid(TreeOf(ns0), top, l) && TreeOk(TreeOf(ns0)) && Cloned(l, clone, i)
    requires i + 1 < |l.order| && q !in ns.parent && p in ns.parent && m in clone
    requires Par(ns0.parent, l.order[i + 1]) in clone && p == clone[Par(ns0.parent, l.order[i + 1])]
    requires MirrorsSoFar(ns0, ns, top, dentry, l, clone, i, m)
    ensures MirrorsSoFar(ns0, Graft(ns, q, p, d, rt, sb), top, dentry, l, clone[l.order[i + 1] := q], i + 1, m)
  {
    var next := l.order[i + 1];
    var ks := ns0.kids[m];
    var n, n' := Seen(l, ks, i), Seen(l, ks, i + 1);
    assert next !in clone;
    SeenNext(TreeOf(ns0), top, l, m, i);
    MirrorPush(clone, next, q, ks, n);
    GraftMirrors(ns0, ns, top, dentry, clone, m, n, n', next, q, p, d, rt, sb);
  }

  lemma GraftMirrors(ns0: NS, ns: NS, top: nat, dentry: nat, clone: map<nat, nat>, m: nat, n: nat, n': nat,
                     next: nat, q: nat, p: nat, d: nat, rt: nat, sb: nat)
    requires Fields(ns) && q !in ns.parent && p in ns.parent && next !in clone
    requires Mirrors(ns0, ns, top, dentry, clone, m, n)
    requires n <= n' <= |ns0.kids[m]| && forall j :: n <= j < n' ==> ns0.kids[m][j] == next
    requires Mirror(clone[next := q], ns0.kids[m][..n']) ==
             if p == clone[m] then [q] + Mirror(clone, ns0.kids[m][..n]) else Mirror(clone, ns0.kids[m][..n])
    ensures Mirrors(ns0, Graft(ns, q, p, d, rt, sb), top, dentry, clone[next := q], m, n')
  {
    GraftFrame(ns, q, p, d, rt, sb, clone[m]);
  }

  /** Putting the clone of ks[n] in front extends the mirror of ks[..n]. */
  lemma MirrorPush(clone: map<nat, nat>, next: nat, q: nat, ks: seq<nat>, n: nat)
    requires n <= |ks| && next !in clone && forall j :: 0 <= j < n ==> ks[j] in clone
    ensures Mirror(clone[next := q], ks[..n]) == Mirror(clone, ks[..n])
    ensures n < |ks| && ks[n] == next ==> Mirror(clone[next := q], ks[..n + 1]) == [q] + Mirror(clone, ks[..n])
  {
    MirrorExtend(clone, clone[next := q], ks[..n]);
    if n < |ks| { assert ks[..n + 1][..n] == ks[..n]; }
  }

  lemma NewMirrors(ns0: NS, ns: NS, top: nat, dentry: nat, l: Layout, clone: map<nat, nat>, i: nat, q: nat, p: nat)
    requires Fields(ns0) && Fields(ns) && Laid(TreeOf(ns0), top, l)
    requires i + 1 < |l.order| && q !in ns.parent && q !in ns0.parent && p in ns.parent && InTree(l, l.order[i + 1])
    requires l.order[i + 1] !in clone
    requires Par(ns0.parent, l.order[i + 1]) in clone && p == clone[Par(ns0.parent, l.order[i + 1])]
    requires l.order[i + 1] in ns0.point && l.order[i + 1] in ns0.root && l.order[i + 1] in ns0.sb
    ensures var x := l.order[i + 1];
            MirrorsSoFar(ns0, Graft(ns, q, p, ns0.point[x], ns0.root[x], ns0.sb[x]), top, dentry, l, clone[x := q],
                         i + 1, x)
  {
    var x := l.order[i + 1];
    GraftNew(ns, q, p, ns0.point[x], ns0.root[x], ns0.sb[x]);
    NoneSeen(ns0, top, l, x, i + 1);
    assert x in ns0.parent && x != top && Mirror(clone[x := q], ns0.kids[x][..0]) == [];
  }

  lemma NextCloned(ns0: NS, ns: NS, top: nat, dentry: nat, l: Layout, clone: map<nat, nat>, i: nat, q: nat)
    requires Copied(ns0, ns, top, dentry, l, clone, i) && Positions(l) && i + 1 < |l.order| && q !in ns.parent
    ensures Cloned(l, clone[l.order[i + 1] := q], i + 1) && l.order[i + 1] !in clone
    ensures forall m :: m in clone ==> clone[m] in ns.parent && clone[m] !in ns0.parent
  {
    var next := l.order[i + 1];
    forall m | m in clone ensures clone[m] in ns.parent && clone[m] !in ns0.parent { assert InTree(l, m); }
    forall m ensures m in clone[next := q] <==> m in l.at && l.at[m] <= i + 1 {
      assert m in l.at && l.at[m] == i + 1 ==> m == next;
    }
  }

  lemma CopyStep(ns0: NS, ns: NS, top: nat, dentry: nat, l: Layout, clone: map<nat, nat>, i: nat, q: nat)
    requires Inv(ns0) && Laid(TreeOf(ns0), top, l) && Copied(ns0, ns, top, dentry, l, clone, i)
    requires i + 1 < |l.order| && q !in ns.parent && q !in ns0.parent
    ensures var next := l.order[i + 1];
            && Par(ns0.parent, next) in clone && clone[Par(ns0.parent, next)] in ns.parent
            && next in ns0.point && next in ns0.root && next in ns0.sb
            && Copied(ns0, Graft(ns, q, clone[Par(ns0.parent, next)], ns0.point[next], ns0.root[next], ns0.sb[next]),
                      top, dentry, l, clone[next := q], i + 1)
  {
    var next := l.order[i + 1];
    var t := Par(ns0.parent, next);
    assert InTree(l, next) && next != top;
    InvTree(ns0);
    ClimbStep(TreeOf(ns0), top, l, next);
    assert t in clone;
    NextCloned(ns0, ns, top, dentry, l, clone, i, q);
    var p := clone[t];
    var nt := Graft(ns, q, p, ns0.point[next], ns0.root[next], ns0.sb[next]);
    GraftInv(ns, q, p, ns0.point[next], ns0.root[next], ns0.sb[next]);
    GraftUntouched(ns0, ns, q, p, ns0.point[next], ns0.root[next], ns0.sb[next]);
    forall m | InTree(l, m) && m in clone[next := q]
      ensures MirrorsSoFar(ns0, nt, top, dentry, l, clone[next := q], i + 1, m)
    {
      if m == next {
        NewMirrors(ns0, ns, top, dentry, l, clone, i, q, p);
      } else {
        StillMirrors(ns0, ns, top, dentry, l, clone, i, q, m, p, ns0.point[next], ns0.root[next], ns0.sb[next]);
      }
    }
  }

  /** The finished copy: every mount of the tree has its mirror image, all children included. */
  ghost predicate MirrorImage(ns0: NS, ns: NS, top: nat, dentry: nat, l: Layout, clone: map<nat, nat>) {
    && Inv(ns) && Cloned(l, clone, |l.order|) && Untouched(ns0, ns)
    && (forall m {:trigger InTree(l, m)} :: InTree(l, m) ==>
          m in ns0.kids && Mirrors(ns0, ns, top, dentry, clone, m, |ns0.kids[m]|))
  }

  lemma CopyDone(ns0: NS, ns: NS, top: nat, dentry: nat, l: Layout, clone: map<nat, nat>)
    requires Inv(ns0) && Laid(TreeOf(ns0), top, l) && Copied(ns0, ns, top, dentry, l, clone, |l.order| - 1)
    ensures MirrorImage(ns0, ns, top, dentry, l, clone)
  {
    forall m | InTree(l, m)
      ensures m in ns0.kids && Mirrors(ns0, ns, top, dentry, clone, m, |ns0.kids[m]|)
    {
      var ks := ns0.kids[m];
      assert KidsLaid(l, m, ks) && m in clone;
      SeenIs(l, m, ks, |l.order| - 1, |ks|);
    }
  }
}
