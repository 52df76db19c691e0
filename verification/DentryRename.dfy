/** Counts, the unused list, names and hash chains as one state: what a rename and the dput after it do to
    all of them (fs/dcache.c:118-160, 898-926; fs/namei.c:1748-1753, 1899-1904). */
module DentryRenames {
  import opened Forests
  import opened Lists
  import opened TreeLayout
  import C = DentryCache
  import M = DentryMoves

  datatype Full = Full(dc: C.Cache, dt: M.Dir)

  /** The two views are of the same dentries. */
  ghost predicate Agree(f: Full) {
    && f.dc.parent == f.dt.parent && f.dc.kids == f.dt.kids && f.dc.count == f.dt.count
    && forall x {:trigger M.Hashed(f.dt, x)} :: x in f.dc.hashed <==> M.Hashed(f.dt, x)
  }

  ghost predicate FullInv(f: Full) {
    Agree(f) && C.Inv(f.dc) && M.Indexed(f.dt)
  }

  // ---- d_move

  /** d_move of `d` onto `t`: `d` is hashed if `t` was, and `t` no longer. */
  function MoveBoth(f: Full, d: nat, t: nat): Full
    requires M.Movable(f.dt, d, t)
  {
    var m := M.Moved(f.dt, d, t);
    Full(f.dc.(parent := m.parent, kids := m.kids,
               hashed := f.dc.hashed - {d, t} + if t in f.dc.hashed then {d} else {}), m)
  }

  lemma HashedFinds(dt: M.Dir, x: nat)
    requires M.Fields(dt) && x in dt.parent
    ensures M.Hashed(dt, x) <==> M.Finds(dt, x, dt.parent[x], dt.name[x].hash, M.Text(dt.name[x]))
  {
  }

  lemma MovedHashed(dt: M.Dir, d: nat, t: nat, x: nat)
    requires M.Indexed(dt) && M.Movable(dt, d, t)
    ensures M.Hashed(M.Moved(dt, d, t), x) <==> if x == d then M.Hashed(dt, t) else x != t && M.Hashed(dt, x)
  {
    var r := M.Moved(dt, d, t);
    if x in dt.parent {
      HashedFinds(r, x);
      HashedFinds(dt, x);
      HashedFinds(dt, t);
      M.MovedNamesMean(dt.name, d, t);
      M.MovedFinds(dt, d, t, x, r.parent[x], r.name[x].hash, M.Text(r.name[x]));
    }
  }

  lemma MoveHeld(f: Full, d: nat, t: nat, x: nat)
    requires FullInv(f) && M.Movable(f.dt, d, t)
    ensures C.Held(MoveBoth(f, d, t).dc, x) == C.Held(f.dc, x)
  {
    if x in f.dt.kids { M.MovedHeld(f.dt, d, t, x); }
  }

  lemma MoveAgrees(f: Full, d: nat, t: nat)
    requires FullInv(f) && M.Movable(f.dt, d, t)
    ensures Agree(MoveBoth(f, d, t))
  {
    var r := MoveBoth(f, d, t);
    forall x ensures x in r.dc.hashed <==> M.Hashed(r.dt, x) {
      MovedHashed(f.dt, d, t, x);
      assert x in f.dc.hashed <==> M.Hashed(f.dt, x);
      assert t in f.dc.hashed <==> M.Hashed(f.dt, t);
    }
  }

  lemma MoveCounts(f: Full, d: nat, t: nat)
    requires FullInv(f) && M.Movable(f.dt, d, t) && TreeOk(M.TreeOf(M.Moved(f.dt, d, t)))
    ensures C.Inv(MoveBoth(f, d, t).dc)
  {
    var r := MoveBoth(f, d, t).dc;
    forall x ensures C.Held(r, x) >= 0 {
      MoveHeld(f, d, t, x);
      assert C.Held(f.dc, x) >= 0;
    }
    forall x ensures x in r.unused <==> C.Idle(r, x) && x !in {} {
      assert x in f.dc.unused <==> C.Idle(f.dc, x) && x !in {};
    }
  }

  /** d_move keeps the counts, the unused list, the tree and the index right, if the two are apart. */
  lemma MoveBothKeeps(f: Full, d: nat, t: nat)
    requires FullInv(f) && M.Movable(f.dt, d, t) && M.Apart(f.dt.parent, d, t)
    ensures FullInv(MoveBoth(f, d, t))
  {
    M.MovedIndexed(f.dt, d, t);
    M.MovedTree(f.dt, d, t);
    MoveAgrees(f, d, t);
    MoveCounts(f, d, t);
  }

  // ---- dput

  /** The members of `s` that are in `keep`. */
  function Among(s: seq<nat>, keep: set<nat>): seq<nat> {
    if s == [] then [] else (if s[0] in keep then [s[0]] else []) + Among(s[1..], keep)
  }

  lemma {:induction false} AmongIs(s: seq<nat>, keep: set<nat>)
    ensures forall x :: x in Among(s, keep) <==> x in s && x in keep
    ensures Distinct(s) ==> Distinct(Among(s, keep))
  {
    if s != [] {
      AmongIs(s[1..], keep);
      assert s == [s[0]] + s[1..];
      var rest := Among(s[1..], keep);
      if Distinct(s) {
        assert s[0] !in s[1..];
        if s[0] in keep { PushDistinct(rest, s[0]); }
      }
    }
  }

  /** The names and chains when only the dentries of `r` are left. */
  function Cut(dt: M.Dir, r: C.Cache): M.Dir {
    dt.(parent := r.parent, kids := r.kids, count := r.count,
        name := map x | x in dt.name && x in r.parent :: dt.name[x],
        chains := map b | b in dt.chains :: Among(dt.chains[b], r.parent.Keys))
  }

  ghost function PutBoth(f: Full, x: nat): Full
    requires C.Inv(f.dc) && x in f.dc.parent && C.Held(f.dc, x) > 0
  {
    var r := C.Put(f.dc, x);
    Full(r, Cut(f.dt, r))
  }

  /** dput unhashes what it frees and nothing else. */
  lemma {:induction false} PutHashed(dc: C.Cache, x: nat)
    requires C.Inv(dc) && x in dc.parent && C.Held(dc, x) > 0
    ensures C.Put(dc, x).hashed == dc.hashed - (dc.parent.Keys - C.Put(dc, x).parent.Keys)
    decreases |dc.parent|
  {
    if dc.count[x] == 1 && (x in dc.doomed || x !in dc.hashed) {
      C.AfterLastHold(dc, x);
      C.PutKeeps(dc, x);
      if dc.parent[x] != x {
        var k := C.Kill(dc, x);
        PutHashed(k, dc.parent[x]);
        C.PutKeeps(k, dc.parent[x]);
      }
    }
  }

  lemma CutChain(dt: M.Dir, r: C.Cache, b: nat, x: nat)
    ensures M.InChain(Cut(dt, r), b, x) <==> M.InChain(dt, b, x) && x in r.parent
  {
    if b in dt.chains { AmongIs(dt.chains[b], r.parent.Keys); }
  }

  /** What is left of an index is one. */
  lemma CutIndexed(dt: M.Dir, r: C.Cache)
    requires M.Indexed(dt) && r.parent.Keys <= dt.parent.Keys && r.kids.Keys == r.count.Keys == r.parent.Keys
    requires forall x :: x in r.parent ==> r.parent[x] == dt.parent[x]
    ensures M.Indexed(Cut(dt, r))
    ensures forall x {:trigger M.Hashed(Cut(dt, r), x)} :: M.Hashed(Cut(dt, r), x) <==> M.Hashed(dt, x) && x in r.parent
  {
    var c := Cut(dt, r);
    assert c.name.Keys == r.parent.Keys;
    forall b | b in c.chains ensures Distinct(c.chains[b]) { AmongIs(dt.chains[b], r.parent.Keys); }
    forall b, x | M.InChain(c, b, x) ensures x in c.parent && b == M.Home(c, x) {
      CutChain(dt, r, b, x);
      assert b == M.Home(dt, x);
    }
    forall x ensures M.Hashed(c, x) <==> M.Hashed(dt, x) && x in r.parent {
      if x in r.parent { CutChain(dt, r, M.Home(dt, x), x); }
    }
  }

  /** dput keeps both views right and in agreement. */
  lemma PutBothKeeps(f: Full, x: nat)
    requires FullInv(f) && x in f.dc.parent && C.Held(f.dc, x) > 0
    ensures FullInv(PutBoth(f, x))
  {
    var r := C.Put(f.dc, x);
    C.PutKeeps(f.dc, x);
    PutHashed(f.dc, x);
    forall y | y in r.parent ensures r.parent[y] == f.dt.parent[y] {
      assert Par(r.parent, y) == Par(f.dc.parent, y);
    }
    CutIndexed(f.dt, r);
    forall y ensures y in r.hashed <==> M.Hashed(Cut(f.dt, r), y) {
      assert y in f.dc.hashed <==> M.Hashed(f.dt, y);
    }
  }

  // ---- a rename

  /** The dput of a childless, unhashed dentry whose parent someone holds frees it if no one else holds it. */
  lemma PutUnhashed(dc: C.Cache, t: nat)
    requires C.Inv(dc) && t in dc.parent && dc.kids[t] == [] && t !in dc.hashed && C.Held(dc, t) > 0
    requires dc.parent[t] != t && C.Held(dc, dc.parent[t]) > 0
    ensures C.Put(dc, t).parent == if dc.count[t] == 1 then dc.parent - {t} else dc.parent
  {
    if dc.count[t] == 1 {
      C.AfterLastHold(dc, t);
      C.LastHold(dc, t);
      C.KillInv(dc, t);
      var k, p := C.Kill(dc, t), dc.parent[t];
      assert C.Held(k, p) == C.Held(dc, p) + 1;
      assert k.count[p] > 1;
    }
  }

  /** The target hangs in the old directory now, without children and unhashed. */
  lemma RenamedTarget(f: Full, d: nat, t: nat)
    requires FullInv(f) && M.Movable(f.dt, d, t) && M.Apart(f.dt.parent, d, t) && f.dt.kids[t] == []
    ensures var g := MoveBoth(f, d, t).dc;
            && t in g.parent && g.parent[t] == f.dc.parent[d] != t && g.kids[t] == [] && t !in g.hashed
            && g.count == f.dc.count
  {
    ParentBelow(f.dt.parent, d);
    M.MovedKidsOf(f.dt, d, t, t);
  }

  /** The state between d_move and dput: the caller still holds the target, and the directory it is in. */
  ghost predicate Ready(g: Full, t: nat) {
    && FullInv(g) && t in g.dc.parent && g.dc.kids[t] == [] && t !in g.dc.hashed && C.Held(g.dc, t) > 0
    && g.dc.parent[t] != t && C.Held(g.dc, g.dc.parent[t]) > 0
  }

  /** What the caller of rename sees to: the checks, a childless target, and holds on it and on the old
      directory. */
  ghost predicate Renames(f: Full, d: nat, t: nat) {
    && FullInv(f) && M.Movable(f.dt, d, t) && M.RenameChecked(f.dt.parent, d, t) && f.dt.kids[t] == []
    && C.Held(f.dc, t) > 0 && C.Held(f.dc, f.dc.parent[d]) > 0
  }

  lemma MoveReadies(f: Full, d: nat, t: nat)
    requires Renames(f, d, t)
    ensures Ready(MoveBoth(f, d, t), t)
  {
    M.EmptyTargetApart(M.TreeOf(f.dt), d, t);
    MoveBothKeeps(f, d, t);
    MoveHeld(f, d, t, t);
    MoveHeld(f, d, t, f.dc.parent[d]);
    RenamedTarget(f, d, t);
  }

  /** The dput frees at most the target, and every hashed dentry is found as before. */
  lemma PutReady(g: Full, t: nat)
    requires Ready(g, t)
    ensures FullInv(PutBoth(g, t))
    ensures PutBoth(g, t).dc.parent == if g.dc.count[t] == 1 then g.dc.parent - {t} else g.dc.parent
    ensures PutBoth(g, t).dc.hashed == g.dc.hashed
  {
    PutUnhashed(g.dc, t);
    PutBothKeeps(g, t);
    PutHashed(g.dc, t);
  }

  lemma PutFinds(g: Full, t: nat, x: nat, p: nat, hash: nat, text: string)
    requires Ready(g, t)
    ensures M.Finds(PutBoth(g, t).dt, x, p, hash, text) <==> M.Finds(g.dt, x, p, hash, text)
  {
    var h := PutBoth(g, t);
    PutReady(g, t);
    assert x in g.dc.hashed <==> M.Hashed(g.dt, x);
    assert x in h.dc.hashed <==> M.Hashed(h.dt, x);
  }

  /** After a rename and the dput of the target all invariants hold on, and exactly the target is freed, if no
      one else holds it. */
  lemma RenameFrees(f: Full, d: nat, t: nat)
    requires Renames(f, d, t)
    ensures Ready(MoveBoth(f, d, t), t)
    ensures var h := PutBoth(MoveBoth(f, d, t), t);
            FullInv(h) && h.dc.parent.Keys == f.dc.parent.Keys - (if f.dc.count[t] == 1 then {t} else {})
  {
    MoveReadies(f, d, t);
    PutReady(MoveBoth(f, d, t), t);
  }

  /** Then the dentry is found where the target was, and everything else where it was. */
  lemma RenameFinds(f: Full, d: nat, t: nat, x: nat, p: nat, hash: nat, text: string)
    requires Renames(f, d, t) && Ready(MoveBoth(f, d, t), t)
    ensures M.Finds(PutBoth(MoveBoth(f, d, t), t).dt, x, p, hash, text) <==>
              if x == d then M.Finds(f.dt, t, p, hash, text) else x != t && M.Finds(f.dt, x, p, hash, text)
  {
    PutFinds(MoveBoth(f, d, t), t, x, p, hash, text);
    M.MovedFinds(f.dt, d, t, x, p, hash, text);
  }
}
