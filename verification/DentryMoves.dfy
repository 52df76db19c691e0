/** The hash index of dentries and d_move (fs/dcache.c:685-738, 846-926; fs/namei.c:1748-1753). */
module DentryMoves {
  import opened Forests
  import opened Lists
  import opened TreeLayout
  import opened Options

  /** A d_name: its stored hash and length, and the text, which is in `outside` memory or in the
      buffer `inner` inside the dentry. */
  datatype Name = Name(hash: nat, len: nat, outside: Option<string>, inner: string)

  function Text(n: Name): string {
    var s := if n.outside.Some? then n.outside.value else n.inner;
    if n.len <= |s| then s[..n.len] else s
  }

  const DNAME_INLINE_LEN := 16

  predicate WellNamed(n: Name) {
    |n.inner| == DNAME_INLINE_LEN && n.len <= if n.outside.Some? then |n.outside.value| else DNAME_INLINE_LEN
  }

  /** What d_name.name holds: the address of the buffer inside some dentry, or of memory outside. */
  datatype Place = Inside(dentry: nat) | Outside(text: string)

  function PlaceOf(x: nat, n: Name): Place {
    if n.outside.Some? then Outside(n.outside.value) else Inside(x)
  }

  /** The name of `x` with d_name.name set: to its own buffer or outside, never into another dentry. */
  function PlacedAt(x: nat, n: Name, p: Place): (r: Name)
    requires p.Inside? ==> p.dentry == x
    ensures PlaceOf(x, r) == p
  {
    n.(outside := if p.Outside? then Some(p.text) else None)
  }

  /** Dentries with their names and hash chains; `bucket` is d_hash, any function of the parent and
      the stored hash. */
  datatype Dir = Dir(parent: map<nat, nat>, kids: map<nat, seq<nat>>, count: map<nat, nat>, name: map<nat, Name>,
                     chains: map<nat, seq<nat>>, bucket: (nat, nat) -> nat)

  function TreeOf(dt: Dir): Tree {
    Tree(dt.parent, dt.kids)
  }

  function Chain(dt: Dir, b: nat): seq<nat> {
    if b in dt.chains then dt.chains[b] else []
  }

  predicate Fields(dt: Dir) {
    dt.parent.Keys == dt.kids.Keys == dt.count.Keys == dt.name.Keys
  }

  /** The chain `x` belongs to. */
  function Home(dt: Dir, x: nat): nat
    requires x in dt.parent && x in dt.name
  {
    dt.bucket(dt.parent[x], dt.name[x].hash)
  }

  predicate InChain(dt: Dir, b: nat, x: nat) {
    x in Chain(dt, b)
  }

  /** Every hashed dentry is in the chain of its own parent and name hash, and there once. */
  ghost predicate Indexed(dt: Dir) {
    && Fields(dt)
    && (forall x :: x in dt.name ==> WellNamed(dt.name[x]))
    && (forall b :: b in dt.chains ==> Distinct(dt.chains[b]))
    && (forall b, x {:trigger InChain(dt, b, x)} :: InChain(dt, b, x) ==> x in dt.parent && b == Home(dt, x))
  }

  predicate Hashed(dt: Dir, x: nat) {
    x in dt.parent && x in dt.name && InChain(dt, Home(dt, x), x)
  }

  // ---- lookup

  predicate Matches(dt: Dir, x: nat, p: nat, hash: nat, text: string) {
    x in dt.parent && x in dt.name && dt.parent[x] == p && dt.name[x].hash == hash && Text(dt.name[x]) == text
  }

  /** A plain search: is `x` a hashed child of `p` with that name? */
  predicate Finds(dt: Dir, x: nat, p: nat, hash: nat, text: string) {
    Hashed(dt, x) && Matches(dt, x, p, hash, text)
  }

  /** A dentry that would be found is in the one chain that is searched. */
  lemma FoundInChain(dt: Dir, x: nat, p: nat, hash: nat, text: string)
    requires Indexed(dt)
    ensures Finds(dt, x, p, hash, text) <==> x in Chain(dt, dt.bucket(p, hash)) && Matches(dt, x, p, hash, text)
  {
  }

  // ---- d_move

  function Replace(s: seq<nat>, t: nat, d: nat): seq<nat> {
    if s == [] then [] else [if s[0] == t then d else s[0]] + Replace(s[1..], t, d)
  }

  function InsertAfter(s: seq<nat>, t: nat, d: nat): seq<nat> {
    if s == [] then [] else if s[0] == t then [t, d] + s[1..] else [s[0]] + InsertAfter(s[1..], t, d)
  }

  /** Inserting after an entry that is then removed puts one in the place of the other. */
  lemma {:induction false} SwitchIn(s: seq<nat>, t: nat, d: nat)
    requires Distinct(s) && d !in s && d != t
    ensures Without(InsertAfter(s, t, d), t) == Replace(s, t, d)
  {
    if s == [] {
    } else if s[0] == t {
      assert t !in s[1..];
      assert ([t, d] + s[1..])[1..] == [d] + s[1..] && ([d] + s[1..])[1..] == s[1..];
      WithoutAbsent(s[1..], t);
      ReplaceAbsent(s[1..], t, d);
    } else {
      SwitchIn(s[1..], t, d);
      assert ([s[0]] + InsertAfter(s[1..], t, d))[1..] == InsertAfter(s[1..], t, d);
    }
  }

  lemma {:induction false} ReplaceAbsent(s: seq<nat>, t: nat, d: nat)
    requires t !in s
    ensures Replace(s, t, d) == s
  {
    if s != [] { ReplaceAbsent(s[1..], t, d); }
  }

  lemma {:induction false} ReplaceIn(s: seq<nat>, t: nat, d: nat)
    requires d !in s && d != t
    ensures forall x :: x in Replace(s, t, d) <==> if x == d then t in s else x in s && x != t
  {
    if s != [] {
      ReplaceIn(s[1..], t, d);
      assert s == [s[0]] + s[1..];
    }
  }

  lemma {:induction false} ReplaceDistinct(s: seq<nat>, t: nat, d: nat)
    requires Distinct(s) && d !in s && d != t
    ensures Distinct(Replace(s, t, d))
  {
    if s != [] {
      ReplaceDistinct(s[1..], t, d);
      ReplaceIn(s[1..], t, d);
      assert s[0] !in s[1..];
      PushDistinct(Replace(s[1..], t, d), if s[0] == t then d else s[0]);
    }
  }

  /** The chains after the hash switch: `d` leaves its chain and takes the place of `t`.  An unhashed
      `t` is alone in its list, and so is `d` once it has taken its place there. */
  function MovedChains(dt: Dir, d: nat, t: nat): map<nat, seq<nat>>
    requires Fields(dt) && d in dt.parent && t in dt.parent
  {
    var left := dt.chains[Home(dt, d) := Without(Chain(dt, Home(dt, d)), d)];
    var ct := if Home(dt, t) in left then left[Home(dt, t)] else [];
    left[Home(dt, t) := Replace(ct, t, d)]
  }

  /** switch_names and the switch of length and hash: `d` gets the name of `t`; `t` gets the hash and
      length of `d`, but its text only if that was outside. */
  function MovedNames(name: map<nat, Name>, d: nat, t: nat): map<nat, Name>
    requires d in name && t in name
  {
    var nd, nt := name[d], name[t];
    name[d := Name(nt.hash, nt.len, nt.outside, nt.inner)][t := Name(nd.hash, nd.len, nd.outside, nt.inner)]
  }

  /** The dentry has the whole name the target had, inline or outside; the target has the dentry's hash
      and length, and its text too if that was outside. */
  lemma MovedNamesMean(name: map<nat, Name>, d: nat, t: nat)
    requires d in name && t in name && d != t && WellNamed(name[d]) && WellNamed(name[t])
    ensures var r := MovedNames(name, d, t);
            && r.Keys == name.Keys && WellNamed(r[d]) && WellNamed(r[t]) && Text(r[d]) == Text(name[t])
            && Text(r[t]) == if name[d].outside.Some? then Text(name[d]) else name[t].inner[..name[d].len]
  {
  }

  function MovedKids(kids: map<nat, seq<nat>>, d: nat, pd: nat, t: nat, pt: nat): map<nat, seq<nat>>
    requires pd in kids && pt in kids
  {
    var k1 := kids[pd := Without(kids[pd], d)];
    var k2 := k1[pt := Without(k1[pt], t)];
    var k3 := k2[pd := [t] + k2[pd]];
    k3[pt := [d] + k3[pt]]
  }

  predicate Movable(dt: Dir, d: nat, t: nat) {
    && Fields(dt) && d in dt.parent && t in dt.parent && d != t
    && HasParent(TreeOf(dt), d) && HasParent(TreeOf(dt), t) && dt.parent[d] in dt.kids && dt.parent[t] in dt.kids
  }

  /** d_move of `d` onto `t`. */
  function Moved(dt: Dir, d: nat, t: nat): Dir
    requires Movable(dt, d, t)
  {
    dt.(chains := MovedChains(dt, d, t), name := MovedNames(dt.name, d, t),
        parent := dt.parent[d := dt.parent[t]][t := dt.parent[d]],
        kids := MovedKids(dt.kids, d, dt.parent[d], t, dt.parent[t]))
  }

  // ---- the index after d_move

  /** `x` is in chain `b` after the move iff it takes the place of one that was there. */
  lemma MovedChain(dt: Dir, d: nat, t: nat, b: nat)
    requires Indexed(dt) && Movable(dt, d, t)
    ensures Distinct(Chain(Moved(dt, d, t), b))
    ensures forall x :: InChain(Moved(dt, d, t), b, x) <==>
              if x == d then InChain(dt, b, t) else x != t && InChain(dt, b, x)
  {
    var r := Moved(dt, d, t);
    var hd, ht := Home(dt, d), Home(dt, t);
    var left := dt.chains[hd := Without(Chain(dt, hd), d)];
    WithoutIn(Chain(dt, hd), d);
    WithoutDistinct(Chain(dt, hd), d);
    var ct := if ht in left then left[ht] else [];
    assert !InChain(dt, ht, d) || hd == ht;
    ReplaceIn(ct, t, d);
    ReplaceDistinct(ct, t, d);
    forall x ensures InChain(r, b, x) <==> if x == d then InChain(dt, b, t) else x != t && InChain(dt, b, x) {
      assert InChain(dt, b, d) ==> b == hd;
      assert InChain(dt, b, t) ==> b == ht;
      assert InChain(dt, b, x) <==> x in Chain(dt, b);
    }
  }

  lemma MovedIndexed(dt: Dir, d: nat, t: nat)
    requires Indexed(dt) && Movable(dt, d, t)
    ensures Indexed(Moved(dt, d, t))
  {
    var r := Moved(dt, d, t);
    forall b | b in r.chains ensures Distinct(r.chains[b]) {
      MovedChain(dt, d, t, b);
    }
    forall b, x | InChain(r, b, x) ensures x in r.parent && b == Home(r, x) {
      MovedChain(dt, d, t, b);
      assert InChain(dt, b, if x == d then t else x);
    }
  }

  /** After d_move a search finds `d` where it found `t` before, no longer finds `t`, and finds every
      other dentry as before. */
  lemma MovedFinds(dt: Dir, d: nat, t: nat, x: nat, p: nat, hash: nat, text: string)
    requires Indexed(dt) && Movable(dt, d, t)
    ensures Finds(Moved(dt, d, t), x, p, hash, text) <==>
              if x == d then Finds(dt, t, p, hash, text) else x != t && Finds(dt, x, p, hash, text)
  {
    var r := Moved(dt, d, t);
    MovedIndexed(dt, d, t);
    MovedChain(dt, d, t, r.bucket(p, hash));
    FoundInChain(r, x, p, hash, text);
    FoundInChain(dt, x, p, hash, text);
    FoundInChain(dt, t, p, hash, text);
    assert InChain(r, r.bucket(p, hash), x) <==> x in Chain(r, r.bucket(p, hash));
  }

  // ---- child lists after d_move

  lemma MovedKidsOf(dt: Dir, d: nat, t: nat, m: nat)
    requires Movable(dt, d, t) && TreeOk(TreeOf(dt)) && m in dt.kids
    ensures var r := Moved(dt, d, t);
            && m in r.kids && |r.kids[m]| == |dt.kids[m]| && Distinct(r.kids[m])
            && forall c :: c in r.kids[m] <==>
                 if c == d then m == dt.parent[t] else if c == t then m == dt.parent[d] else c in dt.kids[m]
  {
    var tr, pd, pt := TreeOf(dt), dt.parent[d], dt.parent[t];
    assert IsChild(tr, pd, d) && IsChild(tr, pt, t);
    assert IsChild(tr, m, d) <==> pd == m;
    assert IsChild(tr, m, t) <==> pt == m;
    var ks := dt.kids[m];
    WithoutIn(ks, d); WithoutDistinct(ks, d); WithoutSize(ks, d);
    WithoutIn(ks, t); WithoutDistinct(ks, t); WithoutSize(ks, t);
    var ks' := Without(ks, d);
    WithoutIn(ks', t); WithoutDistinct(ks', t); WithoutSize(ks', t);
    var k2 := if m == pd == pt then Without(ks', t) else if m == pd then ks'
              else if m == pt then Without(ks, t) else ks;
    var k3 := if m == pd then [t] + k2 else k2;
    if m == pd { PushDistinct(k2, t); }
    if m == pt { PushDistinct(k3, d); }
    assert Moved(dt, d, t).kids[m] == if m == pt then [d] + k3 else k3;
  }

  /** No dentry gains or loses a child on balance, so each keeps the number of outside references. */
  lemma MovedHeld(dt: Dir, d: nat, t: nat, m: nat)
    requires Movable(dt, d, t) && TreeOk(TreeOf(dt)) && m in dt.kids
    ensures var r := Moved(dt, d, t); m in r.kids && r.count[m] - |r.kids[m]| == dt.count[m] - |dt.kids[m]|
  {
    MovedKidsOf(dt, d, t, m);
  }

  // ---- the tree after d_move

  /** Neither is below the other: what vfs_rename_dir and the file systems must see to. */
  ghost predicate Apart(par: map<nat, nat>, d: nat, t: nat) {
    !Below(par, d, t) && !Below(par, t, d)
  }

  /** Two subtrees apart can change places. */
  lemma SwapForest(par: map<nat, nat>, d: nat, t: nat)
    requires Forest(par) && d != t && !IsRoot(par, d) && !IsRoot(par, t) && Apart(par, d, t)
    ensures Forest(par[d := Par(par, t)][t := Par(par, d)])
  {
    var pd, pt := Par(par, d), Par(par, t);
    ChildNotAbove(par, d);
    ChildNotAbove(par, t);
    assert !Below(par, pt, d) by { if Below(par, pt, d) { ParentBelow(par, t); BelowTrans(par, t, pt, d); } }
    assert !Below(par, pd, t) by { if Below(par, pd, t) { ParentBelow(par, d); BelowTrans(par, d, pd, t); } }
    var par1 := par[d := d];
    var par2 := par1[t := t];
    CutForest(par, d);
    CutForest(par1, t);
    ApartTwice(par, d, t, pt);
    ApartTwice(par, d, t, pd);
    HangForest(par2, d, pt);
    var par3 := par2[d := pt];
    BelowElsewhere(par2, d, pt, pd, t);
    HangForest(par3, t, pd);
    assert par3[t := pd] == par[d := pt][t := pd];
  }

  lemma ApartTwice(par: map<nat, nat>, d: nat, t: nat, x: nat)
    requires !Below(par, x, d) && !Below(par, x, t)
    ensures var par2 := par[d := d][t := t]; !Below(par2, x, d) && !Below(par2, x, t)
  {
    var par1 := par[d := d];
    BelowElsewhere(par, d, d, x, d);
    BelowElsewhere(par, d, d, x, t);
    BelowElsewhere(par1, t, t, x, d);
    BelowElsewhere(par1, t, t, x, t);
  }

  /** If `a` is below `b`, moving `b` to where `a` was makes a cycle. */
  lemma SwapCycle(par: map<nat, nat>, r: Tree, a: nat, b: nat)
    requires Forest(par) && a != b && !IsRoot(par, a) && !IsRoot(par, b) && Below(par, a, b)
    requires r.parent == par[a := Par(par, b)][b := Par(par, a)] && IsChild(r, Par(par, a), b)
    ensures !TreeOk(r)
  {
    var p := Par(par, a);
    if TreeOk(r) {
      assert IsChild(r, p, b) ==> p != b;
      BelowStep(par, a, b);
      var n: nat :| Up(par, p, n) == b;
      var k := FirstMeeting(par, p, b, n);
      ChildNotAbove(par, a);
      forall j: nat | j < k ensures Par(r.parent, Up(par, p, j)) == Par(par, Up(par, p, j)) {
        assert Up(par, p, j) != b && Up(par, p, j) != a;
      }
      UpSame(par, r.parent, p, k);
      assert Up(r.parent, b, k + 1) == Up(r.parent, p, k);
      assert Grounded(r.parent, b);
      NoCycle(r.parent, b, k + 1);
    }
  }

  lemma MovedChild(dt: Dir, d: nat, t: nat, m: nat, c: nat)
    requires Movable(dt, d, t) && TreeOk(TreeOf(dt)) && dt.parent[t] != d && dt.parent[d] != t
    ensures var r := TreeOf(Moved(dt, d, t)); IsChild(r, m, c) <==> c in r.parent && r.parent[c] == m != c
  {
    var tr := TreeOf(dt);
    if m in dt.kids {
      MovedKidsOf(dt, d, t, m);
    }
    assert IsChild(tr, m, c) <==> c in tr.parent && tr.parent[c] == m != c;
  }

  lemma MovedApart(dt: Dir, d: nat, t: nat)
    requires Movable(dt, d, t) && TreeOk(TreeOf(dt)) && Apart(dt.parent, d, t)
    ensures TreeOk(TreeOf(Moved(dt, d, t)))
  {
    var r := TreeOf(Moved(dt, d, t));
    ParentBelow(dt.parent, d);
    ParentBelow(dt.parent, t);
    SwapForest(dt.parent, d, t);
    forall m | m in r.kids ensures Distinct(r.kids[m]) {
      MovedKidsOf(dt, d, t, m);
    }
    forall m, c ensures IsChild(r, m, c) <==> c in r.parent && r.parent[c] == m != c {
      MovedChild(dt, d, t, m, c);
    }
  }

  /** d_move keeps a tree exactly if neither dentry is below the other. */
  lemma MovedTree(dt: Dir, d: nat, t: nat)
    requires Movable(dt, d, t) && TreeOk(TreeOf(dt))
    ensures TreeOk(TreeOf(Moved(dt, d, t))) <==> Apart(dt.parent, d, t)
  {
    var r := TreeOf(Moved(dt, d, t));
    var pd, pt := dt.parent[d], dt.parent[t];
    if Apart(dt.parent, d, t) {
      MovedApart(dt, d, t);
    } else if Below(dt.parent, d, t) {
      MovedKidsOf(dt, d, t, pd);
      assert IsChild(r, pd, t);
      SwapCycle(dt.parent, r, d, t);
    } else {
      MovedKidsOf(dt, d, t, pt);
      assert IsChild(r, pt, d);
      assert r.parent == dt.parent[t := pd][d := pt];
      SwapCycle(dt.parent, r, t, d);
    }
  }

  // ---- the check of vfs_rename_dir

  /** What vfs_rename_dir checks before it calls d_move: the target is not below the source, and is
      not its parent. */
  ghost predicate RenameChecked(par: map<nat, nat>, d: nat, t: nat) {
    !Below(par, t, d) && Par(par, d) != t
  }

  /** The check and a target without children are enough. */
  lemma EmptyTargetApart(tr: Tree, d: nat, t: nat)
    requires TreeOk(tr) && d != t && t in tr.kids && tr.kids[t] == [] && RenameChecked(tr.parent, d, t)
    ensures Apart(tr.parent, d, t)
  {
    if Below(tr.parent, d, t) {
      var n: nat :| Up(tr.parent, d, n) == t;
      ReachedByChild(tr, t, d, n);
    }
  }

  /** A chain of directories 0 / 1 / 2 / 3 with inline names, all but the root hashed. */
  function Nested(): Dir {
    var n := Name(0, 0, None, seq(DNAME_INLINE_LEN, _ => 'a'));
    Dir(NestedParents(), map[0 := [1], 1 := [2], 2 := [3], 3 := []], map[0 := 1, 1 := 1, 2 := 1, 3 := 1],
        map[0 := n, 1 := n, 2 := n, 3 := n], map[0 := [1, 2, 3]], (p, h) => 0)
  }

  function NestedParents(): map<nat, nat> {
    map[0 := 0, 1 := 0, 2 := 1, 3 := 2]
  }

  lemma NestedForest(par: map<nat, nat>)
    requires par == NestedParents()
    ensures Forest(par)
  {
    assert Up(par, 3, 3) == Up(par, 2, 2) == Up(par, 1, 1) == Up(par, 0, 0) == 0;
    forall x: nat ensures Grounded(par, x) {
      assert IsRoot(par, Up(par, x, if x < 4 then x else 0));
    }
  }

  lemma NestedChecked(par: map<nat, nat>)
    requires par == NestedParents()
    ensures RenameChecked(par, 3, 1) && !Apart(par, 3, 1)
  {
    assert Up(par, 3, 2) == Up(par, 2, 1) == Up(par, 1, 0);
    forall n: nat ensures Up(par, 1, n) != 3 {
      if n > 0 { UpRoot(par, 0, n - 1); }
    }
  }

  lemma NestedTree(tr: Tree)
    requires tr == TreeOf(Nested())
    ensures TreeOk(tr) && HasParent(tr, 3) && HasParent(tr, 1)
  {
    NestedForest(tr.parent);
  }

  lemma NestedIndexed(dt: Dir)
    requires dt == Nested()
    ensures Indexed(dt)
  {
    forall b, x | InChain(dt, b, x) ensures x in dt.parent && b == Home(dt, x) {
      assert b == 0 && (x == 1 || x == 2 || x == 3);
    }
  }

  /** The check alone is not: moving a directory onto one further up passes it and breaks the tree. */
  lemma CheckNotEnough(dt: Dir)
    requires dt == Nested()
    ensures Indexed(dt) && TreeOk(TreeOf(dt)) && Movable(dt, 3, 1) && RenameChecked(dt.parent, 3, 1)
    ensures !TreeOk(TreeOf(Moved(dt, 3, 1)))
  {
    NestedIndexed(dt);
    NestedTree(TreeOf(dt));
    NestedChecked(dt.parent);
    MovedTree(dt, 3, 1);
  }
}
