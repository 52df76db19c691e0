/** Trees kept as parent links and child lists, and their preorder, which the hand-unrolled walks
    of the kernel follow. */
module TreeLayout {
  import opened Forests
  import opened Lists

  datatype Tree = Tree(parent: map<nat, nat>, kids: map<nat, seq<nat>>)

  predicate HasParent(tr: Tree, m: nat) {
    m in tr.parent && tr.parent[m] != m
  }

  predicate IsChild(tr: Tree, m: nat, c: nat) {
    m in tr.kids && c in tr.kids[m]
  }

  /** Child lists are exactly the parent links, each child listed once, and there is no cycle. */
  ghost predicate TreeOk(tr: Tree) {
    && tr.parent.Keys == tr.kids.Keys && Forest(tr.parent)
    && (forall m :: m in tr.kids ==> Distinct(tr.kids[m]))
    && (forall m, c {:trigger IsChild(tr, m, c)} :: IsChild(tr, m, c) <==> c in tr.parent && tr.parent[c] == m != c)
  }

  // ---- a tree laid out in preorder

  /** `order` lists the nodes of a tree so that each is followed by all nodes below it: those of
      `m` fill the positions at[m]..end[m]. */
  datatype Layout = Layout(order: seq<nat>, at: map<nat, nat>, end: map<nat, nat>)

  predicate Positions(l: Layout) {
    && |l.order| > 0 && l.at.Keys == l.end.Keys
    && (forall m :: m in l.at ==> l.at[m] < |l.order| && l.order[l.at[m]] == m && l.at[m] < l.end[m])
    && (forall i :: 0 <= i < |l.order| ==> l.order[i] in l.at && l.at[l.order[i]] == i)
  }

  /** The children `ks` of `m` follow it one subtree after the other, and fill its range. */
  predicate KidsLaid(l: Layout, m: nat, ks: seq<nat>) {
    && m in l.at && m in l.end
    && (forall j :: 0 <= j < |ks| ==> ks[j] in l.at && ks[j] in l.end && l.at[m] < l.at[ks[j]])
    && (if ks == [] then l.end[m] == l.at[m] + 1
        else l.at[ks[0]] == l.at[m] + 1 && l.end[ks[|ks| - 1]] == l.end[m])
    && (forall j :: 0 <= j < |ks| - 1 ==> l.at[ks[j + 1]] == l.end[ks[j]])
  }

  /** The tree below `root`, in preorder. */
  ghost predicate Laid(tr: Tree, root: nat, l: Layout) {
    && Positions(l) && l.order[0] == root && root in l.end && l.end[root] == |l.order|
    && (forall m {:trigger InTree(l, m)} :: InTree(l, m) ==>
          m in tr.kids && m in tr.parent && KidsLaid(l, m, tr.kids[m]))
    && (forall m {:trigger InTree(l, m)} :: InTree(l, m) && m != root ==> HasParent(tr, m) && Par(tr.parent, m) in l.at)
  }

  predicate InTree(l: Layout, m: nat) {
    m in l.at
  }

  function IndexOf(s: seq<nat>, x: nat): (i: nat)
    requires x in s
    ensures i < |s| && s[i] == x
  {
    if s[0] == x then 0 else IndexOf(s[1..], x) + 1
  }

  /** Siblings come in order of position. */
  lemma {:induction false} KidsInOrder(l: Layout, m: nat, ks: seq<nat>, i: nat, j: nat)
    requires Positions(l) && KidsLaid(l, m, ks) && i < j < |ks|
    ensures l.at[ks[i]] < l.at[ks[j]]
    decreases j
  {
    assert l.at[ks[j]] == l.end[ks[j - 1]];
    if i < j - 1 {
      KidsInOrder(l, m, ks, i, j - 1);
    }
  }

  lemma KidListed(tr: Tree, root: nat, l: Layout, p: nat)
    requires Laid(tr, root, l) && TreeOk(tr) && p in l.at && p != root
    ensures var t := Par(tr.parent, p); t in l.at && t in tr.kids && p in tr.kids[t] && KidsLaid(l, t, tr.kids[t])
  {
    assert InTree(l, p);
    var t := Par(tr.parent, p);
    assert InTree(l, t);
    assert IsChild(tr, t, p);
  }

  /** One step up from `p`, whose subtree ends at position `e`: either the next sibling stands at
      `e`, or the parent's subtree ends there too. */
  lemma ClimbStep(tr: Tree, root: nat, l: Layout, p: nat)
    requires Laid(tr, root, l) && TreeOk(tr) && p in l.at && p != root
    ensures var t := Par(tr.parent, p);
            && t in l.at && t in tr.kids && p in tr.kids[t] && l.at[t] < l.at[p]
            && var i := IndexOf(tr.kids[t], p);
               if i + 1 < |tr.kids[t]|
               then tr.kids[t][i + 1] in l.at && l.at[tr.kids[t][i + 1]] == l.end[p] < |l.order|
               else l.end[t] == l.end[p]
  {
    KidListed(tr, root, l, p);
    var t := Par(tr.parent, p);
    var ks := tr.kids[t];
    var i := IndexOf(ks, p);
    assert ks[i] == p;
    if i + 1 < |ks| {
      assert l.at[ks[i + 1]] == l.end[ks[i]];
    }
  }

  // ---- every tree has a layout

  ghost function Subtree(tr: Tree, m: nat): set<nat> {
    set x | x in tr.parent.Keys && Below(tr.parent, x, m)
  }

  lemma SmallerSubtree(tr: Tree, m: nat, c: nat)
    requires TreeOk(tr) && IsChild(tr, m, c)
    ensures c in tr.parent && m in tr.parent && |Subtree(tr, c)| < |Subtree(tr, m)|
  {
    var par := tr.parent;
    assert Par(par, c) == m;
    forall x | x in Subtree(tr, c) ensures x in Subtree(tr, m) {
      ParentBelow(par, c);
      BelowTrans(par, x, c, m);
    }
    ChildNotAbove(par, c);
    BelowSelf(par, m);
    assert m in Subtree(tr, m) && m !in Subtree(tr, c);
    FewerIn(Subtree(tr, c), Subtree(tr, m), m);
  }

  lemma FewerIn(a: set<nat>, b: set<nat>, m: nat)
    requires a <= b && m in b && m !in a
    ensures |a| < |b|
  {
    assert a <= b - {m};
    CardinalityMonotone(a, b - {m});
  }

  lemma {:induction false} CardinalityMonotone(a: set<nat>, b: set<nat>)
    requires a <= b
    ensures |a| <= |b|
  {
    if x :| x in a {
      CardinalityMonotone(a - {x}, b - {x});
    }
  }

  lemma ChildNotAbove(par: map<nat, nat>, c: nat)
    requires Forest(par) && !IsRoot(par, c)
    ensures !Below(par, Par(par, c), c)
  {
    forall n: nat ensures Up(par, Par(par, c), n) != c {
      assert Up(par, c, n + 1) == Up(par, Par(par, c), n);
      assert Grounded(par, c);
      if Up(par, c, n + 1) == c { NoCycle(par, c, n + 1); }
    }
  }

  /** Subtrees of different children of one node have nothing in common. */
  lemma SiblingsApart(tr: Tree, m: nat, c: nat, c': nat, x: nat)
    requires TreeOk(tr) && IsChild(tr, m, c) && IsChild(tr, m, c') && c != c'
    requires Below(tr.parent, x, c)
    ensures !Below(tr.parent, x, c')
  {
    var par := tr.parent;
    assert Par(par, c) == m && Par(par, c') == m;
    ChildNotAbove(par, c);
    ChildNotAbove(par, c');
    var i: nat :| Up(par, x, i) == c;
    forall j: nat ensures Up(par, x, j) != c' {
      if i < j {
        UpAdd(par, x, i, j - i);
        assert Up(par, c, j - i) == Up(par, m, j - i - 1);
      } else if j < i {
        UpAdd(par, x, j, i - j);
        assert Up(par, c', i - j) == Up(par, m, i - j - 1);
      }
    }
  }

  // ---- pieces of a layout, starting at position `off`

  predicate Placed(l: Layout, off: nat, m: nat) {
    m in l.at && m in l.end && off <= l.at[m] < off + |l.order| && l.order[l.at[m] - off] == m && l.at[m] < l.end[m]
  }

  ghost predicate Piece(l: Layout, off: nat) {
    && l.at.Keys == l.end.Keys
    && (forall m {:trigger InTree(l, m)} :: InTree(l, m) ==> Placed(l, off, m))
    && (forall i :: 0 <= i < |l.order| ==> HasAt(l, i, off))
  }

  predicate HasAt(l: Layout, i: nat, off: int)
    requires i < |l.order|
  {
    l.order[i] in l.at && l.at[l.order[i]] == off + i
  }

  ghost predicate Grows(l1: Layout, l: Layout) {
    forall x {:trigger InTree(l1, x)} :: InTree(l1, x) ==> SameAt(l1, l, x)
  }

  predicate SameAt(l1: Layout, l: Layout, x: nat) {
    x in l1.at && x in l.at && x in l1.end && x in l.end && l.at[x] == l1.at[x] && l.end[x] == l1.end[x]
  }

  lemma KidsLaidGrows(l1: Layout, l: Layout, m: nat, ks: seq<nat>)
    requires KidsLaid(l1, m, ks) && Grows(l1, l)
    ensures KidsLaid(l, m, ks)
  {
    assert InTree(l1, m);
    assert forall j :: 0 <= j < |ks| ==> InTree(l1, ks[j]);
  }

  /** Each node of the piece is in order with its children; nodes other than those in `tops` have
      their parent in the piece, and all are below one of `tops`. */
  ghost predicate Good(tr: Tree, l: Layout, tops: set<nat>) {
    && (forall x {:trigger InTree(l, x)} :: InTree(l, x) ==>
          x in tr.kids && x in tr.parent && KidsLaid(l, x, tr.kids[x]) &&
          (x !in tops ==> HasParent(tr, x) && Par(tr.parent, x) in l.at) && BelowSome(tr.parent, x, tops))
  }

  ghost predicate BelowSome(par: map<nat, nat>, x: nat, tops: set<nat>) {
    exists t :: t in tops && Below(par, x, t)
  }

  function KidSet(ks: seq<nat>, j: nat): set<nat>
    requires j <= |ks|
  {
    set i | j <= i < |ks| :: ks[i]
  }

  /** The subtrees of ks[j..], one after the other, fill the piece. */
  predicate Row(l: Layout, ks: seq<nat>, j: nat, off: nat)
    requires j <= |ks|
  {
    && (forall i :: j <= i < |ks| ==> ks[i] in l.at && ks[i] in l.end)
    && (if j == |ks| then l.order == [] else l.at[ks[j]] == off && l.end[ks[|ks| - 1]] == off + |l.order|)
    && (forall i :: j <= i < |ks| - 1 ==> l.at[ks[i + 1]] == l.end[ks[i]])
  }

  function Join(a: Layout, b: Layout): Layout {
    Layout(a.order + b.order, a.at + b.at, a.end + b.end)
  }

  lemma JoinPiece(a: Layout, b: Layout, off: nat)
    requires Piece(a, off) && Piece(b, off + |a.order|) && a.at.Keys !! b.at.Keys
    ensures Piece(Join(a, b), off) && Grows(a, Join(a, b)) && Grows(b, Join(a, b))
  {
    var l := Join(a, b);
    forall m | InTree(a, m) ensures SameAt(a, l, m) && Placed(l, off, m) {
      assert Placed(a, off, m) && m !in b.at && m !in b.end;
      assert l.order[a.at[m] - off] == a.order[a.at[m] - off];
    }
    forall m | InTree(b, m) ensures SameAt(b, l, m) && Placed(l, off, m) {
      assert Placed(b, off + |a.order|, m);
      assert l.order[b.at[m] - off] == b.order[b.at[m] - off - |a.order|];
    }
    forall m | InTree(l, m) ensures Placed(l, off, m) {
      assert InTree(a, m) || InTree(b, m);
    }
    forall i | 0 <= i < |l.order| ensures HasAt(l, i, off) {
      if i < |a.order| {
        assert HasAt(a, i, off) && InTree(a, a.order[i]);
      } else {
        assert HasAt(b, i - |a.order|, off + |a.order|) && InTree(b, b.order[i - |a.order|]);
      }
    }
  }

  lemma JoinRow(a: Layout, b: Layout, ks: seq<nat>, j: nat, off: nat)
    requires j < |ks| && Row(b, ks, j + 1, off + |a.order|) && Grows(a, Join(a, b)) && Grows(b, Join(a, b))
    requires ks[j] in a.at && ks[j] in a.end && a.at[ks[j]] == off && a.end[ks[j]] == off + |a.order|
    ensures Row(Join(a, b), ks, j, off)
  {
    var l := Join(a, b);
    assert InTree(a, ks[j]);
    assert forall i :: j < i < |ks| ==> InTree(b, ks[i]);
  }

  lemma JoinGood(tr: Tree, a: Layout, b: Layout, ta: set<nat>, tb: set<nat>)
    requires Good(tr, a, ta) && Good(tr, b, tb) && Grows(a, Join(a, b)) && Grows(b, Join(a, b))
    ensures Good(tr, Join(a, b), ta + tb)
  {
    var l := Join(a, b);
    forall x | InTree(l, x)
      ensures x in tr.kids && x in tr.parent && KidsLaid(l, x, tr.kids[x])
      ensures x !in ta + tb ==> HasParent(tr, x) && Par(tr.parent, x) in l.at
      ensures BelowSome(tr.parent, x, ta + tb)
    {
      if InTree(a, x) {
        KidsLaidGrows(a, l, x, tr.kids[x]);
        var t :| t in ta && Below(tr.parent, x, t);
      } else {
        assert InTree(b, x);
        KidsLaidGrows(b, l, x, tr.kids[x]);
        var t :| t in tb && Below(tr.parent, x, t);
      }
    }
  }

  lemma RowApart(tr: Tree, m: nat, ks: seq<nat>, j: nat, a: Layout, b: Layout)
    requires TreeOk(tr) && m in tr.kids && ks == tr.kids[m] && j < |ks|
    requires Good(tr, a, {ks[j]}) && Good(tr, b, KidSet(ks, j + 1))
    ensures a.at.Keys !! b.at.Keys
  {
    forall x | x in a.at ensures x !in b.at {
      assert InTree(a, x);
      var t :| t in {ks[j]} && Below(tr.parent, x, t);
      if InTree(b, x) {
        var t' :| t' in KidSet(ks, j + 1) && Below(tr.parent, x, t');
        assert IsChild(tr, m, t) && IsChild(tr, m, t');
        SiblingsApart(tr, m, t, t', x);
      }
    }
  }

  lemma {:induction false} LayRow(tr: Tree, m: nat, j: nat, off: nat) returns (l: Layout)
    requires TreeOk(tr) && m in tr.parent && j <= |tr.kids[m]|
    ensures Piece(l, off) && Row(l, tr.kids[m], j, off) && Good(tr, l, KidSet(tr.kids[m], j))
    decreases |Subtree(tr, m)|, |tr.kids[m]| - j
  {
    var ks := tr.kids[m];
    if j == |ks| {
      l := Layout([], map[], map[]);
    } else {
      assert IsChild(tr, m, ks[j]);
      SmallerSubtree(tr, m, ks[j]);
      var a := LayTree(tr, ks[j], off);
      var b := LayRow(tr, m, j + 1, off + |a.order|);
      assert HasAt(a, 0, off);
      RowApart(tr, m, ks, j, a, b);
      JoinPiece(a, b, off);
      JoinRow(a, b, ks, j, off);
      JoinGood(tr, a, b, {ks[j]}, KidSet(ks, j + 1));
      l := Join(a, b);
      assert KidSet(ks, j) == {ks[j]} + KidSet(ks, j + 1);
    }
  }

  lemma {:induction false} LayTree(tr: Tree, m: nat, off: nat) returns (l: Layout)
    requires TreeOk(tr) && m in tr.parent
    ensures Piece(l, off) && |l.order| > 0 && l.order[0] == m && m in l.end && l.end[m] == off + |l.order|
    ensures Good(tr, l, {m})
    decreases |Subtree(tr, m)|, |tr.kids[m]| + 1
  {
    var ks := tr.kids[m];
    var r := LayRow(tr, m, 0, off + 1);
    l := TopOf(tr, m, ks, off, r);
  }

  /** Put `m` in front of the row of its children. */
  lemma TopOf(tr: Tree, m: nat, ks: seq<nat>, off: nat, r: Layout) returns (l: Layout)
    requires TreeOk(tr) && m in tr.parent && ks == tr.kids[m]
    requires Piece(r, off + 1) && Row(r, ks, 0, off + 1) && Good(tr, r, KidSet(ks, 0))
    ensures Piece(l, off) && |l.order| > 0 && l.order[0] == m && m in l.end && l.end[m] == off + |l.order|
    ensures Good(tr, l, {m})
  {
    MNotInRow(tr, m, ks, r);
    l := TopPiece(m, ks, off, r);
    forall x | InTree(l, x)
      ensures x in tr.kids && x in tr.parent && KidsLaid(l, x, tr.kids[x])
      ensures x !in {m} ==> HasParent(tr, x) && Par(tr.parent, x) in l.at
      ensures BelowSome(tr.parent, x, {m})
    {
      TopGood(tr, m, ks, r, l, x);
    }
  }

  lemma TopPiece(m: nat, ks: seq<nat>, off: nat, r: Layout) returns (l: Layout)
    requires Piece(r, off + 1) && Row(r, ks, 0, off + 1) && m !in r.at
    ensures Piece(l, off) && Grows(r, l) && KidsLaid(l, m, ks)
    ensures |l.order| > 0 && l.order[0] == m && m in l.end && l.end[m] == off + |l.order|
    ensures forall x :: x in l.at <==> x == m || x in r.at
  {
    l := Layout([m] + r.order, r.at[m := off], r.end[m := off + 1 + |r.order|]);
    forall x | InTree(r, x) ensures SameAt(r, l, x) && Placed(l, off, x) {
      assert Placed(r, off + 1, x);
      assert l.order[r.at[x] - off] == r.order[r.at[x] - off - 1];
    }
    forall x | InTree(l, x) ensures Placed(l, off, x) {
      assert x == m || InTree(r, x);
    }
    forall i | 0 <= i < |l.order| ensures HasAt(l, i, off) {
      if i > 0 { assert HasAt(r, i - 1, off + 1) && InTree(r, r.order[i - 1]); }
    }
    assert forall j :: 0 <= j < |ks| ==> InTree(r, ks[j]);
  }

  lemma MNotInRow(tr: Tree, m: nat, ks: seq<nat>, r: Layout)
    requires TreeOk(tr) && m in tr.parent && ks == tr.kids[m] && Good(tr, r, KidSet(ks, 0))
    ensures m !in r.at
  {
    if InTree(r, m) {
      var t :| t in KidSet(ks, 0) && Below(tr.parent, m, t);
      assert IsChild(tr, m, t);
      ChildNotAbove(tr.parent, t);
    }
  }

  lemma TopGood(tr: Tree, m: nat, ks: seq<nat>, r: Layout, l: Layout, x: nat)
    requires TreeOk(tr) && m in tr.parent && ks == tr.kids[m] && Good(tr, r, KidSet(ks, 0)) && Grows(r, l)
    requires x in l.at && (x != m ==> x in r.at) && m in l.at && KidsLaid(l, m, ks)
    ensures x in tr.kids && x in tr.parent && KidsLaid(l, x, tr.kids[x])
    ensures x !in {m} ==> HasParent(tr, x) && Par(tr.parent, x) in l.at
    ensures BelowSome(tr.parent, x, {m})
  {
    if x == m {
      BelowSelf(tr.parent, m);
    } else {
      assert InTree(r, x);
      KidsLaidGrows(r, l, x, tr.kids[x]);
      var t :| t in KidSet(ks, 0) && Below(tr.parent, x, t);
      assert IsChild(tr, m, t);
      assert Par(tr.parent, t) == m;
      ParentBelow(tr.parent, t);
      BelowTrans(tr.parent, x, t, m);
      if x in KidSet(ks, 0) { assert IsChild(tr, m, x); } else { assert InTree(r, Par(tr.parent, x)); }
    }
  }

  /** Below any node of a tree there is a layout. */
  lemma LayoutExists(tr: Tree, top: nat)
    requires TreeOk(tr) && top in tr.parent
    ensures exists l :: Laid(tr, top, l)
  {
    var l := LayTree(tr, top, 0);
    assert InTree(l, top);
    forall m | m in l.at ensures l.at[m] < |l.order| && l.order[l.at[m]] == m && l.at[m] < l.end[m] {
      assert InTree(l, m) && Placed(l, 0, m);
    }
    forall i | 0 <= i < |l.order| ensures l.order[i] in l.at && l.at[l.order[i]] == i {
      assert HasAt(l, i, 0);
    }
    assert Laid(tr, top, l);
  }

  /** It lists exactly the nodes below `top`, each once. */
  lemma {:induction false} LaidCovers(tr: Tree, top: nat, l: Layout, x: nat, n: nat)
    requires TreeOk(tr) && Laid(tr, top, l) && x in tr.parent && Up(tr.parent, x, n) == top
    ensures x in l.at
    decreases n
  {
    if x == top {
      assert InTree(l, top);
    } else {
      var t := Par(tr.parent, x);
      if t == x { UpRoot(tr.parent, x, n); }
      assert IsChild(tr, t, x);
      LaidCovers(tr, top, l, t, n - 1);
      assert InTree(l, t);
      var j := IndexOf(tr.kids[t], x);
      assert tr.kids[t][j] in l.at;
    }
  }

  lemma {:induction false} LaidBelow(tr: Tree, top: nat, l: Layout, x: nat)
    requires TreeOk(tr) && Laid(tr, top, l) && x in l.at
    ensures x in tr.parent && Below(tr.parent, x, top)
    decreases l.at[x]
  {
    assert InTree(l, x);
    if x == top {
      BelowSelf(tr.parent, x);
    } else {
      ClimbStep(tr, top, l, x);
      LaidBelow(tr, top, l, Par(tr.parent, x));
      ParentBelow(tr.parent, x);
      BelowTrans(tr.parent, x, Par(tr.parent, x), top);
    }
  }

  /** A layout lists exactly the nodes at or below the top. */
  lemma LaidExactly(tr: Tree, top: nat, l: Layout, x: nat)
    requires TreeOk(tr) && Laid(tr, top, l)
    ensures x in l.order <==> Below(tr.parent, x, top)
  {
    assert InTree(l, top);
    if x in l.order {
      LaidBelow(tr, top, l, x);
    }
    if Below(tr.parent, x, top) {
      var n: nat :| Up(tr.parent, x, n) == top;
      if x !in tr.parent { UpRoot(tr.parent, x, n); }
      LaidCovers(tr, top, l, x, n);
      assert x == l.order[l.at[x]];
    }
  }

  /** A layout of the tree below `top`. */
  ghost function LayoutOf(tr: Tree, top: nat): (l: Layout)
    requires TreeOk(tr) && top in tr.parent
    ensures Laid(tr, top, l)
  {
    LayoutExists(tr, top);
    var l :| Laid(tr, top, l);
    l
  }

  // ---- the walk: `k` children of `tp` are done, and so are the positions up to i

  predicate WalkAt(tr: Tree, l: Layout, tp: nat, k: nat, i: nat) {
    && tp in l.at && tp in l.end && tp in tr.kids && k <= |tr.kids[tp]| && i < |l.order|
    && (if k < |tr.kids[tp]| then tr.kids[tp][k] in l.at && l.at[tr.kids[tp][k]] == i + 1 else l.end[tp] == i + 1)
  }

  lemma WalkStart(tr: Tree, top: nat, l: Layout)
    requires Laid(tr, top, l)
    ensures WalkAt(tr, l, top, 0, 0)
  {
    assert InTree(l, top);
  }

  /** The next child is the next node in preorder; the walk goes on below it, or after it. */
  lemma WalkVisit(tr: Tree, top: nat, l: Layout, tp: nat, k: nat, i: nat)
    requires Laid(tr, top, l) && WalkAt(tr, l, tp, k, i) && k < |tr.kids[tp]|
    ensures var c := tr.kids[tp][k];
            && i + 1 < |l.order| && l.order[i + 1] == c && c in tr.kids
            && if tr.kids[c] == [] then WalkAt(tr, l, tp, k + 1, i + 1) else WalkAt(tr, l, c, 0, i + 1)
  {
    var ks := tr.kids[tp];
    var c := ks[k];
    assert InTree(l, tp) && InTree(l, c);
    assert KidsLaid(l, c, tr.kids[c]);
    if k + 1 < |ks| {
      assert l.at[ks[k + 1]] == l.end[ks[k]];
    }
  }

  lemma WalkAscend(tr: Tree, top: nat, l: Layout, tp: nat, i: nat)
    requires TreeOk(tr) && Laid(tr, top, l) && tp != top && tp in tr.kids && WalkAt(tr, l, tp, |tr.kids[tp]|, i)
    ensures var t := Par(tr.parent, tp);
            && t in tr.kids && tp in tr.kids[t] && t in l.at && l.at[t] < l.at[tp]
            && WalkAt(tr, l, t, IndexOf(tr.kids[t], tp) + 1, i)
  {
    ClimbStep(tr, top, l, tp);
    var t := Par(tr.parent, tp);
    assert InTree(l, t);
    var j := IndexOf(tr.kids[t], tp);
    if j + 1 < |tr.kids[t]| {
      assert l.at[tr.kids[t][j + 1]] == l.end[tp];
    }
  }

  /** Going up to `t` ends with one of its children. */
  lemma {:induction false} ReachedByChild(tr: Tree, t: nat, m: nat, n: nat)
    requires TreeOk(tr) && Up(tr.parent, m, n) == t != m
    ensures exists c :: IsChild(tr, t, c)
    decreases n
  {
    if Par(tr.parent, m) == t {
      assert IsChild(tr, t, m);
    } else {
      ReachedByChild(tr, t, Par(tr.parent, m), n - 1);
    }
  }
}
