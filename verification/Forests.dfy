/** Parent links in which a root is its own parent, as the mount tree and the dentry tree keep them. */
module Forests {

  /** The parent of `m`; nodes without an entry count as roots. */
  function Par(par: map<nat, nat>, m: nat): nat {
    if m in par then par[m] else m
  }

  /** `n` steps up. */
  function Up(par: map<nat, nat>, m: nat, n: nat): nat
    decreases n
  {
    if n == 0 then m else Up(par, Par(par, m), n - 1)
  }

  predicate IsRoot(par: map<nat, nat>, m: nat) {
    Par(par, m) == m
  }

  ghost predicate Grounded(par: map<nat, nat>, m: nat) {
    exists n: nat :: IsRoot(par, Up(par, m, n))
  }

  /** Parent links have no cycle: from every node they lead to a root. */
  ghost predicate Forest(par: map<nat, nat>) {
    forall m :: Grounded(par, m)
  }

  /** `m` is `x` or an ancestor of it. */
  ghost predicate Below(par: map<nat, nat>, x: nat, m: nat) {
    exists n: nat :: Up(par, x, n) == m
  }

  lemma {:induction false} UpAdd(par: map<nat, nat>, m: nat, i: nat, j: nat)
    ensures Up(par, m, i + j) == Up(par, Up(par, m, i), j)
    decreases i
  {
    if i > 0 {
      UpAdd(par, Par(par, m), i - 1, j);
    }
  }

  lemma {:induction false} UpRoot(par: map<nat, nat>, m: nat, n: nat)
    requires IsRoot(par, m)
    ensures Up(par, m, n) == m
    decreases n
  {
    if n > 0 {
      UpRoot(par, m, n - 1);
    }
  }

  /** Parent maps that agree on the nodes met on the way up agree on where it leads. */
  lemma {:induction false} UpSame(par: map<nat, nat>, par': map<nat, nat>, x: nat, n: nat)
    requires forall k: nat :: k < n ==> Par(par', Up(par, x, k)) == Par(par, Up(par, x, k))
    ensures Up(par', x, n) == Up(par, x, n)
    decreases n
  {
    if n > 0 {
      assert Up(par, x, 0) == x;
      forall k: nat | k < n - 1 ensures Par(par', Up(par, Par(par, x), k)) == Par(par, Up(par, Par(par, x), k)) {
        assert Up(par, Par(par, x), k) == Up(par, x, k + 1);
      }
      UpSame(par, par', Par(par, x), n - 1);
    }
  }

  lemma {:induction false} FirstMeeting(par: map<nat, nat>, x: nat, m: nat, n: nat) returns (k: nat)
    requires Up(par, x, n) == m
    ensures k <= n && Up(par, x, k) == m && forall j: nat :: j < k ==> Up(par, x, j) != m
  {
    if j: nat :| j < n && Up(par, x, j) == m {
      k := FirstMeeting(par, x, m, j);
    } else {
      k := n;
    }
  }

  /** A node that comes back to itself on the way up is on a cycle, unless it is a root. */
  lemma {:induction false} CycleUp(par: map<nat, nat>, m: nat, n: nat, k: nat)
    requires n > 0 && Up(par, m, n) == m
    ensures exists j: nat :: j < n && Up(par, m, k) == Up(par, m, j)
    decreases k
  {
    if k < n {
      assert Up(par, m, k) == Up(par, m, k);
    } else {
      UpAdd(par, m, n, k - n);
      CycleUp(par, m, n, k - n);
    }
  }

  /** In a forest nothing is strictly below itself. */
  lemma NoCycle(par: map<nat, nat>, m: nat, n: nat)
    requires Grounded(par, m) && n > 0 && Up(par, m, n) == m
    ensures IsRoot(par, m)
  {
    var k: nat :| IsRoot(par, Up(par, m, k));
    var r := Up(par, m, k);
    CycleUp(par, m, n, k);
    var j: nat :| j < n && Up(par, m, k) == Up(par, m, j);
    UpAdd(par, m, j, n - j);
    UpRoot(par, r, n - j);
  }

  /** Cutting a node off from its parent keeps a forest. */
  lemma CutForest(par: map<nat, nat>, m: nat)
    requires Forest(par)
    ensures Forest(par[m := m])
  {
    var par' := par[m := m];
    forall x ensures Grounded(par', x) {
      assert Grounded(par, x);
      var n: nat :| IsRoot(par, Up(par, x, n));
      if k: nat :| k <= n && Up(par, x, k) == m {
        var first := FirstMeeting(par, x, m, k);
        UpSame(par, par', x, first);
        assert IsRoot(par', Up(par', x, first));
      } else {
        UpSame(par, par', x, n);
        assert IsRoot(par', Up(par', x, n));
      }
    }
  }

  /** Hanging a root under a node that is not below it keeps a forest. */
  lemma HangForest(par: map<nat, nat>, m: nat, p: nat)
    requires Forest(par) && IsRoot(par, m) && !Below(par, p, m)
    ensures Forest(par[m := p])
  {
    var par' := par[m := p];
    assert Grounded(par, p);
    var n: nat :| IsRoot(par, Up(par, p, n));
    UpSame(par, par', p, n);
    assert Up(par', m, n + 1) == Up(par, p, n);
    forall x ensures Grounded(par', x) {
      assert Grounded(par, x);
      var k: nat :| IsRoot(par, Up(par, x, k));
      if j: nat :| j <= k && Up(par, x, j) == m {
        var first := FirstMeeting(par, x, m, j);
        UpSame(par, par', x, first);
        UpAdd(par', x, first, n + 1);
        assert IsRoot(par', Up(par', x, first + (n + 1)));
      } else {
        UpSame(par, par', x, k);
        assert IsRoot(par', Up(par', x, k));
      }
    }
  }

  lemma BelowSelf(par: map<nat, nat>, m: nat)
    ensures Below(par, m, m)
  {
    assert Up(par, m, 0) == m;
  }

  lemma BelowTrans(par: map<nat, nat>, x: nat, y: nat, z: nat)
    requires Below(par, x, y) && Below(par, y, z)
    ensures Below(par, x, z)
  {
    var i: nat :| Up(par, x, i) == y;
    var j: nat :| Up(par, y, j) == z;
    UpAdd(par, x, i, j);
  }

  lemma ParentBelow(par: map<nat, nat>, x: nat)
    ensures Below(par, x, Par(par, x))
  {
    assert Up(par, x, 1) == Up(par, Par(par, x), 0);
  }

  /** Below a node means below its parent or the node itself. */
  lemma BelowStep(par: map<nat, nat>, x: nat, m: nat)
    requires Below(par, x, m) && x != m
    ensures Below(par, Par(par, x), m)
  {
    var n: nat :| Up(par, x, n) == m;
    assert n > 0;
    assert Up(par, Par(par, x), n - 1) == m;
  }

  /** Changing the parent of `m` does not matter to nodes that are not below it. */
  lemma BelowElsewhere(par: map<nat, nat>, m: nat, p: nat, x: nat, y: nat)
    requires !Below(par, x, m)
    ensures Below(par[m := p], x, y) <==> Below(par, x, y)
  {
    var par' := par[m := p];
    forall n: nat ensures Up(par', x, n) == Up(par, x, n) {
      forall k: nat | k < n ensures Par(par', Up(par, x, k)) == Par(par, Up(par, x, k)) {
        assert Up(par, x, k) != m;
      }
      UpSame(par, par', x, n);
    }
  }

  /** Nor to whether a node is below `m` itself. */
  lemma BelowCut(par: map<nat, nat>, m: nat, p: nat, x: nat)
    requires Below(par, x, m)
    ensures Below(par[m := p], x, m)
  {
    var n: nat :| Up(par, x, n) == m;
    var first := FirstMeeting(par, x, m, n);
    UpSame(par, par[m := p], x, first);
  }
}
