/** Whose waiters posix_lock_file wakes: of exactly those locks that it removes, retypes or makes smaller
    (fs/locks.c:910-1024). */
module LockWakes {
  import opened LockRanges
  import opened LockEdits

  /** A lock of `ls` whose waiters were woken is gone, or is of another type. */
  predicate Spent(ls: seq<FileLock>, ls': seq<FileLock>, woken: set<nat>) {
    forall i, j :: 0 <= i < |ls| && 0 <= j < |ls'| && ls[i].id in woken && ls'[j].id == ls[i].id ==>
      ls'[j].kind != ls[i].kind
  }

  /** What holds of the walk at every turn: the locks ahead, and those that stick out, are as they were. */
  predicate Waking(ls: seq<FileLock>, w: Walk) {
    && Placed(w) && w.ci < w.b && DistinctIds(ls) && DistinctIds(w.ls) && Spent(ls, w.ls, w.woken)
    && (forall j :: w.b <= j < |w.ls| ==> w.ls[j] in ls)
    && (w.left >= 0 ==> w.ls[w.left] in ls && w.left != w.ci)
    && (w.added && w.c.kind != UnLck ==> w.ls[w.ci].kind == w.c.kind && w.ls[w.ci].id == w.c.id)
  }

  lemma SameLock(ls: seq<FileLock>, l: FileLock, i: nat)
    requires DistinctIds(ls) && l in ls && i < |ls| && ls[i].id == l.id
    ensures ls[i] == l
  {
    var j :| 0 <= j < |ls| && ls[j] == l;
    assert i < j || j < i || i == j;
  }

  /** A lock goes, and its waiters are woken. */
  lemma SpentDrop(ls: seq<FileLock>, ls': seq<FileLock>, woken: set<nat>, k: nat)
    requires Spent(ls, ls', woken) && DistinctIds(ls') && k < |ls'|
    ensures Spent(ls, DropAt(ls', k), woken + {ls'[k].id}) && DistinctIds(DropAt(ls', k))
  {
    DropAtIs(ls', k);
    var t := DropAt(ls', k);
    forall j | 0 <= j < |t| ensures t[j].id != ls'[k].id && t[j] == ls'[if j < k then j else j + 1] {
      var p := if j < k then j else j + 1;
      assert ls'[if p < k then p else k].id != ls'[if p < k then k else p].id;
    }
    forall i, j | 0 <= i < j < |t| ensures t[i].id != t[j].id {
      var p, q := if i < k then i else i + 1, if j < k then j else j + 1;
      assert t[i] == ls'[p] && t[j] == ls'[q];
    }
  }

  /** A lock changes in place, but not its type. */
  lemma SpentGrow(ls: seq<FileLock>, ls': seq<FileLock>, woken: set<nat>, k: nat, l: FileLock)
    requires Spent(ls, ls', woken) && DistinctIds(ls') && k < |ls'| && l.id == ls'[k].id && l.kind == ls'[k].kind
    ensures Spent(ls, ls'[k := l], woken) && DistinctIds(ls'[k := l])
  {
    var t := ls'[k := l];
    assert forall j :: 0 <= j < |t| ==> t[j].id == ls'[j].id && t[j].kind == ls'[j].kind;
  }

  /** A lock is retyped, and its waiters are woken. */
  lemma SpentRetype(ls: seq<FileLock>, ls': seq<FileLock>, woken: set<nat>, k: nat, l: FileLock)
    requires Spent(ls, ls', woken) && DistinctIds(ls) && DistinctIds(ls') && k < |ls'| && ls'[k] in ls
    requires l.id == ls'[k].id && l.kind != ls'[k].kind
    ensures Spent(ls, ls'[k := l], woken + {l.id}) && DistinctIds(ls'[k := l])
  {
    var t := ls'[k := l];
    assert forall j :: 0 <= j < |t| ==> t[j].id == ls'[j].id && (j != k ==> t[j] == ls'[j]);
    forall i, j | 0 <= i < |ls| && 0 <= j < |t| && ls[i].id in woken + {l.id} && t[j].id == ls[i].id
      ensures t[j].kind != ls[i].kind
    {
      if j == k {
        SameLock(ls, ls'[k], i);
      } else {
        assert t[if j < k then j else k].id != t[if j < k then k else j].id;
      }
    }
  }

  lemma TurnMergeWakes(ls: seq<FileLock>, w: Walk)
    requires Waking(ls, w) && w.more && w.b < |w.ls|
    requires var m := MoveAt(w.ls[w.b], w.c, w.added); m.MergeDelete? || m.MergeAdopt?
    ensures Waking(ls, Turn(w))
  {
    var fl, r := w.ls[w.b], Turn(w);
    if w.added {
      assert w.c.kind != UnLck;
      SpentGrow(ls, w.ls, w.woken, w.ci, r.c);
      SpentDrop(ls, w.ls[w.ci := r.c], w.woken, w.b);
      DropAtIs(w.ls[w.ci := r.c], w.b);
      assert forall j :: r.b <= j < |r.ls| ==> r.ls[j] == w.ls[j + 1];
    } else {
      SpentGrow(ls, w.ls, w.woken, w.b, r.c);
    }
  }

  lemma TurnReplaceWakes(ls: seq<FileLock>, w: Walk)
    requires Waking(ls, w) && w.more && w.b < |w.ls|
    requires var m := MoveAt(w.ls[w.b], w.c, w.added); m.Delete? || m.Adopt?
    ensures Waking(ls, Turn(w))
  {
    var fl, r := w.ls[w.b], Turn(w);
    if w.added || w.c.kind == UnLck {
      SpentDrop(ls, w.ls, w.woken, w.b);
      DropAtIs(w.ls, w.b);
      assert forall j :: r.b <= j < |r.ls| ==> r.ls[j] == w.ls[j + 1];
    } else {
      SpentRetype(ls, w.ls, w.woken, w.b, r.c);
    }
  }

  lemma TurnWakes(ls: seq<FileLock>, w: Walk)
    requires Waking(ls, w) && w.more && w.b < |w.ls|
    ensures Waking(ls, Turn(w))
  {
    match MoveAt(w.ls[w.b], w.c, w.added) {
      case MergeDelete => TurnMergeWakes(ls, w);
      case MergeAdopt => TurnMergeWakes(ls, w);
      case Delete => TurnReplaceWakes(ls, w);
      case Adopt => TurnReplaceWakes(ls, w);
      case Skip =>
      case Stop =>
      case PassLeft =>
      case StopRight =>
    }
  }

  lemma {:induction false} WalkWakes(ls: seq<FileLock>, w: Walk, o: Owner)
    requires Waking(ls, w)
    ensures Waking(ls, Walked(w, o))
    decreases if w.more then |w.ls| - w.b + 1 else 0
  {
    if w.more && w.b < |w.ls| && w.ls[w.b].owner == o {
      TurnWakes(ls, w);
      WalkWakes(ls, Turn(w), o);
    }
  }

  // ---- the end of the edit

  /** No lock whose waiters were woken is left as it was, or larger. */
  predicate Gone(ls: seq<FileLock>, ls': seq<FileLock>, woken: set<nat>) {
    forall i :: 0 <= i < |ls| && ls[i].id in woken ==> !HasExtension(ls', ls[i])
  }

  lemma SpentGone(ls: seq<FileLock>, ls': seq<FileLock>, woken: set<nat>)
    requires Spent(ls, ls', woken)
    ensures Gone(ls, ls', woken)
  {
    forall i | 0 <= i < |ls| && ls[i].id in woken ensures !HasExtension(ls', ls[i]) {
      forall j | 0 <= j < |ls'| ensures !Extends(ls'[j], ls[i]) {}
    }
  }

  /** A new lock is nobody's extension. */
  lemma GoneInsert(ls: seq<FileLock>, ls': seq<FileLock>, woken: set<nat>, k: nat, l: FileLock)
    requires Gone(ls, ls', woken) && k <= |ls'| && IdsBelow(ls, l.id)
    ensures Gone(ls, InsertAt(ls', k, l), woken)
  {
    InsertAtIs(ls', k, l);
    var t := InsertAt(ls', k, l);
    forall i | 0 <= i < |ls| && ls[i].id in woken ensures !HasExtension(t, ls[i]) {
      forall j | 0 <= j < |t| ensures !Extends(t[j], ls[i]) {
        assert j == k || t[j] == ls'[if j < k then j else j - 1];
      }
    }
  }

  predicate Smaller(l: FileLock, than: FileLock) {
    l == than.(start := l.start, end := l.end) && (than.start < l.start || l.end < than.end)
  }

  /** A lock of `ls`, or a new one, is cut, and its waiters are woken. */
  lemma GoneShrink(ls: seq<FileLock>, ls': seq<FileLock>, woken: set<nat>, n: nat, k: nat, l: FileLock)
    requires Gone(ls, ls', woken) && DistinctIds(ls) && DistinctIds(ls') && IdsBelow(ls, n) && k < |ls'|
    requires Smaller(l, ls'[k]) && (ls'[k] in ls || ls'[k].id >= n)
    ensures Gone(ls, ls'[k := l], woken + {l.id})
  {
    var t := ls'[k := l];
    forall i | 0 <= i < |ls| && ls[i].id in woken + {l.id} ensures !HasExtension(t, ls[i]) {
      forall j | 0 <= j < |t| ensures !Extends(t[j], ls[i]) {
        if j == k {
          if l.id == ls[i].id { SameLock(ls, ls'[k], i); }
        } else {
          assert t[j] == ls'[j] && (j < k || k < j);
        }
      }
    }
  }

  /** The locks to cut are as they were, or new. */
  predicate Outer(ls: seq<FileLock>, n: nat, w: Walk) {
    && -1 <= w.left < |w.ls| && -1 <= w.right < |w.ls|
    && (w.left >= 0 ==> w.ls[w.left] in ls || w.ls[w.left].id >= n)
    && (w.right >= 0 ==> w.ls[w.right] in ls || w.ls[w.right].id >= n)
  }

  lemma InsertedWakes(ls: seq<FileLock>, n: nat, w: Walk)
    requires Waking(ls, w) && IdsBelow(ls, n)
    ensures var v := Inserted(w, n); Gone(ls, v.ls, v.woken) && Outer(ls, n, v)
  {
    SpentGone(ls, w.ls, w.woken);
    if !w.added {
      GoneInsert(ls, w.ls, w.woken, w.b, w.c.(id := n));
      InsertAtIs(w.ls, w.b, w.c.(id := n));
    }
  }

  lemma DoubledWakes(ls: seq<FileLock>, n: nat, m: nat, w: Walk)
    requires Gone(ls, w.ls, w.woken) && Outer(ls, n, w) && IdsBelow(ls, n) && n <= m && w.b <= |w.ls|
    requires w.right >= 0 ==> w.b <= w.right
    ensures var v := Doubled(w, m); Gone(ls, v.ls, v.woken) && Outer(ls, n, v)
  {
    if w.right >= 0 && w.left == w.right {
      GoneInsert(ls, w.ls, w.woken, w.b, w.ls[w.right].(id := m));
      InsertAtIs(w.ls, w.b, w.ls[w.right].(id := m));
    }
  }

  lemma CutsWake(ls: seq<FileLock>, req: FileLock, n: nat, m: nat, w: Walk)
    requires Cutting(ls, req, n, m, w) && (w.right >= 0 ==> w.left != w.right) && IdsBelow(ls, n) && DistinctIds(ls)
    requires Gone(ls, w.ls, w.woken) && Outer(ls, n, w)
    ensures var r := CutBelow(CutAbove(w)); Gone(ls, r.ls, r.woken)
  {
    var u := CutAbove(w);
    if w.right >= 0 {
      assert Bounded(w.ls[w.right]);
      GoneShrink(ls, w.ls, w.woken, n, w.right, w.ls[w.right].(start := Succ64(w.c.end)));
      assert DistinctIds(u.ls) by {
        assert forall j :: 0 <= j < |u.ls| ==> u.ls[j].id == w.ls[j].id;
      }
    }
    if u.left >= 0 {
      GoneShrink(ls, u.ls, u.woken, n, u.left, u.ls[u.left].(end := w.c.start - 1));
    }
  }

  /** The waiters of a lock are woken exactly if the lock is not there any more with at least its bytes and the same
      type; on any list, in order or not. */
  lemma EditWakes(ls: seq<FileLock>, req: FileLock, n: nat)
    requires AllBounded(ls) && DistinctIds(ls) && IdsBelow(ls, n) && ValidRange(req)
    ensures var r := Edited(ls, req, n);
            forall i :: 0 <= i < |ls| ==> (ls[i].id in r.woken <==> !HasExtension(r.ls, ls[i]))
  {
    EditAccounted(ls, req, n);
    GoingStart(ls, req, n);
    WalkedGoes(ls, req, n, Start(ls, req));
    WalkWakes(ls, Start(ls, req), req.owner);
    var w := WalkOver(ls, req);
    if w.added || req.kind != UnLck {
      InsertedCuts(ls, req, n, w);
      InsertedWakes(ls, n, w);
      var v, m := Inserted(w, n), if w.added then n else n + 1;
      DoubledCuts(ls, req, n, m, v);
      DoubledWakes(ls, n, m, v);
      CutsWake(ls, req, n, n + NewLocks(w), Doubled(v, m));
    } else {
      SpentGone(ls, w.ls, w.woken);
    }
  }
}
