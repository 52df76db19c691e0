/** POSIX record locks as byte ranges (fs/locks.c).

    An inode's i_flock list is a sequence of `FileLock` values.  Its meaning is the
    map from (owner, byte) to lock type given by `TypeAt`, where `UnLck` stands for
    "no lock".  This module defines that meaning, the canonical form the kernel keeps
    the list in, and proves what replacing one owner's group of locks does to both. */
module LockRanges {

  const OFFSET_MAX: int := 0x7FFF_FFFF_FFFF_FFFF

  datatype LockType = RdLck | WrLck | UnLck

  // Two locks have the same owner when both fl_owner and fl_pid agree.
  datatype Owner = Owner(files: nat, pid: nat)

  // `id` is the identity of the struct file_lock; waiters refer to it.
  datatype FileLock = FileLock(id: nat, owner: Owner, start: int, end: int, kind: LockType)

  /** loff_t addition of one, with the two's complement wrap of a 64-bit value. */
  function Succ64(x: int): int {
    if x == OFFSET_MAX then -OFFSET_MAX - 1 else x + 1
  }

  predicate ValidRange(fl: FileLock) {
    0 <= fl.start <= fl.end <= OFFSET_MAX
  }

  predicate Covers(fl: FileLock, o: Owner, x: int) {
    fl.owner == o && fl.start <= x <= fl.end
  }

  predicate Overlap(a: FileLock, b: FileLock) {
    a.end >= b.start && b.end >= a.start
  }

  predicate TypesConflict(caller: LockType, sys: LockType) {
    match caller
    case RdLck => sys == WrLck
    case WrLck => true
    case UnLck => false
  }

  /** Does `sys` block `caller`? */
  predicate PosixConflict(caller: FileLock, sys: FileLock) {
    caller.owner != sys.owner && Overlap(caller, sys) && TypesConflict(caller.kind, sys.kind)
  }

  /** The meaning of a lock list: the type of the first lock of `o` that covers byte `x`. */
  function TypeAt(ls: seq<FileLock>, o: Owner, x: int): LockType {
    if ls == [] then UnLck
    else if Covers(ls[0], o, x) then ls[0].kind
    else TypeAt(ls[1..], o, x)
  }

  // ---- canonical lists

  predicate Proper(fl: FileLock) {
    ValidRange(fl) && fl.kind != UnLck
  }

  /** `a` lies strictly below `b`, and they could not have been merged. */
  predicate Apart(a: FileLock, b: FileLock) {
    a.end < b.start && (a.kind == b.kind ==> a.end + 1 < b.start)
  }

  /** The locks of one owner: sorted, disjoint, adjacent ranges of one type merged. */
  predicate Group(g: seq<FileLock>, o: Owner) {
    && (forall i :: 0 <= i < |g| ==> g[i].owner == o && Proper(g[i]))
    && (forall i, j :: 0 <= i < j < |g| ==> Apart(g[i], g[j]))
  }

  predicate Foreign(ls: seq<FileLock>, o: Owner) {
    forall i :: 0 <= i < |ls| ==> ls[i].owner != o
  }

  /** The whole list: each owner's locks are contiguous and form a group. */
  predicate Canonical(ls: seq<FileLock>) {
    && (forall i :: 0 <= i < |ls| ==> Proper(ls[i]))
    && (forall i, j :: 0 <= i < j < |ls| && ls[i].owner == ls[j].owner ==>
          Apart(ls[i], ls[j]) && forall k :: i < k < j ==> ls[k].owner == ls[i].owner)
  }

  // ---- the meaning function

  lemma {:induction false} TypeAtConcat(a: seq<FileLock>, b: seq<FileLock>, o: Owner, x: int)
    requires forall i :: 0 <= i < |a| ==> a[i].kind != UnLck
    ensures TypeAt(a + b, o, x) == if TypeAt(a, o, x) != UnLck then TypeAt(a, o, x) else TypeAt(b, o, x)
  {
    if a == [] {
      assert a + b == b;
    } else {
      assert (a + b)[1..] == a[1..] + b;
      TypeAtConcat(a[1..], b, o, x);
    }
  }

  /** `TypeAt` is realised by a lock of the list, or no lock covers the byte. */
  lemma {:induction false} TypeAtHit(ls: seq<FileLock>, o: Owner, x: int) returns (hit: int)
    requires forall i :: 0 <= i < |ls| ==> ls[i].kind != UnLck
    ensures -1 <= hit < |ls|
    ensures hit >= 0 ==> Covers(ls[hit], o, x) && TypeAt(ls, o, x) == ls[hit].kind
    ensures hit == -1 ==> TypeAt(ls, o, x) == UnLck && forall i :: 0 <= i < |ls| ==> !Covers(ls[i], o, x)
  {
    if ls == [] {
      hit := -1;
    } else if Covers(ls[0], o, x) {
      hit := 0;
    } else {
      var h := TypeAtHit(ls[1..], o, x);
      hit := if h == -1 then -1 else h + 1;
      if h == -1 {
        forall i | 0 <= i < |ls| ensures !Covers(ls[i], o, x) {
          if i > 0 { assert ls[i] == ls[1..][i - 1]; }
        }
      }
    }
  }

  /** In a canonical list every lock of `o` covering the byte has the type `TypeAt` reports,
      so the meaning does not depend on the order of the list. */
  lemma CanonicalMeaning(ls: seq<FileLock>, o: Owner, x: int, i: int)
    requires Canonical(ls)
    requires 0 <= i < |ls| && Covers(ls[i], o, x)
    ensures TypeAt(ls, o, x) == ls[i].kind
  {
    var hit := TypeAtHit(ls, o, x);
  }

  /** No byte is covered by two locks of one owner with different types, so that the meaning of the
      list does not depend on its order. */
  ghost predicate Unambiguous(ls: seq<FileLock>) {
    forall o, x, i {:trigger Covers(ls[i], o, x)} ::
      0 <= i < |ls| && Covers(ls[i], o, x) ==> TypeAt(ls, o, x) == ls[i].kind
  }

  lemma GroupIsCanonical(g: seq<FileLock>, o: Owner)
    requires Group(g, o)
    ensures Canonical(g)
  {
  }

  lemma ForeignMeaning(ls: seq<FileLock>, o: Owner, x: int)
    requires forall i :: 0 <= i < |ls| ==> ls[i].kind != UnLck
    requires Foreign(ls, o)
    ensures TypeAt(ls, o, x) == UnLck
  {
    var hit := TypeAtHit(ls, o, x);
  }

  // ---- cutting a canonical list around one owner's group

  /** `ls` is `pre`, then all the locks of `o`, then `post`; when `o` has no lock, `post` is empty. */
  ghost predicate Split(ls: seq<FileLock>, o: Owner, pre: seq<FileLock>, g: seq<FileLock>, post: seq<FileLock>) {
    && ls == pre + g + post
    && Foreign(pre, o)
    && (forall i :: 0 <= i < |g| ==> g[i].owner == o)
    && Foreign(post, o)
    && (g == [] ==> post == [])
  }

  lemma SplitExists(ls: seq<FileLock>, o: Owner, n: nat)
    returns (g: seq<FileLock>, post: seq<FileLock>)
    requires Canonical(ls)
    requires n <= |ls| && Foreign(ls[..n], o) && (n < |ls| ==> ls[n].owner == o)
    ensures Split(ls, o, ls[..n], g, post)
  {
    var m := n;
    while m < |ls| && ls[m].owner == o
      invariant n <= m <= |ls|
      invariant forall i :: n <= i < m ==> ls[i].owner == o
    {
      m := m + 1;
    }
    g, post := ls[n..m], ls[m..];
    assert ls == ls[..n] + g + post;
    forall i | 0 <= i < |post| ensures post[i].owner != o {
      assert post[i] == ls[m + i];
      assert ls[n].owner == o && ls[m].owner != o;
    }
  }

  lemma SliceCanonical(ls: seq<FileLock>, a: nat, b: nat)
    requires Canonical(ls) && a <= b <= |ls|
    ensures Canonical(ls[a..b])
  {
    var t := ls[a..b];
    forall i, j | 0 <= i < j < |t| && t[i].owner == t[j].owner
      ensures Apart(t[i], t[j]) && forall k :: i < k < j ==> t[k].owner == t[i].owner
    {
      assert t[i] == ls[a + i] && t[j] == ls[a + j];
      forall k | i < k < j ensures t[k].owner == t[i].owner { assert t[k] == ls[a + k]; }
    }
  }

  lemma SplitGroup(ls: seq<FileLock>, o: Owner, pre: seq<FileLock>, g: seq<FileLock>, post: seq<FileLock>)
    requires Canonical(ls) && Split(ls, o, pre, g, post)
    ensures Group(g, o) && Canonical(pre) && Canonical(post)
  {
    assert pre == ls[..|pre|] && g == ls[|pre|..|pre| + |g|] && post == ls[|pre| + |g|..];
    SliceCanonical(ls, 0, |pre|);
    SliceCanonical(ls, |pre|, |pre| + |g|);
    SliceCanonical(ls, |pre| + |g|, |ls|);
  }

  /** Replacing the group of one owner by another group keeps the list canonical. */
  lemma RegroupCanonical(ls: seq<FileLock>, o: Owner, pre: seq<FileLock>, g: seq<FileLock>, post: seq<FileLock>,
                         h: seq<FileLock>)
    requires Canonical(ls) && Split(ls, o, pre, g, post) && Group(h, o)
    ensures Canonical(pre + h + post)
  {
    SplitGroup(ls, o, pre, g, post);
    var ns := pre + h + post;
    var p, q := |pre|, |pre| + |h|;
    forall i, j | 0 <= i < |pre| && 0 <= j < |post| ensures pre[i].owner != post[j].owner {
      // the old group stood between these two locks
      assert ls[i] == pre[i] && ls[p] == g[0] && ls[p + |g| + j] == post[j];
    }
    forall i, j | 0 <= i < j < |ns| && ns[i].owner == ns[j].owner
      ensures Apart(ns[i], ns[j]) && forall k :: i < k < j ==> ns[k].owner == ns[i].owner
    {
      if i >= q {
        assert ns[i] == post[i - q] && ns[j] == post[j - q];
        forall k | i < k < j ensures ns[k].owner == ns[i].owner { assert ns[k] == post[k - q]; }
      } else if p <= i && j < q {
        assert ns[i] == h[i - p] && ns[j] == h[j - p];
        forall k | i < k < j ensures ns[k].owner == ns[i].owner { assert ns[k] == h[k - p]; }
      } else if j < p {
        assert ns[i] == pre[i] && ns[j] == pre[j];
        forall k | i < k < j ensures ns[k].owner == ns[i].owner { assert ns[k] == pre[k]; }
      }
    }
  }

  predicate OwnedBy(h: seq<FileLock>, o: Owner) {
    forall i :: 0 <= i < |h| ==> h[i].owner == o && h[i].kind != UnLck
  }

  /** Replacing it by any locks of that owner changes the meaning for that owner only. */
  lemma RegroupMeaning(ls: seq<FileLock>, o: Owner, pre: seq<FileLock>, g: seq<FileLock>, post: seq<FileLock>,
                       h: seq<FileLock>, o': Owner, x: int)
    requires Canonical(ls) && Split(ls, o, pre, g, post) && OwnedBy(h, o)
    ensures TypeAt(ls, o, x) == TypeAt(g, o, x)
    ensures TypeAt(pre + h + post, o, x) == TypeAt(h, o, x)
    ensures o' != o ==> TypeAt(pre + h + post, o', x) == TypeAt(ls, o', x)
  {
    SplitGroup(ls, o, pre, g, post);
    Pieces(pre, g, post, o, o', x);
    Pieces(pre, h, post, o, o', x);
  }

  lemma Pieces(pre: seq<FileLock>, g: seq<FileLock>, post: seq<FileLock>, o: Owner, o': Owner, x: int)
    requires Canonical(pre) && OwnedBy(g, o) && Canonical(post)
    requires Foreign(pre, o) && Foreign(post, o)
    ensures TypeAt(pre + g + post, o, x) == TypeAt(g, o, x)
    ensures o' != o ==> TypeAt(pre + g + post, o', x) ==
                        if TypeAt(pre, o', x) != UnLck then TypeAt(pre, o', x) else TypeAt(post, o', x)
  {
    assert forall i :: 0 <= i < |pre + g| ==> (pre + g)[i].kind != UnLck;
    TypeAtConcat(pre + g, post, o, x);
    TypeAtConcat(pre, g, o, x);
    ForeignMeaning(pre, o, x);
    ForeignMeaning(post, o, x);
    if o' != o {
      TypeAtConcat(pre + g, post, o', x);
      TypeAtConcat(pre, g, o', x);
      ForeignMeaning(g, o', x);
    }
  }

  // ---- conflicts, byte by byte

  /** `PosixConflict` is the byte-level rule: a shared byte, different owners, one of them writing. */
  lemma ConflictIsByteConflict(a: FileLock, b: FileLock)
    requires Proper(a) && Proper(b)
    ensures PosixConflict(a, b) <==>
            a.owner != b.owner && (a.kind == WrLck || b.kind == WrLck) &&
            exists x :: Covers(a, a.owner, x) && Covers(b, b.owner, x)
  {
    if Overlap(a, b) {
      var x := if a.start < b.start then b.start else a.start;
      assert Covers(a, a.owner, x) && Covers(b, b.owner, x);
    }
  }

  predicate Shareable(s: LockType, t: LockType) {
    s == UnLck || t == UnLck || (s == RdLck && t == RdLck)
  }

  /** No byte is held by two owners unless both only read. */
  ghost predicate Compatible(ls: seq<FileLock>) {
    forall o, o', x :: o != o' ==> Shareable(TypeAt(ls, o, x), TypeAt(ls, o', x))
  }
}
