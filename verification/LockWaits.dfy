/** The block lists and the waits-for relation between lock owners (fs/locks.c:395-458, 649-689). */
module LockWaits {
  import opened LockRanges
  import opened Options

  /** A request asleep in locks_block_on: queued on lock `blocker` of inode `ino`, whose
      owner (reached through fl_next) is `holder`. */
  datatype Waiter = Waiter(req: FileLock, ino: nat, blocker: nat, holder: Owner)

  predicate Woken(bs: seq<Waiter>, id: nat) {
    forall w :: w in bs ==> w.blocker != id
  }

  /** `bs` without the waiters queued on lock `id`, in the same order. */
  function Without(bs: seq<Waiter>, id: nat): seq<Waiter> {
    if bs == [] then []
    else (if bs[0].blocker == id then [] else [bs[0]]) + Without(bs[1..], id)
  }

  lemma {:induction false} WithoutMembers(bs: seq<Waiter>, id: nat)
    ensures forall w :: w in Without(bs, id) <==> w in bs && w.blocker != id
  {
    if bs != [] {
      WithoutMembers(bs[1..], id);
      assert bs == [bs[0]] + bs[1..];
    }
  }

  lemma {:induction false} WithoutDrop(bs: seq<Waiter>, id: nat, k: nat)
    requires k < |bs| && bs[k].blocker == id
    ensures Without(bs[..k] + bs[k + 1..], id) == Without(bs, id)
  {
    if k == 0 {
      assert bs[..k] + bs[k + 1..] == bs[1..];
    } else {
      WithoutDrop(bs[1..], id, k - 1);
      assert (bs[..k] + bs[k + 1..])[1..] == bs[1..][..k - 1] + bs[1..][k..];
    }
  }

  lemma {:induction false} WithoutNone(bs: seq<Waiter>, id: nat)
    requires Woken(bs, id)
    ensures Without(bs, id) == bs
  {
    if bs != [] {
      WithoutNone(bs[1..], id);
    }
  }

  // ---- waits-for

  predicate Asleep(bs: seq<Waiter>, o: Owner) {
    exists w :: w in bs && w.req.owner == o
  }

  /** Each owner waits for at most one lock. */
  ghost predicate WaitsOnce(bs: seq<Waiter>) {
    forall v, w :: v in bs && w in bs && v.req.owner == w.req.owner ==> v == w
  }

  /** The owner `o` waits for, if it waits. */
  function WaitsFor(bs: seq<Waiter>, o: Owner): Option<Owner> {
    if bs == [] then None
    else if bs[0].req.owner == o then Some(bs[0].holder)
    else WaitsFor(bs[1..], o)
  }

  /** `n` steps along the waits-for relation. */
  function Follow(bs: seq<Waiter>, o: Owner, n: nat): Option<Owner>
    decreases n
  {
    if n == 0 then Some(o)
    else match WaitsFor(bs, o)
      case None => None
      case Some(p) => Follow(bs, p, n - 1)
  }

  ghost predicate Reaches(bs: seq<Waiter>, from: Owner, to: Owner) {
    exists n: nat :: Follow(bs, from, n) == Some(to)
  }

  ghost predicate Ends(bs: seq<Waiter>, o: Owner) {
    exists n: nat :: Follow(bs, o, n) == None
  }

  /** Every chain of waiting owners ends with one that is not waiting. */
  ghost predicate ChainsEnd(bs: seq<Waiter>) {
    forall o :: Ends(bs, o)
  }

  lemma {:induction false} WaitsForWho(bs: seq<Waiter>, o: Owner)
    ensures WaitsFor(bs, o).None? <==> !Asleep(bs, o)
    ensures WaitsFor(bs, o).Some? ==> exists w :: w in bs && w.req.owner == o && w.holder == WaitsFor(bs, o).value
  {
    if bs != [] {
      assert bs == [bs[0]] + bs[1..];
      if bs[0].req.owner == o {
        assert bs[0] in bs;
      } else {
        WaitsForWho(bs[1..], o);
      }
    }
  }

  lemma {:induction false} FollowAdd(bs: seq<Waiter>, o: Owner, m: nat, n: nat)
    ensures Follow(bs, o, m + n) == match Follow(bs, o, m) case None => None case Some(p) => Follow(bs, p, n)
    decreases m
  {
    if m > 0 && WaitsFor(bs, o).Some? {
      FollowAdd(bs, WaitsFor(bs, o).value, m - 1, n);
    }
  }

  lemma {:induction false} CycleNeverEnds(bs: seq<Waiter>, o: Owner, n: nat, k: nat)
    requires n > 0 && Follow(bs, o, n) == Some(o)
    ensures Follow(bs, o, k).Some?
    decreases k
  {
    if k < n {
      FollowAdd(bs, o, k, n - k);
    } else {
      FollowAdd(bs, o, n, k - n);
      CycleNeverEnds(bs, o, n, k - n);
    }
  }

  /** When every chain ends, nobody waits for himself, however indirectly. */
  lemma ChainsEndAcyclic(bs: seq<Waiter>, o: Owner, n: nat)
    requires ChainsEnd(bs) && n > 0
    ensures Follow(bs, o, n) != Some(o)
  {
    assert Ends(bs, o);
    var k: nat :| Follow(bs, o, k) == None;
    if Follow(bs, o, n) == Some(o) {
      CycleNeverEnds(bs, o, n, k);
    }
  }

  /** Waiters leaving the list only shorten the chains. */
  lemma {:induction false} FollowFewer(bs: seq<Waiter>, bs': seq<Waiter>, o: Owner, n: nat)
    requires WaitsOnce(bs) && forall w :: w in bs' ==> w in bs
    requires Follow(bs, o, n) == None
    ensures Follow(bs', o, n) == None
    decreases n
  {
    WaitsForWho(bs, o);
    WaitsForWho(bs', o);
    if n > 0 && WaitsFor(bs', o).Some? {
      FollowFewer(bs, bs', WaitsFor(bs', o).value, n - 1);
    }
  }

  lemma FewerWaiters(bs: seq<Waiter>, bs': seq<Waiter>)
    requires WaitsOnce(bs) && ChainsEnd(bs) && forall w :: w in bs' ==> w in bs
    ensures WaitsOnce(bs') && ChainsEnd(bs')
  {
    forall o ensures Ends(bs', o) {
      assert Ends(bs, o);
      var n: nat :| Follow(bs, o, n) == None;
      FollowFewer(bs, bs', o, n);
    }
  }

  /** A chain that does not meet the new waiter is the chain it was. */
  lemma {:induction false} FollowUnmet(bs: seq<Waiter>, w: Waiter, o: Owner, n: nat)
    requires forall m: nat :: m < n ==> Follow(bs, o, m) != Some(w.req.owner)
    ensures Follow([w] + bs, o, n) == Follow(bs, o, n)
    decreases n
  {
    if n > 0 {
      assert Follow(bs, o, 0) == Some(o);
      assert ([w] + bs)[1..] == bs;
      if WaitsFor(bs, o).Some? {
        var p := WaitsFor(bs, o).value;
        forall m: nat | m < n - 1 ensures Follow(bs, p, m) != Some(w.req.owner) {
          assert Follow(bs, o, m + 1) == Follow(bs, p, m);
        }
        FollowUnmet(bs, w, p, n - 1);
      }
    }
  }

  /** A waiter that is not reachable from the owner it waits for closes no cycle. */
  lemma OneMoreWaiter(bs: seq<Waiter>, w: Waiter)
    requires WaitsOnce(bs) && ChainsEnd(bs)
    requires !Asleep(bs, w.req.owner) && !Reaches(bs, w.holder, w.req.owner)
    ensures WaitsOnce([w] + bs) && ChainsEnd([w] + bs)
  {
    var bs' := [w] + bs;
    assert Ends(bs, w.holder);
    var n: nat :| Follow(bs, w.holder, n) == None;
    FollowUnmet(bs, w, w.holder, n);
    assert bs'[0] == w;
    assert Follow(bs', w.req.owner, n + 1) == None;
    forall o ensures Ends(bs', o) {
      assert Ends(bs, o);
      var k: nat :| Follow(bs, o, k) == None;
      if m: nat :| m < k && Follow(bs, o, m) == Some(w.req.owner) {
        var first := FirstMeeting(bs, o, w.req.owner, m);
        FollowUnmet(bs, w, o, first);
        FollowAdd(bs', o, first, n + 1);
      } else {
        FollowUnmet(bs, w, o, k);
      }
    }
  }

  lemma {:induction false} FirstMeeting(bs: seq<Waiter>, o: Owner, p: Owner, m: nat) returns (first: nat)
    requires Follow(bs, o, m) == Some(p)
    ensures Follow(bs, o, first) == Some(p) && forall k: nat :: k < first ==> Follow(bs, o, k) != Some(p)
  {
    if k: nat :| k < m && Follow(bs, o, k) == Some(p) {
      first := FirstMeeting(bs, o, p, k);
    } else {
      first := m;
    }
  }
}
