/** The in-place edit of an inode's lock list by posix_lock_file, and the block lists
    (fs/locks.c:395-458, 663-689, 860-1036, 1719-1748). */
module LockTables {
  import opened LockRanges
  import opened LockScan
  import opened LockEdits
  import opened LockWraps
  import opened LockWalks
  import opened LockWaits
  import opened LockSystem
  import opened Options

  class LockTable {
    var flock: map<nat, seq<FileLock>>  // i_flock of each inode that has one
    var blocked: seq<Waiter>            // blocked_list, most recent first
    var nextId: nat                     // identity of the next struct file_lock

    function ListOf(ino: nat): seq<FileLock>
      reads this
    {
      Locks(System(flock, blocked, nextId), ino)
    }

    ghost function Abs(): System
      reads this
    {
      System(flock, blocked, nextId)
    }

    /** locks_wake_up_blocks without waiting: the waiters of lock `id` leave the block list,
        the one that blocked first goes first. */
    method WakeUpBlocks(id: nat)
      modifies this`blocked
      ensures blocked == Without(old(blocked), id)
      ensures forall w :: w in blocked <==> w in old(blocked) && w.blocker != id
    {
      var k := |blocked|;
      while k > 0
        invariant 0 <= k <= |blocked|
        invariant forall i :: k <= i < |blocked| ==> blocked[i].blocker != id
        invariant Without(blocked, id) == Without(old(blocked), id)
      {
        k := k - 1;
        if blocked[k].blocker == id {
          WithoutDrop(blocked, id, k);
          blocked := blocked[..k] + blocked[k + 1..];
        }
      }
      WithoutNone(blocked, id);
      WithoutMembers(old(blocked), id);
    }

    /** One turn of the walk at a lock of the caller's own type (lines 924-951). */
    method VisitSame(w: Walk, ghost bs: seq<Waiter>) returns (r: Walk)
      requires Placed(w) && w.more && w.b < |w.ls| && w.ls[w.b].kind == w.c.kind && StillWait(bs, blocked, w.woken)
      modifies this`blocked
      ensures r == Turn(w) && StillWait(bs, blocked, r.woken)
    {
      var fl, c := w.ls[w.b], w.c;
      if fl.end < c.start - 1 {
        return w.(b := w.b + 1);
      }
      if fl.start > Succ64(c.end) {
        return w.(more := false);
      }
      if fl.start > c.start { fl := fl.(start := c.start); } else { c := c.(start := fl.start); }
      if fl.end < c.end { fl := fl.(end := c.end); } else { c := c.(end := fl.end); }
      if w.added {
        var ls := w.ls[w.ci := c];
        WakeUpBlocks(fl.id);
        return w.(ls := ls[..w.b] + ls[w.b + 1..], c := c, woken := w.woken + {fl.id});
      }
      return w.(ls := w.ls[w.b := fl], b := w.b + 1, c := fl, ci := w.b, added := true);
    }

    /** One turn of the walk at a lock of another type (lines 957-992). */
    method VisitOther(w: Walk, ghost bs: seq<Waiter>) returns (r: Walk)
      requires Placed(w) && w.more && w.b < |w.ls| && w.ls[w.b].kind != w.c.kind && StillWait(bs, blocked, w.woken)
      modifies this`blocked
      ensures r == Turn(w) && StillWait(bs, blocked, r.woken)
    {
      var fl, c := w.ls[w.b], w.c;
      if fl.end < c.start {
        return w.(b := w.b + 1);
      }
      if fl.start > c.end {
        return w.(more := false);
      }
      r := w;
      if c.kind == UnLck { r := r.(added := true); }
      if fl.start < c.start { r := r.(left := w.b); }
      if fl.end > c.end {
        return r.(right := w.b, more := false);
      }
      if fl.start >= c.start {
        WakeUpBlocks(fl.id);
        r := r.(woken := r.woken + {fl.id});
        if r.added {
          return r.(ls := w.ls[..w.b] + w.ls[w.b + 1..]);
        }
        fl := fl.(start := c.start, end := c.end, kind := c.kind);
        r := r.(ls := w.ls[w.b := fl], c := fl, ci := w.b, added := true);
      }
      r := r.(b := w.b + 1);
    }

    /** Lines 910-917: the first lock of the caller, or the end of the list. */
    method FindFirst(ls: seq<FileLock>, o: Owner) returns (first: nat)
      ensures first == FirstOf(ls, o)
    {
      first := 0;
      while first < |ls| && ls[first].owner != o
        invariant first <= FirstOf(ls, o)
        decreases |ls| - first
      {
        first := first + 1;
      }
    }

    /** The walk over the caller's own locks (lines 910-998). */
    method WalkLocks(ls: seq<FileLock>, req: FileLock) returns (w: Walk)
      requires NoUnlocks(ls)
      modifies this`blocked
      ensures w == WalkOver(ls, req) && StillWait(old(blocked), blocked, w.woken)
    {
      var first := FindFirst(ls, req.owner);
      w := Walk(ls, first, req, -1, false, -1, -1, true, {});
      while w.more && w.b < |w.ls| && w.ls[w.b].owner == req.owner
        invariant Placed(w) && Walked(w, req.owner) == WalkOver(ls, req)
        invariant StillWait(old(blocked), blocked, w.woken)
        decreases if w.more then |w.ls| - w.b + 1 else 0
      {
        if w.ls[w.b].kind == w.c.kind {
          w := VisitSame(w, old(blocked));
        } else {
          w := VisitOther(w, old(blocked));
        }
      }
    }

    /** Lines 1001-1007: the new lock goes in at `before`, and the locks from there on move up. */
    method Insert(w: Walk) returns (r: Walk)
      requires Placed(w) && !w.added
      modifies this`nextId
      ensures r == Inserted(w, old(nextId)) && nextId == old(nextId) + 1
    {
      var newLock := w.c.(id := nextId);
      nextId := nextId + 1;
      r := w.(ls := w.ls[..w.b] + [newLock] + w.ls[w.b..],
              left := if w.left >= w.b then w.left + 1 else w.left,
              right := if w.right >= w.b then w.right + 1 else w.right);
    }

    /** Lines 1009-1017: a lock that sticks out on both sides gets a second piece. */
    method Double(w: Walk) returns (r: Walk)
      requires w.b <= |w.ls| && 0 <= w.right == w.left < |w.ls|
      modifies this`nextId
      ensures r == Doubled(w, old(nextId)) && nextId == old(nextId) + 1
    {
      var piece := w.ls[w.right].(id := nextId);
      nextId := nextId + 1;
      r := w.(ls := w.ls[..w.b] + [piece] + w.ls[w.b..], left := w.b, right := w.right + 1);
    }

    /** Lines 1018-1019. */
    method CutRight(w: Walk, ghost bs: seq<Waiter>) returns (r: Walk)
      requires 0 <= w.right < |w.ls| && StillWait(bs, blocked, w.woken)
      modifies this`blocked
      ensures r == CutAbove(w) && StillWait(bs, blocked, r.woken)
    {
      var fl := w.ls[w.right];
      WakeUpBlocks(fl.id);
      r := w.(ls := w.ls[w.right := fl.(start := Succ64(w.c.end))], woken := w.woken + {fl.id});
    }

    /** Lines 1022-1023. */
    method CutLeft(w: Walk, ghost bs: seq<Waiter>) returns (r: Walk)
      requires 0 <= w.left < |w.ls| && StillWait(bs, blocked, w.woken)
      modifies this`blocked
      ensures r == CutBelow(w) && StillWait(bs, blocked, r.woken)
    {
      var fl := w.ls[w.left];
      WakeUpBlocks(fl.id);
      r := w.(ls := w.ls[w.left := fl.(end := w.c.start - 1)], woken := w.woken + {fl.id});
    }

    /** Lines 1008-1024: cut the locks at `left` and `right`, which may be one and the same, back to
        the edges of the caller lock. */
    method Cut(w: Walk, ghost bs: seq<Waiter>) returns (r: Walk)
      requires w.b <= |w.ls| && w.left < |w.ls| && w.right < |w.ls| && StillWait(bs, blocked, w.woken)
      modifies this`blocked, this`nextId
      ensures r == CutBelow(CutAbove(Doubled(w, old(nextId)))) && StillWait(bs, blocked, r.woken)
      ensures nextId == old(nextId) + if w.right >= 0 && w.left == w.right then 1 else 0
    {
      r := w;
      if r.right >= 0 {
        if r.left == r.right {
          r := Double(r);
        }
        r := CutRight(r, bs);
      }
      if r.left >= 0 {
        r := CutLeft(r, bs);
      }
    }

    /** Lines 1000-1024. */
    method Finish(w: Walk, ghost bs: seq<Waiter>) returns (r: Walk)
      requires Placed(w) && StillWait(bs, blocked, w.woken)
      modifies this`blocked, this`nextId
      ensures r == Closed(w, old(nextId)) && StillWait(bs, blocked, r.woken)
      ensures nextId == old(nextId) + NewLocks(w)
    {
      r := w;
      if !r.added {
        if r.c.kind == UnLck {
          return;
        }
        r := Insert(r);
      }
      r := Cut(r, bs);
    }

    /** posix_lock_file from line 910 on: the request is known not to conflict, and is applied. */
    method Apply(ino: nat, req: FileLock)
      requires NoUnlocks(ListOf(ino))
      modifies this
      ensures var r := Edited(old(ListOf(ino)), req, old(nextId));
              Replaced(old(Abs()), Abs(), ino, r.ls, r.woken) && ListOf(ino) == r.ls
      ensures nextId == old(nextId) + NewLocks(WalkOver(old(ListOf(ino)), req))
      ensures old(Canonical(ListOf(ino))) && Request(req) ==>
                && Overwritten(old(ListOf(ino)), ListOf(ino), req)
                && (Canonical(ListOf(ino)) <==> !Wraps(old(ListOf(ino)), req))
                && (Unambiguous(ListOf(ino)) <==> !Clashes(old(ListOf(ino)), req))
    {
      if Canonical(ListOf(ino)) && Request(req) { EditOverwrites(ListOf(ino), req, nextId); }
      var w := WalkLocks(ListOf(ino), req);
      w := Finish(w, old(blocked));
      flock := flock[ino := w.ls];
    }

    /** posix_locks_deadlock: would `caller` wait, through any chain of waiting owners, for itself? */
    method PosixLocksDeadlock(caller: Owner, blocker: Owner) returns (deadlock: bool)
      requires ChainsEnd(blocked)
      ensures deadlock <==> Reaches(blocked, blocker, caller)
    {
      var cur := blocker;
      ghost var k: nat := 0;
      assert Ends(blocked, blocker);
      ghost var n: nat :| Follow(blocked, blocker, n) == None;
      while true
        invariant k < n && Follow(blocked, blocker, k) == Some(cur)
        invariant forall j: nat :: j < k ==> Follow(blocked, blocker, j) != Some(caller)
        decreases n - k
      {
        if caller == cur {
          return true;
        }
        var i := 0;
        while i < |blocked| && blocked[i].req.owner != cur
          invariant i <= |blocked| && WaitsFor(blocked, cur) == WaitsFor(blocked[i..], cur)
        {
          i := i + 1;
        }
        FollowAdd(blocked, blocker, k, 1);
        assert WaitsFor(blocked, cur).Some? ==> Follow(blocked, WaitsFor(blocked, cur).value, 0).Some?;
        if i == |blocked| {
          ChainStops(blocked, blocker, caller, k);
          return false;
        }
        ChainGoesOn(blocked, blocker, k + 1, n);
        cur := blocked[i].holder;
        k := k + 1;
      }
    }

    /** posix_lock_file up to its return, or up to the sleep in locks_block_on. */
    method PosixLockFile(ino: nat, req: FileLock, wait: bool) returns (out: Outcome)
      requires Inv(Abs()) && Request(req)
      modifies this
      ensures LockCall(old(Abs()), Abs(), ino, req, wait, out)
    {
      assert AllBounded(Locks(Abs(), ino));
      if req.kind != UnLck {
        var ls := ListOf(ino);
        var k := 0;
        while k < |ls| && !PosixConflict(req, ls[k])
          invariant k <= |ls| && forall i :: 0 <= i < k ==> !PosixConflict(req, ls[i])
        {
          k := k + 1;
        }
        if k < |ls| {
          assert FirstConflict(ls, req, k);
          if !wait {
            return WouldBlock;
          }
          var deadlock := PosixLocksDeadlock(req.owner, ls[k].owner);
          if deadlock {
            return Deadlock;
          }
          blocked := [Waiter(req, ino, ls[k].id, ls[k].owner)] + blocked;
          return Sleeps;
        }
      }
      Apply(ino, req);
      return Granted;
    }

    /** The locks_delete_block a sleeper runs when it wakes up. */
    method LeaveBlockLists(o: Owner)
      modifies this`blocked
      ensures LeaveCall(old(Abs()), Abs(), o)
    {
      var k := |blocked|;
      while k > 0
        invariant 0 <= k <= |blocked|
        invariant forall i :: k <= i < |blocked| ==> blocked[i].req.owner != o
        invariant forall w :: w in blocked ==> w in old(blocked)
        invariant forall w :: w in old(blocked) && w.req.owner != o ==> w in blocked
      {
        k := k - 1;
        if blocked[k].req.owner == o {
          assert blocked == blocked[..k] + [blocked[k]] + blocked[k + 1..];
          blocked := blocked[..k] + blocked[k + 1..];
        }
      }
    }

    /** locks_remove_posix: every lock taken through `files` goes, and its waiters are woken; the scan
        starts over after each deletion. */
    method RemovePosix(ino: nat, files: nat)
      modifies this`flock, this`blocked
      ensures CloseCall(old(Abs()), Abs(), ino, files)
    {
      var ls := ListOf(ino);
      ghost var ids: set<nat> := {};
      var k := 0;
      while k < |ls|
        invariant flock == old(flock) && k <= |ls| && forall i :: 0 <= i < k ==> ls[i].owner.files != files
        invariant NotOf(ls, files) == NotOf(old(ListOf(ino)), files)
        invariant IdsOf(ls, files) + ids == IdsOf(old(ListOf(ino)), files) && StillWait(old(blocked), blocked, ids)
        decreases |ls|, |ls| - k
      {
        if ls[k].owner.files == files {
          NotOfDrop(ls, k, files);
          IdsOfDrop(ls, k, files);
          WakeUpBlocks(ls[k].id);
          ids := ids + {ls[k].id};
          ls := ls[..k] + ls[k + 1..];
          k := 0;
        } else {
          k := k + 1;
        }
      }
      NotOfAll(ls, files);
      assert IdsOf(ls, files) == {};
      flock := flock[ino := ls];
    }
  }

  lemma IdsOfDrop(ls: seq<FileLock>, k: nat, files: nat)
    requires k < |ls| && ls[k].owner.files == files
    ensures IdsOf(ls, files) == IdsOf(DropAt(ls, k), files) + {ls[k].id}
  {
    var t := DropAt(ls, k);
    DropAtIs(ls, k);
    forall i | 0 <= i < |ls| && ls[i].owner.files == files && i != k ensures ls[i].id in IdsOf(t, files) {
      assert t[if i < k then i else i - 1] == ls[i];
    }
  }

  lemma ChainStops(bs: seq<Waiter>, o: Owner, p: Owner, k: nat)
    requires Follow(bs, o, k + 1) == None
    requires forall j: nat :: j <= k ==> Follow(bs, o, j) != Some(p)
    ensures !Reaches(bs, o, p)
  {
    forall j: nat ensures Follow(bs, o, j) != Some(p) {
      if j > k { FollowAdd(bs, o, k + 1, j - k - 1); }
    }
  }

  lemma ChainGoesOn(bs: seq<Waiter>, o: Owner, k: nat, n: nat)
    requires Follow(bs, o, n) == None && Follow(bs, o, k).Some?
    ensures k < n
  {
    if n <= k { FollowAdd(bs, o, n, k - n); }
  }
}
