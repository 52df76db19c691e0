/** The semaphore set as the kernel updates it: values, adjustments and the pending queue are changed
    in place, and a failed operation array is rolled back (ipc/sem.c:209-343, 840-978, 992-1055). */
module SemSets {
  import opened SemCalls
  import opened SemLedger
  import opened SemLive
  import opened Lists

  /** The values and adjustments now are those from before (`val`, `us`) with ops[..i] done by the
      process whose undo structure is number `un`, if it has one. */
  ghost predicate Reached(semval: seq<int>, undos: seq<Undo>, val: seq<int>, us: seq<Undo>, un: int,
                          ops: seq<SemOp>, i: nat)
  {
    && i <= |ops| && InRange(ops, |val|) && |semval| == |val| && |undos| == |us| && -1 <= un < |us|
    && (un == -1 ==> !UsesUndo(ops))
    && (forall j :: 0 <= j < |val| ==> semval[j] == val[j] + Net(ops[..i], j))
    && (un >= 0 ==> undos[un].pid == us[un].pid && |undos[un].adj| == |us[un].adj| == |val| &&
                    forall j :: 0 <= j < |val| ==> undos[un].adj[j] == us[un].adj[j] - NetUndo(ops[..i], j))
    && (forall k :: 0 <= k < |us| && k != un ==> undos[k] == us[k])
  }

  lemma ReachedStart(val: seq<int>, us: seq<Undo>, un: int, ops: seq<SemOp>)
    requires InRange(ops, |val|) && -1 <= un < |us| && (un == -1 ==> !UsesUndo(ops))
    requires un >= 0 ==> |us[un].adj| == |val|
    ensures Reached(val, us, val, us, un, ops, 0)
  {
    assert ops[..0] == [];
  }

  lemma ReachedNone(semval: seq<int>, undos: seq<Undo>, val: seq<int>, us: seq<Undo>, un: int, ops: seq<SemOp>)
    requires Reached(semval, undos, val, us, un, ops, 0)
    ensures semval == val && undos == us
  {
    assert ops[..0] == [];
    if un >= 0 { assert undos[un].adj == us[un].adj; }
  }

  /** From ops[..i] to ops[..i + 1] and back. */
  lemma ReachedStep(semval: seq<int>, undos: seq<Undo>, val: seq<int>, us: seq<Undo>, un: int,
                    ops: seq<SemOp>, i: nat, semval': seq<int>, undos': seq<Undo>)
    requires i < |ops| && InRange(ops, |val|) && |semval| == |semval'| == |val|
    requires |undos| == |undos'| && -1 <= un < |undos| && (un == -1 ==> !UsesUndo(ops))
    requires semval' == semval[ops[i].num := semval[ops[i].num] + ops[i].op]
    requires un >= 0 ==> |undos[un].adj| == |val|
    requires undos' == if un >= 0 && ops[i].undo
                       then undos[un := undos[un].(
                                    adj := undos[un].adj[ops[i].num := undos[un].adj[ops[i].num] - ops[i].op])]
                       else undos
    ensures Reached(semval, undos, val, us, un, ops, i) <==> Reached(semval', undos', val, us, un, ops, i + 1)
  {
    forall j | 0 <= j < |val|
      ensures Net(ops[..i + 1], j) == Net(ops[..i], j) + if ops[i].num == j then ops[i].op else 0
      ensures NetUndo(ops[..i + 1], j) == NetUndo(ops[..i], j) + if ops[i].num == j && ops[i].undo then ops[i].op else 0
    {
      NetStep(ops, i, j);
    }
  }

  /** With the flag of ops[i] cleared, doing it changes a value but no adjustment. */
  lemma ReachedCleared(semval: seq<int>, undos: seq<Undo>, val: seq<int>, us: seq<Undo>, un: int,
                       ops: seq<SemOp>, i: nat)
    requires i < |ops| && un >= 0 && Reached(semval, undos, val, us, un, ops, i)
    ensures Reached(semval, undos, val, us, un, ops[i := ops[i].(undo := false)], i)
  {
    assert ops[i := ops[i].(undo := false)][..i] == ops[..i];
  }

  /** All of `ops` are done: every value has changed by what they add to it, and of the adjustments those of
      the process, by what is to be undone. */
  ghost predicate Performed(val: seq<int>, us: seq<Undo>, un: int, ops: seq<SemOp>, val': seq<int>, us': seq<Undo>) {
    && |val'| == |val| && (forall j :: 0 <= j < |val| ==> val'[j] == val[j] + Net(ops, j))
    && |us'| == |us| && (forall k :: 0 <= k < |us| && k != un ==> us'[k] == us[k])
    && (0 <= un < |us| ==>
          && us'[un].pid == us[un].pid && |us'[un].adj| == |us[un].adj|
          && forall j :: 0 <= j < |us[un].adj| ==> us'[un].adj[j] == us[un].adj[j] - NetUndo(ops, j))
  }

  class SemSet {
    var semval: seq<int>
    var undos: seq<Undo>
    var pending: seq<Queued>
    ghost var log: seq<seq<SemOp>>

    ghost function Abs(): Sem
      reads this
    {
      Sem(semval, undos, pending, log)
    }

    /** The backward loop of try_atomic_semop (lines 300-309). */
    method RollBack(sops: seq<SemOp>, last: int, un: int, ghost val: seq<int>, ghost us: seq<Undo>)
      requires -1 <= last < |sops| && Reached(semval, undos, val, us, un, sops, last + 1)
      modifies this`semval, this`undos
      ensures semval == val && undos == us
    {
      var i := last;
      while i >= 0
        invariant -1 <= i <= last && Reached(semval, undos, val, us, un, sops, i + 1)
      {
        var sop := sops[i];
        ghost var v, u := semval, undos;
        semval := semval[sop.num := semval[sop.num] - sop.op];
        if sop.undo {
          undos := undos[un := undos[un].(adj := undos[un].adj[sop.num := undos[un].adj[sop.num] + sop.op])];
          assert undos[un].adj[sop.num := undos[un].adj[sop.num] - sop.op] == u[un].adj;
        }
        ReachedStep(semval, undos, val, us, un, sops, i, v, u);
        i := i - 1;
      }
      ReachedNone(semval, undos, val, us, un, sops);
    }

    /** One turn of the forward loop (lines 251-278): afterwards sops[i] is done, and `code` says
        whether it was legal.  An adjustment out of range clears the operation's undo flag. */
    method DoOne(sops0: seq<SemOp>, i: nat, un: int, ghost val: seq<int>, ghost us: seq<Undo>, ghost adj: seq<int>)
      returns (code: Code, sops: seq<SemOp>)
      requires i < |sops0| && Reached(semval, undos, val, us, un, sops0, i)
      requires |adj| == |val| && (un >= 0 ==> adj == us[un].adj)
      modifies this`semval, this`undos
      ensures code == JudgeAt(val, adj, sops0, i)
      ensures |sops| == |sops0| && Reached(semval, undos, val, us, un, sops, i + 1)
      ensures code == Ok ==> sops == sops0
    {
      sops := sops0;
      var sop := sops[i];
      ghost var v, u := semval, undos;
      if sop.op == 0 && semval[sop.num] != 0 {
        code := if sop.nowait then Again else MustSleep;
        assert semval == semval[sop.num := semval[sop.num] + sop.op];
        if un >= 0 && sop.undo {
          assert undos[un].adj == undos[un].adj[sop.num := undos[un].adj[sop.num] - sop.op];
        }
        ReachedStep(v, u, val, us, un, sops, i, semval, undos);
        return;
      }
      semval := semval[sop.num := semval[sop.num] + sop.op];
      if sop.undo {
        var undo := undos[un].adj[sop.num] - sop.op;
        if undo < -SEMAEM - 1 || undo > SEMAEM {
          sops := sops[i := sop.(undo := false)];
          code := Range;
          ReachedCleared(v, u, val, us, un, sops0, i);
          ReachedStep(v, u, val, us, un, sops, i, semval, undos);
          return;
        }
        undos := undos[un := undos[un].(adj := undos[un].adj[sop.num := undo])];
      }
      ReachedStep(v, u, val, us, un, sops, i, semval, undos);
      if semval[sop.num] < 0 {
        code := if sop.nowait then Again else MustSleep;
      } else if semval[sop.num] > SEMVMX {
        code := Range;
      } else {
        code := Ok;
      }
    }

    /** try_atomic_semop: do the operations one after the other; on the first illegal one, or when
        they are only tried, take back all that was done. */
    method TryAtomicSemop(ops: seq<SemOp>, un: int, pid: nat, doUndo: bool) returns (code: Code)
      requires Shape(Abs()) && ValidOps(Abs(), pid, ops) && un == FindUndo(undos, pid)
      modifies this`semval, this`undos, this`log
      ensures (code, Abs()) == Attempt(old(Abs()), pid, ops, doUndo)
      ensures var adj := AdjOf(old(Abs()), pid);
              && (code == Ok <==> AllLegal(old(semval), adj, ops))
              && (code != Ok ==> exists i: nat :: FailsAt(old(semval), adj, ops, i, code))
      ensures code != Ok || doUndo ==> semval == old(semval) && undos == old(undos) && log == old(log)
      ensures code == Ok && !doUndo ==> Performed(old(semval), old(undos), un, ops, semval, undos)
    {
      VerdictMeans(semval, AdjOf(Abs(), pid), ops);
      code := DoAll(ops, un, pid, doUndo);
    }

    /** The loop of try_atomic_semop. */
    method DoAll(ops: seq<SemOp>, un: int, pid: nat, doUndo: bool) returns (code: Code)
      requires Shape(Abs()) && ValidOps(Abs(), pid, ops) && un == FindUndo(undos, pid)
      modifies this`semval, this`undos, this`log
      ensures (code, Abs()) == Attempt(old(Abs()), pid, ops, doUndo)
      ensures code == Ok && !doUndo ==> Performed(old(semval), old(undos), un, ops, semval, undos)
    {
      ghost var val, us, adj := semval, undos, AdjOf(Abs(), pid);
      var sops, i := ops, 0;
      ReachedStart(val, us, un, ops);
      while i < |ops|
        invariant 0 <= i <= |ops| && sops == ops && pending == old(pending) && log == old(log)
        invariant Reached(semval, undos, val, us, un, ops, i)
        invariant Verdict(val, adj, ops, i) == Verdict(val, adj, ops, 0)
      {
        code, sops := DoOne(ops, i, un, val, us, adj);
        if code != Ok {
          RollBack(sops, i, un, val, us);
          return;
        }
        i := i + 1;
      }
      code := Ok;
      if doUndo {
        RollBack(sops, |sops| - 1, un, val, us);
        return;
      }
      log := log + [ops];
      AllDone(semval, undos, val, us, un, ops);
    }

    /** The loop of update_queue (lines 322-343). */
    method WalkQueue()
      requires Shape(Abs())
      modifies this
      ensures Abs() == UpdateQueue(old(Abs()))
    {
      var k := 0;
      while k < |pending|
        invariant Shape(Abs()) && k <= |pending| && UpdateFrom(Abs(), k) == UpdateQueue(old(Abs()))
        decreases |pending| - k
      {
        var q := pending[k];
        if q.status == TryAgain {
          k := k + 1;
          continue;
        }
        ghost var s := Abs();
        AttemptShape(s, q.pid, q.ops, q.alter);
        var un := FindUndo(undos, q.pid);
        var code := TryAtomicSemop(q.ops, un, q.pid, q.alter);
        if code != MustSleep {
          if code == Ok && q.alter {
            pending := pending[k := q.(status := TryAgain)];
            return;
          }
          pending := Drop(pending, k);
        } else {
          k := k + 1;
        }
      }
    }

    /** update_queue (lines 317-343). */
    method UpdateTheQueue()
      requires Shape(Abs())
      modifies this
      ensures Abs() == UpdateQueue(old(Abs()))
      ensures AllPlain(old(Abs())) ==> Live(Abs()) && exists t: nat ::
                FirstTold(old(Abs()), t) && Abs() == Passed(old(Abs()), t)
    {
      if AllPlain(Abs()) {
        UpdateExactly(Abs());
        UpdateLive(Abs());
      }
      WalkQueue();
    }

    /** The scan of the operation array at the start of sys_semop (lines 871-881). */
    method ScanOps(ops: seq<SemOp>) returns (inRange: bool, undos: bool, decrease: bool, alter: bool)
      ensures inRange == InRange(ops, |semval|)
      ensures inRange ==> undos == UsesUndo(ops) && decrease == Decreases(ops) && alter == Alters(ops)
    {
      undos, decrease, alter := false, false, false;
      var i := 0;
      while i < |ops|
        invariant i <= |ops| && InRange(ops[..i], |semval|)
        invariant undos <==> exists k :: 0 <= k < i && ops[k].undo
        invariant decrease <==> exists k :: 0 <= k < i && ops[k].op < 0
        invariant alter <==> exists k :: 0 <= k < i && ops[k].op > 0
      {
        if ops[i].num >= |semval| {
          return false, undos, decrease, alter;
        }
        if ops[i].undo { undos := true; }
        if ops[i].op < 0 { decrease := true; }
        if ops[i].op > 0 { alter := true; }
        i := i + 1;
      }
      assert ops[..i] == ops;
      inRange, alter := true, alter || decrease;
    }

    /** sys_semop up to its return or its first sleep. */
    method SysSemop(pid: nat, ops: seq<SemOp>) returns (res: Result)
      requires Shape(Abs())
      modifies this
      ensures (res, Abs()) == Semop(old(Abs()), pid, ops) && Answers(old(Abs()), pid, ops, res, Abs())
    {
      SemopMeans(Abs(), pid, ops);
      res := TryOrSleep(pid, ops);
    }

    /** The body of sys_semop. */
    method TryOrSleep(pid: nat, ops: seq<SemOp>) returns (res: Result)
      requires Shape(Abs())
      modifies this
      ensures (res, Abs()) == Semop(old(Abs()), pid, ops)
    {
      if |ops| < 1 {
        return Invalid;
      }
      if |ops| > SEMOPM {
        return TooBig;
      }
      var inRange, needUndo, decrease, alter := ScanOps(ops);
      if !inRange {
        return BadNumber;
      }
      WithUndoShape(Abs(), pid, ops);
      if needUndo {
        if FindUndo(undos, pid) == -1 {
          undos := [Undo(pid, Zeros(|semval|))] + undos;
        }
      }
      ghost var s := Abs();
      AttemptShape(s, pid, ops, false);
      var code := TryAtomicSemop(ops, FindUndo(undos, pid), pid, false);
      if code != MustSleep {
        if alter {
          UpdateTheQueue();
        }
        return Returns(code);
      }
      var q := Queued(pid, ops, decrease, Waiting);
      if alter {
        pending := pending + [q];
      } else {
        pending := [q] + pending;
      }
      return Asleep;
    }

    /** The body of the sleep loop of sys_semop, run when `pid` is scheduled again (lines 937-971). */
    method WakeUp(pid: nat)
      requires Shape(Abs())
      modifies this
      ensures Abs() == Resume(old(Abs()), pid)
      ensures OnePerTask(old(Abs())) ==> HasRun(old(Abs()), pid, Abs())
    {
      if OnePerTask(Abs()) { ResumeMeans(Abs(), pid); }
      RetryOrLeave(pid);
    }

    method RetryOrLeave(pid: nat)
      requires Shape(Abs())
      modifies this
      ensures Abs() == Resume(old(Abs()), pid)
    {
      var k := FindQueued(pending, pid);
      if k == -1 {
        return;
      }
      var q := pending[k];
      ghost var s := Abs();
      AttemptShape(s, pid, q.ops, false);
      if q.status == TryAgain {
        var code := TryAtomicSemop(q.ops, FindUndo(undos, pid), pid, false);
        if code == MustSleep {
          pending := pending[k := q.(status := Waiting)];
          return;
        }
      }
      pending := Drop(pending, k);
      var inRange, needUndo, decrease, alter := ScanOps(q.ops);
      if alter {
        UpdateTheQueue();
      }
    }

    /** The adjustment loop of sem_exit (lines 1041-1047). */
    method ApplyAdjustments(adj: seq<int>)
      requires |adj| == |semval|
      modifies this`semval
      ensures semval == ExitValues(old(semval), adj)
    {
      ghost var val := semval;
      var i := 0;
      while i < |semval|
        invariant i <= |semval| == |val|
        invariant forall j :: 0 <= j < i ==> semval[j] == Max0(val[j] + adj[j])
        invariant forall j :: i <= j < |val| ==> semval[j] == val[j]
      {
        semval := semval[i := semval[i] + adj[i]];
        if semval[i] < 0 {
          semval := semval[i := 0];
        }
        i := i + 1;
      }
    }

    /** sem_exit for this set up to update_queue (lines 1002-1048). */
    method Depart(pid: nat) returns (settled: bool)
      requires forall k :: 0 <= k < |undos| ==> |undos[k].adj| == |semval|
      modifies this
      ensures Abs() == Departed(old(Abs()), pid) && settled == (FindUndo(old(undos), pid) >= 0)
    {
      var k := FindQueued(pending, pid);
      if k >= 0 {
        pending := Drop(pending, k);
      }
      assert Abs() == Unqueue(old(Abs()), pid);
      var d := FindUndo(undos, pid);
      if d >= 0 {
        var u := undos[d];
        undos := Drop(undos, d);
        ApplyAdjustments(u.adj);
      }
      settled := d >= 0;
    }

    /** sem_exit for this set (lines 1002-1050). */
    method SemExit(pid: nat)
      requires Shape(Abs()) && OnePerTask(Abs())
      modifies this
      ensures Abs() == Exit(old(Abs()), pid) && Exits(old(Abs()), pid, Abs())
    {
      ExitMeans(Abs(), pid);
      DepartedShape(Abs(), pid);
      var settled := Depart(pid);
      if settled {
        UpdateTheQueue();
      }
    }

    /** semctl SETVAL (lines 635-651). */
    method SemctlSetVal(num: nat, v: int)
      requires Shape(Abs())
      modifies this
      ensures Abs() == SetVal(old(Abs()), num, v) && SetsOne(old(Abs()), num, v, Abs())
    {
      SetValMeans(Abs(), num, v);
      if num >= |semval| || v > SEMVMX || v < 0 {
        return;
      }
      ghost var s := Abs();
      var k := 0;
      while k < |undos|
        invariant k <= |undos| == |s.undos| && semval == s.val && pending == s.pending && log == s.log
        invariant forall i :: 0 <= i < k ==> undos[i] == s.undos[i].(adj := s.undos[i].adj[num := 0])
        invariant forall i :: k <= i < |undos| ==> undos[i] == s.undos[i]
      {
        undos := undos[k := undos[k].(adj := undos[k].adj[num := 0])];
        k := k + 1;
      }
      semval := semval[num := v];
      assert undos == ZeroAt(s.undos, num);
      SameUndosShape(s, Abs());
      UpdateTheQueue();
    }

    /** semctl SETALL (lines 562-597). */
    method SemctlSetAll(vals: seq<nat>)
      requires Shape(Abs())
      modifies this
      ensures Abs() == SetAll(old(Abs()), vals) && SetsAll(old(Abs()), vals, Abs())
    {
      SetAllMeans(Abs(), vals);
      CheckAndSetAll(vals);
    }

    method CheckAndSetAll(vals: seq<nat>)
      requires Shape(Abs())
      modifies this
      ensures Abs() == SetAll(old(Abs()), vals)
    {
      if |vals| != |semval| {
        return;
      }
      var i := 0;
      while i < |vals|
        invariant i <= |vals| && forall j :: 0 <= j < i ==> vals[j] <= SEMVMX
        modifies {}
      {
        if vals[i] > SEMVMX {
          return;
        }
        i := i + 1;
      }
      ghost var s := Abs();
      semval := vals;
      var k := 0;
      while k < |undos|
        invariant k <= |undos| == |s.undos| && semval == vals && pending == s.pending && log == s.log
        invariant forall j :: 0 <= j < k ==> undos[j] == s.undos[j].(adj := Zeros(|s.undos[j].adj|))
        invariant forall j :: k <= j < |undos| ==> undos[j] == s.undos[j]
      {
        undos := undos[k := undos[k].(adj := Zeros(|undos[k].adj|))];
        k := k + 1;
      }
      assert undos == ZeroAll(s.undos);
      SameUndosShape(s, Abs());
      UpdateTheQueue();
    }
  }

  lemma AllDone(semval: seq<int>, undos: seq<Undo>, val: seq<int>, us: seq<Undo>, un: int, ops: seq<SemOp>)
    requires Reached(semval, undos, val, us, un, ops, |ops|)
    ensures semval == Added(val, ops)
    ensures undos == if un >= 0 then us[un := Undo(us[un].pid, Adjusted(us[un].adj, ops))] else us
  {
    assert ops[..|ops|] == ops;
    if un >= 0 { assert undos[un].adj == Adjusted(us[un].adj, ops); }
  }
}
