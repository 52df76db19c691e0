/** What semop, a wake-up, semctl and an exit answer and leave, told from the set before the call
    (ipc/sem.c:562-597, 635-651, 840-1055). */
module SemCalls {
  import opened Lists
  import opened SemLedger
  import opened SemLive

  // ---- what semop says and leaves

  /** The array of `pid` has been done, and then perhaps others on behalf of their sleepers; plain ones change nothing,
      so then values and adjustments differ by this array only. */
  ghost predicate Done(s: Sem, pid: nat, ops: seq<SemOp>, t: Sem)
    requires Shape(s)
  {
    && Shape(t) && |t.val| == |s.val| && s.log + [ops] <= t.log
    && (AllPlain(s) ==>
          && t.val == Added(s.val, ops) && AdjOf(t, pid) == Adjusted(AdjOf(s, pid), ops)
          && forall p: nat {:trigger AdjOf(t, p)} :: p != pid ==> AdjOf(t, p) == AdjOf(s, p))
  }

  /** It has not. */
  ghost predicate NotDone(s: Sem, t: Sem)
    requires Shape(s)
  {
    Shape(t) && |t.val| == |s.val| && s.log <= t.log && (AllPlain(s) ==> SameBooks(s, t))
  }

  /** 0 is returned just if every operation can be done in turn, and then they are; a caller sleeps just if the first
      that cannot must wait, and then nothing has changed but the queue. */
  ghost predicate Answers(s: Sem, pid: nat, ops: seq<SemOp>, res: Result, t: Sem)
    requires Shape(s)
  {
    var adj := AdjOf(s, pid);
    && (res == Invalid <==> |ops| == 0)
    && (res == TooBig <==> |ops| > SEMOPM)
    && (res == BadNumber <==> 1 <= |ops| <= SEMOPM && !InRange(ops, |s.val|))
    && (res in {Invalid, TooBig, BadNumber} ==> t == s)
    && (res !in {Invalid, TooBig, BadNumber} ==>
          && InRange(ops, |s.val|)
          && (res == Returns(Ok) <==> AllLegal(s.val, adj, ops))
          && (res == Returns(Ok) ==> Done(s, pid, ops, t))
          && (res.Returns? && res.code != Ok ==>
                NotDone(s, t) && exists i: nat :: FailsAt(s.val, adj, ops, i, res.code))
          && (res == Asleep ==> exists i: nat :: FailsAt(s.val, adj, ops, i, MustSleep))
          && (res == Asleep ==> JoinsQueue(s, Queued(pid, ops, Decreases(ops), Waiting), t)))
  }

  /** `q` is queued: behind the others, or before them if it only waits for zeros. */
  predicate JoinsQueue(s: Sem, q: Queued, t: Sem) {
    t.val == s.val && t.log == s.log && t.pending == if Alters(q.ops) then s.pending + [q] else [q] + s.pending
  }

  lemma {:induction false} UpdateLogs(s: Sem, k: nat)
    requires Shape(s) && k <= |s.pending|
    ensures Shape(UpdateFrom(s, k)) && |UpdateFrom(s, k).val| == |s.val| && s.log <= UpdateFrom(s, k).log
    decreases |s.pending| - k
  {
    if k < |s.pending| {
      var q := s.pending[k];
      AttemptShape(s, q.pid, q.ops, q.alter);
      var (code, t) := Attempt(s, q.pid, q.ops, q.alter);
      if q.status == TryAgain || code == MustSleep {
        UpdateLogs(s, k + 1);
      } else if code == Ok && q.alter {
        SameUndosShape(s, UpdateFrom(s, k));
      } else {
        UpdateLogs(t.(pending := Drop(s.pending, k)), k);
      }
    }
  }

  /** update_queue among plain arrays leaves values and adjustments. */
  lemma UpdateBooks(s: Sem)
    requires AllPlain(s)
    ensures UpdateQueue(s).val == s.val && UpdateQueue(s).undos == s.undos
  {
    UpdateExactly(s);
  }

  /** `u` is what an attempt left, before the queue is updated. */
  lemma DoneThen(s: Sem, pid: nat, ops: seq<SemOp>, u: Sem, t: Sem)
    requires Shape(s) && ValidOps(s, pid, ops) && u.val == Attempt(s, pid, ops, false).1.val && Shape(u)
    requires u.undos == Attempt(s, pid, ops, false).1.undos && u.log == s.log + [ops]
    requires Attempt(s, pid, ops, false).0 == Ok && (AllPlain(s) ==> AllPlain(u)) && (t == u || t == UpdateQueue(u))
    ensures Done(s, pid, ops, t)
  {
    UpdateLogs(u, 0);
    if AllPlain(s) {
      UpdateBooks(u);
      AttemptBooks(s, pid, ops, u, t);
    }
  }

  lemma AttemptBooks(s: Sem, pid: nat, ops: seq<SemOp>, u: Sem, t: Sem)
    requires Shape(s) && ValidOps(s, pid, ops) && Shape(t) && t.val == u.val && t.undos == u.undos
    requires Attempt(s, pid, ops, false).0 == Ok
    requires u.val == Attempt(s, pid, ops, false).1.val && u.undos == Attempt(s, pid, ops, false).1.undos
    ensures t.val == Added(s.val, ops) && AdjOf(t, pid) == Adjusted(AdjOf(s, pid), ops)
    ensures forall p: nat {:trigger AdjOf(t, p)} :: p != pid ==> AdjOf(t, p) == AdjOf(s, p)
  {
    var k := FindUndo(s.undos, pid);
    forall p: nat ensures FindUndo(t.undos, p) == FindUndo(s.undos, p) { FindUndoSame(s.undos, t.undos, p); }
    if k == -1 {
      forall j: nat ensures NetUndo(ops, j) == 0 { NoUndoNet(ops, j); }
      assert Adjusted(Zeros(|s.val|), ops) == Zeros(|s.val|);
    }
  }

  lemma NotDoneThen(s: Sem, u: Sem, t: Sem)
    requires Shape(s) && SameBooks(s, u) && u.log == s.log && (AllPlain(s) ==> AllPlain(u))
    requires t == u || t == UpdateQueue(u)
    ensures NotDone(s, t)
  {
    UpdateLogs(u, 0);
    if AllPlain(s) { UpdateBooks(u); }
  }

  lemma SemopMeans(s: Sem, pid: nat, ops: seq<SemOp>)
    requires Shape(s)
    ensures Answers(s, pid, ops, Semop(s, pid, ops).0, Semop(s, pid, ops).1)
  {
    if 1 <= |ops| <= SEMOPM && InRange(ops, |s.val|) {
      WithUndoShape(s, pid, ops);
      WithUndoBooks(s, pid, ops);
      VerdictMeans(s.val, AdjOf(s, pid), ops);
      SemopDone(s, WithUndo(s, pid, ops), pid, ops, Semop(s, pid, ops).1);
    }
  }

  lemma SemopDone(s: Sem, u: Sem, pid: nat, ops: seq<SemOp>, t: Sem)
    requires SameBooks(s, u) && u.pending == s.pending && u.log == s.log && ValidOps(u, pid, ops)
    requires var (code, x) := Attempt(u, pid, ops, false);
             code != MustSleep && Shape(x) ==> t == if Alters(ops) then UpdateQueue(x) else x
    ensures Attempt(u, pid, ops, false).0 == Ok ==> Done(s, pid, ops, t)
    ensures Attempt(u, pid, ops, false).0 !in {Ok, MustSleep} ==> NotDone(s, t)
  {
    var (code, x) := Attempt(u, pid, ops, false);
    AttemptShape(u, pid, ops, false);
    if code == Ok {
      DoneThen(u, pid, ops, x, t);
    } else if code != MustSleep {
      NotDoneThen(s, u, t);
    }
  }

  // ---- what a sleeper does when it runs

  lemma {:induction false} UpdateKeepsOut(s: Sem, k: nat, pid: nat)
    requires Shape(s) && k <= |s.pending| && forall q :: q in s.pending ==> q.pid != pid
    ensures forall q :: q in UpdateFrom(s, k).pending ==> q.pid != pid
    decreases |s.pending| - k
  {
    if k < |s.pending| {
      var q := s.pending[k];
      AttemptShape(s, q.pid, q.ops, q.alter);
      var (code, t) := Attempt(s, q.pid, q.ops, q.alter);
      if q.status == TryAgain || code == MustSleep {
        UpdateKeepsOut(s, k + 1, pid);
      } else if code == Ok && q.alter {
        assert q in s.pending;
      } else {
        forall x | x in Drop(s.pending, k) ensures x in s.pending {}
        UpdateKeepsOut(t.(pending := Drop(s.pending, k)), k, pid);
      }
    }
  }

  /** Once it has run, a task has left the queue, with its array done if it was told to try and can; or it was told,
      must sleep after all, and waits to be told again, with nothing else changed. */
  ghost predicate HasRun(s: Sem, pid: nat, t: Sem)
    requires Shape(s)
  {
    || (t == s && forall q :: q in s.pending ==> q.pid != pid)
    || (exists q :: q in s.pending && RanAs(s, q, t) && q.pid == pid)
  }

  ghost predicate RanAs(s: Sem, q: Queued, t: Sem)
    requires Shape(s)
  {
    && Fit(s, q)
    && if q.status == TryAgain && Answer(s, q) == MustSleep then
         exists k :: 0 <= k < |s.pending| && s.pending[k] == q &&
                     t == s.(pending := s.pending[k := q.(status := Waiting)])
       else
         && (forall x :: x in t.pending ==> x.pid != q.pid)
         && if q.status == TryAgain && Answer(s, q) == Ok then Done(s, q.pid, q.ops, t) else NotDone(s, t)
  }

  lemma RanOut(s: Sem, k: nat, v: Sem, u: Sem)
    requires Shape(s) && OnePerTask(s) && k < |s.pending| && u == v.(pending := Drop(s.pending, k))
    requires Shape(v) && v.pending == s.pending
    ensures Shape(u) && (AllPlain(s) ==> AllPlain(u)) && forall x :: x in u.pending ==> x.pid != s.pending[k].pid
  {
    DropShape(v, k);
    if AllPlain(s) { DropPlain(v, k); }
    forall i | 0 <= i < |u.pending| ensures u.pending[i].pid != s.pending[k].pid {
      assert u.pending[i] == s.pending[if i < k then i else i + 1];
    }
  }

  lemma RanMeans(s: Sem, k: nat, t: Sem)
    requires Shape(s) && OnePerTask(s) && k < |s.pending| && Fit(s, s.pending[k])
    requires var q := s.pending[k];
             && ValidOps(s, q.pid, q.ops) && !(q.status == TryAgain && Answer(s, q) == MustSleep)
             && var x := Attempt(s, q.pid, q.ops, false).1;
                var u := (if q.status == TryAgain then x else s).(pending := Drop(s.pending, k));
                Shape(u) ==> t == if Alters(q.ops) then UpdateQueue(u) else u
    ensures RanAs(s, s.pending[k], t)
  {
    var q := s.pending[k];
    AttemptShape(s, q.pid, q.ops, false);
    var x := Attempt(s, q.pid, q.ops, false).1;
    var v := if q.status == TryAgain then x else s;
    var u := v.(pending := Drop(s.pending, k));
    RanOut(s, k, v, u);
    UpdateKeepsOut(u, 0, q.pid);
    if q.status == TryAgain && Answer(s, q) == Ok { DoneThen(s, q.pid, q.ops, u, t); } else { NotDoneThen(s, u, t); }
  }

  lemma ResumeMeans(s: Sem, pid: nat)
    requires Shape(s) && OnePerTask(s)
    ensures HasRun(s, pid, Resume(s, pid))
  {
    FindQueuedIff(s.pending, pid);
    var k := FindQueued(s.pending, pid);
    if k >= 0 {
      var q := s.pending[k];
      QueuedFits(s, q);
      AttemptShape(s, pid, q.ops, false);
      if q.status == TryAgain && Answer(s, q) == MustSleep {
        assert RanAs(s, q, Resume(s, pid));
      } else {
        RanMeans(s, k, Resume(s, pid));
      }
    }
  }

  // ---- what semctl and exit leave, among plain arrays

  /** The value is set and every adjustment of it forgotten; the others are as they were. */
  ghost predicate SetsOne(s: Sem, num: nat, v: int, t: Sem) {
    if num >= |s.val| || v < 0 || v > SEMVMX then t == s
    else AllPlain(s) ==>
           && |t.val| == |s.val| && |t.undos| == |s.undos|
           && (forall j :: 0 <= j < |s.val| ==> t.val[j] == if j == num then v else s.val[j])
           && (forall k :: 0 <= k < |s.undos| ==>
                 t.undos[k].pid == s.undos[k].pid && t.undos[k].adj == s.undos[k].adj[num := 0])
  }

  lemma SetValMeans(s: Sem, num: nat, v: int)
    requires Shape(s)
    ensures SetsOne(s, num, v, SetVal(s, num, v))
  {
    if num < |s.val| && 0 <= v <= SEMVMX && AllPlain(s) {
      var t := s.(val := s.val[num := v], undos := ZeroAt(s.undos, num));
      SameUndosShape(s, t);
      UpdateBooks(t);
    }
  }

  ghost predicate SetsAll(s: Sem, vals: seq<nat>, t: Sem) {
    if |vals| != |s.val| || exists i :: 0 <= i < |vals| && vals[i] > SEMVMX then t == s
    else AllPlain(s) ==>
           && |t.val| == |s.val| && |t.undos| == |s.undos|
           && (forall j :: 0 <= j < |s.val| ==> t.val[j] == vals[j])
           && (forall k, j :: 0 <= k < |s.undos| && 0 <= j < |t.undos[k].adj| ==>
                 t.undos[k].pid == s.undos[k].pid && t.undos[k].adj[j] == 0)
  }

  lemma SetAllMeans(s: Sem, vals: seq<nat>)
    requires Shape(s)
    ensures SetsAll(s, vals, SetAll(s, vals))
  {
    if !RefusesAll(s, vals) && AllPlain(s) {
      var t := s.(val := vals, undos := ZeroAll(s.undos));
      SameUndosShape(s, t);
      UpdateBooks(t);
    }
  }

  /** The adjustments of `pid` are applied, but no value falls below 0, and are forgotten; it sleeps no more. */
  ghost predicate Exits(s: Sem, pid: nat, t: Sem)
    requires Shape(s)
  {
    && Shape(t) && (forall q :: q in t.pending ==> q.pid != pid)
    && (AllPlain(s) ==>
          && |t.val| == |s.val| && AdjOf(t, pid) == Zeros(|s.val|)
          && (forall j :: 0 <= j < |s.val| ==>
                var v := s.val[j] + AdjOf(s, pid)[j];
                t.val[j] == if FindUndo(s.undos, pid) >= 0 && v < 0 then 0 else v)
          && (forall p: nat {:trigger AdjOf(t, p)} :: p != pid ==> AdjOf(t, p) == AdjOf(s, p)))
  }

  lemma {:induction false} FindUndoOther(us: seq<Undo>, d: nat, p: nat)
    requires d < |us| && us[d].pid != p
    ensures FindUndo(Drop(us, d), p) == var k := FindUndo(us, p); if k > d then k - 1 else k
  {
    if d == 0 {
      assert Drop(us, 0) == us[1..];
    } else {
      assert Drop(us, d)[0] == us[0] && Drop(us, d)[1..] == Drop(us[1..], d - 1);
      FindUndoOther(us[1..], d - 1, p);
    }
  }

  lemma SettleShapes(s: Sem, pid: nat)
    requires Shape(s)
    ensures var t := Settle(s, pid);
            |t.val| == |s.val| && forall k :: 0 <= k < |t.undos| ==> |t.undos[k].adj| == |t.val|
  {
    var d, t := FindUndo(s.undos, pid), Settle(s, pid);
    assert d >= 0 ==> forall k :: 0 <= k < |t.undos| ==> t.undos[k] == s.undos[if k < d then k else k + 1];
  }

  lemma SettleOwn(s: Sem, pid: nat)
    requires Shape(s) && OnePerTask(s)
    ensures FindUndo(Settle(s, pid).undos, pid) == -1
  {
    var d, t := FindUndo(s.undos, pid), Settle(s, pid);
    FindUndoIff(t.undos, pid);
    if d >= 0 {
      forall k | 0 <= k < |t.undos| ensures t.undos[k].pid != pid {
        assert t.undos[k] == s.undos[if k < d then k else k + 1];
      }
    }
  }

  lemma SettleOther(s: Sem, pid: nat, p: nat)
    requires Shape(s) && p != pid
    ensures var t := Settle(s, pid);
            && (forall k :: 0 <= k < |t.undos| ==> |t.undos[k].adj| == |t.val|) && AdjOf(t, p) == AdjOf(s, p)
  {
    SettleShapes(s, pid);
    var d := FindUndo(s.undos, pid);
    if d >= 0 {
      FindUndoOther(s.undos, d, p);
      var k := FindUndo(s.undos, p);
      assert k >= 0 && k != d ==> Drop(s.undos, d)[if k > d then k - 1 else k] == s.undos[k];
    }
  }

  lemma ExitQueue(s: Sem, pid: nat)
    requires Shape(s) && OnePerTask(s)
    ensures Shape(Exit(s, pid)) && forall q :: q in Exit(s, pid).pending ==> q.pid != pid
  {
    UnqueueShape(s, pid);
    DepartedShape(s, pid);
    UpdateKeepsOut(Departed(s, pid), 0, pid);
    UpdateLogs(Departed(s, pid), 0);
  }

  /** Values and adjustments are those `Settle` leaves. */
  lemma ExitBooks(s: Sem, pid: nat)
    requires AllPlain(s) && OnePerTask(s)
    ensures Exit(s, pid).val == Settle(s, pid).val && Exit(s, pid).undos == Settle(s, pid).undos
  {
    DepartedShape(s, pid);
    var k := FindQueued(s.pending, pid);
    if k >= 0 { DropPlain(s, k); }
    PlainKept(Unqueue(s, pid), Departed(s, pid));
    UpdateBooks(Departed(s, pid));
  }

  lemma ExitMeans(s: Sem, pid: nat)
    requires Shape(s) && OnePerTask(s)
    ensures Exits(s, pid, Exit(s, pid))
  {
    ExitQueue(s, pid);
    if AllPlain(s) {
      ExitBooks(s, pid);
      SettleShapes(s, pid);
      SettleOwn(s, pid);
      SettledExits(s, pid, Exit(s, pid));
    }
  }

  lemma SettledExits(s: Sem, pid: nat, t: Sem)
    requires Shape(s) && Shape(t) && t.val == Settle(s, pid).val && t.undos == Settle(s, pid).undos
    requires FindUndo(t.undos, pid) == -1 && |t.val| == |s.val| && forall q :: q in t.pending ==> q.pid != pid
    ensures Exits(s, pid, t)
  {
    forall p: nat | p != pid ensures AdjOf(t, p) == AdjOf(s, p) { SettleOther(s, pid, p); }
  }
}
