/** The upper limit of semaphore values over whole runs (ipc/sem.c:243-343, 562-652, 1037-1046). */
module SemCaps {
  import opened Lists
  import opened SemLedger
  import opened SemLive

  predicate Capped(s: Sem) {
    forall j :: 0 <= j < |s.val| ==> s.val[j] <= SEMVMX
  }

  lemma AttemptCapped(s: Sem, pid: nat, ops: seq<SemOp>, doUndo: bool)
    requires Inv(s) && Capped(s) && ValidOps(s, pid, ops)
    ensures Capped(Attempt(s, pid, ops, doUndo).1)
  {
    var (code, t) := Attempt(s, pid, ops, doUndo);
    forall j | 0 <= j < |s.val| && code == Ok ensures s.val[j] + Net(ops, j) <= SEMVMX {
      assert ops[..|ops|] == ops;
      LegalStaysInRange(s.val, AdjOf(s, pid), ops, |ops|, j);
    }
  }

  lemma {:induction false} UpdateCapped(s: Sem, k: nat)
    requires Inv(s) && Capped(s) && k <= |s.pending|
    ensures Capped(UpdateFrom(s, k))
    decreases |s.pending| - k
  {
    if k < |s.pending| {
      var q := s.pending[k];
      AttemptInv(s, q.pid, q.ops, q.alter);
      AttemptShape(s, q.pid, q.ops, q.alter);
      AttemptCapped(s, q.pid, q.ops, q.alter);
      var (code, t) := Attempt(s, q.pid, q.ops, q.alter);
      if q.status == TryAgain || code == MustSleep {
        UpdateCapped(s, k + 1);
      } else if code != Ok || !q.alter {
        DropQueuedInv(t, k);
        UpdateCapped(t.(pending := Drop(s.pending, k)), k);
      }
    }
  }

  lemma SemopCapped(s: Sem, pid: nat, ops: seq<SemOp>)
    requires Inv(s) && Capped(s)
    ensures Capped(Semop(s, pid, ops).1)
  {
    if 1 <= |ops| <= SEMOPM && InRange(ops, |s.val|) {
      WithUndoShape(s, pid, ops);
      WithUndoKeeps(s, pid, ops, 0);
      var u := WithUndo(s, pid, ops);
      AttemptInv(u, pid, ops, false);
      AttemptCapped(u, pid, ops, false);
      UpdateCapped(Attempt(u, pid, ops, false).1, 0);
    }
  }

  lemma ResumeCapped(s: Sem, pid: nat)
    requires Inv(s) && Capped(s)
    ensures Capped(Resume(s, pid))
  {
    var k := FindQueued(s.pending, pid);
    if k >= 0 {
      var q := s.pending[k];
      AttemptShape(s, pid, q.ops, false);
      AttemptInv(s, pid, q.ops, false);
      AttemptCapped(s, pid, q.ops, false);
      var v := if q.status == TryAgain then Attempt(s, pid, q.ops, false).1 else s;
      DropQueuedInv(v, k);
      UpdateCapped(v.(pending := Drop(s.pending, k)), 0);
    }
  }

  /** The adjustments of `pid` take no value above SEMVMX; sem_exit does not look. */
  predicate NoOverflow(s: Sem, pid: nat)
    requires Shape(s)
  {
    forall j :: 0 <= j < |s.val| ==> s.val[j] + AdjOf(s, pid)[j] <= SEMVMX
  }

  lemma DepartedCapped(s: Sem, pid: nat)
    requires Inv(s) && Capped(s)
    ensures Inv(Departed(s, pid)) && (Capped(Departed(s, pid)) <==> NoOverflow(s, pid))
  {
    DepartedKeeps(s, pid, 0);
    DepartedValues(s, pid);
    ValuesCapped(s.val, AdjOf(s, pid));
  }

  lemma DepartedValues(s: Sem, pid: nat)
    requires Shape(s) && forall j :: 0 <= j < |s.val| ==> s.val[j] >= 0
    ensures Departed(s, pid).val == ExitValues(s.val, AdjOf(s, pid))
  {
    if FindUndo(s.undos, pid) == -1 { assert ExitValues(s.val, Zeros(|s.val|)) == s.val; }
  }

  lemma ValuesCapped(val: seq<int>, adj: seq<int>)
    requires |adj| == |val|
    ensures (forall j :: 0 <= j < |val| ==> ExitValues(val, adj)[j] <= SEMVMX) <==>
            (forall j :: 0 <= j < |val| ==> val[j] + adj[j] <= SEMVMX)
  {
    assert forall j :: 0 <= j < |val| ==> ExitValues(val, adj)[j] == Max0(val[j] + adj[j]);
  }

  lemma DropSub(qs: seq<Queued>, k: nat)
    requires k < |qs|
    ensures forall q :: q in Drop(qs, k) ==> q in qs
  {
  }

  /** update_queue lowers no value by itself. */
  lemma {:induction false} UpdateRaises(s: Sem, k: nat, j: nat)
    requires Inv(s) && k <= |s.pending| && j < |s.val| && forall q :: q in s.pending ==> q.alter == Decreases(q.ops)
    ensures |UpdateFrom(s, k).val| == |s.val| && UpdateFrom(s, k).val[j] >= s.val[j]
    decreases |s.pending| - k
  {
    if k < |s.pending| {
      var q := s.pending[k];
      AttemptInv(s, q.pid, q.ops, q.alter);
      AttemptShape(s, q.pid, q.ops, q.alter);
      var (code, t) := Attempt(s, q.pid, q.ops, q.alter);
      if q.status == TryAgain || code == MustSleep {
        UpdateRaises(s, k + 1, j);
      } else if code != Ok || !q.alter {
        AttemptRaises(s, q, j);
        DropQueuedInv(t, k);
        DropSub(s.pending, k);
        UpdateRaises(t.(pending := Drop(s.pending, k)), k, j);
      }
    }
  }

  lemma AttemptRaises(s: Sem, q: Queued, j: nat)
    requires Shape(s) && ValidOps(s, q.pid, q.ops) && j < |s.val| && (!q.alter ==> !Decreases(q.ops))
    ensures var t := Attempt(s, q.pid, q.ops, q.alter).1; |t.val| == |s.val| && t.val[j] >= s.val[j]
  {
    if !q.alter { NetRaises(q.ops, j); }
  }

  lemma DepartedSub(s: Sem, pid: nat)
    requires Shape(s)
    ensures forall q :: q in Departed(s, pid).pending ==> q in s.pending
  {
    var k := FindQueued(s.pending, pid);
    if k >= 0 { DropSub(s.pending, k); }
  }

  /** Exit keeps every value within SEMVMX exactly if the adjustments do. */
  lemma ExitCapped(s: Sem, pid: nat)
    requires Inv(s) && Capped(s) && forall q :: q in s.pending ==> q.alter == Decreases(q.ops)
    ensures Capped(Exit(s, pid)) <==> NoOverflow(s, pid)
  {
    DepartedCapped(s, pid);
    var d := Departed(s, pid);
    if Capped(d) {
      UpdateCapped(d, 0);
    } else {
      var j :| 0 <= j < |d.val| && d.val[j] > SEMVMX;
      DepartedSub(s, pid);
      UpdateRaises(d, 0, j);
    }
  }

  lemma StepCapped(s: Sem, e: Event, t: Sem)
    requires Inv(s) && Capped(s) && Next(s, e, t) && (e.DoExit? ==> NoOverflow(s, e.pid))
    ensures Capped(t)
  {
    match e {
      case DoExit(pid) =>
        DepartedCapped(s, pid);
        UpdateCapped(Departed(s, pid), 0);
      case DoSemop(pid, ops) => SemopCapped(s, pid, ops);
      case DoResume(pid) => ResumeCapped(s, pid);
      case DoSetVal(num, v) =>
        if num < |s.val| && 0 <= v <= SEMVMX {
          var u := s.(val := s.val[num := v], undos := ZeroAt(s.undos, num));
          ClearedInv(s, u);
          UpdateCapped(u, 0);
        }
      case DoSetAll(vals) =>
        if !RefusesAll(s, vals) {
          var u := s.(val := vals, undos := ZeroAll(s.undos));
          ClearedInv(s, u);
          UpdateCapped(u, 0);
        }
    }
  }

  /** No value is above SEMVMX in any state of a run, as long as no exit takes it there. */
  lemma {:induction false} RunCapped(states: seq<Sem>, events: seq<Event>, i: nat)
    requires Run(states, events) && Capped(states[0]) && i < |states|
    requires forall k :: 0 <= k < i && events[k].DoExit? ==> Shape(states[k]) && NoOverflow(states[k], events[k].pid)
    ensures Inv(states[i]) && Capped(states[i])
  {
    if i > 0 {
      RunCapped(states, events, i - 1);
      assert Next(states[i - 1], events[i - 1], states[i]);
      StepKeeps(states[i - 1], events[i - 1], states[i], 0);
      StepCapped(states[i - 1], events[i - 1], states[i]);
    }
  }

  // ---- an exit that does take it there

  const BORROW := [SemOp(0, -1, true, false)]
  const ADD := [SemOp(0, 1, false, false)]

  const FULL := Sem([SEMVMX], [], [], [])
  const BORROWED := Sem([SEMVMX - 1], [Undo(1, [1])], [], [BORROW])
  const REFILLED := Sem([SEMVMX], [Undo(1, [1])], [], [BORROW, ADD])
  const OVERFULL := Sem([SEMVMX + 1], [], [], [BORROW, ADD])

  lemma BorrowStep()
    ensures Next(FULL, DoSemop(1, BORROW), BORROWED)
  {
    var u := WithUndo(FULL, 1, BORROW);
    assert BORROW[0].undo && BORROW[0].op != 0 && BORROW[..0] == [];
    assert Zeros(1) == [0];
    assert u == Sem([SEMVMX], [Undo(1, [0])], [], []);
    assert JudgeAt([SEMVMX], [0], BORROW, 0) == Ok && Verdict([SEMVMX], [0], BORROW, 0) == Ok;
    assert Added([SEMVMX], BORROW) == [SEMVMX - 1] && Adjusted([0], BORROW) == [1];
    assert u.undos[0 := Undo(1, [1])] == BORROWED.undos && u.log + [BORROW] == BORROWED.log;
    assert Attempt(u, 1, BORROW, false) == (Ok, BORROWED);
  }

  lemma RefillStep()
    ensures Next(BORROWED, DoSemop(2, ADD), REFILLED)
  {
    FindUndoIff(BORROWED.undos, 2);
    assert WithUndo(BORROWED, 2, ADD) == BORROWED;
    assert ADD[0].op != 0 && ADD[..0] == [];
    assert JudgeAt([SEMVMX - 1], Zeros(1), ADD, 0) == Ok && Verdict([SEMVMX - 1], Zeros(1), ADD, 0) == Ok;
    assert Added([SEMVMX - 1], ADD) == [SEMVMX];
    assert BORROWED.log + [ADD] == REFILLED.log;
    assert Attempt(BORROWED, 2, ADD, false) == (Ok, REFILLED);
  }

  lemma OverfullStep()
    ensures Next(REFILLED, DoExit(1), OVERFULL)
  {
    assert FindUndo(REFILLED.undos, 1) == 0 && ExitValues([SEMVMX], [1]) == [SEMVMX + 1];
    assert Departed(REFILLED, 1) == OVERFULL;
  }

  /** One process takes from a full semaphore with SEM_UNDO, another fills it up again, the first exits. */
  lemma OverfullExample()
    ensures Run([FULL, BORROWED, REFILLED, OVERFULL], [DoSemop(1, BORROW), DoSemop(2, ADD), DoExit(1)])
    ensures Capped(REFILLED) && !Capped(OVERFULL)
  {
    BorrowStep();
    RefillStep();
    OverfullStep();
    FullInv();
    ThreeSteps(FULL, DoSemop(1, BORROW), BORROWED, DoSemop(2, ADD), REFILLED, DoExit(1), OVERFULL);
    AboveCap();
  }

  lemma FullInv()
    ensures Inv(FULL)
  {
  }

  lemma AboveCap()
    ensures Capped(REFILLED) && !Capped(OVERFULL)
  {
    assert OVERFULL.val[0] > SEMVMX;
  }
}
