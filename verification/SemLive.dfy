/** Which sleepers update_queue wakes, and that no wake-up is lost over whole runs (ipc/sem.c:317-343, 840-978,
    992-1055). */
module SemLive {
  import opened Lists
  import opened SemLedger

  // ---- who could go on

  predicate Fit(s: Sem, q: Queued) {
    (forall k :: 0 <= k < |s.undos| ==> |s.undos[k].adj| == |s.val|) && InRange(q.ops, |s.val|)
  }

  /** What the array of `q` would be told now. */
  function Answer(s: Sem, q: Queued): Code
    requires Fit(s, q)
  {
    Verdict(s.val, AdjOf(s, q.pid), q.ops, 0)
  }

  /** A sleeper that has not been woken, but need not sleep. */
  predicate Ready(s: Sem, q: Queued)
    requires Fit(s, q)
  {
    q.status == Waiting && Answer(s, q) != MustSleep
  }

  /** ... and that is told to try by itself. */
  predicate Tells(s: Sem, q: Queued)
    requires Fit(s, q)
  {
    q.status == Waiting && Answer(s, q) == Ok && q.alter
  }

  /** An array that lowers no value changes none: it only waits for zeros. */
  predicate Plain(q: Queued) {
    q.alter == Decreases(q.ops) && (q.alter || !Alters(q.ops)) && (q.status == TryAgain ==> q.alter)
  }

  predicate AllPlain(s: Sem) {
    Shape(s) && forall q :: q in s.pending ==> Plain(q)
  }

  lemma QueuedFits(s: Sem, q: Queued)
    requires Shape(s) && q in s.pending
    ensures Fit(s, q) && ValidOps(s, q.pid, q.ops)
  {
    var k :| 0 <= k < |s.pending| && s.pending[k] == q;
    assert ValidOps(s, s.pending[k].pid, s.pending[k].ops);
  }

  // ---- one pass through the queue

  /** Of the first `m` sleepers those that stay, in order. */
  function Stay(s: Sem, m: nat): (r: seq<Queued>)
    requires Shape(s) && m <= |s.pending|
    ensures forall q :: q in r ==> q in s.pending
  {
    if m == 0 then []
    else
      QueuedFits(s, s.pending[m - 1]);
      Stay(s, m - 1) + if Ready(s, s.pending[m - 1]) then [] else [s.pending[m - 1]]
  }

  /** Of the first `m` the arrays that are done on behalf of their sleepers. */
  function Finished(s: Sem, m: nat): seq<seq<SemOp>>
    requires Shape(s) && m <= |s.pending|
  {
    if m == 0 then []
    else
      QueuedFits(s, s.pending[m - 1]);
      var q := s.pending[m - 1];
      Finished(s, m - 1) + if q.status == Waiting && Answer(s, q) == Ok then [q.ops] else []
  }

  /** The first `t` are not told to try, and the next one is, if there is one. */
  predicate FirstTold(s: Sem, t: nat)
    requires Shape(s)
  {
    && t <= |s.pending|
    && (forall i :: 0 <= i < t ==> Fit(s, s.pending[i]) && !Tells(s, s.pending[i]))
    && (t < |s.pending| ==> Fit(s, s.pending[t]) && Tells(s, s.pending[t]))
  }

  /** The set after the pass: sleepers before `t` that need not sleep are gone, `t` is told to try, those behind it
      have not been looked at, and no value has changed. */
  function Passed(s: Sem, t: nat): Sem
    requires Shape(s) && t <= |s.pending|
  {
    s.(pending := Stay(s, t) + if t == |s.pending| then []
                               else [s.pending[t].(status := TryAgain)] + s.pending[t + 1..],
       log := s.log + Finished(s, t))
  }

  function At(s: Sem, m: nat): Sem
    requires Shape(s) && m <= |s.pending|
  {
    s.(pending := Stay(s, m) + s.pending[m..], log := s.log + Finished(s, m))
  }

  lemma AtShape(s: Sem, m: nat)
    requires Shape(s) && m <= |s.pending|
    ensures Shape(At(s, m))
  {
    var t := At(s, m);
    forall k | 0 <= k < |t.pending| ensures ValidOps(t, t.pending[k].pid, t.pending[k].ops) {
      assert t.pending[k] in Stay(s, m) || t.pending[k] in s.pending[m..];
      QueuedFits(s, t.pending[k]);
    }
  }

  // ---- arrays that only wait for zeros

  lemma {:induction false} ZeroNet(ops: seq<SemOp>, j: nat)
    requires !Alters(ops)
    ensures Net(ops, j) == 0 && NetUndo(ops, j) == 0
  {
    if ops != [] {
      assert ops[|ops| - 1].op == 0;
      assert forall i :: 0 <= i < |ops| - 1 ==> ops[..|ops| - 1][i] == ops[i];
      ZeroNet(ops[..|ops| - 1], j);
    }
  }

  lemma PlainAttempt(s: Sem, pid: nat, ops: seq<SemOp>)
    requires Shape(s) && ValidOps(s, pid, ops) && !Alters(ops)
    ensures var (code, t) := Attempt(s, pid, ops, false);
            t == s.(log := s.log + if code == Ok then [ops] else [])
  {
    forall j ensures Net(ops, j) == 0 && NetUndo(ops, j) == 0 { ZeroNet(ops, j); }
    var k := FindUndo(s.undos, pid);
    assert Added(s.val, ops) == s.val;
    if k >= 0 {
      assert Adjusted(s.undos[k].adj, ops) == s.undos[k].adj;
      assert s.undos[k := s.undos[k]] == s.undos;
    }
    assert s.log + [] == s.log;
  }

  /** The sleeper looked at next. */
  lemma AtHere(s: Sem, m: nat)
    requires Shape(s) && m < |s.pending|
    ensures var c, k, q := At(s, m), |Stay(s, m)|, s.pending[m];
            && Shape(c) && Shape(At(s, m + 1)) && c.pending[k] == q && Fit(s, q) && Fit(c, q)
            && ValidOps(c, q.pid, q.ops) && Answer(c, q) == Answer(s, q)
  {
    AtShape(s, m);
    AtShape(s, m + 1);
    QueuedFits(s, s.pending[m]);
    assert At(s, m).pending[|Stay(s, m)|] in At(s, m).pending;
    QueuedFits(At(s, m), s.pending[m]);
  }

  lemma PassAsleep(s: Sem, m: nat)
    requires Shape(s) && m < |s.pending| && Fit(s, s.pending[m]) && !Ready(s, s.pending[m])
    ensures At(s, m + 1) == At(s, m) && |Stay(s, m + 1)| == |Stay(s, m)| + 1
  {
    assert [s.pending[m]] + s.pending[m + 1..] == s.pending[m..];
    assert Stay(s, m + 1) + s.pending[m + 1..] == Stay(s, m) + ([s.pending[m]] + s.pending[m + 1..]);
    assert Finished(s, m + 1) == Finished(s, m);
  }

  lemma PassReady(s: Sem, m: nat, c: Sem, k: nat, q: Queued)
    requires Shape(s) && m < |s.pending| && q == s.pending[m] && Fit(s, q) && Ready(s, q) && !Tells(s, q) && Plain(q)
    requires c == At(s, m) && Shape(c) && k == |Stay(s, m)| && ValidOps(c, q.pid, q.ops) && c.pending[k] == q
    requires Fit(c, q) && Answer(c, q) == Answer(s, q)
    ensures |Stay(s, m + 1)| == k
    ensures Attempt(c, q.pid, q.ops, q.alter).1.(pending := Drop(c.pending, k)) == At(s, m + 1)
  {
    if !q.alter { PlainAttempt(c, q.pid, q.ops); }
    assert Drop(c.pending, k) == Stay(s, m) + s.pending[m + 1..];
    assert Stay(s, m + 1) == Stay(s, m);
    assert c.log + (if Answer(s, q) == Ok then [q.ops] else []) == s.log + Finished(s, m + 1);
    assert s.log + Finished(s, m) + [] == s.log + Finished(s, m);
  }

  /** One more sleeper is passed. */
  lemma PassOne(s: Sem, m: nat)
    requires Shape(s) && m < |s.pending| && Plain(s.pending[m]) && Fit(s, s.pending[m]) && !Tells(s, s.pending[m])
    ensures Shape(At(s, m)) && Shape(At(s, m + 1))
    ensures UpdateFrom(At(s, m), |Stay(s, m)|) == UpdateFrom(At(s, m + 1), |Stay(s, m + 1)|)
  {
    AtHere(s, m);
    if Ready(s, s.pending[m]) {
      PassReady(s, m, At(s, m), |Stay(s, m)|, s.pending[m]);
    } else {
      PassAsleep(s, m);
    }
  }

  lemma PassEnds(s: Sem, t: nat)
    requires Shape(s) && FirstTold(s, t)
    ensures Shape(At(s, t)) && UpdateFrom(At(s, t), |Stay(s, t)|) == Passed(s, t)
  {
    AtShape(s, t);
    var c, k := At(s, t), |Stay(s, t)|;
    if t == |s.pending| {
      assert s.pending[t..] == [];
    } else {
      AtHere(s, t);
      assert c.pending[k := c.pending[k].(status := TryAgain)]
          == Stay(s, t) + ([s.pending[t].(status := TryAgain)] + s.pending[t + 1..]);
    }
  }

  /** What the rest of the pass makes of the set, with the first `m` passed. */
  ghost predicate Leads(s: Sem, m: nat, r: Sem)
    requires Shape(s)
  {
    m <= |s.pending| && Shape(At(s, m)) && UpdateFrom(At(s, m), |Stay(s, m)|) == r
  }

  lemma PassBack(s: Sem, m: nat, r: Sem)
    requires AllPlain(s) && m < |s.pending| && Fit(s, s.pending[m]) && !Tells(s, s.pending[m]) && Leads(s, m + 1, r)
    ensures Leads(s, m, r)
  {
    assert s.pending[m] in s.pending;
    PassOne(s, m);
  }

  lemma {:induction false} Downward(p: nat -> bool, t: nat)
    requires p(t) && forall m: nat, n: nat {:trigger p(m), p(n)} :: n == m + 1 && n <= t && p(n) ==> p(m)
    ensures p(0)
  {
    if t > 0 { Downward(p, t - 1); }
  }

  lemma PassDown(s: Sem, t: nat, r: Sem)
    requires AllPlain(s) && FirstTold(s, t) && Leads(s, t, r)
    ensures Leads(s, 0, r)
  {
    var p := (m: nat) => Leads(s, m, r);
    forall m: nat, n: nat | n == m + 1 && n <= t && p(n) ensures p(m) { PassBack(s, m, r); }
    Downward(p, t);
  }

  lemma {:induction false} FindTold(s: Sem, m: nat) returns (t: nat)
    requires Shape(s) && m <= |s.pending|
    requires forall i :: 0 <= i < m ==> Fit(s, s.pending[i]) && !Tells(s, s.pending[i])
    ensures FirstTold(s, t)
    decreases |s.pending| - m
  {
    if m == |s.pending| {
      t := m;
    } else {
      QueuedFits(s, s.pending[m]);
      if Tells(s, s.pending[m]) { t := m; } else { t := FindTold(s, m + 1); }
    }
  }

  lemma AtStart(s: Sem)
    requires Shape(s)
    ensures At(s, 0) == s && |Stay(s, 0)| == 0
  {
    assert [] + s.pending[0..] == s.pending && s.log + [] == s.log;
  }

  lemma LeadsAll(s: Sem, r: Sem)
    requires Shape(s) && Leads(s, 0, r)
    ensures UpdateQueue(s) == r
  {
    AtStart(s);
  }

  /** update_queue among plain arrays: it goes up to the first sleeper that can be told to try by itself. */
  lemma UpdateExactly(s: Sem)
    requires AllPlain(s)
    ensures exists t: nat :: FirstTold(s, t) && UpdateQueue(s) == Passed(s, t)
  {
    var t := FindTold(s, 0);
    var r := Passed(s, t);
    PassEnds(s, t);
    PassDown(s, t, r);
    LeadsAll(s, r);
  }

  // ---- no sleeper is forgotten

  /** Nobody who has not been woken could go on. */
  predicate Quiet(s: Sem) {
    forall q :: q in s.pending ==> Fit(s, q) && !Ready(s, q)
  }

  predicate CanTry(s: Sem, q: Queued) {
    Fit(s, q) && q.status == TryAgain && Answer(s, q) != MustSleep
  }

  /** Someone who was told to try can go on. */
  predicate Signalled(s: Sem) {
    exists q :: q in s.pending && CanTry(s, q)
  }

  /** Whenever a sleeper could go on, one that can has been told. */
  predicate Live(s: Sem) {
    AllPlain(s) && (Quiet(s) || Signalled(s))
  }

  lemma {:induction false} StayAsleep(s: Sem, m: nat)
    requires Shape(s) && m <= |s.pending|
    ensures forall q :: q in Stay(s, m) ==> Fit(s, q) && !Ready(s, q)
  {
    if m > 0 {
      StayAsleep(s, m - 1);
      QueuedFits(s, s.pending[m - 1]);
    }
  }

  lemma PassedPlain(s: Sem, t: nat)
    requires AllPlain(s) && FirstTold(s, t)
    ensures AllPlain(Passed(s, t))
  {
    var r := Passed(s, t);
    forall q | q in r.pending ensures Plain(q) && ValidOps(r, q.pid, q.ops) {
      if q !in s.pending {
        QueuedFits(s, s.pending[t]);
      } else {
        QueuedFits(s, q);
      }
    }
  }

  lemma PassedLive(s: Sem, t: nat, r: Sem)
    requires AllPlain(s) && FirstTold(s, t) && r == Passed(s, t) && AllPlain(r)
    ensures Live(r)
  {
    if t == |s.pending| {
      StayAsleep(s, t);
      assert r.pending == Stay(s, t);
      forall q | q in r.pending ensures Fit(r, q) && !Ready(r, q) { SameAnswer(s, r, q); }
    } else {
      var q := s.pending[t].(status := TryAgain);
      assert r.pending[|Stay(s, t)|] == q;
      SameAnswer(s, r, s.pending[t]);
      assert CanTry(r, q);
    }
  }

  lemma UpdateLive(s: Sem)
    requires AllPlain(s)
    ensures Live(UpdateQueue(s))
  {
    UpdateExactly(s);
    var t: nat :| FirstTold(s, t) && UpdateQueue(s) == Passed(s, t);
    PassedPlain(s, t);
    PassedLive(s, t, Passed(s, t));
  }

  /** A set with the same values and adjustments. */
  ghost predicate SameBooks(s: Sem, t: Sem) {
    && Shape(s) && Shape(t) && t.val == s.val && forall p: nat :: AdjOf(t, p) == AdjOf(s, p)
  }

  lemma SameAnswer(s: Sem, t: Sem, q: Queued)
    requires SameBooks(s, t) && Fit(s, q)
    ensures Fit(t, q) && Answer(t, q) == Answer(s, q)
  {
  }

  /** The sleepers of `t` are those of `s`, but for some that must sleep, and without some that were not told. */
  lemma SameLive(s: Sem, t: Sem)
    requires Live(s) && SameBooks(s, t) && AllPlain(t)
    requires forall q :: q in t.pending && q !in s.pending ==> q.status == Waiting && Fit(s, q) && !Ready(s, q)
    requires forall q :: q in s.pending && q !in t.pending ==> !CanTry(s, q)
    ensures Live(t)
  {
    if Quiet(s) {
      forall q | q in t.pending ensures Fit(t, q) && !Ready(t, q) { SameAnswer(s, t, q); }
    } else {
      var q :| q in s.pending && CanTry(s, q);
      SameAnswer(s, t, q);
      assert CanTry(t, q);
    }
  }

  /** Another sleeper that must sleep, first or last. */
  lemma QueueLive(s: Sem, q: Queued, front: bool)
    requires Live(s) && ValidOps(s, q.pid, q.ops) && Plain(q) && Fit(s, q) && Answer(s, q) == MustSleep
    requires q.status == Waiting
    ensures Live(s.(pending := if front then [q] + s.pending else s.pending + [q]))
  {
    var t := s.(pending := if front then [q] + s.pending else s.pending + [q]);
    SameLive(s, t);
  }

  lemma DropPlain(s: Sem, k: nat)
    requires AllPlain(s) && k < |s.pending|
    ensures AllPlain(s.(pending := Drop(s.pending, k)))
  {
    var t := s.(pending := Drop(s.pending, k));
    DropShape(s, k);
    assert forall i :: 0 <= i < |t.pending| ==> t.pending[i] == s.pending[if i < k then i else i + 1];
  }

  /** Sleeper `k` leaves; it was not one that was told and can go on. */
  lemma LeaveLive(s: Sem, k: nat)
    requires Live(s) && k < |s.pending| && s.pending[k].status == Waiting
    ensures Live(s.(pending := Drop(s.pending, k)))
  {
    var t := s.(pending := Drop(s.pending, k));
    DropPlain(s, k);
    forall q | q in t.pending ensures q in s.pending {
      var i :| 0 <= i < |t.pending| && t.pending[i] == q;
      assert q == s.pending[if i < k then i else i + 1];
    }
    forall i | 0 <= i < |s.pending| && i != k ensures s.pending[i] in t.pending {
      assert t.pending[if i < k then i else i - 1] == s.pending[i];
    }
    SameLive(s, t);
  }

  /** One that was told, and has to sleep after all, waits again. */
  lemma AgainLive(s: Sem, k: nat)
    requires Live(s) && k < |s.pending| && Fit(s, s.pending[k]) && Answer(s, s.pending[k]) == MustSleep
    ensures Live(s.(pending := s.pending[k := s.pending[k].(status := Waiting)]))
  {
    var q := s.pending[k].(status := Waiting);
    var t := s.(pending := s.pending[k := q]);
    QueuedFits(s, s.pending[k]);
    forall x | x in t.pending ensures x == q || x in s.pending {}
    forall i | 0 <= i < |s.pending| && i != k ensures s.pending[i] in t.pending {
      assert t.pending[i] == s.pending[i];
    }
    SameLive(s, t);
  }

  // ---- the operations

  predicate PlainOps(ops: seq<SemOp>) {
    Decreases(ops) || !Alters(ops)
  }

  lemma WithUndoBooks(s: Sem, pid: nat, ops: seq<SemOp>)
    requires Shape(s) && InRange(ops, |s.val|)
    ensures SameBooks(s, WithUndo(s, pid, ops))
  {
    var t := WithUndo(s, pid, ops);
    WithUndoShape(s, pid, ops);
    forall p: nat ensures AdjOf(t, p) == AdjOf(s, p) {
      if t != s { assert t.undos[1..] == s.undos; }
    }
  }

  lemma PlainKept(s: Sem, t: Sem)
    requires AllPlain(s) && Shape(t) && t.pending == s.pending
    ensures AllPlain(t)
  {
  }

  /** semop of an array that lowers a value or only waits for zeros. */
  lemma SemopLive(s: Sem, pid: nat, ops: seq<SemOp>)
    requires Live(s) && PlainOps(ops)
    ensures Live(Semop(s, pid, ops).1)
  {
    if 1 <= |ops| <= SEMOPM && InRange(ops, |s.val|) {
      WithUndoShape(s, pid, ops);
      WithUndoBooks(s, pid, ops);
      var u := WithUndo(s, pid, ops);
      SameLive(s, u);
      AttemptShape(u, pid, ops, false);
      var (code, t) := Attempt(u, pid, ops, false);
      if code == MustSleep {
        QueueLive(u, Queued(pid, ops, Decreases(ops), Waiting), !Alters(ops));
      } else if Alters(ops) {
        UpdateLive(t);
      } else {
        PlainAttempt(u, pid, ops);
        SameLive(u, t);
      }
    }
  }

  lemma ResumeLive(s: Sem, pid: nat)
    requires Live(s)
    ensures Live(Resume(s, pid))
  {
    var k := FindQueued(s.pending, pid);
    if k >= 0 {
      var q := s.pending[k];
      QueuedFits(s, q);
      AttemptShape(s, pid, q.ops, false);
      var (code, t) := Attempt(s, pid, q.ops, false);
      if q.status == TryAgain && code == MustSleep {
        AgainLive(s, k);
      } else if q.status == TryAgain {
        assert Plain(q) && Decreases(q.ops);
        DropPlain(t, k);
        UpdateLive(t.(pending := Drop(s.pending, k)));
      } else {
        DropPlain(s, k);
        LeaveLive(s, k);
        if Alters(q.ops) { UpdateLive(s.(pending := Drop(s.pending, k))); }
      }
    }
  }

  lemma ExitLive(s: Sem, pid: nat)
    requires Live(s) && OnePerTask(s) && (Queues(s, pid) ==> FindUndo(s.undos, pid) >= 0)
    ensures Live(Exit(s, pid))
  {
    DepartedShape(s, pid);
    if FindUndo(s.undos, pid) >= 0 {
      var k := FindQueued(s.pending, pid);
      if k >= 0 { DropPlain(s, k); }
      PlainKept(Unqueue(s, pid), Departed(s, pid));
      UpdateLive(Departed(s, pid));
    }
  }

  lemma SetValLive(s: Sem, num: nat, v: int)
    requires Live(s)
    ensures Live(SetVal(s, num, v))
  {
    if num < |s.val| && 0 <= v <= SEMVMX {
      var t := s.(val := s.val[num := v], undos := ZeroAt(s.undos, num));
      SameUndosShape(s, t);
      UpdateLive(t);
    }
  }

  lemma SetAllLive(s: Sem, vals: seq<nat>)
    requires Live(s)
    ensures Live(SetAll(s, vals))
  {
    if !RefusesAll(s, vals) {
      var t := s.(val := vals, undos := ZeroAll(s.undos));
      SameUndosShape(s, t);
      UpdateLive(t);
    }
  }

  // ---- runs

  /** Arrays lower a value or only wait for zeros, and a task that dies asleep has adjustments to apply. */
  predicate Mild(s: Sem, e: Event) {
    match e
    case DoSemop(_, ops) => PlainOps(ops)
    case DoExit(pid) => Queues(s, pid) ==> FindUndo(s.undos, pid) >= 0
    case _ => true
  }

  lemma StepLive(s: Sem, e: Event, t: Sem)
    requires Live(s) && Next(s, e, t) && Mild(s, e)
    ensures Live(t)
  {
    match e {
      case DoSemop(pid, ops) => SemopLive(s, pid, ops);
      case DoResume(pid) => ResumeLive(s, pid);
      case DoExit(pid) => ExitLive(s, pid);
      case DoSetVal(num, v) => SetValLive(s, num, v);
      case DoSetAll(vals) => SetAllLive(s, vals);
    }
  }

  /** No wake-up is lost: in every state of a run, if some sleeper could go on, one that can has been told. */
  lemma {:induction false} RunLive(states: seq<Sem>, events: seq<Event>, i: nat)
    requires Run(states, events) && Live(states[0]) && i < |states|
    requires forall k :: 0 <= k < i ==> Mild(states[k], events[k])
    ensures Live(states[i])
  {
    if i > 0 {
      RunLive(states, events, i - 1);
      assert Next(states[i - 1], events[i - 1], states[i]) && Mild(states[i - 1], events[i - 1]);
      StepLive(states[i - 1], events[i - 1], states[i]);
    }
  }

  // ---- a wake-up that is lost

  // sleeps until semaphore 1 can be taken; sleeps until semaphore 0 is zero, and then releases semaphore 1
  const TAKER := [SemOp(1, -1, false, false)]
  const RAISER := [SemOp(0, 0, false, false), SemOp(1, 1, false, false)]

  const FIRST := Sem([1, 0], [], [], [])
  const TAKES := Queued(1, TAKER, true, Waiting)
  const RAISES := Queued(2, RAISER, false, Waiting)
  const ASLEEP := Sem([1, 0], [], [TAKES], [])
  const BOTH := Sem([1, 0], [], [TAKES, RAISES], [])
  const ZEROED := Sem([0, 0], [], [TAKES, RAISES], [])
  const LOST := Sem([0, 1], [], [TAKES], [RAISER])

  lemma TakerSleeps(v: seq<int>)
    requires |v| == 2 && v[1] == 0
    ensures Verdict(v, Zeros(2), TAKER, 0) == MustSleep
  {
    assert TAKER[..0] == [];
    assert JudgeAt(v, Zeros(2), TAKER, 0) == MustSleep;
  }

  lemma RaiserAnswers(v: seq<int>)
    requires v == [1, 0] || v == [0, 0]
    ensures Verdict(v, Zeros(2), RAISER, 0) == if v[0] == 1 then MustSleep else Ok
    ensures v[0] == 0 ==> Added(v, RAISER) == [0, 1]
  {
    assert RAISER[..0] == [] && RAISER[..1] == [RAISER[0]] && RAISER[..1][..0] == [];
    assert JudgeAt(v, Zeros(2), RAISER, 0) == if v[0] == 1 then MustSleep else Ok;
    assert Net([RAISER[0]], 0) == Net([RAISER[0]], 1) == 0;
    assert v[0] == 0 ==> JudgeAt(v, Zeros(2), RAISER, 1) == Ok && Verdict(v, Zeros(2), RAISER, 1) == Ok;
    assert Net(RAISER, 0) == 0 && Net(RAISER, 1) == 1;
  }

  lemma TakerStep()
    ensures Next(FIRST, DoSemop(1, TAKER), ASLEEP)
  {
    assert TAKER[0].op == -1 && Alters(TAKER) && Decreases(TAKER) && !UsesUndo(TAKER);
    TakerSleeps([1, 0]);
    assert WithUndo(FIRST, 1, TAKER) == FIRST && AdjOf(FIRST, 1) == Zeros(2);
  }

  lemma RaiserStep()
    ensures Next(ASLEEP, DoSemop(2, RAISER), BOTH)
  {
    assert RAISER[1].op == 1 && Alters(RAISER) && !Decreases(RAISER) && !UsesUndo(RAISER) && !UsesUndo(TAKER);
    RaiserAnswers([1, 0]);
    assert WithUndo(ASLEEP, 2, RAISER) == ASLEEP && AdjOf(ASLEEP, 2) == Zeros(2);
    assert ASLEEP.pending + [RAISES] == BOTH.pending;
    assert FindQueued(ASLEEP.pending[1..], 2) == -1;
  }

  lemma ZeroedStep()
    ensures Next(BOTH, DoSetVal(0, 0), LOST)
  {
    assert !UsesUndo(RAISER) && !UsesUndo(TAKER);
    assert ZeroAt(BOTH.undos, 0) == [] && [1, 0][0 := 0] == [0, 0];
    assert SetVal(BOTH, 0, 0) == UpdateQueue(ZEROED);
    TakerSleeps([0, 0]);
    RaiserAnswers([0, 0]);
    assert AdjOf(ZEROED, 1) == AdjOf(ZEROED, 2) == Zeros(2);
    var (code, t) := Attempt(ZEROED, 2, RAISER, false);
    assert Drop(ZEROED.pending, 1) == [TAKES] && [] + [RAISER] == [RAISER];
    assert t.(pending := Drop(ZEROED.pending, 1)) == LOST;
    assert UpdateFrom(ZEROED, 1) == UpdateFrom(LOST, 1) == LOST;
    assert UpdateFrom(ZEROED, 0) == UpdateFrom(ZEROED, 1);
  }

  /** With an array that raises a value and lowers none, the first sleeper stays asleep though it could go on. */
  lemma LostExample()
    ensures Run([FIRST, ASLEEP, BOTH, LOST], [DoSemop(1, TAKER), DoSemop(2, RAISER), DoSetVal(0, 0)])
    ensures Live(FIRST) && Fit(LOST, TAKES) && Ready(LOST, TAKES) && !Quiet(LOST) && !Signalled(LOST)
  {
    TakerStep();
    RaiserStep();
    ZeroedStep();
    FirstState();
    ThreeSteps(FIRST, DoSemop(1, TAKER), ASLEEP, DoSemop(2, RAISER), BOTH, DoSetVal(0, 0), LOST);
    LostState();
  }

  lemma FirstState()
    ensures Inv(FIRST) && Live(FIRST)
  {
  }

  lemma LostState()
    ensures Shape(LOST) && Fit(LOST, TAKES) && Ready(LOST, TAKES) && !Quiet(LOST) && !Signalled(LOST)
  {
    assert TAKER[..0] == [] && !UsesUndo(TAKER) && AdjOf(LOST, 1) == Zeros(2);
    assert JudgeAt([0, 1], Zeros(2), TAKER, 0) == Ok && Verdict([0, 1], Zeros(2), TAKER, 0) == Ok;
    assert TAKES in LOST.pending;
  }

  lemma {:induction false} NetRaises(a: seq<SemOp>, j: nat)
    requires !Decreases(a)
    ensures Net(a, j) >= 0 && ((exists i :: 0 <= i < |a| && a[i].num == j && a[i].op > 0) ==> Net(a, j) > 0)
  {
    if a != [] {
      var init := a[..|a| - 1];
      assert forall i :: 0 <= i < |init| ==> init[i] == a[i];
      assert a[|a| - 1].op >= 0;
      NetRaises(init, j);
      if i :| 0 <= i < |a| && a[i].num == j && a[i].op > 0 {
        assert i < |init| ==> init[i] == a[i];
      }
    }
  }

  /** Takes all that semaphore `j` will have once `a` is done. */
  function TakesAll(v: seq<int>, a: seq<SemOp>, j: nat): Queued
    requires j < |v|
  {
    Queued(1, [SemOp(j, -(v[j] + Net(a, j)), false, false)], true, Waiting)
  }

  /** That sleeper, and behind it one with the array `a`. */
  function TwoAsleep(v: seq<int>, a: seq<SemOp>, j: nat): Sem
    requires j < |v|
  {
    Sem(v, [Undo(2, Zeros(|v|))], [TakesAll(v, a, j), Queued(2, a, false, Waiting)], [])
  }

  lemma TakesAllAnswer(v: seq<int>, b: seq<SemOp>, x: int)
    requires |b| == 1 && b[0].num < |v| && b[0].op == -x < 0 && !b[0].undo && !b[0].nowait
    requires 0 <= v[b[0].num] <= x <= SEMVMX
    ensures Verdict(v, Zeros(|v|), b, 0) == if v[b[0].num] < x then MustSleep else Ok
  {
    assert b[..0] == [];
    assert JudgeAt(v, Zeros(|v|), b, 0) == if v[b[0].num] < x then MustSleep else Ok;
    assert Verdict(v, Zeros(|v|), b, 1) == Ok;
  }

  lemma TwoAsleepShape(v: seq<int>, a: seq<SemOp>, j: nat)
    requires j < |v| && InRange(a, |v|)
    ensures var s := TwoAsleep(v, a, j); Shape(s) && AdjOf(s, 1) == AdjOf(s, 2) == Zeros(|v|)
  {
    var s := TwoAsleep(v, a, j);
    assert s.undos[1..] == [];
    assert FindUndo(s.undos, 1) == -1 && FindUndo(s.undos, 2) == 0;
    assert !UsesUndo(s.pending[0].ops);
  }

  /** The first sleeper is passed over, and then the array of the second is done. */
  lemma TwoAsleepPass(v: seq<int>, a: seq<SemOp>, j: nat)
    requires j < |v| && InRange(a, |v|) && Verdict(v, Zeros(|v|), a, 0) == Ok
    requires Verdict(v, Zeros(|v|), TakesAll(v, a, j).ops, 0) == MustSleep
    ensures var s := TwoAsleep(v, a, j);
            && Shape(s)
            && var r := UpdateQueue(s);
               && Shape(r) && r.val == Added(v, a) && r.pending == [TakesAll(v, a, j)] && AdjOf(r, 1) == Zeros(|v|)
  {
    var s := TwoAsleep(v, a, j);
    TwoAsleepShape(v, a, j);
    AttemptShape(s, 2, a, false);
    var t := Attempt(s, 2, a, false).1;
    var r := t.(pending := Drop(s.pending, 1));
    assert Drop(s.pending, 1) == [TakesAll(v, a, j)];
    assert UpdateFrom(s, 1) == UpdateFrom(r, 1) == r;
    assert UpdateFrom(s, 0) == UpdateFrom(s, 1);
    assert t.undos[1..] == [];
  }

  /** Every array that raises a value, lowers none and can be done at all makes update_queue lose a wake-up of some
      sleeper: arrays that are not plain are to be kept out, and no others. */
  lemma RaiserLoses(v: seq<int>, a: seq<SemOp>, i: nat)
    requires InRange(a, |v|) && Verdict(v, Zeros(|v|), a, 0) == Ok && !PlainOps(a) && i < |a| && a[i].op > 0
    requires forall k :: 0 <= k < |v| ==> 0 <= v[k] <= SEMVMX
    ensures var s := TwoAsleep(v, a, a[i].num);
            && Shape(s) && Plain(s.pending[0])
            && var r := UpdateQueue(s); !Quiet(r) && !Signalled(r)
  {
    var j := a[i].num;
    var b, x := TakesAll(v, a, j), v[j] + Net(a, j);
    NetRaises(a, j);
    assert a[..|a|] == a;
    LegalStaysInRange(v, Zeros(|v|), a, |a|, j);
    TakesAllAnswer(v, b.ops, x);
    TakesAllAnswer(Added(v, a), b.ops, x);
    TwoAsleepPass(v, a, j);
    assert b.ops[0].op < 0;
    LeftAlone(UpdateQueue(TwoAsleep(v, a, j)), b);
  }

  lemma LeftAlone(r: Sem, b: Queued)
    requires Shape(r) && r.pending == [b] && b.status == Waiting && InRange(b.ops, |r.val|)
    requires Verdict(r.val, AdjOf(r, b.pid), b.ops, 0) == Ok
    ensures !Quiet(r) && !Signalled(r)
  {
    assert b in r.pending && Fit(r, b) && Ready(r, b);
  }
}
