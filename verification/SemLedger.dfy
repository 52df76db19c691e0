/** System V semaphore sets: what semop, wake-ups, semctl and process exit do to the values, the
    SEM_UNDO adjustments and the pending queue (ipc/sem.c:209-343, 562-652, 810-978, 992-1055). */
module SemLedger {
  import opened Lists

  const SEMVMX: int := 32767
  const SEMAEM: int := SEMVMX
  const SEMOPM: int := 32

  datatype SemOp = SemOp(num: nat, op: int, undo: bool, nowait: bool)

  datatype Code = Ok | MustSleep | Again | Range

  // ---- the meaning of an operation array

  /** Net change of semaphore `j`. */
  function Net(ops: seq<SemOp>, j: nat): int {
    if ops == [] then 0
    else Net(ops[..|ops| - 1], j) + var o := ops[|ops| - 1]; if o.num == j then o.op else 0
  }

  /** Net change of semaphore `j` by the operations that are to be undone at exit. */
  function NetUndo(ops: seq<SemOp>, j: nat): int {
    if ops == [] then 0
    else NetUndo(ops[..|ops| - 1], j) + var o := ops[|ops| - 1]; if o.num == j && o.undo then o.op else 0
  }

  function Added(val: seq<int>, ops: seq<SemOp>): (r: seq<int>)
    ensures |r| == |val| && forall j :: 0 <= j < |val| ==> r[j] == val[j] + Net(ops, j)
  {
    seq(|val|, j requires 0 <= j < |val| => val[j] + Net(ops, j))
  }

  function Adjusted(adj: seq<int>, ops: seq<SemOp>): (r: seq<int>)
    ensures |r| == |adj| && forall j :: 0 <= j < |adj| ==> r[j] == adj[j] - NetUndo(ops, j)
  {
    seq(|adj|, j requires 0 <= j < |adj| => adj[j] - NetUndo(ops, j))
  }

  predicate InRange(ops: seq<SemOp>, n: nat) {
    forall i :: 0 <= i < |ops| ==> ops[i].num < n
  }

  predicate UndoInRange(a: int) {
    -SEMAEM - 1 <= a <= SEMAEM
  }

  /** What operation `o` says on a semaphore of value `v` with adjustment `a`. */
  function Judge(v: int, a: int, o: SemOp): Code {
    if o.op == 0 && v != 0 then (if o.nowait then Again else MustSleep)
    else if o.undo && !UndoInRange(a - o.op) then Range
    else if v + o.op < 0 then (if o.nowait then Again else MustSleep)
    else if v + o.op > SEMVMX then Range
    else Ok
  }

  /** The verdict on ops[i], judged after ops[..i] have been done. */
  function JudgeAt(val: seq<int>, adj: seq<int>, ops: seq<SemOp>, i: nat): Code
    requires i < |ops| && InRange(ops, |val|) && |adj| == |val|
  {
    var j := ops[i].num;
    Judge(val[j] + Net(ops[..i], j), adj[j] - NetUndo(ops[..i], j), ops[i])
  }

  /** The verdict on the whole array: that of the first operation, from `i` on, that is not legal. */
  function Verdict(val: seq<int>, adj: seq<int>, ops: seq<SemOp>, i: nat): Code
    requires i <= |ops| && InRange(ops, |val|) && |adj| == |val|
    decreases |ops| - i
  {
    if i == |ops| then Ok
    else if JudgeAt(val, adj, ops, i) == Ok then Verdict(val, adj, ops, i + 1)
    else JudgeAt(val, adj, ops, i)
  }

  /** The array succeeds exactly when each operation is legal after the ones before it. */
  lemma {:induction false} VerdictOk(val: seq<int>, adj: seq<int>, ops: seq<SemOp>, i: nat)
    requires i <= |ops| && InRange(ops, |val|) && |adj| == |val|
    ensures Verdict(val, adj, ops, i) == Ok <==> forall k :: i <= k < |ops| ==> JudgeAt(val, adj, ops, k) == Ok
    decreases |ops| - i
  {
    if i < |ops| {
      VerdictOk(val, adj, ops, i + 1);
    }
  }

  // ---- what the verdict means to a caller

  /** The value and the adjustment ops[i] finds, once ops[..i] have been done. */
  function ValueAt(val: seq<int>, ops: seq<SemOp>, i: nat): int
    requires i < |ops| && ops[i].num < |val|
  {
    val[ops[i].num] + Net(ops[..i], ops[i].num)
  }

  function AdjustmentAt(adj: seq<int>, ops: seq<SemOp>, i: nat): int
    requires i < |ops| && ops[i].num < |adj|
  {
    adj[ops[i].num] - NetUndo(ops[..i], ops[i].num)
  }

  /** ops[i] can be done: a wait for zero finds zero, the value stays within 0..SEMVMX, and an adjustment
      to be kept stays within the range of a short. */
  predicate LegalAt(val: seq<int>, adj: seq<int>, ops: seq<SemOp>, i: nat)
    requires i < |ops| && ops[i].num < |val| && ops[i].num < |adj|
  {
    var o, v, a := ops[i], ValueAt(val, ops, i), AdjustmentAt(adj, ops, i);
    && (o.op == 0 ==> v == 0)
    && 0 <= v + o.op <= SEMVMX
    && (o.undo ==> -SEMAEM - 1 <= a - o.op <= SEMAEM)
  }

  /** ops[i] would take the value above SEMVMX or an adjustment out of range.  A wait for zero that finds
      another value is not asked for either. */
  predicate TooFarAt(val: seq<int>, adj: seq<int>, ops: seq<SemOp>, i: nat)
    requires i < |ops| && ops[i].num < |val| && ops[i].num < |adj|
  {
    var o, v, a := ops[i], ValueAt(val, ops, i), AdjustmentAt(adj, ops, i);
    && !(o.op == 0 && v != 0)
    && (v + o.op > SEMVMX || (o.undo && !(-SEMAEM - 1 <= a - o.op <= SEMAEM)))
  }

  predicate AllLegal(val: seq<int>, adj: seq<int>, ops: seq<SemOp>)
    requires InRange(ops, |val|) && |adj| == |val|
  {
    forall i :: 0 <= i < |ops| ==> LegalAt(val, adj, ops, i)
  }

  /** ops[i] is the first that cannot be done, and `code` says why: out of range, or that it must wait, which
      a caller who does not want to gets as EAGAIN. */
  predicate FailsAt(val: seq<int>, adj: seq<int>, ops: seq<SemOp>, i: nat, code: Code)
    requires InRange(ops, |val|) && |adj| == |val|
  {
    && i < |ops| && !LegalAt(val, adj, ops, i) && (forall k :: 0 <= k < i ==> LegalAt(val, adj, ops, k))
    && code == if TooFarAt(val, adj, ops, i) then Range else if ops[i].nowait then Again else MustSleep
  }

  lemma {:induction false} VerdictFrom(val: seq<int>, adj: seq<int>, ops: seq<SemOp>, i: nat)
    requires i <= |ops| && InRange(ops, |val|) && |adj| == |val|
    requires forall k :: 0 <= k < i ==> LegalAt(val, adj, ops, k)
    ensures Verdict(val, adj, ops, i) == Ok <==> AllLegal(val, adj, ops)
    ensures Verdict(val, adj, ops, i) != Ok ==> exists k: nat :: FailsAt(val, adj, ops, k, Verdict(val, adj, ops, i))
    decreases |ops| - i
  {
    if i < |ops| {
      if LegalAt(val, adj, ops, i) {
        VerdictFrom(val, adj, ops, i + 1);
      } else {
        assert FailsAt(val, adj, ops, i, Verdict(val, adj, ops, i));
      }
    }
  }

  /** The array succeeds exactly if every operation can be done after the ones before it; otherwise the first
      that cannot decides. */
  lemma VerdictMeans(val: seq<int>, adj: seq<int>, ops: seq<SemOp>)
    requires InRange(ops, |val|) && |adj| == |val|
    ensures var code := Verdict(val, adj, ops, 0);
            && (code == Ok <==> AllLegal(val, adj, ops))
            && (code != Ok ==> exists k: nat :: FailsAt(val, adj, ops, k, code))
  {
    VerdictFrom(val, adj, ops, 0);
  }

  lemma NetStep(ops: seq<SemOp>, i: nat, j: nat)
    requires i < |ops|
    ensures Net(ops[..i + 1], j) == Net(ops[..i], j) + if ops[i].num == j then ops[i].op else 0
    ensures NetUndo(ops[..i + 1], j) == NetUndo(ops[..i], j) + if ops[i].num == j && ops[i].undo then ops[i].op else 0
  {
    assert ops[..i + 1][..i] == ops[..i];
  }

  /** An array judged legal leaves every value in 0..SEMVMX and every adjustment in range, if it
      touches them, and as they were otherwise. */
  lemma {:induction false} LegalStaysInRange(val: seq<int>, adj: seq<int>, ops: seq<SemOp>, i: nat, j: nat)
    requires InRange(ops, |val|) && |adj| == |val| && i <= |ops| && j < |val|
    requires Verdict(val, adj, ops, 0) == Ok
    requires val[j] >= 0 && UndoInRange(adj[j])
    ensures val[j] + Net(ops[..i], j) >= 0 && UndoInRange(adj[j] - NetUndo(ops[..i], j))
    ensures val[j] <= SEMVMX || (exists k :: 0 <= k < i && ops[k].num == j) ==> val[j] + Net(ops[..i], j) <= SEMVMX
  {
    if i > 0 {
      LegalStaysInRange(val, adj, ops, i - 1, j);
      NetStep(ops, i - 1, j);
      VerdictOk(val, adj, ops, 0);
      assert JudgeAt(val, adj, ops, i - 1) == Ok;
    } else {
      assert ops[..0] == [];
    }
  }

  /** What an operation array adds to semaphore `j` without leaving an adjustment. */
  function NetPlain(ops: seq<SemOp>, j: nat): int {
    Net(ops, j) - NetUndo(ops, j)
  }

  // ---- a semaphore set

  datatype Undo = Undo(pid: nat, adj: seq<int>)

  // status -EINTR while asleep, 1 once update_queue has told the sleeper to try again itself
  datatype Status = Waiting | TryAgain

  // `alter` records whether some operation decreases a value
  datatype Queued = Queued(pid: nat, ops: seq<SemOp>, alter: bool, status: Status)

  /** `log` is a history of the operation arrays completed so far; nothing reads it. */
  datatype Sem = Sem(val: seq<int>, undos: seq<Undo>, pending: seq<Queued>, log: seq<seq<SemOp>>)

  function FindUndo(us: seq<Undo>, pid: nat): (k: int)
    ensures -1 <= k < |us|
    ensures k >= 0 ==> us[k].pid == pid
  {
    if us == [] then -1
    else if us[0].pid == pid then 0
    else var k := FindUndo(us[1..], pid); if k == -1 then -1 else k + 1
  }

  function Zeros(n: nat): (r: seq<int>)
    ensures |r| == n && forall i :: 0 <= i < n ==> r[i] == 0
  {
    seq(n, _ => 0)
  }

  predicate UsesUndo(ops: seq<SemOp>) {
    exists i :: 0 <= i < |ops| && ops[i].undo
  }

  predicate ValidOps(s: Sem, pid: nat, ops: seq<SemOp>) {
    InRange(ops, |s.val|) && (UsesUndo(ops) ==> FindUndo(s.undos, pid) >= 0)
  }

  predicate Shape(s: Sem) {
    && (forall k :: 0 <= k < |s.undos| ==> |s.undos[k].adj| == |s.val|)
    && (forall k :: 0 <= k < |s.pending| ==> ValidOps(s, s.pending[k].pid, s.pending[k].ops))
  }

  function AdjOf(s: Sem, pid: nat): (adj: seq<int>)
    requires forall k :: 0 <= k < |s.undos| ==> |s.undos[k].adj| == |s.val|
    ensures |adj| == |s.val|
  {
    var k := FindUndo(s.undos, pid);
    if k >= 0 then s.undos[k].adj else Zeros(|s.val|)
  }

  /** try_atomic_semop: the verdict, and the set afterwards.  With `doUndo` the array is only tried. */
  function Attempt(s: Sem, pid: nat, ops: seq<SemOp>, doUndo: bool): (Code, Sem)
    requires Shape(s) && ValidOps(s, pid, ops)
  {
    var adj := AdjOf(s, pid);
    var code := Verdict(s.val, adj, ops, 0);
    var k := FindUndo(s.undos, pid);
    if code == Ok && !doUndo then
      (Ok, s.(val := Added(s.val, ops), log := s.log + [ops],
              undos := if k >= 0 then s.undos[k := Undo(s.undos[k].pid, Adjusted(adj, ops))] else s.undos))
    else (code, s)
  }

  /** update_queue from position `k` on. */
  function UpdateFrom(s: Sem, k: nat): Sem
    requires Shape(s) && k <= |s.pending|
    decreases |s.pending| - k
  {
    if k == |s.pending| then s
    else
      var q := s.pending[k];
      if q.status == TryAgain then UpdateFrom(s, k + 1)
      else
        AttemptShape(s, q.pid, q.ops, q.alter);
        var (code, t) := Attempt(s, q.pid, q.ops, q.alter);
        if code == MustSleep then UpdateFrom(s, k + 1)
        else if code == Ok && q.alter then s.(pending := s.pending[k := q.(status := TryAgain)])
        else UpdateFrom(t.(pending := Drop(s.pending, k)), k)
  }

  function UpdateQueue(s: Sem): Sem
    requires Shape(s)
  {
    UpdateFrom(s, 0)
  }

  predicate Decreases(ops: seq<SemOp>) {
    exists i :: 0 <= i < |ops| && ops[i].op < 0
  }

  predicate Alters(ops: seq<SemOp>) {
    exists i :: 0 <= i < |ops| && ops[i].op != 0
  }

  /** alloc_undo, when the process has no undo structure for this set yet. */
  function WithUndo(s: Sem, pid: nat, ops: seq<SemOp>): Sem {
    if UsesUndo(ops) && FindUndo(s.undos, pid) == -1
    then s.(undos := [Undo(pid, Zeros(|s.val|))] + s.undos) else s
  }

  datatype Result = Returns(code: Code) | Invalid | TooBig | BadNumber | Asleep

  /** sys_semop up to its return or its first sleep. */
  function Semop(s: Sem, pid: nat, ops: seq<SemOp>): (Result, Sem)
    requires Shape(s)
  {
    if |ops| < 1 then (Invalid, s)
    else if |ops| > SEMOPM then (TooBig, s)
    else if !InRange(ops, |s.val|) then (BadNumber, s)
    else
      WithUndoShape(s, pid, ops);
      var u := WithUndo(s, pid, ops);
      AttemptShape(u, pid, ops, false);
      var (code, t) := Attempt(u, pid, ops, false);
      if code != MustSleep then (Returns(code), if Alters(ops) then UpdateQueue(t) else t)
      else
        var q := Queued(pid, ops, Decreases(ops), Waiting);
        (Asleep, t.(pending := if Alters(ops) then t.pending + [q] else [q] + t.pending))
  }

  function FindQueued(q: seq<Queued>, pid: nat): (k: int)
    ensures -1 <= k < |q|
    ensures k >= 0 ==> q[k].pid == pid
  {
    if q == [] then -1
    else if q[0].pid == pid then 0
    else var k := FindQueued(q[1..], pid); if k == -1 then -1 else k + 1
  }

  /** The sleeper of `pid` runs again in the loop of sys_semop: it retries if it was told to, and
      otherwise it was interrupted; if it is no longer queued, update_queue has finished for it. */
  function Resume(s: Sem, pid: nat): Sem
    requires Shape(s)
  {
    var k := FindQueued(s.pending, pid);
    if k == -1 then s
    else
      var q := s.pending[k];
      AttemptShape(s, pid, q.ops, false);
      var (code, t) := Attempt(s, pid, q.ops, false);
      if q.status == TryAgain && code == MustSleep then
        s.(pending := s.pending[k := q.(status := Waiting)])
      else
        var u := (if q.status == TryAgain then t else s).(pending := Drop(s.pending, k));
        if Alters(q.ops) then UpdateQueue(u) else u
  }

  function Max0(x: int): int {
    if x < 0 then 0 else x
  }

  /** The adjustment loop of sem_exit, with its clamp at zero. */
  function ExitValues(val: seq<int>, adj: seq<int>): (r: seq<int>)
    requires |adj| == |val|
    ensures |r| == |val| && forall j :: 0 <= j < |val| ==> r[j] == Max0(val[j] + adj[j])
  {
    seq(|val|, j requires 0 <= j < |val| => Max0(val[j] + adj[j]))
  }

  /** The first part of sem_exit: a sleeping process leaves the pending queue. */
  function Unqueue(s: Sem, pid: nat): Sem {
    var k := FindQueued(s.pending, pid);
    if k == -1 then s else s.(pending := Drop(s.pending, k))
  }

  /** The second part of sem_exit: the process's undo structure is taken off and applied. */
  function Settle(s: Sem, pid: nat): Sem
    requires forall k :: 0 <= k < |s.undos| ==> |s.undos[k].adj| == |s.val|
  {
    var k := FindUndo(s.undos, pid);
    if k == -1 then s
    else s.(val := ExitValues(s.val, s.undos[k].adj), undos := Drop(s.undos, k))
  }

  /** A task sleeps in at most one queue and has at most one undo structure per set. */
  predicate OnePerTask(s: Sem) {
    && (forall i, j :: 0 <= i < j < |s.undos| ==> s.undos[i].pid != s.undos[j].pid)
    && (forall i, j :: 0 <= i < j < |s.pending| ==> s.pending[i].pid != s.pending[j].pid)
  }

  /** What sem_exit does before it calls update_queue. */
  function Departed(s: Sem, pid: nat): Sem
    requires forall k :: 0 <= k < |s.undos| ==> |s.undos[k].adj| == |s.val|
  {
    Settle(Unqueue(s, pid), pid)
  }

  function Exit(s: Sem, pid: nat): Sem
    requires Shape(s) && OnePerTask(s)
  {
    DepartedShape(s, pid);
    if FindUndo(s.undos, pid) == -1 then Departed(s, pid) else UpdateQueue(Departed(s, pid))
  }

  function ZeroAt(us: seq<Undo>, j: nat): (r: seq<Undo>)
    requires forall k :: 0 <= k < |us| ==> j < |us[k].adj|
    ensures |r| == |us| && forall k :: 0 <= k < |us| ==> r[k] == us[k].(adj := us[k].adj[j := 0])
  {
    seq(|us|, k requires 0 <= k < |us| => us[k].(adj := us[k].adj[j := 0]))
  }

  /** semctl SETVAL. */
  function SetVal(s: Sem, j: nat, v: int): Sem
    requires Shape(s)
  {
    if j >= |s.val| || v > SEMVMX || v < 0 then s
    else
      var t := s.(val := s.val[j := v], undos := ZeroAt(s.undos, j));
      SameUndosShape(s, t);
      UpdateQueue(t)
  }

  function ZeroAll(us: seq<Undo>): (r: seq<Undo>)
    ensures |r| == |us| && forall k :: 0 <= k < |us| ==> r[k] == us[k].(adj := Zeros(|us[k].adj|))
  {
    seq(|us|, k requires 0 <= k < |us| => us[k].(adj := Zeros(|us[k].adj|)))
  }

  /** semctl SETALL; the values come in as unsigned shorts. */
  function SetAll(s: Sem, vals: seq<nat>): Sem
    requires Shape(s)
  {
    if |vals| != |s.val| || exists i :: 0 <= i < |vals| && vals[i] > SEMVMX then s
    else
      var t := s.(val := vals, undos := ZeroAll(s.undos));
      SameUndosShape(s, t);
      UpdateQueue(t)
  }

  // ---- the operations keep the shape of the set

  lemma {:induction false} FindUndoIff(us: seq<Undo>, pid: nat)
    ensures FindUndo(us, pid) == -1 <==> forall k :: 0 <= k < |us| ==> us[k].pid != pid
  {
    if us != [] {
      FindUndoIff(us[1..], pid);
      assert forall k :: 0 < k < |us| ==> us[k] == us[1..][k - 1];
    }
  }

  /** Undo structures of the same processes in the same order are found in the same places. */
  lemma {:induction false} FindUndoSame(us: seq<Undo>, vs: seq<Undo>, pid: nat)
    requires |us| == |vs| && forall k :: 0 <= k < |us| ==> us[k].pid == vs[k].pid
    ensures FindUndo(us, pid) == FindUndo(vs, pid)
  {
    if us != [] {
      FindUndoSame(us[1..], vs[1..], pid);
    }
  }

  predicate SameUndos(s: Sem, t: Sem) {
    && |t.val| == |s.val| && |t.undos| == |s.undos|
    && (forall k :: 0 <= k < |s.undos| ==> t.undos[k].pid == s.undos[k].pid && |t.undos[k].adj| == |s.val|)
  }

  lemma SameUndosShape(s: Sem, t: Sem)
    requires Shape(s) && SameUndos(s, t)
    requires forall q :: q in t.pending ==> exists p :: p in s.pending && p.pid == q.pid && p.ops == q.ops
    ensures Shape(t)
  {
    forall k | 0 <= k < |t.pending| ensures ValidOps(t, t.pending[k].pid, t.pending[k].ops) {
      var q := t.pending[k];
      assert q in t.pending;
      var p :| p in s.pending && p.pid == q.pid && p.ops == q.ops;
      assert ValidOps(s, p.pid, p.ops);
      FindUndoSame(s.undos, t.undos, q.pid);
    }
  }

  lemma AttemptShape(s: Sem, pid: nat, ops: seq<SemOp>, doUndo: bool)
    requires Shape(s) && ValidOps(s, pid, ops)
    ensures var t := Attempt(s, pid, ops, doUndo).1;
            Shape(t) && SameUndos(s, t) && t.pending == s.pending
    ensures var t := Attempt(s, pid, ops, doUndo).1;
            forall k :: 0 <= k < |t.pending| ==> Shape(t.(pending := Drop(t.pending, k)))
    ensures forall k :: 0 <= k < |s.pending| ==> Shape(s.(pending := Drop(s.pending, k)))
  {
    var t := Attempt(s, pid, ops, doUndo).1;
    SameUndosShape(s, t);
    forall k | 0 <= k < |t.pending|
      ensures Shape(t.(pending := Drop(t.pending, k))) && Shape(s.(pending := Drop(s.pending, k)))
    {
      DropShape(t, k);
      DropShape(s, k);
    }
  }

  lemma DropShape(s: Sem, k: nat)
    requires Shape(s) && k < |s.pending|
    ensures Shape(s.(pending := Drop(s.pending, k)))
  {
    var t := s.(pending := Drop(s.pending, k));
    forall i | 0 <= i < |t.pending| ensures ValidOps(t, t.pending[i].pid, t.pending[i].ops) {
      assert t.pending[i] == s.pending[if i < k then i else i + 1];
    }
  }

  lemma WithUndoShape(s: Sem, pid: nat, ops: seq<SemOp>)
    requires Shape(s) && InRange(ops, |s.val|)
    ensures Shape(WithUndo(s, pid, ops)) && ValidOps(WithUndo(s, pid, ops), pid, ops)
  {
    var t := WithUndo(s, pid, ops);
    FindUndoIff(t.undos, pid);
    forall k | 0 <= k < |t.pending| ensures ValidOps(t, t.pending[k].pid, t.pending[k].ops) {
      FindUndoIff(t.undos, t.pending[k].pid);
      FindUndoIff(s.undos, t.pending[k].pid);
      assert t != s ==> forall i :: 0 <= i < |s.undos| ==> t.undos[i + 1] == s.undos[i];
    }
  }

  lemma UnqueueShape(s: Sem, pid: nat)
    requires Shape(s) && OnePerTask(s)
    ensures Shape(Unqueue(s, pid)) && OnePerTask(Unqueue(s, pid))
    ensures forall k :: 0 <= k < |Unqueue(s, pid).pending| ==> Unqueue(s, pid).pending[k].pid != pid
  {
    var t := Unqueue(s, pid);
    var x := FindQueued(s.pending, pid);
    FindQueuedIff(s.pending, pid);
    forall k | 0 <= k < |t.pending| ensures ValidOps(t, t.pending[k].pid, t.pending[k].ops) && t.pending[k].pid != pid {
      assert t.pending[k] == s.pending[if x == -1 || k < x then k else k + 1];
    }
  }

  /** Once the process has left the queue, nobody needs its undo structure. */
  lemma SettleShape(t: Sem, pid: nat)
    requires Shape(t) && OnePerTask(t) && forall k :: 0 <= k < |t.pending| ==> t.pending[k].pid != pid
    ensures Shape(Settle(t, pid)) && OnePerTask(Settle(t, pid))
  {
    var u := Settle(t, pid);
    var d := FindUndo(t.undos, pid);
    if d >= 0 {
      forall k | 0 <= k < |u.pending| ensures ValidOps(u, u.pending[k].pid, u.pending[k].ops) {
        FindUndoDrop(t.undos, d, u.pending[k].pid);
        assert ValidOps(t, t.pending[k].pid, t.pending[k].ops);
      }
    }
  }

  lemma DepartedShape(s: Sem, pid: nat)
    requires Shape(s) && OnePerTask(s)
    ensures Shape(Departed(s, pid)) && OnePerTask(Departed(s, pid))
  {
    UnqueueShape(s, pid);
    SettleShape(Unqueue(s, pid), pid);
  }

  lemma FindUndoDrop(us: seq<Undo>, d: nat, pid: nat)
    requires d < |us| && us[d].pid != pid
    ensures FindUndo(us, pid) >= 0 ==> FindUndo(Drop(us, d), pid) >= 0
  {
    var i := FindUndo(us, pid);
    FindUndoIff(Drop(us, d), pid);
    if i >= 0 { assert Drop(us, d)[if i < d then i else i - 1] == us[i]; }
  }

  lemma {:induction false} FindQueuedIff(q: seq<Queued>, pid: nat)
    ensures FindQueued(q, pid) == -1 <==> forall k :: 0 <= k < |q| ==> q[k].pid != pid
  {
    if q != [] {
      FindQueuedIff(q[1..], pid);
      assert forall k :: 0 < k < |q| ==> q[k] == q[1..][k - 1];
    }
  }

  // ---- the ledger

  /** Sum of the adjustments of semaphore `j` over all undo structures. */
  function SumAdj(us: seq<Undo>, j: nat): int
    requires forall k :: 0 <= k < |us| ==> j < |us[k].adj|
  {
    if us == [] then 0 else us[0].adj[j] + SumAdj(us[1..], j)
  }

  /** What the completed operation arrays added to `j` without leaving an adjustment. */
  function LogTotal(log: seq<seq<SemOp>>, j: nat): int {
    if log == [] then 0 else LogTotal(log[..|log| - 1], j) + NetPlain(log[|log| - 1], j)
  }

  /** The quantity every run conserves. */
  function Residue(s: Sem, j: nat): int
    requires Shape(s) && j < |s.val|
  {
    s.val[j] + SumAdj(s.undos, j) - LogTotal(s.log, j)
  }

  // ---- the invariant of every run

  predicate Inv(s: Sem) {
    && Shape(s) && OnePerTask(s) && |s.val| > 0  // newary refuses an empty set
    && (forall j :: 0 <= j < |s.val| ==> s.val[j] >= 0)
    && (forall k, j :: 0 <= k < |s.undos| && 0 <= j < |s.val| ==> UndoInRange(s.undos[k].adj[j]))
  }

  lemma AttemptInv(s: Sem, pid: nat, ops: seq<SemOp>, doUndo: bool)
    requires Inv(s) && ValidOps(s, pid, ops)
    ensures Inv(Attempt(s, pid, ops, doUndo).1)
  {
    AttemptShape(s, pid, ops, doUndo);
    var (code, t) := Attempt(s, pid, ops, doUndo);
    var adj := AdjOf(s, pid);
    forall j | 0 <= j < |s.val| && code == Ok
      ensures s.val[j] + Net(ops, j) >= 0 && UndoInRange(adj[j] - NetUndo(ops, j))
    {
      assert ops[..|ops|] == ops;
      LegalStaysInRange(s.val, adj, ops, |ops|, j);
    }
  }

  lemma DropQueuedInv(s: Sem, k: nat)
    requires Inv(s) && k < |s.pending|
    ensures Inv(s.(pending := Drop(s.pending, k)))
    ensures forall j :: 0 <= j < |s.val| ==> Residue(s.(pending := Drop(s.pending, k)), j) == Residue(s, j)
  {
    DropShape(s, k);
    var t := s.(pending := Drop(s.pending, k));
    assert forall i :: 0 <= i < |t.pending| ==> t.pending[i] == s.pending[if i < k then i else i + 1];
  }

  lemma StatusInv(s: Sem, k: nat, st: Status)
    requires Inv(s) && k < |s.pending|
    ensures Inv(s.(pending := s.pending[k := s.pending[k].(status := st)]))
  {
  }

  lemma {:induction false} UpdateInv(s: Sem, k: nat)
    requires Inv(s) && k <= |s.pending|
    ensures Inv(UpdateFrom(s, k))
    decreases |s.pending| - k
  {
    if k < |s.pending| {
      var q := s.pending[k];
      AttemptShape(s, q.pid, q.ops, q.alter);
      AttemptInv(s, q.pid, q.ops, q.alter);
      var (code, t) := Attempt(s, q.pid, q.ops, q.alter);
      if q.status == TryAgain || code == MustSleep {
        UpdateInv(s, k + 1);
      } else if code == Ok && q.alter {
        StatusInv(s, k, TryAgain);
      } else {
        DropQueuedInv(t, k);
        UpdateInv(t.(pending := Drop(s.pending, k)), k);
      }
    }
  }

  lemma {:induction false} SumAdjUpdate(us: seq<Undo>, k: nat, u: Undo, j: nat)
    requires k < |us| && j < |u.adj| && forall i :: 0 <= i < |us| ==> j < |us[i].adj|
    ensures SumAdj(us[k := u], j) == SumAdj(us, j) - us[k].adj[j] + u.adj[j]
  {
    if k == 0 {
      assert us[k := u][1..] == us[1..];
    } else {
      SumAdjUpdate(us[1..], k - 1, u, j);
      assert us[k := u][1..] == us[1..][k - 1 := u];
    }
  }

  lemma {:induction false} SumAdjDrop(us: seq<Undo>, k: nat, j: nat)
    requires k < |us| && forall i :: 0 <= i < |us| ==> j < |us[i].adj|
    ensures SumAdj(Drop(us, k), j) == SumAdj(us, j) - us[k].adj[j]
  {
    if k == 0 {
      assert Drop(us, k) == us[1..];
    } else {
      SumAdjDrop(us[1..], k - 1, j);
      assert Drop(us, k)[1..] == Drop(us[1..], k - 1);
    }
  }

  lemma {:induction false} NoUndoNet(ops: seq<SemOp>, j: nat)
    requires !UsesUndo(ops)
    ensures NetUndo(ops, j) == 0
  {
    if ops != [] {
      assert !ops[|ops| - 1].undo;
      assert forall i :: 0 <= i < |ops| - 1 ==> ops[..|ops| - 1][i] == ops[i];
      NoUndoNet(ops[..|ops| - 1], j);
    }
  }

  lemma AttemptResidue(s: Sem, pid: nat, ops: seq<SemOp>, doUndo: bool, j: nat)
    requires Shape(s) && ValidOps(s, pid, ops) && j < |s.val|
    ensures var t := Attempt(s, pid, ops, doUndo).1;
            Shape(t) && |t.val| == |s.val| && Residue(t, j) == Residue(s, j)
  {
    AttemptShape(s, pid, ops, doUndo);
    var (code, t) := Attempt(s, pid, ops, doUndo);
    if code == Ok && !doUndo {
      var k := FindUndo(s.undos, pid);
      assert (s.log + [ops])[..|s.log|] == s.log;
      if k >= 0 {
        SumAdjUpdate(s.undos, k, t.undos[k], j);
      } else {
        NoUndoNet(ops, j);
      }
    }
  }

  lemma AttemptKeeps(s: Sem, pid: nat, ops: seq<SemOp>, doUndo: bool, j: nat)
    requires Inv(s) && ValidOps(s, pid, ops) && j < |s.val|
    ensures var t := Attempt(s, pid, ops, doUndo).1;
            Inv(t) && t.pending == s.pending && |t.val| == |s.val| && Residue(t, j) == Residue(s, j)
  {
    AttemptInv(s, pid, ops, doUndo);
    AttemptShape(s, pid, ops, doUndo);
    AttemptResidue(s, pid, ops, doUndo, j);
  }

  lemma {:induction false} UpdateResidue(s: Sem, k: nat, j: nat)
    requires Inv(s) && k <= |s.pending| && j < |s.val|
    ensures var t := UpdateFrom(s, k);
            Inv(t) && |t.val| == |s.val| && Residue(t, j) == Residue(s, j)
    decreases |s.pending| - k
  {
    UpdateInv(s, k);
    if k < |s.pending| {
      var q := s.pending[k];
      AttemptKeeps(s, q.pid, q.ops, q.alter, j);
      var (code, t) := Attempt(s, q.pid, q.ops, q.alter);
      if q.status == TryAgain || code == MustSleep {
        UpdateResidue(s, k + 1, j);
      } else if code == Ok && q.alter {
        assert UpdateFrom(s, k).undos == s.undos;
      } else {
        DropQueuedInv(t, k);
        UpdateResidue(t.(pending := Drop(s.pending, k)), k, j);
      }
    }
  }

  lemma WithUndoKeeps(s: Sem, pid: nat, ops: seq<SemOp>, j: nat)
    requires Inv(s) && InRange(ops, |s.val|) && j < |s.val|
    ensures var t := WithUndo(s, pid, ops);
            Inv(t) && |t.val| == |s.val| && Residue(t, j) == Residue(s, j)
  {
    WithUndoShape(s, pid, ops);
    FindUndoIff(s.undos, pid);
    var t := WithUndo(s, pid, ops);
    if t != s { assert t.undos[1..] == s.undos; }
  }

  predicate Queues(s: Sem, pid: nat) {
    FindQueued(s.pending, pid) >= 0
  }

  lemma EnqueueInv(t: Sem, q: Queued, front: bool)
    requires Inv(t) && ValidOps(t, q.pid, q.ops) && !Queues(t, q.pid)
    ensures Inv(t.(pending := if front then [q] + t.pending else t.pending + [q]))
  {
    FindQueuedIff(t.pending, q.pid);
  }

  /** semop, whether it completes, fails or goes to sleep, conserves the residue. */
  lemma SemopKeeps(s: Sem, pid: nat, ops: seq<SemOp>, j: nat)
    requires Inv(s) && !Queues(s, pid) && j < |s.val|
    ensures var t := Semop(s, pid, ops).1;
            Inv(t) && |t.val| == |s.val| && Residue(t, j) == Residue(s, j)
  {
    if 1 <= |ops| <= SEMOPM && InRange(ops, |s.val|) {
      WithUndoShape(s, pid, ops);
      WithUndoKeeps(s, pid, ops, j);
      var u := WithUndo(s, pid, ops);
      AttemptShape(u, pid, ops, false);
      AttemptInv(u, pid, ops, false);
      AttemptResidue(u, pid, ops, false, j);
      var (code, t) := Attempt(u, pid, ops, false);
      if code != MustSleep {
        if Alters(ops) { UpdateResidue(t, 0, j); }
      } else {
        EnqueueInv(t, Queued(pid, ops, Decreases(ops), Waiting), !Alters(ops));
      }
    }
  }

  /** So does a sleeper running again. */
  lemma ResumeKeeps(s: Sem, pid: nat, j: nat)
    requires Inv(s) && j < |s.val|
    ensures var t := Resume(s, pid);
            Inv(t) && |t.val| == |s.val| && Residue(t, j) == Residue(s, j)
  {
    var k := FindQueued(s.pending, pid);
    if k >= 0 {
      var q := s.pending[k];
      AttemptShape(s, pid, q.ops, false);
      AttemptInv(s, pid, q.ops, false);
      AttemptResidue(s, pid, q.ops, false, j);
      var (code, t) := Attempt(s, pid, q.ops, false);
      if q.status == TryAgain && code == MustSleep {
        StatusInv(s, k, Waiting);
      } else {
        var v := if q.status == TryAgain then t else s;
        DropQueuedInv(v, k);
        if Alters(q.ops) { UpdateResidue(v.(pending := Drop(s.pending, k)), 0, j); }
      }
    }
  }

  /** Does the clamp of sem_exit stay idle for semaphore `j`? */
  predicate NoClamp(s: Sem, pid: nat, j: nat)
    requires Shape(s) && j < |s.val|
  {
    s.val[j] + AdjOf(s, pid)[j] >= 0
  }

  lemma UnqueueInv(s: Sem, pid: nat)
    requires Inv(s)
    ensures Inv(Unqueue(s, pid))
  {
    UnqueueShape(s, pid);
  }

  lemma SettleInv(t: Sem, pid: nat)
    requires Inv(t) && forall k :: 0 <= k < |t.pending| ==> t.pending[k].pid != pid
    ensures Inv(Settle(t, pid))
  {
    SettleShape(t, pid);
    var u := Settle(t, pid);
    var d := FindUndo(t.undos, pid);
    if d >= 0 {
      assert forall k :: 0 <= k < |u.undos| ==> u.undos[k] == t.undos[if k < d then k else k + 1];
    }
  }

  /** Taking the undo structure off and applying it conserves the residue exactly when no clamp acts. */
  lemma SettleResidue(t: Sem, pid: nat, j: nat)
    requires Shape(t) && Shape(Settle(t, pid)) && j < |t.val| && t.val[j] >= 0
    ensures |Settle(t, pid).val| == |t.val| && (Residue(Settle(t, pid), j) == Residue(t, j) <==> NoClamp(t, pid, j))
  {
    var d := FindUndo(t.undos, pid);
    if d >= 0 {
      SumAdjDrop(t.undos, d, j);
    }
  }

  lemma DepartedKeeps(s: Sem, pid: nat, j: nat)
    requires Inv(s) && j < |s.val|
    ensures var u := Departed(s, pid);
            Inv(u) && |u.val| == |s.val| && (Residue(u, j) == Residue(s, j) <==> NoClamp(s, pid, j))
  {
    UnqueueShape(s, pid);
    UnqueueInv(s, pid);
    SettleInv(Unqueue(s, pid), pid);
    SettleResidue(Unqueue(s, pid), pid, j);
  }

  /** Exit keeps the invariant always, and the residue exactly when the clamp stays idle. */
  lemma ExitKeeps(s: Sem, pid: nat, j: nat)
    requires Inv(s) && j < |s.val|
    ensures var t := Exit(s, pid);
            Inv(t) && |t.val| == |s.val| && (Residue(t, j) == Residue(s, j) <==> NoClamp(s, pid, j))
  {
    DepartedKeeps(s, pid, j);
    UpdateResidue(Departed(s, pid), 0, j);
  }

  lemma {:induction false} SumZeroed(us: seq<Undo>, vs: seq<Undo>, j: nat)
    requires |vs| == |us| && forall k :: 0 <= k < |us| ==> j < |us[k].adj| && j < |vs[k].adj|
    ensures (forall k :: 0 <= k < |us| ==> vs[k].adj[j] == 0) ==> SumAdj(vs, j) == 0
    ensures (forall k :: 0 <= k < |us| ==> vs[k].adj[j] == us[k].adj[j]) ==> SumAdj(vs, j) == SumAdj(us, j)
  {
    if us != [] { SumZeroed(us[1..], vs[1..], j); }
  }

  /** Values replaced, adjustments cleared or left: the invariant holds on. */
  lemma ClearedInv(s: Sem, t: Sem)
    requires Inv(s) && t.pending == s.pending && SameUndos(s, t)
    requires forall j :: 0 <= j < |t.val| ==> t.val[j] >= 0
    requires forall k, j :: 0 <= k < |s.undos| && 0 <= j < |s.val| ==>
               t.undos[k].adj[j] == 0 || t.undos[k].adj[j] == s.undos[k].adj[j]
    ensures Inv(t)
  {
    SameUndosShape(s, t);
  }

  /** SETVAL starts the books of its semaphore afresh, at the value set, and leaves those of the others. */
  lemma SetValKeeps(s: Sem, num: nat, v: int, j: nat)
    requires Inv(s) && j < |s.val|
    ensures var t := SetVal(s, num, v);
            && Inv(t) && |t.val| == |s.val|
            && Residue(t, j) == if num == j && 0 <= v <= SEMVMX then v - LogTotal(s.log, j) else Residue(s, j)
  {
    if num < |s.val| && 0 <= v <= SEMVMX {
      var t := s.(val := s.val[num := v], undos := ZeroAt(s.undos, num));
      ClearedInv(s, t);
      SumZeroed(s.undos, t.undos, j);
      UpdateResidue(t, 0, j);
    }
  }

  predicate RefusesAll(s: Sem, vals: seq<nat>) {
    |vals| != |s.val| || exists i :: 0 <= i < |vals| && vals[i] > SEMVMX
  }

  /** SETALL starts all books afresh, if it is not refused. */
  lemma SetAllKeeps(s: Sem, vals: seq<nat>, j: nat)
    requires Inv(s) && j < |s.val|
    ensures var t := SetAll(s, vals);
            && Inv(t) && |t.val| == |s.val|
            && Residue(t, j) == if RefusesAll(s, vals) then Residue(s, j) else vals[j] - LogTotal(s.log, j)
  {
    if !RefusesAll(s, vals) {
      var t := s.(val := vals, undos := ZeroAll(s.undos));
      ClearedInv(s, t);
      SumZeroed(s.undos, t.undos, j);
      UpdateResidue(t, 0, j);
    }
  }

  // ---- runs

  datatype Event =
    | DoSemop(pid: nat, ops: seq<SemOp>)
    | DoResume(pid: nat)
    | DoExit(pid: nat)
    | DoSetVal(num: nat, v: int)
    | DoSetAll(vals: seq<nat>)

  /** A sleeping process does not call semop. */
  ghost predicate Next(s: Sem, e: Event, t: Sem) {
    && Shape(s) && OnePerTask(s)
    && match e
       case DoSemop(pid, ops) => !Queues(s, pid) && t == Semop(s, pid, ops).1
       case DoResume(pid) => t == Resume(s, pid)
       case DoExit(pid) => t == Exit(s, pid)
       case DoSetVal(num, v) => t == SetVal(s, num, v)
       case DoSetAll(vals) => t == SetAll(s, vals)
  }

  ghost predicate Run(states: seq<Sem>, events: seq<Event>) {
    && |states| == |events| + 1
    && Inv(states[0])
    && forall i :: 0 <= i < |events| ==> Next(states[i], events[i], states[i + 1])
  }

  /** Neither semctl nor the clamp of sem_exit changes semaphore `j`. */
  predicate Undisturbed(s: Sem, e: Event, j: nat) {
    match e
    case DoSemop(_, _) => true
    case DoResume(_) => true
    case DoExit(pid) => Shape(s) && j < |s.val| && NoClamp(s, pid, j)
    case DoSetVal(num, v) => num != j || v < 0 || v > SEMVMX
    case DoSetAll(vals) => RefusesAll(s, vals)
  }

  lemma StepKeeps(s: Sem, e: Event, t: Sem, j: nat)
    requires Inv(s) && Next(s, e, t)
    ensures Inv(t) && |t.val| == |s.val|
    ensures j < |s.val| && Undisturbed(s, e, j) ==> Residue(t, j) == Residue(s, j)
  {
    var k := if j < |s.val| then j else 0;
    match e {
      case DoSemop(pid, ops) => SemopKeeps(s, pid, ops, k);
      case DoResume(pid) => ResumeKeeps(s, pid, k);
      case DoExit(pid) => ExitKeeps(s, pid, k);
      case DoSetVal(num, v) => SetValKeeps(s, num, v, k);
      case DoSetAll(vals) => SetAllKeeps(s, vals, k);
    }
  }

  /** No value is ever negative, in any run. */
  lemma {:induction false} RunNonNegative(states: seq<Sem>, events: seq<Event>, i: nat)
    requires Run(states, events) && i < |states|
    ensures Inv(states[i]) && |states[i].val| == |states[0].val|
    ensures forall j :: 0 <= j < |states[i].val| ==> states[i].val[j] >= 0
  {
    if i > 0 {
      RunNonNegative(states, events, i - 1);
      assert Next(states[i - 1], events[i - 1], states[i]);
      StepKeeps(states[i - 1], events[i - 1], states[i], 0);
    }
  }

  /** The books balance: in a run that leaves `j` undisturbed, its value plus all outstanding
      adjustments is what it was at the start plus the operations completed without SEM_UNDO. */
  lemma {:induction false} RunBalances(states: seq<Sem>, events: seq<Event>, i: nat, j: nat)
    requires Run(states, events) && i < |states| && j < |states[0].val|
    requires forall k :: 0 <= k < i ==> Undisturbed(states[k], events[k], j)
    ensures Inv(states[i]) && |states[i].val| == |states[0].val|
    ensures states[i].val[j] + SumAdj(states[i].undos, j) - LogTotal(states[i].log, j)
            == states[0].val[j] + SumAdj(states[0].undos, j) - LogTotal(states[0].log, j)
  {
    if i > 0 {
      RunBalances(states, events, i - 1, j);
      assert Next(states[i - 1], events[i - 1], states[i]);
      StepKeeps(states[i - 1], events[i - 1], states[i], j);
    }
  }

  // ---- the clamp does act in some runs

  const RELEASE := [SemOp(0, 1, true, false)]
  const TAKE := [SemOp(0, -1, false, false)]

  const FRESH := Sem([0], [], [], [])
  const RELEASED := Sem([1], [Undo(1, [-1])], [], [RELEASE])
  const TAKEN := Sem([0], [Undo(1, [-1])], [], [RELEASE, TAKE])
  const CLAMPED := Sem([0], [], [], [RELEASE, TAKE])

  lemma ReleaseStep()
    ensures Next(FRESH, DoSemop(1, RELEASE), RELEASED)
  {
    var u := WithUndo(FRESH, 1, RELEASE);
    assert RELEASE[0].undo && RELEASE[0].op != 0 && RELEASE[..0] == [];
    assert Zeros(1) == [0];
    assert u == Sem([0], [Undo(1, [0])], [], []);
    assert JudgeAt([0], [0], RELEASE, 0) == Ok && Verdict([0], [0], RELEASE, 0) == Ok;
    assert Added([0], RELEASE) == [1] && Adjusted([0], RELEASE) == [-1];
    assert u.undos[0 := Undo(1, [-1])] == RELEASED.undos && u.log + [RELEASE] == RELEASED.log;
    assert Attempt(u, 1, RELEASE, false) == (Ok, RELEASED);
  }

  lemma TakeStep()
    ensures Next(RELEASED, DoSemop(2, TAKE), TAKEN)
  {
    FindUndoIff(RELEASED.undos, 2);
    assert WithUndo(RELEASED, 2, TAKE) == RELEASED;
    assert TAKE[0].op != 0 && TAKE[..0] == [];
    assert JudgeAt([1], Zeros(1), TAKE, 0) == Ok && Verdict([1], Zeros(1), TAKE, 0) == Ok;
    assert Added([1], TAKE) == [0];
    assert RELEASED.log + [TAKE] == TAKEN.log;
    assert Attempt(RELEASED, 2, TAKE, false) == (Ok, TAKEN);
  }

  lemma ExitStep()
    ensures Next(TAKEN, DoExit(1), CLAMPED) && !NoClamp(TAKEN, 1, 0)
  {
    assert FindUndo(TAKEN.undos, 1) == 0 && ExitValues([0], [-1]) == [0];
    assert Departed(TAKEN, 1) == CLAMPED;
  }

  lemma ClampedResidue()
    ensures Residue(FRESH, 0) == 0 && Residue(CLAMPED, 0) == 1
  {
    assert RELEASE[..0] == [] && TAKE[..0] == [];
    assert NetPlain(RELEASE, 0) == 0 && NetPlain(TAKE, 0) == -1;
    assert [RELEASE, TAKE][..1] == [RELEASE] && [RELEASE][..0] == [];
    assert LogTotal([RELEASE], 0) == 0 && LogTotal([RELEASE, TAKE], 0) == -1;
  }

  lemma ThreeSteps(s: Sem, e: Event, t: Sem, f: Event, u: Sem, g: Event, v: Sem)
    requires Inv(s) && Next(s, e, t) && Next(t, f, u) && Next(u, g, v)
    ensures Run([s, t, u, v], [e, f, g])
  {
  }

  /** Process 1 releases a semaphore with SEM_UNDO, process 2 takes it without, process 1 exits: the value
      cannot fall below zero, so the books no longer balance. */
  lemma ClampExample()
    ensures Run([FRESH, RELEASED, TAKEN, CLAMPED], [DoSemop(1, RELEASE), DoSemop(2, TAKE), DoExit(1)])
    ensures Residue(FRESH, 0) == 0 && Residue(CLAMPED, 0) == 1
  {
    ReleaseStep();
    TakeStep();
    ExitStep();
    ThreeSteps(FRESH, DoSemop(1, RELEASE), RELEASED, DoSemop(2, TAKE), TAKEN, DoExit(1), CLAMPED);
    ClampedResidue();
  }
}
