/** Process ids: get_pid with its cached range of free ids (kernel/fork.c:86-140). */
module Pids {
  const PID_MAX := 0x8000
  const RESTART := 300

  datatype Task = Task(pid: nat, pgrp: nat, tgid: nat, session: nat)

  predicate Has(t: Task, x: nat) {
    t.pid == x || t.pgrp == x || t.tgid == x || t.session == x
  }

  /** `x` is the id of a live task in one of the four roles. */
  predicate Used(tasks: seq<Task>, x: nat) {
    exists i :: 0 <= i < |tasks| && Has(tasks[i], x)
  }

  /** last_pid, next_safe and the live tasks. */
  datatype State = State(last: nat, safe: nat, tasks: seq<Task>)

  /** No id in use lies strictly between last_pid and next_safe. */
  ghost predicate Inv(s: State) {
    && s.last < PID_MAX && s.safe <= PID_MAX
    && forall x {:trigger Used(s.tasks, x)} :: s.last < x < s.safe ==> !Used(s.tasks, x)
  }

  // ---- the plain search

  function Next(x: nat): nat {
    if x + 1 < PID_MAX then x + 1 else RESTART
  }

  /** The n-th id tried after `b`. */
  function Tried(b: nat, n: nat): nat
    decreases n
  {
    if n == 0 then b else Next(Tried(b, n - 1))
  }

  /** All of the first n ids tried are in use, and the search has not come back to `b`. */
  predicate Passed(tasks: seq<Task>, b: nat, n: nat) {
    forall m {:trigger Tried(b, m)} :: 1 <= m <= n ==> Used(tasks, Tried(b, m)) && (m > 1 ==> Tried(b, m) != b)
  }

  /** `p` is the first free id tried after `b`. */
  ghost predicate FirstFree(tasks: seq<Task>, b: nat, p: nat) {
    exists n: nat {:trigger Tried(b, n)} :: FreeAt(tasks, b, n, p)
  }

  predicate FreeAt(tasks: seq<Task>, b: nat, n: nat, p: nat) {
    n >= 1 && p == Tried(b, n) && !Used(tasks, p) && Passed(tasks, b, n - 1) && (n > 1 ==> p != b)
  }

  /** All ids were tried, and none but perhaps `b` is free. */
  ghost predicate NoneFree(tasks: seq<Task>, b: nat) {
    b >= RESTART && forall x {:trigger Used(tasks, x)} :: RESTART <= x < PID_MAX && x != b ==> Used(tasks, x)
  }

  /** Where the search is after n ids, as long as it does not go round. */
  lemma {:induction false} TriedUp(b: nat, n: nat)
    requires b + n < PID_MAX
    ensures Tried(b, n) == b + n
    decreases n
  {
    if n > 0 { TriedUp(b, n - 1); }
  }

  lemma {:induction false} TriedAround(b: nat, n: nat)
    requires b < PID_MAX <= b + n < PID_MAX + PID_MAX - RESTART
    ensures Tried(b, n) == RESTART + (b + n - PID_MAX)
    decreases n
  {
    if b + n == PID_MAX { TriedUp(b, n - 1); } else { TriedAround(b, n - 1); }
  }

  lemma {:induction false} TriedRange(b: nat, n: nat)
    requires b < PID_MAX
    ensures Tried(b, n) < PID_MAX && (n > 0 ==> Tried(b, n) > 0)
    ensures (b >= RESTART || n >= PID_MAX - b ==> Tried(b, n) >= RESTART)
    decreases n
  {
    if n > 0 {
      TriedRange(b, n - 1);
      if n == PID_MAX - b { TriedUp(b, n - 1); }
    }
  }

  /** Every id of the round is tried. */
  lemma Reached(b: nat, x: nat) returns (n: nat)
    requires b < PID_MAX && x < PID_MAX && (b < x || x >= RESTART)
    ensures Tried(b, n) == x && 1 <= n
  {
    if b < x {
      n := x - b;
      TriedUp(b, n);
    } else {
      n := x - RESTART + PID_MAX - b;
      TriedAround(b, n);
    }
  }

  /** The search ends: at a free id, or back at `b`. */
  ghost predicate Ends(tasks: seq<Task>, b: nat) {
    b >= RESTART || exists x {:trigger Used(tasks, x)} :: b < x < PID_MAX && !Used(tasks, x)
  }

  predicate StopAt(tasks: seq<Task>, b: nat, n: nat) {
    n >= 1 && (!Used(tasks, Tried(b, n)) || (n > 1 && Tried(b, n) == b))
  }

  lemma EndFound(tasks: seq<Task>, b: nat) returns (n: nat)
    requires b < PID_MAX && Ends(tasks, b)
    ensures StopAt(tasks, b, n)
  {
    if b >= RESTART {
      n := PID_MAX - RESTART;
      TriedAround(b, n);
    } else {
      var x :| b < x < PID_MAX && !Used(tasks, x);
      n := Reached(b, x);
    }
  }

  /** Otherwise it never ends: every id tried is in use, and `b` is not met again. */
  lemma NeverEnds(tasks: seq<Task>, b: nat, n: nat)
    requires b < PID_MAX && !Ends(tasks, b) && n >= 1
    ensures !StopAt(tasks, b, n)
  {
    var x := Tried(b, n);
    TriedRange(b, n);
    if b + n < PID_MAX {
      TriedUp(b, n);
    } else {
      assert x >= RESTART > b;
    }
    assert b < x < PID_MAX;
    assert Used(tasks, x);
  }

  /** The search comes back to `b`, having found every id on the way in use. */
  ghost predicate ComesBack(tasks: seq<Task>, b: nat) {
    exists n: nat {:trigger Tried(b, n)} :: n > 1 && Passed(tasks, b, n - 1) && Tried(b, n) == b
  }

  lemma ComesBackMeans(tasks: seq<Task>, b: nat, n: nat)
    requires b < PID_MAX && n > 1 && Passed(tasks, b, n - 1) && Tried(b, n) == b
    ensures NoneFree(tasks, b)
  {
    TriedRange(b, n);
    if b < RESTART {
      if b + n < PID_MAX { TriedUp(b, n); }
    }
    forall x | RESTART <= x < PID_MAX && x != b ensures Used(tasks, x) {
      var m := EarlyReached(b, x);
      if m >= n {
        RoundIs(b, n);
      }
      assert Used(tasks, Tried(b, m));
    }
  }

  /** The search fails exactly if no id but perhaps `b` is free, and `b` is one the round comes back to. */
  lemma FailsExactly(tasks: seq<Task>, b: nat)
    requires b < PID_MAX
    ensures ComesBack(tasks, b) <==> NoneFree(tasks, b)
  {
    if ComesBack(tasks, b) {
      var n: nat :| n > 1 && Passed(tasks, b, n - 1) && Tried(b, n) == b;
      ComesBackMeans(tasks, b, n);
    }
    if NoneFree(tasks, b) {
      var n := PID_MAX - RESTART;
      TriedAround(b, n);
      forall m | 1 <= m <= n - 1 ensures Used(tasks, Tried(b, m)) && Tried(b, m) != b {
        TriedRange(b, m);
        if Tried(b, m) == b { RoundIs(b, m); }
      }
      assert n > 1 && Passed(tasks, b, n - 1) && Tried(b, n) == b;
    }
  }

  lemma EarlyReached(b: nat, x: nat) returns (m: nat)
    requires RESTART <= b < PID_MAX && RESTART <= x < PID_MAX && x != b
    ensures Tried(b, m) == x && 1 <= m < PID_MAX - RESTART
  {
    if b < x {
      m := x - b;
      TriedUp(b, m);
    } else {
      m := x - RESTART + PID_MAX - b;
      TriedAround(b, m);
    }
  }

  /** The round has PID_MAX - RESTART ids. */
  lemma RoundIs(b: nat, n: nat)
    requires RESTART <= b < PID_MAX && 1 <= n && Tried(b, n) == b
    ensures n >= PID_MAX - RESTART
  {
    if n < PID_MAX - RESTART {
      if b + n < PID_MAX { TriedUp(b, n); } else { TriedAround(b, n); }
    }
  }

  lemma FreeNotFailed(tasks: seq<Task>, b: nat, p: nat)
    requires b < PID_MAX && FirstFree(tasks, b, p)
    ensures 0 < p < PID_MAX && !Used(tasks, p)
  {
    var n: nat :| FreeAt(tasks, b, n, p);
    TriedRange(b, n);
  }

  // ---- the scan

  /** The scan of the first `j` tasks: none has the id `last`, and none has one between it and `safe`. */
  predicate Scanned(tasks: seq<Task>, j: nat, last: nat, safe: nat)
    requires j <= |tasks|
  {
    forall i :: 0 <= i < j ==> Clear(tasks[i], last, safe)
  }

  predicate Clear(t: Task, last: nat, safe: nat) {
    && t.pid != last && t.pgrp != last && t.tgid != last && t.session != last
    && !(last < t.pid < safe) && !(last < t.pgrp < safe) && !(last < t.tgid < safe) && !(last < t.session < safe)
  }

  lemma ScannedAll(tasks: seq<Task>, last: nat, safe: nat)
    requires Scanned(tasks, |tasks|, last, safe)
    ensures !Used(tasks, last) && forall x {:trigger Used(tasks, x)} :: last < x < safe ==> !Used(tasks, x)
  {
    forall x | x == last || last < x < safe ensures !Used(tasks, x) {
      forall i | 0 <= i < |tasks| ensures !Has(tasks[i], x) {
        assert Clear(tasks[i], last, safe);
      }
    }
  }

  function Lower(safe: nat, last: nat, x: nat): nat {
    if x > last && safe > x then x else safe
  }

  /** next_safe after looking at task `t`. */
  function LowerAll(t: Task, last: nat, safe: nat): nat {
    Lower(Lower(Lower(Lower(safe, last, t.pid), last, t.pgrp), last, t.tgid), last, t.session)
  }

  lemma ScannedOne(tasks: seq<Task>, j: nat, last: nat, safe: nat)
    requires j < |tasks| && Scanned(tasks, j, last, safe) && !Has(tasks[j], last) && last < safe
    ensures Scanned(tasks, j + 1, last, LowerAll(tasks[j], last, safe)) && last < LowerAll(tasks[j], last, safe) <= safe
  {
  }

  /** next_safe after looking at the first `j` tasks: the least of their ids above `last`. */
  function Bound(tasks: seq<Task>, j: nat, last: nat): nat
    requires j <= |tasks|
    decreases j
  {
    if j == 0 then PID_MAX else LowerAll(tasks[j - 1], last, Bound(tasks, j - 1, last))
  }

  lemma {:induction false} BoundIs(tasks: seq<Task>, j: nat, last: nat)
    requires j <= |tasks| && last < PID_MAX
    ensures last < Bound(tasks, j, last) <= PID_MAX
    ensures Bound(tasks, j, last) < PID_MAX ==> Seen(tasks, j, Bound(tasks, j, last))
    ensures forall x {:trigger Seen(tasks, j, x)} :: last < x < Bound(tasks, j, last) ==> !Seen(tasks, j, x)
    decreases j
  {
    if j > 0 {
      BoundIs(tasks, j - 1, last);
      var safe := Bound(tasks, j - 1, last);
      LowerIs(tasks[j - 1], last, safe);
      forall x | last < x < Bound(tasks, j, last) ensures !Seen(tasks, j, x) {
        assert !Seen(tasks, j - 1, x) && !Has(tasks[j - 1], x);
      }
      if Bound(tasks, j, last) == safe && safe < PID_MAX { assert Seen(tasks, j - 1, safe); }
    }
  }

  lemma LowerIs(t: Task, last: nat, safe: nat)
    requires last < safe
    ensures var r := LowerAll(t, last, safe);
            && last < r <= safe && (r < safe ==> Has(t, r)) && forall x :: last < x < r ==> !Has(t, x)
  {
  }

  /** One of the first `j` tasks has the id `x`. */
  predicate Seen(tasks: seq<Task>, j: nat, x: nat)
    requires j <= |tasks|
  {
    exists i :: 0 <= i < j && Has(tasks[i], x)
  }

  /** The place of the first task that has the id `x`. */
  function First(tasks: seq<Task>, x: nat): (k: nat)
    ensures k <= |tasks| && !Seen(tasks, k, x) && (k < |tasks| ==> Has(tasks[k], x))
  {
    if tasks == [] then 0
    else if Has(tasks[0], x) then 0
    else
      var k := First(tasks[1..], x);
      assert forall i :: 0 < i <= k ==> tasks[i] == tasks[1..][i - 1] || i == k;
      k + 1
  }

  /** A larger prefix without an id up to `last` gives the same bound for the next one. */
  lemma BoundNext(tasks: seq<Task>, j: nat, last: nat)
    requires j <= |tasks| && last + 1 < Bound(tasks, j, last) && last < PID_MAX
    ensures Bound(tasks, j, last + 1) == Bound(tasks, j, last) && !Seen(tasks, j, last + 1)
  {
    BoundIs(tasks, j, last);
    BoundIs(tasks, j, last + 1);
    var a, b := Bound(tasks, j, last), Bound(tasks, j, last + 1);
    assert a < PID_MAX ==> Seen(tasks, j, a);
    assert b < PID_MAX ==> Seen(tasks, j, b);
    assert !Seen(tasks, j, last + 1);
  }

  /** Looking again at a task whose ids the bound already heeds does not lower it. */
  lemma BoundAgain(tasks: seq<Task>, j: nat, m: nat, last: nat)
    requires j < m <= |tasks| && last < PID_MAX
    ensures LowerAll(tasks[j], last, Bound(tasks, m, last)) == Bound(tasks, m, last)
  {
    BoundIs(tasks, m, last);
    var safe := Bound(tasks, m, last);
    LowerIs(tasks[j], last, safe);
    var r := LowerAll(tasks[j], last, safe);
    if r < safe { assert Seen(tasks, m, r); }
  }

  /** What the scan knows while it tries `last`: next_safe heeds the first `m` tasks, at least those
      looked at in this pass, and none of them has `last`. */
  predicate Heeds(tasks: seq<Task>, j: nat, m: nat, last: nat, safe: nat) {
    j <= m <= |tasks| && last < PID_MAX && safe == Bound(tasks, m, last) && !Seen(tasks, m, last)
  }

  lemma HeedsOne(tasks: seq<Task>, j: nat, m: nat, last: nat, safe: nat)
    requires Heeds(tasks, j, m, last, safe) && j < |tasks| && !Has(tasks[j], last)
    ensures Heeds(tasks, j + 1, if j == m then m + 1 else m, last, LowerAll(tasks[j], last, safe))
  {
    if j < m { BoundAgain(tasks, j, m, last); }
  }

  /** At a task that has `last`, only processes before the first such one have been heeded. */
  lemma HeedsMatch(tasks: seq<Task>, j: nat, m: nat, last: nat, safe: nat)
    requires Heeds(tasks, j, m, last, safe) && j < |tasks| && Has(tasks[j], last)
    ensures j == m == First(tasks, last)
  {
    var k := First(tasks, last);
    assert k < |tasks| ==> Has(tasks[k], last);
    assert !Seen(tasks, k, last);
  }

  /** The next id is tried, next_safe being reset when it is reached. */
  lemma HeedsNext(tasks: seq<Task>, m: nat, last: nat, safe: nat)
    requires Heeds(tasks, m, m, last, safe)
    ensures if last + 1 < safe then Heeds(tasks, 0, m, last + 1, safe) else Heeds(tasks, 0, 0, Next(last), PID_MAX)
  {
    BoundIs(tasks, m, last);
    if last + 1 < safe { BoundNext(tasks, m, last); }
  }

  /** next_safe after a scan that came back to `b`.  It looks at processes before the first one with
      the id below `b`. */
  function LeftSafe(tasks: seq<Task>, b: nat): nat {
    if b <= RESTART then PID_MAX
    else
      var safe := Bound(tasks, First(tasks, b - 1), b - 1);
      if b < safe then safe else PID_MAX
  }

  lemma LeftIs(tasks: seq<Task>, m: nat, last: nat, safe: nat, b: nat)
    requires Heeds(tasks, m, m, last, safe) && m == First(tasks, last)
    requires Next(last) == b && RESTART <= last && RESTART <= b
    ensures (if last + 1 < safe then safe else PID_MAX) == LeftSafe(tasks, b)
  {
    BoundIs(tasks, m, last);
  }

  /** The n-th id is being tried; the search ends at the stop-th at the latest. */
  predicate Trying(tasks: seq<Task>, begin: nat, n: nat, stop: nat, last: nat) {
    && 1 <= n <= stop && StopAt(tasks, begin, stop) && begin < PID_MAX
    && last == Tried(begin, n) && 0 < last < PID_MAX && Passed(tasks, begin, n - 1) && (n > 1 ==> last != begin)
  }

  lemma TryNext(tasks: seq<Task>, begin: nat, n: nat, stop: nat, last: nat)
    requires Trying(tasks, begin, n, stop, last) && Used(tasks, last)
    ensures n < stop &&
            if Next(last) == begin then NoneFree(tasks, begin) && RESTART <= last
            else Trying(tasks, begin, n + 1, stop, Next(last))
  {
    TriedRange(begin, n + 1);
    assert Tried(begin, n + 1) == Next(Tried(begin, n));
    assert Passed(tasks, begin, n);
    if Next(last) == begin {
      ComesBackMeans(tasks, begin, n + 1);
      TriedRange(begin, n);
    }
  }

  /** The scan is at task `j`, trying the n-th id. */
  predicate Scanning(tasks: seq<Task>, begin: nat, n: nat, stop: nat, j: nat, m: nat, last: nat, safe: nat) {
    && j <= |tasks| && Trying(tasks, begin, n, stop, last) && last < safe <= PID_MAX
    && Scanned(tasks, j, last, safe) && Heeds(tasks, j, m, last, safe)
  }

  lemma ScanOne(tasks: seq<Task>, begin: nat, n: nat, stop: nat, j: nat, m: nat, last: nat, safe: nat)
    requires Scanning(tasks, begin, n, stop, j, m, last, safe) && j < |tasks| && !Has(tasks[j], last)
    ensures Scanning(tasks, begin, n, stop, j + 1, if j == m then m + 1 else m, last, LowerAll(tasks[j], last, safe))
  {
    ScannedOne(tasks, j, last, safe);
    HeedsOne(tasks, j, m, last, safe);
  }

  lemma ScanMatch(tasks: seq<Task>, begin: nat, n: nat, stop: nat, j: nat, m: nat, last: nat, safe: nat)
    requires Scanning(tasks, begin, n, stop, j, m, last, safe) && j < |tasks| && Has(tasks[j], last)
    ensures n < stop
    ensures var (m', safe') := if last + 1 < safe then (m, safe) else (0, PID_MAX);
            if Next(last) == begin then NoneFree(tasks, begin) && safe' == LeftSafe(tasks, begin)
            else Scanning(tasks, begin, n + 1, stop, 0, m', Next(last), safe')
  {
    assert Used(tasks, last);
    TryNext(tasks, begin, n, stop, last);
    HeedsMatch(tasks, j, m, last, safe);
    HeedsNext(tasks, m, last, safe);
    if Next(last) == begin { LeftIs(tasks, m, last, safe, begin); }
  }

  class PidAllocator {
    var last: nat
    var safe: nat
    var tasks: seq<Task>

    function Abs(): State
      reads this
    {
      State(last, safe, tasks)
    }

    /** The next id, with next_safe reset when it is reached (lines 111-115). */
    method Advance()
      requires last < safe <= PID_MAX
      modifies `last, `safe
      ensures last == Next(old(last)) && safe == if old(last) + 1 < old(safe) then old(safe) else PID_MAX
    {
      last := last + 1;
      if last >= safe {
        if last >= PID_MAX {
          last := RESTART;
        }
        safe := PID_MAX;
      }
    }

    /** next_safe is lowered to the ids of `p` above last_pid (lines 120-127). */
    method Heed(p: Task)
      modifies `safe
      ensures safe == LowerAll(p, last, old(safe))
    {
      safe := Lower(safe, last, p.pid);
      safe := Lower(safe, last, p.pgrp);
      safe := Lower(safe, last, p.tgid);
      safe := Lower(safe, last, p.session);
    }

    /** The scan from the label inside on: the ids from `last` on are tried; 0 if it comes back to
        `begin` (lines 102-128). */
    method Scan(begin: nat) returns (pid: nat)
      requires begin < PID_MAX && last == Tried(begin, 1) && Ends(tasks, begin)
      modifies `last, `safe
      ensures pid != 0 ==> last == pid && ScanFinds(tasks, begin, pid, safe)
      ensures pid == 0 <==> NoneFree(tasks, begin)
      ensures pid == 0 ==> last == begin && safe == LeftSafe(tasks, begin)
    {
      ghost var stop := EndFound(tasks, begin);
      ghost var n, m: nat := 1, 0;
      safe := PID_MAX;
      TriedRange(begin, 1);
      var j: nat := 0;
      while j < |tasks|
        invariant Scanning(tasks, begin, n, stop, j, m, last, safe)
        decreases stop - n, |tasks| - j
      {
        var p := tasks[j];
        if p.pid == last || p.pgrp == last || p.tgid == last || p.session == last {
          ScanMatch(tasks, begin, n, stop, j, m, last, safe);
          if last + 1 >= safe { m := 0; }
          Advance();
          if last == begin {
            return 0;
          }
          n, j := n + 1, 0;
        } else {
          ScanOne(tasks, begin, n, stop, j, m, last, safe);
          if j == m { m := m + 1; }
          Heed(p);
          j := j + 1;
        }
      }
      assert ScanAt(tasks, begin, n, last, safe);
      FoundMeans(tasks, begin, n, last, safe);
      return last;
    }

    /** get_pid: if the cached range is right, the same id as the plain search from last_pid on finds,
        mostly without a search. */
    method GetPid(clonePid: bool, current: Task) returns (pid: nat)
      requires !clonePid ==> last < PID_MAX && (Scans(Abs()) ==> Ends(tasks, last))
      modifies `last, `safe
      ensures clonePid ==> pid == current.pid && Abs() == old(Abs())
      ensures !clonePid ==> (pid == 0 <==> old(Fails(Abs())))
      ensures !clonePid && pid == 0 ==> Abs() == Failed(old(Abs()))
      ensures !clonePid && pid != 0 ==> Took(old(Abs()), pid, Abs())
      ensures !clonePid && pid != 0 && old(Inv(Abs())) ==> FirstFree(tasks, old(last), pid) && Inv(Abs())
    {
      if clonePid {
        return current.pid;
      }
      var begin := last;
      assert Tried(begin, 1) == Next(Tried(begin, 0));
      last := last + 1;
      ghost var s := old(Abs());
      if last >= PID_MAX {
        last := RESTART;
        pid := Scan(begin);
      } else if last >= safe {
        pid := Scan(begin);
      } else {
        pid := last;
      }
      if pid != 0 && Inv(s) { TookFresh(s, pid, Abs()); }
    }
  }

  lemma FoundMeans(tasks: seq<Task>, b: nat, n: nat, p: nat, safe: nat)
    requires b < PID_MAX && ScanAt(tasks, b, n, p, safe)
    ensures p != 0 && !NoneFree(tasks, b)
  {
    ScannedAll(tasks, p, safe);
    TriedRange(b, n);
    if n == 1 { assert Tried(b, 1) == Next(Tried(b, 0)); }
  }

  /** The call looks at all processes: last_pid wraps, or has reached next_safe. */
  predicate Scans(s: State) {
    s.last + 1 >= PID_MAX || s.last + 1 >= s.safe
  }

  /** The call returns 0: it scans, and no id of the round is free but perhaps last_pid. */
  ghost predicate Fails(s: State) {
    Scans(s) && NoneFree(s.tasks, s.last)
  }

  function Failed(s: State): State {
    s.(safe := LeftSafe(s.tasks, s.last))
  }

  /** What the scan found: ids up to the n-th tried were in use; then one pass over all tasks met neither
      `p` nor anything between it and `safe`. */
  predicate ScanAt(tasks: seq<Task>, b: nat, n: nat, p: nat, safe: nat) {
    && n >= 1 && p == Tried(b, n) && Passed(tasks, b, n - 1) && (n > 1 ==> p != b)
    && p < safe <= PID_MAX && Scanned(tasks, |tasks|, p, safe)
  }

  ghost predicate ScanFinds(tasks: seq<Task>, b: nat, p: nat, safe: nat) {
    exists n: nat {:trigger Tried(b, n)} :: ScanAt(tasks, b, n, p, safe)
  }

  /** A successful get_pid without CLONE_PID, as the code takes it: below the cached bound the next id,
      without a look at any task; otherwise a scan. */
  ghost predicate Took(s: State, p: nat, s': State) {
    if !Scans(s) then p == s.last + 1 && s' == s.(last := p)
    else s'.tasks == s.tasks && s'.last == p && ScanFinds(s.tasks, s.last, p, s'.safe)
  }

  /** If the cached range is right, either way finds the id a plain search finds, and leaves a right
      range behind. */
  lemma TookFresh(s: State, p: nat, s': State)
    requires Inv(s) && Took(s, p, s')
    ensures FirstFree(s.tasks, s.last, p) && 0 < p < PID_MAX && !Used(s.tasks, p) && Inv(s')
  {
    if !Scans(s) {
      assert Tried(s.last, 1) == Next(Tried(s.last, 0));
      assert FreeAt(s.tasks, s.last, 1, p);
    } else {
      var n: nat :| ScanAt(s.tasks, s.last, n, p, s'.safe);
      assert ScanAt(s.tasks, s.last, n, p, s'.safe);
      ScannedAll(s.tasks, p, s'.safe);
      assert FreeAt(s.tasks, s.last, n, p);
    }
    FreeNotFailed(s.tasks, s.last, p);
  }

  /** A scan makes the cached range right whatever it was before. */
  lemma ScanRestores(s: State, p: nat, s': State)
    requires s.last < PID_MAX && Scans(s) && Took(s, p, s')
    ensures Inv(s') && 0 < p < PID_MAX && !Used(s.tasks, p)
  {
    var n: nat :| ScanAt(s.tasks, s.last, n, p, s'.safe);
    assert ScanAt(s.tasks, s.last, n, p, s'.safe);
    ScannedAll(s.tasks, p, s'.safe);
    TriedRange(s.last, n);
  }

  // ---- after a call that returned 0

  /** Of the processes before the first one with the id below `b`, one has the id above `b` and none has `b`;
      or there is no id above `b`. */
  predicate LeavesNone(tasks: seq<Task>, b: nat) {
    || b == PID_MAX - 1
    || (b > RESTART && var k := First(tasks, b - 1); Seen(tasks, k, b + 1) && !Seen(tasks, k, b))
  }

  lemma LeftEmpty(tasks: seq<Task>, b: nat)
    requires RESTART <= b < PID_MAX
    ensures b < LeftSafe(tasks, b) <= PID_MAX && (LeftSafe(tasks, b) == b + 1 <==> LeavesNone(tasks, b))
  {
    if b > RESTART {
      var k := First(tasks, b - 1);
      BoundIs(tasks, k, b - 1);
      var safe := Bound(tasks, k, b - 1);
      assert safe < PID_MAX ==> Seen(tasks, k, safe);
      assert b - 1 < b < safe ==> !Seen(tasks, k, b);
      assert b - 1 < b + 1 < safe ==> !Seen(tasks, k, b + 1);
    }
  }

  /** A call that returns 0 leaves a right range exactly under that condition. */
  lemma FailedExactly(s: State)
    requires s.last < PID_MAX && Fails(s)
    ensures Inv(Failed(s)) <==> LeavesNone(s.tasks, s.last)
    ensures !LeavesNone(s.tasks, s.last) ==> !Scans(Failed(s)) && Used(s.tasks, s.last + 1)
  {
    LeftEmpty(s.tasks, s.last);
    var b := s.last;
    assert b + 1 < PID_MAX ==> Used(s.tasks, b + 1);
  }

  /** Otherwise the next call returns an id that is in use, without a look at any task. */
  lemma FailedNext(s: State)
    requires s.last < PID_MAX && Fails(s) && !LeavesNone(s.tasks, s.last)
    ensures var t, p := Failed(s), s.last + 1;
            !Scans(t) && Took(t, p, t.(last := p)) && Used(t.tasks, p)
  {
    FailedExactly(s);
  }

  /** All ids above RESTART are taken, and RESTART itself was given out last and is free again. */
  function Crowded(): State {
    State(RESTART, RESTART + 1, seq(PID_MAX - RESTART - 1, i requires 0 <= i => Alone(RESTART + 1 + i)))
  }

  function Alone(x: nat): Task {
    Task(x, x, x, x)
  }

  /** There the first call returns 0, and the second an id that is in use. */
  lemma CrowdedExample(s: State)
    requires s == Crowded()
    ensures Inv(s) && Fails(s)
    ensures var t, p := Failed(s), RESTART + 1; Took(t, p, t.(last := p)) && Used(t.tasks, p)
  {
    forall x | RESTART < x < PID_MAX ensures Used(s.tasks, x) {
      assert s.tasks[x - RESTART - 1] == Alone(x) && Has(Alone(x), x);
    }
    FailedNext(s);
  }

  // ---- runs of forks, exits and changes of group or session

  /** A fork gives the new task an id from get_pid; its group and session, and maybe its thread group,
      are those of a live task.  A fork for which get_pid returns 0 comes to nothing.  setpgid and
      setsid give a task ids that are in use. */
  datatype Event = Fork(pid: nat, parent: nat, thread: bool, last: nat, safe: nat) | NoFork | Exit(i: nat)
                 | Regroup(i: nat, pgrp: nat, session: nat)

  function Child(p: Task, pid: nat, thread: bool): Task {
    Task(pid, p.pgrp, if thread then p.tgid else pid, p.session)
  }

  /** Those an event speaks of are there. */
  predicate Named(s: State, e: Event) {
    match e
    case Fork(_, parent, _, _, _) => parent < |s.tasks|
    case NoFork => true
    case Exit(i) => i < |s.tasks|
    case Regroup(i, _, _) => i < |s.tasks|
  }

  ghost predicate Possible(s: State, e: Event) {
    && Named(s, e)
    && match e
       case Fork(pid, parent, thread, last, safe) => Took(s, pid, State(last, safe, s.tasks))
       case NoFork => Fails(s)
       case Exit(i) => true
       case Regroup(i, pgrp, session) => Used(s.tasks, pgrp) && Used(s.tasks, session)
  }

  function Apply(s: State, e: Event): State
    requires Named(s, e)
  {
    match e
    case Fork(pid, parent, thread, last, safe) => State(last, safe, s.tasks + [Child(s.tasks[parent], pid, thread)])
    case NoFork => Failed(s)
    case Exit(i) => s.(tasks := s.tasks[..i] + s.tasks[i + 1..])
    case Regroup(i, pgrp, session) => s.(tasks := s.tasks[i := s.tasks[i].(pgrp := pgrp, session := session)])
  }

  /** Ids in use after an event were in use before, but for the new one. */
  lemma UsedBefore(s: State, e: Event, x: nat)
    requires Possible(s, e) && Used(Apply(s, e).tasks, x)
    ensures Used(s.tasks, x) || (e.Fork? && x == e.pid)
  {
    var r := Apply(s, e).tasks;
    var i :| 0 <= i < |r| && Has(r[i], x);
    match e
    case Fork(pid, parent, thread, last, safe) =>
      if i < |s.tasks| { assert Has(s.tasks[i], x); } else { assert x != pid ==> Has(s.tasks[parent], x); }
    case NoFork =>
    case Exit(k) =>
      assert Has(s.tasks[if i < k then i else i + 1], x);
    case Regroup(k, pgrp, session) =>
      assert i != k ==> Has(s.tasks[i], x);
      assert i == k && x != pgrp && x != session ==> Has(s.tasks[k], x);
  }

  /** The event is no call that returns 0 and leaves ids in use in the cached range. */
  predicate Harmless(s: State, e: Event) {
    e.NoFork? ==> LeavesNone(s.tasks, s.last)
  }

  /** An event keeps the cached range right exactly if it is harmless, and a fork from a right range gets
      an id that is in use in no role. */
  lemma EventInv(s: State, e: Event)
    requires Inv(s) && Possible(s, e)
    ensures Inv(Apply(s, e)) <==> Harmless(s, e)
    ensures e.Fork? ==> 0 < e.pid < PID_MAX && !Used(s.tasks, e.pid)
  {
    var r := Apply(s, e);
    if e.NoFork? {
      FailedExactly(s);
    } else {
      if e.Fork? { TookFresh(s, e.pid, State(e.last, e.safe, s.tasks)); }
      forall x | r.last < x < r.safe ensures !Used(r.tasks, x) {
        if Used(r.tasks, x) {
          UsedBefore(s, e, x);
        }
      }
    }
  }

  ghost predicate Run(s: State, es: seq<Event>)
    decreases |es|
  {
    es == [] || (Possible(s, es[0]) && Run(Apply(s, es[0]), es[1..]))
  }

  function After(s: State, es: seq<Event>): State
    decreases |es|
  {
    if es == [] then s else if Named(s, es[0]) then After(Apply(s, es[0]), es[1..]) else s
  }

  /** In any run, as long as no call that returned 0 has left ids in use in the cached range, every new
      task gets an id no live task has in any role, and the cached range stays right. */
  lemma {:induction false} RunFresh(s: State, es: seq<Event>, k: nat)
    requires Inv(s) && Run(s, es) && k < |es|
    requires forall i {:trigger es[i]} :: 0 <= i < k ==> Harmless(After(s, es[..i]), es[i])
    ensures Inv(After(s, es[..k])) && Possible(After(s, es[..k]), es[k])
    ensures es[k].Fork? ==> 0 < es[k].pid < PID_MAX && !Used(After(s, es[..k]).tasks, es[k].pid)
    decreases k
  {
    EventInv(s, es[0]);
    assert es[..0] == [];
    if k > 0 {
      var t, fs := Apply(s, es[0]), es[1..];
      assert Harmless(After(s, es[..0]), es[0]);
      forall i | 0 <= i < k - 1 ensures Harmless(After(t, fs[..i]), fs[i]) {
        AfterNext(s, es, i + 1);
        assert es[i + 1] == fs[i];
      }
      RunFresh(t, fs, k - 1);
      AfterNext(s, es, k);
    }
  }

  lemma AfterNext(s: State, es: seq<Event>, k: nat)
    requires 0 < k <= |es| && Named(s, es[0])
    ensures After(s, es[..k]) == After(Apply(s, es[0]), es[1..][..k - 1])
  {
    assert es[..k][1..] == es[1..][..k - 1] && es[..k][0] == es[0];
  }
}
