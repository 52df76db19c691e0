/** All inodes' lock lists and the block lists together, as a state machine whose steps are the
    calls of posix_lock_file, wake-ups and closes; and what every run of it keeps
    (fs/locks.c:412-458, 860-1036, 1719-1748). */
module LockSystem {
  import opened LockRanges
  import opened LockScan
  import opened LockEdits
  import opened LockWraps
  import opened LockWalks
  import opened LockWaits
  import opened Options

  /** The lists of all inodes, the block list, and the identity of the next struct file_lock. */
  datatype System = System(flock: map<nat, seq<FileLock>>, blocked: seq<Waiter>, next: nat)

  function Locks(st: System, ino: nat): seq<FileLock> {
    if ino in st.flock then st.flock[ino] else []
  }

  // ---- the effect of one call

  predicate FirstConflict(ls: seq<FileLock>, req: FileLock, k: int) {
    0 <= k < |ls| && PosixConflict(req, ls[k]) && forall i :: 0 <= i < k ==> !PosixConflict(req, ls[i])
  }

  predicate NoConflict(ls: seq<FileLock>, req: FileLock) {
    forall i :: 0 <= i < |ls| ==> !PosixConflict(req, ls[i])
  }

  /** The waiters left are those of `bs` that wait for none of `woken`. */
  ghost predicate StillWait(bs: seq<Waiter>, bs': seq<Waiter>, woken: set<nat>) {
    forall w :: w in bs' <==> w in bs && w.blocker !in woken
  }

  /** The list of `ino` becomes `ls'`, and the waiters of `woken` are woken. */
  ghost predicate Replaced(st: System, st': System, ino: nat, ls': seq<FileLock>, woken: set<nat>) {
    st'.flock == st.flock[ino := ls'] && StillWait(st.blocked, st'.blocked, woken)
  }

  datatype Outcome = Granted | WouldBlock | Deadlock | Sleeps

  /** One call of posix_lock_file up to its return or its sleep. */
  ghost predicate LockCall(st: System, st': System, ino: nat, req: FileLock, wait: bool, out: Outcome) {
    var ls := Locks(st, ino);
    match out
    case Granted =>
      && (req.kind == UnLck || NoConflict(ls, req)) && NoUnlocks(ls)
      && Replaced(st, st', ino, Edited(ls, req, st.next).ls, Edited(ls, req, st.next).woken)
      && st'.next == st.next + NewLocks(WalkOver(ls, req))
    case WouldBlock =>
      !wait && req.kind != UnLck && st' == st && exists k :: FirstConflict(ls, req, k)
    case Deadlock =>
      wait && req.kind != UnLck && st' == st &&
      exists k :: FirstConflict(ls, req, k) && Reaches(st.blocked, ls[k].owner, req.owner)
    case Sleeps =>
      wait && req.kind != UnLck &&
      exists k :: FirstConflict(ls, req, k) && !Reaches(st.blocked, ls[k].owner, req.owner) &&
                  st' == st.(blocked := [Waiter(req, ino, ls[k].id, ls[k].owner)] + st.blocked)
  }

  /** A sleeper leaves the block lists, woken or interrupted. */
  ghost predicate LeaveCall(st: System, st': System, o: Owner) {
    && st'.flock == st.flock && st'.next == st.next
    && forall w :: w in st'.blocked <==> w in st.blocked && w.req.owner != o
  }

  /** The locks not taken through `files`, in order. */
  function NotOf(ls: seq<FileLock>, files: nat): seq<FileLock> {
    if ls == [] then [] else (if ls[0].owner.files == files then [] else [ls[0]]) + NotOf(ls[1..], files)
  }

  /** The others. */
  function IdsOf(ls: seq<FileLock>, files: nat): set<nat> {
    set i | 0 <= i < |ls| && ls[i].owner.files == files :: ls[i].id
  }

  /** locks_remove_posix at a close. */
  ghost predicate CloseCall(st: System, st': System, ino: nat, files: nat) {
    && Replaced(st, st', ino, NotOf(Locks(st, ino), files), IdsOf(Locks(st, ino), files)) && st'.next == st.next
  }

  lemma {:induction false} NotOfMembers(ls: seq<FileLock>, files: nat)
    ensures forall l :: l in NotOf(ls, files) <==> l in ls && l.owner.files != files
  {
    if ls != [] {
      NotOfMembers(ls[1..], files);
      assert ls == [ls[0]] + ls[1..];
    }
  }

  lemma {:induction false} NotOfAll(ls: seq<FileLock>, files: nat)
    requires forall i :: 0 <= i < |ls| ==> ls[i].owner.files != files
    ensures NotOf(ls, files) == ls
  {
    if ls != [] { NotOfAll(ls[1..], files); }
  }

  /** It does not matter if one of the others is dropped first. */
  lemma {:induction false} NotOfDrop(ls: seq<FileLock>, k: nat, files: nat)
    requires k < |ls| && ls[k].owner.files == files
    ensures NotOf(DropAt(ls, k), files) == NotOf(ls, files)
  {
    if k == 0 {
      assert DropAt(ls, 0) == ls[1..];
      assert [] + NotOf(ls[1..], files) == NotOf(ls[1..], files);
    } else {
      NotOfDrop(ls[1..], k - 1, files);
      assert DropAt(ls, k)[0] == ls[0] && DropAt(ls, k)[1..] == DropAt(ls[1..], k - 1);
    }
  }

  lemma DropKeeps(ls: seq<FileLock>, k: nat)
    requires k < |ls|
    ensures DistinctIds(ls) ==> DistinctIds(DropAt(ls, k))
    ensures Canonical(ls) ==> Canonical(DropAt(ls, k))
  {
    DropAtIs(ls, k);
    var t := DropAt(ls, k);
    forall i, j | 0 <= i < j < |t| && Canonical(ls) && t[i].owner == t[j].owner
      ensures Apart(t[i], t[j]) && forall m :: i < m < j ==> t[m].owner == t[i].owner
    {
      var p, q := if i < k then i else i + 1, if j < k then j else j + 1;
      assert t[i] == ls[p] && t[j] == ls[q];
      forall m | i < m < j ensures t[m].owner == t[i].owner {
        assert t[m] == ls[if m < k then m else m + 1];
      }
    }
  }

  lemma {:induction false} NotOfKeeps(ls: seq<FileLock>, files: nat)
    ensures DistinctIds(ls) ==> DistinctIds(NotOf(ls, files))
    ensures Canonical(ls) ==> Canonical(NotOf(ls, files))
    decreases |ls|
  {
    if k :| 0 <= k < |ls| && ls[k].owner.files == files {
      DropKeeps(ls, k);
      NotOfDrop(ls, k, files);
      NotOfKeeps(DropAt(ls, k), files);
    } else {
      NotOfAll(ls, files);
    }
  }

  /** A close erases the map of its owners, and nothing else, of any list. */
  lemma {:induction false} NotOfErases(ls: seq<FileLock>, files: nat, o: Owner, x: int)
    ensures TypeAt(NotOf(ls, files), o, x) == if o.files == files then UnLck else TypeAt(ls, o, x)
  {
    if ls != [] {
      NotOfErases(ls[1..], files, o, x);
      var rest, t := NotOf(ls[1..], files), NotOf(ls, files);
      if ls[0].owner.files == files { assert t == rest; } else { assert t[0] == ls[0] && t[1..] == rest; }
    }
  }

  // ---- the invariant

  predicate Holds(l: FileLock, x: int) {
    l.start <= x <= l.end
  }

  /** No byte is under locks of two owners unless both only read. */
  ghost predicate ByteSafe(ls: seq<FileLock>) {
    forall i, j, x {:trigger Holds(ls[i], x), Holds(ls[j], x)} ::
      0 <= i < |ls| && 0 <= j < |ls| && ls[i].owner != ls[j].owner && Holds(ls[i], x) && Holds(ls[j], x) ==>
        ls[i].kind == RdLck && ls[j].kind == RdLck
  }

  /** The lock a sleeper is queued on exists, is held by the recorded owner, and conflicts. */
  predicate Justified(st: System, w: Waiter) {
    exists i :: 0 <= i < |Locks(st, w.ino)| && Blocks(Locks(st, w.ino)[i], w)
  }

  predicate Blocks(l: FileLock, w: Waiter) {
    l.id == w.blocker && l.owner == w.holder && PosixConflict(w.req, l)
  }

  ghost predicate Inv(st: System) {
    && (forall ino {:trigger Locks(st, ino)} :: AllBounded(Locks(st, ino)) && ByteSafe(Locks(st, ino)))
    && WaitsOnce(st.blocked) && ChainsEnd(st.blocked)
    && (forall w :: w in st.blocked ==> Justified(st, w))
    && Numbered(st)
  }

  /** No two locks, of one inode or of two, are the same struct file_lock. */
  ghost predicate Numbered(st: System) {
    && (forall ino {:trigger Locks(st, ino)} :: IdsBelow(Locks(st, ino), st.next) && DistinctIds(Locks(st, ino)))
    && (forall a, b {:trigger Locks(st, a), Locks(st, b)} :: a != b ==> NoSharedId(Locks(st, a), Locks(st, b)))
  }

  predicate NoSharedId(ls: seq<FileLock>, ms: seq<FileLock>) {
    forall i, j :: 0 <= i < |ls| && 0 <= j < |ms| ==> ls[i].id != ms[j].id
  }

  lemma ReplacedNumbered(st: System, st': System, ino: nat, ls': seq<FileLock>, woken: set<nat>)
    requires Numbered(st) && Replaced(st, st', ino, ls', woken) && Renumbered(Locks(st, ino), ls', st.next, st'.next)
    ensures Numbered(st')
  {
    var ls := Locks(st, ino);
    assert IdsBelow(ls, st.next) && Locks(st', ino) == ls';
    forall n ensures IdsBelow(Locks(st', n), st'.next) && DistinctIds(Locks(st', n)) {
      assert n != ino ==> Locks(st', n) == Locks(st, n) && IdsBelow(Locks(st, n), st.next);
    }
    forall n | n != ino ensures NoSharedId(ls', Locks(st', n)) && NoSharedId(Locks(st', n), ls') {
      assert Locks(st', n) == Locks(st, n) && IdsBelow(Locks(st, n), st.next) && NoSharedId(ls, Locks(st, n));
    }
    forall a, b | a != b ensures NoSharedId(Locks(st', a), Locks(st', b)) {
      if a != ino && b != ino {
        assert Locks(st', a) == Locks(st, a) && Locks(st', b) == Locks(st, b);
      }
    }
  }

  /** Growing locks keep their waiters' reasons to wait. */
  lemma StillJustified(st: System, st': System, ino: nat, ls': seq<FileLock>, woken: set<nat>, w: Waiter)
    requires Replaced(st, st', ino, ls', woken) && Kept(Locks(st, ino), ls', woken)
    requires w in st'.blocked && Justified(st, w)
    ensures Justified(st', w)
  {
    var ls := Locks(st, w.ino);
    var i :| 0 <= i < |ls| && Blocks(ls[i], w);
    if w.ino == ino {
      assert HasExtension(ls', ls[i]);
      var j :| 0 <= j < |ls'| && Extends(ls'[j], ls[i]);
      assert Locks(st', ino) == ls' && Blocks(ls'[j], w);
    } else {
      assert Locks(st', w.ino) == ls;
    }
  }

  lemma ReplacedKeeps(st: System, st': System, ino: nat, ls': seq<FileLock>, woken: set<nat>)
    requires Inv(st) && Replaced(st, st', ino, ls', woken) && Renumbered(Locks(st, ino), ls', st.next, st'.next)
    requires Kept(Locks(st, ino), ls', woken) && AllBounded(ls') && ByteSafe(ls')
    ensures Inv(st')
  {
    forall n ensures AllBounded(Locks(st', n)) && ByteSafe(Locks(st', n)) {
      assert Locks(st', n) == if n == ino then ls' else Locks(st, n);
    }
    FewerWaiters(st.blocked, st'.blocked);
    ReplacedNumbered(st, st', ino, ls', woken);
    forall w | w in st'.blocked ensures Justified(st', w) {
      StillJustified(st, st', ino, ls', woken, w);
    }
  }

  /** Byte by byte, a granted request that passed the conflict scan shares what it gets. */
  lemma GrantedShares(ls: seq<FileLock>, req: FileLock, l: FileLock, m: FileLock, x: int)
    requires ByteSafe(ls) && NoUnlocks(ls) && (req.kind == UnLck || NoConflict(ls, req))
    requires l.owner != m.owner && l.kind != UnLck && m.kind != UnLck && From(ls, req, l, x) && From(ls, req, m, x)
    ensures l.kind == RdLck
  {
    var i := if Asked(req, l, x) then -1 else OldLock(ls, req, l, x);
    var j := if Asked(req, m, x) then -1 else OldLock(ls, req, m, x);
    if i >= 0 && j >= 0 {
      assert Holds(ls[i], x) && Holds(ls[j], x);
    } else if j >= 0 {
      assert !PosixConflict(req, ls[j]);
    } else if i >= 0 {
      assert !PosixConflict(req, ls[i]);
    }
  }

  /** The lock a byte of `l` was under before. */
  ghost function OldLock(ls: seq<FileLock>, req: FileLock, l: FileLock, x: int): (j: int)
    requires From(ls, req, l, x) && !Asked(req, l, x)
    ensures 0 <= j < |ls| && Covers(ls[j], l.owner, x) && ls[j].kind == l.kind
  {
    var j :| 0 <= j < |ls| && Covers(ls[j], l.owner, x) && ls[j].kind == l.kind;
    j
  }

  /** So no edit of any list makes a byte unsafe. */
  lemma GrantedSafe(ls: seq<FileLock>, req: FileLock, ls': seq<FileLock>)
    requires ByteSafe(ls) && NoUnlocks(ls) && (req.kind == UnLck || NoConflict(ls, req))
    requires AllBacked(ls, req, ls') && AllBounded(ls')
    ensures ByteSafe(ls')
  {
    forall i, j, x | 0 <= i < |ls'| && 0 <= j < |ls'| && ls'[i].owner != ls'[j].owner &&
                     Holds(ls'[i], x) && Holds(ls'[j], x)
      ensures ls'[i].kind == RdLck && ls'[j].kind == RdLck
    {
      assert Backed(ls, req, ls'[i]) && Backed(ls, req, ls'[j]);
      assert From(ls, req, ls'[i], x) && From(ls, req, ls'[j], x);
      GrantedShares(ls, req, ls'[i], ls'[j], x);
      GrantedShares(ls, req, ls'[j], ls'[i], x);
    }
  }

  /** A safe list has a compatible map. */
  lemma SafeCompatible(ls: seq<FileLock>)
    requires ByteSafe(ls) && NoUnlocks(ls)
    ensures Compatible(ls)
  {
    forall o, o', x | o != o' ensures Shareable(TypeAt(ls, o, x), TypeAt(ls, o', x)) {
      var i := TypeAtHit(ls, o, x);
      var j := TypeAtHit(ls, o', x);
      assert i >= 0 && j >= 0 ==> Holds(ls[i], x) && Holds(ls[j], x);
    }
  }

  lemma SameJustified(st: System, st': System, w: Waiter)
    requires Justified(st, w) && Locks(st', w.ino) == Locks(st, w.ino)
    ensures Justified(st', w)
  {
    var i :| 0 <= i < |Locks(st, w.ino)| && Blocks(Locks(st, w.ino)[i], w);
    assert Blocks(Locks(st', w.ino)[i], w);
  }

  lemma LockCallKeeps(st: System, st': System, ino: nat, req: FileLock, wait: bool, out: Outcome)
    requires Inv(st) && LockCall(st, st', ino, req, wait, out) && Request(req) && !Asleep(st.blocked, req.owner)
    ensures Inv(st')
  {
    match out {
      case Granted =>
        var ls, r := Locks(st, ino), Edited(Locks(st, ino), req, st.next);
        EditAccounted(ls, req, st.next);
        GrantedSafe(ls, req, r.ls);
        ReplacedKeeps(st, st', ino, r.ls, r.woken);
      case WouldBlock =>
      case Deadlock =>
      case Sleeps =>
        SleepKeeps(st, st', ino, req);
    }
  }

  lemma SleepKeeps(st: System, st': System, ino: nat, req: FileLock)
    requires Inv(st) && LockCall(st, st', ino, req, true, Sleeps) && !Asleep(st.blocked, req.owner)
    ensures Inv(st')
  {
    var ls := Locks(st, ino);
    var k :| FirstConflict(ls, req, k) && !Reaches(st.blocked, ls[k].owner, req.owner) &&
             st' == st.(blocked := [Waiter(req, ino, ls[k].id, ls[k].owner)] + st.blocked);
    var w := Waiter(req, ino, ls[k].id, ls[k].owner);
    OneMoreWaiter(st.blocked, w);
    assert forall n {:trigger Locks(st', n)} :: Locks(st', n) == Locks(st, n);
    assert Blocks(Locks(st', ino)[k], w);
    forall v | v in st'.blocked ensures Justified(st', v) {
      if v != w { SameJustified(st, st', v); }
    }
  }

  lemma LeaveCallKeeps(st: System, st': System, o: Owner)
    requires Inv(st) && LeaveCall(st, st', o)
    ensures Inv(st') && !Asleep(st'.blocked, o)
  {
    FewerWaiters(st.blocked, st'.blocked);
    assert forall n {:trigger Locks(st', n)} :: Locks(st', n) == Locks(st, n);
    forall w | w in st'.blocked ensures Justified(st', w) {
      SameJustified(st, st', w);
    }
  }

  lemma CloseAccounted(ls: seq<FileLock>, files: nat, n: nat)
    requires AllBounded(ls) && DistinctIds(ls)
    ensures var ls' := NotOf(ls, files);
            Kept(ls, ls', IdsOf(ls, files)) && AllBounded(ls') && Renumbered(ls, ls', n, n)
  {
    var ls' := NotOf(ls, files);
    NotOfMembers(ls, files);
    NotOfKeeps(ls, files);
    forall i | 0 <= i < |ls| ensures ls[i].id in IdsOf(ls, files) || HasExtension(ls', ls[i]) {
      assert ls[i] in ls;
      if ls[i] in ls' {
        var j :| 0 <= j < |ls'| && ls'[j] == ls[i];
        assert Extends(ls'[j], ls[i]);
      }
    }
    forall i | 0 <= i < |ls'| ensures Bounded(ls'[i]) && HasId(ls, ls'[i].id) {
      assert ls'[i] in ls';
      var j :| 0 <= j < |ls| && ls[j] == ls'[i];
    }
  }

  lemma FewerSafe(ls: seq<FileLock>, ls': seq<FileLock>)
    requires ByteSafe(ls) && forall l :: l in ls' ==> l in ls
    ensures ByteSafe(ls')
  {
    forall i, j, x | 0 <= i < |ls'| && 0 <= j < |ls'| && ls'[i].owner != ls'[j].owner &&
                     Holds(ls'[i], x) && Holds(ls'[j], x)
      ensures ls'[i].kind == RdLck && ls'[j].kind == RdLck
    {
      assert ls'[i] in ls' && ls'[j] in ls';
      var a :| 0 <= a < |ls| && ls[a] == ls'[i];
      var b :| 0 <= b < |ls| && ls[b] == ls'[j];
      assert Holds(ls[a], x) && Holds(ls[b], x);
    }
  }

  lemma CloseCallKeeps(st: System, st': System, ino: nat, files: nat)
    requires Inv(st) && CloseCall(st, st', ino, files)
    ensures Inv(st')
  {
    var ls := Locks(st, ino);
    CloseAccounted(ls, files, st.next);
    NotOfMembers(ls, files);
    FewerSafe(ls, NotOf(ls, files));
    ReplacedKeeps(st, st', ino, NotOf(ls, files), IdsOf(ls, files));
  }

  // ---- runs

  datatype Event =
    | Call(ino: nat, req: FileLock, wait: bool, out: Outcome)
    | Leave(owner: Owner)
    | Close(ino: nat, files: nat)

  /** One atomic step.  A sleeping owner issues no call. */
  ghost predicate Next(st: System, ev: Event, st': System) {
    match ev
    case Call(ino, req, wait, out) =>
      Request(req) && !Asleep(st.blocked, req.owner) && LockCall(st, st', ino, req, wait, out)
    case Leave(o) => LeaveCall(st, st', o)
    case Close(ino, files) => CloseCall(st, st', ino, files)
  }

  ghost predicate Run(states: seq<System>, events: seq<Event>) {
    && |states| == |events| + 1
    && states[0] == System(map[], [], 0)
    && forall i :: 0 <= i < |events| ==> Next(states[i], events[i], states[i + 1])
  }

  lemma InitInv()
    ensures Inv(System(map[], [], 0))
  {
    var st := System(map[], [], 0);
    forall o ensures Ends(st.blocked, o) {
      assert Follow(st.blocked, o, 1) == None;
    }
  }

  lemma NextKeeps(st: System, ev: Event, st': System)
    requires Inv(st) && Next(st, ev, st')
    ensures Inv(st')
  {
    match ev {
      case Call(ino, req, wait, out) => LockCallKeeps(st, st', ino, req, wait, out);
      case Leave(o) => LeaveCallKeeps(st, st', o);
      case Close(ino, files) => CloseCallKeeps(st, st', ino, files);
    }
  }

  /** In every state of every run no byte is under conflicting locks, every sleeper really conflicts with
      the lock it is queued on, no two locks are the same, and the waits-for relation has no cycle. */
  lemma {:induction false} RunKeepsInv(states: seq<System>, events: seq<Event>, i: nat)
    requires Run(states, events) && i < |states|
    ensures Inv(states[i])
    ensures forall o, n: nat :: n > 0 ==> Follow(states[i].blocked, o, n) != Some(o)
  {
    if i == 0 {
      InitInv();
    } else {
      RunKeepsInv(states, events, i - 1);
      assert Next(states[i - 1], events[i - 1], states[i]);
      NextKeeps(states[i - 1], events[i - 1], states[i]);
    }
    forall o, n: nat | n > 0 ensures Follow(states[i].blocked, o, n) != Some(o) {
      ChainsEndAcyclic(states[i].blocked, o, n);
    }
  }

  /** The event grants a request that wraps. */
  predicate GrantsWrap(st: System, ev: Event) {
    ev.Call? && ev.out == Granted && Wraps(Locks(st, ev.ino), ev.req)
  }

  ghost predicate Orderly(st: System) {
    forall ino {:trigger Locks(st, ino)} :: Canonical(Locks(st, ino))
  }

  lemma NextOrderly(st: System, ev: Event, st': System)
    requires Orderly(st) && Next(st, ev, st')
    ensures Orderly(st') <==> !GrantsWrap(st, ev)
  {
    match ev {
      case Call(ino, req, wait, out) =>
        if out == Granted { EditOverwrites(Locks(st, ino), req, st.next); }
        if out == Granted { assert Locks(st', ino) == Edited(Locks(st, ino), req, st.next).ls; }
        forall n | n != ino || out != Granted ensures Locks(st', n) == Locks(st, n) {}
      case Leave(o) =>
        forall n ensures Locks(st', n) == Locks(st, n) {}
      case Close(ino, files) =>
        NotOfKeeps(Locks(st, ino), files);
        forall n ensures Locks(st', n) == if n == ino then NotOf(Locks(st, ino), files) else Locks(st, n) {}
    }
  }

  /** The lists are canonical as long as no request that wraps has been granted. */
  lemma {:induction false} RunOrderly(states: seq<System>, events: seq<Event>, i: nat)
    requires Run(states, events) && i < |states|
    requires forall k :: 0 <= k < i ==> !GrantsWrap(states[k], events[k])
    ensures Orderly(states[i])
  {
    if i > 0 {
      RunOrderly(states, events, i - 1);
      assert Next(states[i - 1], events[i - 1], states[i]);
      NextOrderly(states[i - 1], events[i - 1], states[i]);
    }
  }
}
