/** What the lists left by a request that wraps lead to: later calls that go wrong on them
    (fs/locks.c:924-1024). */
module LockLeftovers {
  import opened LockRanges
  import opened LockEdits
  import opened LockWraps

  const OWN := Owner(1, 1)

  function Read(id: nat, start: int, end: int): FileLock {
    FileLock(id, OWN, start, end, RdLck)
  }

  function Write(id: nat, start: int, end: int): FileLock {
    FileLock(id, OWN, start, end, WrLck)
  }

  function Unlock(start: int, end: int): FileLock {
    FileLock(0, OWN, start, end, UnLck)
  }

  /** The request makes `ls'` of the list `ls`. */
  predicate Makes(ls: seq<FileLock>, req: FileLock, n: nat, ls': seq<FileLock>) {
    NoUnlocks(ls) && Edited(ls, req, n).ls == ls'
  }

  // ---- an unlock that does not unlock

  const HELD := [Read(0, 10, 20), Write(1, 30, 40)]
  const WRAPPED := [Read(2, 0, OFFSET_MAX), Read(0, 10, 20), Write(1, 30, 40)]

  /** Read-locking the whole file over these two locks leaves the write lock behind the new one: byte 35 is
      under two types, and although the owner only reads it now, another owner's read of it is refused. */
  lemma WrapExample()
    ensures Canonical(HELD) && Clashes(HELD, Read(9, 0, OFFSET_MAX))
    ensures Makes(HELD, Read(9, 0, OFFSET_MAX), 2, WRAPPED)
    ensures TypeAt(WRAPPED, OWN, 35) == RdLck
    ensures PosixConflict(FileLock(8, Owner(2, 2), 35, 35, RdLck), WRAPPED[2])
  {
    var req := Read(9, 0, OFFSET_MAX);
    assert Behind(HELD[0], HELD[1], req);
    assert Covers(WRAPPED[0], OWN, 35);
    var w := Start(HELD, req);
    assert Turn(w) == w.(more := false) && Walked(w, OWN) == Walked(Turn(w), OWN);
    assert Inserted(Turn(w), 2).ls == WRAPPED;
  }

  /** If the owner then unlocks byte 35, it still has it, under the write lock. */
  lemma UnlockExample()
    ensures var ls := Edited(WRAPPED, Unlock(35, 35), 3).ls;
            TypeAt(ls, OWN, 35) == WrLck && !Overwritten(WRAPPED, ls, Unlock(35, 35))
  {
    var w := Start(WRAPPED, Unlock(35, 35));
    var t := w.(left := 0, right := 0, added := true, more := false);
    assert Turn(w) == t && Walked(w, OWN) == Walked(Turn(w), OWN);
    var d := Doubled(t, 3);
    assert d.ls == [Read(3, 0, OFFSET_MAX)] + WRAPPED;
    var ls := CutBelow(CutAbove(d)).ls;
    var rest := [Read(0, 10, 20), Write(1, 30, 40)];
    assert ls == [Read(3, 0, 34), Read(2, 36, OFFSET_MAX), Read(0, 10, 20), Write(1, 30, 40)];
    assert ls[1..] == [Read(2, 36, OFFSET_MAX)] + rest && ls[1..][1..] == rest && rest[1..] == [Write(1, 30, 40)];
    assert TypeAt(rest, OWN, 35) == TypeAt(rest[1..], OWN, 35) == WrLck;
  }

  // ---- a lock that ends before it starts

  const ALL := [Read(1, 0, OFFSET_MAX), Read(0, 45, 58)]
  const SPLIT := [Read(3, 0, 49), Write(2, 50, 60), Read(1, 61, OFFSET_MAX), Read(0, 45, 58)]
  const LESS := [Write(2, 50, 60), Read(1, 61, OFFSET_MAX), Read(0, 45, 58)]
  const CROSSED := [Write(2, 50, 60), Read(0, 45, 58)]
  const EMPTY := [Write(2, 50, 44), Read(0, 45, 62)]

  lemma ReadAll()
    ensures Makes([Read(0, 45, 58)], Read(9, 0, OFFSET_MAX), 1, ALL)
  {
    var w := Start([Read(0, 45, 58)], Read(9, 0, OFFSET_MAX));
    assert Turn(w) == w.(more := false) && Walked(w, OWN) == Walked(Turn(w), OWN);
    assert Inserted(Turn(w), 1).ls == ALL;
  }

  lemma WriteMiddle()
    ensures Makes(ALL, Write(9, 50, 60), 2, SPLIT)
  {
    var w := Start(ALL, Write(9, 50, 60));
    var t := w.(left := 0, right := 0, more := false);
    assert Turn(w) == t && Walked(w, OWN) == Walked(Turn(w), OWN);
    var u := Inserted(t, 2);
    assert u.ls == [Write(2, 50, 60)] + ALL && u.left == 1 == u.right;
    var d := Doubled(u, 3);
    assert d.ls == [Read(3, 0, OFFSET_MAX), Write(2, 50, 60)] + ALL && d.left == 0 && d.right == 2;
    assert CutBelow(CutAbove(d)).ls == SPLIT;
  }

  lemma UnlockBelow()
    ensures Makes(SPLIT, Unlock(0, 49), 4, LESS)
  {
    var w := Start(SPLIT, Unlock(0, 49));
    var t := Turn(w);
    assert t.ls == LESS && t.b == 0;
    assert Turn(t) == t.(more := false);
    assert Walked(w, OWN) == Walked(t, OWN) && Walked(t, OWN) == Walked(Turn(t), OWN);
  }

  lemma UnlockAbove()
    ensures Makes(LESS, Unlock(61, OFFSET_MAX), 4, CROSSED)
  {
    var w := Start(LESS, Unlock(61, OFFSET_MAX));
    var t := Turn(w);
    assert t == w.(b := 1);
    var u := Turn(t);
    assert u.ls == CROSSED && u.b == 1 && u.added && u.more;
    assert Turn(u) == u.(b := 2);
    assert Walked(w, OWN) == Walked(t, OWN) && Walked(t, OWN) == Walked(u, OWN);
    assert Walked(u, OWN) == Walked(Turn(u), OWN);
  }

  lemma ReadAgain()
    ensures Makes(CROSSED, Read(9, 52, 62), 4, EMPTY)
  {
    var w := Start(CROSSED, Read(9, 52, 62));
    var t := Turn(w);
    assert t == w.(b := 1, left := 0);
    var u := Turn(t);
    assert u.ls == [Write(2, 50, 60), Read(0, 45, 62)] && u.c == Read(0, 45, 62) && u.added && u.left == 0 && u.b == 2;
    assert Walked(w, OWN) == Walked(t, OWN) && Walked(t, OWN) == Walked(u, OWN) == u;
    assert CutBelow(u).ls == EMPTY;
  }

  /** Five calls of one owner after its first lock, the first of which wraps, leave a write lock that ends
      before it starts. */
  lemma EmptyLockExample()
    ensures Makes([Read(0, 45, 58)], Read(9, 0, OFFSET_MAX), 1, ALL) && Makes(ALL, Write(9, 50, 60), 2, SPLIT)
    ensures Makes(SPLIT, Unlock(0, 49), 4, LESS) && Makes(LESS, Unlock(61, OFFSET_MAX), 4, CROSSED)
    ensures Makes(CROSSED, Read(9, 52, 62), 4, EMPTY)
  {
    ReadAll();
    WriteMiddle();
    UnlockBelow();
    UnlockAbove();
    ReadAgain();
  }

  /** It covers no byte, and the owner only reads; but the conflict test takes it to overlap what spans both
      its ends, so another owner's read there is refused. */
  lemma EmptyLockBlocks(x: int)
    ensures TypeAt(EMPTY, OWN, x) != WrLck && PosixConflict(FileLock(8, Owner(2, 2), 44, 50, RdLck), EMPTY[0])
  {
    var rest := EMPTY[1..];
    assert rest[0] == Read(0, 45, 62) && rest[1..] == [];
    assert TypeAt(rest[1..], OWN, x) == UnLck && TypeAt(rest, OWN, x) != WrLck;
    assert TypeAt(EMPTY, OWN, x) == TypeAt(rest, OWN, x);
  }
}
