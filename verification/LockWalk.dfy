/** The edit of a canonical list: the walk follows the scan of LockScan turn by turn, and the list it
    leaves is the old map overwritten (fs/locks.c:910-1024). */
module LockWalks {
  import opened LockRanges
  import opened LockScan
  import opened LockEdits
  import opened LockWraps

  // ---- the list while the walk is under way

  ghost function View(pre: seq<FileLock>, g: seq<FileLock>, post: seq<FileLock>, s: Scan): seq<FileLock>
    requires s.q <= s.r <= |g|
  {
    pre + (g[..s.q] + (if s.merged then [s.c] else []) + g[s.r..]) + post
  }

  ghost function Cursor(pre: seq<FileLock>, s: Scan): nat {
    |pre| + s.q + if s.merged then 1 else 0
  }

  lemma ViewStart(ls: seq<FileLock>, pre: seq<FileLock>, g: seq<FileLock>, post: seq<FileLock>, req: FileLock)
    requires ls == pre + g + post
    ensures View(pre, g, post, Scan(0, 0, req, false, false, false)) == ls
  {
    assert g[..0] + [] + g[0..] == g;
  }

  lemma ViewAt(ls: seq<FileLock>, pre: seq<FileLock>, g: seq<FileLock>, post: seq<FileLock>, s: Scan)
    requires s.q <= s.r <= |g| && ls == View(pre, g, post, s)
    ensures Cursor(pre, s) <= |ls| && (s.r < |g| ==> Cursor(pre, s) < |ls| && ls[Cursor(pre, s)] == g[s.r])
  {
  }

  lemma ViewDelete(ls: seq<FileLock>, pre: seq<FileLock>, g: seq<FileLock>, post: seq<FileLock>, s: Scan)
    requires s.q <= s.r < |g| && ls == View(pre, g, post, s)
    ensures var b := Cursor(pre, s);
            b < |ls| && DropAt(ls, b) == View(pre, g, post, s.(r := s.r + 1))
  {
    var m := if s.merged then [s.c] else [];
    var rest := g[s.r + 1..];
    assert g[s.r..] == [g[s.r]] + rest;
    DropMiddle(pre, g[..s.q], m, g[s.r], rest, post);
  }

  lemma DropMiddle(pre: seq<FileLock>, a: seq<FileLock>, m: seq<FileLock>, x: FileLock, rest: seq<FileLock>,
                   post: seq<FileLock>)
    ensures var ls := pre + (a + m + ([x] + rest)) + post;
            var b := |pre| + |a| + |m|;
            b < |ls| && DropAt(ls, b) == pre + (a + m + rest) + post
  {
  }

  lemma ViewAdopt(ls: seq<FileLock>, pre: seq<FileLock>, g: seq<FileLock>, post: seq<FileLock>, s: Scan, c: FileLock)
    requires s.q <= s.r < |g| && ls == View(pre, g, post, s) && !s.merged
    ensures var b := Cursor(pre, s);
            b < |ls| && ls[b := c] == View(pre, g, post, s.(r := s.r + 1, c := c, merged := true))
  {
    assert g[s.r..] == [g[s.r]] + g[s.r + 1..];
  }

  lemma ViewPass(pre: seq<FileLock>, g: seq<FileLock>, post: seq<FileLock>, s: Scan)
    requires s.q == s.r < |g| && !s.merged
    ensures View(pre, g, post, s.(q := s.q + 1, r := s.r + 1)) == View(pre, g, post, s)
  {
    assert g[..s.q] + g[s.q..] == g == g[..s.q + 1] + g[s.q + 1..];
    assert g[..s.q] + [] + g[s.q..] == g[..s.q + 1] + [] + g[s.q + 1..];
  }

  lemma ViewCaller(ls: seq<FileLock>, pre: seq<FileLock>, g: seq<FileLock>, post: seq<FileLock>, s: Scan, c: FileLock)
    requires s.q <= s.r <= |g| && ls == View(pre, g, post, s) && s.merged
    ensures var b := Cursor(pre, s);
            b <= |ls| && ls[b - 1 := c] == View(pre, g, post, s.(c := c))
  {
  }

  /** The position is at a lock of this owner exactly while g[r..] is left. */
  lemma ViewOwned(ls: seq<FileLock>, pre: seq<FileLock>, g: seq<FileLock>, post: seq<FileLock>, s: Scan, o: Owner)
    requires s.q <= s.r <= |g| && ls == View(pre, g, post, s)
    requires Foreign(post, o) && forall i :: 0 <= i < |g| ==> g[i].owner == o
    ensures Cursor(pre, s) < |ls| && ls[Cursor(pre, s)].owner == o <==> s.r < |g|
  {
    var b := Cursor(pre, s);
    if s.r == |g| && b < |ls| {
      assert ls[b] == post[0];
    }
  }

  // ---- the variables of the walk describe the scan

  /** What `added`, `left` and `right` record about the scan. */
  ghost predicate Marks(w: Walk, pre: seq<FileLock>, g: seq<FileLock>, req: FileLock, s: Scan) {
    && s.q <= s.r <= |g| && (w.right == -1 || (w.right == w.b && s.r < |g|))
    && w.left == (if w.right >= 0 && Splits(g, s, true) then w.b else if s.left then |pre| + s.q - 1 else -1)
    && w.added == (s.added || (req.kind == UnLck && w.right >= 0))
  }

  /** Why the walk stopped: in an orderly way, or because fl_end + 1 wrapped. */
  ghost predicate Halted(g: seq<FileLock>, req: FileLock, s: Scan, right: int) {
    Stopped(g, req, s, right >= 0) || (right == -1 && Overrun(g, req, s) && Wraps(g, req))
  }

  ghost predicate AtLock(w: Walk, pre: seq<FileLock>, g: seq<FileLock>, post: seq<FileLock>, req: FileLock, s: Scan) {
    && Walking(g, req, s) && NoMerge(g, req, s) && Placed(w) && Marks(w, pre, g, req, s)
    && w.ls == View(pre, g, post, s) && w.b == Cursor(pre, s) && w.c == s.c
    && w.ci == (if s.merged then w.b - 1 else -1)
    && (s.r < |g| ==> w.b < |w.ls| && w.ls[w.b] == g[s.r])
    && (!w.more ==> Halted(g, req, s, w.right))
  }

  lemma AtStart(ls: seq<FileLock>, pre: seq<FileLock>, g: seq<FileLock>, post: seq<FileLock>, req: FileLock)
    requires Request(req) && Group(g, req.owner) && Split(ls, req.owner, pre, g, post) && NoUnlocks(ls)
    requires |pre| == FirstOf(ls, req.owner)
    ensures AtLock(Start(ls, req), pre, g, post, req, Scan(0, 0, req, false, false, false))
  {
    ViewStart(ls, pre, g, post, req);
    ViewAt(ls, pre, g, post, Scan(0, 0, req, false, false, false));
  }

  /** The guard of line 930, evaluated with wrap-around, tells whether g[r] lies beyond the caller
      lock, unless the request is one that wraps. */
  lemma BreakGuard(g: seq<FileLock>, req: FileLock, s: Scan)
    requires Walking(g, req, s) && s.r < |g| && req.kind != UnLck
    requires g[s.r].kind == req.kind && g[s.r].end >= s.c.start - 1
    ensures g[s.r].start > Succ64(s.c.end) ==>
              Stopped(g, req, s, false) || (Overrun(g, req, s) && Wraps(g, req))
    ensures !(g[s.r].start > Succ64(s.c.end)) ==> g[s.r].start <= s.c.end + 1 && s.c.end < OFFSET_MAX
  {
    assert forall i :: 0 <= i < s.r ==> Apart(g[i], g[s.r]);
  }

  /** A walk over a group that makes the request wrap cannot stop in an orderly way. */
  lemma OrderlyMeansNoWrap(g: seq<FileLock>, req: FileLock, s: Scan, right: bool)
    requires Walking(g, req, s) && NoMerge(g, req, s) && Stopped(g, req, s, right)
    ensures !Wraps(g, req)
  {
    forall i | 0 <= i < |g| && req.kind != UnLck && req.end == OFFSET_MAX && g[i].kind == req.kind
      ensures g[i].end < req.start - 1
    {
      assert i < s.q ==> Below(g[i], req);
    }
  }

  /** The turn is at g[r]. */
  ghost predicate Turning(w: Walk, pre: seq<FileLock>, g: seq<FileLock>, post: seq<FileLock>, req: FileLock, s: Scan,
                          m: Move)
  {
    AtLock(w, pre, g, post, req, s) && w.more && s.r < |g| && MoveAt(g[s.r], w.c, w.added) == m
  }

  lemma TurnSkip(w: Walk, pre: seq<FileLock>, g: seq<FileLock>, post: seq<FileLock>, req: FileLock, s: Scan)
    requires Turning(w, pre, g, post, req, s, Skip)
    ensures AtLock(Turn(w), pre, g, post, req, s.(q := s.q + 1, r := s.r + 1))
  {
    StepSkip(g, req, s);
    ViewPass(pre, g, post, s);
    ViewAt(w.ls, pre, g, post, s.(q := s.q + 1, r := s.r + 1));
  }

  lemma TurnStop(w: Walk, pre: seq<FileLock>, g: seq<FileLock>, post: seq<FileLock>, req: FileLock, s: Scan)
    requires Turning(w, pre, g, post, req, s, Stop) || Turning(w, pre, g, post, req, s, StopRight)
    ensures AtLock(Turn(w), pre, g, post, req, s)
  {
    if g[s.r].kind == req.kind { BreakGuard(g, req, s); }
  }

  lemma TurnLeft(w: Walk, pre: seq<FileLock>, g: seq<FileLock>, post: seq<FileLock>, req: FileLock, s: Scan)
    requires Turning(w, pre, g, post, req, s, PassLeft)
    ensures AtLock(Turn(w), pre, g, post, req,
                   s.(q := s.q + 1, r := s.r + 1, left := true, added := s.added || req.kind == UnLck))
  {
    StepLeft(g, req, s);
    ViewPass(pre, g, post, s);
    ViewAt(w.ls, pre, g, post, s.(q := s.q + 1, r := s.r + 1, left := true, added := s.added || req.kind == UnLck));
  }

  /** A merge only happens below OFFSET_MAX, so it never concerns a request that runs to it. */
  lemma MergedScan(g: seq<FileLock>, req: FileLock, s: Scan)
    requires Walking(g, req, s) && s.r < |g| && g[s.r].kind == req.kind && g[s.r].end >= s.c.start - 1
    requires !(g[s.r].start > Succ64(s.c.end))
    ensures var c := if s.added then Hull(s.c, g[s.r]) else Hull(g[s.r], s.c);
            var t := s.(r := s.r + 1, c := c, added := true, merged := true);
            Walking(g, req, t) && NoMerge(g, req, t)
  {
    BreakGuard(g, req, s);
    StepMerge(g, req, s);
    CallerRange(g, req, s);
  }

  lemma MergedList(w: Walk, pre: seq<FileLock>, g: seq<FileLock>, post: seq<FileLock>, s: Scan, c: FileLock)
    requires s.q <= s.r < |g| && w.ls == View(pre, g, post, s) && s.merged && w.b == Cursor(pre, s) && w.ci == w.b - 1
    ensures w.b < |w.ls| && DropAt(w.ls[w.ci := c], w.b) == View(pre, g, post, s.(r := s.r + 1, c := c))
  {
    ViewCaller(w.ls, pre, g, post, s, c);
    ViewDelete(w.ls[w.ci := c], pre, g, post, s.(c := c));
  }

  lemma TurnMergeDelete(w: Walk, pre: seq<FileLock>, g: seq<FileLock>, post: seq<FileLock>, req: FileLock, s: Scan)
    requires Turning(w, pre, g, post, req, s, MergeDelete)
    ensures AtLock(Turn(w), pre, g, post, req, s.(r := s.r + 1, c := Hull(s.c, g[s.r])))
  {
    MergedScan(g, req, s);
    var c := Hull(s.c, g[s.r]);
    MergedList(w, pre, g, post, s, c);
    ViewAt(Turn(w).ls, pre, g, post, s.(r := s.r + 1, c := c));
  }

  lemma TurnMergeAdopt(w: Walk, pre: seq<FileLock>, g: seq<FileLock>, post: seq<FileLock>, req: FileLock, s: Scan)
    requires Turning(w, pre, g, post, req, s, MergeAdopt)
    ensures AtLock(Turn(w), pre, g, post, req,
                   s.(r := s.r + 1, c := Hull(g[s.r], s.c), added := true, merged := true))
  {
    MergedScan(g, req, s);
    var c := Hull(g[s.r], s.c);
    ViewAdopt(w.ls, pre, g, post, s, c);
    ViewAt(Turn(w).ls, pre, g, post, s.(r := s.r + 1, c := c, added := true, merged := true));
  }

  lemma TurnDelete(w: Walk, pre: seq<FileLock>, g: seq<FileLock>, post: seq<FileLock>, req: FileLock, s: Scan)
    requires Turning(w, pre, g, post, req, s, Delete)
    ensures AtLock(Turn(w), pre, g, post, req, s.(r := s.r + 1, added := true))
  {
    StepReplace(g, req, s, s.c);
    ViewDelete(w.ls, pre, g, post, s);
    ViewAt(Turn(w).ls, pre, g, post, s.(r := s.r + 1, added := true));
  }

  lemma TurnAdopt(w: Walk, pre: seq<FileLock>, g: seq<FileLock>, post: seq<FileLock>, req: FileLock, s: Scan)
    requires Turning(w, pre, g, post, req, s, Adopt)
    ensures var c := g[s.r].(start := s.c.start, end := s.c.end, kind := s.c.kind);
            AtLock(Turn(w), pre, g, post, req, s.(r := s.r + 1, c := c, added := true, merged := true))
  {
    var c := g[s.r].(start := s.c.start, end := s.c.end, kind := s.c.kind);
    StepReplace(g, req, s, c);
    ViewAdopt(w.ls, pre, g, post, s, c);
    ViewAt(Turn(w).ls, pre, g, post, s.(r := s.r + 1, c := c, added := true, merged := true));
  }

  lemma TurnAt(w: Walk, pre: seq<FileLock>, g: seq<FileLock>, post: seq<FileLock>, req: FileLock, s: Scan)
    returns (t: Scan)
    requires AtLock(w, pre, g, post, req, s) && w.more && s.r < |g|
    ensures AtLock(Turn(w), pre, g, post, req, t)
  {
    var m, u := MoveAt(g[s.r], w.c, w.added), s.(r := s.r + 1, added := true);
    match m {
      case Skip => TurnSkip(w, pre, g, post, req, s); t := s.(q := s.q + 1, r := s.r + 1);
      case Stop => TurnStop(w, pre, g, post, req, s); t := s;
      case StopRight => TurnStop(w, pre, g, post, req, s); t := s;
      case PassLeft =>
        TurnLeft(w, pre, g, post, req, s);
        t := s.(q := s.q + 1, r := s.r + 1, left := true, added := s.added || req.kind == UnLck);
      case MergeDelete => TurnMergeDelete(w, pre, g, post, req, s); t := s.(r := s.r + 1, c := Hull(s.c, g[s.r]));
      case MergeAdopt => TurnMergeAdopt(w, pre, g, post, req, s); t := u.(c := Hull(g[s.r], s.c), merged := true);
      case Delete => TurnDelete(w, pre, g, post, req, s); t := u;
      case Adopt =>
        TurnAdopt(w, pre, g, post, req, s);
        t := u.(c := g[s.r].(start := s.c.start, end := s.c.end, kind := s.c.kind), merged := true);
    }
  }

  /** The walk goes on exactly while there are locks of the group ahead. */
  lemma GoesOn(w: Walk, pre: seq<FileLock>, g: seq<FileLock>, post: seq<FileLock>, req: FileLock, s: Scan)
    requires AtLock(w, pre, g, post, req, s) && Foreign(post, req.owner)
    ensures w.b < |w.ls| && w.ls[w.b].owner == req.owner <==> s.r < |g|
    ensures !(w.more && s.r < |g|) ==> Halted(g, req, s, w.right)
  {
    ViewOwned(w.ls, pre, g, post, s, req.owner);
  }

  /** The walk ends where the scan says. */
  lemma {:induction false} WalkedAt(w: Walk, pre: seq<FileLock>, g: seq<FileLock>, post: seq<FileLock>, req: FileLock,
                                    s: Scan) returns (t: Scan)
    requires AtLock(w, pre, g, post, req, s) && Foreign(post, req.owner)
    ensures var r := Walked(w, req.owner); AtLock(r, pre, g, post, req, t) && Halted(g, req, t, r.right)
    decreases if w.more then |w.ls| - w.b + 1 else 0
  {
    GoesOn(w, pre, g, post, req, s);
    t := s;
    if w.more && s.r < |g| {
      t := TurnAt(w, pre, g, post, req, s);
      t := WalkedAt(Turn(w), pre, g, post, req, t);
    }
  }

  // ---- the end of the edit, on a list made of parts

  /** `lo` with its last lock, or the lower piece of up[0], ending where `c` starts. */
  function CutLower(lo: seq<FileLock>, up: seq<FileLock>, c: FileLock, left: int, right: int, copy: nat): seq<FileLock>
    requires right >= 0 ==> up != []
    requires left >= 0 && left != right ==> lo != []
  {
    if right >= 0 && left == right then lo + [up[0].(id := copy, end := c.start - 1)]
    else if left >= 0 then lo[..|lo| - 1] + [lo[|lo| - 1].(end := c.start - 1)]
    else lo
  }

  /** `up` with its first lock starting just after `c`. */
  function CutUpper(up: seq<FileLock>, c: FileLock, right: int): seq<FileLock>
    requires right >= 0 ==> up != []
  {
    if right >= 0 then [up[0].(start := Succ64(c.end))] + up[1..] else up
  }

  lemma Insert(pre: seq<FileLock>, lo: seq<FileLock>, up: seq<FileLock>, post: seq<FileLock>, x: FileLock)
    ensures InsertAt(pre + (lo + [] + up) + post, |pre| + |lo|, x) == pre + (lo + [x] + up) + post
  {
  }

  lemma InsertPiece(pre: seq<FileLock>, lo: seq<FileLock>, mid: seq<FileLock>, up: seq<FileLock>,
                    post: seq<FileLock>, x: FileLock)
    ensures InsertAt(pre + (lo + mid + up) + post, |pre| + |lo|, x) == pre + (lo + [x] + mid + up) + post
  {
  }

  lemma UpdateUpper(pre: seq<FileLock>, lo: seq<FileLock>, mid: seq<FileLock>, up: seq<FileLock>,
                    post: seq<FileLock>, x: FileLock)
    requires up != []
    ensures var ls := pre + (lo + mid + up) + post;
            var k := |pre| + |lo| + |mid|;
            ls[k] == up[0] && ls[k := x] == pre + (lo + mid + ([x] + up[1..])) + post
  {
  }

  lemma UpdateLower(pre: seq<FileLock>, lo: seq<FileLock>, mid: seq<FileLock>, up: seq<FileLock>,
                    post: seq<FileLock>, x: FileLock)
    requires lo != []
    ensures var ls := pre + (lo + mid + up) + post;
            var k := |pre| + |lo| - 1;
            ls[k] == lo[|lo| - 1] && ls[k := x] == pre + (lo[..|lo| - 1] + [x] + mid + up) + post
  {
  }

  /** The list of `w` consists of these parts, and its marks are where they meet. */
  ghost predicate InParts(w: Walk, pre: seq<FileLock>, lo: seq<FileLock>, mid: seq<FileLock>, up: seq<FileLock>,
                          post: seq<FileLock>)
  {
    && w.ls == pre + (lo + mid + up) + post && w.b <= |w.ls|
    && (w.right == -1 || (w.right == |pre| + |lo| + |mid| && up != []))
    && if w.right >= 0 && w.left == w.right then w.b == |pre| + |lo|
       else w.left == -1 || (w.left == |pre| + |lo| - 1 && lo != [])
  }

  lemma DoubledParts(w: Walk, pre: seq<FileLock>, lo: seq<FileLock>, mid: seq<FileLock>, up: seq<FileLock>,
                     post: seq<FileLock>, n: nat)
    requires InParts(w, pre, lo, mid, up, post) && w.right >= 0 && w.left == w.right
    ensures InParts(Doubled(w, n), pre, lo + [up[0].(id := n)], mid, up, post)
    ensures Doubled(w, n).left == |pre| + |lo| && Doubled(w, n).right == w.right + 1
  {
    UpdateUpper(pre, lo, mid, up, post, up[0]);
    InsertPiece(pre, lo, mid, up, post, up[0].(id := n));
  }

  lemma CutParts(w: Walk, pre: seq<FileLock>, lo: seq<FileLock>, mid: seq<FileLock>, up: seq<FileLock>,
                 post: seq<FileLock>)
    requires InParts(w, pre, lo, mid, up, post) && (w.right >= 0 ==> w.left != w.right)
    ensures CutBelow(CutAbove(w)).ls ==
            pre + (CutLower(lo, up, w.c, w.left, w.right, 0) + mid + CutUpper(up, w.c, w.right)) + post
  {
    if w.right >= 0 { UpdateUpper(pre, lo, mid, up, post, up[0].(start := Succ64(w.c.end))); }
    if w.left >= 0 {
      UpdateLower(pre, lo, mid, CutUpper(up, w.c, w.right), post, lo[|lo| - 1].(end := w.c.start - 1));
    }
  }

  lemma ClosedParts(w: Walk, pre: seq<FileLock>, lo: seq<FileLock>, mid: seq<FileLock>, up: seq<FileLock>,
                    post: seq<FileLock>, n: nat)
    requires InParts(w, pre, lo, mid, up, post)
    ensures CutBelow(CutAbove(Doubled(w, n))).ls ==
            pre + (CutLower(lo, up, w.c, w.left, w.right, n) + mid + CutUpper(up, w.c, w.right)) + post
  {
    if w.right >= 0 && w.left == w.right {
      DoubledParts(w, pre, lo, mid, up, post, n);
      var lo' := lo + [up[0].(id := n)];
      CutParts(Doubled(w, n), pre, lo', mid, up, post);
      assert lo'[..|lo|] == lo;
    } else {
      CutParts(w, pre, lo, mid, up, post);
    }
  }

  lemma CutsAre(g: seq<FileLock>, req: FileLock, s: Scan, left: int, right: int, copy: nat)
    requires Walking(g, req, s) && -1 <= right && (right >= 0 ==> s.r < |g| && Stopped(g, req, s, true))
    requires right >= 0 && left == right <==> right >= 0 && Splits(g, s, true)
    requires !(right >= 0 && left == right) ==> (left >= 0 <==> s.left)
    ensures left >= 0 && left != right ==> g[..s.q] != []
    ensures CutLower(g[..s.q], g[s.r..], s.c, left, right, copy) == Lower(g, req, s, right >= 0, copy)
    ensures CutUpper(g[s.r..], s.c, right) == Upper(g, req, s, right >= 0)
  {
    CallerRange(g, req, s);
    if s.left { assert g[..s.q][..s.q - 1] == g[..s.q - 1]; }
    if right >= 0 { assert g[s.r..][1..] == g[s.r + 1..]; }
  }

  /** The part of the list that is the caller lock. */
  ghost function Middle(s: Scan, req: FileLock, n: nat): seq<FileLock> {
    if req.kind == UnLck then [] else if s.merged then [s.c] else [s.c.(id := n)]
  }

  lemma InsertedParts(w: Walk, pre: seq<FileLock>, g: seq<FileLock>, post: seq<FileLock>, req: FileLock, s: Scan,
                      n: nat)
    requires AtLock(w, pre, g, post, req, s) && Halted(g, req, s, w.right) && (w.added || req.kind != UnLck)
    ensures var u := Inserted(w, n);
            && InParts(u, pre, g[..s.q], Middle(s, req, n), g[s.r..], post) && u.c == s.c
            && (u.right >= 0 <==> w.right >= 0)
            && (u.right >= 0 && u.left == u.right <==> w.right >= 0 && Splits(g, s, true))
            && (!(u.right >= 0 && u.left == u.right) ==> (u.left >= 0 <==> s.left))
  {
    if w.right >= 0 && Splits(g, s, true) { SplitsAlone(g, req, s, true); }
    if !w.added { Insert(pre, g[..s.q], g[s.r..], post, w.c.(id := n)); }
  }

  /** The edited list: what is kept below, the caller lock, and what is kept above. */
  lemma ClosedAt(w: Walk, pre: seq<FileLock>, g: seq<FileLock>, post: seq<FileLock>, req: FileLock, s: Scan, n: nat)
    returns (copy: nat)
    requires AtLock(w, pre, g, post, req, s) && Halted(g, req, s, w.right)
    ensures Closed(w, n).ls ==
            pre + (Lower(g, req, s, w.right >= 0, copy) + Middle(s, req, n) + Upper(g, req, s, w.right >= 0)) + post
  {
    copy := if w.added then n else n + 1;
    if w.added || req.kind != UnLck {
      var u := Inserted(w, n);
      InsertedParts(w, pre, g, post, req, s, n);
      ClosedParts(u, pre, g[..s.q], Middle(s, req, n), g[s.r..], post, copy);
      CutsAre(g, req, s, u.left, u.right, copy);
    }
  }

  // ---- what the edited list means

  lemma OrderlyResult(ls: seq<FileLock>, pre: seq<FileLock>, g: seq<FileLock>, post: seq<FileLock>,
                      req: FileLock, s: Scan, right: bool, mid: seq<FileLock>, copy: nat)
    requires Canonical(ls) && Split(ls, req.owner, pre, g, post)
    requires Walking(g, req, s) && Stopped(g, req, s, right)
    requires if req.kind == UnLck then mid == [] else exists id :: mid == [s.c.(id := id)]
    ensures var h := Lower(g, req, s, right, copy) + mid + Upper(g, req, s, right);
            Canonical(pre + h + post) && Overwritten(ls, pre + h + post, req) && Unambiguous(pre + h + post)
  {
    var h := Lower(g, req, s, right, copy) + mid + Upper(g, req, s, right);
    JoinMeaning(g, req, s, right, copy, mid, 0);
    RegroupCanonical(ls, req.owner, pre, g, post, h);
    forall o, x
      ensures TypeAt(pre + h + post, o, x) ==
              if o == req.owner && req.start <= x <= req.end then req.kind else TypeAt(ls, o, x)
    {
      JoinMeaning(g, req, s, right, copy, mid, x);
      RegroupMeaning(ls, req.owner, pre, g, post, h, o, x);
    }
    var ls' := pre + h + post;
    forall o, x, i | 0 <= i < |ls'| && Covers(ls'[i], o, x) ensures TypeAt(ls', o, x) == ls'[i].kind {
      CanonicalMeaning(ls', o, x, i);
    }
  }

  /** The edit of a canonical list always overwrites its map on the request, for its owner only.  The list
      stays canonical exactly if the request does not wrap, and keeps one type per byte exactly if it does
      not clash. */
  lemma EditOverwrites(ls: seq<FileLock>, req: FileLock, n: nat)
    requires Canonical(ls) && Request(req)
    ensures var ls' := Edited(ls, req, n).ls;
            && Overwritten(ls, ls', req) && (Canonical(ls') <==> !Wraps(ls, req))
            && (Unambiguous(ls') <==> !Clashes(ls, req))
  {
    var o, k := req.owner, FirstOf(ls, req.owner);
    var pre := ls[..k];
    var g, post := SplitExists(ls, o, k);
    SplitGroup(ls, o, pre, g, post);
    WrapsInGroup(ls, pre, g, post, req);
    AtStart(ls, pre, g, post, req);
    var s := WalkedAt(Start(ls, req), pre, g, post, req, Scan(0, 0, req, false, false, false));
    var w := WalkOver(ls, req);
    var copy := ClosedAt(w, pre, g, post, req, s, n);
    if Stopped(g, req, s, w.right >= 0) {
      OrderlyMeansNoWrap(g, req, s, w.right >= 0);
      OrderlyResult(ls, pre, g, post, req, s, w.right >= 0, Middle(s, req, n), copy);
      NoWrapNoClash(ls, req);
    } else {
      OverrunResult(ls, pre, g, post, req, s, Middle(s, req, n), copy);
    }
  }

  lemma NoWrapNoClash(ls: seq<FileLock>, req: FileLock)
    requires !Wraps(ls, req)
    ensures !Clashes(ls, req)
  {
  }
}
