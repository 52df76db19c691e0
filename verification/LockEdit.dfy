/** The edit posix_lock_file makes to a lock list, as a function of any list, in order or not
    (fs/locks.c:910-1024); and what it keeps of every list. */
module LockEdits {
  import opened LockRanges
  import opened LockScan

  // ---- the edit

  /** The variables of the walk: the list, the position `before`, *caller, which is ls[ci] once it is part
      of the list, `added`, the positions of `left` and `right` or -1, whether the walk goes on, and the
      locks whose waiters have been woken. */
  datatype Walk = Walk(ls: seq<FileLock>, b: nat, c: FileLock, ci: int, added: bool, left: int, right: int,
                       more: bool, woken: set<nat>)

  /** What the walk does with the lock it is at. */
  datatype Move = Skip | Stop | MergeDelete | MergeAdopt | PassLeft | StopRight | Delete | Adopt

  function MoveAt(fl: FileLock, c: FileLock, added: bool): Move {
    if fl.kind == c.kind then
      if fl.end < c.start - 1 then Skip
      else if fl.start > Succ64(c.end) then Stop
      else if added then MergeDelete else MergeAdopt
    else if fl.end < c.start then Skip
    else if fl.start > c.end then Stop
    else if fl.end > c.end then StopRight
    else if fl.start < c.start then PassLeft
    else if added || c.kind == UnLck then Delete else Adopt
  }

  function DropAt(ls: seq<FileLock>, k: nat): seq<FileLock>
    requires k < |ls|
  {
    ls[..k] + ls[k + 1..]
  }

  function InsertAt(ls: seq<FileLock>, k: nat, l: FileLock): seq<FileLock>
    requires k <= |ls|
  {
    ls[..k] + [l] + ls[k..]
  }

  /** All locks of the list lock something. */
  predicate NoUnlocks(ls: seq<FileLock>) {
    forall i :: 0 <= i < |ls| ==> ls[i].kind != UnLck
  }

  /** `left` lies behind `before`, unless it is `right`, which is at `before`. */
  predicate Placed(w: Walk) {
    && w.b <= |w.ls| && NoUnlocks(w.ls) && (w.added && w.c.kind != UnLck ==> 0 <= w.ci < w.b)
    && (w.right == -1 || w.right == w.b < |w.ls|) && (w.more ==> w.right == -1)
    && -1 <= w.left && (w.left < w.b || w.left == w.right)
  }

  /** One turn of the loop at lines 921-998. */
  function Turn(w: Walk): (r: Walk)
    requires Placed(w) && w.more && w.b < |w.ls|
    ensures Placed(r) && r.c.kind == w.c.kind && (r.more ==> |r.ls| - r.b < |w.ls| - w.b)
  {
    var fl := w.ls[w.b];
    match MoveAt(fl, w.c, w.added)
    case Skip => w.(b := w.b + 1)
    case Stop => w.(more := false)
    case MergeDelete =>
      var c := Hull(w.c, fl);
      w.(ls := DropAt(w.ls[w.ci := c], w.b), c := c, woken := w.woken + {fl.id})
    case MergeAdopt =>
      var c := Hull(fl, w.c);
      w.(ls := w.ls[w.b := c], b := w.b + 1, c := c, ci := w.b, added := true)
    case PassLeft => w.(b := w.b + 1, left := w.b, added := w.added || w.c.kind == UnLck)
    case StopRight =>
      w.(left := if fl.start < w.c.start then w.b else w.left, right := w.b,
         added := w.added || w.c.kind == UnLck, more := false)
    case Delete => w.(ls := DropAt(w.ls, w.b), added := true, woken := w.woken + {fl.id})
    case Adopt =>
      var c := fl.(start := w.c.start, end := w.c.end, kind := w.c.kind);
      w.(ls := w.ls[w.b := c], b := w.b + 1, c := c, ci := w.b, added := true, woken := w.woken + {fl.id})
  }

  /** The rest of the walk: over the owner's locks, until it stops. */
  function Walked(w: Walk, o: Owner): (r: Walk)
    requires Placed(w)
    ensures Placed(r)
    decreases if w.more then |w.ls| - w.b + 1 else 0
  {
    if w.more && w.b < |w.ls| && w.ls[w.b].owner == o then Walked(Turn(w), o) else w
  }

  /** Lines 1001-1007: the new lock goes in at `before`, unless it was merged.  Positions from there on
      move up. */
  function Inserted(w: Walk, n: nat): Walk
    requires Placed(w)
  {
    if w.added then w
    else w.(ls := InsertAt(w.ls, w.b, w.c.(id := n)),
            left := if w.left >= w.b then w.left + 1 else w.left,
            right := if w.right >= w.b then w.right + 1 else w.right)
  }

  /** Lines 1009-1017: a lock that sticks out on both sides gets a second piece, at `before`. */
  function Doubled(w: Walk, n: nat): Walk
    requires w.b <= |w.ls| && w.right < |w.ls|
  {
    if w.right >= 0 && w.left == w.right then
      w.(ls := InsertAt(w.ls, w.b, w.ls[w.right].(id := n)), left := w.b, right := w.right + 1)
    else w
  }

  function CutAbove(w: Walk): Walk
    requires w.right < |w.ls|
  {
    if w.right < 0 then w
    else
      var fl := w.ls[w.right];
      w.(ls := w.ls[w.right := fl.(start := Succ64(w.c.end))], woken := w.woken + {fl.id})
  }

  function CutBelow(w: Walk): Walk
    requires w.left < |w.ls|
  {
    if w.left < 0 then w
    else
      var fl := w.ls[w.left];
      w.(ls := w.ls[w.left := fl.(end := w.c.start - 1)], woken := w.woken + {fl.id})
  }

  /** Lines 1001-1024, with `n` the identity of the next new lock. */
  function Closed(w: Walk, n: nat): Walk
    requires Placed(w)
  {
    if !w.added && w.c.kind == UnLck then w
    else CutBelow(CutAbove(Doubled(Inserted(w, n), if w.added then n else n + 1)))
  }

  /** How many new locks that takes. */
  function NewLocks(w: Walk): nat {
    if !w.added && w.c.kind == UnLck then 0
    else (if w.added then 0 else 1) + if w.right >= 0 && w.left == w.right then 1 else 0
  }

  /** Where the locks of `o` begin. */
  function FirstOf(ls: seq<FileLock>, o: Owner): (k: nat)
    ensures k <= |ls| && (k < |ls| ==> ls[k].owner == o) && Foreign(ls[..k], o)
  {
    if ls == [] || ls[0].owner == o then 0
    else
      var k := FirstOf(ls[1..], o);
      assert ls[..k + 1] == [ls[0]] + ls[1..][..k];
      k + 1
  }

  function Start(ls: seq<FileLock>, req: FileLock): Walk {
    Walk(ls, FirstOf(ls, req.owner), req, -1, false, -1, -1, true, {})
  }

  /** The walk over a list, as it ends. */
  function WalkOver(ls: seq<FileLock>, req: FileLock): (r: Walk)
    requires NoUnlocks(ls)
    ensures Placed(r)
  {
    Walked(Start(ls, req), req.owner)
  }

  /** The whole edit. */
  function Edited(ls: seq<FileLock>, req: FileLock, n: nat): Walk
    requires NoUnlocks(ls)
  {
    Closed(WalkOver(ls, req), n)
  }

  // ---- what every turn keeps, on any list

  /** Byte `x` of `l` is requested. */
  predicate Asked(req: FileLock, l: FileLock, x: int) {
    l.owner == req.owner && l.kind == req.kind && req.start <= x <= req.end
  }

  /** Byte `x` of `l` was under such a lock before, or is requested. */
  ghost predicate From(ls: seq<FileLock>, req: FileLock, l: FileLock, x: int) {
    || Asked(req, l, x)
    || exists j :: 0 <= j < |ls| && Covers(ls[j], l.owner, x) && ls[j].kind == l.kind
  }

  ghost predicate Backed(ls: seq<FileLock>, req: FileLock, l: FileLock) {
    forall x {:trigger From(ls, req, l, x)} :: l.start <= x <= l.end ==> From(ls, req, l, x)
  }

  ghost predicate AllBacked(ls: seq<FileLock>, req: FileLock, ls': seq<FileLock>) {
    forall i :: 0 <= i < |ls'| ==> Backed(ls, req, ls'[i])
  }

  /** `l'` is the lock `l`, perhaps over a larger range. */
  predicate Extends(l': FileLock, l: FileLock) {
    l'.id == l.id && l'.owner == l.owner && l'.kind == l.kind && l'.start <= l.start && l.end <= l'.end
  }

  predicate HasExtension(ls: seq<FileLock>, l: FileLock) {
    exists j :: 0 <= j < |ls| && Extends(ls[j], l)
  }

  /** Every lock of `ls` is in `ls'`, at least as large as before, or its waiters were woken. */
  predicate Kept(ls: seq<FileLock>, ls': seq<FileLock>, woken: set<nat>) {
    forall i :: 0 <= i < |ls| ==> ls[i].id in woken || HasExtension(ls', ls[i])
  }

  predicate DistinctIds(ls: seq<FileLock>) {
    forall i, j :: 0 <= i < j < |ls| ==> ls[i].id != ls[j].id
  }

  predicate IdsBelow(ls: seq<FileLock>, n: nat) {
    forall i :: 0 <= i < |ls| ==> ls[i].id < n
  }

  predicate HasId(ls: seq<FileLock>, id: nat) {
    exists i :: 0 <= i < |ls| && ls[i].id == id
  }

  /** Each lock of `ls'` is one of `ls`, perhaps changed, or one of those numbered from `n` to `m`, and
      no two are the same. */
  predicate Renumbered(ls: seq<FileLock>, ls': seq<FileLock>, n: nat, m: nat) {
    && n <= m && DistinctIds(ls')
    && forall i :: 0 <= i < |ls'| ==> HasId(ls, ls'[i].id) || n <= ls'[i].id < m
  }

  predicate Bounded(l: FileLock) {
    0 <= l.start && l.end <= OFFSET_MAX && l.kind != UnLck
  }

  predicate AllBounded(ls: seq<FileLock>) {
    forall i :: 0 <= i < |ls| ==> Bounded(ls[i])
  }

  /** From `ls` to `ls'`: bytes, waiters and identities are accounted for. */
  ghost predicate Accounted(ls: seq<FileLock>, req: FileLock, ls': seq<FileLock>, woken: set<nat>, n: nat, m: nat) {
    AllBounded(ls') && AllBacked(ls, req, ls') && Kept(ls, ls', woken) && Renumbered(ls, ls', n, m)
  }

  lemma AccountedStart(ls: seq<FileLock>, req: FileLock, n: nat)
    requires AllBounded(ls) && DistinctIds(ls)
    ensures Accounted(ls, req, ls, {}, n, n)
  {
    forall i | 0 <= i < |ls| ensures Backed(ls, req, ls[i]) && HasExtension(ls, ls[i]) && HasId(ls, ls[i].id) {
      assert Extends(ls[i], ls[i]);
      forall x | ls[i].start <= x <= ls[i].end ensures From(ls, req, ls[i], x) {
        assert Covers(ls[i], ls[i].owner, x);
      }
    }
  }

  lemma DropAtIs(ls: seq<FileLock>, k: nat)
    requires k < |ls|
    ensures |DropAt(ls, k)| == |ls| - 1
    ensures forall i :: 0 <= i < |ls| - 1 ==> DropAt(ls, k)[i] == ls[if i < k then i else i + 1]
  {
  }

  lemma InsertAtIs(ls: seq<FileLock>, k: nat, l: FileLock)
    requires k <= |ls|
    ensures |InsertAt(ls, k, l)| == |ls| + 1 && InsertAt(ls, k, l)[k] == l
    ensures forall i :: 0 <= i < k ==> InsertAt(ls, k, l)[i] == ls[i]
    ensures forall i :: k < i <= |ls| ==> InsertAt(ls, k, l)[i] == ls[i - 1]
  {
  }

  lemma ExtensionAfterDrop(ls: seq<FileLock>, k: nat, l: FileLock)
    requires k < |ls| && HasExtension(ls, l) && l.id != ls[k].id
    ensures HasExtension(DropAt(ls, k), l)
  {
    DropAtIs(ls, k);
    var j :| 0 <= j < |ls| && Extends(ls[j], l);
    assert Extends(DropAt(ls, k)[if j < k then j else j - 1], l);
  }

  /** A lock goes, and its waiters are woken. */
  lemma AccountedDrop(ls: seq<FileLock>, req: FileLock, ls': seq<FileLock>, woken: set<nat>, n: nat, m: nat, k: nat)
    requires Accounted(ls, req, ls', woken, n, m) && k < |ls'|
    ensures Accounted(ls, req, DropAt(ls', k), woken + {ls'[k].id}, n, m)
  {
    DropAtIs(ls', k);
    var t := DropAt(ls', k);
    forall i | 0 <= i < |ls| && ls[i].id !in woken + {ls'[k].id} ensures HasExtension(t, ls[i]) {
      ExtensionAfterDrop(ls', k, ls[i]);
    }
    forall i | 0 <= i < |t| ensures Backed(ls, req, t[i]) && Bounded(t[i]) {
      var j := if i < k then i else i + 1;
      assert t[i] == ls'[j];
    }
  }

  lemma ExtensionAfterUpdate(ls: seq<FileLock>, k: nat, l': FileLock, l: FileLock)
    requires k < |ls| && HasExtension(ls, l) && l'.id == ls[k].id && (Extends(l', ls[k]) || l.id != ls[k].id)
    ensures HasExtension(ls[k := l'], l)
  {
    var j :| 0 <= j < |ls| && Extends(ls[j], l);
    assert Extends(ls[k := l'][j], l);
  }

  /** A lock changes in place: it grows, or its waiters are woken. */
  lemma AccountedUpdate(ls: seq<FileLock>, req: FileLock, ls': seq<FileLock>, woken: set<nat>, woken': set<nat>,
                        n: nat, m: nat, k: nat, l: FileLock)
    requires Accounted(ls, req, ls', woken, n, m) && k < |ls'| && woken <= woken'
    requires Backed(ls, req, l) && Bounded(l) && l.id == ls'[k].id && (Extends(l, ls'[k]) || l.id in woken')
    ensures Accounted(ls, req, ls'[k := l], woken', n, m)
  {
    var t := ls'[k := l];
    forall i | 0 <= i < |ls| && ls[i].id !in woken' ensures HasExtension(t, ls[i]) {
      ExtensionAfterUpdate(ls', k, l, ls[i]);
    }
    assert forall i :: 0 <= i < |t| ==> t[i].id == ls'[i].id;
  }

  lemma ExtensionAfterInsert(ls: seq<FileLock>, k: nat, l': FileLock, l: FileLock)
    requires k <= |ls| && HasExtension(ls, l)
    ensures HasExtension(InsertAt(ls, k, l'), l)
  {
    InsertAtIs(ls, k, l');
    var j :| 0 <= j < |ls| && Extends(ls[j], l);
    assert Extends(InsertAt(ls, k, l')[if j < k then j else j + 1], l);
  }

  /** A new lock comes in. */
  lemma AccountedInsert(ls: seq<FileLock>, req: FileLock, ls': seq<FileLock>, woken: set<nat>, n: nat, m: nat,
                        k: nat, l: FileLock)
    requires Accounted(ls, req, ls', woken, n, m) && IdsBelow(ls, n) && k <= |ls'|
    requires Backed(ls, req, l) && Bounded(l) && l.id == m
    ensures Accounted(ls, req, InsertAt(ls', k, l), woken, n, m + 1)
  {
    InsertAtIs(ls', k, l);
    var t := InsertAt(ls', k, l);
    forall i | 0 <= i < |ls| && ls[i].id !in woken ensures HasExtension(t, ls[i]) {
      ExtensionAfterInsert(ls', k, l, ls[i]);
    }
    forall i | 0 <= i < |t| ensures Backed(ls, req, t[i]) && Bounded(t[i]) {
      assert i != k ==> t[i] == ls'[if i < k then i else i - 1];
    }
    InsertedIds(ls, ls', n, m, k, l);
  }

  lemma InsertedIds(ls: seq<FileLock>, ls': seq<FileLock>, n: nat, m: nat, k: nat, l: FileLock)
    requires Renumbered(ls, ls', n, m) && IdsBelow(ls, n) && k <= |ls'| && l.id == m
    ensures Renumbered(ls, InsertAt(ls', k, l), n, m + 1)
  {
    InsertAtIs(ls', k, l);
    var t := InsertAt(ls', k, l);
    assert forall i :: 0 <= i < |ls'| ==> ls'[i].id < m;
    forall i, j | 0 <= i < j < |t| ensures t[i].id != t[j].id {
      assert i != k ==> t[i] == ls'[if i < k then i else i - 1];
      assert j != k ==> t[j] == ls'[if j < k then j else j - 1];
    }
    forall i | 0 <= i < |t| ensures HasId(ls, t[i].id) || n <= t[i].id < m + 1 {
      assert i != k ==> t[i] == ls'[if i < k then i else i - 1];
    }
  }

  /** Of two locks that touch, the hull has no byte but theirs; also if one of them is empty. */
  lemma HullBacked(ls: seq<FileLock>, req: FileLock, a: FileLock, b: FileLock)
    requires Backed(ls, req, a) && Backed(ls, req, b) && a.owner == b.owner && a.kind == b.kind
    requires a.start - 1 <= b.end && b.start <= a.end + 1 && (a.start <= a.end || b.start <= b.end)
    ensures Backed(ls, req, Hull(a, b))
  {
    var h := Hull(a, b);
    forall x | h.start <= x <= h.end ensures From(ls, req, h, x) {
      assert (a.start <= x <= a.end && From(ls, req, a, x)) || (b.start <= x <= b.end && From(ls, req, b, x));
    }
  }

  /** What holds of the walk at every turn, on any list. */
  ghost predicate Going(ls: seq<FileLock>, req: FileLock, n: nat, w: Walk) {
    && Placed(w) && Accounted(ls, req, w.ls, w.woken, n, n)
    && w.c.owner == req.owner && w.c.kind == req.kind && ValidRange(w.c) && Backed(ls, req, w.c)
    && w.ci < w.b && (w.added && req.kind != UnLck ==> w.ls[w.ci] == w.c)
    && (w.left >= 0 ==> w.ls[w.left].kind != req.kind && w.ls[w.left].end >= w.c.start && w.left != w.ci)
    && (w.right >= 0 ==> w.ls[w.right].end > w.c.end && w.ls[w.right].start <= w.c.end)
  }

  lemma GoingStart(ls: seq<FileLock>, req: FileLock, n: nat)
    requires AllBounded(ls) && DistinctIds(ls) && ValidRange(req)
    ensures Going(ls, req, n, Start(ls, req))
  {
    AccountedStart(ls, req, n);
    forall x | req.start <= x <= req.end ensures From(ls, req, req, x) {}
  }

  lemma TurnMerge(ls: seq<FileLock>, req: FileLock, n: nat, w: Walk)
    requires Going(ls, req, n, w) && w.more && w.b < |w.ls| && w.ls[w.b].owner == req.owner
    requires var m := MoveAt(w.ls[w.b], w.c, w.added); m.MergeDelete? || m.MergeAdopt?
    ensures Going(ls, req, n, Turn(w))
  {
    var fl := w.ls[w.b];
    assert Bounded(fl) && Backed(ls, req, fl);
    if w.added {
      var c := Hull(w.c, fl);
      HullBacked(ls, req, w.c, fl);
      AccountedUpdate(ls, req, w.ls, w.woken, w.woken, n, n, w.ci, c);
      AccountedDrop(ls, req, w.ls[w.ci := c], w.woken, n, n, w.b);
      DropAtIs(w.ls[w.ci := c], w.b);
    } else {
      var c := Hull(fl, w.c);
      HullBacked(ls, req, fl, w.c);
      AccountedUpdate(ls, req, w.ls, w.woken, w.woken, n, n, w.b, c);
    }
  }

  lemma TurnReplace(ls: seq<FileLock>, req: FileLock, n: nat, w: Walk)
    requires Going(ls, req, n, w) && w.more && w.b < |w.ls| && w.ls[w.b].owner == req.owner
    requires var m := MoveAt(w.ls[w.b], w.c, w.added); m.Delete? || m.Adopt?
    ensures Going(ls, req, n, Turn(w))
  {
    var fl := w.ls[w.b];
    if w.added || req.kind == UnLck {
      AccountedDrop(ls, req, w.ls, w.woken, n, n, w.b);
      DropAtIs(w.ls, w.b);
    } else {
      var c := fl.(start := w.c.start, end := w.c.end, kind := w.c.kind);
      forall x | c.start <= x <= c.end ensures From(ls, req, c, x) { assert From(ls, req, w.c, x); }
      AccountedUpdate(ls, req, w.ls, w.woken, w.woken + {fl.id}, n, n, w.b, c);
    }
  }

  lemma TurnGoes(ls: seq<FileLock>, req: FileLock, n: nat, w: Walk)
    requires Going(ls, req, n, w) && w.more && w.b < |w.ls| && w.ls[w.b].owner == req.owner
    ensures Going(ls, req, n, Turn(w))
  {
    match MoveAt(w.ls[w.b], w.c, w.added) {
      case MergeDelete => TurnMerge(ls, req, n, w);
      case MergeAdopt => TurnMerge(ls, req, n, w);
      case Delete => TurnReplace(ls, req, n, w);
      case Adopt => TurnReplace(ls, req, n, w);
      case Skip =>
      case Stop =>
      case PassLeft =>
      case StopRight =>
    }
  }

  lemma {:induction false} WalkedGoes(ls: seq<FileLock>, req: FileLock, n: nat, w: Walk)
    requires Going(ls, req, n, w)
    ensures Going(ls, req, n, Walked(w, req.owner))
    decreases if w.more then |w.ls| - w.b + 1 else 0
  {
    if w.more && w.b < |w.ls| && w.ls[w.b].owner == req.owner {
      TurnGoes(ls, req, n, w);
      WalkedGoes(ls, req, n, Turn(w));
    }
  }

  // ---- the end of the edit, on any list

  /** What holds while the locks that stick out are cut. */
  ghost predicate Cutting(ls: seq<FileLock>, req: FileLock, n: nat, m: nat, w: Walk) {
    && Accounted(ls, req, w.ls, w.woken, n, m) && ValidRange(w.c) && w.b <= |w.ls|
    && -1 <= w.left < |w.ls| && -1 <= w.right < |w.ls| && (w.right >= 0 ==> w.b <= w.right)
    && (w.left >= 0 ==> w.ls[w.left].end >= w.c.start)
    && (w.right >= 0 ==> w.ls[w.right].end > w.c.end && w.ls[w.right].start <= w.c.end)
  }

  lemma InsertedCuts(ls: seq<FileLock>, req: FileLock, n: nat, w: Walk)
    requires Going(ls, req, n, w) && IdsBelow(ls, n) && (w.added || req.kind != UnLck)
    ensures Cutting(ls, req, n, if w.added then n else n + 1, Inserted(w, n))
  {
    if !w.added {
      var l := w.c.(id := n);
      forall x | l.start <= x <= l.end ensures From(ls, req, l, x) { assert From(ls, req, w.c, x); }
      AccountedInsert(ls, req, w.ls, w.woken, n, n, w.b, l);
      InsertAtIs(w.ls, w.b, l);
    }
  }

  lemma DoubledCuts(ls: seq<FileLock>, req: FileLock, n: nat, m: nat, w: Walk)
    requires Cutting(ls, req, n, m, w) && IdsBelow(ls, n)
    ensures var split := w.right >= 0 && w.left == w.right;
            Cutting(ls, req, n, if split then m + 1 else m, Doubled(w, m)) &&
            (Doubled(w, m).right >= 0 ==> Doubled(w, m).left != Doubled(w, m).right)
  {
    if w.right >= 0 && w.left == w.right {
      var l := w.ls[w.right].(id := m);
      assert Backed(ls, req, w.ls[w.right]);
      forall x | l.start <= x <= l.end ensures From(ls, req, l, x) { assert From(ls, req, w.ls[w.right], x); }
      AccountedInsert(ls, req, w.ls, w.woken, n, m, w.b, l);
      InsertAtIs(w.ls, w.b, l);
    }
  }

  /** A lock made smaller, its waiters woken. */
  lemma AccountedShrink(ls: seq<FileLock>, req: FileLock, ls': seq<FileLock>, woken: set<nat>, n: nat, m: nat,
                        k: nat, l: FileLock)
    requires Accounted(ls, req, ls', woken, n, m) && k < |ls'|
    requires l == ls'[k].(start := l.start, end := l.end) && ls'[k].start <= l.start && l.end <= ls'[k].end
    ensures Accounted(ls, req, ls'[k := l], woken + {l.id}, n, m)
  {
    assert Backed(ls, req, ls'[k]) && Bounded(ls'[k]);
    forall x | l.start <= x <= l.end ensures From(ls, req, l, x) { assert From(ls, req, ls'[k], x); }
    AccountedUpdate(ls, req, ls', woken, woken + {l.id}, n, m, k, l);
  }

  lemma CutsAccounted(ls: seq<FileLock>, req: FileLock, n: nat, m: nat, w: Walk)
    requires Cutting(ls, req, n, m, w) && (w.right >= 0 ==> w.left != w.right)
    ensures var r := CutBelow(CutAbove(w)); Accounted(ls, req, r.ls, r.woken, n, m)
  {
    var u := CutAbove(w);
    if w.right >= 0 {
      assert Bounded(w.ls[w.right]);
      AccountedShrink(ls, req, w.ls, w.woken, n, m, w.right, w.ls[w.right].(start := Succ64(w.c.end)));
    }
    if u.left >= 0 {
      AccountedShrink(ls, req, u.ls, u.woken, n, m, u.left, u.ls[u.left].(end := w.c.start - 1));
    }
  }

  /** On any list: every byte a lock of the new list covers was under such a lock or is requested, every lock
      that is gone or smaller has its waiters woken, and no two locks are the same. */
  lemma EditAccounted(ls: seq<FileLock>, req: FileLock, n: nat)
    requires AllBounded(ls) && DistinctIds(ls) && IdsBelow(ls, n) && ValidRange(req)
    ensures var r := Edited(ls, req, n); Accounted(ls, req, r.ls, r.woken, n, n + NewLocks(WalkOver(ls, req)))
  {
    GoingStart(ls, req, n);
    WalkedGoes(ls, req, n, Start(ls, req));
    var w := WalkOver(ls, req);
    if w.added || req.kind != UnLck {
      InsertedCuts(ls, req, n, w);
      var v, m := Inserted(w, n), if w.added then n else n + 1;
      DoubledCuts(ls, req, n, m, v);
      CutsAccounted(ls, req, n, n + NewLocks(w), Doubled(v, m));
    }
  }
}
