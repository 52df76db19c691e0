/** The LRU lists as they are changed in place, and the walk of write_some_buffers
    (fs/buffer.c:198-235, 505-542, 1068-1082). */
module BufferLrus {
  import opened BufferLists
  import opened Lists

  const NODEV := 0

  /** What write_some_buffers does with a buffer: leave it, collect it for writing, or move it to the
      clean list because it is not dirty after all. */
  datatype Fate = Left | Collected | Clean

  function FateOf(x: nat, device: nat, dev: map<nat, nat>, locked: set<nat>, dirty: set<nat>): Fate {
    if (device != NODEV && Link(dev, x) != device) || x in locked then Left
    else if x in dirty then Collected
    else Clean
  }

  /** Those of `s` with fate `f`, in order. */
  function With(s: seq<nat>, fates: nat -> Fate, f: Fate): seq<nat> {
    if s == [] then []
    else With(s[..|s| - 1], fates, f) + if fates(s[|s| - 1]) == f then [s[|s| - 1]] else []
  }

  function FatesFor(device: nat, dev: map<nat, nat>, locked: set<nat>, dirty: set<nat>): nat -> Fate {
    (x: nat) => FateOf(x, device, dev, locked, dirty)
  }

  lemma WithNext(s: seq<nat>, i: nat, fates: nat -> Fate, f: Fate)
    requires i < |s|
    ensures With(s[..i + 1], fates, f) == With(s[..i], fates, f) + if fates(s[i]) == f then [s[i]] else []
  {
    assert s[..i + 1][..i] == s[..i];
  }

  lemma {:induction false} WithIn(s: seq<nat>, fates: nat -> Fate, f: Fate)
    ensures forall x :: x in With(s, fates, f) <==> x in s && fates(x) == f
    ensures |With(s, fates, f)| <= |s|
  {
    if s != [] {
      WithIn(s[..|s| - 1], fates, f);
      assert s == s[..|s| - 1] + [s[|s| - 1]];
    }
  }

  /** The dirty list when `i` of its buffers `s` have been visited. */
  function DirtyLeft(s: seq<nat>, fates: nat -> Fate, i: nat): seq<nat>
    requires i <= |s|
  {
    With(s[..i], fates, Left) + s[i..]
  }

  lemma DirtyAt(s: seq<nat>, fates: nat -> Fate, i: nat)
    requires i < |s| && Distinct(s)
    ensures var k := |With(s[..i], fates, Left)|;
            && k < |DirtyLeft(s, fates, i)| && DirtyLeft(s, fates, i)[k] == s[i]
            && (i + 1 < |s| ==> Succ(DirtyLeft(s, fates, i), k) == s[i + 1])
  {
  }

  lemma WithoutMiddle(a: seq<nat>, x: nat, b: seq<nat>)
    requires x !in a && x !in b
    ensures Without(a + ([x] + b), x) == a + b
  {
    WithoutHead(x, b);
    WithoutConcat(a, [x] + b, x);
    WithoutAbsent(a, x);
  }

  lemma WithoutHead(x: nat, b: seq<nat>)
    requires x !in b
    ensures Without([x] + b, x) == b
  {
    assert ([x] + b)[1..] == b;
    WithoutAbsent(b, x);
  }

  lemma DirtyStep(s: seq<nat>, fates: nat -> Fate, i: nat)
    requires i < |s| && Distinct(s)
    ensures if fates(s[i]) == Left then DirtyLeft(s, fates, i + 1) == DirtyLeft(s, fates, i)
            else DirtyLeft(s, fates, i + 1) == Without(DirtyLeft(s, fates, i), s[i])
  {
    var kept, later := With(s[..i], fates, Left), s[i + 1..];
    WithNext(s, i, fates, Left);
    assert s[i..] == [s[i]] + later;
    if fates(s[i]) == Left {
      assert (kept + [s[i]]) + later == kept + ([s[i]] + later);
    } else {
      WithIn(s[..i], fates, Left);
      WithoutMiddle(kept, s[i], later);
      assert kept + [] == kept;
    }
  }

  lemma {:induction false} WithoutIsDrop(s: seq<nat>, k: nat)
    requires Distinct(s) && k < |s|
    ensures Without(s, s[k]) == Drop(s, k)
  {
    var a, b := s[..k], s[k + 1..];
    assert s == a + ([s[k]] + b);
    WithoutMiddle(a, s[k], b);
  }

  /** Where __refile_buffer puts a buffer. */
  function Dispose(x: nat, locked: set<nat>, dirty: set<nat>): nat {
    if x in dirty then BUF_DIRTY else if x in locked then BUF_LOCKED else BUF_CLEAN
  }

  function Unlinked(rings: seq<seq<nat>>, x: nat, b: nat): seq<seq<nat>>
    requires b < |rings|
  {
    rings[b := Without(rings[b], x)]
  }

  /** Changing b_list of a buffer that is on no list. */
  lemma Relabelled(l: Links, rings: seq<seq<nat>>, x: nat, b: nat)
    requires Ok(l, rings) && !Somewhere(rings, x)
    ensures Ok(l.(list := l.list[x := b]), rings)
  {
    var r := l.(list := l.list[x := b]);
    forall c | 0 <= c < NR_LIST ensures ListIs(r, c, rings[c]) {
      assert ListIs(l, c, rings[c]) && x !in rings[c];
    }
    forall y | !Somewhere(rings, y) ensures Free(r, y) {
      assert Free(l, y);
    }
  }

  lemma Apart(l: Links, rings: seq<seq<nat>>, x: nat, b: nat)
    requires Ok(l, rings) && b < NR_LIST && x in l.list && l.list[x] == b
    ensures !Somewhere(Unlinked(rings, x, b), x)
  {
    WithoutIn(rings[b], x);
    if c :| 0 <= c < |rings| && x in Unlinked(rings, x, b)[c] {
      assert ListIs(l, c, rings[c]);
    }
  }

  datatype Errno = Done | EAGAIN

  class BufferLru {
    var next: map<nat, nat>
    var prev: map<nat, nat>
    var heads: seq<nat>
    var list: map<nat, nat>
    const size: map<nat, nat>
    const dev: map<nat, nat>
    var nr: seq<int>
    var bytes: seq<int>
    var locked: set<nat>
    var dirty: set<nat>
    ghost var rings: seq<seq<nat>>

    function Abs(): Links
      reads this
    {
      Links(next, prev, heads, list, size, nr, bytes)
    }

    ghost predicate Valid()
      reads this
    {
      Ok(Abs(), rings)
    }

    /** __insert_into_lru_list. */
    method InsertIntoLruList(x: nat, b: nat)
      requires Valid() && b < NR_LIST && x != 0 && !Somewhere(rings, x) && x in list && list[x] == b
      modifies `next, `prev, `heads, `nr, `bytes, `rings
      ensures Valid() && rings == old(rings)[b := old(rings)[b] + [x]]
    {
      ghost var s := rings[b];
      InsertedOk(Abs(), rings, x, b);
      assert ListIs(Abs(), b, s);
      if s != [] { assert LinkedAt(next, prev, s, 0) && s[0] in s; }
      LinkIn(x, b, s);
      rings := rings[b := s + [x]];
    }

    /** The body of __insert_into_lru_list. */
    method LinkIn(x: nat, b: nat, ghost s: seq<nat>)
      requires |heads| == |nr| == |bytes| == NR_LIST && b < NR_LIST && x != 0
      requires if s == [] then heads[b] == 0 else heads[b] == s[0] != 0 && Link(prev, s[0]) == s[|s| - 1]
      modifies `next, `prev, `heads, `nr, `bytes
      ensures Abs() == Inserted(old(Abs()), s, x, b)
    {
      if heads[b] == 0 {
        heads := heads[b := x];
        prev := prev[x := x];
      }
      var h := heads[b];
      var last := Link(prev, h);
      next := next[x := h];
      prev := prev[x := last];
      next := next[last := x];
      prev := prev[h := x];
      nr := nr[b := nr[b] + 1];
      bytes := bytes[b := bytes[b] + Link(size, x)];
      assert heads == old(heads)[b := if s == [] then x else s[0]];
      assert next == NextWith(old(next), s, x);
      assert prev == PrevWith(old(prev), s, x);
    }

    /** __remove_from_lru_list. */
    method RemoveFromLruList(x: nat)
      requires Valid() && x in list && list[x] < NR_LIST
      modifies `next, `prev, `heads, `nr, `bytes, `rings
      ensures Valid() && rings == Unlinked(old(rings), x, list[x]) && !Somewhere(rings, x)
    {
      var n := Link(next, x);
      ghost var b := list[x];
      OnOwnList(Abs(), rings, x);
      Apart(Abs(), rings, x, b);
      if n != 0 {
        ghost var s := rings[b];
        ghost var k :| 0 <= k < |s| && s[k] == x;
        assert ListIs(Abs(), b, s) && LinkedAt(next, prev, s, k);
        WithoutIsDrop(s, k);
        RemovedOk(Abs(), rings, k, b);
        Unlink(x, n, s, k);
        rings := rings[b := Drop(s, k)];
      } else {
        WithoutAbsent(rings[b], x);
        assert rings[b := rings[b]] == rings;
      }
    }

    /** The body of __remove_from_lru_list, for a buffer on a list. */
    method Unlink(x: nat, next0: nat, ghost s: seq<nat>, ghost k: nat)
      requires x in list && list[x] < NR_LIST && |heads| == |nr| == |bytes| == NR_LIST
      requires k < |s| && s[k] == x && Ring(next, prev, s) && heads[list[x]] == s[0] && next0 == Link(next, x)
      modifies `next, `prev, `heads, `nr, `bytes
      ensures Abs() == Removed(old(Abs()), s, k, list[x])
    {
      assert LinkedAt(next, prev, s, k);
      var n, p, b := next0, Link(prev, x), list[x];
      next := next[p := n];
      prev := prev[n := p];
      if heads[b] == x {
        assert k == 0;
        if n == x {
          n := 0;
        }
        heads := heads[b := n];
      }
      next := next[x := 0];
      prev := prev[x := 0];
      nr := nr[b := nr[b] - 1];
      bytes := bytes[b := bytes[b] - Link(size, x)];
    }

    /** __refile_buffer: the buffer goes to the end of the list its state asks for. */
    method RefileBuffer(x: nat)
      requires Valid() && x != 0 && x in list && list[x] < NR_LIST
      modifies `next, `prev, `heads, `nr, `bytes, `rings, `list
      ensures Valid()
      ensures var d := Dispose(x, locked, dirty);
              && list == old(list)[x := d]
              && rings == if d == old(list)[x] then old(rings)
                          else Unlinked(old(rings), x, old(list)[x])[d := old(rings)[d] + [x]]
      ensures list[x] == BUF_DIRTY <==> x in dirty
      ensures list[x] == BUF_LOCKED <==> x in locked && x !in dirty
    {
      var d := BUF_CLEAN;
      if x in locked {
        d := BUF_LOCKED;
      }
      if x in dirty {
        d := BUF_DIRTY;
      }
      if d != list[x] {
        RemoveFromLruList(x);
        Relabelled(Abs(), rings, x, d);
        list := list[x := d];
        InsertIntoLruList(x, d);
      }
    }

    /** What the loop of write_some_buffers does with one buffer of the dirty list (lines 212-228). */
    method Visit(x: nat, device: nat) returns (fate: Fate)
      requires Valid() && x in rings[BUF_DIRTY]
      modifies `next, `prev, `heads, `nr, `bytes, `rings, `list, `locked, `dirty
      ensures Valid() && fate == FateOf(x, device, dev, old(locked), old(dirty))
      ensures locked == old(locked) + (if fate == Collected then {x} else {})
      ensures dirty == old(dirty) - if fate == Collected then {x} else {}
      ensures rings == Visited(old(rings), x, fate)
    {
      assert ListIs(Abs(), BUF_DIRTY, rings[BUF_DIRTY]);
      if device != NODEV && Link(dev, x) != device {
        return Left;
      }
      if x in locked {
        return Left;
      }
      locked := locked + {x};
      if x in dirty {
        dirty := dirty - {x};
        RefileBuffer(x);
        return Collected;
      }
      locked := locked - {x};
      RefileBuffer(x);
      return Clean;
    }

    /** One turn of the loop: the m-th buffer of the dirty list is visited, and its successor, taken
        before it is moved, is the next one. */
    method Turn(bh: nat, device: nat, batch: seq<nat>, ghost w: Walk, ghost m: nat)
      returns (nx: nat, batch': seq<nat>)
      requires Valid() && Walking(w, m, batch, rings, locked, dirty) && m < |w.s()| && bh == w.s()[m]
      requires w.device == device && w.dev == dev
      modifies `next, `prev, `heads, `nr, `bytes, `rings, `list, `locked, `dirty
      ensures Valid() && Walking(w, m + 1, batch', rings, locked, dirty)
      ensures m + 1 < |w.s()| ==> nx == w.s()[m + 1]
      ensures |batch'| <= |batch| + 1
    {
      NextInWalk(Abs(), rings, w, m, batch, locked, dirty);
      nx := Link(next, bh);
      WalkingOn(w, m, batch, rings, locked, dirty);
      var fate := Visit(bh, device);
      batch' := batch;
      if fate == Collected {
        batch' := batch + [bh];
      }
    }

    /** write_some_buffers: the buffers of the dirty list are visited once each, in order, until NRSYNC
        of them are collected or all are visited; `m` is the number visited. */
    method WriteSomeBuffers(device: nat) returns (err: Errno, batch: seq<nat>, ghost m: nat)
      requires Valid()
      modifies `next, `prev, `heads, `nr, `bytes, `rings, `list, `locked, `dirty
      ensures Valid() && Walking(Walk(old(rings), device, dev, old(locked), old(dirty)), m, batch, rings, locked, dirty)
      ensures |batch| <= NRSYNC && (err == EAGAIN <==> |batch| == NRSYNC)
      ensures err == Done ==> m == |old(rings)[BUF_DIRTY]|
      ensures forall x :: x in batch ==> x in old(rings)[BUF_DIRTY] && Due(x, device, dev, old(locked), old(dirty))
      ensures err == Done ==> forall x :: x in old(rings)[BUF_DIRTY] && Due(x, device, dev, old(locked), old(dirty)) ==>
                                x in batch
    {
      ghost var w := Walk(rings, device, dev, locked, dirty);
      assert ListIs(Abs(), BUF_DIRTY, w.s());
      WalkedNone(rings, w.fates());
      assert w.s()[..0] == [];
      var nx, n := heads[BUF_DIRTY], nr[BUF_DIRTY];
      batch, m := [], 0;
      while nx != 0 && n > 0
        invariant Valid() && Walking(w, m, batch, rings, locked, dirty) && |batch| < NRSYNC
        invariant n == |w.s()| - m && (m < |w.s()| ==> nx == w.s()[m] != 0)
        decreases n
      {
        n := n - 1;
        nx, batch := Turn(nx, device, batch, w, m);
        m := m + 1;
        if |batch| == NRSYNC {
          BatchExactly(w, m, batch, rings, locked, dirty);
          return EAGAIN, batch, m;
        }
      }
      BatchExactly(w, m, batch, rings, locked, dirty);
      return Done, batch, m;
    }
  }

  /** The lists and flags write_some_buffers starts with. */
  datatype Walk = Walk(rings: seq<seq<nat>>, device: nat, dev: map<nat, nat>, locked: set<nat>, dirty: set<nat>) {
    function s(): seq<nat> {
      if |rings| == NR_LIST then rings[BUF_DIRTY] else []
    }
    function fates(): nat -> Fate {
      FatesFor(device, dev, locked, dirty)
    }
  }

  /** After `m` buffers: the lists, the batch collected for writing, and the flags. */
  ghost predicate Walking(w: Walk, m: nat, batch: seq<nat>, rings: seq<seq<nat>>, locked: set<nat>, dirty: set<nat>) {
    && |w.rings| == NR_LIST && Distinct(w.s()) && 0 !in w.s() && m <= |w.s()|
    && rings == Walked(w.rings, w.fates(), m) && batch == With(w.s()[..m], w.fates(), Collected)
    && locked == w.locked + Elements(batch) && dirty == w.dirty - Elements(batch)
  }

  /** A dirty buffer nobody has locked, of the device asked for. */
  predicate Due(x: nat, device: nat, dev: map<nat, nat>, locked: set<nat>, dirty: set<nat>) {
    x in dirty && x !in locked && (device == NODEV || Link(dev, x) == device)
  }

  /** Of the buffers visited the batch holds exactly those that are due. */
  lemma BatchExactly(w: Walk, m: nat, batch: seq<nat>, rings: seq<seq<nat>>, locked: set<nat>, dirty: set<nat>)
    requires Walking(w, m, batch, rings, locked, dirty)
    ensures forall x :: x in batch <==> x in w.s()[..m] && Due(x, w.device, w.dev, w.locked, w.dirty)
  {
    WithIn(w.s()[..m], w.fates(), Collected);
  }

  /** The next buffer to visit is the successor of this one in the dirty list as it is now. */
  lemma NextInWalk(l: Links, rings: seq<seq<nat>>, w: Walk, m: nat, batch: seq<nat>, locked: set<nat>, dirty: set<nat>)
    requires Ok(l, rings) && Walking(w, m, batch, rings, locked, dirty) && m < |w.s()|
    ensures |rings| == NR_LIST && w.s()[m] in rings[BUF_DIRTY]
    ensures m + 1 < |w.s()| ==> Link(l.next, w.s()[m]) == w.s()[m + 1]
  {
    var s, fates := w.s(), w.fates();
    var k := |With(s[..m], fates, Left)|;
    DirtyAt(s, fates, m);
    assert ListIs(l, BUF_DIRTY, rings[BUF_DIRTY]) && LinkedAt(l.next, l.prev, rings[BUF_DIRTY], k);
  }

  /** What a visit to the m-th buffer does. */
  lemma WalkingOn(w: Walk, m: nat, batch: seq<nat>, rings: seq<seq<nat>>, locked: set<nat>, dirty: set<nat>)
    requires Walking(w, m, batch, rings, locked, dirty) && m < |w.s()|
    ensures |rings| == NR_LIST
    ensures var x := w.s()[m];
            var fate := FateOf(x, w.device, w.dev, locked, dirty);
            var one := if fate == Collected then {x} else {};
            Walking(w, m + 1, if fate == Collected then batch + [x] else batch, Visited(rings, x, fate),
                    locked + one, dirty - one)
  {
    var s, fates, x := w.s(), w.fates(), w.s()[m];
    SameFate(s, fates, m, batch);
    WalkedOn(w.rings, fates, m);
    WithNext(s, m, fates, Collected);
    assert fates(x) == FateOf(x, w.device, w.dev, locked, dirty);
    assert Elements(batch + [x]) == Elements(batch) + {x};
  }

  /** `x` goes from the dirty list to the end of list `b`. */
  function Moved(rings: seq<seq<nat>>, x: nat, b: nat): seq<seq<nat>>
    requires |rings| == NR_LIST && b < BUF_DIRTY
  {
    Unlinked(rings, x, BUF_DIRTY)[b := rings[b] + [x]]
  }

  /** The lists after the first `i` buffers of the dirty list have been visited. */
  function Walked(rings: seq<seq<nat>>, fates: nat -> Fate, i: nat): seq<seq<nat>>
    requires |rings| == NR_LIST && i <= |rings[BUF_DIRTY]|
  {
    var s := rings[BUF_DIRTY];
    [rings[BUF_CLEAN] + With(s[..i], fates, Clean), rings[BUF_LOCKED] + With(s[..i], fates, Collected),
     DirtyLeft(s, fates, i)]
  }

  lemma WalkedNone(rings: seq<seq<nat>>, fates: nat -> Fate)
    requires |rings| == NR_LIST
    ensures Walked(rings, fates, 0) == rings
  {
    var w := Walked(rings, fates, 0);
    assert rings[2][..0] == [];
    assert w[0] == rings[0] && w[1] == rings[1] && w[2] == rings[2];
  }

  /** The lists after a visit that ends with `fate`. */
  function Visited(rings: seq<seq<nat>>, x: nat, fate: Fate): seq<seq<nat>>
    requires |rings| == NR_LIST
  {
    match fate
    case Left => rings
    case Collected => Moved(rings, x, BUF_LOCKED)
    case Clean => Moved(rings, x, BUF_CLEAN)
  }

  lemma WalkedOn(rings: seq<seq<nat>>, fates: nat -> Fate, i: nat)
    requires |rings| == NR_LIST && i < |rings[BUF_DIRTY]| && Distinct(rings[BUF_DIRTY])
    ensures var x := rings[BUF_DIRTY][i];
            Walked(rings, fates, i + 1) == Visited(Walked(rings, fates, i), x, fates(x))
  {
    var s := rings[BUF_DIRTY];
    WithNext(s, i, fates, Clean);
    WithNext(s, i, fates, Collected);
    DirtyStep(s, fates, i);
    var x, w, w' := s[i], Walked(rings, fates, i), Walked(rings, fates, i + 1);
    var v := Visited(w, x, fates(x));
    assert w'[0] == v[0] && w'[1] == v[1] && w'[2] == v[2];
  }

  /** A buffer not visited yet has the flags it had at the start. */
  lemma SameFate(s: seq<nat>, fates: nat -> Fate, i: nat, batch: seq<nat>)
    requires i < |s| && Distinct(s) && batch == With(s[..i], fates, Collected)
    ensures s[i] !in Elements(batch)
  {
    WithIn(s[..i], fates, Collected);
  }
}
