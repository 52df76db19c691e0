/** The LRU lists of buffers: circular doubly linked lists through b_next_free and b_prev_free
    (fs/buffer.c:198-235, 505-542, 1068-1082). */
module BufferLists {
  import opened Lists
  import opened Sums

  const BUF_CLEAN := 0
  const BUF_LOCKED := 1
  const BUF_DIRTY := 2
  const NR_LIST := 3
  const NRSYNC := 32

  /** The links of all buffers, 0 for none; heads, lengths and sizes by list; b_list and b_size by
      buffer. */
  datatype Links = Links(next: map<nat, nat>, prev: map<nat, nat>, heads: seq<nat>, list: map<nat, nat>,
                         size: map<nat, nat>, nr: seq<int>, bytes: seq<int>)

  function Link(links: map<nat, nat>, x: nat): nat {
    if x in links then links[x] else 0
  }

  function Succ(s: seq<nat>, k: nat): nat
    requires k < |s|
  {
    if k + 1 < |s| then s[k + 1] else s[0]
  }

  function Pred(s: seq<nat>, k: nat): nat
    requires k < |s|
  {
    if k > 0 then s[k - 1] else s[|s| - 1]
  }

  /** The links lead around through `s`, in both directions. */
  predicate Ring(next: map<nat, nat>, prev: map<nat, nat>, s: seq<nat>) {
    && Distinct(s) && 0 !in s
    && (forall k {:trigger LinkedAt(next, prev, s, k)} :: 0 <= k < |s| ==> LinkedAt(next, prev, s, k))
  }

  predicate LinkedAt(next: map<nat, nat>, prev: map<nat, nat>, s: seq<nat>, k: nat)
    requires k < |s|
  {
    Link(next, s[k]) == Succ(s, k) && Link(prev, s[k]) == Pred(s, k)
  }

  function SizeOf(size: map<nat, nat>): nat -> int {
    (x: nat) => Link(size, x)
  }

  /** List `b` is the ring `s`: its head, its length and the sum of its sizes. */
  ghost predicate ListIs(l: Links, b: nat, s: seq<nat>) {
    && b < |l.heads| && b < |l.nr| && b < |l.bytes|
    && Ring(l.next, l.prev, s) && l.heads[b] == (if s == [] then 0 else s[0])
    && l.nr[b] == |s| && l.bytes[b] == Total(s, SizeOf(l.size))
    && (forall x :: x in s ==> x in l.list && l.list[x] == b)
  }

  predicate Free(l: Links, x: nat) {
    Link(l.next, x) == 0 && Link(l.prev, x) == 0
  }

  predicate Somewhere(rings: seq<seq<nat>>, x: nat) {
    exists b :: 0 <= b < |rings| && x in rings[b]
  }

  /** The lists are exactly `rings`; buffers on none of them have no links. */
  ghost predicate Ok(l: Links, rings: seq<seq<nat>>) {
    && |rings| == |l.heads| == |l.nr| == |l.bytes| == NR_LIST
    && (forall b :: 0 <= b < NR_LIST ==> ListIs(l, b, rings[b]))
    && (forall x {:trigger Free(l, x)} :: !Somewhere(rings, x) ==> Free(l, x))
  }

  /** A buffer is on no list, or on the one it names. */
  lemma OnOwnList(l: Links, rings: seq<seq<nat>>, x: nat)
    requires Ok(l, rings)
    ensures Link(l.next, x) == 0 <==> !Somewhere(rings, x)
    ensures Somewhere(rings, x) ==> x in l.list && l.list[x] < NR_LIST && x in rings[l.list[x]]
  {
    assert !Somewhere(rings, x) ==> Free(l, x);
    if b :| 0 <= b < |rings| && x in rings[b] {
      var s := rings[b];
      assert ListIs(l, b, s);
      var k :| 0 <= k < |s| && s[k] == x;
      assert LinkedAt(l.next, l.prev, s, k) && Succ(s, k) in s;
    }
  }

  // ---- insertion

  /** The links after `x` is put in before the first of `s`. */
  function NextWith(next: map<nat, nat>, s: seq<nat>, x: nat): map<nat, nat> {
    if s == [] then next[x := x] else next[x := s[0]][s[|s| - 1] := x]
  }

  function PrevWith(prev: map<nat, nat>, s: seq<nat>, x: nat): map<nat, nat> {
    if s == [] then prev[x := x] else prev[x := s[|s| - 1]][s[0] := x]
  }

  lemma RingInsert(next: map<nat, nat>, prev: map<nat, nat>, s: seq<nat>, x: nat)
    requires Ring(next, prev, s) && x !in s && x != 0
    ensures Ring(NextWith(next, s, x), PrevWith(prev, s, x), s + [x])
  {
    var t := s + [x];
    var n, p := NextWith(next, s, x), PrevWith(prev, s, x);
    forall k | 0 <= k < |t| ensures LinkedAt(n, p, t, k) {
      if k < |s| {
        assert LinkedAt(next, prev, s, k);
        assert s[k] != x;
        assert k < |s| - 1 ==> s[k] != s[|s| - 1];
        assert 0 < k ==> s[k] != s[0];
      }
    }
  }

  /** A ring that does not meet the changed buffers stays one. */
  lemma RingApart(next: map<nat, nat>, prev: map<nat, nat>, next': map<nat, nat>, prev': map<nat, nat>, t: seq<nat>)
    requires Ring(next, prev, t)
    requires forall x :: x in t ==> Link(next', x) == Link(next, x) && Link(prev', x) == Link(prev, x)
    ensures Ring(next', prev', t)
  {
    forall k | 0 <= k < |t| ensures LinkedAt(next', prev', t, k) {
      assert LinkedAt(next, prev, t, k) && t[k] in t;
    }
  }

  // ---- removal

  lemma DropIn(s: seq<nat>, k: nat)
    requires Distinct(s) && k < |s|
    ensures Distinct(Drop(s, k)) && forall x :: x in Drop(s, k) <==> x in s && x != s[k]
  {
    var t := Drop(s, k);
    forall x ensures x in t <==> x in s && x != s[k] {
      if x in s && x != s[k] {
        var j :| 0 <= j < |s| && s[j] == x;
        assert t[if j < k then j else j - 1] == x;
      }
    }
  }

  function NextWithout(next: map<nat, nat>, s: seq<nat>, k: nat): map<nat, nat>
    requires k < |s|
  {
    next[Pred(s, k) := Succ(s, k)][s[k] := 0]
  }

  function PrevWithout(prev: map<nat, nat>, s: seq<nat>, k: nat): map<nat, nat>
    requires k < |s|
  {
    prev[Succ(s, k) := Pred(s, k)][s[k] := 0]
  }

  lemma RingRemove(next: map<nat, nat>, prev: map<nat, nat>, s: seq<nat>, k: nat)
    requires Ring(next, prev, s) && k < |s|
    ensures Ring(NextWithout(next, s, k), PrevWithout(prev, s, k), Drop(s, k))
  {
    DropIn(s, k);
    var t := Drop(s, k);
    forall j | 0 <= j < |t|
      ensures LinkedAt(NextWithout(next, s, k), PrevWithout(prev, s, k), t, j)
    {
      var i := if j < k then j else j + 1;
      assert t[j] == s[i] && s[i] != s[k];
      RemovedAt(next, prev, s, k, i, j);
    }
  }

  lemma DropAt(s: seq<nat>, k: nat, j: nat)
    requires k < |s| && j + 1 < |s|
    ensures j < |Drop(s, k)| == |s| - 1 && Drop(s, k)[j] == if j < k then s[j] else s[j + 1]
  {
  }

  /** What follows the i-th element when the k-th is gone. */
  lemma SuccDrop(s: seq<nat>, k: nat, i: nat, j: nat)
    requires k < |s| && i < |s| && i != k && j == if i < k then i else i - 1
    ensures j < |s| - 1 == |Drop(s, k)|
    ensures Succ(Drop(s, k), j) == if i == (if k > 0 then k - 1 else |s| - 1) then Succ(s, k) else Succ(s, i)
  {
    DropAt(s, k, j);
    DropAt(s, k, 0);
    if j + 2 < |s| { DropAt(s, k, j + 1); }
  }

  lemma PredDrop(s: seq<nat>, k: nat, i: nat, j: nat)
    requires k < |s| && i < |s| && i != k && j == if i < k then i else i - 1
    ensures j < |s| - 1 == |Drop(s, k)|
    ensures Pred(Drop(s, k), j) == if i == (if k + 1 < |s| then k + 1 else 0) then Pred(s, k) else Pred(s, i)
  {
    DropAt(s, k, |s| - 2);
    if j > 0 { DropAt(s, k, j - 1); }
  }

  lemma RemovedAt(next: map<nat, nat>, prev: map<nat, nat>, s: seq<nat>, k: nat, i: nat, j: nat)
    requires Ring(next, prev, s) && k < |s| && i < |s| && i != k && j == if i < k then i else i - 1
    ensures var t := Drop(s, k);
            && j < |t| && t[j] == s[i]
            && Link(NextWithout(next, s, k), s[i]) == Succ(t, j)
            && Link(PrevWithout(prev, s, k), s[i]) == Pred(t, j)
  {
    DropAt(s, k, j);
    SuccDrop(s, k, i, j);
    PredDrop(s, k, i, j);
    var a, b := if k > 0 then k - 1 else |s| - 1, if k + 1 < |s| then k + 1 else 0;
    assert s[i] == s[a] <==> i == a;
    assert s[i] == s[b] <==> i == b;
    assert LinkedAt(next, prev, s, i) && s[i] != s[k];
  }

  // ---- the lists after a change of one of them

  /** Insertion at the end of list `b`. */
  function Inserted(l: Links, s: seq<nat>, x: nat, b: nat): Links
    requires b < |l.heads| && b < |l.nr| && b < |l.bytes|
  {
    l.(next := NextWith(l.next, s, x), prev := PrevWith(l.prev, s, x),
       heads := l.heads[b := if s == [] then x else s[0]],
       nr := l.nr[b := l.nr[b] + 1], bytes := l.bytes[b := l.bytes[b] + Link(l.size, x)])
  }

  lemma InsertedList(l: Links, rings: seq<seq<nat>>, x: nat, b: nat, c: nat)
    requires Ok(l, rings) && b < NR_LIST && x != 0 && !Somewhere(rings, x) && x in l.list && l.list[x] == b
    requires c < NR_LIST
    ensures ListIs(Inserted(l, rings[b], x, b), c, rings[b := rings[b] + [x]][c])
  {
    var s := rings[b];
    var r := Inserted(l, s, x, b);
    assert ListIs(l, b, s) && ListIs(l, c, rings[c]);
    assert x !in rings[c] && x !in s;
    if c == b {
      RingInsert(l.next, l.prev, s, x);
      TotalAppend(s, x, SizeOf(l.size));
    } else {
      assert forall y :: y in rings[c] ==> y !in s;
      RingApart(l.next, l.prev, r.next, r.prev, rings[c]);
    }
  }

  lemma InsertedOk(l: Links, rings: seq<seq<nat>>, x: nat, b: nat)
    requires Ok(l, rings) && b < NR_LIST && x != 0 && !Somewhere(rings, x) && x in l.list && l.list[x] == b
    ensures Ok(Inserted(l, rings[b], x, b), rings[b := rings[b] + [x]])
  {
    var s := rings[b];
    var r, rings' := Inserted(l, s, x, b), rings[b := s + [x]];
    forall c | 0 <= c < NR_LIST ensures ListIs(r, c, rings'[c]) {
      InsertedList(l, rings, x, b, c);
    }
    forall y | !Somewhere(rings', y) ensures Free(r, y) {
      NotSomewhere(rings, b, s + [x], y);
      assert Free(l, y);
    }
  }

  lemma NotSomewhere(rings: seq<seq<nat>>, b: nat, t: seq<nat>, y: nat)
    requires b < |rings| && !Somewhere(rings[b := t], y)
    ensures Somewhere(rings, y) ==> y in rings[b]
    ensures y !in t
  {
    assert y !in rings[b := t][b];
    if c :| 0 <= c < |rings| && y in rings[c] {
      assert c != b ==> rings[b := t][c] == rings[c];
    }
  }

  /** Removal of the k-th buffer of list `b`. */
  function Removed(l: Links, s: seq<nat>, k: nat, b: nat): Links
    requires k < |s| && b < |l.heads| && b < |l.nr| && b < |l.bytes|
  {
    l.(next := NextWithout(l.next, s, k), prev := PrevWithout(l.prev, s, k),
       heads := if k > 0 then l.heads else l.heads[b := if |s| == 1 then 0 else s[1]],
       nr := l.nr[b := l.nr[b] - 1], bytes := l.bytes[b := l.bytes[b] - Link(l.size, s[k])])
  }

  lemma RemovedList(l: Links, rings: seq<seq<nat>>, k: nat, b: nat, c: nat)
    requires Ok(l, rings) && b < NR_LIST && k < |rings[b]| && c < NR_LIST
    ensures var rings' := rings[b := Drop(rings[b], k)];
            ListIs(Removed(l, rings[b], k, b), c, rings'[c]) && rings[b][k] !in rings'[c]
  {
    var s := rings[b];
    var r := Removed(l, s, k, b);
    assert ListIs(l, b, s) && ListIs(l, c, rings[c]);
    assert Succ(s, k) in s && Pred(s, k) in s && s[k] in s;
    if c == b {
      RingRemove(l.next, l.prev, s, k);
      DropIn(s, k);
      TotalDrop(s, k, SizeOf(l.size));
    } else {
      assert forall y :: y in rings[c] ==> y !in s;
      RingApart(l.next, l.prev, r.next, r.prev, rings[c]);
    }
  }

  lemma RemovedOk(l: Links, rings: seq<seq<nat>>, k: nat, b: nat)
    requires Ok(l, rings) && b < NR_LIST && k < |rings[b]|
    ensures Ok(Removed(l, rings[b], k, b), rings[b := Drop(rings[b], k)])
    ensures !Somewhere(rings[b := Drop(rings[b], k)], rings[b][k])
  {
    var s := rings[b];
    var r, rings' := Removed(l, s, k, b), rings[b := Drop(s, k)];
    forall c | 0 <= c < NR_LIST ensures ListIs(r, c, rings'[c]) && s[k] !in rings'[c] {
      RemovedList(l, rings, k, b, c);
    }
    assert ListIs(l, b, s);
    DropIn(s, k);
    forall y | !Somewhere(rings', y) ensures Free(r, y) {
      NotSomewhere(rings, b, Drop(s, k), y);
      assert Succ(s, k) in s && Pred(s, k) in s;
      assert y != s[k] ==> y !in s;
      assert !Somewhere(rings, y) ==> Free(l, y);
    }
  }
}
