/** Ownership transfer between dquots, and whole runs of quota operations (fs/dquot.c:1135-1217). */
module QuotaMoves {
  import opened QuotaLedger
  import opened Sums
  import opened Options

  /** The slots that take part: a dquot to move to, and one to move from. */
  predicate Moves(slots: seq<Option<nat>>, to: seq<Option<nat>>, k: nat)
    requires k < |slots| && k < |to|
  {
    to[k].Some? && slots[k].Some?
  }

  /** The check loop of dquot_transfer over the first `k` slots. */
  function CheckMoves(m: map<nat, Dquot>, slots: seq<Option<nat>>, to: seq<Option<nat>>, k: nat, blocks: nat,
                      env: Env): Checked
    requires k <= |slots| && k <= |to|
    decreases k
  {
    if k == 0 then Checked(true, m)
    else
      var c := CheckMoves(m, slots, to, k - 1, blocks, env);
      if !c.ok || !Moves(slots, to, k - 1) || to[k - 1].value !in c.dquots then c
      else
        var t := to[k - 1].value;
        var v := CheckBoth(c.dquots[t], t, blocks, env);
        Checked(v.ok, c.dquots[t := v.dquot])
  }

  lemma {:induction false} CheckMovesUses(m: map<nat, Dquot>, slots: seq<Option<nat>>, to: seq<Option<nat>>, k: nat,
                                          blocks: nat, env: Env)
    requires k <= |slots| && k <= |to|
    ensures SameUses(m, CheckMoves(m, slots, to, k, blocks, env).dquots)
    decreases k
  {
    if k > 0 { CheckMovesUses(m, slots, to, k - 1, blocks, env); }
  }

  /** One inode and its blocks leave a dquot, and so does a reference. */
  function Leave(d: Dquot, blocks: nat): Dquot {
    var cb, ci := Lowered(d.curblocks, blocks), Lowered(d.curinodes, 1);
    d.(curblocks := cb, curinodes := ci, count := Lowered(d.count, 1),
       btime := if cb < d.bsoft then 0 else d.btime, itime := if ci < d.isoft then 0 else d.itime)
  }

  function Join(d: Dquot, blocks: nat): Dquot {
    d.(curblocks := d.curblocks + blocks, curinodes := d.curinodes + 1, count := d.count + 1)
  }

  function MoveDquots(m: map<nat, Dquot>, f: nat, t: nat, blocks: nat): map<nat, Dquot>
    requires f in m && t in m
  {
    var left := m[f := Leave(m[f], blocks)];
    left[t := Join(left[t], blocks)]
  }

  /** Slot `k` of inode `i` goes over to dquot `t`. */
  function MoveSlot(q: Quotas, i: nat, k: nat, t: nat): Quotas
    requires i < |q.inodes| && k < |q.inodes[i].dquot| && q.inodes[i].dquot[k].Some?
    requires q.inodes[i].dquot[k].value in q.dquots && t in q.dquots
  {
    var ino := q.inodes[i];
    Quotas(MoveDquots(q.dquots, ino.dquot[k].value, t, ino.blocks / 2),
           q.inodes[i := ino.(dquot := ino.dquot[k := Some(t)])])
  }

  /** `f` can give up what leaves it. */
  predicate Solvent(d: Dquot, blocks: nat) {
    d.curblocks >= blocks && d.curinodes >= 1 && d.count >= 1
  }

  // ---- the ledger under one move

  lemma SharesWithSlot(inodes: seq<Inode>, i: nat, k: nat, t: nat, d: nat)
    requires i < |inodes| && k < |inodes[i].dquot|
    ensures var ino := inodes[i];
            var inodes' := inodes[i := ino.(dquot := ino.dquot[k := Some(t)])];
            var off := if ino.dquot[k] == Some(d) then 1 else 0;
            var on := if t == d then 1 else 0;
            && Total(inodes', RefShare(d)) == Total(inodes, RefShare(d)) - off + on
            && Total(inodes', BlockShare(d)) == Total(inodes, BlockShare(d))
                 - (if off == 1 then ino.blocks / 2 else 0) + if on == 1 then ino.blocks / 2 else 0
  {
    var ino := inodes[i];
    var ino' := ino.(dquot := ino.dquot[k := Some(t)]);
    TotalUpdate(inodes, i, ino', BlockShare(d));
    TotalUpdate(inodes, i, ino', RefShare(d));
    TallyUpdate(ino.dquot, |ino.dquot|, k, t, d, 1);
    TallyUpdate(ino.dquot, |ino.dquot|, k, t, d, ino.blocks / 2);
  }

  /** No rest becomes smaller. */
  predicate NoLess(q: Quotas, r: Quotas, d: nat) {
    && d in q.dquots && d in r.dquots
    && BlockRest(q, d) <= BlockRest(r, d) && InodeRest(q, d) <= InodeRest(r, d) && CountRest(q, d) <= CountRest(r, d)
  }

  lemma MovedRest(q: Quotas, i: nat, k: nat, t: nat, d: nat)
    requires i < |q.inodes| && k < |q.inodes[i].dquot| && q.inodes[i].dquot[k].Some?
    requires q.inodes[i].dquot[k].value in q.dquots && t in q.dquots && d in q.dquots
    ensures var f := q.inodes[i].dquot[k].value;
            && NoLess(q, MoveSlot(q, i, k, t), d)
            && (SameRest(q, MoveSlot(q, i, k, t), d) <==> d != f || Solvent(q.dquots[f], q.inodes[i].blocks / 2))
  {
    SharesWithSlot(q.inodes, i, k, t, d);
    var f, r, b := q.inodes[i].dquot[k].value, MoveSlot(q, i, k, t), q.inodes[i].blocks / 2;
    var on, off := if t == d then 1 else 0, if f == d then 1 else 0;
    assert r.dquots[d].curinodes ==
             (if off == 1 then Lowered(q.dquots[d].curinodes, 1) else q.dquots[d].curinodes) + on;
    assert r.dquots[d].count == (if off == 1 then Lowered(q.dquots[d].count, 1) else q.dquots[d].count) + on;
  }

  lemma MovedShape(q: Quotas, i: nat, k: nat, t: nat)
    requires Shape(q) && i < |q.inodes| && k < MAXQUOTAS && q.inodes[i].dquot[k].Some?
    requires t in q.dquots && q.dquots[t].kind == k
    ensures q.inodes[i].dquot[k].value in q.dquots && Shape(MoveSlot(q, i, k, t))
    ensures forall d :: d in q.dquots && q.dquots[d].kind != k ==> MoveSlot(q, i, k, t).dquots[d] == q.dquots[d]
    ensures forall d :: d in q.dquots ==> MoveSlot(q, i, k, t).dquots[d].kind == q.dquots[d].kind
  {
    assert FitsSlot(q, q.inodes[i].dquot[k], k);
    var r := MoveSlot(q, i, k, t);
    forall a, b | 0 <= a < |r.inodes| && 0 <= b < |r.inodes[a].dquot| ensures FitsSlot(r, r.inodes[a].dquot[b], b) {
      assert FitsSlot(q, q.inodes[a].dquot[b], b);
    }
  }

  // ---- the transfer loop

  predicate Targets(q: Quotas, to: seq<Option<nat>>) {
    |to| == MAXQUOTAS && forall k :: 0 <= k < MAXQUOTAS ==> FitsSlot(q, to[k], k)
  }

  /** After `k` slots: the state, still in shape, with later slots and their dquots as they were. */
  ghost predicate MovedUpTo(q: Quotas, r: Quotas, i: nat, k: nat) {
    && Shape(q) && Shape(r) && r.dquots.Keys == q.dquots.Keys && |r.inodes| == |q.inodes| && i < |q.inodes|
    && r.inodes[i].blocks == q.inodes[i].blocks
    && (forall j :: k <= j < MAXQUOTAS ==> r.inodes[i].dquot[j] == q.inodes[i].dquot[j])
    && (forall d :: d in q.dquots ==> r.dquots[d].kind == q.dquots[d].kind)
    && (forall d :: d in q.dquots && q.dquots[d].kind >= k ==> r.dquots[d] == q.dquots[d])
  }

  lemma MovedFurther(q: Quotas, p: Quotas, i: nat, j: nat, k: nat, t: nat)
    requires MovedUpTo(q, p, i, j) && k == j + 1 <= MAXQUOTAS && q.inodes[i].dquot[j].Some?
    requires t in q.dquots && q.dquots[t].kind == j
    ensures p.inodes[i].dquot[j].Some? && p.inodes[i].dquot[j].value in p.dquots && t in p.dquots
    ensures MovedUpTo(q, MoveSlot(p, i, j, t), i, k)
  {
    MovedShape(p, i, j, t);
  }

  ghost function MoveAll(q: Quotas, i: nat, to: seq<Option<nat>>, k: nat): (r: Quotas)
    requires Shape(q) && Targets(q, to) && i < |q.inodes| && k <= MAXQUOTAS
    ensures MovedUpTo(q, r, i, k)
    decreases k
  {
    if k == 0 then q
    else
      var p := MoveAll(q, i, to, k - 1);
      if Moves(q.inodes[i].dquot, to, k - 1) then
        assert FitsSlot(q, to[k - 1], k - 1);
        MovedFurther(q, p, i, k - 1, k, to[k - 1].value);
        MoveSlot(p, i, k - 1, to[k - 1].value)
      else p
  }

  /** Every dquot that is moved from can give up what leaves it. */
  predicate CanMove(q: Quotas, i: nat, to: seq<Option<nat>>, k: nat)
    requires Shape(q) && |to| == MAXQUOTAS && i < |q.inodes| && k <= MAXQUOTAS
  {
    forall j :: 0 <= j < k && Moves(q.inodes[i].dquot, to, j) && q.inodes[i].dquot[j].value in q.dquots ==>
      Solvent(q.dquots[q.inodes[i].dquot[j].value], q.inodes[i].blocks / 2)
  }

  ghost predicate NeverLess(q: Quotas, r: Quotas) {
    q.dquots.Keys == r.dquots.Keys && forall d {:trigger NoLess(q, r, d)} :: d in q.dquots ==> NoLess(q, r, d)
  }

  lemma MoveSlotBalanced(q: Quotas, i: nat, k: nat, t: nat)
    requires Shape(q) && i < |q.inodes| && k < MAXQUOTAS && q.inodes[i].dquot[k].Some?
    requires q.inodes[i].dquot[k].value in q.dquots && t in q.dquots
    ensures var f, r := q.inodes[i].dquot[k].value, MoveSlot(q, i, k, t);
            && NeverLess(q, r) && (Balanced(q, r) <==> Solvent(q.dquots[f], q.inodes[i].blocks / 2))
  {
    var r, f := MoveSlot(q, i, k, t), q.inodes[i].dquot[k].value;
    forall d | d in q.dquots
      ensures NoLess(q, r, d)
      ensures SameRest(q, r, d) <==> d != f || Solvent(q.dquots[f], q.inodes[i].blocks / 2)
    {
      MovedRest(q, i, k, t, d);
    }
  }

  /** If p has a larger rest than q somewhere, so has anything after p. */
  lemma StaysUnbalanced(q: Quotas, p: Quotas, r: Quotas)
    requires NeverLess(q, p) && NeverLess(p, r)
    ensures NeverLess(q, r) && (Balanced(q, r) <==> Balanced(q, p) && Balanced(p, r))
  {
    forall d | d in q.dquots
      ensures NoLess(q, r, d) && (SameRest(q, r, d) <==> SameRest(q, p, d) && SameRest(p, r, d))
    {
      assert NoLess(q, p, d) && NoLess(p, r, d);
    }
  }

  lemma CanMoveStep(q: Quotas, i: nat, to: seq<Option<nat>>, k: nat)
    requires Shape(q) && |to| == MAXQUOTAS && i < |q.inodes| && k < MAXQUOTAS
    ensures var slots := q.inodes[i].dquot;
            && (Moves(slots, to, k) ==> slots[k].value in q.dquots && q.dquots[slots[k].value].kind == k)
            && (CanMove(q, i, to, k + 1) <==>
                CanMove(q, i, to, k) &&
                (Moves(slots, to, k) ==> Solvent(q.dquots[slots[k].value], q.inodes[i].blocks / 2)))
  {
    assert FitsSlot(q, q.inodes[i].dquot[k], k);
  }

  /** After `k` slots, the state, and whether it is still balanced. */
  ghost predicate MovesRight(q: Quotas, p: Quotas, i: nat, to: seq<Option<nat>>, k: nat) {
    && MovedUpTo(q, p, i, k) && |to| == MAXQUOTAS && k <= MAXQUOTAS
    && NeverLess(q, p) && (Balanced(q, p) <==> CanMove(q, i, to, k))
  }

  /** One slot more, if it takes part. */
  lemma MoveOneBalanced(q: Quotas, p: Quotas, i: nat, to: seq<Option<nat>>, k: nat)
    requires MovesRight(q, p, i, to, k) && Targets(q, to) && k < MAXQUOTAS && Moves(q.inodes[i].dquot, to, k)
    ensures p.inodes[i].dquot[k].Some? && p.inodes[i].dquot[k].value in p.dquots && to[k].value in p.dquots
    ensures var r := MoveSlot(p, i, k, to[k].value);
            NeverLess(q, r) && (Balanced(q, r) <==> CanMove(q, i, to, k + 1))
  {
    CanMoveStep(q, i, to, k);
    assert FitsSlot(q, to[k], k);
    MoveSlotBalanced(p, i, k, to[k].value);
    StaysUnbalanced(q, p, MoveSlot(p, i, k, to[k].value));
  }

  lemma MoveNone(q: Quotas, p: Quotas, i: nat, to: seq<Option<nat>>, k: nat)
    requires MovesRight(q, p, i, to, k) && k < MAXQUOTAS && !Moves(q.inodes[i].dquot, to, k)
    ensures MovesRight(q, p, i, to, k + 1)
  {
    CanMoveStep(q, i, to, k);
  }

  lemma NothingMoved(q: Quotas, i: nat, to: seq<Option<nat>>, k: nat, r: Quotas)
    requires Shape(q) && |to| == MAXQUOTAS && i < |q.inodes| && k == 0 && r == q
    ensures MovesRight(q, r, i, to, k)
  {
    forall d | d in q.dquots ensures NoLess(q, q, d) && SameRest(q, q, d) {}
  }

  /** From `p` to `r` slot `j` moves, if it takes part. */
  ghost predicate StepsTo(q: Quotas, p: Quotas, r: Quotas, i: nat, to: seq<Option<nat>>, j: nat)
    requires i < |q.inodes| && i < |p.inodes| && j < |q.inodes[i].dquot| && j < |p.inodes[i].dquot| && j < |to|
  {
    if Moves(q.inodes[i].dquot, to, j)
    then p.inodes[i].dquot[j].Some? && p.inodes[i].dquot[j].value in p.dquots && to[j].value in p.dquots &&
         r == MoveSlot(p, i, j, to[j].value)
    else r == p
  }

  lemma MoveAllSteps(q: Quotas, i: nat, to: seq<Option<nat>>, j: nat, k: nat)
    requires Shape(q) && Targets(q, to) && i < |q.inodes| && k == j + 1 <= MAXQUOTAS
    ensures MovedUpTo(q, MoveAll(q, i, to, j), i, j) && MovedUpTo(q, MoveAll(q, i, to, k), i, k)
    ensures StepsTo(q, MoveAll(q, i, to, j), MoveAll(q, i, to, k), i, to, j)
  {
    assert FitsSlot(q, to[j], j) && FitsSlot(q, q.inodes[i].dquot[j], j);
  }

  lemma MoveNext(q: Quotas, p: Quotas, r: Quotas, i: nat, to: seq<Option<nat>>, j: nat, k: nat)
    requires MovesRight(q, p, i, to, j) && Targets(q, to) && k == j + 1 <= MAXQUOTAS && MovedUpTo(q, r, i, k)
    requires StepsTo(q, p, r, i, to, j)
    ensures MovesRight(q, r, i, to, k)
  {
    if Moves(q.inodes[i].dquot, to, j) { MoveOneBalanced(q, p, i, to, j); } else { MoveNone(q, p, i, to, j); }
  }

  lemma MoveAllNext(q: Quotas, p: Quotas, r: Quotas, i: nat, to: seq<Option<nat>>, j: nat, k: nat)
    requires Shape(q) && Targets(q, to) && i < |q.inodes| && k == j + 1 <= MAXQUOTAS
    requires p == MoveAll(q, i, to, j) && r == MoveAll(q, i, to, k) && MovesRight(q, p, i, to, j)
    ensures MovesRight(q, r, i, to, k)
  {
    MoveAllSteps(q, i, to, j, k);
    MoveNext(q, p, r, i, to, j, k);
  }

  lemma {:induction false} MoveAllBalanced(q: Quotas, i: nat, to: seq<Option<nat>>, k: nat, r: Quotas)
    requires Shape(q) && Targets(q, to) && i < |q.inodes| && k <= MAXQUOTAS && r == MoveAll(q, i, to, k)
    ensures MovesRight(q, r, i, to, k)
    decreases k
  {
    if k == 0 {
      NothingMoved(q, i, to, k, r);
    } else {
      var p := MoveAll(q, i, to, k - 1);
      MoveAllBalanced(q, i, to, k - 1, p);
      MoveAllNext(q, p, r, i, to, k - 1, k);
    }
  }

  // ---- dquot_transfer

  /** dquot_transfer of inode `i` to the dquots `to` that dqget found for the new owner; none for a
      type that is not enabled or does not change. */
  ghost function Transfer(q: Quotas, i: nat, to: seq<Option<nat>>, env: Env): (Quotas, bool)
    requires Shape(q) && Targets(q, to) && i < |q.inodes|
  {
    var c := CheckMoves(q.dquots, q.inodes[i].dquot, to, MAXQUOTAS, q.inodes[i].blocks / 2, env);
    CheckMovesUses(q.dquots, q.inodes[i].dquot, to, MAXQUOTAS, q.inodes[i].blocks / 2, env);
    var p := q.(dquots := c.dquots);
    if !c.ok then (p, false)
    else
      SameUsesBalanced(q, c.dquots);
      TargetsKept(q, c.dquots, to);
      (MoveAll(p, i, to, MAXQUOTAS), true)
  }

  lemma TargetsKept(q: Quotas, m: map<nat, Dquot>, to: seq<Option<nat>>)
    requires Targets(q, to) && SameUses(q.dquots, m)
    ensures Targets(q.(dquots := m), to)
  {
    forall k | 0 <= k < MAXQUOTAS ensures FitsSlot(q.(dquots := m), to[k], k) {
      assert FitsSlot(q, to[k], k);
      if to[k].Some? { assert SameUse(q.dquots[to[k].value], m[to[k].value]); }
    }
  }

  /** A transfer that is granted keeps the ledger of blocks, inodes and references balanced exactly if
      no counter is cut off at 0; one that is refused changes no use and no reference. */
  lemma TransferBalanced(q: Quotas, i: nat, to: seq<Option<nat>>, env: Env)
    requires Shape(q) && Targets(q, to) && i < |q.inodes|
    ensures var (r, ok) := Transfer(q, i, to, env);
            && Shape(r) && (ok ==> (Balanced(q, r) <==> CanMove(q, i, to, MAXQUOTAS)))
            && (!ok ==> Balanced(q, r) && SameUses(q.dquots, r.dquots) && r.inodes == q.inodes)
  {
    var c := CheckMoves(q.dquots, q.inodes[i].dquot, to, MAXQUOTAS, q.inodes[i].blocks / 2, env);
    CheckMovesUses(q.dquots, q.inodes[i].dquot, to, MAXQUOTAS, q.inodes[i].blocks / 2, env);
    SameUsesBalanced(q, c.dquots);
    if c.ok {
      var p := q.(dquots := c.dquots);
      TargetsKept(q, c.dquots, to);
      MoveAllBalanced(p, i, to, MAXQUOTAS, MoveAll(p, i, to, MAXQUOTAS));
      CanMoveKept(q, c.dquots, i, to);
      BalancedSplit(q, p, MoveAll(p, i, to, MAXQUOTAS));
    }
  }

  lemma CanMoveKept(q: Quotas, m: map<nat, Dquot>, i: nat, to: seq<Option<nat>>)
    requires Shape(q) && Shape(q.(dquots := m)) && |to| == MAXQUOTAS && i < |q.inodes| && SameUses(q.dquots, m)
    ensures CanMove(q.(dquots := m), i, to, MAXQUOTAS) <==> CanMove(q, i, to, MAXQUOTAS)
  {
    assert forall d :: d in q.dquots ==> SameUse(q.dquots[d], m[d]);
  }

  lemma BalancedSplit(a: Quotas, b: Quotas, c: Quotas)
    requires Balanced(a, b) && b.dquots.Keys == c.dquots.Keys
    ensures Balanced(a, c) <==> Balanced(b, c)
  {
    forall d | d in a.dquots ensures SameRest(a, c, d) <==> SameRest(b, c, d) { assert SameRest(a, b, d); }
  }

  // ---- whole runs

  /** Every dquot is charged at least for the inodes it is attached to. */
  ghost predicate Covered(q: Quotas) {
    forall d {:trigger BlockRest(q, d)} :: d in q.dquots ==>
      BlockRest(q, d) >= 0 && InodeRest(q, d) >= 0 && CountRest(q, d) >= 0
  }

  lemma CoveredKept(q: Quotas, r: Quotas)
    requires Covered(q) && Balanced(q, r)
    ensures Covered(r)
  {
    forall d | d in r.dquots ensures BlockRest(r, d) >= 0 && InodeRest(r, d) >= 0 && CountRest(r, d) >= 0 {
      assert SameRest(q, r, d) && BlockRest(q, d) >= 0;
    }
  }

  lemma {:induction false} ShareAtMost(s: seq<Inode>, i: nat, f: Inode -> int)
    requires i < |s| && forall x :: f(x) >= 0
    ensures 0 <= f(s[i]) <= Total(s, f)
  {
    TotalSplit(s, i, f);
    TotalNonNegative(s[..i], f);
    TotalNonNegative(s[i + 1..], f);
  }

  lemma {:induction false} TallyAtLeast(slots: seq<Option<nat>>, k: nat, j: nat, d: nat, v: nat)
    requires j < k <= |slots| && slots[j] == Some(d)
    ensures Tally(slots, k, d, v) >= v
    decreases k
  {
    if j < k - 1 { TallyAtLeast(slots, k - 1, j, d, v); }
  }

  lemma {:induction false} TallyMonotone(slots: seq<Option<nat>>, k: nat, d: nat, v: nat, w: nat)
    requires k <= |slots| && v <= w
    ensures Tally(slots, k, d, v) <= Tally(slots, k, d, w)
    decreases k
  {
    if k > 0 { TallyMonotone(slots, k - 1, d, v, w); }
  }

  lemma CoveredFrees(q: Quotas, i: nat, n: nat)
    requires Shape(q) && Covered(q) && i < |q.inodes| && 2 * n <= q.inodes[i].blocks
    ensures Covers(q, i, n)
  {
    forall d | d in q.dquots ensures q.dquots[d].curblocks >= Tally(q.inodes[i].dquot, MAXQUOTAS, d, n) {
      assert BlockRest(q, d) >= 0;
      ShareAtMost(q.inodes, i, BlockShare(d));
      TallyMonotone(q.inodes[i].dquot, MAXQUOTAS, d, n, q.inodes[i].blocks / 2);
    }
  }

  lemma CoveredMoves(q: Quotas, i: nat, to: seq<Option<nat>>)
    requires Shape(q) && Covered(q) && i < |q.inodes| && |to| == MAXQUOTAS
    ensures CanMove(q, i, to, MAXQUOTAS)
  {
    var slots := q.inodes[i].dquot;
    forall j | 0 <= j < MAXQUOTAS && Moves(slots, to, j) && slots[j].value in q.dquots
      ensures Solvent(q.dquots[slots[j].value], q.inodes[i].blocks / 2)
    {
      var f := slots[j].value;
      assert BlockRest(q, f) >= 0;
      ShareAtMost(q.inodes, i, BlockShare(f));
      ShareAtMost(q.inodes, i, RefShare(f));
      TallyAtLeast(slots, MAXQUOTAS, j, f, q.inodes[i].blocks / 2);
      TallyAtLeast(slots, MAXQUOTAS, j, f, 1);
    }
  }

  datatype Op = Alloc(i: nat, n: nat, prealloc: bool, env: Env) | Free(i: nat, n: nat)
              | Give(i: nat, to: seq<Option<nat>>, env: Env)

  predicate Allowed(q: Quotas, op: Op) {
    && op.i < |q.inodes|
    && (op.Free? ==> 2 * op.n <= q.inodes[op.i].blocks)
    && (op.Give? ==> Targets(q, op.to))
  }

  ghost function Apply(q: Quotas, op: Op): Quotas
    requires Shape(q) && Allowed(q, op)
  {
    match op
    case Alloc(i, n, prealloc, env) => AllocBlock(q, i, n, prealloc, env).0
    case Free(i, n) => FreeBlock(q, i, n)
    case Give(i, to, env) => Transfer(q, i, to, env).0
  }

  lemma ApplyBalanced(q: Quotas, op: Op)
    requires Shape(q) && Covered(q) && Allowed(q, op)
    ensures Shape(Apply(q, op)) && Balanced(q, Apply(q, op)) && Covered(Apply(q, op))
  {
    match op {
      case Alloc(i, n, prealloc, env) =>
        AllocBalanced(q, i, n, prealloc, env);
      case Free(i, n) =>
        CoveredFrees(q, i, n);
        FreeBalanced(q, i, n);
      case Give(i, to, env) =>
        CoveredMoves(q, i, to);
        TransferBalanced(q, i, to, env);
    }
    CoveredKept(q, Apply(q, op));
  }

  /** `r` is reached from `q` by the operations `ops`. */
  ghost predicate Leads(q: Quotas, ops: seq<Op>, r: Quotas)
    decreases |ops|
  {
    if ops == [] then q == r
    else Shape(q) && Allowed(q, ops[0]) && Leads(Apply(q, ops[0]), ops[1..], r)
  }

  /** Over any run, what a dquot is charged beyond its inodes never changes: in blocks, in inodes and
      in references. */
  lemma {:induction false} RunBalanced(q: Quotas, ops: seq<Op>, r: Quotas)
    requires Shape(q) && Covered(q) && Leads(q, ops, r)
    ensures Balanced(q, r) && Covered(r)
    decreases |ops|
  {
    if ops == [] {
      assert forall d :: d in q.dquots ==> SameRest(q, r, d);
    } else {
      ApplyBalanced(q, ops[0]);
      RunBalanced(Apply(q, ops[0]), ops[1..], r);
      BalancedTrans(q, Apply(q, ops[0]), r);
    }
  }

  /** Giving an inode whose blocks were never charged to another owner unbalances the ledger. */
  lemma TransferExample(q: Quotas, env: Env)
    requires q == Grown()
    ensures Shape(q) && Targets(q, [Some(9), None])
    ensures var (r, ok) := Transfer(q, 0, [Some(9), None], env); ok && !Balanced(q, r)
  {
    var to: seq<Option<nat>> := [Some(9), None];
    var slots := q.inodes[0].dquot;
    assert CheckMoves(q.dquots, slots, to, 1, 4, env).ok;
    assert CheckMoves(q.dquots, slots, to, 2, 4, env).ok;
    TransferBalanced(q, 0, to, env);
    assert Moves(slots, to, 0) && !Solvent(q.dquots[7], 4);
  }
}
