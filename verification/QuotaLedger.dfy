/** Disk quotas: usage counters of dquots against the inodes they are attached to
    (fs/dquot.c:636-670, 744-815, 1020-1052, 1094-1109, 1135-1217). */
module QuotaLedger {
  import opened Sums
  import opened Options

  const MAXQUOTAS := 2

  datatype Dquot = Dquot(kind: nat, count: nat, curblocks: nat, curinodes: nat, bhard: nat, bsoft: nat, ihard: nat,
                         isoft: nat, btime: nat, itime: nat, fake: bool)

  /** i_blocks, in units of 512 bytes, and i_dquot by type. */
  datatype Inode = Inode(blocks: nat, dquot: seq<Option<nat>>)

  datatype Quotas = Quotas(dquots: map<nat, Dquot>, inodes: seq<Inode>)

  /** The time, for which dquots limits may be ignored, and the grace periods by type. */
  datatype Env = Env(now: nat, exempt: nat -> bool, bexpire: nat -> nat, iexpire: nat -> nat)

  // ---- checks

  datatype Verdict = Verdict(ok: bool, dquot: Dquot)

  /** check_bdq. */
  function CheckBlocks(d: Dquot, id: nat, n: nat, prealloc: bool, env: Env): Verdict {
    if n == 0 || d.fake then Verdict(true, d)
    else if d.bhard > 0 && d.curblocks + n > d.bhard && !env.exempt(id) then Verdict(false, d)
    else if d.bsoft > 0 && d.curblocks + n > d.bsoft && d.btime > 0 && env.now >= d.btime && !env.exempt(id) then
      Verdict(false, d)
    else if d.bsoft > 0 && d.curblocks + n > d.bsoft && d.btime == 0 then
      if prealloc then Verdict(false, d) else Verdict(true, d.(btime := env.now + env.bexpire(d.kind)))
    else Verdict(true, d)
  }

  /** check_idq. */
  function CheckInodes(d: Dquot, id: nat, n: nat, env: Env): Verdict {
    if n == 0 || d.fake then Verdict(true, d)
    else if d.ihard > 0 && d.curinodes + n > d.ihard && !env.exempt(id) then Verdict(false, d)
    else if d.isoft > 0 && d.curinodes + n > d.isoft && d.itime > 0 && env.now >= d.itime && !env.exempt(id) then
      Verdict(false, d)
    else if d.isoft > 0 && d.curinodes + n > d.isoft && d.itime == 0 then
      Verdict(true, d.(itime := env.now + env.iexpire(d.kind)))
    else Verdict(true, d)
  }

  /** Both, as dquot_transfer asks for them. */
  function CheckBoth(d: Dquot, id: nat, blocks: nat, env: Env): Verdict {
    var v := CheckInodes(d, id, 1, env);
    if v.ok then CheckBlocks(v.dquot, id, blocks, false, env) else v
  }

  /** Everything but the grace times is the same. */
  predicate SameUse(d: Dquot, e: Dquot) {
    e == d.(btime := e.btime, itime := e.itime)
  }

  predicate SameUses(m: map<nat, Dquot>, m': map<nat, Dquot>) {
    m'.Keys == m.Keys && forall d :: d in m ==> SameUse(m[d], m'[d])
  }

  datatype Checked = Checked(ok: bool, dquots: map<nat, Dquot>)

  /** The check loop over the first `k` slots; the first refusal ends it. */
  function CheckAll(m: map<nat, Dquot>, slots: seq<Option<nat>>, k: nat, n: nat, prealloc: bool, env: Env): Checked
    requires k <= |slots|
    decreases k
  {
    if k == 0 then Checked(true, m)
    else
      var c := CheckAll(m, slots, k - 1, n, prealloc, env);
      if !c.ok || slots[k - 1].None? || slots[k - 1].value !in c.dquots then c
      else
        var d := slots[k - 1].value;
        var v := CheckBlocks(c.dquots[d], d, n, prealloc, env);
        Checked(v.ok, c.dquots[d := v.dquot])
  }

  lemma {:induction false} CheckAllUses(m: map<nat, Dquot>, slots: seq<Option<nat>>, k: nat, n: nat,
                                        prealloc: bool, env: Env)
    requires k <= |slots|
    ensures SameUses(m, CheckAll(m, slots, k, n, prealloc, env).dquots)
    decreases k
  {
    if k > 0 { CheckAllUses(m, slots, k - 1, n, prealloc, env); }
  }

  /** A granted request leaves every dquot asked within its hard limit. */
  predicate Within(d: Dquot, id: nat, n: nat, env: Env) {
    n == 0 || d.fake || d.bhard == 0 || env.exempt(id) || d.curblocks + n <= d.bhard
  }

  lemma {:induction false} CheckAllWithin(m: map<nat, Dquot>, slots: seq<Option<nat>>, k: nat, n: nat,
                                          prealloc: bool, env: Env)
    requires k <= |slots| && CheckAll(m, slots, k, n, prealloc, env).ok
    ensures forall j :: 0 <= j < k && slots[j].Some? && slots[j].value in m ==>
              Within(m[slots[j].value], slots[j].value, n, env)
    decreases k
  {
    if k > 0 {
      CheckAllWithin(m, slots, k - 1, n, prealloc, env);
      CheckAllUses(m, slots, k - 1, n, prealloc, env);
    }
  }

  // ---- tallies

  /** `v` for each of the first `k` slots that names `d`. */
  function Tally(slots: seq<Option<nat>>, k: nat, d: nat, v: nat): nat
    requires k <= |slots|
    decreases k
  {
    if k == 0 then 0 else Tally(slots, k - 1, d, v) + if slots[k - 1] == Some(d) then v else 0
  }

  lemma {:induction false} TallyUpdate(slots: seq<Option<nat>>, k: nat, j: nat, t: nat, d: nat, v: nat)
    requires j < k <= |slots|
    ensures Tally(slots[j := Some(t)], k, d, v) ==
              Tally(slots, k, d, v) - (if slots[j] == Some(d) then v else 0) + if t == d then v else 0
    decreases k
  {
    if j < k - 1 {
      TallyUpdate(slots, k - 1, j, t, d, v);
    } else {
      TallyPrefix(slots, k - 1, slots[j := Some(t)], d, v);
    }
  }

  lemma {:induction false} TallyPrefix(s: seq<Option<nat>>, k: nat, s': seq<Option<nat>>, d: nat, v: nat)
    requires k <= |s| && k <= |s'| && forall j :: 0 <= j < k ==> s[j] == s'[j]
    ensures Tally(s, k, d, v) == Tally(s', k, d, v)
    decreases k
  {
    if k > 0 { TallyPrefix(s, k - 1, s', d, v); }
  }

  lemma {:induction false} TallyMore(s: seq<Option<nat>>, k: nat, d: nat, v: nat, w: nat)
    requires k <= |s|
    ensures Tally(s, k, d, v + w) == Tally(s, k, d, v) + Tally(s, k, d, w)
    decreases k
  {
    if k > 0 { TallyMore(s, k - 1, d, v, w); }
  }

  // ---- the ledger

  function BlockShare(d: nat): Inode -> int {
    (ino: Inode) => Tally(ino.dquot, |ino.dquot|, d, ino.blocks / 2)
  }

  function RefShare(d: nat): Inode -> int {
    (ino: Inode) => Tally(ino.dquot, |ino.dquot|, d, 1)
  }

  /** Blocks charged to `d` beyond those of the inodes it is attached to; likewise inodes and
      references. */
  function BlockRest(q: Quotas, d: nat): int
    requires d in q.dquots
  {
    q.dquots[d].curblocks - Total(q.inodes, BlockShare(d))
  }

  function InodeRest(q: Quotas, d: nat): int
    requires d in q.dquots
  {
    q.dquots[d].curinodes - Total(q.inodes, RefShare(d))
  }

  function CountRest(q: Quotas, d: nat): int
    requires d in q.dquots
  {
    q.dquots[d].count - Total(q.inodes, RefShare(d))
  }

  predicate SameRest(q: Quotas, r: Quotas, d: nat) {
    && d in q.dquots && d in r.dquots
    && BlockRest(q, d) == BlockRest(r, d) && InodeRest(q, d) == InodeRest(r, d) && CountRest(q, d) == CountRest(r, d)
  }

  /** The two sides of the ledger agree as before, for every dquot. */
  ghost predicate Balanced(q: Quotas, r: Quotas) {
    q.dquots.Keys == r.dquots.Keys && forall d {:trigger SameRest(q, r, d)} :: d in q.dquots ==> SameRest(q, r, d)
  }

  /** Slot `k` of an inode names dquots of type `k`. */
  predicate Typed(q: Quotas) {
    forall i, k :: 0 <= i < |q.inodes| && 0 <= k < |q.inodes[i].dquot| ==> FitsSlot(q, q.inodes[i].dquot[k], k)
  }

  predicate FitsSlot(q: Quotas, s: Option<nat>, k: nat) {
    s.Some? ==> s.value in q.dquots && q.dquots[s.value].kind == k
  }

  predicate Shape(q: Quotas) {
    Typed(q) && forall i :: 0 <= i < |q.inodes| ==> |q.inodes[i].dquot| == MAXQUOTAS
  }

  // ---- dquot_alloc_block

  /** dquot_incr_blocks for each of the first `k` slots. */
  function ChargeAll(m: map<nat, Dquot>, slots: seq<Option<nat>>, k: nat, n: nat): map<nat, Dquot>
    requires k <= |slots|
  {
    map d | d in m :: m[d].(curblocks := m[d].curblocks + Tally(slots, k, d, n))
  }

  /** dquot_alloc_block of `n` blocks of 1024 bytes for inode `i`. */
  function AllocBlock(q: Quotas, i: nat, n: nat, prealloc: bool, env: Env): (Quotas, bool)
    requires i < |q.inodes| && |q.inodes[i].dquot| == MAXQUOTAS
  {
    var ino := q.inodes[i];
    var c := CheckAll(q.dquots, ino.dquot, MAXQUOTAS, n, prealloc, env);
    if !c.ok then (q.(dquots := c.dquots), false)
    else (Quotas(ChargeAll(c.dquots, ino.dquot, MAXQUOTAS, n), q.inodes[i := ino.(blocks := ino.blocks + 2 * n)]), true)
  }

  lemma HalfLess(b: nat, n: nat)
    requires 2 * n <= b
    ensures (b - 2 * n) / 2 == b / 2 - n
  {
  }

  /** The shares of `d` when inode `i` has `b` blocks instead. */
  lemma SharesWithBlocks(inodes: seq<Inode>, i: nat, b: nat, d: nat)
    requires i < |inodes|
    ensures var ino := inodes[i];
            var inodes' := inodes[i := ino.(blocks := b)];
            && Total(inodes', BlockShare(d)) == Total(inodes, BlockShare(d))
                 - Tally(ino.dquot, |ino.dquot|, d, ino.blocks / 2) + Tally(ino.dquot, |ino.dquot|, d, b / 2)
            && Total(inodes', RefShare(d)) == Total(inodes, RefShare(d))
  {
    TotalUpdate(inodes, i, inodes[i].(blocks := b), BlockShare(d));
    TotalUpdate(inodes, i, inodes[i].(blocks := b), RefShare(d));
  }

  /** `n` more blocks for inode `i`, charged to each dquot it names. */
  lemma ChargedRest(q: Quotas, i: nat, n: nat, d: nat)
    requires Shape(q) && i < |q.inodes| && d in q.dquots
    ensures var ino := q.inodes[i];
            SameRest(q, Quotas(ChargeAll(q.dquots, ino.dquot, MAXQUOTAS, n),
                               q.inodes[i := ino.(blocks := ino.blocks + 2 * n)]), d)
  {
    var ino := q.inodes[i];
    SharesWithBlocks(q.inodes, i, ino.blocks + 2 * n, d);
    HalfLess(ino.blocks + 2 * n, n);
    TallyMore(ino.dquot, MAXQUOTAS, d, ino.blocks / 2, n);
  }

  lemma ChargedBalanced(q: Quotas, i: nat, n: nat)
    requires Shape(q) && i < |q.inodes|
    ensures var ino := q.inodes[i];
            var r := Quotas(ChargeAll(q.dquots, ino.dquot, MAXQUOTAS, n),
                            q.inodes[i := ino.(blocks := ino.blocks + 2 * n)]);
            Shape(r) && Balanced(q, r)
  {
    var ino := q.inodes[i];
    var r := Quotas(ChargeAll(q.dquots, ino.dquot, MAXQUOTAS, n), q.inodes[i := ino.(blocks := ino.blocks + 2 * n)]);
    forall d | d in q.dquots ensures SameRest(q, r, d) { ChargedRest(q, i, n, d); }
    ShapeKept(q, r);
  }

  lemma SameUsesBalanced(q: Quotas, m: map<nat, Dquot>)
    requires Shape(q) && SameUses(q.dquots, m)
    ensures Shape(q.(dquots := m)) && Balanced(q, q.(dquots := m))
  {
    var r := q.(dquots := m);
    forall d | d in q.dquots ensures SameRest(q, r, d) { assert SameUse(q.dquots[d], m[d]); }
    forall d | d in q.dquots ensures r.dquots[d].kind == q.dquots[d].kind { assert SameUse(q.dquots[d], m[d]); }
    ShapeKept(q, r);
  }

  lemma BalancedTrans(a: Quotas, b: Quotas, c: Quotas)
    requires Balanced(a, b) && Balanced(b, c)
    ensures Balanced(a, c)
  {
    forall d | d in a.dquots ensures SameRest(a, c, d) { assert SameRest(a, b, d) && SameRest(b, c, d); }
  }

  /** The state `r` after a request for blocks that was granted or not. */
  ghost predicate AllocKeeps(q: Quotas, r: Quotas, ok: bool) {
    Shape(r) && Balanced(q, r) && (!ok ==> SameUses(q.dquots, r.dquots) && r.inodes == q.inodes)
  }

  lemma RefusedKeeps(q: Quotas, m: map<nat, Dquot>, r: Quotas)
    requires Shape(q) && SameUses(q.dquots, m) && r == q.(dquots := m)
    ensures AllocKeeps(q, r, false)
  {
    SameUsesBalanced(q, m);
  }

  /** Charging after the checks have changed grace times only. */
  lemma GrantedKeeps(q: Quotas, m: map<nat, Dquot>, i: nat, n: nat, r: Quotas)
    requires Shape(q) && i < |q.inodes| && SameUses(q.dquots, m)
    requires var ino := q.inodes[i];
             r == Quotas(ChargeAll(m, ino.dquot, MAXQUOTAS, n), q.inodes[i := ino.(blocks := ino.blocks + 2 * n)])
    ensures AllocKeeps(q, r, true)
  {
    var mid := q.(dquots := m);
    SameUsesBalanced(q, m);
    ChargedBalanced(mid, i, n);
    BalancedTrans(q, mid, r);
  }

  /** Allocation keeps the ledger balanced; a refused one changes no use. */
  lemma AllocBalanced(q: Quotas, i: nat, n: nat, prealloc: bool, env: Env)
    requires Shape(q) && i < |q.inodes|
    ensures var x := AllocBlock(q, i, n, prealloc, env); AllocKeeps(q, x.0, x.1)
  {
    var c, x := CheckAll(q.dquots, q.inodes[i].dquot, MAXQUOTAS, n, prealloc, env), AllocBlock(q, i, n, prealloc, env);
    CheckAllUses(q.dquots, q.inodes[i].dquot, MAXQUOTAS, n, prealloc, env);
    if c.ok { GrantedKeeps(q, c.dquots, i, n, x.0); } else { RefusedKeeps(q, c.dquots, x.0); }
  }

  lemma ShapeKept(q: Quotas, r: Quotas)
    requires Shape(q) && |r.inodes| == |q.inodes| && r.dquots.Keys == q.dquots.Keys
    requires forall i :: 0 <= i < |q.inodes| ==> r.inodes[i].dquot == q.inodes[i].dquot
    requires forall d :: d in q.dquots ==> r.dquots[d].kind == q.dquots[d].kind
    ensures Shape(r)
  {
    forall i, k | 0 <= i < |r.inodes| && 0 <= k < |r.inodes[i].dquot| ensures FitsSlot(r, r.inodes[i].dquot[k], k) {
      assert FitsSlot(q, q.inodes[i].dquot[k], k);
    }
  }

  /** An allocation that is granted to someone who may not ignore limits does not pass a hard limit. */
  lemma AllocWithinLimit(q: Quotas, i: nat, n: nat, prealloc: bool, env: Env, k: nat)
    requires Shape(q) && i < |q.inodes| && k < MAXQUOTAS && n > 0 && AllocBlock(q, i, n, prealloc, env).1
    requires q.inodes[i].dquot[k].Some? && !env.exempt(q.inodes[i].dquot[k].value)
    ensures var d := q.inodes[i].dquot[k].value;
            var after := AllocBlock(q, i, n, prealloc, env).0.dquots;
            && d in q.dquots && d in after && after[d].curblocks == q.dquots[d].curblocks + n
            && (!q.dquots[d].fake && q.dquots[d].bhard > 0 ==> after[d].curblocks <= q.dquots[d].bhard)
  {
    var ino := q.inodes[i];
    var d := ino.dquot[k].value;
    assert forall j :: 0 <= j < MAXQUOTAS ==> FitsSlot(q, ino.dquot[j], j);
    CheckAllUses(q.dquots, ino.dquot, MAXQUOTAS, n, prealloc, env);
    CheckAllWithin(q.dquots, ino.dquot, MAXQUOTAS, n, prealloc, env);
    OwnSlot(q, ino.dquot, k, d, n);
    assert SameUse(q.dquots[d], CheckAll(q.dquots, ino.dquot, MAXQUOTAS, n, prealloc, env).dquots[d]);
  }

  /** A dquot is named in the slot of its type only. */
  lemma OwnSlot(q: Quotas, slots: seq<Option<nat>>, k: nat, d: nat, v: nat)
    requires |slots| == MAXQUOTAS && k < MAXQUOTAS && slots[k] == Some(d)
    requires forall j :: 0 <= j < MAXQUOTAS ==> FitsSlot(q, slots[j], j)
    ensures Tally(slots, MAXQUOTAS, d, v) == v
  {
    assert FitsSlot(q, slots[0], 0) && FitsSlot(q, slots[1], 1);
    assert Tally(slots, 2, d, v) == Tally(slots, 1, d, v) + if slots[1] == Some(d) then v else 0;
    assert Tally(slots, 1, d, v) == if slots[0] == Some(d) then v else 0;
  }

  // ---- dquot_free_block

  /** A counter lowered by `n`, but not below 0. */
  function Lowered(cur: nat, n: nat): nat {
    if cur > n then cur - n else 0
  }

  /** ... once for each of the first `k` slots that names `d`. */
  function Drained(slots: seq<Option<nat>>, k: nat, d: nat, n: nat, cur: nat): nat
    requires k <= |slots|
    decreases k
  {
    if k == 0 then cur
    else if slots[k - 1] == Some(d) then Lowered(Drained(slots, k - 1, d, n, cur), n)
    else Drained(slots, k - 1, d, n, cur)
  }

  lemma {:induction false} DrainedIs(slots: seq<Option<nat>>, k: nat, d: nat, n: nat, cur: nat)
    requires k <= |slots|
    ensures Drained(slots, k, d, n, cur) == if cur >= Tally(slots, k, d, n) then cur - Tally(slots, k, d, n) else 0
    decreases k
  {
    if k > 0 { DrainedIs(slots, k - 1, d, n, cur); }
  }

  /** dquot_decr_blocks for each of the first `k` slots. */
  function DrainAll(m: map<nat, Dquot>, slots: seq<Option<nat>>, k: nat, n: nat): map<nat, Dquot>
    requires k <= |slots|
  {
    map d | d in m :: DrainOne(m[d], Drained(slots, k, d, n, m[d].curblocks), Tally(slots, k, d, 1) > 0)
  }

  function DrainOne(d: Dquot, cur: nat, named: bool): Dquot {
    d.(curblocks := cur, btime := if named && cur < d.bsoft then 0 else d.btime)
  }

  /** dquot_free_block of `n` blocks, no more than the inode holds. */
  function FreeBlock(q: Quotas, i: nat, n: nat): Quotas
    requires i < |q.inodes| && |q.inodes[i].dquot| == MAXQUOTAS && 2 * n <= q.inodes[i].blocks
  {
    var ino := q.inodes[i];
    Quotas(DrainAll(q.dquots, ino.dquot, MAXQUOTAS, n), q.inodes[i := ino.(blocks := ino.blocks - 2 * n)])
  }

  /** No dquot of the inode would be lowered below 0. */
  predicate Covers(q: Quotas, i: nat, n: nat)
    requires i < |q.inodes| && |q.inodes[i].dquot| == MAXQUOTAS
  {
    forall d :: d in q.dquots ==> q.dquots[d].curblocks >= Tally(q.inodes[i].dquot, MAXQUOTAS, d, n)
  }

  /** Two states whose inodes differ by `t` blocks in the share of `d`. */
  lemma RestByShare(q: Quotas, r: Quotas, d: nat, t: int)
    requires d in q.dquots && d in r.dquots
    requires r.dquots[d].curinodes == q.dquots[d].curinodes && r.dquots[d].count == q.dquots[d].count
    requires Total(r.inodes, RefShare(d)) == Total(q.inodes, RefShare(d))
    requires Total(r.inodes, BlockShare(d)) == Total(q.inodes, BlockShare(d)) - t
    ensures SameRest(q, r, d) <==> r.dquots[d].curblocks == q.dquots[d].curblocks - t
  {
  }

  lemma FreedShares(q: Quotas, i: nat, n: nat, d: nat)
    requires i < |q.inodes| && 2 * n <= q.inodes[i].blocks && |q.inodes[i].dquot| == MAXQUOTAS
    ensures var inodes' := FreeBlock(q, i, n).inodes;
            && Total(inodes', RefShare(d)) == Total(q.inodes, RefShare(d))
            && Total(inodes', BlockShare(d))
                 == Total(q.inodes, BlockShare(d)) - Tally(q.inodes[i].dquot, MAXQUOTAS, d, n)
  {
    var ino := q.inodes[i];
    SharesWithBlocks(q.inodes, i, ino.blocks - 2 * n, d);
    HalfLess(ino.blocks, n);
    TallyMore(ino.dquot, MAXQUOTAS, d, ino.blocks / 2 - n, n);
  }

  lemma FreedDquot(q: Quotas, i: nat, n: nat, d: nat)
    requires Shape(q) && i < |q.inodes| && 2 * n <= q.inodes[i].blocks && d in q.dquots
    ensures var r := FreeBlock(q, i, n);
            var t := Tally(q.inodes[i].dquot, MAXQUOTAS, d, n);
            && d in r.dquots && SameButBlocks(q.dquots[d], r.dquots[d])
            && r.dquots[d].curblocks == if q.dquots[d].curblocks >= t then q.dquots[d].curblocks - t else 0
  {
    DrainedIs(q.inodes[i].dquot, MAXQUOTAS, d, n, q.dquots[d].curblocks);
  }

  predicate SameButBlocks(d: Dquot, e: Dquot) {
    e == d.(curblocks := e.curblocks, btime := e.btime)
  }

  lemma FreedRest(q: Quotas, i: nat, n: nat, d: nat)
    requires Shape(q) && i < |q.inodes| && 2 * n <= q.inodes[i].blocks && d in q.dquots
    ensures SameRest(q, FreeBlock(q, i, n), d) <==>
              q.dquots[d].curblocks >= Tally(q.inodes[i].dquot, MAXQUOTAS, d, n)
  {
    FreedDquot(q, i, n, d);
    FreedShares(q, i, n, d);
    RestByShare(q, FreeBlock(q, i, n), d, Tally(q.inodes[i].dquot, MAXQUOTAS, d, n));
  }

  /** Freeing keeps the ledger balanced exactly if no counter is cut off at 0. */
  lemma FreeBalanced(q: Quotas, i: nat, n: nat)
    requires Shape(q) && i < |q.inodes| && 2 * n <= q.inodes[i].blocks
    ensures Shape(FreeBlock(q, i, n))
    ensures Balanced(q, FreeBlock(q, i, n)) <==> Covers(q, i, n)
  {
    var r := FreeBlock(q, i, n);
    forall d | d in q.dquots
      ensures SameRest(q, r, d) <==> q.dquots[d].curblocks >= Tally(q.inodes[i].dquot, MAXQUOTAS, d, n)
    {
      FreedRest(q, i, n, d);
    }
    ShapeKept(q, r);
  }

  function Uncharged(): Dquot {
    Dquot(0, 1, 0, 1, 0, 0, 0, 0, 0, 0, false)
  }

  /** An inode that had its 8 sectors before dquot 7 was attached to it, so they were never charged. */
  function Grown(): Quotas {
    Quotas(map[7 := Uncharged(), 9 := Uncharged()], [Inode(8, [Some(7), None])])
  }

  /** Freeing one of its blocks unbalances the ledger. */
  lemma FreeExample(q: Quotas)
    requires q == Grown()
    ensures Shape(q) && !Balanced(q, FreeBlock(q, 0, 1)) && FreeBlock(q, 0, 1).dquots[7].curblocks == 0
  {
    var slots := q.inodes[0].dquot;
    assert Tally(slots, 1, 7, 1) == Tally(slots, 0, 7, 1) + 1 && Tally(slots, 2, 7, 1) == Tally(slots, 1, 7, 1);
    FreeBalanced(q, 0, 1);
    FreedDquot(q, 0, 1, 7);
  }
}
