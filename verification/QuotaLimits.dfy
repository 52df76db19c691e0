/** What the limits of a dquot allow, over single requests and whole runs: when a request is refused, when a grace time
    begins, and which uses can never be reached (fs/dquot.c:740-815, 1020-1052, 1135-1217). */
module QuotaLimits {
  import opened QuotaLedger
  import opened QuotaMoves
  import opened Options

  // ---- one dquot

  /** A limit of 0 is no limit. */
  predicate Above(use: nat, limit: nat) {
    limit > 0 && use > limit
  }

  datatype Grace = NotBegun | Running | Over

  function GraceAt(time: nat, now: nat): Grace {
    if time == 0 then NotBegun else if now < time then Running else Over
  }

  /** A request that would bring the use to `use` is refused: above the hard limit; or above the soft limit when the
      grace time is over.  Both may be ignored by some.  Nobody may preallocate into the grace time. */
  predicate Denies(use: nat, hard: nat, soft: nat, time: nat, exempt: bool, prealloc: bool, now: nat) {
    || (Above(use, hard) && !exempt)
    || (Above(use, soft) &&
        match GraceAt(time, now)
        case NotBegun => prealloc
        case Running => false
        case Over => !exempt)
  }

  predicate DeniesBlocks(d: Dquot, id: nat, n: nat, prealloc: bool, env: Env) {
    n > 0 && !d.fake && Denies(d.curblocks + n, d.bhard, d.bsoft, d.btime, env.exempt(id), prealloc, env.now)
  }

  predicate DeniesInodes(d: Dquot, id: nat, n: nat, env: Env) {
    n > 0 && !d.fake && Denies(d.curinodes + n, d.ihard, d.isoft, d.itime, env.exempt(id), false, env.now)
  }

  /** The grace time begins with the request that first goes above the soft limit and is not refused. */
  predicate BeginsBlocks(d: Dquot, id: nat, n: nat, prealloc: bool, env: Env) {
    && n > 0 && !d.fake && Above(d.curblocks + n, d.bsoft) && d.btime == 0
    && !DeniesBlocks(d, id, n, prealloc, env)
  }

  predicate BeginsInodes(d: Dquot, id: nat, n: nat, env: Env) {
    n > 0 && !d.fake && Above(d.curinodes + n, d.isoft) && d.itime == 0 && !DeniesInodes(d, id, n, env)
  }

  function Begun(d: Dquot, id: nat, n: nat, prealloc: bool, env: Env): Dquot {
    if BeginsBlocks(d, id, n, prealloc, env) then d.(btime := env.now + env.bexpire(d.kind)) else d
  }

  function BegunInodes(d: Dquot, id: nat, n: nat, env: Env): Dquot {
    if BeginsInodes(d, id, n, env) then d.(itime := env.now + env.iexpire(d.kind)) else d
  }

  lemma CheckBlocksMeans(d: Dquot, id: nat, n: nat, prealloc: bool, env: Env)
    ensures CheckBlocks(d, id, n, prealloc, env)
              == Verdict(!DeniesBlocks(d, id, n, prealloc, env), Begun(d, id, n, prealloc, env))
  {
  }

  lemma CheckInodesMeans(d: Dquot, id: nat, n: nat, env: Env)
    ensures CheckInodes(d, id, n, env) == Verdict(!DeniesInodes(d, id, n, env), BegunInodes(d, id, n, env))
  {
  }

  /** One inode and its blocks. */
  predicate DeniesBoth(d: Dquot, id: nat, blocks: nat, env: Env) {
    DeniesInodes(d, id, 1, env) || DeniesBlocks(d, id, blocks, false, env)
  }

  function BegunBoth(d: Dquot, id: nat, blocks: nat, env: Env): Dquot {
    if DeniesInodes(d, id, 1, env) then d else Begun(BegunInodes(d, id, 1, env), id, blocks, false, env)
  }

  lemma CheckBothMeans(d: Dquot, id: nat, blocks: nat, env: Env)
    ensures CheckBoth(d, id, blocks, env)
              == Verdict(!DeniesBoth(d, id, blocks, env), BegunBoth(d, id, blocks, env))
  {
    CheckInodesMeans(d, id, 1, env);
    CheckBlocksMeans(BegunInodes(d, id, 1, env), id, blocks, false, env);
  }

  // ---- dquot_alloc_block

  predicate Fits(m: map<nat, Dquot>, slots: seq<Option<nat>>) {
    |slots| == MAXQUOTAS &&
    forall j :: 0 <= j < MAXQUOTAS && slots[j].Some? ==> slots[j].value in m && m[slots[j].value].kind == j
  }

  lemma SlotsFit(q: Quotas, slots: seq<Option<nat>>)
    requires |slots| == MAXQUOTAS && forall k :: 0 <= k < MAXQUOTAS ==> FitsSlot(q, slots[k], k)
    ensures Fits(q.dquots, slots)
  {
    assert FitsSlot(q, slots[0], 0) && FitsSlot(q, slots[1], 1);
  }

  /** None of the first `k` dquots refuses `n` blocks. */
  predicate AllAllow(m: map<nat, Dquot>, slots: seq<Option<nat>>, k: nat, n: nat, prealloc: bool, env: Env)
    requires Fits(m, slots) && k <= MAXQUOTAS
  {
    forall j :: 0 <= j < k && slots[j].Some? ==> !DeniesBlocks(m[slots[j].value], slots[j].value, n, prealloc, env)
  }

  /** `d` is among the first `k`, and those before it have not refused. */
  predicate Asked(m: map<nat, Dquot>, slots: seq<Option<nat>>, k: nat, n: nat, prealloc: bool, env: Env, d: nat)
    requires Fits(m, slots) && k <= MAXQUOTAS && d in m
  {
    m[d].kind < k && slots[m[d].kind] == Some(d) && AllAllow(m, slots, m[d].kind, n, prealloc, env)
  }

  predicate ChecksTo(m: map<nat, Dquot>, slots: seq<Option<nat>>, k: nat, n: nat, prealloc: bool, env: Env, c: Checked)
    requires Fits(m, slots) && k <= MAXQUOTAS
  {
    && (c.ok <==> AllAllow(m, slots, k, n, prealloc, env)) && c.dquots.Keys == m.Keys
    && forall d :: d in m ==>
         c.dquots[d] == if Asked(m, slots, k, n, prealloc, env, d) then Begun(m[d], d, n, prealloc, env) else m[d]
  }

  /** Slot `k` is asked, after the first `k` have allowed the request. */
  lemma AskNext(m: map<nat, Dquot>, slots: seq<Option<nat>>, k: nat, n: nat, prealloc: bool, env: Env, c: Checked)
    requires Fits(m, slots) && k < MAXQUOTAS && ChecksTo(m, slots, k, n, prealloc, env, c) && c.ok && slots[k].Some?
    ensures var d := slots[k].value;
            && d in c.dquots && c.dquots[d] == m[d]
            && ChecksTo(m, slots, k + 1, n, prealloc, env,
                        Checked(!DeniesBlocks(m[d], d, n, prealloc, env),
                                c.dquots[d := Begun(m[d], d, n, prealloc, env)]))
  {
    var t := slots[k].value;
    forall d | d in m && d != t
      ensures Asked(m, slots, k + 1, n, prealloc, env, d) <==> Asked(m, slots, k, n, prealloc, env, d) {}
  }

  lemma AskNone(m: map<nat, Dquot>, slots: seq<Option<nat>>, k: nat, n: nat, prealloc: bool, env: Env, c: Checked)
    requires Fits(m, slots) && k < MAXQUOTAS && ChecksTo(m, slots, k, n, prealloc, env, c)
    requires !c.ok || slots[k].None?
    ensures ChecksTo(m, slots, k + 1, n, prealloc, env, c)
  {
    forall d | d in m
      ensures Asked(m, slots, k + 1, n, prealloc, env, d) <==> Asked(m, slots, k, n, prealloc, env, d) {}
  }

  lemma AskOne(m: map<nat, Dquot>, slots: seq<Option<nat>>, k: nat, n: nat, prealloc: bool, env: Env, c: Checked,
               c': Checked)
    requires Fits(m, slots) && k < MAXQUOTAS && ChecksTo(m, slots, k, n, prealloc, env, c)
    requires if !c.ok || slots[k].None? || slots[k].value !in c.dquots then c' == c
             else var d := slots[k].value;
                  var v := CheckBlocks(c.dquots[d], d, n, prealloc, env);
                  c' == Checked(v.ok, c.dquots[d := v.dquot])
    ensures ChecksTo(m, slots, k + 1, n, prealloc, env, c')
  {
    if !c.ok || slots[k].None? {
      AskNone(m, slots, k, n, prealloc, env, c);
    } else {
      AskNext(m, slots, k, n, prealloc, env, c);
      CheckBlocksMeans(m[slots[k].value], slots[k].value, n, prealloc, env);
    }
  }

  lemma {:induction false} CheckAllExactly(m: map<nat, Dquot>, slots: seq<Option<nat>>, k: nat, n: nat, prealloc: bool,
                                           env: Env)
    requires Fits(m, slots) && k <= MAXQUOTAS
    ensures ChecksTo(m, slots, k, n, prealloc, env, CheckAll(m, slots, k, n, prealloc, env))
    decreases k
  {
    if k > 0 {
      var c := CheckAll(m, slots, k - 1, n, prealloc, env);
      CheckAllExactly(m, slots, k - 1, n, prealloc, env);
      AskOne(m, slots, k - 1, n, prealloc, env, c, CheckAll(m, slots, k, n, prealloc, env));
    }
  }

  /** dquot_alloc_block, told from limits, uses and times. */
  ghost predicate Allocates(q: Quotas, i: nat, n: nat, prealloc: bool, env: Env, r: Quotas, ok: bool) {
    && i < |q.inodes| && Fits(q.dquots, q.inodes[i].dquot)
    && var ino := q.inodes[i];
    && (ok <==> AllAllow(q.dquots, ino.dquot, MAXQUOTAS, n, prealloc, env))
    && r.inodes == (if ok then q.inodes[i := ino.(blocks := ino.blocks + 2 * n)] else q.inodes)
    && r.dquots.Keys == q.dquots.Keys
    && forall d :: d in q.dquots ==> r.dquots[d] == Allocated(q.dquots, ino.dquot, n, prealloc, env, ok, d)
  }

  function Allocated(m: map<nat, Dquot>, slots: seq<Option<nat>>, n: nat, prealloc: bool, env: Env, ok: bool, d: nat)
    : Dquot
    requires Fits(m, slots) && d in m
  {
    var e := if Asked(m, slots, MAXQUOTAS, n, prealloc, env, d) then Begun(m[d], d, n, prealloc, env) else m[d];
    e.(curblocks := m[d].curblocks + if ok && Some(d) in slots then n else 0)
  }

  lemma TallyFit(m: map<nat, Dquot>, slots: seq<Option<nat>>, d: nat, v: nat)
    requires Fits(m, slots)
    ensures Tally(slots, MAXQUOTAS, d, v) == if Some(d) in slots then v else 0
  {
    assert Tally(slots, 2, d, v) == Tally(slots, 1, d, v) + if slots[1] == Some(d) then v else 0;
    assert Tally(slots, 1, d, v) == if slots[0] == Some(d) then v else 0;
    assert Some(d) in slots <==> slots[0] == Some(d) || slots[1] == Some(d);
  }

  lemma ChargedExactly(m: map<nat, Dquot>, slots: seq<Option<nat>>, n: nat, prealloc: bool, env: Env, c: Checked,
                       d: nat)
    requires Fits(m, slots) && ChecksTo(m, slots, MAXQUOTAS, n, prealloc, env, c) && d in m
    ensures ChargeAll(c.dquots, slots, MAXQUOTAS, n)[d] == Allocated(m, slots, n, prealloc, env, true, d)
  {
    TallyFit(m, slots, d, n);
  }

  lemma GrantExactly(q: Quotas, i: nat, n: nat, prealloc: bool, env: Env, c: Checked, r: Quotas)
    requires i < |q.inodes| && Fits(q.dquots, q.inodes[i].dquot) && c.ok
    requires ChecksTo(q.dquots, q.inodes[i].dquot, MAXQUOTAS, n, prealloc, env, c)
    requires r.dquots == ChargeAll(c.dquots, q.inodes[i].dquot, MAXQUOTAS, n)
    requires r.inodes == q.inodes[i := q.inodes[i].(blocks := q.inodes[i].blocks + 2 * n)]
    ensures Allocates(q, i, n, prealloc, env, r, true)
  {
    var slots := q.inodes[i].dquot;
    forall d | d in q.dquots ensures r.dquots[d] == Allocated(q.dquots, slots, n, prealloc, env, true, d) {
      ChargedExactly(q.dquots, slots, n, prealloc, env, c, d);
    }
  }

  lemma AllocExactly(q: Quotas, i: nat, n: nat, prealloc: bool, env: Env)
    requires Shape(q) && i < |q.inodes|
    ensures var x := AllocBlock(q, i, n, prealloc, env); Allocates(q, i, n, prealloc, env, x.0, x.1)
  {
    var slots := q.inodes[i].dquot;
    SlotsFit(q, slots);
    var c, x := CheckAll(q.dquots, slots, MAXQUOTAS, n, prealloc, env), AllocBlock(q, i, n, prealloc, env);
    CheckAllExactly(q.dquots, slots, MAXQUOTAS, n, prealloc, env);
    if c.ok { GrantExactly(q, i, n, prealloc, env, c, x.0); } else { RefuseExactly(q, i, n, prealloc, env, c, x.0); }
  }

  lemma RefuseExactly(q: Quotas, i: nat, n: nat, prealloc: bool, env: Env, c: Checked, r: Quotas)
    requires i < |q.inodes| && Fits(q.dquots, q.inodes[i].dquot) && !c.ok && r == q.(dquots := c.dquots)
    requires ChecksTo(q.dquots, q.inodes[i].dquot, MAXQUOTAS, n, prealloc, env, c)
    ensures Allocates(q, i, n, prealloc, env, r, false)
  {
    assert forall d :: d in q.dquots ==>
      r.dquots[d] == Allocated(q.dquots, q.inodes[i].dquot, n, prealloc, env, false, d);
  }

  // ---- what a caller can rely on

  /** Once its grace time is over, no granted request leaves a dquot above its soft limit. */
  lemma GraceOver(q: Quotas, i: nat, n: nat, prealloc: bool, env: Env, r: Quotas, d: nat)
    requires Allocates(q, i, n, prealloc, env, r, true) && n > 0
    requires d in q.dquots && Some(d) in q.inodes[i].dquot && !q.dquots[d].fake && !env.exempt(d)
    requires 0 < q.dquots[d].btime <= env.now && q.dquots[d].bsoft > 0
    ensures d in r.dquots && q.dquots[d].curblocks < r.dquots[d].curblocks <= q.dquots[d].bsoft
  {
    var j :| 0 <= j < MAXQUOTAS && q.inodes[i].dquot[j] == Some(d);
    assert !DeniesBlocks(q.dquots[d], d, n, prealloc, env);
  }

  /** A request within all hard limits is granted while every grace time runs. */
  lemma GraceRuns(q: Quotas, i: nat, n: nat, prealloc: bool, env: Env, r: Quotas, ok: bool)
    requires Allocates(q, i, n, prealloc, env, r, ok)
    requires forall d :: d in q.dquots && Some(d) in q.inodes[i].dquot ==>
               env.now < q.dquots[d].btime && !Above(q.dquots[d].curblocks + n, q.dquots[d].bhard)
    ensures ok
  {
    var slots := q.inodes[i].dquot;
    forall j | 0 <= j < MAXQUOTAS && slots[j].Some?
      ensures !DeniesBlocks(q.dquots[slots[j].value], slots[j].value, n, prealloc, env)
    {
      assert Some(slots[j].value) in slots;
    }
  }

  /** A refusal always has one of these reasons. */
  lemma RefusedWhy(q: Quotas, i: nat, n: nat, prealloc: bool, env: Env, r: Quotas) returns (d: nat)
    requires Allocates(q, i, n, prealloc, env, r, false)
    ensures n > 0 && d in q.dquots && Some(d) in q.inodes[i].dquot && !q.dquots[d].fake
    ensures var e := q.dquots[d];
            || (Above(e.curblocks + n, e.bhard) && !env.exempt(d))
            || (Above(e.curblocks + n, e.bsoft) && e.btime == 0 && prealloc)
            || (Above(e.curblocks + n, e.bsoft) && 0 < e.btime <= env.now && !env.exempt(d))
  {
    d := SomeDenies(q.dquots, q.inodes[i].dquot, n, prealloc, env);
  }

  lemma SomeDenies(m: map<nat, Dquot>, slots: seq<Option<nat>>, n: nat, prealloc: bool, env: Env) returns (d: nat)
    requires Fits(m, slots) && !AllAllow(m, slots, MAXQUOTAS, n, prealloc, env)
    ensures d in m && Some(d) in slots && DeniesBlocks(m[d], d, n, prealloc, env)
  {
    var j :| 0 <= j < MAXQUOTAS && slots[j].Some? &&
             DeniesBlocks(m[slots[j].value], slots[j].value, n, prealloc, env);
    d := slots[j].value;
  }
}
