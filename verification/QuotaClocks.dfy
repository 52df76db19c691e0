/** When dquot_transfer is refused and what it makes of every dquot; and the limits and grace times over whole runs of
    quota operations (fs/dquot.c:740-815, 1135-1217). */
module QuotaClocks {
  import opened QuotaLedger
  import opened QuotaMoves
  import opened QuotaLimits
  import opened Options

  // ---- dquot_transfer

  /** None of the first `k` dquots moved to refuses one inode and its blocks. */
  predicate AllTake(m: map<nat, Dquot>, slots: seq<Option<nat>>, to: seq<Option<nat>>, k: nat, blocks: nat, env: Env)
    requires Fits(m, to) && |slots| == MAXQUOTAS && k <= MAXQUOTAS
  {
    forall j :: 0 <= j < k && Moves(slots, to, j) ==> !DeniesBoth(m[to[j].value], to[j].value, blocks, env)
  }

  predicate AskedToTake(m: map<nat, Dquot>, slots: seq<Option<nat>>, to: seq<Option<nat>>, k: nat, blocks: nat,
                        env: Env, d: nat)
    requires Fits(m, to) && |slots| == MAXQUOTAS && k <= MAXQUOTAS && d in m
  {
    var j := m[d].kind;
    j < k && to[j] == Some(d) && slots[j].Some? && AllTake(m, slots, to, j, blocks, env)
  }

  predicate TakesTo(m: map<nat, Dquot>, slots: seq<Option<nat>>, to: seq<Option<nat>>, k: nat, blocks: nat, env: Env,
                    c: Checked)
    requires Fits(m, to) && |slots| == MAXQUOTAS && k <= MAXQUOTAS
  {
    && (c.ok <==> AllTake(m, slots, to, k, blocks, env)) && c.dquots.Keys == m.Keys
    && forall d :: d in m ==>
         c.dquots[d] == if AskedToTake(m, slots, to, k, blocks, env, d) then BegunBoth(m[d], d, blocks, env) else m[d]
  }

  lemma TakeNext(m: map<nat, Dquot>, slots: seq<Option<nat>>, to: seq<Option<nat>>, k: nat, blocks: nat, env: Env,
                 c: Checked)
    requires Fits(m, to) && |slots| == MAXQUOTAS && k < MAXQUOTAS && TakesTo(m, slots, to, k, blocks, env, c)
    requires c.ok && Moves(slots, to, k)
    ensures var d := to[k].value;
            && d in c.dquots && c.dquots[d] == m[d]
            && TakesTo(m, slots, to, k + 1, blocks, env,
                       Checked(!DeniesBoth(m[d], d, blocks, env), c.dquots[d := BegunBoth(m[d], d, blocks, env)]))
  {
    var t := to[k].value;
    forall d | d in m && d != t
      ensures AskedToTake(m, slots, to, k + 1, blocks, env, d) <==> AskedToTake(m, slots, to, k, blocks, env, d) {}
  }

  lemma TakeNone(m: map<nat, Dquot>, slots: seq<Option<nat>>, to: seq<Option<nat>>, k: nat, blocks: nat, env: Env,
                 c: Checked)
    requires Fits(m, to) && |slots| == MAXQUOTAS && k < MAXQUOTAS && TakesTo(m, slots, to, k, blocks, env, c)
    requires !c.ok || !Moves(slots, to, k)
    ensures TakesTo(m, slots, to, k + 1, blocks, env, c)
  {
    forall d | d in m
      ensures AskedToTake(m, slots, to, k + 1, blocks, env, d) <==> AskedToTake(m, slots, to, k, blocks, env, d) {}
  }

  lemma TakeOne(m: map<nat, Dquot>, slots: seq<Option<nat>>, to: seq<Option<nat>>, k: nat, blocks: nat, env: Env,
                c: Checked, c': Checked)
    requires Fits(m, to) && |slots| == MAXQUOTAS && k < MAXQUOTAS && TakesTo(m, slots, to, k, blocks, env, c)
    requires if !c.ok || !Moves(slots, to, k) || to[k].value !in c.dquots then c' == c
             else var t := to[k].value;
                  var v := CheckBoth(c.dquots[t], t, blocks, env);
                  c' == Checked(v.ok, c.dquots[t := v.dquot])
    ensures TakesTo(m, slots, to, k + 1, blocks, env, c')
  {
    if !c.ok || !Moves(slots, to, k) {
      TakeNone(m, slots, to, k, blocks, env, c);
    } else {
      TakeNext(m, slots, to, k, blocks, env, c);
      CheckBothMeans(m[to[k].value], to[k].value, blocks, env);
    }
  }

  lemma {:induction false} CheckMovesExactly(m: map<nat, Dquot>, slots: seq<Option<nat>>, to: seq<Option<nat>>, k: nat,
                                             blocks: nat, env: Env)
    requires Fits(m, to) && |slots| == MAXQUOTAS && k <= MAXQUOTAS
    ensures TakesTo(m, slots, to, k, blocks, env, CheckMoves(m, slots, to, k, blocks, env))
    decreases k
  {
    if k > 0 {
      var c := CheckMoves(m, slots, to, k - 1, blocks, env);
      CheckMovesExactly(m, slots, to, k - 1, blocks, env);
      TakeOne(m, slots, to, k - 1, blocks, env, c, CheckMoves(m, slots, to, k, blocks, env));
    }
  }

  // ---- the moves

  function Minus(use: nat, n: nat): nat {
    if use >= n then use - n else 0
  }

  /** A counter that falls below its soft limit ends its grace time. */
  function TimeAfter(time: nat, use: nat, soft: nat): nat {
    if use < soft then 0 else time
  }

  function Lighter(e: Dquot, blocks: nat): Dquot {
    var b, i := Minus(e.curblocks, blocks), Minus(e.curinodes, 1);
    e.(curblocks := b, curinodes := i, count := Minus(e.count, 1),
       btime := TimeAfter(e.btime, b, e.bsoft), itime := TimeAfter(e.itime, i, e.isoft))
  }

  function Heavier(e: Dquot, blocks: nat): Dquot {
    e.(curblocks := e.curblocks + blocks, curinodes := e.curinodes + 1, count := e.count + 1)
  }

  /** What the move of one slot makes of the dquot `e`, which is or is not the one left, and the one joined. */
  function Shifted(e: Dquot, leaves: bool, joins: bool, blocks: nat): Dquot {
    var l := if leaves then Lighter(e, blocks) else e;
    if joins then Heavier(l, blocks) else l
  }

  lemma MoveWeighs(e: Dquot, blocks: nat)
    ensures Leave(e, blocks) == Lighter(e, blocks) && Join(e, blocks) == Heavier(e, blocks)
  {
  }

  function Moved(m: map<nat, Dquot>, slots: seq<Option<nat>>, to: seq<Option<nat>>, blocks: nat, d: nat): Dquot
    requires |slots| == MAXQUOTAS == |to| && d in m
  {
    var k := m[d].kind;
    if k < MAXQUOTAS && Moves(slots, to, k) then Shifted(m[d], slots[k] == Some(d), to[k] == Some(d), blocks) else m[d]
  }

  /** From `p` to `r` slot `j` moves: only dquots of type `j` change. */
  lemma StepDquot(q: Quotas, p: Quotas, r: Quotas, i: nat, to: seq<Option<nat>>, j: nat, d: nat)
    requires MovedUpTo(q, p, i, j) && Targets(q, to) && j < MAXQUOTAS && StepsTo(q, p, r, i, to, j) && d in q.dquots
    ensures d in r.dquots
    ensures q.dquots[d].kind != j ==> r.dquots[d] == p.dquots[d]
    ensures q.dquots[d].kind == j ==> r.dquots[d] == Moved(q.dquots, q.inodes[i].dquot, to, q.inodes[i].blocks / 2, d)
  {
    assert FitsSlot(q, to[j], j) && FitsSlot(q, q.inodes[i].dquot[j], j);
    MoveWeighs(q.dquots[d], q.inodes[i].blocks / 2);
    MoveWeighs(Lighter(q.dquots[d], q.inodes[i].blocks / 2), q.inodes[i].blocks / 2);
  }

  lemma MoveAllDquot(q: Quotas, i: nat, to: seq<Option<nat>>, d: nat)
    requires Shape(q) && Targets(q, to) && i < |q.inodes| && d in q.dquots
    ensures var r := MoveAll(q, i, to, MAXQUOTAS);
            d in r.dquots && r.dquots[d] == Moved(q.dquots, q.inodes[i].dquot, to, q.inodes[i].blocks / 2, d)
  {
    MoveAllSteps(q, i, to, 0, 1);
    MoveAllSteps(q, i, to, 1, 2);
    StepDquot(q, MoveAll(q, i, to, 0), MoveAll(q, i, to, 1), i, to, 0, d);
    StepDquot(q, MoveAll(q, i, to, 1), MoveAll(q, i, to, 2), i, to, 1, d);
  }

  function Retargeted(slots: seq<Option<nat>>, to: seq<Option<nat>>): seq<Option<nat>>
    requires |slots| == MAXQUOTAS == |to|
  {
    [if Moves(slots, to, 0) then to[0] else slots[0], if Moves(slots, to, 1) then to[1] else slots[1]]
  }

  /** Inode `ino` with another dquot in slot `j`. */
  function WithSlot(ino: Inode, j: nat, s: Option<nat>): Inode
    requires j < |ino.dquot|
  {
    ino.(dquot := ino.dquot[j := s])
  }

  lemma StepInodes(q: Quotas, p: Quotas, r: Quotas, i: nat, to: seq<Option<nat>>, j: nat)
    requires MovedUpTo(q, p, i, j) && |to| == MAXQUOTAS && j < MAXQUOTAS && StepsTo(q, p, r, i, to, j)
    ensures r.inodes == p.inodes[i := WithSlot(p.inodes[i], j, Retargeted(q.inodes[i].dquot, to)[j])]
  {
    if !Moves(q.inodes[i].dquot, to, j) {
      var ino := p.inodes[i];
      assert ino.dquot[j := ino.dquot[j]] == ino.dquot;
      assert p.inodes[i := ino] == p.inodes;
    }
  }

  lemma MoveAllInodes(q: Quotas, i: nat, to: seq<Option<nat>>)
    requires Shape(q) && Targets(q, to) && i < |q.inodes|
    ensures MoveAll(q, i, to, MAXQUOTAS).inodes
              == q.inodes[i := q.inodes[i].(dquot := Retargeted(q.inodes[i].dquot, to))]
  {
    var o, p, r := MoveAll(q, i, to, 0), MoveAll(q, i, to, 1), MoveAll(q, i, to, 2);
    MoveAllSteps(q, i, to, 0, 1);
    MoveAllSteps(q, i, to, 1, 2);
    StepInodes(q, o, p, i, to, 0);
    StepInodes(q, p, r, i, to, 1);
    TwoSlots(q.inodes, o.inodes, p.inodes, r.inodes, i, Retargeted(q.inodes[i].dquot, to));
  }

  lemma TwoSlots(q: seq<Inode>, o: seq<Inode>, p: seq<Inode>, r: seq<Inode>, i: nat, s: seq<Option<nat>>)
    requires o == q && i < |q| && |q[i].dquot| == MAXQUOTAS == |s|
    requires p == o[i := WithSlot(o[i], 0, s[0])] && r == p[i := WithSlot(p[i], 1, s[1])]
    ensures r == q[i := q[i].(dquot := s)]
  {
    assert q[i].dquot[0 := s[0]][1 := s[1]] == s;
  }

  /** What a granted transfer makes of `d`. */
  function Transferred(m: map<nat, Dquot>, slots: seq<Option<nat>>, to: seq<Option<nat>>, blocks: nat, env: Env, d: nat)
    : Dquot
    requires |slots| == MAXQUOTAS == |to| && d in m
  {
    var k := m[d].kind;
    if k < MAXQUOTAS && Moves(slots, to, k) then
      Shifted(if to[k] == Some(d) then BegunBoth(m[d], d, blocks, env) else m[d], slots[k] == Some(d),
              to[k] == Some(d), blocks)
    else m[d]
  }

  /** dquot_transfer, told from limits, uses and times. */
  ghost predicate Transfers(q: Quotas, i: nat, to: seq<Option<nat>>, env: Env, r: Quotas, ok: bool) {
    && i < |q.inodes| && Fits(q.dquots, to) && |q.inodes[i].dquot| == MAXQUOTAS
    && var ino, b := q.inodes[i], q.inodes[i].blocks / 2;
    && (ok <==> AllTake(q.dquots, ino.dquot, to, MAXQUOTAS, b, env))
    && r.inodes == (if ok then q.inodes[i := ino.(dquot := Retargeted(ino.dquot, to))] else q.inodes)
    && r.dquots.Keys == q.dquots.Keys
    && forall d :: d in q.dquots ==> r.dquots[d] == GivenTo(q.dquots, ino.dquot, to, b, env, ok, d)
  }

  function GivenTo(m: map<nat, Dquot>, slots: seq<Option<nat>>, to: seq<Option<nat>>, blocks: nat, env: Env, ok: bool,
                   d: nat): Dquot
    requires Fits(m, to) && |slots| == MAXQUOTAS && d in m
  {
    if ok then Transferred(m, slots, to, blocks, env, d)
    else if AskedToTake(m, slots, to, MAXQUOTAS, blocks, env, d) then BegunBoth(m[d], d, blocks, env)
    else m[d]
  }

  lemma GiveExactly(q: Quotas, i: nat, to: seq<Option<nat>>, env: Env, c: Checked, r: Quotas)
    requires Shape(q) && i < |q.inodes| && Fits(q.dquots, to) && c.ok && SameUses(q.dquots, c.dquots)
    requires TakesTo(q.dquots, q.inodes[i].dquot, to, MAXQUOTAS, q.inodes[i].blocks / 2, env, c)
    requires Shape(q.(dquots := c.dquots)) && Targets(q.(dquots := c.dquots), to)
    requires r == MoveAll(q.(dquots := c.dquots), i, to, MAXQUOTAS)
    ensures Transfers(q, i, to, env, r, true)
  {
    var p, slots, b := q.(dquots := c.dquots), q.inodes[i].dquot, q.inodes[i].blocks / 2;
    MoveAllInodes(p, i, to);
    forall d | d in q.dquots ensures d in r.dquots && r.dquots[d] == Transferred(q.dquots, slots, to, b, env, d) {
      MoveAllDquot(p, i, to, d);
      GivenDquot(q.dquots, slots, to, b, env, c, d);
    }
  }

  lemma GivenDquot(m: map<nat, Dquot>, slots: seq<Option<nat>>, to: seq<Option<nat>>, blocks: nat, env: Env, c: Checked,
                   d: nat)
    requires Fits(m, to) && |slots| == MAXQUOTAS && d in m && c.ok
    requires TakesTo(m, slots, to, MAXQUOTAS, blocks, env, c)
    ensures Moved(c.dquots, slots, to, blocks, d) == Transferred(m, slots, to, blocks, env, d)
  {
    assert m[d].kind < MAXQUOTAS ==> AllTake(m, slots, to, m[d].kind, blocks, env);
  }

  lemma TransferExactly(q: Quotas, i: nat, to: seq<Option<nat>>, env: Env)
    requires Shape(q) && Targets(q, to) && i < |q.inodes|
    ensures var x := Transfer(q, i, to, env); Transfers(q, i, to, env, x.0, x.1)
  {
    var slots, b := q.inodes[i].dquot, q.inodes[i].blocks / 2;
    SlotsFit(q, to);
    var c, x := CheckMoves(q.dquots, slots, to, MAXQUOTAS, b, env), Transfer(q, i, to, env);
    CheckMovesExactly(q.dquots, slots, to, MAXQUOTAS, b, env);
    CheckMovesUses(q.dquots, slots, to, MAXQUOTAS, b, env);
    if c.ok {
      SameUsesBalanced(q, c.dquots);
      TargetsKept(q, c.dquots, to);
      GiveExactly(q, i, to, env, c, x.0);
    }
  }

  /** Once a grace time of the new owner is over, no granted transfer leaves it above that soft limit. */
  lemma GiveOver(q: Quotas, i: nat, to: seq<Option<nat>>, env: Env, r: Quotas, k: nat)
    requires Transfers(q, i, to, env, r, true)
    requires k < MAXQUOTAS && Moves(q.inodes[i].dquot, to, k) && to[k] != q.inodes[i].dquot[k]
    requires !q.dquots[to[k].value].fake && !env.exempt(to[k].value)
    ensures to[k].value in r.dquots
    ensures var b, d, e := q.inodes[i].blocks / 2, q.dquots[to[k].value], r.dquots[to[k].value];
            && e.curinodes == d.curinodes + 1 && e.curblocks == d.curblocks + b
            && (0 < d.itime <= env.now ==> !Above(e.curinodes, d.isoft))
            && (0 < d.btime <= env.now && b > 0 ==> !Above(e.curblocks, d.bsoft))
  {
    assert !DeniesBoth(q.dquots[to[k].value], to[k].value, q.inodes[i].blocks / 2, env);
  }

  /** A transfer within all hard limits is granted while every grace time runs or may begin. */
  lemma GiveRuns(q: Quotas, i: nat, to: seq<Option<nat>>, env: Env, r: Quotas, ok: bool)
    requires Transfers(q, i, to, env, r, ok)
    requires forall d :: d in q.dquots && Some(d) in to ==>
               && (q.dquots[d].btime == 0 || env.now < q.dquots[d].btime)
               && (q.dquots[d].itime == 0 || env.now < q.dquots[d].itime)
               && !Above(q.dquots[d].curblocks + q.inodes[i].blocks / 2, q.dquots[d].bhard)
               && !Above(q.dquots[d].curinodes + 1, q.dquots[d].ihard)
    ensures ok
  {
    forall k | 0 <= k < MAXQUOTAS && Moves(q.inodes[i].dquot, to, k)
      ensures !DeniesBoth(q.dquots[to[k].value], to[k].value, q.inodes[i].blocks / 2, env)
    {
      assert Some(to[k].value) in to;
    }
  }

  // ---- dquot_free_block

  /** Freeing lowers the use of every dquot of the inode, and ends its grace time just if it is below its soft limit
      then. */
  lemma FreeExactly(q: Quotas, i: nat, n: nat, d: nat)
    requires Shape(q) && i < |q.inodes| && 2 * n <= q.inodes[i].blocks && d in q.dquots
    ensures var r := FreeBlock(q, i, n);
            var e, use := q.dquots[d], Minus(q.dquots[d].curblocks, n);
            && d in r.dquots
            && r.dquots[d] == if Some(d) !in q.inodes[i].dquot then e
                              else e.(curblocks := use, btime := TimeAfter(e.btime, use, e.bsoft))
  {
    var slots := q.inodes[i].dquot;
    assert forall k :: 0 <= k < MAXQUOTAS ==> FitsSlot(q, slots[k], k);
    SlotsFit(q, slots);
    FreedDquot(q, i, n, d);
    TallyFit(q.dquots, slots, d, n);
    TallyFit(q.dquots, slots, d, 1);
  }

  // ---- limits and grace times over whole runs

  predicate SameLimits(d: Dquot, e: Dquot) {
    && e.bhard == d.bhard && e.bsoft == d.bsoft && e.ihard == d.ihard && e.isoft == d.isoft && e.fake == d.fake
    && e.kind == d.kind
  }

  predicate HardOk(d: Dquot) {
    d.fake || (!Above(d.curblocks, d.bhard) && !Above(d.curinodes, d.ihard))
  }

  /** Above a soft limit, the grace time has begun. */
  predicate ClockOk(d: Dquot) {
    d.fake || ((Above(d.curblocks, d.bsoft) ==> d.btime > 0) && (Above(d.curinodes, d.isoft) ==> d.itime > 0))
  }

  /** From `d` to `e` within the hard limits, unless they may be ignored, and with the clock running. */
  predicate KeepsLimits(d: Dquot, e: Dquot, exempt: bool, fair: bool) {
    SameLimits(d, e) && (!exempt && HardOk(d) ==> HardOk(e)) && (fair && ClockOk(d) ==> ClockOk(e))
  }

  lemma AllocLimits(q: Quotas, i: nat, n: nat, prealloc: bool, env: Env, d: nat)
    requires Shape(q) && i < |q.inodes| && d in q.dquots
    ensures var r := AllocBlock(q, i, n, prealloc, env).0.dquots;
            d in r && KeepsLimits(q.dquots[d], r[d], env.exempt(d), env.now > 0)
  {
    AllocExactly(q, i, n, prealloc, env);
    var slots, ok := q.inodes[i].dquot, AllocBlock(q, i, n, prealloc, env).1;
    AllocatedLimits(q.dquots, slots, n, prealloc, env, ok, d);
  }

  lemma AllocatedLimits(m: map<nat, Dquot>, slots: seq<Option<nat>>, n: nat, prealloc: bool, env: Env, ok: bool, d: nat)
    requires Fits(m, slots) && d in m && (ok ==> AllAllow(m, slots, MAXQUOTAS, n, prealloc, env))
    ensures KeepsLimits(m[d], Allocated(m, slots, n, prealloc, env, ok, d), env.exempt(d), env.now > 0)
  {
    if ok && Some(d) in slots {
      var j :| 0 <= j < MAXQUOTAS && slots[j] == Some(d);
      assert !DeniesBlocks(m[d], d, n, prealloc, env) && AllAllow(m, slots, j, n, prealloc, env);
    }
  }

  /** No slot moves to the dquot it moves from. */
  predicate NoneToItself(slots: seq<Option<nat>>, to: seq<Option<nat>>) {
    |slots| == |to| && forall k :: 0 <= k < |to| && to[k].Some? ==> to[k] != slots[k]
  }

  lemma GivenLimits(m: map<nat, Dquot>, slots: seq<Option<nat>>, to: seq<Option<nat>>, blocks: nat, env: Env, ok: bool,
                    d: nat)
    requires Fits(m, to) && |slots| == MAXQUOTAS && d in m && (ok ==> AllTake(m, slots, to, MAXQUOTAS, blocks, env))
    ensures KeepsLimits(m[d], GivenTo(m, slots, to, blocks, env, ok, d), env.exempt(d),
                        env.now > 0 && NoneToItself(slots, to))
  {
    var k := m[d].kind;
    if ok && k < MAXQUOTAS && Moves(slots, to, k) && to[k] == Some(d) {
      assert !DeniesBoth(m[d], d, blocks, env);
    }
  }

  lemma TransferLimits(q: Quotas, i: nat, to: seq<Option<nat>>, env: Env, d: nat)
    requires Shape(q) && Targets(q, to) && i < |q.inodes| && d in q.dquots
    ensures var r := Transfer(q, i, to, env).0.dquots;
            && d in r
            && KeepsLimits(q.dquots[d], r[d], env.exempt(d), env.now > 0 && NoneToItself(q.inodes[i].dquot, to))
  {
    TransferExactly(q, i, to, env);
    GivenLimits(q.dquots, q.inodes[i].dquot, to, q.inodes[i].blocks / 2, env, Transfer(q, i, to, env).1, d);
  }

  /** Limits may be ignored for `d` during `op`. */
  predicate Exempts(op: Op, d: nat) {
    !op.Free? && op.env.exempt(d)
  }

  /** The time is after the epoch, and an inode is given to another owner. */
  predicate Fair(q: Quotas, op: Op) {
    && (!op.Free? ==> op.env.now > 0)
    && (op.Give? ==> op.i < |q.inodes| && NoneToItself(q.inodes[op.i].dquot, op.to))
  }

  lemma ApplyLimits(q: Quotas, op: Op, d: nat)
    requires Shape(q) && Allowed(q, op) && d in q.dquots
    ensures d in Apply(q, op).dquots
    ensures KeepsLimits(q.dquots[d], Apply(q, op).dquots[d], Exempts(op, d), Fair(q, op))
  {
    match op {
      case Alloc(i, n, prealloc, env) => AllocLimits(q, i, n, prealloc, env, d);
      case Free(i, n) => FreeExactly(q, i, n, d);
      case Give(i, to, env) => TransferLimits(q, i, to, env, d);
    }
  }

  lemma ApplyShape(q: Quotas, op: Op)
    requires Shape(q) && Allowed(q, op)
    ensures Shape(Apply(q, op))
  {
    match op {
      case Alloc(i, n, prealloc, env) => AllocBalanced(q, i, n, prealloc, env);
      case Free(i, n) => FreeBalanced(q, i, n);
      case Give(i, to, env) => TransferBalanced(q, i, to, env);
    }
  }

  ghost predicate AllFair(q: Quotas, ops: seq<Op>)
    decreases |ops|
  {
    ops == [] || (Shape(q) && Allowed(q, ops[0]) && Fair(q, ops[0]) && AllFair(Apply(q, ops[0]), ops[1..]))
  }

  /** Over any run, a dquot for which limits are never ignored stays within its hard limits. */
  lemma {:induction false} RunHard(q: Quotas, ops: seq<Op>, r: Quotas, d: nat)
    requires Shape(q) && Leads(q, ops, r) && d in q.dquots && forall op :: op in ops ==> !Exempts(op, d)
    ensures d in r.dquots && SameLimits(q.dquots[d], r.dquots[d]) && (HardOk(q.dquots[d]) ==> HardOk(r.dquots[d]))
    decreases |ops|
  {
    if ops != [] {
      ApplyShape(q, ops[0]);
      ApplyLimits(q, ops[0], d);
      RunHard(Apply(q, ops[0]), ops[1..], r, d);
    }
  }

  /** Over any run, whoever asks, a dquot above a soft limit has its grace time running or over. */
  lemma {:induction false} RunClock(q: Quotas, ops: seq<Op>, r: Quotas, d: nat)
    requires Shape(q) && Leads(q, ops, r) && AllFair(q, ops) && d in q.dquots && ClockOk(q.dquots[d])
    ensures d in r.dquots && ClockOk(r.dquots[d])
    decreases |ops|
  {
    if ops != [] {
      ApplyShape(q, ops[0]);
      ApplyLimits(q, ops[0], d);
      RunClock(Apply(q, ops[0]), ops[1..], r, d);
    }
  }

  // ---- after the grace time

  /** At or above its soft limit for blocks, with the grace time set. */
  predicate Overdrawn(d: Dquot) {
    !d.fake && 0 < d.bsoft <= d.curblocks && d.btime > 0
  }

  /** `op` comes after the grace time of `d`, and limits are not ignored for it. */
  predicate Late(op: Op, d: nat, e: Dquot) {
    !op.Free? ==> !op.env.exempt(d) && e.btime <= op.env.now
  }

  /** From `d` to `e` the use does not rise; the grace time stays, unless the use falls below the soft limit. */
  predicate GoesDown(d: Dquot, e: Dquot) {
    SameLimits(d, e) && e.curblocks <= d.curblocks && (d.bsoft <= e.curblocks ==> e.btime == d.btime)
  }

  lemma LateAlloc(m: map<nat, Dquot>, slots: seq<Option<nat>>, n: nat, prealloc: bool, env: Env, ok: bool, d: nat)
    requires Fits(m, slots) && d in m && (ok ==> AllAllow(m, slots, MAXQUOTAS, n, prealloc, env))
    requires Overdrawn(m[d]) && !env.exempt(d) && m[d].btime <= env.now
    ensures GoesDown(m[d], Allocated(m, slots, n, prealloc, env, ok, d))
  {
    if ok && Some(d) in slots {
      var j :| 0 <= j < MAXQUOTAS && slots[j] == Some(d);
      assert !DeniesBlocks(m[d], d, n, prealloc, env);
    }
  }

  lemma LateGive(m: map<nat, Dquot>, slots: seq<Option<nat>>, to: seq<Option<nat>>, blocks: nat, env: Env, ok: bool,
                 d: nat)
    requires Fits(m, to) && |slots| == MAXQUOTAS && d in m && (ok ==> AllTake(m, slots, to, MAXQUOTAS, blocks, env))
    requires Overdrawn(m[d]) && !env.exempt(d) && m[d].btime <= env.now
    ensures GoesDown(m[d], GivenTo(m, slots, to, blocks, env, ok, d))
  {
    var k := m[d].kind;
    if ok && k < MAXQUOTAS && Moves(slots, to, k) && to[k] == Some(d) {
      assert !DeniesBoth(m[d], d, blocks, env);
    }
  }

  lemma LateStep(q: Quotas, op: Op, d: nat)
    requires Shape(q) && Allowed(q, op) && d in q.dquots && Overdrawn(q.dquots[d]) && Late(op, d, q.dquots[d])
    ensures d in Apply(q, op).dquots && GoesDown(q.dquots[d], Apply(q, op).dquots[d])
  {
    match op {
      case Alloc(i, n, prealloc, env) =>
        AllocExactly(q, i, n, prealloc, env);
        LateAlloc(q.dquots, q.inodes[i].dquot, n, prealloc, env, AllocBlock(q, i, n, prealloc, env).1, d);
      case Free(i, n) =>
        FreeExactly(q, i, n, d);
      case Give(i, to, env) =>
        TransferExactly(q, i, to, env);
        LateGive(q.dquots, q.inodes[i].dquot, to, q.inodes[i].blocks / 2, env, Transfer(q, i, to, env).1, d);
    }
  }

  /** `d` never falls below its soft limit on the way. */
  ghost predicate StaysOver(q: Quotas, ops: seq<Op>, d: nat)
    decreases |ops|
  {
    && d in q.dquots && q.dquots[d].bsoft <= q.dquots[d].curblocks
    && (ops == [] || (Shape(q) && Allowed(q, ops[0]) && StaysOver(Apply(q, ops[0]), ops[1..], d)))
  }

  lemma StillLate(ops: seq<Op>, d: nat, e: Dquot, f: Dquot)
    requires ops != [] && f.btime == e.btime && forall op :: op in ops ==> Late(op, d, e)
    ensures forall op :: op in ops[1..] ==> Late(op, d, f)
  {
    forall op | op in ops[1..] ensures Late(op, d, f) { assert op in ops && Late(op, d, e); }
  }

  lemma DownAgain(a: Dquot, b: Dquot, c: Dquot)
    requires GoesDown(a, b) && a.bsoft <= b.curblocks && GoesDown(b, c)
    ensures GoesDown(a, c)
  {
  }

  /** After its grace time, and until it has been below its soft limit, the use of a dquot only goes down. */
  lemma {:induction false} RunLate(q: Quotas, ops: seq<Op>, r: Quotas, d: nat)
    requires Shape(q) && Leads(q, ops, r) && StaysOver(q, ops, d) && Overdrawn(q.dquots[d])
    requires forall op :: op in ops ==> Late(op, d, q.dquots[d])
    ensures d in r.dquots && GoesDown(q.dquots[d], r.dquots[d])
    decreases |ops|
  {
    if ops != [] {
      var p, rest := Apply(q, ops[0]), ops[1..];
      ApplyShape(q, ops[0]);
      LateStep(q, ops[0], d);
      assert StaysOver(p, rest, d) && GoesDown(q.dquots[d], p.dquots[d]);
      StillLate(ops, d, q.dquots[d], p.dquots[d]);
      RunLate(p, rest, r, d);
      DownAgain(q.dquots[d], p.dquots[d], r.dquots[d]);
    }
  }
}
