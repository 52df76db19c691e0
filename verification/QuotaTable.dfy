/** The quota operations as they change dquots and inodes in place, with the references they take and
    drop (fs/dquot.c:420-450, 525-545, 1020-1052, 1094-1109, 1135-1217). */
module QuotaTables {
  import opened QuotaClocks
  import opened QuotaLedger
  import opened QuotaLimits
  import opened QuotaMoves
  import opened Options

  /** The state `m` with a reference more for each of `held` that names a dquot, the first `k` of which
      are dropped again. */
  predicate Holding(m: map<nat, Dquot>, held: seq<Option<nat>>, k: nat, now: map<nat, Dquot>)
    requires k <= |held|
  {
    && now.Keys == m.Keys
    && forall d :: d in m ==> Owes(m[d], now[d], Tally(held, |held|, d, 1) - Tally(held, k, d, 1))
  }

  predicate Owes(d: Dquot, e: Dquot, refs: int) {
    e == d.(count := e.count) && e.count == d.count + refs
  }

  lemma {:induction false} TallyGrows(slots: seq<Option<nat>>, j: nat, k: nat, d: nat, v: nat)
    requires j <= k <= |slots|
    ensures Tally(slots, j, d, v) <= Tally(slots, k, d, v)
    decreases k
  {
    if j < k { TallyGrows(slots, j, k - 1, d, v); }
  }

  lemma HoldNone(m: map<nat, Dquot>)
    ensures Holding(m, [None, None], 0, m)
  {
    forall d | d in m ensures Owes(m[d], m[d], Tally([None, None], 2, d, 1) - Tally([None, None], 0, d, 1)) {
      assert Tally([None, None], 2, d, 1) == Tally([None, None], 1, d, 1) == Tally([None, None], 0, d, 1);
    }
  }

  /** Another reference, noted in slot `k`, and a verdict on the dquot, which does not look at the
      references. */
  lemma HoldMore(m: map<nat, Dquot>, held: seq<Option<nat>>, k: nat, now: map<nat, Dquot>, d: nat, e: Dquot)
    requires Holding(m, held, 0, now) && k < |held| && held[k].None? && d in m && e.count == m[d].count
    ensures Holding(m[d := e], held[k := Some(d)], 0, now[d := e.(count := now[d].count + 1)])
  {
    var m', held', now' := m[d := e], held[k := Some(d)], now[d := e.(count := now[d].count + 1)];
    forall x | x in m' ensures Owes(m'[x], now'[x], Tally(held', |held'|, x, 1) - Tally(held', 0, x, 1)) {
      TallyUpdate(held, |held|, k, d, x, 1);
      assert Owes(m[x], now[x], Tally(held, |held|, x, 1) - Tally(held, 0, x, 1));
    }
  }

  /** One of them is dropped. */
  lemma HoldLess(m: map<nat, Dquot>, held: seq<Option<nat>>, k: nat, now: map<nat, Dquot>)
    requires k < |held| && Holding(m, held, k, now) && (held[k].Some? ==> held[k].value in m)
    ensures Holding(m, held, k + 1, if held[k].None? then now
              else now[held[k].value := now[held[k].value].(count := Lowered(now[held[k].value].count, 1))])
  {
    var now' := if held[k].None? then now
                else now[held[k].value := now[held[k].value].(count := Lowered(now[held[k].value].count, 1))];
    forall x | x in m ensures Owes(m[x], now'[x], Tally(held, |held|, x, 1) - Tally(held, k + 1, x, 1)) {
      TallyGrows(held, k + 1, |held|, x, 1);
      assert Owes(m[x], now[x], Tally(held, |held|, x, 1) - Tally(held, k, x, 1));
    }
  }

  lemma HoldNothing(m: map<nat, Dquot>, held: seq<Option<nat>>, now: map<nat, Dquot>)
    requires Holding(m, held, |held|, now)
    ensures now == m
  {
    forall x | x in m ensures now[x] == m[x] { assert Owes(m[x], now[x], 0); }
  }

  predicate Named(m: map<nat, Dquot>, slots: seq<Option<nat>>) {
    forall k :: 0 <= k < |slots| && slots[k].Some? ==> slots[k].value in m
  }

  predicate Known(m: map<nat, Dquot>, slots: seq<Option<nat>>) {
    |slots| == MAXQUOTAS && Named(m, slots)
  }

  class QuotaTable {
    var dquots: map<nat, Dquot>
    var inodes: seq<Inode>

    function Abs(): Quotas
      reads this
    {
      Quotas(dquots, inodes)
    }

    /** dqduplicate. */
    method Dqduplicate(s: Option<nat>)
      requires s.Some? ==> s.value in dquots
      modifies `dquots
      ensures dquots == if s.None? then old(dquots)
                        else old(dquots)[s.value := old(dquots)[s.value].(count := old(dquots)[s.value].count + 1)]
    {
      if s.Some? {
        var d := s.value;
        dquots := dquots[d := dquots[d].(count := dquots[d].count + 1)];
      }
    }

    /** dqput, without the write to the quota file. */
    method Dqput(s: Option<nat>)
      requires s.Some? ==> s.value in dquots
      modifies `dquots
      ensures dquots == if s.None? then old(dquots)
                        else old(dquots)[s.value := old(dquots)[s.value].(
                                           count := Lowered(old(dquots)[s.value].count, 1))]
    {
      if s.Some? {
        var d := s.value;
        if dquots[d].count > 0 {
          dquots := dquots[d := dquots[d].(count := dquots[d].count - 1)];
        } else {
          assert dquots[d := dquots[d].(count := 0)] == dquots;
        }
      }
    }

    /** The references taken are dropped again. */
    method PutAll(held: seq<Option<nat>>, ghost m: map<nat, Dquot>)
      requires Named(m, held) && Holding(m, held, 0, dquots)
      modifies `dquots
      ensures dquots == m
    {
      var cnt: nat := 0;
      while cnt < |held|
        invariant cnt <= |held| && Holding(m, held, cnt, dquots)
      {
        HoldLess(m, held, cnt, dquots);
        Dqput(held[cnt]);
        cnt := cnt + 1;
      }
      HoldNothing(m, held, dquots);
    }

    /** dqduplicate and check_bdq. */
    method DupAndCheck(d: nat, n: nat, prealloc: bool, env: Env) returns (ok: bool)
      requires d in dquots
      modifies `dquots
      ensures var v := CheckBlocks(old(dquots)[d].(count := old(dquots)[d].count + 1), d, n, prealloc, env);
              ok == v.ok && dquots == old(dquots)[d := v.dquot]
    {
      Dqduplicate(Some(d));
      var v := CheckBlocks(dquots[d], d, n, prealloc, env);
      dquots := dquots[d := v.dquot];
      ok := v.ok;
    }

    /** One turn of the loop of dquot_alloc_block that takes references and checks limits. */
    method TakeOne(slots: seq<Option<nat>>, cnt: nat, held: seq<Option<nat>>, n: nat, prealloc: bool, env: Env,
                   ghost m: map<nat, Dquot>)
      returns (ok: bool, held': seq<Option<nat>>)
      requires Known(m, slots) && cnt < MAXQUOTAS && Taking(m, slots, cnt, n, prealloc, env, true, held, dquots)
      modifies `dquots
      ensures Taking(m, slots, cnt + 1, n, prealloc, env, ok, held', dquots)
    {
      if slots[cnt].Some? {
        KnownNow(m, slots, cnt, held, n, prealloc, env, dquots);
        held' := held[cnt := slots[cnt]];
        ok := DupAndCheck(slots[cnt].value, n, prealloc, env);
        TakeStep(m, slots, cnt, held, n, prealloc, env, old(dquots), ok, dquots);
      } else {
        TakeSkip(m, slots, cnt, held, n, prealloc, env, dquots);
        held', ok := held, true;
      }
    }

    /** The loop of dquot_alloc_block that takes references and checks limits (lines 1031-1037). */
    method TakeAndCheck(slots: seq<Option<nat>>, n: nat, prealloc: bool, env: Env)
      returns (ok: bool, held: seq<Option<nat>>)
      requires Known(dquots, slots)
      modifies `dquots
      ensures var c := CheckAll(old(dquots), slots, MAXQUOTAS, n, prealloc, env);
              ok == c.ok && Taken(c.dquots, held, MAXQUOTAS, dquots)
    {
      ghost var m := dquots;
      held, ok := [None, None], true;
      HoldNone(m);
      var cnt: nat := 0;
      while cnt < MAXQUOTAS
        invariant cnt <= MAXQUOTAS && ok && Taking(m, slots, cnt, n, prealloc, env, true, held, dquots)
      {
        ok, held := TakeOne(slots, cnt, held, n, prealloc, env, m);
        cnt := cnt + 1;
        if !ok {
          CheckStops(m, slots, cnt, MAXQUOTAS, n, prealloc, env);
          return;
        }
      }
    }

    /** The body of dquot_alloc_block. */
    method CheckAndCharge(i: nat, n: nat, prealloc: bool, env: Env) returns (ok: bool)
      requires Shape(Abs()) && i < |inodes|
      modifies this
      ensures (Abs(), ok) == AllocBlock(old(Abs()), i, n, prealloc, env)
    {
      var slots := inodes[i].dquot;
      SlotsKnown(Abs(), i);
      var held: seq<Option<nat>>;
      ghost var c := CheckAll(dquots, slots, MAXQUOTAS, n, prealloc, env);
      CheckAllUses(dquots, slots, MAXQUOTAS, n, prealloc, env);
      ok, held := TakeAndCheck(slots, n, prealloc, env);
      if ok {
        ghost var now := dquots;
        IncrBlocks(slots, n);
        inodes := inodes[i := inodes[i].(blocks := inodes[i].blocks + 2 * n)];
        ChargedHolding(c.dquots, slots, n, held, now);
        PutAll(held, ChargeAll(c.dquots, slots, MAXQUOTAS, n));
      } else {
        PutAll(held, c.dquots);
      }
    }

    /** dquot_alloc_block. */
    method DquotAllocBlock(i: nat, n: nat, prealloc: bool, env: Env) returns (ok: bool)
      requires Shape(Abs()) && i < |inodes|
      modifies this
      ensures (Abs(), ok) == AllocBlock(old(Abs()), i, n, prealloc, env)
      ensures Allocates(old(Abs()), i, n, prealloc, env, Abs(), ok)
    {
      AllocExactly(Abs(), i, n, prealloc, env);
      ok := CheckAndCharge(i, n, prealloc, env);
    }

    /** dquot_incr_blocks over the slots. */
    method IncrBlocks(slots: seq<Option<nat>>, n: nat)
      requires Known(dquots, slots)
      modifies `dquots
      ensures dquots == ChargeAll(old(dquots), slots, MAXQUOTAS, n)
    {
      ghost var m := dquots;
      var cnt: nat := 0;
      assert ChargeAll(m, slots, 0, n) == m;
      while cnt < MAXQUOTAS
        invariant cnt <= MAXQUOTAS && dquots == ChargeAll(m, slots, cnt, n)
      {
        ChargeMore(m, slots, cnt, n);
        if slots[cnt].Some? {
          var d := slots[cnt].value;
          dquots := dquots[d := dquots[d].(curblocks := dquots[d].curblocks + n)];
        }
        cnt := cnt + 1;
      }
    }

    /** One turn of the loop of dquot_free_block. */
    method DrainSlot(s: Option<nat>, n: nat)
      requires s.Some? ==> s.value in dquots
      modifies `dquots
      ensures dquots == DrainedBy(old(dquots), s, n)
    {
      ghost var m := dquots;
      Dqduplicate(s);
      if s.Some? {
        DecrBlocks(s.value, n);
        Dqput(s);
        assert dquots == m[s.value := dquots[s.value]];
      }
    }

    /** dquot_free_block. */
    method DquotFreeBlock(i: nat, n: nat)
      requires Shape(Abs()) && i < |inodes| && 2 * n <= inodes[i].blocks
      modifies this
      ensures Abs() == FreeBlock(old(Abs()), i, n)
    {
      var slots := inodes[i].dquot;
      SlotsKnown(Abs(), i);
      ghost var m := dquots;
      var cnt: nat := 0;
      assert DrainAll(m, slots, 0, n) == m;
      while cnt < MAXQUOTAS
        invariant cnt <= MAXQUOTAS && dquots == DrainAll(m, slots, cnt, n)
        modifies `dquots
      {
        DrainMore(m, slots, cnt, n);
        DrainSlot(slots[cnt], n);
        cnt := cnt + 1;
      }
      inodes := inodes[i := inodes[i].(blocks := inodes[i].blocks - 2 * n)];
    }

    /** dquot_decr_blocks. */
    method DecrBlocks(d: nat, n: nat)
      requires d in dquots
      modifies `dquots
      ensures dquots == old(dquots)[d := DrainOne(old(dquots)[d], Lowered(old(dquots)[d].curblocks, n), true)]
    {
      var q := dquots[d];
      if q.curblocks > n {
        q := q.(curblocks := q.curblocks - n);
      } else {
        q := q.(curblocks := 0);
      }
      if q.curblocks < q.bsoft {
        q := q.(btime := 0);
      }
      dquots := dquots[d := q];
    }

    // ---- dquot_transfer; `held` are transfer_to[0], transfer_from[0], transfer_to[1], transfer_from[1]

    /** One target, if there is one for this type. */
    method GetTarget(to: seq<Option<nat>>, cnt: nat, held: seq<Option<nat>>, ghost m: map<nat, Dquot>)
      returns (held': seq<Option<nat>>)
      requires Known(m, to) && cnt < MAXQUOTAS && |held| == 2 * MAXQUOTAS && held[2 * cnt].None?
      requires Holding(m, held, 0, dquots)
      modifies `dquots
      ensures held' == held[2 * cnt := to[cnt]] && Holding(m, held', 0, dquots)
    {
      held' := held;
      if to[cnt].Some? {
        HoldDup(m, held, 2 * cnt, dquots, to[cnt].value);
        Dqduplicate(to[cnt]);
        held' := held[2 * cnt := to[cnt]];
      }
    }

    /** dqget of the new owner's dquots. */
    method GetTargets(to: seq<Option<nat>>) returns (held: seq<Option<nat>>)
      requires Known(dquots, to)
      modifies `dquots
      ensures held == [to[0], None, to[1], None] && Holding(old(dquots), held, 0, dquots)
    {
      ghost var m := dquots;
      held := [None, None, None, None];
      HoldNoneOf(m, held);
      var cnt: nat := 0;
      while cnt < MAXQUOTAS
        invariant cnt <= MAXQUOTAS && Holding(m, held, 0, dquots)
        invariant held == [if cnt > 0 then to[0] else None, None, if cnt > 1 then to[1] else None, None]
      {
        held := GetTarget(to, cnt, held, m);
        cnt := cnt + 1;
      }
    }

    /** dqduplicate of the old dquot, check_idq and check_bdq of the new one. */
    method DupAndCheckBoth(f: nat, t: nat, blocks: nat, env: Env) returns (ok: bool)
      requires f in dquots && t in dquots
      modifies `dquots
      ensures var dup := old(dquots)[f := old(dquots)[f].(count := old(dquots)[f].count + 1)];
              var v := CheckBoth(dup[t], t, blocks, env);
              ok == v.ok && dquots == dup[t := v.dquot]
    {
      Dqduplicate(Some(f));
      var v := CheckBoth(dquots[t], t, blocks, env);
      dquots := dquots[t := v.dquot];
      ok := v.ok;
    }

    /** One turn of the check loop of dquot_transfer (lines 1169-1179). */
    method CheckMove(slots: seq<Option<nat>>, to: seq<Option<nat>>, cnt: nat, held: seq<Option<nat>>, blocks: nat,
                     env: Env, ghost m: map<nat, Dquot>)
      returns (ok: bool, held': seq<Option<nat>>)
      requires Known(m, slots) && Known(m, to) && cnt < MAXQUOTAS && CheckMoves(m, slots, to, cnt, blocks, env).ok
      requires Checking(m, slots, to, cnt, blocks, env, held, dquots)
      modifies `dquots
      ensures Checking(m, slots, to, cnt + 1, blocks, env, held', dquots)
      ensures ok == CheckMoves(m, slots, to, cnt + 1, blocks, env).ok
    {
      if to[cnt].Some? && slots[cnt].Some? {
        CheckMoveStep(m, slots, to, cnt, held, blocks, env, dquots);
        held' := held[2 * cnt + 1 := slots[cnt]];
        ok := DupAndCheckBoth(slots[cnt].value, to[cnt].value, blocks, env);
      } else {
        CheckMoveSkip(m, slots, to, cnt, held, blocks, env, dquots);
        held', ok := held, true;
      }
    }

    /** dquot_decr_inodes. */
    method DecrInodes(d: nat)
      requires d in dquots
      modifies `dquots
      ensures dquots == old(dquots)[d := WithoutInode(old(dquots)[d])]
    {
      var q := dquots[d];
      if q.curinodes > 1 {
        q := q.(curinodes := q.curinodes - 1);
      } else {
        q := q.(curinodes := 0);
      }
      if q.curinodes < q.isoft {
        q := q.(itime := 0);
      }
      dquots := dquots[d := q];
    }

    /** The four counters of one move (lines 1191-1195). */
    method MoveUse(f: nat, t: nat, blocks: nat)
      requires f in dquots && t in dquots
      modifies `dquots
      ensures dquots == MovedUse(old(dquots), f, t, blocks)
    {
      ghost var m := dquots;
      DecrInodes(f);
      DecrBlocks(f, blocks);
      assert dquots == m[f := LeaveUse(m[f], blocks)];
      ghost var left := dquots;
      dquots := dquots[t := dquots[t].(curinodes := dquots[t].curinodes + 1)];
      dquots := dquots[t := dquots[t].(curblocks := dquots[t].curblocks + blocks)];
      assert dquots == left[t := JoinUse(left[t], blocks)];
    }

    /** One turn of the loop that moves (lines 1184-1205). */
    method MoveOne(i: nat, to: seq<Option<nat>>, cnt: nat, held: seq<Option<nat>>, blocks: nat, ghost p: Quotas)
      returns (held': seq<Option<nat>>)
      requires Transferable(p, i, to) && cnt < MAXQUOTAS && blocks == p.inodes[i].blocks / 2
      requires Moving(p, i, to, cnt, held, Abs())
      modifies this
      ensures Moving(p, i, to, cnt + 1, held', Abs())
    {
      held' := held;
      MovingMore(p, i, to, cnt, held);
      if held[2 * cnt].Some? && held[2 * cnt + 1].Some? {
        var f, t := held[2 * cnt + 1].value, held[2 * cnt].value;
        MoveStep(p, i, to, cnt, held, Abs());
        MoveUse(f, t, blocks);
        inodes := inodes[i := inodes[i].(dquot := inodes[i].dquot[cnt := Some(t)])];
        held' := held[2 * cnt := Some(f)];
      }
    }

    /** The body of dquot_transfer, from the targets on. */
    method CheckAndMove(i: nat, to: seq<Option<nat>>, env: Env) returns (ok: bool)
      requires Shape(Abs()) && Targets(Abs(), to) && i < |inodes| && Referenced(Abs(), i)
      modifies this
      ensures (Abs(), ok) == Transfer(old(Abs()), i, to, env)
    {
      ghost var q := Abs();
      var slots, blocks := inodes[i].dquot, inodes[i].blocks / 2;
      SlotsKnown(q, i);
      TargetsKnown(q, to);
      var held := GetTargets(to);
      ok := true;
      var cnt: nat := 0;
      while cnt < MAXQUOTAS && ok
        invariant cnt <= MAXQUOTAS && ok == CheckMoves(q.dquots, slots, to, cnt, blocks, env).ok
        invariant Checking(q.dquots, slots, to, cnt, blocks, env, held, dquots)
        modifies `dquots
        decreases MAXQUOTAS - cnt
      {
        ok, held := CheckMove(slots, to, cnt, held, blocks, env, q.dquots);
        cnt := cnt + 1;
      }
      ghost var c := CheckMoves(q.dquots, slots, to, cnt, blocks, env).dquots;
      CheckMovesUses(q.dquots, slots, to, cnt, blocks, env);
      if !ok {
        MovesStop(q.dquots, slots, to, cnt, MAXQUOTAS, blocks, env);
        HeldNamed(c, slots, to, held);
        PutAll(held, c);
        return;
      }
      MoveAndPut(i, to, held, blocks, q.(dquots := c));
    }

    /** dquot_transfer; `to` are the dquots dqget finds for the new owner. */
    method DquotTransfer(i: nat, to: seq<Option<nat>>, env: Env) returns (ok: bool)
      requires Shape(Abs()) && Targets(Abs(), to) && i < |inodes| && Referenced(Abs(), i)
      modifies this
      ensures (Abs(), ok) == Transfer(old(Abs()), i, to, env) && Transfers(old(Abs()), i, to, env, Abs(), ok)
    {
      TransferExactly(Abs(), i, to, env);
      ok := CheckAndMove(i, to, env);
    }

    /** The loop that moves. */
    method MoveSlots(i: nat, to: seq<Option<nat>>, held0: seq<Option<nat>>, blocks: nat, ghost p: Quotas)
      returns (held: seq<Option<nat>>)
      requires Moving(p, i, to, 0, held0, Abs()) && blocks == p.inodes[i].blocks / 2
      modifies this
      ensures Moving(p, i, to, MAXQUOTAS, held, Abs())
    {
      held := held0;
      var cnt: nat := 0;
      while cnt < MAXQUOTAS
        invariant cnt <= MAXQUOTAS && Moving(p, i, to, cnt, held, Abs())
      {
        held := MoveOne(i, to, cnt, held, blocks, p);
        cnt := cnt + 1;
      }
    }

    /** The end of dquot_transfer, when all limits allow it. */
    method MoveAndPut(i: nat, to: seq<Option<nat>>, held0: seq<Option<nat>>, blocks: nat, ghost p: Quotas)
      requires Transferable(p, i, to) && inodes == p.inodes
      requires blocks == p.inodes[i].blocks / 2 && HeldUpTo(p.inodes[i].dquot, to, MAXQUOTAS, held0)
      requires Holding(p.dquots, held0, 0, dquots)
      modifies this
      ensures Abs() == MoveAll(p, i, to, MAXQUOTAS)
    {
      var held := MoveSlots(i, to, held0, blocks, p);
      MovingNamed(p, i, to, held);
      PutAll(held, MoveAll(p, i, to, MAXQUOTAS).dquots);
    }
  }

  /** References are held as noted in the first `k` slots. */
  predicate Taken(m: map<nat, Dquot>, held: seq<Option<nat>>, k: nat, now: map<nat, Dquot>) {
    Known(m, held) && Holding(m, held, 0, now) && forall j :: k <= j < MAXQUOTAS ==> held[j].None?
  }

  lemma TakenMore(m: map<nat, Dquot>, held: seq<Option<nat>>, k: nat, now: map<nat, Dquot>, d: nat, e: Dquot,
                  m': map<nat, Dquot>, now': map<nat, Dquot>)
    requires Taken(m, held, k, now) && k < MAXQUOTAS && d in m && e.count == m[d].count
    requires m' == m[d := e] && now' == now[d := e.(count := now[d].count + 1)]
    ensures Taken(m', held[k := Some(d)], k + 1, now')
  {
    HoldMore(m, held, k, now, d, e);
  }

  /** The checks do not look at the references. */
  lemma CountUnseen(a: Dquot, b: Dquot, d: nat, n: nat, prealloc: bool, env: Env)
    requires b == a.(count := b.count)
    ensures var v := CheckBlocks(a, d, n, prealloc, env);
            && v.dquot.count == a.count
            && CheckBlocks(b.(count := b.count + 1), d, n, prealloc, env)
                 == Verdict(v.ok, v.dquot.(count := b.count + 1))
  {
  }

  /** The first `k` slots are checked with this result, and the references taken on the way are held. */
  predicate Taking(m: map<nat, Dquot>, slots: seq<Option<nat>>, k: nat, n: nat, prealloc: bool, env: Env, ok: bool,
                   held: seq<Option<nat>>, now: map<nat, Dquot>)
    requires k <= |slots|
  {
    var c := CheckAll(m, slots, k, n, prealloc, env);
    ok == c.ok && Taken(c.dquots, held, k, now)
  }

  lemma CheckAllNext(m: map<nat, Dquot>, slots: seq<Option<nat>>, k: nat, n: nat, prealloc: bool, env: Env)
    requires Known(m, slots) && k < MAXQUOTAS && slots[k].Some? && CheckAll(m, slots, k, n, prealloc, env).ok
    ensures var d, c := slots[k].value, CheckAll(m, slots, k, n, prealloc, env);
            && d in c.dquots
            && var v := CheckBlocks(c.dquots[d], d, n, prealloc, env);
               CheckAll(m, slots, k + 1, n, prealloc, env) == Checked(v.ok, c.dquots[d := v.dquot])
  {
    CheckAllUses(m, slots, k, n, prealloc, env);
  }

  lemma KnownNow(m: map<nat, Dquot>, slots: seq<Option<nat>>, k: nat, held: seq<Option<nat>>, n: nat, prealloc: bool,
                 env: Env, now: map<nat, Dquot>)
    requires Known(m, slots) && k < MAXQUOTAS && slots[k].Some?
    requires Taking(m, slots, k, n, prealloc, env, true, held, now)
    ensures slots[k].value in now
  {
    CheckAllUses(m, slots, k, n, prealloc, env);
  }

  lemma TakeStep(m: map<nat, Dquot>, slots: seq<Option<nat>>, k: nat, held: seq<Option<nat>>, n: nat, prealloc: bool,
                 env: Env, now: map<nat, Dquot>, ok: bool, now': map<nat, Dquot>)
    requires Known(m, slots) && k < MAXQUOTAS && slots[k].Some? && slots[k].value in now
    requires Taking(m, slots, k, n, prealloc, env, true, held, now)
    requires var d := slots[k].value;
             var v := CheckBlocks(now[d].(count := now[d].count + 1), d, n, prealloc, env);
             ok == v.ok && now' == now[d := v.dquot]
    ensures Taking(m, slots, k + 1, n, prealloc, env, ok, held[k := slots[k]], now')
  {
    CheckAllNext(m, slots, k, n, prealloc, env);
    var d, before := slots[k].value, CheckAll(m, slots, k, n, prealloc, env).dquots;
    CountUnseen(before[d], now[d], d, n, prealloc, env);
    TakenMore(before, held, k, now, d, CheckBlocks(before[d], d, n, prealloc, env).dquot,
              CheckAll(m, slots, k + 1, n, prealloc, env).dquots, now');
  }

  lemma TakeSkip(m: map<nat, Dquot>, slots: seq<Option<nat>>, k: nat, held: seq<Option<nat>>, n: nat, prealloc: bool,
                 env: Env, now: map<nat, Dquot>)
    requires k < |slots| == MAXQUOTAS && slots[k].None? && Taking(m, slots, k, n, prealloc, env, true, held, now)
    ensures Taking(m, slots, k + 1, n, prealloc, env, true, held, now)
  {
    assert CheckAll(m, slots, k + 1, n, prealloc, env) == CheckAll(m, slots, k, n, prealloc, env);
  }

  /** Once refused, the verdict stands. */
  lemma {:induction false} CheckStops(m: map<nat, Dquot>, slots: seq<Option<nat>>, j: nat, k: nat, n: nat,
                                      prealloc: bool, env: Env)
    requires j <= k <= |slots| && !CheckAll(m, slots, j, n, prealloc, env).ok
    ensures CheckAll(m, slots, k, n, prealloc, env) == CheckAll(m, slots, j, n, prealloc, env)
    decreases k
  {
    if j < k { CheckStops(m, slots, j, k - 1, n, prealloc, env); }
  }

  lemma SlotsKnown(q: Quotas, i: nat)
    requires Shape(q) && i < |q.inodes|
    ensures Known(q.dquots, q.inodes[i].dquot)
  {
    forall k | 0 <= k < MAXQUOTAS && q.inodes[i].dquot[k].Some? ensures q.inodes[i].dquot[k].value in q.dquots {
      assert FitsSlot(q, q.inodes[i].dquot[k], k);
    }
  }

  /** Charging and holding references do not meet. */
  lemma ChargedHolding(m: map<nat, Dquot>, slots: seq<Option<nat>>, n: nat, held: seq<Option<nat>>,
                       now: map<nat, Dquot>)
    requires |slots| == MAXQUOTAS && Holding(m, held, 0, now)
    ensures Holding(ChargeAll(m, slots, MAXQUOTAS, n), held, 0, ChargeAll(now, slots, MAXQUOTAS, n))
  {
    var m', now' := ChargeAll(m, slots, MAXQUOTAS, n), ChargeAll(now, slots, MAXQUOTAS, n);
    forall d | d in m' ensures Owes(m'[d], now'[d], Tally(held, |held|, d, 1) - Tally(held, 0, d, 1)) {
      assert Owes(m[d], now[d], Tally(held, |held|, d, 1) - Tally(held, 0, d, 1));
    }
  }

  function DrainedBy(m: map<nat, Dquot>, s: Option<nat>, n: nat): map<nat, Dquot>
    requires s.Some? ==> s.value in m
  {
    if s.None? then m else m[s.value := DrainOne(m[s.value], Lowered(m[s.value].curblocks, n), true)]
  }

  lemma DrainMore(m: map<nat, Dquot>, slots: seq<Option<nat>>, k: nat, n: nat)
    requires k < |slots| && (slots[k].Some? ==> slots[k].value in m)
    ensures DrainAll(m, slots, k + 1, n) == DrainedBy(DrainAll(m, slots, k, n), slots[k], n)
  {
    var before, r := DrainAll(m, slots, k, n), DrainAll(m, slots, k + 1, n);
    forall x | x in m ensures r[x] == DrainedBy(before, slots[k], n)[x] {
    }
  }

  lemma ChargeMore(m: map<nat, Dquot>, slots: seq<Option<nat>>, k: nat, n: nat)
    requires k < |slots| && (slots[k].Some? ==> slots[k].value in m)
    ensures var before := ChargeAll(m, slots, k, n);
            ChargeAll(m, slots, k + 1, n) == if slots[k].None? then before
              else before[slots[k].value := before[slots[k].value].(curblocks := before[slots[k].value].curblocks + n)]
  {
    var r := ChargeAll(m, slots, k + 1, n);
    forall x | x in m
      ensures r[x].curblocks == m[x].curblocks + Tally(slots, k, x, n) + if slots[k] == Some(x) then n else 0 {
    }
  }

  // ---- the references of dquot_transfer

  lemma HoldNoneOf(m: map<nat, Dquot>, held: seq<Option<nat>>)
    requires forall k :: 0 <= k < |held| ==> held[k].None?
    ensures Holding(m, held, 0, m)
  {
    forall d | d in m ensures Owes(m[d], m[d], Tally(held, |held|, d, 1) - Tally(held, 0, d, 1)) {
      TallyNone(held, |held|, d);
    }
  }

  lemma {:induction false} TallyNone(held: seq<Option<nat>>, k: nat, d: nat)
    requires k <= |held| && forall j :: 0 <= j < k ==> held[j].None?
    ensures Tally(held, k, d, 1) == 0
    decreases k
  {
    if k > 0 { TallyNone(held, k - 1, d); }
  }

  lemma HoldDup(m: map<nat, Dquot>, held: seq<Option<nat>>, k: nat, now: map<nat, Dquot>, d: nat)
    requires Holding(m, held, 0, now) && k < |held| && held[k].None? && d in m
    ensures Holding(m, held[k := Some(d)], 0, now[d := now[d].(count := now[d].count + 1)])
  {
    HoldMore(m, held, k, now, d, m[d]);
    assert m[d := m[d]] == m;
    assert Owes(m[d], now[d], Tally(held, |held|, d, 1) - Tally(held, 0, d, 1));
  }

  /** transfer_from of slot `j` once it has been looked at. */
  function FromAt(slots: seq<Option<nat>>, to: seq<Option<nat>>, j: nat, seen: bool): Option<nat>
    requires j < |slots| && j < |to|
  {
    if seen && Moves(slots, to, j) then slots[j] else None
  }

  /** After the first `cnt` checks: what is held. */
  predicate HeldUpTo(slots: seq<Option<nat>>, to: seq<Option<nat>>, cnt: nat, held: seq<Option<nat>>) {
    && |slots| == |to| == MAXQUOTAS
    && held == [to[0], FromAt(slots, to, 0, cnt > 0), to[1], FromAt(slots, to, 1, cnt > 1)]
  }

  lemma HeldMore(slots: seq<Option<nat>>, to: seq<Option<nat>>, k: nat, held: seq<Option<nat>>)
    requires HeldUpTo(slots, to, k, held) && k < MAXQUOTAS && Moves(slots, to, k)
    ensures HeldUpTo(slots, to, k + 1, held[2 * k + 1 := slots[k]]) && held[2 * k + 1].None?
  {
    if k == 0 {
      assert held[1 := slots[0]] == [to[0], slots[0], to[1], None];
    } else {
      assert held[3 := slots[1]] == [to[0], held[1], to[1], slots[1]];
    }
  }

  lemma HoldVerdict(m: map<nat, Dquot>, held: seq<Option<nat>>, now: map<nat, Dquot>, t: nat, e: Dquot)
    requires Holding(m, held, 0, now) && t in m && e.count == m[t].count
    ensures Holding(m[t := e], held, 0, now[t := e.(count := now[t].count)])
  {
    var m', now' := m[t := e], now[t := e.(count := now[t].count)];
    forall x | x in m' ensures Owes(m'[x], now'[x], Tally(held, |held|, x, 1) - Tally(held, 0, x, 1)) {
      assert Owes(m[x], now[x], Tally(held, |held|, x, 1) - Tally(held, 0, x, 1));
    }
  }

  lemma BothUnseen(a: Dquot, b: Dquot, d: nat, blocks: nat, env: Env)
    requires b == a.(count := b.count)
    ensures var v := CheckBoth(a, d, blocks, env);
            && v.dquot.count == a.count
            && CheckBoth(b, d, blocks, env) == Verdict(v.ok, v.dquot.(count := b.count))
  {
  }

  /** The verdict on `t`, with references held, is that of the specification. */
  lemma VerdictHeld(m: map<nat, Dquot>, held: seq<Option<nat>>, now: map<nat, Dquot>, t: nat, blocks: nat, env: Env)
    requires Holding(m, held, 0, now) && t in m
    ensures var v, w := CheckBoth(now[t], t, blocks, env), CheckBoth(m[t], t, blocks, env);
            v.ok == w.ok && Holding(m[t := w.dquot], held, 0, now[t := v.dquot])
  {
    assert Owes(m[t], now[t], Tally(held, |held|, t, 1) - Tally(held, 0, t, 1));
    BothUnseen(m[t], now[t], t, blocks, env);
    HoldVerdict(m, held, now, t, CheckBoth(m[t], t, blocks, env).dquot);
  }

  /** The check loop of dquot_transfer after `k` slots. */
  predicate Checking(m: map<nat, Dquot>, slots: seq<Option<nat>>, to: seq<Option<nat>>, k: nat, blocks: nat, env: Env,
                     held: seq<Option<nat>>, now: map<nat, Dquot>)
  {
    && HeldUpTo(slots, to, k, held) && k <= MAXQUOTAS
    && Holding(CheckMoves(m, slots, to, k, blocks, env).dquots, held, 0, now)
  }

  lemma CheckMoveStep(m: map<nat, Dquot>, slots: seq<Option<nat>>, to: seq<Option<nat>>, k: nat, held: seq<Option<nat>>,
                      blocks: nat, env: Env, now: map<nat, Dquot>)
    requires Known(m, slots) && Known(m, to) && k < MAXQUOTAS && CheckMoves(m, slots, to, k, blocks, env).ok
    requires Checking(m, slots, to, k, blocks, env, held, now) && Moves(slots, to, k)
    ensures slots[k].value in now && to[k].value in now
    ensures var f, t := slots[k].value, to[k].value;
            var dup := now[f := now[f].(count := now[f].count + 1)];
            var v := CheckBoth(dup[t], t, blocks, env);
            && v.ok == CheckMoves(m, slots, to, k + 1, blocks, env).ok
            && Checking(m, slots, to, k + 1, blocks, env, held[2 * k + 1 := slots[k]], dup[t := v.dquot])
  {
    CheckMovesUses(m, slots, to, k, blocks, env);
    HeldMore(slots, to, k, held);
    var f, t, before := slots[k].value, to[k].value, CheckMoves(m, slots, to, k, blocks, env).dquots;
    HoldDup(before, held, 2 * k + 1, now, f);
    VerdictHeld(before, held[2 * k + 1 := slots[k]], now[f := now[f].(count := now[f].count + 1)], t, blocks, env);
  }

  lemma CheckMoveSkip(m: map<nat, Dquot>, slots: seq<Option<nat>>, to: seq<Option<nat>>, k: nat, held: seq<Option<nat>>,
                      blocks: nat, env: Env, now: map<nat, Dquot>)
    requires Checking(m, slots, to, k, blocks, env, held, now) && k < MAXQUOTAS && !Moves(slots, to, k)
    ensures Checking(m, slots, to, k + 1, blocks, env, held, now)
    ensures CheckMoves(m, slots, to, k + 1, blocks, env) == CheckMoves(m, slots, to, k, blocks, env)
  {
    assert FromAt(slots, to, k, true) == None;
  }

  lemma {:induction false} MovesStop(m: map<nat, Dquot>, slots: seq<Option<nat>>, to: seq<Option<nat>>, j: nat, k: nat,
                                     blocks: nat, env: Env)
    requires j <= k <= |slots| && k <= |to| && !CheckMoves(m, slots, to, j, blocks, env).ok
    ensures CheckMoves(m, slots, to, k, blocks, env) == CheckMoves(m, slots, to, j, blocks, env)
    decreases k
  {
    if j < k { MovesStop(m, slots, to, j, k - 1, blocks, env); }
  }

  lemma HeldNamed(m: map<nat, Dquot>, slots: seq<Option<nat>>, to: seq<Option<nat>>, held: seq<Option<nat>>)
    requires Known(m, slots) && Known(m, to)
    requires exists cnt: nat :: HeldUpTo(slots, to, cnt, held)
    ensures Named(m, held)
  {
    var cnt: nat :| HeldUpTo(slots, to, cnt, held);
    assert forall k :: 0 <= k < |held| && held[k].Some? ==> held[k] in [to[0], slots[0], to[1], slots[1]];
  }

  lemma TargetsKnown(q: Quotas, to: seq<Option<nat>>)
    requires Targets(q, to)
    ensures Known(q.dquots, to)
  {
    forall k | 0 <= k < MAXQUOTAS && to[k].Some? ensures to[k].value in q.dquots { assert FitsSlot(q, to[k], k); }
  }

  // ---- the counters of one move

  function WithoutInode(d: Dquot): Dquot {
    var ci := Lowered(d.curinodes, 1);
    d.(curinodes := ci, itime := if ci < d.isoft then 0 else d.itime)
  }

  function LeaveUse(d: Dquot, blocks: nat): Dquot {
    Leave(d, blocks).(count := d.count)
  }

  function JoinUse(d: Dquot, blocks: nat): Dquot {
    Join(d, blocks).(count := d.count)
  }

  function MovedUse(m: map<nat, Dquot>, f: nat, t: nat, blocks: nat): map<nat, Dquot>
    requires f in m && t in m
  {
    var left := m[f := LeaveUse(m[f], blocks)];
    left[t := JoinUse(left[t], blocks)]
  }

  /** Every dquot of inode `i` has a reference, that of the inode. */
  predicate Referenced(q: Quotas, i: nat)
    requires i < |q.inodes|
  {
    forall k :: 0 <= k < |q.inodes[i].dquot| && q.inodes[i].dquot[k].Some? && q.inodes[i].dquot[k].value in q.dquots ==>
      q.dquots[q.inodes[i].dquot[k].value].count >= 1
  }

  /** transfer_to of slot `j`: after the move it is the old dquot. */
  function ToAt(slots: seq<Option<nat>>, to: seq<Option<nat>>, j: nat, moved: bool): Option<nat>
    requires j < |slots| && j < |to|
  {
    if moved && Moves(slots, to, j) then slots[j] else to[j]
  }

  /** After `cnt` moves: the slots moved hold the old dquot twice. */
  predicate MovingAt(p: Quotas, i: nat, to: seq<Option<nat>>, cnt: nat, held: seq<Option<nat>>) {
    && i < |p.inodes| && |p.inodes[i].dquot| == |to| == MAXQUOTAS
    && var slots := p.inodes[i].dquot;
       held == [ToAt(slots, to, 0, cnt > 0), FromAt(slots, to, 0, true),
                ToAt(slots, to, 1, cnt > 1), FromAt(slots, to, 1, true)]
  }

  lemma MovingMore(p: Quotas, i: nat, to: seq<Option<nat>>, k: nat, held: seq<Option<nat>>)
    requires MovingAt(p, i, to, k, held) && k < MAXQUOTAS
    ensures |held| == 4 && (held[2 * k].Some? && held[2 * k + 1].Some? <==> Moves(p.inodes[i].dquot, to, k))
    ensures if Moves(p.inodes[i].dquot, to, k)
            then held[2 * k] == to[k] && held[2 * k + 1] == p.inodes[i].dquot[k] &&
                 MovingAt(p, i, to, k + 1, held[2 * k := p.inodes[i].dquot[k]])
            else MovingAt(p, i, to, k + 1, held)
  {
    var slots := p.inodes[i].dquot;
    if k == 0 {
      assert held[0 := slots[0]] == [slots[0], held[1], held[2], held[3]];
    } else {
      assert held[2 := slots[1]] == [held[0], held[1], slots[1], held[3]];
    }
  }

  /** The reference to `t` passes to the inode, and that of the inode to `f` is now one to drop. */
  lemma HoldMoved(m: map<nat, Dquot>, held: seq<Option<nat>>, a: nat, f: nat, t: nat, blocks: nat, now: map<nat, Dquot>)
    requires Holding(m, held, 0, now) && a < |held| && held[a] == Some(t) && f in m && t in m && m[f].count >= 1
    ensures Holding(MoveDquots(m, f, t, blocks), held[a := Some(f)], 0, MovedUse(now, f, t, blocks))
  {
    var m', held', now' := MoveDquots(m, f, t, blocks), held[a := Some(f)], MovedUse(now, f, t, blocks);
    assert Owes(m[f], now[f], Tally(held, |held|, f, 1) - Tally(held, 0, f, 1));
    assert Owes(m[t], now[t], Tally(held, |held|, t, 1) - Tally(held, 0, t, 1));
    forall x | x in m' ensures Owes(m'[x], now'[x], Tally(held', |held'|, x, 1) - Tally(held', 0, x, 1)) {
      TallyUpdate(held, |held|, a, f, x, 1);
      assert Owes(m[x], now[x], Tally(held, |held|, x, 1) - Tally(held, 0, x, 1));
    }
  }

  predicate Transferable(p: Quotas, i: nat, to: seq<Option<nat>>) {
    Shape(p) && Targets(p, to) && i < |p.inodes| && Referenced(p, i)
  }

  /** The loop that moves after `k` slots, with what is held. */
  ghost predicate Moving(p: Quotas, i: nat, to: seq<Option<nat>>, k: nat, held: seq<Option<nat>>, now: Quotas) {
    && Transferable(p, i, to) && k <= MAXQUOTAS && MovingAt(p, i, to, k, held)
    && now.inodes == MoveAll(p, i, to, k).inodes && Holding(MoveAll(p, i, to, k).dquots, held, 0, now.dquots)
  }

  lemma MoveStep(p: Quotas, i: nat, to: seq<Option<nat>>, k: nat, held: seq<Option<nat>>, now: Quotas)
    requires Moving(p, i, to, k, held, now) && k < MAXQUOTAS && Moves(p.inodes[i].dquot, to, k)
    ensures var f, t := p.inodes[i].dquot[k].value, to[k].value;
            && f in now.dquots && t in now.dquots && i < |now.inodes| && k < |now.inodes[i].dquot|
            && Moving(p, i, to, k + 1, held[2 * k := Some(f)],
                      Quotas(MovedUse(now.dquots, f, t, p.inodes[i].blocks / 2),
                             now.inodes[i := now.inodes[i].(dquot := now.inodes[i].dquot[k := Some(t)])]))
  {
    MovingMore(p, i, to, k, held);
    assert FitsSlot(p, p.inodes[i].dquot[k], k) && FitsSlot(p, to[k], k);
    HoldMoved(MoveAll(p, i, to, k).dquots, held, 2 * k, p.inodes[i].dquot[k].value, to[k].value,
              p.inodes[i].blocks / 2, now.dquots);
  }

  lemma MovingNamed(p: Quotas, i: nat, to: seq<Option<nat>>, held: seq<Option<nat>>)
    requires Shape(p) && Targets(p, to) && i < |p.inodes| && MovingAt(p, i, to, MAXQUOTAS, held)
    ensures Named(MoveAll(p, i, to, MAXQUOTAS).dquots, held)
  {
    var slots := p.inodes[i].dquot;
    assert FitsSlot(p, slots[0], 0) && FitsSlot(p, slots[1], 1) && FitsSlot(p, to[0], 0) && FitsSlot(p, to[1], 1);
    assert forall k :: 0 <= k < |held| && held[k].Some? ==> held[k] in [to[0], slots[0], to[1], slots[1]];
  }
}
