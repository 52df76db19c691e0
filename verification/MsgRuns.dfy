/** What every run of the message queues keeps (ipc/msg.c:281-301, 600-707, 754-849). */
module MsgRuns {
  import opened Sums
  import opened MsgQueues
  import opened Options
  import opened Lists

  // ---- where a message can be

  function MsgSize(m: Msg): int {
    m.size
  }

  /** 1 for the message `id`, 0 for any other. */
  function MsgIs(id: nat): Msg -> int {
    (m: Msg) => if m.id == id then 1 else 0
  }

  function QueueHas(id: nat): Option<Queue> -> int {
    (o: Option<Queue>) => match o case None => 0 case Some(q) => Total(q.messages, MsgIs(id))
  }

  function SlotHas(id: nat): Sleeper -> int {
    (s: Sleeper) => if s.rmsg.Holds? && s.rmsg.msg.id == id then 1 else 0
  }

  function HeldHas(id: nat): Option<Sender> -> int {
    (o: Option<Sender>) => match o case None => 0 case Some(s) => if s.msg.id == id then 1 else 0
  }

  /** In how many places message `id` is: on a queue, handed to a receiver, with a sleeping
      sender, or freed. */
  function Places(st: State, id: nat): int {
    Total(st.queues, QueueHas(id)) + Total(st.slots, SlotHas(id)) + Total(st.held, HeldHas(id)) + st.freed[id]
  }

  function QueueNum(o: Option<Queue>): int {
    match o case None => 0 case Some(q) => |q.messages|
  }

  function QueueBytes(o: Option<Queue>): int {
    match o case None => 0 case Some(q) => Total(q.messages, MsgSize)
  }

  // ---- the invariant

  predicate MsgOk(m: Msg) {
    m.mtype >= 1 && m.size <= MSGMAX
  }

  predicate QueueOk(q: Queue) {
    && q.qnum == |q.messages| && q.cbytes == Total(q.messages, MsgSize)
    && q.cbytes <= q.qbytes && q.qnum <= q.qbytes
    && (forall i :: 0 <= i < |q.messages| ==> MsgOk(q.messages[i]))
    && (forall i, j :: 0 <= i < |q.receivers| && 0 <= j < |q.messages| ==> !Matches(q.receivers[i], q.messages[j]))
  }

  /** Receiver `r` is listed with what the call wants. */
  predicate Serves(r: Receiver, c: RecvCall) {
    r.mode == c.mode && r.mtype == c.mtype && r.maxsize == MaxSize(c)
  }

  /** The receivers listed by queue `k` are asleep on it, each listed once and with what it wants. */
  predicate Listed(rs: seq<Receiver>, slots: seq<Sleeper>, k: nat) {
    && (forall i :: 0 <= i < |rs| ==> rs[i].handle < |slots| && slots[rs[i].handle].rmsg == Empty &&
                                      slots[rs[i].handle].queue == k && Serves(rs[i], slots[rs[i].handle].call))
    && (forall i, j :: 0 <= i < j < |rs| ==> rs[i].handle != rs[j].handle)
  }

  predicate On(rs: seq<Receiver>, h: nat) {
    exists i :: 0 <= i < |rs| && rs[i].handle == h
  }

  predicate Waits(st: State, h: nat)
    requires h < |st.slots|
  {
    Live(st, st.slots[h].queue) && On(st.queues[st.slots[h].queue].value.receivers, h)
  }

  /** A sleeper was handed a message only if its call asks for it and admits its size, and was told that one
      is too big only if it has not said that it may be cut. */
  predicate Answered(slots: seq<Sleeper>) {
    forall h :: 0 <= h < |slots| ==>
      && Converted(slots[h].call) && (slots[h].rmsg == TooBig ==> !slots[h].call.noerror)
      && (slots[h].rmsg.Holds? ==> MsgOk(slots[h].rmsg.msg) && Admits(slots[h].call, slots[h].rmsg.msg))
  }

  predicate Structure(st: State) {
    && (forall k :: 0 <= k < |st.queues| && st.queues[k].Some? ==>
          QueueOk(st.queues[k].value) && Listed(st.queues[k].value.receivers, st.slots, k))
    && (forall h :: 0 <= h < |st.slots| && st.slots[h].rmsg == Empty ==> Waits(st, h))
    && (forall h :: 0 <= h < |st.held| && st.held[h].Some? ==> MsgOk(st.held[h].value.msg))
    && Answered(st.slots)
  }

  predicate Counted(st: State) {
    st.hdrs == Total(st.queues, QueueNum) && st.bytes == Total(st.queues, QueueBytes)
  }

  /** Every id loaded so far is in exactly one place, once. */
  ghost predicate Accounted(st: State) {
    forall id: nat :: Places(st, id) == if id < st.next then 1 else 0
  }

  ghost predicate Inv(st: State) {
    Structure(st) && Counted(st) && Accounted(st)
  }

  lemma StructureHandles(st: State)
    requires Structure(st)
    ensures Handles(st)
    ensures forall h :: 0 <= h < |st.slots| ==> !Stranded(st, h)
  {
    forall h | 0 <= h < |st.slots| ensures !Stranded(st, h) {
      assert st.slots[h].rmsg == Empty ==> Waits(st, h);
    }
  }

  // ---- pipelined_send

  /** The slots after pipelined_send: a receiver taken off the list was told something, the others
      nothing, and the rest of each sleeper is as before. */
  predicate Told(rs: seq<Receiver>, slots: seq<Sleeper>, rs': seq<Receiver>, slots': seq<Sleeper>) {
    && |slots'| == |slots|
    && (forall h :: 0 <= h < |slots| ==> slots'[h].queue == slots[h].queue && slots'[h].call == slots[h].call)
    && (forall h :: 0 <= h < |slots| && (!On(rs, h) || On(rs', h)) ==> slots'[h] == slots[h])
    && (forall h :: 0 <= h < |slots| && On(rs, h) && !On(rs', h) ==> slots'[h].rmsg != Empty)
  }

  lemma DropListed(rs: seq<Receiver>, slots: seq<Sleeper>, k: nat, i: nat, r: Slot)
    requires Listed(rs, slots, k) && i < |rs|
    ensures Listed(Drop(rs, i), Put(slots, rs[i].handle, r), k)
    ensures forall h :: On(Drop(rs, i), h) <==> On(rs, h) && h != rs[i].handle
    ensures forall j :: 0 <= j < |Drop(rs, i)| ==> Drop(rs, i)[j] in rs
  {
    var ds := Drop(rs, i);
    assert forall j :: 0 <= j < |ds| ==> ds[j] == rs[if j < i then j else j + 1];
    forall h | On(rs, h) && h != rs[i].handle ensures On(ds, h) {
      var j :| 0 <= j < |rs| && rs[j].handle == h;
      assert ds[if j < i then j else j - 1].handle == h;
    }
  }

  predicate Within(rs': seq<Receiver>, rs: seq<Receiver>) {
    forall j :: 0 <= j < |rs'| ==> rs'[j] in rs
  }

  lemma WithinOn(rs': seq<Receiver>, rs: seq<Receiver>, h: nat)
    requires Within(rs', rs) && On(rs', h)
    ensures On(rs, h)
  {
    var j :| 0 <= j < |rs'| && rs'[j].handle == h;
    assert rs'[j] in rs;
    var x :| 0 <= x < |rs| && rs[x] == rs'[j];
  }

  /** Taking receiver `i` off the list and telling it something. */
  lemma ToldFirst(rs: seq<Receiver>, slots: seq<Sleeper>, k: nat, i: nat, r: Slot)
    requires Listed(rs, slots, k) && i < |rs| && r != Empty
    ensures Told(rs, slots, Drop(rs, i), Put(slots, rs[i].handle, r))
  {
    DropListed(rs, slots, k, i, r);
    assert On(rs, rs[i].handle);
  }

  lemma ToldThen(rs: seq<Receiver>, slots: seq<Sleeper>, ds: seq<Receiver>, put: seq<Sleeper>,
                 rs': seq<Receiver>, slots': seq<Sleeper>)
    requires Told(rs, slots, ds, put) && Told(ds, put, rs', slots')
    requires Within(ds, rs) && Within(rs', ds)
    ensures Told(rs, slots, rs', slots') && Within(rs', rs)
  {
    forall h | 0 <= h < |slots| && (On(rs', h) || On(ds, h))
      ensures On(rs, h) && (On(rs', h) ==> On(ds, h))
    {
      if On(rs', h) { WithinOn(rs', ds, h); }
      WithinOn(ds, rs, h);
    }
    forall j | 0 <= j < |rs'| ensures rs'[j] in rs {
      var x :| 0 <= x < |ds| && ds[x] == rs'[j];
    }
  }

  lemma {:induction false} PipelineLists(rs: seq<Receiver>, slots: seq<Sleeper>, m: Msg, i: nat, k: nat)
    requires i <= |rs| && Listed(rs, slots, k)
    requires forall j :: 0 <= j < i ==> !Matches(rs[j], m)
    ensures var (rs', slots', handed) := Pipeline(rs, slots, m, i);
            && Listed(rs', slots', k) && Told(rs, slots, rs', slots') && Within(rs', rs)
            && (!handed ==> forall j :: 0 <= j < |rs'| ==> !Matches(rs'[j], m))
    decreases |rs| - i
  {
    if i < |rs| {
      if !Matches(rs[i], m) {
        PipelineLists(rs, slots, m, i + 1, k);
      } else {
        var r := if rs[i].maxsize < m.size then TooBig else Holds(m);
        DropListed(rs, slots, k, i, r);
        ToldFirst(rs, slots, k, i, r);
        if rs[i].maxsize < m.size {
          var ds, put := Drop(rs, i), Put(slots, rs[i].handle, r);
          PipelineLists(ds, put, m, i, k);
          var (rs', slots', handed) := Pipeline(ds, put, m, i);
          ToldThen(rs, slots, ds, put, rs', slots');
        }
      }
    }
  }

  lemma ListedDistinct(rs: seq<Receiver>, slots: seq<Sleeper>, k: nat)
    requires Listed(rs, slots, k)
    ensures DistinctHandles(rs, |slots|)
  {
  }

  /** What a listed receiver does with a message is what its call says. */
  lemma ServesMeans(r: Receiver, c: RecvCall, m: Msg)
    requires Serves(r, c) && Converted(c) && MsgOk(m)
    ensures Matches(r, m) <==> Asks(c.msgtyp, c.except, m.mtype)
    ensures Takes(r, m) <==> Admits(c, m)
  {
    ConvertMeans(c.msgtyp, c.except, m);
  }

  lemma PipelineAnswers(rs: seq<Receiver>, slots: seq<Sleeper>, m: Msg, k: nat)
    requires Listed(rs, slots, k) && Answered(slots) && MsgOk(m)
    ensures Answered(Pipeline(rs, slots, m, 0).1)
  {
    ListedDistinct(rs, slots, k);
    var t := PipelineExact(rs, slots, m, 0);
    var slots' := Pipeline(rs, slots, m, 0).1;
    forall h | 0 <= h < |slots'|
      ensures Converted(slots'[h].call) && (slots'[h].rmsg == TooBig ==> !slots'[h].call.noerror)
      ensures slots'[h].rmsg.Holds? ==> MsgOk(slots'[h].rmsg.msg) && Admits(slots'[h].call, slots'[h].rmsg.msg)
    {
      assert slots'[h] == SlotAfter(rs, m, t, h, slots[h]);
      if t < |rs| && rs[t].handle == h {
        ServesMeans(rs[t], slots[h].call, m);
      } else if Refused(rs, m, t, h) {
        var i :| 0 <= i < t && rs[i].handle == h && TestMsg(m, rs[i].mtype, rs[i].mode);
        assert !Takes(rs[i], m);
      }
    }
  }

  lemma {:induction false} PipelinePlaces(rs: seq<Receiver>, slots: seq<Sleeper>, m: Msg, i: nat, k: nat, id: nat)
    requires i <= |rs| && Listed(rs, slots, k)
    ensures var (rs', slots', handed) := Pipeline(rs, slots, m, i);
            Total(slots', SlotHas(id)) == Total(slots, SlotHas(id)) + if handed && m.id == id then 1 else 0
    decreases |rs| - i
  {
    if i < |rs| {
      if !Matches(rs[i], m) {
        PipelinePlaces(rs, slots, m, i + 1, k, id);
      } else {
        var r := if rs[i].maxsize < m.size then TooBig else Holds(m);
        var h := rs[i].handle;
        TotalUpdate(slots, h, slots[h].(rmsg := r), SlotHas(id));
        if rs[i].maxsize < m.size {
          DropListed(rs, slots, k, i, r);
          PipelinePlaces(Drop(rs, i), Put(slots, h, r), m, i, k, id);
        }
      }
    }
  }

  // ---- changing one queue and the slots of its receivers

  /** Queue `k` becomes `o`, and only its own receivers' slots change. */
  lemma OneQueueChanged(st: State, t: State, k: nat, o: Option<Queue>)
    requires Structure(st) && Live(st, k)
    requires t.queues == st.queues[k := o] && t.held == st.held && Answered(t.slots)
    requires var rs' := if o.Some? then o.value.receivers else [];
             Told(st.queues[k].value.receivers, st.slots, rs', t.slots) &&
             (o.Some? ==> QueueOk(o.value) && Listed(rs', t.slots, k))
    ensures Structure(t)
  {
    var rs := st.queues[k].value.receivers;
    var rs' := if o.Some? then o.value.receivers else [];
    forall n | 0 <= n < |t.queues| && t.queues[n].Some?
      ensures QueueOk(t.queues[n].value) && Listed(t.queues[n].value.receivers, t.slots, n)
    {
      if n != k {
        var ns := st.queues[n].value.receivers;
        forall i | 0 <= i < |ns| ensures t.slots[ns[i].handle] == st.slots[ns[i].handle] {
          OtherList(st, k, n, i);
        }
      }
    }
    forall h | 0 <= h < |t.slots| && t.slots[h].rmsg == Empty ensures Waits(t, h) {
      assert !On(rs, h) || On(rs', h);
      assert Waits(st, h);
      if st.slots[h].queue == k { assert On(rs, h); }
    }
  }

  /** A receiver is listed by one queue only. */
  lemma OtherList(st: State, k: nat, n: nat, i: nat)
    requires Structure(st) && Live(st, k) && Live(st, n) && n != k && i < |st.queues[n].value.receivers|
    ensures !On(st.queues[k].value.receivers, st.queues[n].value.receivers[i].handle)
  {
    assert Listed(st.queues[n].value.receivers, st.slots, n) && Listed(st.queues[k].value.receivers, st.slots, k);
  }

  lemma ToldNothing(rs: seq<Receiver>, slots: seq<Sleeper>)
    ensures Told(rs, slots, rs, slots)
  {
  }

  // ---- each operation keeps the invariant

  lemma SameStructure(st: State, t: State)
    requires Structure(st) && t.queues == st.queues && t.slots == st.slots
    requires forall h :: 0 <= h < |t.held| && t.held[h].Some? ==> MsgOk(t.held[h].value.msg)
    ensures Structure(t)
  {
    forall h | 0 <= h < |t.slots| && t.slots[h].rmsg == Empty ensures Waits(t, h) {
      assert Waits(st, h);
    }
  }

  /** Message `id` is loaded, and is nowhere yet. */
  ghost predicate Unplaced(st: State, id: nat) {
    id < st.next && forall x: nat :: Places(st, x) == if x < st.next && x != id then 1 else 0
  }

  /** `t` has one message more in a place than `st`. */
  ghost predicate PlacedOne(st: State, t: State, id: nat) {
    t.next == st.next && forall x: nat :: Places(t, x) == Places(st, x) + if x == id then 1 else 0
  }

  lemma QueueUpdated(st: State, k: nat, o: Option<Queue>)
    requires k < |st.queues|
    ensures var qs := st.queues[k := o];
            && Total(qs, QueueNum) == Total(st.queues, QueueNum) - QueueNum(st.queues[k]) + QueueNum(o)
            && Total(qs, QueueBytes) == Total(st.queues, QueueBytes) - QueueBytes(st.queues[k]) + QueueBytes(o)
  {
    TotalUpdate(st.queues, k, o, QueueNum);
    TotalUpdate(st.queues, k, o, QueueBytes);
  }

  lemma DeliverPlaces(st: State, k: nat, m: Msg)
    requires Structure(st) && Handles(st) && Live(st, k)
    ensures PlacedOne(st, Deliver(st, k, m), m.id)
  {
    var q := st.queues[k].value;
    var t := Deliver(st, k, m);
    var (rs, slots, handed) := Pipeline(q.receivers, st.slots, m, 0);
    forall x: nat ensures Places(t, x) == Places(st, x) + if x == m.id then 1 else 0 {
      PipelinePlaces(q.receivers, st.slots, m, 0, k, x);
      TotalUpdate(st.queues, k, t.queues[k], QueueHas(x));
      if !handed { TotalAppend(q.messages, m, MsgIs(x)); }
    }
  }

  lemma DeliverQueueOk(q: Queue, rs: seq<Receiver>, m: Msg, handed: bool)
    requires QueueOk(q) && Within(rs, q.receivers) && MsgOk(m) && !Full(q, m)
    requires !handed ==> forall j :: 0 <= j < |rs| ==> !Matches(rs[j], m)
    ensures QueueOk(if handed then q.(receivers := rs)
                    else q.(receivers := rs, messages := q.messages + [m], cbytes := q.cbytes + m.size,
                            qnum := q.qnum + 1))
  {
    TotalAppend(q.messages, m, MsgSize);
    forall i, j | 0 <= i < |rs| && 0 <= j < |q.messages| ensures !Matches(rs[i], q.messages[j]) {
      assert rs[i] in q.receivers;
      var x :| 0 <= x < |q.receivers| && q.receivers[x] == rs[i];
    }
  }

  lemma DeliverStructure(st: State, k: nat, m: Msg)
    requires Structure(st) && Counted(st) && Handles(st) && Live(st, k) && MsgOk(m) && !Full(st.queues[k].value, m)
    ensures Structure(Deliver(st, k, m)) && Counted(Deliver(st, k, m))
  {
    var q := st.queues[k].value;
    var t := Deliver(st, k, m);
    PipelineLists(q.receivers, st.slots, m, 0, k);
    var (rs, slots, handed) := Pipeline(q.receivers, st.slots, m, 0);
    DeliverQueueOk(q, rs, m, handed);
    PipelineAnswers(q.receivers, st.slots, m, k);
    OneQueueChanged(st, t, k, t.queues[k]);
    QueueUpdated(st, k, t.queues[k]);
    TotalAppend(q.messages, m, MsgSize);
  }

  lemma FreePlaces(st: State, m: Msg)
    ensures PlacedOne(st, Free(st, m), m.id)
  {
  }

  lemma HoldPlaces(st: State, k: nat, m: Msg)
    ensures PlacedOne(st, st.(held := st.held + [Some(Sender(k, m))]), m.id)
  {
    forall x: nat { TotalAppend(st.held, Some(Sender(k, m)), HeldHas(x)); }
  }

  lemma TrySendKeeps(st: State, k: nat, m: Msg, nowait: bool, again: bool)
    requires Structure(st) && Counted(st) && Handles(st) && MsgOk(m) && Unplaced(st, m.id)
    ensures Inv(TrySend(st, k, m, nowait, again).1)
  {
    var t := TrySend(st, k, m, nowait, again).1;
    if !Live(st, k) || (Full(st.queues[k].value, m) && nowait) {
      FreePlaces(st, m);
      SameStructure(st, t);
    } else if Full(st.queues[k].value, m) {
      HoldPlaces(st, k, m);
      SameStructure(st, t);
    } else {
      DeliverPlaces(st, k, m);
      DeliverStructure(st, k, m);
    }
  }

  lemma SendKeeps(st: State, k: nat, mtype: int, size: int, nowait: bool)
    requires Inv(st)
    ensures Handles(st) && Inv(Send(st, k, mtype, size, nowait).1)
  {
    StructureHandles(st);
    if !(size > MSGMAX || size < 0 || mtype < 1) {
      var t := st.(next := st.next + 1);
      assert forall x: nat :: Places(t, x) == Places(st, x);
      SameStructure(st, t);
      TrySendKeeps(t, k, Msg(st.next, mtype, size), nowait, false);
    }
  }

  lemma ReleaseHeld(st: State, h: nat)
    requires Inv(st) && h < |st.held| && st.held[h].Some?
    ensures var t := st.(held := st.held[h := None]);
            Structure(t) && Counted(t) && Unplaced(t, st.held[h].value.msg.id)
  {
    var t := st.(held := st.held[h := None]);
    var id := st.held[h].value.msg.id;
    forall x: nat ensures Places(t, x) == Places(st, x) - if x == id then 1 else 0 {
      TotalUpdate(st.held, h, None, HeldHas(x));
    }
    PlacesNonNegative(t, id);
    SameStructure(st, t);
  }

  lemma SenderWakesKeeps(st: State, h: nat, signal: bool)
    requires Inv(st) && h < |st.held| && st.held[h].Some?
    ensures Handles(st) && Inv(SenderWakes(st, h, signal).1)
  {
    StructureHandles(st);
    var Sender(k, m) := st.held[h].value;
    var t := st.(held := st.held[h := None]);
    ReleaseHeld(st, h);
    if !Live(st, k) || signal {
      FreePlaces(t, m);
      SameStructure(t, Free(t, m));
    } else {
      TrySendKeeps(t, k, m, false, true);
    }
  }

  // receiving

  lemma TakeQueueOk(q: Queue, i: nat)
    requires QueueOk(q) && i < |q.messages|
    ensures QueueOk(q.(messages := Drop(q.messages, i), qnum := q.qnum - 1, cbytes := q.cbytes - q.messages[i].size))
  {
    TotalDrop(q.messages, i, MsgSize);
    var ms := Drop(q.messages, i);
    assert forall j :: 0 <= j < |ms| ==> ms[j] == q.messages[if j < i then j else j + 1];
  }

  lemma TakePlaces(st: State, k: nat, i: nat, x: nat)
    requires Live(st, k) && i < |st.queues[k].value.messages|
    ensures Places(Take(st, k, i), x) == Places(st, x)
  {
    TotalUpdate(st.queues, k, Take(st, k, i).queues[k], QueueHas(x));
    TotalDrop(st.queues[k].value.messages, i, MsgIs(x));
  }

  lemma TakeKeeps(st: State, k: nat, i: nat)
    requires Inv(st) && Live(st, k) && i < |st.queues[k].value.messages|
    ensures Inv(Take(st, k, i))
  {
    var q := st.queues[k].value;
    var t := Take(st, k, i);
    TakeQueueOk(q, i);
    TotalDrop(q.messages, i, MsgSize);
    QueueUpdated(st, k, t.queues[k]);
    ToldNothing(q.receivers, st.slots);
    OneQueueChanged(st, t, k, t.queues[k]);
    forall x: nat ensures Places(t, x) == Places(st, x) { TakePlaces(st, k, i, x); }
  }

  lemma RegisterPlaces(st: State, k: nat, c: RecvCall, x: nat)
    requires Live(st, k)
    ensures Places(Register(st, k, c), x) == Places(st, x)
  {
    TotalUpdate(st.queues, k, Register(st, k, c).queues[k], QueueHas(x));
    TotalAppend(st.slots, Sleeper(k, c, Empty), SlotHas(x));
  }

  lemma RegisterWaits(st: State, k: nat, c: RecvCall, h: nat)
    requires Structure(st) && Live(st, k) && h <= |st.slots| && (h < |st.slots| ==> st.slots[h].rmsg == Empty)
    ensures Waits(Register(st, k, c), h)
  {
    var t := Register(st, k, c);
    if h == |st.slots| {
      var rs := t.queues[k].value.receivers;
      assert rs[|rs| - 1].handle == h;
    } else {
      assert Waits(st, h);
      var rs := st.queues[st.slots[h].queue].value.receivers;
      var i :| 0 <= i < |rs| && rs[i].handle == h;
      assert t.queues[st.slots[h].queue].value.receivers[i].handle == h;
    }
  }

  /** Registering a receiver that no queued message matches. */
  lemma RegisterKeeps(st: State, k: nat, c: RecvCall)
    requires Inv(st) && Live(st, k) && Converted(c)
    requires forall i :: 0 <= i < |st.queues[k].value.messages| ==>
               !TestMsg(st.queues[k].value.messages[i], c.mtype, c.mode)
    ensures Inv(Register(st, k, c))
  {
    var t := Register(st, k, c);
    QueueUpdated(st, k, t.queues[k]);
    forall x: nat ensures Places(t, x) == Places(st, x) { RegisterPlaces(st, k, c, x); }
    RegisterStructure(st, k, c);
  }

  lemma RegisterStructure(st: State, k: nat, c: RecvCall)
    requires Structure(st) && Live(st, k) && Converted(c)
    requires forall i :: 0 <= i < |st.queues[k].value.messages| ==>
               !TestMsg(st.queues[k].value.messages[i], c.mtype, c.mode)
    ensures Structure(Register(st, k, c))
  {
    var t := Register(st, k, c);
    forall n | 0 <= n < |t.queues| && t.queues[n].Some?
      ensures QueueOk(t.queues[n].value) && Listed(t.queues[n].value.receivers, t.slots, n)
    {
      RegisterQueue(st, k, c, n);
    }
    forall h | 0 <= h < |t.slots| && t.slots[h].rmsg == Empty ensures Waits(t, h) { RegisterWaits(st, k, c, h); }
  }

  lemma RegisterQueue(st: State, k: nat, c: RecvCall, n: nat)
    requires Structure(st) && Live(st, k) && Converted(c) && n < |st.queues| && st.queues[n].Some?
    requires forall i :: 0 <= i < |st.queues[k].value.messages| ==>
               !TestMsg(st.queues[k].value.messages[i], c.mtype, c.mode)
    ensures var t := Register(st, k, c);
            && n < |t.queues| && t.queues[n].Some? && QueueOk(t.queues[n].value)
            && Listed(t.queues[n].value.receivers, t.slots, n)
  {
    assert QueueOk(st.queues[n].value) && Listed(st.queues[n].value.receivers, st.slots, n);
    var t, q := Register(st, k, c), st.queues[n].value;
    if n == k {
      assert t.queues[n].value.receivers == q.receivers + [Receiver(|st.slots|, c.mode, c.mtype, MaxSize(c))];
      assert t.queues[n].value.messages == q.messages;
    } else {
      assert t.queues[n].value == q;
    }
  }

  lemma TryReceiveKeeps(st: State, k: nat, c: RecvCall, nowait: bool)
    requires Inv(st) && Live(st, k) && Converted(c)
    ensures Inv(TryReceive(st, k, c, nowait).1)
  {
    var q := st.queues[k].value;
    SearchIsBest(q.messages, c.mtype, c.mode);
    var found, t := Search(q.messages, c.mtype, c.mode, 0, -1), TryReceive(st, k, c, nowait).1;
    if found >= 0 {
      assert t == st || t == Take(st, k, found);
      TakeKeeps(st, k, found);
    } else {
      assert t == st || t == Register(st, k, c);
      RegisterKeeps(st, k, c);
    }
  }

  lemma ReceiveKeeps(st: State, k: nat, size: int, mtype: int, except: bool, nowait: bool, noerror: bool)
    requires Inv(st)
    ensures Inv(Receive(st, k, size, mtype, except, nowait, noerror).1)
  {
    if size >= 0 && Live(st, k) {
      var (t, mode) := ConvertMode(mtype, except);
      TryReceiveKeeps(st, k, RecvCall(size, mtype, except, noerror, t, mode), nowait);
    }
  }

  /** A receiver that was told something leaves; a message it holds is freed. */
  lemma LeaveTold(st: State, h: nat)
    requires Inv(st) && h < |st.slots| && st.slots[h].rmsg != Empty
    ensures var t := st.(slots := Put(st.slots, h, Gone));
            Inv(if st.slots[h].rmsg.Holds? then Free(t, st.slots[h].rmsg.msg) else t)
  {
    var u := st.(slots := Put(st.slots, h, Gone));
    var t := if st.slots[h].rmsg.Holds? then Free(u, st.slots[h].rmsg.msg) else u;
    forall x: nat ensures Places(t, x) == Places(st, x) {
      TotalUpdate(st.slots, h, st.slots[h].(rmsg := Gone), SlotHas(x));
    }
    forall n | 0 <= n < |t.queues| && t.queues[n].Some?
      ensures Listed(t.queues[n].value.receivers, t.slots, n)
    {
      assert Listed(st.queues[n].value.receivers, st.slots, n);
    }
    forall g | 0 <= g < |t.slots| && t.slots[g].rmsg == Empty ensures Waits(t, g) {
      assert Waits(st, g);
    }
  }

  lemma FewerReceivers(q: Queue, i: nat)
    requires QueueOk(q) && i < |q.receivers|
    ensures QueueOk(q.(receivers := Drop(q.receivers, i)))
  {
    var rs := Drop(q.receivers, i);
    assert forall j :: 0 <= j < |rs| ==> rs[j] == q.receivers[if j < i then j else j + 1];
  }

  lemma UnlistPlaces(st: State, h: nat, k: nat, i: nat, x: nat)
    requires h < |st.slots| && !st.slots[h].rmsg.Holds? && Live(st, k) && i < |st.queues[k].value.receivers|
    ensures Places(Unlist(st, h, k, i), x) == Places(st, x)
  {
    TotalUpdate(st.queues, k, Unlist(st, h, k, i).queues[k], QueueHas(x));
    TotalUpdate(st.slots, h, st.slots[h].(rmsg := Gone), SlotHas(x));
  }

  /** A receiver that was told nothing takes itself off its queue. */
  lemma UnlistKeeps(st: State, h: nat, i: nat)
    requires Inv(st) && h < |st.slots| && st.slots[h].rmsg == Empty && Live(st, st.slots[h].queue)
    requires var rs := st.queues[st.slots[h].queue].value.receivers; i < |rs| && rs[i].handle == h
    ensures Inv(Unlist(st, h, st.slots[h].queue, i))
  {
    var k := st.slots[h].queue;
    var q := st.queues[k].value;
    var t := Unlist(st, h, k, i);
    DropListed(q.receivers, st.slots, k, i, Gone);
    ToldFirst(q.receivers, st.slots, k, i, Gone);
    FewerReceivers(q, i);
    OneQueueChanged(st, t, k, t.queues[k]);
    QueueUpdated(st, k, t.queues[k]);
    forall x: nat ensures Places(t, x) == Places(st, x) { UnlistPlaces(st, h, k, i, x); }
  }

  lemma ReceiverWakesKeeps(st: State, h: nat, signal: bool)
    requires Inv(st) && h < |st.slots| && st.slots[h].rmsg != Gone
    ensures !Stranded(st, h) && Inv(ReceiverWakes(st, h, signal).1)
  {
    StructureHandles(st);
    var Sleeper(k, c, rmsg) := st.slots[h];
    if rmsg == Empty {
      var i := FindReceiver(st.queues[k].value.receivers, h);
      UnlistKeeps(st, h, i);
      TryReceiveKeeps(Unlist(st, h, k, i), k, c, false);
    } else {
      LeaveTold(st, h);
    }
  }

  /** A call that returns a message, at once or after having slept, returns one it asked for, whole or as much as
      there is room for. */
  lemma ReceiverGets(st: State, h: nat, signal: bool)
    requires Inv(st) && h < |st.slots| && st.slots[h].rmsg != Gone && !Stranded(st, h)
    ensures var c, res := st.slots[h].call, ReceiverWakes(st, h, signal).0;
            res.Got? ==> Admits(c, res.msg) && res.copied == Shorter(c.size, res.msg.size)
  {
    var c := st.slots[h].call;
    if st.slots[h].rmsg == Empty && !signal {
      var k := st.slots[h].queue;
      var i := FindReceiver(st.queues[k].value.receivers, h);
      var u := Unlist(st, h, k, i);
      TryReceiveMeans(u, k, c, false);
      var (res, t) := TryReceive(u, k, c, false);
      var r :| ReceivedAt(u, k, c, false, r, res, t);
    }
  }

  /** What a sleeping receiver is told of a message sent to its queue: it gets it if it is the first whose call
      admits it; it hears that it is too big if it comes before that one and its call asks for it. */
  lemma DeliverMeans(st: State, k: nat, m: Msg) returns (t: nat)
    requires Inv(st) && Handles(st) && Live(st, k) && MsgOk(m)
    ensures var rs, d := st.queues[k].value.receivers, Deliver(st, k, m);
            && t <= |rs| && |d.slots| == |st.slots|
            && (forall i :: 0 <= i < |rs| ==> rs[i].handle < |st.slots|)
            && (forall i :: 0 <= i < t ==> !Admits(st.slots[rs[i].handle].call, m))
            && (t < |rs| ==> Admits(st.slots[rs[t].handle].call, m))
            && (forall i :: 0 <= i < |rs| ==>
                  var s := st.slots[rs[i].handle];
                  d.slots[rs[i].handle].rmsg ==
                    if i == t then Holds(m) else if i < t && Asks(s.call.msgtyp, s.call.except, m.mtype) then TooBig
                    else Empty)
            && Live(d, k) && d.queues[k].value.messages == st.queues[k].value.messages + if t < |rs| then [] else [m]
  {
    var rs := st.queues[k].value.receivers;
    ListedDistinct(rs, st.slots, k);
    t := PipelineExact(rs, st.slots, m, 0);
    forall i | 0 <= i < |rs|
      ensures Takes(rs[i], m) <==> Admits(st.slots[rs[i].handle].call, m)
      ensures Refused(rs, m, t, rs[i].handle) <==>
                i < t && Asks(st.slots[rs[i].handle].call.msgtyp, st.slots[rs[i].handle].call.except, m.mtype)
    {
      ServesMeans(rs[i], st.slots[rs[i].handle].call, m);
    }
  }

  /** A message is sent at once exactly if the queue then holds no more bytes, and no more messages, than its
      limit. */
  lemma SendRoom(st: State, k: nat, m: Msg, nowait: bool, again: bool)
    requires Inv(st) && Handles(st) && Live(st, k)
    ensures var q, res := st.queues[k].value, TrySend(st, k, m, nowait, again).0;
            && (res == Sent <==> Total(q.messages, MsgSize) + m.size <= q.qbytes && |q.messages| + 1 <= q.qbytes)
            && (res != Sent ==> res == if nowait then WouldBlock else SendSleeps(|st.held|))
  {
  }

  // creating and removing queues

  lemma NewQueueKeeps(st: State, qbytes: nat)
    requires Inv(st)
    ensures Inv(NewQueue(st, qbytes))
  {
    var q := Some(Queue([], [], 0, 0, qbytes));
    var t := NewQueue(st, qbytes);
    TotalAppend(st.queues, q, QueueNum);
    TotalAppend(st.queues, q, QueueBytes);
    forall x: nat ensures Places(t, x) == Places(st, x) {
      TotalAppend(st.queues, q, QueueHas(x));
    }
    forall h | 0 <= h < |t.slots| && t.slots[h].rmsg == Empty ensures Waits(t, h) {
      assert Waits(st, h);
    }
  }

  lemma {:induction false} ExpungeEffect(rs: seq<Receiver>, slots: seq<Sleeper>, i: nat)
    requires i <= |rs| && forall j :: 0 <= j < |rs| ==> rs[j].handle < |slots|
    ensures var r := Expunge(rs, slots, Removed, i);
            forall h :: 0 <= h < |slots| ==>
              r[h] == if exists j :: i <= j < |rs| && rs[j].handle == h then slots[h].(rmsg := Removed) else slots[h]
    decreases |rs| - i
  {
    if i < |rs| {
      ExpungeEffect(rs, Put(slots, rs[i].handle, Removed), i + 1);
    }
  }

  lemma {:induction false} ExpungePlaces(rs: seq<Receiver>, slots: seq<Sleeper>, i: nat, id: nat)
    requires i <= |rs| && forall j :: 0 <= j < |rs| ==> rs[j].handle < |slots| && !slots[rs[j].handle].rmsg.Holds?
    ensures Total(Expunge(rs, slots, Removed, i), SlotHas(id)) == Total(slots, SlotHas(id))
    decreases |rs| - i
  {
    if i < |rs| {
      var h := rs[i].handle;
      TotalUpdate(slots, h, slots[h].(rmsg := Removed), SlotHas(id));
      ExpungePlaces(rs, Put(slots, h, Removed), i + 1, id);
    }
  }

  lemma {:induction false} IdsOfCount(ms: seq<Msg>, id: nat)
    ensures IdsOf(ms)[id] == Total(ms, MsgIs(id))
  {
    if ms != [] {
      IdsOfCount(ms[..|ms| - 1], id);
    }
  }

  lemma RemoveQueueKeeps(st: State, k: nat)
    requires Inv(st) && Live(st, k)
    ensures Handles(st) && Inv(RemoveQueue(st, k))
  {
    StructureHandles(st);
    var q := st.queues[k].value;
    var t := RemoveQueue(st, k);
    ExpungeEffect(q.receivers, st.slots, 0);
    OneQueueChanged(st, t, k, None);
    QueueUpdated(st, k, None);
    forall x: nat ensures Places(t, x) == Places(st, x) {
      TotalUpdate(st.queues, k, None, QueueHas(x));
      ExpungePlaces(q.receivers, st.slots, 0, x);
      IdsOfCount(q.messages, x);
    }
  }

  // ---- runs

  datatype Event =
    | EvNew(qbytes: nat)
    | EvSend(queue: nat, mtype: int, size: int, nowait: bool)
    | EvSenderWakes(handle: nat, signal: bool)
    | EvReceive(queue: nat, rsize: int, rtype: int, except: bool, rnowait: bool, noerror: bool)
    | EvReceiverWakes(handle: nat, signal: bool)
    | EvRemove(queue: nat)

  ghost predicate Next(st: State, e: Event, t: State) {
    match e
    case EvNew(qbytes) => t == NewQueue(st, qbytes)
    case EvSend(k, mtype, size, nowait) => Handles(st) && t == Send(st, k, mtype, size, nowait).1
    case EvSenderWakes(h, signal) =>
      Handles(st) && h < |st.held| && st.held[h].Some? && t == SenderWakes(st, h, signal).1
    case EvReceive(k, size, mtype, except, nowait, noerror) =>
      t == Receive(st, k, size, mtype, except, nowait, noerror).1
    case EvReceiverWakes(h, signal) =>
      h < |st.slots| && st.slots[h].rmsg != Gone && !Stranded(st, h) && t == ReceiverWakes(st, h, signal).1
    case EvRemove(k) => Live(st, k) && Handles(st) && t == RemoveQueue(st, k)
  }

  const Start: State := State([], [], [], 0, 0, multiset{}, 0)

  ghost predicate Run(states: seq<State>, events: seq<Event>) {
    && |states| == |events| + 1 && states[0] == Start
    && forall i :: 0 <= i < |events| ==> Next(states[i], events[i], states[i + 1])
  }

  /** In every reachable state no listed receiver matches a queued message, the counters are the
      counts and sums over the queued messages, every message loaded is in exactly one place, and
      no receiver is stranded: the BUG() of line 837 cannot be reached. */
  lemma {:induction false} RunKeepsInv(states: seq<State>, events: seq<Event>, i: nat)
    requires Run(states, events) && i < |states|
    ensures Inv(states[i])
    ensures forall h :: 0 <= h < |states[i].slots| ==> !Stranded(states[i], h)
  {
    if i > 0 {
      RunKeepsInv(states, events, i - 1);
      var st := states[i - 1];
      assert Next(st, events[i - 1], states[i]);
      match events[i - 1] {
        case EvNew(qbytes) => NewQueueKeeps(st, qbytes);
        case EvSend(k, mtype, size, nowait) => SendKeeps(st, k, mtype, size, nowait);
        case EvSenderWakes(h, signal) => SenderWakesKeeps(st, h, signal);
        case EvReceive(k, size, mtype, except, nowait, noerror) =>
          ReceiveKeeps(st, k, size, mtype, except, nowait, noerror);
        case EvReceiverWakes(h, signal) => ReceiverWakesKeeps(st, h, signal);
        case EvRemove(k) => RemoveQueueKeeps(st, k);
      }
    }
    StructureHandles(states[i]);
  }

  lemma PlacesNonNegative(st: State, id: nat)
    ensures Places(st, id) >= 0
  {
    forall i | 0 <= i < |st.queues| ensures QueueHas(id)(st.queues[i]) >= 0 {
      if st.queues[i].Some? { TotalNonNegative(st.queues[i].value.messages, MsgIs(id)); }
    }
    TotalNonNegative(st.queues, QueueHas(id));
    TotalNonNegative(st.slots, SlotHas(id));
    TotalNonNegative(st.held, HeldHas(id));
  }
}
