/** The message queue calls as they update the queues in place, and the copying of message texts in
    and out of page-sized segments (ipc/msg.c:158-301, 600-849). */
module MsgTables {
  import opened MsgQueues
  import opened Options
  import opened Lists

  /** `c` is a call with these arguments. */
  predicate CallWith(c: RecvCall, size: int, mtype: int, except: bool, noerror: bool) {
    c.size == size && c.msgtyp == mtype && c.except == except && c.noerror == noerror
  }

  class MsgTable {
    var queues: seq<Option<Queue>>
    var slots: seq<Sleeper>
    var held: seq<Option<Sender>>
    var hdrs: int
    var bytes: int
    var next: nat
    ghost var freed: multiset<nat>

    ghost function Abs(): State
      reads this
    {
      State(queues, slots, held, hdrs, bytes, freed, next)
    }

    /** pipelined_send: of the receivers of queue `k` the first that takes the message gets it, those before it
        that match are told that it is too big, and all others keep their place and their slot. */
    method PipelinedSend(k: nat, m: Msg) returns (handed: bool)
      requires Live(Abs(), k) && Handles(Abs())
      modifies this`queues, this`slots
      ensures var q := old(queues)[k].value;
              var (rs, ss, h) := Pipeline(q.receivers, old(slots), m, 0);
              handed == h && slots == ss && queues == old(queues)[k := Some(q.(receivers := rs))]
      ensures var q := old(queues)[k].value;
              DistinctHandles(q.receivers, |old(slots)|) ==>
                exists t: nat :: HandedTo(q.receivers, old(slots), m, t, queues[k].value.receivers, slots, handed)
    {
      handed := WalkReceivers(k, m);
      ghost var rs := old(queues)[k].value.receivers;
      if DistinctHandles(rs, |old(slots)|) {
        ghost var t := PipelineExact(rs, old(slots), m, 0);
        assert HandedTo(rs, old(slots), m, t, queues[k].value.receivers, slots, handed);
      }
    }

    /** Its loop: walk the receivers, telling each that matches, until one takes it. */
    method WalkReceivers(k: nat, m: Msg) returns (handed: bool)
      requires Live(Abs(), k) && Handles(Abs())
      modifies this`queues, this`slots
      ensures var q := old(queues)[k].value;
              var (rs, ss, h) := Pipeline(q.receivers, old(slots), m, 0);
              handed == h && slots == ss && queues == old(queues)[k := Some(q.(receivers := rs))]
    {
      ghost var q := queues[k].value;
      var i := 0;
      while i < |queues[k].value.receivers|
        invariant Live(Abs(), k) && queues == old(queues)[k := Some(q.(receivers := queues[k].value.receivers))]
        invariant i <= |queues[k].value.receivers|
        invariant forall j :: 0 <= j < |queues[k].value.receivers| ==> queues[k].value.receivers[j].handle < |slots|
        invariant Pipeline(queues[k].value.receivers, slots, m, i) == Pipeline(q.receivers, old(slots), m, 0)
        decreases |queues[k].value.receivers| - i
      {
        var rs := queues[k].value.receivers;
        var r := rs[i];
        if TestMsg(m, r.mtype, r.mode) {
          queues := queues[k := Some(queues[k].value.(receivers := Drop(rs, i)))];
          if r.maxsize < m.size {
            slots := Put(slots, r.handle, TooBig);
          } else {
            slots := Put(slots, r.handle, Holds(m));
            return true;
          }
        } else {
          i := i + 1;
        }
      }
      return false;
    }

    /** sys_msgsnd from the first look at the queue on. */
    method SendLoaded(k: nat, m: Msg, nowait: bool, again: bool) returns (res: SendResult)
      requires Handles(Abs())
      modifies this
      ensures (res, Abs()) == TrySend(old(Abs()), k, m, nowait, again)
    {
      if k >= |queues| || queues[k].None? {
        freed := freed + multiset{m.id};
        return if again then QueueGone else NoQueue;
      }
      var q := queues[k].value;
      if m.size + q.cbytes > q.qbytes || 1 + q.qnum > q.qbytes {
        if nowait {
          freed := freed + multiset{m.id};
          return WouldBlock;
        }
        held := held + [Some(Sender(k, m))];
        return SendSleeps(|held| - 1);
      }
      var handed := PipelinedSend(k, m);
      if !handed {
        q := queues[k].value;
        queues := queues[k := Some(q.(messages := q.messages + [m], cbytes := q.cbytes + m.size, qnum := q.qnum + 1))];
        bytes := bytes + m.size;
        hdrs := hdrs + 1;
      }
      assert queues == Deliver(old(Abs()), k, m).queues;
      return Sent;
    }

    /** sys_msgsnd. */
    method SysMsgsnd(k: nat, mtype: int, size: int, nowait: bool) returns (res: SendResult)
      requires Handles(Abs())
      modifies this
      ensures (res, Abs()) == Send(old(Abs()), k, mtype, size, nowait)
      ensures if size < 0 || size > MSGMAX || mtype < 1 then res == BadArgs && Abs() == old(Abs())
              else if !old(Live(Abs(), k)) then res == NoQueue
              else if !Full(old(queues)[k].value, Msg(old(next), mtype, size)) then res == Sent
              else if nowait then res == WouldBlock
              else res.SendSleeps?
    {
      if size > MSGMAX || size < 0 || mtype < 1 {
        return BadArgs;
      }
      var m := Msg(next, mtype, size);
      next := next + 1;
      res := SendLoaded(k, m, nowait, false);
    }

    /** A sleeping sender runs again: it is taken off the list of senders and looks at the queue anew
        (lines 668-683). */
    method SenderResumes(h: nat, signal: bool) returns (res: SendResult)
      requires Handles(Abs()) && h < |held| && held[h].Some?
      modifies this
      ensures (res, Abs()) == SenderWakes(old(Abs()), h, signal) && Retries(old(Abs()), h, signal, res, Abs())
    {
      SenderWakesMeans(Abs(), h, signal);
      var sender := held[h].value;
      held := held[h := None];
      if sender.queue >= |queues| || queues[sender.queue].None? {
        freed := freed + multiset{sender.msg.id};
        return QueueGone;
      }
      if signal {
        freed := freed + multiset{sender.msg.id};
        return SendInterrupted;
      }
      res := SendLoaded(sender.queue, sender.msg, false, true);
    }

    /** The search loop of sys_msgrcv (lines 754-769). */
    method FindMessage(ms: seq<Msg>, want: int, mode: Mode) returns (found: int)
      requires forall j :: 0 <= j < |ms| ==> ms[j].mtype >= 1
      ensures found == Search(ms, want, mode, 0, -1) && Best(ms, want, mode, found)
    {
      found := -1;
      var mtype, i := want, 0;
      SearchIsBest(ms, want, mode);
      while i < |ms|
        invariant i <= |ms| && -1 <= found < |ms|
        invariant Search(ms, mtype, mode, i, found) == Search(ms, want, mode, 0, -1)
      {
        if TestMsg(ms[i], mtype, mode) {
          found := i;
          if mode == SearchLessEqual && ms[i].mtype != 1 {
            mtype := ms[i].mtype - 1;
          } else {
            return;
          }
        }
        i := i + 1;
      }
    }

    /** sys_msgrcv from the search on. */
    method ReceiveFrom(k: nat, c: RecvCall, nowait: bool) returns (res: RecvResult)
      requires Live(Abs(), k)
      requires forall j :: 0 <= j < |queues[k].value.messages| ==> queues[k].value.messages[j].mtype >= 1
      modifies this
      ensures (res, Abs()) == TryReceive(old(Abs()), k, c, nowait)
    {
      var q := queues[k].value;
      var found := FindMessage(q.messages, c.mtype, c.mode);
      if found >= 0 {
        var m := q.messages[found];
        if c.size < m.size && !c.noerror {
          return TooLong;
        }
        q := q.(messages := Drop(q.messages, found), qnum := q.qnum - 1, cbytes := q.cbytes - m.size);
        queues := queues[k := Some(q)];
        bytes := bytes - m.size;
        hdrs := hdrs - 1;
        freed := freed + multiset{m.id};
        return Got(m, Min(c.size, m.size));
      }
      if nowait {
        return NoMessage;
      }
      var r := Receiver(|slots|, c.mode, c.mtype, if c.noerror then INT_MAX else c.size);
      queues := queues[k := Some(q.(receivers := q.receivers + [r]))];
      slots := slots + [Sleeper(k, c, Empty)];
      return RecvSleeps(r.handle);
    }

    /** sys_msgrcv up to its return or its sleep. */
    method SysMsgrcv(k: nat, size: int, mtype: int, except: bool, nowait: bool, noerror: bool) returns (res: RecvResult)
      requires Live(Abs(), k) ==>
                 forall j :: 0 <= j < |queues[k].value.messages| ==> queues[k].value.messages[j].mtype >= 1
      modifies this
      ensures (res, Abs()) == Receive(old(Abs()), k, size, mtype, except, nowait, noerror)
      ensures if size < 0 then res == BadSize && Abs() == old(Abs())
              else if !old(Live(Abs(), k)) then res == NoSuchQueue && Abs() == old(Abs())
              else exists c :: CallWith(c, size, mtype, except, noerror) &&
                               Received(old(Abs()), k, c, nowait, res, Abs())
    {
      if size < 0 {
        return BadSize;
      }
      if k >= |queues| || queues[k].None? {
        return NoSuchQueue;
      }
      var want := ConvertMode(mtype, except);
      var c := RecvCall(size, mtype, except, noerror, want.0, want.1);
      TryReceiveMeans(Abs(), k, c, nowait);
      assert CallWith(c, size, mtype, except, noerror);
      res := ReceiveFrom(k, c, nowait);
    }

    /** A sleeping receiver takes itself off the queue (line 838). */
    method LeaveReceivers(h: nat, k: nat)
      requires h < |slots| && Live(Abs(), k) && FindReceiver(queues[k].value.receivers, h) >= 0
      modifies this
      ensures Abs() == Unlist(old(Abs()), h, k, FindReceiver(old(queues)[k].value.receivers, h))
    {
      var q := queues[k].value;
      var i := FindReceiver(q.receivers, h);
      queues := queues[k := Some(q.(receivers := Drop(q.receivers, i)))];
      slots := Put(slots, h, Gone);
    }

    /** A sleeping receiver runs again (lines 818-843). */
    method ReceiverResumes(h: nat, signal: bool) returns (res: RecvResult)
      requires h < |slots| && slots[h].rmsg != Gone && !Stranded(Abs(), h)
      requires Live(Abs(), slots[h].queue) ==>
                 forall j :: 0 <= j < |queues[slots[h].queue].value.messages| ==>
                   queues[slots[h].queue].value.messages[j].mtype >= 1
      modifies this
      ensures (res, Abs()) == ReceiverWakes(old(Abs()), h, signal)
      ensures Converted(old(slots)[h].call) ==> Wakes(old(Abs()), h, signal, res, Abs())
    {
      if Converted(slots[h].call) { ReceiverWakesMeans(Abs(), h, signal); }
      var k, c, rmsg := slots[h].queue, slots[h].call, slots[h].rmsg;
      match rmsg {
        case Holds(m) =>
          slots := Put(slots, h, Gone);
          freed := freed + multiset{m.id};
          return Got(m, Min(c.size, m.size));
        case TooBig =>
          slots := Put(slots, h, Gone);
          return TooLong;
        case Removed =>
          slots := Put(slots, h, Gone);
          return IdRemoved;
        case Empty =>
          LeaveReceivers(h, k);
          if signal {
            return Interrupted;
          }
          res := ReceiveFrom(k, c, false);
      }
    }

    /** expunge_all. */
    method ExpungeAll(rs: seq<Receiver>, res: Slot)
      requires forall i :: 0 <= i < |rs| ==> rs[i].handle < |slots|
      modifies this`slots
      ensures slots == Expunge(rs, old(slots), res, 0)
    {
      var i := 0;
      while i < |rs|
        invariant i <= |rs| && |slots| == |old(slots)| && Expunge(rs, slots, res, i) == Expunge(rs, old(slots), res, 0)
      {
        slots := Put(slots, rs[i].handle, res);
        i := i + 1;
      }
    }

    /** The loop of freeque over the messages (lines 292-298). */
    method FreeMessages(ms: seq<Msg>)
      modifies this`hdrs, this`freed
      ensures hdrs == old(hdrs) - |ms| && freed == old(freed) + IdsOf(ms)
    {
      var i := 0;
      while i < |ms|
        invariant i <= |ms| && hdrs == old(hdrs) - i && freed == old(freed) + IdsOf(ms[..i])
      {
        assert ms[..i + 1][..i] == ms[..i];
        hdrs := hdrs - 1;
        freed := freed + multiset{ms[i].id};
        i := i + 1;
      }
      assert ms[..i] == ms;
    }

    /** freeque. */
    method FreeQueue(k: nat)
      requires Live(Abs(), k) && Handles(Abs())
      modifies this
      ensures Abs() == RemoveQueue(old(Abs()), k)
    {
      var q := queues[k].value;
      queues := queues[k := None];
      ExpungeAll(q.receivers, Removed);
      FreeMessages(q.messages);
      bytes := bytes - q.cbytes;
    }
  }

  // ---- message texts

  const PAGE_SIZE: nat := 4096
  const DATALEN_MSG: nat := PAGE_SIZE - 20  // sizeof(struct msg_msg) on i386
  const DATALEN_SEG: nat := PAGE_SIZE - 4   // sizeof(struct msg_msgseg)

  function Flat(parts: seq<seq<bv8>>): seq<bv8> {
    if parts == [] then [] else Flat(parts[..|parts| - 1]) + parts[|parts| - 1]
  }

  /** Every part but the last is full, and none is too long for its page. */
  predicate Packed(parts: seq<seq<bv8>>) {
    && |parts| > 0 && |parts[0]| <= DATALEN_MSG
    && (forall i :: 1 <= i < |parts| ==> 0 < |parts[i]| <= DATALEN_SEG)
    && (|parts| > 1 ==> |parts[0]| == DATALEN_MSG)
    && (forall i :: 1 <= i < |parts| - 1 ==> |parts[i]| == DATALEN_SEG)
  }

  /** load_msg: the header page takes the first part, the segments the rest. */
  method LoadMsg(src: seq<bv8>) returns (parts: seq<seq<bv8>>)
    ensures Packed(parts) && Flat(parts) == src
  {
    var alen := if |src| > DATALEN_MSG then DATALEN_MSG else |src|;
    parts := [src[..alen]];
    var pos := alen;
    assert Flat(parts[..0]) == [];
    assert Flat(parts) == src[..pos];
    while pos < |src|
      invariant pos <= |src| && Flat(parts) == src[..pos] && Packed(parts)
      invariant pos < |src| ==> |parts[0]| == DATALEN_MSG && forall i :: 1 <= i < |parts| ==> |parts[i]| == DATALEN_SEG
    {
      alen := if |src| - pos > DATALEN_SEG then DATALEN_SEG else |src| - pos;
      var part := src[pos..pos + alen];
      assert (parts + [part])[..|parts|] == parts;
      assert src[..pos + alen] == src[..pos] + part;
      parts := parts + [part];
      pos := pos + alen;
    }
    assert src[..pos] == src;
  }

  lemma {:induction false} FlatFrom(parts: seq<seq<bv8>>, i: nat)
    requires i < |parts|
    ensures Flat(parts[..i + 1]) == Flat(parts[..i]) + parts[i]
    ensures Flat(parts[..i + 1]) <= Flat(parts)
    decreases |parts| - i
  {
    assert parts[..i + 1][..i] == parts[..i];
    if i + 1 == |parts| {
      assert parts[..i + 1] == parts;
    } else {
      FlatFrom(parts, i + 1);
    }
  }

  /** store_msg copies out exactly the first `len` bytes that load_msg was given. */
  method StoreMsg(parts: seq<seq<bv8>>, len: nat) returns (dest: seq<bv8>)
    requires Packed(parts) && len <= |Flat(parts)|
    ensures dest == Flat(parts)[..len]
  {
    FlatFrom(parts, 0);
    assert Flat(parts[..0]) == [];
    var alen := if len > DATALEN_MSG then DATALEN_MSG else len;
    FirstPart(parts, len, alen);
    dest := parts[0][..alen];
    var left, i := len - alen, 1;
    while left > 0
      invariant 1 <= i <= |parts| && 0 <= left && |dest| == len - left
      invariant dest == Flat(parts)[..len - left]
      invariant left > 0 ==> dest == Flat(parts[..i])
    {
      MorePart(parts, i, len, left);
      alen := if left > DATALEN_SEG then DATALEN_SEG else left;
      dest := dest + parts[i][..alen];
      left := left - alen;
      i := i + 1;
    }
  }

  lemma FirstPart(parts: seq<seq<bv8>>, len: nat, alen: nat)
    requires Packed(parts) && len <= |Flat(parts)| && alen == if len > DATALEN_MSG then DATALEN_MSG else len
    ensures alen <= |parts[0]| && parts[0][..alen] == Flat(parts)[..alen]
    ensures alen < len ==> parts[0][..alen] == Flat(parts[..1])
  {
    FlatFrom(parts, 0);
    assert Flat(parts[..0]) == [];
    assert Flat(parts[..1]) == parts[0];
    if |parts| == 1 { assert parts[..1] == parts; }
  }

  lemma MorePart(parts: seq<seq<bv8>>, i: nat, len: nat, left: nat)
    requires Packed(parts) && 1 <= i <= |parts| && 0 < left <= len <= |Flat(parts)| && |Flat(parts[..i])| == len - left
    ensures i < |parts|
    ensures var alen := if left > DATALEN_SEG then DATALEN_SEG else left;
            && alen <= |parts[i]| && Flat(parts[..i]) + parts[i][..alen] == Flat(parts)[..len - left + alen]
            && (alen < left ==> Flat(parts[..i]) + parts[i][..alen] == Flat(parts[..i + 1]))
  {
    assert parts[..|parts|] == parts;
    FlatFrom(parts, i);
  }
}
