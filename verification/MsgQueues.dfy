/** System V message queues: sending with direct hand-off to sleeping receivers, receiving, and
    removal of a queue (ipc/msg.c:250-301, 578-849). */
module MsgQueues {
  import opened Options
  import opened Lists

  const MSGMAX: nat := 8192

  datatype Mode = SearchAny | SearchEqual | SearchNotEqual | SearchLessEqual

  // `id` is the identity of the struct msg_msg
  datatype Msg = Msg(id: nat, mtype: int, size: nat)

  // `handle` names the msr_d structure on the stack of a sleeping receiver
  datatype Receiver = Receiver(handle: nat, mode: Mode, mtype: int, maxsize: int)

  // r_msg: ERR_PTR(-EAGAIN), -E2BIG, -EIDRM, or a message; `Gone` once the receiver has left
  datatype Slot = Empty | TooBig | Removed | Holds(msg: Msg) | Gone

  // the arguments of a msgrcv call, and what convert_mode made of the type and MSG_EXCEPT
  datatype RecvCall = RecvCall(size: nat, msgtyp: int, except: bool, noerror: bool, mtype: int, mode: Mode)

  // a msgrcv call asleep on queue `queue`
  datatype Sleeper = Sleeper(queue: nat, call: RecvCall, rmsg: Slot)

  // a msgsnd call asleep on queue `queue`, holding its message
  datatype Sender = Sender(queue: nat, msg: Msg)

  datatype Queue = Queue(messages: seq<Msg>, receivers: seq<Receiver>, qnum: int, cbytes: int, qbytes: int)

  /** The whole facility.  A queue id is an index and is not used again.  `held` are the messages of
      senders asleep for lack of room; `freed` is a history of the ids freed; nothing reads it. */
  datatype State = State(queues: seq<Option<Queue>>, slots: seq<Sleeper>, held: seq<Option<Sender>>,
                         hdrs: int, bytes: int, freed: multiset<nat>, next: nat)

  predicate TestMsg(m: Msg, mtype: int, mode: Mode) {
    match mode
    case SearchAny => true
    case SearchLessEqual => m.mtype <= mtype
    case SearchEqual => m.mtype == mtype
    case SearchNotEqual => m.mtype != mtype
  }

  predicate Matches(r: Receiver, m: Msg) {
    TestMsg(m, r.mtype, r.mode)
  }

  function Put(slots: seq<Sleeper>, h: nat, r: Slot): seq<Sleeper>
    requires h < |slots|
  {
    slots[h := slots[h].(rmsg := r)]
  }

  // ---- sending

  /** pipelined_send from receiver `i` on: the receivers left, their slots, and whether one took it. */
  function Pipeline(rs: seq<Receiver>, slots: seq<Sleeper>, m: Msg, i: nat): (seq<Receiver>, seq<Sleeper>, bool)
    requires i <= |rs| && forall k :: 0 <= k < |rs| ==> rs[k].handle < |slots|
    decreases |rs| - i
  {
    if i == |rs| then (rs, slots, false)
    else if !Matches(rs[i], m) then Pipeline(rs, slots, m, i + 1)
    else if rs[i].maxsize < m.size then
      Pipeline(Drop(rs, i), Put(slots, rs[i].handle, TooBig), m, i)
    else (Drop(rs, i), Put(slots, rs[i].handle, Holds(m)), true)
  }

  predicate Live(st: State, k: nat) {
    k < |st.queues| && st.queues[k].Some?
  }

  predicate Full(q: Queue, m: Msg) {
    m.size + q.cbytes > q.qbytes || 1 + q.qnum > q.qbytes
  }

  predicate Handles(st: State) {
    forall k, i :: 0 <= k < |st.queues| && st.queues[k].Some? && 0 <= i < |st.queues[k].value.receivers| ==>
      st.queues[k].value.receivers[i].handle < |st.slots|
  }

  /** Lines 686-696: there is room, so the message goes to a receiver or onto the queue. */
  function Deliver(st: State, k: nat, m: Msg): State
    requires Live(st, k) && Handles(st)
  {
    var q := st.queues[k].value;
    var (rs, slots, handed) := Pipeline(q.receivers, st.slots, m, 0);
    if handed then st.(queues := st.queues[k := Some(q.(receivers := rs))], slots := slots)
    else
      st.(queues := st.queues[k := Some(q.(receivers := rs, messages := q.messages + [m],
                                           cbytes := q.cbytes + m.size, qnum := q.qnum + 1))],
          slots := slots, hdrs := st.hdrs + 1, bytes := st.bytes + m.size)
  }

  function Free(st: State, m: Msg): State {
    st.(freed := st.freed + multiset{m.id})
  }

  datatype SendResult = Sent | BadArgs | NoQueue | QueueGone | WouldBlock | SendSleeps(handle: nat) | SendInterrupted

  /** sys_msgsnd from the first look at the queue, with message `m` already loaded. */
  function TrySend(st: State, k: nat, m: Msg, nowait: bool, again: bool): (SendResult, State)
    requires Handles(st)
  {
    if !Live(st, k) then (if again then QueueGone else NoQueue, Free(st, m))
    else if Full(st.queues[k].value, m) then
      if nowait then (WouldBlock, Free(st, m))
      else (SendSleeps(|st.held|), st.(held := st.held + [Some(Sender(k, m))]))
    else (Sent, Deliver(st, k, m))
  }

  /** sys_msgsnd up to its return or its sleep.  The message is loaded under a fresh id. */
  function Send(st: State, k: nat, mtype: int, size: int, nowait: bool): (SendResult, State)
    requires Handles(st)
  {
    if size > MSGMAX || size < 0 || mtype < 1 then (BadArgs, st)
    else TrySend(st.(next := st.next + 1), k, Msg(st.next, mtype, size), nowait, false)
  }

  /** A sleeping sender runs again (lines 673-683). */
  function SenderWakes(st: State, h: nat, signal: bool): (SendResult, State)
    requires Handles(st) && h < |st.held| && st.held[h].Some?
  {
    var Sender(k, m) := st.held[h].value;
    var t := st.(held := st.held[h := None]);
    if !Live(st, k) then (QueueGone, Free(t, m))
    else if signal then (SendInterrupted, Free(t, m))
    else TrySend(t, k, m, false, true)
  }

  // ---- receiving

  /** The search loop of sys_msgrcv from message `i` on: `found` is the candidate so far and `mtype`
      the type still looked for. */
  function Search(ms: seq<Msg>, mtype: int, mode: Mode, i: nat, found: int): (r: int)
    requires i <= |ms| && -1 <= found < |ms|
    ensures -1 <= r < |ms|
    decreases |ms| - i
  {
    if i == |ms| then found
    else if !TestMsg(ms[i], mtype, mode) then Search(ms, mtype, mode, i + 1, found)
    else if mode == SearchLessEqual && ms[i].mtype != 1 then Search(ms, ms[i].mtype - 1, mode, i + 1, i)
    else i
  }

  datatype RecvResult = Got(msg: Msg, copied: nat) | BadSize | NoSuchQueue | NoMessage | TooLong |
                        RecvSleeps(handle: nat) | Interrupted | IdRemoved

  function Min(a: int, b: int): int {
    if a < b then a else b
  }

  const LONG_MIN: int := -0x8000_0000

  /** convert_mode.  Negating the least long gives it back. */
  function ConvertMode(mtype: int, except: bool): (int, Mode) {
    if mtype == 0 then (0, SearchAny)
    else if mtype < 0 then (if mtype == LONG_MIN then LONG_MIN else -mtype, SearchLessEqual)
    else if except then (mtype, SearchNotEqual)
    else (mtype, SearchEqual)
  }

  const INT_MAX: int := 0x7FFF_FFFF

  /** Lines 776-792: message `i` leaves queue `k`, is copied out and freed. */
  function Take(st: State, k: nat, i: nat): State
    requires Live(st, k) && i < |st.queues[k].value.messages|
  {
    var q := st.queues[k].value;
    var m := q.messages[i];
    var q' := q.(messages := Drop(q.messages, i), qnum := q.qnum - 1, cbytes := q.cbytes - m.size);
    Free(st.(queues := st.queues[k := Some(q')], hdrs := st.hdrs - 1, bytes := st.bytes - m.size), m)
  }

  /** The longest message a sleeping receiver takes. */
  function MaxSize(c: RecvCall): int {
    if c.noerror then INT_MAX else c.size
  }

  /** Lines 803-813: the caller is listed as a receiver of queue `k`. */
  function Register(st: State, k: nat, c: RecvCall): State
    requires Live(st, k)
  {
    var q := st.queues[k].value;
    var r := Receiver(|st.slots|, c.mode, c.mtype, MaxSize(c));
    st.(queues := st.queues[k := Some(q.(receivers := q.receivers + [r]))], slots := st.slots + [Sleeper(k, c, Empty)])
  }

  /** sys_msgrcv, from the search of the queue to its return or its sleep. */
  function TryReceive(st: State, k: nat, c: RecvCall, nowait: bool): (RecvResult, State)
    requires Live(st, k)
  {
    var q := st.queues[k].value;
    var found := Search(q.messages, c.mtype, c.mode, 0, -1);
    if found >= 0 then
      var m := q.messages[found];
      if c.size < m.size && !c.noerror then (TooLong, st)
      else (Got(m, Min(c.size, m.size)), Take(st, k, found))
    else if nowait then (NoMessage, st)
    else (RecvSleeps(|st.slots|), Register(st, k, c))
  }

  function Receive(st: State, k: nat, size: int, mtype: int, except: bool, nowait: bool, noerror: bool)
    : (RecvResult, State)
  {
    if size < 0 then (BadSize, st)
    else if !Live(st, k) then (NoSuchQueue, st)
    else
      var (t, mode) := ConvertMode(mtype, except);
      TryReceive(st, k, RecvCall(size, mtype, except, noerror, t, mode), nowait)
  }

  function FindReceiver(rs: seq<Receiver>, h: nat): (i: int)
    ensures -1 <= i < |rs|
    ensures i >= 0 ==> rs[i].handle == h
    ensures i == -1 ==> forall j :: 0 <= j < |rs| ==> rs[j].handle != h
  {
    if rs == [] then -1
    else if rs[0].handle == h then 0
    else
      var i := FindReceiver(rs[1..], h);
      assert forall j :: 0 < j < |rs| ==> rs[j] == rs[1..][j - 1];
      if i == -1 then -1 else i + 1
  }

  /** The case line 837 calls a bug: the receiver was told nothing, and its queue is gone. */
  predicate Stranded(st: State, h: nat) {
    h < |st.slots| && st.slots[h].rmsg == Empty &&
    !(Live(st, st.slots[h].queue) && FindReceiver(st.queues[st.slots[h].queue].value.receivers, h) >= 0)
  }

  /** Line 838: sleeper `h`, listed at place `i` of queue `k`, takes itself off. */
  function Unlist(st: State, h: nat, k: nat, i: nat): State
    requires h < |st.slots| && Live(st, k) && i < |st.queues[k].value.receivers|
  {
    var q := st.queues[k].value;
    st.(slots := Put(st.slots, h, Gone), queues := st.queues[k := Some(q.(receivers := Drop(q.receivers, i)))])
  }

  /** A sleeping receiver runs again (lines 818-843).  An interrupted or woken receiver that got
      nothing takes itself off the queue; without a signal it then searches again. */
  function ReceiverWakes(st: State, h: nat, signal: bool): (RecvResult, State)
    requires h < |st.slots| && st.slots[h].rmsg != Gone && !Stranded(st, h)
  {
    var Sleeper(k, c, rmsg) := st.slots[h];
    var t := st.(slots := Put(st.slots, h, Gone));
    match rmsg
    case Holds(m) => (Got(m, Min(c.size, m.size)), Free(t, m))
    case TooBig => (TooLong, t)
    case Removed => (IdRemoved, t)
    case Gone => (IdRemoved, t)
    case Empty =>
      var u := Unlist(st, h, k, FindReceiver(st.queues[k].value.receivers, h));
      if signal then (Interrupted, u) else TryReceive(u, k, c, false)
  }

  // ---- creating and removing a queue

  /** newque. */
  function NewQueue(st: State, qbytes: nat): State {
    st.(queues := st.queues + [Some(Queue([], [], 0, 0, qbytes))])
  }

  /** expunge_all from receiver `i` on: all sleeping receivers get `res`; none is taken off the list. */
  function Expunge(rs: seq<Receiver>, slots: seq<Sleeper>, res: Slot, i: nat): (r: seq<Sleeper>)
    requires i <= |rs| && forall k :: 0 <= k < |rs| ==> rs[k].handle < |slots|
    ensures |r| == |slots|
    decreases |rs| - i
  {
    if i == |rs| then slots else Expunge(rs, Put(slots, rs[i].handle, res), res, i + 1)
  }

  /** The ids of a list of messages, as freeque frees them one by one. */
  function IdsOf(ms: seq<Msg>): multiset<nat> {
    if ms == [] then multiset{} else IdsOf(ms[..|ms| - 1]) + multiset{ms[|ms| - 1].id}
  }

  /** freeque. */
  function RemoveQueue(st: State, k: nat): State
    requires Live(st, k) && Handles(st)
  {
    var q := st.queues[k].value;
    st.(queues := st.queues[k := None], slots := Expunge(q.receivers, st.slots, Removed, 0),
        hdrs := st.hdrs - |q.messages|, bytes := st.bytes - q.cbytes, freed := st.freed + IdsOf(q.messages))
  }

  // ---- the search picks the right message

  /** For any mode but the last the first match is taken; for SearchLessEqual the first message
      among those of the lowest type that is at most the one asked for. */
  predicate Best(ms: seq<Msg>, mtype: int, mode: Mode, r: int) {
    if r == -1 then forall i :: 0 <= i < |ms| ==> !TestMsg(ms[i], mtype, mode)
    else
      && 0 <= r < |ms| && TestMsg(ms[r], mtype, mode)
      && if mode == SearchLessEqual
         then forall i :: 0 <= i < |ms| && TestMsg(ms[i], mtype, mode) ==>
                ms[r].mtype <= ms[i].mtype && (i < r ==> ms[r].mtype < ms[i].mtype)
         else forall i :: 0 <= i < r ==> !TestMsg(ms[i], mtype, mode)
  }

  lemma {:induction false} SearchFrom(ms: seq<Msg>, want: int, mtype: int, mode: Mode, i: nat, found: int)
    requires i <= |ms| && forall j :: 0 <= j < |ms| ==> ms[j].mtype >= 1
    requires -1 <= found < i && Best(ms[..i], want, mode, found)
    requires found >= 0 ==> mode == SearchLessEqual && ms[found].mtype != 1
    requires mtype == if found >= 0 then ms[found].mtype - 1 else want
    ensures Best(ms, want, mode, Search(ms, mtype, mode, i, found))
    decreases |ms| - i
  {
    if i == |ms| {
      assert ms[..i] == ms;
    } else {
      assert forall j :: 0 <= j < i ==> ms[..i + 1][j] == ms[j] && ms[..i][j] == ms[j];
      if !TestMsg(ms[i], mtype, mode) {
        SearchFrom(ms, want, mtype, mode, i + 1, found);
      } else if mode == SearchLessEqual && ms[i].mtype != 1 {
        SearchFrom(ms, want, ms[i].mtype - 1, mode, i + 1, i);
      } else {
        assert forall j :: 0 <= j < i ==> ms[..i][j] == ms[j];
      }
    }
  }

  lemma SearchIsBest(ms: seq<Msg>, mtype: int, mode: Mode)
    requires forall j :: 0 <= j < |ms| ==> ms[j].mtype >= 1
    ensures Best(ms, mtype, mode, Search(ms, mtype, mode, 0, -1))
  {
    SearchFrom(ms, mtype, mtype, mode, 0, -1);
  }

  // ---- what msgrcv asks for

  /** Does a call with this msgtyp and MSG_EXCEPT ask for messages of type `t`?  0 asks for any, a positive
      type for itself or for all others, a negative one for those up to its absolute value; the least long
      has none, and asks for nothing. */
  predicate Asks(msgtyp: int, except: bool, t: int) {
    || msgtyp == 0
    || (msgtyp > 0 && !except && t == msgtyp)
    || (msgtyp > 0 && except && t != msgtyp)
    || (msgtyp < 0 && msgtyp != LONG_MIN && t <= -msgtyp)
  }

  /** The call takes message `m` whole, or has said that it may be cut. */
  predicate Admits(c: RecvCall, m: Msg) {
    Asks(c.msgtyp, c.except, m.mtype) && (m.size <= c.size || c.noerror)
  }

  predicate Converted(c: RecvCall) {
    (c.mtype, c.mode) == ConvertMode(c.msgtyp, c.except)
  }

  /** testmsg after convert_mode decides exactly that. */
  lemma ConvertMeans(msgtyp: int, except: bool, m: Msg)
    requires m.mtype >= 1
    ensures var (t, mode) := ConvertMode(msgtyp, except); TestMsg(m, t, mode) <==> Asks(msgtyp, except, m.mtype)
  {
  }

  /** The message msgrcv is to return: none if none is asked for; for a negative type the first of the lowest
      type asked for, otherwise the first asked for. */
  predicate Chosen(ms: seq<Msg>, msgtyp: int, except: bool, r: int) {
    if r == -1 then forall i :: 0 <= i < |ms| ==> !Asks(msgtyp, except, ms[i].mtype)
    else
      && 0 <= r < |ms| && Asks(msgtyp, except, ms[r].mtype)
      && forall i :: 0 <= i < |ms| && Asks(msgtyp, except, ms[i].mtype) ==>
           if msgtyp < 0 then ms[r].mtype < ms[i].mtype || (ms[r].mtype == ms[i].mtype && r <= i) else r <= i
  }

  /** The search finds it. */
  lemma SearchChooses(ms: seq<Msg>, msgtyp: int, except: bool)
    requires forall j :: 0 <= j < |ms| ==> ms[j].mtype >= 1
    ensures var (t, mode) := ConvertMode(msgtyp, except); Chosen(ms, msgtyp, except, Search(ms, t, mode, 0, -1))
  {
    var (t, mode) := ConvertMode(msgtyp, except);
    SearchIsBest(ms, t, mode);
    forall i | 0 <= i < |ms| ensures TestMsg(ms[i], t, mode) <==> Asks(msgtyp, except, ms[i].mtype) {
      ConvertMeans(msgtyp, except, ms[i]);
    }
  }

  function Shorter(a: nat, b: nat): nat {
    if a < b then a else b
  }

  /** Queue `q` without its r-th message. */
  function Less(q: Queue, r: nat): Queue
    requires r < |q.messages|
  {
    q.(messages := q.messages[..r] + q.messages[r + 1..], qnum := q.qnum - 1, cbytes := q.cbytes - q.messages[r].size)
  }

  /** What a call of msgrcv on a live queue comes to, by its own arguments, when r is the message chosen: nothing
      to be had, a message too long to be had whole, or that message. */
  predicate ReceivedAt(st: State, k: nat, c: RecvCall, nowait: bool, r: int, res: RecvResult, st': State)
    requires Live(st, k)
  {
    var q := st.queues[k].value;
    && Chosen(q.messages, c.msgtyp, c.except, r)
    && if r == -1 && nowait then res == NoMessage && st' == st
       else if r == -1 then
         && res == RecvSleeps(|st.slots|) && st'.slots == st.slots + [Sleeper(k, c, Empty)]
         && st' == st.(slots := st'.slots, queues := st'.queues) && Live(st', k)
         && st'.queues == st.queues[k := st'.queues[k]]
         && st'.queues[k].value == q.(receivers := q.receivers + [Receiver(|st.slots|, c.mode, c.mtype, MaxSize(c))])
       else if q.messages[r].size > c.size && !c.noerror then res == TooLong && st' == st
       else
         var m := q.messages[r];
         && res == Got(m, Shorter(c.size, m.size))
         && st' == st.(queues := st.queues[k := Some(Less(q, r))], hdrs := st.hdrs - 1, bytes := st.bytes - m.size,
                       freed := st.freed + multiset{m.id})
  }

  ghost predicate Received(st: State, k: nat, c: RecvCall, nowait: bool, res: RecvResult, st': State)
    requires Live(st, k)
  {
    exists r :: ReceivedAt(st, k, c, nowait, r, res, st')
  }

  lemma TryReceiveMeans(st: State, k: nat, c: RecvCall, nowait: bool)
    requires Live(st, k) && Converted(c)
    requires forall j :: 0 <= j < |st.queues[k].value.messages| ==> st.queues[k].value.messages[j].mtype >= 1
    ensures var (res, st') := TryReceive(st, k, c, nowait); Received(st, k, c, nowait, res, st')
  {
    var ms := st.queues[k].value.messages;
    SearchChooses(ms, c.msgtyp, c.except);
    var (res, st') := TryReceive(st, k, c, nowait);
    var r := Search(ms, c.mtype, c.mode, 0, -1);
    assert ReceivedAt(st, k, c, nowait, r, res, st');
  }

  /** What a receiver that slept returns: the message it was handed, or why it gets none; if it was told nothing, it
      leaves the queue, and without a signal it asks again as if it had just called. */
  ghost predicate Wakes(st: State, h: nat, signal: bool, res: RecvResult, st': State)
    requires h < |st.slots| && st.slots[h].rmsg != Gone && !Stranded(st, h)
  {
    var Sleeper(k, c, rmsg) := st.slots[h];
    match rmsg
    case Holds(m) => res == Got(m, Shorter(c.size, m.size)) && st'.freed == st.freed + multiset{m.id}
    case TooBig => res == TooLong && st'.queues == st.queues && st'.freed == st.freed
    case Removed => res == IdRemoved && st'.queues == st.queues && st'.freed == st.freed
    case Gone => true
    case Empty =>
      var u := Unlist(st, h, k, FindReceiver(st.queues[k].value.receivers, h));
      if signal then res == Interrupted && st' == u else Received(u, k, c, false, res, st')
  }

  lemma ReceiverWakesMeans(st: State, h: nat, signal: bool)
    requires h < |st.slots| && st.slots[h].rmsg != Gone && !Stranded(st, h) && Converted(st.slots[h].call)
    requires Live(st, st.slots[h].queue) ==>
               forall j :: 0 <= j < |st.queues[st.slots[h].queue].value.messages| ==>
                 st.queues[st.slots[h].queue].value.messages[j].mtype >= 1
    ensures var (res, st') := ReceiverWakes(st, h, signal); Wakes(st, h, signal, res, st')
  {
    if st.slots[h].rmsg == Empty {
      var k := st.slots[h].queue;
      TryReceiveMeans(Unlist(st, h, k, FindReceiver(st.queues[k].value.receivers, h)), k, st.slots[h].call, false);
    }
  }

  /** What a sender that slept returns; its message is sent, freed or still with it. */
  ghost predicate Retries(st: State, h: nat, signal: bool, res: SendResult, st': State)
    requires h < |st.held| && st.held[h].Some?
  {
    var Sender(k, m) := st.held[h].value;
    && (res == QueueGone <==> !Live(st, k))
    && (res == SendInterrupted <==> Live(st, k) && signal)
    && (res == Sent <==> Live(st, k) && !signal && !Full(st.queues[k].value, m))
    && (res.SendSleeps? <==> Live(st, k) && !signal && Full(st.queues[k].value, m))
    && (res in {QueueGone, SendInterrupted} ==>
          st' == st.(held := st.held[h := None], freed := st.freed + multiset{m.id}))
    && (res.SendSleeps? ==> st' == st.(held := st.held[h := None] + [Some(Sender(k, m))]))
  }

  lemma SenderWakesMeans(st: State, h: nat, signal: bool)
    requires Handles(st) && h < |st.held| && st.held[h].Some?
    ensures var (res, st') := SenderWakes(st, h, signal); Retries(st, h, signal, res, st')
  {
  }

  // ---- who gets a message that is sent

  /** Receiver `r` matches and has room. */
  predicate Takes(r: Receiver, m: Msg) {
    TestMsg(m, r.mtype, r.mode) && r.maxsize >= m.size
  }

  /** The receivers that do not match, in order. */
  function Passed(rs: seq<Receiver>, m: Msg): seq<Receiver> {
    if rs == [] then [] else (if TestMsg(m, rs[0].mtype, rs[0].mode) then [] else [rs[0]]) + Passed(rs[1..], m)
  }

  /** One of the first `t` receivers, with handle `h`, matches. */
  predicate Refused(rs: seq<Receiver>, m: Msg, t: nat, h: nat)
    requires t <= |rs|
  {
    exists i :: 0 <= i < t && rs[i].handle == h && TestMsg(m, rs[i].mtype, rs[i].mode)
  }

  /** rs[t] is the first receiver that takes the message, or there is none and t == |rs|. */
  predicate FirstTaker(rs: seq<Receiver>, m: Msg, t: nat) {
    t <= |rs| && (forall i :: 0 <= i < t ==> !Takes(rs[i], m)) && (t < |rs| ==> Takes(rs[t], m))
  }

  /** What the slot of `h` holds then: the taker the message, those that match before it that it is too big,
      and all others what they held. */
  function SlotAfter(rs: seq<Receiver>, m: Msg, t: nat, h: nat, s: Sleeper): Sleeper
    requires t <= |rs|
  {
    if t < |rs| && rs[t].handle == h then s.(rmsg := Holds(m))
    else if Refused(rs, m, t, h) then s.(rmsg := TooBig)
    else s
  }

  /** The receivers left: those before the taker that do not match, and all behind it. */
  function ListAfter(rs: seq<Receiver>, m: Msg, t: nat): seq<Receiver>
    requires t <= |rs|
  {
    Passed(rs[..t], m) + if t < |rs| then rs[t + 1..] else []
  }

  ghost predicate HandedTo(rs: seq<Receiver>, slots: seq<Sleeper>, m: Msg, t: nat, rs': seq<Receiver>,
                           slots': seq<Sleeper>, handed: bool)
  {
    && FirstTaker(rs, m, t) && handed == (t < |rs|) && rs' == ListAfter(rs, m, t) && |slots'| == |slots|
    && forall h :: 0 <= h < |slots| ==> slots'[h] == SlotAfter(rs, m, t, h, slots[h])
  }

  predicate DistinctHandles(rs: seq<Receiver>, n: nat) {
    && (forall i :: 0 <= i < |rs| ==> rs[i].handle < n)
    && (forall i, j :: 0 <= i < j < |rs| ==> rs[i].handle != rs[j].handle)
  }

  lemma {:induction false} PassedDrop(rs: seq<Receiver>, m: Msg, i: nat)
    requires i < |rs| && TestMsg(m, rs[i].mtype, rs[i].mode)
    ensures Passed(Drop(rs, i), m) == Passed(rs, m)
  {
    if i == 0 {
      assert Drop(rs, 0) == rs[1..] && [] + Passed(rs[1..], m) == Passed(rs[1..], m);
    } else {
      PassedDrop(rs[1..], m, i - 1);
      assert Drop(rs, i)[0] == rs[0] && Drop(rs, i)[1..] == Drop(rs[1..], i - 1);
    }
  }

  lemma {:induction false} PassedAll(rs: seq<Receiver>, m: Msg)
    requires forall i :: 0 <= i < |rs| ==> !TestMsg(m, rs[i].mtype, rs[i].mode)
    ensures Passed(rs, m) == rs
  {
    if rs != [] { PassedAll(rs[1..], m); }
  }

  lemma DropAt(rs: seq<Receiver>, i: nat)
    requires i < |rs|
    ensures |Drop(rs, i)| == |rs| - 1
    ensures forall j :: 0 <= j < i ==> Drop(rs, i)[j] == rs[j]
    ensures forall j :: i <= j < |rs| - 1 ==> Drop(rs, i)[j] == rs[j + 1]
  {
  }

  /** Receiver `i` is too small and goes: the taker and the list are as if it had not been there. */
  lemma ListPast(rs: seq<Receiver>, m: Msg, i: nat, t: nat)
    requires i < |rs| && TestMsg(m, rs[i].mtype, rs[i].mode) && rs[i].maxsize < m.size
    requires i <= t && FirstTaker(Drop(rs, i), m, t)
    ensures FirstTaker(rs, m, t + 1) && ListAfter(rs, m, t + 1) == ListAfter(Drop(rs, i), m, t)
  {
    var ds := Drop(rs, i);
    DropAt(rs, i);
    assert ds[..t] == Drop(rs[..t + 1], i);
    PassedDrop(rs[..t + 1], m, i);
    assert t < |ds| ==> ds[t + 1..] == rs[t + 2..];
    forall j | 0 <= j < t + 1 ensures !Takes(rs[j], m) {
      assert j != i ==> rs[j] == ds[if j < i then j else j - 1];
    }
  }

  lemma RefusedPast(rs: seq<Receiver>, m: Msg, i: nat, t: nat, h: nat)
    requires i < |rs| && TestMsg(m, rs[i].mtype, rs[i].mode) && i <= t < |rs|
    ensures |Drop(rs, i)| == |rs| - 1
    ensures Refused(rs, m, t + 1, h) <==> Refused(Drop(rs, i), m, t, h) || h == rs[i].handle
  {
    var ds := Drop(rs, i);
    DropAt(rs, i);
    if Refused(rs, m, t + 1, h) && h != rs[i].handle {
      var j :| 0 <= j < t + 1 && rs[j].handle == h && TestMsg(m, rs[j].mtype, rs[j].mode);
      var k := if j < i then j else j - 1;
      assert ds[k] == rs[j];
    }
    if Refused(ds, m, t, h) {
      var j :| 0 <= j < t && ds[j].handle == h && TestMsg(m, ds[j].mtype, ds[j].mode);
      var k := if j < i then j else j + 1;
      assert rs[k] == ds[j];
    }
  }

  lemma SlotPast(rs: seq<Receiver>, m: Msg, i: nat, t: nat, h: nat, s: Sleeper, n: nat)
    requires i < |rs| && DistinctHandles(rs, n) && TestMsg(m, rs[i].mtype, rs[i].mode) && i <= t < |rs|
    ensures |Drop(rs, i)| == |rs| - 1
    ensures SlotAfter(rs, m, t + 1, h, s) ==
            SlotAfter(Drop(rs, i), m, t, h, if h == rs[i].handle then s.(rmsg := TooBig) else s)
  {
    DropAt(rs, i);
    RefusedPast(rs, m, i, t, h);
  }

  /** pipelined_send hands the message to the first listed receiver that takes it; exactly those before it that
      match are told that it is too big, and all others keep their place and their slot. */
  lemma {:induction false} PipelineExact(rs: seq<Receiver>, slots: seq<Sleeper>, m: Msg, i: nat) returns (t: nat)
    requires i <= |rs| && DistinctHandles(rs, |slots|)
    requires forall j :: 0 <= j < i ==> !TestMsg(m, rs[j].mtype, rs[j].mode)
    ensures var (rs', slots', handed) := Pipeline(rs, slots, m, i);
            i <= t && HandedTo(rs, slots, m, t, rs', slots', handed)
    decreases |rs| - i
  {
    if i < |rs| && !TestMsg(m, rs[i].mtype, rs[i].mode) {
      t := PipelineExact(rs, slots, m, i + 1);
    } else if i < |rs| && rs[i].maxsize < m.size {
      t := PipelinePast(rs, slots, m, i);
    } else {
      t := i;
      PassedAll(rs[..i], m);
    }
  }

  lemma {:induction false} PipelinePast(rs: seq<Receiver>, slots: seq<Sleeper>, m: Msg, i: nat) returns (t: nat)
    requires i < |rs| && DistinctHandles(rs, |slots|) && TestMsg(m, rs[i].mtype, rs[i].mode) && rs[i].maxsize < m.size
    requires forall j :: 0 <= j < i ==> !TestMsg(m, rs[j].mtype, rs[j].mode)
    ensures var (rs', slots', handed) := Pipeline(rs, slots, m, i);
            i <= t && HandedTo(rs, slots, m, t, rs', slots', handed)
    decreases |rs| - i, 0
  {
    var ds, put := Drop(rs, i), Put(slots, rs[i].handle, TooBig);
    DropAt(rs, i);
    var u := PipelineExact(ds, put, m, i);
    ListPast(rs, m, i, u);
    t := u + 1;
    forall h | 0 <= h < |slots| ensures SlotAfter(rs, m, t, h, slots[h]) == SlotAfter(ds, m, u, h, put[h]) {
      SlotPast(rs, m, i, u, h, slots[h], |slots|);
    }
  }
}
