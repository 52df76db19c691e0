/** A pipe under any interleaving of reads and writes at the points where they sleep
    (fs/pipe.c:88-110, 162-228). */
module PipeRuns {
  import opened Pipes

  /** A call of pipe_write: its bytes, how many are in, and whether it got past its first wait. */
  datatype Write = Write(data: string, done: nat, begun: bool)

  datatype Entry = Entry(writer: nat, byte: char)

  /** The bytes in the ring, all bytes accepted so far in copy order and by whom, those delivered so
      far, and the calls. */
  datatype System = System(ring: string, log: seq<Entry>, got: string, writes: seq<Write>)

  function Bytes(log: seq<Entry>): string {
    if log == [] then [] else Bytes(log[..|log| - 1]) + [log[|log| - 1].byte]
  }

  /** What writer `w` put in, in order. */
  function Own(log: seq<Entry>, w: nat): string {
    if log == [] then []
    else Own(log[..|log| - 1], w) + if log[|log| - 1].writer == w then [log[|log| - 1].byte] else []
  }

  function Tagged(w: nat, data: string): seq<Entry> {
    seq(|data|, k requires 0 <= k < |data| => Entry(w, data[k]))
  }

  function Min(a: nat, b: nat): nat {
    if a < b then a else b
  }

  /** The room pipe_write waits for before it copies anything: all of a small write. */
  function Need(count: nat): nat {
    if count <= PIPE_BUF then count else 1
  }

  /** Between two sleeps: a new call arrives; a reader takes what it wants of what is there; or a
      writer, woken with enough room, copies until its bytes or the room run out. */
  datatype Step = Call(data: string) | Take(count: nat) | Put(w: nat)

  predicate Enabled(s: System, step: Step) {
    match step
    case Call(_) => true
    case Take(_) => true
    case Put(w) =>
      && w < |s.writes| && |s.ring| <= PIPE_SIZE && s.writes[w].done < |s.writes[w].data|
      && PIPE_SIZE - |s.ring| >= if s.writes[w].begun then 1 else Need(|s.writes[w].data|)
  }

  /** What a turn does; PipeTurns has the turns on the ring itself. */
  function Next(s: System, step: Step): System
    requires Enabled(s, step)
  {
    match step
    case Call(data) => s.(writes := s.writes + [Write(data, 0, false)])
    case Take(count) =>
      var n := Min(count, |s.ring|);
      s.(ring := s.ring[n..], got := s.got + s.ring[..n])
    case Put(w) =>
      var wr := s.writes[w];
      var n := Min(|wr.data| - wr.done, PIPE_SIZE - |s.ring|);
      var x := wr.data[wr.done..wr.done + n];
      System(s.ring + x, s.log + Tagged(w, x), s.got, s.writes[w := Write(wr.data, wr.done + n, true)])
  }

  // ---- the invariant

  /** All of `data` stands in the log in one piece, and nothing else of that writer. */
  predicate Whole(log: seq<Entry>, w: nat, data: string, q: nat) {
    q + |data| <= |log| && log[q..q + |data|] == Tagged(w, data) &&
    forall k :: 0 <= k < |log| && log[k].writer == w ==> q <= k < q + |data|
  }

  ghost predicate InOnePiece(log: seq<Entry>, w: nat, data: string) {
    exists q: nat :: Whole(log, w, data, q)
  }

  predicate Absent(log: seq<Entry>, w: nat) {
    forall k :: 0 <= k < |log| ==> log[k].writer != w
  }

  /** What is in the log of writer `w` is what it has written so far; if small, all at once. */
  ghost predicate WriteOk(log: seq<Entry>, w: nat, wr: Write) {
    && wr.done <= |wr.data| && Own(log, w) == wr.data[..wr.done]
    && (!wr.begun ==> wr.done == 0 && Absent(log, w))
    && (wr.begun && |wr.data| <= PIPE_BUF ==> wr.done == |wr.data| && InOnePiece(log, w, wr.data))
  }

  ghost predicate Inv(s: System) {
    && |s.ring| <= PIPE_SIZE && Bytes(s.log) == s.got + s.ring
    && (forall k :: 0 <= k < |s.log| ==> s.log[k].writer < |s.writes|)
    && (forall w {:trigger s.writes[w]} :: 0 <= w < |s.writes| ==> WriteOk(s.log, w, s.writes[w]))
  }

  // ---- the log grows

  lemma {:induction false} BytesConcat(a: seq<Entry>, b: seq<Entry>)
    ensures Bytes(a + b) == Bytes(a) + Bytes(b)
  {
    if b == [] {
      assert a + b == a;
    } else {
      assert (a + b)[..|a + b| - 1] == a + b[..|b| - 1];
      BytesConcat(a, b[..|b| - 1]);
    }
  }

  lemma {:induction false} OwnConcat(a: seq<Entry>, b: seq<Entry>, w: nat)
    ensures Own(a + b, w) == Own(a, w) + Own(b, w)
  {
    if b == [] {
      assert a + b == a;
    } else {
      assert (a + b)[..|a + b| - 1] == a + b[..|b| - 1];
      OwnConcat(a, b[..|b| - 1], w);
    }
  }

  lemma {:induction false} TaggedIs(w: nat, x: string, v: nat)
    ensures Bytes(Tagged(w, x)) == x && Own(Tagged(w, x), v) == if v == w then x else []
  {
    if x != [] {
      var y := x[..|x| - 1];
      TaggedIs(w, y, v);
      assert Tagged(w, x)[..|x| - 1] == Tagged(w, y);
      assert x == y + [x[|x| - 1]];
    }
  }

  /** A write that another one grows the log for stays as it was. */
  lemma OthersKept(log: seq<Entry>, w: nat, x: string, v: nat, wr: Write)
    requires WriteOk(log, v, wr) && v != w
    ensures WriteOk(log + Tagged(w, x), v, wr)
  {
    OwnConcat(log, Tagged(w, x), v);
    TaggedIs(w, x, v);
    if wr.begun && |wr.data| <= PIPE_BUF {
      var q: nat :| Whole(log, v, wr.data, q);
      assert (log + Tagged(w, x))[q..q + |wr.data|] == log[q..q + |wr.data|];
      assert Whole(log + Tagged(w, x), v, wr.data, q);
    }
  }

  lemma WriterOn(log: seq<Entry>, w: nat, wr: Write, n: nat)
    requires WriteOk(log, w, wr) && wr.done + n <= |wr.data| && wr.done < |wr.data|
    requires !wr.begun && |wr.data| <= PIPE_BUF ==> n == |wr.data|
    ensures WriteOk(log + Tagged(w, wr.data[wr.done..wr.done + n]), w, Write(wr.data, wr.done + n, true))
  {
    var x := wr.data[wr.done..wr.done + n];
    OwnAppended(log, w, wr.data[..wr.done], x);
    assert wr.data[..wr.done] + x == wr.data[..wr.done + n];
    if !wr.begun && |wr.data| <= PIPE_BUF {
      assert x == wr.data;
      AppendedWhole(log, w, x);
    }
  }

  lemma OwnAppended(log: seq<Entry>, w: nat, sofar: string, x: string)
    requires Own(log, w) == sofar
    ensures Own(log + Tagged(w, x), w) == sofar + x
  {
    OwnConcat(log, Tagged(w, x), w);
    TaggedIs(w, x, w);
  }

  lemma AppendedWhole(log: seq<Entry>, w: nat, x: string)
    requires Absent(log, w)
    ensures InOnePiece(log + Tagged(w, x), w, x)
  {
    var log' := log + Tagged(w, x);
    assert log'[|log|..|log| + |x|] == Tagged(w, x);
    assert Whole(log', w, x, |log|);
  }

  lemma NewWrite(s: System, data: string)
    requires Inv(s)
    ensures WriteOk(s.log, |s.writes|, Write(data, 0, false))
  {
    AbsentOwn(s.log, |s.writes|);
  }

  lemma {:induction false} AbsentOwn(log: seq<Entry>, w: nat)
    requires Absent(log, w)
    ensures Own(log, w) == []
  {
    if log != [] {
      AbsentOwn(log[..|log| - 1], w);
      assert log[|log| - 1].writer != w;
    }
  }

  lemma TakeInv(s: System, count: nat)
    requires Inv(s)
    ensures Inv(Next(s, Take(count)))
  {
  }

  lemma CallInv(s: System, data: string)
    requires Inv(s)
    ensures Inv(Next(s, Call(data)))
  {
    NewWrite(s, data);
    var r := Next(s, Call(data));
    forall w | 0 <= w < |r.writes| ensures WriteOk(r.log, w, r.writes[w]) {
      assert w < |s.writes| ==> WriteOk(s.log, w, s.writes[w]);
    }
  }

  /** How much writer `w` can copy now. */
  function Room(s: System, w: nat): nat
    requires Enabled(s, Put(w)) && s.writes[w].done <= |s.writes[w].data|
  {
    Min(|s.writes[w].data| - s.writes[w].done, PIPE_SIZE - |s.ring|)
  }

  lemma PutBytes(s: System, w: nat)
    requires Inv(s) && Enabled(s, Put(w))
    ensures var r := Next(s, Put(w)); |r.ring| <= PIPE_SIZE && Bytes(r.log) == r.got + r.ring
  {
    var wr := s.writes[w];
    AppendBytes(s.log, w, wr.data[wr.done..wr.done + Room(s, w)], s.got, s.ring);
  }

  lemma AppendBytes(log: seq<Entry>, w: nat, x: string, got: string, ring: string)
    requires Bytes(log) == got + ring
    ensures Bytes(log + Tagged(w, x)) == got + (ring + x)
  {
    BytesConcat(log, Tagged(w, x));
    TaggedIs(w, x, w);
    assert (got + ring) + x == got + (ring + x);
  }

  lemma PutWrites(s: System, w: nat, v: nat)
    requires Inv(s) && Enabled(s, Put(w)) && v < |s.writes|
    ensures WriteOk(Next(s, Put(w)).log, v, Next(s, Put(w)).writes[v])
  {
    var wr, n := s.writes[w], Room(s, w);
    assert WriteOk(s.log, v, s.writes[v]) && WriteOk(s.log, w, wr);
    if v == w {
      WriterOn(s.log, w, wr, n);
    } else {
      OthersKept(s.log, w, wr.data[wr.done..wr.done + n], v, s.writes[v]);
    }
  }

  lemma TagsKnown(log: seq<Entry>, w: nat, x: string, writers: nat)
    requires w < writers && forall k :: 0 <= k < |log| ==> log[k].writer < writers
    ensures forall k :: 0 <= k < |log + Tagged(w, x)| ==> (log + Tagged(w, x))[k].writer < writers
  {
  }

  lemma PutInv(s: System, w: nat)
    requires Inv(s) && Enabled(s, Put(w))
    ensures Inv(Next(s, Put(w)))
  {
    var r, wr := Next(s, Put(w)), s.writes[w];
    PutBytes(s, w);
    TagsKnown(s.log, w, wr.data[wr.done..wr.done + Room(s, w)], |s.writes|);
    forall v | 0 <= v < |r.writes| ensures WriteOk(r.log, v, r.writes[v]) {
      PutWrites(s, w, v);
    }
  }

  ghost predicate Reaches(s: System, steps: seq<Step>, r: System)
    decreases |steps|
  {
    if steps == [] then s == r else Enabled(s, steps[0]) && Reaches(Next(s, steps[0]), steps[1..], r)
  }

  lemma {:induction false} RunInv(s: System, steps: seq<Step>, r: System)
    requires Inv(s) && Reaches(s, steps, r)
    ensures Inv(r)
    decreases |steps|
  {
    if steps != [] {
      match steps[0] {
        case Call(data) => CallInv(s, data);
        case Take(count) => TakeInv(s, count);
        case Put(w) => PutInv(s, w);
      }
      RunInv(Next(s, steps[0]), steps[1..], r);
    }
  }

  /** From an empty pipe, however reads and writes interleave: what was delivered is a prefix of what
      was accepted, every writer's bytes are accepted in order, and a write of at most PIPE_BUF bytes
      is accepted in one piece or not at all. */
  lemma PipeRun(steps: seq<Step>, r: System)
    requires Reaches(System([], [], [], []), steps, r)
    ensures r.got <= Bytes(r.log)
    ensures forall w {:trigger r.writes[w]} :: 0 <= w < |r.writes| ==>
              && r.writes[w].done <= |r.writes[w].data| && Own(r.log, w) == r.writes[w].data[..r.writes[w].done]
              && (|r.writes[w].data| <= PIPE_BUF && r.writes[w].begun ==> InOnePiece(r.log, w, r.writes[w].data))
  {
    RunInv(System([], [], [], []), steps, r);
    forall w | 0 <= w < |r.writes| ensures WriteOk(r.log, w, r.writes[w]) { }
  }
}
