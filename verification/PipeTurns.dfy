/** Readers and writers of one pipe, one turn at a time: what each does between taking the pipe's
    semaphore and giving it up to sleep or return (fs/pipe.c:88-115, 162-228). */
module PipeTurns {
  import opened Pipes
  import opened PipeRuns

  /** What a reader's turn leaves, told from the ring before it. */
  lemma Taken(s: System, count: nat, data: string, rest: string)
    requires Inv(s) && s.ring == data + rest && |data| == Min(count, |s.ring|)
    ensures var t := Next(s, Take(count)); Inv(t) && t.ring == rest && t.got == s.got + data
  {
    TakeInv(s, count);
    assert s.ring[..|data|] == data && s.ring[|data|..] == rest;
  }

  /** What a writer's turn leaves. */
  lemma Written(s: System, w: nat, ring: string, written: nat)
    requires Inv(s) && Enabled(s, Put(w))
    requires var wr := s.writes[w]; var left := wr.data[wr.done..];
             written == Min(|left|, PIPE_SIZE - |s.ring|) && ring == s.ring + left[..written]
    ensures var t := Next(s, Put(w)); var wr := s.writes[w];
            Inv(t) && t.ring == ring && t.writes == s.writes[w := Write(wr.data, wr.done + written, true)]
  {
    PutInv(s, w);
    var wr := s.writes[w];
    assert wr.data[wr.done..][..written] == wr.data[wr.done..wr.done + written];
  }

  class PipeInode {
    const pipe: Pipe
    /** The history of the pipe; the ring holds what it says. */
    ghost var s: System

    ghost predicate Valid()
      reads this, pipe, pipe.buf
    {
      pipe.Valid() && pipe.Data() == s.ring && Inv(s)
    }

    constructor ()
      ensures Valid() && s == System([], [], [], []) && fresh(pipe) && fresh(pipe.buf)
    {
      pipe := new Pipe();
      s := System([], [], [], []);
    }

    /** A reader's turn: it gets the oldest bytes, as many as are wanted and there. */
    method ReadTurn(count: nat) returns (data: string)
      requires Valid()
      modifies `s, pipe
      ensures Valid() && s == Next(old(s), Take(count)) && s.got == old(s.got) + data
      ensures old(s.ring) == data + s.ring && |data| == if count < |old(s.ring)| then count else |old(s.ring)|
    {
      data := pipe.CopyOut(count);
      Taken(s, count, data, pipe.Data());
      s := Next(s, Take(count));
    }

    /** pipe_write is called. */
    method Called(data: string) returns (ghost w: nat)
      requires Valid()
      modifies `s
      ensures Valid() && s == Next(old(s), Call(data)) && w == old(|s.writes|) && s.writes[w] == Write(data, 0, false)
    {
      CallInv(s, data);
      w := |s.writes|;
      s := Next(s, Call(data));
    }

    /** A turn of writer `w`, which has `done` of its bytes in and has `begun` if it is past its first
        wait: it must wait exactly if it may not go on, and then nothing happens; otherwise it copies. */
    method WriteTurn(data: string, done: nat, begun: bool, ghost w: nat) returns (wait: bool, written: nat)
      requires Valid() && w < |s.writes| && s.writes[w] == Write(data, done, begun) && done < |data|
      modifies `s, pipe, pipe.buf
      ensures Valid() && (wait <==> !Enabled(old(s), Put(w)))
      ensures wait <==> PIPE_SIZE - |old(s.ring)| < if !begun && |data| <= PIPE_BUF then |data| else 1
      ensures !wait ==> 0 < written <= |data| - done && s.ring == old(s.ring) + data[done..done + written]
      ensures !wait ==> done + written == |data| || |s.ring| == PIPE_SIZE
      ensures wait ==> s == old(s) && written == 0
      ensures !wait ==> s == Next(old(s), Put(w)) && s.writes[w] == Write(data, done + written, true)
    {
      var free := 1;
      if !begun && |data| <= PIPE_BUF {
        free := |data|;
      }
      if PIPE_SIZE - pipe.len < free {
        return true, 0;
      }
      written := pipe.CopyIn(data[done..]);
      Written(s, w, pipe.Data(), written);
      s := Next(s, Put(w));
      return false, written;
    }

  }
}
