/** Pipes: a ring buffer of one page, and the order of the bytes that pass through it (fs/pipe.c:39-231;
    include/linux/pipe_fs_i.h:18-39). */
module Pipes {
  const PIPE_SIZE := 4096
  const PIPE_BUF := 4096

  // ---- the ring

  /** The bytes in the ring, from `start` on. */
  function Contents(b: string, start: nat, len: nat): string
    requires |b| == PIPE_SIZE && start < PIPE_SIZE && len <= PIPE_SIZE
  {
    if start + len <= PIPE_SIZE then b[start..start + len] else b[start..] + b[..start + len - PIPE_SIZE]
  }

  /** PIPE_END, and the place `n` bytes after `start`. */
  function Wrap(x: nat): nat
    requires x < 2 * PIPE_SIZE
  {
    if x < PIPE_SIZE then x else x - PIPE_SIZE
  }

  /** The bytes from `start` on come first, and the ring goes on after them. */
  lemma TakeChunk(b: string, start: nat, len: nat, n: nat)
    requires |b| == PIPE_SIZE && start < PIPE_SIZE && n <= len <= PIPE_SIZE && start + n <= PIPE_SIZE
    ensures Contents(b, start, len) == b[start..start + n] + Contents(b, Wrap(start + n), len - n)
  {
  }

  /** `b'` is `b` with `x` put in at `end`. */
  predicate PutAt(b: string, b': string, end: nat, x: string) {
    && end + |x| <= |b| == |b'| && b'[end..end + |x|] == x
    && b'[..end] == b[..end] && b'[end + |x|..] == b[end + |x|..]
  }

  lemma PutNext(b: string, c: string, end: nat, x: string, i: nat)
    requires i < |x| && PutAt(b, c, end, x[..i]) && end + |x| <= |b|
    ensures PutAt(b, c[end + i := x[i]], end, x[..i + 1])
  {
    var d := c[end + i := x[i]];
    assert d[end..end + i + 1] == c[end..end + i] + [x[i]];
    assert x[..i + 1] == x[..i] + [x[i]];
    assert d[..end] == c[..end];
    assert d[end + i + 1..] == c[end + i..][1..] && b[end + i..][1..] == b[end + i + 1..];
  }

  /** Bytes put in at the end of the ring stand behind what was in it. */
  lemma PutChunk(b: string, b': string, start: nat, len: nat, x: string)
    requires |b| == PIPE_SIZE && start < PIPE_SIZE && len + |x| <= PIPE_SIZE && PutAt(b, b', Wrap(start + len), x)
    ensures Contents(b', start, len + |x|) == Contents(b, start, len) + x
  {
  }

  lemma Grown(d: string, data: string, k: nat, n: nat)
    requires k + n <= |data|
    ensures (d + data[..k]) + data[k..k + n] == d + data[..k + n]
  {
    assert data[..k + n] == data[..k] + data[k..k + n];
    Joining(d, data[..k], data[k..k + n]);
  }

  lemma Joining(a: string, b: string, c: string)
    ensures a + (b + c) == (a + b) + c
  {
  }

  class Pipe {
    const buf: array<char>
    var start: nat
    var len: nat

    ghost predicate Valid()
      reads this, buf
    {
      buf.Length == PIPE_SIZE && start < PIPE_SIZE && len <= PIPE_SIZE
    }

    ghost function Data(): (d: string)
      reads this, buf
      requires Valid()
      ensures |d| == len
    {
      Contents(buf[..], start, len)
    }

    constructor ()
      ensures Valid() && Data() == [] && fresh(buf)
    {
      buf := new char[PIPE_SIZE];
      start, len := 0, 0;
    }

    /** One chunk of the copy loop of pipe_read. */
    method TakeOut(n: nat) returns (x: string)
      requires Valid() && n <= len && start + n <= PIPE_SIZE
      modifies `start, `len
      ensures Valid() && |x| == n && old(Data()) == x + Data() && len == old(len) - n
    {
      TakeChunk(buf[..], start, len, n);
      x := buf[..][start..start + n];
      start := Wrap(start + n);
      len := len - n;
    }

    /** The copy loop of pipe_read (lines 88-110): the oldest bytes, as many as are wanted and there. */
    method CopyOut(count0: nat) returns (data: string)
      requires Valid()
      modifies `start, `len
      ensures Valid() && old(Data()) == data + Data()
      ensures |data| == if count0 < old(len) then count0 else old(len)
    {
      var count: nat := count0;
      data := [];
      ghost var all := Data();
      while count > 0 && len > 0
        invariant Valid() && count + |data| == count0 && all == data + Data() && len + |data| == old(len)
      {
        var chars := PIPE_SIZE - start;
        if chars > count {
          chars := count;
        }
        if chars > len {
          chars := len;
        }
        var x := TakeOut(chars);
        Joining(data, x, Data());
        data := data + x;
        count := count - chars;
      }
      if len == 0 {
        start := 0;
      }
    }

    /** One chunk of the copy loop of pipe_write. */
    method PutIn(x: string)
      requires Valid() && len + |x| <= PIPE_SIZE && Wrap(start + len) + |x| <= PIPE_SIZE
      modifies buf, `len
      ensures Valid() && Data() == old(Data()) + x && len == old(len) + |x|
    {
      var end, i := Wrap(start + len), 0;
      ghost var b := buf[..];
      while i < |x|
        invariant 0 <= i <= |x| && PutAt(b, buf[..], end, x[..i])
        modifies buf
      {
        ghost var c := buf[..];
        PutNext(b, c, end, x, i);
        buf[end + i] := x[i];
        assert buf[..] == c[end + i := x[i]];
        i := i + 1;
      }
      assert x[..i] == x;
      PutChunk(b, buf[..], start, len, x);
      len := len + |x|;
    }

    /** The copy loop of pipe_write until the bytes or the room run out (lines 186-206). */
    method CopyIn(data: string) returns (written: nat)
      requires Valid()
      modifies buf, `len
      ensures Valid() && written == (if |data| < PIPE_SIZE - old(len) then |data| else PIPE_SIZE - old(len))
      ensures Data() == old(Data()) + data[..written]
    {
      written := 0;
      ghost var d0 := Data();
      assert d0 + data[..0] == d0;
      while written < |data| && len < PIPE_SIZE
        invariant Valid() && written <= |data| && len == old(len) + written && Data() == d0 + data[..written]
      {
        var chars := PIPE_SIZE - Wrap(start + len);
        if chars > |data| - written {
          chars := |data| - written;
        }
        if chars > PIPE_SIZE - len {
          chars := PIPE_SIZE - len;
        }
        Grown(d0, data, written, chars);
        PutIn(data[written..written + chars]);
        written := written + chars;
      }
    }
  }
}
