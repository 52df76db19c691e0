/** Sequential files: a list of records is printed into a buffer and handed out in pieces of any size
    (fs/seq_file.c:45-226, 279-295). */
module SeqFiles {
  /** The text of the file: its records one after the other. */
  function Flat(rs: seq<string>): string {
    if rs == [] then [] else rs[0] + Flat(rs[1..])
  }

  function From(s: string, k: nat): string {
    if k <= |s| then s[k..] else []
  }

  lemma {:induction false} FlatAppend(rs: seq<string>, r: string)
    ensures Flat(rs + [r]) == Flat(rs) + r
  {
    if rs == [] {
      assert rs + [r] == [r];
    } else {
      assert (rs + [r])[1..] == rs[1..] + [r];
      FlatAppend(rs[1..], r);
    }
  }

  lemma {:induction false} FlatSplit(rs: seq<string>, k: nat)
    requires k <= |rs|
    ensures Flat(rs) == Flat(rs[..k]) + Flat(rs[k..])
  {
    if k > 0 {
      assert rs[1..][..k - 1] == rs[..k][1..] && rs[1..][k - 1..] == rs[k..];
      FlatSplit(rs[1..], k - 1);
    }
  }

  /** The records a..b, and what is left when they are taken from the front of a... */
  lemma FlatTaken(rs: seq<string>, a: nat, b: nat)
    requires a <= b <= |rs|
    ensures Flat(rs[a..]) == Flat(rs[a..b]) + Flat(rs[b..])
  {
    FlatSplit(rs[a..], b - a);
    assert rs[a..][..b - a] == rs[a..b] && rs[a..][b - a..] == rs[b..];
  }

  lemma FlatNext(rs: seq<string>, a: nat, b: nat)
    requires a <= b < |rs|
    ensures Flat(rs[a..b + 1]) == Flat(rs[a..b]) + rs[b]
  {
    assert rs[a..b + 1] == rs[a..b] + [rs[b]];
    FlatAppend(rs[a..b], rs[b]);
  }

  // ---- reads and seeks over a whole run

  /** What one call does to a file with text `text`: a read at `pos` for `size` bytes delivers `data`,
      and nothing only if it is asked for nothing or at the end; a seek moves to any position. */
  datatype Call = Read(size: nat, data: string) | Seek(pos: nat)

  predicate Step(text: string, pos: nat, c: Call) {
    match c
    case Read(size, data) =>
      |data| <= size && data <= From(text, pos) && (size > 0 && From(text, pos) != [] ==> data != [])
    case Seek(_) => true
  }

  function After(pos: nat, c: Call): nat {
    match c
    case Read(_, data) => pos + |data|
    case Seek(p) => p
  }

  predicate Run(text: string, pos: nat, cs: seq<Call>)
    decreases |cs|
  {
    cs == [] || (Step(text, pos, cs[0]) && Run(text, After(pos, cs[0]), cs[1..]))
  }

  function End(pos: nat, cs: seq<Call>): nat
    decreases |cs|
  {
    if cs == [] then pos else End(After(pos, cs[0]), cs[1..])
  }

  lemma {:induction false} RunSplit(text: string, pos: nat, a: seq<Call>, b: seq<Call>)
    requires Run(text, pos, a + b)
    ensures Run(text, pos, a) && Run(text, End(pos, a), b)
    decreases |a|
  {
    if a == [] {
      assert a + b == b;
    } else {
      assert (a + b)[0] == a[0] && (a + b)[1..] == a[1..] + b;
      RunSplit(text, After(pos, a[0]), a[1..], b);
    }
  }

  function Output(cs: seq<Call>): string {
    if cs == [] then [] else (if cs[0].Read? then cs[0].data else []) + Output(cs[1..])
  }

  predicate OnlyReads(cs: seq<Call>) {
    forall c :: c in cs ==> c.Read?
  }

  /** The outputs of successive reads join to the text from the position they start at, nothing lost
      or repeated. */
  lemma {:induction false} ReadsJoin(text: string, pos: nat, cs: seq<Call>)
    requires Run(text, pos, cs) && OnlyReads(cs)
    ensures Output(cs) <= From(text, pos) && End(pos, cs) == pos + |Output(cs)|
    ensures From(text, End(pos, cs)) == From(text, pos)[|Output(cs)|..]
    decreases |cs|
  {
    if cs != [] {
      var c := cs[0];
      FromAfter(text, pos, |c.data|);
      ReadsJoin(text, After(pos, c), cs[1..]);
      TakenTwice(From(text, pos), c.data, Output(cs[1..]));
    }
  }

  /** If the last read asked for bytes and got none, all of the text was delivered. */
  lemma ReadsComplete(text: string, pos: nat, cs: seq<Call>, size: nat)
    requires Run(text, pos, cs + [Read(size, [])]) && OnlyReads(cs) && size > 0
    ensures Output(cs) == From(text, pos)
  {
    RunSplit(text, pos, cs, [Read(size, [])]);
    ReadsJoin(text, pos, cs);
    assert Step(text, End(pos, cs), Read(size, []));
    assert From(text, pos)[|Output(cs)|..] == [];
  }

  /** Whatever was read before, reads after a seek continue from the byte sought. */
  lemma SeekThenRead(text: string, pos: nat, pre: seq<Call>, off: nat, later: seq<Call>)
    requires Run(text, pos, pre + ([Seek(off)] + later)) && OnlyReads(later)
    ensures Output(later) <= From(text, off)
  {
    RunSplit(text, pos, pre, [Seek(off)] + later);
    assert ([Seek(off)] + later)[1..] == later;
    ReadsJoin(text, off, later);
  }

  // ---- the buffer

  /** `x` and then the records from `index` on. */
  function Onward(x: string, rs: seq<string>, index: nat): string
    requires index <= |rs|
  {
    x + Flat(rs[index..])
  }

  /** Unread bytes in buffer `b` are the end of record `index`; with the records after it they make up
      `rest`. */
  predicate Left(rs: seq<string>, b: string, from: nat, count: nat, index: nat, rest: string) {
    && index <= |rs| && from + count <= |b|
    && if count == 0 then rest == Onward([], rs, index)
       else index < |rs| && IsEnd(b[from..from + count], rs[index]) &&
            rest == Onward(b[from..from + count], rs, index + 1)
  }

  predicate IsEnd(x: string, r: string) {
    |x| <= |r| && x == r[|r| - |x|..]
  }

  lemma EndOfEnd(x: string, r: string, n: nat)
    requires IsEnd(x, r) && n <= |x|
    ensures IsEnd(x[n..], r)
  {
  }

  lemma Cut(b: string, from: nat, to: nat, n: nat)
    requires from + n <= to <= |b|
    ensures b[from..to] == b[from..from + n] + b[from + n..to] && b[from..to][n..] == b[from + n..to]
  {
  }

  lemma OnwardCut(x: string, rs: seq<string>, index: nat, n: nat)
    requires index <= |rs| && n <= |x|
    ensures Onward(x, rs, index)[..n] == x[..n] && Onward(x, rs, index)[n..] == Onward(x[n..], rs, index)
  {
  }

  /** Handing out the first `n` of the unread bytes. */
  lemma FlushedSome(rs: seq<string>, b: string, from: nat, count: nat, index: nat, rest: string, n: nat)
    requires Left(rs, b, from, count, index, rest) && n < count
    ensures Taken(rs, b, from + n, count - n, index, rest, b[from..from + n], n)
  {
    var x := b[from..from + count];
    Cut(b, from, from + count, n);
    EndOfEnd(x, rs[index], n);
    OnwardCut(x, rs, index + 1, n);
    assert x[..n] == b[from..from + n];
  }

  /** Handing out all of them. */
  lemma FlushedAll(rs: seq<string>, b: string, from: nat, count: nat, index: nat, rest: string)
    requires Left(rs, b, from, count, index, rest) && 0 < count
    ensures Taken(rs, b, from + count, 0, index + 1, rest, b[from..from + count], count)
  {
    var x := b[from..from + count];
    OnwardCut(x, rs, index + 1, count);
    assert x[..count] == x && x[count..] == [];
  }

  /** The buffer holds the records start..pos. */
  predicate Filled(rs: seq<string>, b: string, count: nat, start: nat, pos: nat, size: nat) {
    && start <= pos < |rs| && count < |b| && b[..count] == Flat(rs[start..pos + 1]) && |rs[pos]| <= count
    && (count - |rs[pos]| < size || pos == start)
  }

  lemma FilledFirst(rs: seq<string>, b: string, count: nat, start: nat, size: nat)
    requires start < |rs| && count == |rs[start]| < |b| && b[..count] == rs[start]
    ensures Filled(rs, b, count, start, start, size)
  {
    FlatNext(rs, start, start);
    assert rs[start..start] == [];
  }

  lemma FilledNext(rs: seq<string>, b: string, count: nat, start: nat, pos: nat, size: nat, b': string)
    requires Filled(rs, b, count, start, pos, size) && pos + 1 < |rs| && count < size
    requires |b'| == |b| && count + |rs[pos + 1]| < |b| && b'[..count] == b[..count]
    requires b'[count..count + |rs[pos + 1]|] == rs[pos + 1]
    ensures Filled(rs, b', count + |rs[pos + 1]|, start, pos + 1, size)
  {
    FlatNext(rs, start, pos + 1);
    var c := count + |rs[pos + 1]|;
    assert b'[..c] == b'[..count] + b'[count..c];
  }

  /** What a filled buffer holds, and the last record in it. */
  lemma FilledText(rs: seq<string>, b: string, count: nat, start: nat, pos: nat, size: nat)
    requires Filled(rs, b, count, start, pos, size)
    ensures Onward([], rs, start) == Onward(b[..count], rs, pos + 1)
    ensures forall n :: count - |rs[pos]| <= n <= count ==> IsEnd(b[..count][n..], rs[pos])
  {
    FlatTaken(rs, start, pos + 1);
    FlatNext(rs, start, pos);
    var head, r := Flat(rs[start..pos]), rs[pos];
    forall n | count - |r| <= n <= count ensures IsEnd(b[..count][n..], r) {
      EndOfJoin(head, r, n);
    }
  }

  /** All bytes of a filled buffer are handed out. */
  lemma DeliveredAll(rs: seq<string>, b: string, from: nat, count: nat, start: nat, pos: nat, size: nat)
    requires Filled(rs, b, count, start, pos, size) && from <= |b|
    ensures b[..count] <= Onward([], rs, start)
    ensures Left(rs, b, from, 0, pos + 1, Onward([], rs, start)[count..])
  {
    FilledText(rs, b, count, start, pos, size);
    OnwardCut(b[..count], rs, pos + 1, count);
    assert b[..count][count..] == [] && b[..count][..count] == b[..count];
  }

  /** The first `size` bytes are handed out; the others stay and belong to the last record. */
  lemma DeliveredSome(rs: seq<string>, b: string, count: nat, start: nat, pos: nat, size: nat)
    requires Filled(rs, b, count, start, pos, size) && size < count
    ensures b[..size] <= Onward([], rs, start)
    ensures Left(rs, b, size, count - size, pos, Onward([], rs, start)[size..])
  {
    FilledText(rs, b, count, start, pos, size);
    if pos == start { assert rs[start..pos + 1] == [rs[pos]] && Flat([rs[pos]]) == rs[pos] + [] == rs[pos]; }
    var x := b[..count];
    OnwardCut(x, rs, pos + 1, size);
    assert x[..size] == b[..size];
    assert x[size..] == b[size..size + (count - size)];
  }

  lemma EndOfJoin(head: string, r: string, n: nat)
    requires |head| <= n <= |head + r|
    ensures IsEnd((head + r)[n..], r)
  {
    assert (head + r)[n..] == r[n - |head|..];
  }

  /** If nothing more was shown, something was. */
  lemma SomethingShown(rs: seq<string>, b: string, count: nat, start: nat, pos: nat, size: nat)
    requires Filled(rs, b, count, start, pos, size) && size > 0 && Flat(rs[start..]) != []
    requires count >= size || pos + 1 == |rs| || count + |rs[pos + 1]| >= |b| > |rs[pos + 1]|
    ensures count > 0
  {
    FlatTaken(rs, start, pos + 1);
  }

  // ---- the file in memory

  datatype Result = Ok(pos: int) | EINVAL

  class SeqFile {
    const records: seq<string>
    const buf: array<char>
    var from: nat
    var count: nat
    var index: nat
    var fpos: nat

    predicate Short()
      reads buf
    {
      forall i :: 0 <= i < |records| ==> |records[i]| < buf.Length
    }

    /** What is still to come is the text from the file position on. */
    ghost predicate Ready()
      reads this, buf
    {
      Short() && Left(records, buf[..], from, count, index, From(Flat(records), fpos))
    }

    /** seq_open, and the buffer seq_read takes when it has none. */
    constructor (rs: seq<string>, size: nat)
      requires forall i :: 0 <= i < |rs| ==> |rs[i]| < size
      ensures Ready() && records == rs && fpos == 0 && fresh(buf) && buf.Length == size
    {
      records := rs;
      buf := new char[size];
      from, count, index, fpos := 0, 0, 0, 0;
    }

    /** seq_printf of a record that ends before the buffer does, or a full buffer. */
    method Show(r: string)
      requires count <= buf.Length
      modifies buf, `count
      ensures count == if old(count) + |r| < buf.Length then old(count) + |r| else buf.Length
      ensures buf[..old(count)] == old(buf[..count])
      ensures old(count) + |r| < buf.Length ==> buf[old(count)..old(count) + |r|] == r
    {
      if count + |r| < buf.Length {
        var i := 0;
        while i < |r|
          invariant i <= |r| && buf[..count] == old(buf[..count])
          invariant buf[count..count + i] == r[..i]
          modifies buf
        {
          buf[count + i] := r[i];
          i := i + 1;
          assert buf[count..count + i] == buf[count..count + i - 1] + [r[i - 1]];
        }
        count := count + |r|;
      } else {
        count := buf.Length;
      }
    }

    /** The part of seq_read that hands out what is left in the buffer (lines 64-79). */
    method Flush(size: nat, ghost rest: string) returns (data: string)
      requires Left(records, buf[..], from, count, index, rest) && count > 0
      modifies this`count, this`from, this`index
      ensures Taken(records, buf[..], from, count, index, rest, data, size)
      ensures if size < old(count) then |data| == size else |data| == old(count) && count == 0
    {
      var n := if count < size then count else size;
      data := buf[..][from..from + n];
      if n == count {
        FlushedAll(records, buf[..], from, count, index, rest);
        index := index + 1;
      } else {
        FlushedSome(records, buf[..], from, count, index, rest, n);
      }
      count := count - n;
      from := from + n;
    }

    /** Records are shown into the empty buffer, the first one and as many more as are wanted and fit
        (lines 80-117). */
    method ShowRecords(size: nat) returns (pos: nat)
      requires Short() && count == 0 && index < |records|
      modifies buf, `count
      ensures Filled(records, buf[..], count, index, pos, size)
      ensures size > 0 && Flat(records[index..]) != [] ==> count > 0
    {
      pos := index;
      Show(records[pos]);
      FilledFirst(records, buf[..], count, index, size);
      while count < size
        invariant Filled(records, buf[..], count, index, pos, size)
        decreases |records| - pos
      {
        var offs, next := count, pos + 1;
        if next == |records| {
          break;
        }
        ghost var b, c := buf[..], count;
        Show(records[next]);
        if count == buf.Length {
          count := offs;
          StillFilled(records, b, buf[..], count, index, pos, size);
          break;
        }
        FilledNext(records, b, c, index, pos, size, buf[..]);
        pos := next;
      }
      if size > 0 && Flat(records[index..]) != [] {
        SomethingShown(records, buf[..], count, index, pos, size);
      }
    }

    /** The end of seq_read: `n` of the bytes shown go out and the rest stays (lines 118-128). */
    method Deliver(size: nat, last: nat) returns (data: string)
      requires Filled(records, buf[..], count, index, last, size) && from <= buf.Length
      modifies this`count, this`from, this`index
      ensures Taken(records, buf[..], from, count, index, Onward([], records, old(index)), data, size)
      ensures size > 0 && old(count) > 0 ==> data != []
    {
      var n, pos := if count < size then count else size, last;
      if n == count {
        DeliveredAll(records, buf[..], from, count, index, pos, size);
      } else {
        DeliveredSome(records, buf[..], count, index, pos, size);
      }
      data := buf[..][..n];
      count := count - n;
      if count > 0 {
        from := n;
      } else {
        pos := pos + 1;
      }
      index := pos;
    }

    /** The second half of seq_read, with an empty buffer. */
    method ReadOn(size: nat) returns (more: string)
      requires Short() && index < |records| && from <= buf.Length && count == 0
      modifies buf, `from, `count, `index
      ensures Taken(records, buf[..], from, count, index, Onward([], records, old(index)), more, size)
      ensures size > 0 && Onward([], records, old(index)) != [] ==> more != []
    {
      var pos := ShowRecords(size);
      more := Deliver(size, pos);
    }

    /** traverse: find the byte at `offset`. */
    method Traverse(offset: nat)
      requires Short()
      modifies buf, `from, `count, `index
      ensures Left(records, buf[..], from, count, index, From(Flat(records), offset))
    {
      index, count, from := 0, 0, 0;
      var pos := 0;
      assert records[..0] == [];
      if offset == 0 {
        SoughtEnd(records, buf[..], 0, 0);
        return;
      }
      while index < |records|
        invariant index <= |records| && count == 0 && from == 0
        invariant pos == |Flat(records[..index])| < offset
      {
        Show(records[index]);
        FlatNext(records, 0, index);
        if pos + count > offset {
          from := offset - pos;
          count := count - from;
          Sought(records, buf[..], index, from, count);
          return;
        }
        pos := pos + count;
        count := 0;
        if pos == offset {
          index := index + 1;
          SoughtEnd(records, buf[..], index, offset);
          return;
        }
        index := index + 1;
      }
      assert records[..index] == records;
      SoughtEnd(records, buf[..], index, offset);
    }

    /** seq_lseek: from the start (0) or the file position (1). */
    method SeqLseek(offset0: int, origin: int) returns (r: Result)
      requires Ready()
      modifies this, buf
      ensures Ready()
      ensures var target := offset0 + if origin == 1 then old(fpos) else 0;
              if origin in {0, 1} && target >= 0 then r == Ok(target) && fpos == After(old(fpos), Seek(target))
              else r == EINVAL && fpos == old(fpos)
    {
      if origin !in {0, 1} {
        return EINVAL;
      }
      var offset := if origin == 1 then offset0 + fpos else offset0;
      if offset < 0 {
        return EINVAL;
      }
      if offset != fpos {
        Traverse(offset);
        fpos := offset;
      }
      return Ok(offset);
    }

    /** seq_read up to the update of the file position. */
    method Gather(size0: nat, ghost rest: string) returns (data: string)
      requires Short() && Left(records, buf[..], from, count, index, rest)
      modifies buf, `from, `count, `index
      ensures Taken(records, buf[..], from, count, index, rest, data, size0)
      ensures size0 > 0 && rest != [] ==> data != []
    {
      data := [];
      if count > 0 {
        data := Flush(size0, rest);
        if |data| == size0 {
          return;
        }
      }
      if index < |records| {
        var more := ReadOn(size0 - |data|);
        TakenTwice(rest, data, more);
        data := data + more;
      }
    }

    /** seq_read. */
    method SeqRead(size: nat) returns (data: string)
      requires Ready()
      modifies this, buf
      ensures Ready() && fpos == After(old(fpos), Read(size, data))
      ensures Step(Flat(records), old(fpos), Read(size, data))
    {
      data := Gather(size, From(Flat(records), fpos));
      fpos := fpos + |data|;
      FromAfter(Flat(records), old(fpos), |data|);
    }
  }

  /** The text from a byte of record `i` on. */
  lemma FromRecord(rs: seq<string>, i: nat, n: nat)
    requires i < |rs| && n <= |rs[i]|
    ensures From(Flat(rs), |Flat(rs[..i])| + n) == Onward(rs[i][n..], rs, i + 1)
  {
    FlatSplit(rs, i);
    FlatTaken(rs, i, i + 1);
    assert rs[i..i + 1] == [rs[i]] && Flat([rs[i]]) == rs[i] + [] == rs[i];
    var head, tail := Flat(rs[..i]), Flat(rs[i + 1..]);
    assert Flat(rs) == head + (rs[i] + tail);
    assert (head + (rs[i] + tail))[|head| + n..] == (rs[i] + tail)[n..] == rs[i][n..] + tail;
  }

  lemma Sought(rs: seq<string>, b: string, i: nat, from: nat, count: nat)
    requires i < |rs| && from < |rs[i]| && count == |rs[i]| - from && |rs[i]| <= |b| && b[..|rs[i]|] == rs[i]
    ensures Left(rs, b, from, count, i, From(Flat(rs), |Flat(rs[..i])| + from))
  {
    FromRecord(rs, i, from);
    Cut(b, 0, |rs[i]|, from);
  }

  lemma SoughtEnd(rs: seq<string>, b: string, i: nat, pos: nat)
    requires i <= |rs| && pos >= |Flat(rs[..i])| && (pos == |Flat(rs[..i])| || i == |rs|)
    ensures Left(rs, b, 0, 0, i, From(Flat(rs), pos))
  {
    FlatSplit(rs, i);
  }

  /** Of what was pending, `rest`, the bytes `data` were handed out. */
  predicate Taken(rs: seq<string>, b: string, from: nat, count: nat, index: nat, rest: string, data: string,
                  size: nat)
  {
    |data| <= size && data <= rest && Left(rs, b, from, count, index, rest[|data|..])
  }

  lemma FromAfter(text: string, pos: nat, n: nat)
    requires n <= |From(text, pos)|
    ensures From(text, pos + n) == From(text, pos)[n..]
  {
  }

  lemma TakenTwice(rest: string, a: string, b: string)
    requires a <= rest && b <= rest[|a|..]
    ensures a + b <= rest && rest[|a|..][|b|..] == rest[|a + b|..]
  {
  }

  lemma StillFilled(rs: seq<string>, b: string, b': string, count: nat, start: nat, pos: nat, size: nat)
    requires Filled(rs, b, count, start, pos, size) && |b'| == |b| && b'[..count] == b[..count]
    ensures Filled(rs, b', count, start, pos, size)
  {
  }
}
