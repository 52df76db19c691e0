/** The argument pages of a new program: copy_strings, remove_arg_zero and the walk that finds the
    strings again (fs/exec.c:183-259, 755-777; fs/binfmt_elf.c:218-236). */
module ArgPages {
  const PAGE_SIZE := 4096
  const MAX_ARG_PAGES := 32
  const NUL: char := '\0'

  /** Strings as exec receives them: without NUL inside. */
  predicate CString(s: string) {
    NUL !in s
  }

  predicate CStrings(ss: seq<string>) {
    forall i :: 0 <= i < |ss| ==> CString(ss[i])
  }

  /** The strings one after the other, each with its NUL. */
  function Joined(ss: seq<string>): string {
    if ss == [] then [] else ss[0] + [NUL] + Joined(ss[1..])
  }

  lemma {:induction false} JoinedFrom(ss: seq<string>, k: nat)
    requires k < |ss|
    ensures Joined(ss[k..]) == ss[k] + [NUL] + Joined(ss[k + 1..])
  {
    assert ss[k..][1..] == ss[k + 1..];
  }

  lemma {:induction false} JoinedConcat(a: seq<string>, b: seq<string>)
    ensures Joined(a + b) == Joined(a) + Joined(b)
  {
    if a == [] {
      assert a + b == b;
    } else {
      assert (a + b)[1..] == a[1..] + b;
      JoinedConcat(a[1..], b);
    }
  }

  // ---- memory

  /** The bytes at addresses; a page that is not there reads as zeros. */
  function At(pages: map<nat, string>, a: nat): char {
    var i, o := a / PAGE_SIZE, a % PAGE_SIZE;
    if i in pages && o < |pages[i]| then pages[i][o] else NUL
  }

  predicate WholePages(pages: map<nat, string>) {
    forall i :: i in pages ==> |pages[i]| == PAGE_SIZE
  }

  /** `text` stands in memory from address `p` on. */
  predicate Holds(mem: nat -> char, p: nat, text: string) {
    forall k {:trigger text[k]} :: 0 <= k < |text| ==> mem(p + k) == text[k]
  }

  function Mem(pages: map<nat, string>): nat -> char {
    (a: nat) => At(pages, a)
  }

  /** From `pages` to `now` only the bytes from `p` on changed: they are `text`. */
  ghost predicate Wrote(pages: map<nat, string>, now: map<nat, string>, p: nat, text: string) {
    forall a: nat {:trigger At(now, a)} :: At(now, a) == if p <= a < p + |text| then text[a - p] else At(pages, a)
  }

  /** The pages of the addresses lo..hi are there. */
  ghost predicate Backed(pages: map<nat, string>, lo: nat, hi: nat) {
    forall a: nat {:trigger HasPage(pages, a)} :: lo <= a < hi ==> HasPage(pages, a)
  }

  predicate HasPage(pages: map<nat, string>, a: nat) {
    a / PAGE_SIZE in pages
  }

  lemma WroteHolds(pages: map<nat, string>, now: map<nat, string>, p: nat, text: string)
    requires Wrote(pages, now, p, text)
    ensures Holds(Mem(now), p, text)
  {
    forall k | 0 <= k < |text| ensures Mem(now)(p + k) == text[k] {
      assert At(now, p + k) == text[k];
    }
  }

  lemma WroteNothing(pages: map<nat, string>, p: nat)
    ensures Wrote(pages, pages, p, [])
  {
  }

  /** Writing `x` and then `y` just after it. */
  lemma WroteOn(a: map<nat, string>, b: map<nat, string>, c: map<nat, string>, p: nat, x: string, y: string)
    requires Wrote(a, b, p, x) && Wrote(b, c, p + |x|, y)
    ensures Wrote(a, c, p, x + y)
  {
    forall q: nat ensures At(c, q) == if p <= q < p + |x + y| then (x + y)[q - p] else At(a, q) {
      assert At(b, q) == if p <= q < p + |x| then x[q - p] else At(a, q);
    }
  }

  /** Writing `y` and then `x` just before it. */
  lemma WroteBefore(a: map<nat, string>, b: map<nat, string>, c: map<nat, string>, p: nat, x: string, y: string)
    requires Wrote(a, b, p + |x|, y) && Wrote(b, c, p, x)
    ensures Wrote(a, c, p, x + y)
  {
    forall q: nat ensures At(c, q) == if p <= q < p + |x + y| then (x + y)[q - p] else At(a, q) {
      assert At(b, q) == if p + |x| <= q < p + |x| + |y| then y[q - p - |x|] else At(a, q);
    }
  }

  // ---- one page

  function Zeros(n: nat): string {
    seq(n, _ => NUL)
  }

  /** Page `i` is replaced by one that differs from it in `x` at offset `o`. */
  lemma PageWrote(pages: map<nat, string>, i: nat, o: nat, x: string, page: string)
    requires o + |x| <= PAGE_SIZE == |page|
    requires forall j :: 0 <= j < PAGE_SIZE ==>
               page[j] == if o <= j < o + |x| then x[j - o] else At(pages, i * PAGE_SIZE + j)
    ensures Wrote(pages, pages[i := page], i * PAGE_SIZE + o, x)
  {
    var now, p := pages[i := page], i * PAGE_SIZE + o;
    forall a: nat ensures At(now, a) == if p <= a < p + |x| then x[a - p] else At(pages, a) {
      var j := a % PAGE_SIZE;
      if a / PAGE_SIZE == i {
        assert a == i * PAGE_SIZE + j;
        assert page[j] == if o <= j < o + |x| then x[j - o] else At(pages, i * PAGE_SIZE + j);
      }
    }
  }

  lemma AtPage(pages: map<nat, string>, i: nat, j: nat)
    requires j < PAGE_SIZE && WholePages(pages)
    ensures At(pages, i * PAGE_SIZE + j) == if i in pages then pages[i][j] else NUL
  {
    assert (i * PAGE_SIZE + j) / PAGE_SIZE == i && (i * PAGE_SIZE + j) % PAGE_SIZE == j;
  }

  datatype Errno = Ok | E2BIG

  class Binprm {
    var pages: map<nat, string>
    var p: nat
    var argc: nat

    constructor (p: nat, argc: nat)
      ensures pages == map[] && this.p == p && this.argc == argc
    {
      pages := map[];
      this.p, this.argc := p, argc;
    }

    /** The page that goes to `i`, but for the `n` bytes at `offset`: as it was, or of a new one only zeros
        (lines 219-243). */
    method PageFor(i: nat, offset: nat, n: nat) returns (page: string)
      requires WholePages(pages) && offset + n <= PAGE_SIZE
      ensures |page| == PAGE_SIZE
      ensures forall j :: 0 <= j < PAGE_SIZE && !(offset <= j < offset + n) ==> page[j] == At(pages, i * PAGE_SIZE + j)
    {
      forall j | 0 <= j < PAGE_SIZE
        ensures At(pages, i * PAGE_SIZE + j) == if i in pages then pages[i][j] else NUL
      {
        AtPage(pages, i, j);
      }
      if i in pages {
        return pages[i];
      }
      assert |Zeros(PAGE_SIZE)| == PAGE_SIZE;
      page :| |page| == PAGE_SIZE;
      if offset > 0 {
        page := Zeros(offset) + page[offset..];
      }
      if offset + n < PAGE_SIZE {
        page := page[..offset + n] + Zeros(PAGE_SIZE - offset - n);
      }
    }

    /** One turn of the inner loop of copy_strings: the part of `text` that falls on the page of `pos`
        (lines 209-252). */
    method CopyToPage(pos: nat, text: string) returns (n: nat)
      requires WholePages(pages) && text != []
      modifies `pages
      ensures 0 < n <= |text| && WholePages(pages)
      ensures Wrote(old(pages), pages, pos, text[..n]) && Backed(pages, pos, pos + n)
      ensures old(pages).Keys <= pages.Keys
    {
      var offset, i := pos % PAGE_SIZE, pos / PAGE_SIZE;
      n := PAGE_SIZE - offset;
      if n > |text| {
        n := |text|;
      }
      var page := PageFor(i, offset, n);
      page := page[..offset] + text[..n] + page[offset + n..];
      assert pos == i * PAGE_SIZE + offset;
      PageWrote(pages, i, offset, text[..n], page);
      pages := pages[i := page];
      forall a: nat | pos <= a < pos + n ensures HasPage(pages, a) { assert a / PAGE_SIZE == i; }
    }

    /** The inner loop of copy_strings: `text` is written from `start` on, across pages. */
    method CopyText(start: nat, text: string)
      requires WholePages(pages)
      modifies `pages
      ensures WholePages(pages) && Wrote(old(pages), pages, start, text) && Backed(pages, start, start + |text|)
      ensures old(pages).Keys <= pages.Keys
    {
      var done: nat := 0;
      WroteNothing(pages, start);
      assert text[..0] == [];
      while done < |text|
        invariant done <= |text| && WholePages(pages) && old(pages).Keys <= pages.Keys
        invariant Wrote(old(pages), pages, start, text[..done]) && Backed(pages, start, start + done)
      {
        ghost var before := pages;
        var n := CopyToPage(start + done, text[done..]);
        WroteOn(old(pages), before, pages, start, text[..done], text[done..][..n]);
        assert text[..done] + text[done..][..n] == text[..done + n];
        BackedOn(before, pages, start, start + done, start + done + n);
        done := done + n;
      }
      assert text[..done] == text;
    }

    /** copy_strings: the strings end up one after the other just below where `p` was, in order,
        although they are copied last first; it refuses exactly what does not fit. */
    method CopyStrings(argv: seq<string>) returns (err: Errno)
      requires WholePages(pages)
      modifies `pages, `p
      ensures WholePages(pages) && old(pages).Keys <= pages.Keys
      ensures err == E2BIG <==> |Joined(argv)| > old(p)
      ensures err == Ok ==> p == old(p) - |Joined(argv)| && Wrote(old(pages), pages, p, Joined(argv)) &&
                            Backed(pages, p, old(p))
    {
      var k := |argv|;
      WroteNothing(pages, p);
      assert argv[k..] == [];
      while k > 0
        invariant 0 <= k <= |argv| && WholePages(pages) && old(pages).Keys <= pages.Keys
        invariant |Joined(argv[k..])| <= old(p) && p == old(p) - |Joined(argv[k..])|
        invariant Wrote(old(pages), pages, p, Joined(argv[k..])) && Backed(pages, p, old(p))
      {
        k := k - 1;
        JoinedFrom(argv, k);
        var text := argv[k] + [NUL];
        if p < |text| {
          TailFits(argv, k);
          return E2BIG;
        }
        p := p - |text|;
        ghost var before := pages;
        CopyText(p, text);
        WroteBefore(old(pages), before, pages, p, text, Joined(argv[k + 1..]));
        BackedBefore(before, pages, p, p + |text|, old(p));
      }
      assert argv[0..] == argv;
      return Ok;
    }

    /** remove_arg_zero: `p` moves past the first NUL, from page to page. */
    method RemoveArgZero(ghost end: nat)
      requires WholePages(pages) && (argc > 0 ==> p <= end && At(pages, end) == NUL && Backed(pages, p, end + 1))
      modifies `p, `argc
      ensures if old(argc) == 0 then p == old(p) && argc == 0
              else argc == old(argc) - 1 && old(p) < p <= end + 1 && At(pages, p - 1) == NUL &&
                   forall a: nat {:trigger At(pages, a)} :: old(p) <= a < p - 1 ==> At(pages, a) != NUL
    {
      if argc > 0 {
        ghost var p0 := p;
        var offset := p % PAGE_SIZE;
        assert HasPage(pages, p);
        var page := pages[p / PAGE_SIZE];
        while true
          invariant p0 <= p <= end && argc == old(argc) && offset == p % PAGE_SIZE
          invariant p / PAGE_SIZE in pages && page == pages[p / PAGE_SIZE]
          invariant forall a: nat {:trigger At(pages, a)} :: p0 <= a < p ==> At(pages, a) != NUL
          decreases end - p
        {
          var c := page[offset];
          assert c == At(pages, p);
          p := p + 1;
          offset := offset + 1;
          if c == NUL {
            break;
          }
          NextOffset(p);
          assert p <= end && HasPage(pages, p);
          if offset == PAGE_SIZE {
            offset := 0;
            page := pages[p / PAGE_SIZE];
          }
        }
        argc := argc - 1;
      }
    }
  }

  lemma BackedOn(before: map<nat, string>, now: map<nat, string>, lo: nat, mid: nat, hi: nat)
    requires Backed(before, lo, mid) && Backed(now, mid, hi) && before.Keys <= now.Keys
    ensures Backed(now, lo, hi)
  {
    forall a: nat | lo <= a < hi ensures HasPage(now, a) {
      assert HasPage(before, a) || HasPage(now, a);
    }
  }

  lemma BackedBefore(before: map<nat, string>, now: map<nat, string>, lo: nat, mid: nat, hi: nat)
    requires Backed(now, lo, mid) && Backed(before, mid, hi) && before.Keys <= now.Keys
    ensures Backed(now, lo, hi)
  {
    forall a: nat | lo <= a < hi ensures HasPage(now, a) {
      assert HasPage(before, a) || HasPage(now, a);
    }
  }

  /** The last strings take no more room than all of them. */
  lemma TailFits(ss: seq<string>, k: nat)
    requires k <= |ss|
    ensures |Joined(ss[k..])| <= |Joined(ss)|
  {
    JoinedConcat(ss[..k], ss[k..]);
    assert ss[..k] + ss[k..] == ss;
  }

  lemma NextOffset(p: nat)
    requires p > 0
    ensures if p % PAGE_SIZE == 0 then (p - 1) % PAGE_SIZE + 1 == PAGE_SIZE
            else (p - 1) % PAGE_SIZE + 1 == p % PAGE_SIZE && (p - 1) / PAGE_SIZE == p / PAGE_SIZE
  {
  }

  // ---- the strings are found again

  /** Text that stands in memory does so in parts. */
  lemma HoldsSplit(mem: nat -> char, p: nat, a: string, e: string)
    requires Holds(mem, p, a + e)
    ensures Holds(mem, p, a) && Holds(mem, p + |a|, e)
  {
    forall k | 0 <= k < |a| ensures mem(p + k) == a[k] { assert (a + e)[k] == a[k]; }
    forall k | 0 <= k < |e| ensures mem(p + |a| + k) == e[k] {
      var j := |a| + k;
      assert (a + e)[j] == e[k];
      assert p + |a| + k == p + j;
    }
  }

  /** Where the first NUL is, if a string without one and then a NUL stand in memory. */
  lemma FirstNul(mem: nat -> char, p: nat, s: string, e: nat)
    requires CString(s) && Holds(mem, p, s) && mem(p + |s|) == NUL
    requires p < e && mem(e - 1) == NUL && forall a: nat :: p <= a < e - 1 ==> mem(a) != NUL
    ensures e == p + |s| + 1
  {
    forall a: nat | p <= a < p + |s| ensures mem(a) != NUL {
      var k := a - p;
      assert s[k] in s && mem(p + k) == s[k];
    }
  }

  /** In memory that holds the strings, the first NUL ends the first of them. */
  lemma FirstString(mem: nat -> char, p: nat, ss: seq<string>, e: nat)
    requires ss != [] && CStrings(ss) && Holds(mem, p, Joined(ss))
    requires p < e && mem(e - 1) == NUL && forall a: nat :: p <= a < e - 1 ==> mem(a) != NUL
    ensures e == p + |ss[0]| + 1 && Holds(mem, e, Joined(ss[1..]))
  {
    var s, rest := ss[0], Joined(ss[1..]);
    HoldsSplit(mem, p, s + [NUL], rest);
    HoldsSplit(mem, p, s, [NUL]);
    assert [NUL][0] == NUL && mem(p + |s| + 0) == NUL;
    FirstNul(mem, p, s, e);
  }

  /** remove_arg_zero drops exactly the first string. */
  lemma ArgZeroRemoved(pages: map<nat, string>, p: nat, p': nat, ss: seq<string>)
    requires ss != [] && CStrings(ss) && Holds(Mem(pages), p, Joined(ss))
    requires p < p' && At(pages, p' - 1) == NUL
    requires forall a: nat {:trigger At(pages, a)} :: p <= a < p' - 1 ==> At(pages, a) != NUL
    ensures p' == p + |ss[0]| + 1 && Holds(Mem(pages), p', Joined(ss[1..]))
  {
    var mem := Mem(pages);
    forall a: nat | p <= a < p' - 1 ensures mem(a) != NUL { assert At(pages, a) != NUL; }
    FirstString(mem, p, ss, p');
  }

  /** The addresses of the strings. */
  function Starts(p: nat, ss: seq<string>): seq<nat>
    decreases |ss|
  {
    if ss == [] then [] else [p] + Starts(p + |ss[0]| + 1, ss[1..])
  }

  lemma {:induction false} StartsNext(p: nat, ss: seq<string>, k: nat)
    requires k < |ss|
    ensures Starts(p, ss[..k + 1]) == Starts(p, ss[..k]) + [p + |Joined(ss[..k])|]
    decreases k
  {
    if k > 0 {
      StartsNext(p + |ss[0]| + 1, ss[1..], k - 1);
      assert ss[1..][..k - 1] == ss[..k][1..] && ss[1..][..k] == ss[..k + 1][1..];
    }
  }
}
