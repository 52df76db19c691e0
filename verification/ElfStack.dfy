/** The words create_elf_tables puts on the stack of a new program: argc and the addresses of its
    argument and environment strings (fs/binfmt_elf.c:208-237). */
module ElfStack {
  import opened ArgPages

  const MAX_STRINGS := PAGE_SIZE * MAX_ARG_PAGES

  /** The word at address `a`, -1 if none was stored. */
  function Word(m: map<nat, nat>, a: nat): int {
    if a in m then m[a] else -1
  }

  /** From `before` to `now` exactly the words of `list` were stored, from address `at` on. */
  ghost predicate Stored(before: map<nat, nat>, now: map<nat, nat>, at: nat, list: seq<nat>) {
    forall a: nat {:trigger Word(now, a)} ::
      Word(now, a) == if at <= a < at + |list| then list[a - at] else Word(before, a)
  }

  lemma StoredNone(m: map<nat, nat>, at: nat)
    ensures Stored(m, m, at, [])
  {
  }

  lemma StoredNext(before: map<nat, nat>, now: map<nat, nat>, at: nat, list: seq<nat>, v: nat)
    requires Stored(before, now, at, list)
    ensures Stored(before, now[at + |list| := v], at, list + [v])
  {
    var r := now[at + |list| := v];
    forall a: nat ensures Word(r, a) == if at <= a < at + |list + [v]| then (list + [v])[a - at] else Word(before, a) {
      assert Word(now, a) == if at <= a < at + |list| then list[a - at] else Word(before, a);
    }
  }

  lemma StoredPush(before: map<nat, nat>, now: map<nat, nat>, at: nat, list: seq<nat>, v: nat)
    requires Stored(before, now, at + 1, list)
    ensures Stored(before, now[at := v], at, [v] + list)
  {
    var r := now[at := v];
    forall a: nat ensures Word(r, a) == if at <= a < at + |[v] + list| then ([v] + list)[a - at] else Word(before, a) {
      assert Word(now, a) == if at + 1 <= a < at + 1 + |list| then list[a - at - 1] else Word(before, a);
    }
  }

  lemma StoredJoin(a: map<nat, nat>, b: map<nat, nat>, c: map<nat, nat>, at: nat, x: seq<nat>, y: seq<nat>)
    requires Stored(a, b, at, x) && Stored(b, c, at + |x|, y)
    ensures Stored(a, c, at, x + y)
  {
    forall q: nat ensures Word(c, q) == if at <= q < at + |x + y| then (x + y)[q - at] else Word(a, q) {
      assert Word(b, q) == if at <= q < at + |x| then x[q - at] else Word(a, q);
    }
  }

  /** Every string, with its NUL, is short enough for strnlen_user. */
  predicate Short(ss: seq<string>) {
    forall i :: 0 <= i < |ss| ==> |ss[i]| < MAX_STRINGS
  }

  class UserStack {
    const mem: nat -> char
    var words: map<nat, nat>

    constructor (mem: nat -> char)
      ensures this.mem == mem && words == map[]
    {
      this.mem := mem;
      words := map[];
    }

    /** strnlen_user: the length of the string at `p` with its NUL, or more than `max`. */
    method StrnlenUser(p: nat, max: nat) returns (len: nat)
      ensures 0 < len <= max + 1
      ensures len <= max ==> mem(p + len - 1) == NUL
      ensures forall a: nat :: p <= a < p + len - 1 ==> mem(a) != NUL
    {
      len := 0;
      while len < max && mem(p + len) != NUL
        invariant len <= max && forall a: nat :: p <= a < p + len ==> mem(a) != NUL
      {
        len := len + 1;
      }
      len := len + 1;
    }

    /** One turn of the loops: the start of the string at `p` is stored, and `p` moves past it. */
    method WalkOne(p: nat, k: nat, at: nat, ghost before: map<nat, nat>, ghost p0: nat, ghost ss: seq<string>)
      returns (ok: bool, p': nat)
      requires k < |ss| && CStrings(ss) && Walking(mem, p0, ss, k, p) && Listed(before, words, at, p0, ss, k)
      modifies this
      ensures ok ==> Walking(mem, p0, ss, k + 1, p') && Listed(before, words, at, p0, ss, k + 1)
      ensures !ok ==> !Short(ss)
    {
      StartsNext(p0, ss, k);
      StoredNext(before, words, at, Starts(p0, ss[..k]), p);
      words := words[at + k := p];
      var len := StrnlenUser(p, MAX_STRINGS);
      if len > MAX_STRINGS {
        TooLong(mem, p0, ss, k, p, len);
        return false, p;
      }
      WalkOn(mem, p0, ss, k, p, len);
      return true, p + len;
    }

    /** One of the two loops: a word for each string, and a NULL (lines 219-226, 228-235). */
    method Walk(p0: nat, n: nat, at: nat, ghost ss: seq<string>) returns (ok: bool, p: nat)
      requires |ss| == n && CStrings(ss) && Holds(mem, p0, Joined(ss))
      modifies this
      ensures ok <==> Short(ss)
      ensures ok ==> p == p0 + |Joined(ss)| && Stored(old(words), words, at, Starts(p0, ss) + [0])
    {
      var k: nat := 0;
      p := p0;
      assert ss[0..] == ss && ss[..0] == [];
      StoredNone(words, at);
      while k < n
        invariant k <= n && Walking(mem, p0, ss, k, p) && Listed(old(words), words, at, p0, ss, k)
      {
        ok, p := WalkOne(p, k, at, old(words), p0, ss);
        if !ok {
          return;
        }
        k := k + 1;
      }
      assert ss[..k] == ss;
      StoredNext(old(words), words, at, Starts(p0, ss), 0);
      words := words[at + k := 0];
      return true, p;
    }

    /** The end of create_elf_tables, from where the string tables are laid out: reading the stack
        from `sp` on gives argc, the tables, and the start of every string. */
    method CreateElfTables(p0: nat, argc: nat, envc: nat, sp0: nat, ibcs: bool,
                           ghost args: seq<string>, ghost envs: seq<string>)
      returns (ok: bool, sp: nat, argEnd: nat, envEnd: nat)
      requires |args| == argc && |envs| == envc && CStrings(args) && CStrings(envs)
      requires Holds(mem, p0, Joined(args + envs)) && sp0 >= argc + envc + 5
      modifies this
      ensures ok <==> Short(args) && Short(envs)
      ensures ok ==> argEnd == p0 + |Joined(args)| && envEnd == p0 + |Joined(args + envs)|
      ensures ok ==> var list := Listing(p0, args, envs, sp0, ibcs);
                     sp == sp0 - |list| && Stored(old(words), words, sp, list)
    {
      var envp := sp0 - (envc + 1);
      var argv := envp - (argc + 1);
      sp := PushHead(argc, argv, envp, ibcs);
      ghost var w := words;
      ok, argEnd, envEnd := WalkBoth(p0, argc, envc, argv, args, envs);
      if ok {
        AddressesSize(p0, args, envs);
        ghost var head := Head(argc, argv, envp, ibcs);
        assert Listing(p0, args, envs, sp0, ibcs) == head + Addresses(p0, args, envs);
        StoredJoin(old(words), w, words, sp, head, Addresses(p0, args, envs));
      }
    }

    /** The two loops, one table after the other. */
    method WalkBoth(p0: nat, argc: nat, envc: nat, argv: nat, ghost args: seq<string>, ghost envs: seq<string>)
      returns (ok: bool, argEnd: nat, envEnd: nat)
      requires |args| == argc && |envs| == envc && CStrings(args) && CStrings(envs)
      requires Holds(mem, p0, Joined(args + envs))
      modifies this
      ensures ok <==> Short(args) && Short(envs)
      ensures ok ==> argEnd == p0 + |Joined(args)| && envEnd == p0 + |Joined(args + envs)|
      ensures ok ==> Stored(old(words), words, argv, Addresses(p0, args, envs))
    {
      SplitStrings(mem, p0, args, envs);
      StartsSize(p0, args);
      envEnd := p0;
      ok, argEnd := Walk(p0, argc, argv, args);
      if ok {
        ghost var w := words;
        ok, envEnd := Walk(argEnd, envc, argv + argc + 1, envs);
        if ok {
          StoredJoin(old(words), w, words, argv, Starts(p0, args) + [0], Starts(argEnd, envs) + [0]);
        }
      }
    }

    /** The words below the tables (lines 208-217). */
    method PushHead(argc: nat, argv: nat, envp: nat, ibcs: bool) returns (sp: nat)
      requires argv >= 3
      modifies this
      ensures var head := Head(argc, argv, envp, ibcs);
              sp == argv - |head| && Stored(old(words), words, sp, head)
    {
      sp := argv;
      StoredNone(words, sp);
      ghost var head: seq<nat> := [];
      if !ibcs {
        sp := sp - 1;
        StoredPush(old(words), words, sp, [], envp);
        words := words[sp := envp];
        sp := sp - 1;
        StoredPush(old(words), words, sp, [envp], argv);
        words := words[sp := argv];
        head := [argv, envp];
        assert [argv] + [envp] == head && [envp] + [] == [envp];
      }
      sp := sp - 1;
      StoredPush(old(words), words, sp, head, argc);
      words := words[sp := argc];
      assert [argc] + [argv, envp] == [argc, argv, envp] && [argc] + [] == [argc];
    }
  }

  /** The two tables: the start of every string, and a NULL after each group. */
  function Addresses(p: nat, args: seq<string>, envs: seq<string>): seq<nat> {
    (Starts(p, args) + [0]) + (Starts(p + |Joined(args)|, envs) + [0])
  }

  function Head(argc: nat, argv: nat, envp: nat, ibcs: bool): seq<nat> {
    if ibcs then [argc] else [argc, argv, envp]
  }

  /** What a program finds on its stack. */
  function Listing(p: nat, args: seq<string>, envs: seq<string>, sp0: nat, ibcs: bool): seq<nat>
    requires sp0 >= |args| + |envs| + 2
  {
    var envp := sp0 - (|envs| + 1);
    Head(|args|, envp - (|args| + 1), envp, ibcs) + Addresses(p, args, envs)
  }

  lemma AddressesSize(p: nat, args: seq<string>, envs: seq<string>)
    ensures |Addresses(p, args, envs)| == |args| + |envs| + 2
  {
    StartsSize(p, args);
    StartsSize(p + |Joined(args)|, envs);
  }

  lemma {:induction false} StartsSize(p: nat, ss: seq<string>)
    ensures |Starts(p, ss)| == |ss|
    decreases |ss|
  {
    if ss != [] { StartsSize(p + |ss[0]| + 1, ss[1..]); }
  }

  lemma SplitStrings(mem: nat -> char, p: nat, args: seq<string>, envs: seq<string>)
    requires Holds(mem, p, Joined(args + envs))
    ensures |Joined(args + envs)| == |Joined(args)| + |Joined(envs)|
    ensures Holds(mem, p, Joined(args)) && Holds(mem, p + |Joined(args)|, Joined(envs))
  {
    JoinedConcat(args, envs);
    HoldsSplit(mem, p, Joined(args), Joined(envs));
  }

  /** The starts of the first `k` strings have been stored. */
  ghost predicate Listed(before: map<nat, nat>, now: map<nat, nat>, at: nat, p0: nat, ss: seq<string>, k: nat)
    requires k <= |ss|
  {
    Stored(before, now, at, Starts(p0, ss[..k])) && |Starts(p0, ss[..k])| == k
  }

  /** The walk at the k-th string. */
  ghost predicate Walking(mem: nat -> char, p0: nat, ss: seq<string>, k: nat, p: nat) {
    k <= |ss| && p == p0 + |Joined(ss[..k])| && Holds(mem, p, Joined(ss[k..])) && Short(ss[..k])
  }

  lemma WalkOn(mem: nat -> char, p0: nat, ss: seq<string>, k: nat, p: nat, len: nat)
    requires Walking(mem, p0, ss, k, p) && k < |ss| && CStrings(ss) && 0 < len <= MAX_STRINGS
    requires mem(p + len - 1) == NUL && forall a: nat :: p <= a < p + len - 1 ==> mem(a) != NUL
    ensures Walking(mem, p0, ss, k + 1, p + len)
  {
    assert ss[k..][0] == ss[k] && ss[k..][1..] == ss[k + 1..];
    FirstString(mem, p, ss[k..], p + len);
    assert ss[..k + 1] == ss[..k] + [ss[k]];
    JoinedConcat(ss[..k], [ss[k]]);
    assert [ss[k]][1..] == [];
    assert Joined([ss[k]]) == ss[k] + [NUL] + Joined([]);
  }

  lemma TooLong(mem: nat -> char, p0: nat, ss: seq<string>, k: nat, p: nat, len: nat)
    requires Walking(mem, p0, ss, k, p) && k < |ss| && len > MAX_STRINGS
    requires forall a: nat :: p <= a < p + len - 1 ==> mem(a) != NUL
    ensures !Short(ss)
  {
    JoinedFrom(ss, k);
    var s, text := ss[k], Joined(ss[k..]);
    assert text[|s|] == NUL;
    assert mem(p + |s|) == text[|s|];
    assert |s| >= len - 1;
  }
}
