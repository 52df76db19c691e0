/** From the strings given to execve to the stack of the new program: do_execve, the argument part of
    load_script, and the mapping of the argument pages (fs/exec.c:158-176, 315-326, 876-925;
    fs/binfmt_script.c:69-80). */
module ExecImage {
  import opened ArgPages
  import opened ElfStack
  import opened Options

  /** Where copying starts: below one word at the top of the argument pages. */
  const TOP: nat := PAGE_SIZE * MAX_ARG_PAGES - 4

  /** The strings `ss` stand from `p` on, up to the top. */
  ghost predicate Carries(pages: map<nat, string>, p: nat, ss: seq<string>) {
    && WholePages(pages) && CStrings(ss) && p + |Joined(ss)| == TOP
    && Holds(Mem(pages), p, Joined(ss)) && Backed(pages, p, TOP)
  }

  lemma CarriesMore(pages: map<nat, string>, now: map<nat, string>, p: nat, p': nat, x: seq<string>, ss: seq<string>)
    requires Carries(pages, p, ss) && CStrings(x) && WholePages(now) && pages.Keys <= now.Keys
    requires p' + |Joined(x)| == p && Wrote(pages, now, p', Joined(x)) && Backed(now, p', p)
    ensures Carries(now, p', x + ss)
  {
    JoinedConcat(x, ss);
    HoldsMore(pages, now, p', Joined(x), Joined(ss));
    BackedBefore(pages, now, p', p, TOP);
  }

  lemma HoldsMore(pages: map<nat, string>, now: map<nat, string>, p: nat, x: string, y: string)
    requires Wrote(pages, now, p, x) && Holds(Mem(pages), p + |x|, y)
    ensures Holds(Mem(now), p, x + y)
  {
    WroteHolds(pages, now, p, x);
    forall k | 0 <= k < |x + y| ensures Mem(now)(p + k) == (x + y)[k] {
      if k < |x| {
        assert x[k] == (x + y)[k];
      } else {
        assert At(now, p + k) == At(pages, p + k);
        assert Mem(pages)(p + |x| + (k - |x|)) == y[k - |x|];
      }
    }
  }

  /** copy_strings in front of what is already there. */
  method CopyInFront(b: Binprm, x: seq<string>, ghost ss: seq<string>) returns (err: Errno)
    requires Carries(b.pages, b.p, ss) && CStrings(x)
    modifies b
    ensures err == E2BIG <==> |Joined(x + ss)| > TOP
    ensures b.argc == old(b.argc) && (err == Ok ==> Carries(b.pages, b.p, x + ss))
  {
    ghost var pages, p := b.pages, b.p;
    JoinedConcat(x, ss);
    err := b.CopyStrings(x);
    if err == Ok {
      CarriesMore(pages, b.pages, p, b.p, x, ss);
    }
  }

  /** The most strings do_execve lets through, of either kind: as many as words fit below the top. */
  const MAX_COUNT: nat := TOP / 4

  /** count: how many strings there are, unless there are more than `max`. */
  method Count(argv: seq<string>, max: nat) returns (err: Errno, n: nat)
    ensures err == E2BIG <==> |argv| > max
    ensures err == Ok ==> n == |argv|
  {
    n := 0;
    while n < |argv|
      invariant n <= |argv| && n <= max
    {
      n := n + 1;
      if n > max {
        return E2BIG, n;
      }
    }
    return Ok, n;
  }

  /** There are too many of the strings given to execve, or they do not fit. */
  predicate TooBig(filename: string, args: seq<string>, envs: seq<string>) {
    |args| > MAX_COUNT || |envs| > MAX_COUNT || |Joined(args + envs + [filename])| > TOP
  }

  /** do_execve up to the search for a binary handler. */
  method Gather(filename: string, args: seq<string>, envs: seq<string>) returns (err: Errno, b: Binprm, envc: nat)
    requires CString(filename) && CStrings(args) && CStrings(envs)
    ensures fresh(b) && (|args| <= MAX_COUNT ==> b.argc == |args|)
    ensures err == E2BIG <==> TooBig(filename, args, envs)
    ensures err == Ok ==> Carries(b.pages, b.p, args + envs + [filename]) && envc == |envs|
  {
    b := new Binprm(TOP, 0);
    var argc;
    envc := 0;
    err, argc := Count(args, b.p / 4);
    if err == E2BIG {
      return;
    }
    b.argc := argc;
    err, envc := Count(envs, b.p / 4);
    if err == E2BIG {
      return;
    }
    ghost var rest := envs + [filename];
    assert args + envs + [filename] == args + rest;
    JoinedConcat(args, rest);
    JoinedConcat(envs, [filename]);
    err := CopyInFront(b, [filename], []);
    assert [filename] + [] == [filename];
    if err == Ok {
      err := CopyInFront(b, envs, [filename]);
      if err == Ok {
        err := CopyInFront(b, args, rest);
      }
    }
  }

  /** remove_arg_zero drops the first string there is, if there is an argument. */
  method DropArgZero(b: Binprm, ghost args: seq<string>, ghost rest: seq<string>)
    requires Carries(b.pages, b.p, args + rest) && b.argc == |args|
    modifies b
    ensures var left := Tail(args);
            Carries(b.pages, b.p, left + rest) && b.argc == |left|
  {
    ghost var p, ss := b.p, args + rest;
    if b.argc > 0 {
      LastIsNul(b.pages, p, ss);
    }
    b.RemoveArgZero(TOP - 1);
    if args == [] {
      assert Tail(args) + rest == ss;
    } else {
      assert ss[0] == args[0] && ss[1..] == Tail(args) + rest;
      ArgZeroRemoved(b.pages, p, b.p, ss);
      BackedFrom(b.pages, p, b.p);
    }
  }

  lemma BackedFrom(pages: map<nat, string>, lo: nat, mid: nat)
    requires Backed(pages, lo, TOP) && lo <= mid
    ensures Backed(pages, mid, TOP)
  {
  }

  function Tail(ss: seq<string>): seq<string> {
    if ss == [] then [] else ss[1..]
  }

  lemma {:induction false} JoinedLast(ss: seq<string>)
    requires ss != []
    ensures Joined(ss) != [] && Joined(ss)[|Joined(ss)| - 1] == NUL
  {
    if |ss| > 1 { JoinedLast(ss[1..]); }
  }

  lemma LastIsNul(pages: map<nat, string>, p: nat, ss: seq<string>)
    requires ss != [] && Carries(pages, p, ss)
    ensures p <= TOP - 1 && At(pages, TOP - 1) == NUL
  {
    JoinedLast(ss);
    var k := |Joined(ss)| - 1;
    assert Mem(pages)(p + k) == Joined(ss)[k];
  }

  /** What the first line of a script names. */
  datatype Script = Script(name: string, arg: Option<string>)

  predicate ScriptStrings(s: Script) {
    CString(s.name) && (s.arg.Some? ==> CString(s.arg.value))
  }

  /** The arguments of the interpreter: its name, its argument if there is one, the script, and the
      arguments of the script but the first. */
  function ScriptArgs(s: Script, filename: string, args: seq<string>): seq<string> {
    [s.name] + (if s.arg.Some? then [s.arg.value] else []) + [filename] + Tail(args)
  }

  /** copy_strings_kernel of one string, which becomes the first argument. */
  method PushArg(b: Binprm, x: string, ghost args: seq<string>, ghost rest: seq<string>) returns (err: Errno)
    requires Carries(b.pages, b.p, args + rest) && b.argc == |args| && CString(x)
    modifies b
    ensures err == E2BIG <==> |Joined([x] + args + rest)| > TOP
    ensures err == Ok ==> Carries(b.pages, b.p, [x] + args + rest) && b.argc == |[x] + args|
  {
    assert [x] + (args + rest) == [x] + args + rest;
    err := CopyInFront(b, [x], args + rest);
    if err == E2BIG {
      return;
    }
    b.argc := b.argc + 1;
  }

  lemma LongerJoined(x: string, args: seq<string>, rest: seq<string>)
    ensures |Joined([x] + args + rest)| > |Joined(args + rest)|
  {
    assert ([x] + args + rest)[0] == x && ([x] + args + rest)[1..] == args + rest;
  }

  /** The argument part of load_script. */
  method LoadScript(b: Binprm, s: Script, filename: string, ghost args: seq<string>, ghost rest: seq<string>)
    returns (err: Errno)
    requires Carries(b.pages, b.p, args + rest) && b.argc == |args| && CString(filename) && ScriptStrings(s)
    modifies b
    ensures var all := ScriptArgs(s, filename, args);
            && (err == E2BIG <==> |Joined(all + rest)| > TOP)
            && (err == Ok ==> Carries(b.pages, b.p, all + rest) && b.argc == |all|)
  {
    DropArgZero(b, args, rest);
    ghost var own := [filename] + Tail(args);
    ghost var given := if s.arg.Some? then [s.arg.value] + own else own;
    assert ScriptArgs(s, filename, args) == [s.name] + given;
    LongerJoined(s.name, given, rest);
    if s.arg.Some? { LongerJoined(s.arg.value, own, rest); }
    err := PushArg(b, filename, Tail(args), rest);
    if err == E2BIG {
      return;
    }
    if s.arg.Some? {
      err := PushArg(b, s.arg.value, own, rest);
      if err == E2BIG {
        return;
      }
    }
    err := PushArg(b, s.name, given, rest);
  }

  // ---- the new program's memory

  /** setup_arg_pages puts the pages from `base` on. */
  function Mapped(pages: map<nat, string>, base: nat): nat -> char {
    (a: nat) => if a < base then NUL else At(pages, a - base)
  }

  lemma MappedHolds(pages: map<nat, string>, base: nat, p: nat, x: string, y: string)
    requires Holds(Mem(pages), p, x + y)
    ensures Holds(Mapped(pages, base), base + p, x)
  {
    forall k | 0 <= k < |x| ensures Mapped(pages, base)(base + p + k) == x[k] {
      assert (x + y)[k] == x[k];
      assert Mem(pages)(p + k) == (x + y)[k];
    }
  }

  lemma {:induction false} FitsShort(ss: seq<string>)
    requires |Joined(ss)| <= TOP
    ensures Short(ss)
  {
    if ss != [] {
      FitsShort(ss[1..]);
      assert forall i :: 0 < i < |ss| ==> ss[i] == ss[1..][i - 1];
    }
  }

  /** Strings that were copied are never too long for create_elf_tables. */
  lemma BothShort(args: seq<string>, envs: seq<string>, rest: seq<string>)
    requires |Joined(args + envs + rest)| <= TOP
    ensures Short(args) && Short(envs)
  {
    JoinedConcat(args + envs, rest);
    JoinedConcat(args, envs);
    FitsShort(args);
    FitsShort(envs);
  }

  /** What a started program finds: the strings in memory, and their addresses on the stack. */
  ghost predicate Finds(us: UserStack, p: nat, sp: nat, sp0: nat, ibcs: bool, args: seq<string>, envs: seq<string>)
    reads us
  {
    && sp0 >= |args| + |envs| + 5
    && Holds(us.mem, p, Joined(args + envs))
    && var list := Listing(p, args, envs, sp0, ibcs);
       sp == sp0 - |list| && Stored(map[], us.words, sp, list)
  }

  /** setup_arg_pages and create_elf_tables: all strings are found again. */
  method StartElf(b: Binprm, base: nat, sp0: nat, ibcs: bool, envc: nat,
                  ghost args: seq<string>, ghost envs: seq<string>, ghost rest: seq<string>)
    returns (us: UserStack, sp: nat)
    requires Carries(b.pages, b.p, args + envs + rest) && b.argc == |args| && envc == |envs|
    requires CStrings(args) && CStrings(envs) && sp0 >= |args| + |envs| + 5
    modifies b
    ensures fresh(us) && b.p == base + old(b.p) && Finds(us, b.p, sp, sp0, ibcs, args, envs)
  {
    us := new UserStack(Mapped(b.pages, base));
    JoinedConcat(args + envs, rest);
    MappedHolds(b.pages, base, b.p, Joined(args + envs), Joined(rest));
    BothShort(args, envs, rest);
    b.p := base + b.p;
    var ok, argEnd, envEnd;
    ok, sp, argEnd, envEnd := us.CreateElfTables(b.p, b.argc, envc, sp0, ibcs, args, envs);
  }

  /** The arguments the program that starts in the end is to see. */
  function FinalArgs(filename: string, args: seq<string>, script: Option<Script>): seq<string> {
    if script.Some? then ScriptArgs(script.value, filename, args) else args
  }

  /** execve of an ELF program, or of a script whose interpreter is one: unless there are too many
      strings or they do not fit, the program finds exactly its arguments and environment.  The
      strings a script adds are not counted again. */
  method Execve(filename: string, args: seq<string>, envs: seq<string>, script: Option<Script>,
                base: nat, sp0: nat, ibcs: bool)
    returns (err: Errno, us: UserStack, p: nat, sp: nat)
    requires CString(filename) && CStrings(args) && CStrings(envs) && sp0 >= |args| + |envs| + 8
    requires script.Some? ==> ScriptStrings(script.value)
    ensures err == E2BIG <==> TooBig(filename, args, envs) ||
                              |Joined(FinalArgs(filename, args, script) + envs + [filename])| > TOP
    ensures err == Ok ==> Finds(us, p, sp, sp0, ibcs, FinalArgs(filename, args, script), envs)
  {
    us := new UserStack(Mapped(map[], 0));
    p, sp := 0, 0;
    var b, envc;
    err, b, envc := Gather(filename, args, envs);
    if err == E2BIG {
      return;
    }
    ghost var rest := envs + [filename];
    ghost var all := FinalArgs(filename, args, script);
    assert args + envs + [filename] == args + rest && all + envs + [filename] == all + rest;
    if script.Some? {
      err := LoadScript(b, script.value, filename, args, rest);
      if err == E2BIG {
        return;
      }
    }
    us, sp := StartElf(b, base, sp0, ibcs, envc, all, envs, [filename]);
    p := b.p;
  }
}
