/** What becomes of the list when fl_end + 1 wraps at fs/locks.c:930 and the walk over the owner's locks
    breaks off too early. */
module LockWraps {
  import opened LockRanges
  import opened LockScan

  /** The map of the list, overwritten on the requested bytes for the requesting owner only. */
  ghost predicate Overwritten(ls: seq<FileLock>, ls': seq<FileLock>, req: FileLock) {
    forall o, x :: TypeAt(ls', o, x) ==
                   if o == req.owner && req.start <= x <= req.end then req.kind else TypeAt(ls, o, x)
  }

  /** The guard at fs/locks.c:930 computes fl_end + 1; it wraps for a lock request that runs to
      OFFSET_MAX and meets a lock of the same owner and type that it touches. */
  predicate Wraps(ls: seq<FileLock>, req: FileLock) {
    && req.kind != UnLck && req.end == OFFSET_MAX
    && exists i :: 0 <= i < |ls| && ls[i].owner == req.owner && ls[i].kind == req.kind && ls[i].end >= req.start - 1
  }

  /** ... and behind which the owner has a lock of another type. */
  predicate Clashes(ls: seq<FileLock>, req: FileLock) {
    && req.kind != UnLck && req.end == OFFSET_MAX
    && exists i, j :: 0 <= i < |ls| && 0 <= j < |ls| && Behind(ls[i], ls[j], req)
  }

  /** `a` has the type of the request and touches it; `b`, of another type, lies behind it. */
  predicate Behind(a: FileLock, b: FileLock, req: FileLock) {
    && a.owner == b.owner == req.owner && a.kind == req.kind && a.end >= req.start - 1
    && b.kind != req.kind && b.start > a.end
  }

  /** The walk broke off at g[r] because fl_end + 1 wrapped, although the caller lock touches g[r]. */
  predicate Overrun(g: seq<FileLock>, req: FileLock, s: Scan) {
    && s.q <= s.r < |g| && req.kind != UnLck
    && s.c.end == OFFSET_MAX && g[s.r].kind == req.kind && g[s.r].end >= s.c.start - 1
  }

  /** While a request to OFFSET_MAX is walked, nothing of its own type is ever absorbed. */
  ghost predicate NoMerge(g: seq<FileLock>, req: FileLock, s: Scan) {
    s.q <= s.r <= |g| && (req.kind != UnLck && req.end == OFFSET_MAX ==>
      forall i :: s.q <= i < s.r ==> g[i].kind != req.kind)
  }

  lemma WrapsInGroup(ls: seq<FileLock>, pre: seq<FileLock>, g: seq<FileLock>, post: seq<FileLock>, req: FileLock)
    requires Split(ls, req.owner, pre, g, post)
    ensures Wraps(ls, req) <==> Wraps(g, req)
  {
    assert forall i :: 0 <= i < |g| ==> g[i] == ls[|pre| + i];
    assert forall i :: 0 <= i < |pre| ==> pre[i] == ls[i];
    assert forall i :: |pre| + |g| <= i < |ls| ==> ls[i] == post[i - |pre| - |g|];
    assert forall i :: |pre| <= i < |pre| + |g| ==> ls[i] == g[i - |pre|];
  }

  /** Up to where it broke off, the walk was an orderly one over the locks before that. */
  lemma OrderlyBefore(g: seq<FileLock>, req: FileLock, s: Scan, copy: nat, mid: seq<FileLock>, x: int)
    requires Walking(g, req, s) && Overrun(g, req, s) && exists id :: mid == [s.c.(id := id)]
    ensures var h1 := Lower(g, req, s, false, copy) + mid;
            && Group(h1, req.owner)
            && TypeAt(h1, req.owner, x) ==
               if req.start <= x <= req.end then req.kind else TypeAt(g[..s.r], req.owner, x)
  {
    var g1 := g[..s.r];
    assert forall i :: 0 <= i < s.r ==> g1[i] == g[i];
    assert Scanned(g1, req, s);
    JoinMeaning(g1, req, s, false, copy, mid, x);
    assert Lower(g1, req, s, false, copy) == Lower(g, req, s, false, copy);
    assert Upper(g1, req, s, false) == [];
    var h1 := Lower(g, req, s, false, copy) + mid;
    assert h1 + [] == h1;
  }

  lemma SameTail(h1: seq<FileLock>, g1: seq<FileLock>, up: seq<FileLock>, req: FileLock, x: int)
    requires OwnedBy(h1, req.owner) && OwnedBy(g1, req.owner) && req.kind != UnLck
    requires TypeAt(h1, req.owner, x) == if req.start <= x <= req.end then req.kind else TypeAt(g1, req.owner, x)
    ensures TypeAt(h1 + up, req.owner, x) ==
            if req.start <= x <= req.end then req.kind else TypeAt(g1 + up, req.owner, x)
  {
    TypeAtConcat(h1, up, req.owner, x);
    TypeAtConcat(g1, up, req.owner, x);
  }

  lemma SliceOwned(g: seq<FileLock>, o: Owner, r: nat)
    requires Group(g, o) && r <= |g|
    ensures OwnedBy(g[..r], o) && OwnedBy(g[r..], o) && g[..r] + g[r..] == g
  {
  }

  lemma OverrunMeaning(g: seq<FileLock>, req: FileLock, s: Scan, copy: nat, mid: seq<FileLock>, x: int)
    requires Walking(g, req, s) && Overrun(g, req, s) && exists id :: mid == [s.c.(id := id)]
    ensures var h := Lower(g, req, s, false, copy) + mid + g[s.r..];
            && OwnedBy(h, req.owner)
            && TypeAt(h, req.owner, x) == if req.start <= x <= req.end then req.kind else TypeAt(g, req.owner, x)
  {
    var h1 := Lower(g, req, s, false, copy) + mid;
    OrderlyBefore(g, req, s, copy, mid, x);
    SliceOwned(g, req.owner, s.r);
    SameTail(h1, g[..s.r], g[s.r..], req, x);
  }

  lemma OverrunOverwrites(ls: seq<FileLock>, pre: seq<FileLock>, g: seq<FileLock>, post: seq<FileLock>,
                          req: FileLock, s: Scan, mid: seq<FileLock>, copy: nat)
    requires Canonical(ls) && Split(ls, req.owner, pre, g, post)
    requires Walking(g, req, s) && Overrun(g, req, s) && exists id :: mid == [s.c.(id := id)]
    ensures Overwritten(ls, pre + (Lower(g, req, s, false, copy) + mid + g[s.r..]) + post, req)
  {
    var h := Lower(g, req, s, false, copy) + mid + g[s.r..];
    forall o, x
      ensures TypeAt(pre + h + post, o, x) ==
              if o == req.owner && req.start <= x <= req.end then req.kind else TypeAt(ls, o, x)
    {
      OverrunMeaning(g, req, s, copy, mid, x);
      RegroupMeaning(ls, req.owner, pre, g, post, h, o, x);
    }
  }

  // ---- which bytes are ambiguous

  /** The lock the walk broke off at is the first of the request's type that it touches. */
  lemma FirstTouched(g: seq<FileLock>, req: FileLock, s: Scan, i: nat)
    requires Walking(g, req, s) && NoMerge(g, req, s) && Wraps(g, req) && i < s.r
    ensures g[i].kind == req.kind ==> g[i].end < req.start - 1
  {
    assert i < s.q && !(s.left && i == s.q - 1) ==> Below(g[i], req);
  }

  lemma ClashesInGroup(ls: seq<FileLock>, pre: seq<FileLock>, g: seq<FileLock>, post: seq<FileLock>, req: FileLock)
    requires Split(ls, req.owner, pre, g, post)
    ensures Clashes(ls, req) <==> Clashes(g, req)
  {
    if Clashes(ls, req) {
      var i, j :| 0 <= i < |ls| && 0 <= j < |ls| && Behind(ls[i], ls[j], req);
      OwnIndex(ls, pre, g, post, req.owner, i);
      OwnIndex(ls, pre, g, post, req.owner, j);
      assert Behind(g[i - |pre|], g[j - |pre|], req);
    }
    if Clashes(g, req) {
      var i, j :| 0 <= i < |g| && 0 <= j < |g| && Behind(g[i], g[j], req);
      assert ls[|pre| + i] == g[i] && ls[|pre| + j] == g[j];
    }
  }

  lemma BehindBreak(g: seq<FileLock>, req: FileLock, s: Scan, i: nat, j: nat)
    requires Walking(g, req, s) && NoMerge(g, req, s) && Wraps(g, req)
    requires i < |g| && j < |g| && Behind(g[i], g[j], req)
    ensures s.r < j
  {
    if i < s.r { FirstTouched(g, req, s, i); }
    assert forall a, b :: 0 <= a < b < |g| ==> Apart(g[a], g[b]);
  }

  /** Behind the lock the walk broke off at there is one of another type exactly if the request clashes. */
  lemma ClashFound(g: seq<FileLock>, req: FileLock, s: Scan)
    requires Walking(g, req, s) && NoMerge(g, req, s) && Overrun(g, req, s) && Wraps(g, req)
    ensures Clashes(g, req) <==> exists j :: s.r < j < |g| && g[j].kind != req.kind
  {
    if Clashes(g, req) {
      var i, j :| 0 <= i < |g| && 0 <= j < |g| && Behind(g[i], g[j], req);
      BehindBreak(g, req, s, i, j);
    }
    if j :| s.r < j < |g| && g[j].kind != req.kind {
      StartsAtRequest(g, req, s);
      assert Apart(g[s.r], g[j]);
      assert Behind(g[s.r], g[j], req);
    }
  }

  /** A request to OFFSET_MAX absorbs no lock of its own type, so it does not grow. */
  lemma StartsAtRequest(g: seq<FileLock>, req: FileLock, s: Scan)
    requires Walking(g, req, s) && NoMerge(g, req, s) && req.kind != UnLck && req.end == OFFSET_MAX
    ensures s.c.start == req.start && s.c.end == req.end
  {
  }

  lemma OwnIndex(ls: seq<FileLock>, pre: seq<FileLock>, g: seq<FileLock>, post: seq<FileLock>, o: Owner, i: nat)
    requires Split(ls, o, pre, g, post) && i < |ls| && ls[i].owner == o
    ensures |pre| <= i < |pre| + |g| && ls[i] == g[i - |pre|]
  {
    assert forall k :: 0 <= k < |pre| ==> ls[k] == pre[k];
    assert forall k :: 0 <= k < |post| ==> ls[|pre| + |g| + k] == post[k];
  }

  /** A lock of the new list, and where it comes from: the owner's locks before the break, the locks
      from there on, or another owner's. */
  lemma Origin(pre: seq<FileLock>, h1: seq<FileLock>, up: seq<FileLock>, post: seq<FileLock>, i: nat) returns (k: nat)
    requires i < |pre + (h1 + up) + post|
    ensures var l := (pre + (h1 + up) + post)[i];
            || (k < |pre| && l == pre[k]) || (k < |h1| && l == h1[k]) || (k < |up| && l == up[k])
            || (k < |post| && l == post[k])
  {
    k := if i < |pre| then i else if i < |pre| + |h1| then i - |pre|
         else if i < |pre| + |h1| + |up| then i - |pre| - |h1| else i - |pre| - |h1| - |up|;
  }

  /** In the owner's part of the new list, a lock agrees with the meaning unless it is a leftover of
      another type. */
  lemma OwnAgrees(g: seq<FileLock>, req: FileLock, s: Scan, copy: nat, mid: seq<FileLock>, l: FileLock, x: int)
    requires Walking(g, req, s) && Overrun(g, req, s) && exists id :: mid == [s.c.(id := id)]
    requires forall j :: s.r < j < |g| ==> g[j].kind == req.kind
    requires Covers(l, req.owner, x) && (l in Lower(g, req, s, false, copy) + mid || l in g[s.r..])
    ensures TypeAt(Lower(g, req, s, false, copy) + mid + g[s.r..], req.owner, x) == l.kind
  {
    var h1, up := Lower(g, req, s, false, copy) + mid, g[s.r..];
    OrderlyBefore(g, req, s, copy, mid, x);
    OverrunMeaning(g, req, s, copy, mid, x);
    if l in h1 {
      var k :| 0 <= k < |h1| && h1[k] == l;
      GroupIsCanonical(h1, req.owner);
      CanonicalMeaning(h1, req.owner, x, k);
      TypeAtConcat(h1, up, req.owner, x);
    } else {
      var k :| 0 <= k < |up| && up[k] == l;
      assert l == g[s.r + k];
      GroupIsCanonical(g, req.owner);
      CanonicalMeaning(g, req.owner, x, s.r + k);
    }
  }

  lemma OthersAgree(ls: seq<FileLock>, ls': seq<FileLock>, req: FileLock, l: FileLock, o: Owner, x: int)
    requires Canonical(ls) && Overwritten(ls, ls', req) && l in ls && Covers(l, o, x) && o != req.owner
    ensures TypeAt(ls', o, x) == l.kind
  {
    var k :| 0 <= k < |ls| && ls[k] == l;
    CanonicalMeaning(ls, o, x, k);
  }

  /** Without a lock of another type behind the break every byte has one type only. */
  lemma NoClash(ls: seq<FileLock>, pre: seq<FileLock>, g: seq<FileLock>, post: seq<FileLock>, req: FileLock, s: Scan,
                mid: seq<FileLock>, copy: nat)
    requires Canonical(ls) && Split(ls, req.owner, pre, g, post)
    requires Walking(g, req, s) && Overrun(g, req, s) && exists id :: mid == [s.c.(id := id)]
    requires forall j :: s.r < j < |g| ==> g[j].kind == req.kind
    ensures Unambiguous(pre + (Lower(g, req, s, false, copy) + mid + g[s.r..]) + post)
  {
    var h1, up := Lower(g, req, s, false, copy) + mid, g[s.r..];
    var ls' := pre + (h1 + up) + post;
    OverrunOverwrites(ls, pre, g, post, req, s, mid, copy);
    OverrunMeaning(g, req, s, copy, mid, 0);
    forall o, x, i | 0 <= i < |ls'| && Covers(ls'[i], o, x) ensures TypeAt(ls', o, x) == ls'[i].kind {
      var k := Origin(pre, h1, up, post, i);
      if o == req.owner {
        OwnParts(pre, h1, up, post, o, i);
        OwnAgrees(g, req, s, copy, mid, ls'[i], x);
        RegroupMeaning(ls, o, pre, g, post, h1 + up, o, x);
      } else {
        OtherParts(pre, g, post, h1, up, req.owner, i);
        OthersAgree(ls, ls', req, ls'[i], o, x);
      }
    }
  }

  lemma OwnParts(pre: seq<FileLock>, h1: seq<FileLock>, up: seq<FileLock>, post: seq<FileLock>, o: Owner, i: nat)
    requires Foreign(pre, o) && Foreign(post, o) && i < |pre + (h1 + up) + post|
    requires (pre + (h1 + up) + post)[i].owner == o
    ensures (pre + (h1 + up) + post)[i] in h1 || (pre + (h1 + up) + post)[i] in up
  {
    var k := Origin(pre, h1, up, post, i);
  }

  lemma OtherParts(pre: seq<FileLock>, g: seq<FileLock>, post: seq<FileLock>, h1: seq<FileLock>, up: seq<FileLock>,
                   o: Owner, i: nat)
    requires OwnedBy(h1 + up, o) && i < |pre + (h1 + up) + post| && (pre + (h1 + up) + post)[i].owner != o
    ensures (pre + (h1 + up) + post)[i] in pre + g + post
  {
    var k := Origin(pre, h1, up, post, i);
    assert forall j :: 0 <= j < |h1| ==> (h1 + up)[j] == h1[j];
    assert forall j :: 0 <= j < |up| ==> (h1 + up)[|h1| + j] == up[j];
  }

  /** With one, its first byte has two. */
  lemma Clash(ls: seq<FileLock>, pre: seq<FileLock>, g: seq<FileLock>, post: seq<FileLock>, req: FileLock, s: Scan,
              mid: seq<FileLock>, copy: nat, j: nat)
    requires Canonical(ls) && Split(ls, req.owner, pre, g, post)
    requires Walking(g, req, s) && NoMerge(g, req, s) && Overrun(g, req, s) && Wraps(g, req)
    requires exists id :: mid == [s.c.(id := id)]
    requires s.r < j < |g| && g[j].kind != req.kind
    ensures !Unambiguous(pre + (Lower(g, req, s, false, copy) + mid + g[s.r..]) + post)
  {
    var lo, up := Lower(g, req, s, false, copy), g[s.r..];
    var ls' := pre + (lo + mid + up) + post;
    OverrunOverwrites(ls, pre, g, post, req, s, mid, copy);
    StartsAtRequest(g, req, s);
    assert Apart(g[s.r], g[j]);
    var n := |pre| + |lo| + |mid| + (j - s.r);
    assert ls'[n] == up[j - s.r] == g[j];
    assert Covers(ls'[n], req.owner, g[j].start) && TypeAt(ls', req.owner, g[j].start) == req.kind;
  }

  /** The list after a wrap: overwritten as asked, never canonical, and unambiguous exactly if the
      request does not clash. */
  lemma OverrunResult(ls: seq<FileLock>, pre: seq<FileLock>, g: seq<FileLock>, post: seq<FileLock>, req: FileLock,
                      s: Scan, mid: seq<FileLock>, copy: nat)
    requires Canonical(ls) && Split(ls, req.owner, pre, g, post)
    requires Walking(g, req, s) && NoMerge(g, req, s) && Overrun(g, req, s) && Wraps(g, req)
    requires exists id :: mid == [s.c.(id := id)]
    ensures var ls' := pre + (Lower(g, req, s, false, copy) + mid + Upper(g, req, s, false)) + post;
            && Overwritten(ls, ls', req) && !Canonical(ls') && (Unambiguous(ls') <==> !Clashes(ls, req))
  {
    var lo := Lower(g, req, s, false, copy);
    var ls' := pre + (lo + mid + g[s.r..]) + post;
    OverrunOverwrites(ls, pre, g, post, req, s, mid, copy);
    NotCanonical(pre, g, post, req, s, mid, copy);
    ClashesInGroup(ls, pre, g, post, req);
    ClashFound(g, req, s);
    if j :| s.r < j < |g| && g[j].kind != req.kind {
      Clash(ls, pre, g, post, req, s, mid, copy, j);
    } else {
      NoClash(ls, pre, g, post, req, s, mid, copy);
    }
  }

  lemma NotCanonical(pre: seq<FileLock>, g: seq<FileLock>, post: seq<FileLock>, req: FileLock, s: Scan,
                     mid: seq<FileLock>, copy: nat)
    requires Walking(g, req, s) && Overrun(g, req, s) && exists id :: mid == [s.c.(id := id)]
    ensures !Canonical(pre + (Lower(g, req, s, false, copy) + mid + g[s.r..]) + post)
  {
    var lo := Lower(g, req, s, false, copy);
    var ls := pre + (lo + mid + g[s.r..]) + post;
    var k := |pre| + |lo|;
    assert ls[k] == mid[0] && ls[k + 1] == g[s.r];
    assert !Apart(ls[k], ls[k + 1]);
  }
}
