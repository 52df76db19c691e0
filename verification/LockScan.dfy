/** The walk of posix_lock_file over the locks of the calling owner (fs/locks.c:919-998).

    `g` is the owner's group as it was before the walk and `req` the request.  The walk
    leaves g[..q] alone, absorbs g[q..r] into the caller lock `c`, and still has g[r..]
    ahead of it.  The lemmas below say what each branch of the walk keeps, and what the
    trimmed list that remains at the end means. */
module LockScan {
  import opened LockRanges

  // `left`: g[q-1] sticks out below the request and will be cut.
  // `merged`: the caller lock is now an element of the list.
  datatype Scan = Scan(q: nat, r: nat, c: FileLock, added: bool, merged: bool, left: bool)

  /** Start of the caller lock once g[q..r] has been absorbed. */
  function Low(g: seq<FileLock>, req: FileLock, q: nat, r: nat): int
    requires q <= r <= |g|
  {
    if q < r && g[q].kind == req.kind && g[q].start < req.start then g[q].start else req.start
  }

  /** End of the caller lock once g[q..r] has been absorbed. */
  function High(g: seq<FileLock>, req: FileLock, q: nat, r: nat): int
    requires q <= r <= |g|
  {
    if q < r && g[r - 1].kind == req.kind && g[r - 1].end > req.end then g[r - 1].end else req.end
  }

  predicate Below(fl: FileLock, req: FileLock) {
    fl.end < req.start && (fl.kind == req.kind ==> fl.end + 1 < req.start)
  }

  predicate Inside(fl: FileLock, req: FileLock) {
    req.start <= fl.start && fl.end <= req.end
  }

  predicate Scanned(g: seq<FileLock>, req: FileLock, s: Scan) {
    && s.q <= s.r <= |g|
    && s.c.owner == req.owner && s.c.kind == req.kind
    && s.c.start == Low(g, req, s.q, s.r) && s.c.end == High(g, req, s.q, s.r)
    && (s.merged <==> s.added && req.kind != UnLck)
    && (!s.added ==> s.q == s.r) && (s.merged ==> s.q < s.r)
    && (!s.merged ==> s.c == req)
    && (forall i :: 0 <= i < s.q && !(s.left && i == s.q - 1) ==> Below(g[i], req))
    && (s.left ==> s.q > 0 && g[s.q - 1].kind != req.kind &&
                   g[s.q - 1].start < req.start <= g[s.q - 1].end <= req.end &&
                   (req.kind == UnLck ==> s.added))
    && (forall i :: s.q <= i < s.r ==> g[i].kind == req.kind || Inside(g[i], req))
    && (s.q < s.r ==> req.start - 1 <= g[s.q].end && g[s.r - 1].start <= req.end + 1)
  }

  predicate Request(req: FileLock) {
    ValidRange(req)
  }

  ghost predicate Walking(g: seq<FileLock>, req: FileLock, s: Scan) {
    Group(g, req.owner) && Request(req) && Scanned(g, req, s)
  }

  // ---- one branch of the walk at a time; g[s.r] is the lock being looked at

  /** Lines 925-926 and 957-958: the lock lies below the request and is passed over. */
  lemma StepSkip(g: seq<FileLock>, req: FileLock, s: Scan)
    requires Walking(g, req, s) && s.r < |g|
    requires g[s.r].end < s.c.start && (g[s.r].kind == req.kind ==> g[s.r].end < s.c.start - 1)
    ensures Scanned(g, req, s.(q := s.q + 1, r := s.r + 1)) && s.q == s.r && !s.merged && !s.left
  {
    assert forall i :: 0 <= i < s.r ==> Apart(g[i], g[s.r]);
  }

  function Hull(a: FileLock, b: FileLock): FileLock {
    a.(start := if b.start < a.start then b.start else a.start, end := if b.end > a.end then b.end else a.end)
  }

  /** Lines 938-951: same type, touching or overlapping; both locks become their hull. */
  lemma StepMerge(g: seq<FileLock>, req: FileLock, s: Scan)
    requires Walking(g, req, s) && s.r < |g|
    requires g[s.r].kind == req.kind && s.c.start - 1 <= g[s.r].end && g[s.r].start <= s.c.end + 1
    ensures var c := if s.added then Hull(s.c, g[s.r]) else Hull(g[s.r], s.c);
            Scanned(g, req, s.(r := s.r + 1, c := c, added := true, merged := true))
  {
    assert forall i :: 0 <= i < s.r ==> Apart(g[i], g[s.r]);
  }

  /** Lines 961-964: another type, sticking out below the request only. */
  lemma StepLeft(g: seq<FileLock>, req: FileLock, s: Scan)
    requires Walking(g, req, s) && s.r < |g|
    requires g[s.r].kind != req.kind && g[s.r].start < s.c.start <= g[s.r].end <= s.c.end
    ensures s.q == s.r && !s.merged && !s.left
    ensures var u := s.added || req.kind == UnLck;
            Scanned(g, req, s.(q := s.q + 1, r := s.r + 1, left := true, added := u))
  {
    assert forall i :: 0 <= i < s.r ==> Apart(g[i], g[s.r]);
  }

  /** Lines 972-991: another type, wholly inside the request; the lock is replaced or deleted. */
  lemma StepReplace(g: seq<FileLock>, req: FileLock, s: Scan, c: FileLock)
    requires Walking(g, req, s) && s.r < |g|
    requires g[s.r].kind != req.kind && s.c.start <= g[s.r].start && g[s.r].end <= s.c.end
    requires c.owner == s.c.owner && c.kind == s.c.kind && c.start == s.c.start && c.end == s.c.end
    requires req.kind == UnLck || s.added ==> c == s.c
    ensures Scanned(g, req, s.(r := s.r + 1, c := c, added := true, merged := req.kind != UnLck))
  {
    assert forall i :: 0 <= i < s.r ==> Apart(g[i], g[s.r]);
  }

  // ---- the end of the walk

  /** Why the walk stopped: nothing of this owner is left below or at the request's end
      (`right` false), or g[r] sticks out above it (`right` true). */
  predicate Stopped(g: seq<FileLock>, req: FileLock, s: Scan, right: bool) {
    && s.q <= s.r <= |g|
    && if right then s.r < |g| && g[s.r].kind != req.kind && g[s.r].start <= s.c.end < g[s.r].end
       else s.r == |g| || (s.c.end < g[s.r].start && (g[s.r].kind == req.kind ==> s.c.end + 1 < g[s.r].start))
  }

  /** g[r] sticks out on both sides, so it is cut in two. */
  predicate Splits(g: seq<FileLock>, s: Scan, right: bool)
    requires s.q <= s.r <= |g| && (right ==> s.r < |g|)
  {
    right && g[s.r].start < s.c.start
  }

  predicate Ended(g: seq<FileLock>, req: FileLock, s: Scan, right: bool) {
    Scanned(g, req, s) && Stopped(g, req, s, right)
  }

  /** What remains below the caller lock; `copy` is the id of a second piece, if one is needed. */
  function Lower(g: seq<FileLock>, req: FileLock, s: Scan, right: bool, copy: nat): seq<FileLock>
    requires Scanned(g, req, s) && (right ==> s.r < |g|)
  {
    if Splits(g, s, right) then g[..s.q] + [g[s.r].(id := copy, end := s.c.start - 1)]
    else if s.left then g[..s.q - 1] + [g[s.q - 1].(end := s.c.start - 1)]
    else g[..s.q]
  }

  /** What remains above the caller lock. */
  function Upper(g: seq<FileLock>, req: FileLock, s: Scan, right: bool): seq<FileLock>
    requires Scanned(g, req, s) && (right ==> s.r < |g|)
  {
    if right then [g[s.r].(start := s.c.end + 1)] + g[s.r + 1..] else g[s.r..]
  }

  lemma SplitsAlone(g: seq<FileLock>, req: FileLock, s: Scan, right: bool)
    requires Walking(g, req, s) && Ended(g, req, s, right) && Splits(g, s, right)
    ensures s.q == s.r && !s.left && s.c.start == req.start && s.c.end == req.end
  {
    assert forall i :: 0 <= i < s.r ==> Apart(g[i], g[s.r]);
  }

  lemma LowerGroup(g: seq<FileLock>, req: FileLock, s: Scan, right: bool, copy: nat)
    requires Walking(g, req, s) && Ended(g, req, s, right)
    ensures var lo := Lower(g, req, s, right, copy);
            Group(lo, req.owner) && forall i :: 0 <= i < |lo| ==> Below(lo[i], s.c)
  {
    if Splits(g, s, right) { SplitsAlone(g, req, s, right); }
    var lo := Lower(g, req, s, right, copy);
    forall i | 0 <= i < s.q ensures !(s.left && i == s.q - 1) ==> Below(g[i], s.c) {
      assert s.q < s.r ==> Apart(g[i], g[s.q]);
    }
    forall i, j | 0 <= i < j < |lo| ensures Apart(lo[i], lo[j]) {
      assert j < |g| && Apart(g[i], g[j]);
    }
  }

  lemma UpperGroup(g: seq<FileLock>, req: FileLock, s: Scan, right: bool)
    requires Walking(g, req, s) && Ended(g, req, s, right)
    ensures var up := Upper(g, req, s, right);
            Group(up, req.owner) && forall i :: 0 <= i < |up| ==> Apart(s.c, up[i])
  {
    var up := Upper(g, req, s, right);
    forall i | 0 <= i < |up| && (i > 0 || !right) ensures up[i] == g[s.r + i] {
      if right { assert up[i] == g[s.r + 1..][i - 1]; }
    }
    forall i, j | 0 <= i < j < |up| ensures Apart(up[i], up[j]) {
      assert Apart(g[s.r + i], g[s.r + j]);
    }
    forall i | 0 <= i < |up| ensures Apart(s.c, up[i]) {
      assert i > 0 ==> Apart(g[s.r], g[s.r + i]);
    }
  }

  /** The three parts at the end of the walk form a group again. */
  lemma JoinGroup(lo: seq<FileLock>, mid: seq<FileLock>, up: seq<FileLock>, c: FileLock)
    requires Group(lo, c.owner) && Group(up, c.owner) && ValidRange(c)
    requires forall i :: 0 <= i < |lo| ==> Below(lo[i], c)
    requires forall i :: 0 <= i < |up| ==> Apart(c, up[i])
    requires if c.kind == UnLck then mid == [] else exists id :: mid == [c.(id := id)]
    ensures Group(lo + mid + up, c.owner)
  {
    var h := lo + mid + up;
    var n := |lo| + |mid|;
    forall i | 0 <= i < |h| ensures h[i].owner == c.owner && Proper(h[i]) {
      assert i < |lo| || i >= n || h[i] == mid[0];
    }
    forall i, j | 0 <= i < j < |h| ensures Apart(h[i], h[j]) {
      if j < |lo| {
        assert h[i] == lo[i] && h[j] == lo[j];
      } else if j >= n {
        assert h[j] == up[j - n] && Apart(c, up[j - n]);
        if i >= n { assert h[i] == up[i - n]; }
      }
    }
  }

  /** Byte by byte: below the caller lock the old group is kept, above it too, and in
      between the type is the requested one. */
  lemma JoinMeaning(g: seq<FileLock>, req: FileLock, s: Scan, right: bool, copy: nat, mid: seq<FileLock>, x: int)
    requires Walking(g, req, s) && Ended(g, req, s, right)
    requires if req.kind == UnLck then mid == [] else exists id :: mid == [s.c.(id := id)]
    ensures var h := Lower(g, req, s, right, copy) + mid + Upper(g, req, s, right);
            && Group(h, req.owner)
            && TypeAt(h, req.owner, x) ==
               if req.start <= x <= req.end then req.kind else TypeAt(g, req.owner, x)
  {
    var lo, up := Lower(g, req, s, right, copy), Upper(g, req, s, right);
    LowerGroup(g, req, s, right, copy);
    UpperGroup(g, req, s, right);
    CallerRange(g, req, s);
    JoinGroup(lo, mid, up, s.c);
    var h := lo + mid + up;
    assert req.kind != UnLck ==> h[|lo|] == mid[0];
    var was := TypeAtHit(g, req.owner, x);
    if was >= 0 && !(req.start <= x <= req.end) {
      var kept := PieceKept(g, req, s, right, copy, mid, x, was);
    }
    var hit := TypeAtHit(h, req.owner, x);
    if hit >= 0 { PieceOrigin(g, req, s, right, copy, mid, x, hit); }
  }

  lemma CallerRange(g: seq<FileLock>, req: FileLock, s: Scan)
    requires Walking(g, req, s)
    ensures ValidRange(s.c) && s.c.start <= req.start && req.end <= s.c.end
    ensures s.c.start < req.start ==> s.q < s.r && g[s.q].kind == req.kind &&
                                      g[s.q].start == s.c.start && req.start - 1 <= g[s.q].end
    ensures s.c.end > req.end ==> s.q < s.r && g[s.r - 1].kind == req.kind &&
                                  g[s.r - 1].end == s.c.end && g[s.r - 1].start <= req.end + 1
    ensures req.kind == UnLck ==> s.c.start == req.start && s.c.end == req.end
  {
  }

  /** A piece left below the caller lock means what the old group meant there. */
  lemma LowerOrigin(g: seq<FileLock>, req: FileLock, s: Scan, right: bool, copy: nat, x: int, k: int)
    requires Walking(g, req, s) && Ended(g, req, s, right)
    requires var lo := Lower(g, req, s, right, copy); 0 <= k < |lo| && Covers(lo[k], req.owner, x)
    ensures x < s.c.start && Lower(g, req, s, right, copy)[k].kind == TypeAt(g, req.owner, x)
  {
    var lo := Lower(g, req, s, right, copy);
    LowerGroup(g, req, s, right, copy);
    assert Below(lo[k], s.c);
    if Splits(g, s, right) { SplitsAlone(g, req, s, right); }
    GroupIsCanonical(g, req.owner);
    assert k < |g| && lo[k].kind == g[k].kind && lo[k].start == g[k].start && lo[k].end <= g[k].end;
    CanonicalMeaning(g, req.owner, x, k);
  }

  /** A piece left above the caller lock means what the old group meant there. */
  lemma UpperOrigin(g: seq<FileLock>, req: FileLock, s: Scan, right: bool, x: int, k: int)
    requires Walking(g, req, s) && Ended(g, req, s, right)
    requires var up := Upper(g, req, s, right); 0 <= k < |up| && Covers(up[k], req.owner, x)
    ensures x > s.c.end && Upper(g, req, s, right)[k].kind == TypeAt(g, req.owner, x)
  {
    var up := Upper(g, req, s, right);
    UpperGroup(g, req, s, right);
    assert Apart(s.c, up[k]);
    GroupIsCanonical(g, req.owner);
    assert up[k].kind == g[s.r + k].kind && g[s.r + k].start <= up[k].start && g[s.r + k].end == up[k].end;
    CanonicalMeaning(g, req.owner, x, s.r + k);
  }

  /** The part of the caller lock outside the request was absorbed from the old group. */
  lemma CallerOrigin(g: seq<FileLock>, req: FileLock, s: Scan, x: int)
    requires Walking(g, req, s) && s.c.start <= x <= s.c.end
    ensures req.start <= x <= req.end || TypeAt(g, req.owner, x) == req.kind
  {
    CallerRange(g, req, s);
    GroupIsCanonical(g, req.owner);
    if x < req.start { CanonicalMeaning(g, req.owner, x, s.q); }
    else if x > req.end { CanonicalMeaning(g, req.owner, x, s.r - 1); }
  }

  /** A piece of the new group covering `x` has the type the specification asks for. */
  lemma PieceOrigin(g: seq<FileLock>, req: FileLock, s: Scan, right: bool, copy: nat, mid: seq<FileLock>,
                    x: int, hit: int)
    requires Walking(g, req, s) && Ended(g, req, s, right)
    requires if req.kind == UnLck then mid == [] else exists id :: mid == [s.c.(id := id)]
    requires var h := Lower(g, req, s, right, copy) + mid + Upper(g, req, s, right);
             0 <= hit < |h| && Covers(h[hit], req.owner, x)
    ensures var h := Lower(g, req, s, right, copy) + mid + Upper(g, req, s, right);
            h[hit].kind == if req.start <= x <= req.end then req.kind else TypeAt(g, req.owner, x)
  {
    var lo, up := Lower(g, req, s, right, copy), Upper(g, req, s, right);
    CallerRange(g, req, s);
    PartAt(lo, mid, up, hit);
    if hit < |lo| {
      LowerOrigin(g, req, s, right, copy, x, hit);
    } else if hit < |lo| + |mid| {
      CallerOrigin(g, req, s, x);
    } else {
      UpperOrigin(g, req, s, right, x, hit - |lo| - |mid|);
    }
  }

  lemma PartAt(lo: seq<FileLock>, mid: seq<FileLock>, up: seq<FileLock>, k: nat)
    requires k < |lo + mid + up|
    ensures (lo + mid + up)[k] == if k < |lo| then lo[k] else if k < |lo| + |mid| then mid[k - |lo|]
                                  else up[k - |lo| - |mid|]
  {
  }

  /** Outside the request, a byte the old group covered is still covered: below the caller lock, ... */
  lemma KeptBelow(g: seq<FileLock>, req: FileLock, s: Scan, right: bool, copy: nat, x: int, was: int)
    requires Walking(g, req, s) && Ended(g, req, s, right)
    requires 0 <= was < |g| && Covers(g[was], req.owner, x) && x < s.c.start
    ensures var lo := Lower(g, req, s, right, copy); was < |lo| && Covers(lo[was], req.owner, x)
  {
    CallerRange(g, req, s);
    if Splits(g, s, right) { SplitsAlone(g, req, s, right); }
  }

  /** ... or above it. */
  lemma KeptAbove(g: seq<FileLock>, req: FileLock, s: Scan, right: bool, x: int, was: int)
    requires Walking(g, req, s) && Ended(g, req, s, right)
    requires 0 <= was < |g| && Covers(g[was], req.owner, x) && x > s.c.end
    ensures var up := Upper(g, req, s, right); s.r <= was && Covers(up[was - s.r], req.owner, x)
  {
    CallerRange(g, req, s);
  }

  lemma PieceKept(g: seq<FileLock>, req: FileLock, s: Scan, right: bool, copy: nat, mid: seq<FileLock>,
                  x: int, was: int) returns (now: int)
    requires Walking(g, req, s) && Ended(g, req, s, right)
    requires if req.kind == UnLck then mid == [] else exists id :: mid == [s.c.(id := id)]
    requires 0 <= was < |g| && Covers(g[was], req.owner, x) && !(req.start <= x <= req.end)
    ensures var h := Lower(g, req, s, right, copy) + mid + Upper(g, req, s, right);
            0 <= now < |h| && Covers(h[now], req.owner, x)
  {
    var lo, up := Lower(g, req, s, right, copy), Upper(g, req, s, right);
    CallerRange(g, req, s);
    var h := lo + mid + up;
    if s.c.start <= x <= s.c.end {
      now := |lo|;
      assert h[now] == mid[0];
    } else if x < s.c.start {
      KeptBelow(g, req, s, right, copy, x, was);
      now := was;
      assert h[was] == lo[was];
    } else {
      KeptAbove(g, req, s, right, x, was);
      now := |lo| + |mid| + (was - s.r);
      assert h[now] == up[was - s.r];
    }
  }
}
