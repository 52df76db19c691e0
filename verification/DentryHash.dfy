/** The hash index of dentries as it is changed in place: d_lookup, d_rehash, d_drop, d_move and
    is_subdir (fs/dcache.c:703-738, 833-840, 857-926, 1075-1092). */
module DentryHashes {
  import opened DentryMoves
  import opened Forests
  import opened Lists
  import opened TreeLayout
  import opened Options

  class DentryHash {
    var parent: map<nat, nat>
    var kids: map<nat, seq<nat>>
    var count: map<nat, nat>
    var name: map<nat, Name>
    var chains: map<nat, seq<nat>>
    const bucket: (nat, nat) -> nat

    function Abs(): Dir
      reads this
    {
      Dir(parent, kids, count, name, chains, bucket)
    }

    function Queue(b: nat): seq<nat>
      reads this
    {
      if b in chains then chains[b] else []
    }

    /** d_lookup, up to the reference it takes: it finds a dentry exactly if a plain search does. */
    method DLookup(p: nat, hash: nat, text: string) returns (r: Option<nat>)
      requires Indexed(Abs())
      ensures r.Some? ==> Finds(Abs(), r.value, p, hash, text)
      ensures r.None? ==> forall x :: !Finds(Abs(), x, p, hash, text)
    {
      var chain := Queue(bucket(p, hash));
      var i := 0;
      while i < |chain|
        invariant i <= |chain| && forall j :: 0 <= j < i ==> !Matches(Abs(), chain[j], p, hash, text)
      {
        var dentry := chain[i];
        assert InChain(Abs(), bucket(p, hash), dentry);
        if name[dentry].hash == hash && parent[dentry] == p && name[dentry].len == |text| &&
           Text(name[dentry]) == text {
          return Some(dentry);
        }
        i := i + 1;
      }
      forall x ensures !Finds(Abs(), x, p, hash, text) {
        FoundInChain(Abs(), x, p, hash, text);
      }
      return None;
    }

    /** d_drop. */
    method DDrop(x: nat)
      requires Indexed(Abs()) && x in parent
      modifies `chains
      ensures Indexed(Abs()) && !Hashed(Abs(), x)
      ensures forall y, p, hash, text {:trigger Finds(Abs(), y, p, hash, text)} ::
                Finds(Abs(), y, p, hash, text) <==> y != x && old(Finds(Abs(), y, p, hash, text))
    {
      ghost var dt := Abs();
      var b := bucket(parent[x], name[x].hash);
      chains := chains[b := Without(Queue(b), x)];
      ChainDropped(dt, x);
    }

    /** d_rehash; the dentry must not be hashed yet. */
    method DRehash(x: nat)
      requires Indexed(Abs()) && x in parent && !Hashed(Abs(), x)
      modifies `chains
      ensures Indexed(Abs()) && Hashed(Abs(), x)
      ensures forall y, p, hash, text {:trigger Finds(Abs(), y, p, hash, text)} :: y != x ==>
                (Finds(Abs(), y, p, hash, text) <==> old(Finds(Abs(), y, p, hash, text)))
    {
      ghost var dt := Abs();
      var b := bucket(parent[x], name[x].hash);
      chains := chains[b := [x] + Queue(b)];
      ChainPushed(dt, x);
    }

    /** The hash switch of d_move (lines 907-911). */
    method SwitchHash(dentry: nat, target: nat)
      requires Indexed(Abs()) && Movable(Abs(), dentry, target)
      modifies `chains
      ensures chains == MovedChains(old(Abs()), dentry, target)
    {
      ghost var dt := Abs();
      var bd, bt := bucket(parent[dentry], name[dentry].hash), bucket(parent[target], name[target].hash);
      assert InChain(dt, bt, dentry) ==> bt == bd;
      WithoutIn(Queue(bd), dentry);
      WithoutDistinct(Queue(bd), dentry);
      chains := chains[bd := Without(Queue(bd), dentry)];
      SwitchIn(Queue(bt), target, dentry);
      chains := chains[bt := InsertAfter(Queue(bt), target, dentry)];
      chains := chains[bt := Without(Queue(bt), target)];
    }

    /** switch_names, and the switch of length and hash (lines 857-871, 917-920): the dentry has the whole
        name the target had, inline or outside; the target has the dentry's hash and length, and its text
        too if that was outside, otherwise what its own inline bytes give at that length. */
    method SwitchNames(dentry: nat, target: nat)
      requires dentry in name && target in name && dentry != target
      requires WellNamed(name[dentry]) && WellNamed(name[target])
      modifies `name
      ensures name.Keys == old(name.Keys) && WellNamed(name[dentry]) && WellNamed(name[target])
      ensures forall x :: x in name && x != dentry && x != target ==> name[x] == old(name)[x]
      ensures Text(name[dentry]) == old(Text(name[target]))
      ensures name[dentry].hash == old(name[target].hash) && name[target].hash == old(name[dentry].hash)
      ensures name[dentry].len == old(name[target].len) && name[target].len == old(name[dentry].len)
      ensures Text(name[target]) == if old(name[dentry].outside.Some?) then old(Text(name[dentry]))
                                    else old(name[target].inner[..name[dentry].len])
      ensures name == MovedNames(old(name), dentry, target)
    {
      var nd, nt := name[dentry], name[target];
      nd := nd.(inner := nt.inner);
      var oldName, newName := PlaceOf(target, nt), PlaceOf(dentry, nd);
      if oldName == Inside(target) {
        oldName := Inside(dentry);
      }
      if newName == Inside(dentry) {
        newName := Inside(target);
      }
      nt, nd := PlacedAt(target, nt, newName), PlacedAt(dentry, nd, oldName);
      var len, hash := nd.len, nd.hash;
      nd := nd.(len := nt.len, hash := nt.hash);
      nt := nt.(len := len, hash := hash);
      name := name[dentry := nd][target := nt];
      assert name == MovedNames(old(name), dentry, target);
      MovedNamesMean(old(name), dentry, target);
    }

    /** Both leave their child lists, switch parents and join the lists of the new ones. */
    method SwitchParents(dentry: nat, target: nat)
      requires Movable(Abs(), dentry, target)
      modifies `parent, `kids
      ensures parent == old(parent)[dentry := old(parent)[target]][target := old(parent)[dentry]]
      ensures kids == MovedKids(old(kids), dentry, old(parent)[dentry], target, old(parent)[target])
    {
      kids := kids[parent[dentry] := Without(kids[parent[dentry]], dentry)];
      kids := kids[parent[target] := Without(kids[parent[target]], target)];
      var p := parent[dentry];
      parent := parent[dentry := parent[target]];
      parent := parent[target := p];
      kids := kids[parent[target] := [target] + kids[parent[target]]];
      kids := kids[parent[dentry] := [dentry] + kids[parent[dentry]]];
    }

    /** d_move. */
    method DMove(dentry: nat, target: nat)
      requires Indexed(Abs()) && TreeOk(TreeOf(Abs())) && Movable(Abs(), dentry, target)
      modifies this
      ensures Abs() == Moved(old(Abs()), dentry, target)
      ensures Indexed(Abs()) && (TreeOk(TreeOf(Abs())) <==> old(Apart(parent, dentry, target)))
    {
      ghost var dt := Abs();
      SwitchHash(dentry, target);
      SwitchNames(dentry, target);
      SwitchParents(dentry, target);
      assert Abs() == Moved(dt, dentry, target);
      MovedIndexed(dt, dentry, target);
      MovedTree(dt, dentry, target);
    }

    /** is_subdir. */
    method IsSubdir(newDentry: nat, oldDentry: nat) returns (r: bool)
      requires TreeOk(TreeOf(Abs())) && newDentry in parent
      ensures r <==> Below(parent, newDentry, oldDentry)
    {
      var t := newDentry;
      assert Grounded(parent, t);
      ghost var n: nat :| IsRoot(parent, Up(parent, t, n));
      while t != oldDentry
        invariant t in parent && IsRoot(parent, Up(parent, t, n))
        invariant Below(parent, newDentry, oldDentry) <==> Below(parent, t, oldDentry)
        decreases n
      {
        var p := parent[t];
        if p == t {
          forall k: nat ensures Up(parent, t, k) != oldDentry { UpRoot(parent, t, k); }
          return false;
        }
        assert IsChild(TreeOf(Abs()), p, t);
        ParentBelow(parent, t);
        if Below(parent, t, oldDentry) { BelowStep(parent, t, oldDentry); }
        if Below(parent, p, oldDentry) { BelowTrans(parent, t, p, oldDentry); }
        assert n > 0;
        assert Up(parent, t, n) == Up(parent, p, n - 1);
        t := p;
        n := n - 1;
      }
      BelowSelf(parent, t);
      return true;
    }

    /** The checks of vfs_rename_dir (fs/namei.c:1748-1753). */
    method RenameDirAllowed(oldDentry: nat, newDentry: nat) returns (ok: bool)
      requires TreeOk(TreeOf(Abs())) && newDentry in parent && oldDentry in parent
      ensures ok <==> RenameChecked(parent, oldDentry, newDentry)
    {
      var below := IsSubdir(newDentry, oldDentry);
      ok := !below && parent[oldDentry] != newDentry;
    }
  }

  lemma ChainDropped(dt: Dir, x: nat)
    requires Indexed(dt) && x in dt.parent
    ensures var r := dt.(chains := dt.chains[Home(dt, x) := Without(Chain(dt, Home(dt, x)), x)]);
            && Indexed(r) && !Hashed(r, x)
            && forall y, p, hash, text {:trigger Finds(r, y, p, hash, text)} ::
                 Finds(r, y, p, hash, text) <==> y != x && Finds(dt, y, p, hash, text)
  {
    var b := Home(dt, x);
    var r := dt.(chains := dt.chains[b := Without(Chain(dt, b), x)]);
    WithoutIn(Chain(dt, b), x);
    WithoutDistinct(Chain(dt, b), x);
    forall c, y ensures InChain(r, c, y) <==> InChain(dt, c, y) && !(c == b && y == x) { }
    forall c, y | InChain(r, c, y) ensures y in r.parent && c == Home(r, y) { assert InChain(dt, c, y); }
  }

  lemma ChainPushed(dt: Dir, x: nat)
    requires Indexed(dt) && x in dt.parent && !Hashed(dt, x)
    ensures var r := dt.(chains := dt.chains[Home(dt, x) := [x] + Chain(dt, Home(dt, x))]);
            && Indexed(r) && Hashed(r, x)
            && forall y, p, hash, text {:trigger Finds(r, y, p, hash, text)} :: y != x ==>
                 (Finds(r, y, p, hash, text) <==> Finds(dt, y, p, hash, text))
  {
    var b := Home(dt, x);
    var r := dt.(chains := dt.chains[b := [x] + Chain(dt, b)]);
    PushDistinct(Chain(dt, b), x);
    forall c, y ensures InChain(r, c, y) <==> InChain(dt, c, y) || (c == b && y == x) { }
    forall c, y | InChain(r, c, y) ensures y in r.parent && c == Home(r, y) {
      assert InChain(dt, c, y) || (c == b && y == x);
    }
  }
}
