/**
 * The bookkeeping the user counters stand for. `Accounts(c, hs)` says that
 * the counters of every cache entry are exactly the number of live handles
 * `hs` on that entry in each class, and that every file-backed handle's entry
 * exists. The handle operations keep this, so an entry stays in the cache
 * exactly as long as some live handle uses it.
 */
module Census {
  import opened FileCache
  import opened Grids

  /** How many handles in `hs` are users of the entry at `k` in the given class. */
  function Count(hs: seq<VolumeGrid>, k: Key, asTree: bool): nat
  {
    if hs == [] then 0
    else Count(hs[..|hs| - 1], k, asTree) + (if hs[|hs| - 1] == Shared(k, asTree) then 1 else 0)
  }

  /** The cache's counters are the census of the live handles `hs`. */
  predicate Accounts(c: Cache, hs: seq<VolumeGrid>)
  {
    && (forall k :: k in c ==>
          c[k].metadataUsers == Count(hs, k, false) && c[k].treeUsers == Count(hs, k, true))
    && (forall i :: 0 <= i < |hs| && hs[i].Shared? ==> hs[i].key in c)
  }

  /**
   * The cache holds at least the users the handles `hs` stand for: what
   * releasing all of `hs`, one after the other, needs.
   */
  predicate Backs(c: Cache, hs: seq<VolumeGrid>)
  {
    forall i :: 0 <= i < |hs| && hs[i].Shared? ==>
      && hs[i].key in c
      && Count(hs, hs[i].key, false) <= c[hs[i].key].metadataUsers
      && Count(hs, hs[i].key, true) <= c[hs[i].key].treeUsers
  }

  lemma {:induction false} CountAppend(a: seq<VolumeGrid>, b: seq<VolumeGrid>, k: Key, asTree: bool)
    ensures Count(a + b, k, asTree) == Count(a, k, asTree) + Count(b, k, asTree)
    decreases |b|
  {
    if b == [] {
      assert a + b == a;
    } else {
      var b' := b[..|b| - 1];
      assert (a + b)[..|a + b| - 1] == a + b';
      CountAppend(a, b', k, asTree);
    }
  }

  /** Counting from the front, for one entry and class: the first handle, then the rest. */
  lemma CountFront(hs: seq<VolumeGrid>, k: Key, asTree: bool)
    requires |hs| > 0
    ensures Count(hs, k, asTree)
            == Count(hs[1..], k, asTree) + (if hs[0] == Shared(k, asTree) then 1 else 0)
  {
    assert [hs[0]][..0] == [];
    assert hs == [hs[0]] + hs[1..];
    CountAppend([hs[0]], hs[1..], k, asTree);
  }

  /** Counting from the front: the first handle, then the rest. */
  lemma CountCons(hs: seq<VolumeGrid>)
    requires |hs| > 0
    ensures forall k, asTree :: Count(hs, k, asTree)
              == Count(hs[1..], k, asTree) + (if hs[0] == Shared(k, asTree) then 1 else 0)
  {
    forall k, asTree
      ensures Count(hs, k, asTree)
              == Count(hs[1..], k, asTree) + (if hs[0] == Shared(k, asTree) then 1 else 0)
    {
      CountFront(hs, k, asTree);
    }
  }

  /** The count is zero exactly when no handle is such a user. */
  lemma {:induction false} CountZeroIff(hs: seq<VolumeGrid>, k: Key, asTree: bool)
    ensures Count(hs, k, asTree) == 0 <==> forall i :: 0 <= i < |hs| ==> hs[i] != Shared(k, asTree)
  {
    if hs != [] {
      var hs' := hs[..|hs| - 1];
      CountZeroIff(hs', k, asTree);
      assert forall i :: 0 <= i < |hs'| ==> hs'[i] == hs[i];
    }
  }

  /** Replacing one handle changes the counts by what it and its replacement contribute. */
  lemma CountUpdate(hs: seq<VolumeGrid>, i: int, x: VolumeGrid, k: Key, asTree: bool)
    requires 0 <= i < |hs|
    ensures Count(hs[i := x], k, asTree) + (if hs[i] == Shared(k, asTree) then 1 else 0)
            == Count(hs, k, asTree) + (if x == Shared(k, asTree) then 1 else 0)
  {
    assert hs == hs[..i] + [hs[i]] + hs[i + 1..];
    assert hs[i := x] == hs[..i] + [x] + hs[i + 1..];
    assert [x][..0] == [] && [hs[i]][..0] == [];
    CountAppend(hs[..i] + [hs[i]], hs[i + 1..], k, asTree);
    CountAppend(hs[..i], [hs[i]], k, asTree);
    CountAppend(hs[..i] + [x], hs[i + 1..], k, asTree);
    CountAppend(hs[..i], [x], k, asTree);
  }

  /** Dropping one handle takes away what it contributed. */
  lemma CountRemove(hs: seq<VolumeGrid>, i: int, k: Key, asTree: bool)
    requires 0 <= i < |hs|
    ensures Count(hs[..i] + hs[i + 1..], k, asTree) + (if hs[i] == Shared(k, asTree) then 1 else 0)
            == Count(hs, k, asTree)
  {
    assert hs == hs[..i] + [hs[i]] + hs[i + 1..];
    assert [hs[i]][..0] == [];
    CountAppend(hs[..i] + [hs[i]], hs[i + 1..], k, asTree);
    CountAppend(hs[..i], [hs[i]], k, asTree);
    CountAppend(hs[..i], hs[i + 1..], k, asTree);
  }

  /** Every live handle may be used with a cache that accounts for it. */
  lemma AccountedIsValid(c: Cache, hs: seq<VolumeGrid>, i: int)
    requires Inv(c) && Accounts(c, hs)
    requires 0 <= i < |hs|
    ensures Valid(c, hs[i])
  {
    if hs[i].Shared? {
      CountZeroIff(hs, hs[i].key, hs[i].isLoaded);
    }
  }

  /** An entry is in the cache exactly when some live handle uses it. */
  lemma PresentIffUsed(c: Cache, hs: seq<VolumeGrid>, k: Key)
    requires Inv(c) && Accounts(c, hs)
    ensures k in c <==> exists i :: 0 <= i < |hs| && hs[i].Shared? && hs[i].key == k
  {
    CountZeroIff(hs, k, false);
    CountZeroIff(hs, k, true);
    if k in c {
      var i :| 0 <= i < |hs| && (hs[i] == Shared(k, false) || hs[i] == Shared(k, true));
      assert hs[i].Shared? && hs[i].key == k;
    }
  }

  /** Creating a handle from a file grid keeps the census. */
  lemma AccountsFromFile(c: Cache, hs: seq<VolumeGrid>, filepath: string, meta: GridTypes.GridMeta)
    requires Inv(c) && Accounts(c, hs)
    ensures var r := FromFile(c, filepath, meta);
            Inv(r.cache) && Accounts(r.cache, hs + [r.grid])
  {
    var r := FromFile(c, filepath, meta);
    var hs' := hs + [r.grid];
    forall k, asTree
      ensures Count(hs', k, asTree) == Count(hs, k, asTree) + (if r.grid == Shared(k, asTree) then 1 else 0)
    {
      assert hs'[..|hs'| - 1] == hs;
    }
    if r.grid.key !in c {
      CountZeroIff(hs, r.grid.key, false);
      CountZeroIff(hs, r.grid.key, true);
    }
    assert forall i :: 0 <= i < |hs| ==> hs'[i] == hs[i];
  }

  /** Copying a live handle keeps the census, with the copy as one more live handle. */
  lemma AccountsCopy(c: Cache, hs: seq<VolumeGrid>, i: int)
    requires Inv(c) && Accounts(c, hs)
    requires 0 <= i < |hs|
    ensures Valid(c, hs[i])
    ensures Inv(Copy(c, hs[i])) && Accounts(Copy(c, hs[i]), hs + [hs[i]])
  {
    AccountedIsValid(c, hs, i);
    var hs' := hs + [hs[i]];
    forall k, asTree
      ensures Count(hs', k, asTree) == Count(hs, k, asTree) + (if hs[i] == Shared(k, asTree) then 1 else 0)
    {
      assert hs'[..|hs'| - 1] == hs;
    }
    assert forall j :: 0 <= j < |hs| ==> hs'[j] == hs[j];
  }

  /** Destroying a live handle keeps the census of the handles left. */
  lemma AccountsDestroy(c: Cache, hs: seq<VolumeGrid>, i: int)
    requires Inv(c) && Accounts(c, hs)
    requires 0 <= i < |hs|
    ensures Valid(c, hs[i])
    ensures var r := Destroy(c, hs[i]);
            Inv(r) && Accounts(r, hs[..i] + hs[i + 1..])
  {
    AccountedIsValid(c, hs, i);
    var r := Destroy(c, hs[i]);
    var rest := hs[..i] + hs[i + 1..];
    forall k, asTree
      ensures Count(rest, k, asTree) + (if hs[i] == Shared(k, asTree) then 1 else 0) == Count(hs, k, asTree)
    {
      CountRemove(hs, i, k, asTree);
    }
    if hs[i].Shared? && hs[i].key !in r {
      CountZeroIff(rest, hs[i].key, false);
      CountZeroIff(rest, hs[i].key, true);
    }
    forall k | k in r
      ensures r[k].metadataUsers == Count(rest, k, false) && r[k].treeUsers == Count(rest, k, true)
    {
      if !(hs[i].Shared? && hs[i].key == k) {
        DestroyElsewhere(c, hs[i], k);
      }
    }
    forall j | 0 <= j < |rest| && rest[j].Shared?
      ensures rest[j].key in r
    {
      var j' := if j < i then j else j + 1;
      assert rest[j] == hs[j'];
      if !(hs[i].Shared? && hs[i].key == rest[j].key) {
        DestroyElsewhere(c, hs[i], rest[j].key);
      }
    }
  }

  /** Loading a live handle keeps the census, with the handle now a tree user. */
  lemma AccountsHandleLoad(c: Cache, hs: seq<VolumeGrid>, i: int, read: ReadResult)
    requires Inv(c) && Accounts(c, hs)
    requires 0 <= i < |hs|
    ensures Valid(c, hs[i])
    ensures var r := Load(c, hs[i], read);
            Inv(r.cache) && Accounts(r.cache, hs[i := r.grid])
  {
    AccountedIsValid(c, hs, i);
    var r := Load(c, hs[i], read);
    forall k, asTree
      ensures Count(hs[i := r.grid], k, asTree) + (if hs[i] == Shared(k, asTree) then 1 else 0)
              == Count(hs, k, asTree) + (if r.grid == Shared(k, asTree) then 1 else 0)
    {
      CountUpdate(hs, i, r.grid, k, asTree);
    }
  }

  /** Unloading a live handle keeps the census, with the handle a metadata user again. */
  lemma AccountsHandleUnload(c: Cache, hs: seq<VolumeGrid>, i: int)
    requires Inv(c) && Accounts(c, hs)
    requires 0 <= i < |hs|
    ensures Valid(c, hs[i])
    ensures var r := Unload(c, hs[i]);
            Inv(r.cache) && Accounts(r.cache, hs[i := r.grid])
  {
    AccountedIsValid(c, hs, i);
    var r := Unload(c, hs[i]);
    forall k, asTree
      ensures Count(hs[i := r.grid], k, asTree) + (if hs[i] == Shared(k, asTree) then 1 else 0)
              == Count(hs, k, asTree) + (if r.grid == Shared(k, asTree) then 1 else 0)
    {
      CountUpdate(hs, i, r.grid, k, asTree);
    }
  }

  /** A backed list of handles on an entry never counts more users than the entry has. */
  lemma BackedCount(c: Cache, hs: seq<VolumeGrid>, k: Key, asTree: bool)
    requires Backs(c, hs)
    ensures Count(hs, k, asTree) > 0 ==>
              && k in c
              && Count(hs, k, asTree) <= (if asTree then c[k].treeUsers else c[k].metadataUsers)
  {
    CountZeroIff(hs, k, asTree);
  }

  /** Destroying the first of a backed sequence of handles leaves the rest backed. */
  lemma BacksAfterDestroy(c: Cache, hs: seq<VolumeGrid>)
    requires |hs| > 0 && Backs(c, hs)
    ensures Valid(c, hs[0])
    ensures Backs(Destroy(c, hs[0]), hs[1..])
  {
    CountCons(hs);
    if hs[0].Shared? {
      CountZeroIff(hs, hs[0].key, hs[0].isLoaded);
    }
    var r := Destroy(c, hs[0]);
    var tail := hs[1..];
    forall j | 0 <= j < |tail| && tail[j].Shared?
      ensures tail[j].key in r
      ensures Count(tail, tail[j].key, false) <= r[tail[j].key].metadataUsers
      ensures Count(tail, tail[j].key, true) <= r[tail[j].key].treeUsers
    {
      assert tail[j] == hs[j + 1];
      CountZeroIff(tail, tail[j].key, tail[j].isLoaded);
      if !(hs[0].Shared? && hs[0].key == tail[j].key) {
        DestroyElsewhere(c, hs[0], tail[j].key);
      }
    }
  }

  /** The handles of a sub-range of the live handles are backed by the cache. */
  lemma AccountedSuffixIsBacked(c: Cache, rest: seq<VolumeGrid>, hs: seq<VolumeGrid>)
    requires Accounts(c, rest + hs)
    ensures Backs(c, hs)
  {
    forall i | 0 <= i < |hs| && hs[i].Shared?
      ensures hs[i].key in c
      ensures Count(hs, hs[i].key, false) <= c[hs[i].key].metadataUsers
      ensures Count(hs, hs[i].key, true) <= c[hs[i].key].treeUsers
    {
      assert (rest + hs)[|rest| + i] == hs[i];
      CountAppend(rest, hs, hs[i].key, false);
      CountAppend(rest, hs, hs[i].key, true);
    }
  }

  /**
   * Under the census, a handle marked loaded finds its entry loaded, so it
   * may use the entry's tree.
   */
  lemma LoadedHandleSeesLoadedEntry(c: Cache, hs: seq<VolumeGrid>, i: int)
    requires TreeUsersLoaded(c) && Accounts(c, hs)
    requires 0 <= i < |hs| && hs[i].Shared? && hs[i].isLoaded
    ensures hs[i].key in c && c[hs[i].key].isLoaded
  {
    CountZeroIff(hs, hs[i].key, true);
  }
}
