/**
 * `VolumeGridVector`: the grids of one volume datablock together with the
 * file they were read from (empty while nothing is loaded) and the error of
 * the last file load. Its mutex is left out.
 */
module GridVectors {
  import opened Optional
  import opened GridTypes
  import opened FileCache
  import opened Grids
  import opened Census

  datatype GridVector = GridVector(filepath: string, errorMsg: string, grids: seq<VolumeGrid>)

  /** The cache and the handles appended by loading a file's grids. */
  datatype Added = Added(cache: Cache, handles: seq<VolumeGrid>)

  /** A copied grid vector and the cache with the copies registered. */
  datatype VectorCopy = VectorCopy(vector: GridVector, cache: Cache)

  /** The default constructor: no file, no error, no grids. */
  function Empty(): GridVector
  {
    GridVector("", "", [])
  }

  /** `VolumeGridVector::is_loaded`: a file path has been recorded. */
  function VectorIsLoaded(v: GridVector): bool
  {
    v.filepath != ""
  }

  /** The grids an enumeration returned, with its null entries filtered out, in order. */
  function Present(metas: seq<Option<GridMeta>>): (r: seq<GridMeta>)
    ensures |r| <= |metas|
    ensures forall m :: m in r <==> Some(m) in metas
  {
    if metas == [] then []
    else (if metas[0].Some? then [metas[0].value] else []) + Present(metas[1..])
  }

  /** Filtering distributes over concatenation, so it keeps order and duplicates. */
  lemma {:induction false} PresentAppend(a: seq<Option<GridMeta>>, b: seq<Option<GridMeta>>)
    ensures Present(a + b) == Present(a) + Present(b)
    decreases |a|
  {
    if a == [] {
      assert a + b == b;
    } else {
      assert (a + b)[1..] == a[1..] + b;
      PresentAppend(a[1..], b);
    }
  }

  /** A present grid is kept, a null one dropped. */
  lemma PresentOfOne(m: GridMeta)
    ensures Present([Some(m)]) == [m]
    ensures Present([None]) == []
  {
  }

  /** How many grids of the enumeration are present and named `name`. */
  function Named(metas: seq<Option<GridMeta>>, name: string): nat
    decreases |metas|
  {
    if metas == [] then 0
    else (if metas[0].Some? && metas[0].value.name == name then 1 else 0) + Named(metas[1..], name)
  }

  /** The type of the first present grid named `name`, if any. */
  function FirstNamed(metas: seq<Option<GridMeta>>, name: string): Option<GridType>
    decreases |metas|
  {
    if metas == [] then None
    else if metas[0].Some? && metas[0].value.name == name then Some(metas[0].value.gridType)
    else FirstNamed(metas[1..], name)
  }

  /** Reference: one metadata-user handle per enumerated grid, keyed by the file and the grid's name. */
  function HandlesFor(filepath: string, metas: seq<GridMeta>): seq<VolumeGrid>
  {
    seq(|metas|, i requires 0 <= i < |metas| => Shared(Key(filepath, metas[i].name), false))
  }

  /**
   * The loop that appends a handle for every non-null enumerated grid, each
   * one registering a metadata user with the cache.
   */
  function AddGrids(c: Cache, filepath: string, metas: seq<Option<GridMeta>>): (r: Added)
    ensures r.handles == HandlesFor(filepath, Present(metas))
    ensures Inv(c) ==> Inv(r.cache)
    decreases |metas|
  {
    if metas == [] then Added(c, [])
    else if metas[0].None? then
      assert Present(metas) == Present(metas[1..]);
      AddGrids(c, filepath, metas[1..])
    else
      var meta := metas[0].value;
      var first := FromFile(c, filepath, meta);
      var rest := AddGrids(first.cache, filepath, metas[1..]);
      assert Present(metas) == [meta] + Present(metas[1..]);
      HandlesForCons(filepath, meta, Present(metas[1..]));
      Added(rest.cache, [first.grid] + rest.handles)
  }

  /**
   * Loading the grids of `filepath` adds to the entry at `k` one metadata
   * user per present grid with its name and changes nothing else in it. A
   * missing entry is created from the first such grid, as a template.
   */
  lemma {:induction false} AddGridsOnKey(c: Cache, filepath: string, metas: seq<Option<GridMeta>>, k: Key)
    ensures var r := AddGrids(c, filepath, metas).cache;
            var n := if k.filepath == filepath then Named(metas, k.gridName) else 0;
            && (k in r <==> k in c || n > 0)
            && (k in c ==> r[k] == c[k].(metadataUsers := c[k].metadataUsers + n))
            && (k !in c && n > 0 ==>
                  && FirstNamed(metas, k.gridName).Some?
                  && r[k] == Template(FirstNamed(metas, k.gridName).value).(metadataUsers := n))
    decreases |metas|
  {
    if metas != [] {
      if metas[0].None? {
        AddGridsOnKey(c, filepath, metas[1..], k);
      } else {
        var meta := metas[0].value;
        var first := FromFile(c, filepath, meta);
        assert AddGrids(c, filepath, metas).cache == AddGrids(first.cache, filepath, metas[1..]).cache;
        AddGridsOnKey(first.cache, filepath, metas[1..], k);
        if first.grid.key != k {
          assert k in first.cache <==> k in c;
          assert k in c ==> first.cache[k] == c[k];
        }
      }
    }
  }

  lemma HandlesForCons(filepath: string, m: GridMeta, ms: seq<GridMeta>)
    ensures HandlesFor(filepath, [m] + ms) == [Shared(Key(filepath, m.name), false)] + HandlesFor(filepath, ms)
  {
  }

  /**
   * `clear()`: destroy the handles `hs` front to back, each removing its user
   * from the cache. `ReleaseAllOnKey` states what this does to each entry.
   */
  function ReleaseAll(c: Cache, hs: seq<VolumeGrid>): (r: Cache)
    requires Backs(c, hs)
    ensures r.Keys <= c.Keys
    ensures Inv(c) ==> Inv(r)
    decreases |hs|
  {
    if hs == [] then c
    else
      BacksAfterDestroy(c, hs);
      ReleaseAll(Destroy(c, hs[0]), hs[1..])
  }

  /**
   * Releasing `hs` takes from the entry at `k` exactly the users `hs` held on
   * it and erases the entry when that leaves none. An entry that survives
   * keeps its type and error, and its tree while tree users remain; an entry
   * `hs` did not use is untouched.
   */
  lemma {:induction false} ReleaseAllOnKey(c: Cache, hs: seq<VolumeGrid>, k: Key)
    requires Backs(c, hs)
    ensures var r := ReleaseAll(c, hs);
            var meta: int := Count(hs, k, false);
            var tree: int := Count(hs, k, true);
            && (k in c && meta + tree == 0 ==> k in r && r[k] == c[k])
            && (k in c && meta + tree > 0 ==> (k in r <==> Users(c[k]) != meta + tree))
            && (k in r && meta + tree > 0 ==> k in c && Moved(c[k], r[k], -meta, -tree))
    decreases |hs|
  {
    if hs != [] {
      BacksAfterDestroy(c, hs);
      CountFront(hs, k, false);
      CountFront(hs, k, true);
      var c1 := Destroy(c, hs[0]);
      var tail := hs[1..];
      var r := ReleaseAll(c, hs);
      assert r == ReleaseAll(c1, tail);
      ReleaseAllOnKey(c1, tail, k);
      var meta': int := Count(tail, k, false);
      var tree': int := Count(tail, k, true);
      if hs[0].Shared? && hs[0].key == k {
        var m0 := if hs[0].isLoaded then 0 else -1;
        var t0 := if hs[0].isLoaded then -1 else 0;
        if meta' + tree' > 0 {
          BackedCount(c1, tail, k, false);
          BackedCount(c1, tail, k, true);
          if k in r {
            MovedThen(c[k], c1[k], r[k], m0, t0, -meta', -tree');
          }
        }
      } else {
        DestroyElsewhere(c, hs[0], k);
      }
    }
  }

  /** The copy constructor as written: the base vector is not copied, so the copy has no grids. */
  function CopyAsWritten(v: GridVector): (r: GridVector)
    ensures r.filepath == v.filepath && r.errorMsg == v.errorMsg
    ensures r.grids == []
  {
    GridVector(v.filepath, v.errorMsg, [])
  }

  /** Copying one handle keeps every other usable handle usable. */
  lemma CopyKeepsValid(c: Cache, g: VolumeGrid, hs: seq<VolumeGrid>)
    requires Valid(c, g)
    requires forall i :: 0 <= i < |hs| ==> Valid(c, hs[i])
    ensures forall i :: 0 <= i < |hs| ==> Valid(Grids.Copy(c, g), hs[i])
  {
  }

  /** Copy every handle of `hs`, front to back. `CopyUsersOnKey` states the effect per entry. */
  function CopyUsers(c: Cache, hs: seq<VolumeGrid>): (r: Cache)
    requires forall i :: 0 <= i < |hs| ==> Valid(c, hs[i])
    ensures r.Keys == c.Keys
    ensures Inv(c) ==> Inv(r)
    decreases |hs|
  {
    if hs == [] then c
    else
      CopyKeepsValid(c, hs[0], hs[1..]);
      CopyUsers(Grids.Copy(c, hs[0]), hs[1..])
  }

  /** Copying `hs` adds to the entry at `k` one user per handle of `hs` on it, in its class. */
  lemma {:induction false} CopyUsersOnKey(c: Cache, hs: seq<VolumeGrid>, k: Key)
    requires forall i :: 0 <= i < |hs| ==> Valid(c, hs[i])
    ensures var r := CopyUsers(c, hs);
            k in r ==>
              && r[k].metadataUsers == c[k].metadataUsers + Count(hs, k, false)
              && r[k].treeUsers == c[k].treeUsers + Count(hs, k, true)
              && r[k].(metadataUsers := c[k].metadataUsers, treeUsers := c[k].treeUsers) == c[k]
    decreases |hs|
  {
    if hs != [] {
      CopyKeepsValid(c, hs[0], hs[1..]);
      CountCons(hs);
      CopyUsersOnKey(Grids.Copy(c, hs[0]), hs[1..], k);
    }
  }

  /**
   * The copy constructor as evidently intended: the copy holds the same file
   * path, error and handles, and every copied handle is one more cache user.
   */
  function Copy(c: Cache, v: GridVector): (r: VectorCopy)
    requires forall i :: 0 <= i < |v.grids| ==> Valid(c, v.grids[i])
    ensures r.vector == v
    ensures r.cache == CopyUsers(c, v.grids)
    ensures r.cache.Keys == c.Keys
    ensures Inv(c) ==> Inv(r.cache)
  {
    VectorCopy(GridVector(v.filepath, v.errorMsg, v.grids), CopyUsers(c, v.grids))
  }

  /** Adding the grids of an enumeration keeps the census, with the new handles live. */
  lemma {:induction false} AccountsAddGrids(c: Cache, hs: seq<VolumeGrid>, filepath: string,
                                            metas: seq<Option<GridMeta>>)
    requires Inv(c) && Accounts(c, hs)
    ensures var r := AddGrids(c, filepath, metas);
            Inv(r.cache) && Accounts(r.cache, hs + r.handles)
    decreases |metas|
  {
    if metas == [] {
      assert hs + [] == hs;
    } else if metas[0].None? {
      AccountsAddGrids(c, hs, filepath, metas[1..]);
    } else {
      var first := FromFile(c, filepath, metas[0].value);
      var rest := AddGrids(first.cache, filepath, metas[1..]);
      AccountsFromFile(c, hs, filepath, metas[0].value);
      AccountsAddGrids(first.cache, hs + [first.grid], filepath, metas[1..]);
      AccountsRegroup(rest.cache, hs, [first.grid], rest.handles);
    }
  }

  /** The census does not depend on how the list of live handles is grouped. */
  lemma AccountsRegroup(c: Cache, a: seq<VolumeGrid>, b: seq<VolumeGrid>, d: seq<VolumeGrid>)
    requires Accounts(c, a + b + d)
    ensures Accounts(c, a + (b + d))
  {
    assert a + b + d == a + (b + d);
  }

  /** Releasing the handles of one vector keeps the census of all other live handles. */
  lemma AccountsReleaseAll(c: Cache, rest: seq<VolumeGrid>, hs: seq<VolumeGrid>)
    requires Inv(c) && Accounts(c, rest + hs)
    ensures Backs(c, hs)
    ensures Inv(ReleaseAll(c, hs)) && Accounts(ReleaseAll(c, hs), rest)
  {
    AccountedSuffixIsBacked(c, rest, hs);
    var r := ReleaseAll(c, hs);
    forall k
      ensures Count(rest + hs, k, false) == Count(rest, k, false) + Count(hs, k, false)
      ensures Count(rest + hs, k, true) == Count(rest, k, true) + Count(hs, k, true)
    {
      CountAppend(rest, hs, k, false);
      CountAppend(rest, hs, k, true);
    }
    forall k | k in r
      ensures r[k].metadataUsers == Count(rest, k, false) && r[k].treeUsers == Count(rest, k, true)
    {
      ReleaseAllOnKey(c, hs, k);
    }
    forall i | 0 <= i < |rest| && rest[i].Shared?
      ensures rest[i].key in r
    {
      assert (rest + hs)[i] == rest[i];
      CountZeroIff(rest, rest[i].key, rest[i].isLoaded);
      ReleaseAllOnKey(c, hs, rest[i].key);
    }
  }

  /** Every handle of a vector whose handles are accounted for is usable. */
  lemma AccountedVectorIsValid(c: Cache, rest: seq<VolumeGrid>, hs: seq<VolumeGrid>)
    requires Inv(c) && Accounts(c, rest + hs)
    ensures forall i :: 0 <= i < |hs| ==> Valid(c, hs[i])
  {
    forall i | 0 <= i < |hs|
      ensures Valid(c, hs[i])
    {
      assert (rest + hs)[|rest| + i] == hs[i];
      AccountedIsValid(c, rest + hs, |rest| + i);
    }
  }

  /** After copying `hs`, each entry counts the old handles and the copies. */
  lemma CopyUsersCounts(c: Cache, live: seq<VolumeGrid>, hs: seq<VolumeGrid>)
    requires Accounts(c, live)
    requires forall i :: 0 <= i < |hs| ==> Valid(c, hs[i])
    ensures var r := CopyUsers(c, hs);
            forall k | k in r ::
              r[k].metadataUsers == Count(live + hs, k, false) && r[k].treeUsers == Count(live + hs, k, true)
  {
    var r := CopyUsers(c, hs);
    forall k | k in r
      ensures r[k].metadataUsers == Count(live + hs, k, false)
      ensures r[k].treeUsers == Count(live + hs, k, true)
    {
      CountAppend(live, hs, k, false);
      CountAppend(live, hs, k, true);
      CopyUsersOnKey(c, hs, k);
    }
  }

  /** The corrected copy keeps the census, with the copied handles live as well. */
  lemma AccountsCopyVector(c: Cache, rest: seq<VolumeGrid>, v: GridVector)
    requires Inv(c) && Accounts(c, rest + v.grids)
    ensures forall i :: 0 <= i < |v.grids| ==> Valid(c, v.grids[i])
    ensures var r := Copy(c, v);
            Inv(r.cache) && Accounts(r.cache, rest + v.grids + r.vector.grids)
  {
    AccountedVectorIsValid(c, rest, v.grids);
    var r := Copy(c, v);
    var live := rest + v.grids;
    CopyUsersCounts(c, live, v.grids);
    forall i | 0 <= i < |live + v.grids| && (live + v.grids)[i].Shared?
      ensures (live + v.grids)[i].key in r.cache
    {
      if i >= |live| {
        assert (live + v.grids)[i] == live[i - |v.grids|];
      }
    }
  }

  /** Loading a file's grids keeps every tree user's entry loaded. */
  lemma {:induction false} AddGridsKeepsTreeUsersLoaded(c: Cache, filepath: string, metas: seq<Option<GridMeta>>)
    requires TreeUsersLoaded(c)
    ensures TreeUsersLoaded(AddGrids(c, filepath, metas).cache)
    decreases |metas|
  {
    if metas != [] {
      if metas[0].None? {
        AddGridsKeepsTreeUsersLoaded(c, filepath, metas[1..]);
      } else {
        var first := FromFile(c, filepath, metas[0].value);
        FromFileKeepsTreeUsersLoaded(c, filepath, metas[0].value);
        assert AddGrids(c, filepath, metas).cache == AddGrids(first.cache, filepath, metas[1..]).cache;
        AddGridsKeepsTreeUsersLoaded(first.cache, filepath, metas[1..]);
      }
    }
  }

  /** Releasing a list of handles keeps every tree user's entry loaded. */
  lemma {:induction false} ReleaseAllKeepsTreeUsersLoaded(c: Cache, hs: seq<VolumeGrid>)
    requires Backs(c, hs) && TreeUsersLoaded(c)
    ensures TreeUsersLoaded(ReleaseAll(c, hs))
    decreases |hs|
  {
    if hs != [] {
      BacksAfterDestroy(c, hs);
      DestroyKeepsTreeUsersLoaded(c, hs[0]);
      ReleaseAllKeepsTreeUsersLoaded(Destroy(c, hs[0]), hs[1..]);
    }
  }

  /** Copying a list of handles keeps every tree user's entry loaded. */
  lemma {:induction false} CopyUsersKeepsTreeUsersLoaded(c: Cache, hs: seq<VolumeGrid>)
    requires forall i :: 0 <= i < |hs| ==> Valid(c, hs[i])
    requires TreeUsersLoaded(c)
    ensures TreeUsersLoaded(CopyUsers(c, hs))
    decreases |hs|
  {
    if hs != [] {
      CopyKeepsValid(c, hs[0], hs[1..]);
      CopyKeepsTreeUsersLoaded(c, hs[0]);
      CopyUsersKeepsTreeUsersLoaded(Grids.Copy(c, hs[0]), hs[1..]);
    }
  }
}
