/**
 * The global volume file cache (`VolumeFileCache`): one entry per
 * (file path, grid name), shared by every grid handle that reads that grid.
 * An entry counts two kinds of users: metadata users, which only need the
 * grid's descriptive attributes, and tree users, which need its voxel tree.
 * The cache's mutex is left out: every operation is one atomic step from a
 * cache state to the next.
 */
module FileCache {
  import opened GridTypes

  /** The unique key of an entry: file path and grid name. */
  datatype Key = Key(filepath: string, gridName: string)

  /** A cache entry, apart from its key and its mutex. */
  datatype Entry = Entry(
    gridType: GridType,   // type of the shared grid, fixed when the entry is created
    hasTree: bool,        // the shared grid holds a voxel tree read from the file
    isLoaded: bool,       // a tree read has completed, successfully or not
    errorMsg: string,     // text of the last failed tree read
    metadataUsers: int,
    treeUsers: int)

  type Cache = map<Key, Entry>

  function Users(e: Entry): int
  {
    e.metadataUsers + e.treeUsers
  }

  /** The copy of a template entry that a lookup miss inserts: nothing read, no users. */
  function Template(t: GridType): Entry
  {
    Entry(t, false, false, "", 0, 0)
  }

  /**
   * What every entry in the cache satisfies between operations: counters are
   * not negative, someone uses the entry, and an entry without tree users
   * holds no tree and is not marked loaded.
   */
  predicate WellFormed(e: Entry)
  {
    && e.metadataUsers >= 0
    && e.treeUsers >= 0
    && Users(e) >= 1
    && (e.hasTree ==> e.isLoaded)
    && (e.treeUsers == 0 ==> !e.isLoaded)
  }

  predicate Inv(c: Cache)
  {
    forall k :: k in c ==> WellFormed(c[k])
  }

  /**
   * `after` is `before` with its counters moved by `dMeta` and `dTree`, its
   * tree dropped if no tree user is left, and otherwise nothing changed.
   */
  predicate Moved(before: Entry, after: Entry, dMeta: int, dTree: int)
  {
    && after.metadataUsers == before.metadataUsers + dMeta
    && after.treeUsers == before.treeUsers + dTree
    && after.gridType == before.gridType
    && after.errorMsg == before.errorMsg
    && (after.treeUsers == 0 ==> !after.isLoaded && !after.hasTree)
    && (after.treeUsers != 0 ==> after.isLoaded == before.isLoaded && after.hasTree == before.hasTree)
  }

  /**
   * Two removals in a row are one removal of both: the tree survives only if
   * tree users remain at the end.
   */
  lemma MovedThen(a: Entry, b: Entry, e: Entry, m1: int, t1: int, m2: int, t2: int)
    requires Moved(a, b, m1, t1) && Moved(b, e, m2, t2)
    requires t2 <= 0 && (t2 < 0 ==> e.treeUsers >= 0)
    ensures Moved(a, e, m1 + m2, t1 + t2)
  {
  }

  /**
   * `add_metadata_user`: find the entry for `k` or insert a fresh one, and
   * count one more metadata user of it.
   */
  function AddMetadataUser(c: Cache, k: Key, t: GridType): (r: Cache)
    ensures k in r
    ensures r - {k} == c - {k}
    ensures k in c ==> r[k] == c[k].(metadataUsers := c[k].metadataUsers + 1)
    ensures k !in c ==> r[k] == Template(t).(metadataUsers := 1)
    ensures Inv(c) ==> Inv(r)
  {
    var e := if k in c then c[k] else Template(t);
    c[k := e.(metadataUsers := e.metadataUsers + 1)]
  }

  /** `copy_user`: a duplicated handle is one more user of the same class. */
  function CopyUser(c: Cache, k: Key, asTree: bool): (r: Cache)
    requires k in c
    ensures k in r
    ensures r - {k} == c - {k}
    ensures r[k].metadataUsers == c[k].metadataUsers + (if asTree then 0 else 1)
    ensures r[k].treeUsers == c[k].treeUsers + (if asTree then 1 else 0)
    ensures r[k].(metadataUsers := c[k].metadataUsers, treeUsers := c[k].treeUsers) == c[k]
    ensures Inv(c) ==> Inv(r)
  {
    var e := c[k];
    c[k := if asTree then e.(treeUsers := e.treeUsers + 1)
           else e.(metadataUsers := e.metadataUsers + 1)]
  }

  /**
   * `update_for_remove_user`: erase an entry nobody uses; drop the tree of an
   * entry that only metadata users are left on.
   */
  function UpdateForRemoveUser(c: Cache, k: Key): (r: Cache)
    requires k in c
    ensures k in r <==> Users(c[k]) != 0
    ensures r - {k} == c - {k}
    ensures k in r ==> Moved(c[k], r[k], 0, 0)
  {
    if Users(c[k]) == 0 then c - {k}
    else if c[k].treeUsers == 0 then c[k := c[k].(hasTree := false, isLoaded := false)]
    else c
  }

  /** `remove_user`: one user of the given class is gone. */
  function RemoveUser(c: Cache, k: Key, asTree: bool): (r: Cache)
    requires k in c
    requires if asTree then c[k].treeUsers > 0 else c[k].metadataUsers > 0
    ensures k in r <==> Users(c[k]) - 1 != 0
    ensures r - {k} == c - {k}
    ensures k in r ==> Moved(c[k], r[k], if asTree then 0 else -1, if asTree then -1 else 0)
    ensures Inv(c) ==> Inv(r)
  {
    var e := c[k];
    var e' := if asTree then e.(treeUsers := e.treeUsers - 1)
              else e.(metadataUsers := e.metadataUsers - 1);
    UpdateForRemoveUser(c[k := e'], k)
  }

  /** `change_to_tree_user`: a metadata user becomes a tree user. */
  function ChangeToTreeUser(c: Cache, k: Key): (r: Cache)
    requires k in c
    requires c[k].metadataUsers > 0
    ensures k in r <==> Users(c[k]) != 0
    ensures r - {k} == c - {k}
    ensures k in r ==> Moved(c[k], r[k], -1, 1) && Users(r[k]) == Users(c[k])
    ensures Inv(c) ==> Inv(r)
  {
    var e := c[k];
    UpdateForRemoveUser(c[k := e.(treeUsers := e.treeUsers + 1, metadataUsers := e.metadataUsers - 1)], k)
  }

  /** `change_to_metadata_user`: a tree user goes back to being a metadata user. */
  function ChangeToMetadataUser(c: Cache, k: Key): (r: Cache)
    requires k in c
    requires c[k].treeUsers > 0
    ensures k in r <==> Users(c[k]) != 0
    ensures r - {k} == c - {k}
    ensures k in r ==> Moved(c[k], r[k], 1, -1) && Users(r[k]) == Users(c[k])
    ensures Inv(c) ==> Inv(r)
  {
    var e := c[k];
    UpdateForRemoveUser(c[k := e.(metadataUsers := e.metadataUsers + 1, treeUsers := e.treeUsers - 1)], k)
  }

  /** Adding a metadata user and removing it again leaves the cache as it was. */
  lemma AddThenRemoveRestores(c: Cache, k: Key, t: GridType)
    requires Inv(c)
    ensures RemoveUser(AddMetadataUser(c, k, t), k, false) == c
  {
    var r := RemoveUser(AddMetadataUser(c, k, t), k, false);
    forall j
      ensures (j in r <==> j in c) && (j in c ==> r[j] == c[j])
    {
      AddThenRemoveAt(c, k, t, j);
    }
    SameMap(r, c);
  }

  /** Two caches with the same keys and the same entries are equal. */
  lemma SameMap(r: Cache, c: Cache)
    requires forall j :: (j in r <==> j in c) && (j in c ==> r[j] == c[j])
    ensures r == c
  {
    assert r.Keys == c.Keys;
  }

  /** The restoration of `AddThenRemoveRestores`, one key at a time. */
  lemma AddThenRemoveAt(c: Cache, k: Key, t: GridType, j: Key)
    requires k in c ==> WellFormed(c[k])
    ensures var r := RemoveUser(AddMetadataUser(c, k, t), k, false);
            (j in r <==> j in c) && (j in c ==> r[j] == c[j])
  {
    if j != k {
      var a := AddMetadataUser(c, k, t);
      ElsewhereUnchanged(a, c, k, j);
      ElsewhereUnchanged(RemoveUser(a, k, false), a, k, j);
    } else if k in c {
      AddThenRemoveExisting(c, k, t);
    } else {
      AddThenRemoveMissing(c, k, t);
    }
  }

  /** A missing entry is created with one user and evicted with it. */
  lemma AddThenRemoveMissing(c: Cache, k: Key, t: GridType)
    requires k !in c
    ensures k !in RemoveUser(AddMetadataUser(c, k, t), k, false)
  {
    assert AddMetadataUser(c, k, t)[k] == Template(t).(metadataUsers := 1);
  }

  /** An existing well-formed entry gets back exactly its old state. */
  lemma AddThenRemoveExisting(c: Cache, k: Key, t: GridType)
    requires k in c && WellFormed(c[k])
    ensures var r := RemoveUser(AddMetadataUser(c, k, t), k, false);
            k in r && r[k] == c[k]
  {
    var e := c[k];
    var a := AddMetadataUser(c, k, t);
    assert a[k] == e.(metadataUsers := e.metadataUsers + 1);
    var r := RemoveUser(a, k, false);
    assert k in r && Moved(a[k], r[k], -1, 0);
  }

  /** Two caches that agree off one key agree at every other key. */
  lemma ElsewhereUnchanged(after: Cache, before: Cache, k: Key, j: Key)
    requires after - {k} == before - {k}
    requires j != k
    ensures j in after <==> j in before
    ensures j in before ==> after[j] == before[j]
  {
    assert j in after <==> j in after - {k};
    assert j in before <==> j in before - {k};
    assert j in before ==> after[j] == (after - {k})[j];
  }

  /** Copying a user and removing the copy leaves the cache as it was. */
  lemma CopyThenRemoveRestores(c: Cache, k: Key, asTree: bool)
    requires Inv(c)
    requires k in c
    ensures RemoveUser(CopyUser(c, k, asTree), k, asTree) == c
  {
    var r := RemoveUser(CopyUser(c, k, asTree), k, asTree);
    assert r[k] == c[k];
    assert r.Keys == c.Keys;
  }

  /**
   * Promoting a metadata user to a tree user and demoting it again leaves the
   * cache as it was (an entry that had no tree user had no tree to lose).
   */
  lemma PromoteThenDemoteRestores(c: Cache, k: Key)
    requires Inv(c)
    requires k in c && c[k].metadataUsers > 0
    ensures ChangeToMetadataUser(ChangeToTreeUser(c, k), k) == c
  {
    var r := ChangeToMetadataUser(ChangeToTreeUser(c, k), k);
    assert r[k] == c[k];
    assert r.Keys == c.Keys;
  }

  /**
   * Once the last user of an entry is gone, the next lookup of its key starts
   * from a fresh entry: no tree, no load flag and no error survive eviction.
   */
  lemma EvictionForgetsEntry(c: Cache, k: Key, asTree: bool, t: GridType)
    requires k in c
    requires if asTree then c[k].treeUsers > 0 else c[k].metadataUsers > 0
    requires Users(c[k]) == 1
    ensures var r := AddMetadataUser(RemoveUser(c, k, asTree), k, t);
            r[k] == Entry(t, false, false, "", 1, 0)
  {
  }

}
