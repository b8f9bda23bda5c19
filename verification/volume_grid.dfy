/**
 * Grid handles (`VolumeGrid`). A handle either owns a procedurally made grid
 * outside the cache, which always counts as loaded, or is one user of a
 * file cache entry. A file-backed handle is a metadata user until `Load`
 * makes it a tree user, and `Unload` turns it back. The entry's mutex and the
 * memory fences are left out: each operation is one atomic step.
 */
module Grids {
  import opened Optional
  import opened GridTypes
  import opened FileCache

  datatype VolumeGrid =
    | Private(name: string, gridType: GridType)   // not file-backed: `entry == NULL`
    | Shared(key: Key, isLoaded: bool)            // a user of the cache entry at `key`

  /** What a tree read from the file produced. */
  datatype ReadResult = ReadOk | ReadFailed(message: string)

  /** The cache and the handle after a handle operation. */
  datatype GridStep = GridStep(cache: Cache, grid: VolumeGrid)

  /** `BKE_volume_grid_is_loaded`. */
  function GridIsLoaded(g: VolumeGrid): bool
  {
    g.Private? || g.isLoaded
  }

  /** `BKE_volume_grid_name`: a file-backed grid is named by its cache key. */
  function Name(g: VolumeGrid): string
  {
    if g.Private? then g.name else g.key.gridName
  }

  /** `BKE_volume_grid_type`: a file-backed handle sees the shared grid of its entry. */
  function TypeOf(c: Cache, g: VolumeGrid): GridType
    requires g.Shared? ==> g.key in c
  {
    if g.Private? then g.gridType else c[g.key].gridType
  }

  /**
   * The handle may be used with `c`: its entry exists and counts it among the
   * users of its class.
   */
  predicate Valid(c: Cache, g: VolumeGrid)
  {
    g.Shared? ==>
      && g.key in c
      && c[g.key].metadataUsers >= 0
      && c[g.key].treeUsers >= 0
      && (if g.isLoaded then c[g.key].treeUsers > 0 else c[g.key].metadataUsers > 0)
  }

  /**
   * The constructor from a template entry: a handle on the grid named in
   * `meta` of the file at `filepath`, registered as one more metadata user.
   */
  function FromFile(c: Cache, filepath: string, meta: GridMeta): (r: GridStep)
    ensures r.grid == Shared(Key(filepath, meta.name), false)
    ensures Name(r.grid) == meta.name && !GridIsLoaded(r.grid)
    ensures r.cache - {r.grid.key} == c - {r.grid.key}
    ensures r.grid.key in r.cache
    ensures var k := r.grid.key;
            && (k in c ==> r.cache[k] == c[k].(metadataUsers := c[k].metadataUsers + 1))
            && (k !in c ==> r.cache[k] == Template(meta.gridType).(metadataUsers := 1))
    ensures Inv(c) ==> Inv(r.cache) && Valid(r.cache, r.grid)
  {
    var k := Key(filepath, meta.name);
    GridStep(AddMetadataUser(c, k, meta.gridType), Shared(k, false))
  }

  /** The copy constructor: the copy is one more user of the same class. */
  function Copy(c: Cache, g: VolumeGrid): (r: Cache)
    requires Valid(c, g)
    ensures Valid(r, g)
    ensures g.Private? ==> r == c
    ensures g.Shared? ==>
              var k := g.key;
              && r - {k} == c - {k}
              && k in r
              && r[k].metadataUsers == c[k].metadataUsers + (if g.isLoaded then 0 else 1)
              && r[k].treeUsers == c[k].treeUsers + (if g.isLoaded then 1 else 0)
              && r[k].(metadataUsers := c[k].metadataUsers, treeUsers := c[k].treeUsers) == c[k]
    ensures Inv(c) ==> Inv(r)
  {
    if g.Private? then c else CopyUser(c, g.key, g.isLoaded)
  }

  /**
   * The destructor: the handle's user is removed. The entry is evicted when
   * that was its last user; otherwise it keeps its type and error, and its
   * tree while tree users remain.
   */
  function Destroy(c: Cache, g: VolumeGrid): (r: Cache)
    requires Valid(c, g)
    ensures g.Private? ==> r == c
    ensures g.Shared? ==>
              var k := g.key;
              && r - {k} == c - {k}
              && (k in r <==> Users(c[k]) > 1)
              && (k in r ==> Moved(c[k], r[k], if g.isLoaded then 0 else -1, if g.isLoaded then -1 else 0))
    ensures Inv(c) ==> Inv(r)
  {
    if g.Private? then c else RemoveUser(c, g.key, g.isLoaded)
  }

  /** Destroying a handle leaves every other entry as it was. */
  lemma DestroyElsewhere(c: Cache, g: VolumeGrid, k: Key)
    requires Valid(c, g)
    requires !(g.Shared? && g.key == k)
    ensures k in Destroy(c, g) <==> k in c
    ensures k in c ==> Destroy(c, g)[k] == c[k]
  {
    if g.Shared? {
      var r := Destroy(c, g);
      assert k in r <==> k in r - {g.key};
      assert k in c <==> k in c - {g.key};
      assert k in c ==> r[k] == (r - {g.key})[k];
    }
  }

  /**
   * `VolumeGrid::load`: make a file-backed handle a tree user. The tree is
   * read only if no other user has loaded the entry; `read` is what that
   * read produces. A failed read is recorded on the entry and still marks it
   * loaded, so it is not retried while tree users remain.
   */
  function Load(c: Cache, g: VolumeGrid, read: ReadResult): (r: GridStep)
    requires Valid(c, g)
    ensures GridIsLoaded(r.grid) && Valid(r.cache, r.grid)
    ensures GridIsLoaded(g) ==> r == GridStep(c, g)
    ensures !GridIsLoaded(g) ==>
              var k := g.key;
              && r.grid == g.(isLoaded := true)
              && r.cache - {k} == c - {k}
              && r.cache[k].isLoaded
              && r.cache[k].metadataUsers == c[k].metadataUsers - 1
              && r.cache[k].treeUsers == c[k].treeUsers + 1
              && r.cache[k].gridType == c[k].gridType
              && (c[k].isLoaded ==> r.cache[k].hasTree == c[k].hasTree && r.cache[k].errorMsg == c[k].errorMsg)
              && (!c[k].isLoaded && read.ReadOk? ==> r.cache[k].hasTree && r.cache[k].errorMsg == c[k].errorMsg)
              && (!c[k].isLoaded && read.ReadFailed? ==>
                    r.cache[k].hasTree == c[k].hasTree && r.cache[k].errorMsg == read.message)
    ensures Inv(c) ==> Inv(r.cache)
  {
    if GridIsLoaded(g) then GridStep(c, g)
    else
      var k := g.key;
      var c1 := ChangeToTreeUser(c, k);
      if c1[k].isLoaded then GridStep(c1, g.(isLoaded := true))
      else
        var e := c1[k];
        var e' := match read
          case ReadOk => e.(hasTree := true, isLoaded := true)
          case ReadFailed(msg) => e.(errorMsg := msg, isLoaded := true);
        GridStep(c1[k := e'], g.(isLoaded := true))
  }

  /**
   * `VolumeGrid::unload`: a loaded file-backed handle goes back to being a
   * metadata user. The entry drops its tree only when no tree user is left.
   */
  function Unload(c: Cache, g: VolumeGrid): (r: GridStep)
    requires Valid(c, g)
    ensures Valid(r.cache, r.grid)
    ensures !GridIsLoaded(g) || g.Private? ==> r == GridStep(c, g)
    ensures GridIsLoaded(g) && g.Shared? ==>
              var k := g.key;
              && r.grid == g.(isLoaded := false)
              && r.cache - {k} == c - {k}
              && Moved(c[k], r.cache[k], 1, -1)
    ensures Inv(c) ==> Inv(r.cache)
  {
    if !GridIsLoaded(g) || g.Private? then GridStep(c, g)
    else GridStep(ChangeToMetadataUser(c, g.key), g.(isLoaded := false))
  }

  /**
   * `VolumeGrid::error_message`: the entry's read error, reported only to a
   * handle that has loaded it.
   */
  function ErrorMessage(c: Cache, g: VolumeGrid): (r: Option<string>)
    requires g.Shared? ==> g.key in c
    ensures r.Some? <==> g.Shared? && g.isLoaded && c[g.key].errorMsg != ""
    ensures r.Some? ==> r.value == c[g.key].errorMsg
  {
    if g.Shared? && g.isLoaded && c[g.key].errorMsg != "" then Some(c[g.key].errorMsg) else None
  }

  /** Loading twice is loading once: the second call changes nothing and reads nothing. */
  lemma LoadIsIdempotent(c: Cache, g: VolumeGrid, first: ReadResult, second: ReadResult)
    requires Valid(c, g)
    ensures var r := Load(c, g, first);
            Load(r.cache, r.grid, second) == r
  {
  }

  /**
   * Once any user has loaded an entry, loading another handle on it does not
   * depend on what a read would produce: the file is not read again.
   */
  lemma LoadReadsAtMostOnce(c: Cache, g: VolumeGrid, a: ReadResult, b: ReadResult)
    requires Valid(c, g)
    requires g.Shared? && c[g.key].isLoaded
    ensures Load(c, g, a) == Load(c, g, b)
  {
  }

  /** A failed first read is reported, with its text, through the handle that loaded it. */
  lemma LoadReportsReadError(c: Cache, g: VolumeGrid, msg: string)
    requires Valid(c, g)
    requires g.Shared? && !g.isLoaded && !c[g.key].isLoaded
    requires msg != ""
    ensures var r := Load(c, g, ReadFailed(msg));
            ErrorMessage(r.cache, r.grid) == Some(msg)
  {
  }

  /**
   * Loading a handle and unloading it again restores every counter. If
   * another tree user keeps the entry loaded, the cache is exactly as before;
   * otherwise the entry drops its tree again but keeps the text of a failed
   * read, which is not cleared while the entry exists.
   */
  lemma LoadThenUnload(c: Cache, g: VolumeGrid, read: ReadResult)
    requires Inv(c) && Valid(c, g)
    requires g.Shared? && !g.isLoaded
    ensures var loaded := Load(c, g, read);
            var unloaded := Unload(loaded.cache, loaded.grid);
            var c2 := unloaded.cache;
            var k := g.key;
            && unloaded.grid == g
            && c2 - {k} == c - {k}
            && k in c2
            && c2[k].metadataUsers == c[k].metadataUsers
            && c2[k].treeUsers == c[k].treeUsers
            && (c[k].treeUsers > 0 && c[k].isLoaded ==> c2 == c)
            && (c[k].treeUsers == 0 ==> !c2[k].isLoaded && !c2[k].hasTree)
            && (c[k].treeUsers == 0 && read.ReadFailed? ==> c2[k].errorMsg == read.message)
  {
    var k := g.key;
    var loaded := Load(c, g, read);
    var c2 := Unload(loaded.cache, loaded.grid).cache;
    if c[k].treeUsers > 0 && c[k].isLoaded {
      assert c2[k] == c[k];
      assert c2.Keys == c.Keys;
    }
  }

  /**
   * Every entry with tree users has been loaded. A handle reads its entry's
   * tree only once it is loaded, so this is what makes that read safe: the
   * tree is never dropped while someone is a tree user.
   */
  predicate TreeUsersLoaded(c: Cache)
  {
    forall k :: k in c && c[k].treeUsers > 0 ==> c[k].isLoaded
  }

  /** The template constructor keeps every tree user's entry loaded. */
  lemma FromFileKeepsTreeUsersLoaded(c: Cache, filepath: string, meta: GridMeta)
    requires TreeUsersLoaded(c)
    ensures TreeUsersLoaded(FromFile(c, filepath, meta).cache)
  {
    var r := FromFile(c, filepath, meta);
    forall j | j in r.cache && r.cache[j].treeUsers > 0
      ensures r.cache[j].isLoaded
    {
      if j != r.grid.key {
        ElsewhereUnchanged(r.cache, c, r.grid.key, j);
      }
    }
  }

  /** The copy constructor keeps every tree user's entry loaded. */
  lemma CopyKeepsTreeUsersLoaded(c: Cache, g: VolumeGrid)
    requires Valid(c, g) && TreeUsersLoaded(c)
    ensures TreeUsersLoaded(Copy(c, g))
  {
    if g.Shared? {
      var r := Copy(c, g);
      forall j | j in r && r[j].treeUsers > 0
        ensures r[j].isLoaded
      {
        if j != g.key {
          ElsewhereUnchanged(r, c, g.key, j);
        }
      }
    }
  }

  /** The destructor keeps every tree user's entry loaded. */
  lemma DestroyKeepsTreeUsersLoaded(c: Cache, g: VolumeGrid)
    requires Valid(c, g) && TreeUsersLoaded(c)
    ensures TreeUsersLoaded(Destroy(c, g))
  {
    if g.Shared? {
      var r := Destroy(c, g);
      forall j | j in r && r[j].treeUsers > 0
        ensures r[j].isLoaded
      {
        if j != g.key {
          DestroyElsewhere(c, g, j);
        }
      }
    }
  }

  /** Loading a handle keeps every tree user's entry loaded, its own included. */
  lemma LoadKeepsTreeUsersLoaded(c: Cache, g: VolumeGrid, read: ReadResult)
    requires Valid(c, g) && TreeUsersLoaded(c)
    ensures TreeUsersLoaded(Load(c, g, read).cache)
  {
    if !GridIsLoaded(g) {
      var r := Load(c, g, read);
      forall j | j in r.cache && r.cache[j].treeUsers > 0
        ensures r.cache[j].isLoaded
      {
        if j != g.key {
          ElsewhereUnchanged(r.cache, c, g.key, j);
        }
      }
    }
  }

  /** Unloading a handle keeps every tree user's entry loaded. */
  lemma UnloadKeepsTreeUsersLoaded(c: Cache, g: VolumeGrid)
    requires Valid(c, g) && TreeUsersLoaded(c)
    ensures TreeUsersLoaded(Unload(c, g).cache)
  {
    if GridIsLoaded(g) && g.Shared? {
      var r := Unload(c, g);
      forall j | j in r.cache && r.cache[j].treeUsers > 0
        ensures r.cache[j].isLoaded
      {
        if j != g.key {
          ElsewhereUnchanged(r.cache, c, g.key, j);
        }
      }
    }
  }

}
