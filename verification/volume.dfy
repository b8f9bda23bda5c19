/**
 * The volume datablock's file loading (`BKE_volume_load`, `BKE_volume_unload`,
 * `BKE_volume_eval_geometry`) and its grid accessors. The file system and
 * OpenVDB are inputs: a `FileView` says what the resolved path of the current
 * frame is, whether that file exists, its bare file name, and what
 * enumerating its grid metadata returned.
 */
module Volumes {
  import opened Optional
  import opened CInt
  import opened SequenceFrame
  import opened GridTypes
  import opened FileCache
  import opened Grids
  import opened Census
  import opened GridVectors

  /** The parts of a volume datablock the loading code reads and writes. */
  datatype Volume = Volume(
    filepath: string,      // the path as set by the user; empty means no file
    sequence: Sequence,
    frame: int,            // `runtime.frame`
    activeGrid: int,
    grids: GridVector)     // `runtime.grids`

  /** What opening the file and reading all grid metadata produced. */
  datatype Listing =
    | Listing(metas: seq<Option<GridMeta>>)   // the enumeration, possibly with null grids
    | ListingFailed(message: string)          // an I/O error was thrown

  datatype FileView = FileView(resolvedPath: string, found: bool, fileName: string, listing: Listing)

  datatype LoadOutcome = LoadOutcome(volume: Volume, cache: Cache, ok: bool)

  /** The volume and the cache after an operation that cannot fail. */
  datatype VolumeStep = VolumeStep(volume: Volume, cache: Cache)

  /** `BKE_volume_is_loaded`: there is no file to load, or its grids have been loaded. */
  function IsLoaded(v: Volume): bool
  {
    v.filepath == "" || VectorIsLoaded(v.grids)
  }

  /**
   * `BKE_volume_load`. A frame outside the sequence loads nothing and
   * succeeds; a volume already loaded reports its recorded error without
   * reading anything. Otherwise the resolved path is recorded first, so that
   * later calls short-circuit even when the file is missing or unreadable.
   */
  function Load(v: Volume, c: Cache, fs: FileView): (r: LoadOutcome)
    ensures v.frame == FRAME_NONE ==> r == LoadOutcome(v, c, true)
    ensures v.frame != FRAME_NONE && IsLoaded(v) ==> r == LoadOutcome(v, c, v.grids.errorMsg == "")
    ensures v.frame != FRAME_NONE && !IsLoaded(v) ==>
              && r.volume == v.(grids := r.volume.grids)
              && r.volume.grids.filepath == fs.resolvedPath
              && r.ok == (r.volume.grids.errorMsg == "")
              && (!fs.found ==>
                    && r.cache == c
                    && r.volume.grids.grids == v.grids.grids
                    && r.volume.grids.errorMsg == fs.fileName + " not found"
                    && !r.ok)
              && (fs.found && fs.listing.ListingFailed? ==>
                    && r.cache == c
                    && r.volume.grids.grids == v.grids.grids
                    && r.volume.grids.errorMsg == fs.listing.message)
              && (fs.found && fs.listing.Listing? ==>
                    && r.cache == AddGrids(c, fs.resolvedPath, fs.listing.metas).cache
                    && r.volume.grids.errorMsg == v.grids.errorMsg
                    && r.volume.grids.grids
                       == v.grids.grids + HandlesFor(fs.resolvedPath, Present(fs.listing.metas)))
    ensures Inv(c) ==> Inv(r.cache)
  {
    if v.frame == FRAME_NONE then LoadOutcome(v, c, true)
    else if IsLoaded(v) then LoadOutcome(v, c, v.grids.errorMsg == "")
    else
      var g := v.grids.(filepath := fs.resolvedPath);
      if !fs.found then
        LoadOutcome(v.(grids := g.(errorMsg := fs.fileName + " not found")), c, false)
      else
        match fs.listing
        case ListingFailed(msg) =>
          LoadOutcome(v.(grids := g.(errorMsg := msg)), c, msg == "")
        case Listing(metas) =>
          var added := AddGrids(c, fs.resolvedPath, metas);
          LoadOutcome(v.(grids := g.(grids := g.grids + added.handles)), added.cache, g.errorMsg == "")
  }

  /**
   * `BKE_volume_unload`: a loaded grid vector drops all its handles, its
   * error and its file path; one that is not loaded is left alone.
   */
  function Unload(v: Volume, c: Cache): (r: VolumeStep)
    requires VectorIsLoaded(v.grids) ==> Backs(c, v.grids.grids)
    ensures !VectorIsLoaded(v.grids) ==> r == VolumeStep(v, c)
    ensures VectorIsLoaded(v.grids) ==>
              && r.volume == v.(grids := GridVector("", "", []))
              && r.cache == ReleaseAll(c, v.grids.grids)
              && r.cache.Keys <= c.Keys
    ensures Inv(c) ==> Inv(r.cache)
  {
    if VectorIsLoaded(v.grids) then VolumeStep(v.(grids := Empty()), ReleaseAll(c, v.grids.grids))
    else VolumeStep(v, c)
  }

  /**
   * `BKE_volume_eval_geometry`, without the flush to the original datablock:
   * a change of sequence frame unloads the grids of the old frame.
   */
  function EvalGeometry(v: Volume, c: Cache, sceneFrame: int): (r: VolumeStep)
    requires PeriodDefined(v.sequence)
    requires VectorIsLoaded(v.grids) ==> Backs(c, v.grids.grids)
    ensures r.volume.frame == SequenceFrame.SequenceFrame(v.sequence, sceneFrame)
    ensures r.volume.frame == v.frame ==> r == VolumeStep(v, c)
    ensures r.volume.frame != v.frame ==>
              && r.volume == v.(frame := r.volume.frame, grids := r.volume.grids)
              && !VectorIsLoaded(r.volume.grids)
              && (VectorIsLoaded(v.grids) ==> r.volume.grids == Empty() && r.cache == ReleaseAll(c, v.grids.grids))
              && (!VectorIsLoaded(v.grids) ==> r.volume.grids == v.grids && r.cache == c)
    ensures Inv(c) ==> Inv(r.cache)
  {
    var frame := SequenceFrame.SequenceFrame(v.sequence, sceneFrame);
    if frame != v.frame then
      var unloaded := Unload(v, c);
      VolumeStep(unloaded.volume.(frame := frame), unloaded.cache)
    else VolumeStep(v, c)
  }

  /**
   * `BKE_volume_grid_load`: load grid `i` in place; if the handle then
   * reports a read error, it becomes the volume's error and the call fails.
   */
  function GridLoad(v: Volume, c: Cache, i: int, read: ReadResult): (r: LoadOutcome)
    requires 0 <= i < |v.grids.grids|
    requires Valid(c, v.grids.grids[i])
    ensures r.volume == v.(grids := r.volume.grids)
    ensures r.volume.grids.filepath == v.grids.filepath
    ensures |r.volume.grids.grids| == |v.grids.grids|
    ensures forall j :: 0 <= j < |v.grids.grids| && j != i ==> r.volume.grids.grids[j] == v.grids.grids[j]
    ensures var loaded := Grids.Load(c, v.grids.grids[i], read);
            r.cache == loaded.cache && r.volume.grids.grids[i] == loaded.grid
    ensures GridIsLoaded(r.volume.grids.grids[i]) && Valid(r.cache, r.volume.grids.grids[i])
    ensures r.ok <==> ErrorMessage(r.cache, r.volume.grids.grids[i]).None?
    ensures r.ok ==> r.volume.grids.errorMsg == v.grids.errorMsg
    ensures !r.ok ==> r.volume.grids.errorMsg != ""
                      && r.volume.grids.errorMsg == r.cache[r.volume.grids.grids[i].key].errorMsg
    ensures Inv(c) ==> Inv(r.cache)
  {
    var loaded := Grids.Load(c, v.grids.grids[i], read);
    var gv := v.grids.(grids := v.grids.grids[i := loaded.grid]);
    match ErrorMessage(loaded.cache, loaded.grid)
    case Some(msg) => LoadOutcome(v.(grids := gv.(errorMsg := msg)), loaded.cache, false)
    case None => LoadOutcome(v.(grids := gv), loaded.cache, true)
  }

  /** `BKE_volume_grid_unload`: unload grid `i` in place. */
  function GridUnload(v: Volume, c: Cache, i: int): (r: VolumeStep)
    requires 0 <= i < |v.grids.grids|
    requires Valid(c, v.grids.grids[i])
    ensures r.volume == v.(grids := v.grids.(grids := r.volume.grids.grids))
    ensures |r.volume.grids.grids| == |v.grids.grids|
    ensures forall j :: 0 <= j < |v.grids.grids| && j != i ==> r.volume.grids.grids[j] == v.grids.grids[j]
    ensures var unloaded := Grids.Unload(c, v.grids.grids[i]);
            r.cache == unloaded.cache && r.volume.grids.grids[i] == unloaded.grid
    ensures r.volume.grids.grids[i].Shared? ==> !r.volume.grids.grids[i].isLoaded
    ensures Name(r.volume.grids.grids[i]) == Name(v.grids.grids[i])
    ensures Valid(r.cache, r.volume.grids.grids[i])
    ensures Inv(c) ==> Inv(r.cache)
  {
    var unloaded := Grids.Unload(c, v.grids.grids[i]);
    VolumeStep(v.(grids := v.grids.(grids := v.grids.grids[i := unloaded.grid])), unloaded.cache)
  }

  /**
   * `BKE_volume_grid_active_get`: no grid when there are none, otherwise the
   * active index clamped into range.
   */
  function ActiveGrid(v: Volume): (r: Option<nat>)
    ensures r.None? <==> |v.grids.grids| == 0
    ensures r.Some? ==> r.value < |v.grids.grids|
    ensures r.Some? && 0 <= v.activeGrid < |v.grids.grids| ==> r.value == v.activeGrid
    ensures r.Some? && v.activeGrid < 0 ==> r.value == 0
    ensures r.Some? && v.activeGrid >= |v.grids.grids| ==> r.value == |v.grids.grids| - 1
  {
    var n := |v.grids.grids|;
    if n == 0 then None
    else
      var index := ClampI(v.activeGrid, 0, n - 1);
      Some(index)
  }

  /** `BKE_volume_grid_find`: the first grid with the given name, if any. */
  method FindGrid(v: Volume, name: string) returns (r: Option<nat>)
    ensures r.Some? ==> r.value < |v.grids.grids| && Name(v.grids.grids[r.value]) == name
    ensures r.Some? ==> forall j :: 0 <= j < r.value ==> Name(v.grids.grids[j]) != name
    ensures r.None? <==> forall j :: 0 <= j < |v.grids.grids| ==> Name(v.grids.grids[j]) != name
  {
    var i := 0;
    while i < |v.grids.grids|
      invariant 0 <= i <= |v.grids.grids|
      invariant forall j :: 0 <= j < i ==> Name(v.grids.grids[j]) != name
    {
      if Name(v.grids.grids[i]) == name {
        return Some(i);
      }
      i := i + 1;
    }
    return None;
  }

  /**
   * The grid part of `BKE_volume_copy_data`, using the corrected grid-vector
   * copy: the copy has the same grids, each one more user of its entry.
   */
  function CopyData(v: Volume, c: Cache): (r: VolumeStep)
    requires forall i :: 0 <= i < |v.grids.grids| ==> Valid(c, v.grids.grids[i])
    ensures r.volume == v
    ensures r.cache == CopyUsers(c, v.grids.grids)
    ensures r.cache.Keys == c.Keys
    ensures Inv(c) ==> Inv(r.cache)
  {
    var copied := GridVectors.Copy(c, v.grids);
    VolumeStep(v.(grids := copied.vector), copied.cache)
  }

  /**
   * Load is idempotent once a path is recorded: whatever the file system
   * says the second time, a second call returns the first call's verdict and
   * changes nothing.
   */
  lemma LoadShortCircuits(v: Volume, c: Cache, fs: FileView, later: FileView)
    requires fs.resolvedPath != ""
    ensures var r := Load(v, c, fs);
            Load(r.volume, r.cache, later) == LoadOutcome(r.volume, r.cache, r.ok)
  {
  }

  /** A missing file fails the load and names the file, and the failure sticks until unload. */
  lemma MissingFileFailsUntilUnload(v: Volume, c: Cache, fs: FileView, later: FileView)
    requires v.frame != FRAME_NONE && !IsLoaded(v)
    requires !fs.found && fs.resolvedPath != ""
    ensures var r := Load(v, c, fs);
            && !r.ok
            && r.cache == c
            && r.volume.grids.errorMsg == fs.fileName + " not found"
            && Load(r.volume, r.cache, later) == LoadOutcome(r.volume, c, false)
  {
  }

  /**
   * After a load inside the sequence the volume counts as loaded, whatever
   * the file system said, as soon as the frame resolves to a path.
   */
  lemma LoadLeavesVolumeLoaded(v: Volume, c: Cache, fs: FileView)
    requires v.frame != FRAME_NONE
    requires IsLoaded(v) || fs.resolvedPath != ""
    ensures IsLoaded(Load(v, c, fs).volume)
  {
  }

  /** Loading keeps the census: the new handles join the live handles. */
  lemma AccountsLoad(v: Volume, c: Cache, fs: FileView, rest: seq<VolumeGrid>)
    requires Inv(c) && Accounts(c, rest + v.grids.grids)
    ensures var r := Load(v, c, fs);
            Inv(r.cache) && Accounts(r.cache, rest + r.volume.grids.grids)
  {
    if v.frame != FRAME_NONE && !IsLoaded(v) && fs.found && fs.listing.Listing? {
      AccountsAddGrids(c, rest + v.grids.grids, fs.resolvedPath, fs.listing.metas);
      var added := AddGrids(c, fs.resolvedPath, fs.listing.metas);
      AccountsRegroup(added.cache, rest, v.grids.grids, added.handles);
    }
  }

  /** Unloading keeps the census of the handles other volumes hold. */
  lemma AccountsUnload(v: Volume, c: Cache, rest: seq<VolumeGrid>)
    requires Inv(c) && Accounts(c, rest + v.grids.grids)
    ensures Backs(c, v.grids.grids)
    ensures var r := Unload(v, c);
            Inv(r.cache) && Accounts(r.cache, rest + r.volume.grids.grids)
  {
    AccountsReleaseAll(c, rest, v.grids.grids);
    assert rest + [] == rest;
  }

  /** Evaluating a scene frame keeps the census, whether or not the old grids are unloaded. */
  lemma AccountsEvalGeometry(v: Volume, c: Cache, sceneFrame: int, rest: seq<VolumeGrid>)
    requires PeriodDefined(v.sequence)
    requires Inv(c) && Accounts(c, rest + v.grids.grids)
    ensures Backs(c, v.grids.grids)
    ensures var r := EvalGeometry(v, c, sceneFrame);
            Inv(r.cache) && Accounts(r.cache, rest + r.volume.grids.grids)
  {
    AccountsUnload(v, c, rest);
  }

  /** Copying a datablock keeps the census: the copy's handles join the live ones. */
  lemma AccountsCopyData(v: Volume, c: Cache, rest: seq<VolumeGrid>)
    requires Inv(c) && Accounts(c, rest + v.grids.grids)
    ensures forall i :: 0 <= i < |v.grids.grids| ==> Valid(c, v.grids.grids[i])
    ensures var r := CopyData(v, c);
            Inv(r.cache) && Accounts(r.cache, rest + v.grids.grids + r.volume.grids.grids)
  {
    AccountedVectorIsValid(c, rest, v.grids.grids);
    AccountsCopyVector(c, rest, v.grids);
  }

  /** Loading one grid keeps the census. */
  lemma AccountsGridLoad(v: Volume, c: Cache, i: int, read: ReadResult, rest: seq<VolumeGrid>)
    requires Inv(c) && Accounts(c, rest + v.grids.grids)
    requires 0 <= i < |v.grids.grids|
    ensures Valid(c, v.grids.grids[i])
    ensures var r := GridLoad(v, c, i, read);
            Inv(r.cache) && Accounts(r.cache, rest + r.volume.grids.grids)
  {
    var all := rest + v.grids.grids;
    assert all[|rest| + i] == v.grids.grids[i];
    AccountsHandleLoad(c, all, |rest| + i, read);
    var r := GridLoad(v, c, i, read);
    assert all[|rest| + i := r.volume.grids.grids[i]] == rest + r.volume.grids.grids;
  }

  /** Unloading one grid keeps the census. */
  lemma AccountsGridUnload(v: Volume, c: Cache, i: int, rest: seq<VolumeGrid>)
    requires Inv(c) && Accounts(c, rest + v.grids.grids)
    requires 0 <= i < |v.grids.grids|
    ensures Valid(c, v.grids.grids[i])
    ensures var r := GridUnload(v, c, i);
            Inv(r.cache) && Accounts(r.cache, rest + r.volume.grids.grids)
  {
    var all := rest + v.grids.grids;
    assert all[|rest| + i] == v.grids.grids[i];
    AccountsHandleUnload(c, all, |rest| + i);
    var r := GridUnload(v, c, i);
    assert all[|rest| + i := r.volume.grids.grids[i]] == rest + r.volume.grids.grids;
  }

  /**
   * A failed tree read is reported by the grid load and then by every later
   * file load of the volume, which no longer touches the file.
   */
  lemma FailedReadReachesVolume(v: Volume, c: Cache, i: int, msg: string, later: FileView)
    requires 0 <= i < |v.grids.grids|
    requires Valid(c, v.grids.grids[i])
    requires v.grids.grids[i].Shared? && !v.grids.grids[i].isLoaded
    requires !c[v.grids.grids[i].key].isLoaded
    requires msg != ""
    requires v.frame != FRAME_NONE && VectorIsLoaded(v.grids)
    ensures var r := GridLoad(v, c, i, ReadFailed(msg));
            && !r.ok
            && r.volume.grids.errorMsg == msg
            && Load(r.volume, r.cache, later) == LoadOutcome(r.volume, r.cache, false)
  {
  }

  /** Evaluating the same scene frame again changes nothing. */
  lemma EvalGeometryIsIdempotent(v: Volume, c: Cache, sceneFrame: int)
    requires PeriodDefined(v.sequence)
    requires VectorIsLoaded(v.grids) ==> Backs(c, v.grids.grids)
    ensures var r := EvalGeometry(v, c, sceneFrame);
            (VectorIsLoaded(r.volume.grids) ==> Backs(r.cache, r.volume.grids.grids))
            && EvalGeometry(r.volume, r.cache, sceneFrame) == r
  {
  }

  /** A scene frame outside a clipped sequence makes the next load a successful no-op. */
  lemma OutOfRangeFrameLoadsNothing(v: Volume, c: Cache, sceneFrame: int, fs: FileView)
    requires PeriodDefined(v.sequence)
    requires VectorIsLoaded(v.grids) ==> Backs(c, v.grids.grids)
    requires SequenceFrame.SequenceFrame(v.sequence, sceneFrame) == FRAME_NONE
    ensures var r := EvalGeometry(v, c, sceneFrame);
            Load(r.volume, r.cache, fs) == LoadOutcome(r.volume, r.cache, true)
  {
  }

  /**
   * Two grids of one file with the same name become two handles on one
   * shared entry, and destroying one of them keeps the entry for the other.
   */
  lemma DuplicateNamesShareOneEntry(c: Cache, filepath: string, a: GridMeta, b: GridMeta)
    requires Inv(c)
    requires a.name == b.name
    ensures var r := AddGrids(c, filepath, [Some(a), Some(b)]);
            var k := Key(filepath, a.name);
            && r.handles == [Shared(k, false), Shared(k, false)]
            && k in r.cache
            && r.cache[k].metadataUsers == (if k in c then c[k].metadataUsers else 0) + 2
            && k in Destroy(r.cache, r.handles[0])
  {
    var k := Key(filepath, a.name);
    var r := AddGrids(c, filepath, [Some(a), Some(b)]);
    assert [Some(a), Some(b)][1..] == [Some(b)];
    assert [Some(b)][1..] == [];
    var c1 := FromFile(c, filepath, a).cache;
    var c2 := FromFile(c1, filepath, b).cache;
    assert AddGrids(c2, filepath, []) == Added(c2, []);
    assert AddGrids(c1, filepath, [Some(b)]).cache == c2;
    assert r.cache == c2;
  }

  /**
   * The copy constructor as written loses the grids: copying a loaded vector
   * with one grid yields a vector that counts as loaded but has none, so a
   * volume holding it reports a successful load without ever reading them.
   */
  lemma CopyAsWrittenLosesGrids(c: Cache, fs: FileView)
    ensures var original := GridVector("/tmp/smoke.vdb", "",
                                       [Shared(Key("/tmp/smoke.vdb", "density"), false)]);
            var copy := CopyAsWritten(original);
            var v := Volume("//smoke.vdb", Sequence(false, Clip, 1, 0, 0), 0, 0, copy);
            && VectorIsLoaded(copy)
            && |copy.grids| == 0 < |original.grids|
            && Load(v, c, fs) == LoadOutcome(v, c, true)
  {
  }

  /** Loading a volume keeps every tree user's entry loaded. */
  lemma VolumeLoadKeepsTreeUsersLoaded(v: Volume, c: Cache, fs: FileView)
    requires TreeUsersLoaded(c)
    ensures TreeUsersLoaded(Load(v, c, fs).cache)
  {
    if v.frame != FRAME_NONE && !IsLoaded(v) && fs.found && fs.listing.Listing? {
      AddGridsKeepsTreeUsersLoaded(c, fs.resolvedPath, fs.listing.metas);
    }
  }

  /** Unloading a volume keeps every tree user's entry loaded. */
  lemma VolumeUnloadKeepsTreeUsersLoaded(v: Volume, c: Cache)
    requires VectorIsLoaded(v.grids) ==> Backs(c, v.grids.grids)
    requires TreeUsersLoaded(c)
    ensures TreeUsersLoaded(Unload(v, c).cache)
  {
    if VectorIsLoaded(v.grids) {
      ReleaseAllKeepsTreeUsersLoaded(c, v.grids.grids);
    }
  }

  /** Evaluating a scene frame keeps every tree user's entry loaded. */
  lemma EvalGeometryKeepsTreeUsersLoaded(v: Volume, c: Cache, sceneFrame: int)
    requires PeriodDefined(v.sequence)
    requires VectorIsLoaded(v.grids) ==> Backs(c, v.grids.grids)
    requires TreeUsersLoaded(c)
    ensures TreeUsersLoaded(EvalGeometry(v, c, sceneFrame).cache)
  {
    VolumeUnloadKeepsTreeUsersLoaded(v, c);
  }

  /** Loading one grid keeps every tree user's entry loaded. */
  lemma GridLoadKeepsTreeUsersLoaded(v: Volume, c: Cache, i: int, read: ReadResult)
    requires 0 <= i < |v.grids.grids|
    requires Valid(c, v.grids.grids[i])
    requires TreeUsersLoaded(c)
    ensures TreeUsersLoaded(GridLoad(v, c, i, read).cache)
  {
    LoadKeepsTreeUsersLoaded(c, v.grids.grids[i], read);
  }

  /** Unloading one grid keeps every tree user's entry loaded. */
  lemma GridUnloadKeepsTreeUsersLoaded(v: Volume, c: Cache, i: int)
    requires 0 <= i < |v.grids.grids|
    requires Valid(c, v.grids.grids[i])
    requires TreeUsersLoaded(c)
    ensures TreeUsersLoaded(GridUnload(v, c, i).cache)
  {
    UnloadKeepsTreeUsersLoaded(c, v.grids.grids[i]);
  }

  /** Copying a datablock keeps every tree user's entry loaded. */
  lemma CopyDataKeepsTreeUsersLoaded(v: Volume, c: Cache)
    requires forall i :: 0 <= i < |v.grids.grids| ==> Valid(c, v.grids.grids[i])
    requires TreeUsersLoaded(c)
    ensures TreeUsersLoaded(CopyData(v, c).cache)
  {
    CopyUsersKeepsTreeUsersLoaded(c, v.grids.grids);
  }
}
