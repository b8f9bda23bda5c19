# Volume datablock grids: a Dafny model

This project models the core of Blender's volume datablock runtime in
`source/blender/blenkernel/intern/volume.cc` as pure functions over immutable state, and proves properties of it.
It covers three parts.

- **Sequence frame mapping** (`volume_sequence_frame`). This turns the scene
  frame into the file frame of an image-sequence volume. It has four modes:
  Clip, Extend, Repeat and PingPong. C's truncating `%` is written out
  explicitly.
- **The global file cache and grid handles.**
  - `VolumeFileCache` is a map from (file path, grid name) to an entry. Each
    entry counts its metadata users and its tree users.
  - `VolumeGrid` is a handle. It is either a private grid or one user of a
    cache entry.
  - Each cache operation is one atomic transition from one map to the next.
  - The `Census` module states what the counters mean: each counter equals
    the number of live handles on the entry in that class.
  - `Grids.TreeUsersLoaded` is the safety invariant behind reading a tree:
    every entry with tree users is loaded. Every handle, grid-list and
    volume operation keeps it, and under the census a loaded handle always
    finds its entry loaded.
- **The grid list of a volume.**
  - `VolumeGridVector` and the `BKE_volume_*` operations that load, unload
    and re-evaluate it.
  - The small accessors for channels, the active grid and find-by-name.
  - The integer conversion from OpenVDB's inclusive voxel box to the half-open
    dense bounds.

The file system and OpenVDB are inputs to the model:

- `FileView` gives the resolved path of the current frame, whether that file
  exists, its bare file name, and the metadata enumeration (or its I/O error).
- `ReadResult` is the outcome of reading one grid's tree.

Modules, one per component:

| file | module | models |
|---|---|---|
| optional.dfy | Optional | `Option` |
| c_int.dfy | CInt | C `int` helpers: truncating division and remainder, `clamp_i`, `INT_MAX` |
| sequence_frame.dfy | SequenceFrame | `volume_sequence_frame` |
| grid_type.dfy | GridTypes | `VolumeGridType`, `BKE_volume_grid_channels` |
| file_cache.dfy | FileCache | `VolumeFileCache` and its entries |
| volume_grid.dfy | Grids | `VolumeGrid` handles |
| census.dfy | Census | the counters as a census of live handles |
| grid_vector.dfy | GridVectors | `VolumeGridVector` |
| volume.dfy | Volumes | `BKE_volume_load`, `_unload`, `_eval_geometry` and the grid accessors |
| dense_bounds.dfy | DenseBounds | `BKE_volume_grid_dense_bounds` and how its result is consumed |

Four behaviours of the code that are easy to misread:

- **A failed enumeration yields no grids at all.** When
  `readAllGridMetadata` throws, the assignment to `vdb_grids` never
  happens, so no partial list is added.
- **`BKE_volume_is_loaded` holds when there is no file.** It is also true
  for a volume whose file path is empty.
- **A cache entry's read error is never cleared while the entry exists.**
  This holds even after the entry drops its tree (`Grids.LoadThenUnload`).
  Only eviction of the entry forgets it (`FileCache.EvictionForgetsEntry`).
- **The second existence test in `BKE_volume_load` is dead.** The code
  tests existence twice (594-611). With one answer per call, the second test
  can never fail, so the model has a single test.

## Model

| member | source | states |
|---|---|---|
| CInt.CRem | source/blender/blenkernel/intern/volume.cc:506-509 | C's `%`: quotient times divisor plus remainder gives back the dividend, and the remainder is smaller than the divisor and has the dividend's sign, unlike Dafny's Euclidean `%` |
| CInt.ClampI | source/blender/blenkernel/intern/volume.cc:501-504 | `clamp_i`: the result lies in `[lo, hi]`, equals the value when it is in range, and equals the nearer bound otherwise |
| SequenceFrame.SequenceFrame | source/blender/blenkernel/intern/volume.cc:476-535 | a volume that is not a sequence gives frame 0, and a zero duration gives `VOLUME_FRAME_NONE`; Clip gives `raw + offset` exactly when `1 <= raw <= duration` and NONE otherwise; Extend, Repeat and PingPong (duration at least 2) give `result - offset` in `[1, duration]`, Extend as the clamp of the raw frame and Repeat/PingPong equal to their Euclidean reference definitions; PingPong with duration 1 is a precondition |
| SequenceFrame.WrapOnePeriod | source/blender/blenkernel/intern/volume.cc:506-514 | the C remainder plus the two corrections land in `[1, period]` and agree with the Euclidean reference for every sign of the raw frame |
| SequenceFrame.FoldPingPong | source/blender/blenkernel/intern/volume.cc:515-528 | the ping-pong fold lands in `[1, duration]` and agrees with its reference definition |
| SequenceFrame.RepeatIsPeriodic | source/blender/blenkernel/intern/volume.cc:506-514 | in Repeat mode, advancing the scene by one duration shows the same file frame |
| SequenceFrame.PingPongIsPeriodic | source/blender/blenkernel/intern/volume.cc:515-528 | in PingPong mode, advancing the scene by `2 * duration - 2` shows the same file frame |
| SequenceFrame.PingPongOneCycle | source/blender/blenkernel/intern/volume.cc:515-528 | within one cycle, raw frame `k` shows `k` on the way up and `2 * duration - k` on the way down |
| SequenceFrame.WorkedExamples | source/blender/blenkernel/intern/volume.cc:494-532 | concrete frames for a ten-frame sequence in each mode |
| GridTypes.Channels | source/blender/blenkernel/intern/volume.cc:1010-1038 | three channels exactly for the vector types; none exactly for string and unknown grids; one for mask and every other scalar type |
| FileCache.AddMetadataUser | source/blender/blenkernel/intern/volume.cc:159-174 | the entry for the key exists afterwards with one more metadata user, is a fresh template if it was missing, and no other entry changes |
| FileCache.CopyUser | source/blender/blenkernel/intern/volume.cc:176-185 | one more user of the given class on the entry; nothing else in the cache changes |
| FileCache.UpdateForRemoveUser | source/blender/blenkernel/intern/volume.cc:216-225 | the entry stays exactly when it still has users; an entry left without tree users loses its tree and its loaded flag |
| FileCache.RemoveUser | source/blender/blenkernel/intern/volume.cc:187-197 | one user of the given class fewer; the entry is evicted exactly when that was its last user; the invariant is kept |
| FileCache.ChangeToTreeUser | source/blender/blenkernel/intern/volume.cc:199-205 | a metadata user becomes a tree user; the total count is unchanged and the entry stays |
| FileCache.ChangeToMetadataUser | source/blender/blenkernel/intern/volume.cc:207-213 | a tree user becomes a metadata user; the total is unchanged; the last tree user leaving drops the tree |
| FileCache.AddThenRemoveRestores | source/blender/blenkernel/intern/volume.cc:159-197 | adding a metadata user and removing it leaves the cache exactly as it was |
| FileCache.CopyThenRemoveRestores | source/blender/blenkernel/intern/volume.cc:176-197 | copying a user and removing the copy leaves the cache exactly as it was |
| FileCache.PromoteThenDemoteRestores | source/blender/blenkernel/intern/volume.cc:199-225 | promoting a user to tree user and demoting it leaves the cache exactly as it was |
| FileCache.EvictionForgetsEntry | source/blender/blenkernel/intern/volume.cc:101-108 | after the last user goes, the next lookup starts from a fresh entry with no tree, no loaded flag and no error |
| Grids.FromFile | source/blender/blenkernel/intern/volume.cc:240-244 | the template constructor gives an unloaded handle named after the grid and registers one more metadata user on its key only; an existing entry keeps its type, tree, loaded flag and error, and a missing one is created as the template with one metadata user |
| Grids.Copy | source/blender/blenkernel/intern/volume.cc:250-256 | the copy constructor adds one user of the handle's class to its entry, leaving the entry's type, tree, loaded flag and error and every other entry as they were; a private grid leaves the cache alone |
| Grids.Destroy | source/blender/blenkernel/intern/volume.cc:258-263 | the destructor removes the handle's user and evicts the entry exactly when it was the last user; a surviving entry keeps its type and error, and its tree and loaded flag while tree users remain; no other entry changes |
| Grids.Load | source/blender/blenkernel/intern/volume.cc:265-305 | a loaded or private handle is a no-op; otherwise one metadata user becomes a tree user, and the file is read only if the entry was not loaded; a failed read records its message; afterwards both the handle and the entry are loaded |
| Grids.Unload | source/blender/blenkernel/intern/volume.cc:307-329 | a loaded file-backed handle goes back to being a metadata user and clears its flag; the entry drops its tree when no tree user is left; otherwise it is a no-op |
| Grids.ErrorMessage | source/blender/blenkernel/intern/volume.cc:340-348 | an error is reported exactly when the handle is loaded and file-backed and its entry's error is non-empty, and it is the entry's text |
| Grids.LoadIsIdempotent | source/blender/blenkernel/intern/volume.cc:265-279 | a second load changes nothing and reads nothing |
| Grids.LoadReadsAtMostOnce | source/blender/blenkernel/intern/volume.cc:280-285 | once an entry is loaded, loading another handle on it does not depend on what a read would return |
| Grids.LoadReportsReadError | source/blender/blenkernel/intern/volume.cc:292-304 | a failed first read is reported with its text through the handle that loaded it |
| Grids.LoadThenUnload | source/blender/blenkernel/intern/volume.cc:265-329 | load followed by unload restores every counter; the cache is identical if another tree user keeps the entry loaded; the read error survives the entry's unload |
| Grids.FromFileKeepsTreeUsersLoaded | source/blender/blenkernel/intern/volume.cc:240-244 | creating a handle keeps every entry with tree users loaded |
| Grids.CopyKeepsTreeUsersLoaded | source/blender/blenkernel/intern/volume.cc:250-256 | copying a handle keeps every entry with tree users loaded; a copied tree user joins an entry that is already loaded |
| Grids.DestroyKeepsTreeUsersLoaded | source/blender/blenkernel/intern/volume.cc:187-197 | destroying a handle keeps every entry with tree users loaded: the tree is dropped only when the last tree user goes |
| Grids.LoadKeepsTreeUsersLoaded | source/blender/blenkernel/intern/volume.cc:265-305 | loading a handle keeps every entry with tree users loaded, the handle's own entry included |
| Grids.UnloadKeepsTreeUsersLoaded | source/blender/blenkernel/intern/volume.cc:307-329 | unloading a handle keeps every entry with tree users loaded |
| Census.LoadedHandleSeesLoadedEntry | source/blender/blenkernel/intern/volume.cc:354-356 | under the census and that invariant, a handle marked loaded finds its entry present and loaded, so it may use the tree |
| Census.AccountedIsValid | source/blender/blenkernel/intern/volume.cc:159-225 | when the counters are the census of the live handles, every live handle is usable |
| Census.PresentIffUsed | source/blender/blenkernel/intern/volume.cc:187-225 | an entry is in the cache exactly when some live handle uses it |
| Census.AccountsFromFile | source/blender/blenkernel/intern/volume.cc:240-244 | a new handle joins the census |
| Census.AccountsCopy | source/blender/blenkernel/intern/volume.cc:250-256 | a copied handle joins the census |
| Census.AccountsDestroy | source/blender/blenkernel/intern/volume.cc:258-263 | a destroyed handle leaves the census and the invariant is kept |
| Census.AccountsHandleLoad | source/blender/blenkernel/intern/volume.cc:265-305 | loading a handle in place keeps the census |
| Census.AccountsHandleUnload | source/blender/blenkernel/intern/volume.cc:307-329 | unloading a handle in place keeps the census |
| GridVectors.Present | source/blender/blenkernel/intern/volume.cc:628-633 | the non-null grids of an enumeration: exactly the ones present, never more than enumerated |
| GridVectors.PresentAppend | source/blender/blenkernel/intern/volume.cc:628-633 | skipping null grids distributes over concatenation, so the present grids keep their order and their duplicates |
| GridVectors.PresentOfOne | source/blender/blenkernel/intern/volume.cc:628-633 | a present grid is kept and a null one is dropped |
| GridVectors.AddGrids | source/blender/blenkernel/intern/volume.cc:628-635 | the loop appends one unloaded handle per non-null grid, in order, keyed by the file path and the grid's name, and keeps the cache invariant; its effect on each entry is stated by `GridVectors.AddGridsOnKey` |
| GridVectors.AddGridsOnKey | source/blender/blenkernel/intern/volume.cc:628-635 | each entry of the file gains one metadata user per present grid of its name and keeps everything else; an entry that did not exist is created as the template of the first such grid, with that many metadata users; entries of other files are untouched |
| GridVectors.AccountsAddGrids | source/blender/blenkernel/intern/volume.cc:628-635 | the appended handles join the census |
| GridVectors.ReleaseAll | source/blender/blenkernel/intern/volume.cc:646-652 | clearing the vector destroys every handle; no entry appears and the invariant is kept |
| GridVectors.ReleaseAllOnKey | source/blender/blenkernel/intern/volume.cc:646-652 | clearing takes from each entry exactly the users of each class that the handles held on it and evicts it when none are left; a surviving entry keeps its type and error, and its tree and loaded flag while tree users remain; an entry no handle used is untouched |
| GridVectors.AccountsReleaseAll | source/blender/blenkernel/intern/volume.cc:646-652 | after clearing, the counters are the census of the remaining live handles |
| GridVectors.AddGridsKeepsTreeUsersLoaded | source/blender/blenkernel/intern/volume.cc:628-635 | appending a file's grids keeps every entry with tree users loaded |
| GridVectors.ReleaseAllKeepsTreeUsersLoaded | source/blender/blenkernel/intern/volume.cc:646-652 | releasing a list of handles keeps every entry with tree users loaded |
| GridVectors.CopyUsersKeepsTreeUsersLoaded | source/blender/blenkernel/intern/volume.cc:250-256 | copying a list of handles keeps every entry with tree users loaded |
| GridVectors.CopyAsWritten | source/blender/blenkernel/intern/volume.cc:371-374 | the copy constructor as written keeps the file path and error and drops every grid |
| GridVectors.Copy | source/blender/blenkernel/intern/volume.cc:371-374 | the copy constructor as intended: the copy equals the original, and the cache is the original's with each copied handle registered as one more user (per entry, `GridVectors.CopyUsersOnKey`) |
| GridVectors.CopyUsersOnKey | source/blender/blenkernel/intern/volume.cc:250-256 | copying a list of handles adds one user per handle to each entry, in its class, and changes nothing else |
| GridVectors.AccountsCopyVector | source/blender/blenkernel/intern/volume.cc:371-374 | the copied handles join the census |
| Volumes.Load | source/blender/blenkernel/intern/volume.cc:556-640 | a sentinel frame succeeds without change; a loaded volume returns whether its error is empty; otherwise the path is recorded and either "<file> not found" is set and false returned, the enumeration error is recorded with no grids added, or the present grids are appended and the cache is exactly the one adding them produces (per entry, `GridVectors.AddGridsOnKey`); the failure branches leave the cache unchanged; the result is whether the error is empty |
| Volumes.LoadShortCircuits | source/blender/blenkernel/intern/volume.cc:577-585 | once a path is recorded, a second load returns the first verdict and changes nothing, whatever the file system says |
| Volumes.MissingFileFailsUntilUnload | source/blender/blenkernel/intern/volume.cc:594-600 | a missing file fails with its name in the error, touches no cache entry, and keeps failing without looking again |
| Volumes.LoadLeavesVolumeLoaded | source/blender/blenkernel/intern/volume.cc:556-590 | within the sequence, a load leaves the volume loaded once the frame resolves to a path, even when the file is missing or unreadable |
| Volumes.AccountsLoad | source/blender/blenkernel/intern/volume.cc:628-635 | loading a volume keeps the census with its new handles live |
| Volumes.Unload | source/blender/blenkernel/intern/volume.cc:642-656 | a loaded grid list loses its grids, error and path, and the cache is the one releasing each of its handles produces (per entry, `GridVectors.ReleaseAllOnKey`); a list that is not loaded is left alone with the cache |
| Volumes.AccountsUnload | source/blender/blenkernel/intern/volume.cc:642-656 | after unloading, the counters are the census of the other volumes' handles |
| Volumes.EvalGeometry | source/blender/blenkernel/intern/volume.cc:784-798 | the new frame is the sequence frame; a changed frame unloads the grids of the old one, releasing each of their handles from the cache; an unchanged frame changes nothing |
| Volumes.AccountsEvalGeometry | source/blender/blenkernel/intern/volume.cc:784-798 | evaluating a scene frame keeps the census, with the released handles gone |
| Volumes.EvalGeometryIsIdempotent | source/blender/blenkernel/intern/volume.cc:784-798 | evaluating the same scene frame twice is evaluating it once |
| Volumes.OutOfRangeFrameLoadsNothing | source/blender/blenkernel/intern/volume.cc:572-575 | after evaluating a scene frame outside a clipped sequence, loading succeeds without reading |
| Volumes.GridLoad | source/blender/blenkernel/intern/volume.cc:918-934 | the grid is loaded in place, with the cache and handle exactly those of loading that handle, and the others are untouched; the call fails exactly when the handle reports an error, which then becomes the volume's error |
| Volumes.AccountsGridLoad | source/blender/blenkernel/intern/volume.cc:918-934 | loading one grid keeps the census |
| Volumes.FailedReadReachesVolume | source/blender/blenkernel/intern/volume.cc:918-934 | a failed tree read fails the grid load, sets the volume's error, and makes every later volume load fail without reading |
| Volumes.GridUnload | source/blender/blenkernel/intern/volume.cc:936-944 | the grid is unloaded in place, with the cache and handle exactly those of unloading that handle; it keeps its name, stays usable, and the others are untouched |
| Volumes.AccountsGridUnload | source/blender/blenkernel/intern/volume.cc:936-944 | unloading one grid keeps the census |
| Volumes.ActiveGrid | source/blender/blenkernel/intern/volume.cc:892-901 | no grid exactly when the list is empty; otherwise the active index clamped into range |
| Volumes.FindGrid | source/blender/blenkernel/intern/volume.cc:903-914 | the first grid with the name, if there is one; none exactly when no grid has that name |
| Volumes.CopyData | source/blender/blenkernel/intern/volume.cc:445-448 | the grid part of the copy, using the corrected grid-vector copy: the copied datablock has the same grids, and the cache registers each of them as one more user of its entry |
| Volumes.AccountsCopyData | source/blender/blenkernel/intern/volume.cc:445-448 | after copying a datablock, the counters are the census of the original's handles plus the copy's |
| Volumes.DuplicateNamesShareOneEntry | source/blender/blenkernel/intern/volume.cc:628-633 | two enumerated grids with one name become two handles on one entry with two more metadata users, and destroying one keeps the entry |
| Volumes.CopyAsWrittenLosesGrids | source/blender/blenkernel/intern/volume.cc:371-374 | the copy of a loaded one-grid list counts as loaded with no grids, so loading the copied volume succeeds without reading anything |
| Volumes.VolumeLoadKeepsTreeUsersLoaded | source/blender/blenkernel/intern/volume.cc:556-640 | loading a volume keeps every entry with tree users loaded |
| Volumes.VolumeUnloadKeepsTreeUsersLoaded | source/blender/blenkernel/intern/volume.cc:642-656 | unloading a volume keeps every entry with tree users loaded |
| Volumes.EvalGeometryKeepsTreeUsersLoaded | source/blender/blenkernel/intern/volume.cc:784-798 | evaluating a scene frame keeps every entry with tree users loaded |
| Volumes.GridLoadKeepsTreeUsersLoaded | source/blender/blenkernel/intern/volume.cc:918-934 | loading one grid keeps every entry with tree users loaded |
| Volumes.GridUnloadKeepsTreeUsersLoaded | source/blender/blenkernel/intern/volume.cc:936-944 | unloading one grid keeps every entry with tree users loaded |
| Volumes.CopyDataKeepsTreeUsersLoaded | source/blender/blenkernel/intern/volume.cc:445-448 | copying a datablock keeps every entry with tree users loaded |
| DenseBounds.ToInt32 | source/blender/blenkernel/intern/volume.cc:1164 | the conversion of a `size_t` corner to OpenVDB's signed 32-bit coordinate keeps the low 32 bits: the result is a 32-bit value congruent to the input modulo 2^32, and a 32-bit value is unchanged |
| DenseBounds.ToSizeT | source/blender/blenkernel/intern/volume.cc:1108-1113 | storing a signed value in `size_t` reduces it modulo 2^64; a negative value becomes itself plus 2^64 |
| DenseBounds.DenseBoundsAsWritten | source/blender/blenkernel/intern/volume.cc:1099-1127 | found exactly when the box is not empty; all zeros otherwise; the corners are the box minimum and the box maximum plus one, each stored in `size_t` |
| DenseBounds.AsWrittenVoxelsAreRight | source/blender/blenkernel/intern/volume.cc:1099-1164 | for 32-bit boxes the voxel copy gets back the grid's own inclusive box, because the wrap-around cancels |
| DenseBounds.AsWrittenSizeIsRight | source/blender/blenkernel/intern/volume.cc:1099-1142 | for 32-bit boxes the texture size is the voxel count per axis, because the wrap-around cancels |
| DenseBounds.AsWrittenVoxelsAndSizeAreRight | source/blender/blenkernel/intern/volume.cc:1099-1164 | for 32-bit boxes the voxel copy box and the texture size both come out right |
| DenseBounds.AsWrittenMisplacesNegativeOrigin | source/blender/blenkernel/intern/volume.cc:1141-1144 | a grid with voxels at x = -4 gets a texture origin of 2^64 - 4 |
| DenseBounds.DenseBounds | source/blender/blenkernel/intern/volume.cc:1099-1127 | corrected with signed corners: found exactly when the box is not empty, with zeros otherwise and a non-empty half-open box when found |
| DenseBounds.DenseBoundsRoundTrip | source/blender/blenkernel/intern/volume.cc:1099-1164 | with signed corners, the inclusive box comes back unchanged, the origin is the box minimum and the size is the voxel count per axis |

## Left out

- The cache mutex, the double-checked locks and the memory fences. Each operation is one atomic step.
- OpenVDB I/O: opening files, reading metadata and trees, `setTree`, `clear`. These are inputs (`FileView`, `ReadResult`); only `IoError` is modelled, and other exceptions, which would propagate, are not.
- `volume_filepath_get`, `BLI_exists` and `BLI_split_file_part` are not part of this model. Their results are fields of `FileView`.
- `FILE_MAX` truncation of paths and of the file name. Paths are unbounded strings.
- `BKE_volume_grid_type`'s `isType` chain. The grid type is an input carried by the enumeration.
- `VolumeGrid::name` reads the grid's metadata. A file-backed handle is named by its cache key, which was built from that same name.
- SequenceFrame.SequenceFrame: the scene frame is taken as an `int`; the float-to-`int` conversion of `DEG_get_ctime` (482), which truncates toward zero, happens before it and is not modelled.
- SequenceFrame.SequenceFrame: 32-bit overflow of `scene - start + 1`, of `2 * duration - 2` and of the offset addition is not modelled; arithmetic is unbounded. For a negative duration the Extend, Repeat and PingPong contracts say nothing beyond what the body computes.
- DenseBounds.DenseBoundsAsWritten: the 32-bit addition `max + 1` is unbounded here, so a maximum of `INT_MAX` does not overflow.
- DenseBounds.AsWrittenMisplacesNegativeOrigin: the conversion of the `size_t` origin to `float` is left out; the lemma states the integer value that is converted.
- Float and geometry code: bound boxes, transform matrices and dense voxel copies are out of scope, apart from the integer corners handed to them.
- Depsgraph plumbing: the flush of the frame to the original datablock in `BKE_volume_eval_geometry`, modifier evaluation, `BKE_volume_grids_backup_restore`, and ID creation, copy and free, apart from the grid part of the copy.
- Logging and draw-cache callbacks.
- Reallocation of the grid list by `emplace_back` (631) is not modelled. `VolumeGrid` has a copy constructor (250) and a destructor (258) but no move constructor, so a reallocation copies every handle and destroys the old one; by `FileCache.CopyThenRemoveRestores` each such pair leaves the cache as it was.
- Grids.GridIsLoaded: `BKE_volume_grid_is_loaded` (946-954) is a one-line accessor with no contract of its own; the contracts of `Grids.Load` and `Grids.Unload` state when it holds.
- GridVectors.VectorIsLoaded: `VolumeGridVector::is_loaded` (376-379) is a one-line accessor with no contract of its own; `Volumes.Load`, `Volumes.Unload` and `Volumes.EvalGeometry` state when it holds.
- GridVectors.Empty: the default constructor (366-369) only builds the empty vector; `Volumes.Unload` states its result.
- Volumes.IsLoaded: `BKE_volume_is_loaded` (556-565) is a one-line accessor with no contract of its own; `Volumes.LoadLeavesVolumeLoaded` and `Volumes.Load` state when it holds.
- Grids.Name: `BKE_volume_grid_name` (958-966) is an accessor with no contract of its own; `Grids.FromFile`, `Volumes.GridUnload` and `Volumes.FindGrid` state what it returns.
- Grids.TypeOf: `BKE_volume_grid_type` (968-1008) is an accessor with no contract of its own; it reads the type the enumeration recorded on the entry.
- CInt.CDiv: C's truncating division is a helper for the contract of `CInt.CRem`; the volume code divides only through `%`.
- DenseBounds.VoxelBoxAsWritten: the conversion in `BKE_volume_grid_dense_voxels` (1164) has no contract of its own; `DenseBounds.AsWrittenVoxelsAreRight` states what it computes.
- DenseBounds.TextureOriginAsWritten: the origin in `BKE_volume_grid_dense_transform_matrix` (1141) has no contract of its own; `DenseBounds.AsWrittenMisplacesNegativeOrigin` states what it computes.
- DenseBounds.TextureSizeAsWritten: the size in `BKE_volume_grid_dense_transform_matrix` (1142) has no contract of its own; `DenseBounds.AsWrittenSizeIsRight` states what it computes.

## Findings

| source | as written | input that shows it | evidently intended | confidence | as-written member | corrected member |
|---|---|---|---|---|---|---|
| source/blender/blenkernel/intern/volume.cc:371-374 | the copy constructor of `VolumeGridVector` copies the path and the error but not the `std::vector` base, so the copy has no grids | a loaded volume with one grid `density` of `/tmp/smoke.vdb`, copied; loading the copy returns true and it has no grids | the copy holds the same grids, each one more cache user | high, not executed | Volumes.CopyAsWrittenLosesGrids | GridVectors.Copy, Volumes.CopyData |
| source/blender/blenkernel/intern/volume.cc:1108-1113 | the inclusive OpenVDB corners, signed 32-bit, are stored in `size_t`, so a negative coordinate wraps to 2^64 plus it; the texture origin is then computed from the wrapped value | a grid whose active voxels span x from -4 to 3 | signed corners: the origin at -4, the size the voxel count | medium, not executed | DenseBounds.AsWrittenMisplacesNegativeOrigin | DenseBounds.DenseBoundsRoundTrip |
