# tinyTiles: a verified model

tinyTiles builds, serves and synchronises map tiles. This project models its hard algorithms and
protocols in Dafny and proves what they are for. Programs that change things step by step (loops over
buffers, linked lists in arrays, an LRU, a collector) are Dafny methods proved against independent
definitions; protocols of several goroutines are step machines, and what is proved of them holds in
every reachable state of every interleaving.

`dafny verify dfyconfig.toml` checks all of it.

| file | what it models |
|---|---|
| Geometry, Planar, Dissolve, UnevenBorders, Nesting, DissolveGroup | dissolving polygon groups: edge cancellation, chaining the rest into rings, nesting holes, and what becomes of area and coverage; what area and containment mean in the plane |
| Lexicographic, Rotation, Signatures | least rotations in linear time, canonical ring and polygon signatures, removal of duplicates |
| TileId | Hilbert tile identifiers of PMTiles version 3, down to 32-bit wrap-around |
| Varint, Directory, ArchiveWalk | varints, the directory codec, the two walks over an archive, and the order of the visits |
| Visvalingam | line and ring simplification with a linked list and a queue that keeps outdated entries |
| ReaderPool | the pool of readers behind a dataset and its Close |
| TileCache, TileLoading, TileAnswers | the byte-bounded LRU with its lock-free front, one load in flight per key on top of it, the real cache as that protocol's cache, and what lookups answer |
| Identifier, TileRequest, Checksum, SyncProtocol, SyncOutcomes | offline requests, checksum comparison, synchronisation with workers, failures, publication and pruning, and what a run reports |
| Protobuf, TileGeometry, TileLayer | protocol buffer fields, vector tile geometry and layers, read back, geometry and all, by the rules of the Mapbox Vector Tile Specification 2.1 |
| Route, RoutePath | Bresenham rasterisation, antimeridian wrap and the budget of distinct keys; the way a route takes |
| Multipolygon | joining way chains into closed rings |
| Bits, Options, Sequences, Visitors | machine-word arithmetic, optional values, sequences and failing visitors, used by the others |

Points are pairs of integers, as after quantisation; the simplification works on reals. Digests are an
arbitrary function of the bytes, decompression an arbitrary function of the stored bytes, projection,
simplification and clipping of a feature arbitrary functions of its points, a dataset an immutable map, and
the tile store of the synchroniser is made of atomic map operations. Every induction is written out: each
lemma carries `{:induction false}`.

## Where the code and its comments part

- A border between two polygons of a group cancels whenever it is traversed in both directions, however
  often in each. Shared unevenly it always takes some antisymmetric total of the borders with it
  (`Dissolve.ConservedIffEvenlyShared`); area and winding numbers change exactly when the cancelled edges add
  something to them (`Dissolve.CoverageSurvivesIff`); and the rest cannot be closed exactly when the cancelled
  edges do not balance at every vertex (`Dissolve.SurvivorsChainIff`).
  `UnevenBorders.UnevenBorderBreaksRings` gives rings that cannot be closed, and
  `UnevenBorders.UnevenBorderLosesArea` rings that close with half the area. Where every border is shared
  evenly the outcome covers what the group covers exactly if no hole is dropped for want of an exterior
  around it (`DissolveGroup.DissolvePolygons`).
- `rasterizeRouteSegment` is said to visit every cell a segment crosses. It skips cells that are only
  clipped at a corner. `Route.KnightMoveSkips` shows the smallest case, and
  `Route.VisitsEveryCrossedCell` says for which segments nothing is skipped.
- `EachTile` is said to visit tiles in ascending order of their identifiers. It does exactly when every run
  ends before the next one begins (`ArchiveWalk.VisitsAscendIff`); a directory only makes sure that runs do
  not begin in descending order, and `ArchiveWalk.TileVisitedTwice` is an archive whose one tile is visited
  twice.

Three more conditions are exact where a reader might expect none. `EachTile` fails where `InspectTiles`
succeeds when there are tiles, the tile-data section is empty, and its offset is no legal file offset
(`ArchiveWalk.InspectionDescribesVisits`, with the archive of `ArchiveWalk.UnreadableTile`). A directory
survives being written and read back only if its offsets leave room for the marker that is added to them
(`Directory.DirectoryRoundTrip`, with the lists of `Directory.LostOffsets`). And a layer reads back as it was
exactly when 32 bits can index its distinct names and its distinct texts (`TileLayer.EncodeLayer`): past that
an index wraps, and the entry it meant is out of reach.

## Model

| member | source | states |
|---|---|---|
| Geometry.ShoelaceSum | internal/geo/geometry.go:46-53 | the accumulated sum is twice the signed area, and the total of the ring's non-degenerate edges |
| Planar.ShoelaceOfRectangle | internal/geo/geometry.go:40-53 | the sum is twice the area, positive for a counterclockwise ring: for a rectangle, twice its width times its height |
| Planar.ShoelaceMoved | internal/geo/geometry.go:40-53 | moving a closed ring does not change it |
| Planar.ShoelaceCut | internal/geo/geometry.go:40-53 | cutting a ring in two along a straight line divides it between the parts |
| Geometry.ReversedEdges | internal/geo/geometry.go:61-70 | reversing a ring negates every antisymmetric total of its edges, the area and every winding number among them |
| Geometry.OrientedWinding | internal/geo/geometry.go:74-79 | an oriented ring is the given one or exactly the given one backwards; it keeps area and closedness, and gets the winding asked for unless a clockwise one is asked of a ring without area |
| Geometry.Normalize | internal/geo/geometry.go:84-106 | polygon by polygon and ring by ring, in order, each ring comes back as it was or backwards: the first of a polygon counterclockwise, the others clockwise |
| Geometry.WalkNet | internal/geo/dissolve.go:90-127 | along any walk, out-degree less in-degree is one at its first point, minus one at its last, zero elsewhere |
| Dissolve.CollectEdges | internal/geo/dissolve.go:58-77 | the edge list and the presence set are those of all rings, zero-length edges skipped |
| Dissolve.FilterInPlace | internal/geo/dissolve.go:78-85 | filtering in the front of the same buffer leaves exactly the edges whose reverse is absent, in order |
| Dissolve.CancelSharedEdges | internal/geo/dissolve.go:58-86 | the result is the edges of all rings whose reverse occurs nowhere |
| Dissolve.CancellationConserves | internal/geo/dissolve.go:54-86 | if every cancelled border is shared evenly, every antisymmetric total (area, degrees, winding) is unchanged by the cancellation |
| Dissolve.ConservedIffEvenlyShared | internal/geo/dissolve.go:54-86 | every antisymmetric total survives the cancellation exactly when every border is shared evenly |
| Dissolve.NoRepeatIsEvenlyShared | internal/geo/dissolve.go:54-57 | when no directed edge repeats, every border is shared evenly |
| Dissolve.SurvivorsOneWay | internal/geo/dissolve.go:78-86 | no survivor has length zero or stands beside its own reverse |
| Dissolve.Walk | internal/geo/dissolve.go:98-121 | one walk uses each edge at most once, returns to its start only at its end, and ends elsewhere only if no unused edge leaves that vertex |
| Dissolve.WalkCloses | internal/geo/dissolve.go:104-121 | among balanced edges the walk always closes, and the unused edges stay balanced: the "could not close" exit is not taken |
| Dissolve.ChainEdges | internal/geo/dissolve.go:90-127 | the rings are, in order, the walks that close with three edges or more, of walks that use every edge exactly once and end only where they are back at their start or where no edge of a later walk goes on; balanced one-way edges are all used by rings |
| Dissolve.SurvivorsChainIff | internal/geo/dissolve.go:58-127 | for closed input, closed rings can use up the survivors exactly when the cancelled edges balance at every vertex |
| Dissolve.DissolveRings | internal/geo/dissolve.go:39-46 | cancel and chain: the rings come from such walks over the survivors, and use every one of them exactly when the cancelled borders balance |
| Dissolve.EvenlySharedChains | internal/geo/dissolve.go:54-86 | evenly shared borders meet that condition |
| UnevenBorders.UnevenBorderBreaksRings | internal/geo/dissolve.go:54-57 | three closed triangles whose common border is shared unevenly, for which the condition fails and the rest cannot be closed |
| UnevenBorders.UnevenBorderLosesArea | internal/geo/dissolve.go:54-127 | three closed rings that share borders unevenly, for which the condition holds and the survivors close, with 16 for twice the area of the 32 before |
| Dissolve.DissolveConserves | internal/geo/dissolve.go:28-127 | every antisymmetric total of the borders is the same over the chained rings as over the input |
| Dissolve.TotalLost | internal/geo/dissolve.go:54-127 | once the survivors are chained, any total over the rings is the input's less what the cancelled edges add to it |
| Dissolve.CoverageSurvivesIff | internal/geo/dissolve.go:18-47 | area, and the winding number about a point, survive a dissolve exactly when the cancelled edges add nothing to them; all antisymmetric totals survive exactly when every border is shared evenly |
| Dissolve.DissolvePreservesCoverage | internal/geo/dissolve.go:18-47 | signed area, the winding number about every point and the even-odd interior survive a dissolve |
| DissolveGroup.ClassifyRings | internal/geo/dissolve.go:131-141 | rings are split by winding into exteriors and holes, each in order, and the holes are nested in the exteriors |
| DissolveGroup.DissolvePolygons | internal/geo/dissolve.go:28-47 | the whole chain from the members: of each kind among them the first is taken, every ring as given or backwards; area and winding numbers of the outcome are those of these polygons, less those of the cancelled edges, without the dropped holes; with evenly shared borders they are the same exactly when no hole is dropped, and then the outcome contains exactly the points of the polygons as they were given |
| DissolveGroup.TurnedCover | internal/geo/geometry.go:81-106 | normalising changes for no point how often its ray meets the borders |
| DissolveGroup.TurnedSamePolygon | internal/geo/repair.go:93-129 | normalising changes no polygon's signature |
| Nesting.RingContainsPoint | internal/geo/geometry.go:189-202 | the loop over the edges into each point, closed from the last point to the first, gives the parity of the crossings |
| Nesting.InsideClosed | internal/geo/geometry.go:189-202 | for a closed ring that is the parity of the crossings of its edges |
| Planar.CrossesIff | internal/geo/geometry.go:187-202 | the ray to the right meets an edge that rises past the point's height exactly when the point is on its left, one that falls exactly when it is on its right, and no other |
| Planar.InsideTriangle | internal/geo/geometry.go:187-202 | a counterclockwise triangle contains every point strictly within it and none strictly outside |
| Planar.InsideCut | internal/geo/geometry.go:187-202 | a ring cut in two contains what exactly one of its parts contains, so triangles settle every ring |
| Planar.InsideUnclosed | internal/geo/geometry.go:187-202 | a ring that is not closed is taken as if it were |
| Nesting.Contains | internal/geo/geometry.go:176-185 | over all rings of all polygons: the even-odd rule over all their edges |
| Nesting.FindHome | internal/geo/dissolve.go:155-166 | the first of the smallest exteriors around the first point of the hole, or none |
| Nesting.NestHoles | internal/geo/dissolve.go:150-175 | each exterior begins a polygon, and gets exactly the holes it is home to, in order |
| Nesting.NestedInside | internal/geo/dissolve.go:143-166 | a nested hole has its exterior around its first point, and no smaller exterior is |
| Nesting.DroppedIff | internal/geo/dissolve.go:167-173 | a hole is dropped exactly when no exterior is around its first point |
| Nesting.EachRingOnce | internal/geo/dissolve.go:150-175 | every exterior and every hole is in one polygon or among the dropped holes, once |
| Nesting.NestedTotal | internal/geo/dissolve.go:150-175 | so any total over the edges is split between the polygons and the dropped holes |
| DissolveGroup.WoundArea | internal/geo/geometry.go:84-106 | among normalised polygons the signed total over all rings is the area of exteriors without holes |
| Lexicographic.SortIdentifiesMultisets | internal/geo/repair.go:116-126 | sorting signatures gives the same list exactly for the same multiset |
| Rotation.MinimumRotation | internal/geo/repair.go:166-189 | the returned start is the first whose rotation is least, found in at most three steps per vertex |
| Rotation.DifferenceBeats | internal/geo/repair.go:169-187 | a difference at offset k decides every pair of starts up to k apart, which is what lets an index jump |
| Rotation.LastOneLeft | internal/geo/repair.go:167-189 | when the search stops without a full match the smaller index is the least rotation |
| Rotation.FirstPeriod | internal/geo/repair.go:169-174 | rotations that agree all the way round make the ring periodic, and a least rotation starts before the larger of the two |
| Rotation.CanonicalIffRotation | internal/geo/repair.go:145-162 | two vertex sequences have the same least rotation exactly when one is a rotation of the other |
| Signatures.ReverseInPlace | internal/geo/repair.go:155-157 | the swap loop reverses the array |
| Signatures.RingSignature | internal/geo/repair.go:133-162 | the signature is the lesser of the canonical encodings in the two directions |
| Signatures.RingSignatureIff | internal/geo/repair.go:131-162 | equal signatures exactly for the same cycle of vertices up to start and direction |
| Signatures.SameRingIff | internal/geo/repair.go:131-162 | closed rings are the same exactly when one lists the other's vertices from some position on, forwards or backwards |
| Signatures.OpenMeans | internal/geo/repair.go:133-143 | only a closing repetition of the first vertex is left out |
| Signatures.TurnedSame | internal/geo/geometry.go:81-106 | a ring turned round is the same ring |
| Signatures.PolygonSignature | internal/geo/repair.go:111-129 | the exterior's signature and the sorted hole signatures, each after its length |
| Signatures.PolygonSignatureIff | internal/geo/repair.go:109-129 | equal signatures exactly for the same exterior and the same holes, each kind equally often |
| Signatures.DedupePolygons | internal/geo/repair.go:93-107 | exactly the first polygon of each kind is kept, in order, and the others are counted |
| TileId.CellOfPosition | internal/pmtiles/tileid.go:34-74 | the cell at a cell's position along the curve is that cell |
| TileId.PositionOfCell | internal/pmtiles/tileid.go:34-74 | the position of the cell at a position is that position |
| TileId.CurveContinuous | internal/pmtiles/tileid.go:53-74 | consecutive positions decode to cells at Manhattan distance exactly one |
| TileId.CurveNested | internal/pmtiles/tileid.go:53-74 | a cell's position divided by four is the position of the cell with halved coordinates one zoom up |
| TileId.IdBijection | internal/pmtiles/tileid.go:22-78 | tiles and identifiers correspond one to one, and tiles up to zoom 30 are exactly those with an identifier up to the maximum |
| TileId.ConsecutiveIdsAdjacent | internal/pmtiles/tileid.go:53-74 | within a zoom, consecutive identifiers are neighbouring tiles |
| TileId.RotateIsDescend | internal/pmtiles/tileid.go:22-31 | on 32-bit words that are never masked, rotate is one level of the curve on the bits still to be read: wrap-around corrupts only bits never read again |
| TileId.RotateIsAscend | internal/pmtiles/tileid.go:22-31 | in the decoding direction rotate places the cell so far into its quadrant |
| TileId.ZxyToId | internal/pmtiles/tileid.go:34-49 | the loop computes base plus curve position, without 64-bit overflow, for every zoom up to 31 and any 32-bit coordinates; from zoom 33 on, where it does not run, the result no longer depends on the coordinates |
| TileId.ZoomByBitLength | internal/pmtiles/tileid.go:53-62 | the zoom computed from the bit length is the one whose block holds the identifier |
| TileId.IdToZxy | internal/pmtiles/tileid.go:53-78 | every identifier up to the maximum decodes to its tile, and exactly the others are refused |
| TileId.EncodeTile | internal/pmtiles/tileid.go:34-49 | a tile of a supported zoom gets its identifier |
| TileId.RoundTrip | internal/pmtiles/tileid.go:22-78 | encoding and decoding gives every tile back |
| Varint.AppendVarint | internal/minigen/mvt.go:381-387 | the loop appends the base-128 digits, lowest first |
| Varint.EncodedExamples | internal/minigen/mvt.go:381-387 | a number below 128 is its own byte; 300 is the encoding guide's example |
| Varint.ReadVarint | internal/minigen/pbf.go:364-376 | value modulo 2^64 and length of the varint in front; zero if it does not end, minus one past ten bytes |
| Varint.ReadAppended | internal/minigen/pbf.go:364-376 | reading what was appended gives every 64-bit value back and consumes exactly its bytes |
| Varint.UvarintOfEncoded | internal/pmtiles/archive.go:399-456 | the stricter reader, which refuses 64-bit overflow, also gives every 64-bit value back |
| Varint.UvarintExact | internal/pmtiles/archive.go:399-456 | it accepts exactly the varints of ten bytes or less whose value is a 64-bit word |
| Directory.Serialize | internal/pmtiles/pmtilestest/build.go:108-134 | the writer's columns: count, identifier differences, run lengths, lengths, offset codes |
| Directory.DeserializeEntries | internal/pmtiles/archive.go:399-456 | the in-place column reader computes the specified decoding, with an error in exactly the specified cases |
| Directory.DeserializedExact | internal/pmtiles/archive.go:399-456 | bytes are decoded to exactly the entries their numbers stand for: a count with room for four numbers an entry, identifiers as differences that do not overflow, run lengths, lengths, and offsets that follow on or are one less than their code; everything else is refused |
| Directory.DirectoryRoundTrip | internal/pmtiles/archive.go:399-456 | a written directory reads back as itself exactly when it is not empty, its identifiers do not descend and its offsets survive their codes; the count guard never rejects an honest encoding |
| Directory.LostOffsets | internal/pmtiles/pmtilestest/build.go:108-134 | a list whose last possible offset is lost, and one whose second entry follows the first only by wrapping around |
| Directory.DeserializedSound | internal/pmtiles/archive.go:399-456 | whatever bytes are accepted, identifiers do not descend and every entry took four bytes or more |
| ArchiveWalk.Inspection.Directory | internal/pmtiles/archive.go:527-576 | the recursive inspection with its shared counters computes the specified statistics |
| ArchiveWalk.Visiting.Entry | internal/pmtiles/archive.go:606-641 | a tile entry is read once and reported for each identifier of its run, up to the first look at the context or call of the visitor that fails |
| ArchiveWalk.Visiting.Directory | internal/pmtiles/archive.go:578-645 | the recursive walk takes the specified course, up to the first look or call that fails; its depth is bounded whatever the leaf pointers |
| ArchiveWalk.WalkCourseVisits | internal/pmtiles/archive.go:578-645 | the course of a walk that nothing ends from outside makes exactly the visits of the walk, and leaves the same budget |
| ArchiveWalk.WalksAgree | internal/pmtiles/archive.go:527-645 | whatever inspection accepts the walk visits, except tile data that cannot be read at all |
| ArchiveWalk.BudgetSpent | internal/pmtiles/archive.go:527-576 | tiles counted and budget left always add up, and the count never falls |
| ArchiveWalk.InspectionDescribesVisits | internal/pmtiles/archive.go:476-525 | if inspection succeeds, visiting every tile succeeds exactly when tile data is readable or there are no tiles, and makes as many visits, with as many bytes and the same maximum, all inside the tile-data section |
| ArchiveWalk.UnreadableTile | internal/pmtiles/archive.go:476-525 | an archive that inspection accepts and the walk does not |
| ArchiveWalk.InspectTiles | internal/pmtiles/archive.go:504-525 | the entry point computes the specified statistics |
| ArchiveWalk.InspectedExact | internal/pmtiles/archive.go:504-576 | an opened archive passes inspection exactly if its root and all leaves are sound directories with the declared number of tiles, or up to 2^32 where none is declared, and fewer than 2^64 bytes; and then the statistics are those of its entries |
| ArchiveWalk.EachTile | internal/pmtiles/archive.go:476-502 | the entry point takes the specified course up to the first look or call that fails, and succeeds exactly when none does and the course ends well; then its calls are the tiles of the archive: run by run, each with the bytes its own entry names, under the leaves its own entries point to |
| ArchiveWalk.VisitsExact | internal/pmtiles/archive.go:578-669 | the visits are the tiles of the entries under the root, in order, each with exactly the bytes at its entry's offset in the tile-data section |
| ArchiveWalk.LeafExact | internal/pmtiles/archive.go:590-604 | a leaf directory is what the bytes at its entry's offset in the leaf section decode to, down to four levels and up to 32 MiB |
| ArchiveWalk.VisitsLookFirst | internal/pmtiles/archive.go:470-502 | the context is looked at first of all and right before each call of the visitor |
| ArchiveWalk.VisitsAscendIff | internal/pmtiles/archive.go:470-502 | the visits come in strictly ascending order of their identifiers exactly when every run ends before the next one begins |
| ArchiveWalk.TileVisitedTwice | internal/pmtiles/archive.go:470-502 | an archive that is accepted and whose one tile is visited twice |
| Visvalingam.MinimumIsSmallest | internal/minigen/simplify/visvalingam.go:101-108 | the least queue entry, if its version is current, is a vertex that a full rescan could choose |
| Visvalingam.EmptyQueueFinishes | internal/minigen/simplify/visvalingam.go:101-108 | an empty queue means nothing is removable |
| Visvalingam.UnlinkedLinks | internal/minigen/simplify/visvalingam.go:109-117 | after the two redirections the nodes are the doubly linked list of the points left |
| Visvalingam.Refresh | internal/minigen/simplify/visvalingam.go:118-125 | a neighbour whose area is computed again has exactly one queue entry with its current version and no longer a stale area, the list is untouched, and at most one entry is added |
| Visvalingam.PopOne | internal/minigen/simplify/visvalingam.go:101-126 | one turn of the loop is no step or one step of the plain method, and 2 * alive + queue length shrinks |
| Visvalingam.Simplify | internal/minigen/simplify/visvalingam.go:14-147 | the result is reached from the points by taking out one corner after another, each a least one and within the tolerance, until three points of a ring or two of a line are left or every corner left exceeds the tolerance |
| Visvalingam.TriangleAreaMeans | internal/minigen/simplify/visvalingam.go:149-151 | the area is never negative, the same for any order of the corners, not changed by moving or shearing, and half of base times height |
| Visvalingam.RunOutlines | internal/minigen/simplify/visvalingam.go:14-33 | what a finished run of the plain method does to the outline, measured by the shoelace sum of each corner |
| Visvalingam.RunKeeps | internal/minigen/simplify/visvalingam.go:14-33 | every run keeps the points in order, at least the minimum number, and both ends of a line |
| ReaderPool.InitInv | dataset.go:81-130 | the state Open leaves satisfies the invariant |
| ReaderPool.StepInv | dataset.go:279-367 | every step of acquire, borrow, release and Close keeps each reader in exactly one place, the wait group equal to the registered borrowers, and room in the pool for those returning |
| ReaderPool.RunSafe | dataset.go:279-367 | over every interleaving no reader is closed twice or while in use, no two goroutines share one, and release's fallback send never blocks |
| ReaderPool.NoRegistrationAfterClose | dataset.go:279-347 | along any run, once Close has begun: whoever is registered later was registered in every state since, the wait group only counts down, and no closed reader is opened again |
| ReaderPool.ClosedAtReturn | dataset.go:279-308 | when Close returns every reader is closed, or held by a goroutine that has received it and will close it |
| ReaderPool.QuiescentAllClosed | dataset.go:279-308 | at quiescence every reader has been closed exactly once |
| ReaderPool.NoDeadlock | dataset.go:279-367 | until then some step can always be taken |
| ReaderPool.CloseCompletes | dataset.go:279-367 | without new lookups every run after Close has begun is finite, and where it ends everything is closed |
| ReaderPool.OpenLookupsUse | dataset.go:314-367 | as long as Close has not begun, a lookup that is not cancelled ends only after it has used a reader |
| ReaderPool.OpenNoDeadlock | dataset.go:314-367 | on an open pool some lookup can always go on without being cancelled |
| ReaderPool.OpenLookupsComplete | dataset.go:314-367 | without new lookups all of them get done within seven steps each, and then every reader is back |
| ReaderPool.LastReturnedFirst | dataset.go:321-328 | a reader that has just been put back is the first to be taken again |
| ReaderPool.PoolInOrder | dataset.go:329-367 | until Close drains it, the pool lends its readers in the order they came |
| TileCache.TrimKeepsMost | server/tile_cache.go:248-264 | demote-then-delete stops at the first list that fits: any other way of cutting the list from the back that fits keeps less |
| TileCache.HeadSurvives | server/tile_cache.go:248-264 | a payload just put that fits by itself is never the one evicted |
| TileCache.StaysIff | server/tile_cache.go:248-264 | a payload stays exactly if it fits together with everything used more recently |
| TileCache.UsedIs | server/tile_cache.go:18-22 | the budget pays for payloads, digests and 320 bytes an item |
| TileCache.RunServes | server/tile_cache.go:168-309 | after any history of a lane: it fits its budget, is ordered by last use, and holds only what was last stored |
| TileCache.HitIsLastPut | server/tile_cache.go:168-309 | a hit returns the payload and checksum last put under the key, and a retained digest is one that was given for it |
| TileCache.KeepsAllThatFits | server/tile_cache.go:168-309 | as long as everything ever put would fit, a lookup finds exactly what was last put under its key, and the digest last given |
| TileCache.Stored | server/tile_cache.go:226-243 | storing at the front keeps map and list in bijection and is the list operation of a plain LRU |
| TileCache.Shard.constructor | server/tile_cache.go:109-115 | an empty lane with its budget |
| TileCache.Shard.GetFast | server/tile_cache.go:190-196 | a hit without the lock returns what the locked path would and leaves the recency order as that would |
| TileCache.Shard.GetFrom | server/tile_cache.go:168-188 | the locked lookup is the plain LRU's, and keeps bijection, byte count, budget and front |
| TileCache.Shard.ChecksumFrom | server/tile_cache.go:211-221 | the digest of the entry, with or without payload |
| TileCache.Shard.PutInto | server/tile_cache.go:223-265 | the plain LRU's put: a fitting payload is found afterwards, and the front is the payload of the list head or nothing |
| TileCache.Shard.PutChecksum | server/tile_cache.go:267-309 | a bare digest never replaces a payload, and otherwise becomes the list head without a front |
| TileCache.Shard.Evict | server/tile_cache.go:248-264 | the eviction loop terminates with the budget met, and never shows a demoted payload through the front |
| TileCache.NeighboursSpread | server/tile_cache.go:315-320 | with two coordinates fixed, two keys share a lane exactly when the third is congruent modulo sixteen |
| TileCache.Cache.WithinBudget | server/tile_cache.go:48-65 | the bytes of all lanes together never exceed the total budget |
| TileCache.Cache.Get | server/tile_cache.go:121-147 | a hit in either of a key's two lanes is found, and uses the item there and nothing else |
| TileCache.Cache.Checksum | server/tile_cache.go:201-209 | the digest of the normal lane, else of the large one |
| TileCache.Cache.Put | server/tile_cache.go:149-166 | the payload goes to its lane or the large lane, where it can then be found, or leaves only its digest |
| TileCache.NewTileCache | server/tile_cache.go:97-119 | the budgets of the lanes differ by a byte at most and sum to the configured total; no cache for a budget that is not positive |
| TileLoading.LaneSteps | server/tile_cache.go:168-309 | what any operation of one lane does to a key is a loss, or the store asked for and perhaps a loss |
| TileLoading.LosesTogether | server/tile_cache.go:121-221 | what either of a key's two lanes loses, the one cell of the protocol loses, or nothing |
| TileLoading.StoresTogether | server/tile_cache.go:149-166 | a payload stored in either lane, or only its digest, is a store on the one cell, perhaps with a loss |
| TileLoading.ProbeCache | server/tile_cache.go:121-147 | get answers what the one cell holds and changes no cell: the protocol's step Probe |
| TileLoading.RecallFromCache | server/tile_cache.go:201-209 | the retained digest is that of the one cell: the step Recall |
| TileLoading.StoreInCache | server/tile_cache.go:149-166 | put stores in the one cell and at most takes from others, and keeps every lane right: the step Store |
| TileLoading.OneLoadPerKey | server/tile_load_group.go:29-63 | in every state of every run at most one load per key is in flight |
| TileLoading.StepInv | server/server.go:656-699 | every step of lookup, join, load and publish keeps cache, loads and answers right |
| TileLoading.AnswersRight | server/server.go:656-699 | in every run a tile that is answered is the dataset's bytes with their digest, even where the digest was retained from an evicted payload, and a missing one is truly missing; a result that names a load is that load's |
| TileAnswers.AnswersExact | server/server.go:656-699 | in every run a lookup answers, for the key it was last asked for, exactly what the dataset has, unless its own caller has cancelled it or the read of the load it names has failed |
| TileAnswers.UndisturbedExact | server/server.go:656-699 | without failed reads and cancellations every answer is exactly the dataset's bytes with their digest, or that there are none |
| TileAnswers.JoinersShare | server/tile_load_group.go:37-46 | who joins a load goes on with exactly the result its leader published, and names that load |
| TileAnswers.CancelledByItself | server/tile_load_group.go:29-46 | who answers that it was cancelled was, and has not moved since |
| TileAnswers.BusyWithRequest | server/server.go:656-674 | a goroutine is busy with the key it was last asked for |
| TileAnswers.HitAnswersAtOnce | server/server.go:656-674 | what the cache holds is answered at once, without a load |
| TileAnswers.LookupEnds | server/server.go:656-699 | a lookup takes at most eight steps of its own |
| TileLoading.WaiterServed | server/tile_load_group.go:37-46 | a waiter's result is there, or its leader can take a step towards it |
| TileLoading.ReadOnlyWhenAbsent | server/server.go:679-699 | the dataset is only ever read for a payload the cache does not have |
| TileLoading.ReadsBalanceLosses | server/server.go:679-699 | reads that found a tile equal losses of its payload plus one while it is in hand: no second read while it stays cached |
| TileRequest.RangeKeysExact | offline/types.go:81-98 | column by column a range lists exactly its keys, each once, as many as its area |
| Identifier.Validate | offline/types.go:266-282 | a name is accepted exactly when, without the white space around it, it is not empty, not too long in bytes and free of control characters |
| Identifier.WidthIsLeast | offline/types.go:266-272 | a character counts for the fewest bytes that have room for it in UTF-8 |
| Identifier.SpacesExact | offline/types.go:266-269 | white space is exactly the 25 characters with that property in Unicode |
| TileRequest.OverlapIffShared | offline/sync.go:380-382 | the interval test holds exactly when two ranges share a key |
| TileRequest.Count | offline/types.go:69-79 | the 64-bit area of a valid range, which never overflows; nothing for an invalid one |
| TileRequest.VisitRange | offline/types.go:81-98 | every key of the range in order until the visitor fails, and nothing of an invalid range |
| TileRequest.Validate | offline/sync.go:304-339 | a request is accepted exactly when its dataset, if it names one, can be a name, its concurrency is in range, every key it asks for exists, and none is asked for twice |
| TileRequest.DistinctKeysFit | offline/types.go:33-42 | there are fewer than 2^64 distinct keys to ask for |
| TileRequest.Total | offline/sync.go:341-354 | the number of keys in 64 bits, with an error exactly when they do not fit |
| TileRequest.Visit | offline/sync.go:363-378 | explicit keys and then ranges in order, until the visitor fails on one |
| TileRequest.AcceptedRequest | offline/sync.go:304-378 | an accepted request's total never overflows, and its keys are distinct, valid and exactly those asked for |
| TileRequest.Enumerate | offline/sync.go:304-378 | validate, total and visit together: exactly total keys are visited |
| Checksum.EqualDigestHex | offline/sync.go:400-407 | accepts exactly the hexadecimal text of the digest, in either case |
| Checksum.HexText | offline/sync.go:400-420 | the text has two digits a byte, the higher one first, of 0-9 and a-f; A-F are read as a-f |
| Checksum.VerifyTile | offline/sync.go:384-396 | passes exactly an absent checksum or the digest's text; any other length fails |
| Checksum.ChecksumIdentifies | offline/sync.go:384-420 | a text passes for at most one digest, and the text of a digest passes for it |
| SyncProtocol.KeepsAccounted | offline/sync.go:163-231 | every key sent is counted, given up, in the channel or with one worker, at every step |
| SyncProtocol.ValidTilesStay | offline/sync.go:193-299 | in any run a stored tile that passes verification stays so, unless someone else overwrites it or a pruning finds its revision not active: workers never spoil one, and pruning deletes nothing of an active revision |
| SyncProtocol.JoinedAllDone | offline/sync.go:231-245 | when all workers have left without error or cancellation, every key was counted |
| SyncProtocol.StepInv | offline/sync.go:66-302 | every step of a run keeps the invariant, with the verified bit set only on tiles that pass |
| SyncProtocol.PublishedComplete | offline/sync.go:245-302 | whenever a run gets to publish, every requested key is stored under the new revision and passes verification, and downloaded plus reused is the total |
| SyncOutcomes.SyncedTells | offline/sync.go:245-302 | a run that succeeds reports what its steps have done: downloaded counts the tiles it fetched and stored, reused those it found stored and valid, together all the keys asked for; on the warm path nothing is downloaded; and its own manifest is active |
| SyncOutcomes.UndisturbedSucceeds | offline/sync.go:66-302 | as long as nothing has gone wrong since it began (no cancellation, no failure of store or fetcher, no tile that does not pass), a run does not fail |
| SyncOutcomes.StoresWhatWasFetched | offline/sync.go:193-218 | a tile stored for a key is exactly the one fetched for that key, and nothing else in the store changes |
| SyncOutcomes.PrunesPrevious | offline/sync.go:295-299 | only a run that was asked to prunes, and it deletes exactly the tiles of the revision that was active before it and is no longer |
| SyncOutcomes.UnderWay | offline/sync.go:66-162 | whatever is under way has the keys, the manifest and the number of workers of the call that began it |
| SyncOutcomes.WarmAgain | offline/memory.go:137-162 | in a MemoryStore that nobody else writes to, a call that has succeeded leaves everything ready for the warm path of any later one for the same revision and some of the same keys, which then downloads nothing |
| SyncProtocol.FailedRunChangesNothing | offline/sync.go:66-302 | a run that fails leaves the active manifests as it found them |
| SyncProtocol.ActiveStaysComplete | offline/memory.go:102-182 | after any sequence of runs, what a dataset was last published with is all stored under its active revision |
| SyncProtocol.WarmPathComplete | offline/memory.go:142-162 | whenever a run takes the warm path, every key asked for is stored under the active revision and passes verification |
| SyncProtocol.NoDeadlock | offline/sync.go:143-232 | producer, workers and channel never block each other |
| SyncProtocol.SyncReturns | offline/sync.go:143-302 | a run takes no more steps than a bound known at its start |
| Route.TestsAreRounding | offline/route.go:154-162 | the two integer tests on the error term move exactly to the next rounded cell of the line |
| Route.LineEnds | offline/route.go:136-164 | the line begins at its start and ends at its end, after the larger of the two distances |
| Route.LineConnected | offline/route.go:136-164 | each step goes to one of the eight neighbours |
| Route.LineNear | offline/route.go:133-136 | twice the distance of a visited cell from the line, as the difference of the cross products, never exceeds the larger of the two distances |
| Route.VisitsEveryCrossedCell | offline/route.go:133-135 | every crossed cell is visited exactly when the segment is level, upright, or one side is an odd multiple of the other |
| Route.KnightMoveSkips | offline/route.go:133-135 | the segment to (2, 1) crosses the cell (1, 0) without visiting it |
| Route.AroundExact | offline/route.go:67-93 | a cell is widened to exactly the valid keys no more than the radius away |
| Route.ShortWayIsShort | offline/route.go:100-108 | a segment is moved to the shorter way around the world and still ends at the same cell modulo its width |
| Route.WrapIsMod | offline/route.go:109-111 | the double remainder is the mathematical one for every coordinate |
| Route.RouteCollector.Emit | offline/route.go:67-93 | keys are added in order of first appearance until one more would exceed the budget |
| Route.RouteCollector.RasterizeRouteSegment | offline/route.go:136-164 | the loop offers exactly the cells nearest to the line, in order, and stops when the budget is reached |
| Route.RouteTileKeys | offline/route.go:40-116 | the first maxTiles distinct keys of the whole traversal, marked as truncated exactly when there are more; refused for a parameter out of range or a point out of the world, except that a budget of zero accepts any points |
| Route.CorridorAcceptable | offline/route.go:212-227 | a corridor always makes a request that validate accepts, if its concurrency is in range |
| RoutePath.SegmentDirect | offline/route.go:99-164 | the cells of a segment lead from its start to its end, neighbour to neighbour around the world, and are as few as can be |
| RoutePath.CellsNear | offline/route.go:133-164 | each of them is within half a cell of the segment |
| RoutePath.RouteConnected | offline/route.go:95-116 | a route passes through all its points in order, each segment beginning where the one before ended |
| RoutePath.TraversalWidened | offline/route.go:67-116 | what a corridor is made of are the keys around these cells, in this order |
| RoutePath.AroundInOrder | offline/route.go:67-93 | the keys around a cell come row by row from north to south, each once |
| RoutePath.CorridorExact | offline/route.go:33-116 | a corridor has the keys met, each once, in the order they are met, up to the budget; it is truncated exactly when one is left out, and then the budget is used up |
| Multipolygon.ReverseNodeIds | internal/minigen/multipolygon.go:54-60 | the reversed list |
| Multipolygon.FindChainFrom | internal/minigen/multipolygon.go:42-52 | the first chain with an end at the tail and its continuation from there, either way round |
| Multipolygon.LinksReversed | internal/minigen/multipolygon.go:54-60 | a reversed chain crosses the same links |
| Multipolygon.JoinLinks | internal/minigen/multipolygon.go:24-30 | joining adds the links of the two chains and moves the end to the far end |
| Multipolygon.AssembleRings | internal/minigen/multipolygon.go:8-37 | the loops terminate and emit the closed attempts of four IDs or more, in order |
| Multipolygon.EachChainOnce | internal/minigen/multipolygon.go:18-36 | every chain of two IDs or more is taken by exactly one attempt, and each path crosses exactly the links of its chains |
| Multipolygon.UsableExact | internal/minigen/multipolygon.go:8-16 | the chains that take part are exactly those of two IDs or more, as often as they are given |
| Multipolygon.RingsAreAttempts | internal/minigen/multipolygon.go:32-34 | the rings are exactly the attempts that closed with four IDs or more |
| Multipolygon.AllCloseIffEvenEnds | internal/minigen/multipolygon.go:3-7 | every attempt closes exactly when every ID is the end of an even number of chains |
| Protobuf.ZigzagCode | internal/minigen/mvt.go:285 | the code of a signed word is twice its distance from zero, less one if negative |
| Protobuf.ZigzagInverse | internal/minigen/pbf.go:388 | zigzag and its inverse are inverse to each other on all 64-bit values |
| Protobuf.PackedVarints | internal/minigen/pbf.go:377-387 | the packed list, or nothing at all if any varint is malformed |
| Protobuf.UnpackedPacked | internal/minigen/pbf.go:377-387 | packing and unpacking gives every list of words back |
| Protobuf.AppendMessage | internal/minigen/mvt.go:372-376 | key, length and bytes are appended |
| Protobuf.AppendVarintField | internal/minigen/mvt.go:377-380 | key and value are appended |
| Protobuf.WalkProto | internal/minigen/pbf.go:317-363 | every field up to the end, up to the first malformed one, or up to the first that the visitor refuses, for all four wire types |
| Protobuf.WalkRecovers | internal/minigen/pbf.go:317-363 | the walk gives back any sequence of fields of the four wire types, fixed-width ones among them |
| TileGeometry.AppendPoint | internal/minigen/mvt.go:282-284 | the two parameters relative to the cursor are appended |
| TileGeometry.AppendRing | internal/minigen/mvt.go:263-281 | MoveTo, LineTo and ClosePath with their counts are appended, and the cursor stays at the last point |
| TileGeometry.DeltaMoves | internal/minigen/mvt.go:282-285 | a difference that wraps in 64 bits still moves the reader's cursor to the point |
| TileGeometry.DrawPath | internal/minigen/mvt.go:263-281 | read by the specification, the codes of a path add that path and leave the cursor at its last point |
| TileGeometry.SignedArea | internal/minigen/mvt.go:220-227 | the cyclic sum is the shoelace sum of the closed ring |
| TileGeometry.WoundAsAsked | internal/minigen/mvt.go:206-218 | the points stay, in their order or backwards, and rings with area get the winding asked for |
| TileGeometry.EncodeRings | internal/minigen/mvt.go:179-204 | each ring projected, without its closing point, simplified and clipped; those of three points or more, wound by their role, as one command stream |
| TileGeometry.RingsRoundTrip | internal/minigen/mvt.go:172-204 | decoding by the specification gives exactly those rings back, closed, in order, whatever their coordinates |
| TileGeometry.CommandGeometry | internal/minigen/mvt.go:258-261 | a single line or ring decodes to itself |
| TileGeometry.EncodeGeometry | internal/minigen/mvt.go:143-170 | rings for a polygon that has some, one line of two points or more, or one ring of three: what is written reads back as these paths, and nothing is written exactly when there are none |
| TileGeometry.PathsPicture | internal/minigen/mvt.go:143-204 | what is drawn pictures the shape: a line of two points or more that are left after simplifying and clipping, in that order; a ring of three or more, closing point dropped; of a polygon with rings exactly those of which three points are left, in order, as they are or backwards, exteriors wound one way and holes the other |
| TileGeometry.ExamplesOfSpecification | internal/minigen/mvt.go:288-312 | the point, the line and the polygon of section 4.3.5 of the Mapbox Vector Tile Specification 2.1 get the codes given there |
| TileLayer.Intern | internal/minigen/mvt.go:99-110 | the index of an item points at it in the table, which is only ever extended |
| TileLayer.TagsStay | internal/minigen/mvt.go:79-113 | tags read the same with longer tables |
| TileLayer.SortedNames | internal/minigen/mvt.go:89-93 | all property names in order |
| TileLayer.EncodeTags | internal/minigen/mvt.go:88-113 | the tag pairs decode to the feature's text properties while the tables can be indexed, and the tables gain exactly its names and texts |
| TileLayer.EncodeFeature | internal/minigen/mvt.go:83-120 | the feature decodes, with the tables, to its kind, paths and text properties |
| TileLayer.EncodeLayer | internal/minigen/mvt.go:75-139 | a layer with something to draw reads back as its name, version, extent and every such feature in order, with its kind, paths and text properties, exactly when 32 bits can index the distinct names and the distinct texts; a layer with nothing to draw is empty |
| TileLayer.VisibleShows | internal/minigen/mvt.go:76-141 | what a reader should see is each feature of which something is left, in order, with its kind, its picture and exactly its text properties |
| TileLayer.ExampleOfSpecification | internal/minigen/mvt.go:76-141 | a layer spelled out byte by byte with the field numbers of section 4 of the Mapbox Vector Tile Specification 2.1 reads as its one line |
| TileLayer.ReadBackFits | internal/minigen/mvt.go:99-110 | features that read back as they were cannot have come with a table of more than 2^32 entries: no 32-bit index reaches the rest |

## Left out

- Floating point: quantisation of coordinates, Web Mercator and equirectangular projection, rounding and NaN; the models start from quantised or projected points.
- `repairRing` and validation reports; `clipLine` and `clipPolygon` are arbitrary functions of the points.
- DissolveGroup.DissolvePolygons: that a hole is never dropped for a group of valid polygons; it is stated what a dropped hole changes, and when one is.
- TileId.ZxyToId: the identifier at zoom 32, where tripling a bit overflows 32 bits; no caller passes a zoom above 30.
- Errors: only whether there is one is modelled, and what is left behind, not its text; cancellation of a context is modelled in ArchiveWalk.EachTile, ReaderPool, TileLoading and SyncProtocol, not in the inspection of an archive, the counts and the visits of requests.
- ArchiveWalk.EachTile: the reuse of one read buffer between visits.
- Visvalingam.PopOne: the binary heap is a multiset from which some least entry is taken, so nothing depends on how ties are broken.
- TileCache.Shard.GetFast: a lock-free read that overlaps a locked operation; each operation of a lane is one step here.
- TileCache: hit, miss and put counters.
- TileLoading: the path without a cache, and the waiter count that nothing reads.
- Identifier.Validate: names that are not valid UTF-8; a name is a sequence of characters here.
- TileLayer.EncodeLayer: layers of 2^64 bytes and more; compression of the finished tile.
- SyncProtocol: progress callbacks, the file and browser stores, and manifest fetching and validation (any manifest of the dataset asked for may arrive); another component that writes to the store while a run is at work.
- TileRequest.Total: more explicit keys than a slice can hold.
- HTTP handlers, URL templates, headers, style and TileJSON documents, command line, importers and exporters, SQLite staging, benchmarks.
- SHA-256, gzip, zstd and brotli are arbitrary functions here.
