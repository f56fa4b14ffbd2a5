# meshmagick core, modelled in Dafny

meshmagick is a command-line tool set for Ogre meshes. This project models
the geometry core of its `optimise` tool, an older version of that tool,
and the `merge`, `rename` and `info` tools, each as far as it works on a
mesh held in memory.

**The optimiser** (`src/MmOptimiseTool.cpp`) is the class
`Optimisation.Optimiser`. Its working state is:
- the target vertex data;
- the unique-vertex map and the unique-vertex list;
- the remap table (vertex index to target index, and whether the vertex is
  the original of its group);
- the registered index data.

It works in these steps:
1. `CalculateDuplicateVertices` reads one key per vertex and files it
   (`UniqueVertexKey`, `Deduplication`).
2. `RebuildVertexBuffers` compacts every vertex stream to the unique
   vertices (`Compaction`).
3. `RemapIndexes` rewrites the indices through the remap table.
4. `RemoveDegenerateFaces` drops triangles that lack three distinct
   positions or have no area (`Triangles`).
5. `GetAdjustedBoneAssignments` moves bone assignments to their new
   vertices (`BoneAssignments`, `BoneRemap`).

`ProcessMesh` runs the shared-geometry pass and then one pass per
submesh with its own vertex data. Its contract says what every submesh
and the mesh look like afterwards. The shared pass is modelled as
corrected: only submeshes that use the shared vertex data have their bone
assignments adjusted (see Findings).

**The older optimiser** (`src/OptimiseTool.cpp`, `include/OptimiseTool.h`)
is `LegacyOptimisation.LegacyOptimiser`. It has its own key
(`LegacyKey`), a map kept in comparator order (`LegacyDeduplication`) and
paired bone adjustment. Its defects are recorded under Findings below.

**The other tools**
- `MeshMerge` models the merge tool: adding meshes under one base
  skeleton, and baking them into one mesh. Baking is modelled as
  corrected: each clone keeps its submesh's operation type (see
  Findings).
- `Rename` models the rename tool's options on a mesh: skeleton and
  material renames.
- `Info` models the info tool's pure parts: the endian names, the
  vertex-layout string of a declaration, submesh labels and triangle
  counts.
- `SubMeshNames` holds the submesh name search that the merge and info
  tools share.

**Conventions of the model**
- Floating-point values are `real`.
- Vertex records are byte sequences. Reading an element's floats from a
  record is a parameter `decode`.
- The `std::map` lookup under the tolerance comparator is a parameter
  `find`. Its soundness is a predicate: any vertex it returns is an
  equivalent stored key. The older tool's map order is a second parameter,
  `place`: where a new key is inserted.
- A bone-assignment multimap is a sequence sorted by key. An insert goes
  after the existing entries with an equal key, as `std::multimap::insert`
  does.

## Model

| member | source | states |
|---|---|---|
| Vectors.Less3Trichotomy | src/MmOptimiseTool.cpp:785-796 | the position order is never true both ways, orders any two positions that are not tolerance-equal, and on tolerance-equal ones falls back to comparing x |
| Vectors.Less4Trichotomy | src/MmOptimiseTool.cpp:798-809 | the 4-vector order is asymmetric and total on vectors that are not "equal" |
| Vectors.Equals4AnyComponent | src/MmOptimiseTool.cpp:773-783 | 4-vector equality holds as soon as one component is within tolerance, while position equality needs all three |
| UniqueVertexKey.UvLessTrichotomy | src/MmOptimiseTool.cpp:833-840 | the UV-set comparison is asymmetric, and neither side is less exactly when every compared UV set is tolerance-equal |
| UniqueVertexKey.EquivalentIffAttributesEqual | src/MmOptimiseTool.cpp:811-846 | two keys are equivalent under the map comparator iff position, normal, tangent, binormal and the first uvSets UV sets are tolerance-equal; the order is asymmetric |
| UniqueVertexKey.KeyLessIrreflexive | src/MmOptimiseTool.cpp:811-846 | no key is less than itself; every key is equivalent to itself |
| UniqueVertexKey.EquivalenceNotTransitive | src/MmOptimiseTool.cpp:764-771 | tolerance equivalence is not transitive: positions 0, 1 and 2 with tolerance 1 |
| UniqueVertexKey.AbsentAttributeStaysZero | src/MmOptimiseTool.cpp:388-431 | an attribute the declaration lacks stays zero in every key |
| UniqueVertexKey.AbsentUvSetStaysZero | src/MmOptimiseTool.cpp:388-431 | a UV set no texture-coordinate element writes stays zero |
| UniqueVertexKey.BuildUniqueVertex | src/MmOptimiseTool.cpp:377-431 | the key read for vertex v is the declaration's elements, decoded from the record of v, absorbed in order; the UV set count is the number of texture-coordinate elements, at most 8 |
| BoneAssignments.Insert | src/MmOptimiseTool.cpp:293-296 | an insert adds exactly the new entry: one longer, same multiset plus the entry |
| BoneAssignments.InsertKeepsSorted | src/MmOptimiseTool.cpp:293-296 | inserting keeps the multimap sorted by key |
| BoneAssignments.InsertIsStable | src/MmOptimiseTool.cpp:293-296 | the new entry comes after every existing entry with the same key |
| BoneAssignments.InsertAfterAll | src/MmOptimiseTool.cpp:293-296 | an entry whose key is not below any stored key is appended |
| BoneAssignments.InsertAllIsStableSort | src/MmOptimiseTool.cpp:279-305 | filling an empty multimap is a stable sort: sorted, a permutation, and each key's entries keep their order |
| BoneAssignments.InsertAllSortedIsIdentity | src/MmOptimiseTool.cpp:279-305 | filling from already sorted entries gives them back unchanged |
| BoneAssignments.ReAddingKeyedListIsIdentity | src/MmOptimiseTool.cpp:200-203 | clearing a multimap keyed by vertex index and adding back its values rebuilds it exactly |
| BoneRemap.KeptRetargetedMembers | src/MmOptimiseTool.cpp:279-305 | the kept entries are exactly the assignments of original vertices, moved to their target index |
| BoneRemap.AdjustedKeepsExactlyOriginals | src/MmOptimiseTool.cpp:279-305 | the adjusted multimap is sorted, a permutation of the kept entries with per-key order kept, and holds exactly the original vertices' assignments, each re-keyed and re-indexed by its target |
| BoneRemap.AdjustedWithinRange | src/MmOptimiseTool.cpp:292-296 | with all targets below the unique count, every adjusted assignment is keyed by its own vertex index and that index is below the count |
| BoneRemap.AdjustedOfSortedInputKeepsOrder | src/MmOptimiseTool.cpp:279-305 | for sorted input and targets in source order, the result is the kept entries in input order |
| BoneRemap.AdjustedStaysBelow | src/MmOptimiseTool.cpp:279-305 | a remap that never raises an index keeps assignments below any bound they were below |
| BoneRemap.AdjustedIsKeyed | src/MmOptimiseTool.cpp:279-305 | the adjusted multimap is sorted and keyed by each assignment's vertex index |
| Triangles.KeepValidTrianglesSubset | src/MmOptimiseTool.cpp:672-727 | the kept indices are whole triangles, no more than before, and each is an index that was there |
| Triangles.KeepValidTrianglesShape | src/MmOptimiseTool.cpp:672-727 | as Subset, and every kept triangle is valid |
| Triangles.KeepValidTrianglesFull | src/MmOptimiseTool.cpp:732-757 | when nothing is dropped, the kept list is the input and every input triangle was valid |
| Triangles.KeepValidTrianglesAppend | src/MmOptimiseTool.cpp:672-727 | filtering distributes over concatenation of triangle lists |
| Triangles.KeepValidTrianglesOfValid | src/MmOptimiseTool.cpp:672-727 | a list of valid triangles is kept unchanged |
| Triangles.KeepValidTrianglesIdempotent | src/MmOptimiseTool.cpp:625-762 | removing degenerate triangles a second time changes nothing |
| Triangles.RepeatedIndexIsDegenerate | src/MmOptimiseTool.cpp:672-727 | a triangle naming one vertex twice is dropped |
| Triangles.KeepValidTrianglesSnoc | src/MmOptimiseTool.cpp:672-727 | one more triangle is appended to the kept list iff it is valid |
| Triangles.HasAreaMatchesSource | src/MmOptimiseTool.cpp:698-704 | for the length l of the cross product of two sides, the square-root-free area test holds iff half of l is not within 1e-4 of zero |
| Compaction.AllKeys | src/MmOptimiseTool.cpp:366-431 | one key per vertex, the key read from that vertex's records |
| Compaction.CompactStream | src/MmOptimiseTool.cpp:529-551 | the new stream's k-th record is the old record of the k-th unique vertex's source; the record size is kept |
| Compaction.CompactStreams | src/MmOptimiseTool.cpp:495-574 | every stream compacted that way, one new stream per old stream |
| Compaction.CompactKeepsStreamsValid | src/MmOptimiseTool.cpp:495-574 | the compacted streams are valid for the unique vertex count |
| Compaction.RemappedBuffer | src/MmOptimiseTool.cpp:587-623 | the same width and length; each index in use becomes its target, narrowed to the width; the rest are untouched |
| Compaction.CompactedKeysAreSourceKeys | src/MmOptimiseTool.cpp:529-551 | the key read from compacted vertex k is the key of its source vertex |
| Compaction.RemapPointsAtEquivalentVertex | src/MmOptimiseTool.cpp:445-551 | after compaction every vertex's target names a vertex whose key is its own (originals) or an equivalent one (duplicates) |
| Compaction.NarrowingIsHarmless | src/MmOptimiseTool.cpp:587-623 | with targets never above their source, narrowing loses nothing: the buffer stays valid and holds the exact targets |
| Deduplication.DedupWellFormed | src/MmOptimiseTool.cpp:445-474 | after all vertices, the map, unique list, remap table and counters satisfy the de-duplication invariant |
| Deduplication.StepPreserves | src/MmOptimiseTool.cpp:445-474 | filing one vertex, by a hit or a miss, preserves that invariant |
| Deduplication.DedupRemapTotal | src/MmOptimiseTool.cpp:445-474 | every vertex gets a target below the unique count and not above its own index; the map and the list have equal length |
| Deduplication.DedupSourcesWithin | src/MmOptimiseTool.cpp:460-472 | every unique vertex's source is a vertex of the buffer |
| Deduplication.DedupFirstOccurrence | src/MmOptimiseTool.cpp:460-472 | unique vertex k has new index k and its source's key; it is the original of its group; sources rise strictly |
| Deduplication.DedupTargetsRepresent | src/MmOptimiseTool.cpp:445-474 | an original's target is itself; a duplicate's target is an earlier vertex with an equivalent key |
| Deduplication.DedupConservation | src/MmOptimiseTool.cpp:445-474 | originals number the unique vertices; uniques plus duplicates make all vertices; the duplicates flag is set iff some vertex merged |
| Deduplication.DedupOriginalsMonotone | src/MmOptimiseTool.cpp:460-472 | originals get increasing targets in vertex order |
| Deduplication.FirstEquivalent | src/MmOptimiseTool.cpp:445-447 | a reference lookup: the first stored key equivalent to the query, or none when there is none |
| Deduplication.FirstEquivalentSound | src/MmOptimiseTool.cpp:445-447 | the reference lookup is a sound `find` |
| Deduplication.FourVertexScenario | src/MmOptimiseTool.cpp:357-493 | keys a, b, a, d give targets 0, 1, 0 (duplicate), 2, three unique vertices, and the duplicates flag |
| LegacyKey.LegacyUvLessTrichotomy | src/OptimiseTool.cpp:599-605 | the older UV comparison is asymmetric, and neither side is less iff the compared UV sets are equal |
| LegacyKey.LegacyEquivalentIffAttributesEqual | src/OptimiseTool.cpp:580-611 | the older comparator's equivalence is exactly equality of position, normal, tangent and the UV sets; the order is asymmetric |
| LegacyKey.LegacyLessIrreflexive | src/OptimiseTool.cpp:580-611 | no key is less than itself |
| LegacyKey.LegacyAbsentStaysZero | src/OptimiseTool.cpp:312-356 | a missing normal, tangent or position stays zero |
| LegacyKey.LegacyAbsentUvSetStaysZero | src/OptimiseTool.cpp:312-356 | a UV set no element writes stays zero |
| LegacyKey.AbsentAttributesCompareEqual | src/OptimiseTool.cpp:580-611 | without normals and tangents, two keys are equivalent iff positions and UV sets are |
| LegacyKey.BuildLegacyVertex | src/OptimiseTool.cpp:312-356 | the older key of vertex v is its declaration's decoded elements absorbed in order |
| LegacyDeduplication.LegacyWellFormedUpTo | src/OptimiseTool.cpp:367-386 | the older map and remap satisfy their invariant after any number of vertices |
| LegacyDeduplication.LegacyRemapTotal | src/OptimiseTool.cpp:367-386 | every vertex gets an entry not above its index; the map holds each stored key under its source; the flag is set iff some vertex merged |
| LegacyDeduplication.LegacyTargets | src/OptimiseTool.cpp:367-386 | a stored vertex's entry is below the map size; a merged vertex's entry is the source index of an earlier equivalent vertex |
| LegacyDeduplication.LegacyMissStoresSource | src/OptimiseTool.cpp:378-386 | a miss adds exactly one entry (key and source) and records the old map size |
| LegacyDeduplication.OrderedPlacement | src/OptimiseTool.cpp:378-386 | the comparator-order insertion point: after every key not greater, before the first greater one |
| LegacyDeduplication.HitTargetLeavesRange | src/OptimiseTool.cpp:371-386 | for keys A, A, B, B the remap is 0, 0, 1, 2: the last entry names past the two rebuilt vertices |
| LegacyDeduplication.RebuildOrderDisagrees | src/OptimiseTool.cpp:444-468 | for keys B, A the rebuilt position of vertex 0 holds vertex 1, whose key is not equivalent |
| LegacyOptimisation.LegacyRemappedBuffer | src/OptimiseTool.cpp:500-535 | each index in use becomes its remap entry, narrowed to the width; the rest are untouched |
| LegacyOptimisation.LegacyRemapStaysBelow | src/OptimiseTool.cpp:500-535 | with entries never above their index, the rewritten buffer stays valid and its indices stay below the vertex count |
| LegacyOptimisation.StaleVertexCount | src/OptimiseTool.cpp:409-487 | a compacted stream that is shorter than the unchanged vertex count is not valid for it |
| LegacyOptimisation.PairedEntriesHalve | src/OptimiseTool.cpp:239-254 | pairing yields one entry per two assignments |
| LegacyOptimisation.PairingLosesAssignments | src/OptimiseTool.cpp:243-250 | two assignments come out as one, keyed by the first vertex but holding the second |
| LegacyOptimisation.LegacyOptimiser.constructor | src/OptimiseTool.cpp:36-38 | an empty working state with the given tolerance |
| LegacyOptimisation.LegacyOptimiser.SetTargetVertexData | src/OptimiseTool.cpp:261-267 | a new target and an emptied map, remap and index data list |
| LegacyOptimisation.LegacyOptimiser.AddIndexData | src/OptimiseTool.cpp:269-272 | appends the index data and changes nothing else |
| LegacyOptimisation.LegacyOptimiser.CalculateDuplicateVertices | src/OptimiseTool.cpp:295-407 | the map, remap and flag are the older de-duplication of the target's keys; comparator set at the first vertex |
| LegacyOptimisation.LegacyOptimiser.FileVertex | src/OptimiseTool.cpp:367-386 | one vertex filed as the older step says |
| LegacyOptimisation.LegacyOptimiser.RebuildVertexBuffers | src/OptimiseTool.cpp:409-487 | the streams are compacted in map order; the vertex count is left as it was |
| LegacyOptimisation.LegacyOptimiser.RemapBuffer | src/OptimiseTool.cpp:500-535 | the locked buffer rewritten as LegacyRemappedBuffer says |
| LegacyOptimisation.LegacyOptimiser.RemapIndexes | src/OptimiseTool.cpp:500-535 | an index data's buffer rewritten through the remap; the count kept |
| LegacyOptimisation.LegacyOptimiser.RemapIndexDataList | src/OptimiseTool.cpp:489-498 | every registered index data rewritten |
| LegacyOptimisation.LegacyOptimiser.OptimiseGeometry | src/OptimiseTool.cpp:274-293 | the result is the duplicates flag; on duplicates, the streams are compacted in map order to fewer records than the kept vertex count and all indices rewritten; otherwise nothing changes |
| LegacyOptimisation.LegacyOptimiser.GetAdjustedBoneAssignments | src/OptimiseTool.cpp:239-254 | the result is the paired entries filed into a new multimap: half as many as the input |
| Optimisation.TriangleSpan | src/MmOptimiseTool.cpp:672-676 | the indices read by a loop stepping by three while below the count: a multiple of 3, at least the count and less than 3 more |
| Optimisation.AfterRemovalSound | src/MmOptimiseTool.cpp:640-762 | removing degenerate triangles from a list in use leaves a list in use whose triangles are all valid |
| Optimisation.RemappedInUse | src/MmOptimiseTool.cpp:587-623 | rewriting through a shrinking remap leaves indices below the new vertex count |
| Optimisation.SharedPassBonesAsWritten | src/MmOptimiseTool.cpp:207-218 | every submesh's assignments adjusted by the shared remap, each result sorted and keyed |
| Optimisation.SharedPassDropsDedicatedBone | src/MmOptimiseTool.cpp:207-218 | a dedicated submesh's assignment of its own vertex 1 is lost when shared vertex 1 merged into 0 |
| Optimisation.RefileAssignments | src/MmOptimiseTool.cpp:200-203 | clear and re-add: the values filed again, each under its own vertex index |
| Optimisation.RemappedLodsInUse | src/MmOptimiseTool.cpp:267-277 | LOD lists in use stay in use under a shrinking remap |
| Optimisation.RegisteredReady | src/MmOptimiseTool.cpp:186-193 | the shared pass registers distinct index data, each ready for the shared vertex count |
| Optimisation.UntouchedByShared | src/MmOptimiseTool.cpp:186-193 | no dedicated submesh's index data is registered by the shared pass |
| Optimisation.AppendSurvivor | src/MmOptimiseTool.cpp:540-551 | each new stream grows by the next survivor's record |
| Optimisation.OptimisedVertices | src/MmOptimiseTool.cpp:331-350 | the vertex half of optimiseGeometry: the vertices are left alone or shrink along a remap whose targets never exceed their source; the streams stay valid for the new count and are unchanged when nothing changed |
| Optimisation.OptimisedVerticesChangedIffShrunk | src/MmOptimiseTool.cpp:331-350 | the vertices changed iff their count dropped; a change needs registered index data; with index data there is one remap entry per vertex |
| Optimisation.OptimisedVerticesRepresent | src/MmOptimiseTool.cpp:445-551 | after a change, each old vertex's target in the new streams has its key (kept vertex) or an equivalent key (merged vertex) |
| Optimisation.RemapStep | src/MmOptimiseTool.cpp:576-623 | a buffer in use stays in use for the new count with its count kept, whether or not it was remapped |
| Optimisation.DegenerateStep | src/MmOptimiseTool.cpp:625-762 | a triangle list ends in use with only valid triangles and no more indices; other lists are untouched |
| Optimisation.OptimisedIndex | src/MmOptimiseTool.cpp:331-355 | a registered buffer after optimiseGeometry: in use for the new count, clean if a triangle list, never longer, and the same length if not a triangle list |
| Optimisation.OptimisedIndexIdempotent | src/MmOptimiseTool.cpp:331-355 | a second pass that changes no vertex leaves a buffer the first pass produced exactly as it was |
| Optimisation.PassedParts | src/MmOptimiseTool.cpp:181-255 | a submesh after its pass: index data done, LOD lists in use and bones below the new count; LOD lists and bones untouched when the vertices did not change |
| Optimisation.PassedGeometry | src/MmOptimiseTool.cpp:230-255 | a dedicated submesh after its pass: done for its new vertex count, which never grows |
| Optimisation.PassesApart | src/MmOptimiseTool.cpp:181-255 | with distinct objects, the shared pass and the dedicated passes touch disjoint submeshes, index data and vertex data |
| Optimisation.UsersOptimisedFromRegistered | src/MmOptimiseTool.cpp:186-195 | what optimiseGeometry did to each registered index data holds for each user of the shared vertex data |
| Optimisation.UsersPassedFromSteps | src/MmOptimiseTool.cpp:195-225 | optimised index data plus fixed (or, with no change, untouched) LOD lists and bones make every shared user as PassedParts says |
| Optimisation.Optimiser.constructor | src/MmOptimiseTool.cpp:46-48 | an empty working state with the given tolerances |
| Optimisation.Optimiser.SetTargetVertexData | src/MmOptimiseTool.cpp:317-324 | a new target; map, list, index data and remap emptied |
| Optimisation.Optimiser.AddIndexData | src/MmOptimiseTool.cpp:326-329 | appends the index data with its operation type, nothing else changes |
| Optimisation.Optimiser.CalculateDuplicateVertices | src/MmOptimiseTool.cpp:357-493 | nothing happens without index data; otherwise the list, remap and flag grow by the de-duplication of the target's keys under the declaration's comparator |
| Optimisation.Optimiser.ScanVertices | src/MmOptimiseTool.cpp:366-474 | the vertex loop computes the de-duplication of all keys, with the comparator fixed at the first vertex |
| Optimisation.Optimiser.ScanRest | src/MmOptimiseTool.cpp:366-474 | the vertices after the first, filed in order, finish that de-duplication |
| Optimisation.Optimiser.FileVertex | src/MmOptimiseTool.cpp:445-474 | one vertex filed as the de-duplication step says |
| Optimisation.Optimiser.RebuildVertexBuffers | src/MmOptimiseTool.cpp:495-574 | every stream compacted to the unique vertices, and the vertex count becomes their number |
| Optimisation.Optimiser.RemapBuffer | src/MmOptimiseTool.cpp:587-623 | the locked buffer rewritten as RemappedBuffer says |
| Optimisation.Optimiser.RemapIndexes | src/MmOptimiseTool.cpp:587-623 | an index data's buffer rewritten through the remap; the count kept |
| Optimisation.Optimiser.RemapIndexDataList | src/MmOptimiseTool.cpp:576-585 | every registered index data rewritten through the remap |
| Optimisation.Optimiser.FixLOD | src/MmOptimiseTool.cpp:267-277 | every LOD face list rewritten through the remap, counts kept |
| Optimisation.Optimiser.CheckTriangle | src/MmOptimiseTool.cpp:691-704 | for the length l of the cross product of two sides: valid iff the three indices differ, no two positions are tolerance-equal, and half of l is not within 1e-4 of zero; this is ValidTriangle |
| Optimisation.Optimiser.CollectValidTriangles | src/MmOptimiseTool.cpp:672-727 | the collected indices are exactly the valid triangles of the span read, in order |
| Optimisation.Optimiser.RemoveDegenerateFacesOf | src/MmOptimiseTool.cpp:640-762 | the buffer and count become AfterDegenerateRemoval: unchanged when nothing is dropped, else the kept indices or no buffer |
| Optimisation.Optimiser.RemoveDegenerateFaces | src/MmOptimiseTool.cpp:625-638 | triangle lists are filtered that way; other primitive types are untouched |
| Optimisation.Optimiser.DeduplicateAndRemap | src/MmOptimiseTool.cpp:331-350 | the flag, remap, streams and count are OptimisedVertices of the old streams; each registered buffer is the RemapStep of its old state |
| Optimisation.Optimiser.OptimiseGeometry | src/MmOptimiseTool.cpp:331-355 | the flag, remap, streams and count are OptimisedVertices of the old streams; each registered index data is OptimisedIndex of its old state against the new positions |
| Optimisation.Optimiser.GetAdjustedBoneAssignments | src/MmOptimiseTool.cpp:279-305 | the result is AdjustedAssignments: the original vertices' assignments, moved to their targets |
| Optimisation.Optimiser.ReplaceBones | src/MmOptimiseTool.cpp:197-204 | adjust, clear and re-add gives the adjusted multimap |
| Optimisation.Optimiser.FinishSubMesh | src/MmOptimiseTool.cpp:242-252 | bones adjusted when skeletal, LOD lists remapped and in use for the new count |
| Optimisation.Optimiser.RegisterSharedIndexData | src/MmOptimiseTool.cpp:186-193 | registers the shared users' index data in submesh order |
| Optimisation.Optimiser.TargetShared | src/MmOptimiseTool.cpp:181-193 | the shared vertex data is the target, with the shared users registered |
| Optimisation.Optimiser.FixSubMeshes | src/MmOptimiseTool.cpp:207-222 | as corrected: every shared user gets adjusted bones (when skeletal) and remapped LOD lists; the as-written loop also adjusts dedicated submeshes (see Findings) |
| Optimisation.Optimiser.OptimiseShared | src/MmOptimiseTool.cpp:181-195 | the shared streams and count are OptimisedVertices of the old ones, registered iff some submesh uses them; each shared user's index data is OptimisedIndex of its old state |
| Optimisation.Optimiser.FixShared | src/MmOptimiseTool.cpp:195-225 | as corrected: the mesh's bones adjusted when skeletal, otherwise kept; then every shared user fixed |
| Optimisation.Optimiser.FinishShared | src/MmOptimiseTool.cpp:195-225 | as corrected: the mesh's bones adjusted iff skeletal and changed; every shared user ends as PassedParts says |
| Optimisation.Optimiser.ProcessShared | src/MmOptimiseTool.cpp:181-227 | as corrected: the flag is true iff the shared vertex count dropped; the shared data is OptimisedVertices of the old; mesh bones adjusted iff skeletal and changed; every shared user as PassedParts says |
| Optimisation.Optimiser.ProcessDedicated | src/MmOptimiseTool.cpp:232-254 | one submesh with its own vertex data ends as PassedGeometry of its old geometry; the flag is that outcome's change flag |
| Optimisation.Optimiser.ProcessDedicatedSubMeshes | src/MmOptimiseTool.cpp:230-255 | every dedicated submesh ends as PassedGeometry of its state before the loop |
| Optimisation.Optimiser.SharedBeforeDedicated | src/MmOptimiseTool.cpp:181-227 | as corrected: the shared pass ends as SharedPassed says and leaves every dedicated submesh as it was |
| Optimisation.Optimiser.DedicatedAfterShared | src/MmOptimiseTool.cpp:230-255 | the dedicated loop ends every dedicated submesh as PassedGeometry says and keeps what the shared pass left |
| Optimisation.Optimiser.DedicatedStep | src/MmOptimiseTool.cpp:232-254 | submesh i passes and every other dedicated submesh keeps its state |
| Optimisation.Optimiser.ProcessMesh | src/MmOptimiseTool.cpp:177-256 | as corrected: the shared data and its users end as SharedPassed says (mesh bones kept when there is no shared data); every dedicated submesh ends as PassedGeometry of its old geometry; the skeleton name is kept |
| SubMeshNames.NameBoundTo | src/InfoTool.cpp:143-149 | none iff no name is bound to the index; otherwise the first bound name |
| SubMeshNames.NameBoundToFirst | src/MeshMergeTool.cpp:124-135 | the first entry bound to the index is the one found |
| MeshMerge.ResolveSkeleton | src/MeshMergeTool.cpp:88-92 | a mesh without a skeleton name keeps its own skeleton |
| MeshMerge.AddStep | src/MeshMergeTool.cpp:86-122 | skip when the mesh has no skeleton but a base exists; fail when a skinned mesh follows plain ones; add exactly when the skeletons agree; the base is set only by the first mesh; consistency kept |
| MeshMerge.AddAllKeepsConsistent | src/MeshMergeTool.cpp:64-79 | adding any input list keeps the merge state consistent |
| MeshMerge.AddAllAbortIsFinal | src/MeshMergeTool.cpp:64-79 | once adding fails, the whole merge fails and later inputs do not change the state reached |
| MeshMerge.Reached | src/MeshMergeTool.cpp:64-79 | the state the input loop leaves: that of AddAll when every input was added |
| MeshMerge.MixedInputsAbort | src/MeshMergeTool.cpp:100-104 | plain then skinned fails; skinned then plain keeps only the skinned mesh |
| MeshMerge.NameOrBlank | src/MeshMergeTool.cpp:124-135 | a non-empty result is a name bound to the submesh index |
| MeshMerge.MergeBoxContainsBoth | src/MeshMergeTool.cpp:219-221 | a merged box contains both boxes; it is null iff both are |
| MeshMerge.BakedSubMeshesLayout | src/MeshMergeTool.cpp:156-194 | the baked submeshes are laid out mesh by mesh: each input submesh lands at its mesh's offset plus its index |
| MeshMerge.BakedSubMeshAt | src/MeshMergeTool.cpp:156-194 | input submesh sid of mesh i is baked at offset(i) + sid |
| MeshMerge.FirstSharedIsFirst | src/MeshMergeTool.cpp:197-214 | the shared vertex data taken is the first mesh's that has any; none iff no mesh has any |
| MeshMerge.NoSkeletonNoBones | src/MeshMergeTool.cpp:179-188 | without a base skeleton no bone assignments are copied |
| MeshMerge.SubMeshBonesCopied | src/MeshMergeTool.cpp:179-188 | with a skeleton, a keyed and sorted submesh's assignments are copied unchanged |
| MeshMerge.BakeSubMeshAsWritten | src/MeshMergeTool.cpp:156-194 | as written: the clone is always a triangle list, whatever the source submesh drew |
| MeshMerge.BakeLosesOperationType | src/MeshMergeTool.cpp:156-194 | as written: a submesh drawn as anything but a triangle list does not draw the same once baked |
| MeshMerge.BakeSubMesh | src/MeshMergeTool.cpp:156-194 | as corrected: the clone draws what the source submesh drew (primitives, indices, own vertices, material) and carries its bound name |
| MeshMerge.BakedDrawAsSources | src/MeshMergeTool.cpp:156-194 | as corrected: every source submesh is baked, at its place in mesh-then-submesh order, into one that draws what it drew |
| MeshMerge.TotalBoundsContainEach | src/MeshMergeTool.cpp:219-221 | the total bounds contain every mesh's bounds |
| MeshMerge.MeshMergeTool.constructor | src/MeshMergeTool.cpp:35-39 | no base skeleton and no meshes |
| MeshMerge.MeshMergeTool.AddMesh | src/MeshMergeTool.cpp:86-122 | the state moves as AddStep says; on the mixed-skeleton error it is unchanged |
| MeshMerge.MeshMergeTool.FindSubmeshName | src/MeshMergeTool.cpp:124-135 | the loop returns NameOrBlank |
| MeshMerge.MeshMergeTool.Bake | src/MeshMergeTool.cpp:137-232 | the baked mesh is BakedFrom of the accepted meshes and the base skeleton |
| MeshMerge.MeshMergeTool.BakeMeshSubMeshes | src/MeshMergeTool.cpp:156-194 | one mesh's submeshes baked in order |
| MeshMerge.MeshMergeTool.DoInvoke | src/MeshMergeTool.cpp:47-83 | the output-count and no-input errors change nothing; otherwise the state becomes Reached of all inputs, and the merge either fails or writes BakedFrom of that state |
| MeshMerge.MeshMergeTool.AddInputs | src/MeshMergeTool.cpp:64-79 | the state becomes Reached of all inputs, and the flag is true iff AddAll succeeds (no addMesh threw) |
| MeshMerge.MeshMergeTool.CopyBoneAssignments | src/MeshMergeTool.cpp:181-186 | the values are added to the target multimap under their own vertex indices |
| Rename.Split | src/RenameTool.cpp:189-199 | the first component, and the second, or the first again when there is only one |
| Rename.SplitIgnoresRest | src/RenameTool.cpp:198 | components after the second are ignored |
| Rename.RenameMaterial | src/RenameTool.cpp:174-180 | a material changes only when it equals the old name, and then to the new one |
| Rename.SkeletonAfterUnchanged | src/RenameTool.cpp:154-157 | without a skeleton option the skeleton name is kept |
| Rename.SkeletonAfterIsLast | src/RenameTool.cpp:154-157 | the last skeleton option wins |
| Rename.OtherOptionsKeepMaterial | src/RenameTool.cpp:151-183 | options other than material leave materials unchanged |
| Rename.OneComponentIsNoOp | src/RenameTool.cpp:193-196 | a material option with one component renames nothing |
| Rename.RenamesChain | src/RenameTool.cpp:151-183 | later options see earlier renames, so option order matters |
| Rename.RenameSubMeshMaterials | src/RenameTool.cpp:168-182 | every submesh's material renamed as RenameMaterial says; bones and LOD lists kept |
| Rename.ApplyMeshOptions | src/RenameTool.cpp:151-183 | the skeleton name and every material end as the option folds say; bones and LOD lists kept |
| Info.EndianModeAsString | src/InfoTool.cpp:272-290 | "Unknown Endian" exactly for an unlisted mode |
| Info.EndianNamesDistinct | src/InfoTool.cpp:272-290 | the listed modes have distinct names |
| Info.Put | src/InfoTool.cpp:326-332 | a map write keeps the map sorted and replaces the entry at the same position |
| Info.ElementMapHoldsLastWrites | src/InfoTool.cpp:326-332 | the element map is sorted by (source, offset) and holds, for each position, the last element written there |
| Info.SortedSlotsDetermined | src/InfoTool.cpp:326-337 | a sorted map is determined by its entries |
| Info.DeclarationOrderIrrelevant | src/InfoTool.cpp:321-332 | with distinct positions, the element order of the declaration does not change the map |
| Info.SemanticLetter | src/InfoTool.cpp:348-377 | each semantic is one letter, never a hyphen |
| Info.TypeTag | src/InfoTool.cpp:379-414 | a four-character parenthesised tag, empty exactly for an unlisted type, never holding a hyphen |
| Info.HyphensMarkSourceChanges | src/InfoTool.cpp:341-345 | the layout holds one hyphen per change of buffer source, and no other |
| Info.LayoutKeepsFirst | src/InfoTool.cpp:335-415 | the first character of the layout stays once written |
| Info.LeadingHyphen | src/InfoTool.cpp:341-345 | the layout starts with a hyphen iff the first element's source is not 0 |
| Info.ReportVertexDeclaration | src/InfoTool.cpp:312-419 | the layout of the declaration's element map |
| Info.BuildElementMap | src/InfoTool.cpp:326-332 | the loop builds ElementMapOf |
| Info.WriteLayout | src/InfoTool.cpp:335-415 | the loop writes the layout of every map entry |
| Info.SubMeshLabel | src/InfoTool.cpp:143-151 | "unnamed" without a bound name, otherwise a name bound to the index |
| Info.ReportedTriangles | src/InfoTool.cpp:215-216 | the buffer's index count divided by three, rounded down |

## Left out

- I/O: mesh and skeleton files, serializers, the option parser, printing and warnings are not modelled. The `doInvoke` and `processMeshFile` drivers of the optimise, rename and info tools are not modelled either.
- Hardware buffers: locking, allocation and raw pointer arithmetic are not modelled. Index and vertex buffers are sequences.
- Floating point: values are reals, and reading floats from a vertex record is the `decode` parameter.
- Map lookup: `std::map::find` and `operator[]` under the tolerance comparator are the `find` parameter, of which only soundness is assumed. The older tool's tree order is the `place` parameter. The comparator is not a strict weak ordering (`UniqueVertexKey.EquivalenceNotTransitive`), so which equivalent key the tree finds is left open.
- Edge lists: the rebuild after optimising (src/MmOptimiseTool.cpp:257-262) and the merge tool's `buildEdgeList` are not modelled.
- Skeletons: `processSkeleton` (animation track optimisation) and the rename tool's skeleton-file processing (bone and animation renames) are not modelled.
- Optimisation.IndexReady: requires the index count of a triangle list to be a multiple of 3. The source reads whole triangles past a ragged count but sizes its new buffer by the count; that case is not modelled.
- Optimisation.MeshDistinct: requires submeshes, index data and dedicated vertex data to be distinct objects. Shared objects would make the source remap one buffer twice; that aliasing is not modelled.
- LOD face lists: held as values (`seq<IndexState>`) on each submesh, not as shared index data objects.
- LegacyKey.LegacyExtractKey: the older tool writes 4-component texture coordinates into a 3-vector. Only the first three components are modelled.
- LegacyOptimisation.LegacyOptimiser.GetAdjustedBoneAssignments: requires an even number of assignments. With an odd count the source's second `getNext` reads past the end.
- The older tool's `processMesh` and `fixLOD` (src/OptimiseTool.cpp:138-237) are not modelled. Its shared branch (src/OptimiseTool.cpp:156-181) differs from the newer driver: it adjusts only the mesh's bone assignments, through the paired legacy adjustment (`LegacyOptimisation.LegacyOptimiser.GetAdjustedBoneAssignments`), and it removes no degenerate triangles. Its building blocks (de-duplication, remap, rebuild and bone adjustment) are modelled.
- Merge inputs: meshes are values (`SourceMesh`), and the baked mesh is returned as a value. Skeleton loading is the `registry` parameter.
- Merge name map: the baked mesh's submesh name map is not modelled.
- Rename splitting: Ogre's `StringUtil::split` is the `splitter` parameter.
- Info tool: the reports of bounds, animations, poses, bone assignments and vertex data sizes are printed output and are not modelled.

## Findings

| source | as written | input that shows it | evidently intended | confidence | as-written member | corrected member |
|---|---|---|---|---|---|---|
| src/MmOptimiseTool.cpp:207-218 | after the shared vertices change, every submesh's bone assignments go through the shared remap, including submeshes with their own vertex data | a dedicated submesh with an assignment to its own vertex 1, while shared vertex 1 merged into shared vertex 0: the assignment is dropped | only submeshes that use the shared vertex data are adjusted | not executed | Optimisation.SharedPassDropsDedicatedBone | Optimisation.Optimiser.FixSubMeshes |
| src/OptimiseTool.cpp:371-386 | on a hit, the remap stores the found vertex's source index rather than its position in the rebuilt buffer | keys A, A, B, B: remap 0, 0, 1, 2 with only two rebuilt vertices | store the new index of the found vertex | not executed | LegacyDeduplication.HitTargetLeavesRange | Deduplication.DedupRemapTotal |
| src/OptimiseTool.cpp:444-468 | the vertex buffers are rebuilt in the map's comparator order, while the remap numbers vertices in insertion order | keys B, A with A less than B: vertex 0 is remapped to slot 0, which holds vertex 1's record | rebuild in insertion order, so each target holds an equivalent vertex | not executed | LegacyDeduplication.RebuildOrderDisagrees | Compaction.RemapPointsAtEquivalentVertex |
| src/OptimiseTool.cpp:409-487 | the vertex count is left unchanged after the buffers shrink | any buffer with a duplicate vertex: fewer records than the count | set the count to the number of unique vertices | not executed | LegacyOptimisation.StaleVertexCount | Optimisation.Optimiser.RebuildVertexBuffers |
| src/OptimiseTool.cpp:243-250 | the loop reads two assignments per turn, keying the entry by the first and storing the second | assignments to vertices 0 and 1: one entry keyed 0 holding vertex 1's assignment | one entry per assignment, keyed by its own remapped vertex | not executed | LegacyOptimisation.PairingLosesAssignments | Optimisation.Optimiser.GetAdjustedBoneAssignments |
| src/MeshMergeTool.cpp:156-194 | the baked submesh never receives the source submesh's operation type (the only copy of it, at line 237, sits in a commented-out block after the function), so it keeps the default triangle list | a source submesh drawn as a triangle strip: its clone draws the same indices as a triangle list | copy the operation type with the rest of the submesh | not executed | MeshMerge.BakeLosesOperationType | MeshMerge.BakeSubMesh |
