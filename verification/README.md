# Bismuth renderer core in Dafny

This project models the core of Bismuth, a replacement renderer for Geometry Dash levels. It covers two parts.

The first part is the load-time batching pipeline:
- level objects are filtered and bucketed into (z-layer, blending, sheet) layers by the `ObjectSorter`;
- each object's sprite tree is unpacked in draw order by the `ObjectSpriteUnpacker`;
- every sprite becomes vertices and indices in an `ObjectBatch`, as a fallback quad or as the fan triangulation of a convex mesh (`Line`, `ConvexPolygon`, `ConvexList`, the sprite-mesh dictionary);
- the iterator's objects are grouped into batch nodes;
- each object gets a static record with its flags, packed HSV words and group-combination index.

The second part is the per-frame group bookkeeping of the `GroupManager`:
- every distinct, sorted combination of an object's group ids gets a dense index;
- a reverse index lists the combinations of each group;
- move, rotate, toggle, opacity and reset act on one state per combination;
- the game-layer hooks drive it (`processMoveActions`, `processRotationActions`, `processFollowActions`, `removeDecoObjects`).

The renderer also maintains the colour-blending bitmap and runs the in-view test.

Floats are real numbers. Host-engine queries are function parameters: z-orders, batch nodes, `shouldBlend`, `opacityModForGroup`, texture sizes, the trigonometry of a rotation, the clockwise edge normal, the float-to-`u32` cast. Pointers become values or indices into a world sequence. Every mutating member function of the source is a pure function or a method returning the new state.

One module per source component:

| file | module | models |
|---|---|---|
| wrappers.dfy | Wrappers | `Option` |
| sorting.dfy | Sorting | `std::sort` as an insertion sort by key |
| words.dfy | Words | 32-bit unsigned words, bit by bit |
| geometry.dfy | Geometry | src/math/Line.hpp, src/math/Line.cpp |
| convex_polygon.dfy | ConvexPolygons | src/math/ConvexPolygon.hpp, src/math/ConvexPolygon.cpp |
| convex_list.dfy | ConvexLists | src/math/ConvexList.hpp, src/math/ConvexList.cpp |
| mesh_dictionary.dfy | SpriteMeshes | src/renderer/SpriteMeshDictionary.cpp |
| group_combination.dfy | GroupCombinations | `GroupCombination` |
| group_manager.dfy | GroupManagers | `GroupManager` |
| object_sorter.dfy | ObjectSorters | src/renderer/ObjectSorter.cpp |
| sprite_unpacker.dfy | SpriteUnpackers | src/renderer/ObjectSpriteUnpacker.cpp |
| object_batch.dfy | ObjectBatches | src/renderer/ObjectBatch.cpp |
| renderer.dfy | Renderers | object filter, batch-node grouping, blend bitmap |
| shader_hsv.dfy | ShaderHsv | `convertToShaderHSV` |
| static_buffer.dfy | StaticBuffers | `generateStaticRenderingBuffer`, `isObjectInView` |
| game_layer.dfy | GameLayers | src/decomp/GJBaseGameLayer.cpp and the hooks in src/renderer/hooks.cpp |

## Model

| member | source | states |
|---|---|---|
| Geometry.PseudoAngle | src/math/Line.hpp:10-13 | a direction pointing left maps into (1, 3), any other into [3, 5] |
| Geometry.LineFromDistance | src/math/Line.hpp:24-25 | the line keeps the given distance and normal, and rebuilding it through any of its points with that normal gives the same line |
| Geometry.LineThroughIsFromDistance | src/math/Line.hpp:24-31 | the line through a point is the line at that point's projection on the normal, so both constructors describe one line |
| Geometry.LineThrough | src/math/Line.hpp:27-31 | the line built from a point and a normal passes through that point |
| Geometry.IsPointBehind | src/math/Line.hpp:33-37 | a point is behind exactly when it is not in front, i.e. its projection is at most the distance |
| Geometry.DefiningPointsOnLine | src/math/Line.hpp:41-43 | with a unit normal, `firstPoint` and `secondPoint` both lie on the line and are distinct |
| Geometry.SameNormalReflexiveSymmetric | src/math/Line.hpp:45-47 | `sameNormalAs` is reflexive and symmetric |
| Geometry.Solve | src/math/Line.cpp:13-21 | Cramer's rule gives no solution exactly when the determinant is zero |
| Geometry.SolveSatisfiesBoth | src/math/Line.cpp:4-19 | a solution satisfies both line equations |
| Geometry.UniqueSolution | src/math/Line.cpp:13-19 | with a non-zero determinant the two equations have at most one common solution |
| Geometry.DoIntersectSymmetric | src/math/Line.cpp:4-22 | `doIntersect` gives the same answer when the two lines are swapped |
| Geometry.IntersectionSolvesBoth | src/math/Line.cpp:24-30 | an intersection exists exactly when the normals are not parallel, and it lies on both lines |
| Geometry.IntersectionSymmetric | src/math/Line.cpp:24-30 | `a.intersectionWith(b) == b.intersectionWith(a)` |
| Geometry.ParallelLinesDoNotIntersect | src/math/Line.cpp:13-21 | lines whose normals are parallel never intersect |
| ConvexPolygons.NextIndex | src/math/ConvexPolygon.hpp:32-36 | the next index stays in range and is 0 exactly after the last line |
| ConvexPolygons.PrevIndex | src/math/ConvexPolygon.hpp:38-42 | the previous index stays in range, is the last line exactly before 0, and `nextIndex` undoes it |
| ConvexPolygons.PrevOfNext | src/math/ConvexPolygon.hpp:32-42 | `prevIndex` undoes `nextIndex` |
| ConvexPolygons.SeparatedIsSorted | src/math/ConvexPolygon.hpp:49 | lines pairwise EPSILON apart in pseudo-angle are in the sorted order the header requires |
| ConvexPolygons.ContainsPoint | src/math/ConvexPolygon.cpp:7-13 | a point is contained exactly when it is behind every line |
| ConvexPolygons.ScanFrom | src/math/ConvexPolygon.cpp:31-39 | the scan stops at the first line with the same normal, or else reports the first line with a larger angle |
| ConvexPolygons.IsWholePolygonBehindLine | src/math/ConvexPolygon.cpp:24-64 | an empty polygon is never behind; `indexOut` is left unwritten exactly on an empty polygon or a same-normal match; a written index keeps sorted lines sorted after insertion; on a same-normal match the answer is whether the new line is farther out |
| ConvexPolygons.SameNormalBehindCoversPolygon | src/math/ConvexPolygon.hpp:22-26 | on a match with exactly the same normal, a "behind" answer means every point of the polygon is behind the new line |
| ConvexPolygons.CornerBehindCoversWedge | src/math/ConvexPolygon.cpp:47-63 | when the new normal is a non-negative combination of the neighbours' normals and their corner is behind the new line, every point behind both neighbours is behind it too |
| ConvexPolygons.MergeFrom | src/math/ConvexPolygon.cpp:67-83 | the merge loop never adds lines, keeps a sub-multiset of them and never empties a polygon |
| ConvexPolygons.MergeFromKeepsNearer | src/math/ConvexPolygon.cpp:67-83 | the merge loop never moves the boundary outward: every line has a kept line whose distance is at most its own |
| ConvexPolygons.MergeFromSeparates | src/math/ConvexPolygon.cpp:67-83 | from sorted lines the merge loop leaves every pair of lines EPSILON apart |
| ConvexPolygons.MergeStepShrinks | src/math/ConvexPolygon.cpp:76-80 | a merged same-normal pair leaves one line in the first line's place, one of the two and no farther out than either, so the smaller distance wins; every other line stays |
| ConvexPolygons.MergeKeepsApartLines | src/math/ConvexPolygon.cpp:67-83 | lines with no adjacent same-normal pair pass the merge loop unchanged |
| ConvexPolygons.PruneFrom | src/math/ConvexPolygon.cpp:85-105 | pruning never adds lines, keeps a sub-multiset, never goes below two lines, leaves two or fewer lines alone, and keeps lines separated |
| ConvexPolygons.NotRedundantWhenPrevOpposes | src/math/ConvexPolygon.cpp:98-101 | a line that faces away from its predecessor is never pruned |
| ConvexPolygons.PruneKeepsOpposedLines | src/math/ConvexPolygon.cpp:85-105 | lines that each face away from their predecessor pass the pruning loop unchanged |
| ConvexPolygons.RemoveExcessLines | src/math/ConvexPolygon.cpp:66-106 | `removeExcessLines` never increases the line count, keeps a sub-multiset, never empties a polygon, and turns sorted lines into lines pairwise EPSILON apart |
| ConvexPolygons.EraseKeepsSeparated | src/math/ConvexPolygon.cpp:102 | erasing a line keeps the remaining lines separated |
| ConvexPolygons.AddLineContents | src/math/ConvexPolygon.cpp:15-22 | adding to an empty polygon gives exactly that line; a same-normal line farther out is rejected and the polygon is unchanged; the result holds only old lines and the new one |
| ConvexPolygons.LargestAngleAppends | src/math/ConvexPolygon.cpp:37-45 | for a line whose angle exceeds every existing angle, the answer is "not behind", `indexOut` is the end, and the line is appended before excess lines are removed |
| ConvexPolygons.AddLineAgreesWithoutSameNormal | src/math/ConvexPolygon.cpp:15-22 | without a same-normal line the as-written and the corrected `addLine` agree |
| ConvexPolygons.AddLineFixed | src/math/ConvexPolygon.cpp:15-22 | the corrected `addLine` behaves as the written one on empty polygons and rejected lines, and keeps a separated polygon separated |
| ConvexPolygons.AddLinesFixed | src/math/ConvexPolygon.cpp:15-22 | adding lines one by one with the corrected `addLine` keeps a separated polygon separated |
| ConvexPolygons.AddLineKeepsApart | src/math/ConvexPolygon.cpp:15-45 | a first line sharing no normal with the polygon is added alike by both versions, and the remaining lines still share no normal with the result |
| ConvexPolygons.AddLinesAgree | src/math/ConvexPolygon.cpp:15-45 | when no two added lines share a normal and none shares one with the polygon, the written and the corrected `addLine` build the same polygon |
| ConvexPolygons.Triangulate | src/math/ConvexPolygon.cpp:108-134 | two or fewer lines give no triangle; at most n-2 triangles; exactly n-2 when every ring point P_k = lines[k] ∩ lines[k+1 mod n] exists, and fewer only when P_0, P_1 or the next ring point is missing; triangle j is (P_(j+2), P_0, P_(j+1)) |
| ConvexPolygons.FanCoversRing | src/math/ConvexPolygon.cpp:121-133 | the fan loop covers the whole ring exactly when every ring point exists; when it stops early, the ring point after its last triangle is missing |
| ConvexLists.AddPolygon | src/math/ConvexList.hpp:7-9 | `addPolygon` appends and leaves the earlier polygons in place |
| ConvexLists.TriangulateAll | src/math/ConvexList.cpp:3-6 | an empty list emits no triangle |
| ConvexLists.TriangulateAllSplits | src/math/ConvexList.cpp:3-6 | triangulating two runs of polygons concatenates their triangles in order |
| ConvexLists.TriangulateAfterAdd | src/math/ConvexList.cpp:3-6 | after `addPolygon` the list emits its old triangles followed by those of the new polygon |
| ConvexLists.TriangleCountIsSum | src/math/ConvexList.cpp:4-5 | the triangle count is the sum of the per-polygon counts |
| SpriteMeshes.ParsePoints | src/renderer/SpriteMeshDictionary.cpp:110-129 | the points parse exactly when each is an array of two numbers, and then each point's coordinates are those numbers |
| SpriteMeshes.ParseConvexPolygon | src/renderer/SpriteMeshDictionary.cpp:103-145 | parsing succeeds exactly for an array of two-number arrays, and the result is the polygon of those points built with `addLine` as written |
| SpriteMeshes.ParsedPolygonSeparated | src/renderer/SpriteMeshDictionary.cpp:103-145 | a parsed polygon whose edges share no normal keeps the line-order invariant |
| SpriteMeshes.ParseConvexPolygonFixed | src/renderer/SpriteMeshDictionary.cpp:103-145 | with the corrected `addLine` the same values parse, every result keeps the line-order invariant, and it equals the written result when no two edges share a normal |
| SpriteMeshes.PolygonOfPointsIsFold | src/renderer/SpriteMeshDictionary.cpp:131-142 | the polygon of n points is `addLine` applied to the edge lines (p_i, p_(i+1 mod n)), one per edge, in edge order |
| SpriteMeshes.SquareEdgesShareNormal | src/renderer/SpriteMeshDictionary.cpp:133-142 | the square (1,0), (2,0), (2,2), (0,2), (0,0) has two edges with one normal, whatever the edge normal function |
| SpriteMeshes.PolygonOfPointsAgrees | src/renderer/SpriteMeshDictionary.cpp:131-142 | when no two edges share a normal, the parsed polygon is the one the corrected `addLine` builds, and keeps the line-order invariant |
| SpriteMeshes.PolygonOfPointsFixed | src/renderer/SpriteMeshDictionary.cpp:131-142 | the polygon built with the corrected `addLine` always keeps the line-order invariant |
| SpriteMeshes.AddEdgesIsFold | src/renderer/SpriteMeshDictionary.cpp:133-142 | the loop from edge i on makes exactly the `addLine` calls of the edge lines from i on, in order |
| SpriteMeshes.EdgeLines | src/renderer/SpriteMeshDictionary.cpp:133-140 | one line per point; line i passes through p_i with the normal of the edge to p_(i+1 mod n) |
| SpriteMeshes.ParsePolygonsInto | src/renderer/SpriteMeshDictionary.cpp:91-97 | the loop succeeds exactly when every polygon parses, keeps the earlier polygons and appends the parsed ones in order |
| SpriteMeshes.ParseConvexList | src/renderer/SpriteMeshDictionary.cpp:86-100 | parsing fails unless the value is an array of parsable polygons; otherwise the list holds the parsed polygons in order, and each polygon whose edges share no normal keeps the line-order invariant |
| SpriteMeshes.ParsedSeparated | src/renderer/SpriteMeshDictionary.cpp:86-100 | a parsed list holds exactly the parsed polygons, and each one whose edges share no normal keeps the line-order invariant |
| SpriteMeshes.InitWithSpriteFrame | src/renderer/SpriteMeshDictionary.cpp:16-22 | the sprite's frame is recorded exactly when host initialisation succeeds |
| SpriteMeshes.DestroySprite | src/renderer/SpriteMeshDictionary.cpp:24-26 | the destructor forgets the sprite and nothing else |
| SpriteMeshes.DestroyedSpriteHasNoMesh | src/renderer/SpriteMeshDictionary.cpp:16-41 | a destroyed sprite has no mesh |
| SpriteMeshes.GetSpriteMeshForSprite | src/renderer/SpriteMeshDictionary.cpp:31-41 | no mesh exactly when the sprite has no recorded frame or the frame has no mesh; otherwise the frame's mesh |
| SpriteMeshes.ApplyWrites | src/renderer/SpriteMeshDictionary.cpp:71-81 | the skipped entries write nothing, and a frame ends with its last write |
| SpriteMeshes.LoadFromFile | src/renderer/SpriteMeshDictionary.cpp:47-82 | a repeated path changes nothing; a new path clears the meshes; a frame then has a mesh exactly when some entry with a known frame parses |
| SpriteMeshes.LoadTwiceIsLoadOnce | src/renderer/SpriteMeshDictionary.cpp:48-50 | loading the same path twice in a row is loading it once |
| SpriteMeshes.StoredMeshesSeparated | src/renderer/SpriteMeshDictionary.cpp:71-81 | when no stored polygon has two edges with one normal, every stored mesh is made of polygons that keep the line-order invariant |
| GroupCombinations.MakeCombination | src/renderer/GroupManager.cpp:6-16 | the used ids are the first `count` inputs, ascending, with duplicates kept; the rest are zero |
| GroupCombinations.Span | src/renderer/GroupManager.hpp:52-54 | the span is exactly the first `count` ids |
| GroupCombinations.PermutedGroupsSameCombination | src/renderer/GroupManager.cpp:6-16 | two group lists that are permutations of each other give the same combination |
| GroupCombinations.LessByCount | src/renderer/GroupManager.hpp:42-43 | a smaller count orders first |
| GroupCombinations.LessIrreflexive | src/renderer/GroupManager.hpp:41-50 | no combination is less than itself |
| GroupCombinations.LessIncomparableIffSameSpan | src/renderer/GroupManager.hpp:41-50 | two combinations are unordered both ways exactly when they have the same count and the same used ids |
| GroupCombinations.LessNotAsymmetric | src/renderer/GroupManager.hpp:45-49 | [1, 5] < [2, 3] and [2, 3] < [1, 5] both hold |
| GroupCombinations.LessFixedStrictOrder | src/renderer/GroupManager.hpp:41-50 | the corrected comparison is irreflexive, asymmetric and transitive, and unordered exactly on equal spans |
| GroupCombinations.LessFixedInternsByValue | src/renderer/GroupManager.hpp:41-50 | under the corrected comparison, constructed combinations are equivalent exactly when equal |
| GroupManagers.Init | src/renderer/GroupManager.hpp:101-115 | a fresh manager satisfies the invariant with no combination |
| GroupManagers.AddIdsListed | src/renderer/GroupManager.cpp:126-138 | each occurrence of an id in the combination lists the index once more under it |
| GroupManagers.AddIdsUses | src/renderer/GroupManager.cpp:126-137 | afterwards an id is used, and has a list, exactly when it was before or occurs in the combination |
| GroupManagers.AddIdsBoundsMax | src/renderer/GroupManager.cpp:129-130 | `maxGroupId` bounds every id of the combination and never decreases |
| GroupManagers.AddGroupCombination | src/renderer/GroupManager.cpp:122-123 | the combination is mapped to the index; the count and the disabled set are untouched |
| GroupManagers.AddGroupCombinationListed | src/renderer/GroupManager.cpp:122-138 | each id lists the index once per occurrence, and no other list changes |
| GroupManagers.AddGroupCombinationUses | src/renderer/GroupManager.cpp:122-138 | every id of the combination becomes used, bounded by `maxGroupId` and lists the index; nothing else becomes used |
| GroupManagers.IndexForObject | src/renderer/GroupManager.cpp:27-39 | looked up by value: a known combination returns its index and changes nothing; an unseen one gets the previous count, the count grows by one, and its ids become used and list it |
| GroupManagers.IndexForObjectKeepsValid | src/renderer/GroupManager.cpp:27-39 | interning keeps the invariant: indices dense from 0 and injective, lists below the count, used ids bounded, lists matching the spans |
| GroupManagers.IndicesStayDense | src/renderer/GroupManager.cpp:34-37 | registering an unseen combination under the count keeps the indices dense and distinct |
| GroupManagers.PermutedObjectsShareIndex | src/renderer/GroupManager.cpp:27-32 | with lookups by value, objects whose group lists are permutations of each other get the same index, and the second registers nothing |
| GroupManagers.MoveGroup | src/renderer/GroupManager.cpp:41-49 | an unknown group changes nothing; otherwise every state moves by (dx, dy) once per listing and nothing else changes |
| GroupManagers.MoveGroupBySpan | src/renderer/GroupManager.cpp:41-49 | under the invariant a combination moves once per occurrence of the group among its ids |
| GroupManagers.RotateListed | src/renderer/GroupManager.cpp:69-79 | the written loop rotates the first listed combination and, without a centre point, returns there |
| GroupManagers.RotateStopsAtFirst | src/renderer/GroupManager.cpp:69-74 | with no centre point and two listed combinations, the second is not rotated |
| GroupManagers.RotateListedFixed | src/renderer/GroupManager.cpp:69-79 | the corrected loop rotates every listed combination once per listing, about the centre when there is one |
| GroupManagers.RotateGroup | src/renderer/GroupManager.cpp:51-80 | an unknown group changes nothing; a known one runs the written loop over the combinations listed for it |
| GroupManagers.ToggleGroup | src/renderer/GroupManager.cpp:82-87 | showing removes the group from the disabled set, hiding inserts it, and no other group or field changes |
| GroupManagers.ToggleIdempotent | src/renderer/GroupManager.cpp:82-87 | toggling twice the same way is toggling once |
| GroupManagers.FoldClosed | src/renderer/GroupManager.cpp:100-106 | the factors of a combination give 0 once a group is disabled, and otherwise the product of the modifiers |
| GroupManagers.FoldWithPermutation | src/renderer/GroupManager.cpp:95-107 | the combined factor depends only on the multiset of groups |
| GroupManagers.ProductPermutation | src/renderer/GroupManager.cpp:106 | the product of modifiers depends only on the multiset of groups |
| GroupManagers.UpdateOpacities | src/renderer/GroupManager.cpp:89-109 | only opacities change, only below the count, and each becomes the fold of its group memberships from 1 |
| GroupManagers.MembershipsCount | src/renderer/GroupManager.cpp:95-107 | each group occurs among the memberships of a combination as often as the combination is listed under it |
| GroupManagers.OpacityOfCombination | src/renderer/GroupManager.cpp:89-109 | a combination's opacity is 0 if one of its groups is disabled, else the product of its groups' modifiers, once per occurrence; 1 without groups |
| GroupManagers.ResetGroupStates | src/renderer/GroupManager.cpp:111-120 | both transforms become identity and the offset zero for every combination; opacities stay; the disabled set empties |
| GroupManagers.ResetForgetsMove | src/renderer/GroupManager.cpp:41-49 | resetting after `moveGroup` is resetting |
| ObjectSorters.SlotAtEnumerates | src/renderer/ObjectSorter.cpp:18-23 | the scan visits tier by tier, sheet by sheet, non-blended first |
| ObjectSorters.TryAddLayer | src/renderer/ObjectSorter.cpp:53-66 | one empty layer for the slot exactly when the host node exists and is a batch node; none otherwise |
| ObjectSorters.AddedLayersExactly | src/renderer/ObjectSorter.cpp:18-23 | a layer is pushed exactly for the slots with a batch node |
| ObjectSorters.InitForGameLayer | src/renderer/ObjectSorter.cpp:15-32 | the layers are a permutation of those pushed by the scan, sorted by node z-order |
| ObjectSorters.InitForGameLayerLayers | src/renderer/ObjectSorter.cpp:15-32 | afterwards the layers are exactly those of the slots with a batch node |
| ObjectSorters.InitForGameLayerOrder | src/renderer/ObjectSorter.cpp:25-31 | the layers start empty and run in non-decreasing node z-order |
| ObjectSorters.NormalizeZLayer | src/renderer/ObjectSorter.cpp:69-74 | an even tier moves one down, never below B5; an odd tier is unchanged |
| ObjectSorters.NormalizeZLayerIdempotent | src/renderer/ObjectSorter.cpp:69-74 | normalising twice is normalising once |
| ObjectSorters.GetLayer | src/renderer/ObjectSorter.cpp:68-83 | the first layer matching the normalised tier, blending and sheet, or none exactly when no layer matches |
| ObjectSorters.AddGameObject | src/renderer/ObjectSorter.cpp:34-39 | the object is appended to the found layer only; with no layer nothing changes |
| ObjectSorters.AddGameObjectCollects | src/renderer/ObjectSorter.cpp:34-39 | the held objects grow by the object exactly when a layer matches |
| ObjectSorters.FinalizeSorting | src/renderer/ObjectSorter.cpp:41-51 | each layer keeps its keys and its objects as a permutation, sorted by object z-order |
| ObjectSorters.FinalizedLayerOrder | src/renderer/ObjectSorter.cpp:43-49 | within a layer a lower z-order never comes after a higher one |
| ObjectSorters.SkipEmpty | src/renderer/ObjectSorter.cpp:88-89 | the skip loop stops at the first non-empty layer at or after its start |
| ObjectSorters.Start | src/renderer/ObjectSorter.cpp:85-90 | the iterator starts at the first non-empty layer and is at its end exactly when every layer is empty |
| ObjectSorters.Next | src/renderer/ObjectSorter.cpp:92-100 | `next` moves to the following object of the layer, or to object 0 of a later layer |
| ObjectSorters.IteratorVisitsAll | src/renderer/ObjectSorter.cpp:85-100 | the walk yields every (layer, object) pair once, in layer then object order, in as many steps as there are objects |
| ObjectSorters.PairPosition | src/renderer/ObjectSorter.cpp:92-100 | object k of layer i is visited after all the objects of the earlier layers and the first k of its own |
| SpriteUnpackers.ConcatApplies | src/renderer/ObjectSpriteUnpacker.cpp:32 | the concatenated transform applies the node's own transform, then the accumulated one |
| SpriteUnpackers.ComposeApplies | src/renderer/ObjectSpriteUnpacker.cpp:32 | the chain of a node applies every factor, innermost first |
| SpriteUnpackers.TypeOf | src/renderer/ObjectSpriteUnpacker.cpp:34-35 | GLOW for the glow sprite, DETAIL for the colour sprite, and the parent's type otherwise |
| SpriteUnpackers.Unpack | src/renderer/ObjectSpriteUnpacker.cpp:26-51 | every sprite emitted is a drawn node of the tree, and its chain starts with its own transform and ends with the chain passed in |
| SpriteUnpackers.UnpackCount | src/renderer/ObjectSpriteUnpacker.cpp:39-50 | a pass emits exactly one sprite per drawn node |
| SpriteUnpackers.UnpackComplete | src/renderer/ObjectSpriteUnpacker.cpp:39-50 | every drawn node, including those under dont-draw nodes, is emitted |
| SpriteUnpackers.UnpackZOrderSplit | src/renderer/ObjectSpriteUnpacker.cpp:39-50 | the nodes under negative-z children come first, then the node if drawn, then the nodes under the other children |
| SpriteUnpackers.UnpackInheritsType | src/renderer/ObjectSpriteUnpacker.cpp:34-35 | below an unmarked root every node gets the root's type |
| SpriteUnpackers.UnpackObject | src/renderer/ObjectSpriteUnpacker.cpp:6-24 | the sprites emitted are those of the glow pass, the colour pass (only when it is due) and the object's own pass; none is tagged BLACK |
| SpriteUnpackers.UnpackObjectOrder | src/renderer/ObjectSpriteUnpacker.cpp:9-23 | the glow tree's nodes come first, then the colour tree's if it is behind, the object's own, then the colour tree's if in front; the colour pass happens only when the colour sprite exists and is not a child of the object |
| SpriteUnpackers.GlowPassIsGlow | src/renderer/ObjectSpriteUnpacker.cpp:35 | the glow pass tags its whole tree GLOW |
| SpriteUnpackers.SheetOf | src/renderer/ObjectSpriteUnpacker.hpp:46-48 | GLOW sprites use the glow sheet; all others use the parent mode |
| SpriteUnpackers.GlowPassUsesGlowSheet | src/renderer/ObjectSpriteUnpacker.hpp:46-48 | every sprite of the glow pass resolves to the glow sheet |
| ObjectBatches.SpriteVertexTransform | src/renderer/ObjectBatch.cpp:29-80 | all zero without a texture; otherwise a horizontal flip negates the right vector and moves the corner by it, a vertical flip negates the up vector and moves the corner by it |
| ObjectBatches.FlippedSpriteSameCorners | src/renderer/ObjectBatch.cpp:57-64 | a flipped sprite covers the same four corners as the unflipped one |
| ObjectBatches.ChannelOf | src/renderer/ObjectBatch.cpp:92-100 | detail or main channel by type; BLACK when black; LBG for an LBG glow; the detail bit exactly for DETAIL |
| ObjectBatches.LbgOverridesBlack | src/renderer/ObjectBatch.cpp:94-98 | for a glow sprite the LBG channel wins over black |
| ObjectBatches.Prepare | src/renderer/ObjectBatch.cpp:82-109 | a filtered sprite changes nothing; otherwise the current vertex index becomes the vertex count and the start position is recorded |
| ObjectBatches.VertexOffsetFromStart | src/renderer/ObjectBatch.cpp:118-120 | a vertex offset plus the start position is right·x + up·y + bottomLeft |
| ObjectBatches.WriteQuad | src/renderer/ObjectBatch.cpp:160-171 | four vertices at the quad corners and the indices base + [0, 2, 3, 0, 3, 1] |
| ObjectBatches.WriteTrianglesAppends | src/renderer/ObjectBatch.cpp:137-145 | three vertices per triangle in corner order and the consecutive indices from the running counter |
| ObjectBatches.WriteMesh | src/renderer/ObjectBatch.cpp:135-146 | a mesh with t triangles appends 3t vertices and indices base + 0 .. base + 3t - 1 |
| ObjectBatches.SpriteMeshCounts | src/renderer/ObjectBatch.cpp:156-172 | a sprite without a mesh gets 4 vertices and 6 indices; one with a mesh gets 3 of each per triangle |
| ObjectBatches.SpriteMeshIndicesInRange | src/renderer/ObjectBatch.cpp:108-172 | every index written for a sprite lies within the vertices written for it |
| ObjectBatches.Receive | src/renderer/ObjectBatch.cpp:148-173 | the written receive appends the sprite's mesh, or its quad, after the prepare step, even when the filter made that step do nothing, and leaves the prepared sprite state current |
| ObjectBatches.FilteredSpriteRedrawsPrevious | src/renderer/ObjectBatch.cpp:89-90 | a filtered sprite after an accepted quad sprite writes four vertices and six indices that draw the previous quad again |
| ObjectBatches.ReceiveFixed | src/renderer/ObjectBatch.cpp:148-173 | the corrected receive writes nothing for a filtered sprite, and only indices into its own vertices otherwise |
| ObjectBatches.ExtendsKeepsValid | src/renderer/ObjectBatch.cpp:131-133 | appending indices into appended vertices keeps every index of the batch in range |
| ObjectBatches.ReceiveKeepsValid | src/renderer/ObjectBatch.cpp:82-173 | the written receive only appends, and keeps every index below the vertex count and the current vertex index at most the vertex count |
| ObjectBatches.WriteSprites | src/renderer/ObjectBatch.cpp:175-188 | writing an object's sprites as written only appends, and keeps every index below the vertex count |
| ObjectBatches.WriteSpritesFixed | src/renderer/ObjectBatch.cpp:175-188 | with the corrected receive the loop only appends, keeps every index in range, and writes nothing when every sprite is filtered |
| ObjectBatches.UnfilteredWritesAgree | src/renderer/ObjectBatch.cpp:82-188 | without a sheet filter the written and the corrected loops write the same batch |
| ObjectBatches.FinishWriting | src/renderer/ObjectBatch.cpp:226-241 | the recorded counts are the staged sizes, and both staging vectors are empty |
| ObjectBatches.Draw | src/renderer/ObjectBatch.cpp:276-277 | the count of whole quads in the recorded index count |
| ObjectBatches.DrawCountsQuads | src/renderer/ObjectBatch.cpp:276-277 | a batch of n quads reports n quads drawn |
| Renderers.FeedSorter | src/renderer/Renderer.cpp:61-86 | the layer keys stay; the held objects grow by exactly the filtered objects that find a layer |
| Renderers.FilteredObjectsNeverSorted | src/renderer/Renderer.cpp:61-68 | no anti-cheat spike, trigger or hidden object reaches the sorter |
| Renderers.RenderedGameObjectCount | src/renderer/Renderer.cpp:91-93 | the count equals the number of objects held by the layers |
| Renderers.GroupStepStartsNodeOnKeyChange | src/renderer/Renderer.cpp:181-191 | with a node current, a node is added exactly when the (z-layer, sheet) pair changes; blending plays no part |
| Renderers.FailedCreationRetries | src/renderer/Renderer.cpp:182-193 | after a failed creation nothing is added and the next object tries again |
| Renderers.GroupEntriesPartitions | src/renderer/Renderer.cpp:179-195 | the nodes hold every object in iterator order, one node per run of equal (z-layer, sheet) pairs |
| Renderers.SetBit | src/renderer/Renderer.cpp:289-292 | bit b becomes the wanted value and every other bit of the word keeps its value |
| Renderers.BitIndexInjective | src/renderer/Renderer.cpp:290-292 | two channels of one word have different bits |
| Renderers.ApplyActionsBits | src/renderer/Renderer.cpp:268-293 | a channel with an action ends blending exactly when it should, and null entries and other channels leave bits alone |
| Renderers.PrepareDynamicRenderingBuffer | src/renderer/Renderer.cpp:268-295 | BLACK ends as (0, 0, 0, 255); each other channel takes the colour of its last action, or keeps its old colour |
| Renderers.SpecialChannelsAlwaysBlend | src/renderer/Renderer.cpp:280-287 | P1, P2 and LBG blend whenever they have an action |
| ShaderHsv.PackedSaturationFlag | src/renderer/Renderer.cpp:317 | the saturation flag is set exactly for absolute saturation |
| ShaderHsv.PackedBrightnessFlag | src/renderer/Renderer.cpp:318 | the brightness flag is set exactly for absolute brightness |
| ShaderHsv.PackedFields | src/renderer/Renderer.cpp:313-315 | masking the word with a field's region leaves exactly that field's value |
| ShaderHsv.ShaderHsvRoundTrip | src/renderer/Renderer.cpp:308-320 | the three integers read back under their masks, and both flags read back |
| StaticBuffers.StaticInfoOf | src/renderer/Renderer.cpp:332-370 | opacity is `opacityMod2` when positive and 1 otherwise; the rotation speed, audio-scale bounds, start position, index and fade margin come from the object |
| StaticBuffers.StaticFlags | src/renderer/Renderer.cpp:338-369 | each flag is set exactly when the object has the property; custom audio scale and orb come only with uses-audio-scale |
| StaticBuffers.BaseHsvReadsBack | src/renderer/Renderer.cpp:352-355 | the shader reads the base colour's absolute flags back from the record |
| StaticBuffers.GenerateStaticRenderingBuffer | src/renderer/Renderer.cpp:322-379 | one record per iterator step, indices 0..n-1 in iterator order, with per-index arrays matching the records |
| StaticBuffers.IsObjectInView | src/renderer/Renderer.cpp:551-557 | in view exactly when the squared distance to the camera centre is at most 350² |
| StaticBuffers.InViewAtRest | src/renderer/Renderer.cpp:551-557 | at rest an object is in view exactly when its start position is within 350 of the camera centre |
| StaticBuffers.InViewTranslation | src/renderer/Renderer.cpp:555 | moving the offset and the camera together does not change the answer |
| StaticBuffers.InViewOfRecorded | src/renderer/Renderer.cpp:372-374 | the view test of record k uses that record's combination and start position |
| GameLayers.MoveObject | src/decomp/GJBaseGameLayer.cpp:11-27 | the snapshot is taken once per tick and only for non-decoration objects; x moves only when non-zero and not offset-locked, y only when non-zero |
| GameLayers.MoveTwiceSameTick | src/decomp/GJBaseGameLayer.cpp:13-19 | a second move in the same tick keeps the first snapshot |
| GameLayers.MoveEachClosedForm | src/decomp/GJBaseGameLayer.cpp:10-28 | each object moves once per time the array lists it; others are untouched |
| GameLayers.MoveObjects | src/decomp/GJBaseGameLayer.cpp:5-31 | a null array moves nothing; otherwise each object moves once per listing |
| GameLayers.SkippedNodesHaveNoEffect | src/decomp/GJBaseGameLayer.cpp:35-37 | the pass over all nodes is the pass over the unskipped ones |
| GameLayers.ProcessMoveActions | src/decomp/GJBaseGameLayer.cpp:33-48 | each unskipped node moves its static group by one move and its optimized group by the other, so every object ends moved by its static and optimized moves, once per listing, over the unskipped nodes |
| GameLayers.MoveAllPosition | src/decomp/GJBaseGameLayer.cpp:5-31 | moving a possibly null array moves each object by its effective move once per listing and keeps its flags |
| GameLayers.ProcessMovesClosedForm | src/decomp/GJBaseGameLayer.cpp:33-48 | after the pass each object has moved by the sum, over the unskipped nodes, of the static move per static listing and the optimized move per optimized listing |
| GameLayers.PassMoveUnskipped | src/decomp/GJBaseGameLayer.cpp:36-37 | skipped nodes add nothing to any object's move |
| GameLayers.MoveGroupsOffset | src/renderer/hooks.cpp:79-85 | a combination's offset moves by each node's static move, once per occurrence of the node's group; nothing else changes |
| GameLayers.RendererProcessMoveActions | src/renderer/hooks.cpp:71-95 | the objects move as in the game's pass, and the combination offsets move with them |
| GameLayers.RemoveDecoObjects | src/renderer/hooks.cpp:49-57 | on a group array of indices into the world, exactly the entries naming decorations are removed, runs included, and the rest keep their order and counts |
| GameLayers.CommandRotation | src/renderer/hooks.cpp:106-134 | no rotation for a done command or a zero non-finishing one; otherwise the delta times one plus the live linked entries |
| GameLayers.IdleCommandKeepsState | src/renderer/hooks.cpp:106-122 | a done or idle command leaves the states unchanged |
| GameLayers.FollowMove | src/renderer/hooks.cpp:163-167 | no move unless the followed object was stamped this tick |
| GameLayers.FollowAfterMoves | src/renderer/hooks.cpp:163-167 | an object moved k times this tick is followed by its k moves, scaled by the follow mods |
| GameLayers.ProcessFollowsOffset | src/renderer/hooks.cpp:154-170 | a combination's offset moves by its total follow move; nothing else changes |
| Sorting.SortBy | src/renderer/ObjectSorter.cpp:43-49 | the result is a permutation of the input, sorted by key |
| Sorting.AscendingUnique | src/renderer/GroupManager.cpp:15 | two ascending sequences with the same elements are equal, so sorted ids are canonical |

## Left out

- Floating point: `float` and `double` are real numbers throughout, so rounding, NaN and the `double` intermediates of `doIntersect` are not modelled.
- `glm::normalize` and `getClockwise` are not modelled. A line carries the normal it is given, and mesh parsing takes the edge normal as a parameter.
- Geometry.IntersectionSolvesBoth: the solved point satisfies each line equation scaled by the squared length of its normal. This is the line equation itself only for the unit normals the renderer builds.
- The trigonometry of `rotateGroup` and the 2x2 and 4x4 matrix products are not modelled. A transform is the sequence of angles multiplied into it, and `rotate` is a parameter. `lockObjectRotation` is not read by the source either.
- GameLayers.ProcessRotations: only the state count is stated. The rotation passed on is stated by GameLayers.CommandRotation, and the no-op case by IdleCommandKeepsState.
- The null dereference of `staticGroup->count()` in `processRotationActions` is not modelled. The static group's size is a total function `staticCount`.
- Host queries are parameters or inputs:
  - `parentForZLayer`, `getZOrder`, `m_batchNodes` (a `Host` record);
  - `shouldBlend`, `opacityModForGroup`;
  - `tryGetMainObject`, `getStaticGroup`, `getOptimizedGroup`;
  - `CCSpriteFrameCache` name lookup;
  - texture sizes and the content-scale factor (`texScale`);
  - `ObjectBatchNode::create` success (`canCreate`).
- Geode enum values are used for the ZLayer values (B5 = -5 … T4 = 11); only the order and parity matter. The colour-channel ids (P1 1005, P2 1006, LBG 1007, BLACK 1010) are also Geode values. None of these are defined in the source files.
- The HSV masks, shifts and flag bits are a `HsvLayout` parameter: `HSV_*` are not defined in the source shown. The float-to-`u32` casts are a `toU32` parameter. The object flags are a set of enum values rather than bits of a word.
- 32-bit words are sequences of 32 booleans. The blend bitmap's word index `c >> 5` and bit `c & 0x1f` are written as `c / 32` and `c % 32` on non-negative ids.
- `std::sort` is an insertion sort. Contracts promise only what `std::sort` does: a permutation sorted by the key. The order of equal keys is left open.
- Pointers and aliasing: game objects are values, the arrays of `moveObjects` are indices into a world sequence, and sprites and frames are identifiers.
- GL and I/O are not modelled: buffers, VAOs, shaders, `glDrawElements`, `readResourceFile`, `matjson::parse` (a document is an `Option<Json>` input whose object entries come in key order), logging and debug text.
- Game calls with no effect on the modelled state are not modelled:
  - `dirtifyObjectRect`, `dirtifyObjectPos`, `updateObjectSection`;
  - `processMoveCalculations`;
  - the tail calls to the game's own `processRotationActions` and `processFollowActions`.
- The scale swap of `writeGameObject` is not modelled as a step. For an audio-scale object the source sets the node's scale to `m_scaleX` and `m_scaleY` around `unpackObject` and restores it afterwards, and the object's own pass concatenates the node's transform into every sprite. The model takes the root sprite's `local` transform as the transform at the swapped scale, so every vertex it writes assumes the swap has been done.
- `updateDisabledObjectsLastPos` is not modelled. Its body is not part of this model, and whatever it does to objects' last positions is left out: `lastPosition` changes only through the modelled moves.
- Integer widths: `GroupID` is a 16-bit signed integer in the source, and the hooks narrow `int` object tags into it. The model's `GroupId` is an unbounded integer, so ids above 32767 do not wrap. The `(u8)` cast of a colour action sprite's opacity is not modelled either: the alpha byte is an input of the colour action.
- The rest of `Renderer::init` is not modelled: sheet loading, shader macros, buffer sizes and debug labels. Only the filter, the count and the call order of the pipeline are.
- Texture coordinates of a vertex are computed but not stated. Only the position offset is.
- ConvexPolygons.MergeFrom: the rule that a merged pair keeps its nearer line is stated per step (MergeStepShrinks). Over the whole loop the model states only that every line has a kept line no farther out (MergeFromKeepsNearer). It does not say which line that is, because a chain of merges can replace a line by a successor whose normal differs from it by more than EPSILON.
- ConvexPolygons.IsWholePolygonBehindLine: the header's promise, that "behind" means no point of the polygon is in front of the line, is proved for a match with exactly the same normal (SameNormalBehindCoversPolygon). The corner case is proved only for a normal inside the neighbours' cone (CornerBehindCoversWedge). The step from pseudo-angle order to that cone, and a match within EPSILON but not exact, are not proved.
- SpriteMeshes.ParseConvexList, SpriteMeshes.ParsedSeparated, SpriteMeshes.StoredMeshesSeparated: the line-order invariant is promised only for polygons with no two edges of one normal. Other polygons go through `addLine` as written, which can break the order (see Findings).
- GroupManagers.IndexForObject: the combination map is looked up by value, the order the corrected comparison gives. Under the written `operator<` a `std::map` can miss a stored key. Example: [2, 3] then [1, 5] then [1, 5] again; the source may return a fresh index 2 for the third, the model returns 1.
- GroupManagers.PermutedObjectsShareIndex: holds for lookups by value; under the written `operator<` the second object may get a fresh index, as in the example above.
- `GroupCombination::operator std::string`, the keyboard and display-link hooks, and `optimizeMoveGroups` beyond its call to `removeDecoObjects` are debug or host plumbing.

## Findings

| source | as written | input that shows it | evidently intended | confidence | as-written member | corrected member |
|---|---|---|---|---|---|---|
| src/math/ConvexPolygon.cpp:15-22, 34-35 | `isWholePolygonBehindLine` returns on a same-normal line without writing `indexOut`, so `addLine` inserts a tighter same-normal line at position 0 | the axis square (angles 2, 3, 4, 5 by pseudo-angle) plus a tighter right edge (angle 4): the new line goes first, ahead of smaller angles, and `removeExcessLines` keeps it there; the sprite-mesh parser meets this case on the square (1,0), (2,0), (2,2), (0,2), (0,0), whose first and last edges share a normal | the tighter line replaces the same-normal line in place, keeping the lines sorted by angle | not executed | ConvexPolygons.AddLineLosesOrder, SpriteMeshes.SquareEdgesShareNormal | ConvexPolygons.AddLineFixed, SpriteMeshes.ParseConvexPolygonFixed |
| src/renderer/GroupManager.hpp:45-49 | `operator<` returns true at any position where `ids[i] < o.ids[i]`, not only at the last difference | [1, 5] < [2, 3] and [2, 3] < [1, 5] both hold, so it is not a strict weak ordering for `std::map`; interning [2, 3], [1, 5], [1, 5] may give the third a fresh index 2, which the model, looking up by value, does not | decide at the last position where the ids differ | not executed | GroupCombinations.LessNotAsymmetric | GroupCombinations.LessFixedStrictOrder |
| src/renderer/GroupManager.cpp:69-74 | without a centre point the loop returns after the first listed combination | a group listed for two combinations, rotated without a centre: the second is not rotated | every listed combination's local transform is rotated | not executed | GroupManagers.RotateStopsAtFirst | GroupManagers.RotateListedFixed |
| src/renderer/ObjectBatch.cpp:89-90, 154-172 | the sheet filter returns from `prepareSpriteMeshWrite` only, and `receiveUnpackedSprite` still writes the sprite with the previous sprite's state | an accepted quad sprite followed by a filtered quad sprite: four more vertices and six indices that redraw the first quad | a filtered sprite writes nothing | not executed | ObjectBatches.FilteredSpriteRedrawsPrevious, ObjectBatches.WriteSprites | ObjectBatches.ReceiveFixed, ObjectBatches.WriteSpritesFixed |
