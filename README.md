# Loop subdivision on a winged half-edge mesh, in Dafny

This project models the core of a small Python mesh viewer: the winged
half-edge triangle mesh, and one pass of Loop subdivision over it.

- `mesh_geometry.py` defines the entities: vertices, triangles and half-edges.
- `tri_mesh.py` builds a mesh from the lines of an `.obj` file.
  - It pairs the two half-edges of every shared edge through a dictionary
    keyed by the edge's `repr`.
  - It gives every triangle a `nextEdge` 3-cycle ("spin").
  - It flattens the mesh into position, normal and colour buffers.
- `loop_subdivision.py` walks the old mesh from its first triangle.
  - It splits every triangle it reaches into four children in a new mesh.
  - It places the new vertices by the Loop weight rules: the edge-midpoint
    rule, and the vertex rule with its β(n).
  - It links each child to the children of neighbours already split.
  - It caches the two halves of every old edge in that edge's `subdivision`
    slot.

The model is an arena. Class `TriMesh.Mesh` holds these fields:

- `vertices`: the vertex records;
- `adjTris`: each vertex's `adj_tris` list;
- `verts`: the Python `verts` list, as handles;
- `tris` and `edges`;
- `edgeMap`: the edge dictionary;
- `vindex` and `tindex`.

`pair`, `nextEdge`, `triangle`, `edge[i]`, `adj_tris` and `subdivision`
are `nat` handles into these sequences.

Methods that change a mesh update these fields in place. Each one states
its new state in terms of pure functions of the old state. The pure rules
(`LoopWeights`, `LoopRules`, and the specification functions of `LoopFan`)
are functions with lemmas.

Every Python exception the core can raise is a `Fault` value
(`outcomes.dfy`), such as a `None` dereference, an unbound loop variable, an
`IndexError` or a `ZeroDivisionError`. Operations return `Result`/`Outcome`
instead of raising.

Modules and files:

- `outcomes.dfy`: `Option`, `Fault`, `Result`, `Outcome`.
- `decimal.dfy`: `str()` of a natural number and its inverse.
- `mesh_geometry.dfy`: the entities and the edge key.
- `tri_mesh.dfy`: `.obj` ingestion, edge pairing, spin assignment, compile.
- `loop_weights.dfy`: point arithmetic, colour blending, β(n), the affine rules.
- `loop_rules.dfy`: the edge-midpoint rule.
- `loop_fan.dfy`: the vertex rule, the fan walk and the fan continuity test.
- `loop_subdivision.dfy`: the traversal, the quadrisection template, linking and the subdivision cache.

The cosine in β(n) is a parameter `cosOf: nat -> real` of the pass. Point
coordinates and colours are Dafny `real`s, so every weight rule is exact.

## Model

| member | source | states |
|---|---|---|
| MeshGeometry.NewVertex | mesh_geometry.py:230-239 | a new vertex has the given index and location, colour [1.0, 0.0, 1.0], no normal, and is not marked subdivided; its empty `adj_tris` is the `[]` that `TriMesh.Mesh.AppendVertex` appends |
| MeshGeometry.NewTriangle | mesh_geometry.py:24-29 | a new triangle has the given index and corners in argument order, is not visited, and has three empty edge slots |
| MeshGeometry.NewEdge | mesh_geometry.py:175-188 | whatever the argument order, the end with the lower vertex index is stored first; triangle, pair, next and both subdivision slots are empty |
| MeshGeometry.SharedVertex | mesh_geometry.py:203-214 | the result is an end of the first edge contained in the other edge; there is none (Python `False`) exactly when neither end is contained; the first end wins when it is contained |
| MeshGeometry.ContainsVertex | mesh_geometry.py:216-223 | definition: an end of the edge has the vertex's index |
| MeshGeometry.EdgeRepr | mesh_geometry.py:225-226 | definition of `repr`: the key "i j" of the edge's end indices, which parses back to those indices |
| MeshGeometry.SameKeySameEnds | mesh_geometry.py:216-226 | two edges with the same `repr` key have ends with the same indices and the same answer to `containsVertex` for every vertex |
| MeshGeometry.NewEdgeContainsEnds | mesh_geometry.py:216-223 | a new edge contains both vertices it was built from |
| MeshGeometry.NewEdgeKeyIsCanonical | mesh_geometry.py:225-226 | an edge built over (a, b) and one built over (b, a) have the same key "i j", with i the lower index |
| MeshGeometry.KeyRoundTrip | mesh_geometry.py:225-226 | reading back the key string "i j" gives (i, j) |
| MeshGeometry.KeyStringInjective | mesh_geometry.py:225-226 | distinct index pairs give distinct key strings |
| MeshGeometry.ReprFaithful | mesh_geometry.py:225-226 | two edges have equal `repr` strings exactly when their index pairs are equal, so a dictionary keyed by index pairs finds the same entries as one keyed by `repr` |
| MeshGeometry.MarkOneVisited | tri_mesh.py:143 | marking an unvisited triangle visited adds exactly it to the visited set and removes it from the unvisited set |
| Decimal.NatStringRoundTrip | mesh_geometry.py:226 | the decimal string of a vertex index reads back as that index |
| Decimal.NatToStringInjective | mesh_geometry.py:226 | distinct indices have distinct decimal strings |
| TriMesh.PyIndex | tri_mesh.py:77 | Python list indexing: an index i into a list of length n is found exactly when -n <= i < n, and names position i mod n |
| TriMesh.IngestCornersInRange | tri_mesh.py:67-77 | after a successful load every face has three corners, each naming a vertex already read |
| TriMesh.IngestErrSticks | tri_mesh.py:51-100 | a fault raised on a prefix of the lines is the fault of the whole load |
| TriMesh.HitsCount | mesh_geometry.py:32-33 | one new triangle appears in a vertex's `adj_tris` as often as the vertex occurs among its corners |
| TriMesh.IncidencesCount | mesh_geometry.py:32-33 | after loading, triangle t appears in vertex v's `adj_tris` as often as v occurs among t's corners, and no other triangle does |
| TriMesh.LatestWithKey | tri_mesh.py:86-93 | the last of the first n edges with a given key, or none when none of them has it |
| TriMesh.InsertEdgeKeepsPairing | tri_mesh.py:86-93 | inserting a face edge keeps the pairing invariant. The dictionary maps each key to its first edge. An edge other than that first one is paired with it. The first edge is paired with the latest other edge of its key, or with none when there is no other |
| TriMesh.InsertFaceEdgesShape | tri_mesh.py:80-95 | inserting a face's three edges appends them in order, spanning (c0,c1), (c1,c2), (c2,c0) with their triangle set, and changes only the `pair` of earlier edges |
| TriMesh.InsertFaceEdgesPairing | tri_mesh.py:84-95 | the pairing invariant holds after all three edges of a face are inserted |
| TriMesh.PairsShareKeys | tri_mesh.py:89-93 | a paired edge's pair is another edge with the same key |
| TriMesh.PairingSharesEnds | tri_mesh.py:89-93 | under the pairing invariant every paired edge shares its ends with its pair |
| TriMesh.PairInvolution | tri_mesh.py:89-93 | when no key occurs on more than two edges, `e.pair.pair == e` for every paired edge |
| TriMesh.ThreeCycleIsSpin | tri_mesh.py:160-166 | three distinct edges of a triangle linked p→q→r→p by `next` make it spun |
| TriMesh.SpinReturns | tri_mesh.py:118-119 | on a spun triangle, `next` taken three times returns to the starting edge, through two other edges of the same triangle |
| TriMesh.FirstEdgeWithout | tri_mesh.py:153-157 | the first edge of a triangle that does not contain a vertex, with every earlier edge containing it; none when all three do |
| TriMesh.SpinsAfterLink | tri_mesh.py:143-166 | spinning one unvisited triangle and marking it visited keeps "visited triangles are spun, unvisited ones untouched" |
| TriMesh.SpinsAfterSeed | tri_mesh.py:118-121 | the same for the seed triangle |
| TriMesh.NoSpinsHold | tri_mesh.py:84-100 | a freshly loaded mesh, with nothing spun and nothing visited, satisfies the spin invariant |
| TriMesh.LoadedPairsShareEnds | tri_mesh.py:84-95 | a loaded mesh has every edge paired only with an edge over the same two vertices |
| TriMesh.LoadedAfterSpins | tri_mesh.py:110-123 | spin assignment, which changes only `next` and `visited`, keeps everything load built |
| TriMesh.AddFaceLoaded | tri_mesh.py:67-100 | adding one face extends the loaded state by exactly that face |
| TriMesh.PositionsAt | tri_mesh.py:256-261 | float j of the position buffer is coordinate j mod 3 of the corner j / 3 in storage order |
| TriMesh.ColorsAt | tri_mesh.py:256-261 | float j of the colour buffer is channel j mod 3 of that corner's colour |
| TriMesh.NormalsAt | tri_mesh.py:256-261 | float j of the normal buffer is coordinate j mod 3 of that corner's normal |
| TriMesh.Positions | tri_mesh.py:256-261 | the position buffer of n triangles has 9n floats |
| TriMesh.Mesh.constructor | tri_mesh.py:23-36 | a new mesh has no vertices, triangles or edges, an empty dictionary and both counters at 0 |
| TriMesh.Mesh.AppendVertex | tri_mesh.py:58-64 | appends the vertex with an empty `adj_tris` and appends its handle to `verts` |
| TriMesh.Mesh.AddTriangle | mesh_geometry.py:24-33 | appends a new triangle; each vertex's `adj_tris` gains the triangle once per corner it occupies and is otherwise unchanged |
| TriMesh.Mesh.AddEdge | tri_mesh.py:84-93 | appends the new edge and records or pairs it through the dictionary |
| TriMesh.Mesh.SetTriEdge | tri_mesh.py:95 | sets exactly one edge slot of one triangle |
| TriMesh.Mesh.AddFace | tri_mesh.py:77-100 | appends one triangle owning the next three edge handles, registers it with its corners, and inserts its edges through the dictionary |
| TriMesh.Mesh.StoreFaceEdges | tri_mesh.py:84-95 | fills the three slots of the new triangle and inserts its edges in order |
| TriMesh.Mesh.FindEdgeWithout | tri_mesh.py:153-157 | the search loop returns `FirstEdgeWithout` |
| TriMesh.Mesh.LinkSecond | tri_mesh.py:143-157 | marks the neighbour visited. The paired edge's `next` becomes the neighbour edge that avoids the vertex `startEdge` shares with its successor. A failed search leaves the edges as they were |
| TriMesh.Mesh.LinkThird | tri_mesh.py:160-166 | links second → third → paired edge, which closes a 3-cycle, and changes only `next` inside that triangle; a failure is one of the spin faults (`SpinOutcome`) |
| TriMesh.Mesh.CloseCycle | tri_mesh.py:165-166 | sets q.next = w and then w.next = p and nothing else; for three distinct edges of one triangle this spins it |
| TriMesh.Mesh.LinkTriangle | tri_mesh.py:143-166 | marks the neighbour visited and spins it, changing only `next` of its three edges |
| TriMesh.Mesh.LinkAcross | tri_mesh.py:135-166 | spins the neighbour across `startEdge`, marks it visited, shrinks the set of unvisited triangles and keeps the spin invariant |
| TriMesh.Mesh.SpinAcross | tri_mesh.py:135-181 | spins the neighbour and everything reachable from it; the paired edge's `next` is the edge the source's search selects |
| TriMesh.Mesh.SpreadSpin | tri_mesh.py:174-181 | recurses through the second and third edge; a missing third edge is a fault |
| TriMesh.Mesh.SpinNeighbour | tri_mesh.py:174-181 | recurses only across an edge with a pair into an unvisited triangle; an edge without a pair changes nothing |
| TriMesh.Mesh.RecAssignSpin | tri_mesh.py:125-184 | returns with no change on a `None` start edge, a `None` pair or a visited triangle. Otherwise it marks the triangle visited and sets the paired edge's `next` to the selected edge. It changes only `next` and `visited`, never unmarks a triangle, and never re-spins a triangle visited before. When successful, it keeps "visited triangles are spun" |
| TriMesh.Mesh.SeedSpin | tri_mesh.py:118-121 | links the first triangle as `edge[i].next = edge[(i+1) % 3]`, marks it visited, and changes nothing else |
| TriMesh.Mesh.SpinCorner | tri_mesh.py:122-123 | one turn of the loop over the seed's edges keeps the seed spun forward and keeps the spin invariant |
| TriMesh.Mesh.AssignSpins | tri_mesh.py:112-123 | an empty mesh is a fault (`NoTriangles`); any other failure is a spin fault (`SpinOutcome`). Otherwise only `next` and `visited` change, the seed is spun forward and visited, and when successful every visited triangle is spun and every other one untouched |
| TriMesh.Mesh.LoadVertex | tri_mesh.py:54-64 | a `v` line appends one vertex with the next index |
| TriMesh.Mesh.LoadFace | tri_mesh.py:67-100 | an `f` line of three vertices appends one triangle with the next index |
| TriMesh.Mesh.LoadLine | tri_mesh.py:52-100 | one line: the mesh is what the lines so far describe, or the line's fault is returned |
| TriMesh.Mesh.Load | tri_mesh.py:41-110 | a fault of the lines (the first one) is the load's fault, and lines without a face give `NoTriangles`. Otherwise a failure can only be a spin fault: `MissingNext`, `NoSharedVertex` or `NoSuccessorEdge`. This is not only a fault of the lines: three `v` lines, `f 1 2 3` and then `f 2 1 1` load without a line fault, and the spin pass can then find no third edge (`thirdEdge` unbound). On success it holds the lines' vertices in order, one triangle per face with indices 0..T-1, three edges per triangle paired by key, and `tindex`/`vindex` equal to the counts, with spins assigned |
| TriMesh.Mesh.SpinLoaded | tri_mesh.py:110 | assigning spins after load keeps the loaded shape and establishes the spin invariant |
| TriMesh.Mesh.Compile | tri_mesh.py:243-285 | the three buffers are exactly the position, normal and colour of every triangle's three corners in storage order |
| LoopWeights.AddPoints | loop_subdivision.py:652-654 | definition: the component-wise sum of two points |
| LoopWeights.ScalePoint | loop_subdivision.py:656-660 | definition: every coordinate times the scalar |
| LoopWeights.BlendColorAsWritten | loop_subdivision.py:662-669 | definition of `blendColor` as written: it agrees with the mean on the red channel, and on green (blue) exactly when the first colour's green (blue) equals its red |
| LoopWeights.BlendColor | loop_subdivision.py:662-669 | definition of the corrected `blendColor`: twice each channel is the sum of the two input channels |
| LoopWeights.Beta | loop_subdivision.py:558-564 | definition of `Beta(n)`: n·β(n) = 5/8 − (3/8 + cos(2π/n)/4)², with the cosine as a parameter |
| LoopWeights.Reposition | loop_subdivision.py:544-550 | definition (with its per-coordinate helper `Mix`): b times the ring sum plus k times the centre |
| LoopWeights.BoundaryMidpoint | loop_subdivision.py:580-584 | definition: ½ v0 + ½ v1 |
| LoopWeights.InteriorMidpoint | loop_subdivision.py:592-597 | definition: ⅛ f0 + ⅜ v0 + ⅜ v1 + ⅛ f1 |
| LoopWeights.PointAlgebra | loop_subdivision.py:652-660 | `addPoints` is commutative and associative; `scalePoint` distributes over it; scaling by 1 is the identity |
| LoopWeights.BlendColorIsMean | loop_subdivision.py:662-669 | the corrected blend is symmetric and idempotent, and each channel lies between the two input channels |
| LoopWeights.BlendColorAsWrittenLosesGreen | loop_subdivision.py:669 | as written, blending green (0,1,0) with black gives black |
| LoopWeights.BlendColorAsWrittenNotIdempotent | loop_subdivision.py:669 | as written, blending green with itself gives (0, 0.5, 0) |
| LoopWeights.BlendColorAsWrittenOnPurple | loop_subdivision.py:662-669 | on the default purple (1, 0, 1), the as-written blend gives (1, 0.5, 1), while the mean keeps (1, 0, 1) |
| LoopWeights.BlendColorKeepsGreen | loop_subdivision.py:662-669 | the corrected blend of green with black is (0, 0.5, 0) |
| LoopWeights.BetaSix | loop_subdivision.py:564 | β(6) = 1/16 when cos(2π/6) = 1/2 |
| LoopWeights.SpreadBounds | loop_subdivision.py:564 | for any cosine in [-1, 1], the factor 5/8 - (3/8 + cos/4)² lies strictly between 0 and 1 |
| LoopWeights.BetaConvex | loop_subdivision.py:564 | β(n) > 0 and n·β(n) < 1, so the centre weight k = 1 - n·β(n) is positive |
| LoopWeights.MixAffine | loop_subdivision.py:544-550 | one coordinate of the reposition moves with a translation and keeps a value all its inputs share |
| LoopWeights.RepositionKeepsPoint | loop_subdivision.py:544-550 | when the centre and all n ring vertices are at one point, the repositioned vertex is that point |
| LoopWeights.RepositionTranslates | loop_subdivision.py:544-550 | translating the centre and every ring vertex by d translates the result by d |
| LoopWeights.MidpointsAffine | loop_subdivision.py:580-599 | both midpoint rules keep a point all their inputs share (their weights sum to 1) and commute with translation; the boundary rule is symmetric in its ends, the interior rule in its two ends and in its two opposite vertices |
| LoopRules.Opposite | loop_subdivision.py:592-595 | the first corner that is neither end of the edge: it sits at a position before which every corner is an end, as `[...][0]` takes; none exactly when every corner is an end |
| LoopRules.EdgeRule | loop_subdivision.py:569-599 | a boundary edge gets ½v0 + ½v1. An interior edge gets ⅛f0 + ⅜v0 + ⅜v1 + ⅛f1. Here f0 is the first corner of the edge's own triangle that is not an end, and f1 the same for its pair's triangle (`Opposite`). The rule fails exactly when an interior edge is missing a triangle or an opposite corner. The new vertex has index 0 and the default colour |
| LoopRules.EdgeRuleAffine | loop_subdivision.py:577-599 | translating every old vertex by d translates every new edge vertex by d and changes no outcome |
| LoopRules.EdgeRuleKeepsPoint | loop_subdivision.py:577-599 | when all old vertices are at one point, every new edge vertex is there |
| LoopFan.TriScan | loop_subdivision.py:467-472 | finds whether a triangle's edges include a boundary edge through the vertex; a missing edge slot is a fault |
| LoopFan.FanScan | loop_subdivision.py:465-472 | the same search over all adjacent triangles: true exactly when some adjacent triangle has a boundary edge through the vertex |
| LoopFan.FanStart | loop_subdivision.py:518-524 | the start edge is an edge of the first adjacent triangle that holds the vertex while its successor does not; no such edge is the unbound-variable fault |
| LoopFan.Walk | loop_subdivision.py:527-533 | the ring walk gathers exactly k ring vertices or fails on a missing `pair` or `nextEdge` |
| LoopFan.WalkErrSticks | loop_subdivision.py:527-533 | a walk that fails within i steps fails the same way for any longer count |
| LoopFan.WalkBelow | loop_subdivision.py:527-533 | every ring vertex the walk gathers is a vertex of the mesh |
| LoopFan.FanRing | loop_subdivision.py:515-533 | the ring of an n-triangle fan has n vertices of the mesh |
| LoopFan.SumLocsConstant | loop_subdivision.py:536-542 | the sum of n ring locations that are all p equals n·p |
| LoopFan.SumLocsShift | loop_subdivision.py:536-542 | translating every vertex by d adds n·d to the sum of n ring locations |
| LoopFan.Smoothed | loop_subdivision.py:544-552 | the smoothed vertex is k·v + β·Σring with k = 1 - n·β, keeps v's index and has the default colour |
| LoopFan.SmoothedKeepsPoint | loop_subdivision.py:544-552 | when every vertex is at p, the smoothed vertex is at p |
| LoopFan.SmoothedTranslates | loop_subdivision.py:544-552 | translating every vertex by d translates the smoothed vertex by d |
| LoopFan.InteriorRule | loop_subdivision.py:499-554 | a vertex with no adjacent triangle is the division-by-zero fault; a result keeps the vertex's index |
| LoopFan.InteriorRuleRing | loop_subdivision.py:505-554 | the interior rule is the smoothed vertex over the ring walked from the first adjacent triangle, with β(n) for the n adjacent triangles, or the walk's fault |
| LoopFan.VertexRule | loop_subdivision.py:454-475 | a vertex with 0 or 1 adjacent triangles is returned unchanged; a result keeps the index |
| LoopFan.VertexRuleCases | loop_subdivision.py:461-496 | a vertex with a boundary edge in its fan is returned unchanged (`subdivide_boundary_fan_vertex` returns its argument); a vertex whose fan has none gets the interior rule |
| LoopFan.VertexRuleKeepsPoint | loop_subdivision.py:454-554 | when all vertices are at one point, the repositioned vertex is there |
| LoopFan.VertexRuleTranslates | loop_subdivision.py:454-554 | translating every vertex by d translates the repositioned vertex by d and changes no outcome |
| LoopFan.NextStart | loop_subdivision.py:646-648 | the successor of the first edge of the triangle that holds the vertex and whose successor holds it too; none when no edge does |
| LoopFan.FanStartEdge | loop_subdivision.py:640-650 | a vertex without adjacent triangles is the `adj_tris[0]` fault; a found start edge is an edge of the mesh |
| LoopFan.Around | loop_subdivision.py:621-626 | a lap of k pair-then-next steps either breaks at an edge without a pair, or ends at an edge of the mesh, or fails on a missing `nextEdge`; zero steps end where they start |
| LoopFan.AroundSticks | loop_subdivision.py:621-626 | a lap that broke or failed stays so for any longer count |
| LoopFan.WalkFollowsLap | loop_subdivision.py:527-533 | the ring walk of the interior rule and the lap of the continuity test follow the same edges and fail together |
| LoopFan.FanContinuity | loop_subdivision.py:603-635 | given a start edge, the answer is "broken" (False) exactly when the lap from it hits an edge without a pair. It is "continuous" (True) exactly when the lap ends in a triangle with the start triangle's index. It is "inconsistent" (`None`) exactly when the lap ends in a triangle with another index. No start edge is the `curr_ed.triangle` fault |
| LoopFan.SubdivideVertex | loop_subdivision.py:454-475 | the scan over adjacent triangles returns `VertexRule` |
| LoopFan.InteriorFanVertex | loop_subdivision.py:499-554 | the start search, the ring loop and the sum loop return `InteriorRule` |
| LoopFan.FindFanStart | loop_subdivision.py:518-524 | the start-edge loop returns `FanStart` |
| LoopFan.WalkRing | loop_subdivision.py:527-533 | the ring loop returns `Walk` |
| LoopFan.SumRing | loop_subdivision.py:536-542 | the summing loop returns the sum of the ring locations |
| LoopFan.Smooth | loop_subdivision.py:544-552 | scaling and offsetting the sum gives `Smoothed` |
| LoopFan.Combine | loop_subdivision.py:544-550 | the coordinate updates give `Reposition` |
| LoopFan.GetFanStartEdge | loop_subdivision.py:640-650 | the loop returns `FanStartEdge` |
| LoopFan.IsFanContinuous | loop_subdivision.py:603-635 | the counting loop returns `FanContinuity` |
| LoopSubdivision.CentreTemplate | loop_subdivision.py:107-155 | the centre child is (c1, c3, c5), and each pair of edges the template pairs spans the same two vertices |
| LoopSubdivision.MarkVisited | loop_subdivision.py:287 | marks exactly one triangle visited |
| LoopSubdivision.ResetVisited | loop_subdivision.py:63-64 | clears `visited` on every triangle and changes nothing else; no triangle is visited afterwards |
| LoopSubdivision.SubsWrite | loop_subdivision.py:424-425 | writes the two subdivision slots of one edge and nothing else |
| LoopSubdivision.SetSubs | loop_subdivision.py:424-425 | stores one edge's two halves |
| LoopSubdivision.PairWrite | loop_subdivision.py:385-388 | sets the pair of one edge and nothing else |
| LoopSubdivision.SetPair | loop_subdivision.py:385-388 | sets one edge's pair |
| LoopSubdivision.SetNext | loop_subdivision.py:413-415 | sets one edge's `next` |
| LoopSubdivision.EndWrite | loop_subdivision.py:273-277 | replaces one end of one edge and nothing else |
| LoopSubdivision.SetEnd | loop_subdivision.py:273-277 | replaces one end of one edge |
| LoopSubdivision.AppendAdj | loop_subdivision.py:254 | appends one triangle to one vertex's `adj_tris` |
| LoopSubdivision.Tip | loop_subdivision.py:319-326 | the tip of a side is one of its ends; when the successor holds the tip, it holds both ends |
| LoopSubdivision.SideAt | loop_subdivision.py:319-333 | one side's new vertices. A missing `nextEdge` is the `MissingNext` fault. Otherwise the vertex rule's fault on the tip comes first, then the edge rule's fault, and the side exists exactly when both rules succeed. The tip vertex (the end the source's `nextEdge` test selects) is at the vertex rule's position for it and keeps that vertex's colour and index. The new edge vertex is at the edge rule's position with index 0, and has the corrected (mean) blend of its ends' colours, not the as-written one (see Left out) |
| LoopSubdivision.Cons | loop_subdivision.py:79-97 | prepends one side to the sides after it, or passes their fault on |
| LoopSubdivision.SidesChain | loop_subdivision.py:79-97 | k sides computed in a row start at the given edge; each follows the previous one's `nextEdge` and is what its own edge gives |
| LoopSubdivision.ThenCons | loop_subdivision.py:79-97 | the accumulated sides followed by one more side and the rest are the sides accumulated so far plus that side, followed by the rest |
| LoopSubdivision.WalkSides | loop_subdivision.py:79-97 | the loop's walk over a table of per-edge results gives the recursive definition |
| LoopSubdivision.SplitSide | loop_subdivision.py:319-333 | the work on one side returns `SideAt` |
| LoopSubdivision.SplitWalk | loop_subdivision.py:79-97 | the side loop returns the walk of the edges it visits |
| LoopSubdivision.SplitSides | loop_subdivision.py:79-97 | the side loop of the seed returns `Sides` of its three sides |
| LoopSubdivision.Place | loop_subdivision.py:337-340 | appends a vertex handle to `verts` and renumbers that vertex with `vindex`, which goes up by one. A new vertex is appended to the arena; an imported one keeps its handle |
| LoopSubdivision.PlaceAll | loop_subdivision.py:100-103 | places every slot in order: `verts` grows by exactly those handles, a new vertex j gets index `vindex`+j, and an imported vertex keeps its handle |
| LoopSubdivision.ChildEdges | loop_subdivision.py:362-381 | inserting a child's edges appends three edges and keeps the dictionary's entries in range |
| LoopSubdivision.ChildEdgesFrame | loop_subdivision.py:362-381 | a child's three edges are appended in template order with their triangle set. Only `pair` of earlier edges changes. Without the dictionary pairing (the seed), nothing earlier changes and the new edges are unpaired |
| LoopSubdivision.ChildEdgesKeys | loop_subdivision.py:374-381 | every new child edge's key is in the dictionary afterwards and no entry is lost |
| LoopSubdivision.CentreMate | loop_subdivision.py:400-407 | the partner of a centre-template edge is a different edge among the 12 of the same split |
| LoopSubdivision.CentreMatesPair | loop_subdivision.py:400-407 | the centre pairings t0.e1↔t3.e2, t1.e2↔t3.e0 and t2.e2↔t3.e1 are mutual |
| LoopSubdivision.AddChild | loop_subdivision.py:344-381 | appends one child triangle with index `tindex` and its corners, registers it with its corners, and appends its three edges with `tindex` going up by one |
| LoopSubdivision.FinishChild | loop_subdivision.py:362-381 | fills the child's three slots with its edges |
| LoopSubdivision.StoreChildEdges | loop_subdivision.py:362-381 | stores the child's edges through the dictionary |
| LoopSubdivision.Quadrisect | loop_subdivision.py:344-381 | appends exactly four children, built from the six slots as (0,1,5), (1,2,3), (3,4,5), (1,3,5), with indices `tindex`..`tindex`+3, and advances `tindex` by 4. Each child owns its next three edges, and earlier triangles are unchanged |
| LoopSubdivision.PairCentre | loop_subdivision.py:400-407 | sets exactly the six centre pairings and nothing else |
| LoopSubdivision.SpinChild | loop_subdivision.py:412-415 | sets e0.next = e1, e1.next = e2, e2.next = e0 on one child and changes nothing else |
| LoopSubdivision.SpinKept | loop_subdivision.py:412-415 | a forward spin survives changes outside the triangle |
| LoopSubdivision.SpinChildren | loop_subdivision.py:412-415 | spins all four children forward and changes only `next` of their twelve edges |
| LoopSubdivision.LinkOuter | loop_subdivision.py:385-388 | pairs t0.e0 with e1 and t1.e0 with e0 both ways and changes only `pair` |
| LoopSubdivision.CachedHalves | loop_subdivision.py:422-433 | the three `subdivision` writes: n2 gets [t2.e1, t0.e2]; n1 gets [t1.e1, t2.e0] unless it is n2; s gets [t0.e0, t1.e0] unless it is n1 or n2; only `subdivision` changes, and only at these three edges |
| LoopSubdivision.StoreSplits | loop_subdivision.py:422-433 | the old edges become exactly `CachedHalves`: the side edges get [t0.e0, t1.e0], [t1.e1, t2.e0] and [t2.e1, t0.e2]; no other old edge's slot changes |
| LoopSubdivision.PaintVertex | loop_subdivision.py:280-282 | recolours one vertex cyan |
| LoopSubdivision.Paint | loop_subdivision.py:280-282 | sets one vertex's colour to cyan and changes nothing else |
| LoopSubdivision.Recolour | loop_subdivision.py:280-282 | recolours the four ends of the two cached halves cyan |
| LoopSubdivision.PairBack | loop_subdivision.py:245-248 | e0↔`subdivision[1]` and e1↔`subdivision[0]`, both ways |
| LoopSubdivision.PairedBackShape | loop_subdivision.py:245-248 | the cross-link changes only `pair`, and leaves all four edges paired |
| LoopSubdivision.FarTriangle | loop_subdivision.py:254 | the triangle across a paired edge is a triangle of the mesh |
| LoopSubdivision.AdjWrite | loop_subdivision.py:254 | appends one triangle to one vertex's list and changes nothing else |
| LoopSubdivision.ShareTriangles | loop_subdivision.py:252-254 | each end of the two cached halves gains the triangle across its half |
| LoopSubdivision.ShareCentre | loop_subdivision.py:261-267 | the midpoint vertex gains the centre triangle across e0's successor. A missing `nextEdge` or `pair` is a fault and changes nothing |
| LoopSubdivision.EndsWrite | loop_subdivision.py:273-277 | replaces both ends of one edge and nothing else |
| LoopSubdivision.ImportedEndsMeaning | loop_subdivision.py:273-277 | importing changes only ends. When the four edges are distinct, e0 takes `subdivision[1]`'s ends reversed and e1 takes `subdivision[0]`'s ends reversed |
| LoopSubdivision.ImportEnds | loop_subdivision.py:273-277 | performs the four end writes in source order |
| LoopSubdivision.LinkBackMeaning | loop_subdivision.py:245-277 | for four distinct edges, the cross-link of a revisited triangle pairs e0↔other[1] and e1↔other[0] and imports the ends reversed. No other edge changes |
| LoopSubdivision.LinkBack | loop_subdivision.py:236-285 | when e0 and e1 are both paired, nothing changes; an empty cached slot is a fault; otherwise the cross-link, imported ends and recolouring happen |
| LoopSubdivision.Relink | loop_subdivision.py:245-282 | the cross-link, the adjacency updates, the imported ends and the recolouring, in that order |
| LoopSubdivision.RelinkPairs | loop_subdivision.py:245-267 | the pairing and adjacency part of the cross-link |
| LoopSubdivision.FarPair | loop_subdivision.py:307-333 | the third side's vertices: imported (the ends of the neighbour's cached first half) when the neighbour across it was already split, otherwise computed by the rules |
| LoopSubdivision.FarSides | loop_subdivision.py:299-334 | the two sides after the start edge: a missing successor is a fault. The second side always gets a new edge vertex by the edge rule, with the corrected (mean) blend of its ends' colours (see Left out). The third side is imported or computed, as `FarPair` says |
| LoopSubdivision.BorderPair | loop_subdivision.py:307-333 | the third side's branch returns `FarPair` |
| LoopSubdivision.BorderVertices | loop_subdivision.py:299-334 | the side loop of a later triangle returns `FarSides` |
| LoopSubdivision.SideAtTranslates | loop_subdivision.py:319-333 | translating every old vertex by d translates both new vertices of a side by d |
| LoopSubdivision.SidesTranslate | loop_subdivision.py:79-97 | translating every old vertex by d translates every new vertex of every seed side by d |
| LoopSubdivision.FarPairTranslates | loop_subdivision.py:307-333 | translation moves the computed vertices of the third side and leaves imported handles alone |
| LoopSubdivision.FarSidesTranslate | loop_subdivision.py:299-334 | translation moves every computed vertex of a later triangle by d |
| LoopSubdivision.Settle | loop_subdivision.py:400-415 | sets the centre pairings and spins the four children; earlier edges are unchanged |
| LoopSubdivision.Children | loop_subdivision.py:344-415 | builds, pairs and spins the four children. Old triangles are unchanged, only `pair` of old edges changes, and every triangle stays spun forward |
| LoopSubdivision.Carve | loop_subdivision.py:344-415 | the same, plus pairing t0.e0↔e1 and t1.e0↔e0 both ways with the neighbour's halves |
| LoopSubdivision.Build | loop_subdivision.py:294-415 | the six slots are v1, midpoint and v0 imported, then three placed. Only the three placed ones are appended to `verts`. Then four children are built |
| LoopSubdivision.Enter | loop_subdivision.py:287-334 | marks the triangle visited and computes its far sides |
| LoopSubdivision.SplitEntered | loop_subdivision.py:287-433 | a split appends exactly 4 triangles and 3 `verts` entries, and caches the halves in the old edges: they become exactly `CachedHalves` of the start edge and its two successors, with t0 the first new triangle. On a fault no triangle or vertex handle is added |
| LoopSubdivision.Revisit | loop_subdivision.py:232-285 | a visited triangle is never split again: only pairs and ends of new edges change, and no vertex or edge is added. When e0 and e1 are both paired nothing changes; otherwise a missing half in the start edge's `subdivision` is `MissingSubdivision`; on success e0↔`subdivision[1]` and e1↔`subdivision[0]` are paired and the halves' ends imported (`ImportedEnds(PairedBack(...))`), and the four ends of the halves are painted cyan (`LinkBack`) |
| LoopSubdivision.RecursiveSubdivide | loop_subdivision.py:212-448 | a `None` start edge or a start edge without a triangle returns `Done` at once and changes neither mesh. On a triangle already visited, the old mesh, the new triangles and `verts` stay as they were, no vertex or edge is added, and only the ends and pairs of new edges change; the link-back itself is relayed from `Revisit`: nothing when e0 and e1 are both paired, `MissingSubdivision` on a missing half, otherwise e0↔`subdivision[1]`, e1↔`subdivision[0]`, the imported ends and the cyan ends. Throughout, only `visited` and `subdivision` of the old mesh change. When successful, the new triangles are 4 per newly visited triangle and the new `verts` entries 3 per newly visited triangle |
| LoopSubdivision.Descend | loop_subdivision.py:438-448 | the three recursive calls keep the same counts |
| LoopSubdivision.SeedSides | loop_subdivision.py:63-97 | resets `visited`, marks the first triangle visited, and computes its three sides from `edge[0]` along `nextEdge`; an empty mesh is a fault |
| LoopSubdivision.SeedSlots | loop_subdivision.py:85-96 | new_v[2i] is side i's tip and new_v[2i+1] its edge vertex |
| LoopSubdivision.SeedChildren | loop_subdivision.py:100-163 | the seed appends 6 vertices with indices 0..5, 4 children and 12 edges, spun and centre-paired |
| LoopSubdivision.Seed | loop_subdivision.py:63-181 | the seed step leaves exactly one old triangle visited and 4 triangles, 6 `verts` and 12 edges in the new mesh. With s = `edge[0]` of the first triangle, n1 its `nextEdge` and n2 the one after, the old edges become exactly `CachedHalves(s, n1, n2, 0)` (`SeedCached`) |
| LoopSubdivision.SeedSplits | loop_subdivision.py:170-181 | the old edges become exactly `CachedHalves(s, n1, n2, 0)`: n2 holds [t2.e1, t0.e2], n1 [t1.e1, t2.e0] and s [t0.e0, t1.e0] of the seed's children; only `subdivision` changes, and every entry names one of the twelve new edges |
| LoopSubdivision.Across | loop_subdivision.py:193-203 | one of the three calls from the seed: a missing seed edge slot is a fault; the counts are kept |
| LoopSubdivision.SubdivideTriangles | loop_subdivision.py:57-207 | an empty old mesh is a fault. When successful the first triangle is visited, the new mesh has 4 triangles per visited old triangle and 3 `verts` entries per visited triangle plus 3, and the old mesh changes only in `visited` and `subdivision` |
| LoopSubdivision.Subdivide | loop_subdivision.py:30-55 | returns a new mesh; when successful it is well formed with those counts, every new triangle is spun forward (e0 → e1 → e2 → e0), and the old mesh changes only in `visited` and `subdivision` |

## Left out

- File reading and token parsing in `mesh.load`: the model takes the tokenised lines (`ObjLine`). `float()` and `int()` errors on malformed text are not modelled.
- Radius computation (`sqrt`) in `load` and `subdivide`: it is floating point and nothing in the core reads it.
- `projectShadows`, `intersect_ray`, `triangle.ray_intersect`, triangle normals, `computeVertexNormals` and `vertex.setNormal`: they are float geometry through a `geometry` module that is not part of this model. `Mesh.Compile` takes the per-vertex normal as a parameter `normalOf`.
- `cos(2π/n)` in `Beta`: it is transcendental, so it is the parameter `cosOf`. Only `BetaSix` fixes its value, at n = 6.
- All `print` calls and `sys.setrecursionlimit`: they are output and interpreter settings.
- `triangle.recAssignSpin`, `edge.isSharedEdge`, `addAdjTris`/`addAdjTris_rec` and the module globals of loop_subdivision.py: these are dead code. The source never calls them, and `isSharedEdge` names undefined variables.
- Floating point: coordinates and weights are exact reals, and Python 3 division is used (`1/8` is 0.125).
- Vertex aliasing: `subdivide_vertex` returns the old vertex object itself for a vertex with at most one adjacent triangle or a boundary fan. The new mesh then shares that object with the old one. The model copies the record into the new mesh's arena instead. This has four consequences the model does not capture. First, later renumbering and recolouring affect only the copy. Second, the shared object keeps the old mesh's triangles in its `adj_tris` and then also gains the new children (mesh_geometry.py:32-33); the copy starts with an empty list (`Place`). Third, the same object placed from two triangles is, in the source, one vertex that ends with the last index given (loop_subdivision.py:102, :339); the model makes two copies with distinct indices. Fourth, `repr` keys are computed from the live `.index` (mesh_geometry.py:226), so in the source the key of a child edge over a reused object changes when that object is renumbered; in the model such copies are distinct vertices, and their edges never pair through the dictionary.
- Edge dictionary keys: the dictionary is keyed by the pair of end indices, not by the `repr` string. `MeshGeometry.ReprFaithful` proves the two keyings find the same entries.
- Mesh.Load: it requires a freshly constructed mesh, which is how the viewer calls it. Loading into a mesh that already holds data is not modelled.
- Subdivide: it requires that no old edge has a `subdivision` entry yet, as after `load`. Subdividing a mesh that has been subdivided from before is not modelled.
- Quadrisect: it creates each child and then its three edges, while the source creates all four children before any edge. The writes are independent, so the final state is the same.
- BorderVertices: the source's loop over i = 1, 2 is written out as its two turns.
- State after a fault: the model promises nothing about the meshes after a fault, beyond the frame and the well-formedness invariants. The source may have changed them partly before raising.
- LinkBack, ImportedEndsMeaning and LinkBackMeaning: the element-wise description of the cross-link is proved only when the four edges involved are distinct. Otherwise only the whole update (`ImportedEnds(PairedBack(...))`) is stated.
- LinkOuter: the two mutual pairings are stated only when e0 and e1 differ and both precede the new children. Otherwise only the composed write is stated.
- FarSides: the new vertices on the second and third sides get the corrected blend `BlendColor`, the channel-wise mean of the two ends' colours. The source calls the as-written `blendColor` (loop_subdivision.py:332), which reads the first colour's red channel in every component. On a freshly loaded mesh, where every vertex is (1, 0, 1), the source colours these vertices (1, 0.5, 1) and the model (1, 0, 1) (`LoopWeights.BlendColorAsWrittenOnPurple`). Colours of the subdivided mesh, and so its colour buffer, differ from the source's accordingly. The bug and its correction are recorded under Findings.
- SideAt, SplitSide, BorderVertices, SeedSides: the same corrected blend colours every new edge vertex of the seed's sides (loop_subdivision.py:95) and of the third side of a later triangle (loop_subdivision.py:332).
- The comment at loop_subdivision.py:588 gives weights 3/4; the code uses 3/8, and the model follows the code.
- LoopFan.FanStartEdge: the doc string of `getFanStartEdge` describes a different edge from the one its code returns; the model follows the code.
- LoopSubdivision.RecursiveSubdivide: the three imported vertices are v1, the midpoint and v0, as in the code. The model does not claim that every triangle of a connected mesh is reached. Neither the spin pass nor the subdivision pass is proved to visit everything.
- LoopSubdivision.SeedSides: the seed reads its sides along the `nextEdge` chain from `edge[0]`. Its calls to `recursive_subdivide` read `edge[k]`, as the source does. The model does not prove that the two orders agree.
- LoopSubdivision.SplitSides: the loop is proved against a ghost table of per-edge results, `Walk`, which `WalkSides` shows equal to the recursive `Sides`.
- AssignSpins, RecAssignSpin: the spin invariant ("every visited triangle is spun, every other untouched") is proved whenever paired edges share their ends, which `load` guarantees (`TriMesh.LoadedPairsShareEnds`). Otherwise only the frame is stated.

## Findings

| source | as written | input that shows it | evidently intended | confidence | as-written member | corrected member |
|---|---|---|---|---|---|---|
| loop_subdivision.py:669 | `blendColor` returns `[½(c0[0]+c1[0]), ½(c0[0]+c1[1]), ½(c0[0]+c1[2])]`, using the first channel of the first colour in every component | c0 = (0, 1, 0), c1 = (0, 0, 0) gives (0, 0, 0); blending green with itself gives (0, 0.5, 0) | the component-wise mean `[½(c0[0]+c1[0]), ½(c0[1]+c1[1]), ½(c0[2]+c1[2])]`, as its doc string says | not executed | LoopWeights.BlendColorAsWrittenLosesGreen | LoopWeights.BlendColorIsMean |
