# Offline routing, verified

A Dafny model of the hard parts of the offline-routing repository, with proofs
of what they are for. `dafny verify dfyconfig.toml` checks everything.

## What is modelled

**The router** (`crates/cch-routing-lite`). A customizable contraction hierarchy
is built from a directed graph and a rank permutation, customized with weights
and witnesses, searched from both ends, and unpacked to original arcs. The main
result is that this fast form is plain shortest path: on every built pack a route
is a walk of original arcs of the answered cost, no walk is cheaper, and a route
comes back exactly when the target is reachable (`Router.RouteNodes`,
`Pack.BuildPack`). On any pack that the loader accepts, built or not, the answer
is still a connected walk of exactly its cost. Additions of costs do not overflow:
in customization none can as long as arc ids fit the 32-bit words that the pack
stores (`Overflow.NoOverflowInWords`), and in a query on a built pack none can up to
a node count that no loaded pack comes near (`QueryBounds.NoQueryOverflow`; the
loader reads bodies of up to 32 MiB). Reading order: `Walks`, `LowWalks`
(walks through low ranks), `Cch`, `Fill`, `Build` (elimination), `Weights`,
`Customize`, `Bounds`, `Search`, `Query`, `Unpack`, `Optimality`, `Overflow`,
`QueryBounds`, `Threshold`, `Pack`, `Router`, and `Ordering` for the default ranks.

**The tile archive** (`crates/tile-server-lite`). The Hilbert id of a tile
(PMTiles Version 3 Specification, section 4.1) with its wrapping word arithmetic,
the column-wise varint directory (section 4.2) as a parser and printer, what every byte
string is as a directory (`Spelling`), and the
depth-bounded tree lookup, which equals a linear scan: `Hilbert`, `Directory`,
`Archive`. End to end, a file laid out as the format asks serves the bytes of exactly
the runs that its directories hold: a tree of directories over a tile section
(`Layout`), and the concrete files that the repository's fixture writer puts together
(`Writer`).

**The shared geometry** (`packages/shared`, `apps/viewer`). The cell index: which
closed tiles a polyline touches, and that the cell prefilter loses nothing
(`Tiles`). The polyline codec and its two decoders (`Polyline`), and which texts they
accept (`PolylineText`).

**Drafts and publication** (`packages/route-studio`, `apps/mobile`, `apps/api`).
Cached legs, undo and redo, the way to publication (`Draft`), what each edit does to
points, legs, publication range and history (`Edits`), names (`Names`), the list of legs
to be computed (`LegList`), and edits that leave legs stale (`StaleLegs`); the app's
calls with failing stores, networks and restarts (`Controller`); the server's requests
as interleaved atomic database calls that may fail or commit without saying so
(`Publish`); both together (`Delivery`); and the payload's control points, from the
composed route to the server's test of them (`Payloads`, `SentPayloads`).

Where the source updates in place, a method or class does the same here and is
proved against a specification function or predicate, about which the lemmas
speak.

## Where the code and its documentation part

- `packages/shared/point.js` accepts latitudes up to 85.05112878, which the
  encoder rounds up past that limit; the shared decoder then refuses its own
  encoding. `Polyline.SharedRoundTrip` gives the exact condition.
- `packages/shared/tiles.js`: latitudes up to 85.05112878 lie a little off the grid
  (about 1.02e-7 tiles at zoom 14). A polyline along one has no cells
  (`Tiles.NorthEdgeMissed`; exact conditions in `Tiles.NoCellsIffOffGrid` and
  `Tiles.SharesCellIff`). This concerns the exported functions of `packages/shared`:
  the API stores only geometry inside its Sydney bounds.
- `packages/route-studio/index.js`: a removal does not shift the legs behind it, and
  a two-point loop keeps a stale way back when a point moves or the two change
  places (`StaleLegs`; exact conditions in `Draft.CoherentIffCareful`).
- The same file replaces the list of legs to be computed with every edit of the
  points, so legs that were still missing are forgotten; and it lists a leg that no
  longer exists when a loop is opened or one of the last two points of an open route
  is removed, after which the draft cannot be prepared. `LegList.ListsMissingIff`
  and `LegList.ListsLegsIff` give the exact conditions for every edit. The app's
  controller filters such legs out (`Controller.RoutedEditListsNothing`), but a forgotten
  one is routed only once a later edit lists it again: with every listed leg routed,
  the route is complete exactly when no missing leg was forgotten
  (`Controller.RoutedEditComplete`).
- `docs/adr/0007-route-studio.md` says that the payload is what the API takes. The
  app admits 16 points and a loop through them, whose payload marks 17 control
  points; `apps/api/src/index.ts` refuses more than 16
  (`SentPayloads.LoopOfSixteenRefused`). Every other payload of the app passes that
  test (`SentPayloads.SentControlPoints`; exact condition in `Payloads.VerdictOnDraft`).

## Assumptions

SHA-256 is injective; a database batch is atomic; key hashes are unique in the
segment table, as its schema declares; the app's random keys do not repeat and no
other client sends them, though others may send anything under keys of their own;
the app's calls do not overlap. A graph has at most 2^32 input arcs and fewer than 2^32 CCH
arcs, so that the casts of `cch.rs` and `customize.rs` to 32-bit words lose nothing
(`Pack.FitsWords`). Tile-space coordinates and distances are exact reals.

## Model

| member | source | states |
|---|---|---|
| Cch.FindArcIff | crates/cch-routing-lite/src/ch/cch.rs:81-88 | on a structure that passes validation the binary search finds an arc iff there is one, and finds that arc |
| Cch.BinarySearch | crates/cch-routing-lite/src/ch/cch.rs:84-87 | on a strictly ascending slice the search finds the key iff the slice holds it |
| Cch.LowerTailFirst | crates/cch-routing-lite/src/ch/cch.rs:106-123 | arcs with lower tails have lower indices, the order that unpacking descends along |
| Cch.ValidateRank | crates/cch-routing-lite/src/ch/cch.rs:128-146 | accepts exactly the permutations of the node numbers |
| Cch.Validate | crates/cch-routing-lite/src/ch/cch.rs:90-125 | accepts exactly the structures whose arrays are a compressed row form of strictly ascending upward arcs, with inverse rank and order |
| Fill.FillLemma | crates/cch-routing-lite/src/ch/cch.rs:37-51 | two ranks are joined by a CCH arc iff the input graph, read as undirected, has a path between them with all inner ranks below both |
| Fill.PathHasArc | crates/cch-routing-lite/src/ch/cch.rs:37-51 | closure under elimination turns every low path into an arc, by induction on its highest inner rank |
| Build.InsertArcs | crates/cch-routing-lite/src/ch/cch.rs:25-35 | every valid arc is entered at its lower endpoint and nothing else is; fails iff some arc is invalid |
| Build.Eliminate | crates/cch-routing-lite/src/ch/cch.rs:39-51 | one elimination step makes the higher neighbours of a rank a clique, keeps earlier cliques, and adds only arcs that have a low path |
| Build.Flatten | crates/cch-routing-lite/src/ch/cch.rs:53-63 | the flattened arrays list exactly the adjacency sets, each bucket ascending |
| Build.BuildCch | crates/cch-routing-lite/src/ch/cch.rs:18-75 | succeeds iff the ranks are a permutation and the arcs valid; the result passes the structure check, contains the input, is closed under elimination and has no arc without a low path |
| Ordering.SpatialOrdering | crates/cch-routing-lite/src/ch/ordering.rs:10-68 | the ranks are the places in the nested order, whatever the coordinates a permutation |
| Ordering.Dissect | crates/cch-routing-lite/src/ch/ordering.rs:11-58 | every part of two points or more is halved at its median along the wider side, with ties by id; both halves are emitted behind what was emitted before, each in its own order, and the median last |
| Ordering.TieGoesByLongitude | crates/cch-routing-lite/src/ch/ordering.rs:36-50 | of two points one east and one north of the other the longitude decides, also when they lie equally far apart both ways |
| LowWalks.DominatesThrough | crates/cch-routing-lite/src/ch/customize.rs:57-88 | a bound on walks below rank b extends to walks through b when it is at most the cheapest detour over b |
| Walks.Simplify | crates/cch-routing-lite/src/lib.rs:34-37 | every walk can be cut to one without repeated nodes that costs no more |
| Customize.OriginalWeights | crates/cch-routing-lite/src/ch/customize.rs:34-55 | after the first pass every weight is that of the cheapest input arc, witnessed by it; fails iff an input arc has no CCH arc |
| Customize.RelaxTriangle | crates/cch-routing-lite/src/ch/customize.rs:65-84 | one lower triangle: both directions are relaxed with the sum of their legs; fails iff one of the two sums leaves the cost domain |
| Customize.PhaseNext | crates/cch-routing-lite/src/ch/customize.rs:57-87 | relaxing all triangles over rank b turns cheapest-through-ranks-below-b into cheapest-through-ranks-up-to-b |
| Customize.CustomizeCch | crates/cch-routing-lite/src/ch/customize.rs:25-89 | on a filled structure succeeds iff no triangle of cheapest detours leaves the cost domain; the result is exact, and every weight has a witness of exactly its cost |
| Bounds.WeightExact | crates/cch-routing-lite/src/ch/customize.rs:34-88 | the customization lemma: each directional weight is the cost of the cheapest original directed walk whose inner ranks are below both ends, the sentinel iff there is none |
| Overflow.NoOverflowInWords | crates/cch-routing-lite/src/ch/customize.rs:57-87 | with arc ids that fit 32-bit words, as the pack stores them, no addition of customization leaves the cost domain, for any number of nodes |
| Overflow.OverflowNeedsArcs | crates/cch-routing-lite/src/ch/customize.rs:57-87 | a detour outside the cost domain needs a filled structure of at least 2^32 + 2 arcs: one of its legs is so long that its inner ranks, with two arcs up each, fill that many |
| Overflow.InnerBranches | crates/cch-routing-lite/src/ch/cch.rs:37-51 | inside a path between higher ends every rank has an arc to the nearest higher rank on either side |
| Bounds.NoTriangleOverflow | crates/cch-routing-lite/src/ch/customize.rs:69-77 | up to 0x80000003 nodes no addition of customization leaves the cost domain, whatever the arcs |
| Bounds.WeightBound | crates/cch-routing-lite/src/lib.rs:34-38 | a finite weight is at most (tail rank + 1), hence (n - 1), times the largest arc weight |
| Bounds.CustomizedPasses | crates/cch-routing-lite/src/ch/customize.rs:99-123 | customized weights pass the weight check, for every admitted node count |
| Weights.ValidateWitness | crates/cch-routing-lite/src/ch/customize.rs:125-211 | accepts exactly the witnesses that realize the weight: an original arc of that weight, or a triangle of earlier arcs whose legs add up to it |
| Weights.ValidateWeights | crates/cch-routing-lite/src/ch/customize.rs:99-123 | accepts exactly the weights of the right size, in range and all witnessed |
| Costs.Add | crates/cch-routing-lite/src/ch/customize.rs:214-222 | the checked sum with an absorbing sentinel; overflow iff both are finite and the sum reaches the sentinel |
| Search.UpwardSearch | crates/cch-routing-lite/src/ch/query.rs:75-102 | succeeds iff no arc behind a reached rank leaves the cost domain, and then every distance is the cheapest upward path, with a parent arc that attains it; ends in spite of stale heap entries |
| Search.PopFirst | crates/cch-routing-lite/src/ch/query.rs:85 | the heap yields its least entry by cost and then rank, and keeps the others |
| Search.Finished | crates/cch-routing-lite/src/ch/query.rs:85-101 | an empty heap means that every rank has its cheapest upward distance |
| Query.ChooseMeeting | crates/cch-routing-lite/src/ch/query.rs:28-46 | the least sum of the two distances, and among equals the lowest rank; overflow iff some sum leaves the cost domain |
| Query.ClimbBack | crates/cch-routing-lite/src/ch/query.rs:48-59 | following parents from the meeting ends at the source, along an upward path of exactly the distance; a parent is never missing |
| Query.QueryRanks | crates/cch-routing-lite/src/ch/query.rs:24-72 | None iff no rank is reached from both ends; otherwise the best meeting, with an up-down path of exactly its cost |
| Query.QueryNodes | crates/cch-routing-lite/src/ch/query.rs:15-73 | also for equal endpoints, answered by zero and no arcs |
| Optimality.WalkHasUpDown | crates/cch-routing-lite/src/ch/query.rs:15-73 | every walk is matched by an upward and a downward path over its highest rank that together cost no more |
| Optimality.AnswerOptimal | crates/cch-routing-lite/src/ch/query.rs:15-73 | on a built and customized structure no walk is cheaper than the answer |
| Optimality.AnswerWalk | crates/cch-routing-lite/src/ch/query.rs:48-72 | the answered path stands for an original walk of exactly the answered cost |
| Optimality.NoMeetingNoWalk | crates/cch-routing-lite/src/ch/query.rs:44-46 | no meeting means no walk with a cost inside the domain |
| QueryBounds.NoQueryOverflow | crates/cch-routing-lite/src/ch/query.rs:31-92 | up to 0x80000002 nodes, far more than the loader reads, no addition of a query on exact weights leaves the cost domain |
| Threshold.RefuseNeighbour | crates/cch-routing-lite/src/ch/query.rs:24-34 | arithmetic only: for any more nodes that bound fails, on a graph and a structure whose arc ids fit 32-bit words |
| Threshold.NeighbourRefused | crates/cch-routing-lite/src/ch/query.rs:29-34 | the two exact distances to the top of that graph add up past the domain, although an arc joins the two nodes |
| Unpack.ExpandWalk | crates/cch-routing-lite/src/ch/unpack.rs:22-57 | the expansion of a finite arc is a connected walk of original arcs below its tail, from end to end, of exactly its weight; tail rank is the measure |
| Unpack.UnpackArc | crates/cch-routing-lite/src/ch/unpack.rs:22-57 | the shared list grows by exactly that expansion; the cyclic-witness and missing-witness errors are never raised on a finite arc of an accepted pack |
| Unpack.UnpackPath | crates/cch-routing-lite/src/ch/unpack.rs:10-20 | the list for a path is the expansion of its arcs in order |
| Unpack.ExpandPathWalk | crates/cch-routing-lite/src/ch/unpack.rs:10-20 | the expansion of a connected path of query arcs is a connected walk of original arcs whose cost is that of the path |
| Unpack.OriginalNodePath | crates/cch-routing-lite/src/ch/unpack.rs:59-79 | succeeds iff the arcs exist and are connected from the source, and returns the walk they form |
| Pack.ValidatePack | crates/cch-routing-lite/src/lib.rs:545-562 | accepts exactly the packs of valid nodes, arcs, structure and witnessed weights: fewer than 2^32 nodes, WGS84 coordinates, no loops, weights from 1 to 2^32 - 2; large weights get the overflow error |
| Pack.BuildPack | crates/cch-routing-lite/src/lib.rs:138-160 | fails as invalid iff nodes, arcs or ranks are; where arc ids fit 32-bit words it succeeds iff also the arc weights are in the domain; a pack that is built is exact and passes its own loader; its arcs are the input in order of tail, head and weight |
| Pack.LegalGraphBuilds | crates/cch-routing-lite/src/lib.rs:138-160 | where arc ids fit 32-bit words every legal graph builds, for every rank permutation and any number of nodes |
| Pack.WalkRearranged | crates/cch-routing-lite/src/lib.rs:140-141 | sorting the arcs leaves every walk a walk, at its cost |
| Ordering.EmittedOnce | crates/cch-routing-lite/src/ch/ordering.rs:11-58 | such an order names every point exactly once |
| Router.RouteNodes | crates/cch-routing-lite/src/lib.rs:311-333 | the geometry is the points of the nodes of a walk, in order, from source to target; on every accepted pack a route is a connected original walk of the answered cost, and the not-connected and not-reaching errors never occur; on a built pack no walk is cheaper, no-route means unreachable, and up to 0x80000002 nodes a route comes back iff the target is reachable |
| Router.AnswerCheapest | crates/cch-routing-lite/src/lib.rs:311-312 | on a built pack the answer is the minimum over all directed walks |
| Router.NoMeetingUnreachable | crates/cch-routing-lite/src/lib.rs:311-312 | on a built pack no meeting means that the target is unreachable |
| Router.CheapestForInput | crates/cch-routing-lite/src/lib.rs:140-141 | cheapest over the arcs of the pack is cheapest over the input of the builder |
| Router.RouteLeg | crates/cch-routing-lite/src/lib.rs:304-333 | both ends are snapped first, then the route between the snapped nodes |
| Router.RouteMany | crates/cch-routing-lite/src/lib.rs:337-380 | all legs or none; the stitched geometry is, point by point, one original walk at the total weight that comes by the node of each control in order, back to the first for a loop; gain and loss are those of the whole geometry if they fit 64 bits, and the distance is within half a metre a leg of its length; on a built pack of up to 0x10000001 nodes the call succeeds iff there are 2 to 16 controls and every leg asked for can be routed |
| Router.LegsWeight | crates/cch-routing-lite/src/lib.rs:364-368 | on such a pack the weights of up to 16 legs add up within 64 bits |
| Router.RouteMetrics | crates/cch-routing-lite/src/lib.rs:589-607 | rounded length, gain and loss of a geometry, each saturating |
| Router.OneStepTotals | crates/cch-routing-lite/src/lib.rs:589-607 | length, gain and loss from one point to the next |
| Router.TotalsOfGeometry | crates/cch-routing-lite/src/lib.rs:358-376 | the wrapping sums of the legs are the gain and loss of the stitched geometry if those fit 64 bits, and its length up to half a metre a leg |
| Router.JoinedTotals | crates/cch-routing-lite/src/lib.rs:358-362 | length, gain and loss add up when two geometries are joined at a shared point |
| Router.GainMinusLoss | crates/cch-routing-lite/src/lib.rs:594-601 | gain minus loss is the difference of the end elevations |
| Hilbert.ZxyToId | crates/tile-server-lite/src/lib.rs:529-559 | rejects exactly the invalid tiles and otherwise computes the curve id in spite of wrapping subtraction |
| Hilbert.Round | crates/tile-server-lite/src/lib.rs:545-557 | one round of the loop with wrapping words agrees with the exact recursion on the bits still to be read |
| Hilbert.TileIdBijective | crates/tile-server-lite/src/lib.rs:529-559 | the valid tiles up to zoom 31 correspond one to one to the ids below (4^32 - 1) / 3 |
| Hilbert.TileIdInjective | crates/tile-server-lite/src/lib.rs:529-559 | different tiles have different ids |
| Hilbert.ZoomOne | crates/tile-server-lite/src/lib.rs:529-554 | the ids of zoom 1: down the left side and up the right one, as the specification draws it |
| Hilbert.ZoomEnds | crates/tile-server-lite/src/lib.rs:529-554 | the curve of every zoom begins at the north-west tile and ends at the north-east one |
| Hilbert.ZoomBlock | crates/tile-server-lite/src/lib.rs:542 | the ids of a zoom fill one block, behind those of all lower zooms |
| Hilbert.TileIdsConnected | crates/tile-server-lite/src/lib.rs:544-557 | consecutive ids of a zoom are tiles that share an edge |
| Hilbert.CellOfIndex | crates/tile-server-lite/src/lib.rs:544-557 | position along the curve and cell are inverse: the cell of a cell's index |
| Hilbert.IndexOfCell | crates/tile-server-lite/src/lib.rs:544-557 | and the index of an index's cell |
| Hilbert.IdsFit | crates/tile-server-lite/src/lib.rs:542-548 | every id fits a 64-bit word, so the accumulation never overflows |
| Directory.ReadVarint | crates/tile-server-lite/src/lib.rs:508-522 | the loop over groups of seven bits reads what the recursive form defines, with the same errors |
| Directory.WordReadsBack | crates/tile-server-lite/src/lib.rs:508-522 | every 64-bit word is read back from its encoding |
| Directory.ParseDirectory | crates/tile-server-lite/src/lib.rs:463-506 | the four column loops compute the parse by columns |
| Directory.OneEntryPrinted | crates/tile-server-lite/tests/http_contract.rs:98-124 | the bytes of one small entry: count, id, run, length, offset plus one |
| Directory.TwoEntriesPrinted | crates/tile-server-lite/tests/http_contract.rs:98-124 | the bytes of two entries side by side: columns, an id difference, a zero for the second offset |
| Directory.ParsePrint | crates/tile-server-lite/tests/http_contract.rs:98-124 | parsing undoes printing, for every entry list with ascending ids and every choice of the short offset form; the count guard rejects no printed list |
| Directory.Parse | crates/tile-server-lite/src/lib.rs:463-527 | every accepted directory is sorted by id |
| Spelling.NumberIff | crates/tile-server-lite/src/lib.rs:508-522 | for every byte string: the number at an offset is the one whose base 128 digits stand there, in ten bytes at most and the tenth a single bit; without such digits there is none |
| Spelling.DirectoryIff | crates/tile-server-lite/src/lib.rs:463-506 | for every byte string: it is read as a directory iff its numbers are a count and four columns that describe that directory: ids by differences, runs, lengths, and offsets plus one or a zero to continue, all in their words |
| Archive.Locate | crates/tile-server-lite/src/lib.rs:524-527 | the last entry whose id is at most the wanted one |
| Archive.RelativeData | crates/tile-server-lite/src/lib.rs:386-407 | returned bytes lie inside the region; fails iff the range leaves it |
| Archive.LookupIsScan | crates/tile-server-lite/src/lib.rs:354-376 | on a well-formed tree of directories the bounded descent finds exactly what a linear scan of all its runs finds |
| Archive.RequestIsScan | crates/tile-server-lite/src/lib.rs:350-376 | on a well-formed archive a tile request returns the bytes of the scanned run with the compression of the archive, or nothing when no run covers the id |
| Archive.Descend | crates/tile-server-lite/src/lib.rs:354-376 | the loop of at most four levels is the recursive lookup, errors included |
| Archive.LeafIsRead | crates/tile-server-lite/src/lib.rs:371-408 | a leaf directory is what its bytes in the leaf section parse to, plain or unpacked, up to a mebibyte, and is read iff they do |
| Archive.LeafIsRefused | crates/tile-server-lite/src/lib.rs:371-408 | which error a leaf directory is refused with: out of its section, unknown compression, broken stream, too large, or malformed |
| Archive.FourLevels | crates/tile-server-lite/src/lib.rs:354-376 | four levels are searched: on the last a run is answered, and an entry that leads on is refused, whatever the archive |
| Archive.GetTile | crates/tile-server-lite/src/lib.rs:350-376 | an invalid tile yields nothing, any other the bytes for its id with the compression of the archive |
| Archive.HeaderRange | crates/tile-server-lite/src/lib.rs:410-426 | an accepted region lies inside the file |
| Archive.LittleEndianReadsBack | crates/tile-server-lite/src/lib.rs:428-436 | a header number is read back from its bytes |
| Archive.HeaderIsRefused | crates/tile-server-lite/src/lib.rs:322-344 | a file is refused as invalid iff it is shorter than the header, lacks the magic or the version, or names a section beyond its end; after that an unknown tile type is refused |
| Archive.Open | crates/tile-server-lite/src/lib.rs:322-344 | an opened archive has the magic, regions inside the file, the tile type of its header and a sorted root |
| Layout.PlantedIsWellFormed | crates/tile-server-lite/src/lib.rs:350-408 | a tree of directories that are stored as printed or packed is well-formed for the lookup |
| Layout.PlantedRuns | crates/tile-server-lite/src/lib.rs:350-376 | the runs that its directories hold are the runs of the tree, in order |
| Layout.OneRunServes | crates/tile-server-lite/src/lib.rs:350-376 | at most one run of the tree covers an id |
| Layout.PlantedTreeServes | crates/tile-server-lite/src/lib.rs:350-376 | a request for an id that a run covers returns the run's stretch of the tile section, any other nothing |
| Layout.HeadedOpens | crates/tile-server-lite/src/lib.rs:322-344 | a file whose header names its sections is opened to exactly those, its tile type and its root |
| Layout.FileServes | crates/tile-server-lite/src/lib.rs:322-376 | end to end: such a file is opened, and each valid tile is answered by the bytes of the run that covers its id, every other by nothing |
| Writer.WrittenTilesAreServed | crates/tile-server-lite/tests/http_contract.rs:70-128 | a header, a printed root, printed leaves and tile data put together: the file is opened and serves each run's bytes of the tile data, and nothing else |
| Tiles.Window.Clip | packages/shared/tiles.js:46-57 | keeps exactly the parameters that satisfy the half line |
| Tiles.SegmentIntersectsClosedTile | packages/shared/tiles.js:35-66 | true iff some point of the segment lies in the closed tile |
| Tiles.AddSegment | packages/shared/tiles.js:78-99 | adds exactly the closed tiles of the grid that the segment touches: the candidate rectangle misses none |
| Tiles.SegmentCells | packages/shared/tiles.js:68-102 | exactly the closed tiles of the grid that the polyline touches; fails iff there are fewer than two points |
| Tiles.BboxCells | packages/shared/tiles.js:104-121 | exactly the tiles of the clamped index rectangle, each once, column by column |
| Tiles.BboxCellsAre | packages/shared/tiles.js:104-121 | those are the tiles of the grid that hold a point of the rectangle, the last row or column also for what lies behind the grid, the first for what lies before it |
| Tiles.PrefilterComplete | packages/shared/tiles.js:68-121 | a polyline that meets a query rectangle at a point on the grid shares a cell with it |
| Tiles.SharesCellIff | packages/shared/tiles.js:68-121 | a polyline and a rectangle share a cell iff the polyline passes through the region that the cells of the rectangle cover |
| Tiles.NoCellsIffOffGrid | packages/shared/tiles.js:78-99 | a polyline has no cells iff it never meets the grid |
| Tiles.NorthEdgeMissed | packages/shared/tiles.js:26-29 | along a latitude between the edge of the grid and the accepted limit a polyline has no cells, while a rectangle around it has cells of the first row |
| Polyline.EncodeCoordinate | packages/shared/polyline.js:3-12 | the loop prints the groups of the folded number |
| Polyline.GroupsAreDigits | packages/shared/polyline.js:3-12 | a number is printed by its digits to the base 32, least first, 95 added to each but the last, 63 to the last |
| Polyline.OnePointText | packages/shared/polyline.js:14-36 | the text of one point is its latitude and then its longitude in millionths of a degree |
| Polyline.SeedText | apps/api/migrations/0002_seed_segments.sql:1-28 | the polyline that the database is seeded with, character by character |
| Polyline.EncodePolyline6 | packages/shared/polyline.js:14-36 | prints the differences of the rounded points; fails as the source does on no points and on points out of range |
| Polyline.DecodePolyline6 | packages/shared/polyline.js:38-69 | the loops compute the recursive decoding, errors included |
| Polyline.ViewerDecodePolyline6 | apps/viewer/src/lib/segments.ts:32-51 | the loops of the viewer compute its recursive decoding, errors included |
| Polyline.OrIsSum | packages/shared/polyline.js:51-52 | or-ing a group above the bits collected adds it |
| Polyline.CoordinateReadsBack | apps/viewer/src/lib/segments.ts:14-30 | every 31-bit number is read back from its groups |
| Polyline.SharedRoundTrip | packages/shared/polyline.js:14-69 | decoding an encoding gives the points rounded to a millionth of a degree iff no rounded latitude passes 85051128 millionths; otherwise a range error |
| Polyline.LimitNotReadBack | packages/shared/polyline.js:22-66 | the latitude limit itself is encoded but not decoded |
| Polyline.ViewerRoundTrip | apps/viewer/src/lib/segments.ts:32-51 | the viewer decodes the encoding of two or more points to the same rounded points, longitude first |
| Polyline.ViewerAgreesWithShared | apps/viewer/src/lib/segments.ts:14-51 | whatever the viewer accepts the shared decoder reads alike, iff its latitudes are within the limit |
| Polyline.RoundedClose | packages/shared/polyline.js:24-25 | a rounded point is within half a millionth of a degree, and halves go up |
| PolylineText.NumberEnds | packages/shared/polyline.js:46-58 | both decoders read up to the first code unit below 95; the viewer refuses code units outside 63 to 126 and more than seven groups |
| PolylineText.SharedAccepts | packages/shared/polyline.js:38-69 | for every text: two numbers make a point, all points lie inside the bounds, and only a text that is empty, ragged at its end or odd in numbers is called malformed |
| PolylineText.ViewedInside | apps/viewer/src/lib/segments.ts:32-51 | what the viewer accepts has two points at least, none beyond a pole or the antimeridian |
| PolylineText.ViewerReadsIff | apps/viewer/src/lib/segments.ts:14-51 | of the texts that the shared decoder reads the viewer reads exactly those of two points or more with legible code units and short numbers, and reads the same points |
| Publish.Database.PurgeBatch | apps/api/src/index.ts:534-539 | removes exactly the segments that are no seeds and whose last minute has come, and their cells |
| Publish.Database.InsertBatch | apps/api/src/index.ts:573-601 | inserts the segment and all its cells, or nothing when an id, a key or a cell is there already |
| Publish.PublishSegment | apps/api/src/index.ts:599-674 | one request with the database to itself runs steps of the state machine, and comes to exactly the status and the store that the source promises: 400, 200 or 409, 413, 500, or 201 with a row kept for 1440 minutes |
| Publish.StoreStaysConsistent | apps/api/src/index.ts:534-674 | in every interleaving at most one segment has a key, and the cell rows are exactly those of the stored segments |
| Publish.StoredUntilItsEnd | apps/api/src/index.ts:534-539 | in every interleaving a stored segment stays as it is until a purge at or behind its last minute; seeds stay for ever |
| Publish.PurgeIsExact | apps/api/src/index.ts:534-539 | after a purge no segment but seeds is left at or behind its last minute, and no other is gone |
| Publish.AllAreDayLong | apps/api/src/index.ts:618-634 | if every segment at first is kept for 1440 minutes, so is every one in every interleaving |
| Publish.RetriesAgreeForADay | apps/api/src/index.ts:599-674 | so all successes for a key name one segment unless a purge between them comes 1440 minutes or more behind its creation |
| Publish.SuccessAnswersRequest | apps/api/src/index.ts:614-674 | in every interleaving a success of the second version returns the very publication that was sent, under its key; a 201 names a row with the clock of the request as creation and 1440 minutes to live |
| Publish.RetriesAgree | apps/api/src/index.ts:599-674 | in every interleaving, all successes for a key name one segment unless a purge between them was made at or after its expiry, and at most the first says that it was created |
| Publish.RetriesNeverConflict | apps/api/src/index.ts:617-620 | requests that repeat one publication under an unused key are never answered by a conflict |
| Publish.StepKeeps | apps/api/src/index.ts:599-674 | each atomic step of each request keeps the invariant, failed and lost writes included |
| Draft.CoherentIffCareful | packages/route-studio/index.js:45-123 | an edit of a draft whose legs fit keeps them fitting iff it is careful: exact conditions for moves, previews, removals, reorderings and leg results |
| Draft.RemovedStays | packages/route-studio/index.js:68-78 | a removal leaves a leg in a wrong place iff a leg is stored behind the removed point whose ends differ |
| Draft.ReorderedStays | packages/route-studio/index.js:80-96 | a reordering keeps the legs fitting but for a stored way back of a two-point loop |
| Draft.MovedStays | packages/route-studio/index.js:454-459 | so does a move |
| Draft.LastThreeAreCareful | packages/route-studio/index.js:68-78 | on an open route removing one of the last three points is always careful |
| StaleLegs.RemovalMisplaces | packages/route-studio/index.js:467-504 | a draft of four points, reached from a new one: removing the first leaves the stored leg in a wrong place |
| StaleLegs.TwoPointLoopKeepsWayBack | packages/route-studio/index.js:485-517 | a two-point loop, reached from a new draft: moving a point and turning the two around both keep the stale way back |
| Draft.MoveDropsExactly | packages/route-studio/index.js:454-459 | a move drops the legs that end at the moved point and no others |
| Draft.ReorderDropsExactly | packages/route-studio/index.js:506-517 | a reordering drops the legs with a new control point at either end and no others |
| Draft.AddDropsExactly | packages/route-studio/index.js:477-483 | adding a point keeps every leg but the way back, whose place the new leg takes |
| Draft.LegsStayCoherent | packages/route-studio/index.js:45-123 | in every run of careful edits, undos and redos each stored leg lies between the points it was computed for |
| Draft.ReachableSound | packages/route-studio/index.js:253-275 | in every run the stacks stay within the history limit together, and control points have distinct ids although undo rewinds the counter |
| Draft.UndosThenRedos | packages/route-studio/index.js:253-275 | k undos and k redos restore content and stacks up to revision numbers |
| Draft.RedosThenUndos | packages/route-studio/index.js:253-275 | and the other way round |
| Draft.UndoneCommit | packages/route-studio/index.js:324-346 | undoing a commit restores the content, and the undo stack but for an entry pushed out by the limit; redoing brings the edit back |
| Draft.PublishedIsComplete | packages/route-studio/index.js:223-251 | in every run a draft that is ready, publishing or published has every leg, a legal name and nothing listed for recomputation |
| Draft.PublishedAsPrepared | packages/route-studio/index.js:223-251 | between ready and published the content does not change |
| LegList.MissingLegForgotten | packages/route-studio/index.js:467-475 | three points added in a row: a missing leg is no longer listed |
| LegList.ListsMissingIff | packages/route-studio/index.js:45-123 | exactly when each edit leaves every missing leg listed: an edit of the points does iff no leg is missing but those it drops |
| LegList.ListsLegsIff | packages/route-studio/index.js:68-123 | exactly when each edit leaves only legs listed: opening a loop does not, nor does removing one of the last two points of an open route |
| LegList.ListAfterResults | packages/route-studio/index.js:115-123 | leg results take their own legs off the list and nothing else |
| LegList.AllResultsEmptyList | packages/route-studio/index.js:115-123 | a result for every leg empties the list iff only legs are listed |
| LegList.DeadLegUnprepared | packages/route-studio/index.js:223-229 | a draft that lists what is no leg cannot be prepared, whatever results it is given |
| LegList.ShortenedRouteUnprepared | packages/route-studio/index.js:68-78 | so it is behind the removal of one of the last two points of an open route |
| LegList.OpenedLoopUnprepared | packages/route-studio/index.js:98-123 | and behind every loop that is opened |
| Edits.EditPossible | packages/route-studio/index.js:45-113 | an edit of a point is possible iff there is such a point, and a reordering iff the target is a place |
| Edits.EditMovesPoints | packages/route-studio/index.js:45-113 | what each edit does to the points, their numbers, the loop and the name |
| Edits.RemoveDropsExactly | packages/route-studio/index.js:68-78 | a removal drops the legs at the removed point, and the way back if an end went; the others keep their places |
| Edits.LoopKeepsOtherLegs | packages/route-studio/index.js:98-113 | closing or opening a loop adds a missing way back or takes it away |
| Edits.LegIsStored | packages/route-studio/index.js:115-123 | a result is stored iff there is such a leg and it has two points; it leaves the list |
| Edits.SelectionAfter | packages/route-studio/index.js:149-168 | a trim is possible iff its range lies on the route and stores exactly that range; a reset removes it; an edit of the route fits it, leaving alone what fits; nothing else touches it |
| Edits.RangesStayOrdered | packages/route-studio/index.js:593-607 | in every run, through undo and redo, a stored range begins at 0 or later and does not end before it begins |
| Edits.EditIsRemembered | packages/route-studio/index.js:324-346 | previews and leg results leave the history alone; any other edit pushes the content before it and drops what could be redone |
| Edits.RevisionCounts | packages/route-studio/index.js:324-341 | the revision counts every call that succeeds but previews, leg results, and undo or redo of nothing |
| Names.NormalizedIsWords | packages/route-studio/index.js:29-37 | a name becomes its words with single spaces, and is accepted iff that is 1 to 80 printable characters |
| Names.AcceptedIsPrintable | packages/route-studio/index.js:29-37 | an accepted name holds no control character, no direction mark and no white space but single spaces inside |
| Names.WhiteSpaceSeparates | packages/route-studio/index.js:29-37 | each kind of white space separates words |
| Draft.NormalizedTwice | packages/route-studio/index.js:29-37 | a normalized name normalizes to itself |
| Draft.Working.InvalidateLegs | packages/route-studio/index.js:467-475 | drops exactly the listed legs, fits the array to the leg count and lists them |
| Draft.Mutate | packages/route-studio/index.js:324-341 | every edit on the working copy is the edit as specified, with its errors and its place in the history |
| Controller.RetriesSendTheSame | apps/mobile/app.js:103-271 | in every run of edits, failures, lost replies, stale stores and restarts two publications sent under one key carry the same payload |
| Controller.StepKeeps | apps/mobile/app.js:147-275 | each call keeps the invariant that relates the pending key, the store and everything sent |
| Controller.KeyStays | apps/mobile/app.js:201-274 | a pending key stays through offers, refusals, lost answers, restarts and resumed editing |
| Controller.RetrySendsTheSameKey | apps/mobile/app.js:201-266 | in every run two publications with nothing else between them go out under one key with one payload |
| Controller.RestartResends | apps/mobile/app.js:147-165 | after a lost answer and a restart the draft comes back ready, and confirming sends the same under the same key |
| Controller.OfferedIff | apps/mobile/app.js:201-219 | exactly when a publication is offered, and what that leaves: the normalized name, the pending key or a new one, all saved |
| Controller.ChangesAreSaved | apps/mobile/app.js:96-103 | whatever a call changes in draft, name or key is in the store afterwards |
| Controller.EditIsSaved | apps/mobile/app.js:126-145 | an edit leaves no key, no moved point and no published segment pending, and is saved; one that throws changes nothing |
| Controller.KeyGivenUp | apps/mobile/app.js:187-230 | cancelling, naming, a new range and a new draft give the key up and send nothing |
| Controller.PayloadTells | packages/route-studio/index.js:286-308 | contents with one payload agree in legs, loop, selection, number of points and name |
| Controller.LegsFitThroughout | apps/mobile/app.js:112-145 | in every run of careful edits the legs that the controller computes lie between their control points, in the app and in the store |
| Controller.RoutedEditListsNothing | apps/mobile/app.js:112-125 | when every listed leg is routed nothing is left listed, not even the leg of an opened loop |
| Controller.RoutedEditComplete | apps/mobile/app.js:112-125 | when every listed leg is routed the route is complete iff it has legs and every missing one was listed |
| Controller.App.Tap | apps/mobile/app.js:126-171 | a tap moves the point being moved or adds one up to sixteen, routes the listed legs, saves, and keeps the invariant |
| Controller.App.RecomputeLegs | apps/mobile/app.js:112-125 | the loop routes the listed legs in order up to the first failure |
| Controller.App.Request | apps/mobile/app.js:201-219 | offers the normalized draft, draws a key only if there is none, and keeps the invariant of keys and payloads |
| Controller.App.Confirm | apps/mobile/app.js:230-266 | saves the key before sending, sends the payload of the frozen draft under it, keeps it unless the reply is a success, and keeps the invariant |
| Controller.App.BootApp | apps/mobile/app.js:147-165 | restores draft, name and key together, and keeps the invariant |
| Delivery.NoRetryConflicts | apps/api/src/index.ts:617-662 | client and server together, whatever other clients send under other keys: no request of the app is ever answered by a conflict |
| Delivery.RetriedIsOneSegment | apps/api/src/index.ts:599-674 | what the app sends again after lost or refused answers and restarts is one segment at the server, holding what was sent, unless a purge between the answers comes 1440 minutes or more behind its creation |
| Payloads.ComposeGeometry | packages/route-studio/index.js:125-143 | the nested loops string the legs together with shared points once, and give nothing when a leg is missing |
| Payloads.ControlAnchorIndexes | packages/route-studio/index.js:310-322 | the loop gives the start and the clipped end of each routed leg, counted by lengths |
| Payloads.AnchorDrift | packages/route-studio/index.js:310-322 | the end of the first legs lies behind its anchor by exactly the number of legs that do not begin where the one before ends |
| Payloads.BuildPublishPayload | packages/route-studio/index.js:286-308 | fails iff name or geometry does; otherwise the ends and the first places of the inner stops, each once and in order |
| Payloads.ControlPointsMarkStops | packages/route-studio/index.js:291-307 | the list ascends strictly from 0 to the last point, and what lies between are exactly the first places of positions of inner stops |
| Payloads.SelectedCount | packages/route-studio/index.js:294-299 | as many indexes as inner stops at most, and as many iff the stops are met at different places that are no ends |
| Payloads.VerdictIff | apps/api/src/index.ts:318-329 | the test of the server takes exactly the lists of 2 to 16 indexes that ascend strictly from the first point to the last; longer ones get 413, all others 400 |
| Payloads.VerdictOnDraft | apps/api/src/index.ts:318-328 | the server takes the list of every draft of 2 to 16 routed points but for a loop of 16 whose inner stops all lie apart, which it answers by 413 |
| Payloads.ApartIff | packages/route-studio/index.js:286-322 | on an untrimmed unbroken route the inner stops lie apart iff all legs begin at different positions |
| Payloads.LoopOfSixteen | apps/api/src/index.ts:318-328 | so an untrimmed loop of 16 is refused iff its legs begin at 16 different positions |
| SentPayloads.SentControlPoints | apps/api/src/index.ts:318-328 | in every run of the app, whatever it sends passes the test of the control points, except a loop of 16 whose inner stops all lie apart |
| SentPayloads.StepKeeps | apps/mobile/app.js:147-275 | each call keeps drafts, history and store within 16 points and legs of two points, and sends only complete routes |
| SentPayloads.AppHistory | apps/mobile/app.js:166-171 | in every run the app holds sixteen points at most, and its history limit is the default of fifty |
| SentPayloads.LoopOfSixteenRefused | apps/mobile/app.js:166-191 | a run that leads there: 16 taps at different positions and a closed loop, all legs routed, offered, sent and refused by 413 |

## Left out

- Pack.BuildPack: offsets and arc ids are unbounded numbers here; what is stated about the code is stated where they fit 32-bit words (`Pack.FitsWords`), and the truncating casts beyond are not modelled. The loader's 32 MiB limit on a pack is not modelled either.
- Customize.CustomizeCch: the four weight vectors are one value that each relaxation replaces, not four buffers changed in place.
- Search.PopFirst: the binary heap is a multiset with extraction of the least entry; the layout of the heap is not modelled.
- Ordering.Dissect: slices are split as values instead of in place, coordinates are reals, so the ordering of negative zero and the floating-point comparison are not modelled.
- Router.RouteMetrics: the haversine distance is a parameter, and distances are exact reals that are rounded once, as the sum is.
- Router.RouteMany: sums of the legs' metrics wrap at 64 bits, as in a release build; the overflow check of a debug build is not modelled.
- Router.RouteLeg: snapping is a deterministic parameter into the nodes; the maximum snap distance is not modelled; the second copy of the geometry is dropped.
- Archive.Open: reading and mapping the file are not modelled, and gunzip is a parameter.
- Tiles.SegmentCells: works on tile-space points; the Mercator projection, the tile key strings and their sorting are not modelled.
- Polyline.EncodePolyline6: points are reals, so the product with 1e6 is exact; values that are not finite numbers are not modelled.
- Publish.PublishSegment: body parsing, validation, hashing, rate limiting and CORS end in a refusal status before the database is used; how they decide is not modelled. Geometry metrics and the JSON columns are part of an opaque publication.
- Publish.SuccessAnswersRequest: the first version of the API ignores the body of a repeated request, as the source does, so it is only promised the key.
- Draft.Mutate: control points and leg points are already validated; elevations are already rounded; the length of the composed route is a parameter, since it is floating-point; trimming and profiles are not modelled. The list of invalidated legs is a set; it is sorted in the source.
- Draft.NormalizedTwice: Unicode composition is not modelled, and the length limit counts characters of the model's string.
- Payloads.BuildPublishPayload: the trimmed route is a parameter, since trimming interpolates floating-point distances; other tests of the server on the geometry are not modelled.
- Controller.App.Confirm: messages, profiles and nearby segments of the controller's state are not modelled; the payload is represented by what it is computed from.
- Pack serialization, compression, magic bytes, HTTP serving and byte ranges, the C and WASM bridges, benchmarks, user interface components and deep links: input and output around the modelled core.
