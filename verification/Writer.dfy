/** A writer of archives: a header, a root directory, leaf directories one after
    another, and tile data. What it writes is opened, and its tiles are served. */
module Writer {
  import opened Common
  import opened Directory
  import opened Archive
  import opened Layout
  import Hilbert

  /** A leaf directory: its runs, and the bytes it is printed as. */
  datatype Leaf = Leaf(runs: seq<Node>, bytes: seq<byte>)

  /** The ids of the runs ascend and end in time, and tile data lies in the section. */
  predicate RunsOk(runs: seq<Node>, end: nat, tileBytes: nat) {
    && runs != [] && end < WORD64
    && forall k | 0 <= k < |runs| ::
         && runs[k].Run? && 0 < runs[k].count && runs[k].id + runs[k].count <= End(runs, k, end)
         && runs[k].offset + runs[k].length <= tileBytes
  }

  lemma {:induction false} IdsRise(runs: seq<Node>, end: nat, tileBytes: nat, i: nat, j: nat)
    requires RunsOk(runs, end, tileBytes) && i <= j < |runs|
    ensures runs[i].id <= runs[j].id && runs[j].id < end
    decreases |runs| - i
  {
    if i < j {
      IdsRise(runs, end, tileBytes, i + 1, j);
    } else if j + 1 < |runs| {
      IdsRise(runs, end, tileBytes, j + 1, j + 1);
    }
  }

  /** Where the ids of leaf k end. */
  function LeafEnd(leaves: seq<Leaf>, k: nat, hi: nat): nat {
    if k + 1 < |leaves| && leaves[k + 1].runs != [] then leaves[k + 1].runs[0].id else hi
  }

  predicate LeafOk(leaves: seq<Leaf>, k: nat, hi: nat, tileBytes: nat)
    requires k < |leaves|
  {
    RunsOk(leaves[k].runs, LeafEnd(leaves, k, hi), tileBytes)
  }

  /** What the writer takes: leaves of runs that ascend to hi. */
  predicate Writable(leaves: seq<Leaf>, hi: nat, tileBytes: nat) {
    hi < WORD64 && forall k | 0 <= k < |leaves| :: LeafOk(leaves, k, hi, tileBytes)
  }

  lemma {:induction false} LeafIdsRise(leaves: seq<Leaf>, hi: nat, tileBytes: nat, i: nat, j: nat)
    requires Writable(leaves, hi, tileBytes) && i <= j < |leaves|
    ensures leaves[i].runs != [] && leaves[j].runs != [] && leaves[i].runs[0].id <= leaves[j].runs[0].id < hi
    decreases |leaves| - i
  {
    assert LeafOk(leaves, i, hi, tileBytes);
    IdsRise(leaves[i].runs, LeafEnd(leaves, i, hi), tileBytes, 0, 0);
    if i < j {
      LeafIdsRise(leaves, hi, tileBytes, i + 1, j);
    } else if j + 1 < |leaves| {
      LeafIdsRise(leaves, hi, tileBytes, j + 1, j + 1);
    }
  }

  /** The leaf section, leaf after leaf. */
  function LeafSection(leaves: seq<Leaf>): seq<byte> {
    if leaves == [] then [] else LeafSection(leaves[..|leaves| - 1]) + leaves[|leaves| - 1].bytes
  }

  /** The node of leaf k: its first id, and where its bytes lie in the section. */
  function LeafNode(leaves: seq<Leaf>, k: nat): Node
    requires k < |leaves| && leaves[k].runs != []
  {
    Node.Below(leaves[k].runs[0].id, |LeafSection(leaves[..k])|, |leaves[k].bytes|, leaves[k].runs)
  }

  predicate NoneEmpty(leaves: seq<Leaf>) {
    forall k | 0 <= k < |leaves| :: leaves[k].runs != []
  }

  function RootNodes(leaves: seq<Leaf>): (r: seq<Node>)
    requires NoneEmpty(leaves)
    ensures |r| == |leaves| && forall k | 0 <= k < |r| :: r[k] == LeafNode(leaves, k)
  {
    seq(|leaves|, k requires 0 <= k < |leaves| => LeafNode(leaves, k))
  }

  lemma {:induction false} LeafPlace(leaves: seq<Leaf>, k: nat, n: nat)
    requires k < n <= |leaves|
    ensures At(LeafSection(leaves[..n]), |LeafSection(leaves[..k])|, leaves[k].bytes)
  {
    assert leaves[..n][..n - 1] == leaves[..n - 1];
    if k < n - 1 {
      LeafPlace(leaves, k, n - 1);
    }
  }

  /** All runs of the leaves, in order. */
  function Runs(leaves: seq<Leaf>): seq<Node> {
    if leaves == [] then [] else leaves[0].runs + Runs(leaves[1..])
  }

  lemma {:induction false} RunsOfRoot(leaves: seq<Leaf>, nodes: seq<Node>)
    requires |nodes| == |leaves| && forall k | 0 <= k < |nodes| :: nodes[k].Below? && nodes[k].nodes == leaves[k].runs
    requires forall k | 0 <= k < |leaves| :: AllAreRuns(leaves[k].runs)
    ensures AllRuns(nodes) == Runs(leaves)
  {
    if leaves != [] {
      RunsOfRoot(leaves[1..], nodes[1..]);
      RunsAlone(leaves[0].runs);
    }
  }

  predicate AllAreRuns(nodes: seq<Node>) {
    forall r | r in nodes :: r.Run?
  }

  lemma {:induction false} RunsAlone(runs: seq<Node>)
    requires AllAreRuns(runs)
    ensures AllRuns(runs) == runs
  {
    if runs != [] {
      RunsAlone(runs[1..]);
    }
  }

  lemma WritableRuns(leaves: seq<Leaf>, hi: nat, tileBytes: nat)
    requires Writable(leaves, hi, tileBytes)
    ensures NoneEmpty(leaves) && forall k | 0 <= k < |leaves| :: AllAreRuns(leaves[k].runs)
  {
    forall k | 0 <= k < |leaves|
      ensures leaves[k].runs != [] && AllAreRuns(leaves[k].runs)
    {
      assert LeafOk(leaves, k, hi, tileBytes);
    }
  }

  // Sections and header.

  const MAGIC: seq<byte> := [80, 77, 84, 105, 108, 101, 115, 3]

  /** Where root, metadata, leaves and tiles lie, and how long they are. */
  function Fields(root: nat, leaves: nat, tiles: nat): (r: seq<nat>)
    ensures |r| == 8
  {
    [127, root, 127 + root, 0, 127 + root, leaves, 127 + root + leaves, tiles]
  }

  /** Eight bytes each. */
  function Numbers(values: seq<nat>): (r: seq<byte>)
    ensures |r| == 8 * |values|
  {
    if values == [] then [] else Numbers(values[..|values| - 1]) + ToLittleEndian(values[|values| - 1], 8)
  }

  lemma {:induction false} NumberPlace(values: seq<nat>, k: nat)
    requires k < |values|
    ensures At(Numbers(values), 8 * k, ToLittleEndian(values[k], 8))
  {
    if k < |values| - 1 {
      NumberPlace(values[..|values| - 1], k);
    }
  }

  /** A header with these fields, plain directories and tiles of this type. */
  predicate Named(file: seq<byte>, values: seq<nat>, tileType: byte) {
    && |file| >= 127 && file[..8] == MAGIC && file[8..72] == Numbers(values)
    && file[97] == 1 && file[98] == tileType
  }

  /** The file is the header and the three sections behind it. */
  predicate Assembled(file: seq<byte>, root: seq<byte>, leaves: seq<byte>, tiles: seq<byte>, tileType: byte) {
    var leavesAt := 127 + |root|;
    var tilesAt := leavesAt + |leaves|;
    && |file| == tilesAt + |tiles| && Named(file, Fields(|root|, |leaves|, |tiles|), tileType)
    && file[127..leavesAt] == root && file[leavesAt..tilesAt] == leaves && file[tilesAt..] == tiles
  }

  function Zeros(n: nat): (r: seq<byte>)
    ensures |r| == n
  {
    seq(n, i => 0)
  }

  /** There is such a file for any sections. */
  lemma CanAssemble(root: seq<byte>, leaves: seq<byte>, tiles: seq<byte>, tileType: byte) returns (file: seq<byte>)
    ensures Assembled(file, root, leaves, tiles, tileType)
  {
    var start := MAGIC + Numbers(Fields(|root|, |leaves|, |tiles|));
    var rest := Zeros(25) + [1, tileType] + Zeros(28);
    assert start[..8] == MAGIC && start[8..] == Numbers(Fields(|root|, |leaves|, |tiles|));
    assert rest[25] == 1 && rest[26] == tileType;
    file := start + rest + (root + leaves + tiles);
    assert file[..72] == start && file[72..127] == rest;
    assert file[..8] == file[..72][..8] && file[8..72] == file[..72][8..];
    assert file[97] == file[72..127][25] && file[98] == file[72..127][26];
    assert file[127..] == root + leaves + tiles;
    SectionsFollow(file, root, leaves, tiles);
  }

  lemma SectionsFollow(file: seq<byte>, root: seq<byte>, leaves: seq<byte>, tiles: seq<byte>)
    requires |file| >= 127 && file[127..] == root + leaves + tiles
    ensures |file| == 127 + |root| + |leaves| + |tiles|
    ensures var leavesAt := 127 + |root|;
            && file[127..leavesAt] == root && file[leavesAt..leavesAt + |leaves|] == leaves
            && file[leavesAt + |leaves|..] == tiles
  {
    var body, leavesAt := file[127..], 127 + |root|;
    assert |body| == |root| + |leaves| + |tiles|;
    assert body[..|root|] == root && body[|root|..|root| + |leaves|] == leaves && body[|root| + |leaves|..] == tiles;
    assert file[127..leavesAt] == body[..|root|];
    assert file[leavesAt..leavesAt + |leaves|] == body[|root|..|root| + |leaves|];
    assert file[leavesAt + |leaves|..] == body[|root| + |leaves|..];
  }

  lemma NamedField(file: seq<byte>, values: seq<nat>, tileType: byte, k: nat, offset: nat)
    requires Named(file, values, tileType) && k < |values| == 8 && offset == 8 + 8 * k
    ensures At(file, offset, ToLittleEndian(values[k], 8))
  {
    NumberPlace(values, k);
    forall i | 0 <= i < 8
      ensures file[offset + i] == ToLittleEndian(values[k], 8)[i]
    {
      assert file[8..72][8 * k + i] == file[offset + i];
    }
  }

  lemma NamedRange(file: seq<byte>, values: seq<nat>, tileType: byte, k: nat, offset: nat)
    requires Named(file, values, tileType) && |file| < WORD64 && k < 7 && |values| == 8 && offset == 8 + 8 * k
    requires values[k] + values[k + 1] <= |file|
    ensures HeaderRange(file, offset, offset + 8) == Ok(Region(values[k], values[k] + values[k + 1]))
  {
    NamedField(file, values, tileType, k, offset);
    NamedField(file, values, tileType, k + 1, offset + 8);
    RangeIs(file, offset, offset + 8, Region(values[k], values[k] + values[k + 1]));
  }

  /** What the file is opened to. */
  function OpenedOf(file: seq<byte>, root: nat, leaves: nat, tileType: byte, entries: seq<DirectoryEntry>):
      PmtilesArchive
  {
    var leavesAt, tilesAt := 127 + root, 127 + root + leaves;
    PmtilesArchive(file, Region(leavesAt, tilesAt), Region(tilesAt, |file|), 1, if tileType == 1 then Plain else Gzip,
                   entries)
  }

  lemma AssembledRanges(file: seq<byte>, root: seq<byte>, leaves: seq<byte>, tiles: seq<byte>, tileType: byte,
                        leavesAt: nat, tilesAt: nat)
    requires Assembled(file, root, leaves, tiles, tileType) && |file| < WORD64
    requires leavesAt == 127 + |root| && tilesAt == leavesAt + |leaves|
    ensures HeaderRange(file, 8, 16) == Ok(Region(127, leavesAt))
    ensures HeaderRange(file, 40, 48) == Ok(Region(leavesAt, tilesAt))
    ensures HeaderRange(file, 56, 64) == Ok(Region(tilesAt, |file|))
  {
    var values := Fields(|root|, |leaves|, |tiles|);
    NamedRange(file, values, tileType, 0, 8);
    NamedRange(file, values, tileType, 4, 40);
    NamedRange(file, values, tileType, 6, 56);
  }

  lemma AssembledOpens(file: seq<byte>, gunzip: Gunzip, root: seq<byte>, leaves: seq<byte>, tiles: seq<byte>,
                       tileType: byte, data: seq<byte>, entries: seq<DirectoryEntry>)
    requires Assembled(file, root, leaves, tiles, tileType) && |file| < WORD64 && (tileType == 1 || tileType == 2)
    requires Decompress(root, 1, gunzip) == Ok(data) && Parse(data) == Some(entries)
    ensures Opening(file, gunzip) == Ok(OpenedOf(file, |root|, |leaves|, tileType, entries))
  {
    var leavesAt, tilesAt := 127 + |root|, 127 + |root| + |leaves|;
    AssembledRanges(file, root, leaves, tiles, tileType, leavesAt, tilesAt);
    OpeningIs(file, gunzip, Region(127, leavesAt), Region(leavesAt, tilesAt), Region(tilesAt, |file|), data, entries);
  }

  // Serving.

  lemma RunsPlanted(a: PmtilesArchive, gunzip: Gunzip, runs: seq<Node>, end: nat, tileBytes: nat)
    requires RunsOk(runs, end, tileBytes) && a.tiles.start + tileBytes <= a.tiles.end <= |a.file| < WORD64
    ensures Planted(a, gunzip, runs, runs[0].id, end, 1)
  {
    IdsRise(runs, end, tileBytes, 0, 0);
    forall k | 0 <= k < |runs|
      ensures runs[0].id <= runs[k].id && NodePlanted(a, gunzip, runs[k], End(runs, k, end), end, 1)
    {
      IdsRise(runs, end, tileBytes, 0, k);
      if k + 1 < |runs| {
        IdsRise(runs, end, tileBytes, k + 1, k + 1);
      }
    }
  }

  /** The sections of the archive hold the leaves and the tile data. */
  predicate Holds(a: PmtilesArchive, leaves: seq<Leaf>, tiles: seq<byte>) {
    && a.compression == 1 && a.leaves.start <= a.leaves.end <= |a.file| < WORD64
    && a.file[a.leaves.start..a.leaves.end] == LeafSection(leaves)
    && a.tiles.start <= a.tiles.end == |a.file| && a.file[a.tiles.start..] == tiles
  }

  /** Each leaf's bytes are a directory of its runs. */
  ghost predicate AllPrinted(gunzip: Gunzip, leaves: seq<Leaf>) {
    forall k | 0 <= k < |leaves| :: Stores(gunzip, 1, leaves[k].bytes, Entries(leaves[k].runs))
  }

  lemma LeafNodePlanted(a: PmtilesArchive, gunzip: Gunzip, leaves: seq<Leaf>, tiles: seq<byte>, hi: nat, k: nat)
    requires Writable(leaves, hi, |tiles|) && AllPrinted(gunzip, leaves) && Holds(a, leaves, tiles) && k < |leaves|
    requires leaves[k].runs != []
    ensures NodePlanted(a, gunzip, LeafNode(leaves, k), LeafEnd(leaves, k, hi), hi, 0)
  {
    var node := LeafNode(leaves, k);
    LeafIds(leaves, hi, |tiles|, k);
    RunsPlanted(a, gunzip, leaves[k].runs, LeafEnd(leaves, k, hi), |tiles|);
    LeafPlace(leaves, k, |leaves|);
    assert leaves[..|leaves|] == leaves;
    StretchOf(a.file, a.leaves, LeafSection(leaves), node.offset, leaves[k].bytes);
    BelowPlanted(a, gunzip, node, LeafEnd(leaves, k, hi), hi);
  }

  lemma LeafIds(leaves: seq<Leaf>, hi: nat, tileBytes: nat, k: nat)
    requires Writable(leaves, hi, tileBytes) && k < |leaves|
    ensures RunsOk(leaves[k].runs, LeafEnd(leaves, k, hi), tileBytes)
    ensures leaves[k].runs[0].id < LeafEnd(leaves, k, hi) <= hi
  {
    assert LeafOk(leaves, k, hi, tileBytes);
    IdsRise(leaves[k].runs, LeafEnd(leaves, k, hi), tileBytes, 0, 0);
    if k + 1 < |leaves| {
      LeafIdsRise(leaves, hi, tileBytes, k, k + 1);
    }
  }

  lemma BelowPlanted(a: PmtilesArchive, gunzip: Gunzip, node: Node, end: nat, hi: nat)
    requires node.Below? && node.id < end <= hi && Within(a.file, a.leaves, node.offset, node.length)
    requires Stores(gunzip, a.compression, Stretch(a.file, a.leaves, node.offset, node.length), Entries(node.nodes))
    requires Planted(a, gunzip, node.nodes, node.id, end, 1)
    ensures NodePlanted(a, gunzip, node, end, hi, 0)
  {
  }

  lemma StretchOf(file: seq<byte>, region: Region, section: seq<byte>, offset: nat, p: seq<byte>)
    requires region.start <= region.end <= |file| < WORD64 && file[region.start..region.end] == section
    requires At(section, offset, p)
    ensures Within(file, region, offset, |p|) && Stretch(file, region, offset, |p|) == p
  {
    forall i | 0 <= i < |p|
      ensures file[region.start + offset + i] == p[i]
    {
      assert file[region.start + offset + i] == section[offset + i];
    }
  }

  lemma RootPlanted(a: PmtilesArchive, gunzip: Gunzip, leaves: seq<Leaf>, tiles: seq<byte>, hi: nat)
    requires Writable(leaves, hi, |tiles|) && AllPrinted(gunzip, leaves) && Holds(a, leaves, tiles) && NoneEmpty(leaves)
    ensures Planted(a, gunzip, RootNodes(leaves), 0, hi, 0)
  {
    var nodes := RootNodes(leaves);
    forall k | 0 <= k < |nodes|
      ensures NodePlanted(a, gunzip, nodes[k], End(nodes, k, hi), hi, 0)
    {
      RootEnd(leaves, hi, k);
      LeafNodePlanted(a, gunzip, leaves, tiles, hi, k);
    }
  }

  lemma RootEnd(leaves: seq<Leaf>, hi: nat, k: nat)
    requires NoneEmpty(leaves) && k < |leaves|
    ensures End(RootNodes(leaves), k, hi) == LeafEnd(leaves, k, hi)
    ensures RootNodes(leaves)[k] == LeafNode(leaves, k)
  {
    if k + 1 < |leaves| {
      assert leaves[k + 1].runs != [];
    }
  }

  /** The answer is the bytes of the tile data that the run names. */
  predicate RunBytes(r: Node, tiles: seq<byte>, tileType: byte, answer: Attempt<Option<Tile>>) {
    && r.Run? && r.offset + r.length <= |tiles|
    && answer == Ok(Some(Tile(tiles[r.offset..r.offset + r.length], if tileType == 1 then Plain else Gzip)))
  }

  lemma GivenBytes(a: PmtilesArchive, r: Node, tiles: seq<byte>, tileType: byte, answer: Attempt<Option<Tile>>)
    requires Gives(a, r, answer) && a.tiles.end == |a.file| && a.tiles.start <= |a.file|
    requires a.file[a.tiles.start..] == tiles && a.tileCompression == if tileType == 1 then Plain else Gzip
    ensures RunBytes(r, tiles, tileType, answer)
  {
    var start := a.tiles.start + r.offset;
    assert a.file[start..start + r.length] == tiles[r.offset..r.offset + r.length];
  }

  /** A file of a printed root, printed leaves and tile data is opened, and each
      tile whose id a run covers is answered by the bytes that the run names,
      every other by nothing. */
  lemma WrittenTilesAreServed(file: seq<byte>, gunzip: Gunzip, root: seq<byte>, leaves: seq<Leaf>, tiles: seq<byte>,
                              tileType: byte, hi: nat, tile: Hilbert.Tile)
    requires Writable(leaves, hi, |tiles|) && AllPrinted(gunzip, leaves) && NoneEmpty(leaves)
    requires Stores(gunzip, 1, root, Entries(RootNodes(leaves)))
    requires Assembled(file, root, LeafSection(leaves), tiles, tileType)
    requires |file| < WORD64 && (tileType == 1 || tileType == 2)
    requires Hilbert.ValidTile(tile) && 0 <= Hilbert.TileId(tile) < hi
    ensures var a := OpenedOf(file, |root|, |LeafSection(leaves)|, tileType, Entries(RootNodes(leaves)));
            var id := Hilbert.TileId(tile);
            && Opening(file, gunzip) == Ok(a)
            && (forall r | r in Runs(leaves) && Serves(r, id) :: RunBytes(r, tiles, tileType, TileFor(a, gunzip, id)))
            && ((forall r | r in Runs(leaves) :: !Serves(r, id)) ==> TileFor(a, gunzip, id) == Ok(None))
  {
    var nodes := RootNodes(leaves);
    var data := StoredParses(gunzip, 1, root, Entries(nodes));
    AssembledOpens(file, gunzip, root, LeafSection(leaves), tiles, tileType, data, Entries(nodes));
    var a := OpenedOf(file, |root|, |LeafSection(leaves)|, tileType, Entries(nodes));
    AssembledHolds(file, root, leaves, tiles, tileType, Entries(nodes));
    OpenedServes(a, gunzip, leaves, tiles, tileType, hi, Hilbert.TileId(tile));
  }

  lemma AssembledHolds(file: seq<byte>, root: seq<byte>, leaves: seq<Leaf>, tiles: seq<byte>, tileType: byte,
                       entries: seq<DirectoryEntry>)
    requires Assembled(file, root, LeafSection(leaves), tiles, tileType) && |file| < WORD64
    ensures Holds(OpenedOf(file, |root|, |LeafSection(leaves)|, tileType, entries), leaves, tiles)
  {
  }

  lemma OpenedServes(a: PmtilesArchive, gunzip: Gunzip, leaves: seq<Leaf>, tiles: seq<byte>, tileType: byte, hi: nat,
                     id: nat)
    requires Writable(leaves, hi, |tiles|) && AllPrinted(gunzip, leaves) && NoneEmpty(leaves) && id < hi
    requires Holds(a, leaves, tiles) && a.root == Entries(RootNodes(leaves))
    requires a.tileCompression == if tileType == 1 then Plain else Gzip
    ensures forall r | r in Runs(leaves) && Serves(r, id) :: RunBytes(r, tiles, tileType, TileFor(a, gunzip, id))
    ensures (forall r | r in Runs(leaves) :: !Serves(r, id)) ==> TileFor(a, gunzip, id) == Ok(None)
  {
    RootPlanted(a, gunzip, leaves, tiles, hi);
    PlantedTreeServes(a, gunzip, RootNodes(leaves), hi, id);
    WritableRuns(leaves, hi, |tiles|);
    RunsOfRoot(leaves, RootNodes(leaves));
    forall r | r in Runs(leaves) && Serves(r, id)
      ensures RunBytes(r, tiles, tileType, TileFor(a, gunzip, id))
    {
      GivenBytes(a, r, tiles, tileType, TileFor(a, gunzip, id));
    }
  }
}
