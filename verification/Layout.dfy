/** Archive files from the writer's side: sections that the header names, a tree
    of printed directories, and tile data. Opening such a file and asking for a
    tile gives the tile's bytes. */
module Layout {
  import opened Common
  import opened Directory
  import opened Archive
  import Hilbert

  /** What a writer puts into the directories: runs of one tile, and directories
      below, each at an offset in the section of its kind. */
  datatype Node =
    | Run(id: nat, count: nat, offset: nat, length: nat)
    | Below(id: nat, offset: nat, length: nat, nodes: seq<Node>)

  /** The directory entry that is written for a node. */
  function EntryOf(node: Node): DirectoryEntry {
    match node
    case Run(id, count, offset, length) => DirectoryEntry(id, offset, length, count)
    case Below(id, offset, length, _) => DirectoryEntry(id, offset, length, 0)
  }

  function Entries(nodes: seq<Node>): (r: seq<DirectoryEntry>)
    ensures |r| == |nodes| && forall i | 0 <= i < |r| :: r[i] == EntryOf(nodes[i])
  {
    if nodes == [] then [] else [EntryOf(nodes[0])] + Entries(nodes[1..])
  }

  /** The bytes are a directory of these entries, printed plainly or packed. */
  ghost predicate Stores(gunzip: Gunzip, compression: nat, bytes: seq<byte>, entries: seq<DirectoryEntry>) {
    exists short, data | Printable(entries, short) :: PrintedAs(gunzip, compression, bytes, entries, short, data)
  }

  ghost predicate PrintedAs(gunzip: Gunzip, compression: nat, bytes: seq<byte>, entries: seq<DirectoryEntry>,
                            short: seq<bool>, data: seq<byte>)
    requires Printable(entries, short)
  {
    && data == Print(entries, short) && |data| <= 1048576
    && (if compression == 1 then bytes == data else compression == 2 && gunzip(bytes) == Some(data))
  }

  /** The bytes of a stretch of a section, which lies in the section and the file. */
  predicate Within(file: seq<byte>, section: Region, offset: nat, length: nat) {
    section.start + offset + length <= section.end <= |file| < WORD64
  }

  function Stretch(file: seq<byte>, section: Region, offset: nat, length: nat): seq<byte>
    requires Within(file, section, offset, length)
  {
    file[section.start + offset..section.start + offset + length]
  }

  /** Where the ids of node k end. */
  function End(nodes: seq<Node>, k: nat, hi: nat): nat
    requires k < |nodes|
  {
    if k + 1 < |nodes| then nodes[k + 1].id else hi
  }

  /** The nodes are written as a directory at this depth should be: ids ascend
      from lo to hi, runs end before the next id and their tile data exists, and
      each directory below is stored, at most four levels deep. */
  ghost predicate Planted(a: PmtilesArchive, gunzip: Gunzip, nodes: seq<Node>, lo: nat, hi: nat, depth: nat)
    decreases nodes
  {
    && lo <= hi < WORD64 && depth < 4
    && forall k | 0 <= k < |nodes| ::
         lo <= nodes[k].id && NodePlanted(a, gunzip, nodes[k], End(nodes, k, hi), hi, depth)
  }

  ghost predicate NodePlanted(a: PmtilesArchive, gunzip: Gunzip, node: Node, end: nat, hi: nat, depth: nat)
    decreases node
  {
    && node.id < end <= hi
    && match node
       case Run(id, count, offset, length) => count > 0 && id + count <= end && Within(a.file, a.tiles, offset, length)
       case Below(id, offset, length, nodes) =>
         && Within(a.file, a.leaves, offset, length)
         && Stores(gunzip, a.compression, Stretch(a.file, a.leaves, offset, length), Entries(nodes))
         && Planted(a, gunzip, nodes, id, end, depth + 1)
  }

  /** All runs of the tree, in order. */
  function AllRuns(nodes: seq<Node>): seq<Node>
    decreases nodes
  {
    if nodes == [] then [] else RunsOf(nodes[0]) + AllRuns(nodes[1..])
  }

  function RunsOf(node: Node): seq<Node>
    decreases node
  {
    match node
    case Run(_, _, _, _) => [node]
    case Below(_, _, _, nodes) => AllRuns(nodes)
  }

  /** A directory that is stored is read. */
  lemma StoredIsRead(a: PmtilesArchive, gunzip: Gunzip, entry: DirectoryEntry, entries: seq<DirectoryEntry>)
    requires Within(a.file, a.leaves, entry.offset, entry.length)
    requires Stores(gunzip, a.compression, Stretch(a.file, a.leaves, entry.offset, entry.length), entries)
    ensures Leaf(a, gunzip, entry) == Ok(entries)
  {
    var bytes := Stretch(a.file, a.leaves, entry.offset, entry.length);
    var data := StoredParses(gunzip, a.compression, bytes, entries);
    LeafIs(a, gunzip, entry, bytes, data, entries);
  }

  lemma StoredParses(gunzip: Gunzip, compression: nat, bytes: seq<byte>, entries: seq<DirectoryEntry>)
      returns (data: seq<byte>)
    requires Stores(gunzip, compression, bytes, entries)
    ensures Decompress(bytes, compression, gunzip) == Ok(data) && Parse(data) == Some(entries)
  {
    var short;
    short, data :| Printable(entries, short) && PrintedAs(gunzip, compression, bytes, entries, short, data);
    ParsePrint(entries, short, []);
    assert data + [] == data;
  }

  lemma LeafIs(a: PmtilesArchive, gunzip: Gunzip, entry: DirectoryEntry, bytes: seq<byte>, data: seq<byte>,
               entries: seq<DirectoryEntry>)
    requires RelativeData(a.file, a.leaves, entry.offset, entry.length) == Ok(bytes)
    requires Decompress(bytes, a.compression, gunzip) == Ok(data) && Parse(data) == Some(entries)
    ensures Leaf(a, gunzip, entry) == Ok(entries)
  {
  }

  lemma {:induction false} PlantedIsWellFormed(a: PmtilesArchive, gunzip: Gunzip, nodes: seq<Node>, lo: nat, hi: nat,
                                               depth: nat)
    requires Planted(a, gunzip, nodes, lo, hi, depth)
    ensures WellFormed(a, gunzip, Entries(nodes), lo, hi, depth)
    decreases nodes
  {
    forall k | 0 <= k < |nodes|
      ensures End(nodes, k, hi) == Bound(Entries(nodes), k, hi)
      ensures ShareOk(a, gunzip, EntryOf(nodes[k]), End(nodes, k, hi), depth)
    {
      assert NodePlanted(a, gunzip, nodes[k], End(nodes, k, hi), hi, depth);
      NodeIsShare(a, gunzip, nodes[k], End(nodes, k, hi), hi, depth);
    }
  }

  lemma {:induction false} NodeIsShare(a: PmtilesArchive, gunzip: Gunzip, node: Node, end: nat, hi: nat, depth: nat)
    requires depth < 4 && NodePlanted(a, gunzip, node, end, hi, depth)
    ensures ShareOk(a, gunzip, EntryOf(node), end, depth)
    decreases node
  {
    if node.Below? {
      StoredIsRead(a, gunzip, EntryOf(node), Entries(node.nodes));
      PlantedIsWellFormed(a, gunzip, node.nodes, node.id, end, depth + 1);
    }
  }

  lemma PlantedTail(a: PmtilesArchive, gunzip: Gunzip, nodes: seq<Node>, lo: nat, hi: nat, depth: nat)
    requires Planted(a, gunzip, nodes, lo, hi, depth) && nodes != []
    ensures Planted(a, gunzip, nodes[1..], End(nodes, 0, hi), hi, depth)
  {
    assert NodePlanted(a, gunzip, nodes[0], End(nodes, 0, hi), hi, depth);
    var tail := nodes[1..];
    forall k | 0 <= k < |tail|
      ensures End(nodes, 0, hi) <= tail[k].id && NodePlanted(a, gunzip, tail[k], End(tail, k, hi), hi, depth)
    {
      TailNode(a, gunzip, nodes, lo, hi, depth, k);
    }
  }

  lemma TailNode(a: PmtilesArchive, gunzip: Gunzip, nodes: seq<Node>, lo: nat, hi: nat, depth: nat, k: nat)
    requires Planted(a, gunzip, nodes, lo, hi, depth) && k + 1 < |nodes|
    ensures End(nodes, 0, hi) <= nodes[k + 1].id && End(nodes[1..], k, hi) == End(nodes, k + 1, hi)
    ensures NodePlanted(a, gunzip, nodes[k + 1], End(nodes, k + 1, hi), hi, depth)
  {
    IdsAscend(a, gunzip, nodes, lo, hi, depth, k + 1);
  }

  lemma {:induction false} IdsAscend(a: PmtilesArchive, gunzip: Gunzip, nodes: seq<Node>, lo: nat, hi: nat, depth: nat,
                                     k: nat)
    requires Planted(a, gunzip, nodes, lo, hi, depth) && 0 < k < |nodes|
    ensures nodes[1].id <= nodes[k].id
  {
    if k > 1 {
      IdsAscend(a, gunzip, nodes, lo, hi, depth, k - 1);
      assert NodePlanted(a, gunzip, nodes[k - 1], End(nodes, k - 1, hi), hi, depth);
    }
  }

  /** The runs that the directories hold are those of the tree. */
  lemma {:induction false} PlantedRuns(a: PmtilesArchive, gunzip: Gunzip, nodes: seq<Node>, lo: nat, hi: nat,
                                       depth: nat)
    requires Planted(a, gunzip, nodes, lo, hi, depth)
    ensures Flatten(a, gunzip, Entries(nodes), depth) == Entries(AllRuns(nodes))
    decreases nodes
  {
    if nodes != [] {
      PlantedTail(a, gunzip, nodes, lo, hi, depth);
      PlantedRuns(a, gunzip, nodes[1..], End(nodes, 0, hi), hi, depth);
      NodeRuns(a, gunzip, nodes[0], End(nodes, 0, hi), hi, depth);
      FlattenFirst(a, gunzip, nodes, depth);
      EntriesJoin(RunsOf(nodes[0]), AllRuns(nodes[1..]));
    }
  }

  lemma FlattenFirst(a: PmtilesArchive, gunzip: Gunzip, nodes: seq<Node>, depth: nat)
    requires depth < 4 && nodes != []
    ensures Flatten(a, gunzip, Entries(nodes), depth)
            == Own(a, gunzip, EntryOf(nodes[0]), depth) + Flatten(a, gunzip, Entries(nodes[1..]), depth)
  {
    assert Entries(nodes)[1..] == Entries(nodes[1..]);
  }

  lemma EntriesJoin(p: seq<Node>, q: seq<Node>)
    ensures Entries(p + q) == Entries(p) + Entries(q)
  {
  }

  lemma {:induction false} NodeRuns(a: PmtilesArchive, gunzip: Gunzip, node: Node, end: nat, hi: nat, depth: nat)
    requires depth < 4 && NodePlanted(a, gunzip, node, end, hi, depth)
    ensures Own(a, gunzip, EntryOf(node), depth) == Entries(RunsOf(node))
    decreases node
  {
    if node.Below? {
      StoredIsRead(a, gunzip, EntryOf(node), Entries(node.nodes));
      PlantedRuns(a, gunzip, node.nodes, node.id, end, depth + 1);
    }
  }

  /** A run covers the ids from its own on. */
  predicate Serves(run: Node, id: nat) {
    run.Run? && run.id <= id < run.id + run.count
  }

  /** Runs lie in the ids of their directory. */
  lemma {:induction false} RunsInside(a: PmtilesArchive, gunzip: Gunzip, nodes: seq<Node>, lo: nat, hi: nat, depth: nat)
    requires Planted(a, gunzip, nodes, lo, hi, depth)
    ensures forall r | r in AllRuns(nodes) :: r.Run? && lo <= r.id && r.id + r.count <= hi
    decreases nodes
  {
    if nodes != [] {
      PlantedTail(a, gunzip, nodes, lo, hi, depth);
      RunsInside(a, gunzip, nodes[1..], End(nodes, 0, hi), hi, depth);
      NodeRunsInside(a, gunzip, nodes[0], End(nodes, 0, hi), hi, depth);
      FirstInside(a, gunzip, nodes, lo, hi, depth);
    }
  }

  lemma FirstInside(a: PmtilesArchive, gunzip: Gunzip, nodes: seq<Node>, lo: nat, hi: nat, depth: nat)
    requires Planted(a, gunzip, nodes, lo, hi, depth) && nodes != []
    ensures lo <= nodes[0].id && NodePlanted(a, gunzip, nodes[0], End(nodes, 0, hi), hi, depth)
    ensures nodes[0].id < End(nodes, 0, hi) <= hi
  {
  }

  lemma {:induction false} NodeRunsInside(a: PmtilesArchive, gunzip: Gunzip, node: Node, end: nat, hi: nat, depth: nat)
    requires depth < 4 && NodePlanted(a, gunzip, node, end, hi, depth)
    ensures forall r | r in RunsOf(node) :: r.Run? && node.id <= r.id && r.id + r.count <= end
    decreases node
  {
    if node.Below? {
      RunsInside(a, gunzip, node.nodes, node.id, end, depth + 1);
    }
  }

  /** At most one run of the tree covers an id. */
  lemma {:induction false} OneRunServes(a: PmtilesArchive, gunzip: Gunzip, nodes: seq<Node>, lo: nat, hi: nat,
                                        depth: nat, r: Node, t: Node, id: nat)
    requires Planted(a, gunzip, nodes, lo, hi, depth)
    requires r in AllRuns(nodes) && t in AllRuns(nodes) && Serves(r, id) && Serves(t, id)
    ensures r == t
    decreases nodes
  {
    FirstInside(a, gunzip, nodes, lo, hi, depth);
    PlantedTail(a, gunzip, nodes, lo, hi, depth);
    RunsInside(a, gunzip, nodes[1..], End(nodes, 0, hi), hi, depth);
    NodeRunsInside(a, gunzip, nodes[0], End(nodes, 0, hi), hi, depth);
    if r in RunsOf(nodes[0]) && t in RunsOf(nodes[0]) {
      if nodes[0].Below? {
        OneRunServes(a, gunzip, nodes[0].nodes, nodes[0].id, End(nodes, 0, hi), depth + 1, r, t, id);
      }
    } else {
      OneRunServes(a, gunzip, nodes[1..], End(nodes, 0, hi), hi, depth, r, t, id);
    }
  }

  /** Each run's tile data lies in its section. */
  lemma {:induction false} RunsExist(a: PmtilesArchive, gunzip: Gunzip, nodes: seq<Node>, lo: nat, hi: nat, depth: nat)
    requires Planted(a, gunzip, nodes, lo, hi, depth)
    ensures forall r | r in AllRuns(nodes) :: r.Run? && Within(a.file, a.tiles, r.offset, r.length)
    decreases nodes
  {
    if nodes != [] {
      FirstInside(a, gunzip, nodes, lo, hi, depth);
      PlantedTail(a, gunzip, nodes, lo, hi, depth);
      RunsExist(a, gunzip, nodes[1..], End(nodes, 0, hi), hi, depth);
      if nodes[0].Below? {
        RunsExist(a, gunzip, nodes[0].nodes, nodes[0].id, End(nodes, 0, hi), depth + 1);
      }
    }
  }

  lemma EntryBack(runs: seq<Node>, e: DirectoryEntry) returns (r: Node)
    requires e in Entries(runs)
    ensures r in runs && e == EntryOf(r)
  {
    var i :| 0 <= i < |runs| && Entries(runs)[i] == e;
    r := runs[i];
  }

  /** The answer holds the run's tile data. */
  ghost predicate Gives(a: PmtilesArchive, r: Node, answer: Attempt<Option<Tile>>) {
    && r.Run? && Within(a.file, a.tiles, r.offset, r.length)
    && answer == Ok(Some(Tile(Stretch(a.file, a.tiles, r.offset, r.length), a.tileCompression)))
  }

  lemma EntryGives(a: PmtilesArchive, runs: seq<Node>, e: DirectoryEntry, id: nat, tile: Tile) returns (r: Node)
    requires e in Entries(runs) && Covers(e, id) && RelativeData(a.file, a.tiles, e.offset, e.length) == Ok(tile.bytes)
    requires tile.compression == a.tileCompression
    requires forall r | r in runs :: r.Run? && Within(a.file, a.tiles, r.offset, r.length)
    ensures r in runs && Serves(r, id) && Gives(a, r, Ok(Some(tile)))
  {
    r := EntryBack(runs, e);
  }

  lemma NoneServes(runs: seq<Node>, id: nat)
    requires forall r | r in runs :: r.Run?
    requires forall e | e in Entries(runs) :: !Covers(e, id)
    ensures forall r | r in runs :: !Serves(r, id)
  {
    forall r | r in runs
      ensures !Serves(r, id)
    {
      var i :| 0 <= i < |runs| && runs[i] == r;
      assert Entries(runs)[i] in Entries(runs);
    }
  }

  lemma SomeRunGives(a: PmtilesArchive, gunzip: Gunzip, nodes: seq<Node>, hi: nat, id: nat)
    requires Planted(a, gunzip, nodes, 0, hi, 0) && a.root == Entries(nodes) && id < hi
    ensures match TileFor(a, gunzip, id)
            case Err(_) => false
            case Ok(None) => forall r | r in AllRuns(nodes) :: !Serves(r, id)
            case Ok(Some(tile)) => exists r :: r in AllRuns(nodes) && Serves(r, id) && Gives(a, r, Ok(Some(tile)))
  {
    PlantedIsWellFormed(a, gunzip, nodes, 0, hi, 0);
    PlantedRuns(a, gunzip, nodes, 0, hi, 0);
    RunsExist(a, gunzip, nodes, 0, hi, 0);
    RequestIsScan(a, gunzip, hi, id);
    var runs := AllRuns(nodes);
    match TileFor(a, gunzip, id) {
      case Ok(Some(tile)) =>
        var e :| e in Entries(runs) && Covers(e, id)
                 && RelativeData(a.file, a.tiles, e.offset, e.length) == Ok(tile.bytes);
        var r := EntryGives(a, runs, e, id, tile);
      case Ok(None) => NoneServes(runs, id);
      case _ =>
    }
  }

  /** A request for an id that a run of the tree covers returns the run's tile
      data; a request for any other id returns nothing. */
  lemma PlantedTreeServes(a: PmtilesArchive, gunzip: Gunzip, nodes: seq<Node>, hi: nat, id: nat)
    requires Planted(a, gunzip, nodes, 0, hi, 0) && a.root == Entries(nodes) && id < hi
    ensures forall r | r in AllRuns(nodes) && Serves(r, id) :: Gives(a, r, TileFor(a, gunzip, id))
    ensures (forall r | r in AllRuns(nodes) :: !Serves(r, id)) ==> TileFor(a, gunzip, id) == Ok(None)
  {
    SomeRunGives(a, gunzip, nodes, hi, id);
    var answer := TileFor(a, gunzip, id);
    if answer.Ok? && answer.value.Some? {
      var t :| t in AllRuns(nodes) && Serves(t, id) && Gives(a, t, answer);
      forall r | r in AllRuns(nodes) && Serves(r, id)
        ensures r == t
      {
        OneRunServes(a, gunzip, nodes, 0, hi, 0, r, t, id);
      }
    }
  }

  // Whole files.

  /** The file names three sections, wherever they lie, and how directories and
      tiles are packed: the fields of a version 3 header at their places. */
  ghost predicate Headed(file: seq<byte>, root: Region, leaves: Region, tiles: Region) {
    && 127 <= |file| < WORD64
    && At(file, 0, [80, 77, 84, 105, 108, 101, 115, 3])
    && root.start <= root.end <= |file| && leaves.start <= leaves.end <= |file| && tiles.start <= tiles.end <= |file|
    && At(file, 8, ToLittleEndian(root.start, 8)) && At(file, 16, ToLittleEndian(root.end - root.start, 8))
    && At(file, 40, ToLittleEndian(leaves.start, 8)) && At(file, 48, ToLittleEndian(leaves.end - leaves.start, 8))
    && At(file, 56, ToLittleEndian(tiles.start, 8)) && At(file, 64, ToLittleEndian(tiles.end - tiles.start, 8))
    && (file[98] == 1 || file[98] == 2)
  }

  lemma NumberIs(file: seq<byte>, offset: nat, value: nat)
    requires value < WORD64 && At(file, offset, ToLittleEndian(value, 8))
    ensures Number(file, offset) == Ok(value)
  {
    EightBytes();
    LittleEndianReadsBack(value, 8);
    assert file[offset..offset + 8] == ToLittleEndian(value, 8);
  }

  lemma EightBytes()
    ensures Pow256(8) == WORD64
  {
    assert Pow256(4) == 0x1_0000_0000 by {
      assert Pow256(2) == 0x1_0000;
    }
    assert Pow256(6) == 256 * (256 * Pow256(4));
  }

  lemma RangeIs(file: seq<byte>, offsetField: nat, lengthField: nat, region: Region)
    requires |file| < WORD64 && region.start <= region.end <= |file|
    requires At(file, offsetField, ToLittleEndian(region.start, 8))
    requires At(file, lengthField, ToLittleEndian(region.end - region.start, 8))
    ensures HeaderRange(file, offsetField, lengthField) == Ok(region)
  {
    NumberIs(file, offsetField, region.start);
    NumberIs(file, lengthField, region.end - region.start);
  }

  /** What such a file is opened to, when its root directory is stored. */
  function Described(file: seq<byte>, leaves: Region, tiles: Region, nodes: seq<Node>): PmtilesArchive
    requires |file| > 98
  {
    PmtilesArchive(file, leaves, tiles, file[97], if file[98] == 1 then Plain else Gzip, Entries(nodes))
  }

  lemma HeadedOpens(file: seq<byte>, gunzip: Gunzip, root: Region, leaves: Region, tiles: Region, nodes: seq<Node>)
    requires Headed(file, root, leaves, tiles)
    requires Stores(gunzip, file[97], file[root.start..root.end], Entries(nodes))
    ensures Opening(file, gunzip) == Ok(Described(file, leaves, tiles, nodes))
  {
    RangeIs(file, 8, 16, root);
    RangeIs(file, 40, 48, leaves);
    RangeIs(file, 56, 64, tiles);
    assert HasMagic(file) by {
      assert file[..8] == [80, 77, 84, 105, 108, 101, 115, 3];
    }
    var data := StoredParses(gunzip, file[97], file[root.start..root.end], Entries(nodes));
    OpeningIs(file, gunzip, root, leaves, tiles, data, Entries(nodes));
  }

  lemma OpeningIs(file: seq<byte>, gunzip: Gunzip, root: Region, leaves: Region, tiles: Region, data: seq<byte>,
                  entries: seq<DirectoryEntry>)
    requires HasMagic(file) && HeaderRange(file, 8, 16) == Ok(root) && HeaderRange(file, 40, 48) == Ok(leaves)
    requires HeaderRange(file, 56, 64) == Ok(tiles) && (file[98] == 1 || file[98] == 2)
    requires Decompress(file[root.start..root.end], file[97], gunzip) == Ok(data) && Parse(data) == Some(entries)
    ensures Opening(file, gunzip)
            == Ok(PmtilesArchive(file, leaves, tiles, file[97], if file[98] == 1 then Plain else Gzip, entries))
  {
  }

  /** A file that is laid out like this is opened, and then a tile whose id some
      run covers is answered by the run's bytes, every other tile by nothing. */
  lemma FileServes(file: seq<byte>, gunzip: Gunzip, root: Region, leaves: Region, tiles: Region, nodes: seq<Node>,
                   hi: nat, tile: Hilbert.Tile)
    requires Headed(file, root, leaves, tiles)
    requires Stores(gunzip, file[97], file[root.start..root.end], Entries(nodes))
    requires Planted(Described(file, leaves, tiles, nodes), gunzip, nodes, 0, hi, 0)
    requires Hilbert.ValidTile(tile) && 0 <= Hilbert.TileId(tile) < hi
    ensures var a, id := Described(file, leaves, tiles, nodes), Hilbert.TileId(tile);
            && Opening(file, gunzip) == Ok(a)
            && (forall r | r in AllRuns(nodes) && Serves(r, id) :: Gives(a, r, TileFor(a, gunzip, id)))
            && ((forall r | r in AllRuns(nodes) :: !Serves(r, id)) ==> TileFor(a, gunzip, id) == Ok(None))
  {
    HeadedOpens(file, gunzip, root, leaves, tiles, nodes);
    PlantedTreeServes(Described(file, leaves, tiles, nodes), gunzip, nodes, hi, Hilbert.TileId(tile));
  }
}
