/** Looking a tile up in a PMTiles archive: a directory tree of bounded depth
    over byte regions that the header names. */
module Archive {
  import opened Common
  import opened Directory
  import Hilbert

  const HEADER_BYTES := 127
  const MAX_DIRECTORY_DEPTH: nat := 4
  const MAX_DIRECTORY_BYTES: nat := 1024 * 1024

  datatype ArchiveError = Io | InvalidHeader | UnsupportedCompression | InvalidDirectory | DirectoryTooLarge

  datatype Attempt<+T> = Ok(value: T) | Err(error: ArchiveError) {
    predicate IsFailure() {
      Err?
    }

    function PropagateFailure<U>(): Attempt<U>
      requires Err?
    {
      Err(error)
    }

    function Extract(): T
      requires Ok?
    {
      value
    }
  }

  datatype Region = Region(start: nat, end: nat)

  /** Unpacking a gzip stream, cut off behind the directory limit; None when
      the stream is broken. */
  type Gunzip = seq<byte> -> Option<seq<byte>>

  datatype PmtilesArchive = PmtilesArchive(
    file: seq<byte>,
    leaves: Region,
    tiles: Region,
    compression: nat,
    tileCompression: TileCompression,
    root: seq<DirectoryEntry>)

  datatype TileCompression = Plain | Gzip

  function FromHeader(value: nat): Attempt<TileCompression> {
    if value == 1 then Ok(Plain) else if value == 2 then Ok(Gzip) else Err(UnsupportedCompression)
  }

  /** A tile as it is stored, and how. */
  datatype Tile = Tile(bytes: seq<byte>, compression: TileCompression)

  /** A stretch of a region, refused when it leaves the address space, the
      region or the file. */
  function RelativeData(file: seq<byte>, region: Region, offset: nat, length: nat): (r: Attempt<seq<byte>>)
    ensures r.Ok? <==> region.start + offset + length <= region.end && region.start + offset + length <= |file|
                       && region.start + offset + length < WORD64
    ensures r.Ok? ==> r.value == file[region.start + offset..region.start + offset + length]
    ensures r.Err? ==> r.error == InvalidDirectory
  {
    var start := region.start + offset;
    if start >= WORD64 then Err(InvalidDirectory)
    else
      var end := start + length;
      if end >= WORD64 then Err(InvalidDirectory)
      else if end > region.end then Err(InvalidDirectory)
      else if end > |file| then Err(InvalidDirectory)
      else Ok(file[start..end])
  }

  function Decompress(bytes: seq<byte>, compression: nat, gunzip: Gunzip): Attempt<seq<byte>> {
    if compression == 1 then
      if |bytes| > MAX_DIRECTORY_BYTES then Err(DirectoryTooLarge) else Ok(bytes)
    else if compression == 2 then
      match gunzip(bytes)
      case None => Err(Io)
      case Some(out) => if |out| > MAX_DIRECTORY_BYTES then Err(DirectoryTooLarge) else Ok(out)
    else Err(UnsupportedCompression)
  }

  /** The directory that a leaf entry points to. */
  function Leaf(a: PmtilesArchive, gunzip: Gunzip, entry: DirectoryEntry): (r: Attempt<seq<DirectoryEntry>>)
    ensures r.Ok? ==> EntriesSorted(r.value)
  {
    var bytes :- RelativeData(a.file, a.leaves, entry.offset, entry.length);
    var data :- Decompress(bytes, a.compression, gunzip);
    match Parse(data)
    case None => Err(InvalidDirectory)
    case Some(entries) => Ok(entries)
  }

  /** A leaf directory is read from the section of the leaf directories, as it is
      or unpacked, up to a mebibyte. */
  lemma LeafIsRead(a: PmtilesArchive, gunzip: Gunzip, entry: DirectoryEntry, d: seq<DirectoryEntry>)
    ensures Leaf(a, gunzip, entry) == Ok(d) <==>
            var start := a.leaves.start + entry.offset;
            && start + entry.length <= a.leaves.end && start + entry.length <= |a.file| && start + entry.length < WORD64
            && var bytes := a.file[start..start + entry.length];
               if a.compression == 1 then |bytes| <= 1048576 && Parse(bytes) == Some(d)
               else
                 && a.compression == 2 && gunzip(bytes).Some? && |gunzip(bytes).value| <= 1048576
                 && Parse(gunzip(bytes).value) == Some(d)
  {
    var bytes := RelativeData(a.file, a.leaves, entry.offset, entry.length);
    if bytes.Ok? {
      DecompressIs(bytes.value, a.compression, gunzip);
      var data := Decompress(bytes.value, a.compression, gunzip);
      assert Leaf(a, gunzip, entry) == Ok(d) <==> data.Ok? && Parse(data.value) == Some(d);
    }
  }

  lemma DecompressIs(bytes: seq<byte>, compression: nat, gunzip: Gunzip)
    ensures compression == 1 ==>
              Decompress(bytes, compression, gunzip)
              == if |bytes| <= 1048576 then Ok(bytes) else Err(DirectoryTooLarge)
    ensures compression == 2 ==>
              match gunzip(bytes)
              case None => Decompress(bytes, compression, gunzip) == Err(Io)
              case Some(data) =>
                Decompress(bytes, compression, gunzip)
                == if |data| <= 1048576 then Ok(data) else Err(DirectoryTooLarge)
    ensures compression != 1 && compression != 2 ==>
              Decompress(bytes, compression, gunzip) == Err(UnsupportedCompression)
  {
  }

  /** Why a leaf directory is refused, in the order of the tests. */
  lemma LeafIsRefused(a: PmtilesArchive, gunzip: Gunzip, entry: DirectoryEntry)
    ensures Leaf(a, gunzip, entry).Err? ==>
              var start, e := a.leaves.start + entry.offset, Leaf(a, gunzip, entry).error;
              if start + entry.length > a.leaves.end || start + entry.length > |a.file|
                 || start + entry.length >= 0x1_0000_0000_0000_0000 then e == InvalidDirectory
              else
                var bytes := a.file[start..start + entry.length];
                if a.compression == 1 then e == if |bytes| > 1048576 then DirectoryTooLarge else InvalidDirectory
                else if a.compression != 2 then e == UnsupportedCompression
                else if gunzip(bytes).None? then e == Io
                else e == if |gunzip(bytes).value| > 1048576 then DirectoryTooLarge else InvalidDirectory
  {
    var bytes := RelativeData(a.file, a.leaves, entry.offset, entry.length);
    if bytes.Ok? {
      DecompressIs(bytes.value, a.compression, gunzip);
    }
  }

  /** How many entries come before the partition point, by bisection. */
  function PartitionPoint(entries: seq<DirectoryEntry>, id: nat, lo: nat, hi: nat): (r: nat)
    requires lo <= hi <= |entries|
    ensures lo <= r <= hi
    ensures EntriesSorted(entries) ==>
              (forall i | lo <= i < r :: entries[i].id <= id) && forall i | r <= i < hi :: entries[i].id > id
    decreases hi - lo
  {
    if lo == hi then lo
    else
      var mid := (lo + hi) / 2;
      if entries[mid].id <= id then PartitionPoint(entries, id, mid + 1, hi)
      else PartitionPoint(entries, id, lo, mid)
  }

  /** The last entry whose id is not above the one looked for. */
  function Locate(entries: seq<DirectoryEntry>, id: nat): (r: Option<nat>)
    ensures r.Some? ==> r.value < |entries|
    ensures EntriesSorted(entries) ==>
              match r
              case None => forall i | 0 <= i < |entries| :: entries[i].id > id
              case Some(k) => entries[k].id <= id && forall i | k < i < |entries| :: entries[i].id > id
  {
    var point := PartitionPoint(entries, id, 0, |entries|);
    if point == 0 then None else Some(point - 1)
  }

  function SaturatingEnd(entry: DirectoryEntry): nat {
    if entry.id + entry.run < WORD64 then entry.id + entry.run else WORD64 - 1
  }

  /** The run entry that the bounded descent finds for an id. */
  function Lookup(a: PmtilesArchive, gunzip: Gunzip, entries: seq<DirectoryEntry>, id: nat, depth: nat):
      Attempt<Option<DirectoryEntry>>
    requires depth < MAX_DIRECTORY_DEPTH
    decreases MAX_DIRECTORY_DEPTH - depth
  {
    match Locate(entries, id)
    case None => Ok(None)
    case Some(k) =>
      if entries[k].run > 0 then Ok(if id >= SaturatingEnd(entries[k]) then None else Some(entries[k]))
      else if depth + 1 == MAX_DIRECTORY_DEPTH then Err(InvalidDirectory)
      else
        var leaf :- Leaf(a, gunzip, entries[k]);
        Lookup(a, gunzip, leaf, id, depth + 1)
  }

  /** Where the ids of entry k end: at the next entry, or at the directory's end. */
  function Bound(entries: seq<DirectoryEntry>, k: nat, hi: nat): nat
    requires k < |entries|
  {
    if k + 1 < |entries| then entries[k + 1].id else hi
  }

  /** A directory whose entries divide the ids from lo to hi. */
  ghost predicate WellFormed(a: PmtilesArchive, gunzip: Gunzip, entries: seq<DirectoryEntry>, lo: nat, hi: nat,
                             depth: nat)
    requires depth < MAX_DIRECTORY_DEPTH
    decreases MAX_DIRECTORY_DEPTH - depth, 1
  {
    && lo <= hi < WORD64
    && forall k | 0 <= k < |entries| ::
         && lo <= entries[k].id && Bound(entries, k, hi) <= hi
         && ShareOk(a, gunzip, entries[k], Bound(entries, k, hi), depth)
  }

  /** An entry within its share of the ids: a run ends in time and its tiles
      exist; a leaf exists, divides the share and reaches no deeper than the
      lookup does. */
  ghost predicate ShareOk(a: PmtilesArchive, gunzip: Gunzip, entry: DirectoryEntry, end: nat, depth: nat)
    requires depth < MAX_DIRECTORY_DEPTH
    decreases MAX_DIRECTORY_DEPTH - depth, 0
  {
    && entry.id < end
    && if entry.run > 0 then
         entry.id + entry.run <= end && RelativeData(a.file, a.tiles, entry.offset, entry.length).Ok?
       else
         && depth + 1 < MAX_DIRECTORY_DEPTH && Leaf(a, gunzip, entry).Ok?
         && WellFormed(a, gunzip, Leaf(a, gunzip, entry).value, entry.id, end, depth + 1)
  }

  /** All run entries at or below one entry, in order. */
  function Own(a: PmtilesArchive, gunzip: Gunzip, entry: DirectoryEntry, depth: nat): seq<DirectoryEntry>
    requires depth < MAX_DIRECTORY_DEPTH
    decreases MAX_DIRECTORY_DEPTH - depth, 0
  {
    if entry.run > 0 then [entry]
    else if depth + 1 < MAX_DIRECTORY_DEPTH && Leaf(a, gunzip, entry).Ok? then
      Flatten(a, gunzip, Leaf(a, gunzip, entry).value, depth + 1)
    else []
  }

  /** All run entries of a directory tree, in order. */
  function Flatten(a: PmtilesArchive, gunzip: Gunzip, entries: seq<DirectoryEntry>, depth: nat): seq<DirectoryEntry>
    requires depth < MAX_DIRECTORY_DEPTH
    decreases MAX_DIRECTORY_DEPTH - depth, 1, |entries|
  {
    if entries == [] then []
    else Own(a, gunzip, entries[0], depth) + Flatten(a, gunzip, entries[1..], depth)
  }

  predicate Covers(entry: DirectoryEntry, id: nat) {
    entry.id <= id < entry.id + entry.run
  }

  /** The linear scan: the first run that covers the id. */
  function Scan(runs: seq<DirectoryEntry>, id: nat): Option<DirectoryEntry> {
    if runs == [] then None else if Covers(runs[0], id) then Some(runs[0]) else Scan(runs[1..], id)
  }

  lemma {:induction false} ScanConcat(p: seq<DirectoryEntry>, q: seq<DirectoryEntry>, id: nat)
    ensures Scan(p + q, id) == if Scan(p, id).Some? then Scan(p, id) else Scan(q, id)
  {
    if p == [] {
      assert p + q == q;
    } else {
      ScanConcat(p[1..], q, id);
      assert (p + q)[1..] == p[1..] + q;
    }
  }

  lemma {:induction false} ScanMiss(runs: seq<DirectoryEntry>, lo: nat, hi: nat, id: nat)
    requires RunsWithin(runs, lo, hi) && (id < lo || hi <= id)
    ensures Scan(runs, id) == None
  {
    if runs != [] {
      assert runs[0] in runs;
      ScanMiss(runs[1..], lo, hi, id);
    }
  }

  predicate RunsWithin(runs: seq<DirectoryEntry>, lo: nat, hi: nat) {
    forall e | e in runs :: lo <= e.id && e.id + e.run <= hi
  }

  lemma WellFormedTail(a: PmtilesArchive, gunzip: Gunzip, entries: seq<DirectoryEntry>, lo: nat, hi: nat, depth: nat)
    requires depth < MAX_DIRECTORY_DEPTH && WellFormed(a, gunzip, entries, lo, hi, depth) && entries != []
    ensures WellFormed(a, gunzip, entries[1..], Bound(entries, 0, hi), hi, depth)
  {
    var tail := entries[1..];
    WellFormedUp(a, gunzip, entries, lo, hi, depth);
    forall k | 0 <= k < |tail|
      ensures Bound(entries, 0, hi) <= tail[k].id && Bound(tail, k, hi) <= hi
      ensures ShareOk(a, gunzip, tail[k], Bound(tail, k, hi), depth)
    {
      assert ShareOk(a, gunzip, entries[k + 1], Bound(entries, k + 1, hi), depth);
      AscendingIds(entries, 1, k + 1);
    }
  }

  /** Each id is above the one before. */
  predicate StrictlyUp(entries: seq<DirectoryEntry>) {
    forall i, j | 0 <= i && j == i + 1 < |entries| :: entries[i].id < entries[j].id
  }

  lemma WellFormedUp(a: PmtilesArchive, gunzip: Gunzip, entries: seq<DirectoryEntry>, lo: nat, hi: nat, depth: nat)
    requires depth < MAX_DIRECTORY_DEPTH && WellFormed(a, gunzip, entries, lo, hi, depth)
    ensures StrictlyUp(entries)
  {
    forall i, j | 0 <= i && j == i + 1 < |entries|
      ensures entries[i].id < entries[j].id
    {
      assert ShareOk(a, gunzip, entries[i], Bound(entries, i, hi), depth);
    }
  }

  lemma {:induction false} AscendingIds(entries: seq<DirectoryEntry>, i: nat, j: nat)
    requires StrictlyUp(entries) && i <= j < |entries|
    ensures entries[i].id <= entries[j].id
    decreases j
  {
    if i < j {
      AscendingIds(entries, i, j - 1);
      var before := j - 1;
      assert entries[before].id < entries[j].id;
    }
  }

  lemma {:induction false} OwnWithin(a: PmtilesArchive, gunzip: Gunzip, entry: DirectoryEntry, end: nat, depth: nat)
    requires depth < MAX_DIRECTORY_DEPTH && ShareOk(a, gunzip, entry, end, depth)
    ensures RunsWithin(Own(a, gunzip, entry, depth), entry.id, end)
    decreases MAX_DIRECTORY_DEPTH - depth, 0
  {
    if entry.run == 0 {
      FlattenWithin(a, gunzip, Leaf(a, gunzip, entry).value, entry.id, end, depth + 1);
    }
  }

  /** The runs of a well-formed directory stay within its share of the ids. */
  lemma {:induction false} FlattenWithin(a: PmtilesArchive, gunzip: Gunzip, entries: seq<DirectoryEntry>, lo: nat,
                                         hi: nat,
                                         depth: nat)
    requires depth < MAX_DIRECTORY_DEPTH && WellFormed(a, gunzip, entries, lo, hi, depth)
    ensures RunsWithin(Flatten(a, gunzip, entries, depth), lo, hi)
    decreases MAX_DIRECTORY_DEPTH - depth, 1, |entries|
  {
    if entries != [] {
      OwnWithin(a, gunzip, entries[0], Bound(entries, 0, hi), depth);
      WellFormedTail(a, gunzip, entries, lo, hi, depth);
      FlattenWithin(a, gunzip, entries[1..], Bound(entries, 0, hi), hi, depth);
    }
  }

  /** The scan of a directory is the scan of the one entry whose share holds
      the id. */
  lemma {:induction false} ScanOfShare(a: PmtilesArchive, gunzip: Gunzip, entries: seq<DirectoryEntry>, lo: nat,
                                       hi: nat,
                                       depth: nat, id: nat, k: nat)
    requires depth < MAX_DIRECTORY_DEPTH && WellFormed(a, gunzip, entries, lo, hi, depth)
    requires k < |entries| && entries[k].id <= id < Bound(entries, k, hi)
    ensures Scan(Flatten(a, gunzip, entries, depth), id) == Scan(Own(a, gunzip, entries[k], depth), id)
    decreases |entries|
  {
    var own, rest := Own(a, gunzip, entries[0], depth), Flatten(a, gunzip, entries[1..], depth);
    ScanConcat(own, rest, id);
    OwnWithin(a, gunzip, entries[0], Bound(entries, 0, hi), depth);
    WellFormedTail(a, gunzip, entries, lo, hi, depth);
    if k == 0 {
      FlattenWithin(a, gunzip, entries[1..], Bound(entries, 0, hi), hi, depth);
      ScanMiss(rest, Bound(entries, 0, hi), hi, id);
    } else {
      WellFormedUp(a, gunzip, entries, lo, hi, depth);
      AscendingIds(entries, 1, k);
      ScanMiss(own, entries[0].id, Bound(entries, 0, hi), id);
      ScanOfShare(a, gunzip, entries[1..], Bound(entries, 0, hi), hi, depth, id, k - 1);
    }
  }

  lemma SortedWhenWellFormed(a: PmtilesArchive, gunzip: Gunzip, entries: seq<DirectoryEntry>, lo: nat, hi: nat,
                             depth: nat)
    requires depth < MAX_DIRECTORY_DEPTH && WellFormed(a, gunzip, entries, lo, hi, depth)
    ensures EntriesSorted(entries)
  {
    WellFormedUp(a, gunzip, entries, lo, hi, depth);
    forall i, j | 0 <= i < j < |entries|
      ensures entries[i].id <= entries[j].id
    {
      AscendingIds(entries, i, j);
    }
  }

  /** On a well-formed tree the bounded descent is the linear scan of all runs. */
  lemma {:induction false} LookupIsScan(a: PmtilesArchive, gunzip: Gunzip, entries: seq<DirectoryEntry>, lo: nat,
                                        hi: nat,
                                        depth: nat, id: nat)
    requires depth < MAX_DIRECTORY_DEPTH && WellFormed(a, gunzip, entries, lo, hi, depth) && id < hi
    ensures Lookup(a, gunzip, entries, id, depth) == Ok(Scan(Flatten(a, gunzip, entries, depth), id))
    decreases MAX_DIRECTORY_DEPTH - depth
  {
    SortedWhenWellFormed(a, gunzip, entries, lo, hi, depth);
    match Locate(entries, id) {
      case None => BelowAll(a, gunzip, entries, lo, hi, depth, id);
      case Some(k) =>
        var end := Bound(entries, k, hi);
        assert ShareOk(a, gunzip, entries[k], end, depth);
        LookupAt(a, gunzip, entries, depth, id, k, end);
        ScanOfShare(a, gunzip, entries, lo, hi, depth, id, k);
        if entries[k].run == 0 {
          LookupIsScan(a, gunzip, Leaf(a, gunzip, entries[k]).value, entries[k].id, end, depth + 1, id);
        } else {
          ScanOne(entries[k], id);
        }
    }
  }

  lemma BelowAll(a: PmtilesArchive, gunzip: Gunzip, entries: seq<DirectoryEntry>, lo: nat, hi: nat, depth: nat,
                 id: nat)
    requires depth < MAX_DIRECTORY_DEPTH && WellFormed(a, gunzip, entries, lo, hi, depth)
    requires entries != [] ==> id < entries[0].id
    ensures Scan(Flatten(a, gunzip, entries, depth), id) == None
  {
    if entries != [] {
      RunsFromFirst(a, gunzip, entries, lo, hi, depth);
      ScanMiss(Flatten(a, gunzip, entries, depth), entries[0].id, hi, id);
    }
  }

  /** What the lookup makes of the entry that it locates. */
  lemma LookupAt(a: PmtilesArchive, gunzip: Gunzip, entries: seq<DirectoryEntry>, depth: nat, id: nat, k: nat,
                 end: nat)
    requires depth < MAX_DIRECTORY_DEPTH && EntriesSorted(entries) && Locate(entries, id) == Some(k)
    requires k < |entries| && entries[k].id <= id && end < WORD64 && ShareOk(a, gunzip, entries[k], end, depth)
    ensures var entry := entries[k];
            if entry.run > 0 then
              Lookup(a, gunzip, entries, id, depth) == Ok(if Covers(entry, id) then Some(entry) else None)
            else
              Lookup(a, gunzip, entries, id, depth)
              == Lookup(a, gunzip, Leaf(a, gunzip, entry).value, id, depth + 1)
  {
  }

  lemma {:induction false} ScanOne(entry: DirectoryEntry, id: nat)
    ensures Scan([entry], id) == if Covers(entry, id) then Some(entry) else None
  {
    assert Scan([], id) == None;
  }

  lemma RunsFromFirst(a: PmtilesArchive, gunzip: Gunzip, entries: seq<DirectoryEntry>, lo: nat, hi: nat, depth: nat)
    requires depth < MAX_DIRECTORY_DEPTH && WellFormed(a, gunzip, entries, lo, hi, depth) && entries != []
    ensures RunsWithin(Flatten(a, gunzip, entries, depth), entries[0].id, hi)
  {
    OwnWithin(a, gunzip, entries[0], Bound(entries, 0, hi), depth);
    WellFormedTail(a, gunzip, entries, lo, hi, depth);
    FlattenWithin(a, gunzip, entries[1..], Bound(entries, 0, hi), hi, depth);
  }

  /** The tile data that a finished lookup names. */
  function Fetch(a: PmtilesArchive, found: Attempt<Option<DirectoryEntry>>): Attempt<Option<Tile>> {
    var entry :- found;
    match entry
    case None => Ok(None)
    case Some(run) =>
      var bytes :- RelativeData(a.file, a.tiles, run.offset, run.length);
      Ok(Some(Tile(bytes, a.tileCompression)))
  }

  /** What a tile request comes to, from the directory tree. */
  function TileFor(a: PmtilesArchive, gunzip: Gunzip, id: nat): Attempt<Option<Tile>> {
    Fetch(a, Lookup(a, gunzip, a.root, id, 0))
  }

  /** What one level of the descent comes to: an answer, or a directory below. */
  datatype Level = Answered(answer: Attempt<Option<Tile>>) | Below(directory: seq<DirectoryEntry>)

  function LevelOf(a: PmtilesArchive, gunzip: Gunzip, entries: seq<DirectoryEntry>, id: nat, depth: nat): Level
    requires depth < MAX_DIRECTORY_DEPTH
  {
    match Locate(entries, id)
    case None => Answered(Ok(None))
    case Some(k) =>
      if entries[k].run > 0 then
        if id >= SaturatingEnd(entries[k]) then Answered(Ok(None)) else Answered(Fetch(a, Ok(Some(entries[k]))))
      else if depth + 1 == MAX_DIRECTORY_DEPTH then Answered(Err(InvalidDirectory))
      else
        match Leaf(a, gunzip, entries[k])
        case Err(e) => Answered(Err(e))
        case Ok(leaf) => Below(leaf)
  }

  lemma {:induction false} LookupStep(a: PmtilesArchive, gunzip: Gunzip, entries: seq<DirectoryEntry>, id: nat,
                                      depth: nat)
    requires depth < MAX_DIRECTORY_DEPTH
    ensures var found := Fetch(a, Lookup(a, gunzip, entries, id, depth));
            match LevelOf(a, gunzip, entries, id, depth)
            case Answered(answer) => found == answer
            case Below(leaf) =>
              depth + 1 < MAX_DIRECTORY_DEPTH && found == Fetch(a, Lookup(a, gunzip, leaf, id, depth + 1))
  {
  }

  /** A tile by its coordinates: the loop over directory levels. Coordinates
      outside the zoom level have no tile. */
  method GetTile(a: PmtilesArchive, gunzip: Gunzip, z: nat, x: u32, y: u32) returns (r: Attempt<Option<Tile>>)
    ensures var t := Hilbert.Tile(z, x, y);
            if Hilbert.ValidTile(t) then Hilbert.TileId(t) >= 0 && r == TileFor(a, gunzip, Hilbert.TileId(t))
            else r == Ok(None)
  {
    var tileId := Hilbert.ZxyToId(z, x, y);
    if tileId.None? {
      return Ok(None);
    }
    Hilbert.IdsFit(Hilbert.Tile(z, x, y));
    r := Descend(a, gunzip, tileId.value);
  }

  method Descend(a: PmtilesArchive, gunzip: Gunzip, id: nat) returns (r: Attempt<Option<Tile>>)
    ensures r == TileFor(a, gunzip, id)
  {
    var directory := a.root;
    for depth := 0 to MAX_DIRECTORY_DEPTH
      invariant Descending(a, gunzip, id, directory, depth)
    {
      DescentStep(a, gunzip, id, directory, depth);
      var level := OneLevel(a, gunzip, directory, id, depth);
      if level.Answered? {
        return level.answer;
      }
      directory := level.directory;
    }
    return Err(InvalidDirectory);
  }

  /** The descent has come to this directory, or has run out of levels. */
  ghost predicate Descending(
    a: PmtilesArchive, gunzip: Gunzip, id: nat, directory: seq<DirectoryEntry>, depth: nat
  ) {
    TileFor(a, gunzip, id)
    == if depth < MAX_DIRECTORY_DEPTH then Fetch(a, Lookup(a, gunzip, directory, id, depth)) else Err(InvalidDirectory)
  }

  lemma DescentStep(a: PmtilesArchive, gunzip: Gunzip, id: nat, directory: seq<DirectoryEntry>, depth: nat)
    requires depth < MAX_DIRECTORY_DEPTH && Descending(a, gunzip, id, directory, depth)
    ensures match LevelOf(a, gunzip, directory, id, depth)
            case Answered(answer) => TileFor(a, gunzip, id) == answer
            case Below(leaf) => Descending(a, gunzip, id, leaf, depth + 1)
  {
    LookupStep(a, gunzip, directory, id, depth);
  }

  method OneLevel(a: PmtilesArchive, gunzip: Gunzip, directory: seq<DirectoryEntry>, id: nat, depth: nat)
      returns (r: Level)
    requires depth < MAX_DIRECTORY_DEPTH
    ensures r == LevelOf(a, gunzip, directory, id, depth)
  {
    var k := Locate(directory, id);
    if k.None? {
      return Answered(Ok(None));
    }
    var entry := directory[k.value];
    if entry.run > 0 {
      if id >= SaturatingEnd(entry) {
        return Answered(Ok(None));
      }
      var bytes := RelativeData(a.file, a.tiles, entry.offset, entry.length);
      if bytes.Err? {
        return Answered(Err(bytes.error));
      }
      return Answered(Ok(Some(Tile(bytes.value, a.tileCompression))));
    }
    if depth + 1 == MAX_DIRECTORY_DEPTH {
      return Answered(Err(InvalidDirectory));
    }
    var leaf := Leaf(a, gunzip, entry);
    if leaf.Err? {
      return Answered(Err(leaf.error));
    }
    return Below(leaf.value);
  }

  lemma {:induction false} ScanHit(runs: seq<DirectoryEntry>, id: nat)
    ensures match Scan(runs, id)
            case Some(entry) => entry in runs && Covers(entry, id)
            case None => forall e | e in runs :: !Covers(e, id)
  {
    if runs != [] && !Covers(runs[0], id) {
      ScanHit(runs[1..], id);
    }
  }

  lemma {:induction false} OwnExists(a: PmtilesArchive, gunzip: Gunzip, entry: DirectoryEntry, end: nat, depth: nat)
    requires depth < MAX_DIRECTORY_DEPTH && ShareOk(a, gunzip, entry, end, depth)
    ensures forall e | e in Own(a, gunzip, entry, depth) :: RelativeData(a.file, a.tiles, e.offset, e.length).Ok?
    decreases MAX_DIRECTORY_DEPTH - depth, 0
  {
    if entry.run == 0 {
      TilesExist(a, gunzip, Leaf(a, gunzip, entry).value, entry.id, end, depth + 1);
    }
  }

  lemma {:induction false} TilesExist(a: PmtilesArchive, gunzip: Gunzip, entries: seq<DirectoryEntry>, lo: nat, hi: nat,
                                      depth: nat)
    requires depth < MAX_DIRECTORY_DEPTH && WellFormed(a, gunzip, entries, lo, hi, depth)
    ensures forall e | e in Flatten(a, gunzip, entries, depth) ::
              RelativeData(a.file, a.tiles, e.offset, e.length).Ok?
    decreases MAX_DIRECTORY_DEPTH - depth, 1, |entries|
  {
    if entries != [] {
      OwnExists(a, gunzip, entries[0], Bound(entries, 0, hi), depth);
      WellFormedTail(a, gunzip, entries, lo, hi, depth);
      TilesExist(a, gunzip, entries[1..], Bound(entries, 0, hi), hi, depth);
    }
  }

  /** On a well-formed archive a request never fails: it returns the tile data
      that the run covering the id names, and nothing when no run covers it. */
  lemma RequestIsScan(a: PmtilesArchive, gunzip: Gunzip, hi: nat, id: nat)
    requires WellFormed(a, gunzip, a.root, 0, hi, 0) && id < hi
    ensures match TileFor(a, gunzip, id)
            case Err(_) => false
            case Ok(None) => forall e | e in Flatten(a, gunzip, a.root, 0) :: !Covers(e, id)
            case Ok(Some(tile)) =>
              tile.compression == a.tileCompression &&
              exists e :: e in Flatten(a, gunzip, a.root, 0) && Covers(e, id)
                          && RelativeData(a.file, a.tiles, e.offset, e.length) == Ok(tile.bytes)
  {
    LookupIsScan(a, gunzip, a.root, 0, hi, 0, id);
    ScanHit(Flatten(a, gunzip, a.root, 0), id);
    TilesExist(a, gunzip, a.root, 0, hi, 0);
  }

  /** An entry leads on from one directory to the next, for this id. */
  predicate LeadsTo(a: PmtilesArchive, gunzip: Gunzip, d: seq<DirectoryEntry>, id: nat, next: seq<DirectoryEntry>) {
    var k := Locate(d, id);
    k.Some? && d[k.value].run == 0 && Leaf(a, gunzip, d[k.value]) == Ok(next)
  }

  /** Three levels below the root are searched, and an entry that leads on from
      the last of them is refused. */
  lemma FourLevels(a: PmtilesArchive, gunzip: Gunzip, id: nat, d1: seq<DirectoryEntry>, d2: seq<DirectoryEntry>,
                   d3: seq<DirectoryEntry>)
    requires LeadsTo(a, gunzip, a.root, id, d1) && LeadsTo(a, gunzip, d1, id, d2) && LeadsTo(a, gunzip, d2, id, d3)
    ensures var k := Locate(d3, id);
            match k
            case None => TileFor(a, gunzip, id) == Ok(None)
            case Some(k) =>
              var entry := d3[k];
              if entry.run == 0 then TileFor(a, gunzip, id) == Err(InvalidDirectory)
              else if id < entry.id + entry.run < 0x1_0000_0000_0000_0000 then
                TileFor(a, gunzip, id)
                == match RelativeData(a.file, a.tiles, entry.offset, entry.length)
                   case Err(e) => Err(e)
                   case Ok(bytes) => Ok(Some(Tile(bytes, a.tileCompression)))
              else entry.id + entry.run <= id < 0x1_0000_0000_0000_0000 - 1 ==> TileFor(a, gunzip, id) == Ok(None)
  {
    assert Lookup(a, gunzip, a.root, id, 0) == Lookup(a, gunzip, d3, id, 3) by {
      assert Lookup(a, gunzip, a.root, id, 0) == Lookup(a, gunzip, d1, id, 1);
      assert Lookup(a, gunzip, d1, id, 1) == Lookup(a, gunzip, d2, id, 2);
    }
  }

  /** A number with its least significant byte first. */
  function LittleEndian(bytes: seq<byte>): nat {
    if bytes == [] then 0 else bytes[0] + 256 * LittleEndian(bytes[1..])
  }

  function ToLittleEndian(value: nat, width: nat): (r: seq<byte>)
    ensures |r| == width
  {
    if width == 0 then [] else [value % 256] + ToLittleEndian(value / 256, width - 1)
  }

  function Pow256(k: nat): nat {
    if k == 0 then 1 else 256 * Pow256(k - 1)
  }

  /** A header number of eight bytes, refused when the file is too short. */
  function Number(file: seq<byte>, offset: nat): Attempt<nat> {
    if offset + 8 > |file| then Err(InvalidHeader) else Ok(LittleEndian(file[offset..offset + 8]))
  }

  lemma {:induction false} LittleEndianReadsBack(value: nat, width: nat)
    requires value < Pow256(width)
    ensures LittleEndian(ToLittleEndian(value, width)) == value
  {
    if width > 0 {
      LittleEndianReadsBack(value / 256, width - 1);
    }
  }

  /** The region that two header numbers name, refused beyond the file. */
  function HeaderRange(file: seq<byte>, offsetField: nat, lengthField: nat): (r: Attempt<Region>)
    ensures r.Ok? ==> r.value.start <= r.value.end <= |file|
  {
    var offset :- Number(file, offsetField);
    var length :- Number(file, lengthField);
    if offset + length >= WORD64 || offset + length > |file| then Err(InvalidHeader)
    else Ok(Region(offset, offset + length))
  }

  /** "PMTiles" and version 3. */
  predicate HasMagic(file: seq<byte>) {
    |file| >= HEADER_BYTES && file[..8] == [80, 77, 84, 105, 108, 101, 115, 3]
  }

  /** What a file is opened to. */
  function Opening(file: seq<byte>, gunzip: Gunzip): Attempt<PmtilesArchive> {
    if !HasMagic(file) then Err(InvalidHeader)
    else
      var root :- HeaderRange(file, 8, 16);
      var leaves :- HeaderRange(file, 40, 48);
      var tiles :- HeaderRange(file, 56, 64);
      var tileCompression :- FromHeader(file[98]);
      var data :- Decompress(file[root.start..root.end], file[97], gunzip);
      match Parse(data)
      case None => Err(InvalidDirectory)
      case Some(entries) => Ok(PmtilesArchive(file, leaves, tiles, file[97], tileCompression, entries))
  }

  /** The numbers at two fields of the header name a stretch beyond the file. */
  predicate PastFile(file: seq<byte>, field: nat)
    requires field + 16 <= |file|
  {
    var end := LittleEndian(file[field..field + 8]) + LittleEndian(file[field + 8..field + 16]);
    end > |file| || end >= 0x1_0000_0000_0000_0000
  }

  /** Which header is refused as invalid: one that is short, does not begin with
      "PMTiles" and the version, or names a section beyond the file; and what
      is refused next. */
  lemma HeaderIsRefused(file: seq<byte>, gunzip: Gunzip)
    ensures Opening(file, gunzip) == Err(InvalidHeader) <==>
            || |file| < 127 || file[0] != 0x50 || file[1] != 0x4D || file[2] != 0x54 || file[3] != 0x69
            || file[4] != 0x6C || file[5] != 0x65 || file[6] != 0x73 || file[7] != 3
            || PastFile(file, 8) || PastFile(file, 40) || PastFile(file, 56)
    ensures Opening(file, gunzip) != Err(InvalidHeader) && file[98] != 1 && file[98] != 2 ==>
              Opening(file, gunzip) == Err(UnsupportedCompression)
  {
    if |file| >= 127 {
      MagicByByte(file);
    }
  }

  lemma MagicByByte(file: seq<byte>)
    requires |file| >= 127
    ensures HasMagic(file) <==>
            && file[0] == 0x50 && file[1] == 0x4D && file[2] == 0x54 && file[3] == 0x69
            && file[4] == 0x6C && file[5] == 0x65 && file[6] == 0x73 && file[7] == 3
  {
    var magic := [80, 77, 84, 105, 108, 101, 115, 3];
    assert file[..8] == magic <==> forall i | 0 <= i < 8 :: file[..8][i] == magic[i];
  }

  /** Opening an archive: what is opened has its regions inside the file and a
      sorted root directory. */
  method Open(file: seq<byte>, gunzip: Gunzip) returns (r: Attempt<PmtilesArchive>)
    ensures r == Opening(file, gunzip)
    ensures r.Ok? ==>
              var a := r.value;
              && a.file == file && HasMagic(file) && EntriesSorted(a.root)
              && a.leaves.start <= a.leaves.end <= |file| && a.tiles.start <= a.tiles.end <= |file|
              && a.compression == file[97] && (a.tileCompression == Plain <==> file[98] == 1)
              && (file[98] == 1 || file[98] == 2)
  {
    if !HasMagic(file) {
      return Err(InvalidHeader);
    }
    var root :- HeaderRange(file, 8, 16);
    var leaves :- HeaderRange(file, 40, 48);
    var tiles :- HeaderRange(file, 56, 64);
    var tileCompression :- FromHeader(file[98]);
    var data :- Decompress(file[root.start..root.end], file[97], gunzip);
    var entries := ParseDirectory(data);
    if entries.None? {
      return Err(InvalidDirectory);
    }
    return Ok(PmtilesArchive(file, leaves, tiles, file[97], tileCompression, entries.value));
  }
}
