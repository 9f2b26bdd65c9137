/** Publication: any number of requests, each a sequence of atomic database
    calls that interleave with those of the others, over one database. A
    database call may fail, and a batch that is reported as failed may have
    been committed. */
module Publish {
  import opened Common

  /** A digest that never collides. */
  datatype Digest<T> = Sha256(text: T)

  type Id = nat
  type Tile = string

  /** What a client publishes: its canonical text, and the cells of its line. */
  datatype Publication = Publication(text: string, tiles: seq<Tile>)

  datatype Row = Row(
    key: Option<Digest<string>>,
    body: Option<Digest<Publication>>,
    publication: Publication,
    createdAt: nat,
    expiresAt: Option<nat>,
    isSeed: bool)

  datatype Cell = Cell(tile: Tile, segment: Id)

  /** The two tables; a segment's id is its primary key. */
  datatype Store = Store(rows: map<Id, Row>, cells: set<Cell>)

  const CELLS_PER_SEGMENT: nat := 64
  const TTL_MINUTES: nat := 24 * 60

  predicate Expired(row: Row, now: nat) {
    !row.isSeed && row.expiresAt.Some? && row.expiresAt.value <= now
  }

  function ExpiredIds(store: Store, now: nat): set<Id> {
    set id | id in store.rows && Expired(store.rows[id], now)
  }

  /** The two statements of the purge batch, in their order. */
  function PurgeCells(store: Store, now: nat): Store {
    store.(cells := set c | c in store.cells && c.segment !in ExpiredIds(store, now))
  }

  function PurgeRows(store: Store, now: nat): Store {
    store.(rows := store.rows - ExpiredIds(store, now))
  }

  function Purge(store: Store, now: nat): Store {
    PurgeRows(PurgeCells(store, now), now)
  }

  predicate HasKey(store: Store, id: Id, key: Digest<string>) {
    id in store.rows && store.rows[id].key == Some(key)
  }

  ghost predicate KeyTaken(store: Store, key: Option<Digest<string>>) {
    key.Some? && exists id :: HasKey(store, id, key.value)
  }

  predicate Distinct(tiles: seq<Tile>) {
    forall i, j | 0 <= i < j < |tiles| :: tiles[i] != tiles[j]
  }

  /** No constraint forbids the rows of this segment: ids, key hashes and cells are unique. */
  ghost predicate Insertable(store: Store, id: Id, row: Row) {
    && id !in store.rows
    && !KeyTaken(store, row.key)
    && Distinct(row.publication.tiles)
    && forall t | t in row.publication.tiles :: Cell(t, id) !in store.cells
  }

  function CellsOf(id: Id, tiles: seq<Tile>): set<Cell> {
    set t | t in tiles :: Cell(t, id)
  }

  function Inserted(store: Store, id: Id, row: Row): Store {
    Store(store.rows[id := row], store.cells + CellsOf(id, row.publication.tiles))
  }

  /** The database: statements of a batch take effect together or not at all. */
  class Database {
    var rows: map<Id, Row>
    var cells: set<Cell>

    constructor (store: Store)
      ensures Contents() == store
    {
      rows, cells := store.rows, store.cells;
    }

    function Contents(): Store
      reads this
    {
      Store(rows, cells)
    }

    method PurgeBatch(now: nat)
      modifies this
      ensures Contents() == Purge(old(Contents()), now)
      ensures forall id ::
                id in rows <==> id in old(rows) && (old(rows)[id].isSeed || old(rows)[id].expiresAt.None?
                                                    || old(rows)[id].expiresAt.value > now)
      ensures forall id | id in rows :: rows[id] == old(rows)[id]
      ensures forall c :: c in cells <==> c in old(cells) && (c.segment in old(rows) ==> c.segment in rows)
    {
      cells := set c | c in cells && !(c.segment in rows && Expired(rows[c.segment], now));
      rows := map id | id in rows && !Expired(rows[id], now) :: rows[id];
    }

    method SelectByKey(key: Digest<string>) returns (found: Option<Id>)
      ensures found.Some? ==> HasKey(Contents(), found.value, key)
      ensures found.None? ==> !KeyTaken(Contents(), Some(key))
    {
      var left := rows.Keys;
      while left != {}
        invariant left <= rows.Keys
        invariant forall id | HasKey(Contents(), id, key) :: id in left
        decreases left
      {
        var id :| id in left;
        if rows[id].key == Some(key) {
          return Some(id);
        }
        left := left - {id};
      }
      return None;
    }

    method InsertBatch(id: Id, row: Row) returns (ok: bool)
      modifies this
      ensures ok <==> Insertable(old(Contents()), id, row)
      ensures Contents() == if ok then Inserted(old(Contents()), id, row) else old(Contents())
    {
      if id in rows {
        return false;
      }
      if row.key.Some? {
        var taken := SelectByKey(row.key.value);
        if taken.Some? {
          return false;
        }
      }
      var fits, added := WithCells(id, row.publication.tiles);
      if !fits {
        return false;
      }
      rows, cells := rows[id := row], added;
      return true;
    }

    /** The cell statements of the batch, one by one. */
    method WithCells(id: Id, tiles: seq<Tile>) returns (ok: bool, added: set<Cell>)
      ensures ok <==> Distinct(tiles) && forall t | t in tiles :: Cell(t, id) !in cells
      ensures ok ==> added == cells + CellsOf(id, tiles)
    {
      added := cells;
      for i := 0 to |tiles|
        invariant Distinct(tiles[..i]) && forall k | 0 <= k < i :: Cell(tiles[k], id) !in cells
        invariant added == cells + CellsOf(id, tiles[..i])
      {
        if Cell(tiles[i], id) in added {
          TwiceOrThere(cells, id, tiles, i);
          return false, added;
        }
        assert tiles[..i + 1] == tiles[..i] + [tiles[i]];
        added := added + {Cell(tiles[i], id)};
      }
      assert tiles[..|tiles|] == tiles;
      return true, added;
    }
  }

  lemma TwiceOrThere(cells: set<Cell>, id: Id, tiles: seq<Tile>, i: nat)
    requires i < |tiles| && Cell(tiles[i], id) in cells + CellsOf(id, tiles[..i])
    ensures Distinct(tiles) ==> exists t :: t in tiles && Cell(t, id) in cells
  {
    if Cell(tiles[i], id) in cells {
      assert tiles[i] in tiles;
    } else {
      assert tiles[i] in tiles[..i];
    }
  }

  /** The first version of the API takes an optional key and ignores the body
      of a repeated request; the second needs a key and compares bodies. */
  datatype Api = V1 | V2

  datatype Request = Request(api: Api, key: Option<Digest<string>>, publication: Publication, now: nat)

  function BodyOf(r: Request): Option<Digest<Publication>> {
    if r.api == V2 then Some(Sha256(r.publication)) else None
  }

  function RowOf(r: Request): Row {
    Row(r.key, BodyOf(r), r.publication, r.now, Some(r.now + TTL_MINUTES), false)
  }

  /** Where a request stands: the next database call it makes, or its status. */
  datatype Stage = Started | Purged | Inserting(id: Id) | Caught | Done(status: nat)

  datatype Call = Call(request: Request, stage: Stage)

  /** What happened so far: a segment was returned to a caller, or segments
      were purged. */
  datatype Entry =
    | Returned(call: nat, status: nat, id: Id, row: Row)
    | Removed(now: nat, ids: set<Id>)

  datatype World = World(store: Store, calls: seq<Call>, log: seq<Entry>)

  function Moved(w: World, c: nat, stage: Stage): World
    requires c < |w.calls|
  {
    w.(calls := w.calls[c := w.calls[c].(stage := stage)])
  }

  function Purging(w: World, now: nat): World {
    w.(store := Purge(w.store, now), log := w.log + [Removed(now, ExpiredIds(w.store, now))])
  }

  function Return(w: World, c: nat, status: nat, id: Id, row: Row): World
    requires c < |w.calls|
  {
    Moved(w.(log := w.log + [Returned(c, status, id, row)]), c, Done(status))
  }

  /** Answers with a segment found under the key, unless its body differs. */
  function Conclude(w: World, c: nat, id: Id): World
    requires c < |w.calls| && id in w.store.rows
  {
    var request, row := w.calls[c].request, w.store.rows[id];
    if request.api == V2 && row.body != BodyOf(request) then Moved(w, c, Done(409))
    else Return(w, c, 200, id, row)
  }

  /** Before the first database call a request can be refused. */
  ghost predicate Starts(w: World, c: nat, v: World)
    requires c < |w.calls|
  {
    var request := w.calls[c].request;
    || (exists status :: status in {400, 413, 429, 503} && v == Moved(w, c, Done(status)))
    || (&& (request.api == V2 ==> request.key.Some?)
        && (|| v == Moved(Purging(w, request.now), c, Purged)
            || v == Moved(Purging(w, request.now), c, Done(500))
            || v == Moved(w, c, Done(500))))
  }

  ghost predicate Begins(w: World, c: nat, v: World)
    requires c < |w.calls|
  {
    if |w.calls[c].request.publication.tiles| > CELLS_PER_SEGMENT then v == Moved(w, c, Done(413))
    else exists id :: v == Moved(w, c, Inserting(id))
  }

  ghost predicate Looks(w: World, c: nat, v: World)
    requires c < |w.calls|
  {
    var key := w.calls[c].request.key;
    if key.None? then Begins(w, c, v)
    else
      || v == Moved(w, c, Done(500))
      || (exists id :: HasKey(w.store, id, key.value) && v == Conclude(w, c, id))
      || (!KeyTaken(w.store, key) && Begins(w, c, v))
  }

  ghost predicate Inserts(w: World, c: nat, id: Id, v: World)
    requires c < |w.calls|
  {
    var row := RowOf(w.calls[c].request);
    || v == Moved(w, c, Caught)
    || (&& Insertable(w.store, id, row)
        && (|| v == Return(w.(store := Inserted(w.store, id, row)), c, 201, id, row)
            || v == Moved(w.(store := Inserted(w.store, id, row)), c, Caught)))
  }

  ghost predicate Catches(w: World, c: nat, v: World)
    requires c < |w.calls|
  {
    var key := w.calls[c].request.key;
    || v == Moved(w, c, Done(500))
    || (key.Some? && exists id :: HasKey(w.store, id, key.value) && v == Conclude(w, c, id))
  }

  /** One atomic step of call c. */
  ghost predicate Step(w: World, c: nat, v: World) {
    c < |w.calls|
    && match w.calls[c].stage
       case Started => Starts(w, c, v)
       case Purged => Looks(w, c, v)
       case Inserting(id) => Inserts(w, c, id, v)
       case Caught => Catches(w, c, v)
       case Done(_) => false
  }

  /** At most one segment holds a key. */
  ghost predicate UniqueKeys(store: Store) {
    forall i, j, key | HasKey(store, i, key) && HasKey(store, j, key) :: i == j
  }

  /** The cell table holds exactly the cells of the segments in the other. */
  ghost predicate CellsMatch(store: Store) {
    forall c: Cell :: c in store.cells <==> c.segment in store.rows && c.tile in store.rows[c.segment].publication.tiles
  }

  predicate Removes(e: Entry, id: Id) {
    e.Removed? && id in e.ids
  }

  /** The segment was purged after entry p and before entry q. */
  ghost predicate RemovedBetween(log: seq<Entry>, p: nat, q: nat, id: Id) {
    exists r :: p < r < q <= |log| && Removes(log[r], id)
  }

  /** A segment that was returned is still stored, as it was, unless purged since. */
  ghost predicate Retained(w: World) {
    forall p: nat | p < |w.log| && w.log[p].Returned? && !RemovedBetween(w.log, p, |w.log|, w.log[p].id) ::
      w.log[p].id in w.store.rows && w.store.rows[w.log[p].id] == w.log[p].row
  }

  /** What a caller is given answers what it asked. */
  predicate Answers(e: Entry, request: Request)
    requires e.Returned?
  {
    && (request.key.Some? ==> e.row.key == request.key)
    && (request.api == V2 ==> request.key.Some? && e.row.publication == request.publication)
    && (e.status == 201 ==>
          && e.row.key == request.key && e.row.publication == request.publication && !e.row.isSeed
          && e.row.body == (if request.api == V2 then Some(Sha256(request.publication)) else None)
          && e.row.createdAt == request.now && e.row.expiresAt == Some(request.now + 1440))
    && (e.status == 200 || e.status == 201)
  }

  ghost predicate Answered(w: World) {
    forall p: nat | p < |w.log| && w.log[p].Returned? ::
      w.log[p].call < |w.calls| && Answers(w.log[p], w.calls[w.log[p].call].request)
  }

  /** Two answers for one key name the same segment, unless the first was
      purged in between. */
  ghost predicate SameSegment(log: seq<Entry>) {
    forall p: nat, q: nat
      | p < q < |log| && log[p].Returned? && log[q].Returned? && log[p].row.key.Some?
        && log[p].row.key == log[q].row.key && !RemovedBetween(log, p, q, log[p].id) ::
      log[p].id == log[q].id && log[p].row == log[q].row
  }

  /** A segment is announced as created once: later answers repeat it. */
  ghost predicate CreatedOnce(log: seq<Entry>) {
    forall p: nat, q: nat
      | p < q < |log| && log[p].Returned? && log[q].Returned? && log[q].status == 201 && log[p].id == log[q].id ::
      RemovedBetween(log, p, q, log[p].id)
  }

  /** Only what has expired is purged, and by the clock of some request. */
  ghost predicate PurgedExpired(log: seq<Entry>) {
    forall p: nat, r: nat
      | p < r < |log| && log[p].Returned? && Removes(log[r], log[p].id) && !RemovedBetween(log, p, r, log[p].id) ::
      !log[p].row.isSeed && log[p].row.expiresAt.Some? && log[p].row.expiresAt.value <= log[r].now
  }

  ghost predicate ClocksKnown(w: World) {
    forall r: nat | r < |w.log| && w.log[r].Removed? :: HasClock(w.calls, w.log[r].now)
  }

  ghost predicate HasClock(calls: seq<Call>, now: nat) {
    exists c: nat :: c < |calls| && calls[c].request.now == now
  }

  /** The digest of a stored body is that of what is stored. */
  ghost predicate BodiesMatch(store: Store) {
    forall id | id in store.rows && store.rows[id].body.Some? ::
      store.rows[id].body == Some(Sha256(store.rows[id].publication))
  }

  ghost predicate Inv(w: World) {
    && UniqueKeys(w.store) && CellsMatch(w.store) && BodiesMatch(w.store)
    && Retained(w) && Answered(w) && SameSegment(w.log) && CreatedOnce(w.log)
    && PurgedExpired(w.log) && ClocksKnown(w)
  }

  lemma PurgeKeeps(store: Store, now: nat)
    requires UniqueKeys(store) && CellsMatch(store) && BodiesMatch(store)
    ensures UniqueKeys(Purge(store, now)) && CellsMatch(Purge(store, now)) && BodiesMatch(Purge(store, now))
  {
    var after := Purge(store, now);
    forall i, j, key | HasKey(after, i, key) && HasKey(after, j, key)
      ensures i == j
    {
      assert HasKey(store, i, key) && HasKey(store, j, key);
    }
  }

  lemma InsertKeeps(store: Store, id: Id, request: Request)
    requires UniqueKeys(store) && CellsMatch(store) && BodiesMatch(store)
    requires Insertable(store, id, RowOf(request))
    ensures var after := Inserted(store, id, RowOf(request));
            UniqueKeys(after) && CellsMatch(after) && BodiesMatch(after)
  {
    var row := RowOf(request);
    var after := Inserted(store, id, row);
    forall i, key | HasKey(after, i, key)
      ensures if i == id then row.key == Some(key) else HasKey(store, i, key)
    {
    }
    forall c: Cell
      ensures c in after.cells
              <==> c.segment in after.rows && c.tile in after.rows[c.segment].publication.tiles
    {
      assert c == Cell(c.tile, c.segment);
      if c.segment == id {
        assert c !in store.cells;
      }
    }
  }

  /** A new entry at the end of the log changes no earlier interval. */
  lemma Appended(log: seq<Entry>, e: Entry, p: nat, q: nat, id: Id)
    requires p < q <= |log|
    ensures RemovedBetween(log + [e], p, q, id) <==> RemovedBetween(log, p, q, id)
    ensures RemovedBetween(log + [e], p, |log| + 1, id)
            <==> RemovedBetween(log, p, |log|, id) || Removes(e, id)
  {
    if RemovedBetween(log, p, q, id) {
      var r :| p < r < q && Removes(log[r], id);
      assert (log + [e])[r] == log[r];
    }
    if RemovedBetween(log, p, |log|, id) {
      var r :| p < r < |log| && Removes(log[r], id);
      assert (log + [e])[r] == log[r];
    }
    if RemovedBetween(log + [e], p, |log| + 1, id) && !Removes(e, id) {
      var r :| p < r < |log| + 1 && Removes((log + [e])[r], id);
      assert r < |log| && log[r] == (log + [e])[r];
    }
    if Removes(e, id) {
      assert (log + [e])[|log|] == e;
    }
  }

  lemma PurgingKeeps(w: World, now: nat)
    requires Inv(w) && HasClock(w.calls, now)
    ensures Inv(Purging(w, now))
  {
    PurgeKeeps(w.store, now);
    PurgingRetains(w, now);
    PurgedMore(w, now);
    RemovalRepeats(w.log, Removed(now, ExpiredIds(w.store, now)));
  }

  /** A removal at the end changes nothing about the answers before it. */
  lemma RemovalRepeats(log: seq<Entry>, e: Entry)
    requires SameSegment(log) && CreatedOnce(log) && e.Removed?
    ensures SameSegment(log + [e]) && CreatedOnce(log + [e])
  {
    forall p: nat, q: nat, id | p < q < |log|
      ensures RemovedBetween(log + [e], p, q, id) <==> RemovedBetween(log, p, q, id)
    {
      Appended(log, e, p, q, id);
    }
  }

  /** What a purge removes of what was returned has expired. */
  lemma PurgedMore(w: World, now: nat)
    requires Retained(w) && PurgedExpired(w.log)
    ensures PurgedExpired(Purging(w, now).log)
  {
    var e := Removed(now, ExpiredIds(w.store, now));
    var log := w.log + [e];
    forall p: nat, r: nat
      | p < r < |log| && log[p].Returned? && Removes(log[r], log[p].id) && !RemovedBetween(log, p, r, log[p].id)
      ensures !log[p].row.isSeed && log[p].row.expiresAt.Some? && log[p].row.expiresAt.value <= log[r].now
    {
      Appended(w.log, e, p, r, log[p].id);
      assert w.log[p] == log[p];
      if r < |w.log| {
        assert w.log[r] == log[r];
      }
    }
  }

  lemma PurgingRetains(w: World, now: nat)
    requires Retained(w)
    ensures Retained(Purging(w, now))
  {
    var e := Removed(now, ExpiredIds(w.store, now));
    var v := Purging(w, now);
    forall p: nat | p < |v.log| && v.log[p].Returned? && !RemovedBetween(v.log, p, |v.log|, v.log[p].id)
      ensures v.log[p].id in v.store.rows && v.store.rows[v.log[p].id] == v.log[p].row
    {
      Appended(w.log, e, p, |w.log|, v.log[p].id);
      assert w.log[p] == v.log[p] && !RemovedBetween(w.log, p, |w.log|, w.log[p].id);
    }
  }

  lemma MovedKeeps(w: World, c: nat, stage: Stage)
    requires Inv(w) && c < |w.calls|
    ensures Inv(Moved(w, c, stage))
  {
    var v := Moved(w, c, stage);
    assert forall k | 0 <= k < |w.calls| :: v.calls[k].request == w.calls[k].request;
    forall now | HasClock(w.calls, now)
      ensures HasClock(v.calls, now)
    {
      var k: nat :| k < |w.calls| && w.calls[k].request.now == now;
      assert v.calls[k].request.now == now;
    }
  }

  lemma InsertedKeeps(w: World, id: Id, request: Request)
    requires Inv(w) && Insertable(w.store, id, RowOf(request))
    ensures Inv(w.(store := Inserted(w.store, id, RowOf(request))))
  {
    InsertKeeps(w.store, id, request);
  }

  /** Returning a stored segment. */
  lemma ReturnKeeps(w: World, c: nat, status: nat, id: Id, row: Row)
    requires Inv(w) && c < |w.calls| && id in w.store.rows && w.store.rows[id] == row
    requires Answers(Returned(c, status, id, row), w.calls[c].request)
    requires status == 201 ==> Unmentioned(w.log, id)
    ensures Inv(Return(w, c, status, id, row))
  {
    var e := Returned(c, status, id, row);
    var v := w.(log := w.log + [e]);
    forall p: nat, q: nat, i | p < q <= |w.log|
      ensures RemovedBetween(v.log, p, q, i) <==> RemovedBetween(w.log, p, q, i)
      ensures RemovedBetween(v.log, p, |w.log| + 1, i) <==> RemovedBetween(w.log, p, |w.log|, i)
    {
      Appended(w.log, e, p, q, i);
    }
    LastAgrees(w, e);
    MovedKeeps(v, c, Done(status));
  }

  /** Whatever was returned under this id has been purged since. */
  ghost predicate Unmentioned(log: seq<Entry>, id: Id) {
    forall p: nat | p < |log| && log[p].Returned? && log[p].id == id :: RemovedBetween(log, p, |log|, id)
  }

  /** A stored segment with a key is the one every answer since its last purge named. */
  lemma LastAgrees(w: World, e: Entry)
    requires UniqueKeys(w.store) && Retained(w)
    requires e.Returned? && e.id in w.store.rows && w.store.rows[e.id] == e.row
    ensures forall p: nat
              | p < |w.log| && w.log[p].Returned? && w.log[p].row.key.Some?
                && w.log[p].row.key == e.row.key && !RemovedBetween(w.log, p, |w.log|, w.log[p].id) ::
              w.log[p].id == e.id && w.log[p].row == e.row
  {
    forall p: nat
      | p < |w.log| && w.log[p].Returned? && w.log[p].row.key.Some?
        && w.log[p].row.key == e.row.key && !RemovedBetween(w.log, p, |w.log|, w.log[p].id)
      ensures w.log[p].id == e.id && w.log[p].row == e.row
    {
      var key := e.row.key.value;
      assert HasKey(w.store, w.log[p].id, key) && HasKey(w.store, e.id, key);
    }
  }

  lemma ConcludeKeeps(w: World, c: nat, id: Id)
    requires Inv(w) && c < |w.calls|
    requires w.calls[c].request.key.Some? && HasKey(w.store, id, w.calls[c].request.key.value)
    ensures Inv(Conclude(w, c, id))
  {
    var request, row := w.calls[c].request, w.store.rows[id];
    if request.api == V2 && row.body != BodyOf(request) {
      MovedKeeps(w, c, Done(409));
    } else {
      ReturnKeeps(w, c, 200, id, row);
    }
  }

  lemma InsertsKeeps(w: World, c: nat, id: Id, v: World)
    requires Inv(w) && c < |w.calls| && Inserts(w, c, id, v)
    requires w.calls[c].request.api == V2 ==> w.calls[c].request.key.Some?
    ensures Inv(v)
  {
    var request := w.calls[c].request;
    if v == Moved(w, c, Caught) {
      MovedKeeps(w, c, Caught);
    } else {
      var row := RowOf(request);
      var s := w.(store := Inserted(w.store, id, row));
      InsertedKeeps(w, id, request);
      if v == Return(s, c, 201, id, row) {
        assert Unmentioned(w.log, id);
        ReturnKeeps(s, c, 201, id, row);
      } else {
        MovedKeeps(s, c, Caught);
      }
    }
  }

  /** Past the first step a request of the second version has a key. */
  ghost predicate KeysGiven(w: World) {
    forall c: nat | c < |w.calls| && w.calls[c].request.api == V2 && w.calls[c].request.key.None? ::
      w.calls[c].stage.Started? || w.calls[c].stage.Done?
  }

  /** Only call c moves on, and keeps its request. */
  predicate OnlyMoves(w: World, c: nat, v: World) {
    && |v.calls| == |w.calls| && c < |w.calls| && v.calls[c].request == w.calls[c].request
    && forall k | 0 <= k < |w.calls| && k != c :: v.calls[k] == w.calls[k]
  }

  lemma LookMoves(w: World, c: nat, v: World)
    requires c < |w.calls| && (Looks(w, c, v) || Catches(w, c, v))
    ensures OnlyMoves(w, c, v)
  {
  }

  lemma InsertMoves(w: World, c: nat, id: Id, v: World)
    requires c < |w.calls| && Inserts(w, c, id, v)
    ensures OnlyMoves(w, c, v)
  {
  }

  lemma StartMoves(w: World, c: nat, v: World)
    requires c < |w.calls| && Starts(w, c, v)
    ensures OnlyMoves(w, c, v)
    ensures w.calls[c].request.api == V2 && w.calls[c].request.key.None? ==> v.calls[c].stage.Done?
  {
  }

  /** A step changes the stage of its own call, and no request. */
  lemma StepFrame(w: World, c: nat, v: World)
    requires KeysGiven(w) && Step(w, c, v)
    ensures KeysGiven(v) && |v.calls| == |w.calls|
    ensures forall k | 0 <= k < |w.calls| :: v.calls[k].request == w.calls[k].request
  {
    match w.calls[c].stage
    case Started => StartMoves(w, c, v);
    case Purged => LookMoves(w, c, v);
    case Inserting(id) => InsertMoves(w, c, id, v);
    case Caught => LookMoves(w, c, v);
  }

  lemma StepKeeps(w: World, c: nat, v: World)
    requires Inv(w) && KeysGiven(w) && Step(w, c, v)
    ensures Inv(v) && KeysGiven(v) && |v.calls| == |w.calls|
    ensures forall k | 0 <= k < |w.calls| :: v.calls[k].request == w.calls[k].request
  {
    StepFrame(w, c, v);
    match w.calls[c].stage
    case Started =>
      var now := w.calls[c].request.now;
      PurgingKeeps(w, now);
      StageKeeps(w, c, v);
      StageKeeps(Purging(w, now), c, v);
    case Purged => LooksKeeps(w, c, v);
    case Inserting(id) => InsertsKeeps(w, c, id, v);
    case Caught => LooksKeeps(w, c, v);
  }

  lemma StageKeeps(w: World, c: nat, v: World)
    requires Inv(w) && c < |w.calls|
    ensures forall stage | v == Moved(w, c, stage) :: Inv(v)
  {
    forall stage | v == Moved(w, c, stage)
      ensures Inv(v)
    {
      MovedKeeps(w, c, stage);
    }
  }

  lemma LooksKeeps(w: World, c: nat, v: World)
    requires Inv(w) && c < |w.calls| && (Looks(w, c, v) || Catches(w, c, v))
    ensures Inv(v)
  {
    var key := w.calls[c].request.key;
    if stage :| v == Moved(w, c, stage) {
      MovedKeeps(w, c, stage);
    } else {
      var id :| HasKey(w.store, id, key.value) && v == Conclude(w, c, id);
      ConcludeKeeps(w, c, id);
    }
  }

  /** Any interleaving, from a database that keeps its constraints. */
  ghost predicate Initial(w: World) {
    && UniqueKeys(w.store) && CellsMatch(w.store) && BodiesMatch(w.store)
    && w.log == [] && forall c | 0 <= c < |w.calls| :: w.calls[c].stage == Started
  }

  ghost predicate Steps(w: World, v: World) {
    exists c :: Step(w, c, v)
  }

  ghost predicate Run(run: seq<World>) {
    && run != [] && Initial(run[0])
    && forall i | 0 < i < |run| :: Steps(run[i - 1], run[i])
  }

  lemma {:induction false} RunKeeps(run: seq<World>, n: nat)
    requires Run(run) && n < |run|
    ensures Inv(run[n]) && KeysGiven(run[n])
  {
    if n > 0 {
      RunKeeps(run, n - 1);
      StepsKeep(run[n - 1], run[n]);
    }
  }

  lemma StepsKeep(w: World, v: World)
    requires Inv(w) && KeysGiven(w) && Steps(w, v)
    ensures Inv(v) && KeysGiven(v) && |v.calls| == |w.calls|
    ensures forall k | 0 <= k < |w.calls| :: v.calls[k].request == w.calls[k].request
  {
    var c :| Step(w, c, v);
    StepKeeps(w, c, v);
  }

  /** Requests stay what they are. */
  lemma {:induction false} SameRequests(run: seq<World>, n: nat)
    requires Run(run) && n < |run|
    ensures |run[n].calls| == |run[0].calls|
    ensures forall c | 0 <= c < |run[0].calls| :: run[n].calls[c].request == run[0].calls[c].request
  {
    if n > 0 {
      SameRequests(run, n - 1);
      RunKeeps(run, n - 1);
      StepsKeep(run[n - 1], run[n]);
    }
  }

  /** In every interleaving: one segment to a key, and exactly its cells. */
  lemma StoreStaysConsistent(run: seq<World>, n: nat)
    requires Run(run) && n < |run|
    ensures UniqueKeys(run[n].store) && CellsMatch(run[n].store)
  {
    RunKeeps(run, n);
  }

  /** In every interleaving each request that succeeds is given what it asked
      for: in the second version, the very publication that it sent. */
  lemma SuccessAnswersRequest(run: seq<World>, n: nat, p: nat)
    requires Run(run) && n < |run| && p < |run[n].log| && run[n].log[p].Returned?
    ensures var e := run[n].log[p];
            && e.call < |run[n].calls|
            && Answers(e, run[n].calls[e.call].request)
  {
    RunKeeps(run, n);
  }

  lemma {:induction false} FirstRemoval(log: seq<Entry>, p: nat, q: nat, id: Id) returns (r: nat)
    requires RemovedBetween(log, p, q, id)
    ensures p < r < q && Removes(log[r], id) && !RemovedBetween(log, p, r, id)
    decreases q
  {
    r :| p < r < q && Removes(log[r], id);
    if RemovedBetween(log, p, r, id) {
      r := FirstRemoval(log, p, r, id);
    }
  }

  /** In every interleaving, two requests with one key that both succeed are
      given the same segment unless some request between them purged the store
      at or after its last minute, whichever version they use and whether or not
      a write that was reported as failed took effect; at most one of them is
      told that it created the segment. */
  lemma RetriesAgree(run: seq<World>, n: nat, p: nat, q: nat)
    requires Run(run) && n < |run| && p < q < |run[n].log|
    requires run[n].log[p].Returned? && run[n].log[q].Returned?
    requires run[n].log[p].row.key.Some? && run[n].log[p].row.key == run[n].log[q].row.key
    requires var row := run[n].log[p].row;
             || row.isSeed || row.expiresAt.None?
             || forall r: nat | p < r < q && run[n].log[r].Removed? :: run[n].log[r].now < row.expiresAt.value
    ensures run[n].log[p].id == run[n].log[q].id && run[n].log[p].row == run[n].log[q].row
    ensures run[n].log[q].status == 200
  {
    RunKeeps(run, n);
    var log, id := run[n].log, run[n].log[p].id;
    if RemovedBetween(log, p, q, id) {
      var r := FirstRemoval(log, p, q, id);
      assert false;
    }
  }

  /** A segment that is no seed is kept for a day. */
  predicate DayLong(row: Row) {
    !row.isSeed ==> row.expiresAt == Some(row.createdAt + 1440)
  }

  ghost predicate AllDayLong(store: Store) {
    forall id | id in store.rows :: DayLong(store.rows[id])
  }

  /** What a step may do to the stored segments: purge some, by the clock of its
      request, or add one that is kept for a day. */
  ghost predicate RowsStep(w: World, v: World) {
    && (forall id | id in w.store.rows ::
          || (id in v.store.rows && v.store.rows[id] == w.store.rows[id])
          || (|v.log| == |w.log| + 1 && v.log[|w.log|].Removed? && PastEnd(w.store.rows[id], v.log[|w.log|].now)))
    && (forall id | id in v.store.rows && id !in w.store.rows :: DayLong(v.store.rows[id]) && !v.store.rows[id].isSeed)
    && (forall id | id in v.store.rows && id in w.store.rows :: v.store.rows[id] == w.store.rows[id])
    && w.log <= v.log
  }

  predicate PastEnd(row: Row, now: nat) {
    !row.isSeed && row.expiresAt.Some? && row.expiresAt.value <= now
  }

  lemma StepRows(w: World, c: nat, v: World)
    requires Step(w, c, v)
    ensures RowsStep(w, v)
  {
    match w.calls[c].stage
    case Started => StartRows(w, c, v);
    case Inserting(id) =>
    case Done(_) =>
    case _ =>
  }

  lemma StartRows(w: World, c: nat, v: World)
    requires c < |w.calls| && Starts(w, c, v)
    ensures RowsStep(w, v)
  {
  }

  /** The log only grows. */
  lemma {:induction false} LogGrows(run: seq<World>, m: nat, n: nat)
    requires Run(run) && m <= n < |run|
    ensures run[m].log <= run[n].log
    decreases n
  {
    if m < n {
      LogGrows(run, m, n - 1);
      StepLog(run[n - 1], run[n]);
      LogChain(run[m].log, run[n - 1].log, run[n].log);
    }
  }

  lemma StepLog(w: World, v: World)
    requires Steps(w, v)
    ensures w.log <= v.log
  {
    StepsRows(w, v);
  }

  lemma LogChain(a: seq<Entry>, b: seq<Entry>, c: seq<Entry>)
    requires a <= b <= c
    ensures a <= c
  {
  }

  lemma StepsRows(w: World, v: World)
    requires Steps(w, v)
    ensures RowsStep(w, v)
  {
    var c :| Step(w, c, v);
    StepRows(w, c, v);
  }

  /** No purge from this entry on comes at or behind the last minute of a segment. */
  predicate PurgedBefore(log: seq<Entry>, start: nat, row: Row) {
    || row.isSeed || row.expiresAt.None?
    || forall r: nat | start <= r < |log| && log[r].Removed? :: log[r].now < row.expiresAt.value
  }

  lemma RowStays(w: World, v: World, id: Id, start: nat)
    requires Steps(w, v) && id in w.store.rows && start <= |w.log| && PurgedBefore(v.log, start, w.store.rows[id])
    ensures id in v.store.rows && v.store.rows[id] == w.store.rows[id]
  {
    StepsRows(w, v);
  }

  lemma EarlierPurges(log: seq<Entry>, longer: seq<Entry>, start: nat, row: Row)
    requires log <= longer && PurgedBefore(longer, start, row)
    ensures PurgedBefore(log, start, row)
  {
  }

  /** In every interleaving a stored segment stays as it is until some request
      purges the store at or after its last minute; a seed stays for ever. */
  lemma StoredUntilItsEnd(run: seq<World>, m: nat, n: nat, id: Id)
    requires Run(run) && m <= n < |run| && id in run[m].store.rows
    requires PurgedBefore(run[n].log, |run[m].log|, run[m].store.rows[id])
    ensures id in run[n].store.rows && run[n].store.rows[id] == run[m].store.rows[id]
  {
    StoredFrom(run, m, n, id, run[m].store.rows[id], |run[m].log|);
  }

  predicate Stored(w: World, id: Id, row: Row) {
    id in w.store.rows && w.store.rows[id] == row
  }

  lemma StepOf(run: seq<World>, n: nat)
    requires Run(run) && 0 < n < |run|
    ensures Steps(run[n - 1], run[n])
  {
  }

  lemma OneStepStored(w: World, v: World, id: Id, row: Row, start: nat)
    requires Steps(w, v) && Stored(w, id, row) && start <= |w.log| && PurgedBefore(v.log, start, row)
    ensures Stored(v, id, row)
  {
    RowStays(w, v, id, start);
  }

  lemma {:induction false} StoredFrom(run: seq<World>, m: nat, n: nat, id: Id, row: Row, start: nat)
    requires Run(run) && m <= n < |run| && Stored(run[m], id, row) && start <= |run[m].log|
    requires PurgedBefore(run[n].log, start, row)
    ensures Stored(run[n], id, row)
    decreases n
  {
    if m < n {
      var w, v := run[n - 1], run[n];
      StepOf(run, n);
      StepLog(w, v);
      EarlierPurges(w.log, v.log, start, row);
      StoredFrom(run, m, n - 1, id, row, start);
      LogGrows(run, m, n - 1);
      OneStepStored(w, v, id, row, start);
    }
  }

  /** When a purge is logged, no segment that is no seed is left at or behind its
      last minute, and no other segment is gone. */
  lemma PurgeIsExact(run: seq<World>, n: nat)
    requires Run(run) && 0 < n < |run|
    requires |run[n].log| > |run[n - 1].log| && run[n].log[|run[n - 1].log|].Removed?
    ensures var before, e := run[n - 1].store.rows, run[n].log[|run[n - 1].log|];
            && (forall id ::
                  id in run[n].store.rows
                  <==> id in before && (before[id].isSeed || before[id].expiresAt.None?
                                        || e.now < before[id].expiresAt.value))
            && (forall id :: id in e.ids <==> id in before && id !in run[n].store.rows)
  {
    var w, v := run[n - 1], run[n];
    assert Steps(w, v);
    var c :| Step(w, c, v);
    PurgeStep(w, c, v);
  }

  lemma PurgeStep(w: World, c: nat, v: World)
    requires Step(w, c, v) && |v.log| > |w.log| && v.log[|w.log|].Removed?
    ensures v.store == Purge(w.store, v.log[|w.log|].now)
    ensures v.log[|w.log|].ids == ExpiredIds(w.store, v.log[|w.log|].now)
  {
  }

  /** If every segment that was there at first is kept for a day, all are. */
  lemma {:induction false} AllAreDayLong(run: seq<World>, n: nat)
    requires Run(run) && n < |run| && AllDayLong(run[0].store)
    ensures AllDayLong(run[n].store)
  {
    if n > 0 {
      AllAreDayLong(run, n - 1);
      StepsRows(run[n - 1], run[n]);
    }
  }

  /** What is returned was stored. */
  lemma {:induction false} AnswersAreDayLong(run: seq<World>, n: nat, p: nat)
    requires Run(run) && n < |run| && AllDayLong(run[0].store) && p < |run[n].log| && run[n].log[p].Returned?
    ensures DayLong(run[n].log[p].row)
  {
    if n > 0 {
      AllAreDayLong(run, n - 1);
      var w, v := run[n - 1], run[n];
      assert Steps(w, v);
      var c :| Step(w, c, v);
      if p < |w.log| {
        StepRows(w, c, v);
        AnswersAreDayLong(run, n - 1, p);
      } else {
        LastReturned(w, c, v);
      }
    }
  }

  lemma LastReturned(w: World, c: nat, v: World)
    requires Step(w, c, v) && AllDayLong(w.store)
    ensures |v.log| <= |w.log| + 1
    ensures |v.log| > |w.log| && v.log[|w.log|].Returned? ==> DayLong(v.log[|w.log|].row)
  {
  }

  /** So all successes for a key name one segment as long as no purge between
      them is a day or more behind its creation. */
  lemma RetriesAgreeForADay(run: seq<World>, n: nat, p: nat, q: nat)
    requires Run(run) && n < |run| && p < q < |run[n].log| && AllDayLong(run[0].store)
    requires run[n].log[p].Returned? && run[n].log[q].Returned?
    requires run[n].log[p].row.key.Some? && run[n].log[p].row.key == run[n].log[q].row.key
    requires forall r: nat | p < r < q && run[n].log[r].Removed? ::
               run[n].log[r].now < run[n].log[p].row.createdAt + 1440
    ensures run[n].log[p].id == run[n].log[q].id && run[n].log[q].status == 200
  {
    AnswersAreDayLong(run, n, p);
    RetriesAgree(run, n, p, q);
  }

  /** Every request under this key is a second-version one for this publication. */
  ghost predicate OneBody(calls: seq<Call>, key: Digest<string>, publication: Publication) {
    forall c | 0 <= c < |calls| && calls[c].request.key == Some(key) ::
      calls[c].request.api == V2 && calls[c].request.publication == publication
  }

  ghost predicate NoConflict(w: World, key: Digest<string>, publication: Publication) {
    && OneBody(w.calls, key, publication)
    && (forall id | HasKey(w.store, id, key) :: w.store.rows[id].body == Some(Sha256(publication)))
    && (forall c | 0 <= c < |w.calls| && w.calls[c].request.key == Some(key) :: w.calls[c].stage != Done(409))
  }

  lemma ConcludeAvoidsConflict(w: World, c: nat, id: Id, key: Digest<string>, publication: Publication)
    requires NoConflict(w, key, publication) && c < |w.calls| && id in w.store.rows
    requires w.calls[c].request.key == w.store.rows[id].key
    ensures NoConflict(Conclude(w, c, id), key, publication)
  {
    if w.calls[c].request.key == Some(key) {
      assert HasKey(w.store, id, key);
    }
  }

  lemma InsertAvoidsConflict(w: World, c: nat, id: Id, key: Digest<string>, publication: Publication)
    requires NoConflict(w, key, publication) && c < |w.calls|
    ensures NoConflict(w.(store := Inserted(w.store, id, RowOf(w.calls[c].request))), key, publication)
  {
    var v := w.(store := Inserted(w.store, id, RowOf(w.calls[c].request)));
    forall i | HasKey(v.store, i, key)
      ensures v.store.rows[i].body == Some(Sha256(publication))
    {
      assert i != id ==> HasKey(w.store, i, key);
    }
  }

  lemma StepAvoidsConflict(w: World, c: nat, v: World, key: Digest<string>, publication: Publication)
    requires NoConflict(w, key, publication) && Step(w, c, v)
    ensures NoConflict(v, key, publication)
  {
    match w.calls[c].stage
    case Started =>
      PurgeAvoidsConflict(w, w.calls[c].request.now, key, publication);
    case Inserting(id) =>
      InsertAvoidsConflict(w, c, id, key, publication);
    case Done(_) =>
    case _ => LookAvoidsConflict(w, c, v, key, publication);
  }

  lemma LookAvoidsConflict(w: World, c: nat, v: World, key: Digest<string>, publication: Publication)
    requires NoConflict(w, key, publication) && c < |w.calls| && (Looks(w, c, v) || Catches(w, c, v))
    ensures NoConflict(v, key, publication)
  {
    if id :| id in w.store.rows && w.store.rows[id].key == w.calls[c].request.key && v == Conclude(w, c, id) {
      ConcludeAvoidsConflict(w, c, id, key, publication);
    } else {
      NotConcluded(w, c, v);
    }
  }

  lemma NotConcluded(w: World, c: nat, v: World)
    requires c < |w.calls| && (Looks(w, c, v) || Catches(w, c, v))
    requires forall id | id in w.store.rows && w.store.rows[id].key == w.calls[c].request.key :: v != Conclude(w, c, id)
    ensures exists stage :: stage != Done(409) && v == Moved(w, c, stage)
  {
    forall id | w.calls[c].request.key.Some? && HasKey(w.store, id, w.calls[c].request.key.value)
      ensures v != Conclude(w, c, id)
    {
    }
  }

  lemma PurgeAvoidsConflict(w: World, now: nat, key: Digest<string>, publication: Publication)
    requires NoConflict(w, key, publication)
    ensures NoConflict(Purging(w, now), key, publication)
  {
    var v := Purging(w, now);
    forall id | HasKey(v.store, id, key)
      ensures v.store.rows[id].body == Some(Sha256(publication))
    {
      assert HasKey(w.store, id, key);
    }
  }

  /** In every interleaving, requests that repeat one publication under a key
      that was unused before are never told of a conflict. */
  lemma {:induction false} RetriesNeverConflict(run: seq<World>, n: nat, key: Digest<string>, publication: Publication)
    requires Run(run) && n < |run|
    requires !KeyTaken(run[0].store, Some(key)) && OneBody(run[0].calls, key, publication)
    ensures NoConflict(run[n], key, publication)
  {
    if n > 0 {
      RetriesNeverConflict(run, n - 1, key, publication);
      assert Steps(run[n - 1], run[n]);
      var c :| Step(run[n - 1], c, run[n]);
      StepAvoidsConflict(run[n - 1], c, run[n], key, publication);
    }
  }

  /** A run that starts with a request and a database, and ends in w. */
  ghost predicate Trace(run: seq<World>, store: Store, request: Request, w: World) {
    && run != [] && run[0] == World(store, [Call(request, Started)], []) && run[|run| - 1] == w
    && |w.calls| == 1 && w.calls[0].request == request
    && forall i | 0 < i < |run| :: Steps(run[i - 1], run[i])
  }

  lemma Extend(run: seq<World>, store: Store, request: Request, w: World, v: World)
    requires Trace(run, store, request, w) && Step(w, 0, v)
    requires |v.calls| == 1 && v.calls[0].request == request
    ensures Trace(run + [v], store, request, v)
  {
    assert Steps(w, v);
    var longer := run + [v];
    forall i | 0 < i < |longer|
      ensures Steps(longer[i - 1], longer[i])
    {
      if i < |run| {
        assert longer[i] == run[i] && longer[i - 1] == run[i - 1];
      }
    }
  }

  /** The answer for a segment found under the key. */
  method Respond(db: Database, request: Request, id: Id, ghost w: World) returns (status: nat, ghost v: World)
    requires w.store == db.Contents() && |w.calls| == 1 && w.calls[0].request == request && id in db.rows
    ensures v == Conclude(w, 0, id) && v.store == w.store && v.calls == [Call(request, Done(status))]
    ensures status == if request.api == V2 && db.rows[id].body != BodyOf(request) then 409 else 200
  {
    v := Conclude(w, 0, id);
    if request.api == V2 && db.rows[id].body != BodyOf(request) {
      return 409, v;
    }
    return 200, v;
  }

  /** What one request with the database to itself comes to: refused without a
      needed key; told of a live segment under its key, or of a conflict with it;
      refused for too many cells; or stored, unless the id is in use. */
  ghost predicate Settles(before: Store, request: Request, newId: Id, lost: bool, status: nat, after: Store) {
    var body := if request.api == V2 then Some(Sha256(request.publication)) else None;
    var row := Row(request.key, body, request.publication, request.now, Some(request.now + 1440), false);
    var live := Purge(before, request.now);
    if request.api == V2 && request.key.None? then status == 400 && after == before
    else if KeyTaken(live, request.key) then
      after == live && exists id | HasKey(live, id, request.key.value) ::
        status == if request.api == V2 && live.rows[id].body != body then 409 else 200
    else if |request.publication.tiles| > 64 then status == 413 && after == live
    else if !Insertable(live, newId, row) then status == 500 && after == live
    else
      && status == (if !lost then 201 else if request.key.Some? then 200 else 500)
      && after.rows == live.rows[newId := row]
      && forall c: Cell ::
           c in after.cells <==> c in live.cells || (c.segment == newId && c.tile in row.publication.tiles)
  }

  /** One request with the database to itself, `lost` if the write is reported
      as failed: its calls are a run of the state machine. */
  method PublishSegment(db: Database, request: Request, newId: Id, lost: bool)
      returns (status: nat, ghost run: seq<World>)
    modifies db
    ensures exists w :: Trace(run, old(db.Contents()), request, w) && w.store == db.Contents()
                        && w.calls == [Call(request, Done(status))]
    ensures Settles(old(db.Contents()), request, newId, lost, status, db.Contents())
  {
    ghost var store := db.Contents();
    ghost var w := World(store, [Call(request, Started)], []);
    run := [w];
    if request.api == V2 && request.key.None? {
      Extend(run, store, request, w, Moved(w, 0, Done(400)));
      return 400, run + [Moved(w, 0, Done(400))];
    }
    db.PurgeBatch(request.now);
    ghost var v := Moved(Purging(w, request.now), 0, Purged);
    Extend(run, store, request, w, v);
    w, run := v, run + [v];
    if request.key.Some? {
      var existing := db.SelectByKey(request.key.value);
      if existing.Some? {
        status, v := Respond(db, request, existing.value, w);
        Extend(run, store, request, w, v);
        return status, run + [v];
      }
    }
    if |request.publication.tiles| > CELLS_PER_SEGMENT {
      Extend(run, store, request, w, Moved(w, 0, Done(413)));
      return 413, run + [Moved(w, 0, Done(413))];
    }
    v := Moved(w, 0, Inserting(newId));
    Extend(run, store, request, w, v);
    w, run := v, run + [v];
    var row := RowOf(request);
    ghost var live := db.Contents();
    var ok := db.InsertBatch(newId, row);
    v := if ok then w.(store := Inserted(w.store, newId, row)) else w;
    if ok && !lost {
      v := Return(v, 0, 201, newId, row);
      Extend(run, store, request, w, v);
      return 201, run + [v];
    }
    v := Moved(v, 0, Caught);
    Extend(run, store, request, w, v);
    w, run := v, run + [v];
    if request.key.Some? {
      assert ok ==> HasKey(db.Contents(), newId, request.key.value);
      var raced := db.SelectByKey(request.key.value);
      if raced.Some? {
        assert raced.value != newId ==> HasKey(live, raced.value, request.key.value);
        status, v := Respond(db, request, raced.value, w);
        Extend(run, store, request, w, v);
        return status, run + [v];
      }
    }
    Extend(run, store, request, w, Moved(w, 0, Done(500)));
    return 500, run + [Moved(w, 0, Done(500))];
  }
}
