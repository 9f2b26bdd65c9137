/** The column-wise varint directory of a PMTiles archive (PMTiles Version 3
    Specification, section 4.2): reading it, and the printer it undoes. */
module Directory {
  import opened Common

  type byte = b: nat | b < 256

  const WORD64 := 0x1_0000_0000_0000_0000

  datatype DirectoryEntry = DirectoryEntry(id: nat, offset: nat, length: nat, run: nat)

  /** A number read from a position, and the position behind it. */
  datatype Read = Bad | Got(value: nat, next: nat)

  /** A column read from a position. */
  datatype Column = BadColumn | Column(values: seq<nat>, next: nat)

  /** What a varint may still hold from byte `round` on: ten bytes of seven
      bits, of which the last may use one. */
  function Capacity(round: nat): nat
    requires round <= 9
    decreases 9 - round
  {
    if round == 9 then 2 else 128 * Capacity(round + 1)
  }

  /** The varint at an offset, its earlier `round` bytes already read. */
  function Varint(bytes: seq<byte>, offset: nat, round: nat): (r: Read)
    requires round <= 10
    ensures r.Got? ==> offset < r.next <= |bytes| && round < 10 && r.value < Capacity(round)
    decreases 10 - round
  {
    if round == 10 || offset >= |bytes| then Bad
    else
      var b := bytes[offset];
      if round == 9 && b % 128 / 2 != 0 then Bad
      else if b < 128 then Fits(b, round); Got(b, offset + 1)
      else
        match Varint(bytes, offset + 1, round + 1)
        case Bad => Bad
        case Got(high, next) => Got(b - 128 + 128 * high, next)
  }

  lemma {:induction false} Fits(b: nat, round: nat)
    requires round <= 9 && b < 128 && (round == 9 ==> b < 2)
    ensures b < Capacity(round)
    decreases 9 - round
  {
    if round < 9 {
      CapacityPositive(round + 1);
    }
  }

  lemma {:induction false} CapacityPositive(round: nat)
    requires round <= 9
    ensures Capacity(round) >= 1
    decreases 9 - round
  {
    if round < 9 {
      CapacityPositive(round + 1);
    }
  }

  lemma {:induction false} CapacityIsWord()
    ensures Capacity(0) == WORD64
  {
    assert Capacity(9) == 2 && Capacity(8) == 256 && Capacity(7) == 32768 && Capacity(6) == 4194304;
    assert Capacity(5) == 536870912 && Capacity(4) == 68719476736 && Capacity(3) == 8796093022208;
  }

  /** A power of 128. */
  function Shift(round: nat): (r: nat)
    ensures r >= 1
  {
    if round == 0 then 1 else 128 * Shift(round - 1)
  }

  /** The loop of the reader: shifts each group of seven bits into place. */
  method ReadVarint(bytes: seq<byte>, offset: nat) returns (r: Read)
    ensures r == Varint(bytes, offset, 0)
  {
    var result: nat, at: nat, shift: nat := 0, offset, 1;
    for round := 0 to 10
      invariant at == offset + round && shift == Shift(round)
      invariant Varint(bytes, offset, 0) == Shifted(result, shift, Varint(bytes, at, round))
    {
      ReadStep(bytes, at, round, result, shift);
      if at >= |bytes| {
        return Bad;
      }
      var b: nat := bytes[at];
      at := at + 1;
      if round == 9 && b % 128 / 2 != 0 {
        return Bad;
      }
      result := Place(result, b % 128, shift);
      if b < 128 {
        return Got(result, at);
      }
      shift := shift * 128;
    }
    return Bad;
  }

  /** A group of bits put into place above the bits already read. */
  function Place(result: nat, group: nat, shift: nat): nat {
    result + group * shift
  }

  function Shifted(low: nat, shift: nat, rest: Read): Read {
    match rest
    case Bad => Bad
    case Got(value, next) => Got(Place(low, value, shift), next)
  }

  lemma ReadStep(bytes: seq<byte>, at: nat, round: nat, result: nat, shift: nat)
    requires round < 10
    ensures at >= |bytes| ==> Varint(bytes, at, round) == Bad
    ensures at < |bytes| && round == 9 && bytes[at] % 128 / 2 != 0 ==> Varint(bytes, at, round) == Bad
    ensures at < |bytes| && !(round == 9 && bytes[at] % 128 / 2 != 0) ==>
              Shifted(result, shift, Varint(bytes, at, round)) ==
              if bytes[at] < 128 then Got(Place(result, bytes[at] % 128, shift), at + 1)
              else Shifted(Place(result, bytes[at] % 128, shift), shift * 128, Varint(bytes, at + 1, round + 1))
  {
    if at < |bytes| {
      LowDigit(bytes[at]);
      if bytes[at] >= 128 && !(round == 9 && bytes[at] % 128 / 2 != 0) {
        assert Varint(bytes, at, round) == WithDigit(bytes[at] % 128, Varint(bytes, at + 1, round + 1));
        ShiftedDigit(result, shift, bytes[at] % 128, Varint(bytes, at + 1, round + 1));
      }
    }
  }

  lemma LowDigit(b: byte)
    ensures b % 128 == if b < 128 then b else b - 128
  {
  }

  function WithDigit(digit: nat, rest: Read): Read {
    match rest
    case Bad => Bad
    case Got(high, next) => Got(digit + 128 * high, next)
  }

  lemma ShiftedDigit(low: nat, shift: nat, digit: nat, rest: Read)
    ensures Shifted(low, shift, WithDigit(digit, rest)) == Shifted(Place(low, digit, shift), shift * 128, rest)
  {
    if rest.Got? {
      Regroup(low, digit, rest.value, shift);
    }
  }

  lemma Regroup(low: nat, digit: nat, high: nat, shift: nat)
    ensures Place(low, digit + 128 * high, shift) == Place(Place(low, digit, shift), high, shift * 128)
  {
    assert (digit + 128 * high) * shift == digit * shift + high * (shift * 128);
  }

  /** The bytes P stand at an offset. */
  predicate At(bytes: seq<byte>, offset: nat, p: seq<byte>) {
    offset + |p| <= |bytes| && forall i {:trigger p[i]} | 0 <= i < |p| :: bytes[offset + i] == p[i]
  }

  lemma AtSplit(bytes: seq<byte>, offset: nat, p: seq<byte>, q: seq<byte>)
    requires At(bytes, offset, p + q)
    ensures At(bytes, offset, p) && At(bytes, offset + |p|, q)
  {
    forall i | 0 <= i < |p|
      ensures bytes[offset + i] == p[i]
    {
      assert (p + q)[i] == p[i];
    }
    forall i | 0 <= i < |q|
      ensures bytes[offset + |p| + i] == q[i]
    {
      assert (p + q)[|p| + i] == q[i];
    }
  }

  /** The printer of one varint. */
  function WriteVarint(value: nat): (r: seq<byte>)
    ensures |r| >= 1
  {
    if value < 128 then [value] else [value % 128 + 128] + WriteVarint(value / 128)
  }

  lemma {:induction false} VarintReadsBack(bytes: seq<byte>, offset: nat, value: nat, round: nat)
    requires round <= 9 && value < Capacity(round) && At(bytes, offset, WriteVarint(value))
    ensures Varint(bytes, offset, round) == Got(value, offset + |WriteVarint(value)|)
    decreases value
  {
    if value >= 128 {
      AtSplit(bytes, offset, [value % 128 + 128], WriteVarint(value / 128));
      assert WriteVarint(value)[0] == bytes[offset] == value % 128 + 128;
      VarintReadsBack(bytes, offset + 1, value / 128, round + 1);
      assert value == value % 128 + 128 * (value / 128);
    } else {
      assert WriteVarint(value)[0] == bytes[offset];
    }
  }

  /** A 64-bit number written at an offset reads back. */
  lemma WordReadsBack(bytes: seq<byte>, offset: nat, value: nat)
    requires value < WORD64 && At(bytes, offset, WriteVarint(value))
    ensures Varint(bytes, offset, 0) == Got(value, offset + |WriteVarint(value)|)
  {
    CapacityIsWord();
    VarintReadsBack(bytes, offset, value, 0);
  }

  function Last(values: seq<nat>): nat {
    if values == [] then 0 else values[|values| - 1]
  }

  /** The id column: n deltas, summed up within 64 bits. */
  function ReadIds(bytes: seq<byte>, offset: nat, n: nat, done: seq<nat>): (r: Column)
    decreases n - |done|
  {
    if |done| >= n then Column(done, offset)
    else
      match Varint(bytes, offset, 0)
      case Bad => BadColumn
      case Got(delta, next) =>
        if Last(done) + delta >= WORD64 then BadColumn else ReadIds(bytes, next, n, done + [Last(done) + delta])
  }

  /** The run and length columns: n numbers of 32 bits. */
  function ReadSmalls(bytes: seq<byte>, offset: nat, n: nat, done: seq<nat>): (r: Column)
    decreases n - |done|
  {
    if |done| >= n then Column(done, offset)
    else
      match Varint(bytes, offset, 0)
      case Bad => BadColumn
      case Got(value, next) => if value > U32_MAX then BadColumn else ReadSmalls(bytes, next, n, done + [value])
  }

  /** One stored offset: zero continues behind the entry before, anything else
      is one more than the offset. */
  function NextOffset(lengths: seq<nat>, done: seq<nat>, stored: nat): Option<nat>
    requires |done| < |lengths|
  {
    if stored == 0 && |done| > 0 then
      var continued := Last(done) + lengths[|done| - 1];
      if continued >= WORD64 then None else Some(continued)
    else if stored == 0 then None
    else Some(stored - 1)
  }

  function ReadOffsets(bytes: seq<byte>, offset: nat, lengths: seq<nat>, done: seq<nat>): (r: Column)
    decreases |lengths| - |done|
  {
    if |done| >= |lengths| then Column(done, offset)
    else
      match Varint(bytes, offset, 0)
      case Bad => BadColumn
      case Got(stored, next) =>
        var value := NextOffset(lengths, done, stored);
        if value.None? then BadColumn else ReadOffsets(bytes, next, lengths, done + [value.value])
  }

  function Zip(ids: seq<nat>, runs: seq<nat>, lengths: seq<nat>, offsets: seq<nat>): (r: seq<DirectoryEntry>)
    requires |ids| == |runs| == |lengths| == |offsets|
  {
    seq(|ids|, i requires 0 <= i < |ids| => DirectoryEntry(ids[i], offsets[i], lengths[i], runs[i]))
  }

  lemma {:induction false} IdsRead(bytes: seq<byte>, offset: nat, n: nat, done: seq<nat>)
    requires |done| <= n && Ascends(done) && forall i | 0 <= i < |done| :: done[i] < WORD64
    ensures var r := ReadIds(bytes, offset, n, done);
            r.Column? ==> |r.values| == n && Ascends(r.values) && forall i | 0 <= i < n :: r.values[i] < WORD64
    decreases n - |done|
  {
    if |done| < n {
      match Varint(bytes, offset, 0)
      case Bad =>
      case Got(delta, next) =>
        if Last(done) + delta < WORD64 {
          IdsRead(bytes, next, n, done + [Last(done) + delta]);
        }
    }
  }

  predicate Ascends(values: seq<nat>) {
    forall i, j | 0 <= i < j < |values| :: values[i] <= values[j]
  }

  lemma {:induction false} SmallsRead(bytes: seq<byte>, offset: nat, n: nat, done: seq<nat>)
    requires |done| <= n && forall i | 0 <= i < |done| :: done[i] <= U32_MAX
    ensures var r := ReadSmalls(bytes, offset, n, done);
            r.Column? ==> |r.values| == n && forall i | 0 <= i < n :: r.values[i] <= U32_MAX
    decreases n - |done|
  {
    if |done| < n {
      match Varint(bytes, offset, 0)
      case Bad =>
      case Got(value, next) =>
        if value <= U32_MAX {
          SmallsRead(bytes, next, n, done + [value]);
        }
    }
  }

  lemma {:induction false} OffsetsRead(bytes: seq<byte>, offset: nat, lengths: seq<nat>, done: seq<nat>)
    requires |done| <= |lengths|
    ensures var r := ReadOffsets(bytes, offset, lengths, done);
            r.Column? ==> |r.values| == |lengths|
    decreases |lengths| - |done|
  {
    if |done| < |lengths| {
      match Varint(bytes, offset, 0)
      case Bad =>
      case Got(stored, next) =>
        var value := NextOffset(lengths, done, stored);
        if value.Some? {
          OffsetsRead(bytes, next, lengths, done + [value.value]);
        }
    }
  }

  /** The directory in a byte string: count, ids, runs, lengths, offsets. A
      count that four bytes an entry could not hold is refused at once. */
  function Parse(bytes: seq<byte>): (r: Option<seq<DirectoryEntry>>)
    ensures r.Some? ==> EntriesSorted(r.value)
  {
    match Varint(bytes, 0, 0)
    case Bad => None
    case Got(n, next) => if n > (|bytes| - next) / 4 then None else ParseIds(bytes, next, n)
  }

  function ParseIds(bytes: seq<byte>, offset: nat, n: nat): (r: Option<seq<DirectoryEntry>>)
    ensures r.Some? ==> EntriesSorted(r.value)
  {
    IdsRead(bytes, offset, n, []);
    match ReadIds(bytes, offset, n, [])
    case BadColumn => None
    case Column(ids, next) => ParseRuns(bytes, next, ids)
  }

  function ParseRuns(bytes: seq<byte>, offset: nat, ids: seq<nat>): (r: Option<seq<DirectoryEntry>>)
    requires Ascends(ids)
    ensures r.Some? ==> EntriesSorted(r.value)
  {
    SmallsRead(bytes, offset, |ids|, []);
    match ReadSmalls(bytes, offset, |ids|, [])
    case BadColumn => None
    case Column(runs, next) => ParseLengths(bytes, next, ids, runs)
  }

  function ParseLengths(bytes: seq<byte>, offset: nat, ids: seq<nat>, runs: seq<nat>): (r: Option<seq<DirectoryEntry>>)
    requires Ascends(ids) && |runs| == |ids|
    ensures r.Some? ==> EntriesSorted(r.value)
  {
    SmallsRead(bytes, offset, |ids|, []);
    match ReadSmalls(bytes, offset, |ids|, [])
    case BadColumn => None
    case Column(lengths, next) => ParseOffsets(bytes, next, ids, runs, lengths)
  }

  function ParseOffsets(bytes: seq<byte>, offset: nat, ids: seq<nat>, runs: seq<nat>, lengths: seq<nat>):
      (r: Option<seq<DirectoryEntry>>)
    requires Ascends(ids) && |ids| == |runs| == |lengths|
    ensures r.Some? ==> EntriesSorted(r.value)
  {
    OffsetsRead(bytes, offset, lengths, []);
    match ReadOffsets(bytes, offset, lengths, [])
    case BadColumn => None
    case Column(offsets, _) => Some(Zip(ids, runs, lengths, offsets))
  }

  /** Ascending ids, as the binary search of a lookup needs them. */
  predicate EntriesSorted(entries: seq<DirectoryEntry>) {
    forall i, j | 0 <= i < j < |entries| :: entries[i].id <= entries[j].id
  }

  // The printer.

  predicate Printable(entries: seq<DirectoryEntry>, short: seq<bool>) {
    && EntriesSorted(entries) && |short| == |entries| < WORD64
    && (forall e | e in entries :: e.id < WORD64 && e.run <= U32_MAX && e.length <= U32_MAX && e.offset + 1 < WORD64)
    && forall k | 0 <= k < |short| && short[k] ::
         k > 0 && entries[k].offset == entries[k - 1].offset + entries[k - 1].length
  }

  function Ids(entries: seq<DirectoryEntry>): seq<nat> {
    seq(|entries|, i requires 0 <= i < |entries| => entries[i].id)
  }

  function Runs(entries: seq<DirectoryEntry>): seq<nat> {
    seq(|entries|, i requires 0 <= i < |entries| => entries[i].run)
  }

  function Lengths(entries: seq<DirectoryEntry>): seq<nat> {
    seq(|entries|, i requires 0 <= i < |entries| => entries[i].length)
  }

  function Offsets(entries: seq<DirectoryEntry>): seq<nat> {
    seq(|entries|, i requires 0 <= i < |entries| => entries[i].offset)
  }

  /** The id column holds differences. */
  function Deltas(ids: seq<nat>): seq<nat>
    requires Ascends(ids)
  {
    seq(|ids|, i requires 0 <= i < |ids| => if i == 0 then ids[0] else ids[i] - ids[i - 1])
  }

  /** The offset column holds zeros and incremented offsets. */
  function Stored(offsets: seq<nat>, short: seq<bool>): seq<nat>
    requires |offsets| == |short|
  {
    seq(|offsets|, i requires 0 <= i < |offsets| => if short[i] then 0 else offsets[i] + 1)
  }

  /** The numbers of a column from the k-th on. */
  function PrintColumn(values: seq<nat>, k: nat): (r: seq<byte>)
    requires k <= |values|
    ensures |r| >= |values| - k
    decreases |values| - k
  {
    if k == |values| then [] else WriteVarint(values[k]) + PrintColumn(values, k + 1)
  }

  /** A directory in bytes, from a column on to the end. */
  function PrintLengths(lengths: seq<nat>, stored: seq<nat>): seq<byte> {
    PrintColumn(lengths, 0) + PrintColumn(stored, 0)
  }

  function PrintRuns(runs: seq<nat>, lengths: seq<nat>, stored: seq<nat>): seq<byte> {
    PrintColumn(runs, 0) + PrintLengths(lengths, stored)
  }

  function PrintIds(deltas: seq<nat>, runs: seq<nat>, lengths: seq<nat>, stored: seq<nat>): seq<byte> {
    PrintColumn(deltas, 0) + PrintRuns(runs, lengths, stored)
  }

  /** A directory in bytes; `short` says which offsets use the continuing form. */
  function Print(entries: seq<DirectoryEntry>, short: seq<bool>): seq<byte>
    requires Printable(entries, short)
  {
    WriteVarint(|entries|) +
    PrintIds(Deltas(Ids(entries)), Runs(entries), Lengths(entries), Stored(Offsets(entries), short))
  }

  /** Small numbers take a byte each, the next larger ones two. */
  lemma SmallVarints(value: nat)
    ensures value < 128 ==> WriteVarint(value) == [value]
    ensures 128 <= value < 16384 ==> WriteVarint(value) == [value % 128 + 128, value / 128]
  {
    if 128 <= value < 16384 {
      assert WriteVarint(value / 128) == [value / 128];
    }
  }

  /** A directory of one entry, all of whose numbers are small: count, id, run,
      length, and the offset plus one. */
  lemma OneEntryPrinted(e: DirectoryEntry)
    requires e.id < 128 && e.run < 128 && e.length < 128 && e.offset + 1 < 128
    ensures Printable([e], [false]) && Print([e], [false]) == [1, e.id, e.run, e.length, e.offset + 1]
  {
    ColumnOfOne(1, e.id);
    ColumnOfOne(1, e.run);
    ColumnOfOne(1, e.length);
    ColumnOfOne(1, e.offset + 1);
    assert Deltas(Ids([e])) == [e.id] && Runs([e]) == [e.run] && Lengths([e]) == [e.length];
    assert Stored(Offsets([e]), [false]) == [e.offset + 1];
  }

  lemma ColumnOfOne(n: nat, value: nat)
    requires value < 128 && n == 1
    ensures PrintColumn([value], 0) == [value] && WriteVarint(n) == [n]
  {
    assert PrintColumn([value], 1) == [];
  }

  /** Two entries whose tile data is stored side by side: ids as a difference,
      and a zero for the second offset. */
  lemma TwoEntriesPrinted(e: DirectoryEntry, f: DirectoryEntry)
    requires e.id <= f.id && f.id - e.id < 128 && f.id < 128 && e.run < 128 && f.run < 128
    requires e.length < 128 && f.length < 128 && e.offset + 1 < 128 && f.offset == e.offset + e.length
    ensures Printable([e, f], [false, true])
    ensures Print([e, f], [false, true])
            == [2, e.id, f.id - e.id, e.run, f.run, e.length, f.length, e.offset + 1, 0]
  {
    ColumnOfTwo(e.id, f.id - e.id);
    ColumnOfTwo(e.run, f.run);
    ColumnOfTwo(e.length, f.length);
    ColumnOfTwo(e.offset + 1, 0);
    assert Deltas(Ids([e, f])) == [e.id, f.id - e.id] && Runs([e, f]) == [e.run, f.run];
    assert Lengths([e, f]) == [e.length, f.length] && Stored(Offsets([e, f]), [false, true]) == [e.offset + 1, 0];
  }

  lemma ColumnOfTwo(a: nat, b: nat)
    requires a < 128 && b < 128
    ensures PrintColumn([a, b], 0) == [a, b]
  {
    assert PrintColumn([a, b], 2) == [];
    assert PrintColumn([a, b], 1) == [b];
  }

  /** The k-th number of a printed column, and the rest behind it. */
  lemma ColumnStep(bytes: seq<byte>, offset: nat, values: seq<nat>, k: nat)
    requires k < |values| && values[k] < WORD64 && At(bytes, offset, PrintColumn(values, k))
    ensures Varint(bytes, offset, 0) == Got(values[k], offset + |WriteVarint(values[k])|)
    ensures At(bytes, offset + |WriteVarint(values[k])|, PrintColumn(values, k + 1))
    ensures |PrintColumn(values, k)| == |WriteVarint(values[k])| + |PrintColumn(values, k + 1)|
  {
    AtSplit(bytes, offset, WriteVarint(values[k]), PrintColumn(values, k + 1));
    WordReadsBack(bytes, offset, values[k]);
  }

  lemma IdsStep(bytes: seq<byte>, offset: nat, ids: seq<nat>, k: nat, next: nat)
    requires Ascends(ids) && k < |ids| && ids[k] < WORD64
    requires Varint(bytes, offset, 0) == Got(Deltas(ids)[k], next)
    ensures ReadIds(bytes, offset, |ids|, ids[..k]) == ReadIds(bytes, next, |ids|, ids[..k + 1])
  {
    assert Last(ids[..k]) + Deltas(ids)[k] == ids[k];
    assert ids[..k + 1] == ids[..k] + [ids[k]];
  }

  lemma {:induction false} IdsReadBack(bytes: seq<byte>, offset: nat, ids: seq<nat>, k: nat)
    requires Ascends(ids) && k <= |ids| && forall i | 0 <= i < |ids| :: ids[i] < WORD64
    requires At(bytes, offset, PrintColumn(Deltas(ids), k))
    ensures ReadIds(bytes, offset, |ids|, ids[..k]) == Column(ids, offset + |PrintColumn(Deltas(ids), k)|)
    decreases |ids| - k
  {
    if k < |ids| {
      var deltas := Deltas(ids);
      var next := offset + |WriteVarint(deltas[k])|;
      ColumnStep(bytes, offset, deltas, k);
      IdsStep(bytes, offset, ids, k, next);
      IdsReadBack(bytes, next, ids, k + 1);
    } else {
      assert ids[..k] == ids;
    }
  }

  lemma {:induction false} SmallsReadBack(bytes: seq<byte>, offset: nat, values: seq<nat>, k: nat)
    requires k <= |values| && forall i | 0 <= i < |values| :: values[i] <= U32_MAX
    requires At(bytes, offset, PrintColumn(values, k))
    ensures ReadSmalls(bytes, offset, |values|, values[..k]) == Column(values, offset + |PrintColumn(values, k)|)
    decreases |values| - k
  {
    if k < |values| {
      ColumnStep(bytes, offset, values, k);
      assert values[..k + 1] == values[..k] + [values[k]];
      SmallsReadBack(bytes, offset + |WriteVarint(values[k])|, values, k + 1);
    } else {
      assert values[..k] == values;
    }
  }

  /** A short form stands only where the offset does continue the entry before. */
  predicate ShortsContinue(lengths: seq<nat>, offsets: seq<nat>, short: seq<bool>) {
    && |lengths| == |offsets| == |short|
    && (forall i | 0 <= i < |offsets| :: offsets[i] + 1 < WORD64)
    && forall i | 0 <= i < |short| && short[i] :: i > 0 && offsets[i] == offsets[i - 1] + lengths[i - 1]
  }

  lemma OffsetStep(bytes: seq<byte>, offset: nat, lengths: seq<nat>, offsets: seq<nat>, short: seq<bool>, k: nat,
                   next: nat)
    requires ShortsContinue(lengths, offsets, short) && k < |offsets|
    requires Varint(bytes, offset, 0) == Got(Stored(offsets, short)[k], next)
    ensures ReadOffsets(bytes, offset, lengths, offsets[..k]) == ReadOffsets(bytes, next, lengths, offsets[..k + 1])
  {
    assert NextOffset(lengths, offsets[..k], Stored(offsets, short)[k]) == Some(offsets[k]);
    assert offsets[..k + 1] == offsets[..k] + [offsets[k]];
  }

  lemma {:induction false} OffsetsReadBack(bytes: seq<byte>, offset: nat, lengths: seq<nat>, offsets: seq<nat>,
                                           short: seq<bool>, k: nat)
    requires ShortsContinue(lengths, offsets, short) && k <= |offsets|
    requires At(bytes, offset, PrintColumn(Stored(offsets, short), k))
    ensures ReadOffsets(bytes, offset, lengths, offsets[..k]) ==
            Column(offsets, offset + |PrintColumn(Stored(offsets, short), k)|)
    decreases |offsets| - k
  {
    if k < |offsets| {
      var next := offset + |WriteVarint(Stored(offsets, short)[k])|;
      ColumnStep(bytes, offset, Stored(offsets, short), k);
      OffsetStep(bytes, offset, lengths, offsets, short, k, next);
      OffsetsReadBack(bytes, next, lengths, offsets, short, k + 1);
    } else {
      assert offsets[..k] == offsets;
    }
  }

  lemma PrintableColumns(entries: seq<DirectoryEntry>, short: seq<bool>)
    requires Printable(entries, short)
    ensures Ascends(Ids(entries)) && ShortsContinue(Lengths(entries), Offsets(entries), short)
    ensures forall i | 0 <= i < |entries| ::
              Ids(entries)[i] < WORD64 && Runs(entries)[i] <= U32_MAX && Lengths(entries)[i] <= U32_MAX
    ensures Zip(Ids(entries), Runs(entries), Lengths(entries), Offsets(entries)) == entries
  {
    forall i | 0 <= i < |entries|
      ensures Ids(entries)[i] < WORD64 && Runs(entries)[i] <= U32_MAX && Lengths(entries)[i] <= U32_MAX
      ensures Offsets(entries)[i] + 1 < WORD64
    {
      assert entries[i] in entries;
    }
  }

  lemma OffsetsStage(bytes: seq<byte>, offset: nat, ids: seq<nat>, runs: seq<nat>, lengths: seq<nat>, offsets: seq<nat>,
                     short: seq<bool>)
    requires Ascends(ids) && |ids| == |runs| == |lengths| && ShortsContinue(lengths, offsets, short)
    requires At(bytes, offset, PrintColumn(Stored(offsets, short), 0))
    ensures ParseOffsets(bytes, offset, ids, runs, lengths) == Some(Zip(ids, runs, lengths, offsets))
  {
    assert offsets[..0] == [];
    OffsetsReadBack(bytes, offset, lengths, offsets, short, 0);
  }

  /** A printed column of small numbers is read, up to what follows it. */
  lemma SmallColumn(bytes: seq<byte>, offset: nat, values: seq<nat>, rest: seq<byte>)
    requires forall i | 0 <= i < |values| :: values[i] <= U32_MAX
    requires At(bytes, offset, PrintColumn(values, 0) + rest)
    ensures ReadSmalls(bytes, offset, |values|, []) == Column(values, offset + |PrintColumn(values, 0)|)
    ensures At(bytes, offset + |PrintColumn(values, 0)|, rest)
  {
    AtSplit(bytes, offset, PrintColumn(values, 0), rest);
    assert values[..0] == [];
    SmallsReadBack(bytes, offset, values, 0);
  }

  lemma IdColumn(bytes: seq<byte>, offset: nat, ids: seq<nat>, rest: seq<byte>)
    requires Ascends(ids) && forall i | 0 <= i < |ids| :: ids[i] < WORD64
    requires At(bytes, offset, PrintColumn(Deltas(ids), 0) + rest)
    ensures ReadIds(bytes, offset, |ids|, []) == Column(ids, offset + |PrintColumn(Deltas(ids), 0)|)
    ensures At(bytes, offset + |PrintColumn(Deltas(ids), 0)|, rest)
  {
    AtSplit(bytes, offset, PrintColumn(Deltas(ids), 0), rest);
    assert ids[..0] == [];
    IdsReadBack(bytes, offset, ids, 0);
  }

  lemma LengthsStage(bytes: seq<byte>, offset: nat, ids: seq<nat>, runs: seq<nat>, lengths: seq<nat>, next: nat)
    requires Ascends(ids) && |ids| == |runs| == |lengths|
    requires ReadSmalls(bytes, offset, |lengths|, []) == Column(lengths, next)
    ensures ParseLengths(bytes, offset, ids, runs) == ParseOffsets(bytes, next, ids, runs, lengths)
  {
  }

  lemma RunsStage(bytes: seq<byte>, offset: nat, ids: seq<nat>, runs: seq<nat>, next: nat)
    requires Ascends(ids) && |ids| == |runs|
    requires ReadSmalls(bytes, offset, |runs|, []) == Column(runs, next)
    ensures ParseRuns(bytes, offset, ids) == ParseLengths(bytes, next, ids, runs)
  {
  }

  lemma IdsStage(bytes: seq<byte>, offset: nat, ids: seq<nat>, next: nat)
    requires Ascends(ids) && ReadIds(bytes, offset, |ids|, []) == Column(ids, next)
    ensures ParseIds(bytes, offset, |ids|) == ParseRuns(bytes, next, ids)
  {
  }

  lemma CountStage(bytes: seq<byte>, n: nat, rest: seq<byte>)
    requires n < WORD64 && At(bytes, 0, WriteVarint(n) + rest) && |rest| >= 4 * n
    ensures Parse(bytes) == ParseIds(bytes, |WriteVarint(n)|, n)
    ensures At(bytes, |WriteVarint(n)|, rest)
  {
    AtSplit(bytes, 0, WriteVarint(n), rest);
    WordReadsBack(bytes, 0, n);
  }

  lemma PrintedAt(bytes: seq<byte>, p: seq<byte>, tail: seq<byte>)
    requires bytes == p + tail
    ensures At(bytes, 0, p)
  {
  }

  lemma FromLengths(bytes: seq<byte>, offset: nat, ids: seq<nat>, runs: seq<nat>, lengths: seq<nat>, offsets: seq<nat>,
                    short: seq<bool>)
    requires Ascends(ids) && |ids| == |runs| == |lengths| && ShortsContinue(lengths, offsets, short)
    requires forall i | 0 <= i < |lengths| :: lengths[i] <= U32_MAX
    requires At(bytes, offset, PrintLengths(lengths, Stored(offsets, short)))
    ensures ParseLengths(bytes, offset, ids, runs) == Some(Zip(ids, runs, lengths, offsets))
  {
    var next := offset + |PrintColumn(lengths, 0)|;
    SmallColumn(bytes, offset, lengths, PrintColumn(Stored(offsets, short), 0));
    LengthsStage(bytes, offset, ids, runs, lengths, next);
    OffsetsStage(bytes, next, ids, runs, lengths, offsets, short);
  }

  lemma FromRuns(bytes: seq<byte>, offset: nat, ids: seq<nat>, runs: seq<nat>, lengths: seq<nat>, offsets: seq<nat>,
                 short: seq<bool>)
    requires Ascends(ids) && |ids| == |runs| == |lengths| && ShortsContinue(lengths, offsets, short)
    requires forall i | 0 <= i < |ids| :: runs[i] <= U32_MAX && lengths[i] <= U32_MAX
    requires At(bytes, offset, PrintRuns(runs, lengths, Stored(offsets, short)))
    ensures ParseRuns(bytes, offset, ids) == Some(Zip(ids, runs, lengths, offsets))
  {
    var next, rest := offset + |PrintColumn(runs, 0)|, PrintLengths(lengths, Stored(offsets, short));
    assert At(bytes, next, rest) && ReadSmalls(bytes, offset, |runs|, []) == Column(runs, next) by {
      SmallColumn(bytes, offset, runs, rest);
    }
    FromLengths(bytes, next, ids, runs, lengths, offsets, short);
    RunsStage(bytes, offset, ids, runs, next);
  }

  lemma FromIds(bytes: seq<byte>, offset: nat, ids: seq<nat>, runs: seq<nat>, lengths: seq<nat>, offsets: seq<nat>,
                short: seq<bool>)
    requires Ascends(ids) && |ids| == |runs| == |lengths| && ShortsContinue(lengths, offsets, short)
    requires forall i | 0 <= i < |ids| :: ids[i] < WORD64 && runs[i] <= U32_MAX && lengths[i] <= U32_MAX
    requires At(bytes, offset, PrintIds(Deltas(ids), runs, lengths, Stored(offsets, short)))
    ensures ParseIds(bytes, offset, |ids|) == Some(Zip(ids, runs, lengths, offsets))
  {
    var next := offset + |PrintColumn(Deltas(ids), 0)|;
    IdColumn(bytes, offset, ids, PrintRuns(runs, lengths, Stored(offsets, short)));
    IdsStage(bytes, offset, ids, next);
    FromRuns(bytes, next, ids, runs, lengths, offsets, short);
  }

  /** Parsing undoes printing, whichever offset form each entry uses and
      whatever follows; in particular the count guard never refuses it. */
  lemma ParsePrint(entries: seq<DirectoryEntry>, short: seq<bool>, tail: seq<byte>)
    requires Printable(entries, short)
    ensures Parse(Print(entries, short) + tail) == Some(entries)
  {
    PrintableColumns(entries, short);
    var bytes := Print(entries, short) + tail;
    PrintedAt(bytes, Print(entries, short), tail);
    var rest := PrintIds(Deltas(Ids(entries)), Runs(entries), Lengths(entries), Stored(Offsets(entries), short));
    CountStage(bytes, |entries|, rest);
    FromIds(bytes, |WriteVarint(|entries|)|, Ids(entries), Runs(entries), Lengths(entries), Offsets(entries), short);
  }

  /** The reader of the loader, column by column. */
  method ParseDirectory(bytes: seq<byte>) returns (r: Option<seq<DirectoryEntry>>)
    ensures r == Parse(bytes)
  {
    var head := ReadVarint(bytes, 0);
    if head.Bad? {
      return None;
    }
    var count, remaining := head.value, |bytes| - head.next;
    if count > remaining / 4 {
      return None;
    }
    var ids := ReadIdColumn(bytes, head.next, count);
    if ids.BadColumn? {
      return None;
    }
    var runs := ReadSmallColumn(bytes, ids.next, count);
    if runs.BadColumn? {
      return None;
    }
    var lengths := ReadSmallColumn(bytes, runs.next, count);
    if lengths.BadColumn? {
      return None;
    }
    var offsets := ReadOffsetColumn(bytes, lengths.next, lengths.values);
    if offsets.BadColumn? {
      return None;
    }
    return Some(Zip(ids.values, runs.values, lengths.values, offsets.values));
  }

  method ReadIdColumn(bytes: seq<byte>, offset: nat, count: nat) returns (r: Column)
    ensures r == ReadIds(bytes, offset, count, [])
    ensures r.Column? ==> |r.values| == count && Ascends(r.values)
  {
    IdsRead(bytes, offset, count, []);
    var at: nat, values: seq<nat>, lastId: nat := offset, [], 0;
    for i := 0 to count
      invariant |values| == i && lastId == Last(values)
      invariant ReadIds(bytes, offset, count, []) == ReadIds(bytes, at, count, values)
    {
      var delta := ReadVarint(bytes, at);
      if delta.Bad? {
        return BadColumn;
      }
      at := delta.next;
      lastId := lastId + delta.value;
      if lastId >= WORD64 {
        return BadColumn;
      }
      values := values + [lastId];
    }
    return Column(values, at);
  }

  method ReadSmallColumn(bytes: seq<byte>, offset: nat, count: nat) returns (r: Column)
    ensures r == ReadSmalls(bytes, offset, count, [])
    ensures r.Column? ==> |r.values| == count
  {
    var at: nat, values: seq<nat> := offset, [];
    for i := 0 to count
      invariant |values| == i
      invariant ReadSmalls(bytes, offset, count, []) == ReadSmalls(bytes, at, count, values)
    {
      var value := ReadVarint(bytes, at);
      if value.Bad? || value.value > U32_MAX {
        return BadColumn;
      }
      at := value.next;
      values := values + [value.value];
    }
    return Column(values, at);
  }

  method ReadOffsetColumn(bytes: seq<byte>, offset: nat, lengths: seq<nat>) returns (r: Column)
    ensures r == ReadOffsets(bytes, offset, lengths, [])
    ensures r.Column? ==> |r.values| == |lengths|
  {
    var at: nat, values: seq<nat> := offset, [];
    for i := 0 to |lengths|
      invariant |values| == i
      invariant ReadOffsets(bytes, offset, lengths, []) == ReadOffsets(bytes, at, lengths, values)
    {
      var stored := ReadVarint(bytes, at);
      if stored.Bad? {
        return BadColumn;
      }
      at := stored.next;
      var next: nat;
      if stored.value == 0 && i > 0 {
        next := values[i - 1] + lengths[i - 1];
        if next >= WORD64 {
          return BadColumn;
        }
      } else {
        if stored.value == 0 {
          return BadColumn;
        }
        next := stored.value - 1;
      }
      values := values + [next];
    }
    return Column(values, at);
  }
}
