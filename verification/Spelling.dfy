/** What the bytes of a directory mean, said without the reader: which numbers
    a byte string spells, and which directory the numbers describe. */
module Spelling {
  import opened Common
  import opened Directory

  /** A number by its digits to the base 128, least first. */
  function Base128(digits: seq<nat>): nat {
    if digits == [] then 0 else digits[0] + 128 * Base128(digits[1..])
  }

  /** The bytes from an offset on are these digits, all but the last with the
      highest bit set; ten digits at most, the tenth a single bit. */
  predicate Spelled(bytes: seq<byte>, offset: nat, digits: seq<nat>) {
    && 1 <= |digits| <= 10 && offset + |digits| <= |bytes|
    && (forall i | 0 <= i < |digits| :: digits[i] < 128)
    && (|digits| == 10 ==> digits[9] < 2)
    && forall i {:trigger digits[i]} | 0 <= i < |digits| ::
         bytes[offset + i] == digits[i] + if i + 1 < |digits| then 128 else 0
  }

  /** The number at an offset is the one whose digits stand there, and there is
      none otherwise. */
  lemma NumberIff(bytes: seq<byte>, offset: nat, value: nat, next: nat)
    ensures Varint(bytes, offset, 0) == Got(value, next) <==>
            exists digits :: Spelled(bytes, offset, digits) && value == Base128(digits) && next == offset + |digits|
  {
    if digits :| Spelled(bytes, offset, digits) && value == Base128(digits) && next == offset + |digits| {
      DigitsRead(bytes, offset, digits, 0);
      assert digits[0..] == digits;
    }
    if Varint(bytes, offset, 0) == Got(value, next) {
      var digits := DigitsOf(bytes, offset, 0);
      assert Spelled(bytes, offset, digits);
    }
  }

  lemma {:induction false} DigitsRead(bytes: seq<byte>, offset: nat, digits: seq<nat>, k: nat)
    requires Spelled(bytes, offset, digits) && k < |digits|
    ensures Varint(bytes, offset + k, k) == Got(Base128(digits[k..]), offset + |digits|)
    decreases |digits| - k
  {
    var b := bytes[offset + k];
    assert b == digits[k] + if k + 1 < |digits| then 128 else 0;
    assert digits[k..][1..] == digits[k + 1..];
    if k + 1 < |digits| {
      DigitsRead(bytes, offset, digits, k + 1);
    } else {
      assert Base128(digits[k..]) == digits[k];
    }
  }

  /** The digits stand there, those before them already read. */
  predicate SpelledFrom(bytes: seq<byte>, offset: nat, digits: seq<nat>, round: nat) {
    && 1 <= |digits| <= 10 - round && offset + |digits| <= |bytes|
    && (forall i | 0 <= i < |digits| :: digits[i] < 128)
    && (|digits| == 10 - round ==> digits[|digits| - 1] < 2)
    && forall i {:trigger digits[i]} | 0 <= i < |digits| ::
         bytes[offset + i] == digits[i] + if i + 1 < |digits| then 128 else 0
  }

  /** The digits that the reader went over. */
  lemma {:induction false} DigitsOf(bytes: seq<byte>, offset: nat, round: nat) returns (digits: seq<nat>)
    requires round <= 9 && Varint(bytes, offset, round).Got?
    ensures SpelledFrom(bytes, offset, digits, round)
    ensures Varint(bytes, offset, round) == Got(Base128(digits), offset + |digits|)
    decreases 10 - round
  {
    if bytes[offset] < 128 {
      digits := [bytes[offset]];
      assert Base128(digits) == bytes[offset];
    } else {
      var rest := DigitsOf(bytes, offset + 1, round + 1);
      digits := [bytes[offset] - 128] + rest;
      OneMoreDigit(bytes, offset, rest, round);
    }
  }

  lemma OneMoreDigit(bytes: seq<byte>, offset: nat, rest: seq<nat>, round: nat)
    requires offset < |bytes| && bytes[offset] >= 128 && SpelledFrom(bytes, offset + 1, rest, round + 1)
    ensures SpelledFrom(bytes, offset, [bytes[offset] - 128] + rest, round)
    ensures Base128([bytes[offset] - 128] + rest) == bytes[offset] - 128 + 128 * Base128(rest)
  {
    var digits := [bytes[offset] - 128] + rest;
    assert digits[1..] == rest;
    forall i | 0 <= i < |digits|
      ensures bytes[offset + i] == digits[i] + if i + 1 < |digits| then 128 else 0
    {
      if i > 0 {
        assert bytes[offset + 1 + (i - 1)] == rest[i - 1] + if i < |rest| then 128 else 0;
      }
    }
  }

  /** The numbers stand one behind the other, from an offset to the next. */
  predicate Numbers(bytes: seq<byte>, offset: nat, values: seq<nat>, next: nat)
    decreases |values|
  {
    if values == [] then next == offset
    else
      match Varint(bytes, offset, 0)
      case Bad => false
      case Got(value, after) => value == values[0] && Numbers(bytes, after, values[1..], next)
  }

  /** The four columns of a directory. */
  datatype Columns = Columns(deltas: seq<nat>, runs: seq<nat>, lengths: seq<nat>, stored: seq<nat>) {
    /** The numbers of the whole directory, in the order of its bytes. */
    function All(): seq<nat> {
      [|deltas|] + (deltas + (runs + (lengths + stored)))
    }
  }

  /** What entry k of a directory is, from the columns. */
  predicate EntryMeant(c: Columns, d: seq<DirectoryEntry>, k: nat)
    requires k < |d| == |c.deltas| == |c.runs| == |c.lengths| == |c.stored|
  {
    && d[k].id == (if k == 0 then 0 else d[k - 1].id) + c.deltas[k]
    && d[k].run == c.runs[k] && d[k].length == c.lengths[k]
    && (if c.stored[k] == 0 then k > 0 && d[k].offset == d[k - 1].offset + d[k - 1].length
        else d[k].offset == c.stored[k] - 1)
    && d[k].id < 0x1_0000_0000_0000_0000 && d[k].offset < 0x1_0000_0000_0000_0000
    && d[k].run < 0x1_0000_0000 && d[k].length < 0x1_0000_0000
  }

  predicate Describes(c: Columns, d: seq<DirectoryEntry>) {
    && |d| == |c.deltas| == |c.runs| == |c.lengths| == |c.stored|
    && forall k | 0 <= k < |d| :: EntryMeant(c, d, k)
  }

  lemma {:induction false} NumbersJoin(bytes: seq<byte>, offset: nat, p: seq<nat>, middle: nat, q: seq<nat>, next: nat)
    requires Numbers(bytes, offset, p, middle) && Numbers(bytes, middle, q, next)
    ensures Numbers(bytes, offset, p + q, next)
    decreases |p|
  {
    if p == [] {
      assert p + q == q;
    } else {
      NumbersJoin(bytes, Varint(bytes, offset, 0).next, p[1..], middle, q, next);
      assert (p + q)[1..] == p[1..] + q;
    }
  }

  lemma {:induction false} NumbersSplit(bytes: seq<byte>, offset: nat, p: seq<nat>, q: seq<nat>, next: nat)
      returns (middle: nat)
    requires Numbers(bytes, offset, p + q, next)
    ensures Numbers(bytes, offset, p, middle) && Numbers(bytes, middle, q, next)
    decreases |p|
  {
    if p == [] {
      assert p + q == q;
      middle := offset;
    } else {
      assert (p + q)[1..] == p[1..] + q;
      middle := NumbersSplit(bytes, Varint(bytes, offset, 0).next, p[1..], q, next);
    }
  }

  /** Each number takes a byte at least. */
  lemma {:induction false} NumbersTakeBytes(bytes: seq<byte>, offset: nat, values: seq<nat>, next: nat)
    requires Numbers(bytes, offset, values, next)
    ensures offset + |values| <= next && (values != [] ==> next <= |bytes|)
    decreases |values|
  {
    if values != [] {
      NumbersTakeBytes(bytes, Varint(bytes, offset, 0).next, values[1..], next);
    }
  }

  // From the numbers to the columns that the reader returns.

  lemma {:induction false} IdsMeant(bytes: seq<byte>, offset: nat, ids: seq<nat>, deltas: seq<nat>, k: nat, next: nat)
    requires k <= |ids| == |deltas| && Numbers(bytes, offset, deltas[k..], next)
    requires forall i {:trigger deltas[i]} | 0 <= i < |ids| ::
               ids[i] == (if i == 0 then 0 else ids[i - 1]) + deltas[i] < WORD64
    ensures ReadIds(bytes, offset, |ids|, ids[..k]) == Column(ids, next)
    decreases |ids| - k
  {
    if k < |ids| {
      assert deltas[k..][0] == deltas[k] && deltas[k..][1..] == deltas[k + 1..];
      assert ids[..k + 1] == ids[..k] + [ids[k]];
      IdsMeant(bytes, Varint(bytes, offset, 0).next, ids, deltas, k + 1, next);
    } else {
      assert ids[..k] == ids;
    }
  }

  lemma {:induction false} SmallsMeant(bytes: seq<byte>, offset: nat, values: seq<nat>, k: nat, next: nat)
    requires k <= |values| && Numbers(bytes, offset, values[k..], next)
    requires forall i | 0 <= i < |values| :: values[i] <= U32_MAX
    ensures ReadSmalls(bytes, offset, |values|, values[..k]) == Column(values, next)
    decreases |values| - k
  {
    if k < |values| {
      assert values[k..][0] == values[k] && values[k..][1..] == values[k + 1..];
      assert values[..k + 1] == values[..k] + [values[k]];
      SmallsMeant(bytes, Varint(bytes, offset, 0).next, values, k + 1, next);
    } else {
      assert values[..k] == values;
    }
  }

  predicate OffsetMeant(lengths: seq<nat>, offsets: seq<nat>, stored: seq<nat>, i: nat)
    requires i < |offsets| == |lengths| == |stored|
  {
    && offsets[i] < WORD64
    && if stored[i] == 0 then i > 0 && offsets[i] == offsets[i - 1] + lengths[i - 1] else offsets[i] == stored[i] - 1
  }

  lemma {:induction false} OffsetsMeant(bytes: seq<byte>, offset: nat, lengths: seq<nat>, offsets: seq<nat>,
                                        stored: seq<nat>, k: nat, next: nat)
    requires k <= |offsets| == |lengths| == |stored| && Numbers(bytes, offset, stored[k..], next)
    requires forall i | 0 <= i < |offsets| :: OffsetMeant(lengths, offsets, stored, i)
    ensures ReadOffsets(bytes, offset, lengths, offsets[..k]) == Column(offsets, next)
    decreases |offsets| - k
  {
    if k < |offsets| {
      assert stored[k..][0] == stored[k] && stored[k..][1..] == stored[k + 1..];
      assert offsets[..k + 1] == offsets[..k] + [offsets[k]];
      assert OffsetMeant(lengths, offsets, stored, k);
      assert NextOffset(lengths, offsets[..k], stored[k]) == Some(offsets[k]);
      OffsetsMeant(bytes, Varint(bytes, offset, 0).next, lengths, offsets, stored, k + 1, next);
    } else {
      assert offsets[..k] == offsets;
    }
  }

  // And back from the columns to the numbers.

  predicate IdCame(ids: seq<nat>, delta: nat, i: nat)
    requires i < |ids|
  {
    ids[i] == (if i == 0 then 0 else ids[i - 1]) + delta < WORD64
  }

  lemma {:induction false} IdsCame(bytes: seq<byte>, offset: nat, n: nat, done: seq<nat>) returns (deltas: seq<nat>)
    requires |done| <= n && ReadIds(bytes, offset, n, done).Column?
    ensures var r := ReadIds(bytes, offset, n, done);
            && |r.values| == n == |done| + |deltas| && r.values[..|done|] == done
            && Numbers(bytes, offset, deltas, r.next)
            && forall j | 0 <= j < |deltas| :: IdCame(r.values, deltas[j], |done| + j)
    decreases n - |done|
  {
    if |done| == n {
      deltas := [];
    } else {
      var number := Varint(bytes, offset, 0);
      var more := done + [Last(done) + number.value];
      var rest := IdsCame(bytes, number.next, n, more);
      deltas := [number.value] + rest;
      var r := ReadIds(bytes, offset, n, done);
      assert deltas[1..] == rest;
      OneMoreId(r.values, done, number.value, rest);
    }
  }

  lemma OneMoreId(ids: seq<nat>, done: seq<nat>, delta: nat, rest: seq<nat>)
    requires |ids| == |done| + 1 + |rest| && Last(done) + delta < WORD64
    requires ids[..|done| + 1] == done + [Last(done) + delta]
    requires forall j | 0 <= j < |rest| :: IdCame(ids, rest[j], |done| + 1 + j)
    ensures ids[..|done|] == done
    ensures var deltas := [delta] + rest;
            forall j | 0 <= j < |deltas| :: IdCame(ids, deltas[j], |done| + j)
  {
    var deltas, more := [delta] + rest, done + [Last(done) + delta];
    assert ids[..|done|] == more[..|done|] == done;
    assert ids[|done|] == more[|done|] && (done != [] ==> ids[|done| - 1] == done[|done| - 1]);
    forall j | 0 <= j < |deltas|
      ensures IdCame(ids, deltas[j], |done| + j)
    {
      if j > 0 {
        assert IdCame(ids, rest[j - 1], |done| + 1 + (j - 1));
      }
    }
  }

  lemma {:induction false} SmallsCame(bytes: seq<byte>, offset: nat, n: nat, done: seq<nat>)
    requires |done| <= n && ReadSmalls(bytes, offset, n, done).Column?
    requires forall i | 0 <= i < |done| :: done[i] <= U32_MAX
    ensures var r := ReadSmalls(bytes, offset, n, done);
            && |r.values| == n && r.values[..|done|] == done
            && Numbers(bytes, offset, r.values[|done|..], r.next)
            && forall i | 0 <= i < n :: r.values[i] <= U32_MAX
    decreases n - |done|
  {
    if |done| < n {
      var number := Varint(bytes, offset, 0);
      var more := done + [number.value];
      SmallsCame(bytes, number.next, n, more);
      var values := ReadSmalls(bytes, offset, n, done).values;
      assert values[..|done|] == values[..|more|][..|done|] == done;
      assert values[|done|] == values[..|more|][|done|];
      assert values[|done|..][1..] == values[|more|..];
    }
  }

  lemma {:induction false} OffsetsCame(bytes: seq<byte>, offset: nat, lengths: seq<nat>, done: seq<nat>)
      returns (stored: seq<nat>)
    requires |done| <= |lengths| && ReadOffsets(bytes, offset, lengths, done).Column?
    ensures var r := ReadOffsets(bytes, offset, lengths, done);
            && |r.values| == |lengths| == |done| + |stored| && r.values[..|done|] == done
            && Numbers(bytes, offset, stored, r.next)
            && forall j | 0 <= j < |stored| :: CameFrom(lengths, r.values, stored[j], |done| + j)
    decreases |lengths| - |done|
  {
    if |done| == |lengths| {
      stored := [];
    } else {
      var number := Varint(bytes, offset, 0);
      NumberFits(bytes, offset);
      var value := NextOffset(lengths, done, number.value).value;
      var more := done + [value];
      var rest := OffsetsCame(bytes, number.next, lengths, more);
      stored := [number.value] + rest;
      var values := ReadOffsets(bytes, offset, lengths, done).values;
      assert stored[1..] == rest;
      assert values[..|done|] == values[..|more|][..|done|] == done;
      assert values[|done|] == values[..|more|][|done|] == value;
      assert done != [] ==> values[|done| - 1] == done[|done| - 1];
      forall j | 0 <= j < |stored|
        ensures CameFrom(lengths, values, stored[j], |done| + j)
      {
        if j > 0 {
          assert CameFrom(lengths, values, rest[j - 1], |more| + (j - 1));
        }
      }
    }
  }

  predicate CameFrom(lengths: seq<nat>, offsets: seq<nat>, stored: nat, i: nat)
    requires i < |offsets| == |lengths|
  {
    && offsets[i] < WORD64
    && if stored == 0 then i > 0 && offsets[i] == offsets[i - 1] + lengths[i - 1] else offsets[i] == stored - 1
  }

  lemma NumberFits(bytes: seq<byte>, offset: nat)
    ensures Varint(bytes, offset, 0).Got? ==> Varint(bytes, offset, 0).value < WORD64
  {
    CapacityIsWord();
  }

  /** The bytes up to the end are the numbers of the columns, and those describe
      the directory. */
  predicate Holds(bytes: seq<byte>, d: seq<DirectoryEntry>, c: Columns, end: nat) {
    Numbers(bytes, 0, c.All(), end) && Describes(c, d)
  }

  /** What a byte string is as a directory, for every byte string: exactly the
      directory that the numbers in it describe, and none when they describe
      none. Whatever follows the numbers is ignored. */
  lemma DirectoryIff(bytes: seq<byte>, d: seq<DirectoryEntry>)
    ensures Parse(bytes) == Some(d) <==> exists c, end :: Holds(bytes, d, c, end)
  {
    if c, end :| Holds(bytes, d, c, end) {
      DescribedIsParsed(bytes, c, d, end);
    }
    if Parse(bytes) == Some(d) {
      var c, end := ParsedIsDescribed(bytes, d);
      assert Holds(bytes, d, c, end);
    }
  }

  lemma DescribedIsParsed(bytes: seq<byte>, c: Columns, d: seq<DirectoryEntry>, end: nat)
    requires Holds(bytes, d, c, end)
    ensures Parse(bytes) == Some(d)
  {
    var n := |d|;
    var o1 := NumbersSplit(bytes, 0, [n], c.deltas + (c.runs + (c.lengths + c.stored)), end);
    assert Varint(bytes, 0, 0) == Got(n, o1);
    NumbersTakeBytes(bytes, o1, c.deltas + (c.runs + (c.lengths + c.stored)), end);
    var o2 := NumbersSplit(bytes, o1, c.deltas, c.runs + (c.lengths + c.stored), end);
    var o3 := NumbersSplit(bytes, o2, c.runs, c.lengths + c.stored, end);
    var o4 := NumbersSplit(bytes, o3, c.lengths, c.stored, end);
    ColumnsMeant(bytes, c, d, o1, o2, o3, o4, end);
  }

  lemma ColumnsMeant(bytes: seq<byte>, c: Columns, d: seq<DirectoryEntry>, o1: nat, o2: nat, o3: nat, o4: nat,
                     end: nat)
    requires Describes(c, d)
    requires Numbers(bytes, o1, c.deltas, o2) && Numbers(bytes, o2, c.runs, o3)
    requires Numbers(bytes, o3, c.lengths, o4) && Numbers(bytes, o4, c.stored, end)
    ensures ParseIds(bytes, o1, |d|) == Some(d)
  {
    var ids, offsets := Ids(d), Offsets(d);
    ColumnsOf(c, d, ids, offsets);
    WholeIds(bytes, o1, ids, c.deltas, o2);
    WholeSmalls(bytes, o2, c.runs, o3);
    WholeSmalls(bytes, o3, c.lengths, o4);
    WholeOffsets(bytes, o4, c.lengths, offsets, c.stored, end);
    IdsRead(bytes, o1, |d|, []);
  }

  lemma ColumnsOf(c: Columns, d: seq<DirectoryEntry>, ids: seq<nat>, offsets: seq<nat>)
    requires Describes(c, d) && ids == Ids(d) && offsets == Offsets(d)
    ensures |ids| == |offsets| == |d| && Zip(ids, c.runs, c.lengths, offsets) == d
    ensures forall i {:trigger c.deltas[i]} | 0 <= i < |d| ::
              ids[i] == (if i == 0 then 0 else ids[i - 1]) + c.deltas[i] < WORD64
    ensures forall i | 0 <= i < |d| :: c.runs[i] <= U32_MAX && c.lengths[i] <= U32_MAX
    ensures forall i | 0 <= i < |d| :: OffsetMeant(c.lengths, offsets, c.stored, i)
  {
    forall k | 0 <= k < |d|
      ensures ids[k] == (if k == 0 then 0 else ids[k - 1]) + c.deltas[k] < WORD64
      ensures c.runs[k] <= U32_MAX && c.lengths[k] <= U32_MAX && OffsetMeant(c.lengths, offsets, c.stored, k)
      ensures d[k] == DirectoryEntry(ids[k], offsets[k], c.lengths[k], c.runs[k])
    {
      assert EntryMeant(c, d, k);
      if k > 0 {
        assert EntryMeant(c, d, k - 1);
      }
    }
  }

  lemma WholeIds(bytes: seq<byte>, offset: nat, ids: seq<nat>, deltas: seq<nat>, next: nat)
    requires |ids| == |deltas| && Numbers(bytes, offset, deltas, next)
    requires forall i {:trigger deltas[i]} | 0 <= i < |ids| ::
               ids[i] == (if i == 0 then 0 else ids[i - 1]) + deltas[i] < WORD64
    ensures ReadIds(bytes, offset, |ids|, []) == Column(ids, next)
  {
    assert deltas[0..] == deltas && ids[..0] == [];
    IdsMeant(bytes, offset, ids, deltas, 0, next);
  }

  lemma WholeSmalls(bytes: seq<byte>, offset: nat, values: seq<nat>, next: nat)
    requires Numbers(bytes, offset, values, next) && forall i | 0 <= i < |values| :: values[i] <= U32_MAX
    ensures ReadSmalls(bytes, offset, |values|, []) == Column(values, next)
  {
    assert values[0..] == values && values[..0] == [];
    SmallsMeant(bytes, offset, values, 0, next);
  }

  lemma WholeOffsets(bytes: seq<byte>, offset: nat, lengths: seq<nat>, offsets: seq<nat>, stored: seq<nat>, next: nat)
    requires |offsets| == |lengths| == |stored| && Numbers(bytes, offset, stored, next)
    requires forall i | 0 <= i < |offsets| :: OffsetMeant(lengths, offsets, stored, i)
    ensures ReadOffsets(bytes, offset, lengths, []) == Column(offsets, next)
  {
    assert stored[0..] == stored && offsets[..0] == [];
    OffsetsMeant(bytes, offset, lengths, offsets, stored, 0, next);
  }

  lemma ParsedIsDescribed(bytes: seq<byte>, d: seq<DirectoryEntry>) returns (c: Columns, end: nat)
    requires Parse(bytes) == Some(d)
    ensures Holds(bytes, d, c, end)
  {
    var n, o1 := Varint(bytes, 0, 0).value, Varint(bytes, 0, 0).next;
    var o2, o3, o4;
    c, o2, o3, o4, end := ColumnsCame(bytes, o1, n, d);
    ColumnsJoin(bytes, c, n, o1, o2, o3, o4, end);
  }

  lemma ColumnsCame(bytes: seq<byte>, o1: nat, n: nat, d: seq<DirectoryEntry>)
      returns (c: Columns, o2: nat, o3: nat, o4: nat, end: nat)
    requires ParseIds(bytes, o1, n) == Some(d)
    ensures Describes(c, d) && |d| == n
    ensures Numbers(bytes, o1, c.deltas, o2) && Numbers(bytes, o2, c.runs, o3)
    ensures Numbers(bytes, o3, c.lengths, o4) && Numbers(bytes, o4, c.stored, end)
  {
    IdsRead(bytes, o1, n, []);
    var ids := ReadIds(bytes, o1, n, []);
    var deltas := IdsCame(bytes, o1, n, []);
    SmallsCame(bytes, ids.next, n, []);
    var runs := ReadSmalls(bytes, ids.next, n, []);
    SmallsCame(bytes, runs.next, n, []);
    var lengths := ReadSmalls(bytes, runs.next, n, []);
    var stored := OffsetsCame(bytes, lengths.next, lengths.values, []);
    var offsets := ReadOffsets(bytes, lengths.next, lengths.values, []);
    assert runs.values[0..] == runs.values && lengths.values[0..] == lengths.values;
    c, o2, o3, o4, end := Columns(deltas, runs.values, lengths.values, stored), ids.next, runs.next, lengths.next,
      offsets.next;
    ZipDescribed(c, ids.values, offsets.values);
  }

  lemma ZipDescribed(c: Columns, ids: seq<nat>, offsets: seq<nat>)
    requires |ids| == |offsets| == |c.deltas| == |c.runs| == |c.lengths| == |c.stored|
    requires forall j | 0 <= j < |c.deltas| :: IdCame(ids, c.deltas[j], 0 + j)
    requires forall j | 0 <= j < |c.stored| :: CameFrom(c.lengths, offsets, c.stored[j], 0 + j)
    requires forall i | 0 <= i < |ids| :: c.runs[i] <= U32_MAX && c.lengths[i] <= U32_MAX
    ensures Describes(c, Zip(ids, c.runs, c.lengths, offsets))
  {
    var d := Zip(ids, c.runs, c.lengths, offsets);
    forall k | 0 <= k < |d|
      ensures EntryMeant(c, d, k)
    {
      assert IdCame(ids, c.deltas[k], 0 + k) && CameFrom(c.lengths, offsets, c.stored[k], 0 + k);
    }
  }

  lemma ColumnsJoin(bytes: seq<byte>, c: Columns, n: nat, o1: nat, o2: nat, o3: nat, o4: nat, end: nat)
    requires Varint(bytes, 0, 0) == Got(n, o1) && n == |c.deltas|
    requires Numbers(bytes, o1, c.deltas, o2) && Numbers(bytes, o2, c.runs, o3)
    requires Numbers(bytes, o3, c.lengths, o4) && Numbers(bytes, o4, c.stored, end)
    ensures Numbers(bytes, 0, c.All(), end)
  {
    NumbersJoin(bytes, o3, c.lengths, o4, c.stored, end);
    NumbersJoin(bytes, o2, c.runs, o3, c.lengths + c.stored, end);
    NumbersJoin(bytes, o1, c.deltas, o2, c.runs + (c.lengths + c.stored), end);
    NumbersJoin(bytes, 0, [n], o1, c.deltas + (c.runs + (c.lengths + c.stored)), end);
  }
}
