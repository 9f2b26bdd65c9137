/** The metric-independent CCH structure: an upward graph over ranks in CSR
    form, its loader checks and its arc lookup. */
module Cch {
  import opened Common
  import opened Costs
  import opened Walks

  datatype CchStructure = CchStructure(
    rank: seq<nat>,
    order: seq<nat>,
    upFirstOut: seq<nat>,
    upTail: seq<nat>,
    upHead: seq<nat>)
  {
    function ArcCount(): nat {
      |upHead|
    }

    /** The arcs with the given tail, by binary search among its sorted heads. */
    function FindArc(tail: nat, head: nat): (r: Option<nat>)
      requires CsrBounds()
    {
      if tail + 1 >= |upFirstOut| then None
      else BinarySearch(upHead, upFirstOut[tail], upFirstOut[tail + 1], head)
    }

    /** Slices between consecutive CSR offsets are in range. */
    predicate CsrBounds() {
      && (forall t | 0 <= t < |upFirstOut| :: upFirstOut[t] <= |upHead|)
      && forall t | 0 <= t < |upFirstOut| - 1 :: upFirstOut[t] <= upFirstOut[t + 1]
    }

    /** The two arc columns have the CSR's dimensions. */
    predicate Dimensions(n: nat) {
      && |order| == n
      && |upFirstOut| == n + 1
      && upFirstOut[0] == 0
      && upFirstOut[n] == |upHead|
      && |upTail| == |upHead|
      && forall t | 0 <= t < n :: upFirstOut[t] <= upFirstOut[t + 1]
    }

    /** The arcs of one rank: strictly ascending heads above the rank itself. */
    predicate ValidBucket(n: nat, t: nat)
      requires Dimensions(n) && t < n && upFirstOut[t + 1] <= |upHead|
    {
      && (forall a | upFirstOut[t] <= a < upFirstOut[t + 1] :: upTail[a] == t && t < upHead[a] < n)
      && (forall a, b | upFirstOut[t] <= a < b < upFirstOut[t + 1] :: upHead[a] < upHead[b])
    }

    /** What the loader accepts. */
    predicate Valid(n: nat) {
      && Permutation(n, rank)
      && Dimensions(n)
      && (forall v | 0 <= v < n :: order[rank[v]] == v)
      && CsrBounds()
      && forall t | 0 <= t < n :: ValidBucket(n, t)
    }

    /** Arc a goes up from x to y. */
    predicate ArcIs(a: nat, x: nat, y: nat) {
      a < |upHead| && a < |upTail| && upTail[a] == x && upHead[a] == y
    }

    ghost predicate HasArc(x: nat, y: nat) {
      exists a: nat :: ArcIs(a, x, y)
    }
  }

  predicate Permutation(n: nat, rank: seq<nat>) {
    |rank| == n && AllBelow(rank, n) && Distinct(rank)
  }

  /** Binary search in s[lo..hi]. */
  function BinarySearch(s: seq<nat>, lo: nat, hi: nat, key: nat): (r: Option<nat>)
    requires lo <= hi <= |s|
    ensures r.Some? ==> lo <= r.value < hi && s[r.value] == key
    ensures r.None? && (forall i, j | lo <= i < j < hi :: s[i] < s[j]) ==> forall i | lo <= i < hi :: s[i] != key
    decreases hi - lo
  {
    if lo == hi then None
    else
      var mid := (lo + hi) / 2;
      if s[mid] == key then Some(mid)
      else if s[mid] < key then BinarySearch(s, mid + 1, hi, key)
      else BinarySearch(s, lo, mid, key)
  }

  lemma {:induction false} OffsetsBounded(c: CchStructure, n: nat, t: nat)
    requires c.Dimensions(n) && t <= n
    ensures c.upFirstOut[t] <= |c.upHead|
    decreases n - t
  {
    if t < n {
      OffsetsBounded(c, n, t + 1);
    }
  }

  lemma ValidCsrBounds(c: CchStructure, n: nat)
    requires c.Dimensions(n)
    ensures c.CsrBounds()
  {
    forall t | 0 <= t <= n
      ensures c.upFirstOut[t] <= |c.upHead|
    {
      OffsetsBounded(c, n, t);
    }
  }

  /** Every arc lies in the bucket of its own tail. */
  lemma ArcBucket(c: CchStructure, n: nat, a: nat)
    requires c.Valid(n) && a < |c.upHead|
    ensures c.upTail[a] < c.upHead[a] < n
    ensures c.upFirstOut[c.upTail[a]] <= a < c.upFirstOut[c.upTail[a] + 1]
  {
    var t := Bucket(c, n, a, n);
    assert c.ValidBucket(n, t);
  }

  lemma {:induction false} Bucket(c: CchStructure, n: nat, a: nat, hi: nat) returns (t: nat)
    requires c.Dimensions(n) && 0 < hi <= n && a < c.upFirstOut[hi]
    ensures t < hi && c.upFirstOut[t] <= a < c.upFirstOut[t + 1]
  {
    if c.upFirstOut[hi - 1] <= a {
      t := hi - 1;
    } else {
      t := Bucket(c, n, a, hi - 1);
    }
  }

  /** The lookup finds an arc exactly when there is one, and there is one only. */
  lemma FindArcIff(c: CchStructure, n: nat, x: nat, y: nat)
    requires c.Valid(n)
    ensures c.CsrBounds()
    ensures c.FindArc(x, y).Some? <==> c.HasArc(x, y)
    ensures forall a: nat :: c.ArcIs(a, x, y) <==> c.FindArc(x, y) == Some(a)
  {
    forall a: nat | c.ArcIs(a, x, y)
      ensures c.FindArc(x, y) == Some(a)
    {
      ArcBucket(c, n, a);
      assert c.ValidBucket(n, x);
    }
    if c.FindArc(x, y).Some? {
      assert c.ValidBucket(n, x);
      assert c.ArcIs(c.FindArc(x, y).value, x, y);
    }
  }

  /** Arc indices follow the tail ranks. */
  lemma LowerTailFirst(c: CchStructure, n: nat, a: nat, b: nat)
    requires c.Valid(n) && a < |c.upHead| && b < |c.upHead| && c.upTail[a] < c.upTail[b]
    ensures a < b
  {
    ArcBucket(c, n, a);
    ArcBucket(c, n, b);
    OffsetsAscend(c, n, c.upTail[a] + 1, c.upTail[b]);
  }

  lemma {:induction false} OffsetsAscend(c: CchStructure, n: nat, s: nat, t: nat)
    requires c.Dimensions(n) && s <= t <= n
    ensures c.upFirstOut[s] <= c.upFirstOut[t]
    decreases t
  {
    if s < t {
      OffsetsAscend(c, n, s, t - 1);
    }
  }

  /** The loader's permutation check, with its array of seen flags. */
  method ValidateRank(n: nat, rank: seq<nat>) returns (r: Result<()>)
    ensures r.Ok? <==> Permutation(n, rank)
    ensures r.Err? ==> r.error.InvalidPack?
  {
    if |rank| != n {
      return Err(InvalidPack("CCH rank count differs from node count"));
    }
    var seen := new bool[n](_ => false);
    for i := 0 to |rank|
      invariant AllBelow(rank[..i], n) && Distinct(rank[..i])
      invariant forall x | 0 <= x < n :: seen[x] <==> x in rank[..i]
    {
      var value := rank[i];
      assert rank[..i + 1] == rank[..i] + [value];
      if value >= n {
        return Err(InvalidPack("CCH ranks must be a permutation"));
      }
      if seen[value] {
        return Err(InvalidPack("CCH ranks must be unique"));
      }
      seen[value] := true;
    }
    assert rank[..|rank|] == rank;
    return Ok(());
  }

  /** The loader's structure check. */
  method Validate(c: CchStructure, n: nat) returns (r: Result<()>)
    ensures r.Ok? <==> c.Valid(n)
    ensures r.Err? ==> r.error.InvalidPack?
  {
    var _ :- ValidateRank(n, c.rank);
    if !c.Dimensions(n) {
      return Err(InvalidPack("invalid CCH CSR dimensions"));
    }
    ValidCsrBounds(c, n);
    for t := 0 to n
      invariant forall v | 0 <= v < t :: c.order[c.rank[v]] == v
      invariant forall u | 0 <= u < t :: c.ValidBucket(n, u)
    {
      if c.order[c.rank[t]] != t {
        return Err(InvalidPack("CCH rank/order mismatch"));
      }
      var ok := ValidateBucket(c, n, t);
      if !ok {
        return Err(InvalidPack("invalid upward CCH arcs"));
      }
    }
    return Ok(());
  }

  /** One rank's slice: neighbouring heads ascend, every head is above the
      rank, every tail is the rank. */
  method ValidateBucket(c: CchStructure, n: nat, t: nat) returns (ok: bool)
    requires c.Dimensions(n) && t < n && c.upFirstOut[t + 1] <= |c.upHead|
    ensures ok <==> c.ValidBucket(n, t)
  {
    var start, end := c.upFirstOut[t], c.upFirstOut[t + 1];
    for a := start to end
      invariant forall b | start <= b < a :: c.upTail[b] == t && t < c.upHead[b] < n
      invariant forall b, d | start <= b < d < a :: c.upHead[b] < c.upHead[d]
    {
      if a > start && c.upHead[a - 1] >= c.upHead[a] {
        return false;
      }
      if c.upHead[a] >= n || c.upHead[a] <= t || c.upTail[a] != t {
        return false;
      }
    }
    return true;
  }
}
