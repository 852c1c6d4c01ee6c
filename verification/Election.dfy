/** findPopular: the value held by more than half of a group of entries,
    or a default when no value has such a majority. */
module Election {

  /** How many of `vals` equal `v`. */
  function Count<T(==,!new)>(vals: seq<T>, v: T): (n: nat)
    ensures n <= |vals|
  {
    if vals == [] then 0
    else Count(vals[..|vals| - 1], v) + (if vals[|vals| - 1] == v then 1 else 0)
  }

  /** `v` is held by more than half of `vals`: its count exceeds `total / 2`. */
  predicate IsMajority<T(==,!new)>(vals: seq<T>, v: T)
  {
    2 * Count(vals, v) > |vals|
  }

  /** The result findPopular promises: the majority value when there is one,
      the default otherwise. */
  ghost predicate Elected<T(!new)>(vals: seq<T>, d: T, r: T)
  {
    if exists v :: IsMajority(vals, v) then IsMajority(vals, r) else r == d
  }

  /** Two different values together occur no more often than there are
      entries. */
  lemma {:induction false} CountPair<T(!new)>(vals: seq<T>, v: T, w: T)
    requires v != w
    ensures Count(vals, v) + Count(vals, w) <= |vals|
  {
    if vals != [] {
      CountPair(vals[..|vals| - 1], v, w);
    }
  }

  /** There is at most one majority value. */
  lemma MajorityUnique<T(!new)>(vals: seq<T>, v: T, w: T)
    requires IsMajority(vals, v) && IsMajority(vals, w)
    ensures v == w
  {
    if v != w {
      CountPair(vals, v, w);
    }
  }

  /** A value that is counted at all occurs among the entries. */
  lemma {:induction false} CountPositiveOccurs<T(!new)>(vals: seq<T>, v: T)
    requires Count(vals, v) > 0
    ensures exists i :: 0 <= i < |vals| && vals[i] == v
  {
    if vals[|vals| - 1] != v {
      CountPositiveOccurs(vals[..|vals| - 1], v);
      var i :| 0 <= i < |vals| - 1 && vals[..|vals| - 1][i] == v;
      assert vals[i] == v;
    }
  }

  /** The first of `vals[i..]` that is a majority of all of `vals`. */
  function ElectFrom<T(==,!new)>(vals: seq<T>, i: nat, d: T): (r: T)
    requires i <= |vals|
    ensures (exists k :: i <= k < |vals| && IsMajority(vals, vals[k])) ==> IsMajority(vals, r)
    ensures (forall k :: i <= k < |vals| ==> !IsMajority(vals, vals[k])) ==> r == d
    decreases |vals| - i
  {
    if i == |vals| then d
    else if IsMajority(vals, vals[i]) then vals[i]
    else ElectFrom(vals, i + 1, d)
  }

  /** The majority value of `vals`, or `d`. */
  function Elect<T(==,!new)>(vals: seq<T>, d: T): (r: T)
    ensures Elected(vals, d, r)
  {
    MajorityOccurs(vals);
    ElectFrom(vals, 0, d)
  }

  /** A majority value is one of the entries. */
  lemma MajorityOccurs<T(!new)>(vals: seq<T>)
    ensures (exists v :: IsMajority(vals, v)) ==> exists k :: 0 <= k < |vals| && IsMajority(vals, vals[k])
  {
    if exists v :: IsMajority(vals, v) {
      var v :| IsMajority(vals, v);
      CountPositiveOccurs(vals, v);
    }
  }

  /** Elected pins the result down: whatever satisfies it is Elect's result. */
  lemma ElectedUnique<T(!new)>(vals: seq<T>, d: T, r: T)
    requires Elected(vals, d, r)
    ensures r == Elect(vals, d)
  {
    if exists v :: IsMajority(vals, v) {
      MajorityUnique(vals, r, Elect(vals, d));
    }
  }

  /** When every entry holds the same value, that value is elected. */
  lemma {:induction false} ElectUnanimous<T(!new)>(vals: seq<T>, x: T, d: T)
    requires vals != []
    requires forall i :: 0 <= i < |vals| ==> vals[i] == x
    ensures Elect(vals, d) == x
  {
    CountAll(vals, x);
    ElectedUnique(vals, d, x);
  }

  lemma {:induction false} CountAll<T(!new)>(vals: seq<T>, x: T)
    requires forall i :: 0 <= i < |vals| ==> vals[i] == x
    ensures Count(vals, x) == |vals|
  {
    if vals != [] {
      CountAll(vals[..|vals| - 1], x);
    }
  }

  /** A result other than the default is one of the entries. */
  lemma ElectOccurs<T(!new)>(vals: seq<T>, d: T)
    ensures Elect(vals, d) != d ==> Elect(vals, d) in vals
  {
    var r := Elect(vals, d);
    if r != d {
      CountPositiveOccurs(vals, r);
    }
  }

  /** An even split between two values elects neither. */
  lemma ElectTie<T(!new)>(vals: seq<T>, a: T, b: T, d: T)
    requires a != b && 2 * Count(vals, a) == |vals| && 2 * Count(vals, b) == |vals|
    ensures Elect(vals, d) == d
  {
    forall v ensures !IsMajority(vals, v) {
      if v != a {
        CountPair(vals, v, a);
      }
    }
  }

  /** The smallest such split: `[a, a, b, b]` elects the default. */
  lemma ElectTieTwoTwo<T(!new)>(a: T, b: T, d: T)
    requires a != b
    ensures Elect([a, a, b, b], d) == d
  {
    var vals := [a, a, b, b];
    assert vals[..3] == [a, a, b] && vals[..3][..2] == [a, a] && vals[..3][..2][..1] == [a];
    assert Count([a], a) == 1 && Count([a], b) == 0;
    assert Count([a, a], a) == 2 && Count([a, a], b) == 0;
    assert Count([a, a, b], a) == 2 && Count([a, a, b], b) == 1;
    assert Count(vals, a) == 2 && Count(vals, b) == 2;
    ElectTie(vals, a, b, d);
  }

  /** findPopular's loop: counts each value in a table, with the number of
      entries seen, then keeps the most frequent value if it is held by
      more than half of them. */
  method FindPopular<T(==,!new)>(vals: seq<T>, d: T) returns (r: T)
    ensures r == Elect(vals, d)
  {
    var counts: map<T, nat> := map[];
    var total := 0;
    for i := 0 to |vals|
      invariant total == i
      invariant forall v :: v in counts <==> Count(vals[..i], v) > 0
      invariant forall v :: v in counts ==> counts[v] == Count(vals[..i], v)
    {
      var v := vals[i];
      assert vals[..i + 1][..i] == vals[..i];
      counts := counts[v := if v in counts then counts[v] + 1 else 1];
      total := total + 1;
    }
    assert vals[..|vals|] == vals;
    // The most frequent key: popular[0] after sorting by descending count.
    var best: T := d;
    var bestCount: nat := 0;
    var rest := counts.Keys;
    while rest != {}
      invariant rest <= counts.Keys
      invariant bestCount == 0 || (best in counts && counts[best] == bestCount)
      invariant forall v :: v in counts && v !in rest ==> counts[v] <= bestCount
      decreases |rest|
    {
      var v :| v in rest;
      if counts[v] > bestCount {
        best, bestCount := v, counts[v];
      }
      rest := rest - {v};
    }
    if bestCount > 0 && 2 * bestCount > total {
      r := best;
      assert IsMajority(vals, best);
      ElectedUnique(vals, d, r);
    } else {
      r := d;
      forall v ensures !IsMajority(vals, v) {
        if v in counts { assert Count(vals, v) <= bestCount; }
      }
      ElectedUnique(vals, d, r);
    }
  }
}
