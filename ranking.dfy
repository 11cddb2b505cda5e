/** The nearest-car-park list of `handleSuccess`: every car park is copied with
    its distance from the user attached, the copies are sorted by ascending
    distance with a stable sort, and the first five are shown. The distance
    itself (a haversine formula on floating point) is supplied as
    `distanceTo(position)`. */
module Ranking {
  import opened Seqs
  import opened Carparks

  /** How many car parks the list shows. */
  const NEAREST_COUNT: nat := 5

  /** `{ ...carpark, distance }` for every car park, in list order. */
  function WithDistances(all: seq<Carpark>, distanceTo: LatLon -> real): seq<Carpark> {
    seq(|all|, i requires 0 <= i < |all| => all[i].(distance := distanceTo(all[i].pos)))
  }

  predicate SortedByDistance(s: seq<Carpark>) {
    forall i, j :: 0 <= i < j < |s| ==> s[i].distance <= s[j].distance
  }

  /** Inserts `c` before the first record that is at least as far away. */
  function InsertByDistance(c: Carpark, s: seq<Carpark>): (r: seq<Carpark>)
    ensures |r| == |s| + 1
  {
    if s == [] || c.distance <= s[0].distance then [c] + s
    else [s[0]] + InsertByDistance(c, s[1..])
  }

  /** `sort((a, b) => a.distance - b.distance)`: a stable insertion sort. */
  function SortByDistance(s: seq<Carpark>): (r: seq<Carpark>)
    ensures |r| == |s|
  {
    if s == [] then [] else InsertByDistance(s[0], SortByDistance(s[1..]))
  }

  /** The records at distance `d`, in their order. */
  function AtDistance(s: seq<Carpark>, d: real): seq<Carpark> {
    Filter(s, (c: Carpark) => c.distance == d)
  }

  /** The list `handleSuccess` renders: `slice(0, 5)` of the sorted copies. */
  function Nearest(all: seq<Carpark>, distanceTo: LatLon -> real): seq<Carpark> {
    var sorted := SortByDistance(WithDistances(all, distanceTo));
    sorted[..Min(NEAREST_COUNT, |sorted|)]
  }

  lemma SortedCons(c: Carpark, s: seq<Carpark>)
    requires SortedByDistance(s)
    requires forall j :: 0 <= j < |s| ==> c.distance <= s[j].distance
    ensures SortedByDistance([c] + s)
  {
    forall i, j | 0 <= i < j < |[c] + s| ensures ([c] + s)[i].distance <= ([c] + s)[j].distance {
      if i > 0 { assert ([c] + s)[i] == s[i - 1]; }
      assert ([c] + s)[j] == s[j - 1];
    }
  }

  lemma {:induction false} InsertPermutes(c: Carpark, s: seq<Carpark>)
    ensures multiset(InsertByDistance(c, s)) == multiset(s) + multiset{c}
  {
    if s != [] && c.distance > s[0].distance {
      InsertPermutes(c, s[1..]);
      assert s == [s[0]] + s[1..];
    }
  }

  lemma {:induction false} InsertSorted(c: Carpark, s: seq<Carpark>)
    requires SortedByDistance(s)
    ensures SortedByDistance(InsertByDistance(c, s))
  {
    if s != [] && c.distance > s[0].distance {
      InsertSorted(c, s[1..]);
      InsertPermutes(c, s[1..]);
      var rest := InsertByDistance(c, s[1..]);
      forall j | 0 <= j < |rest| ensures s[0].distance <= rest[j].distance {
        assert rest[j] in multiset(rest);
        if rest[j] != c {
          var k :| 0 <= k < |s[1..]| && s[1..][k] == rest[j];
          assert s[k + 1] == rest[j];
        }
      }
      SortedCons(s[0], rest);
    }
  }

  /** The sort orders by non-decreasing distance ... */
  lemma {:induction false} SortSorted(s: seq<Carpark>)
    ensures SortedByDistance(SortByDistance(s))
  {
    if s != [] {
      SortSorted(s[1..]);
      InsertSorted(s[0], SortByDistance(s[1..]));
    }
  }

  /** ... and is a permutation. */
  lemma {:induction false} SortPermutes(s: seq<Carpark>)
    ensures multiset(SortByDistance(s)) == multiset(s)
  {
    if s != [] {
      calc {
        multiset(SortByDistance(s));
      == { InsertPermutes(s[0], SortByDistance(s[1..])); }
        multiset(SortByDistance(s[1..])) + multiset{s[0]};
      == { SortPermutes(s[1..]); }
        multiset(s[1..]) + multiset{s[0]};
      == { assert s == [s[0]] + s[1..]; }
        multiset(s);
      }
    }
  }

  lemma AtDistanceAppend(a: seq<Carpark>, b: seq<Carpark>, d: real)
    ensures AtDistance(a + b, d) == AtDistance(a, d) + AtDistance(b, d)
  {
    FilterAppend(a, b, (x: Carpark) => x.distance == d);
  }

  lemma AtDistanceSingle(x: Carpark, d: real)
    ensures AtDistance([x], d) == if x.distance == d then [x] else []
  {
  }

  lemma SwapEmpty(a: seq<Carpark>, b: seq<Carpark>, x: seq<Carpark>)
    requires a == [] || b == []
    ensures a + (b + x) == b + (a + x)
  {
    if a == [] { assert a + (b + x) == b + x; } else { assert b + (a + x) == a + x; }
  }

  lemma {:induction false} InsertStable(c: Carpark, s: seq<Carpark>, d: real)
    requires SortedByDistance(s)
    ensures AtDistance(InsertByDistance(c, s), d) == AtDistance([c], d) + AtDistance(s, d)
  {
    if s == [] || c.distance <= s[0].distance {
      AtDistanceAppend([c], s, d);
    } else {
      var rest := InsertByDistance(c, s[1..]);
      var ac, a0, at := AtDistance([c], d), AtDistance([s[0]], d), AtDistance(s[1..], d);
      calc {
        AtDistance(InsertByDistance(c, s), d);
      == { AtDistanceAppend([s[0]], rest, d); }
        a0 + AtDistance(rest, d);
      == { InsertStable(c, s[1..], d); }
        a0 + (ac + at);
      == { AtDistanceSingle(c, d); AtDistanceSingle(s[0], d); SwapEmpty(a0, ac, at); }
        ac + (a0 + at);
      == { AtDistanceAppend([s[0]], s[1..], d); assert [s[0]] + s[1..] == s; }
        ac + AtDistance(s, d);
      }
    }
  }

  /** The sort is stable: for every distance, the records at that distance
      keep their original relative order. */
  lemma {:induction false} SortStable(s: seq<Carpark>, d: real)
    ensures AtDistance(SortByDistance(s), d) == AtDistance(s, d)
  {
    if s != [] {
      calc {
        AtDistance(SortByDistance(s), d);
      == { SortSorted(s[1..]); InsertStable(s[0], SortByDistance(s[1..]), d); }
        AtDistance([s[0]], d) + AtDistance(SortByDistance(s[1..]), d);
      == { SortStable(s[1..], d); }
        AtDistance([s[0]], d) + AtDistance(s[1..], d);
      == { AtDistanceAppend([s[0]], s[1..], d); assert [s[0]] + s[1..] == s; }
        AtDistance(s, d);
      }
    }
  }

  lemma PrefixStable(w: seq<Carpark>, k: nat, d: real)
    requires k <= |w|
    ensures var r := SortByDistance(w)[..k];
      AtDistance(r, d) <= AtDistance(w, d)
  {
    var sorted := SortByDistance(w);
    assert sorted == sorted[..k] + sorted[k..];
    SortStable(w, d);
    AtDistanceAppend(sorted[..k], sorted[k..], d);
    var a, b := AtDistance(sorted[..k], d), AtDistance(sorted[k..], d);
    assert (a + b)[..|a|] == a;
  }

  /** Cutting a sorted list after `k` records keeps a sorted list no record of
      which is farther than any record cut off. */
  lemma PrefixFarther(sorted: seq<Carpark>, k: nat)
    requires SortedByDistance(sorted) && k <= |sorted|
    ensures SortedByDistance(sorted[..k])
    ensures multiset(sorted[..k]) + multiset(sorted[k..]) == multiset(sorted)
    ensures forall c, i :: c in multiset(sorted[k..]) && 0 <= i < k ==> sorted[i].distance <= c.distance
  {
    assert sorted == sorted[..k] + sorted[k..];
    forall c, i | c in multiset(sorted[k..]) && 0 <= i < k ensures sorted[i].distance <= c.distance {
      var j :| k <= j < |sorted| && sorted[j] == c;
    }
  }

  /** Every ranked record is a copy of a car park with only its distance replaced. */
  lemma CopiesOfInput(all: seq<Carpark>, distanceTo: LatLon -> real, c: Carpark)
    requires c in multiset(WithDistances(all, distanceTo))
    ensures exists j :: 0 <= j < |all| && c == all[j].(distance := distanceTo(all[j].pos))
  {
    var w := WithDistances(all, distanceTo);
    var j :| 0 <= j < |w| && w[j] == c;
  }

  /** The nearest list holds min(5, n) records, in non-decreasing distance,
      each a car park with its distance attached. */
  lemma NearestSorted(all: seq<Carpark>, distanceTo: LatLon -> real)
    ensures |Nearest(all, distanceTo)| == Min(NEAREST_COUNT, |all|)
    ensures SortedByDistance(Nearest(all, distanceTo))
    ensures multiset(Nearest(all, distanceTo)) <= multiset(WithDistances(all, distanceTo))
  {
    var w := WithDistances(all, distanceTo);
    SortSorted(w);
    SortPermutes(w);
    PrefixFarther(SortByDistance(w), Min(NEAREST_COUNT, |w|));
  }

  /** Every car park left out of the nearest list is at least as far away as
      every car park in it. */
  lemma NearestAreClosest(all: seq<Carpark>, distanceTo: LatLon -> real, c: Carpark, i: int)
    requires c in multiset(WithDistances(all, distanceTo)) - multiset(Nearest(all, distanceTo))
    requires 0 <= i < |Nearest(all, distanceTo)|
    ensures Nearest(all, distanceTo)[i].distance <= c.distance
  {
    var w := WithDistances(all, distanceTo);
    var sorted := SortByDistance(w);
    var k := Min(NEAREST_COUNT, |w|);
    SortSorted(w);
    SortPermutes(w);
    PrefixFarther(sorted, k);
    assert c in multiset(sorted[k..]);
  }

  /** Among car parks at the same distance, the nearest list keeps the first
      ones in list order. */
  lemma NearestKeepsListOrder(all: seq<Carpark>, distanceTo: LatLon -> real, d: real)
    ensures AtDistance(Nearest(all, distanceTo), d) <= AtDistance(WithDistances(all, distanceTo), d)
  {
    var w := WithDistances(all, distanceTo);
    PrefixStable(w, Min(NEAREST_COUNT, |w|), d);
  }
}
