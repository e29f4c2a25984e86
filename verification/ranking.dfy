/** The "top subjects" ranking: tally rows sorted by minutes, largest
    first, cut to the first five. The sort is stable (a new row goes after
    every row with at least as many minutes), as `Array.prototype.sort` is. */
module Ranking {
  import opened Tally
  import opened Seqs

  const TopN: nat := 5

  predicate SortedDesc(s: seq<Row>) {
    forall i, j :: 0 <= i < j < |s| ==> s[i].minutes >= s[j].minutes
  }

  /** Inserts `x` after every row of `s` that has at least its minutes. */
  function Insert(s: seq<Row>, x: Row): (r: seq<Row>)
    requires SortedDesc(s)
    ensures SortedDesc(r)
    ensures multiset(r) == multiset(s) + multiset{x}
    ensures |r| == |s| + 1
  {
    if |s| == 0 then [x]
    else if s[|s| - 1].minutes >= x.minutes then s + [x]
    else
      var init := s[..|s| - 1];
      var last := s[|s| - 1];
      assert s == init + [last];
      var r := Insert(init, x) + [last];
      assert forall i :: 0 <= i < |r| - 1 ==> r[i] in multiset(init) + multiset{x};
      assert forall i :: 0 <= i < |r| - 1 ==> r[i].minutes >= last.minutes by {
        forall i | 0 <= i < |r| - 1 ensures r[i].minutes >= last.minutes {
          var y := r[i];
          assert y in multiset(init) + multiset{x};
          if y != x {
            assert y in init;
          }
        }
      }
      r
  }

  function Sort(s: seq<Row>): (r: seq<Row>)
    ensures SortedDesc(r)
    ensures multiset(r) == multiset(s)
    ensures |r| == |s|
  {
    if |s| == 0 then []
    else
      assert s == s[..|s| - 1] + [s[|s| - 1]];
      Insert(Sort(s[..|s| - 1]), s[|s| - 1])
  }

  /** `r` is `s` with `x` placed at position `k`, after every row with at
      least its minutes and before every row with fewer. */
  predicate PlacedAt(s: seq<Row>, x: Row, k: int, r: seq<Row>) {
    && 0 <= k <= |s| && r == s[..k] + [x] + s[k..]
    && (forall j :: 0 <= j < k ==> s[j].minutes >= x.minutes)
    && (forall j :: k <= j < |s| ==> s[j].minutes < x.minutes)
  }

  /** `Insert` puts `x` right after the rows with at least its minutes,
      which are exactly the rows before it. */
  lemma {:induction false} InsertPlaces(s: seq<Row>, x: Row)
    requires SortedDesc(s)
    ensures exists k :: PlacedAt(s, x, k, Insert(s, x))
  {
    if |s| == 0 {
      assert PlacedAt(s, x, 0, Insert(s, x));
    } else if s[|s| - 1].minutes >= x.minutes {
      LastPlacement(s, x);
    } else {
      var init := s[..|s| - 1];
      InsertPlaces(init, x);
      var k :| PlacedAt(init, x, k, Insert(init, x));
      ExtendPlacement(s, x, k);
    }
  }

  lemma LastPlacement(s: seq<Row>, x: Row)
    requires SortedDesc(s) && |s| > 0 && s[|s| - 1].minutes >= x.minutes
    ensures PlacedAt(s, x, |s|, Insert(s, x))
  {
    var k := |s|;
    assert s[..k] == s && s[k..] == [];
    forall j | 0 <= j < k ensures s[j].minutes >= x.minutes {
      if j < k - 1 {
        assert s[j].minutes >= s[k - 1].minutes;
      }
    }
  }

  lemma ExtendPlacement(s: seq<Row>, x: Row, k: int)
    requires SortedDesc(s) && |s| > 0 && s[|s| - 1].minutes < x.minutes
    requires PlacedAt(s[..|s| - 1], x, k, Insert(s[..|s| - 1], x))
    ensures PlacedAt(s, x, k, Insert(s, x))
  {
    var init := s[..|s| - 1];
    PlacedSnoc(init, s[|s| - 1], x, k, Insert(init, x));
    assert init + [s[|s| - 1]] == s;
  }

  /** A row with fewer minutes than `x`, appended after a placement, keeps
      `x` where it was. */
  lemma PlacedSnoc(s: seq<Row>, last: Row, x: Row, k: int, r: seq<Row>)
    requires PlacedAt(s, x, k, r) && last.minutes < x.minutes
    ensures PlacedAt(s + [last], x, k, r + [last])
  {
    var t := s + [last];
    assert t[..k] == s[..k];
    assert t[k..] == s[k..] + [last];
  }

  /** Selects the rows with exactly `m` minutes. */
  function MinutesIs(m: int): Row -> bool {
    (x: Row) => x.minutes == m
  }

  /** Among rows with equal minutes, inserting `x` keeps the earlier rows
      first and puts `x` after them, as if it were appended. */
  lemma InsertStable(s: seq<Row>, x: Row, m: int)
    requires SortedDesc(s)
    ensures Filter(Insert(s, x), MinutesIs(m)) == Filter(s + [x], MinutesIs(m))
  {
    InsertPlaces(s, x);
    var k :| PlacedAt(s, x, k, Insert(s, x));
    PlacedStable(s, x, k, Insert(s, x), m);
  }

  lemma PlacedStable(s: seq<Row>, x: Row, k: int, r: seq<Row>, m: int)
    requires PlacedAt(s, x, k, r)
    ensures Filter(r, MinutesIs(m)) == Filter(s + [x], MinutesIs(m))
  {
    var before, after := s[..k], s[k..];
    NothingToPass(s, x, k, r, m);
    assert r == before + [x] + after;
    assert s + [x] == before + after + [x] by {
      assert s == before + after;
    }
    FilterMoveLast(before, x, after, MinutesIs(m));
  }

  /** Either `x` is not selected, or no row after its place is. */
  lemma NothingToPass(s: seq<Row>, x: Row, k: int, r: seq<Row>, m: int)
    requires PlacedAt(s, x, k, r)
    ensures Filter(s[k..], MinutesIs(m)) == [] || Filter([x], MinutesIs(m)) == []
  {
    if x.minutes == m {
      NoneBelow(s, x, k, r);
      FilterDropsAll(s[k..], MinutesIs(m));
    } else {
      FilterSingleton(x, MinutesIs(m));
    }
  }

  /** The rows after the placement all have fewer minutes than `x`. */
  lemma NoneBelow(s: seq<Row>, x: Row, k: int, r: seq<Row>)
    requires PlacedAt(s, x, k, r)
    ensures forall j :: 0 <= j < |s[k..]| ==> !MinutesIs(x.minutes)(s[k..][j])
  {
    forall j | 0 <= j < |s[k..]| ensures !MinutesIs(x.minutes)(s[k..][j]) {
      assert s[k..][j] == s[k + j];
    }
  }

  /** The sort is stable: the rows with any given number of minutes come
      out in the order they went in. */
  lemma {:induction false} SortIsStable(s: seq<Row>, m: int)
    ensures Filter(Sort(s), MinutesIs(m)) == Filter(s, MinutesIs(m))
  {
    if |s| > 0 {
      var init := s[..|s| - 1];
      var last := s[|s| - 1];
      assert s == init + [last];
      SortIsStable(init, m);
      InsertStable(Sort(init), last, m);
      FilterAppend(Sort(init), [last], MinutesIs(m));
      FilterAppend(init, [last], MinutesIs(m));
    }
  }

  /** The ranking shown on the dashboard: at most five rows, largest first,
      drawn from `t`, and no row left out has more minutes than a row shown. */
  function Top(t: seq<Row>): (r: seq<Row>)
    ensures |r| == if |t| < TopN then |t| else TopN
    ensures SortedDesc(r)
    ensures forall x :: x in r ==> x in t
    ensures forall x, y :: x in t && x !in r && y in r ==> x.minutes <= y.minutes
    ensures multiset(r) <= multiset(t)
  {
    var sorted := Sort(t);
    var n := if |sorted| < TopN then |sorted| else TopN;
    PrefixOfSorted(t, sorted, n);
    sorted[..n]
  }

  lemma PrefixOfSorted(t: seq<Row>, sorted: seq<Row>, n: nat)
    requires SortedDesc(sorted) && multiset(sorted) == multiset(t) && n <= |sorted|
    ensures forall x :: x in sorted[..n] ==> x in t
    ensures forall x, y :: x in t && x !in sorted[..n] && y in sorted[..n] ==> x.minutes <= y.minutes
    ensures multiset(sorted[..n]) <= multiset(t)
  {
    var r := sorted[..n];
    assert sorted == r + sorted[n..];
    assert multiset(sorted) == multiset(r) + multiset(sorted[n..]);
    forall x | x in r ensures x in t {
      assert x in multiset(sorted);
    }
    forall x, y | x in t && x !in r && y in r ensures x.minutes <= y.minutes {
      assert x in multiset(t);
      assert x in sorted;
      var j :| 0 <= j < |sorted| && sorted[j] == x;
      var i :| 0 <= i < |r| && r[i] == y;
      assert j >= n;
      assert sorted[i] == y;
    }
  }

  /** Among rows with equal minutes, the ranking keeps the earliest ones
      in tally order: the cut at five drops only later ties. */
  lemma TopKeepsEarliestTies(t: seq<Row>, m: int)
    ensures |Filter(Top(t), MinutesIs(m))| <= |Filter(t, MinutesIs(m))|
    ensures Filter(Top(t), MinutesIs(m))
            == Filter(t, MinutesIs(m))[..|Filter(Top(t), MinutesIs(m))|]
  {
    var sorted := Sort(t);
    var n := if |sorted| < TopN then |sorted| else TopN;
    var p := MinutesIs(m);
    assert Top(t) == sorted[..n];
    assert sorted == sorted[..n] + sorted[n..];
    FilterAppend(sorted[..n], sorted[n..], p);
    SortIsStable(t, m);
  }
}
