/** An insertion-ordered tally keyed by string, the model of the
    `Record<string, …>` accumulators the admin dashboard builds with
    `stats[key] = (stats[key] || 0) + delta`: a key seen for the first time is
    appended, a known key is updated in place, and keys are listed in
    first-insertion order. That is the order of `Object.entries` for keys
    that are not array indices; array-index keys ("2", "2025"), which
    `Object.entries` lists first in numeric order, are not distinguished.

    Each row carries two accumulators, minutes and a count; a chart uses the
    ones it needs. */
module Tally {

  datatype Row = Row(key: string, minutes: int, count: int)

  /** The keys of a tally, in order. */
  function Keys(t: seq<Row>): (ks: seq<string>)
    ensures |ks| == |t|
    ensures forall i :: 0 <= i < |t| ==> ks[i] == t[i].key
  {
    if |t| == 0 then [] else [t[0].key] + Keys(t[1..])
  }

  predicate DistinctKeys(t: seq<Row>) {
    |t| == 0 || (t[0].key !in Keys(t[1..]) && DistinctKeys(t[1..]))
  }

  /** Minutes accumulated under key `k` (0 for an absent key). */
  function MinutesAt(t: seq<Row>, k: string): int {
    if |t| == 0 then 0
    else (if t[0].key == k then t[0].minutes else 0) + MinutesAt(t[1..], k)
  }

  /** Count accumulated under key `k` (0 for an absent key). */
  function CountAt(t: seq<Row>, k: string): int {
    if |t| == 0 then 0
    else (if t[0].key == k then t[0].count else 0) + CountAt(t[1..], k)
  }

  function TotalMinutes(t: seq<Row>): int {
    if |t| == 0 then 0 else t[0].minutes + TotalMinutes(t[1..])
  }

  function TotalCount(t: seq<Row>): int {
    if |t| == 0 then 0 else t[0].count + TotalCount(t[1..])
  }

  /** Adds `m` minutes and `c` to the count of key `k`: a new key goes at
      the end, a known key keeps its place. */
  function Add(t: seq<Row>, k: string, m: int, c: int): (r: seq<Row>)
    ensures Keys(r) == if k in Keys(t) then Keys(t) else Keys(t) + [k]
    ensures TotalMinutes(r) == TotalMinutes(t) + m
    ensures TotalCount(r) == TotalCount(t) + c
  {
    if |t| == 0 then
      var r := [Row(k, m, c)];
      assert r[1..] == [];
      r
    else if t[0].key == k then
      var r := [Row(k, t[0].minutes + m, t[0].count + c)] + t[1..];
      assert r[1..] == t[1..];
      r
    else
      var rest := Add(t[1..], k, m, c);
      var r := [t[0]] + rest;
      assert r[1..] == rest;
      r
  }

  lemma AddAtAll(t: seq<Row>, k: string, m: int, c: int)
    ensures forall k' :: MinutesAt(Add(t, k, m, c), k') == MinutesAt(t, k') + (if k' == k then m else 0)
    ensures forall k' :: CountAt(Add(t, k, m, c), k') == CountAt(t, k') + (if k' == k then c else 0)
  {
    forall k' {
      AddAt(t, k, m, c, k');
    }
  }

  lemma {:induction false} AddAt(t: seq<Row>, k: string, m: int, c: int, k': string)
    ensures MinutesAt(Add(t, k, m, c), k') == MinutesAt(t, k') + (if k' == k then m else 0)
    ensures CountAt(Add(t, k, m, c), k') == CountAt(t, k') + (if k' == k then c else 0)
  {
    var r := Add(t, k, m, c);
    if |t| == 0 {
      assert r[1..] == [];
    } else if t[0].key == k {
      assert r[1..] == t[1..];
    } else {
      AddAt(t[1..], k, m, c, k');
      assert r[1..] == Add(t[1..], k, m, c);
    }
  }

  lemma {:induction false} AddDistinct(t: seq<Row>, k: string, m: int, c: int)
    requires DistinctKeys(t)
    ensures DistinctKeys(Add(t, k, m, c))
  {
    var r := Add(t, k, m, c);
    if |t| == 0 {
      assert r[1..] == [];
    } else if t[0].key == k {
      assert r[1..] == t[1..];
    } else {
      AddDistinct(t[1..], k, m, c);
      assert r[1..] == Add(t[1..], k, m, c);
    }
  }

  /** In a tally with distinct keys the value at a key is that key's row. */
  lemma {:induction false} AtRow(t: seq<Row>, i: nat)
    requires DistinctKeys(t) && i < |t|
    ensures MinutesAt(t, t[i].key) == t[i].minutes
    ensures CountAt(t, t[i].key) == t[i].count
  {
    if i == 0 {
      AbsentIsZero(t[1..], t[0].key);
    } else {
      AtRow(t[1..], i - 1);
      assert t[0].key != t[i].key by {
        assert Keys(t[1..])[i - 1] == t[i].key;
      }
    }
  }

  lemma {:induction false} ZeroRows(t: seq<Row>, k: string)
    requires forall i :: 0 <= i < |t| ==> t[i].minutes == 0 && t[i].count == 0
    ensures MinutesAt(t, k) == 0 && CountAt(t, k) == 0
  {
    if |t| > 0 {
      ZeroRows(t[1..], k);
    }
  }

  lemma {:induction false} AbsentIsZero(t: seq<Row>, k: string)
    requires k !in Keys(t)
    ensures MinutesAt(t, k) == 0 && CountAt(t, k) == 0
  {
    if |t| > 0 {
      AbsentIsZero(t[1..], k);
    }
  }

  // ---------------------------------------------------------------------
  // Building a tally from a sequence of records
  // ---------------------------------------------------------------------

  /** Sum of `mins(e)` over the records `e` of `es` that are kept and filed
      under key `k`. */
  function KeyedMinutes<E>(es: seq<E>, keep: E -> bool, key: E -> string, mins: E -> int, k: string): int {
    if |es| == 0 then 0
    else
      var e := es[|es| - 1];
      KeyedMinutes(es[..|es| - 1], keep, key, mins, k) + (if keep(e) && key(e) == k then mins(e) else 0)
  }

  /** Sum of `cnt(e)` over the records `e` of `es` that are kept and filed
      under key `k`. */
  function KeyedCount<E>(es: seq<E>, keep: E -> bool, key: E -> string, cnt: E -> int, k: string): int {
    if |es| == 0 then 0
    else
      var e := es[|es| - 1];
      KeyedCount(es[..|es| - 1], keep, key, cnt, k) + (if keep(e) && key(e) == k then cnt(e) else 0)
  }

  /** Sum of `f(e)` over the kept records, whatever their key. */
  function KeptSum<E>(es: seq<E>, keep: E -> bool, f: E -> int): int {
    if |es| == 0 then 0
    else
      var e := es[|es| - 1];
      KeptSum(es[..|es| - 1], keep, f) + (if keep(e) then f(e) else 0)
  }

  /** Starting from `seed`, files every kept record of `es`, in order, under
      `key(e)` with `mins(e)` minutes and `cnt(e)` counted: the loop
      `es.forEach(e => { if (keep(e)) stats[key(e)] += … })`. */
  function Build<E>(seed: seq<Row>, es: seq<E>, keep: E -> bool, key: E -> string,
                    mins: E -> int, cnt: E -> int): (t: seq<Row>)
    requires DistinctKeys(seed)
    ensures DistinctKeys(t)
  {
    if |es| == 0 then seed
    else
      var e := es[|es| - 1];
      var t0 := Build(seed, es[..|es| - 1], keep, key, mins, cnt);
      if keep(e) then
        AddDistinct(t0, key(e), mins(e), cnt(e));
        Add(t0, key(e), mins(e), cnt(e))
      else
        t0
  }

  /** A key is present after building iff it was seeded or some kept
      record is filed under it; a build whose records all land on seeded
      keys keeps the seed's keys in the seed's order. */
  lemma {:induction false} BuildKeys<E>(seed: seq<Row>, es: seq<E>, keep: E -> bool, key: E -> string,
                                        mins: E -> int, cnt: E -> int)
    requires DistinctKeys(seed)
    ensures forall k ::
              k in Keys(Build(seed, es, keep, key, mins, cnt)) <==>
              k in Keys(seed) || exists i :: 0 <= i < |es| && keep(es[i]) && key(es[i]) == k
    ensures (forall i :: 0 <= i < |es| && keep(es[i]) ==> key(es[i]) in Keys(seed)) ==>
      Keys(Build(seed, es, keep, key, mins, cnt)) == Keys(seed)
  {
    if |es| > 0 {
      var init := es[..|es| - 1];
      BuildKeys(seed, init, keep, key, mins, cnt);
      assert forall i :: 0 <= i < |init| ==> init[i] == es[i];
    }
  }

  /** The value at every key is the sum over the records filed under it. */
  lemma {:induction false} BuildAt<E>(seed: seq<Row>, es: seq<E>, keep: E -> bool, key: E -> string,
                                      mins: E -> int, cnt: E -> int)
    requires DistinctKeys(seed)
    ensures forall k ::
              MinutesAt(Build(seed, es, keep, key, mins, cnt), k) == MinutesAt(seed, k) + KeyedMinutes(es, keep, key, mins, k)
    ensures forall k ::
              CountAt(Build(seed, es, keep, key, mins, cnt), k) == CountAt(seed, k) + KeyedCount(es, keep, key, cnt, k)
  {
    if |es| > 0 {
      var e := es[|es| - 1];
      var t0 := Build(seed, es[..|es| - 1], keep, key, mins, cnt);
      BuildAt(seed, es[..|es| - 1], keep, key, mins, cnt);
      if keep(e) {
        AddAtAll(t0, key(e), mins(e), cnt(e));
      }
    }
  }

  /** Built from a zeroed seed, every row holds exactly the minutes of the
      records filed under its key. */
  lemma {:induction false} BuildRows<E>(seed: seq<Row>, es: seq<E>, keep: E -> bool, key: E -> string,
                                        mins: E -> int, cnt: E -> int)
    requires DistinctKeys(seed)
    requires forall k :: MinutesAt(seed, k) == 0
    ensures var t := Build(seed, es, keep, key, mins, cnt);
            forall i :: 0 <= i < |t| ==> t[i].minutes == KeyedMinutes(es, keep, key, mins, t[i].key)
  {
    var t := Build(seed, es, keep, key, mins, cnt);
    BuildAt(seed, es, keep, key, mins, cnt);
    forall i | 0 <= i < |t| ensures t[i].minutes == KeyedMinutes(es, keep, key, mins, t[i].key) {
      AtRow(t, i);
    }
  }

  /** The totals are the sums over all kept records: each one lands in
      exactly one row. */
  lemma {:induction false} BuildTotals<E>(seed: seq<Row>, es: seq<E>, keep: E -> bool, key: E -> string,
                                          mins: E -> int, cnt: E -> int)
    requires DistinctKeys(seed)
    ensures TotalMinutes(Build(seed, es, keep, key, mins, cnt)) == TotalMinutes(seed) + KeptSum(es, keep, mins)
    ensures TotalCount(Build(seed, es, keep, key, mins, cnt)) == TotalCount(seed) + KeptSum(es, keep, cnt)
  {
    if |es| > 0 {
      BuildTotals(seed, es[..|es| - 1], keep, key, mins, cnt);
    }
  }
}
