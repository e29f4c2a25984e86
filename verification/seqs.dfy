/** Order-preserving selection over sequences, the model of JavaScript's
    `Array.prototype.filter`, counting by a predicate, and the first match,
    the model of `Array.prototype.find`. */
module Seqs {
  import opened Domain

  function Filter<T>(s: seq<T>, p: T -> bool): (r: seq<T>)
    ensures |r| <= |s|
    ensures forall i :: 0 <= i < |r| ==> p(r[i]) && r[i] in s
    ensures forall i :: 0 <= i < |s| && p(s[i]) ==> s[i] in r
    ensures multiset(r) <= multiset(s)
  {
    if |s| == 0 then []
    else
      var init := Filter(s[..|s| - 1], p);
      var last := s[|s| - 1];
      assert s == s[..|s| - 1] + [last];
      if p(last) then init + [last] else init
  }

  /** The number of elements of `s` satisfying `p`. */
  function Count<T>(s: seq<T>, p: T -> bool): nat {
    |Filter(s, p)|
  }

  /** The positions of `s` whose element satisfies `p`. */
  function Positions<T>(s: seq<T>, p: T -> bool): set<nat> {
    set i: nat | i < |s| && p(s[i])
  }

  /** Extending a sequence by one element adds that element's position
      when it satisfies `p`. */
  lemma PositionsSnoc<T>(s: seq<T>, x: T, p: T -> bool)
    ensures Positions(s + [x], p) == Positions(s, p) + (if p(x) then {|s|} else {})
  {
    var b := Positions(s + [x], p);
    var a := Positions(s, p);
    forall i: nat | i in b ensures i in a + (if p(x) then {|s|} else {}) {
      if i < |s| {
        assert (s + [x])[i] == s[i];
      }
    }
    forall i: nat | i in a ensures i in b {
      assert (s + [x])[i] == s[i];
    }
  }

  /** Counting by filtering agrees with counting positions. */
  lemma {:induction false} CountIsPositions<T>(s: seq<T>, p: T -> bool)
    ensures Count(s, p) == |Positions(s, p)|
  {
    if |s| > 0 {
      var init := s[..|s| - 1];
      var last := s[|s| - 1];
      CountIsPositions(init, p);
      assert s == init + [last];
      PositionsSnoc(init, last, p);
      assert |init| !in Positions(init, p);
    }
  }

  lemma {:induction false} FilterAppend<T>(a: seq<T>, b: seq<T>, p: T -> bool)
    ensures Filter(a + b, p) == Filter(a, p) + Filter(b, p)
    decreases |b|
  {
    if |b| == 0 {
      assert a + b == a;
    } else {
      var b' := b[..|b| - 1];
      assert (a + b)[..|a + b| - 1] == a + b';
      assert (a + b)[|a + b| - 1] == b[|b| - 1];
      FilterAppend(a, b', p);
    }
  }

  /** Together with `FilterAppend`, these pin `Filter` down to
      `Array.prototype.filter`: an element is kept, once and in place, iff
      it satisfies the predicate. */
  lemma FilterEmpty<T>(p: T -> bool)
    ensures Filter([], p) == []
  {
  }

  lemma FilterSingleton<T>(x: T, p: T -> bool)
    ensures Filter([x], p) == if p(x) then [x] else []
  {
    assert [x][..0] == [];
  }

  lemma FilterAppend3<T>(a: seq<T>, b: seq<T>, c: seq<T>, p: T -> bool)
    ensures Filter(a + b + c, p) == Filter(a, p) + Filter(b, p) + Filter(c, p)
  {
    FilterAppend(a + b, c, p);
    FilterAppend(a, b, p);
  }

  /** Moving `x` past `b` does not change the filtered result when one of
      the two contributes nothing. */
  lemma FilterMoveLast<T>(a: seq<T>, x: T, b: seq<T>, p: T -> bool)
    requires Filter(b, p) == [] || Filter([x], p) == []
    ensures Filter(a + [x] + b, p) == Filter(a + b + [x], p)
  {
    FilterAppend3(a, [x], b, p);
    FilterAppend3(a, b, [x], p);
  }

  lemma {:induction false} FilterKeepsAll<T>(s: seq<T>, p: T -> bool)
    requires forall i :: 0 <= i < |s| ==> p(s[i])
    ensures Filter(s, p) == s
  {
    if |s| > 0 {
      FilterKeepsAll(s[..|s| - 1], p);
      assert s == s[..|s| - 1] + [s[|s| - 1]];
    }
  }

  lemma {:induction false} FilterDropsAll<T>(s: seq<T>, p: T -> bool)
    requires forall i :: 0 <= i < |s| ==> !p(s[i])
    ensures Filter(s, p) == []
  {
    if |s| > 0 {
      FilterDropsAll(s[..|s| - 1], p);
    }
  }

  /** The count is 0 iff no element satisfies `p`, and the whole length iff
      every element does. */
  lemma CountExtremes<T>(s: seq<T>, p: T -> bool, q: T -> bool)
    requires forall x :: q(x) == !p(x)
    ensures Count(s, p) == 0 <==> forall i :: 0 <= i < |s| ==> !p(s[i])
    ensures Count(s, p) == |s| <==> forall i :: 0 <= i < |s| ==> p(s[i])
  {
    FilterPartition(s, p, q);
    if forall i :: 0 <= i < |s| ==> !p(s[i]) {
      FilterDropsAll(s, p);
    }
    if forall i :: 0 <= i < |s| ==> p(s[i]) {
      FilterKeepsAll(s, p);
    }
  }

  /** Every element lands on exactly one side of a predicate. */
  lemma {:induction false} FilterPartition<T>(s: seq<T>, p: T -> bool, q: T -> bool)
    requires forall x :: q(x) == !p(x)
    ensures |Filter(s, p)| + |Filter(s, q)| == |s|
  {
    if |s| > 0 {
      FilterPartition(s[..|s| - 1], p, q);
    }
  }

  /** The index of the first element satisfying `p`, if any. */
  function FindIndex<T>(s: seq<T>, p: T -> bool): (r: Option<nat>)
    ensures r.None? <==> forall i :: 0 <= i < |s| ==> !p(s[i])
    ensures r.Some? ==> r.value < |s| && p(s[r.value]) && forall j :: 0 <= j < r.value ==> !p(s[j])
  {
    if |s| == 0 then None
    else if p(s[0]) then Some(0)
    else
      var r := FindIndex(s[1..], p);
      assert forall i :: 1 <= i < |s| ==> s[i] == s[1..][i - 1];
      if r.Some? then Some(r.value + 1) else None
  }

  /** `Array.prototype.find`: the first element satisfying `p`, if any. */
  function Find<T>(s: seq<T>, p: T -> bool): (r: Option<T>)
    ensures r.None? <==> forall i :: 0 <= i < |s| ==> !p(s[i])
    ensures r.Some? ==> exists i :: 0 <= i < |s| && s[i] == r.value && p(r.value)
                                    && forall j :: 0 <= j < i ==> !p(s[j])
  {
    var i := FindIndex(s, p);
    if i.Some? then Some(s[i.value]) else None
  }
}
