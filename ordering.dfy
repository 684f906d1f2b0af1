/** Orderings of row ids: the minimum and maximum of a set of ids, and the enumeration of a set of
    ids in ascending or descending order, which is what `ORDER BY id ASC` / `ORDER BY id DESC`
    produce over a table. */
module Ordering {

  predicate StrictlyIncreasing(s: seq<nat>) {
    forall i, j | 0 <= i < j < |s| :: s[i] < s[j]
  }

  predicate StrictlyDecreasing(s: seq<nat>) {
    forall i, j | 0 <= i < j < |s| :: s[i] > s[j]
  }

  predicate Distinct(s: seq<nat>) {
    forall i, j | 0 <= i < j < |s| :: s[i] != s[j]
  }

  ghost function Min(s: set<nat>): (m: nat)
    requires s != {}
    ensures m in s && forall x | x in s :: m <= x
    decreases s
  {
    var x :| x in s;
    var rest := s - {x};
    assert forall y | y in s :: y in rest || y == x;
    if rest == {} then x
    else
      var y := Min(rest);
      if x <= y then x else y
  }

  ghost function Max(s: set<nat>): (m: nat)
    requires s != {}
    ensures m in s && forall x | x in s :: x <= m
    decreases s
  {
    var x :| x in s;
    var rest := s - {x};
    assert forall y | y in s :: y in rest || y == x;
    if rest == {} then x
    else
      var y := Max(rest);
      if y <= x then x else y
  }

  /** The elements of `s`, each once, smallest first. */
  ghost function SortedAsc(s: set<nat>): (r: seq<nat>)
    ensures |r| == |s|
    ensures forall x :: x in r <==> x in s
    ensures StrictlyIncreasing(r)
    decreases s
  {
    if s == {} then []
    else
      var m := Min(s);
      var rest := s - {m};
      var tail := SortedAsc(rest);
      assert |rest| == |s| - 1;
      PrependSmaller(m, tail, s);
      [m] + tail
  }

  /** Putting an element below all of an increasing sequence in front keeps it increasing. */
  lemma PrependSmaller(m: nat, tail: seq<nat>, s: set<nat>)
    requires m in s && StrictlyIncreasing(tail) && forall x :: x in tail <==> x in s - {m}
    requires forall x | x in s :: m <= x
    ensures StrictlyIncreasing([m] + tail) && forall x :: x in [m] + tail <==> x in s
  {
    var r := [m] + tail;
    forall i, j | 0 <= i < j < |r| ensures r[i] < r[j] {
      assert r[j] == tail[j - 1] && r[j] in s - {m};
      if i > 0 { assert r[i] == tail[i - 1]; }
    }
  }

  /** The elements of `s`, each once, largest first. */
  ghost function SortedDesc(s: set<nat>): (r: seq<nat>)
    ensures |r| == |s|
    ensures forall x :: x in r <==> x in s
    ensures StrictlyDecreasing(r)
    decreases s
  {
    if s == {} then []
    else
      var m := Max(s);
      var rest := s - {m};
      var tail := SortedDesc(rest);
      assert |rest| == |s| - 1;
      PrependLarger(m, tail, s);
      [m] + tail
  }

  /** Putting an element above all of a decreasing sequence in front keeps it decreasing. */
  lemma PrependLarger(m: nat, tail: seq<nat>, s: set<nat>)
    requires m in s && StrictlyDecreasing(tail) && forall x :: x in tail <==> x in s - {m}
    requires forall x | x in s :: x <= m
    ensures StrictlyDecreasing([m] + tail) && forall x :: x in [m] + tail <==> x in s
  {
    var r := [m] + tail;
    forall i, j | 0 <= i < j < |r| ensures r[i] > r[j] {
      assert r[j] == tail[j - 1] && r[j] in s - {m};
      if i > 0 { assert r[i] == tail[i - 1]; }
    }
  }

  /** The descending enumeration starts with the largest element and goes on with the rest. */
  lemma SortedDescFirst(s: set<nat>, m: nat)
    requires m in s && forall x | x in s :: x <= m
    ensures SortedDesc(s) == [m] + SortedDesc(s - {m})
  {
    assert Max(s) == m;
  }

  /** The elements of a sequence, as a set. */
  function Elems(s: seq<nat>): (r: set<nat>)
    ensures forall x :: x in r <==> x in s
  {
    set x: nat | x in s
  }

  lemma ElemsSnoc(s: seq<nat>, j: nat)
    requires j < |s|
    ensures Elems(s[..j + 1]) == Elems(s[..j]) + {s[j]}
  {
    assert s[..j + 1] == s[..j] + [s[j]];
  }

  /** In a strictly decreasing sequence every element of a prefix exceeds every element outside
      it. */
  lemma DecreasingPrefix(s: seq<nat>, d: nat, a: nat, b: nat)
    requires StrictlyDecreasing(s) && d <= |s|
    requires a in s[..d] && b in s && b !in s[..d]
    ensures b < a
  {
    assert s == s[..d] + s[d..];
    var i :| 0 <= i < d && s[..d][i] == a;
    var k :| 0 <= k < |s| - d && s[d..][k] == b;
    assert s[i] == a && s[d + k] == b;
  }

  /** A sequence without repeated elements has as many elements as its set. */
  lemma {:induction false} DistinctCard(s: seq<nat>)
    requires Distinct(s)
    ensures |Elems(s)| == |s|
  {
    if s != [] {
      var t := s[1..];
      assert Distinct(t);
      DistinctCard(t);
      var whole, rest := Elems(s), Elems(t);
      assert forall x :: x in s <==> x == s[0] || x in t;
      assert rest == whole - {s[0]};
      assert s[0] !in rest by {
        forall k | 0 <= k < |t| ensures t[k] != s[0] { assert t[k] == s[k + 1]; }
      }
    } else {
      assert Elems(s) == {};
    }
  }

  /** A sequence without repeated elements, drawn from a set and as long as it, lists every
      element of the set. */
  lemma DistinctCovers(s: seq<nat>, whole: set<nat>)
    requires Distinct(s) && |s| == |whole|
    requires forall i | 0 <= i < |s| :: s[i] in whole
    ensures forall x | x in whole :: x in s
  {
    DistinctCard(s);
    var listed := Elems(s);
    assert listed <= whole;
    assert |whole - listed| == |whole| - |listed| == 0;
  }

  /** The integers of the half-open range `[a, b)`. */
  function Range(a: nat, b: nat): (r: set<nat>)
    ensures forall i :: i in r <==> a <= i < b
    decreases b - a
  {
    if b <= a then {} else {a} + Range(a + 1, b)
  }

  lemma {:induction false} RangeCard(a: nat, b: nat)
    requires a <= b
    ensures |Range(a, b)| == b - a
    decreases b - a
  {
    if a < b {
      RangeCard(a + 1, b);
      assert a !in Range(a + 1, b);
    }
  }
}
