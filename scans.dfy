/** Full scans over an ordered collection of records: the order-preserving
    filter behind the finds and the removal, the two update shapes (every
    match, first match only) and the folds behind the fare aggregates.
    Both stores are specified in terms of these functions. The recursive
    ones peel the LAST element, so that a left-to-right loop extends its
    prefix exactly as the definition does. */
module Scans {
  import opened Wrappers

  // ---------------------------------------------------------------------
  // Order-preserving filter
  // ---------------------------------------------------------------------

  /** The elements of `s` that satisfy `p`, in their original order. */
  function Filter<T>(s: seq<T>, p: T -> bool): (r: seq<T>)
    ensures |r| <= |s|
    decreases |s|
  {
    if s == [] then []
    else if p(s[|s| - 1]) then Filter(s[..|s| - 1], p) + [s[|s| - 1]]
    else Filter(s[..|s| - 1], p)
  }

  /** The filter keeps exactly the elements that satisfy the predicate. */
  lemma {:induction false} FilterMembers<T>(s: seq<T>, p: T -> bool)
    ensures forall x | x in Filter(s, p) :: x in s && p(x)
    ensures forall x | x in s && p(x) :: x in Filter(s, p)
    decreases |s|
  {
    if s != [] {
      var init, last := s[..|s| - 1], s[|s| - 1];
      assert s == init + [last];
      FilterMembers(init, p);
    }
  }

  /** Filtering one prefix element further: the step a scanning loop takes. */
  lemma FilterSnoc<T>(s: seq<T>, x: T, p: T -> bool)
    ensures Filter(s + [x], p) == if p(x) then Filter(s, p) + [x] else Filter(s, p)
  {
    assert (s + [x])[..|s|] == s;
  }

  /** Filtering distributes over concatenation: survivors keep their
      relative order, and no element changes side. */
  lemma {:induction false} FilterAppend<T>(a: seq<T>, b: seq<T>, p: T -> bool)
    ensures Filter(a + b, p) == Filter(a, p) + Filter(b, p)
    decreases |b|
  {
    if b == [] {
      assert a + b == a;
    } else {
      var init, last := b[..|b| - 1], b[|b| - 1];
      assert b == init + [last];
      assert a + b == (a + init) + [last];
      FilterSnoc(a + init, last, p);
      FilterSnoc(init, last, p);
      FilterAppend(a, init, p);
    }
  }

  /** Every copy of a satisfying element survives; no copy of any other does. */
  lemma {:induction false} FilterCount<T>(s: seq<T>, p: T -> bool, x: T)
    ensures multiset(Filter(s, p))[x] == if p(x) then multiset(s)[x] else 0
    decreases |s|
  {
    if s != [] {
      var init, last := s[..|s| - 1], s[|s| - 1];
      assert s == init + [last];
      FilterSnoc(init, last, p);
      FilterCount(init, p, x);
    }
  }

  /** A filter and its complement split the collection between them. */
  lemma {:induction false} FilterPartition<T>(s: seq<T>, p: T -> bool, q: T -> bool)
    requires forall x | x in s :: q(x) == !p(x)
    ensures |Filter(s, p)| + |Filter(s, q)| == |s|
    decreases |s|
  {
    if s != [] {
      var init, last := s[..|s| - 1], s[|s| - 1];
      assert s == init + [last];
      FilterSnoc(init, last, p);
      FilterSnoc(init, last, q);
      FilterPartition(init, p, q);
    }
  }

  /** A filter that no element passes leaves nothing. */
  lemma {:induction false} FilterNone<T>(s: seq<T>, p: T -> bool)
    requires forall x | x in s :: !p(x)
    ensures Filter(s, p) == []
    decreases |s|
  {
    if s != [] {
      var init, last := s[..|s| - 1], s[|s| - 1];
      assert s == init + [last];
      FilterSnoc(init, last, p);
      FilterNone(init, p);
    }
  }

  /** Filtering leaves the collection as it is exactly when every element
      already satisfies the predicate. */
  lemma {:induction false} FilterIdentity<T>(s: seq<T>, p: T -> bool)
    ensures Filter(s, p) == s <==> forall x | x in s :: p(x)
    decreases |s|
  {
    if s != [] {
      var init, last := s[..|s| - 1], s[|s| - 1];
      assert s == init + [last];
      FilterSnoc(init, last, p);
      FilterIdentity(init, p);
      FilterMembers(s, p);
      if !p(last) {
        assert |Filter(s, p)| <= |init| < |s|;
      }
    }
  }

  /** Two successive filters are one filter by both predicates. */
  lemma {:induction false} FilterFilter<T>(s: seq<T>, p: T -> bool, q: T -> bool, both: T -> bool)
    requires forall x | x in s :: both(x) == (p(x) && q(x))
    ensures Filter(Filter(s, p), q) == Filter(s, both)
    decreases |s|
  {
    if s != [] {
      var init, last := s[..|s| - 1], s[|s| - 1];
      assert s == init + [last];
      FilterSnoc(init, last, p);
      FilterSnoc(init, last, both);
      FilterSnoc(Filter(init, p), last, q);
      FilterFilter(init, p, q, both);
    }
  }

  // ---------------------------------------------------------------------
  // Updating every match
  // ---------------------------------------------------------------------

  /** `s` with `u` applied to every element that satisfies `p`; the others,
      the length and the order stay as they are. */
  function UpdateWhere<T>(s: seq<T>, p: T -> bool, u: T -> T): (r: seq<T>)
    ensures |r| == |s|
  {
    seq(|s|, i requires 0 <= i < |s| => if p(s[i]) then u(s[i]) else s[i])
  }

  /** With no element matching, an update changes nothing. */
  lemma UpdateWhereNoMatch<T>(s: seq<T>, p: T -> bool, u: T -> T)
    requires forall x | x in s :: !p(x)
    ensures UpdateWhere(s, p, u) == s
  {
  }

  lemma UpdateWhereSnoc<T>(s: seq<T>, x: T, p: T -> bool, u: T -> T)
    ensures UpdateWhere(s + [x], p, u) == UpdateWhere(s, p, u) + [if p(x) then u(x) else x]
  {
  }

  /** When the update keeps the selecting property, finding the matches
      after the update gives the old matches, each one updated. */
  lemma {:induction false} FilterAfterUpdateWhere<T>(s: seq<T>, p: T -> bool, u: T -> T)
    requires forall x :: p(x) ==> p(u(x))
    ensures Filter(UpdateWhere(s, p, u), p) == UpdateWhere(Filter(s, p), p, u)
    decreases |s|
  {
    if s != [] {
      var init, last := s[..|s| - 1], s[|s| - 1];
      assert s == init + [last];
      UpdateWhereSnoc(init, last, p, u);
      FilterSnoc(UpdateWhere(init, p, u), if p(last) then u(last) else last, p);
      FilterSnoc(init, last, p);
      UpdateWhereSnoc(Filter(init, p), last, p, u);
      FilterAfterUpdateWhere(init, p, u);
    }
  }

  /** ... and a filter that picks no element the update touches, before
      or after the update, finds exactly what it found before. */
  lemma {:induction false} FilterOthersAfterUpdateWhere<T>(s: seq<T>, p: T -> bool, u: T -> T, q: T -> bool)
    requires forall x | p(x) :: !q(x) && !q(u(x))
    ensures Filter(UpdateWhere(s, p, u), q) == Filter(s, q)
    decreases |s|
  {
    if s != [] {
      var init, last := s[..|s| - 1], s[|s| - 1];
      assert s == init + [last];
      UpdateWhereSnoc(init, last, p, u);
      FilterSnoc(UpdateWhere(init, p, u), if p(last) then u(last) else last, q);
      FilterSnoc(init, last, q);
      FilterOthersAfterUpdateWhere(init, p, u, q);
    }
  }

  // ---------------------------------------------------------------------
  // Updating the first match only
  // ---------------------------------------------------------------------

  /** The position of the first element satisfying `p`, if there is one. */
  function FirstIndex<T>(s: seq<T>, p: T -> bool): (r: Option<nat>)
    ensures r.None? <==> forall x | x in s :: !p(x)
    ensures r.Some? ==> r.value < |s| && p(s[r.value])
    ensures r.Some? ==> forall j | 0 <= j < r.value :: !p(s[j])
  {
    if s == [] then None
    else if p(s[0]) then Some(0)
    else
      assert s == [s[0]] + s[1..];
      match FirstIndex(s[1..], p)
      case None => None
      case Some(i) => Some(i + 1)
  }

  /** A scan that stops at position `i` (the end, or the first match)
      has found the first match. */
  lemma {:induction false} FirstIndexAt<T>(s: seq<T>, p: T -> bool, i: nat)
    requires i <= |s|
    requires forall j | 0 <= j < i :: !p(s[j])
    requires i < |s| ==> p(s[i])
    ensures FirstIndex(s, p) == if i < |s| then Some(i) else None
  {
    if i < |s| {
      assert s[i] in s;
    }
  }

  /** `s` with `u` applied to its first element satisfying `p`, if any. */
  function UpdateFirst<T>(s: seq<T>, p: T -> bool, u: T -> T): (r: seq<T>)
    ensures |r| == |s|
    ensures (forall x | x in s :: !p(x)) ==> r == s
  {
    match FirstIndex(s, p)
    case None => s
    case Some(i) => s[i := u(s[i])]
  }

  /** A first-match update changes one position at most: the one that
      matches with no match before it. Later duplicates keep their value. */
  lemma {:induction false} UpdateFirstAt<T>(s: seq<T>, p: T -> bool, u: T -> T, j: nat)
    requires j < |s|
    ensures |UpdateFirst(s, p, u)| == |s|
    ensures UpdateFirst(s, p, u)[j] ==
      if p(s[j]) && forall k | 0 <= k < j :: !p(s[k]) then u(s[j]) else s[j]
  {
    match FirstIndex(s, p)
    case None =>
    case Some(i) =>
  }

  /** When at most one element matches, updating the first match and
      updating every match agree. */
  lemma {:induction false} UpdateFirstIsUpdateWhereWhenUnique<T>(s: seq<T>, p: T -> bool, u: T -> T)
    requires forall i, j | 0 <= i < j < |s| :: !(p(s[i]) && p(s[j]))
    ensures UpdateFirst(s, p, u) == UpdateWhere(s, p, u)
  {
    forall j | 0 <= j < |s|
      ensures UpdateFirst(s, p, u)[j] == UpdateWhere(s, p, u)[j]
    {
      UpdateFirstAt(s, p, u, j);
    }
  }

  // ---------------------------------------------------------------------
  // Folds over fares
  // ---------------------------------------------------------------------

  /** The sum, accumulated from the left as a running total. */
  function Sum(xs: seq<real>): real
  {
    if xs == [] then 0.0 else Sum(xs[..|xs| - 1]) + xs[|xs| - 1]
  }

  lemma SumSnoc(xs: seq<real>, x: real)
    ensures Sum(xs + [x]) == Sum(xs) + x
  {
    assert (xs + [x])[..|xs|] == xs;
  }

  /** The arithmetic mean; there is none for an empty collection. */
  function Average(xs: seq<real>): (r: Option<real>)
    ensures r.None? <==> xs == []
    ensures r.Some? ==> r.value * (|xs| as real) == Sum(xs)
  {
    if xs == [] then None else Some(Sum(xs) / (|xs| as real))
  }

  /** A sum of values all above `c` is above `|xs|` times `c`. */
  lemma {:induction false} SumAbove(xs: seq<real>, c: real)
    requires xs != []
    requires forall i | 0 <= i < |xs| :: c < xs[i]
    ensures (|xs| as real) * c < Sum(xs)
    decreases |xs|
  {
    var init := xs[..|xs| - 1];
    if init != [] {
      SumAbove(init, c);
    }
  }

  /** A sum of values all below `c` is below `|xs|` times `c`. */
  lemma {:induction false} SumBelow(xs: seq<real>, c: real)
    requires xs != []
    requires forall i | 0 <= i < |xs| :: xs[i] < c
    ensures Sum(xs) < (|xs| as real) * c
    decreases |xs|
  {
    var init := xs[..|xs| - 1];
    if init != [] {
      SumBelow(init, c);
    }
  }

  /** The mean lies between the smallest and the largest value: some value
      is at most the mean, and some value is at least the mean. */
  lemma AverageWithinRange(xs: seq<real>)
    requires xs != []
    ensures exists i | 0 <= i < |xs| :: xs[i] <= Average(xs).value
    ensures exists j | 0 <= j < |xs| :: Average(xs).value <= xs[j]
  {
    var a, n := Average(xs).value, |xs| as real;
    if forall i | 0 <= i < |xs| :: a < xs[i] {
      SumAbove(xs, a);
      assert false;
    }
    if forall j | 0 <= j < |xs| :: xs[j] < a {
      SumBelow(xs, a);
      assert false;
    }
  }

  /** The smallest value, as a running minimum kept from the left;
      there is none for an empty collection. */
  function Least(xs: seq<real>): (r: Option<real>)
    ensures r.None? <==> xs == []
  {
    if xs == [] then None
    else
      match Least(xs[..|xs| - 1])
      case None => Some(xs[|xs| - 1])
      case Some(m) => Some(if xs[|xs| - 1] < m then xs[|xs| - 1] else m)
  }

  /** The running minimum is a value of the collection that no value
      undercuts. */
  lemma {:induction false} LeastIsMinimum(xs: seq<real>)
    requires xs != []
    ensures Least(xs).value in xs
    ensures forall x | x in xs :: Least(xs).value <= x
    decreases |xs|
  {
    var init, last := xs[..|xs| - 1], xs[|xs| - 1];
    assert xs == init + [last];
    if init != [] {
      LeastIsMinimum(init);
    }
  }

  lemma LeastSnoc(xs: seq<real>, x: real)
    ensures Least(xs + [x]) ==
      match Least(xs)
      case None => Some(x)
      case Some(m) => Some(if x < m then x else m)
  {
    assert (xs + [x])[..|xs|] == xs;
  }

  /** A running maximum seeded with `floor`: None while the seed has not
      been exceeded. */
  function GreatestAbove(xs: seq<real>, floor: real): (r: Option<real>)
    ensures r.Some? ==> floor < r.value
  {
    if xs == [] then None
    else
      match GreatestAbove(xs[..|xs| - 1], floor)
      case None => if floor < xs[|xs| - 1] then Some(xs[|xs| - 1]) else None
      case Some(m) => Some(if m < xs[|xs| - 1] then xs[|xs| - 1] else m)
  }

  /** The seeded maximum is absent exactly when no value lies above the
      seed, and otherwise is a value above the seed that no value exceeds. */
  lemma {:induction false} GreatestAboveIsMaximum(xs: seq<real>, floor: real)
    ensures GreatestAbove(xs, floor).None? <==> forall x | x in xs :: x <= floor
    ensures GreatestAbove(xs, floor).Some? ==>
      var m := GreatestAbove(xs, floor).value;
      m in xs && floor < m && forall x | x in xs :: x <= m
    decreases |xs|
  {
    if xs != [] {
      var init, last := xs[..|xs| - 1], xs[|xs| - 1];
      assert xs == init + [last] && last in xs;
      GreatestAboveIsMaximum(init, floor);
      if GreatestAbove(init, floor).Some? {
        assert GreatestAbove(init, floor).value in xs;
      }
    }
  }

  /** The seed both stores give their running maximum: the smallest positive normal double,
      2 to the power -1022 (what numeric_limits<double>::min() gives). */
  const SmallestPositiveDouble: real := 1.0 / TwoToThe1022

  const TwoToThe1022: real :=
    44_942_328_371_557_897_693_232_629_769_725_618_340_449_424_473_557_664_318_357_520_289_433_168_951_375_240_783_177_119_330_601_884_005_280_028_469_967_848_339_414_697_442_203_604_155_623_211_857_659_868_531_094_441_973_356_216_371_319_075_554_900_311_523_529_863_270_738_021_251_442_209_537_670_585_615_720_368_478_277_635_206_809_290_837_627_671_146_574_559_986_811_484_619_929_076_208_839_082_406_056_034_304.0

  lemma GreatestAboveSnoc(xs: seq<real>, x: real, floor: real)
    ensures GreatestAbove(xs + [x], floor) ==
      match GreatestAbove(xs, floor)
      case None => if floor < x then Some(x) else None
      case Some(m) => Some(if m < x then x else m)
  {
    assert (xs + [x])[..|xs|] == xs;
  }
}
