/**
 What sorting and grouping mean: the reference answer of Queries, and the engines that are
 proved against it, order and collect rows as the words say, whatever compares them.
 */
module Sorting {
  import opened Wrappers
  import opened Queries

  // A total preorder: any two are comparable, and at most is transitive.
  ghost predicate Preorder<T(!new)>(compare: (T, T) -> int) {
    && (forall x, y :: compare(x, y) < 0 <==> compare(y, x) > 0)
    && (forall x, y, z :: compare(x, y) <= 0 && compare(y, z) <= 0 ==> compare(x, z) <= 0)
  }

  ghost predicate Ascends<T(!new)>(s: seq<T>, compare: (T, T) -> int) {
    forall i, j :: 0 <= i < j < |s| ==> compare(s[i], s[j]) <= 0
  }

  // Those that compare equal to x, in their order.
  function Ties<T(!new)>(s: seq<T>, compare: (T, T) -> int, x: T): seq<T> {
    if s == [] then [] else (if compare(s[0], x) == 0 then [s[0]] else []) + Ties(s[1..], compare, x)
  }

  // The same elements in ascending order, and what compares equal in its old order.
  ghost predicate IsSorted<T(!new)>(r: seq<T>, s: seq<T>, compare: (T, T) -> int) {
    && multiset(r) == multiset(s) && Ascends(r, compare)
    && forall x :: Ties(r, compare, x) == Ties(s, compare, x)
  }

  /** The sort is a stable sort. */
  lemma {:induction false} SortSorts<T(!new)>(s: seq<T>, compare: (T, T) -> int)
    requires Preorder(compare)
    ensures IsSorted(SortWith(s, compare), s, compare)
  {
    if s != [] {
      var t := SortWith(s[1..], compare);
      SortSorts(s[1..], compare);
      assert s == [s[0]] + s[1..];
      PlaceKeeps(s[0], t, compare);
      PlaceAscends(s[0], t, compare);
      forall x ensures Ties(Place(s[0], t, compare), compare, x) == Ties(s, compare, x) {
        PlaceTies(s[0], t, compare, x);
      }
    }
  }

  lemma {:induction false} PlaceKeeps<T(!new)>(x: T, s: seq<T>, compare: (T, T) -> int)
    ensures multiset(Place(x, s, compare)) == multiset(s) + multiset{x}
  {
    if s != [] && compare(s[0], x) < 0 {
      assert s == [s[0]] + s[1..];
      PlaceKeeps(x, s[1..], compare);
    }
  }

  lemma {:induction false} PlaceAscends<T(!new)>(x: T, s: seq<T>, compare: (T, T) -> int)
    requires Preorder(compare) && Ascends(s, compare)
    ensures Ascends(Place(x, s, compare), compare)
  {
    if s == [] {
    } else if compare(s[0], x) < 0 {
      var rest := Place(x, s[1..], compare);
      TailAscends(s, compare);
      PlaceAscends(x, s[1..], compare);
      forall y | y in rest ensures compare(s[0], y) <= 0 {
        PlaceHas(x, s[1..], compare, y);
      }
      AscendsFrom(s[0], rest, compare);
    } else {
      forall y | y in s ensures compare(x, y) <= 0 {
        assert compare(x, s[0]) <= 0;
        var i :| 0 <= i < |s| && s[i] == y;
        assert i > 0 ==> compare(s[0], s[i]) <= 0;
      }
      AscendsFrom(x, s, compare);
    }
  }

  lemma TailAscends<T(!new)>(s: seq<T>, compare: (T, T) -> int)
    requires s != [] && Ascends(s, compare)
    ensures Ascends(s[1..], compare) && forall y :: y in s[1..] ==> compare(s[0], y) <= 0
  {
  }

  lemma AscendsFrom<T(!new)>(x: T, s: seq<T>, compare: (T, T) -> int)
    requires Ascends(s, compare) && forall y :: y in s ==> compare(x, y) <= 0
    ensures Ascends([x] + s, compare)
  {
  }

  lemma {:induction false} PlaceTies<T(!new)>(y: T, s: seq<T>, compare: (T, T) -> int, x: T)
    requires Preorder(compare)
    ensures Ties(Place(y, s, compare), compare, x) == Ties([y] + s, compare, x)
  {
    assert ([y] + s)[1..] == s;
    if s != [] && compare(s[0], y) < 0 {
      PlaceTies(y, s[1..], compare, x);
      var rest := Place(y, s[1..], compare);
      assert ([s[0]] + rest)[1..] == rest && ([y] + s[1..])[1..] == s[1..];
      NotBothTied(s[0], y, compare, x);
    }
  }

  lemma NotBothTied<T(!new)>(y: T, z: T, compare: (T, T) -> int, x: T)
    requires Preorder(compare) && compare(y, z) < 0
    ensures compare(y, x) != 0 || compare(z, x) != 0
  {
    assert compare(z, x) <= 0 && compare(x, y) <= 0 ==> compare(z, y) <= 0;
  }

  // ---------------------------------------------------------------- the order of a query

  // Comparing units by one target after the other, each in its direction, is a total
  // preorder if comparing values is.
  lemma {:induction false} UnitsCompare(q: Query, d: Dialect, orders: seq<Order>)
    requires Preorder(d.compare)
    ensures forall x, y :: CompareUnits(q, d, orders, x, y) < 0 <==> CompareUnits(q, d, orders, y, x) > 0
    ensures forall x, y, z :: CompareUnits(q, d, orders, x, y) <= 0 && CompareUnits(q, d, orders, y, z) <= 0 ==>
      CompareUnits(q, d, orders, x, z) <= 0
  {
    hide TargetValue;
    if orders != [] {
      UnitsCompare(q, d, orders[1..]);
      forall x, y
        ensures CompareUnits(q, d, orders, x, y) < 0 <==> CompareUnits(q, d, orders, y, x) > 0
      {
        var v, w := TargetValue(q, d, x, orders[0].target), TargetValue(q, d, y, orders[0].target);
        assert d.compare(v, w) < 0 <==> d.compare(w, v) > 0;
        assert d.compare(w, v) < 0 <==> d.compare(v, w) > 0;
      }
      forall x, y, z | CompareUnits(q, d, orders, x, y) <= 0 && CompareUnits(q, d, orders, y, z) <= 0
        ensures CompareUnits(q, d, orders, x, z) <= 0
      {
        var u, v, w := TargetValue(q, d, x, orders[0].target), TargetValue(q, d, y, orders[0].target),
          TargetValue(q, d, z, orders[0].target);
        Chain(d.compare, u, v, w);
        if d.compare(u, w) == 0 {
          assert CompareUnits(q, d, orders[1..], x, y) <= 0 && CompareUnits(q, d, orders[1..], y, z) <= 0;
        }
      }
    }
  }

  // Equal and equal is equal; at most one of two steps strict makes the whole strict.
  lemma Chain(compare: (Value, Value) -> int, u: Value, v: Value, w: Value)
    requires Preorder(compare)
    ensures compare(u, v) <= 0 && compare(v, w) <= 0 && compare(u, w) == 0 ==> compare(u, v) == 0 && compare(v, w) == 0
    ensures compare(u, v) >= 0 && compare(v, w) >= 0 && compare(u, w) == 0 ==> compare(u, v) == 0 && compare(v, w) == 0
    ensures compare(u, v) <= 0 && compare(v, w) <= 0 ==> compare(u, w) <= 0
    ensures compare(u, v) >= 0 && compare(v, w) >= 0 ==> compare(u, w) >= 0
  {
  }

  // One value goes before the other, in the direction asked for.
  predicate Before(d: Dialect, direction: Direction, v: Value, w: Value) {
    match direction
    case Asc => d.compare(v, w) < 0
    case Desc => d.compare(w, v) < 0
  }

  predicate Tied(d: Dialect, v: Value, w: Value) { d.compare(v, w) == 0 }

  // The first target that tells the units apart puts x before y, or none does.
  predicate NoLater(q: Query, d: Dialect, x: seq<Row>, y: seq<Row>) {
    forall i :: 0 <= i < |q.orderBy| && Before(d, q.orderBy[i].direction, At(q, d, y, i), At(q, d, x, i)) ==>
      exists j :: 0 <= j < i && Before(d, q.orderBy[j].direction, At(q, d, x, j), At(q, d, y, j))
  }

  function At(q: Query, d: Dialect, unit: seq<Row>, i: nat): Value
    requires i < |q.orderBy|
  {
    TargetValue(q, d, unit, q.orderBy[i].target)
  }

  lemma {:induction false} ComparesAs(q: Query, d: Dialect, x: seq<Row>, y: seq<Row>, k: nat)
    requires Preorder(d.compare) && k <= |q.orderBy|
    requires CompareUnits(q, d, q.orderBy[k..], x, y) <= 0
    ensures forall i :: k <= i < |q.orderBy| && Before(d, q.orderBy[i].direction, At(q, d, y, i), At(q, d, x, i)) ==>
      exists j :: k <= j < i && Before(d, q.orderBy[j].direction, At(q, d, x, j), At(q, d, y, j))
    decreases |q.orderBy| - k
  {
    hide TargetValue;
    if k < |q.orderBy| {
      var v, w := At(q, d, x, k), At(q, d, y, k);
      assert q.orderBy[k..][0] == q.orderBy[k] && q.orderBy[k..][1..] == q.orderBy[k + 1..];
      assert d.compare(v, w) < 0 <==> d.compare(w, v) > 0;
      if d.compare(v, w) == 0 {
        ComparesAs(q, d, x, y, k + 1);
      } else {
        assert Before(d, q.orderBy[k].direction, At(q, d, x, k), At(q, d, y, k));
      }
    }
  }

  /** The rows of an answer come from the units of the query in the order asked for, no unit
      lost or repeated, the first limit + 1 of them. */
  lemma AnswerRanks(q: Query, d: Dialect, table: seq<Row>) returns (ranked: seq<seq<Row>>)
    requires Preorder(d.compare)
    ensures multiset(ranked) == multiset(Units(q, d, table))
    ensures forall i, j :: 0 <= i < j < |ranked| ==> NoLater(q, d, ranked[i], ranked[j])
    ensures |Answer(q, d, table)| == if |ranked| < q.limit + 1 then |ranked| else q.limit + 1
    ensures forall i :: 0 <= i < |Answer(q, d, table)| ==> Answer(q, d, table)[i] == UnitCells(q, d, ranked[i])
  {
    hide Units, UnitCells, SortWith;
    ranked := SortWith(Units(q, d, table), UnitOrder(q, d));
    UnitsCompare(q, d, q.orderBy);
    SortSorts(Units(q, d, table), UnitOrder(q, d));
    assert q.orderBy[0..] == q.orderBy;
    forall i, j | 0 <= i < j < |ranked| ensures NoLater(q, d, ranked[i], ranked[j]) {
      assert UnitOrder(q, d)(ranked[i], ranked[j]) <= 0;
      ComparesAs(q, d, ranked[i], ranked[j], 0);
    }
  }

  // ---------------------------------------------------------------- the groups

  // The members of every group are those with its key, in their order.
  function WithKey<T(!new), K(==)>(s: seq<T>, key: T -> K, k: K): seq<T> {
    if s == [] then [] else (if key(s[0]) == k then [s[0]] else []) + WithKey(s[1..], key, k)
  }

  ghost predicate IsGrouping<T(!new), K>(groups: seq<seq<T>>, s: seq<T>, key: T -> K) {
    && (forall i :: 0 <= i < |groups| ==> groups[i] != [] && groups[i] == WithKey(s, key, key(groups[i][0])))
    && (forall i, j :: 0 <= i < j < |groups| ==>
      groups[i] != [] && groups[j] != [] && key(groups[i][0]) != key(groups[j][0]))
    && forall x :: x in s ==> exists i :: 0 <= i < |groups| && x in groups[i]
  }

  /** Grouping puts every row into exactly one group, together with all rows of its key. */
  lemma {:induction false} GroupsPartition<T(!new), K>(s: seq<T>, key: T -> K)
    ensures IsGrouping(GroupsBy(s, key), s, key)
    decreases |s|
  {
    if s != [] {
      var k := key(s[0]);
      var same, other := x => key(x) == k, x => key(x) != k;
      var rest := Kept(s[1..], other);
      var groups, later := GroupsBy(s, key), GroupsBy(rest, key);
      assert s == [s[0]] + s[1..];
      assert groups == [[s[0]] + Kept(s[1..], same)] + later;
      GroupsPartition(rest, key);
      KeptIsWithKey(s[1..], key, k, same);
      forall i | 1 <= i < |groups|
        ensures key(groups[i][0]) != k && groups[i] == WithKey(s, key, key(groups[i][0]))
      {
        assert groups[i] == later[i - 1];
        GroupsShareKey(rest, key, i - 1);
        KeptHas(s[1..], other, groups[i][0]);
        KeptOtherKey(s[1..], key, k, other, key(groups[i][0]));
      }
      forall x | x in s ensures exists i :: 0 <= i < |groups| && x in groups[i] {
        KeptHas(s[1..], same, x);
        KeptHas(s[1..], other, x);
        if key(x) == k {
          assert x in groups[0];
        } else {
          var i :| 0 <= i < |later| && x in later[i];
          assert x in groups[i + 1];
        }
      }
    }
  }

  lemma {:induction false} KeptIsWithKey<T(!new), K>(s: seq<T>, key: T -> K, k: K, same: T -> bool)
    requires forall x :: same(x) <==> key(x) == k
    ensures Kept(s, same) == WithKey(s, key, k)
  {
    if s != [] {
      KeptIsWithKey(s[1..], key, k, same);
    }
  }

  lemma {:induction false} KeptOtherKey<T(!new), K>(s: seq<T>, key: T -> K, k: K, other: T -> bool, l: K)
    requires l != k && forall x :: other(x) <==> key(x) != k
    ensures WithKey(Kept(s, other), key, l) == WithKey(s, key, l)
  {
    if s != [] {
      KeptOtherKey(s[1..], key, k, other, l);
      if other(s[0]) {
        assert ([s[0]] + Kept(s[1..], other))[1..] == Kept(s[1..], other);
      } else {
        assert [] + Kept(s[1..], other) == Kept(s[1..], other);
      }
    }
  }
}
