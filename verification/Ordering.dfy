/** The order of relation names, sorting by name, and weights of keyed sequences. */
module Ordering {

  // JavaScript's `left < right` on strings.
  predicate Less(left: string, right: string) {
    right != "" && (left == "" || left[0] < right[0] || (left[0] == right[0] && Less(left[1..], right[1..])))
  }

  lemma {:induction false} LessTotal(a: string, b: string)
    ensures a == b || Less(a, b) || Less(b, a)
    ensures !(Less(a, b) && Less(b, a))
    ensures !Less(a, a)
  {
    if a != "" && b != "" {
      LessTotal(a[1..], b[1..]);
      assert a == [a[0]] + a[1..] && b == [b[0]] + b[1..];
    }
    if a != "" {
      LessTotal(a[1..], a[1..]);
    }
  }

  lemma {:induction false} LessTransitive(a: string, b: string, c: string)
    requires Less(a, b) && Less(b, c)
    ensures Less(a, c)
  {
    if a != "" && a[0] == b[0] == c[0] {
      LessTransitive(a[1..], b[1..], c[1..]);
    }
  }

  ghost predicate Distinct<T(!new)>(s: seq<T>, key: T -> string) {
    forall i, j :: 0 <= i < j < |s| ==> key(s[i]) != key(s[j])
  }

  ghost predicate Ascending<T(!new)>(s: seq<T>, key: T -> string) {
    forall i, j :: 0 <= i < j < |s| ==> Less(key(s[i]), key(s[j]))
  }

  function Insert<T>(x: T, s: seq<T>, key: T -> string): seq<T> {
    if s != [] && Less(key(s[0]), key(x)) then [s[0]] + Insert(x, s[1..], key) else [x] + s
  }

  // [...s].sort((left, right) => compare(left.key, right.key))
  function SortBy<T>(s: seq<T>, key: T -> string): seq<T> {
    if s == [] then [] else Insert(s[0], SortBy(s[1..], key), key)
  }

  lemma {:induction false} InsertSorts<T(!new)>(x: T, s: seq<T>, key: T -> string)
    requires Ascending(s, key)
    requires forall i :: 0 <= i < |s| ==> key(s[i]) != key(x)
    ensures Ascending(Insert(x, s, key), key)
    ensures multiset(Insert(x, s, key)) == multiset(s) + multiset{x}
  {
    if s != [] {
      assert s == [s[0]] + s[1..];
      LessTotal(key(s[0]), key(x));
      if Less(key(s[0]), key(x)) {
        InsertSorts(x, s[1..], key);
        var t := Insert(x, s[1..], key);
        forall j | 0 <= j < |t| ensures Less(key(s[0]), key(t[j])) {
          assert t[j] in multiset(t);
          assert t[j] == x || t[j] in s[1..];
        }
      } else {
        forall j | 0 <= j < |s| ensures Less(key(x), key(s[j])) {
          if j > 0 {
            LessTransitive(key(x), key(s[0]), key(s[j]));
          }
        }
      }
    }
  }

  lemma {:induction false} SortBySorts<T(!new)>(s: seq<T>, key: T -> string)
    requires Distinct(s, key)
    ensures Ascending(SortBy(s, key), key)
    ensures multiset(SortBy(s, key)) == multiset(s)
  {
    if s != [] {
      SortBySorts(s[1..], key);
      var t := SortBy(s[1..], key);
      forall i | 0 <= i < |t| ensures key(t[i]) != key(s[0]) {
        assert t[i] in multiset(t);
        assert t[i] in s[1..];
      }
      InsertSorts(s[0], t, key);
      assert s == [s[0]] + s[1..];
    }
  }

  lemma AscendingDistinct<T(!new)>(s: seq<T>, key: T -> string)
    requires Ascending(s, key)
    ensures Distinct(s, key)
  {
    forall i, j | 0 <= i < j < |s| ensures key(s[i]) != key(s[j]) {
      LessTotal(key(s[i]), key(s[j]));
    }
  }

  // Names stand in the order of their positions.
  lemma AscendingPositions<T(!new)>(s: seq<T>, key: T -> string, i: nat, j: nat)
    requires Ascending(s, key) && j <= i < |s|
    ensures !Less(key(s[i]), key(s[j]))
  {
    LessTotal(key(s[i]), key(s[j]));
    if j < i {
      assert Less(key(s[j]), key(s[i]));
    }
  }

  // ---------------------------------------------------------------- weights

  function Total<T>(s: seq<T>, weight: T -> nat): nat {
    if s == [] then 0 else weight(s[0]) + Total(s[1..], weight)
  }

  lemma {:induction false} TotalConcat<T>(a: seq<T>, b: seq<T>, weight: T -> nat)
    ensures Total(a + b, weight) == Total(a, weight) + Total(b, weight)
  {
    if a == [] {
      assert a + b == b;
    } else {
      assert (a + b)[1..] == a[1..] + b;
      TotalConcat(a[1..], b, weight);
    }
  }

  lemma TotalRemove<T>(s: seq<T>, j: nat, weight: T -> nat)
    requires j < |s|
    ensures Total(s, weight) == Total(s[..j] + s[j + 1..], weight) + weight(s[j])
  {
    assert s == s[..j] + ([s[j]] + s[j + 1..]);
    TotalConcat(s[..j], [s[j]] + s[j + 1..], weight);
    TotalConcat([s[j]], s[j + 1..], weight);
    TotalConcat(s[..j], s[j + 1..], weight);
  }

  ghost predicate HasCover<S(!new), T(!new)>(x: S, b: seq<T>, keyA: S -> string, keyB: T -> string,
                                             weightA: S -> nat, weightB: T -> nat) {
    exists j :: 0 <= j < |b| && keyB(b[j]) == keyA(x) && weightA(x) <= weightB(b[j])
  }

  // Every entry of a has a namesake in b that is at least as heavy.
  ghost predicate Covered<S(!new), T(!new)>(a: seq<S>, b: seq<T>, keyA: S -> string, keyB: T -> string,
                                            weightA: S -> nat, weightB: T -> nat) {
    forall i :: 0 <= i < |a| ==> HasCover(a[i], b, keyA, keyB, weightA, weightB)
  }

  lemma {:induction false} TotalCovered<S(!new), T(!new)>(
    a: seq<S>, b: seq<T>, keyA: S -> string, keyB: T -> string, weightA: S -> nat, weightB: T -> nat)
    requires Distinct(a, keyA) && Covered(a, b, keyA, keyB, weightA, weightB)
    ensures Total(a, weightA) <= Total(b, weightB)
    ensures |a| <= |b|
    decreases |a|
  {
    if a != [] {
      assert HasCover(a[0], b, keyA, keyB, weightA, weightB);
      var j :| 0 <= j < |b| && keyB(b[j]) == keyA(a[0]) && weightA(a[0]) <= weightB(b[j]);
      var rest, tail := b[..j] + b[j + 1..], a[1..];
      forall i | 0 <= i < |tail| ensures HasCover(tail[i], rest, keyA, keyB, weightA, weightB) {
        assert HasCover(a[i + 1], b, keyA, keyB, weightA, weightB);
        var k :| 0 <= k < |b| && keyB(b[k]) == keyA(a[i + 1]) && weightA(a[i + 1]) <= weightB(b[k]);
        assert k != j;
        assert b[k] == rest[if k < j then k else k - 1];
      }
      TotalCovered(tail, rest, keyA, keyB, weightA, weightB);
      TotalRemove(b, j, weightB);
    }
  }
}
