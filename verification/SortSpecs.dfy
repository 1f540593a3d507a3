/**
 Object.fromEntries, and the sort specifications built with it.

 An object keeps every key at its first position with its last value.  A list of sort keys
 that repeats a target therefore loses entries when it becomes an object; `CollapseSortsAlike`
 and `CollapseAgreesIff` say exactly when the order of the rows survives.
 */
module SortSpecs {
  import opened Queries

  type Entries<V> = seq<(string, V)>

  predicate HasKey<V>(entries: Entries<V>, key: string) {
    exists i :: 0 <= i < |entries| && entries[i].0 == key
  }

  function FirstValue<V>(entries: Entries<V>, key: string): V
    requires HasKey(entries, key)
  {
    if entries[0].0 == key then entries[0].1 else
    assert HasKey(entries[1..], key) by {
      var i :| 0 <= i < |entries| && entries[i].0 == key;
      assert entries[1..][i - 1].0 == key;
    }
    FirstValue(entries[1..], key)
  }

  function LastValue<V>(entries: Entries<V>, key: string): V
    requires HasKey(entries, key)
  {
    var n := |entries| - 1;
    if entries[n].0 == key then entries[n].1 else
    assert HasKey(entries[..n], key) by {
      var i :| 0 <= i < |entries| && entries[i].0 == key;
      assert entries[..n][i].0 == key;
    }
    LastValue(entries[..n], key)
  }

  function Without<V>(entries: Entries<V>, key: string): (rest: Entries<V>)
    ensures |rest| <= |entries|
  {
    if entries == [] then []
    else if entries[0].0 == key then Without(entries[1..], key)
    else [entries[0]] + Without(entries[1..], key)
  }

  // Object.entries(Object.fromEntries(entries))
  function FromEntries<V>(entries: Entries<V>): Entries<V>
    decreases |entries|
  {
    if entries == [] then [] else
    assert entries[0].0 == entries[0].0;
    [(entries[0].0, LastValue(entries, entries[0].0))] + FromEntries(Without(entries[1..], entries[0].0))
  }

  ghost predicate DistinctKeys<V>(entries: Entries<V>) {
    forall i, j :: 0 <= i < j < |entries| ==> entries[i].0 != entries[j].0
  }

  // ---------------------------------------------------------------- keys and values

  lemma {:induction false} WithoutKey<V>(entries: Entries<V>, key: string, k: string)
    ensures HasKey(Without(entries, key), k) <==> k != key && HasKey(entries, k)
  {
    if entries != [] {
      HasKeyStep(entries, k);
      WithoutKey(entries[1..], key, k);
      if entries[0].0 != key {
        HasKeyStep(Without(entries, key), k);
        assert Without(entries, key)[1..] == Without(entries[1..], key);
      }
    }
  }

  lemma HasKeyStep<V>(entries: Entries<V>, k: string)
    requires entries != []
    ensures HasKey(entries, k) <==> entries[0].0 == k || HasKey(entries[1..], k)
  {
    if HasKey(entries[1..], k) {
      var i :| 0 <= i < |entries[1..]| && entries[1..][i].0 == k;
      assert entries[i + 1].0 == k;
    }
    if HasKey(entries, k) && entries[0].0 != k {
      var i :| 0 <= i < |entries| && entries[i].0 == k;
      assert entries[1..][i - 1].0 == k;
    }
  }

  lemma {:induction false} WithoutFirst<V>(entries: Entries<V>, key: string, k: string)
    requires k != key && HasKey(entries, k)
    ensures HasKey(Without(entries, key), k) && FirstValue(Without(entries, key), k) == FirstValue(entries, k)
  {
    WithoutKey(entries, key, k);
    if entries[0].0 != k {
      HasKeyStep(entries, k);
      WithoutFirst(entries[1..], key, k);
      if entries[0].0 != key {
        assert Without(entries, key)[1..] == Without(entries[1..], key);
      }
    }
  }

  lemma {:induction false} LastOfTail<V>(entries: Entries<V>, k: string)
    requires entries != [] && HasKey(entries[1..], k)
    ensures HasKey(entries, k) && LastValue(entries, k) == LastValue(entries[1..], k)
    decreases |entries|
  {
    HasKeyStep(entries, k);
    var n := |entries| - 1;
    assert entries[1..][n - 1] == entries[n];
    if entries[n].0 != k {
      assert entries[1..][..n - 1] == entries[..n][1..];
      var i :| 0 <= i < |entries[1..]| && entries[1..][i].0 == k;
      assert entries[..n][1..][i].0 == k;
      LastOfTail(entries[..n], k);
    }
  }

  lemma {:induction false} LastAlone<V>(entries: Entries<V>, k: string)
    requires entries != [] && entries[0].0 == k && !HasKey(entries[1..], k)
    ensures HasKey(entries, k) && LastValue(entries, k) == entries[0].1
    decreases |entries|
  {
    HasKeyStep(entries, k);
    var n := |entries| - 1;
    if n > 0 {
      assert entries[1..][n - 1] == entries[n];
      assert entries[n].0 != k;
      assert entries[..n][1..] == entries[1..][..n - 1];
      LastAlone(entries[..n], k);
    }
  }

  lemma {:induction false} WithoutLast<V>(entries: Entries<V>, key: string, k: string)
    requires k != key && HasKey(entries, k)
    ensures HasKey(Without(entries, key), k) && LastValue(Without(entries, key), k) == LastValue(entries, k)
    decreases |entries|
  {
    WithoutKey(entries, key, k);
    HasKeyStep(entries, k);
    var rest := Without(entries[1..], key);
    if HasKey(entries[1..], k) {
      WithoutLast(entries[1..], key, k);
      LastOfTail(entries, k);
      if entries[0].0 != key {
        assert Without(entries, key)[1..] == rest;
        LastOfTail(Without(entries, key), k);
      }
    } else {
      WithoutKey(entries[1..], key, k);
      assert Without(entries, key)[1..] == rest;
      LastAlone(entries, k);
      LastAlone(Without(entries, key), k);
    }
  }

  // An object has every key once, with its last value.
  lemma {:induction false} FromEntriesValue<V>(entries: Entries<V>, k: string)
    ensures HasKey(FromEntries(entries), k) <==> HasKey(entries, k)
    ensures HasKey(entries, k) ==>
      HasKey(FromEntries(entries), k) && FirstValue(FromEntries(entries), k) == LastValue(entries, k)
    decreases |entries|
  {
    if entries != [] {
      var key, folded := entries[0].0, FromEntries(entries);
      var rest := Without(entries[1..], key);
      HasKeyStep(entries, k);
      HasKeyStep(folded, k);
      assert folded[1..] == FromEntries(rest);
      FromEntriesValue(rest, k);
      WithoutKey(entries[1..], key, k);
      if k != key && HasKey(entries, k) {
        WithoutLast(entries[1..], key, k);
        LastOfTail(entries, k);
      }
    }
  }

  lemma {:induction false} FromDistinct<V>(entries: Entries<V>)
    requires DistinctKeys(entries)
    ensures FromEntries(entries) == entries
  {
    if entries != [] {
      forall i | 0 <= i < |entries[1..]| ensures entries[1..][i].0 != entries[0].0 {
        assert entries[1..][i] == entries[i + 1];
      }
      LastAlone(entries, entries[0].0);
      WithoutAbsent(entries[1..], entries[0].0);
      FromDistinct(entries[1..]);
    }
  }

  lemma {:induction false} WithoutAbsent<V>(entries: Entries<V>, key: string)
    requires forall i :: 0 <= i < |entries| ==> entries[i].0 != key
    ensures Without(entries, key) == entries
  {
    if entries != [] {
      WithoutAbsent(entries[1..], key);
    }
  }

  lemma {:induction false} FirstAt<V>(entries: Entries<V>, k: string) returns (i: nat)
    requires HasKey(entries, k)
    ensures i < |entries| && entries[i].0 == k && FirstValue(entries, k) == entries[i].1
    ensures forall j :: 0 <= j < i ==> entries[j].0 != k
  {
    i := 0;
    if entries[0].0 != k {
      HasKeyStep(entries, k);
      var at := FirstAt(entries[1..], k);
      i := at + 1;
      forall j | 0 <= j < i ensures entries[j].0 != k {
        assert j > 0 ==> entries[j] == entries[1..][j - 1];
      }
    }
  }

  lemma {:induction false} LastAt<V>(entries: Entries<V>, k: string) returns (i: nat)
    requires HasKey(entries, k)
    ensures i < |entries| && entries[i].0 == k && LastValue(entries, k) == entries[i].1
    ensures forall j :: i < j < |entries| ==> entries[j].0 != k
    decreases |entries|
  {
    i := |entries| - 1;
    if entries[i].0 != k {
      var n := i;
      var at :| 0 <= at < |entries| && entries[at].0 == k;
      assert entries[..n][at].0 == k;
      i := LastAt(entries[..n], k);
      forall j | i < j < |entries| ensures entries[j].0 != k {
        assert j < n ==> entries[j] == entries[..n][j];
      }
    }
  }

  lemma {:induction false} FromEntriesDistinct<V>(entries: Entries<V>)
    ensures DistinctKeys(FromEntries(entries))
    decreases |entries|
  {
    if entries != [] {
      var key, folded := entries[0].0, FromEntries(entries);
      var rest := Without(entries[1..], key);
      FromEntriesDistinct(rest);
      forall i | 0 < i < |folded| ensures folded[i].0 != key {
        assert folded[i] == FromEntries(rest)[i - 1];
        assert HasKey(FromEntries(rest), folded[i].0);
        FromEntriesValue(rest, folded[i].0);
        WithoutKey(entries[1..], key, folded[i].0);
      }
    }
  }

  lemma DistinctIsSettled<V>(entries: Entries<V>)
    requires DistinctKeys(entries)
    ensures Settled(entries)
  {
    forall k: string | HasKey(entries, k) ensures FirstValue(entries, k) == LastValue(entries, k) {
      var i := FirstAt(entries, k);
      var j := LastAt(entries, k);
      assert i == j;
    }
  }

  function Renamed<V>(entries: Entries<V>, name: string -> string): (r: Entries<V>)
    ensures |r| == |entries| && forall i :: 0 <= i < |r| ==> r[i] == (name(entries[i].0), entries[i].1)
  {
    seq(|entries|, i requires 0 <= i < |entries| => (name(entries[i].0), entries[i].1))
  }

  ghost predicate OneToOne<V>(name: string -> string, entries: Entries<V>) {
    forall i, j :: 0 <= i < j < |entries| && name(entries[i].0) == name(entries[j].0) ==> entries[i].0 == entries[j].0
  }

  // An object built from renamed keys is the object with its keys renamed.
  lemma {:induction false} FromEntriesRenamed<V>(entries: Entries<V>, name: string -> string)
    requires OneToOne(name, entries)
    ensures FromEntries(Renamed(entries, name)) == Renamed(FromEntries(entries), name)
    decreases |entries|
  {
    if entries != [] {
      var key, renamed := entries[0].0, Renamed(entries, name);
      var rest := Without(entries[1..], key);
      hide FromEntries, Without, LastValue, HasKey, OneToOne, Renamed;
      HeadRenamed(entries, name);
      FromEntriesRenamed(rest, name);
      FromEntriesStep(entries);
      FromEntriesStep(renamed);
      RenamedHead(key, LastValue(entries, key), FromEntries(rest), name);
    }
  }

  lemma RenamedHead<V>(key: string, value: V, entries: Entries<V>, name: string -> string)
    ensures Renamed([(key, value)] + entries, name) == [(name(key), value)] + Renamed(entries, name)
  {
  }

  lemma FromEntriesStep<V>(entries: Entries<V>)
    requires entries != []
    ensures HasKey(entries, entries[0].0)
    ensures FromEntries(entries)
         == [(entries[0].0, LastValue(entries, entries[0].0))] + FromEntries(Without(entries[1..], entries[0].0))
  {
  }

  // The first key with its last value, and the entries for the other keys.
  lemma HeadRenamed<V>(entries: Entries<V>, name: string -> string)
    requires OneToOne(name, entries) && entries != []
    ensures var key, renamed := entries[0].0, Renamed(entries, name);
      && HasKey(entries, key) && renamed[0].0 == name(key) && HasKey(renamed, name(key))
      && LastValue(renamed, name(key)) == LastValue(entries, key)
      && Without(renamed[1..], name(key)) == Renamed(Without(entries[1..], key), name)
      && OneToOne(name, Without(entries[1..], key))
  {
    hide Without, LastValue;
    var key, renamed := entries[0].0, Renamed(entries, name);
    assert HasKey(entries, key) && HasKey(renamed, name(key)) by { assert renamed[0].0 == name(key); }
    LastRenamed(entries, name, key);
    assert renamed[1..] == Renamed(entries[1..], name);
    WithoutRenamed(entries[1..], name, key);
    WithoutIn(entries[1..], key);
    FewerOneToOne(name, entries, Without(entries[1..], key));
  }

  lemma LastRenamed<V>(entries: Entries<V>, name: string -> string, key: string)
    requires HasKey(entries, key) && HasKey(Renamed(entries, name), name(key))
    requires forall i :: 0 <= i < |entries| && name(entries[i].0) == name(key) ==> entries[i].0 == key
    ensures LastValue(Renamed(entries, name), name(key)) == LastValue(entries, key)
  {
    var i := LastAt(entries, key);
    var j := LastAt(Renamed(entries, name), name(key));
    assert Renamed(entries, name)[i].0 == name(key);
    assert i == j;
  }

  lemma {:induction false} WithoutRenamed<V>(entries: Entries<V>, name: string -> string, key: string)
    requires forall i :: 0 <= i < |entries| && name(entries[i].0) == name(key) ==> entries[i].0 == key
    ensures Without(Renamed(entries, name), name(key)) == Renamed(Without(entries, key), name)
    decreases |entries|
  {
    if entries != [] {
      var rest := entries[1..];
      assert Renamed(entries, name)[1..] == Renamed(rest, name);
      assert forall i :: 0 <= i < |rest| ==> rest[i] == entries[i + 1];
      WithoutRenamed(rest, name, key);
      hide Renamed;
      if entries[0].0 != key {
        RenamedHead(entries[0].0, entries[0].1, Without(rest, key), name);
      }
    }
  }

  lemma {:induction false} WithoutIn<V>(entries: Entries<V>, key: string)
    ensures forall e :: e in Without(entries, key) ==> e in entries
    decreases |entries|
  {
    if entries != [] {
      WithoutIn(entries[1..], key);
    }
  }

  lemma FewerOneToOne<V>(name: string -> string, entries: Entries<V>, fewer: Entries<V>)
    requires OneToOne(name, entries) && forall e :: e in fewer ==> e in entries
    ensures OneToOne(name, fewer)
  {
    forall i, j | 0 <= i < j < |fewer| && name(fewer[i].0) == name(fewer[j].0) ensures fewer[i].0 == fewer[j].0 {
      assert fewer[i] in fewer && fewer[j] in fewer;
      assert fewer[i] in entries && fewer[j] in entries;
      var p :| 0 <= p < |entries| && entries[p] == fewer[i];
      var q :| 0 <= q < |entries| && entries[q] == fewer[j];
    }
  }

  // Renaming keys one to one changes nothing.
  lemma SettledRenamed<V>(entries: Entries<V>, renamed: Entries<V>)
    requires |entries| == |renamed| && forall i :: 0 <= i < |entries| ==> entries[i].1 == renamed[i].1
    requires forall i, j :: 0 <= i < j < |entries| ==> (entries[i].0 == entries[j].0 <==> renamed[i].0 == renamed[j].0)
    requires Settled(entries)
    ensures Settled(renamed)
  {
    forall k: string | HasKey(renamed, k) ensures FirstValue(renamed, k) == LastValue(renamed, k) {
      var i := FirstAt(renamed, k);
      var j := LastAt(renamed, k);
      var key := entries[i].0;
      assert HasKey(entries, key);
      var f := FirstAt(entries, key);
      var l := LastAt(entries, key);
      assert i <= j && f <= l;
      assert renamed[f].0 == renamed[i].0 == k && renamed[l].0 == k && entries[j].0 == key;
      assert f == i && l == j;
    }
  }

  // ---------------------------------------------------------------- sorting

  // The order a sort document asks for.
  function CompareBy(compare: (Value, Value) -> int, entries: Entries<Direction>, x: Row, y: Row): int {
    if entries == [] then 0 else
    var c := compare(Lookup(x, entries[0].0), Lookup(y, entries[0].0));
    if c != 0 then Directed(entries[0].1, c) else CompareBy(compare, entries[1..], x, y)
  }

  // A repeated key ends with the direction it began with.
  ghost predicate Settled<V>(entries: Entries<V>) {
    forall k: string :: HasKey(entries, k) ==> FirstValue(entries, k) == LastValue(entries, k)
  }

  lemma {:induction false} CompareWithout(compare: (Value, Value) -> int, entries: Entries<Direction>, key: string,
                                          x: Row, y: Row)
    requires compare(Lookup(x, key), Lookup(y, key)) == 0
    ensures CompareBy(compare, Without(entries, key), x, y) == CompareBy(compare, entries, x, y)
  {
    if entries != [] {
      CompareWithout(compare, entries[1..], key, x, y);
      if entries[0].0 != key {
        assert Without(entries, key)[1..] == Without(entries[1..], key);
      }
    }
  }

  // A repeated key decides nothing the second time, so nothing is lost.
  lemma {:induction false} CollapseSortsAlike(compare: (Value, Value) -> int, entries: Entries<Direction>, x: Row,
                                              y: Row)
    requires Settled(entries)
    ensures CompareBy(compare, FromEntries(entries), x, y) == CompareBy(compare, entries, x, y)
    decreases |entries|
  {
    if entries != [] {
      var key, folded := entries[0].0, FromEntries(entries);
      var rest := Without(entries[1..], key);
      assert folded[1..] == FromEntries(rest);
      assert HasKey(entries, key);
      if compare(Lookup(x, key), Lookup(y, key)) == 0 {
        CompareWithout(compare, entries[1..], key, x, y);
        SettledWithout(entries);
        CollapseSortsAlike(compare, rest, x, y);
      }
    }
  }

  lemma SettledWithout<V>(entries: Entries<V>)
    requires entries != [] && Settled(entries)
    ensures Settled(Without(entries[1..], entries[0].0))
  {
    var key := entries[0].0;
    forall k: string | HasKey(Without(entries[1..], key), k)
      ensures FirstValue(Without(entries[1..], key), k) == LastValue(Without(entries[1..], key), k)
    {
      WithoutKey(entries[1..], key, k);
      WithoutFirst(entries[1..], key, k);
      WithoutLast(entries[1..], key, k);
      HasKeyStep(entries, k);
      LastOfTail(entries, k);
    }
  }

  // Two rows that differ in one field only are ordered by the first entry for it.
  lemma {:induction false} DecidedBy(compare: (Value, Value) -> int, entries: Entries<Direction>, key: string, x: Row,
                                     y: Row)
    requires forall k :: k != key ==> compare(Lookup(x, k), Lookup(y, k)) == 0
    requires compare(Lookup(x, key), Lookup(y, key)) != 0 && HasKey(entries, key)
    ensures CompareBy(compare, entries, x, y)
         == Directed(FirstValue(entries, key), compare(Lookup(x, key), Lookup(y, key)))
  {
    if entries[0].0 != key {
      HasKeyStep(entries, key);
      DecidedBy(compare, entries[1..], key, x, y);
    }
  }

  /** The object sorts as the list does, for all rows, exactly when no target ends with
      another direction than it began with.  a and b are two values the engine orders. */
  lemma CollapseAgreesIff(compare: (Value, Value) -> int, entries: Entries<Direction>, a: Value, b: Value)
    requires compare(a, b) != 0 && forall v :: compare(v, v) == 0
    ensures (forall x, y :: CompareBy(compare, FromEntries(entries), x, y) == CompareBy(compare, entries, x, y))
       <==> Settled(entries)
  {
    if Settled(entries) {
      forall x, y ensures CompareBy(compare, FromEntries(entries), x, y) == CompareBy(compare, entries, x, y) {
        CollapseSortsAlike(compare, entries, x, y);
      }
    } else {
      var key: string :| HasKey(entries, key) && FirstValue(entries, key) != LastValue(entries, key);
      var row: Row := map[];
      var x, y := row[key := a], row[key := b];
      DecidedBy(compare, entries, key, x, y);
      FromEntriesValue(entries, key);
      DecidedBy(compare, FromEntries(entries), key, x, y);
    }
  }
}
