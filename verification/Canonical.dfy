/**
 canonicalJson: the text that audit hashes are computed over.  Two values have
 the same text exactly when they are the same up to the order of object keys
 and undefined fields.
 */
module Canonical {
  import opened Wrappers
  import opened Json
  import opened Ordering

  // A JavaScript value; fields are in insertion order, their keys distinct.
  datatype JsValue =
    | JsUndefined
    | JsNull
    | JsBool(b: bool)
    | JsNumber(token: NumberToken)
    | JsNonFinite
    | JsString(s: string)
    | JsArray(items: seq<JsValue>)
    | JsObject(fields: seq<JsField>)
    | JsUnsupported

  datatype JsField = JsField(key: string, value: JsValue)

  function FieldKey(f: Field): string { f.key }
  function JsKey(f: JsField): string { f.key }

  // ---------------------------------------------------------------- the canonical tree and its text

  // None where canonicalJson throws.
  function Canon(v: JsValue): Option<Json>
    decreases v
  {
    match v
    case JsNull => Some(Null)
    case JsBool(b) => Some(Bool(b))
    case JsNumber(token) => Some(Num(token))
    case JsString(s) => Some(Str(s))
    case JsArray(items) =>
      var canon := CanonItems(items);
      if canon.None? then None else Some(Arr(canon.value))
    case JsObject(fields) =>
      var canon := CanonFields(fields);
      if canon.None? then None else Some(Obj(SortBy(canon.value, FieldKey)))
    case _ => None
  }

  function CanonItems(items: seq<JsValue>): Option<seq<Json>>
    decreases items
  {
    if items == [] then Some([]) else
    var head, tail := Canon(items[0]), CanonItems(items[1..]);
    if head.None? || tail.None? then None else Some([head.value] + tail.value)
  }

  // Undefined fields are dropped.
  function CanonFields(fields: seq<JsField>): Option<seq<Field>>
    decreases fields
  {
    if fields == [] then Some([])
    else if fields[0].value.JsUndefined? then CanonFields(fields[1..])
    else
      var head, tail := Canon(fields[0].value), CanonFields(fields[1..]);
      if head.None? || tail.None? then None else Some([Field(fields[0].key, head.value)] + tail.value)
  }

  function CanonicalJson(v: JsValue): Option<string> {
    var canon := Canon(v);
    if canon.None? then None else Some(Render(canon.value))
  }

  // ---------------------------------------------------------------- when two values are the same

  ghost predicate WellFormed(v: JsValue)
    decreases v
  {
    match v
    case JsArray(items) => forall i :: 0 <= i < |items| ==> WellFormed(items[i])
    case JsObject(fields) =>
      && Distinct(fields, JsKey)
      && forall i :: 0 <= i < |fields| ==> WellFormed(fields[i].value)
    case _ => true
  }

  // Same value up to key order and undefined fields.
  ghost predicate SameValue(a: JsValue, b: JsValue)
    decreases a
  {
    match a
    case JsArray(items) =>
      b.JsArray? && |items| == |b.items| && forall i :: 0 <= i < |items| ==> SameValue(items[i], b.items[i])
    case JsObject(fields) =>
      && b.JsObject?
      && (forall i :: 0 <= i < |fields| && !fields[i].value.JsUndefined? ==>
            exists j :: 0 <= j < |b.fields| && b.fields[j].key == fields[i].key &&
                SameValue(fields[i].value, b.fields[j].value))
      && (forall j :: 0 <= j < |b.fields| && !b.fields[j].value.JsUndefined? ==>
            exists i :: 0 <= i < |fields| && fields[i].key == b.fields[j].key && !fields[i].value.JsUndefined?)
    case _ => a == b
  }

  // The canonical form of a single field.
  ghost predicate CanonOf(f: Field, g: JsField) {
    !g.value.JsUndefined? && g.key == f.key && Canon(g.value) == Some(f.value)
  }

  lemma {:induction false} CanonFieldsContents(fields: seq<JsField>)
    requires CanonFields(fields).Some?
    ensures forall i :: 0 <= i < |fields| && !fields[i].value.JsUndefined? ==>
              Canon(fields[i].value).Some? &&
                  Field(fields[i].key, Canon(fields[i].value).value) in CanonFields(fields).value
    ensures forall f :: f in CanonFields(fields).value ==> exists i :: 0 <= i < |fields| && CanonOf(f, fields[i])
    decreases fields
  {
    hide Canon;
    if fields != [] {
      var rest := fields[1..];
      CanonFieldsContents(rest);
      forall i | 0 <= i < |fields| && !fields[i].value.JsUndefined?
        ensures Canon(fields[i].value).Some? &&
          Field(fields[i].key, Canon(fields[i].value).value) in CanonFields(fields).value
      {
        assert i > 0 ==> rest[i - 1] == fields[i];
      }
      forall f | f in CanonFields(fields).value ensures exists i :: 0 <= i < |fields| && CanonOf(f, fields[i]) {
        if f in CanonFields(rest).value {
          var i :| 0 <= i < |rest| && CanonOf(f, rest[i]);
          assert CanonOf(f, fields[i + 1]);
        } else {
          assert CanonOf(f, fields[0]);
        }
      }
    }
  }

  lemma {:induction false} CanonFieldsDistinct(fields: seq<JsField>)
    requires CanonFields(fields).Some? && Distinct(fields, JsKey)
    ensures Distinct(CanonFields(fields).value, FieldKey)
    decreases fields
  {
    hide Canon;
    if fields != [] {
      var rest := fields[1..];
      assert Distinct(rest, JsKey) by {
        forall i, j | 0 <= i < j < |rest| ensures JsKey(rest[i]) != JsKey(rest[j]) {
          assert JsKey(fields[i + 1]) != JsKey(fields[j + 1]);
        }
      }
      CanonFieldsDistinct(rest);
      CanonFieldsContents(rest);
      var tail := CanonFields(rest).value;
      forall j | 0 <= j < |tail| ensures FieldKey(tail[j]) != fields[0].key {
        assert tail[j] in tail;
        var i :| 0 <= i < |rest| && CanonOf(tail[j], rest[i]);
        assert JsKey(fields[0]) != JsKey(fields[i + 1]);
      }
    }
  }

  // A set of fields with distinct keys can be put in order in one way only.
  lemma {:induction false} AscendingUnique(a: seq<Field>, b: seq<Field>)
    requires Ascending(a, FieldKey) && Ascending(b, FieldKey)
    requires forall f :: f in a <==> f in b
    ensures a == b
    decreases |a|
  {
    BothEmpty(a, b);
    BothEmpty(b, a);
    if a != [] {
      AscendingHead(a, b);
      AscendingTail(a, b);
      AscendingTail(b, a);
      var s, t := a[1..], b[1..];
      assert Ascending(s, FieldKey) && Ascending(t, FieldKey) by {
        forall i, j | 0 <= i < j < |s| ensures Less(FieldKey(s[i]), FieldKey(s[j])) {
          assert Less(FieldKey(a[i + 1]), FieldKey(a[j + 1]));
        }
        forall i, j | 0 <= i < j < |t| ensures Less(FieldKey(t[i]), FieldKey(t[j])) {
          assert Less(FieldKey(b[i + 1]), FieldKey(b[j + 1]));
        }
      }
      AscendingUnique(s, t);
      assert a == [a[0]] + s && b == [b[0]] + t;
    }
  }

  lemma BothEmpty(a: seq<Field>, b: seq<Field>)
    requires forall f :: f in a ==> f in b
    ensures a != [] ==> b != []
  {
    if a != [] {
      assert a[0] in b;
    }
  }

  lemma FirstIsLeast(a: seq<Field>, i: nat)
    requires Ascending(a, FieldKey) && i < |a|
    ensures i == 0 || Less(FieldKey(a[0]), FieldKey(a[i]))
  {
  }

  lemma AscendingHead(a: seq<Field>, b: seq<Field>)
    requires Ascending(a, FieldKey) && Ascending(b, FieldKey) && a != [] && b != []
    requires forall f :: f in a <==> f in b
    ensures a[0] == b[0]
  {
    assert a[0] in b && b[0] in a;
    var j :| 0 <= j < |b| && b[j] == a[0];
    var i :| 0 <= i < |a| && a[i] == b[0];
    LessTotal(FieldKey(a[0]), FieldKey(b[0]));
    FirstIsLeast(b, j);
    FirstIsLeast(a, i);
  }

  lemma AscendingTail(a: seq<Field>, b: seq<Field>)
    requires Ascending(a, FieldKey) && Ascending(b, FieldKey) && a != [] && b != [] && a[0] == b[0]
    requires forall f :: f in a ==> f in b
    ensures forall f :: f in a[1..] ==> f in b[1..]
  {
    forall f | f in a[1..] ensures f in b[1..] {
      var i :| 1 <= i < |a| && a[i] == f;
      assert Less(FieldKey(a[0]), FieldKey(a[i]));
      LessTotal(FieldKey(a[0]), FieldKey(a[i]));
      assert f in b;
      var j :| 0 <= j < |b| && b[j] == f;
      assert j > 0;
      assert b[1..][j - 1] == f;
    }
  }

  // ---------------------------------------------------------------- same text iff same value

  lemma {:induction false} SameTextSameValue(a: JsValue, b: JsValue)
    requires WellFormed(a) && WellFormed(b) && Canon(a).Some? && Canon(a) == Canon(b)
    ensures SameValue(a, b)
    decreases a
  {
    if a.JsArray? {
      ItemsOfSameText(a.items, b.items);
    } else if a.JsObject? {
      ObjectsOfSameText(a, b);
      forall i | 0 <= i < |a.fields| && !a.fields[i].value.JsUndefined?
        ensures exists j :: 0 <= j < |b.fields| && b.fields[j].key == a.fields[i].key &&
                            SameValue(a.fields[i].value, b.fields[j].value)
      {
        var j :| 0 <= j < |b.fields| && b.fields[j].key == a.fields[i].key && Canon(a.fields[i].value).Some?
              && Canon(a.fields[i].value) == Canon(b.fields[j].value);
        SameTextSameValue(a.fields[i].value, b.fields[j].value);
      }
    }
  }

  // Every defined field of one object has a namesake with the same canonical form in the other.
  lemma ObjectsOfSameText(a: JsValue, b: JsValue)
    requires WellFormed(a) && WellFormed(b) && Canon(a).Some? && Canon(a) == Canon(b)
    requires a.JsObject?
    ensures b.JsObject?
    ensures forall i :: 0 <= i < |a.fields| && !a.fields[i].value.JsUndefined? ==>
              exists j :: 0 <= j < |b.fields| && b.fields[j].key == a.fields[i].key && Canon(a.fields[i].value).Some?
                          && Canon(a.fields[i].value) == Canon(b.fields[j].value)
    ensures forall j :: 0 <= j < |b.fields| && !b.fields[j].value.JsUndefined? ==>
              exists i :: 0 <= i < |a.fields| && a.fields[i].key == b.fields[j].key && !a.fields[i].value.JsUndefined?
  {
    hide Canon;
    SameCanonFields(a, b);
    CanonFieldsContents(a.fields);
    CanonFieldsContents(b.fields);
    var p, q := CanonFields(a.fields).value, CanonFields(b.fields).value;
    forall i | 0 <= i < |a.fields| && !a.fields[i].value.JsUndefined?
      ensures exists j :: 0 <= j < |b.fields| && b.fields[j].key == a.fields[i].key && Canon(a.fields[i].value).Some?
                          && Canon(a.fields[i].value) == Canon(b.fields[j].value)
    {
      var f := Field(a.fields[i].key, Canon(a.fields[i].value).value);
      assert f in q;
      var j :| 0 <= j < |b.fields| && CanonOf(f, b.fields[j]);
    }
    forall j | 0 <= j < |b.fields| && !b.fields[j].value.JsUndefined?
      ensures exists i :: 0 <= i < |a.fields| && a.fields[i].key == b.fields[j].key && !a.fields[i].value.JsUndefined?
    {
      var f := Field(b.fields[j].key, Canon(b.fields[j].value).value);
      assert f in p;
      var i :| 0 <= i < |a.fields| && CanonOf(f, a.fields[i]);
    }
  }

  lemma SameCanonFields(a: JsValue, b: JsValue)
    requires WellFormed(a) && WellFormed(b) && Canon(a).Some? && Canon(a) == Canon(b) && a.JsObject?
    ensures b.JsObject? && CanonFields(a.fields).Some? && CanonFields(b.fields).Some?
    ensures forall f :: f in CanonFields(a.fields).value <==> f in CanonFields(b.fields).value
  {
    assert b.JsObject?;
    var p, q := CanonFields(a.fields).value, CanonFields(b.fields).value;
    CanonFieldsDistinct(a.fields);
    CanonFieldsDistinct(b.fields);
    SortedElements(p);
    SortedElements(q);
    assert SortBy(p, FieldKey) == SortBy(q, FieldKey);
  }

  lemma {:induction false} ItemsOfSameText(a: seq<JsValue>, b: seq<JsValue>)
    requires forall i :: 0 <= i < |a| ==> WellFormed(a[i])
    requires forall i :: 0 <= i < |b| ==> WellFormed(b[i])
    requires CanonItems(a).Some? && CanonItems(a) == CanonItems(b)
    ensures |a| == |b| && forall i :: 0 <= i < |a| ==> SameValue(a[i], b[i])
    decreases a
  {
    CanonItemsLength(a);
    CanonItemsLength(b);
    if a != [] {
      var p, q := CanonItems(a).value, CanonItems(b).value;
      assert p[0] == q[0] && p[1..] == q[1..];
      SameTextSameValue(a[0], b[0]);
      ItemsOfSameText(a[1..], b[1..]);
      forall i | 0 <= i < |a| ensures SameValue(a[i], b[i]) {
        assert i > 0 ==> a[i] == a[1..][i - 1] && b[i] == b[1..][i - 1];
      }
    }
  }

  lemma {:induction false} CanonItemsLength(a: seq<JsValue>)
    requires CanonItems(a).Some?
    ensures |CanonItems(a).value| == |a|
    decreases a
  {
    if a != [] {
      CanonItemsLength(a[1..]);
    }
  }

  lemma {:induction false} SameValueSameText(a: JsValue, b: JsValue)
    requires WellFormed(a) && WellFormed(b) && Canon(a).Some? && Canon(b).Some? && SameValue(a, b)
    ensures Canon(a) == Canon(b)
    decreases a
  {
    if a.JsArray? {
      SameItemsSameText(a.items, b.items);
    } else if a.JsObject? {
      forall i, j | 0 <= i < |a.fields| && 0 <= j < |b.fields| && SameValue(a.fields[i].value, b.fields[j].value)
                    && Canon(a.fields[i].value).Some? && Canon(b.fields[j].value).Some?
        ensures Canon(a.fields[i].value) == Canon(b.fields[j].value)
      {
        SameValueSameText(a.fields[i].value, b.fields[j].value);
      }
      SameFieldsSameText(a, b);
    }
  }

  lemma {:induction false} SameItemsSameText(a: seq<JsValue>, b: seq<JsValue>)
    requires |a| == |b| && forall i :: 0 <= i < |a| ==> WellFormed(a[i]) && WellFormed(b[i]) && SameValue(a[i], b[i])
    requires CanonItems(a).Some? && CanonItems(b).Some?
    ensures CanonItems(a) == CanonItems(b)
    decreases a
  {
    if a != [] {
      SameValueSameText(a[0], b[0]);
      SameItemsSameText(a[1..], b[1..]);
    }
  }

  lemma SameFieldsSameText(a: JsValue, b: JsValue)
    requires WellFormed(a) && WellFormed(b) && Canon(a).Some? && Canon(b).Some? && SameValue(a, b) && a.JsObject?
    requires forall i, j ::
               0 <= i < |a.fields| && 0 <= j < |b.fields| && SameValue(a.fields[i].value, b.fields[j].value)
               && Canon(a.fields[i].value).Some? && Canon(b.fields[j].value).Some?
               ==> Canon(a.fields[i].value) == Canon(b.fields[j].value)
    ensures Canon(a) == Canon(b)
  {
    var p, q := CanonFields(a.fields).value, CanonFields(b.fields).value;
    CanonFieldsDistinct(a.fields);
    CanonFieldsDistinct(b.fields);
    CanonFieldsContents(a.fields);
    CanonFieldsContents(b.fields);
    assert forall f :: f in p ==> f in q by {
      forall f | f in p ensures f in q {
        var i :| 0 <= i < |a.fields| && CanonOf(f, a.fields[i]);
        FieldFound(a, b, i);
      }
    }
    assert forall f :: f in q ==> f in p by {
      forall f | f in q ensures f in p {
        var j :| 0 <= j < |b.fields| && CanonOf(f, b.fields[j]);
        FieldFoundBack(a, b, j);
      }
    }
    SortBySorts(p, FieldKey);
    SortBySorts(q, FieldKey);
    SortedElements(p);
    SortedElements(q);
    AscendingUnique(SortBy(p, FieldKey), SortBy(q, FieldKey));
  }

  lemma SortedElements(p: seq<Field>)
    requires Distinct(p, FieldKey)
    ensures forall f :: f in SortBy(p, FieldKey) <==> f in p
  {
    SortBySorts(p, FieldKey);
    forall f ensures f in SortBy(p, FieldKey) <==> f in p {
      assert f in multiset(SortBy(p, FieldKey)) <==> f in multiset(p);
    }
  }

  lemma SameUndefined(a: JsValue, b: JsValue)
    requires SameValue(a, b)
    ensures a.JsUndefined? <==> b.JsUndefined?
  {
  }

  lemma FieldFound(a: JsValue, b: JsValue, i: nat)
    requires WellFormed(b) && SameValue(a, b) && a.JsObject? && i < |a.fields| && !a.fields[i].value.JsUndefined?
    requires Canon(a.fields[i].value).Some? && CanonFields(b.fields).Some?
    requires forall i, j ::
               0 <= i < |a.fields| && 0 <= j < |b.fields| && SameValue(a.fields[i].value, b.fields[j].value)
               && Canon(a.fields[i].value).Some? && Canon(b.fields[j].value).Some?
               ==> Canon(a.fields[i].value) == Canon(b.fields[j].value)
    ensures Field(a.fields[i].key, Canon(a.fields[i].value).value) in CanonFields(b.fields).value
  {
    hide Canon, CanonFields;
    var j :| 0 <= j < |b.fields| && b.fields[j].key == a.fields[i].key &&
        SameValue(a.fields[i].value, b.fields[j].value);
    SameUndefined(a.fields[i].value, b.fields[j].value);
    CanonFieldsContents(b.fields);
  }

  lemma FieldFoundBack(a: JsValue, b: JsValue, j: nat)
    requires WellFormed(a) && WellFormed(b) && SameValue(a, b) && a.JsObject? && j < |b.fields| &&
      !b.fields[j].value.JsUndefined?
    requires Canon(b.fields[j].value).Some? && CanonFields(a.fields).Some?
    requires forall i, j ::
               0 <= i < |a.fields| && 0 <= j < |b.fields| && SameValue(a.fields[i].value, b.fields[j].value)
               && Canon(a.fields[i].value).Some? && Canon(b.fields[j].value).Some?
               ==> Canon(a.fields[i].value) == Canon(b.fields[j].value)
    ensures Field(b.fields[j].key, Canon(b.fields[j].value).value) in CanonFields(a.fields).value
  {
    hide Canon, CanonFields;
    var i :| 0 <= i < |a.fields| && a.fields[i].key == b.fields[j].key && !a.fields[i].value.JsUndefined?;
    var k :| 0 <= k < |b.fields| && b.fields[k].key == a.fields[i].key &&
        SameValue(a.fields[i].value, b.fields[k].value);
    assert k == j by {
      assert JsKey(b.fields[k]) == JsKey(b.fields[j]);
    }
    CanonFieldsContents(a.fields);
  }

  // The canonical text determines a value exactly up to key order and undefined fields.
  lemma SameTextIff(a: JsValue, b: JsValue)
    requires WellFormed(a) && WellFormed(b) && CanonicalJson(a).Some? && CanonicalJson(b).Some?
    ensures CanonicalJson(a) == CanonicalJson(b) <==> SameValue(a, b)
  {
    if CanonicalJson(a) == CanonicalJson(b) {
      RenderInjective(Canon(a).value, Canon(b).value);
      SameTextSameValue(a, b);
    } else if SameValue(a, b) {
      SameValueSameText(a, b);
    }
  }

  // ---------------------------------------------------------------- reading the canonical text

  // What JSON.parse makes of a text, given the tree that the text stands for.
  function FromJson(j: Json): JsValue
    decreases j
  {
    match j
    case Null => JsNull
    case Bool(b) => JsBool(b)
    case Num(token) => JsNumber(token)
    case Str(s) => JsString(s)
    case Arr(items) => JsArray(seq(|items|, i requires 0 <= i < |items| => FromJson(items[i])))
    case Obj(fields) =>
      JsObject(seq(|fields|, i requires 0 <= i < |fields| => JsField(fields[i].key, FromJson(fields[i].value))))
  }

  // In every object the keys ascend.
  ghost predicate KeysAscend(j: Json)
    decreases j
  {
    match j
    case Arr(items) => forall i :: 0 <= i < |items| ==> KeysAscend(items[i])
    case Obj(fields) =>
      Ascending(fields, FieldKey) && forall i :: 0 <= i < |fields| ==> KeysAscend(fields[i].value)
    case _ => true
  }

  /** The canonical text, parsed again, is the value it was made for, its keys in order. */
  lemma CanonicalReadsBack(v: JsValue)
    requires WellFormed(v) && CanonicalJson(v).Some?
    ensures var r := ReadValue(CanonicalJson(v).value);
            r.Some? && r.value.1 == "" && SameValue(v, FromJson(r.value.0)) && KeysAscend(r.value.0)
  {
    hide Render, ReadValue, Canon;
    var j := Canon(v).value;
    assert Render(j) + "" == Render(j);
    RenderReadsBack(j, "");
    CanonIsSame(v);
  }

  lemma {:induction false} CanonIsSame(v: JsValue)
    requires WellFormed(v) && Canon(v).Some?
    ensures SameValue(v, FromJson(Canon(v).value)) && KeysAscend(Canon(v).value)
    decreases v, 1
  {
    if v.JsArray? {
      CanonItemsAre(v.items);
      forall i | 0 <= i < |v.items|
        ensures SameValue(v.items[i], FromJson(CanonItems(v.items).value[i]))
        ensures KeysAscend(CanonItems(v.items).value[i])
      {
        CanonIsSame(v.items[i]);
      }
    } else if v.JsObject? {
      var p := CanonFields(v.fields).value;
      CanonFieldsDistinct(v.fields);
      SortBySorts(p, FieldKey);
      CanonObjectIsSame(v, p, SortBy(p, FieldKey));
    }
  }

  lemma {:induction false} CanonObjectIsSame(v: JsValue, p: seq<Field>, q: seq<Field>)
    requires v.JsObject? && WellFormed(v) && CanonFields(v.fields) == Some(p) && q == SortBy(p, FieldKey)
    ensures SameValue(v, FromJson(Obj(q))) && forall j :: 0 <= j < |q| ==> KeysAscend(q[j].value)
    decreases v, 0
  {
    hide Canon, SameValue, KeysAscend, SortBy;
    CanonFieldsContents(v.fields);
    CanonFieldsDistinct(v.fields);
    SortedElements(p);
    var w := FromJson(Obj(q));
    var read := w.fields;
    forall i | 0 <= i < |v.fields| && !v.fields[i].value.JsUndefined? ensures HasSame(read, v.fields[i]) {
      CanonIsSame(v.fields[i].value);
      var f := Field(v.fields[i].key, Canon(v.fields[i].value).value);
      assert f in q;
      var j :| 0 <= j < |q| && q[j] == f;
      assert read[j].key == f.key && read[j].value == FromJson(f.value);
    }
    forall j | 0 <= j < |q|
      ensures KeysAscend(q[j].value)
      ensures HasDefined(v.fields, read[j].key)
    {
      assert q[j] in p;
      var i :| 0 <= i < |v.fields| && CanonOf(q[j], v.fields[i]);
      CanonIsSame(v.fields[i].value);
    }
    FieldsAreSame(v, w);
  }

  lemma {:induction false} CanonItemsAre(items: seq<JsValue>)
    requires CanonItems(items).Some?
    ensures |CanonItems(items).value| == |items|
    ensures forall i :: 0 <= i < |items| ==> Canon(items[i]) == Some(CanonItems(items).value[i])
    decreases items
  {
    hide Canon;
    if items != [] {
      CanonItemsAre(items[1..]);
      assert forall i :: 0 < i < |items| ==> items[i] == items[1..][i - 1];
    }
  }

  // An object that has the defined fields of another and no other key is the same value.
  lemma FieldsAreSame(a: JsValue, b: JsValue)
    requires a.JsObject? && b.JsObject?
    requires forall i :: 0 <= i < |a.fields| && !a.fields[i].value.JsUndefined? ==> HasSame(b.fields, a.fields[i])
    requires forall j :: 0 <= j < |b.fields| ==> HasDefined(a.fields, b.fields[j].key)
    ensures SameValue(a, b)
  {
    forall i | 0 <= i < |a.fields| && !a.fields[i].value.JsUndefined?
      ensures exists j :: 0 <= j < |b.fields| && b.fields[j].key == a.fields[i].key &&
                          SameValue(a.fields[i].value, b.fields[j].value)
    {
      hide SameValue;
      assert HasSame(b.fields, a.fields[i]);
    }
    forall j | 0 <= j < |b.fields| && !b.fields[j].value.JsUndefined?
      ensures exists i :: 0 <= i < |a.fields| && a.fields[i].key == b.fields[j].key && !a.fields[i].value.JsUndefined?
    {
      hide SameValue;
      assert HasDefined(a.fields, b.fields[j].key);
    }
    hide HasSame;
  }

  ghost predicate HasDefined(a: seq<JsField>, key: string) {
    exists i :: 0 <= i < |a| && a[i].key == key && !a[i].value.JsUndefined?
  }

  ghost predicate HasSame(b: seq<JsField>, f: JsField) {
    exists j :: 0 <= j < |b| && b[j].key == f.key && SameValue(f.value, b[j].value)
  }

  // ---------------------------------------------------------------- values that came out of JSON.parse

  // Nothing that canonicalJson rejects.
  ghost predicate Parsed(v: JsValue)
    decreases v
  {
    match v
    case JsArray(items) => forall i :: 0 <= i < |items| ==> Parsed(items[i])
    case JsObject(fields) =>
      Distinct(fields, JsKey) && forall i :: 0 <= i < |fields| ==> Parsed(fields[i].value)
    case JsUndefined => false
    case JsNonFinite => false
    case JsUnsupported => false
    case _ => true
  }

  lemma {:induction false} ParsedIsCanonical(v: JsValue)
    requires Parsed(v)
    ensures WellFormed(v) && CanonicalJson(v).Some?
    decreases v
  {
    if v.JsArray? {
      ParsedItems(v.items);
    } else if v.JsObject? {
      ParsedFields(v.fields);
    }
  }

  lemma {:induction false} ParsedItems(items: seq<JsValue>)
    requires forall i :: 0 <= i < |items| ==> Parsed(items[i])
    ensures (forall i :: 0 <= i < |items| ==> WellFormed(items[i])) && CanonItems(items).Some?
    decreases items
  {
    if items != [] {
      ParsedIsCanonical(items[0]);
      ParsedItems(items[1..]);
      forall i | 0 <= i < |items| ensures WellFormed(items[i]) {
        assert i > 0 ==> items[i] == items[1..][i - 1];
      }
    }
  }

  lemma {:induction false} ParsedFields(fields: seq<JsField>)
    requires forall i :: 0 <= i < |fields| ==> Parsed(fields[i].value)
    ensures (forall i :: 0 <= i < |fields| ==> WellFormed(fields[i].value)) && CanonFields(fields).Some?
    decreases fields
  {
    if fields != [] {
      ParsedIsCanonical(fields[0].value);
      ParsedFields(fields[1..]);
      forall i | 0 <= i < |fields| ensures WellFormed(fields[i].value) {
        assert i > 0 ==> fields[i] == fields[1..][i - 1];
      }
    }
  }
}
