/**
 The audit chain: how an event is sealed, how a stored chain is verified, and
 why verification pins down every event.  HMAC is an injective function of the
 key, the purpose and the text.
 */
module AuditChain {
  import opened Wrappers
  import opened Json
  import opened Ordering
  import opened Canonical
  import opened Numerals

  datatype Event = Event(
    id: string,
    sequence: nat,
    previousHash: Option<string>,
    userReference: Option<string>,
    eventType: string,
    resource: Option<string>,
    outcome: string,
    messageReference: Option<string>,
    details: JsValue,
    createdAt: string)

  datatype Row = Row(event: Event, eventHash: string, anchorHash: string, keyId: string)

  datatype Anchor = Anchor(throughSequence: nat, eventHash: string, anchorHash: string, keyId: string)

  datatype ChainState = ChainState(lastSequence: Option<nat>, lastHash: Option<string>)

  // VersionedHmac: key id, purpose and value to hash; keys are the ids of the ring.
  datatype Integrity = Integrity(mac: (string, string, string) -> string, keys: set<string>, activeKeyId: string)

  ghost predicate Injective(integrity: Integrity) {
    forall k, p, v, k', p', v' :: integrity.mac(k, p, v) == integrity.mac(k', p', v') ==> k == k' && p == p' && v == v'
  }

  // There are such functions: the text of all three together.
  lemma InjectiveIsPossible(keys: set<string>, activeKeyId: string) returns (integrity: Integrity)
    ensures Injective(integrity) && integrity.keys == keys && integrity.activeKeyId == activeKeyId
  {
    var mac := (k: string, p: string, v: string) => Render(Arr([Str(k), Str(p), Str(v)]));
    integrity := Integrity(mac, keys, activeKeyId);
    forall k, p, v, k', p', v' | mac(k, p, v) == mac(k', p', v') ensures k == k' && p == p' && v == v' {
      var a, b := [Str(k), Str(p), Str(v)], [Str(k'), Str(p'), Str(v')];
      RenderInjective(Arr(a), Arr(b));
      assert a[0] == b[0] && a[1] == b[1] && a[2] == b[2];
    }
  }

  // ---------------------------------------------------------------- canonical payloads

  function TextOrNull(text: Option<string>): JsValue {
    if text.Some? then JsString(text.value) else JsNull
  }

  function EventValue(e: Event): JsValue {
    JsObject([
      JsField("id", JsString(e.id)),
      JsField("sequence", JsString(Decimal(e.sequence))),
      JsField("previousHash", TextOrNull(e.previousHash)),
      JsField("userReference", TextOrNull(e.userReference)),
      JsField("eventType", JsString(e.eventType)),
      JsField("resource", TextOrNull(e.resource)),
      JsField("outcome", JsString(e.outcome)),
      JsField("messageReference", TextOrNull(e.messageReference)),
      JsField("details", e.details),
      JsField("createdAt", JsString(e.createdAt))])
  }

  function AnchorValue(sequence: nat, eventHash: string): JsValue {
    JsObject([JsField("sequence", JsString(Decimal(sequence))), JsField("eventHash", JsString(eventHash))])
  }

  // The text that is hashed; "" where canonicalJson throws, which parsed details never do.
  function Text(v: JsValue): string {
    var text := CanonicalJson(v);
    if text.Some? then text.value else ""
  }

  function EventHash(integrity: Integrity, keyId: string, e: Event): string {
    integrity.mac(keyId, "audit-event", Text(EventValue(e)))
  }

  function AnchorHash(integrity: Integrity, keyId: string, sequence: nat, eventHash: string): string {
    integrity.mac(keyId, "audit-anchor", Text(AnchorValue(sequence, eventHash)))
  }

  // ---------------------------------------------------------------- what a payload determines

  // Two events that differ at most in the key order of their details.
  ghost predicate SameEvent(e: Event, f: Event) {
    e.(details := JsNull) == f.(details := JsNull) && SameValue(e.details, f.details)
  }

  lemma EventValueParsed(e: Event)
    requires Parsed(e.details)
    ensures Parsed(EventValue(e)) && WellFormed(EventValue(e)) && CanonicalJson(EventValue(e)).Some?
  {
    EventKeysDistinct(e);
    ParsedIsCanonical(EventValue(e));
  }

  lemma EventKeysDistinct(e: Event)
    ensures Distinct(EventValue(e).fields, JsKey)
  {
    var fields := EventValue(e).fields;
    forall i, j | 0 <= i < j < |fields| ensures JsKey(fields[i]) != JsKey(fields[j]) {
      assert |fields[i].key| != |fields[j].key| || fields[i].key[0] != fields[j].key[0];
    }
  }

  // Fields at the same place of two objects with the same, distinct keys correspond.
  lemma SameAtPlace(a: seq<JsField>, b: seq<JsField>, i: nat)
    requires |a| == |b| && Distinct(b, JsKey) && SameValue(JsObject(a), JsObject(b)) && i < |a|
    requires a[i].key == b[i].key && !a[i].value.JsUndefined?
    ensures SameValue(a[i].value, b[i].value)
  {
    var j :| 0 <= j < |b| && b[j].key == a[i].key && SameValue(a[i].value, b[j].value);
    assert j != i ==> JsKey(b[i]) != JsKey(b[j]);
  }

  // Events have their fields at the same places.
  lemma EventFieldsSame(e: Event, f: Event)
    requires SameValue(EventValue(e), EventValue(f)) && !e.details.JsUndefined?
    ensures forall i :: 0 <= i < 10 ==> SameValue(EventValue(e).fields[i].value, EventValue(f).fields[i].value)
  {
    hide SameValue;
    EventKeysDistinct(f);
    var a, b := EventValue(e).fields, EventValue(f).fields;
    forall i | 0 <= i < 10 ensures SameValue(a[i].value, b[i].value) {
      SameAtPlace(a, b, i);
    }
  }

  lemma ScalarSame(a: JsValue, b: JsValue)
    requires !a.JsArray? && !a.JsObject?
    ensures SameValue(a, b) <==> a == b
  {
  }

  lemma EventsSame(e: Event, f: Event)
    requires SameValue(EventValue(e), EventValue(f)) && !e.details.JsUndefined?
    ensures SameEvent(e, f)
  {
    hide SameValue;
    EventFieldsSame(e, f);
    var a, b := EventValue(e).fields, EventValue(f).fields;
    forall i | 0 <= i < 10 && i != 8 ensures a[i].value == b[i].value {
      ScalarSame(a[i].value, b[i].value);
    }
    assert a[0].value == b[0].value && a[1].value == b[1].value && a[2].value == b[2].value && a[3].value == b[3].value;
    assert a[4].value == b[4].value && a[5].value == b[5].value && a[6].value == b[6].value && a[7].value == b[7].value;
    assert a[9].value == b[9].value && SameValue(a[8].value, b[8].value);
    DecimalInjective(e.sequence, f.sequence);
  }

  lemma PayloadDeterminesEvent(e: Event, f: Event)
    requires Parsed(e.details) && Parsed(f.details)
    requires Text(EventValue(e)) == Text(EventValue(f))
    ensures SameEvent(e, f)
  {
    hide EventValue, CanonicalJson, SameValue, SameEvent;
    EventValueParsed(e);
    EventValueParsed(f);
    SameTextIff(EventValue(e), EventValue(f));
    EventsSame(e, f);
  }

  // Conversely, the key order in which details are stored does not matter.
  lemma SameEventSamePayload(e: Event, f: Event)
    requires Parsed(e.details) && Parsed(f.details) && SameEvent(e, f)
    ensures Text(EventValue(e)) == Text(EventValue(f))
  {
    hide CanonicalJson;
    EventValueParsed(e);
    EventValueParsed(f);
    SameTextIff(EventValue(e), EventValue(f));
    SameEventSameValue(e, f);
  }

  lemma SameEventSameValue(e: Event, f: Event)
    requires SameEvent(e, f)
    ensures SameValue(EventValue(e), EventValue(f))
  {
    var a, b := EventValue(e), EventValue(f);
    var d, c := e.(details := JsNull), f.(details := JsNull);
    assert d.id == c.id && d.sequence == c.sequence && d.previousHash == c.previousHash &&
        d.userReference == c.userReference;
    assert d.eventType == c.eventType && d.resource == c.resource && d.outcome == c.outcome;
    assert d.messageReference == c.messageReference && d.createdAt == c.createdAt;
    forall i | 0 <= i < 10
      ensures SameValue(a.fields[i].value, b.fields[i].value) && a.fields[i].key == b.fields[i].key
           && (a.fields[i].value.JsUndefined? <==> b.fields[i].value.JsUndefined?)
    {
      if i != 8 {
        assert a.fields[i].value == b.fields[i].value;
        ScalarSame(a.fields[i].value, b.fields[i].value);
      } else {
        SameUndefined(e.details, f.details);
      }
    }
    PlacewiseSame(a.fields, b.fields);
  }

  lemma PlacewiseSame(a: seq<JsField>, b: seq<JsField>)
    requires |a| == |b|
    requires forall i :: 0 <= i < |a| ==>
               && SameValue(a[i].value, b[i].value) && a[i].key == b[i].key
               && (a[i].value.JsUndefined? <==> b[i].value.JsUndefined?)
    ensures SameValue(JsObject(a), JsObject(b))
  {
    forall i | 0 <= i < |a| && !a[i].value.JsUndefined?
      ensures exists j :: 0 <= j < |b| && b[j].key == a[i].key && SameValue(a[i].value, b[j].value)
    {
      assert b[i].key == a[i].key;
    }
    forall j | 0 <= j < |b| && !b[j].value.JsUndefined?
      ensures exists i :: 0 <= i < |a| && a[i].key == b[j].key && !a[i].value.JsUndefined?
    {
      assert a[j].key == b[j].key;
    }
  }

  // ---------------------------------------------------------------- verification

  datatype VerifyError = AnchorForged | LinkMismatch(sequence: nat) | EventForged(sequence: nat) | TailMismatch

  predicate AnchorAuthentic(integrity: Integrity, a: Anchor) {
    a.keyId in integrity.keys && AnchorHash(integrity, a.keyId, a.throughSequence, a.eventHash) == a.anchorHash
  }

  lemma AnchorPayloadDeterminesAnchor(m: nat, g: string, n: nat, h: string)
    requires Text(AnchorValue(m, g)) == Text(AnchorValue(n, h))
    ensures m == n && g == h
  {
    hide CanonicalJson, SameValue;
    AnchorValueParsed(m, g);
    AnchorValueParsed(n, h);
    SameTextIff(AnchorValue(m, g), AnchorValue(n, h));
    AnchorFieldsSame(m, g, n, h);
    DecimalInjective(m, n);
  }

  lemma AnchorValueParsed(n: nat, h: string)
    ensures WellFormed(AnchorValue(n, h)) && CanonicalJson(AnchorValue(n, h)).Some?
  {
    hide CanonicalJson;
    AnchorKeysDistinct(n, h);
    assert Parsed(AnchorValue(n, h));
    ParsedIsCanonical(AnchorValue(n, h));
  }

  lemma AnchorFieldsSame(m: nat, g: string, n: nat, h: string)
    requires SameValue(AnchorValue(m, g), AnchorValue(n, h))
    ensures Decimal(m) == Decimal(n) && g == h
  {
    hide SameValue;
    var a, b := AnchorValue(m, g).fields, AnchorValue(n, h).fields;
    AnchorKeysDistinct(n, h);
    SameAtPlace(a, b, 0);
    SameAtPlace(a, b, 1);
    ScalarSame(a[0].value, b[0].value);
    ScalarSame(a[1].value, b[1].value);
  }

  lemma AnchorKeysDistinct(n: nat, h: string)
    ensures Distinct(AnchorValue(n, h).fields, JsKey)
  {
    var fields := AnchorValue(n, h).fields;
    assert |fields[0].key| != |fields[1].key|;
  }

  // The hash of an authentic anchor fixes all that the anchor says.
  lemma AnchorHashDeterminesAnchor(integrity: Integrity, a: Anchor, b: Anchor)
    requires Injective(integrity) && AnchorAuthentic(integrity, a) && AnchorAuthentic(integrity, b)
    requires a.anchorHash == b.anchorHash
    ensures a == b
  {
    hide Text, AnchorValue;
    AnchorPayloadDeterminesAnchor(a.throughSequence, a.eventHash, b.throughSequence, b.eventHash);
  }

  // A hash that authenticates an anchor authenticates no event, and the other way round.
  lemma AnchorIsNoEvent(integrity: Integrity, a: Anchor, r: Row)
    requires Injective(integrity) && AnchorAuthentic(integrity, a) && RowAuthentic(integrity, r)
    ensures a.anchorHash != r.eventHash
  {
    hide Text;
  }

  predicate RowAuthentic(integrity: Integrity, r: Row) {
    r.keyId in integrity.keys && EventHash(integrity, r.keyId, r.event) == r.eventHash
  }

  // The hash that the k-th row has to name.
  function HashBefore(rows: seq<Row>, k: nat, start: Option<string>): Option<string>
    requires k <= |rows|
  {
    if k == 0 then start else Some(rows[k - 1].eventHash)
  }

  // Each row names the hash of the one before it.
  ghost predicate Linked(rows: seq<Row>, start: Option<string>) {
    forall k :: 0 <= k < |rows| ==> rows[k].event.previousHash == HashBefore(rows, k, start)
  }

  lemma LinkedTake(rows: seq<Row>, n: nat, start: Option<string>)
    requires Linked(rows, start) && n <= |rows|
    ensures Linked(rows[..n], start)
  {
    forall k | 0 <= k < n ensures rows[..n][k].event.previousHash == HashBefore(rows[..n], k, start) {
      assert rows[k].event.previousHash == HashBefore(rows, k, start);
    }
  }

  lemma LinkedAppend(rows: seq<Row>, row: Row, start: Option<string>)
    ensures Linked(rows + [row], start) <==>
      Linked(rows, start) && row.event.previousHash == HashBefore(rows, |rows|, start)
  {
    var all := rows + [row];
    if Linked(all, start) {
      LinkedTake(all, |rows|, start);
      assert all[..|rows|] == rows && all[|rows|] == row;
      assert row.event.previousHash == HashBefore(all, |rows|, start);
    } else if Linked(rows, start) && row.event.previousHash == HashBefore(rows, |rows|, start) {
      forall k | 0 <= k < |all| ensures all[k].event.previousHash == HashBefore(all, k, start) {
        assert k < |rows| ==> rows[k].event.previousHash == HashBefore(rows, k, start);
      }
    }
  }

  lemma LinkedPrefix(rows: seq<Row>, k: nat, start: Option<string>)
    requires k < |rows|
    ensures Linked(rows[..k + 1], start) <==>
      Linked(rows[..k], start) && rows[k].event.previousHash == HashBefore(rows, k, start)
    ensures Linked(rows, start) ==> Linked(rows[..k + 1], start)
  {
    hide Linked;
    assert rows[..k + 1] == rows[..k] + [rows[k]];
    LinkedAppend(rows[..k], rows[k], start);
    if Linked(rows, start) {
      LinkedTake(rows, k + 1, start);
    }
  }

  lemma LinkedNothing(start: Option<string>)
    ensures Linked([], start)
  {
  }

  function StartHash(anchor: Option<Anchor>): Option<string> {
    if anchor.Some? then Some(anchor.value.eventHash) else None
  }

  function TailSequence(rows: seq<Row>, anchor: Option<Anchor>): Option<nat> {
    if rows != [] then Some(rows[|rows| - 1].event.sequence)
    else if anchor.Some? then Some(anchor.value.throughSequence) else None
  }

  function TailHash(rows: seq<Row>, anchor: Option<Anchor>): Option<string> {
    if rows != [] then Some(rows[|rows| - 1].eventHash)
    else StartHash(anchor)
  }

  // The chain that follows the anchor is intact and ends at the recorded state.
  ghost predicate Intact(integrity: Integrity, anchor: Option<Anchor>, rows: seq<Row>, state: ChainState) {
    && (anchor.Some? ==> AnchorAuthentic(integrity, anchor.value))
    && Linked(rows, StartHash(anchor))
    && (forall i :: 0 <= i < |rows| ==> RowAuthentic(integrity, rows[i]))
    && state == ChainState(TailSequence(rows, anchor), TailHash(rows, anchor))
  }

  // The verification script: anchor first, then every row in order, then the state.
  method VerifyAuditLog(integrity: Integrity, anchor: Option<Anchor>, rows: seq<Row>, state: ChainState)
    returns (r: Result<nat, VerifyError>)
    ensures r.Ok? <==> Intact(integrity, anchor, rows, state)
    ensures r.Ok? ==> r.value == |rows|
    ensures r == Err(AnchorForged) <==> anchor.Some? && !AnchorAuthentic(integrity, anchor.value)
    ensures r.Err? && (r.error.LinkMismatch? || r.error.EventForged?) ==>
              exists k :: 0 <= k < |rows| && rows[k].event.sequence == r.error.sequence
                && Linked(rows[..k], StartHash(anchor))
                && (forall i :: 0 <= i < k ==> RowAuthentic(integrity, rows[i]))
                && (r.error.EventForged? ==> !RowAuthentic(integrity, rows[k]))
                && (r.error.LinkMismatch? <==>
                      !Linked(rows[..k + 1], StartHash(anchor)))
  {
    hide AnchorAuthentic, RowAuthentic, Linked;
    if anchor.Some? && !AnchorAuthentic(integrity, anchor.value) {
      return Err(AnchorForged);
    }
    var start := StartHash(anchor);
    var previousHash: Option<string> := start;
    LinkedNothing(start);
    assert rows[..0] == [];
    for k := 0 to |rows|
      invariant previousHash == HashBefore(rows, k, start)
      invariant Linked(rows[..k], start)
      invariant forall i :: 0 <= i < k ==> RowAuthentic(integrity, rows[i])
    {
      var row := rows[k];
      LinkedPrefix(rows, k, start);
      if row.event.previousHash != previousHash {
        return Err(LinkMismatch(row.event.sequence));
      }
      if !RowAuthentic(integrity, row) {
        return Err(EventForged(row.event.sequence));
      }
      previousHash := Some(row.eventHash);
    }
    assert rows[..|rows|] == rows;
    var expected := TailSequence(rows, anchor);
    if state.lastSequence != expected || state.lastHash != previousHash {
      return Err(TailMismatch);
    }
    return Ok(|rows|);
  }

  // ---------------------------------------------------------------- an accepted chain is the appended one

  // Rows as read back from the table: in sequence order, after the anchor, with parsed details.
  ghost predicate ReadBack(anchor: Option<Anchor>, rows: seq<Row>) {
    && (forall i, j :: 0 <= i < j < |rows| ==> rows[i].event.sequence < rows[j].event.sequence)
    && (forall i :: 0 <= i < |rows| ==> Parsed(rows[i].event.details))
    && (anchor.Some? ==> forall i :: 0 <= i < |rows| ==> anchor.value.throughSequence < rows[i].event.sequence)
  }

  // The anchor was taken from a sealed event with the anchor's sequence.
  ghost predicate AnchorGenuine(integrity: Integrity, anchor: Option<Anchor>) {
    anchor.Some? ==> exists e: Event, keyId ::
      Parsed(e.details) && e.sequence == anchor.value.throughSequence &&
          anchor.value.eventHash == EventHash(integrity, keyId, e)
  }

  ghost predicate SameRows(a: seq<Row>, b: seq<Row>) {
    && |a| == |b|
    && forall i :: 0 <= i < |a| ==>
         SameEvent(a[i].event, b[i].event) && a[i].eventHash == b[i].eventHash && a[i].keyId == b[i].keyId
  }

  lemma SameHashSameEvent(integrity: Integrity, k: string, e: Event, l: string, f: Event)
    requires Injective(integrity) && Parsed(e.details) && Parsed(f.details)
    requires EventHash(integrity, k, e) == EventHash(integrity, l, f)
    ensures SameEvent(e, f) && k == l
  {
    PayloadDeterminesEvent(e, f);
  }

  // No later row can carry the hash that the anchor carries.
  lemma AnchorHashIsOlder(integrity: Integrity, anchor: Option<Anchor>, r: Row)
    requires Injective(integrity) && AnchorGenuine(integrity, anchor) && anchor.Some?
    requires Parsed(r.event.details) && RowAuthentic(integrity, r) && anchor.value.throughSequence < r.event.sequence
    ensures r.eventHash != anchor.value.eventHash
  {
    if r.eventHash == anchor.value.eventHash {
      var e: Event, keyId :|
        Parsed(e.details) && e.sequence == anchor.value.throughSequence &&
            anchor.value.eventHash == EventHash(integrity, keyId, e);
      SameHashSameEvent(integrity, r.keyId, r.event, keyId, e);
    }
  }

  // A stretch of authentic, linked rows that begins at the anchor.
  ghost predicate Proper(integrity: Integrity, anchor: Option<Anchor>, rows: seq<Row>) {
    && ReadBack(anchor, rows)
    && (forall i :: 0 <= i < |rows| ==> RowAuthentic(integrity, rows[i]))
    && Linked(rows, StartHash(anchor))
  }

  lemma ProperPrefix(integrity: Integrity, anchor: Option<Anchor>, rows: seq<Row>)
    requires Proper(integrity, anchor, rows) && rows != []
    ensures var last := rows[|rows| - 1];
            && Proper(integrity, anchor, rows[..|rows| - 1])
            && TailHash(rows[..|rows| - 1], anchor) == last.event.previousHash
            && RowAuthentic(integrity, last) && Parsed(last.event.details)
  {
    hide RowAuthentic, Parsed, Linked;
    LinkedPrefix(rows, |rows| - 1, StartHash(anchor));
    assert rows[..|rows|] == rows;
  }

  // Two such stretches that end with the same hash are the same.
  lemma {:induction false} ChainUnique(integrity: Integrity, anchor: Option<Anchor>, a: seq<Row>, b: seq<Row>)
    requires Injective(integrity) && AnchorGenuine(integrity, anchor)
    requires Proper(integrity, anchor, a) && Proper(integrity, anchor, b)
    requires TailHash(a, anchor) == TailHash(b, anchor)
    ensures SameRows(a, b)
    decreases |a|
  {
    hide Injective, AnchorGenuine, SameEvent, RowAuthentic, Proper;
    EmptyChain(integrity, anchor, a);
    EmptyChain(integrity, anchor, b);
    if a != [] {
      ProperPrefix(integrity, anchor, a);
      ProperPrefix(integrity, anchor, b);
      SameRowHash(integrity, a[|a| - 1], b[|b| - 1]);
      ChainUnique(integrity, anchor, a[..|a| - 1], b[..|b| - 1]);
    }
  }

  lemma SameRowHash(integrity: Integrity, r: Row, s: Row)
    requires Injective(integrity) && Parsed(r.event.details) && Parsed(s.event.details)
    requires RowAuthentic(integrity, r) && RowAuthentic(integrity, s) && r.eventHash == s.eventHash
    ensures SameEvent(r.event, s.event) && r.keyId == s.keyId && r.event.previousHash == s.event.previousHash
  {
    SameHashSameEvent(integrity, r.keyId, r.event, s.keyId, s.event);
    assert r.event.(details := JsNull).previousHash == s.event.(details := JsNull).previousHash;
  }

  // Only the empty stretch ends at the anchor itself.
  lemma EmptyChain(integrity: Integrity, anchor: Option<Anchor>, a: seq<Row>)
    requires Injective(integrity) && AnchorGenuine(integrity, anchor) && Proper(integrity, anchor, a)
    ensures TailHash(a, anchor) == TailHash([], anchor) <==> a == []
  {
    if a != [] && anchor.Some? {
      AnchorHashIsOlder(integrity, anchor, a[|a| - 1]);
    }
  }

  // If verification accepts what is stored now, it is exactly what was accepted before,
  // event by event and in order, for the same anchor and recorded tail.
  lemma AcceptedIsOriginal(
    integrity: Integrity, anchor: Option<Anchor>, original: seq<Row>, stored: seq<Row>, state: ChainState)
    requires Injective(integrity) && AnchorGenuine(integrity, anchor)
    requires ReadBack(anchor, original) && Intact(integrity, anchor, original, state)
    requires ReadBack(anchor, stored) && Intact(integrity, anchor, stored, state)
    ensures SameRows(original, stored)
  {
    ChainUnique(integrity, anchor, original, stored);
  }
}
