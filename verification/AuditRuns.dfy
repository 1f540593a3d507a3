/**
 The audit tables under concurrent appends, rollbacks, prefix purges, key changes
 and anchor rotations: the committed chain verifies after every run.
 */
module AuditRuns {
  import opened Wrappers
  import opened Json
  import opened Canonical
  import opened Ordering
  import opened AuditChain

  // What an append is asked to record; details is the parsed form.
  datatype Input = Input(
    id: string,
    userReference: Option<string>,
    eventType: string,
    resource: Option<string>,
    outcome: string,
    messageReference: Option<string>,
    details: JsValue,
    createdAt: string)

  // The statements of one appending transaction.
  datatype Transaction =
    | HasLock(lastHash: Option<string>)                      // SELECT last_hash ... FOR UPDATE
    | HasSequence(lastHash: Option<string>, sequence: nat)   // SELECT nextval(...)
    | HasInserted(row: Row)                                  // INSERT and UPDATE, not yet committed

  datatype Tables = Tables(
    integrity: Integrity,
    events: seq<Row>,                 // committed, in insertion order
    anchor: Option<Anchor>,           // the retention anchor
    state: ChainState,                // committed chain state
    nextSequence: nat,                // the next value of the sequence
    locked: Option<Transaction>)      // the transaction that holds the state row, if any

  datatype Step =
    | Lock
    | NextVal
    | Insert(input: Input, stored: JsValue)   // stored: details as the jsonb column returns them
    | Commit
    | Rollback
    | Purge(count: nat)                       // the expired prefix has this many rows
    | RotateAnchor
    | ActivateKey(keyId: string)

  // ---------------------------------------------------------------- steps

  function NewEvent(input: Input, sequence: nat, previousHash: Option<string>): Event {
    Event(input.id, sequence, previousHash, input.userReference, input.eventType, input.resource, input.outcome,
          input.messageReference, input.details, input.createdAt)
  }

  // Seal an event with the active key.
  function SealedRow(integrity: Integrity, e: Event, stored: JsValue): Row {
    var eventHash := EventHash(integrity, integrity.activeKeyId, e);
    Row(e.(details := stored), eventHash,
        AnchorHash(integrity, integrity.activeKeyId, e.sequence, eventHash), integrity.activeKeyId)
  }

  function AnchorOf(r: Row): Anchor {
    Anchor(r.event.sequence, r.eventHash, r.anchorHash, r.keyId)
  }

  ghost predicate Enabled(t: Tables, step: Step) {
    match step
    case Lock => t.locked.None?
    case NextVal => t.locked.Some? && t.locked.value.HasLock?
    case Insert(input, stored) =>
      && t.locked.Some? && t.locked.value.HasSequence?
      && Parsed(input.details) && Parsed(stored) && SameValue(stored, input.details)
    case Commit => t.locked.Some? && t.locked.value.HasInserted?
    case Rollback => t.locked.Some?
    case Purge(count) => 0 < count <= |t.events|
    case RotateAnchor => true
    case ActivateKey(keyId) => keyId in t.integrity.keys
  }

  function Next(t: Tables, step: Step): Tables
    requires Enabled(t, step)
  {
    match step
    case Lock => t.(locked := Some(HasLock(t.state.lastHash)))
    case NextVal =>
      t.(locked := Some(HasSequence(t.locked.value.lastHash, t.nextSequence)), nextSequence := t.nextSequence + 1)
    case Insert(input, stored) =>
      var tx := t.locked.value;
      t.(locked := Some(HasInserted(SealedRow(t.integrity, NewEvent(input, tx.sequence, tx.lastHash), stored))))
    case Commit =>
      var row := t.locked.value.row;
      t.(events := t.events + [row], state := ChainState(Some(row.event.sequence), Some(row.eventHash)), locked := None)
    case Rollback => t.(locked := None)
    case Purge(count) => t.(events := t.events[count..], anchor := Some(AnchorOf(t.events[count - 1])))
    case RotateAnchor => t.(anchor := Rotated(t.integrity, t.anchor))
    case ActivateKey(keyId) => t.(integrity := t.integrity.(activeKeyId := keyId))
  }

  // Re-authenticate the anchor with the active key; a forged anchor is refused.
  function Rotated(integrity: Integrity, anchor: Option<Anchor>): Option<Anchor> {
    if anchor.None? || !AnchorAuthentic(integrity, anchor.value) || anchor.value.keyId == integrity.activeKeyId then
      anchor
    else
      var a := anchor.value;
      Some(a.(anchorHash := AnchorHash(integrity, integrity.activeKeyId, a.throughSequence, a.eventHash),
              keyId := integrity.activeKeyId))
  }

  // ---------------------------------------------------------------- the invariant

  // A row that was sealed by some append, whatever happened to the key order of its details.
  ghost predicate Sealed(integrity: Integrity, r: Row) {
    && Parsed(r.event.details)
    && RowAuthentic(integrity, r)
    && AnchorAuthentic(integrity, AnchorOf(r))
  }

  ghost predicate AboveAll(t: Tables, sequence: nat) {
    && (forall i :: 0 <= i < |t.events| ==> t.events[i].event.sequence < sequence)
    && (t.anchor.Some? ==> t.anchor.value.throughSequence < sequence)
  }

  // The holder of the state row works on the committed tail and with the newest sequence.
  ghost predicate HolderCurrent(t: Tables) {
    match t.locked
    case None => true
    case Some(HasLock(lastHash)) => lastHash == t.state.lastHash
    case Some(HasSequence(lastHash, sequence)) =>
      lastHash == t.state.lastHash && AboveAll(t, sequence) && sequence < t.nextSequence
    case Some(HasInserted(row)) =>
      && Sealed(t.integrity, row) && row.event.previousHash == t.state.lastHash
      && AboveAll(t, row.event.sequence) && row.event.sequence < t.nextSequence
  }

  ghost predicate Inv(t: Tables) {
    && t.integrity.activeKeyId in t.integrity.keys
    && ReadBack(t.anchor, t.events)
    && Intact(t.integrity, t.anchor, t.events, t.state)
    && (forall i :: 0 <= i < |t.events| ==> Sealed(t.integrity, t.events[i]))
    && AnchorGenuine(t.integrity, t.anchor)
    && AboveAll(t, t.nextSequence)
    && HolderCurrent(t)
  }

  function Initial(integrity: Integrity): Tables {
    Tables(integrity, [], None, ChainState(None, None), 1, None)
  }

  ghost predicate IsRun(t: Tables, steps: seq<Step>, u: Tables)
    decreases |steps|
  {
    if steps == [] then t == u else Enabled(t, steps[0]) && IsRun(Next(t, steps[0]), steps[1..], u)
  }

  // ---------------------------------------------------------------- every step keeps the invariant

  lemma SealingIsAuthentic(integrity: Integrity, e: Event, stored: JsValue)
    requires integrity.activeKeyId in integrity.keys && Parsed(e.details) && Parsed(stored) &&
      SameValue(stored, e.details)
    ensures Sealed(integrity, SealedRow(integrity, e, stored))
  {
    hide CanonicalJson, SameValue;
    var f := e.(details := stored);
    assert f.(details := JsNull) == e.(details := JsNull);
    SameEventSamePayload(f, e);
  }

  lemma IntactAppend(integrity: Integrity, anchor: Option<Anchor>, rows: seq<Row>, row: Row, state: ChainState)
    requires Intact(integrity, anchor, rows, state) && RowAuthentic(integrity, row)
    requires row.event.previousHash == state.lastHash
    ensures Intact(integrity, anchor, rows + [row], ChainState(Some(row.event.sequence), Some(row.eventHash)))
  {
    hide RowAuthentic, AnchorAuthentic, Linked;
    LinkedAppend(rows, row, StartHash(anchor));
  }

  lemma CommitKeepsInv(t: Tables)
    requires Inv(t) && Enabled(t, Commit)
    ensures Inv(Next(t, Commit))
  {
    hide Sealed, Parsed, RowAuthentic, AnchorAuthentic, AnchorGenuine, Intact;
    var row := t.locked.value.row;
    SealedMeans(t.integrity, row);
    IntactAppend(t.integrity, t.anchor, t.events, row, t.state);
  }

  lemma SealedMeans(integrity: Integrity, r: Row)
    requires Sealed(integrity, r)
    ensures Parsed(r.event.details) && RowAuthentic(integrity, r) && AnchorAuthentic(integrity, AnchorOf(r))
  {
  }

  lemma PurgeKeepsInv(t: Tables, count: nat)
    requires Inv(t) && Enabled(t, Purge(count))
    ensures Inv(Next(t, Purge(count)))
  {
    hide Sealed, Parsed, RowAuthentic, AnchorAuthentic, AnchorGenuine, Linked;
    var u := Next(t, Purge(count));
    var last := t.events[count - 1];
    assert Sealed(t.integrity, last);
    SealedMeans(t.integrity, last);
    assert forall i :: 0 <= i < |u.events| ==> u.events[i] == t.events[count + i];
    LinkedSuffix(t.events, count, StartHash(t.anchor));
    SealedAnchorGenuine(t.integrity, last);
  }

  // What is left after a purge begins at the hash of the last purged row.
  lemma LinkedSuffix(rows: seq<Row>, count: nat, start: Option<string>)
    requires 0 < count <= |rows| && Linked(rows, start)
    ensures Linked(rows[count..], Some(rows[count - 1].eventHash))
  {
    var rest := rows[count..];
    forall k | 0 <= k < |rest|
      ensures rest[k].event.previousHash == HashBefore(rest, k, Some(rows[count - 1].eventHash))
    {
      assert rest[k] == rows[count + k];
      assert k > 0 ==> rest[k - 1] == rows[count + k - 1];
    }
  }

  lemma SealedAnchorGenuine(integrity: Integrity, r: Row)
    requires Sealed(integrity, r)
    ensures AnchorGenuine(integrity, Some(AnchorOf(r)))
  {
    assert AnchorOf(r).eventHash == EventHash(integrity, r.keyId, r.event);
  }

  lemma RotateKeepsInv(t: Tables)
    requires Inv(t)
    ensures Inv(Next(t, RotateAnchor))
  {
    hide Sealed, Parsed, RowAuthentic, Linked;
  }

  lemma KeyChangeKeepsInv(t: Tables, keyId: string)
    requires Inv(t) && Enabled(t, ActivateKey(keyId))
    ensures Inv(Next(t, ActivateKey(keyId)))
  {
    var u := Next(t, ActivateKey(keyId));
    assert forall r :: RowAuthentic(u.integrity, r) <==> RowAuthentic(t.integrity, r);
    assert forall a :: AnchorAuthentic(u.integrity, a) <==> AnchorAuthentic(t.integrity, a);
    assert forall r :: Sealed(u.integrity, r) <==> Sealed(t.integrity, r);
    if t.anchor.Some? {
      var e: Event, k :| Parsed(e.details) && e.sequence == t.anchor.value.throughSequence
                         && t.anchor.value.eventHash == EventHash(t.integrity, k, e);
      assert t.anchor.value.eventHash == EventHash(u.integrity, k, e);
    }
  }

  lemma InsertKeepsInv(t: Tables, input: Input, stored: JsValue)
    requires Inv(t) && Enabled(t, Insert(input, stored))
    ensures Inv(Next(t, Insert(input, stored)))
  {
    hide Sealed, Parsed, RowAuthentic, AnchorAuthentic, AnchorGenuine, Linked, SameValue, CanonicalJson;
    var tx := t.locked.value;
    SealingIsAuthentic(t.integrity, NewEvent(input, tx.sequence, tx.lastHash), stored);
  }

  lemma StepKeepsInv(t: Tables, step: Step)
    requires Inv(t) && Enabled(t, step)
    ensures Inv(Next(t, step))
  {
    match step
    case Commit => CommitKeepsInv(t);
    case Purge(count) => PurgeKeepsInv(t, count);
    case RotateAnchor => RotateKeepsInv(t);
    case ActivateKey(keyId) => KeyChangeKeepsInv(t, keyId);
    case Insert(input, stored) => InsertKeepsInv(t, input, stored);
    case Lock => OtherKeepsInv(t, step);
    case NextVal => OtherKeepsInv(t, step);
    case Rollback => OtherKeepsInv(t, step);
  }

  lemma OtherKeepsInv(t: Tables, step: Step)
    requires Inv(t) && Enabled(t, step) && (step.Lock? || step.NextVal? || step.Rollback?)
    ensures Inv(Next(t, step))
  {
    hide Sealed, Parsed, RowAuthentic, AnchorAuthentic, AnchorGenuine, Linked;
  }

  lemma {:induction false} RunKeepsInv(t: Tables, steps: seq<Step>, u: Tables)
    requires Inv(t) && IsRun(t, steps, u)
    ensures Inv(u)
    decreases |steps|
  {
    hide Inv, Enabled, Next;
    if steps != [] {
      StepKeepsInv(t, steps[0]);
      RunKeepsInv(Next(t, steps[0]), steps[1..], u);
    }
  }

  lemma InitialInv(integrity: Integrity)
    requires integrity.activeKeyId in integrity.keys
    ensures Inv(Initial(integrity)) && Initial(integrity).integrity == integrity
  {
  }

  // After every run the committed tables verify, in sequence order.
  lemma RunsVerify(integrity: Integrity, steps: seq<Step>, u: Tables)
    requires integrity.activeKeyId in integrity.keys && IsRun(Initial(integrity), steps, u)
    ensures Intact(u.integrity, u.anchor, u.events, u.state)
    ensures ReadBack(u.anchor, u.events)
  {
    RunKeepsInv(Initial(integrity), steps, u);
  }

  // Whatever the events table holds after the run, if it is accepted against the same
  // anchor and state, it holds exactly the appended rows that were not purged.
  lemma TamperingIsDetected(integrity: Integrity, steps: seq<Step>, u: Tables, stored: seq<Row>)
    requires Injective(integrity) && integrity.activeKeyId in integrity.keys && IsRun(Initial(integrity), steps, u)
    requires ReadBack(u.anchor, stored) && Intact(u.integrity, u.anchor, stored, u.state)
    ensures SameRows(u.events, stored)
  {
    hide Injective, Intact, ReadBack, Enabled, Next, IsRun, Initial;
    InitialInv(integrity);
    RunKeepsInv(Initial(integrity), steps, u);
    RunKeepsMac(Initial(integrity), steps, u);
    SameMacInjective(integrity, u.integrity);
    AcceptedIsOriginal(u.integrity, u.anchor, u.events, stored, u.state);
  }

  /** The retention anchor cannot be moved either: if another row with the same anchor hash is
      accepted in its place, with whatever events, it is the anchor, and the events are those
      that were appended and not purged. */
  lemma MovedAnchorIsDetected(integrity: Integrity, steps: seq<Step>, u: Tables, moved: Anchor, stored: seq<Row>)
    requires Injective(integrity) && integrity.activeKeyId in integrity.keys && IsRun(Initial(integrity), steps, u)
    requires u.anchor.Some? && moved.anchorHash == u.anchor.value.anchorHash
    requires ReadBack(Some(moved), stored) && Intact(u.integrity, Some(moved), stored, u.state)
    ensures moved == u.anchor.value && SameRows(u.events, stored)
  {
    RunsVerify(integrity, steps, u);
    assert AnchorAuthentic(u.integrity, u.anchor.value) && AnchorAuthentic(u.integrity, moved);
    hide Injective, Intact, ReadBack, Enabled, Next, IsRun, Initial, AnchorAuthentic;
    RunKeepsMac(Initial(integrity), steps, u);
    InitialMac(integrity);
    SameMacInjective(integrity, u.integrity);
    AnchorHashDeterminesAnchor(u.integrity, moved, u.anchor.value);
    TamperingIsDetected(integrity, steps, u, stored);
  }

  lemma InitialMac(integrity: Integrity)
    ensures Initial(integrity).integrity.mac == integrity.mac
  {
  }

  lemma {:induction false} RunKeepsMac(t: Tables, steps: seq<Step>, u: Tables)
    requires IsRun(t, steps, u)
    ensures u.integrity.mac == t.integrity.mac
    decreases |steps|
  {
    if steps != [] {
      RunKeepsMac(Next(t, steps[0]), steps[1..], u);
    }
  }

  lemma SameMacInjective(a: Integrity, b: Integrity)
    requires Injective(a) && a.mac == b.mac
    ensures Injective(b)
  {
  }

  // ---------------------------------------------------------------- what the steps achieve

  /** An append can always be carried through: it leaves one row more, which holds the event
      under the next sequence number, linked to the last hash and sealed with the active key. */
  lemma AppendCommits(t: Tables, input: Input, stored: JsValue) returns (u: Tables)
    requires Inv(t) && t.locked.None?
    requires Parsed(input.details) && Parsed(stored) && SameValue(stored, input.details)
    ensures IsRun(t, [Lock, NextVal, Insert(input, stored), Commit], u)
    ensures |u.events| == |t.events| + 1 && u.events[..|t.events|] == t.events
    ensures var row := u.events[|t.events|];
      && row.event == Event(input.id, t.nextSequence, t.state.lastHash, input.userReference, input.eventType,
                            input.resource, input.outcome, input.messageReference, stored, input.createdAt)
      && row.keyId == t.integrity.activeKeyId && Sealed(t.integrity, row)
      && u == t.(events := t.events + [row], nextSequence := t.nextSequence + 1,
                 state := ChainState(Some(t.nextSequence), Some(row.eventHash)))
  {
    hide Inv, Sealed, Parsed, SameValue, EventHash, AnchorHash;
    var a := Next(t, Lock);
    var b := Next(a, NextVal);
    var c := Next(b, Insert(input, stored));
    u := Next(c, Commit);
    FourSteps(t, Lock, a, NextVal, b, Insert(input, stored), c, Commit, u);
    ActiveKey(t);
    SealingIsAuthentic(t.integrity, NewEvent(input, t.nextSequence, t.state.lastHash), stored);
  }

  lemma ActiveKey(t: Tables)
    requires Inv(t)
    ensures t.integrity.activeKeyId in t.integrity.keys
  {
  }

  lemma FourSteps(s: Tables, i: Step, t: Tables, j: Step, u: Tables, k: Step, v: Tables, l: Step, w: Tables)
    requires Enabled(s, i) && t == Next(s, i) && Enabled(t, j) && u == Next(t, j)
    requires Enabled(u, k) && v == Next(u, k) && Enabled(v, l) && w == Next(v, l)
    ensures IsRun(s, [i, j, k, l], w)
  {
    hide Enabled, Next;
    assert [i, j, k, l][1..] == [j, k, l] && [j, k, l][1..] == [k, l] && [k, l][1..] == [l] && [l][1..] == [];
    assert IsRun(w, [], w) && IsRun(v, [l], w) && IsRun(u, [k, l], w) && IsRun(t, [j, k, l], w);
  }

  // A transaction that is rolled back leaves nothing but a gap in the sequence, if it came so far.
  lemma RollbackLeavesGap(t: Tables, input: Input, stored: JsValue)
    requires t.locked.None? && Parsed(input.details) && Parsed(stored) && SameValue(stored, input.details)
    ensures Next(Next(t, Lock), Rollback) == t
    ensures Next(Next(Next(t, Lock), NextVal), Rollback) == t.(nextSequence := t.nextSequence + 1)
    ensures Next(Next(Next(Next(t, Lock), NextVal), Insert(input, stored)), Rollback)
         == t.(nextSequence := t.nextSequence + 1)
  {
    hide Parsed, SameValue;
  }

  // A purge removes the oldest rows and anchors the chain at the last of them, as it was sealed.
  lemma PurgeAnchors(t: Tables, count: nat)
    requires Inv(t) && 0 < count <= |t.events|
    ensures Enabled(t, Purge(count))
    ensures var u, last := Next(t, Purge(count)), t.events[count - 1];
      && u == t.(events := t.events[count..], anchor := u.anchor) && u.anchor.Some?
      && u.anchor.value.throughSequence == last.event.sequence && u.anchor.value.eventHash == last.eventHash
      && u.anchor.value.keyId == last.keyId && AnchorAuthentic(t.integrity, u.anchor.value)
  {
    hide RowAuthentic, Intact, AnchorGenuine;
    assert Sealed(t.integrity, t.events[count - 1]);
  }

  // Rotation puts a genuine anchor under the active key and changes nothing that it says.
  lemma RotationReseals(t: Tables)
    requires Inv(t)
    ensures var u := Next(t, RotateAnchor);
      && u == t.(anchor := u.anchor) && (u.anchor.None? <==> t.anchor.None?)
      && (t.anchor.Some? ==>
            && u.anchor.value.keyId == t.integrity.activeKeyId
            && AnchorAuthentic(t.integrity, u.anchor.value)
            && u.anchor.value.throughSequence == t.anchor.value.throughSequence
            && u.anchor.value.eventHash == t.anchor.value.eventHash)
  {
    hide Linked, Sealed, AnchorGenuine;
  }

  lemma ForgeryIsNotResealed(t: Tables)
    requires t.anchor.Some? && !AnchorAuthentic(t.integrity, t.anchor.value)
    ensures Next(t, RotateAnchor) == t
  {
    hide AnchorAuthentic;
  }

  // ---------------------------------------------------------------- rebuilding an unsigned chain

  // An event row as it is stored; hashed and anchored say whether event_hash and anchor_hash
  // are set.
  datatype Unsigned = Unsigned(input: Input, sequence: nat, hashed: bool, anchored: bool)

  datatype Rebuild = NothingToDo | AnchorsExist | Rebuilt(rows: seq<Row>, state: ChainState)

  // details - 'senderReference'
  function WithoutKey(fields: seq<JsField>, key: string): (rest: seq<JsField>)
    ensures |rest| <= |fields|
    ensures forall f :: f in rest <==> f in fields && f.key != key
  {
    if fields == [] then [] else
    assert fields == [fields[0]] + fields[1..];
    (if fields[0].key == key then [] else [fields[0]]) + WithoutKey(fields[1..], key)
  }

  lemma {:induction false} WithoutKeyDistinct(fields: seq<JsField>, key: string)
    requires Distinct(fields, JsKey)
    ensures Distinct(WithoutKey(fields, key), JsKey)
  {
    if fields != [] {
      assert forall i :: 0 <= i < |fields[1..]| ==> fields[1..][i] == fields[i + 1];
      WithoutKeyDistinct(fields[1..], key);
      var rest := WithoutKey(fields[1..], key);
      forall i | 0 <= i < |rest| ensures JsKey(rest[i]) != JsKey(fields[0]) {
        assert rest[i] in rest;
        var j :| 0 <= j < |fields[1..]| && fields[1..][j] == rest[i];
        assert fields[j + 1] == rest[i];
      }
    }
  }

  // The sender reference is removed from unsigned authorization events.
  function Cleaned(u: Unsigned): Input {
    if !u.hashed && u.input.eventType == "whatsapp.authorization" && u.input.details.JsObject? then
      u.input.(details := JsObject(WithoutKey(u.input.details.fields, "senderReference")))
    else u.input
  }

  // Only the field named senderReference goes, and only from those.
  ghost predicate CleanedAs(u: Unsigned, input: Input) {
    && input.(details := JsNull) == u.input.(details := JsNull)
    && if u.hashed || u.input.eventType != "whatsapp.authorization" || !u.input.details.JsObject? then
         input.details == u.input.details
       else
         && input.details.JsObject?
         && forall f :: f in input.details.fields <==> f in u.input.details.fields && f.key != "senderReference"
  }

  lemma CleanedIs(u: Unsigned)
    ensures CleanedAs(u, Cleaned(u))
  {
    if u.input.details.JsObject? {
      var fields := u.input.details.fields;
      assert forall f ::
        f in WithoutKey(fields, "senderReference") <==> f in fields && f.key != "senderReference";
    }
  }

  lemma CleanedIsParsed(u: Unsigned)
    requires Parsed(u.input.details)
    ensures Parsed(Cleaned(u).details)
  {
    if u.input.details.JsObject? {
      var fields := u.input.details.fields;
      var rest := WithoutKey(fields, "senderReference");
      WithoutKeyDistinct(fields, "senderReference");
      forall i | 0 <= i < |rest| ensures Parsed(rest[i].value) {
        assert rest[i] in rest;
      }
    }
  }

  // The row seals the stored event, cleaned, under the active key, its anchor included.
  ghost predicate Protected(integrity: Integrity, unsigned: Unsigned, row: Row) {
    && (exists input :: CleanedAs(unsigned, input) &&
          row.event == NewEvent(input, unsigned.sequence, row.event.previousHash))
    && row.keyId == integrity.activeKeyId
    && AnchorAuthentic(integrity, AnchorOf(row))
  }

  lemma NothingIsIntact(integrity: Integrity)
    ensures Intact(integrity, None, [], ChainState(None, None))
  {
  }

  // One row of the loop: sealed after the rows before it.
  method ProtectRow(integrity: Integrity, unsigned: Unsigned, ghost rows: seq<Row>, state: ChainState)
    returns (row: Row)
    requires integrity.activeKeyId in integrity.keys && Parsed(unsigned.input.details)
    requires Intact(integrity, None, rows, state)
    ensures Intact(integrity, None, rows + [row], ChainState(Some(row.event.sequence), Some(row.eventHash)))
    ensures Protected(integrity, unsigned, row)
  {
    hide Intact, EventHash, AnchorHash, Parsed, Cleaned, CleanedAs;
    CleanedIs(unsigned);
    CleanedIsParsed(unsigned);
    var event := NewEvent(Cleaned(unsigned), unsigned.sequence, state.lastHash);
    row := SealedRow(integrity, event, event.details);
    IntactAppend(integrity, None, rows, row, state);
  }

  // Every row is signed and anchored.
  predicate AllSigned(stored: seq<Unsigned>) {
    forall i :: 0 <= i < |stored| ==> stored[i].hashed && stored[i].anchored
  }

  /** protectAuditChain: does nothing when every row is signed, refuses when retention anchors
      exist, and else seals every row in sequence order, carrying the previous hash along. */
  method ProtectAuditChain(integrity: Integrity, stored: seq<Unsigned>, anchors: nat) returns (r: Rebuild)
    requires integrity.activeKeyId in integrity.keys
    requires forall i :: 0 <= i < |stored| ==> Parsed(stored[i].input.details)
    ensures r == NothingToDo <==> forall row :: row in stored ==> row.hashed && row.anchored
    ensures r == AnchorsExist <==> anchors > 0 && exists row :: row in stored && !(row.hashed && row.anchored)
    ensures r.Rebuilt? ==> Intact(integrity, None, r.rows, r.state)
    ensures r.Rebuilt? ==> |r.rows| == |stored| && forall i :: 0 <= i < |stored| ==>
      Protected(integrity, stored[i], r.rows[i])
  {
    hide Intact, Parsed, AnchorAuthentic, Protected;
    if AllSigned(stored) {
      return NothingToDo;
    }
    if anchors > 0 {
      return AnchorsExist;
    }
    var rows, state := [], ChainState(None, None);
    NothingIsIntact(integrity);
    for i := 0 to |stored|
      invariant |rows| == i && Intact(integrity, None, rows, state)
      invariant forall k :: 0 <= k < i ==> Protected(integrity, stored[k], rows[k])
    {
      var row := ProtectRow(integrity, stored[i], rows, state);
      rows := rows + [row];
      state := ChainState(Some(row.event.sequence), Some(row.eventHash));
    }
    return Rebuilt(rows, state);
  }
}
