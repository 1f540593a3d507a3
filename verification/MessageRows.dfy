/**
 The messages table: what each SQL statement does to one inbound or reply row,
 and the repository whose methods run those statements.
 */
module MessageRows {
  import opened Wrappers

  const MAX_ATTEMPTS := 3
  const RECOVERY_AGE := 120_000

  datatype InboundStatus = Received | Processing | Processed | Ignored | InboundFailed

  datatype Inbound = Inbound(status: InboundStatus, attempts: nat)

  datatype ReplyStatus = Sending | Sent | DeliveryUnknown | Delivered | Read | Failed

  // external: the WhatsApp id that the row stores, if any
  datatype Reply<Ext> = Reply(status: ReplyStatus, attempts: nat, external: Option<Ext>)

  datatype WebhookStatus = WasSent | WasDelivered | WasRead | HasFailed

  // ---------------------------------------------------------------- guards and effects of the statements

  predicate Claimable(r: Inbound) {
    (r.status == Received || r.status == InboundFailed) && r.attempts < MAX_ATTEMPTS
  }

  // Recovery may also take over a row that has been processing for too long.
  predicate Recoverable(r: Inbound, stale: bool) {
    Claimable(r) || (r.status == Processing && stale && r.attempts < MAX_ATTEMPTS)
  }

  function Claimed(r: Inbound): Inbound { Inbound(Processing, r.attempts + 1) }

  function Undeliverable(r: Inbound): Inbound {
    Inbound(InboundFailed, if r.attempts < MAX_ATTEMPTS then MAX_ATTEMPTS else r.attempts)
  }

  predicate Retryable<Ext>(r: Reply<Ext>) { r.status == Failed && r.attempts < MAX_ATTEMPTS }

  function Retried<Ext>(r: Reply<Ext>): Reply<Ext> { r.(status := Sending, attempts := r.attempts + 1) }

  function MarkedSent<Ext>(r: Reply<Ext>, external: Ext): Reply<Ext> {
    if r.status == Sending then r.(status := Sent, external := Some(external)) else r
  }

  function MarkedFailed<Ext>(r: Reply<Ext>): Reply<Ext> {
    if r.status == Sending then r.(status := Failed) else r
  }

  function MarkedUnknown<Ext>(r: Reply<Ext>): Reply<Ext> {
    if r.status == Sending || r.status == Failed then r.(status := DeliveryUnknown) else r
  }

  predicate Admits(current: ReplyStatus, update: WebhookStatus) {
    match update
    case WasSent => current == Sending || current == DeliveryUnknown
    case WasDelivered => current == Sending || current == DeliveryUnknown || current == Sent
    case WasRead => current == Sending || current == DeliveryUnknown || current == Sent || current == Delivered
    case HasFailed => current == Sending || current == DeliveryUnknown || current == Sent
  }

  function StatusOf(update: WebhookStatus): ReplyStatus {
    match update
    case WasSent => Sent
    case WasDelivered => Delivered
    case WasRead => Read
    case HasFailed => Failed
  }

  function Updated(current: ReplyStatus, update: WebhookStatus): ReplyStatus {
    if Admits(current, update) then StatusOf(update) else current
  }

  function Reported<Ext(==)>(r: Reply<Ext>, external: Ext, update: WebhookStatus): Reply<Ext> {
    if r.external == Some(external) then r.(status := Updated(r.status, update)) else r
  }

  // ---------------------------------------------------------------- the order of delivery reports

  function Rank(s: ReplyStatus): nat {
    match s
    case Sent => 1
    case Delivered => 2
    case Read => 3
    case _ => 0
  }

  function Highest(updates: seq<WebhookStatus>, start: nat): (rank: nat) {
    if updates == [] then start else
    var r := Rank(StatusOf(updates[0]));
    Highest(updates[1..], if r > start then r else start)
  }

  function ApplyAll(current: ReplyStatus, updates: seq<WebhookStatus>): ReplyStatus
    decreases updates
  {
    if updates == [] then current else ApplyAll(Updated(current, updates[0]), updates[1..])
  }

  // Reports without a failure, in any order and with repetitions, leave the highest status seen.
  lemma {:induction false} ReportsTakeTheHighest(current: ReplyStatus, updates: seq<WebhookStatus>)
    requires current != Failed
    requires forall i :: 0 <= i < |updates| ==> updates[i] != HasFailed
    ensures Rank(ApplyAll(current, updates)) == Highest(updates, Rank(current))
    ensures ApplyAll(current, updates) != Failed
    ensures Highest(updates, Rank(current)) == 0 ==> ApplyAll(current, updates) == current
    decreases updates
  {
    if updates != [] {
      ReportsTakeTheHighest(Updated(current, updates[0]), updates[1..]);
      HighestAtLeast(updates[1..], Rank(Updated(current, updates[0])));
    }
  }

  lemma {:induction false} HighestAtLeast(updates: seq<WebhookStatus>, start: nat)
    ensures Highest(updates, start) >= start
    ensures forall i :: 0 <= i < |updates| ==> Highest(updates, start) >= Rank(StatusOf(updates[i]))
    ensures || Highest(updates, start) == start
            || exists i :: 0 <= i < |updates| && Highest(updates, start) == Rank(StatusOf(updates[i]))
  {
    if updates != [] {
      var r := Rank(StatusOf(updates[0]));
      var next := if r > start then r else start;
      HighestAtLeast(updates[1..], next);
      forall i | 0 <= i < |updates| ensures Highest(updates, start) >= Rank(StatusOf(updates[i])) {
        assert i > 0 ==> updates[i] == updates[1..][i - 1];
      }
      if Highest(updates[1..], next) != next {
        var i :| 0 <= i < |updates[1..]| && Highest(updates[1..], next) == Rank(StatusOf(updates[1..][i]));
        assert updates[i + 1] == updates[1..][i];
      } else {
        assert Highest(updates, start) == start || Highest(updates, start) == Rank(StatusOf(updates[0]));
      }
    }
  }

  // A report moves a row on, never back, and a failure report only a row that is not known to
  // have arrived; a failed row takes no report.
  lemma ReportsMoveOn(current: ReplyStatus, update: WebhookStatus)
    ensures update != HasFailed ==>
      Updated(current, update) == if current != Failed && Rank(StatusOf(update)) > Rank(current) then StatusOf(update)
                                  else current
    ensures Updated(current, HasFailed) == if current in {Delivered, Read} then current else Failed
    ensures StatusOf(WasSent) == Sent && StatusOf(WasDelivered) == Delivered && StatusOf(WasRead) == Read
    ensures Rank(Sending) == Rank(DeliveryUnknown) == 0 < Rank(Sent) < Rank(Delivered) < Rank(Read)
  {
  }

  // The same reports in another order, or repeated, end in the same status.
  lemma ReportOrderIsIrrelevant(current: ReplyStatus, a: seq<WebhookStatus>, b: seq<WebhookStatus>)
    requires current == Sending || current == DeliveryUnknown || current == Sent
    requires forall u :: u in a <==> u in b
    requires HasFailed !in a
    ensures ApplyAll(current, a) == ApplyAll(current, b)
  {
    ReportsTakeTheHighest(current, a);
    ReportsTakeTheHighest(current, b);
    HighestOfSame(a, b, Rank(current));
    HighestOfSame(b, a, Rank(current));
  }

  lemma HighestOfSame(a: seq<WebhookStatus>, b: seq<WebhookStatus>, start: nat)
    requires forall u :: u in a ==> u in b
    ensures Highest(a, start) <= Highest(b, start)
  {
    HighestAtLeast(a, start);
    HighestAtLeast(b, start);
    if Highest(a, start) != start {
      var i :| 0 <= i < |a| && Highest(a, start) == Rank(StatusOf(a[i]));
      assert a[i] in b;
    }
  }

  // ---------------------------------------------------------------- the repository

  predicate IsLeast(id: nat, ids: set<nat>) {
    id in ids && forall other :: other in ids ==> id <= other
  }

  lemma {:induction false} LeastExists(ids: set<nat>) returns (id: nat)
    requires ids != {}
    ensures IsLeast(id, ids)
    decreases |ids|
  {
    hide IsLeast;
    var x :| x in ids;
    if ids - {x} == {} {
      assert ids == {x};
      id := x;
      LeastOfOne(x);
    } else {
      var y := LeastExists(ids - {x});
      id := if x < y then x else y;
      LeastOfBoth(ids, x, y);
    }
  }

  lemma LeastOfOne(x: nat)
    ensures IsLeast(x, {x})
  {
  }

  lemma LeastOfBoth(ids: set<nat>, x: nat, y: nat)
    requires x in ids && IsLeast(y, ids - {x})
    ensures IsLeast(if x < y then x else y, ids)
  {
    forall other | other in ids ensures (if x < y then x else y) <= other {
      assert other == x || other in ids - {x};
    }
  }

  datatype Reservation = Reservation(status: ReplyStatus, shouldSend: bool)

  // Reply rows are unique per inbound message; a WhatsApp id is stored by one row at most.
  class MessageRepository<Ext(==)> {
    var inbound: map<nat, Inbound>
    // When each inbound row was last changed, in milliseconds.
    var changedAt: map<nat, int>
    var replies: map<nat, Reply<Ext>>

    ghost predicate Valid()
      reads this
    {
      changedAt.Keys == inbound.Keys
    }

    // Fewer than three attempts, and nobody at work on it, or nobody for more than two minutes.
    ghost predicate MayBeRecovered(id: nat, now: int)
      requires Valid() && id in inbound
      reads this
    {
      && inbound[id].attempts < 3
      && match inbound[id].status
         case Received | InboundFailed => true
         case Processing => now - changedAt[id] > 120_000
         case Processed | Ignored => false
    }

    constructor ()
      ensures Valid() && inbound == map[] && replies == map[]
    {
      inbound, changedAt, replies := map[], map[], map[];
    }

    // A repeated webhook finds the stored row and changes nothing.
    method SaveInbound(id: nat, now: int) returns (row: Inbound)
      requires Valid()
      modifies this
      ensures Valid() && replies == old(replies)
      ensures id in old(inbound) ==> inbound == old(inbound) && changedAt == old(changedAt)
      ensures id !in old(inbound) ==>
        inbound == old(inbound)[id := Inbound(Received, 0)] && changedAt == old(changedAt)[id := now]
      ensures row == inbound[id]
    {
      if id !in inbound {
        inbound, changedAt := inbound[id := Inbound(Received, 0)], changedAt[id := now];
      }
      row := inbound[id];
    }

    method ClaimInbound(id: nat, now: int) returns (claimed: bool)
      requires Valid()
      modifies this
      ensures Valid() && replies == old(replies)
      ensures claimed <==>
        && id in old(inbound) && old(inbound)[id].attempts < 3
        && (old(inbound)[id].status == Received || old(inbound)[id].status == InboundFailed)
      ensures !claimed ==> inbound == old(inbound) && changedAt == old(changedAt)
      ensures claimed ==>
        && inbound == old(inbound)[id := Inbound(Processing, old(inbound)[id].attempts + 1)]
        && changedAt == old(changedAt)[id := now]
    {
      claimed := false;
      if id in inbound {
        var row := inbound[id];
        if (row.status == Received || row.status == InboundFailed) && row.attempts < MAX_ATTEMPTS {
          inbound, changedAt := inbound[id := Inbound(Processing, row.attempts + 1)], changedAt[id := now];
          claimed := true;
        }
      }
    }

    // The oldest row (ids stand for the order of creation) that may be recovered.
    // orphaned: the rows without a user; taken: the rows another transaction has locked,
    // which are skipped
    method ClaimNextInbound(now: int, orphaned: set<nat>, taken: set<nat>) returns (claimed: Option<nat>)
      requires Valid()
      modifies this
      ensures Valid() && replies == old(replies)
      ensures claimed.None? <==>
        forall id :: id in old(inbound) && id !in orphaned && id !in taken ==> !old(MayBeRecovered(id, now))
      ensures claimed.None? ==> inbound == old(inbound) && changedAt == old(changedAt)
      ensures claimed.Some? ==>
                && claimed.value in old(inbound) && claimed.value !in orphaned && claimed.value !in taken
                && old(MayBeRecovered(claimed.value, now))
                && (forall id :: id in old(inbound) && id !in orphaned && id !in taken && id < claimed.value ==>
                      !old(MayBeRecovered(id, now)))
                && inbound == old(inbound)[claimed.value :=
                                Inbound(Processing, old(inbound)[claimed.value].attempts + 1)]
                && changedAt == old(changedAt)[claimed.value := now]
                && !MayBeRecovered(claimed.value, now)
    {
      var free := inbound.Keys - orphaned - taken;
      var stale := set id | id in free && changedAt[id] < now - RECOVERY_AGE;
      var candidates := set id | id in free && Recoverable(inbound[id], id in stale);
      if candidates == {} {
        assert forall id :: id in free && Recoverable(inbound[id], id in stale) ==> id in candidates;
        assert forall id :: id in free ==> (id in stale <==> now - changedAt[id] > 120_000);
        return None;
      }
      ghost var least := LeastExists(candidates);
      var id :| id in candidates && forall other :: other in candidates ==> id <= other;
      assert forall other :: other in free && Recoverable(inbound[other], other in stale) ==> other in candidates;
      inbound, changedAt := inbound[id := Inbound(Processing, inbound[id].attempts + 1)], changedAt[id := now];
      return Some(id);
    }

    // Unconditional: even a processed row changes.
    method SetInboundStatus(id: nat, status: InboundStatus, now: int)
      requires Valid() && (status == Processed || status == Ignored || status == InboundFailed)
      modifies this
      ensures Valid() && replies == old(replies)
      ensures changedAt == if id in old(inbound) then old(changedAt)[id := now] else old(changedAt)
      ensures inbound == if id in old(inbound) then old(inbound)[id := old(inbound)[id].(status := status)]
                         else old(inbound)
    {
      if id in inbound {
        inbound, changedAt := inbound[id := inbound[id].(status := status)], changedAt[id := now];
      }
    }

    method MarkInboundUndeliverable(id: nat, now: int)
      requires Valid()
      modifies this
      ensures Valid() && replies == old(replies)
      ensures changedAt == if id in old(inbound) then old(changedAt)[id := now] else old(changedAt)
      ensures inbound == if id in old(inbound) then old(inbound)[id := Undeliverable(old(inbound)[id])]
                         else old(inbound)
      ensures id in inbound ==>
        inbound[id].status == InboundFailed && inbound[id].attempts >= 3 && forall later :: !MayBeRecovered(id, later)
    {
      if id in inbound {
        var attempts := inbound[id].attempts;
        if attempts < MAX_ATTEMPTS {
          attempts := MAX_ATTEMPTS;
        }
        inbound, changedAt := inbound[id := Inbound(InboundFailed, attempts)], changedAt[id := now];
      }
    }

    // Insert, else read, else retry; nothing else runs in between here (see the protocol for that).
    method ReserveOutbound(id: nat) returns (r: Reservation)
      modifies this`replies
      ensures r.shouldSend <==> id !in old(replies) || Retryable(old(replies)[id])
      ensures id !in old(replies) ==> replies == old(replies)[id := Reply(Sending, 1, None)]
      ensures id in old(replies) ==>
                replies == if r.shouldSend then old(replies)[id := Retried(old(replies)[id])] else old(replies)
      ensures r.status == replies[id].status
    {
      if id !in replies {
        replies := replies[id := Reply(Sending, 1, None)];
        return Reservation(Sending, true);
      }
      var row := replies[id];
      if row.status == Failed {
        if row.attempts < MAX_ATTEMPTS {
          replies := replies[id := row.(status := Sending, attempts := row.attempts + 1)];
          return Reservation(Sending, true);
        }
      }
      return Reservation(row.status, false);
    }

    // Fails when the row has left 'sending' in the meantime.
    method MarkOutboundSent(id: nat, external: Ext) returns (finalized: bool)
      modifies this`replies
      ensures finalized <==> id in old(replies) && old(replies)[id].status == Sending
      ensures replies == if id in old(replies) then old(replies)[id := MarkedSent(old(replies)[id], external)]
                         else old(replies)
    {
      finalized := id in replies && replies[id].status == Sending;
      if finalized {
        replies := replies[id := replies[id].(status := Sent, external := Some(external))];
      }
    }

    method MarkOutboundFailed(id: nat)
      modifies this`replies
      ensures replies == if id in old(replies) then old(replies)[id := MarkedFailed(old(replies)[id])] else old(replies)
    {
      if id in replies && replies[id].status == Sending {
        replies := replies[id := replies[id].(status := Failed)];
      }
    }

    method MarkOutboundDeliveryUnknown(id: nat)
      modifies this`replies
      ensures replies == if id in old(replies) then old(replies)[id := MarkedUnknown(old(replies)[id])]
                         else old(replies)
    {
      if id in replies && (replies[id].status == Sending || replies[id].status == Failed) {
        replies := replies[id := replies[id].(status := DeliveryUnknown)];
      }
    }

    // The row that stores the id, if the update advances it.
    method UpdateOutboundStatus(external: Ext, update: WebhookStatus) returns (changed: Option<nat>)
      requires forall i, j ::
        i in replies && j in replies && replies[i].external == replies[j].external == Some(external) ==> i == j
      modifies this`replies
      ensures replies == map id | id in old(replies) :: Reported(old(replies)[id], external, update)
      ensures changed.Some? <==>
                exists id :: id in old(replies) && old(replies)[id].external == Some(external) &&
                    Admits(old(replies)[id].status, update)
      ensures changed.Some? ==> changed.value in old(replies) && old(replies)[changed.value].external == Some(external)
    {
      var matching := set id | id in replies.Keys && replies[id].external == Some(external) &&
          Admits(replies[id].status, update);
      if matching == {} {
        assert forall id ::
          id in replies && replies[id].external == Some(external) && Admits(replies[id].status, update) ==>
            id in matching;
        return None;
      }
      var id :| id in matching;
      replies := replies[id := replies[id].(status := StatusOf(update))];
      return Some(id);
    }
  }
}
