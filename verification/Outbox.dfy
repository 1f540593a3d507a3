/**
 The durable inbox/outbox protocol: any number of workers on any number of
 replicas, each SQL statement one step, interleaved with crashes, stale
 takeovers and delivery webhooks.
 */
module Outbox {
  import opened Wrappers
  import opened MessageRows

  // What became of one call of sendText, as far as the sender or WhatsApp has told.
  datatype Outcome = Pending | Accepted | Rejected | Uncertain

  // Where a worker is in execute/deliverReply for inbound message m; k is the attempt it may send.
  datatype Worker =
    | Working(m: nat)                          // claimed; the reply is being computed
    | Conflicted(m: nat)                       // the reply row exists; about to read it
    | Retrying(m: nat)                         // it read 'failed'; about to retry the row
    | Refused(m: nat)                          // it may not send; about to mark the row unknown
    | Sending(m: nat, k: nat)                  // it holds the permission; sendText is running
    | SendAccepted(m: nat, k: nat)             // sendText returned an id; about to mark sent
    | SendRejected(m: nat, k: nat, permanent: bool)  // definite failure; about to mark failed
    | SendUncertain(m: nat, k: nat)            // unknown result; about to mark unknown
    | MarkLost(m: nat)                         // marking sent failed; about to mark unknown
    | Finishing(m: nat, unknown: bool)         // about to set the inbound row to processed
    | Failing(m: nat, permanent: bool)         // about to set the inbound row to failed

  // WhatsApp ids are unique per call of sendText: the message and the attempt.
  type Ext = (nat, nat)

  datatype State = State(
    inbound: map<nat, Inbound>,
    replies: map<nat, Reply<Ext>>,
    workers: map<nat, Worker>,
    history: map<nat, seq<Outcome>>,   // per message, the outcome of each granted attempt
    claims: map<nat, nat>)             // per message, the claims that succeeded

  datatype Step =
    | SaveInbound(m: nat)
    | Claim(w: nat, m: nat, recovery: bool, stale: bool)
    | Ignore(w: nat, auditFails: bool) // user limit, inactive user or purged content
    | ReserveInsert(w: nat)
    | ReserveRead(w: nat)
    | ReserveRetry(w: nat)
    | MarkRefused(w: nat)
    | SendReturns(w: nat, outcome: Outcome, permanent: bool)
    | MarkSent(w: nat, databaseError: bool)
    | MarkFailed(w: nat)
    | MarkUnknown(w: nat)
    | Abort(w: nat)                   // an exception other than a send result
    | Finish(w: nat, auditFails: bool) // an unknown delivery is audited afterwards
    | Fail(w: nat)
    | Crash(w: nat)
    | Webhook(m: nat, k: nat, update: WebhookStatus)

  // ---------------------------------------------------------------- steps

  // An exception may strike between statements, but not while sendText runs, and a failed
  // markSent is caught.
  predicate MayAbort(worker: Worker) {
    !worker.Sending? && !worker.SendAccepted? && !worker.Failing?
  }

  predicate Enabled(s: State, step: Step) {
    match step
    case SaveInbound(m) => true
    case Claim(w, m, recovery, stale) =>
      && w !in s.workers && m in s.inbound
      && if recovery then Recoverable(s.inbound[m], stale) else Claimable(s.inbound[m])
    case Ignore(w, _) => w in s.workers && s.workers[w].Working?
    case ReserveInsert(w) => w in s.workers && s.workers[w].Working?
    case ReserveRead(w) => w in s.workers && s.workers[w].Conflicted? && s.workers[w].m in s.replies
    case ReserveRetry(w) => w in s.workers && s.workers[w].Retrying? && s.workers[w].m in s.replies
    case MarkRefused(w) => w in s.workers && s.workers[w].Refused? && s.workers[w].m in s.replies
    case SendReturns(w, outcome, permanent) => w in s.workers && s.workers[w].Sending? && outcome != Pending
    case MarkSent(w, databaseError) => w in s.workers && s.workers[w].SendAccepted? && s.workers[w].m in s.replies
    case MarkFailed(w) => w in s.workers && s.workers[w].SendRejected? && s.workers[w].m in s.replies
    case MarkUnknown(w) =>
      w in s.workers && (s.workers[w].SendUncertain? || s.workers[w].MarkLost?) && s.workers[w].m in s.replies
    case Abort(w) => w in s.workers && MayAbort(s.workers[w])
    case Finish(w, auditFails) => w in s.workers && s.workers[w].Finishing? && s.workers[w].m in s.inbound &&
        (auditFails ==> s.workers[w].unknown)
    case Fail(w) => w in s.workers && s.workers[w].Failing? && s.workers[w].m in s.inbound
    case Crash(w) => w in s.workers
    case Webhook(m, k, update) => true
  }

  function Move(s: State, w: nat, worker: Worker): State {
    s.(workers := s.workers[w := worker])
  }

  function Leave(s: State, w: nat): State {
    s.(workers := s.workers - {w})
  }

  function SetReply(s: State, m: nat, r: Reply<Ext>): State {
    s.(replies := s.replies[m := r])
  }

  function Attempts(s: State, m: nat): seq<Outcome> {
    if m in s.history then s.history[m] else []
  }

  function Learn(s: State, m: nat, k: nat, outcome: Outcome): State {
    var h := Attempts(s, m);
    if 1 <= k <= |h| then s.(history := s.history[m := h[k - 1 := outcome]]) else s
  }

  // The result of sendText, after which the permission is spent.
  function Returned(m: nat, k: nat, outcome: Outcome, permanent: bool): Worker {
    match outcome
    case Accepted => SendAccepted(m, k)
    case Rejected => SendRejected(m, k, permanent)
    case _ => SendUncertain(m, k)
  }

  function Next(s: State, step: Step): State
    requires Enabled(s, step)
  {
    match step
    case SaveInbound(m) => if m in s.inbound then s else s.(inbound := s.inbound[m := Inbound(Received, 0)])
    case Claim(w, m, _, _) =>
      Move(s, w, Working(m)).(
        inbound := s.inbound[m := Claimed(s.inbound[m])],
        claims := s.claims[m := (if m in s.claims then s.claims[m] else 0) + 1])
    case Ignore(w, auditFails) =>
      var m := s.workers[w].m;
      var t := if m in s.inbound then s.(inbound := s.inbound[m := s.inbound[m].(status := Ignored)]) else s;
      if auditFails then Move(t, w, Failing(m, false)) else Leave(t, w)
    case ReserveInsert(w) =>
      var m := s.workers[w].m;
      if m in s.replies then Move(s, w, Conflicted(m))
      else Move(SetReply(s, m, Reply(ReplyStatus.Sending, 1, None)), w,
                Worker.Sending(m, 1)).(history := s.history[m := [Pending]])
    case ReserveRead(w) =>
      var m := s.workers[w].m;
      var status := s.replies[m].status;
      Move(s, w, if status == Failed then Retrying(m)
                 else if status == Sent || status == Delivered || status == Read then Finishing(m, false)
                 else Refused(m))
    case ReserveRetry(w) =>
      var m := s.workers[w].m;
      var r := s.replies[m];
      if Retryable(r) then
        Move(SetReply(s, m, Retried(r)), w,
             Worker.Sending(m, r.attempts + 1)).(history := s.history[m := Attempts(s, m) + [Pending]])
      else Move(s, w, Refused(m))
    case MarkRefused(w) =>
      var m := s.workers[w].m;
      Move(SetReply(s, m, MarkedUnknown(s.replies[m])), w, Finishing(m, true))
    case SendReturns(w, outcome, permanent) =>
      var worker := s.workers[w];
      Move(Learn(s, worker.m, worker.k, outcome), w, Returned(worker.m, worker.k, outcome, permanent))
    case MarkSent(w, databaseError) =>
      var worker := s.workers[w];
      if databaseError || s.replies[worker.m].status != ReplyStatus.Sending then Move(s, w, MarkLost(worker.m))
      else Move(SetReply(s, worker.m, MarkedSent(s.replies[worker.m], (worker.m, worker.k))), w,
                Finishing(worker.m, false))
    case MarkFailed(w) =>
      var worker := s.workers[w];
      Move(SetReply(s, worker.m, MarkedFailed(s.replies[worker.m])), w, Failing(worker.m, worker.permanent))
    case MarkUnknown(w) =>
      var m := s.workers[w].m;
      Move(SetReply(s, m, MarkedUnknown(s.replies[m])), w, Finishing(m, true))
    case Abort(w) => Move(s, w, Failing(s.workers[w].m, false))
    case Finish(w, auditFails) =>
      var m := s.workers[w].m;
      var t := s.(inbound := s.inbound[m := s.inbound[m].(status := Processed)]);
      if auditFails then Move(t, w, Failing(m, false)) else Leave(t, w)
    case Fail(w) =>
      var worker := s.workers[w];
      var row := s.inbound[worker.m];
      Leave(s.(inbound := s.inbound[worker.m :=
        if worker.permanent then Undeliverable(row) else row.(status := InboundFailed)]), w)
    case Crash(w) => Leave(s, w)
    case Webhook(m, k, update) =>
      if m in s.replies && s.replies[m].external == Some((m, k)) && Admits(s.replies[m].status, update) then
        var t := SetReply(s, m, Reported(s.replies[m], (m, k), update));
        if update == HasFailed then Learn(t, m, k, Rejected) else t
      else s
  }

  const INITIAL := State(map[], map[], map[], map[], map[])

  ghost predicate IsRun(s: State, steps: seq<Step>, t: State)
    decreases |steps|
  {
    if steps == [] then s == t else Enabled(s, steps[0]) && IsRun(Next(s, steps[0]), steps[1..], t)
  }

  // ---------------------------------------------------------------- counters

  function ClaimCount(s: State, m: nat): nat {
    if m in s.claims then s.claims[m] else 0
  }

  // Claims and permissions never exceed three and agree with the stored counters, whatever
  // the timing of the webhooks.
  ghost predicate Counted(s: State) { ClaimsCounted(s) && GrantsCounted(s) }

  ghost predicate ClaimsCounted(s: State) {
    && (forall m :: m in s.inbound ==> ClaimCount(s, m) <= s.inbound[m].attempts <= MAX_ATTEMPTS)
    && (forall m :: m in s.claims ==> m in s.inbound)
  }

  ghost predicate GrantsCounted(s: State) {
    && (forall m :: m in s.replies ==> |Attempts(s, m)| == s.replies[m].attempts <= MAX_ATTEMPTS)
    && (forall m :: m in s.history ==> m in s.replies)
  }

  lemma StepKeepsClaimsCounted(s: State, step: Step)
    requires ClaimsCounted(s) && Enabled(s, step)
    ensures ClaimsCounted(Next(s, step))
  {
    hide MarkedSent, MarkedFailed, MarkedUnknown, Retried, Reported, Learn, Returned;
    if !TouchesInbound(step) {
      InboundUntouched(s, step);
    }
  }

  predicate TouchesInbound(step: Step) {
    step.SaveInbound? || step.Claim? || step.Ignore? || step.Finish? || step.Fail?
  }

  lemma InboundUntouched(s: State, step: Step)
    requires Enabled(s, step) && !TouchesInbound(step)
    ensures Next(s, step).inbound == s.inbound && Next(s, step).claims == s.claims
  {
    hide MarkedSent, MarkedFailed, MarkedUnknown, Retried, Reported, Returned, Admits;
  }

  lemma StepKeepsGrantsCounted(s: State, step: Step)
    requires GrantsCounted(s) && Enabled(s, step)
    ensures GrantsCounted(Next(s, step))
  {
    hide GrantsCounted;
    if step.ReserveInsert? || step.ReserveRetry? {
      GrantIsCounted(s, step);
    } else {
      var t := Next(s, step);
      GrantsUntouched(s, step);
      SameGrants(s, t);
    }
  }

  lemma GrantIsCounted(s: State, step: Step)
    requires GrantsCounted(s) && Enabled(s, step) && (step.ReserveInsert? || step.ReserveRetry?)
    ensures GrantsCounted(Next(s, step))
  {
  }

  // The same rows with the same numbers of attempts.
  ghost predicate GrantsKept(s: State, t: State) {
    && t.replies.Keys == s.replies.Keys && t.history.Keys == s.history.Keys
    && (forall m :: m in s.replies ==> t.replies[m].attempts == s.replies[m].attempts)
    && (forall m :: m in s.history ==> |t.history[m]| == |s.history[m]|)
  }

  // No other step grants an attempt.
  lemma GrantsUntouched(s: State, step: Step)
    requires Enabled(s, step) && !step.ReserveInsert? && !step.ReserveRetry?
    ensures GrantsKept(s, Next(s, step))
  {
    hide GrantsKept;
    if step.Webhook? || step.SendReturns? {
      ReportsGrantNothing(s, step);
    } else if step.MarkSent? || step.MarkFailed? || step.MarkUnknown? || step.MarkRefused? {
      MarksGrantNothing(s, step);
    } else {
      var t := Next(s, step);
      assert t.replies == s.replies && t.history == s.history;
      NothingChanged(s, t);
    }
  }

  lemma NothingChanged(s: State, t: State)
    requires t.replies == s.replies && t.history == s.history
    ensures GrantsKept(s, t)
  {
  }

  lemma ReportsGrantNothing(s: State, step: Step)
    requires Enabled(s, step) && (step.Webhook? || step.SendReturns?)
    ensures GrantsKept(s, Next(s, step))
  {
  }

  lemma MarksGrantNothing(s: State, step: Step)
    requires Enabled(s, step) && (step.MarkSent? || step.MarkFailed? || step.MarkUnknown? || step.MarkRefused?)
    ensures GrantsKept(s, Next(s, step))
  {
  }

  lemma SameGrants(s: State, t: State)
    requires GrantsCounted(s) && GrantsKept(s, t)
    ensures GrantsCounted(t)
  {
    forall m | m in t.replies ensures |Attempts(t, m)| == t.replies[m].attempts <= MAX_ATTEMPTS {
      assert |Attempts(t, m)| == |Attempts(s, m)|;
    }
  }

  lemma {:induction false} RunsAreCounted(s: State, steps: seq<Step>, t: State)
    requires Counted(s) && IsRun(s, steps, t)
    ensures Counted(t)
    decreases |steps|
  {
    hide ClaimsCounted, GrantsCounted, Enabled, Next;
    if steps != [] {
      StepKeepsClaimsCounted(s, steps[0]);
      StepKeepsGrantsCounted(s, steps[0]);
      RunsAreCounted(Next(s, steps[0]), steps[1..], t);
    }
  }

  // A step that gives a message up for good.
  predicate GivesUp(s: State, step: Step, m: nat) {
    step.Fail? && step.w in s.workers && s.workers[step.w] == Failing(m, true)
  }

  // The stored counter of a known message rises by one exactly with a successful claim.
  lemma CounterCountsClaims(s: State, step: Step, m: nat)
    requires Enabled(s, step) && m in s.inbound
    ensures m in Next(s, step).inbound
    ensures !GivesUp(s, step, m) ==>
              Next(s, step).inbound[m].attempts - s.inbound[m].attempts ==
                  ClaimCount(Next(s, step), m) - ClaimCount(s, m)
    ensures GivesUp(s, step, m) ==>
              !Recoverable(Next(s, step).inbound[m], true) && ClaimCount(Next(s, step), m) == ClaimCount(s, m)
  {
    hide MarkedSent, MarkedFailed, MarkedUnknown, Retried, Reported, Learn, Returned;
    if !TouchesInbound(step) {
      InboundUntouched(s, step);
    }
  }

  // ---------------------------------------------------------------- states that are kept

  lemma StepKeepsFinalStates(s: State, step: Step, m: nat)
    requires Enabled(s, step) && m in s.replies
    ensures m in Next(s, step).replies
    ensures s.replies[m].status == DeliveryUnknown && s.replies[m].external == None ==>
              Next(s, step).replies[m] == s.replies[m]
    ensures s.replies[m].status == Delivered ==> Next(s, step).replies[m].status in {Delivered, Read}
    ensures s.replies[m].status == Read ==> Next(s, step).replies[m].status == Read
  {
    if step.Webhook? {
      ReportKeepsFinalStates(s, step, m);
    }
  }

  lemma ReportKeepsFinalStates(s: State, step: Step, m: nat)
    requires Enabled(s, step) && m in s.replies && step.Webhook?
    ensures m in Next(s, step).replies
    ensures s.replies[m].external == None ==> Next(s, step).replies[m] == s.replies[m]
    ensures s.replies[m].status == Delivered ==> Next(s, step).replies[m].status in {Delivered, Read}
    ensures s.replies[m].status == Read ==> Next(s, step).replies[m].status == Read
  {
  }

  // A reply whose delivery is unknown and that stores no id stays so for ever; a delivered
  // reply can only become read, and a read one never changes.
  lemma {:induction false} RunsKeepFinalStates(s: State, steps: seq<Step>, t: State, m: nat)
    requires IsRun(s, steps, t) && m in s.replies
    ensures m in t.replies
    ensures s.replies[m].status == DeliveryUnknown && s.replies[m].external == None ==> t.replies[m] == s.replies[m]
    ensures s.replies[m].status == Delivered ==> t.replies[m].status in {Delivered, Read}
    ensures s.replies[m].status == Read ==> t.replies[m].status == Read
    decreases |steps|
  {
    hide Enabled, Next;
    if steps != [] {
      StepKeepsFinalStates(s, steps[0], m);
      RunsKeepFinalStates(Next(s, steps[0]), steps[1..], t, m);
    }
  }
}
