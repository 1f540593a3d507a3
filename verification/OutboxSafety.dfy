/**
 Who may send: at most one worker per message, and again only after a definite failure.

 A failure report can arrive when a retry has already been granted, because the row keeps the
 id of the earlier attempt.  Such a report marks the retry as failed.  It does harm under an
 exact condition (`LateReportHarmsIff`); every run without harmful reports is safe, and all
 runs with timely reports are such runs.
 */
module OutboxSafety {
  import opened Wrappers
  import opened MessageRows
  import opened Outbox
  import opened OutboxGrants

  // ---------------------------------------------------------------- what is to be shown

  // At most one worker may be sending the reply to a message.
  ghost predicate OneSender(s: State) {
    forall v, w :: v in s.workers && w in s.workers && v != w && s.workers[v].Sending? && s.workers[w].Sending? ==>
      s.workers[v].m != s.workers[w].m
  }

  // Every granted attempt but the last one failed definitely.
  ghost predicate EarlierRejected(s: State) {
    forall m, i :: m in s.history && 0 <= i < |s.history[m]| - 1 ==> s.history[m][i] == Rejected
  }

  // ---------------------------------------------------------------- reports that do harm

  // The report names the id that the row stores, and the row is still waiting for news.
  predicate IsReport(s: State, step: Step) {
    step.Webhook? && step.update == HasFailed && step.m in s.replies &&
        s.replies[step.m].external == Some((step.m, step.k))
    && Admits(s.replies[step.m].status, HasFailed)
  }

  // No retry has been granted since the reported attempt.
  predicate Timely(s: State, step: Step) {
    IsReport(s, step) ==> step.k == s.replies[step.m].attempts
  }

  // A late report of an attempt while the current one has not failed definitely and another
  // one can still be granted.
  ghost predicate Harmful(s: State, step: Step) {
    && IsReport(s, step) && !Timely(s, step)
    && s.replies[step.m].attempts < MAX_ATTEMPTS
    && Attempts(s, step.m) != [] && Attempts(s, step.m)[|Attempts(s, step.m)| - 1] != Rejected
    && GrantPossible(s, step.m)
  }

  // No report along the run is harmful.
  ghost predicate HarmlessRun(s: State, steps: seq<Step>)
    decreases |steps|
  {
    steps != [] && Enabled(s, steps[0]) ==> !Harmful(s, steps[0]) && HarmlessRun(Next(s, steps[0]), steps[1..])
  }

  // All failure reports along the run are timely.
  ghost predicate TimelyRun(s: State, steps: seq<Step>)
    decreases |steps|
  {
    steps != [] && Enabled(s, steps[0]) ==> Timely(s, steps[0]) && TimelyRun(Next(s, steps[0]), steps[1..])
  }

  // ---------------------------------------------------------------- the invariant, message by message

  // The worker was granted an attempt whose result is not yet on record.
  predicate Outstanding(worker: Worker) {
    worker.Sending? || worker.SendAccepted? || worker.SendRejected? || worker.SendUncertain?
  }

  ghost predicate WorkersKnown(s: State, m: nat) {
    forall w :: w in s.workers && s.workers[w].m == m ==>
      m in s.inbound && (!s.workers[w].Working? && !s.workers[w].Failing? ==> m in s.replies)
  }

  ghost predicate RowOk(s: State, m: nat)
    requires m in s.replies
  {
    var r := s.replies[m];
    && m in s.inbound && m in s.history
    && 1 <= |s.history[m]| == r.attempts <= MAX_ATTEMPTS
    && (forall i :: 0 <= i < r.attempts - 1 ==> s.history[m][i] == Rejected)
    && (r.external.Some? ==> r.external.value.0 == m && 1 <= r.external.value.1 <= r.attempts)
  }

  // Whoever sends, sends the current attempt, and alone.
  ghost predicate SendersOk(s: State, m: nat)
    requires m in s.replies
  {
    && (forall w :: w in s.workers && s.workers[w].m == m && Outstanding(s.workers[w]) ==>
          && 1 <= s.workers[w].k <= s.replies[m].attempts
          && (s.workers[w].Sending? ==> s.workers[w].k == s.replies[m].attempts))
    && forall v, w :: v in s.workers && w in s.workers && s.workers[v].m == m == s.workers[w].m ==>
         s.workers[v].Sending? && s.workers[w].Sending? ==> v == w
  }

  // The result that the worker knows; a rejected first attempt cannot have been reported.
  ghost predicate OutstandingOk(s: State, m: nat, worker: Worker)
    requires m in s.replies && m in s.history && 1 <= |s.history[m]| == s.replies[m].attempts
  {
    Outstanding(worker) ==>
      var r, last := s.replies[m], s.history[m][|s.history[m]| - 1];
      && worker.k == r.attempts && r.external != Some((m, worker.k))
      && (worker.Sending? ==> last == Pending) && (worker.SendAccepted? ==> last == Accepted)
      && (worker.SendUncertain? ==> last == Uncertain) && (worker.SendRejected? ==> last == Rejected)
      && (r.status == Failed ==> worker.SendRejected? && r.attempts > 1)
  }

  // While another attempt can be granted: failed means rejected, and one result is awaited.
  ghost predicate OpenOk(s: State, m: nat)
    requires m in s.replies && RowOk(s, m)
  {
    && (s.replies[m].status == Failed ==> s.history[m][|s.history[m]| - 1] == Rejected)
    && (forall w :: w in s.workers && s.workers[w].m == m ==> OutstandingOk(s, m, s.workers[w]))
    && forall v, w :: v in s.workers && w in s.workers && s.workers[v].m == m == s.workers[w].m ==>
         Outstanding(s.workers[v]) && Outstanding(s.workers[w]) ==> v == w
  }

  ghost predicate MoreToGrant(s: State, m: nat)
    requires m in s.replies
  {
    s.replies[m].attempts < MAX_ATTEMPTS && GrantPossible(s, m)
  }

  ghost predicate InvAt(s: State, m: nat) {
    && (m in s.history <==> m in s.replies) && WorkersKnown(s, m)
    && (m in s.replies ==> RowOk(s, m) && SendersOk(s, m) && (MoreToGrant(s, m) ==> OpenOk(s, m)))
  }

  ghost predicate Inv(s: State) {
    forall m: nat :: InvAt(s, m)
  }

  lemma InvIsSafe(s: State)
    requires Inv(s)
    ensures OneSender(s) && EarlierRejected(s)
  {
    forall m, i | m in s.history && 0 <= i < |s.history[m]| - 1 ensures s.history[m][i] == Rejected {
      assert InvAt(s, m);
    }
    forall v, w | v in s.workers && w in s.workers && v != w && s.workers[v].Sending? && s.workers[w].Sending?
      ensures s.workers[v].m != s.workers[w].m
    {
      assert InvAt(s, s.workers[v].m);
    }
  }

  // ---------------------------------------------------------------- a step concerns one message

  // Nothing about message n has changed.
  ghost predicate SameFor(s: State, t: State, n: nat) {
    && (n in t.inbound <==> n in s.inbound) && (n in s.inbound ==> t.inbound[n] == s.inbound[n])
    && (n in t.replies <==> n in s.replies) && (n in s.replies ==> t.replies[n] == s.replies[n])
    && (n in t.history <==> n in s.history) && (n in s.history ==> t.history[n] == s.history[n])
    && (forall w :: w in s.workers && s.workers[w].m == n ==> w in t.workers && t.workers[w] == s.workers[w])
    && (forall w :: w in t.workers && t.workers[w].m == n ==> w in s.workers && t.workers[w] == s.workers[w])
  }

  function MessageOf(s: State, step: Step): nat
    requires Enabled(s, step)
  {
    match step
    case SaveInbound(m) => m
    case Claim(_, m, _, _) => m
    case Webhook(m, _, _) => m
    case _ => s.workers[step.w].m
  }

  lemma StepIsLocal(s: State, step: Step, n: nat)
    requires Enabled(s, step) && n != MessageOf(s, step)
    ensures SameFor(s, Next(s, step), n)
  {
    hide SameFor, Next, Enabled;
    if step.Webhook? || step.SendReturns? {
      ReportIsLocal(s, step, n);
    } else if step.MarkSent? || step.MarkFailed? || step.MarkUnknown? || step.MarkRefused? {
      MarkIsLocal(s, step, n);
    } else if step.ReserveInsert? || step.ReserveRead? || step.ReserveRetry? {
      ReserveIsLocal(s, step, n);
    } else if step.SaveInbound? || step.Claim? || step.Finish? || step.Fail? {
      InboundIsLocal(s, step, n);
    } else {
      LeavingIsLocal(s, step, n);
    }
  }

  lemma ReportIsLocal(s: State, step: Step, n: nat)
    requires Enabled(s, step) && n != MessageOf(s, step) && (step.Webhook? || step.SendReturns?)
    ensures SameFor(s, Next(s, step), n)
  {
    if step.Webhook? {
      WebhookIsLocal(s, step, n);
    } else {
      ResultIsLocal(s, step, n);
    }
  }

  lemma ResultIsLocal(s: State, step: Step, n: nat)
    requires Enabled(s, step) && step.SendReturns? && n != s.workers[step.w].m
    ensures SameFor(s, Next(s, step), n)
  {
    hide Learn;
    LearnIsLocal(s, s.workers[step.w].m, s.workers[step.w].k, step.outcome, n);
  }

  lemma WebhookIsLocal(s: State, step: Step, n: nat)
    requires step.Webhook? && n != step.m
    ensures SameFor(s, Next(s, step), n)
  {
    hide Reported, Admits;
  }

  lemma LearnIsLocal(s: State, m: nat, k: nat, outcome: Outcome, n: nat)
    requires n != m
    ensures SameFor(s, Learn(s, m, k, outcome), n) && Learn(s, m, k, outcome).workers == s.workers
  {
  }

  lemma MarkIsLocal(s: State, step: Step, n: nat)
    requires Enabled(s, step) && n != MessageOf(s, step)
    requires step.MarkSent? || step.MarkFailed? || step.MarkUnknown? || step.MarkRefused?
    ensures SameFor(s, Next(s, step), n)
  {
    hide MarkedSent, MarkedFailed, MarkedUnknown;
  }

  lemma ReserveIsLocal(s: State, step: Step, n: nat)
    requires Enabled(s, step) && n != MessageOf(s, step) &&
      (step.ReserveInsert? || step.ReserveRead? || step.ReserveRetry?)
    ensures SameFor(s, Next(s, step), n)
  {
    hide Retried;
  }

  lemma InboundIsLocal(s: State, step: Step, n: nat)
    requires Enabled(s, step) && n != MessageOf(s, step)
    requires step.SaveInbound? || step.Claim? || step.Finish? || step.Fail?
    ensures SameFor(s, Next(s, step), n)
  {
    hide Claimable, Recoverable, Claimed, Undeliverable;
  }

  lemma LeavingIsLocal(s: State, step: Step, n: nat)
    requires Enabled(s, step) && n != MessageOf(s, step) && (step.Ignore? || step.Abort? || step.Crash?)
    ensures SameFor(s, Next(s, step), n)
  {
  }

  lemma SameGrant(s: State, t: State, n: nat)
    requires SameFor(s, t, n)
    ensures GrantPossible(t, n) <==> GrantPossible(s, n)
  {
  }

  lemma SameKeeps(s: State, t: State, n: nat)
    requires SameFor(s, t, n) && InvAt(s, n)
    ensures InvAt(t, n)
  {
    SameGrant(s, t, n);
    if n in t.replies {
      assert RowOk(t, n);
      assert SendersOk(t, n);
      if MoreToGrant(t, n) {
        assert OpenOk(s, n);
        assert OpenOk(t, n);
      }
    }
  }

  // ---------------------------------------------------------------- what was closed stays closed

  lemma GrantStays(s: State, step: Step, m: nat)
    requires Enabled(s, step) && WorkersKnown(s, m) && m in s.inbound && GrantPossible(Next(s, step), m)
    ensures GrantPossible(s, m)
  {
    hide WorkersKnown, Next, Enabled, GrantPossible;
    if m != MessageOf(s, step) {
      StepIsLocal(s, step, m);
      SameGrant(s, Next(s, step), m);
    } else if step.SaveInbound? || step.Claim? || step.Ignore? || step.Finish? || step.Fail? {
      InboundGrantStays(s, step, m);
    } else {
      WorkerGrantStays(s, step, m);
    }
  }

  lemma InboundGrantStays(s: State, step: Step, m: nat)
    requires Enabled(s, step) && WorkersKnown(s, m) && m in s.inbound && m == MessageOf(s, step)
    requires step.SaveInbound? || step.Claim? || step.Ignore? || step.Finish? || step.Fail?
    requires GrantPossible(Next(s, step), m)
    ensures GrantPossible(s, m)
  {
    var t := Next(s, step);
    if step.Claim? {
      assert ClaimPossible(s, m);
    } else if step.Ignore? {
      assert Preparing(s, m);
    } else if Preparing(t, m) {
      var v :| v in t.workers && t.workers[v].m == m
               && (t.workers[v].Working? || t.workers[v].Conflicted? || t.workers[v].Retrying?);
      assert s.workers[v] == t.workers[v];
    } else {
      assert t.inbound[m].attempts < MAX_ATTEMPTS;
      if step.Finish? || step.Fail? {
        assert s.workers[step.w].m == m && s.workers[step.w] != Failing(m, true);
      }
    }
  }

  // A worker moves on; only one that is not giving up leaves work to be done.
  lemma WorkerGrantStays(s: State, step: Step, m: nat)
    requires Enabled(s, step) && m in s.inbound && m == MessageOf(s, step)
    requires !step.SaveInbound? && !step.Claim? && !step.Ignore? && !step.Finish? && !step.Fail?
    requires GrantPossible(Next(s, step), m)
    ensures GrantPossible(s, m)
  {
    var t := Next(s, step);
    assert t.inbound == s.inbound by { InboundUntouched(s, step); }
    WorkersMove(s, step, m);
    if Preparing(t, m) {
      var v :| v in t.workers && t.workers[v].m == m
               && (t.workers[v].Working? || t.workers[v].Conflicted? || t.workers[v].Retrying?);
      assert Preparing(s, m);
    } else if !Open(s.inbound[m].status) {
      var v :| v in t.workers && t.workers[v].m == m && t.workers[v] != Failing(m, true);
      assert v in s.workers && s.workers[v].m == m && s.workers[v] != Failing(m, true);
    }
  }

  lemma WorkersMove(s: State, step: Step, m: nat)
    requires Enabled(s, step) && m == MessageOf(s, step)
    requires !step.SaveInbound? && !step.Claim? && !step.Ignore? && !step.Finish? && !step.Fail?
    ensures forall v :: v in Next(s, step).workers && Next(s, step).workers[v].m == m ==>
      && v in s.workers && s.workers[v].m == m
      && (Next(s, step).workers[v] != s.workers[v] ==> s.workers[v] != Failing(m, true))
      && (Next(s, step).workers[v].Working? || Next(s, step).workers[v].Conflicted? ||
          Next(s, step).workers[v].Retrying? ==>
            s.workers[v].Working? || s.workers[v].Conflicted? || s.workers[v].Retrying?)
  {
    hide Reported, MarkedSent, MarkedFailed, MarkedUnknown, Retried, Admits;
  }

  // ---------------------------------------------------------------- every harmless step keeps the invariant

  // What can be granted after the step could be granted before it.
  lemma OpenBefore(s: State, step: Step, m: nat)
    requires Inv(s) && Enabled(s, step) && m in s.replies && m in Next(s, step).replies
    requires s.replies[m].attempts <= Next(s, step).replies[m].attempts && MoreToGrant(Next(s, step), m)
    ensures RowOk(s, m) && MoreToGrant(s, m) && OpenOk(s, m)
  {
    hide Next, Enabled, GrantPossible, WorkersKnown, OpenOk, SendersOk;
    assert InvAt(s, m);
    GrantStays(s, step, m);
  }

  // No row changes, and whoever moves on has nothing outstanding.
  ghost predicate Quiet(s: State, t: State, m: nat) {
    && t.replies == s.replies && t.history == s.history && (m in s.inbound ==> m in t.inbound)
    && forall v :: v in t.workers && t.workers[v].m == m ==>
         || (v in s.workers && t.workers[v] == s.workers[v])
         || (!Outstanding(t.workers[v]) && m in t.inbound &&
             (t.workers[v].Working? || t.workers[v].Failing? || m in t.replies))
  }

  lemma QuietKeeps(s: State, step: Step, m: nat)
    requires Inv(s) && Enabled(s, step) && Quiet(s, Next(s, step), m)
    ensures InvAt(Next(s, step), m)
  {
    hide Next, Enabled, GrantPossible;
    var t := Next(s, step);
    assert InvAt(s, m);
    if m in t.replies && MoreToGrant(t, m) {
      OpenBefore(s, step, m);
    }
  }

  // Steps that change no reply row.
  predicate IsQuiet(s: State, step: Step)
    requires Enabled(s, step)
  {
    match step
    case ReserveInsert(w) => s.workers[w].m in s.replies
    case ReserveRetry(w) => !Retryable(s.replies[s.workers[w].m])
    case MarkSent(w, databaseError) => databaseError || s.replies[s.workers[w].m].status != ReplyStatus.Sending
    case Webhook(m, k, update) =>
      !(m in s.replies && s.replies[m].external == Some((m, k)) && Admits(s.replies[m].status, update))
    case _ => !step.SendReturns? && !step.MarkRefused? && !step.MarkFailed? && !step.MarkUnknown?
  }

  lemma QuietStep(s: State, step: Step)
    requires Enabled(s, step) && IsQuiet(s, step) && WorkersKnown(s, MessageOf(s, step))
    ensures Quiet(s, Next(s, step), MessageOf(s, step))
  {
    hide MarkedSent, MarkedFailed, MarkedUnknown, Retried, Reported, Learn, Returned;
  }

  // The row and its history after the step; worker w, if any, is on its way.
  ghost predicate RowMoves(s: State, t: State, m: nat, w: nat) {
    && m in s.replies && m in t.replies && m in s.history && m in t.history && m in s.inbound && m in t.inbound
    && |t.history[m]| == |s.history[m]| && t.replies[m].attempts == s.replies[m].attempts
    && forall v :: v in t.workers && t.workers[v].m == m && v != w ==> v in s.workers && t.workers[v] == s.workers[v]
  }

  // Marking the row: the worker's result is on record now.
  lemma SentKeeps(s: State, w: nat)
    requires Inv(s) && Enabled(s, MarkSent(w, false)) && s.replies[s.workers[w].m].status == ReplyStatus.Sending
    ensures InvAt(Next(s, MarkSent(w, false)), s.workers[w].m)
  {
    hide GrantPossible;
    var m, t := s.workers[w].m, Next(s, MarkSent(w, false));
    assert InvAt(s, m);
    assert RowMoves(s, t, m, w) && t.history == s.history;
    if MoreToGrant(t, m) {
      OpenBefore(s, MarkSent(w, false), m);
    }
  }

  lemma FailedKeeps(s: State, w: nat)
    requires Inv(s) && Enabled(s, MarkFailed(w))
    ensures InvAt(Next(s, MarkFailed(w)), s.workers[w].m)
  {
    hide GrantPossible;
    var m, t := s.workers[w].m, Next(s, MarkFailed(w));
    assert InvAt(s, m);
    assert RowMoves(s, t, m, w) && t.history == s.history;
    if MoreToGrant(t, m) {
      OpenBefore(s, MarkFailed(w), m);
    }
  }

  lemma UnknownKeeps(s: State, step: Step)
    requires Inv(s) && Enabled(s, step) && (step.MarkUnknown? || step.MarkRefused?)
    ensures InvAt(Next(s, step), s.workers[step.w].m)
  {
    hide GrantPossible, RowOk, SendersOk, OpenOk, WorkersKnown;
    var m, t := s.workers[step.w].m, Next(s, step);
    assert InvAt(s, m);
    if MoreToGrant(t, m) {
      OpenBefore(s, step, m);
    }
    UnknownRow(s, t, step.w, m);
  }

  // A row marked as unknown is not failed, and the marking worker has nothing outstanding.
  lemma UnknownRow(s: State, t: State, w: nat, m: nat)
    requires InvAt(s, m) && m in s.replies && w in s.workers && s.workers[w].m == m
    requires t.workers == s.workers[w := Finishing(m, true)] && t.history == s.history && t.inbound == s.inbound
    requires t.replies == s.replies[m := MarkedUnknown(s.replies[m])]
    requires MoreToGrant(t, m) ==> OpenOk(s, m)
    ensures InvAt(t, m)
  {
    hide GrantPossible;
    assert RowOk(t, m);
    assert SendersOk(t, m);
  }

  lemma InsertKeeps(s: State, w: nat)
    requires Inv(s) && Enabled(s, ReserveInsert(w)) && s.workers[w].m !in s.replies
    ensures InvAt(Next(s, ReserveInsert(w)), s.workers[w].m)
  {
    hide GrantPossible;
    var m, t := s.workers[w].m, Next(s, ReserveInsert(w));
    assert InvAt(s, m);
  }

  lemma RetryKeeps(s: State, w: nat)
    requires Inv(s) && Enabled(s, ReserveRetry(w)) && Retryable(s.replies[s.workers[w].m])
    ensures InvAt(Next(s, ReserveRetry(w)), s.workers[w].m)
  {
    var m := s.workers[w].m;
    assert InvAt(s, m);
    assert Preparing(s, m);
    assert OpenOk(s, m);
    hide RowOk, SendersOk, OpenOk, WorkersKnown, GrantPossible;
    RetriedRow(s, Next(s, ReserveRetry(w)), w, m);
  }

  // The retry is the only attempt awaited, unless no other can be granted.
  lemma RetriedRow(s: State, t: State, w: nat, m: nat)
    requires InvAt(s, m) && w in s.workers && s.workers[w].m == m && s.workers[w].Retrying?
    requires m in s.replies && OpenOk(s, m) && Retryable(s.replies[m])
    requires t.inbound == s.inbound && t.replies == s.replies[m := Retried(s.replies[m])]
    requires t.workers == s.workers[w := Worker.Sending(m, s.replies[m].attempts + 1)]
    requires t.history == s.history[m := Attempts(s, m) + [Pending]]
    ensures InvAt(t, m)
  {
    hide GrantPossible;
    assert RowOk(t, m);
    assert SendersOk(t, m);
  }

  lemma ResultKeeps(s: State, step: Step)
    requires Inv(s) && Enabled(s, step) && step.SendReturns?
    ensures InvAt(Next(s, step), s.workers[step.w].m)
  {
    hide GrantPossible, RowOk, SendersOk, OpenOk;
    var m, t := s.workers[step.w].m, Next(s, step);
    assert InvAt(s, m);
    if MoreToGrant(t, m) {
      OpenBefore(s, step, m);
    }
    ResultRow(s, t, step.w, m, step.outcome, step.permanent);
  }

  // The worker's result is on record, and it still is the only one awaited.
  lemma ResultRow(s: State, t: State, w: nat, m: nat, outcome: Outcome, permanent: bool)
    requires InvAt(s, m) && w in s.workers && s.workers[w].Sending? && s.workers[w].m == m && outcome != Pending
    requires t == Move(Learn(s, m, s.workers[w].k, outcome), w, Returned(m, s.workers[w].k, outcome, permanent))
    requires m in s.replies && (MoreToGrant(t, m) ==> OpenOk(s, m))
    ensures InvAt(t, m)
  {
    hide GrantPossible;
    assert RowOk(t, m);
    assert SendersOk(t, m);
  }

  lemma ReportKeeps(s: State, step: Step)
    requires Inv(s) && Enabled(s, step) && step.Webhook? && !IsQuiet(s, step) && !Harmful(s, step)
    ensures InvAt(Next(s, step), step.m)
  {
    hide GrantPossible;
    var m, t := step.m, Next(s, step);
    assert InvAt(s, m);
    assert RowMoves(s, t, m, 0) && t.workers == s.workers;
    if MoreToGrant(t, m) {
      OpenBefore(s, step, m);
    }
  }

  lemma StepKeepsInv(s: State, step: Step)
    requires Inv(s) && Enabled(s, step) && !Harmful(s, step)
    ensures Inv(Next(s, step))
  {
    hide InvAt, Next, Enabled, Harmful;
    var m := MessageOf(s, step);
    forall n: nat ensures InvAt(Next(s, step), n) {
      assert InvAt(s, n);
      if n != m {
        StepIsLocal(s, step, n);
        SameKeeps(s, Next(s, step), n);
      } else {
        OwnMessageKeeps(s, step);
      }
    }
  }

  lemma OwnMessageKeeps(s: State, step: Step)
    requires Inv(s) && Enabled(s, step) && !Harmful(s, step)
    ensures InvAt(Next(s, step), MessageOf(s, step))
  {
    hide Next, Harmful, RowOk, SendersOk, OpenOk, GrantPossible;
    assert InvAt(s, MessageOf(s, step));
    if IsQuiet(s, step) {
      QuietStep(s, step);
      QuietKeeps(s, step, MessageOf(s, step));
    } else {
      match step
      case ReserveInsert(w) => InsertKeeps(s, w);
      case ReserveRetry(w) => RetryKeeps(s, w);
      case SendReturns(_, _, _) => ResultKeeps(s, step);
      case Webhook(_, _, _) => ReportKeeps(s, step);
      case MarkSent(w, _) => SentKeeps(s, w);
      case MarkFailed(w) => FailedKeeps(s, w);
      case _ => UnknownKeeps(s, step);
    }
  }

  lemma RunKeepsInv(s: State, steps: seq<Step>, t: State)
    requires Inv(s) && IsRun(s, steps, t) && HarmlessRun(s, steps)
    ensures Inv(t)
    decreases |steps|
  {
    hide Inv, Enabled, Next, Harmful;
    if steps != [] {
      StepKeepsInv(s, steps[0]);
      RunKeepsInv(Next(s, steps[0]), steps[1..], t);
    }
  }

  // Along every run without harmful reports one worker sends at a time, and every permission
  // after the first follows a definite failure.
  lemma RunsAreSafe(steps: seq<Step>, t: State)
    requires IsRun(INITIAL, steps, t) && HarmlessRun(INITIAL, steps)
    ensures OneSender(t) && EarlierRejected(t)
  {
    hide HarmlessRun, IsRun;
    assert Inv(INITIAL);
    RunKeepsInv(INITIAL, steps, t);
    InvIsSafe(t);
  }

  lemma {:induction false} TimelyIsHarmless(s: State, steps: seq<Step>)
    requires TimelyRun(s, steps)
    ensures HarmlessRun(s, steps)
    decreases |steps|
  {
    hide Enabled, Next, Timely, GrantPossible;
    if steps != [] && Enabled(s, steps[0]) {
      TimelyIsHarmless(Next(s, steps[0]), steps[1..]);
    }
  }

  // ---------------------------------------------------------------- a harmful report does harm

  // Some continuation without another harmful report ends in an unsafe state.
  ghost predicate CanViolate(s: State) {
    exists steps, t :: Violates(s, steps, t)
  }

  ghost predicate Violates(s: State, steps: seq<Step>, t: State) {
    IsRun(s, steps, t) && HarmlessRun(s, steps) && !(OneSender(t) && EarlierRejected(t))
  }

  // A late report does harm if and only if it is harmful: the current attempt has not failed
  // definitely, and another one can still be granted.
  lemma LateReportHarmsIff(s: State, report: Step)
    requires Inv(s) && IsReport(s, report) && !Timely(s, report)
    ensures CanViolate(Next(s, report)) <==> Harmful(s, report)
  {
    if Harmful(s, report) {
      HarmfulViolates(s, report);
    } else {
      HarmlessIsSafe(s, report);
    }
  }

  lemma HarmlessIsSafe(s: State, report: Step)
    requires Inv(s) && Enabled(s, report) && !Harmful(s, report)
    ensures !CanViolate(Next(s, report))
  {
    hide Inv, Enabled, Next, Harmful, IsRun, HarmlessRun, OneSender, EarlierRejected;
    StepKeepsInv(s, report);
    var u := Next(s, report);
    forall steps, t ensures !Violates(u, steps, t) {
      if IsRun(u, steps, t) && HarmlessRun(u, steps) {
        RunKeepsInv(u, steps, t);
        InvIsSafe(t);
      }
    }
  }

  lemma {:induction false} WithoutReportsIsHarmless(s: State, steps: seq<Step>)
    requires WithoutReports(steps)
    ensures HarmlessRun(s, steps)
    decreases |steps|
  {
    hide Enabled, Next, GrantPossible;
    if steps != [] && Enabled(s, steps[0]) {
      WithoutReportsIsHarmless(Next(s, steps[0]), steps[1..]);
    }
  }

  lemma HarmfulViolates(s: State, report: Step)
    requires Inv(s) && Harmful(s, report)
    ensures CanViolate(Next(s, report))
  {
    var m, u := report.m, Next(s, report);
    assert InvAt(s, m);
    var n := s.replies[m].attempts;
    assert u.workers == s.workers && u.inbound == s.inbound && Ready(u, m, n, false);
    hide Ready, Next, Harmful, Inv, CanViolate;
    assert GrantPossible(u, m);
    PossibleIsGranted(u, m, n, false);
    GrantedViolates(u, m, n);
  }

  lemma GrantedViolates(s: State, m: nat, n: nat)
    requires CanGrant(s, m, n, false)
    ensures CanViolate(s)
  {
    hide IsRun, HarmlessRun;
    var steps, t :| Grants(s, m, n, false, steps, t);
    WithoutReportsIsHarmless(s, steps);
    assert t.history[m][n - 1] != Rejected;
    assert Violates(s, steps, t);
  }

  // ---------------------------------------------------------------- late failure reports

  lemma {:induction false} OneMoreStep(s: State, steps: seq<Step>, t: State, step: Step)
    requires IsRun(s, steps, t) && Enabled(t, step)
    ensures IsRun(s, steps + [step], Next(t, step))
    decreases |steps|
  {
    hide Enabled, Next;
    if steps == [] {
      assert ([] + [step])[1..] == [];
    } else {
      OneMoreStep(Next(s, steps[0]), steps[1..], t, step);
      assert (steps + [step])[1..] == steps[1..] + [step];
    }
  }

  // A worker is sending a retry while the row still stores the id of an earlier attempt.
  ghost predicate RetryUnderWay(s: State, m: nat, j: nat, w: nat, k: nat) {
    && w in s.workers && s.workers[w] == Worker.Sending(m, k)
    && m in s.replies && s.replies[m] == Reply(ReplyStatus.Sending, k, Some((m, j))) && j < k < MAX_ATTEMPTS
    && m in s.inbound && s.inbound[m].status == Processing && s.inbound[m].attempts < MAX_ATTEMPTS
  }

  // Timeliness cannot be dropped: in every such state, the failure report of the earlier
  // attempt lets any free worker send a second time.
  lemma LateFailureOpensGate(s: State, m: nat, j: nat, w: nat, k: nat, v: nat) returns (steps: seq<Step>, t: State)
    requires RetryUnderWay(s, m, j, w, k) && v !in s.workers
    ensures IsRun(s, steps, t)
    ensures steps != [] && w in t.workers && v in t.workers && w != v
    ensures t.workers[w] == Worker.Sending(m, k) && t.workers[v] == Worker.Sending(m, k + 1)
    ensures !OneSender(t) && !Timely(s, steps[0])
  {
    var report := Webhook(m, j, HasFailed);
    var s1 := Next(s, report);
    assert s1.workers == s.workers && s1.inbound == s.inbound && s1.replies[m] == Reply(Failed, k, Some((m, j)));
    t := Reclaim(s1, m, v, k);
    steps := [report] + [Claim(v, m, true, true), ReserveInsert(v), ReserveRead(v), ReserveRetry(v)];
    assert steps[1..] == [Claim(v, m, true, true), ReserveInsert(v), ReserveRead(v), ReserveRetry(v)];
  }

  // A free worker takes over a message whose reply row may be retried.
  lemma Reclaim(s: State, m: nat, v: nat, k: nat) returns (t: State)
    requires v !in s.workers && m in s.inbound && Recoverable(s.inbound[m], true)
    requires m in s.replies && s.replies[m].status == Failed && s.replies[m].attempts == k < MAX_ATTEMPTS
    ensures IsRun(s, [Claim(v, m, true, true), ReserveInsert(v), ReserveRead(v), ReserveRetry(v)], t)
    ensures t.workers == s.workers[v := Worker.Sending(m, k + 1)]
  {
    var a, b, c, d := Claim(v, m, true, true), ReserveInsert(v), ReserveRead(v), ReserveRetry(v);
    TakenOver(s, m, v);
    var s1 := Next(s, a);
    var s2 := Next(s1, b);
    RetryGranted(s2, m, v, k);
    hide Next, Enabled;
    var s3 := Next(s2, c);
    t := Next(s3, d);
    FourSteps(s, a, b, c, d, s1, s2, s3);
  }

  lemma TakenOver(s: State, m: nat, v: nat)
    requires v !in s.workers && m in s.inbound && Recoverable(s.inbound[m], true) && m in s.replies
    ensures var a, b := Claim(v, m, true, true), ReserveInsert(v);
      && Enabled(s, a) && Enabled(Next(s, a), b)
      && Next(Next(s, a), b).workers == s.workers[v := Conflicted(m)] && Next(Next(s, a), b).replies == s.replies
  {
    assert Next(s, Claim(v, m, true, true)).workers == s.workers[v := Working(m)];
  }

  lemma RetryGranted(s: State, m: nat, v: nat, k: nat)
    requires v in s.workers && s.workers[v] == Conflicted(m)
    requires m in s.replies && s.replies[m].status == Failed && s.replies[m].attempts == k < MAX_ATTEMPTS
    ensures var c, d := ReserveRead(v), ReserveRetry(v);
      && Enabled(s, c) && Enabled(Next(s, c), d)
      && Next(Next(s, c), d).workers == s.workers[v := Worker.Sending(m, k + 1)]
  {
    assert Next(s, ReserveRead(v)).workers == s.workers[v := Retrying(m)];
  }

  lemma FourSteps(s: State, a: Step, b: Step, c: Step, d: Step, s1: State, s2: State, s3: State)
    requires Enabled(s, a) && s1 == Next(s, a) && Enabled(s1, b) && s2 == Next(s1, b)
    requires Enabled(s2, c) && s3 == Next(s2, c) && Enabled(s3, d)
    ensures IsRun(s, [a, b, c, d], Next(s3, d))
  {
    hide Enabled, Next;
    assert [a, b, c, d][1..] == [b, c, d] && [b, c, d][1..] == [c, d] && [c, d][1..] == [d] && [d][1..] == [];
    assert IsRun(s3, [d], Next(s3, d));
    assert IsRun(s2, [c, d], Next(s3, d));
    assert IsRun(s1, [b, c, d], Next(s3, d));
  }

  // Such states are reached: one attempt is accepted and reported failed, its worker cannot
  // set the inbound row to processed, recovery retries the reply, and then the same report
  // is delivered again.
  lemma LateFailureHappens() returns (steps: seq<Step>, t: State)
    ensures IsRun(INITIAL, steps, t) && !OneSender(t)
  {
    var first := FirstAttempt();
    var second := ReportedFailed();
    var s := Reclaim(AFTER_REPORT, 0, 2, 1);
    var retry := [Claim(2, 0, true, true), ReserveInsert(2), ReserveRead(2), ReserveRetry(2)];
    SecondAttempt(s);
    var late, u := LateFailureOpensGate(s, 0, 1, 2, 2, 3);
    RunsCompose(INITIAL, first, AFTER_SENT, second, AFTER_REPORT);
    RunsCompose(INITIAL, first + second, AFTER_REPORT, retry, s);
    RunsCompose(INITIAL, first + second + retry, s, late, u);
    steps, t := first + second + retry + late, u;
  }

  const AFTER_SENT := State(
    map[0 := Inbound(Processing, 1)], map[0 := Reply(Sent, 1, Some((0, 1)))], map[1 := Finishing(0, false)],
    map[0 := [Accepted]], map[0 := 1])

  const AFTER_REPORT := State(
    map[0 := Inbound(InboundFailed, 1)], map[0 := Reply(Failed, 1, Some((0, 1)))], map[],
    map[0 := [Rejected]], map[0 := 1])

  lemma FirstAttempt() returns (steps: seq<Step>)
    ensures IsRun(INITIAL, steps, AFTER_SENT)
  {
    var a, b, c, d, e := SaveInbound(0), Claim(1, 0, false, false), ReserveInsert(1), SendReturns(1, Accepted,
        false), MarkSent(1, false);
    var s1 := Next(INITIAL, a);
    var s2 := Next(s1, b);
    var s3 := Next(s2, c);
    FourSteps(INITIAL, a, b, c, d, s1, s2, s3);
    assert s3.workers == map[1 := Worker.Sending(0, 1)] && s3.history == map[0 := [Pending]];
    assert s3.inbound == map[0 := Inbound(Processing, 1)] &&
        s3.replies == map[0 := Reply(ReplyStatus.Sending, 1, None)];
    SendAndMark(s3);
    OneMoreStep(INITIAL, [a, b, c, d], Next(s3, d), e);
    steps := [a, b, c, d] + [e];
  }

  lemma SendAndMark(s: State)
    requires s == State(map[0 := Inbound(Processing, 1)], map[0 := Reply(ReplyStatus.Sending, 1, None)],
                        map[1 := Worker.Sending(0, 1)], map[0 := [Pending]], map[0 := 1])
    ensures Enabled(s, SendReturns(1, Accepted, false)) &&
      Enabled(Next(s, SendReturns(1, Accepted, false)), MarkSent(1, false))
    ensures Next(Next(s, SendReturns(1, Accepted, false)), MarkSent(1, false)) == AFTER_SENT
  {
    assert [Pending][0 := Accepted] == [Accepted];
    var t := Next(s, SendReturns(1, Accepted, false));
    assert t.workers == map[1 := SendAccepted(0, 1)] && t.history == map[0 := [Accepted]];
  }

  lemma ReportedFailed() returns (steps: seq<Step>)
    ensures IsRun(AFTER_SENT, steps, AFTER_REPORT)
  {
    var a, b, c := Webhook(0, 1, HasFailed), Abort(1), Fail(1);
    var s1 := State(map[0 := Inbound(Processing, 1)], map[0 := Reply(Failed, 1, Some((0, 1)))],
                    map[1 := Finishing(0, false)],
                    map[0 := [Rejected]], map[0 := 1]);
    ReportLands(s1);
    AbortThenFail(s1);
    ThreeSteps(AFTER_SENT, a, b, c, s1, Next(s1, b));
    steps := [] + [a] + [b] + [c];
  }

  lemma ReportLands(s1: State)
    requires s1 == State(map[0 := Inbound(Processing, 1)], map[0 := Reply(Failed, 1, Some((0, 1)))],
                         map[1 := Finishing(0, false)],
                         map[0 := [Rejected]], map[0 := 1])
    ensures Enabled(AFTER_SENT, Webhook(0, 1, HasFailed)) && Next(AFTER_SENT, Webhook(0, 1, HasFailed)) == s1
  {
    assert [Accepted][0 := Rejected] == [Rejected];
    var t := Next(AFTER_SENT, Webhook(0, 1, HasFailed));
    assert t.replies == s1.replies && t.history == s1.history;
  }

  lemma AbortThenFail(s1: State)
    requires s1 == State(map[0 := Inbound(Processing, 1)], map[0 := Reply(Failed, 1, Some((0, 1)))],
                         map[1 := Finishing(0, false)],
                         map[0 := [Rejected]], map[0 := 1])
    ensures Enabled(s1, Abort(1)) && Enabled(Next(s1, Abort(1)), Fail(1))
    ensures Next(Next(s1, Abort(1)), Fail(1)) == AFTER_REPORT
  {
    var s2 := Next(s1, Abort(1));
    assert s2.workers == map[1 := Failing(0, false)] && s2.inbound == map[0 := Inbound(Processing, 1)];
    var s3 := Next(s2, Fail(1));
    assert s3.workers == map[] && s3.inbound == map[0 := Inbound(InboundFailed, 1)];
  }

  lemma ThreeSteps(s: State, a: Step, b: Step, c: Step, s1: State, s2: State)
    requires Enabled(s, a) && s1 == Next(s, a) && Enabled(s1, b) && s2 == Next(s1, b) && Enabled(s2, c)
    ensures IsRun(s, [] + [a] + [b] + [c], Next(s2, c))
  {
    hide Enabled, Next;
    OneMoreStep(s, [], s, a);
    OneMoreStep(s, [] + [a], s1, b);
    OneMoreStep(s, [] + [a] + [b], s2, c);
  }

  lemma SecondAttempt(s: State)
    requires IsRun(AFTER_REPORT, [Claim(2, 0, true, true), ReserveInsert(2), ReserveRead(2), ReserveRetry(2)], s)
    ensures RetryUnderWay(s, 0, 1, 2, 2) && 3 !in s.workers
  {
    var a, b, c, d := Claim(2, 0, true, true), ReserveInsert(2), ReserveRead(2), ReserveRetry(2);
    assert [a, b, c, d][1..] == [b, c, d] && [b, c, d][1..] == [c, d] && [c, d][1..] == [d] && [d][1..] == [];
    var s1 := Next(AFTER_REPORT, a);
    assert s1.workers == map[2 := Working(0)];
    var s2 := Next(s1, b);
    assert s2.workers == map[2 := Conflicted(0)];
    var s3 := Next(s2, c);
    assert s3.workers == map[2 := Retrying(0)];
    assert s == Next(s3, d);
  }

  lemma {:induction false} RunsCompose(s: State, a: seq<Step>, t: State, b: seq<Step>, u: State)
    requires IsRun(s, a, t) && IsRun(t, b, u)
    ensures IsRun(s, a + b, u)
    decreases |a|
  {
    hide Enabled, Next;
    if a == [] {
      assert a + b == b;
    } else {
      RunsCompose(Next(s, a[0]), a[1..], t, b, u);
      assert (a + b)[1..] == a[1..] + b;
    }
  }
}
