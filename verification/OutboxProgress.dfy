/**
 What the outbox achieves: a reply that failed definitely is retried, a message whose reply was
 sent is processed and never claimed again, and whoever finds a reply already begun settles it.
 */
module OutboxProgress {
  import opened Wrappers
  import opened MessageRows
  import opened Outbox
  import opened OutboxGrants
  import opened OutboxSafety

  // ---------------------------------------------------------------- a definite failure is retried

  // The row is still the worker's to mark.
  predicate Marking(s: State, m: nat) {
    m in s.replies && (s.replies[m].status == ReplyStatus.Sending || s.replies[m].status == Failed)
  }

  /** After a definite, not permanent failure of the current attempt, the workers alone can come
      to send the next one if and only if nobody has given the row another status, attempts are
      left, and a worker is on its way or the message can still be claimed. */
  lemma FailureIsRetriedIff(s: State, m: nat, w: nat, k: nat)
    requires Inv(s) && w in s.workers && s.workers[w] == SendRejected(m, k, false)
    requires m in s.replies && k == s.replies[m].attempts
    ensures CanGrant(s, m, k, true) <==> Marking(s, m) && k < MAX_ATTEMPTS && GrantPossible(s, m)
  {
    hide GrantPossible, Inv, CanGrant;
    InvHere(s, m);
    if Marking(s, m) && k < MAX_ATTEMPTS && GrantPossible(s, m) {
      var t := Next(s, MarkFailed(w));
      MarkedIsReady(s, m, w, k);
      PossibleIsGranted(t, m, k, true);
      OneStepEarlier(s, MarkFailed(w), m, k, true);
    }
    if CanGrant(s, m, k, true) {
      GrantedWasPossible(s, m, k);
    }
  }

  lemma InvHere(s: State, m: nat)
    requires Inv(s)
    ensures InvAt(s, m)
  {
  }

  lemma MarkedIsReady(s: State, m: nat, w: nat, k: nat)
    requires InvAt(s, m) && w in s.workers && s.workers[w] == SendRejected(m, k, false)
    requires Marking(s, m) && k == s.replies[m].attempts < MAX_ATTEMPTS && GrantPossible(s, m)
    ensures Enabled(s, MarkFailed(w)) && Ready(Next(s, MarkFailed(w)), m, k, true)
    ensures GrantPossible(Next(s, MarkFailed(w)), m)
  {
    var t := Next(s, MarkFailed(w));
    assert t.inbound == s.inbound && t.workers == s.workers[w := Failing(m, false)];
    if Preparing(s, m) {
      var v :| v in s.workers && s.workers[v].m == m
               && (s.workers[v].Working? || s.workers[v].Conflicted? || s.workers[v].Retrying?);
      assert t.workers[v] == s.workers[v];
    } else {
      assert t.workers[w] != Failing(m, true);
    }
  }

  // What some run without reports grants was possible at its start.
  lemma GrantedWasPossible(s: State, m: nat, k: nat)
    requires Inv(s) && m in s.replies && k == s.replies[m].attempts && CanGrant(s, m, k, true)
    ensures Marking(s, m) && k < MAX_ATTEMPTS && GrantPossible(s, m)
  {
    hide Marking, GrantPossible, IsRun, Inv, InvAt, Sends;
    InvHere(s, m);
    RowLength(s, m);
    var steps, t :| Grants(s, m, k, true, steps, t);
    if !(Marking(s, m) && k < MAX_ATTEMPTS && GrantPossible(s, m)) {
      NothingGranted(s, steps, t, m);
    }
  }

  lemma RowLength(s: State, m: nat)
    requires InvAt(s, m) && m in s.replies
    ensures m in s.inbound && m in s.history && |s.history[m]| == s.replies[m].attempts <= MAX_ATTEMPTS
    ensures WorkersKnown(s, m)
  {
  }

  lemma {:induction false} NothingGranted(s: State, steps: seq<Step>, t: State, m: nat)
    requires Inv(s) && IsRun(s, steps, t) && WithoutReports(steps) && m in s.replies
    requires !(Marking(s, m) && s.replies[m].attempts < MAX_ATTEMPTS && GrantPossible(s, m))
    ensures m in s.history && m in t.history && |t.history[m]| == |s.history[m]|
    decreases |steps|
  {
    hide Enabled, Next, GrantPossible, Inv, InvAt, Marking, Harmful, WorkersKnown;
    InvHere(s, m);
    RowLength(s, m);
    if steps != [] {
      var u := Next(s, steps[0]);
      NotHarmful(s, steps[0]);
      StepKeepsInv(s, steps[0]);
      StillNotGranted(s, steps[0], m);
      NothingGranted(u, steps[1..], t, m);
    }
  }

  lemma NotHarmful(s: State, step: Step)
    requires !step.Webhook?
    ensures !Harmful(s, step)
  {
  }

  lemma StillNotGranted(s: State, step: Step, m: nat)
    requires Enabled(s, step) && !step.Webhook? && m in s.replies && m in s.inbound && m in s.history
    requires WorkersKnown(s, m)
    requires !(Marking(s, m) && s.replies[m].attempts < MAX_ATTEMPTS && GrantPossible(s, m))
    ensures var t := Next(s, step);
      && m in t.replies && m in t.history && |t.history[m]| == |s.history[m]|
      && !(Marking(t, m) && t.replies[m].attempts < MAX_ATTEMPTS && GrantPossible(t, m))
  {
    hide GrantPossible, WorkersKnown;
    if GrantPossible(Next(s, step), m) {
      GrantStays(s, step, m);
    }
    if step.ReserveRetry? && s.workers[step.w].m == m {
      assert GrantPossible(s, m) by { RetryingIsPossible(s, m, step.w); }
    }
  }

  lemma RetryingIsPossible(s: State, m: nat, w: nat)
    requires w in s.workers && s.workers[w] == Retrying(m)
    ensures GrantPossible(s, m)
  {
    assert Preparing(s, m);
  }

  // ---------------------------------------------------------------- a settled message stays settled

  // Nobody works on the message, and it was dealt with or given up.
  ghost predicate Settled(s: State, m: nat) {
    && m in s.inbound
    && (s.inbound[m].status == Processed || s.inbound[m].status == Ignored || s.inbound[m].attempts >= MAX_ATTEMPTS)
    && forall w :: w in s.workers ==> s.workers[w].m != m
  }

  lemma SettledIsNotClaimed(s: State, m: nat, w: nat, recovery: bool, stale: bool)
    requires Settled(s, m)
    ensures !Enabled(s, Claim(w, m, recovery, stale))
  {
  }

  /** A settled message is never claimed again, in whatever run: its row does not change, no
      attempt to send its reply is granted, and nobody works on it. */
  lemma {:induction false} SettledForGood(s: State, steps: seq<Step>, t: State, m: nat)
    requires Settled(s, m) && IsRun(s, steps, t)
    ensures Settled(t, m) && t.inbound[m] == s.inbound[m] && ClaimCount(t, m) == ClaimCount(s, m)
    ensures |Attempts(t, m)| == |Attempts(s, m)|
    decreases |steps|
  {
    hide Settled, Enabled, Next;
    if steps != [] {
      SettledStep(s, steps[0], m);
      SettledForGood(Next(s, steps[0]), steps[1..], t, m);
    }
  }

  lemma SettledStep(s: State, step: Step, m: nat)
    requires Settled(s, m) && Enabled(s, step)
    ensures Settled(Next(s, step), m) && Next(s, step).inbound[m] == s.inbound[m]
    ensures ClaimCount(Next(s, step), m) == ClaimCount(s, m)
    ensures |Attempts(Next(s, step), m)| == |Attempts(s, m)|
  {
    hide Next;
    CounterCountsClaims(s, step, m);
    if step.Claim? && step.m == m {
      SettledIsNotClaimed(s, m, step.w, step.recovery, step.stale);
    } else if MessageOf(s, step) == m {
      OutsideStep(s, step, m);
    } else {
      StepIsLocal(s, step, m);
    }
  }

  // A repeated webhook or a report changes no inbound row and grants nothing.
  lemma OutsideStep(s: State, step: Step, m: nat)
    requires Enabled(s, step) && m in s.inbound && (step == SaveInbound(m) || (step.Webhook? && step.m == m))
    ensures Next(s, step).inbound == s.inbound && Next(s, step).workers == s.workers
    ensures |Attempts(Next(s, step), m)| == |Attempts(s, m)|
  {
    hide Reported, Admits;
  }

  // ---------------------------------------------------------------- what a worker brings about

  // By steps of the workers alone, in this order.
  ghost predicate Leads(s: State, steps: seq<Step>, t: State) {
    IsRun(s, steps, t) && WithoutReports(steps)
  }

  // Nobody else works on the message.
  ghost predicate Alone(s: State, w: nat, m: nat) {
    && w in s.workers && s.workers[w].m == m && m in s.inbound
    && forall v :: v in s.workers && v != w ==> s.workers[v].m != m
  }

  // A reply that was accepted is stored as sent, with its id, and the message is settled.
  lemma SentIsSettled(s: State, m: nat, w: nat, k: nat) returns (t: State)
    requires Alone(s, w, m) && s.workers[w] == SendAccepted(m, k)
    requires m in s.replies && s.replies[m].status == ReplyStatus.Sending
    ensures Leads(s, [MarkSent(w, false), Finish(w, false)], t)
    ensures Settled(t, m) && t.inbound[m].status == Processed && m in t.replies
    ensures t.replies[m].status == Sent && t.replies[m].external == Some((m, k))
    ensures t.replies[m].attempts == s.replies[m].attempts
  {
    var u := Next(s, MarkSent(w, false));
    assert u.workers == s.workers[w := Finishing(m, false)];
    t := Next(u, Finish(w, false));
    TwoSteps(s, MarkSent(w, false), Finish(w, false), u, t);
  }

  lemma TwoSteps(s: State, a: Step, b: Step, u: State, t: State)
    requires Enabled(s, a) && u == Next(s, a) && Enabled(u, b) && t == Next(u, b) && !a.Webhook? && !b.Webhook?
    ensures Leads(s, [a, b], t)
  {
    hide Enabled, Next;
    assert [a, b][1..] == [b] && [b][1..] == [];
    assert IsRun(u, [b], t);
  }

  // A definite failure for good is stored as failed, and the message is given up.
  lemma PermanentFailureIsSettled(s: State, m: nat, w: nat, k: nat) returns (t: State)
    requires Alone(s, w, m) && s.workers[w] == SendRejected(m, k, true)
    requires m in s.replies && s.replies[m].status == ReplyStatus.Sending
    ensures Leads(s, [MarkFailed(w), Fail(w)], t)
    ensures Settled(t, m) && t.inbound[m].status == InboundFailed
    ensures m in t.replies && t.replies[m].status == Failed
  {
    var u := Next(s, MarkFailed(w));
    assert u.workers == s.workers[w := Failing(m, true)];
    t := Next(u, Fail(w));
    TwoSteps(s, MarkFailed(w), Fail(w), u, t);
  }

  // A message for an inactive user, say, is settled at once.
  lemma IgnoredIsSettled(s: State, m: nat, w: nat)
    requires Alone(s, w, m) && s.workers[w] == Working(m)
    ensures Enabled(s, Ignore(w, false)) && Settled(Next(s, Ignore(w, false)), m)
    ensures Next(s, Ignore(w, false)).inbound[m].status == Ignored
  {
  }

  // An unknown result is stored as such, and the message is settled.
  lemma UnknownIsSettled(s: State, m: nat, w: nat) returns (t: State)
    requires Alone(s, w, m) && (s.workers[w].SendUncertain? || s.workers[w] == MarkLost(m))
    requires m in s.replies && s.replies[m].status == ReplyStatus.Sending
    ensures Leads(s, [MarkUnknown(w), Finish(w, false)], t)
    ensures Settled(t, m) && t.inbound[m].status == Processed
    ensures m in t.replies && t.replies[m].status == DeliveryUnknown
  {
    var u := Next(s, MarkUnknown(w));
    assert u.workers == s.workers[w := Finishing(m, true)];
    t := Next(u, Finish(w, false));
    TwoSteps(s, MarkUnknown(w), Finish(w, false), u, t);
  }

  // Any other error leaves the message to be claimed again, its attempts as they were.
  lemma ErrorLeavesRetry(s: State, m: nat, w: nat) returns (t: State)
    requires Alone(s, w, m) && MayAbort(s.workers[w])
    ensures Leads(s, [Abort(w), Fail(w)], t)
    ensures t == s.(workers := s.workers - {w},
                    inbound := s.inbound[m := Inbound(InboundFailed, s.inbound[m].attempts)])
    ensures s.inbound[m].attempts < 3 ==> forall v, recovery, stale ::
      v !in t.workers ==> Enabled(t, Claim(v, m, recovery, stale))
  {
    var u := Next(s, Abort(w));
    t := Next(u, Fail(w));
    assert s.workers[w := Failing(m, false)] - {w} == s.workers - {w};
    TwoSteps(s, Abort(w), Fail(w), u, t);
  }

  // So does an audit event that cannot be written, after an unknown result or an ignored message.
  lemma AuditErrorLeavesRetry(s: State, m: nat, w: nat) returns (t: State)
    requires Alone(s, w, m) && (s.workers[w] == Finishing(m, true) || s.workers[w] == Working(m))
    ensures Leads(s, [if s.workers[w].Working? then Ignore(w, true) else Finish(w, true), Fail(w)], t)
    ensures t == s.(workers := s.workers - {w},
                    inbound := s.inbound[m := Inbound(InboundFailed, s.inbound[m].attempts)])
  {
    var step := if s.workers[w].Working? then Ignore(w, true) else Finish(w, true);
    var u := Next(s, step);
    t := Next(u, Fail(w));
    assert s.workers[w := Failing(m, false)] - {w} == s.workers - {w};
    TwoSteps(s, step, Fail(w), u, t);
  }

  // ---------------------------------------------------------------- a reply already begun

  /** A worker that finds the reply begun settles the message without sending: a reply known to
      be on its way is left alone, and any other that may not be retried becomes unknown. */
  lemma FoundIsSettled(s: State, m: nat, w: nat) returns (steps: seq<Step>, t: State)
    requires Alone(s, w, m) && s.workers[w] == Working(m)
    requires m in s.replies && !Retryable(s.replies[m])
    ensures Leads(s, steps, t) && Settled(t, m) && t.inbound[m].status == Processed && t.history == s.history
    ensures m in t.replies && t.replies[m].status
         == if s.replies[m].status in {Sent, Delivered, Read} then s.replies[m].status else DeliveryUnknown
  {
    var u := Next(s, ReserveInsert(w));
    assert u.workers == s.workers[w := Conflicted(m)] && u.replies == s.replies;
    var v := Next(u, ReserveRead(w));
    if s.replies[m].status in {Sent, Delivered, Read} {
      t := FoundOnItsWay(v, m, w);
      steps := [ReserveInsert(w), ReserveRead(w)] + [Finish(w, false)];
      TwoSteps(s, ReserveInsert(w), ReserveRead(w), u, v);
      RunsCompose(s, [ReserveInsert(w), ReserveRead(w)], v, [Finish(w, false)], t);
    } else {
      var rest: seq<Step>;
      rest, t := FoundInDoubt(v, m, w);
      steps := [ReserveInsert(w), ReserveRead(w)] + rest;
      TwoSteps(s, ReserveInsert(w), ReserveRead(w), u, v);
      RunsCompose(s, [ReserveInsert(w), ReserveRead(w)], v, rest, t);
    }
  }

  lemma FoundOnItsWay(s: State, m: nat, w: nat) returns (t: State)
    requires Alone(s, w, m) && s.workers[w] == Finishing(m, false) && m in s.replies
    ensures Leads(s, [Finish(w, false)], t) && Settled(t, m) && t.inbound[m].status == Processed
    ensures t.replies == s.replies && t.history == s.history
  {
    t := Next(s, Finish(w, false));
    assert [Finish(w, false)][1..] == [];
    assert IsRun(t, [], t);
  }

  lemma FoundInDoubt(s: State, m: nat, w: nat) returns (steps: seq<Step>, t: State)
    requires Alone(s, w, m) && m in s.replies && s.replies[m].status in {ReplyStatus.Sending, Failed, DeliveryUnknown}
    requires s.workers[w] == Refused(m) || (s.workers[w] == Retrying(m) && !Retryable(s.replies[m]))
    ensures Leads(s, steps, t) && Settled(t, m) && t.inbound[m].status == Processed && t.history == s.history
    ensures m in t.replies && t.replies[m].status == DeliveryUnknown
  {
    if s.workers[w].Refused? {
      t := RefusedIsSettled(s, m, w);
      steps := [MarkRefused(w), Finish(w, false)];
    } else {
      var u := Next(s, ReserveRetry(w));
      assert u.workers == s.workers[w := Refused(m)];
      t := RefusedIsSettled(u, m, w);
      steps := [ReserveRetry(w)] + [MarkRefused(w), Finish(w, false)];
      assert steps[1..] == [MarkRefused(w), Finish(w, false)];
    }
  }

  lemma RefusedIsSettled(s: State, m: nat, w: nat) returns (t: State)
    requires Alone(s, w, m) && m in s.replies && s.replies[m].status in {ReplyStatus.Sending, Failed, DeliveryUnknown}
    requires s.workers[w] == Refused(m)
    ensures Leads(s, [MarkRefused(w), Finish(w, false)], t) && Settled(t, m) && t.inbound[m].status == Processed
    ensures t.history == s.history && m in t.replies && t.replies[m].status == DeliveryUnknown
  {
    var u := Next(s, MarkRefused(w));
    assert u.workers == s.workers[w := Finishing(m, true)];
    t := Next(u, Finish(w, false));
    TwoSteps(s, MarkRefused(w), Finish(w, false), u, t);
  }
}
