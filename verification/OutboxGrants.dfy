/**
 When another attempt to send a reply can be granted: from every state in which a worker is on
 its way or the inbound row can still be claimed, a failed reply is retried, by steps of the
 workers alone.
 */
module OutboxGrants {
  import opened Wrappers
  import opened MessageRows
  import opened Outbox

  // A worker is on its way to reserving the reply.
  ghost predicate Preparing(s: State, m: nat) {
    exists w :: w in s.workers && s.workers[w].m == m
                && (s.workers[w].Working? || s.workers[w].Conflicted? || s.workers[w].Retrying?)
  }

  // The inbound row can be claimed, now or when a worker on it has failed.
  ghost predicate ClaimPossible(s: State, m: nat) {
    && m in s.inbound && s.inbound[m].attempts < MAX_ATTEMPTS
    && (|| Open(s.inbound[m].status)
        || exists w :: w in s.workers && s.workers[w].m == m && s.workers[w] != Failing(m, true))
  }

  predicate Open(status: InboundStatus) { status != Processed && status != Ignored }

  ghost predicate GrantPossible(s: State, m: nat) {
    Preparing(s, m) || ClaimPossible(s, m)
  }

  // ---------------------------------------------------------------- granting the next attempt

  // The reply failed at attempt n and may be retried; unless rejected, that attempt has not
  // failed definitely.
  ghost predicate Ready(s: State, m: nat, n: nat, rejected: bool) {
    && m in s.replies && Retryable(s.replies[m]) && s.replies[m].attempts == n >= 1
    && m in s.history && |s.history[m]| == n && (!rejected ==> s.history[m][n - 1] != Rejected)
  }

  predicate WithoutReports(steps: seq<Step>) {
    forall i :: 0 <= i < |steps| ==> !steps[i].Webhook?
  }

  // By these steps a worker comes to send attempt n + 1.
  ghost predicate Grants(s: State, m: nat, n: nat, rejected: bool, steps: seq<Step>, t: State) {
    && IsRun(s, steps, t) && WithoutReports(steps) && Sends(t, m, n + 1)
    && m in t.history && |t.history[m]| == n + 1 >= 2 && (!rejected ==> t.history[m][n - 1] != Rejected)
  }

  ghost predicate Sends(s: State, m: nat, n: nat) {
    exists w :: w in s.workers && s.workers[w] == Worker.Sending(m, n)
  }

  ghost predicate CanGrant(s: State, m: nat, n: nat, rejected: bool) {
    exists steps, t :: Grants(s, m, n, rejected, steps, t)
  }

  lemma OneStepEarlier(s: State, step: Step, m: nat, n: nat, rejected: bool)
    requires Enabled(s, step) && !step.Webhook? && CanGrant(Next(s, step), m, n, rejected)
    ensures CanGrant(s, m, n, rejected)
  {
    hide Enabled, Next, Sends;
    var steps, t :| Grants(Next(s, step), m, n, rejected, steps, t);
    assert ([step] + steps)[1..] == steps;
    assert Grants(s, m, n, rejected, [step] + steps, t);
  }

  lemma RetryGrants(s: State, m: nat, n: nat, rejected: bool, w: nat)
    requires Ready(s, m, n, rejected) && w in s.workers && s.workers[w] == Retrying(m)
    ensures CanGrant(s, m, n, rejected)
  {
    var step := ReserveRetry(w);
    var t := Next(s, step);
    assert t.history[m] == s.history[m] + [Pending];
    assert t.workers[w] == Worker.Sending(m, n + 1);
    assert IsRun(t, [], t);
    assert Grants(t, m, n, rejected, [], t);
    hide Next, Enabled, Grants;
    OneStepEarlier(s, step, m, n, rejected);
  }

  lemma PreparedGrants(s: State, m: nat, n: nat, rejected: bool, w: nat)
    requires Ready(s, m, n, rejected) && w in s.workers && s.workers[w].m == m
    requires s.workers[w].Working? || s.workers[w].Conflicted? || s.workers[w].Retrying?
    ensures CanGrant(s, m, n, rejected)
  {
    hide CanGrant;
    if s.workers[w].Retrying? {
      RetryGrants(s, m, n, rejected, w);
    } else if s.workers[w].Conflicted? {
      RetryGrants(Next(s, ReserveRead(w)), m, n, rejected, w);
      OneStepEarlier(s, ReserveRead(w), m, n, rejected);
    } else {
      var u := Next(s, ReserveInsert(w));
      RetryGrants(Next(u, ReserveRead(w)), m, n, rejected, w);
      OneStepEarlier(u, ReserveRead(w), m, n, rejected);
      OneStepEarlier(s, ReserveInsert(w), m, n, rejected);
    }
  }

  // A free worker takes the message over.
  lemma ClaimGrants(s: State, m: nat, n: nat, rejected: bool)
    requires Ready(s, m, n, rejected)
    requires m in s.inbound && s.inbound[m].attempts < MAX_ATTEMPTS && Open(s.inbound[m].status)
    ensures CanGrant(s, m, n, rejected)
  {
    hide CanGrant;
    var w := FreeWorker(s.workers.Keys);
    var step := Claim(w, m, true, true);
    PreparedGrants(Next(s, step), m, n, rejected, w);
    OneStepEarlier(s, step, m, n, rejected);
  }

  lemma FreeWorker(busy: set<nat>) returns (w: nat)
    ensures w !in busy && forall v :: v in busy ==> v < w
  {
    if busy == {} {
      w := 0;
    } else {
      var v :| v in busy;
      var u := FreeWorker(busy - {v});
      w := if u > v then u else v + 1;
      forall x | x in busy ensures x < w {
        assert x == v || x in busy - {v};
      }
    }
  }

  lemma FailGrants(s: State, m: nat, n: nat, rejected: bool, w: nat)
    requires Ready(s, m, n, rejected) && m in s.inbound && s.inbound[m].attempts < MAX_ATTEMPTS
    requires w in s.workers && s.workers[w] == Failing(m, false)
    ensures CanGrant(s, m, n, rejected)
  {
    hide CanGrant;
    ClaimGrants(Next(s, Fail(w)), m, n, rejected);
    OneStepEarlier(s, Fail(w), m, n, rejected);
  }

  lemma AbortGrants(s: State, m: nat, n: nat, rejected: bool, w: nat)
    requires Ready(s, m, n, rejected) && m in s.inbound && s.inbound[m].attempts < MAX_ATTEMPTS
    requires w in s.workers && s.workers[w].m == m && MayAbort(s.workers[w])
    ensures CanGrant(s, m, n, rejected)
  {
    hide CanGrant;
    FailGrants(Next(s, Abort(w)), m, n, rejected, w);
    OneStepEarlier(s, Abort(w), m, n, rejected);
  }

  // The worker fails, and the message can be claimed again.
  lemma BusyGrants(s: State, m: nat, n: nat, rejected: bool, w: nat)
    requires Ready(s, m, n, rejected) && m in s.inbound && s.inbound[m].attempts < MAX_ATTEMPTS
    requires w in s.workers && s.workers[w].m == m && s.workers[w] != Failing(m, true)
    ensures CanGrant(s, m, n, rejected)
  {
    hide CanGrant;
    if s.workers[w].Sending? {
      AbortGrants(Next(s, SendReturns(w, Uncertain, false)), m, n, rejected, w);
      OneStepEarlier(s, SendReturns(w, Uncertain, false), m, n, rejected);
    } else if s.workers[w].SendAccepted? {
      AbortGrants(Next(s, MarkSent(w, true)), m, n, rejected, w);
      OneStepEarlier(s, MarkSent(w, true), m, n, rejected);
    } else if s.workers[w].Failing? {
      FailGrants(s, m, n, rejected, w);
    } else {
      AbortGrants(s, m, n, rejected, w);
    }
  }

  // What is possible can be done.
  lemma PossibleIsGranted(s: State, m: nat, n: nat, rejected: bool)
    requires Ready(s, m, n, rejected) && GrantPossible(s, m)
    ensures CanGrant(s, m, n, rejected)
  {
    hide Ready, CanGrant;
    if Preparing(s, m) {
      var w :| w in s.workers && s.workers[w].m == m
               && (s.workers[w].Working? || s.workers[w].Conflicted? || s.workers[w].Retrying?);
      PreparedGrants(s, m, n, rejected, w);
    } else if Open(s.inbound[m].status) {
      ClaimGrants(s, m, n, rejected);
    } else {
      var w :| w in s.workers && s.workers[w].m == m && s.workers[w] != Failing(m, true);
      BusyGrants(s, m, n, rejected, w);
    }
  }
}
