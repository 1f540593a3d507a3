/**
 QuerySemaphore: bounded concurrency with a bounded queue, wait timeouts, and a
 slot that is handed over to the next waiter instead of being released.
 */
module Semaphore {

  // Every call of run() is a client; it is in one phase at a time.
  datatype Phase =
    | Waiting
    | Handed        // its promise is resolved; it has not resumed yet
    | Running
    | Finished
    | Overloaded    // rejected on arrival
    | TimedOut      // rejected while waiting

  datatype Sem = Sem(
    capacity: nat,
    maxQueued: nat,
    active: nat,
    waiters: seq<nat>,
    phases: map<nat, Phase>,
    queued: seq<nat>,      // everyone who ever waited, in order
    resolved: seq<nat>)    // everyone a slot was handed to, in order

  datatype Event =
    | Arrive(c: nat)
    | Timeout(c: nat)
    | Resume(c: nat)
    | Complete(c: nat)

  predicate In(s: Sem, c: nat, phase: Phase) {
    c in s.phases && s.phases[c] == phase
  }

  // The clients that a slot is counted for.
  ghost function Holders(s: Sem): set<nat> {
    set c | c in s.phases && (s.phases[c] == Running || s.phases[c] == Handed)
  }

  predicate Enabled(s: Sem, e: Event) {
    match e
    case Arrive(c) => c !in s.phases
    case Timeout(c) => In(s, c, Waiting)
    case Resume(c) => In(s, c, Handed)
    case Complete(c) => In(s, c, Running)
  }

  function Remove(waiters: seq<nat>, c: nat): seq<nat> {
    if waiters == [] then [] else if waiters[0] == c then waiters[1..] else [waiters[0]] + Remove(waiters[1..], c)
  }

  function Next(s: Sem, e: Event): Sem {
    match e
    case Arrive(c) =>
      if s.active >= s.capacity then
        if |s.waiters| >= s.maxQueued then s.(phases := s.phases[c := Overloaded])
        else s.(waiters := s.waiters + [c], queued := s.queued + [c], phases := s.phases[c := Waiting])
      else s.(active := s.active + 1, phases := s.phases[c := Running])
    case Timeout(c) => s.(waiters := Remove(s.waiters, c), phases := s.phases[c := TimedOut])
    case Resume(c) => s.(phases := s.phases[c := Running])
    case Complete(c) =>
      if s.waiters == [] then s.(active := if s.active > 0 then s.active - 1 else 0, phases := s.phases[c := Finished])
      else
        var next := s.waiters[0];
        s.(waiters := s.waiters[1..], resolved := s.resolved + [next],
           phases := s.phases[c := Finished][next := Handed])
  }

  // Those who waited, without the ones that gave up.
  function Patient(queued: seq<nat>, phases: map<nat, Phase>): seq<nat> {
    if queued == [] then []
    else if queued[0] in phases && phases[queued[0]] == TimedOut then Patient(queued[1..], phases)
    else [queued[0]] + Patient(queued[1..], phases)
  }

  ghost predicate NoRepeats(s: seq<nat>) {
    forall i, j :: 0 <= i < j < |s| ==> s[i] != s[j]
  }

  // active counts the running clients and the handed-over slots.
  ghost predicate SlotsCounted(s: Sem) {
    && s.active == |Holders(s)| <= s.capacity
    && (s.waiters != [] ==> s.active == s.capacity)
    && |s.waiters| <= s.maxQueued
  }

  ghost predicate QueueConsistent(s: Sem) {
    && NoRepeats(s.resolved + s.waiters)
    && (forall c :: c in s.waiters <==> In(s, c, Waiting))
    && (forall c :: c in s.queued ==> c in s.phases && s.phases[c] != Overloaded)
    && (forall c :: c in s.resolved ==> In(s, c, Handed) || In(s, c, Running) || In(s, c, Finished))
  }

  // First come, first served: whoever waited and did not give up was resolved or still waits, in order.
  ghost predicate Fifo(s: Sem) {
    Patient(s.queued, s.phases) == s.resolved + s.waiters
  }

  ghost predicate Inv(s: Sem) {
    SlotsCounted(s) && QueueConsistent(s) && Fifo(s)
  }

  // ---------------------------------------------------------------- sequences

  // A phase that is not 'timed out' makes no difference to who is patient.
  lemma {:induction false} PatientSame(queued: seq<nat>, a: map<nat, Phase>, b: map<nat, Phase>)
    requires forall c :: c in queued ==> ((c in a && a[c] == TimedOut) <==> (c in b && b[c] == TimedOut))
    ensures Patient(queued, a) == Patient(queued, b)
  {
    if queued != [] {
      PatientSame(queued[1..], a, b);
    }
  }

  lemma {:induction false} PatientAppend(queued: seq<nat>, c: nat, phases: map<nat, Phase>)
    requires c in phases && phases[c] != TimedOut
    ensures Patient(queued + [c], phases) == Patient(queued, phases) + [c]
  {
    if queued == [] {
      assert [] + [c] == [c];
    } else {
      assert (queued + [c])[1..] == queued[1..] + [c];
      PatientAppend(queued[1..], c, phases);
    }
  }

  lemma {:induction false} RemoveAbsent(s: seq<nat>, c: nat)
    requires c !in s
    ensures Remove(s, c) == s
  {
    if s != [] {
      RemoveAbsent(s[1..], c);
    }
  }

  lemma {:induction false} RemoveFrom(a: seq<nat>, b: seq<nat>, c: nat)
    requires c !in a
    ensures Remove(a + b, c) == a + Remove(b, c)
  {
    if a == [] {
      assert [] + b == b && [] + Remove(b, c) == Remove(b, c);
    } else {
      assert (a + b)[1..] == a[1..] + b;
      RemoveFrom(a[1..], b, c);
    }
  }

  lemma {:induction false} RemoveContents(s: seq<nat>, c: nat)
    requires NoRepeats(s)
    ensures |Remove(s, c)| <= |s|
    ensures forall x :: x in Remove(s, c) <==> x in s && x != c
  {
    if s != [] {
      assert NoRepeats(s[1..]) by {
        forall i, j | 0 <= i < j < |s[1..]| ensures s[1..][i] != s[1..][j] {
          assert s[i + 1] != s[j + 1];
        }
      }
      RemoveContents(s[1..], c);
      assert s == [s[0]] + s[1..];
      assert forall x :: x in s[1..] ==> x != s[0];
    }
  }

  lemma {:induction false} RemoveNoRepeats(s: seq<nat>, c: nat)
    requires NoRepeats(s)
    ensures NoRepeats(Remove(s, c))
  {
    if s != [] {
      var rest := s[1..];
      assert NoRepeats(rest) by {
        forall i, j | 0 <= i < j < |rest| ensures rest[i] != rest[j] {
          assert s[i + 1] != s[j + 1];
        }
      }
      RemoveNoRepeats(rest, c);
      RemoveContents(rest, c);
      if s[0] != c {
        var r := Remove(rest, c);
        forall j | 0 <= j < |r| ensures r[j] != s[0] {
          assert r[j] in rest;
        }
      }
    }
  }

  // When a client gives up, it drops out and the others keep their order.
  lemma {:induction false} PatientRemove(queued: seq<nat>, phases: map<nat, Phase>, c: nat)
    requires c in phases && phases[c] != TimedOut && NoRepeats(Patient(queued, phases))
    ensures Patient(queued, phases[c := TimedOut]) == Remove(Patient(queued, phases), c)
  {
    if queued != [] {
      var rest := Patient(queued[1..], phases);
      var all := Patient(queued, phases);
      if queued[0] in phases && phases[queued[0]] == TimedOut {
        PatientRemove(queued[1..], phases, c);
      } else {
        assert all == [queued[0]] + rest && all[1..] == rest;
        assert NoRepeats(rest) by {
          forall i, j | 0 <= i < j < |rest| ensures rest[i] != rest[j] {
            assert all[i + 1] != all[j + 1];
          }
        }
        PatientRemove(queued[1..], phases, c);
        if queued[0] == c {
          forall i | 0 <= i < |rest| ensures rest[i] != c {
            assert all[0] != all[i + 1];
          }
          RemoveAbsent(rest, c);
        }
      }
    }
  }

  // ---------------------------------------------------------------- every event keeps the invariant

  lemma StepKeepsSlots(s: Sem, e: Event)
    requires SlotsCounted(s) && QueueConsistent(s) && Enabled(s, e)
    ensures SlotsCounted(Next(s, e))
  {
    hide QueueConsistent;
    WaitersDistinct(s);
    var t := Next(s, e);
    match e
    case Arrive(c) =>
      assert Holders(t) == Holders(s) + if s.active < s.capacity then {c} else {};
      assert c !in Holders(s);
    case Timeout(c) =>
      assert Holders(t) == Holders(s);
      RemoveContents(s.waiters, c);
      RemoveLength(s.waiters, c);
    case Resume(c) =>
      assert Holders(t) == Holders(s);
    case Complete(c) => CompleteKeepsSlots(s, c);
  }

  lemma {:induction false} RemoveLength(s: seq<nat>, c: nat)
    ensures |Remove(s, c)| <= |s| && (s == [] ==> Remove(s, c) == [])
  {
    if s != [] {
      RemoveLength(s[1..], c);
    }
  }

  lemma CompleteKeepsSlots(s: Sem, c: nat)
    requires SlotsCounted(s) && QueueConsistent(s) && Enabled(s, Complete(c))
    ensures SlotsCounted(Next(s, Complete(c))) && s.active >= 1
  {
    var t := Next(s, Complete(c));
    assert c in Holders(s);
    if s.waiters == [] {
      assert Holders(t) == Holders(s) - {c};
    } else {
      var next := s.waiters[0];
      assert next in s.waiters && next !in Holders(s);
      assert Holders(t) == (Holders(s) - {c}) + {next};
    }
  }

  lemma StepKeepsQueue(s: Sem, e: Event)
    requires QueueConsistent(s) && Enabled(s, e)
    ensures QueueConsistent(Next(s, e))
  {
    match e
    case Arrive(c) =>
      assert c !in s.waiters && c !in s.resolved;
      assert s.resolved + (s.waiters + [c]) == (s.resolved + s.waiters) + [c];
    case Timeout(c) => TimeoutKeepsQueue(s, c);
    case Resume(c) =>
    case Complete(c) => CompleteKeepsQueue(s, c);
  }

  lemma TimeoutKeepsQueue(s: Sem, c: nat)
    requires QueueConsistent(s) && Enabled(s, Timeout(c))
    ensures QueueConsistent(Next(s, Timeout(c)))
  {
    WaitersDistinct(s);
    RemoveContents(s.waiters, c);
    assert c in s.waiters && c !in s.resolved;
    RemoveFrom(s.resolved, s.waiters, c);
    RemoveNoRepeats(s.resolved + s.waiters, c);
  }

  lemma WaitersDistinct(s: Sem)
    requires QueueConsistent(s)
    ensures NoRepeats(s.waiters)
  {
    var all, n := s.resolved + s.waiters, |s.resolved|;
    forall i, j | 0 <= i < j < |s.waiters| ensures s.waiters[i] != s.waiters[j] {
      assert all[n + i] != all[n + j];
    }
  }

  lemma CompleteKeepsQueue(s: Sem, c: nat)
    requires QueueConsistent(s) && Enabled(s, Complete(c))
    ensures QueueConsistent(Next(s, Complete(c)))
  {
    if s.waiters != [] {
      var t, next := Next(s, Complete(c)), s.waiters[0];
      WaitersDistinct(s);
      assert next in s.waiters && c !in s.waiters;
      assert s.waiters == [next] + t.waiters;
      assert t.resolved + t.waiters == s.resolved + s.waiters;
      forall x ensures x in t.waiters <==> In(t, x, Waiting) {
        assert x in s.waiters <==> In(s, x, Waiting);
        assert x in t.waiters ==> x != next by {
          if x in t.waiters {
            var j :| 0 <= j < |t.waiters| && t.waiters[j] == x;
            assert s.waiters[j + 1] == x && s.waiters[0] == next;
          }
        }
      }
    }
  }

  lemma StepKeepsFifo(s: Sem, e: Event)
    requires QueueConsistent(s) && Fifo(s) && Enabled(s, e)
    ensures Fifo(Next(s, e))
  {
    var t := Next(s, e);
    match e
    case Arrive(c) =>
      assert c !in s.queued;
      PatientSame(s.queued, s.phases, t.phases);
      if s.active >= s.capacity && |s.waiters| < s.maxQueued {
        PatientAppend(s.queued, c, t.phases);
        assert s.resolved + (s.waiters + [c]) == (s.resolved + s.waiters) + [c];
      }
    case Timeout(c) =>
      assert c in s.waiters && c !in s.resolved;
      PatientRemove(s.queued, s.phases, c);
      RemoveFrom(s.resolved, s.waiters, c);
    case Resume(c) =>
      PatientSame(s.queued, s.phases, t.phases);
    case Complete(c) =>
      if s.waiters != [] {
        assert s.waiters[0] in s.waiters;
        assert s.waiters == [s.waiters[0]] + s.waiters[1..];
        assert t.resolved + t.waiters == s.resolved + s.waiters;
      }
      PatientSame(s.queued, s.phases, t.phases);
  }

  lemma StepKeepsInv(s: Sem, e: Event)
    requires Inv(s) && Enabled(s, e)
    ensures Inv(Next(s, e))
  {
    StepKeepsSlots(s, e);
    StepKeepsQueue(s, e);
    StepKeepsFifo(s, e);
  }

  ghost predicate IsRun(s: Sem, events: seq<Event>, t: Sem)
    decreases |events|
  {
    if events == [] then s == t else Enabled(s, events[0]) && IsRun(Next(s, events[0]), events[1..], t)
  }

  function Empty(capacity: nat, maxQueued: nat): Sem {
    Sem(capacity, maxQueued, 0, [], map[], [], [])
  }

  lemma {:induction false} RunKeepsInv(s: Sem, events: seq<Event>, t: Sem)
    requires Inv(s) && IsRun(s, events, t)
    ensures Inv(t) && t.capacity == s.capacity
    decreases |events|
  {
    hide Inv, Enabled;
    if events != [] {
      StepKeepsInv(s, events[0]);
      RunKeepsInv(Next(s, events[0]), events[1..], t);
    }
  }

  // Over every interleaving of arrivals, completions and timeouts.
  lemma RunsAreSafe(capacity: nat, maxQueued: nat, events: seq<Event>, t: Sem)
    requires IsRun(Empty(capacity, maxQueued), events, t)
    ensures t.active == |Holders(t)| <= capacity
    ensures t.waiters != [] ==> t.active == capacity
    ensures Patient(t.queued, t.phases) == t.resolved + t.waiters
    ensures Holders(t) == {} && capacity > 0 ==> t.active == 0 && t.waiters == []
  {
    assert Holders(Empty(capacity, maxQueued)) == {};
    RunKeepsInv(Empty(capacity, maxQueued), events, t);
  }

  // A client that waits is resolved or rejected once: each event moves it along one way only.
  lemma PhasesOnlyAdvance(s: Sem, e: Event, c: nat)
    requires Inv(s) && Enabled(s, e) && c in s.phases
    ensures c in Next(s, e).phases
    ensures match s.phases[c]
            case Waiting => Next(s, e).phases[c] == Waiting || Next(s, e).phases[c] == Handed ||
                Next(s, e).phases[c] == TimedOut
            case Handed => Next(s, e).phases[c] == Handed || Next(s, e).phases[c] == Running
            case Running => Next(s, e).phases[c] == Running || Next(s, e).phases[c] == Finished
            case _ => Next(s, e).phases[c] == s.phases[c]
  {
    if s.waiters != [] {
      assert s.waiters[0] in s.waiters;
    }
  }

  lemma {:induction false} SpliceIsRemove(s: seq<nat>, c: nat, index: nat)
    requires index < |s| && s[index] == c && c !in s[..index]
    ensures Remove(s, c) == s[..index] + s[index + 1..]
  {
    if index > 0 {
      assert s[0] in s[..index];
      assert s[1..][..index - 1] == s[..index][1..];
      SpliceIsRemove(s[1..], c, index - 1);
    }
  }

  // ---------------------------------------------------------------- the object's fields

  class QuerySemaphore {
    const capacity: nat
    const maxQueued: nat
    var active: nat
    var waiters: seq<nat>
    ghost var view: Sem

    ghost predicate Valid()
      reads this
    {
      && Inv(view) && capacity == view.capacity && maxQueued == view.maxQueued
      && active == view.active && waiters == view.waiters
    }

    constructor (capacity: nat, maxQueued: nat)
      ensures Valid() && view == Empty(capacity, maxQueued)
    {
      this.capacity, this.maxQueued := capacity, maxQueued;
      active, waiters := 0, [];
      view := Empty(capacity, maxQueued);
    }

    // The part of run() before its first wait: false means the call is rejected.
    method Arrive(c: nat) returns (accepted: bool, waits: bool)
      requires Valid() && Enabled(view, Event.Arrive(c))
      modifies this
      ensures Valid() && view == Next(old(view), Event.Arrive(c))
      ensures accepted <==> old(active) < capacity || old(|waiters|) < maxQueued
      ensures accepted ==> (waits <==> old(active) >= capacity)
    {
      StepKeepsInv(view, Event.Arrive(c));
      view := Next(view, Event.Arrive(c));
      accepted, waits := true, false;
      if active >= capacity {
        if |waiters| >= maxQueued {
          return false, false;
        }
        waiters := waiters + [c];
        waits := true;
      } else {
        active := active + 1;
      }
    }

    // The timer: find the waiter and splice it out.
    method TimedOut(c: nat)
      requires Valid() && c in waiters
      modifies this
      ensures Valid() && view == Next(old(view), Timeout(c))
    {
      StepKeepsInv(view, Timeout(c));
      var index := 0;
      while waiters[index] != c
        invariant index < |waiters| && c in waiters[index..]
        invariant c !in waiters[..index]
        decreases |waiters| - index
      {
        assert waiters[index..] == [waiters[index]] + waiters[index + 1..];
        index := index + 1;
      }
      SpliceIsRemove(waiters, c, index);
      waiters := waiters[..index] + waiters[index + 1..];
      view := Next(view, Timeout(c));
    }

    // The finally block: hand the slot over, or give it back.
    method Completed(c: nat) returns (next: seq<nat>)
      requires Valid() && In(view, c, Running)
      modifies this
      ensures Valid() && view == Next(old(view), Complete(c))
      ensures next == if old(waiters) == [] then [] else [old(waiters)[0]]
    {
      StepKeepsInv(view, Complete(c));
      CompleteKeepsSlots(view, c);
      view := Next(view, Complete(c));
      if waiters != [] {
        next := [waiters[0]];
        waiters := waiters[1..];
      } else {
        next := [];
        active := active - 1;
      }
    }

    ghost method Resumed(c: nat)
      requires Valid() && In(view, c, Handed)
      modifies this
      ensures Valid() && view == Next(old(view), Resume(c))
    {
      StepKeepsInv(view, Resume(c));
      view := Next(view, Resume(c));
    }
  }
}
