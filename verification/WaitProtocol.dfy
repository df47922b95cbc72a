/**
 The condition-variable protocol of the message queue: producers that signal only when the waiting
 flag is set, and consumers in the untimed waits. Every critical section is one atomic step, and the
 condition variable may also wake a consumer for no reason.
 */
module WaitProtocol {

  // The wait that dequeues, and the dry one that only reports the count.
  datatype Kind = Fetch | Dry

  datatype Phase = Running | Blocked(kind: Kind) | Woken(kind: Kind)

  // The length of the ready list, the waiting flag, the consumers, and how many messages went in
  // and came out.
  datatype State = State(ready: nat, flag: bool, consumers: seq<Phase>, put: nat, taken: nat)

  datatype Step =
    | Put(wake: nat)
    | Get(c: nat)
    | Wait(c: nat, kind: Kind)
    | Resume(c: nat)
    | Spurious(c: nat)

  predicate NoneBlocked(s: State) {
    forall c :: 0 <= c < |s.consumers| ==> !s.consumers[c].Blocked?
  }

  predicate Enabled(s: State, step: Step) {
    match step
    case Put(wake) => s.flag ==> NoneBlocked(s) || (wake < |s.consumers| && s.consumers[wake].Blocked?)
    case Get(c) => c < |s.consumers| && s.consumers[c] == Running
    case Wait(c, kind) => c < |s.consumers| && s.consumers[c] == Running
    case Resume(c) => c < |s.consumers| && s.consumers[c].Woken?
    case Spurious(c) => c < |s.consumers| && s.consumers[c].Blocked?
  }

  // The loop test of a wait, on entry or after a wake-up, and what follows it.
  function Tested(s: State, c: nat, kind: Kind): State
    requires c < |s.consumers|
  {
    if s.ready == 0 then s.(consumers := s.consumers[c := Blocked(kind)])
    else
      var t := s.(flag := false, consumers := s.consumers[c := Running]);
      if kind == Fetch then t.(ready := t.ready - 1, taken := t.taken + 1) else t
  }

  function Next(s: State, step: Step): State
    requires Enabled(s, step)
  {
    match step
    case Put(wake) =>
      var t := s.(ready := s.ready + 1, put := s.put + 1);
      if s.flag && wake < |s.consumers| && s.consumers[wake].Blocked?
      then t.(consumers := t.consumers[wake := Woken(t.consumers[wake].kind)]) else t
    case Get(c) => if s.ready == 0 then s else s.(ready := s.ready - 1, taken := s.taken + 1)
    case Wait(c, kind) => Tested(s.(flag := true), c, kind)
    case Resume(c) => Tested(s, c, s.consumers[c].kind)
    case Spurious(c) => s.(consumers := s.consumers[c := Woken(s.consumers[c].kind)])
  }

  function Start(n: nat): State {
    State(0, false, seq(n, _ => Running), 0, 0)
  }

  predicate Legal(n: nat, steps: seq<Step>)
    decreases |steps|, 0
  {
    steps == [] || (Legal(n, steps[..|steps| - 1]) && Enabled(Run(n, steps[..|steps| - 1]), steps[|steps| - 1]))
  }

  function Run(n: nat, steps: seq<Step>): State
    requires Legal(n, steps)
    decreases |steps|, 1
  {
    if steps == [] then Start(n) else Next(Run(n, steps[..|steps| - 1]), steps[|steps| - 1])
  }

  // No wake-up is lost: a consumer that is blocked and not signalled has the flag up, so the next
  // put will signal, and there is nothing it could be reading already.
  predicate NoneLost(s: State) {
    forall c :: 0 <= c < |s.consumers| && s.consumers[c].Blocked? ==> s.flag && s.ready == 0
  }

  // Flag and phase go together with one consumer.
  predicate Inductive(s: State) {
    |s.consumers| <= 1 && (forall c :: 0 <= c < |s.consumers| && s.consumers[c] != Running ==> s.flag) && NoneLost(s)
  }

  lemma {:induction false} RunInductive(n: nat, steps: seq<Step>)
    requires n <= 1 && Legal(n, steps)
    ensures Inductive(Run(n, steps))
  {
    if steps != [] {
      RunInductive(n, steps[..|steps| - 1]);
    }
  }

  // Nothing is lost or made up: what was put is waiting or was taken, with any number of consumers.
  lemma {:induction false} RunConserves(n: nat, steps: seq<Step>)
    requires Legal(n, steps)
    ensures Run(n, steps).put == Run(n, steps).ready + Run(n, steps).taken
  {
    if steps != [] {
      RunConserves(n, steps[..|steps| - 1]);
    }
  }

  lemma Begins(n: nat)
    ensures Legal(n, []) && Run(n, []) == Start(n)
  {
  }

  // Every prefix of a legal run is one, and the next step leads on from it.
  lemma {:induction false} Prefix(n: nat, steps: seq<Step>, i: nat)
    requires Legal(n, steps) && i < |steps|
    ensures Legal(n, steps[..i]) && Legal(n, steps[..i + 1]) && Enabled(Run(n, steps[..i]), steps[i])
    ensures Run(n, steps[..i + 1]) == Next(Run(n, steps[..i]), steps[i])
    decreases |steps|
  {
    var m := |steps| - 1;
    if i == m {
      assert steps[..i + 1] == steps;
    } else {
      Prefix(n, steps[..m], i);
      assert steps[..m][..i] == steps[..i] && steps[..m][..i + 1] == steps[..i + 1];
    }
  }

  // Two consumers share one flag: the first one back takes it down although the other still sleeps,
  // and the next put does not signal.
  const LOST_RUN: seq<Step> := [Wait(0, Fetch), Wait(1, Fetch), Put(0), Resume(0), Put(0)]

  lemma Extended(n: nat, steps: seq<Step>, step: Step)
    requires Legal(n, steps) && Enabled(Run(n, steps), step)
    ensures Legal(n, steps + [step]) && Run(n, steps + [step]) == Next(Run(n, steps), step)
  {
    assert (steps + [step])[..|steps|] == steps;
  }

  lemma TwoConsumersLose(n: nat)
    requires n >= 2
    ensures Legal(n, LOST_RUN) && !NoneLost(Run(n, LOST_RUN))
  {
    var r: seq<Step> := [];
    assert Legal(n, r) && Run(n, r) == Start(n);
    Extended(n, r, Wait(0, Fetch));
    r := r + [Wait(0, Fetch)];
    Extended(n, r, Wait(1, Fetch));
    r := r + [Wait(1, Fetch)];
    Extended(n, r, Put(0));
    r := r + [Put(0)];
    Extended(n, r, Resume(0));
    r := r + [Resume(0)];
    Extended(n, r, Put(0));
    r := r + [Put(0)];
    assert r == LOST_RUN;
    assert Run(n, r).consumers[1] == Blocked(Fetch) && Run(n, r).ready == 1;
  }

  // Main result: the protocol loses no wake-up in any run exactly when there is at most one consumer.
  lemma NoWakeUpLost(n: nat)
    ensures (forall steps :: Legal(n, steps) ==> NoneLost(Run(n, steps))) <==> n <= 1
  {
    if n <= 1 {
      forall steps | Legal(n, steps) ensures NoneLost(Run(n, steps)) {
        RunInductive(n, steps);
      }
    } else {
      TwoConsumersLose(n);
    }
  }
}
