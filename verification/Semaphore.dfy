/**
 The counting semaphore as a transition system: any number of threads, every critical section one
 atomic step, and a condition variable that may also wake a thread for no reason.
 */
module Semaphore {

  // A blocked thread waits on the condition variable; a woken one has to take the mutex again and
  // look at the value.
  datatype Phase = Running | Blocked | Woken

  datatype State = State(val: int, phases: seq<Phase>)

  // A signal names the thread it wakes; it counts for nothing when no thread is blocked.
  datatype Step = Down(t: nat) | Resume(t: nat) | Up(wake: nat) | UpUnique(wake: nat) | Reset | Spurious(t: nat)

  predicate NoneBlocked(s: State) {
    forall i :: 0 <= i < |s.phases| ==> s.phases[i] != Blocked
  }

  // A signal wakes a blocked thread if there is one.
  predicate Wakes(s: State, wake: nat) {
    NoneBlocked(s) || (wake < |s.phases| && s.phases[wake] == Blocked)
  }

  predicate Enabled(s: State, step: Step) {
    match step
    case Down(t) => t < |s.phases| && s.phases[t] == Running
    case Resume(t) => t < |s.phases| && s.phases[t] == Woken
    case Up(wake) => Wakes(s, wake)
    case UpUnique(wake) => s.val == 0 ==> Wakes(s, wake)
    case Reset => true
    case Spurious(t) => t < |s.phases| && s.phases[t] == Blocked
  }

  function Signalled(s: State, wake: nat): State {
    if wake < |s.phases| && s.phases[wake] == Blocked then s.(phases := s.phases[wake := Woken]) else s
  }

  // The test of the wait loop, on entry or after a wake-up.
  function Tested(s: State, t: nat): State
    requires t < |s.phases|
  {
    if s.val == 0 then s.(phases := s.phases[t := Blocked]) else State(s.val - 1, s.phases[t := Running])
  }

  function Next(s: State, step: Step): State
    requires Enabled(s, step)
  {
    match step
    case Down(t) => Tested(s, t)
    case Resume(t) => Tested(s, t)
    case Up(wake) => Signalled(s.(val := s.val + 1), wake)
    case UpUnique(wake) => if s.val == 0 then Signalled(s.(val := s.val + 1), wake) else s
    case Reset => s.(val := 0)
    case Spurious(t) => s.(phases := s.phases[t := Woken])
  }

  // ---------------------------------------------------------------- the source's critical sections

  class MmSem {
    var semVal: int
    var phases: seq<Phase>

    function Abs(): State
      reads this
    {
      State(semVal, phases)
    }

    constructor Init(val: int, threads: nat)
      ensures Abs() == State(val, seq(threads, _ => Running))
    {
      semVal := val;
      phases := seq(threads, _ => Running);
    }

    // From taking the mutex, or from coming back out of the wait with it, to the next wait or to
    // the end.
    method DownSection(t: nat, ghost step: Step)
      requires step == Down(t) || step == Resume(t)
      requires Enabled(Abs(), step)
      modifies this
      ensures Abs() == Next(old(Abs()), step)
      ensures old(semVal) == 0 ==> semVal == 0 && phases == old(phases)[t := Blocked]
      ensures old(semVal) != 0 ==> semVal == old(semVal) - 1 && phases == old(phases)[t := Running]
    {
      if semVal == 0 {
        phases := phases[t := Blocked];
      } else {
        semVal := semVal - 1;
        phases := phases[t := Running];
      }
    }

    method Signal(wake: nat)
      modifies this`phases
      ensures Abs() == Signalled(old(Abs()), wake)
      ensures phases == if wake < |old(phases)| && old(phases)[wake] == Blocked then old(phases)[wake := Woken] else old(phases)
    {
      if wake < |phases| && phases[wake] == Blocked {
        phases := phases[wake := Woken];
      }
    }

    method UpSection(wake: nat)
      requires Enabled(Abs(), Up(wake))
      modifies this
      ensures Abs() == Next(old(Abs()), Up(wake)) && semVal == old(semVal) + 1
      ensures phases == if wake < |old(phases)| && old(phases)[wake] == Blocked then old(phases)[wake := Woken] else old(phases)
    {
      semVal := semVal + 1;
      Signal(wake);
    }

    method UpUniqueSection(wake: nat)
      requires Enabled(Abs(), UpUnique(wake))
      modifies this
      ensures Abs() == Next(old(Abs()), UpUnique(wake)) && semVal == (if old(semVal) == 0 then 1 else old(semVal))
      ensures phases == if old(semVal) == 0 && wake < |old(phases)| && old(phases)[wake] == Blocked
                        then old(phases)[wake := Woken] else old(phases)
    {
      if semVal == 0 {
        semVal := semVal + 1;
        Signal(wake);
      }
    }

    method ResetSection()
      modifies this
      ensures Abs() == Next(old(Abs()), Reset) && semVal == 0 && phases == old(phases)
    {
      semVal := 0;
    }
  }

  // ---------------------------------------------------------------- runs

  function Start(val: int, threads: nat): State {
    State(val, seq(threads, _ => Running))
  }

  predicate Legal(s: State, steps: seq<Step>)
    decreases |steps|, 0
  {
    steps == [] || (Legal(s, steps[..|steps| - 1]) && Enabled(Run(s, steps[..|steps| - 1]), steps[|steps| - 1]))
  }

  function Run(s: State, steps: seq<Step>): State
    requires Legal(s, steps)
    decreases |steps|, 1
  {
    if steps == [] then s else Next(Run(s, steps[..|steps| - 1]), steps[|steps| - 1])
  }

  function Count(phases: seq<Phase>, p: Phase): nat {
    if phases == [] then 0 else (if phases[0] == p then 1 else 0) + Count(phases[1..], p)
  }

  lemma {:induction false} CountUpdated(phases: seq<Phase>, t: nat, p: Phase, q: Phase)
    requires t < |phases|
    ensures Count(phases[t := q], p) == Count(phases, p) - (if phases[t] == p then 1 else 0) + (if q == p then 1 else 0)
  {
    if t == 0 {
      assert phases[0 := q][1..] == phases[1..];
    } else {
      assert phases[t := q][1..] == phases[1..][t - 1 := q];
      CountUpdated(phases[1..], t - 1, p, q);
    }
  }

  lemma {:induction false} CountZero(phases: seq<Phase>, p: Phase)
    ensures Count(phases, p) == 0 <==> forall i :: 0 <= i < |phases| ==> phases[i] != p
  {
    if phases != [] {
      CountZero(phases[1..], p);
      if Count(phases, p) == 0 {
        forall i | 0 <= i < |phases| ensures phases[i] != p {
          if i > 0 {
            assert phases[1..][i - 1] != p;
          }
        }
      }
    }
  }

  // The value is never negative, and as long as a thread is blocked unsignalled there are at least
  // as many woken threads on their way as the value has units.
  predicate Sound(s: State) {
    s.val >= 0 && (Count(s.phases, Blocked) > 0 ==> Count(s.phases, Woken) >= s.val)
  }

  lemma SignalledCounts(s: State, wake: nat)
    requires Wakes(s, wake)
    ensures var r := Signalled(s, wake);
            && r.val == s.val
            && (if Count(s.phases, Blocked) > 0 then
                  Count(r.phases, Woken) == Count(s.phases, Woken) + 1 && Count(r.phases, Blocked) == Count(s.phases, Blocked) - 1
                else r == s)
  {
    CountZero(s.phases, Blocked);
    if wake < |s.phases| && s.phases[wake] == Blocked {
      CountUpdated(s.phases, wake, Woken, Woken);
      CountUpdated(s.phases, wake, Blocked, Woken);
    }
  }

  lemma StepSound(s: State, step: Step)
    requires Sound(s) && Enabled(s, step)
    ensures Sound(Next(s, step))
  {
    match step {
      case Down(t) =>
        CountUpdated(s.phases, t, Blocked, if s.val == 0 then Blocked else Running);
        CountUpdated(s.phases, t, Woken, if s.val == 0 then Blocked else Running);
      case Resume(t) =>
        CountUpdated(s.phases, t, Blocked, if s.val == 0 then Blocked else Running);
        CountUpdated(s.phases, t, Woken, if s.val == 0 then Blocked else Running);
      case Up(wake) =>
        SignalledCounts(s.(val := s.val + 1), wake);
      case UpUnique(wake) =>
        if s.val == 0 {
          SignalledCounts(s.(val := s.val + 1), wake);
        }
      case Reset =>
      case Spurious(t) =>
        CountUpdated(s.phases, t, Blocked, Woken);
        CountUpdated(s.phases, t, Woken, Woken);
    }
  }

  // Main result for safety: over all interleavings of any number of threads, from a start that is
  // not negative, the semaphore stays sound.
  lemma {:induction false} RunSound(val: nat, threads: nat, steps: seq<Step>)
    requires Legal(Start(val, threads), steps)
    ensures Sound(Run(Start(val, threads), steps))
  {
    var s := Start(val, threads);
    if steps == [] {
      CountZero(s.phases, Blocked);
    } else {
      var init := steps[..|steps| - 1];
      RunSound(val, threads, init);
      StepSound(Run(s, init), steps[|steps| - 1]);
    }
  }

  // No unit is left over while every thread that wants one sleeps.
  lemma NoLostUnit(val: nat, threads: nat, steps: seq<Step>)
    requires Legal(Start(val, threads), steps)
    ensures var s := Run(Start(val, threads), steps);
            s.val > 0 && !NoneBlocked(s) ==> exists t :: 0 <= t < |s.phases| && s.phases[t] == Woken
  {
    RunSound(val, threads, steps);
    var s := Run(Start(val, threads), steps);
    CountZero(s.phases, Blocked);
    CountZero(s.phases, Woken);
  }

  // ---------------------------------------------------------------- conservation

  // Units that came in, that went out, and that a reset threw away.
  datatype Ledger = Ledger(ups: nat, downs: nat, dropped: int)

  function Booked(l: Ledger, s: State, step: Step): Ledger {
    match step
    case Down(t) => if s.val != 0 then l.(downs := l.downs + 1) else l
    case Resume(t) => if s.val != 0 then l.(downs := l.downs + 1) else l
    case Up(wake) => l.(ups := l.ups + 1)
    case UpUnique(wake) => if s.val == 0 then l.(ups := l.ups + 1) else l
    case Reset => l.(dropped := l.dropped + s.val)
    case Spurious(t) => l
  }

  function Books(s: State, steps: seq<Step>): Ledger
    requires Legal(s, steps)
    decreases |steps|
  {
    if steps == [] then Ledger(0, 0, 0)
    else Booked(Books(s, steps[..|steps| - 1]), Run(s, steps[..|steps| - 1]), steps[|steps| - 1])
  }

  // Main result for conservation, from any start: the value is the start plus the effective ups
  // minus the completed downs, less what resets dropped.
  lemma {:induction false} RunConserves(s: State, steps: seq<Step>)
    requires Legal(s, steps)
    ensures var l := Books(s, steps);
            Run(s, steps).val == s.val + l.ups - l.downs - l.dropped
    ensures (forall i :: 0 <= i < |steps| ==> steps[i] != Reset) ==> Books(s, steps).dropped == 0
  {
    if steps != [] {
      RunConserves(s, steps[..|steps| - 1]);
    }
  }

  // ---------------------------------------------------------------- runs of the code

  // Every prefix of a legal run is one, and the next step leads on from it.
  lemma {:induction false} Prefix(s: State, steps: seq<Step>, i: nat)
    requires Legal(s, steps) && i < |steps|
    ensures Legal(s, steps[..i]) && Legal(s, steps[..i + 1]) && Enabled(Run(s, steps[..i]), steps[i])
    ensures Run(s, steps[..i + 1]) == Next(Run(s, steps[..i]), steps[i])
    decreases |steps|
  {
    var m := |steps| - 1;
    if i == m {
      assert steps[..i + 1] == steps;
    } else {
      Prefix(s, steps[..m], i);
      assert steps[..m][..i] == steps[..i] && steps[..m][..i + 1] == steps[..i + 1];
    }
  }

  // One step on a semaphore; a spurious wake-up runs no code of it.
  method StepOn(sem: MmSem, step: Step)
    requires Enabled(sem.Abs(), step)
    modifies sem
    ensures sem.Abs() == Next(old(sem.Abs()), step)
  {
    match step {
      case Down(t) => sem.DownSection(t, step);
      case Resume(t) => sem.DownSection(t, step);
      case Up(wake) => sem.UpSection(wake);
      case UpUnique(wake) => sem.UpUniqueSection(wake);
      case Reset => sem.ResetSection();
      case Spurious(t) => sem.phases := sem.phases[t := Woken];
    }
  }

  // Main result for the code: in every state of every legal run of its critical sections, from a
  // start that is not negative, the semaphore is sound and its value is that of the books.
  method RunSections(val: nat, threads: nat, steps: seq<Step>) returns (sem: MmSem)
    requires Legal(Start(val, threads), steps)
    ensures sem.Abs() == Run(Start(val, threads), steps) && Sound(sem.Abs())
    ensures var l := Books(Start(val, threads), steps); sem.semVal == val + l.ups - l.downs - l.dropped
  {
    sem := new MmSem.Init(val, threads);
    ghost var start := Start(val, threads);
    var i := 0;
    assert steps[..0] == [];
    RunSound(val, threads, steps[..0]);
    while i < |steps|
      invariant 0 <= i <= |steps| && fresh(sem)
      invariant Legal(start, steps[..i]) && sem.Abs() == Run(start, steps[..i]) && Sound(sem.Abs())
    {
      Prefix(start, steps, i);
      RunSound(val, threads, steps[..i + 1]);
      StepOn(sem, steps[i]);
      i := i + 1;
    }
    assert steps[..i] == steps;
    RunSound(val, threads, steps);
    RunConserves(start, steps);
  }
}
