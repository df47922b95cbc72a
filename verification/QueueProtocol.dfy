/**
 The queue's critical sections are the steps of WaitProtocol: what is proved there about every run
 of the protocol holds of the flag and of the ready list the code keeps.
 */
module QueueProtocol {
  import opened MessageQueue
  import W = WaitProtocol

  // The protocol's flag and count are the queue's.
  ghost predicate Stands(q: Queue, s: W.State)
    reads q`waitingFlag, q`readySeq, q.readySeq`data, q.heap`live
  {
    s.ready == |q.Contents()| && s.flag == q.waitingFlag
  }

  // A put that is accepted is a Put: it signals exactly when the protocol wakes whoever is blocked.
  method PutStep(q: Queue, msg: Request, ok1: bool, ok2: bool, ok3: bool, ghost s: W.State, ghost wake: nat)
    returns (ret: int, signal: bool)
    requires q.Valid() && Stands(q, s) && W.Enabled(s, W.Put(wake))
    modifies q, q.heap, q.idle, q.ready, q.bufs, q.nodes, q.pools
    ensures q.Valid()
    ensures ret == 0 ==> Stands(q, W.Next(s, W.Put(wake))) && (signal <==> s.flag)
    ensures ret == 0 && signal && !W.NoneBlocked(s) ==>
              wake < |s.consumers| && s.consumers[wake].Blocked? && W.Next(s, W.Put(wake)).consumers[wake].Woken?
    ensures ret != 0 ==> Stands(q, s) && !signal
    ensures ok1 && ok2 && ok3 ==> ret == 0
    ensures forall n :: n in q.nodes ==> n in old(q.nodes) || fresh(n)
    ensures forall p :: p in q.pools ==> p in old(q.pools) || fresh(p)
  {
    hide Queue.Valid, Queue.Contents;
    ret, signal := q.PutMessageWithData(msg, ok1, ok2, ok3);
  }

  // The same for a put without data.
  method PutBareStep(q: Queue, msg: Request, ok1: bool, ok2: bool, ghost s: W.State, ghost wake: nat)
    returns (ret: int, signal: bool)
    requires q.Valid() && Stands(q, s) && W.Enabled(s, W.Put(wake))
    modifies q, q.heap, q.idle, q.ready, q.bufs, q.nodes, q.pools
    ensures q.Valid()
    ensures ret == 0 ==> Stands(q, W.Next(s, W.Put(wake))) && (signal <==> s.flag)
    ensures ret == 0 && signal && !W.NoneBlocked(s) ==>
              wake < |s.consumers| && s.consumers[wake].Blocked? && W.Next(s, W.Put(wake)).consumers[wake].Woken?
    ensures ret != 0 ==> Stands(q, s) && !signal
    ensures ok1 && ok2 ==> ret == 0
    ensures forall n :: n in q.nodes ==> n in old(q.nodes) || fresh(n)
    ensures forall p :: p in q.pools ==> p in old(q.pools) || fresh(p)
  {
    hide Queue.Valid, Queue.Contents;
    ret, signal := q.PutMessage(msg, ok1, ok2);
  }

  method GetStep(q: Queue, ghost s: W.State, ghost c: nat) returns (ret: int, out: Message)
    requires q.Valid() && Stands(q, s) && W.Enabled(s, W.Get(c))
    modifies q, q.heap, q.idle, q.ready, q.bufs, q.nodes, q.pools
    ensures q.Valid() && Stands(q, W.Next(s, W.Get(c)))
    ensures ret == 0 <==> s.ready > 0
    ensures q.nodes == old(q.nodes) && q.pools == old(q.pools)
  {
    hide Queue.Valid, Queue.Contents;
    ret, out := q.GetMessage();
  }

  // Consumer c is in this phase.
  predicate InPhase(s: W.State, c: nat, p: W.Phase) {
    c < |s.consumers| && s.consumers[c] == p
  }

  // What a consumer does next: enter a wait, or come back out of one.
  function WaitOrResume(woken: bool, c: nat, kind: W.Kind): W.Step {
    if woken then W.Resume(c) else W.Wait(c, kind)
  }

  // The wait that dequeues, on entry or after a wake-up.
  method WaitStep(q: Queue, woken: bool, ghost s: W.State, ghost c: nat) returns (blocked: bool, out: Message)
    requires q.Valid() && Stands(q, s) && W.Enabled(s, WaitOrResume(woken, c, W.Fetch))
    requires woken ==> InPhase(s, c, W.Woken(W.Fetch))
    modifies q, q.heap, q.idle, q.ready, q.bufs, q.nodes, q.pools
    ensures var t := W.Next(s, WaitOrResume(woken, c, W.Fetch));
            q.Valid() && Stands(q, t) && InPhase(t, c, if blocked then W.Blocked(W.Fetch) else W.Running)
    ensures q.nodes == old(q.nodes) && q.pools == old(q.pools)
  {
    hide Queue.Valid, Queue.Contents;
    blocked, out := q.WaitSection(woken);
  }

  // The wait that only reports the count.
  method DryWaitStep(q: Queue, woken: bool, ghost s: W.State, ghost c: nat) returns (blocked: bool, count: int)
    requires q.Valid() && Stands(q, s) && W.Enabled(s, WaitOrResume(woken, c, W.Dry))
    requires woken ==> InPhase(s, c, W.Woken(W.Dry))
    modifies q, q.heap, q.idle, q.ready, q.bufs, q.nodes, q.pools
    ensures var t := W.Next(s, WaitOrResume(woken, c, W.Dry));
            q.Valid() && Stands(q, t) && InPhase(t, c, if blocked then W.Blocked(W.Dry) else W.Running)
    ensures q.nodes == old(q.nodes) && q.pools == old(q.pools)
    ensures !blocked ==> count == s.ready
  {
    hide Queue.Valid, Queue.Contents;
    blocked, count := q.DryWaitSection(woken);
  }

  // One step of a run on the queue. A put hands over msg and finds the memory it needs; a spurious
  // wake-up runs no code.
  method StepOn(q: Queue, step: W.Step, msg: Request, s: W.State)
    requires q.Valid() && Stands(q, s) && W.Enabled(s, step)
    modifies q, q.heap, q.idle, q.ready, q.bufs, q.nodes, q.pools
    ensures q.Valid() && Stands(q, W.Next(s, step))
    ensures forall n :: n in q.nodes ==> n in old(q.nodes) || fresh(n)
    ensures forall p :: p in q.pools ==> p in old(q.pools) || fresh(p)
  {
    hide Queue.Valid, Queue.Contents;
    match step {
      case Put(wake) =>
        var _, _ := PutStep(q, msg, true, true, true, s, wake);
      case Get(c) =>
        var _, _ := GetStep(q, s, c);
      case Wait(c, kind) =>
        ConsumerStep(q, false, kind, s, c);
      case Resume(c) =>
        ConsumerStep(q, true, s.consumers[c].kind, s, c);
      case Spurious(c) =>
    }
  }

  method ConsumerStep(q: Queue, woken: bool, kind: W.Kind, ghost s: W.State, ghost c: nat)
    requires q.Valid() && Stands(q, s) && W.Enabled(s, WaitOrResume(woken, c, kind))
    requires woken ==> InPhase(s, c, W.Woken(kind))
    modifies q, q.heap, q.idle, q.ready, q.bufs, q.nodes, q.pools
    ensures q.Valid() && Stands(q, W.Next(s, WaitOrResume(woken, c, kind)))
    ensures q.nodes == old(q.nodes) && q.pools == old(q.pools)
  {
    hide Queue.Valid, Queue.Contents, Stands, W.Next, W.Enabled;
    match kind {
      case Fetch =>
        var _, _ := WaitStep(q, woken, s, c);
      case Dry =>
        var _, _ := DryWaitStep(q, woken, s, c);
    }
  }

  // Main result: any legal run of producers and n consumers on a queue keeps the queue where the
  // protocol is. So with one consumer, in every state of every run, a consumer that is blocked and
  // not signalled has the waiting flag up and nothing to read.
  method RunSections(n: nat, steps: seq<W.Step>, msgs: seq<Request>) returns (q: Queue)
    requires W.Legal(n, steps) && |msgs| == |steps|
    ensures q.Valid() && Stands(q, W.Run(n, steps))
    ensures n <= 1 ==>
              forall c :: 0 <= c < |W.Run(n, steps).consumers| && W.Run(n, steps).consumers[c].Blocked? ==>
                q.waitingFlag && q.Contents() == []
  {
    var ret;
    ret, q := MessageCreate(true, true);
    hide Queue.Valid, Queue.Contents, W.Next, W.Enabled, W.Legal;
    var i, s := 0, W.Start(n);
    assert steps[..0] == [];
    assert W.Legal(n, []) && W.Run(n, []) == s by { W.Begins(n); }
    while i < |steps|
      invariant 0 <= i <= |steps| && W.Legal(n, steps[..i]) && s == W.Run(n, steps[..i])
      invariant q.Valid() && Stands(q, s)
      invariant fresh(q) && fresh(q.heap) && fresh(q.idle) && fresh(q.ready) && fresh(q.bufs)
      invariant fresh(set x | x in q.nodes) && fresh(set p | p in q.pools)
    {
      W.Prefix(n, steps, i);
      StepOn(q, steps[i], msgs[i], s);
      s := W.Next(s, steps[i]);
      i := i + 1;
    }
    assert steps[..i] == steps;
    if n <= 1 {
      W.RunInductive(n, steps);
    }
  }
}
