/** The Unity watcher object: its lock sections in place, each proved to be the step UnityWatch says. */
module UnityWatcher {
  import opened Options
  import opened UnityWatch

  class Watcher {
    var subscribers: seq<Callback>
    var cts: Option<Loop>
    var last: Option<Frame>
    /** The newest background task. */
    var loop: Option<Loop>
    /** Every task created so far, its token's state, and every handle handed out. */
    var loops: seq<Phase>
    var cancelled: set<Loop>
    var handles: seq<Handle>
    ghost var aborted: set<Loop>
    ghost var deliveries: seq<Delivery>

    ghost function S(): State
      reads this
    {
      State(subscribers, cts, loops, cancelled, aborted, last, handles, deliveries)
    }

    ghost predicate Valid()
      reads this
    {
      loop == if loops == [] then None else Some(|loops| - 1)
    }

    constructor ()
      ensures Valid() && S() == INITIAL
    {
      subscribers, cts, last, loop, loops, cancelled, handles := [], None, None, None, [], {}, [];
      aborted, deliveries := {}, [];
    }

    method Subscribe(c: Callback) returns (h: nat, previous: Option<Loop>)
      requires Valid()
      modifies this
      ensures Valid() && S() == Apply(old(S()), Step.Subscribe(c)) && h == old(|handles|) && previous == old(loop)
    {
      subscribers := subscribers + [c];
      previous := loop;
      if |subscribers| == 1 {
        cts := Some(|loops|);
        loop := Some(|loops|);
        loops := loops + [Waiting];
      }
      h := |handles|;
      handles := handles + [Handle(c, false)];
    }

    method StopLocked()
      requires Valid()
      modifies this`cts, this`cancelled
      ensures S() == UnityWatch.StopLocked(old(S())) && Valid()
    {
      if cts.Some? { cancelled := cancelled + {cts.value}; }
      cts := None;
    }

    method Unsubscribe(c: Callback)
      requires Valid()
      modifies this`subscribers, this`cts, this`cancelled
      ensures var r := old(S()).(subscribers := Without(old(subscribers), c));
              Valid() && S() == if r.subscribers == [] then UnityWatch.StopLocked(r) else r
    {
      subscribers := Without(subscribers, c);
      if |subscribers| == 0 { StopLocked(); }
    }

    /** Subscription.Dispose: the exchange lets only the first call through. */
    method DisposeHandle(h: nat)
      requires Valid() && h < |handles|
      modifies this
      ensures Valid() && S() == Apply(old(S()), Step.DisposeHandle(h))
    {
      var was := handles[h].disposed;
      handles := handles[h := handles[h].(disposed := true)];
      if !was {
        Unsubscribe(handles[h].callback);
      } else {
        assert handles == old(handles);
      }
    }

    method Dispose()
      requires Valid()
      modifies this
      ensures Valid() && S() == Apply(old(S()), Step.Dispose)
    {
      subscribers := [];
      StopLocked();
    }

    method Deliver(k: Loop, f: Frame) returns (snapshot: seq<Callback>)
      requires Valid() && k < |loops| && loops[k].Running?
      modifies this
      ensures Valid() && S() == Apply(old(S()), Step.Deliver(k, f)) && snapshot == old(subscribers)
    {
      last := Some(f);
      snapshot := subscribers;
      deliveries := deliveries + [Delivery(k, f, snapshot)];
    }

    /** The task body up to its first read: it awaits the task that was current before it. */
    method StartLoop(k: Loop) returns (started: bool)
      requires Valid() && k < |loops| && loops[k].Waiting?
      modifies this
      ensures Valid() && S() == Apply(old(S()), Start(k)) && started == (k == 0 || old(loops)[k - 1].Finished?)
    {
      started := k == 0 || loops[k - 1].Finished?;
      if started { loops := loops[k := Running]; }
    }

    /** RunLoop returns: its token is cancelled, or the transport raised a cancellation of its own. */
    method LeaveLoop(k: Loop)
      requires Valid() && k < |loops| && loops[k].Running?
      modifies this
      ensures Valid() && S() == Apply(old(S()), if k in old(cancelled) then Finish(k) else Abort(k))
    {
      if k !in cancelled { aborted := aborted + {k}; }
      loops := loops[k := Finished];
    }

    /** Any interleaving of the above; a step that is not enabled is skipped. */
    method Drive(steps: seq<Step>)
      requires Valid()
      modifies this
      ensures Valid() && S() == Run(old(S()), steps)
    {
      hide Without;
      for i := 0 to |steps|
        invariant Valid() && Run(S(), steps[i..]) == Run(old(S()), steps)
      {
        assert steps[i..][1..] == steps[i + 1..];
        hide Run;
        ghost var before := S();
        assert Run(before, steps[i..]) == Run(Apply(before, steps[i]), steps[i + 1..]) by { RunStep(before, steps, i); }
        StepOnce(steps[i]);
      }
    }

    method StepOnce(step: Step)
      requires Valid()
      modifies this
      ensures Valid() && S() == Apply(old(S()), step)
    {
      match step
      case Subscribe(c) => var _, _ := Subscribe(c);
      case DisposeHandle(h) => if h < |handles| { DisposeHandle(h); }
      case Dispose => Dispose();
      case Start(k) => if k < |loops| && loops[k].Waiting? { var _ := StartLoop(k); }
      case Deliver(k, f) => if k < |loops| && loops[k].Running? { var _ := Deliver(k, f); }
      case Finish(k) => if k < |loops| && loops[k].Running? && k in cancelled { LeaveLoop(k); }
      case Abort(k) => if k < |loops| && loops[k].Running? && k !in cancelled { LeaveLoop(k); }
    }
  }

  lemma RunStep(s: State, steps: seq<Step>, i: nat)
    requires i < |steps|
    ensures Run(s, steps[i..]) == Run(Apply(s, steps[i]), steps[i + 1..])
  {
  }

  /**
   * On the running object: after any interleaving at most one loop runs, and the token source is there
   * for subscribers.
   */
  method AnyInterleaving(steps: seq<Step>) returns (loops: seq<Phase>, cts: Option<Loop>, subscribers: seq<Callback>)
    ensures forall i, k :: 0 <= i < |loops| && 0 <= k < |loops| && loops[i].Running? && loops[k].Running? ==> i == k
    ensures cts.Some? <==> subscribers != []
    ensures cts.Some? ==> cts.value == |loops| - 1
  {
    var w := new Watcher();
    w.Drive(steps);
    SingleLoop(steps);
    InvRun(INITIAL, steps);
    loops, cts, subscribers := w.loops, w.cts, w.subscribers;
    assert loops == Run(INITIAL, steps).loops;
  }
}
