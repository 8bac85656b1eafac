/** The Rust watcher object: its lock sections in place, each proved to be the step RustWatch says. */
module RustWatcher {
  import opened Options
  import opened RustWatch

  class Watcher {
    var nextId: nat
    // Behind the dispatch lock.
    var listeners: set<ListenerId>
    var latest: Option<Frame>
    // Behind the control lock.
    var token: Option<Token>
    var stopped: bool
    /** Tokens created, tokens cancelled, tasks spawned and not ended. */
    var created: nat
    var cancelled: set<Token>
    var tasks: set<Token>
    /** Where each thread is; what each listener was committed; the lock order. */
    var threads: map<ThreadId, Pc>
    var committed: map<ListenerId, seq<Frame>>
    var events: seq<Event>

    function S(): State
      reads this
    {
      State(nextId, listeners, latest, token, stopped, created, cancelled, tasks, threads, committed, events)
    }

    function At(t: ThreadId): Pc
      reads this
    {
      PcOf(S(), t)
    }

    constructor ()
      ensures S() == INITIAL
    {
      nextId, listeners, latest, token, stopped, created, cancelled, tasks := 0, {}, None, None, false, 0, {}, {};
      threads, committed, events := map[], map[], [];
    }

    method Allocate(t: ThreadId) returns (id: ListenerId)
      requires At(t).Idle?
      modifies this
      ensures S() == Apply(old(S()), Step.Allocate(t)) && id == old(nextId)
    {
      id := nextId;
      nextId := nextId + 1;
      threads := threads[t := Allocated(id)];
    }

    /** Registers under the dispatch lock; replay is what the newcomer is called with afterwards. */
    method Register(t: ThreadId, id: ListenerId) returns (replay: Option<Frame>)
      requires At(t) == Allocated(id)
      modifies this
      ensures S() == Apply(old(S()), Step.Register(t)) && replay == old(latest)
    {
      listeners := listeners + {id};
      replay := latest;
      committed := committed[id := if latest.Some? then [latest.value] else []];
      events := events + [Insert(id)];
      threads := threads[t := Inserted(id)];
    }

    /** The control section of ensure_stream; the token to spawn a task with, if there is one. */
    method EnsureStream(t: ThreadId, id: ListenerId) returns (spawn: Option<Token>)
      requires At(t) == Inserted(id)
      modifies this
      ensures S() == Apply(old(S()), Step.EnsureStream(t))
      ensures At(t) == if spawn.Some? then Spawning(id, spawn.value) else Subscribed(id)
    {
      if stopped || token.Some? {
        threads := threads[t := Subscribed(id)];
        return None;
      }
      spawn := Some(created);
      token := spawn;
      threads := threads[t := Spawning(id, created)];
      created := created + 1;
    }

    method Spawn(t: ThreadId, id: ListenerId, k: Token)
      requires At(t) == Spawning(id, k)
      modifies this
      ensures S() == Apply(old(S()), Step.Spawn(t))
    {
      tasks := tasks + {k};
      threads := threads[t := Subscribed(id)];
    }

    /** The dispatch section of a dropped subscription; last says whether it must close the stream. */
    method Unregister(t: ThreadId, id: ListenerId) returns (last: bool)
      requires At(t) == Subscribed(id)
      modifies this
      ensures S() == Apply(old(S()), Step.Unregister(t)) && At(t) == if last then Closing else Idle
    {
      listeners := listeners - {id};
      last := |listeners| == 0;
      events := events + [Remove(id)];
      threads := threads[t := if last then Closing else Idle];
    }

    method CloseStream(t: ThreadId)
      requires At(t).Closing?
      modifies this
      ensures S() == Apply(old(S()), Step.CloseStream(t))
    {
      if token.Some? { cancelled := cancelled + {token.value}; }
      token := None;
      threads := threads[t := Idle];
    }

    method StopControl(t: ThreadId)
      requires At(t).Idle?
      modifies this
      ensures S() == Apply(old(S()), Step.StopControl(t))
    {
      stopped := true;
      if token.Some? { cancelled := cancelled + {token.value}; }
      token := None;
      threads := threads[t := Clearing];
    }

    method StopListeners(t: ThreadId)
      requires At(t).Clearing?
      modifies this
      ensures S() == Apply(old(S()), Step.StopListeners(t))
    {
      listeners := {};
      events := events + [Clear];
      threads := threads[t := Idle];
    }

    /** The lock section of dispatch; the snapshot is called afterwards. */
    method DispatchFrame(k: Token, f: Frame) returns (snapshot: set<ListenerId>)
      requires k in tasks
      modifies this
      ensures S() == Apply(old(S()), Step.DispatchFrame(k, f)) && snapshot == old(listeners)
    {
      latest := Some(f);
      snapshot := listeners;
      committed := map id | id in committed :: if id in snapshot then committed[id] + [f] else committed[id];
      events := events + [Dispatch(f)];
    }

    method ExitTask(k: Token)
      requires k in tasks && k in cancelled
      modifies this
      ensures S() == Apply(old(S()), Step.ExitTask(k))
    {
      tasks := tasks - {k};
    }

    /** The task unwinds; nobody takes its token away. */
    method PanicTask(k: Token)
      modifies this
      ensures S() == Apply(old(S()), Step.PanicTask(k))
    {
      tasks := tasks - {k};
    }

    /** One step of any interleaving; a step that is not enabled is skipped. */
    method StepOnce(step: Step)
      modifies this
      ensures S() == Apply(old(S()), step)
    {
      match step
      case Allocate(t) => if At(t).Idle? { var _ := Allocate(t); }
      case Register(t) => if At(t).Allocated? { var _ := Register(t, At(t).id); }
      case EnsureStream(t) => if At(t).Inserted? { var _ := EnsureStream(t, At(t).id); }
      case Spawn(t) => if At(t).Spawning? { Spawn(t, At(t).id, At(t).token); }
      case Unregister(t) => if At(t).Subscribed? { var _ := Unregister(t, At(t).id); }
      case CloseStream(t) => if At(t).Closing? { CloseStream(t); }
      case StopControl(t) => if At(t).Idle? { StopControl(t); }
      case StopListeners(t) => if At(t).Clearing? { StopListeners(t); }
      case DispatchFrame(k, f) => if k in tasks { var _ := DispatchFrame(k, f); }
      case ExitTask(k) => if k in tasks && k in cancelled { ExitTask(k); }
      case PanicTask(k) => PanicTask(k);
    }

    /** Any interleaving: the object follows the state machine. */
    method Drive(steps: seq<Step>)
      modifies this
      ensures S() == Run(old(S()), steps)
    {
      hide Run, Apply;
      RunNone(S());
      assert steps[..0] == [];
      for i := 0 to |steps|
        invariant S() == Run(old(S()), steps[..i])
      {
        assert steps[..i + 1] == steps[..i] + [steps[i]];
        RunSnoc(old(S()), steps[..i], steps[i]);
        StepOnce(steps[i]);
      }
      assert steps[..|steps|] == steps;
    }
  }

  lemma RunNone(s: State)
    ensures Run(s, []) == s
  {
  }

  /**
   * On the running object: after any interleaving at most one stream task is uncancelled, and each
   * listener was committed the latest frame at its registration and every frame until its removal.
   */
  method AnyInterleaving(steps: seq<Step>)
    returns (tasks: set<Token>, cancelled: set<Token>, committed: map<ListenerId, seq<Frame>>, events: seq<Event>)
    ensures forall a, b :: a in tasks - cancelled && b in tasks - cancelled ==> a == b
    ensures forall id :: id in committed <==> Insert(id) in events
    ensures forall id :: id in committed ==> committed[id] == Expected(events, id)
  {
    var w := new Watcher();
    w.Drive(steps);
    SingleStream(steps);
    tasks, cancelled, committed, events := w.tasks, w.cancelled, w.committed, w.events;
    var s := Run(INITIAL, steps);
    assert w.S() == s;
    hide Run, Expected, InsertAt;
    forall id ensures id in committed <==> Insert(id) in events {
      CommittedIff(steps, id);
    }
    forall id | id in committed ensures committed[id] == Expected(events, id) {
      NoFrameLostOrDuplicated(steps, id);
    }
  }
}
