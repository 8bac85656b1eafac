/** What the steps of the Rust watch amount to: the lock order, whole calls, and no stream for nobody. */
module RustCalls {
  import opened Options
  import opened RustWatch
  import opened RustServed

  /** Between the registration of a listener and the drop of its subscription. */
  predicate Holds(pc: Pc) {
    pc.Inserted? || pc.Spawning? || pc.Subscribed?
  }

  /** A subscription that is held keeps its own listener registered, unless the watcher is stopped. */
  ghost predicate HeldInv(s: State) {
    && (forall t :: Holds(PcOf(s, t)) ==> s.stopped || PcOf(s, t).id in s.listeners)
    && (forall t, u :: t != u && Holds(PcOf(s, t)) && Holds(PcOf(s, u)) ==> PcOf(s, t).id != PcOf(s, u).id)
    && (forall t :: PcOf(s, t).Clearing? ==> s.stopped)
  }

  /** A held token has a listener, or somebody on the way to cancel it. */
  ghost predicate Wanted(s: State) {
    s.token.Some? ==> s.listeners != {} || exists t :: PcOf(s, t).Closing?
  }

  function IdOf(pc: Pc): ListenerId
    requires Holds(pc)
  {
    pc.id
  }

  lemma HeldKept(s: State, r: State)
    requires HeldInv(s) && (s.stopped ==> r.stopped) && (r.stopped || s.listeners <= r.listeners)
    requires forall t :: Holds(PcOf(r, t)) ==> Holds(PcOf(s, t)) && IdOf(PcOf(s, t)) == IdOf(PcOf(r, t))
    requires forall t :: PcOf(r, t).Clearing? ==> PcOf(s, t).Clearing? || r.stopped
    ensures HeldInv(r)
  {
  }

  lemma HeldUnregister(s: State, t: ThreadId)
    requires HeldInv(s)
    ensures HeldInv(Apply(s, Unregister(t)))
  {
    PcsAfter(s, Unregister(t));
  }

  lemma HeldStep(s: State, step: Step)
    requires Inv(s) && HeldInv(s)
    ensures HeldInv(Apply(s, step))
  {
    hide HeldInv;
    match step {
      case Register(t) => HeldRegister(s, t);
      case Unregister(t) => HeldUnregister(s, t);
      case StopListeners(t) =>
        PcsAfter(s, step);
        HeldStopped(s, t);
        HeldKept(s, Apply(s, step));
      case _ =>
        hide Inv;
        PcsAfter(s, step);
        HeldKept(s, Apply(s, step));
    }
  }

  lemma HeldStopped(s: State, t: ThreadId)
    requires HeldInv(s)
    ensures PcOf(s, t).Clearing? ==> s.stopped
  {
  }

  lemma HeldRegister(s: State, t: ThreadId)
    requires UseInv(s) && HeldInv(s)
    ensures HeldInv(Apply(s, Register(t)))
  {
    PcsAfter(s, Register(t));
    if PcOf(s, t).Allocated? {
      var id := PcOf(s, t).id;
      assert id !in s.committed;
      assert forall u :: Holds(PcOf(s, u)) ==> PcOf(s, u).id != id;
    }
  }

  /** The last drop of a subscription is the one that closes. */
  lemma WantedStep(s: State, step: Step)
    requires TokenInv(s) && HeldInv(s) && Wanted(s)
    ensures Wanted(Apply(s, step))
  {
    var r := Apply(s, step);
    PcsAfter(s, step);
    if s.token.Some? && s.listeners == {} {
      var u :| PcOf(s, u).Closing?;
      assert !step.CloseStream? ==> PcOf(r, u).Closing?;
    }
    if step.Unregister? && PcOf(s, step.t).Subscribed? && r.listeners == {} {
      assert PcOf(r, step.t).Closing?;
    }
  }

  lemma {:induction false} WantedPrefix(steps: seq<Step>, n: nat)
    requires n <= |steps|
    ensures Inv(Prefix(steps, n)) && HeldInv(Prefix(steps, n)) && Wanted(Prefix(steps, n))
  {
    InvPrefix(steps, n);
    if n > 0 {
      WantedPrefix(steps, n - 1);
      PrefixStep(steps, n - 1);
      var s := Prefix(steps, n - 1);
      assert TokenInv(s);
      hide Inv, TokenInv, HeldInv, Wanted, Prefix;
      HeldStep(s, steps[n - 1]);
      WantedStep(s, steps[n - 1]);
    }
  }

  /**
   * At every point of every run, a stream that has not been told to end has a registered listener,
   * or a thread that found the last listener gone is about to tell it; so once nobody is registered
   * and nobody is closing, every stream ever started has been told to end.
   */
  lemma NoIdleStream(steps: seq<Step>)
    ensures var s := Run(INITIAL, steps);
            && (s.token.Some? ==> s.listeners != {} || exists t :: PcOf(s, t).Closing?)
            && (s.listeners == {} && (forall t :: !PcOf(s, t).Closing?) ==>
                  forall k: Token :: k < s.created ==> k in s.cancelled)
  {
    WantedPrefix(steps, |steps|);
    assert steps[..|steps|] == steps;
    hide Run;
    SingleStream(steps);
  }

  /** While the watcher runs, the listener of every subscription that is held is registered. */
  lemma HeldListens(steps: seq<Step>, t: ThreadId)
    requires var s := Run(INITIAL, steps);
             !s.stopped && Holds(PcOf(s, t))
    ensures var s := Run(INITIAL, steps);
            && PcOf(s, t).id in s.listeners
            && forall u :: u != t && Holds(PcOf(s, u)) ==> PcOf(s, u).id != PcOf(s, t).id
  {
    WantedPrefix(steps, |steps|);
    assert steps[..|steps|] == steps;
    hide Run;
  }

  // ---------- the lock order is what the threads and tasks did ----------

  /** The entry that a step makes in the lock order, from where its thread or task stands. */
  function Entry(s: State, step: Step): seq<Event> {
    match step
    case Register(t) => if PcOf(s, t).Allocated? then [Insert(PcOf(s, t).id)] else []
    case Unregister(t) => if PcOf(s, t).Subscribed? then [Remove(PcOf(s, t).id)] else []
    case StopListeners(t) => if PcOf(s, t).Clearing? then [Clear] else []
    case DispatchFrame(k, f) => if k in s.tasks then [Dispatch(f)] else []
    case _ => []
  }

  function Log(s: State, steps: seq<Step>): seq<Event>
    decreases |steps|
  {
    if steps == [] then [] else Entry(s, steps[0]) + Log(Apply(s, steps[0]), steps[1..])
  }

  lemma EntryStep(s: State, step: Step)
    ensures Apply(s, step).events == s.events + Entry(s, step)
  {
  }

  /** No frame that a task hands over, no registration and no removal is missing from the lock order. */
  lemma {:induction false} EventsAreSteps(s: State, steps: seq<Step>)
    ensures Run(s, steps).events == s.events + Log(s, steps)
    decreases |steps|
  {
    hide Entry, Apply;
    if steps != [] {
      EntryStep(s, steps[0]);
      EventsAreSteps(Apply(s, steps[0]), steps[1..]);
      Grouped(s.events, Entry(s, steps[0]), Log(Apply(s, steps[0]), steps[1..]));
    } else {
      assert s.events + [] == s.events;
    }
  }

  lemma Grouped(a: seq<Event>, b: seq<Event>, c: seq<Event>)
    ensures a + b + c == a + (b + c)
  {
  }

  // ---------- whole calls ----------

  function SubscribeSteps(t: ThreadId): seq<Step> {
    [Allocate(t), Register(t), EnsureStream(t), Spawn(t)]
  }

  lemma FourSteps(s: State, a: Step, b: Step, c: Step, d: Step)
    ensures Run(s, [a, b]) == Apply(Apply(s, a), b)
    ensures Run(s, [a, b, c, d]) == Apply(Apply(Apply(Apply(s, a), b), c), d)
  {
    hide Apply;
    var p := [a, b, c, d];
    assert p[1..] == [b, c, d] && [b, c, d][1..] == [c, d] && [c, d][1..] == [d] && [d][1..] == [];
    assert [a, b][1..] == [b] && [b][1..] == [];
    assert Run(s, p) == Run(Apply(s, a), [b, c, d]) == Run(Apply(Apply(s, a), b), [c, d]);
    var s3 := Apply(Apply(Apply(s, a), b), c);
    assert Run(Apply(Apply(s, a), b), [c, d]) == Run(s3, [d]) == Run(Apply(s3, d), []);
    assert Run(s, [a, b]) == Run(Apply(s, a), [b]) == Run(Apply(Apply(s, a), b), []);
  }

  /**
   * A subscribe with nobody in between: a new listener is registered and given the latest frame, and
   * a stream is started unless one is held or the watcher is stopped.
   */
  lemma SubscribeAlone(s: State, t: ThreadId)
    requires PcOf(s, t).Idle?
    ensures var r := Run(s, SubscribeSteps(t));
            var starts := !s.stopped && s.token.None?;
            && PcOf(r, t) == Subscribed(s.nextId) && r.nextId == s.nextId + 1
            && r.listeners == s.listeners + {s.nextId} && r.latest == s.latest && r.stopped == s.stopped
            && r.committed == s.committed[s.nextId := if s.latest.Some? then [s.latest.value] else []]
            && r.token == (if starts then Some(s.created) else s.token) && r.cancelled == s.cancelled
            && r.tasks == (if starts then s.tasks + {s.created} else s.tasks)
            && r.created == s.created + if starts then 1 else 0
  {
    FourSteps(s, Allocate(t), Register(t), EnsureStream(t), Spawn(t));
    hide Run;
  }

  /** The drop of a subscription with nobody in between: the last one cancels the stream. */
  lemma DropAlone(s: State, t: ThreadId)
    requires PcOf(s, t).Subscribed?
    ensures var r := Run(s, [Unregister(t), CloseStream(t)]);
            var left := s.listeners - {PcOf(s, t).id};
            && PcOf(r, t).Idle? && r.listeners == left && r.latest == s.latest && r.committed == s.committed
            && r.nextId == s.nextId && r.stopped == s.stopped && r.tasks == s.tasks && r.created == s.created
            && r.token == (if left == {} then None else s.token)
            && r.cancelled == s.cancelled + if left == {} && s.token.Some? then {s.token.value} else {}
  {
    FourSteps(s, Unregister(t), CloseStream(t), CloseStream(t), CloseStream(t));
    hide Run;
  }

  /** A stop with nobody in between leaves no listener and no stream that was not told to end. */
  lemma StopAlone(s: State, t: ThreadId)
    requires PcOf(s, t).Idle?
    ensures var r := Run(s, [StopControl(t), StopListeners(t)]);
            && PcOf(r, t).Idle? && r.stopped && r.listeners == {} && r.token.None? && r.latest == s.latest
            && r.committed == s.committed && r.tasks == s.tasks && r.created == s.created
            && r.cancelled == s.cancelled + if s.token.Some? then {s.token.value} else {}
  {
    FourSteps(s, StopControl(t), StopListeners(t), StopListeners(t), StopListeners(t));
    hide Run;
  }

  /** One listener came and went, and a second one has its own stream; the first task has not ended. */
  predicate Replaced(s: State) {
    && s.tasks == {0, 1} && s.cancelled == {0} && s.token == Some(1) && s.listeners == {1}
    && s.committed == map[0 := [], 1 := []]
  }

  lemma FirstOne()
    ensures var s := Run(INITIAL, SubscribeSteps(1));
            && PcOf(s, 1) == Subscribed(0) && s.nextId == 1 && s.listeners == {0} && s.latest.None? && !s.stopped
            && s.token == Some(0) && s.tasks == {0} && s.cancelled == {} && s.created == 1
            && s.committed == map[0 := []]
  {
    SubscribeAlone(INITIAL, 1);
    hide Run;
  }

  lemma SecondOne(s: State)
    requires s == Run(INITIAL, SubscribeSteps(1))
    ensures Replaced(Run(Run(s, [Unregister(1), CloseStream(1)]), SubscribeSteps(1)))
  {
    FirstOne();
    hide Run;
    DropAlone(s, 1);
    var m := Run(s, [Unregister(1), CloseStream(1)]);
    assert m.listeners == {} && m.token.None? && m.cancelled == {0} && m.committed == map[0 := []];
    SubscribeAlone(m, 1);
    var r := Run(m, SubscribeSteps(1));
    assert r.committed == map[0 := []][1 := []];
  }

  /** A task that has been told to end may still hand over a frame, even to listeners that came later. */
  lemma LateFrame(f: Frame)
    ensures var s := Run(INITIAL, LateSteps(f));
            && s.tasks == {0, 1} && s.cancelled == {0} && s.token == Some(1)
            && s.listeners == {1} && s.committed == map[0 := [], 1 := [f]]
  {
    hide Run, Replaced;
    var a := Run(INITIAL, SubscribeSteps(1));
    SecondOne(a);
    var c := Run(Run(a, [Unregister(1), CloseStream(1)]), SubscribeSteps(1));
    RunAppend(INITIAL, SubscribeSteps(1), [Unregister(1), CloseStream(1)]);
    RunAppend(INITIAL, SubscribeSteps(1) + [Unregister(1), CloseStream(1)], SubscribeSteps(1));
    RunSnoc(INITIAL, SubscribeSteps(1) + [Unregister(1), CloseStream(1)] + SubscribeSteps(1), DispatchFrame(0, f));
    FrameFromOld(c, f);
  }

  lemma FrameFromOld(s: State, f: Frame)
    requires Replaced(s)
    ensures var r := Apply(s, DispatchFrame(0, f));
            && r.tasks == {0, 1} && r.cancelled == {0} && r.token == Some(1)
            && r.listeners == {1} && r.committed == map[0 := [], 1 := [f]]
  {
    var r := Apply(s, DispatchFrame(0, f));
    assert 0 in s.tasks && 0 in s.committed && 1 in s.committed && 0 !in s.listeners && 1 in s.listeners;
    assert r.committed.Keys == {0, 1};
    assert r.committed[0] == [] && r.committed[1] == [] + [f] == [f];
    TwoKeys(r.committed);
  }

  lemma TwoKeys(m: map<ListenerId, seq<Frame>>)
    requires m.Keys == {0, 1}
    ensures m == map[0 := m[0], 1 := m[1]]
  {
    assert forall k :: k in m <==> k in m.Keys;
  }

  function LateSteps(f: Frame): seq<Step> {
    SubscribeSteps(1) + [Unregister(1), CloseStream(1)] + SubscribeSteps(1) + [DispatchFrame(0, f)]
  }

  lemma {:induction false} RunAppend(s: State, a: seq<Step>, b: seq<Step>)
    ensures Run(s, a + b) == Run(Run(s, a), b)
    decreases |b|
  {
    hide Apply;
    if b == [] {
      assert a + b == a;
    } else {
      var init, last := b[..|b| - 1], b[|b| - 1];
      assert b == init + [last] && a + b == (a + init) + [last];
      RunAppend(s, a, init);
      RunSnoc(s, a + init, last);
      RunSnoc(Run(s, a), init, last);
    }
  }
}
