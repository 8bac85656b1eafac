/** Whether the subscribers of the Rust watch have a stream. */
module RustServed {
  import opened Options
  import opened RustWatch

  /** The held token belongs to a task that runs or is about to be spawned. */
  ghost predicate Streaming(s: State) {
    && s.token.Some? && s.token.value !in s.cancelled
    && (s.token.value in s.tasks || exists t :: Spawns(s, t, s.token.value))
  }

  predicate Spawns(s: State, t: ThreadId, k: Token) {
    PcOf(s, t).Spawning? && PcOf(s, t).token == k
  }

  /** The thread has registered its listener, has been through ensure_stream, and the listener is still there. */
  predicate Ensured(s: State, t: ThreadId) {
    var pc := PcOf(s, t);
    (pc.Spawning? || pc.Subscribed?) && pc.id in s.listeners
  }

  /** Unless the watcher is stopped, whoever went through ensure_stream has a stream. */
  ghost predicate Served(s: State) {
    s.stopped || Streaming(s) || forall t :: !Ensured(s, t)
  }

  /** A subscriber that found the map empty gets to close the stream while someone else is ensured. */
  ghost predicate ClosesUnder(s: State, step: Step) {
    step.CloseStream? && PcOf(s, step.t).Closing? && !s.stopped && exists u :: Ensured(s, u)
  }

  /** A listener panics on the current stream task while someone is ensured. */
  ghost predicate PanicsUnder(s: State, step: Step) {
    step.PanicTask? && s.token == Some(step.task) && step.task in s.tasks && exists u :: Ensured(s, u)
  }

  /** ensure_stream finds a token whose task is gone, and leaves it at that. */
  ghost predicate FindsDead(s: State, step: Step) {
    && step.EnsureStream? && PcOf(s, step.t).Inserted? && PcOf(s, step.t).id in s.listeners
    && !s.stopped && s.token.Some? && !Streaming(s)
  }

  ghost predicate Loses(s: State, step: Step) {
    ClosesUnder(s, step) || PanicsUnder(s, step) || FindsDead(s, step)
  }

  predicate ByTask(step: Step) {
    step.DispatchFrame? || step.ExitTask? || step.PanicTask?
  }

  lemma PcAfter(s: State, step: Step, t: ThreadId)
    requires ByTask(step) || step.t != t
    ensures PcOf(Apply(s, step), t) == PcOf(s, t)
  {
  }

  lemma PcsAfter(s: State, step: Step)
    ensures forall t :: (ByTask(step) || step.t != t) ==> PcOf(Apply(s, step), t) == PcOf(s, t)
  {
    forall t | ByTask(step) || step.t != t ensures PcOf(Apply(s, step), t) == PcOf(s, t) {
      PcAfter(s, step, t);
    }
  }

  // ---------- invariants ----------

  /** Identifiers in use were committed, so a fresh one belongs to nobody else. */
  ghost predicate UseInv(s: State) {
    && IdInv(s)
    && forall t :: (PcOf(s, t).Inserted? || PcOf(s, t).Spawning? || PcOf(s, t).Subscribed?) ==>
       PcOf(s, t).id in s.committed
  }

  /** A token about to be spawned has no task yet, and belongs to one thread. */
  ghost predicate SpawnInv(s: State) {
    && (forall t :: PcOf(s, t).Spawning? ==> PcOf(s, t).token !in s.tasks && PcOf(s, t).token < s.created)
    && (forall t, u :: PcOf(s, t).Spawning? && PcOf(s, u).Spawning? && t != u ==> PcOf(s, t).token != PcOf(s, u).token)
  }

  ghost predicate Inv(s: State) {
    UseInv(s) && SpawnInv(s) && TokenInv(s)
  }

  lemma UseStep(s: State, step: Step)
    requires UseInv(s)
    ensures UseInv(Apply(s, step))
  {
    IdStep(s, step);
    hide IdInv;
    PcsAfter(s, step);
  }

  lemma SpawnKept(s: State, r: State)
    requires SpawnInv(s) && r.tasks <= s.tasks && s.created <= r.created
    requires forall t :: PcOf(r, t).Spawning? ==> PcOf(s, t) == PcOf(r, t)
    ensures SpawnInv(r)
  {
  }

  lemma SpawnEnsure(s: State, t: ThreadId)
    requires SpawnInv(s) && TokenInv(s)
    ensures SpawnInv(Apply(s, EnsureStream(t)))
  {
    PcsAfter(s, EnsureStream(t));
    assert forall k: Token :: k in s.tasks ==> k < s.created;
  }

  lemma SpawnSpawn(s: State, t: ThreadId)
    requires SpawnInv(s)
    ensures SpawnInv(Apply(s, Spawn(t)))
  {
    PcsAfter(s, Spawn(t));
  }

  lemma SpawnStep(s: State, step: Step)
    requires SpawnInv(s) && TokenInv(s)
    ensures SpawnInv(Apply(s, step))
  {
    match step {
      case EnsureStream(t) => SpawnEnsure(s, t);
      case Spawn(t) => SpawnSpawn(s, t);
      case _ =>
        PcsAfter(s, step);
        hide SpawnInv, TokenInv;
        SpawnKept(s, Apply(s, step));
    }
  }

  lemma InvStep(s: State, step: Step)
    requires Inv(s)
    ensures Inv(Apply(s, step))
  {
    hide UseInv, SpawnInv, TokenInv;
    UseStep(s, step);
    SpawnStep(s, step);
    TokenStep(s, step);
  }

  // ---------- one step ----------

  lemma StreamingKept(s: State, r: State)
    requires r.token == s.token && r.cancelled == s.cancelled
    requires s.token.Some? && s.token.value !in s.cancelled ==> (s.token.value in r.tasks <==> s.token.value in s.tasks)
    requires forall t :: PcOf(r, t).Spawning? || PcOf(s, t).Spawning? ==> PcOf(r, t) == PcOf(s, t)
    ensures Streaming(r) <==> Streaming(s)
  {
    assert forall t, k: Token :: Spawns(r, t, k) <==> Spawns(s, t, k);
  }

  lemma ServedLess(s: State, r: State)
    requires Served(s) && r.stopped == s.stopped && (Streaming(r) <==> Streaming(s))
    requires forall t :: Ensured(r, t) ==> Ensured(s, t)
    ensures Served(r)
  {
    hide Streaming, Ensured;
  }

  lemma ServedRegister(s: State, t: ThreadId)
    requires Inv(s) && Served(s)
    ensures Served(Apply(s, Register(t)))
  {
    var r := Apply(s, Register(t));
    PcsAfter(s, Register(t));
    StreamingKept(s, r);
    hide Streaming, Served;
    forall u | Ensured(r, u) ensures Ensured(s, u) {
      if PcOf(s, t).Allocated? { assert PcOf(s, u) == PcOf(r, u) && PcOf(s, u).id in s.committed; }
    }
    ServedLess(s, r);
  }

  lemma ServedClose(s: State, t: ThreadId)
    requires Served(s) && PcOf(s, t).Closing?
    ensures Served(Apply(s, CloseStream(t))) <==> !ClosesUnder(s, CloseStream(t))
  {
    var r := Apply(s, CloseStream(t));
    PcsAfter(s, CloseStream(t));
    assert !Streaming(r) && r.stopped == s.stopped;
    assert forall u :: Ensured(r, u) == Ensured(s, u);
  }

  lemma ServedEnsure(s: State, t: ThreadId)
    requires Inv(s) && Served(s) && PcOf(s, t).Inserted?
    ensures Served(Apply(s, EnsureStream(t))) <==> !FindsDead(s, EnsureStream(t))
  {
    var r := Apply(s, EnsureStream(t));
    PcsAfter(s, EnsureStream(t));
    if !s.stopped && s.token.None? {
      assert Spawns(r, t, s.created) && s.created !in s.cancelled;
    } else if !s.stopped {
      StreamingKept(s, r);
      hide Streaming, Inv;
      assert forall u :: u != t ==> Ensured(r, u) == Ensured(s, u);
      assert Ensured(r, t) <==> PcOf(s, t).id in s.listeners;
    }
  }

  lemma ServedSpawn(s: State, t: ThreadId)
    requires Served(s)
    ensures Served(Apply(s, Spawn(t)))
  {
    var r := Apply(s, Spawn(t));
    PcsAfter(s, Spawn(t));
    assert forall u :: Ensured(r, u) == Ensured(s, u);
    if Streaming(s) && s.token.value !in s.tasks {
      var u :| Spawns(s, u, s.token.value);
      assert u != t ==> Spawns(r, u, s.token.value);
    }
  }

  lemma ServedPanic(s: State, k: Token)
    requires Inv(s) && Served(s)
    ensures Served(Apply(s, PanicTask(k))) <==> !PanicsUnder(s, PanicTask(k))
  {
    var r := Apply(s, PanicTask(k));
    PcsAfter(s, PanicTask(k));
    assert forall u :: Ensured(r, u) == Ensured(s, u);
    if s.token == Some(k) && k in s.tasks {
      assert forall t :: !Spawns(r, t, k);
      assert !s.stopped;
    } else {
      StreamingKept(s, r);
    }
  }

  /** The other steps only take listeners away, or stop the watcher. */
  lemma ServedOther(s: State, step: Step)
    requires Served(s)
    requires step.Allocate? || step.Unregister? || step.StopControl? || step.StopListeners? || step.DispatchFrame?
             || step.ExitTask?
    ensures Served(Apply(s, step))
  {
    var r := Apply(s, step);
    PcsAfter(s, step);
    if !step.StopControl? || r == s {
      StreamingKept(s, r);
      hide Streaming, Served;
      assert forall u :: Ensured(r, u) ==> Ensured(s, u);
      ServedLess(s, r);
    }
  }

  /** Exactly three kinds of steps take a stream away from someone. */
  lemma ServedStep(s: State, step: Step)
    requires Inv(s) && Served(s)
    ensures Served(Apply(s, step)) <==> !Loses(s, step)
  {
    hide Served, Inv;
    match step {
      case Register(t) => ServedRegister(s, t);
      case CloseStream(t) => if PcOf(s, t).Closing? { ServedClose(s, t); }
      case EnsureStream(t) => if PcOf(s, t).Inserted? { ServedEnsure(s, t); }
      case Spawn(t) => ServedSpawn(s, t);
      case PanicTask(k) => ServedPanic(s, k);
      case _ => ServedOther(s, step);
    }
  }

  // ---------- whole runs ----------

  /** The state after the first n steps. */
  function Prefix(steps: seq<Step>, n: nat): State
    requires n <= |steps|
  {
    Run(INITIAL, steps[..n])
  }

  lemma PrefixStep(steps: seq<Step>, n: nat)
    requires n < |steps|
    ensures Prefix(steps, n + 1) == Apply(Prefix(steps, n), steps[n])
  {
    assert steps[..n + 1] == steps[..n] + [steps[n]];
    RunSnoc(INITIAL, steps[..n], steps[n]);
  }

  lemma {:induction false} InvPrefix(steps: seq<Step>, n: nat)
    requires n <= |steps|
    ensures Inv(Prefix(steps, n))
  {
    if n > 0 {
      InvPrefix(steps, n - 1);
      PrefixStep(steps, n - 1);
      hide Inv, Prefix;
      InvStep(Prefix(steps, n - 1), steps[n - 1]);
    }
  }

  /**
   * In every run, stopped or not, whoever went through ensure_stream keeps a running stream at every
   * point exactly when none of three things happens: a closing subscriber closes the stream while
   * someone is ensured, a listener panics on the stream task while someone is ensured, or
   * ensure_stream finds the token of a task that panicked before.
   */
  lemma ServedIff(steps: seq<Step>)
    ensures (forall n :: 0 <= n <= |steps| ==> Served(Prefix(steps, n))) <==>
            (forall n :: 0 <= n < |steps| ==> !Loses(Prefix(steps, n), steps[n]))
  {
    hide Served, Inv, Loses, Prefix;
    if forall n :: 0 <= n <= |steps| ==> Served(Prefix(steps, n)) {
      forall n | 0 <= n < |steps| ensures !Loses(Prefix(steps, n), steps[n]) {
        assert Served(Prefix(steps, n)) && Served(Prefix(steps, n + 1));
        InvPrefix(steps, n);
        PrefixStep(steps, n);
        ServedStep(Prefix(steps, n), steps[n]);
      }
    } else if forall n :: 0 <= n < |steps| ==> !Loses(Prefix(steps, n), steps[n]) {
      ServedPrefixes(steps);
    }
  }

  lemma ServedPrefixes(steps: seq<Step>)
    requires forall n :: 0 <= n < |steps| ==> !Loses(Prefix(steps, n), steps[n])
    ensures forall n :: 0 <= n <= |steps| ==> Served(Prefix(steps, n))
  {
    assert Served(Prefix(steps, 0));
    hide Served, Inv, Loses, Prefix;
    var k := 0;
    while k < |steps|
      invariant 0 <= k <= |steps| && forall n :: 0 <= n <= k ==> Served(Prefix(steps, n))
    {
      InvPrefix(steps, k);
      PrefixStep(steps, k);
      ServedStep(Prefix(steps, k), steps[k]);
      k := k + 1;
    }
  }

  // ---------- what clients can keep ----------

  /** A listener is registered while a closing subscriber stands between its two sections. */
  ghost predicate RegistersDuringClose(s: State, step: Step) {
    step.Register? && PcOf(s, step.t).Allocated? && exists u :: PcOf(s, u).Closing?
  }

  /** A listener panics on the current stream task. */
  predicate PanicsNow(s: State, step: Step) {
    step.PanicTask? && s.token == Some(step.task) && step.task in s.tasks
  }

  /** Nobody is registered while someone closes, and a held token has its task. */
  ghost predicate CalmInv(s: State) {
    && ((exists t :: PcOf(s, t).Closing?) ==> s.listeners == {})
    && (s.token.Some? ==> Streaming(s))
  }

  lemma CloseStep(s: State, step: Step)
    requires (exists t :: PcOf(s, t).Closing?) ==> s.listeners == {}
    requires !RegistersDuringClose(s, step)
    ensures (exists t :: PcOf(Apply(s, step), t).Closing?) ==> Apply(s, step).listeners == {}
    ensures !ClosesUnder(s, step)
  {
    var r := Apply(s, step);
    PcsAfter(s, step);
    forall t | PcOf(r, t).Closing? ensures r.listeners == {} {
      assert ByTask(step) || step.t != t ==> PcOf(s, t).Closing?;
    }
  }

  lemma TokenKept(s: State, step: Step)
    requires Inv(s) && (s.token.Some? ==> Streaming(s)) && !PanicsNow(s, step)
    ensures Apply(s, step).token.Some? ==> Streaming(Apply(s, step))
  {
    var r := Apply(s, step);
    PcsAfter(s, step);
    if step.EnsureStream? && PcOf(s, step.t).Inserted? && !s.stopped && s.token.None? {
      assert Spawns(r, step.t, s.created) && s.created !in s.cancelled;
    } else if step.Spawn? {
      if s.token.Some? && s.token.value !in s.tasks {
        var u :| Spawns(s, u, s.token.value);
        assert u != step.t ==> Spawns(r, u, s.token.value);
      }
    } else if r.token.Some? {
      assert r.token == s.token && r.cancelled == s.cancelled;
      StreamingKept(s, r);
    }
  }

  lemma {:induction false} CalmPrefix(steps: seq<Step>, n: nat)
    requires n <= |steps|
    requires forall k :: 0 <= k < n ==>
               !RegistersDuringClose(Prefix(steps, k), steps[k]) && !PanicsNow(Prefix(steps, k), steps[k])
    ensures CalmInv(Prefix(steps, n))
  {
    if n > 0 {
      hide RegistersDuringClose, PanicsNow, Inv, Streaming;
      CalmPrefix(steps, n - 1);
      InvPrefix(steps, n - 1);
      PrefixStep(steps, n - 1);
      hide Prefix;
      CloseStep(Prefix(steps, n - 1), steps[n - 1]);
      TokenKept(Prefix(steps, n - 1), steps[n - 1]);
    }
  }

  /**
   * What clients can do about it: if no listener is registered while a closing subscriber stands
   * between its two sections, and none panics on the stream task, nobody ever loses a stream.
   */
  lemma ServedWhenRegisterWaits(steps: seq<Step>)
    requires forall n :: 0 <= n < |steps| ==>
               !RegistersDuringClose(Prefix(steps, n), steps[n]) && !PanicsNow(Prefix(steps, n), steps[n])
    ensures forall n :: 0 <= n <= |steps| ==> Served(Prefix(steps, n))
  {
    forall n | 0 <= n < |steps| ensures !Loses(Prefix(steps, n), steps[n]) {
      CalmPrefix(steps, n);
      CloseStep(Prefix(steps, n), steps[n]);
    }
    hide Served, Loses, Prefix;
    ServedPrefixes(steps);
  }

  // ---------- two runs that lose a stream ----------

  /** The interleaving in which a closing subscriber takes the stream of one that just arrived. */
  function RaceSteps(): seq<Step> {
    [Allocate(1), Register(1), EnsureStream(1), Spawn(1), Unregister(1),
     Allocate(2), Register(2), EnsureStream(2), CloseStream(1)]
  }

  /** So a registered listener can be left without a stream although every call has returned. */
  lemma ListenerWithoutStream()
    ensures var s := Run(INITIAL, RaceSteps());
            && s.listeners == {1} && s.token.None? && !s.stopped
            && PcOf(s, 1) == Idle && PcOf(s, 2) == Subscribed(1) && Ensured(s, 2) && !Served(s)
  {
    RaceEnds();
    hide Run;
    assert Ensured(Run(INITIAL, RaceSteps()), 2);
  }

  lemma RaceEnds()
    ensures var s := Run(INITIAL, RaceSteps());
            && s.listeners == {1} && s.token.None? && !s.stopped
            && PcOf(s, 1) == Idle && PcOf(s, 2) == Subscribed(1)
  {
  }

  /** A listener that panics on a frame ends the stream, and nothing starts it again. */
  lemma PanickingListener()
    ensures var s := Run(INITIAL, [Allocate(1), Register(1), EnsureStream(1), Spawn(1), PanicTask(0)]);
            && s.listeners == {0} && s.token == Some(0) && s.tasks == {} && !s.stopped
            && Ensured(s, 1) && !Served(s)
  {
    var s := Run(INITIAL, [Allocate(1), Register(1), EnsureStream(1), Spawn(1), PanicTask(0)]);
    assert s.threads == map[1 := Subscribed(0)] && s.tasks == {} && s.token == Some(0) && s.listeners == {0};
    hide Run;
    assert Ensured(s, 1);
  }
}
