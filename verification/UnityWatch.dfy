/**
 * The shared watch stream of the Unity client. Subscribe, Unsubscribe, Dispose and Deliver each
 * hold one lock for their whole effect, so each is one atomic step; so are the start and the end
 * of a background loop. A step that is not enabled leaves the state alone.
 */
module UnityWatch {
  import opened Options

  type Callback = nat
  type Loop = nat

  /** A server object as pushed by the runtime. */
  datatype Frame = Frame(content: string)

  /** A loop first awaits its predecessor, then runs, then is finished. */
  datatype Phase = Waiting | Running | Finished

  /** A subscription handle unsubscribes at most once. */
  datatype Handle = Handle(callback: Callback, disposed: bool)

  datatype Delivery = Delivery(source: Loop, frame: Frame, targets: seq<Callback>)

  datatype State = State(
    subscribers: seq<Callback>,
    cts: Option<Loop>,
    loops: seq<Phase>,
    cancelled: set<Loop>,
    aborted: set<Loop>,
    last: Option<Frame>,
    handles: seq<Handle>,
    deliveries: seq<Delivery>)

  datatype Step =
    | Subscribe(callback: Callback)
    | DisposeHandle(h: nat)
    | Dispose
    | Start(k: Loop)
    | Deliver(k: Loop, frame: Frame)
    /** The loop sees its token cancelled and returns. */
    | Finish(k: Loop)
    /** The transport throws OperationCanceledException although the token is not cancelled. */
    | Abort(k: Loop)

  const INITIAL := State([], None, [], {}, {}, None, [], [])

  /** List.Remove: the first equal element goes, if there is one. */
  function Without(s: seq<Callback>, c: Callback): (r: seq<Callback>)
    ensures multiset(r) == multiset(s) - multiset{c}
  {
    if s == [] then []
    else if s[0] == c then
      assert s == [c] + s[1..];
      s[1..]
    else
      assert s == [s[0]] + s[1..];
      [s[0]] + Without(s[1..], c)
  }

  function StopLocked(s: State): State {
    if s.cts.Some? then s.(cancelled := s.cancelled + {s.cts.value}, cts := None) else s
  }

  function Apply(s: State, step: Step): State {
    match step
    case Subscribe(c) =>
      var r := s.(subscribers := s.subscribers + [c], handles := s.handles + [Handle(c, false)]);
      if |r.subscribers| == 1 then r.(cts := Some(|s.loops|), loops := s.loops + [Waiting]) else r
    case DisposeHandle(h) =>
      if h >= |s.handles| || s.handles[h].disposed then s
      else
        var r := s.(handles := s.handles[h := s.handles[h].(disposed := true)],
                    subscribers := Without(s.subscribers, s.handles[h].callback));
        if r.subscribers == [] then StopLocked(r) else r
    case Dispose => StopLocked(s.(subscribers := []))
    case Start(k) =>
      if k >= |s.loops| || !s.loops[k].Waiting? || (k > 0 && !s.loops[k - 1].Finished?) then s
      else s.(loops := s.loops[k := Running])
    case Deliver(k, f) =>
      if k >= |s.loops| || !s.loops[k].Running? then s
      else s.(last := Some(f), deliveries := s.deliveries + [Delivery(k, f, s.subscribers)])
    case Finish(k) =>
      if k >= |s.loops| || !s.loops[k].Running? || k !in s.cancelled then s
      else s.(loops := s.loops[k := Finished])
    case Abort(k) =>
      if k >= |s.loops| || !s.loops[k].Running? || k in s.cancelled then s
      else s.(loops := s.loops[k := Finished], aborted := s.aborted + {k})
  }

  function Run(s: State, steps: seq<Step>): State
    decreases |steps|
  {
    if steps == [] then s else Run(Apply(s, steps[0]), steps[1..])
  }

  // ---------- invariants ----------

  /**
   * A token source exists exactly while there are subscribers, belongs to the newest loop, and is the
   * only live one.
   */
  ghost predicate TokenInv(s: State) {
    && (s.cts.Some? <==> s.subscribers != [])
    && (s.cts.Some? ==> s.cts.value == |s.loops| - 1)
    && (forall k: Loop :: k < |s.loops| && k !in s.cancelled <==> s.cts == Some(k))
    && (forall k: Loop :: k in s.cancelled ==> k < |s.loops|)
  }

  /** Once a loop has left Waiting, all earlier ones are finished. */
  ghost predicate ChainInv(s: State) {
    forall i, k :: 0 <= i < k < |s.loops| && !s.loops[k].Waiting? ==> s.loops[i].Finished?
  }

  /** A loop ends only by cancellation or by an abort. */
  ghost predicate EndInv(s: State) {
    && (forall k: Loop :: k in s.aborted ==> k < |s.loops|)
    && forall k: Loop :: k < |s.loops| && k !in s.cancelled ==> (s.loops[k].Finished? <==> k in s.aborted)
  }

  /** Deliveries come from loops that have left Waiting, in loop order. */
  ghost predicate OrderInv(s: State) {
    && (forall i :: 0 <= i < |s.deliveries| ==>
       s.deliveries[i].source < |s.loops| && !s.loops[s.deliveries[i].source].Waiting?)
    && (forall i, j :: 0 <= i < j < |s.deliveries| ==> s.deliveries[i].source <= s.deliveries[j].source)
    && (s.deliveries != [] ==> s.last == Some(s.deliveries[|s.deliveries| - 1].frame))
  }

  lemma TokenSubscribe(s: State, c: Callback)
    requires TokenInv(s)
    ensures TokenInv(Apply(s, Subscribe(c)))
  {
  }

  lemma TokenStop(s: State, subscribers: seq<Callback>)
    requires TokenInv(s)
    ensures subscribers == [] ==> TokenInv(StopLocked(s.(subscribers := subscribers)))
    ensures subscribers != [] && s.subscribers != [] ==> TokenInv(s.(subscribers := subscribers))
  {
  }

  lemma TokenSame(s: State, r: State)
    requires TokenInv(s) && r.cancelled == s.cancelled && r.cts == s.cts && |r.loops| == |s.loops|
    requires r.subscribers == [] <==> s.subscribers == []
    ensures TokenInv(r)
  {
  }

  lemma TokenDispose(s: State, h: nat)
    requires TokenInv(s)
    ensures TokenInv(Apply(s, DisposeHandle(h)))
  {
    if h < |s.handles| && !s.handles[h].disposed {
      var left := Without(s.subscribers, s.handles[h].callback);
      var m := s.(handles := s.handles[h := s.handles[h].(disposed := true)]);
      TokenSame(s, m);
      WithoutEmpty(s.subscribers, s.handles[h].callback);
      hide Without, TokenInv;
      TokenStop(m, left);
      if left != [] {
        TokenStop(m, left);
      }
    }
  }

  lemma WithoutEmpty(s: seq<Callback>, c: Callback)
    ensures s == [] ==> Without(s, c) == []
  {
  }

  lemma TokenStep(s: State, step: Step)
    requires TokenInv(s)
    ensures TokenInv(Apply(s, step))
  {
    hide TokenInv;
    match step {
      case Subscribe(c) => TokenSubscribe(s, c);
      case DisposeHandle(h) => TokenDispose(s, h);
      case Dispose => TokenStop(s, []);
      case _ => TokenSame(s, Apply(s, step));
    }
  }

  lemma ChainStep(s: State, step: Step)
    requires ChainInv(s)
    ensures ChainInv(Apply(s, step))
  {
  }

  /** Steps that end no loop: phases stay finished or not, and a new loop waits. */
  ghost predicate EndsNone(s: State, r: State) {
    && r.aborted == s.aborted && s.cancelled <= r.cancelled && |s.loops| <= |r.loops|
    && forall k :: 0 <= k < |r.loops| ==> r.loops[k].Finished? == (k < |s.loops| && s.loops[k].Finished?)
  }

  lemma EndKept(s: State, r: State)
    requires EndInv(s) && EndsNone(s, r)
    ensures EndInv(r)
  {
  }

  lemma EndOne(s: State, k: Loop)
    requires EndInv(s)
    ensures k in s.cancelled ==> EndInv(Apply(s, Finish(k)))
    ensures EndInv(Apply(s, Abort(k)))
    ensures k !in s.cancelled ==> Apply(s, Finish(k)) == s
  {
  }

  lemma LoopsUntouched(s: State, step: Step)
    requires step.DisposeHandle? || step.Dispose? || step.Deliver?
    ensures var r := Apply(s, step);
            r.loops == s.loops && r.aborted == s.aborted && s.cancelled <= r.cancelled
  {
    hide Without;
  }

  lemma EndsOnSubscribe(s: State, c: Callback)
    ensures EndsNone(s, Apply(s, Subscribe(c)))
  {
  }

  lemma EndsOnStart(s: State, k: Loop)
    ensures EndsNone(s, Apply(s, Start(k)))
  {
  }

  lemma EndStep(s: State, step: Step)
    requires EndInv(s)
    ensures EndInv(Apply(s, step))
  {
    hide EndInv, Apply;
    match step {
      case Finish(k) => EndOne(s, k);
      case Abort(k) => EndOne(s, k);
      case Subscribe(c) => EndsOnSubscribe(s, c);
      case Start(k) => EndsOnStart(s, k);
      case _ => LoopsUntouched(s, step);
    }
    if !step.Finish? && !step.Abort? { EndKept(s, Apply(s, step)); }
  }

  lemma OrderKept(s: State, r: State)
    requires OrderInv(s) && r.deliveries == s.deliveries && r.last == s.last && |s.loops| <= |r.loops|
    requires forall i :: 0 <= i < |s.loops| && !s.loops[i].Waiting? ==> !r.loops[i].Waiting?
    ensures OrderInv(r)
  {
  }

  lemma OrderDelivery(s: State, k: Loop, f: Frame)
    requires ChainInv(s) && OrderInv(s) && k < |s.loops| && s.loops[k].Running?
    ensures OrderInv(Apply(s, Deliver(k, f)))
  {
  }

  /** A step that starts, ends or creates a loop delivers nothing and sends no loop back to waiting. */
  ghost predicate OnlyForward(s: State, r: State) {
    && r.deliveries == s.deliveries && r.last == s.last && |s.loops| <= |r.loops|
    && forall i :: 0 <= i < |s.loops| && !s.loops[i].Waiting? ==> !r.loops[i].Waiting?
  }

  lemma LoopsForward(s: State, step: Step)
    requires step.Start? || step.Finish? || step.Abort? || step.Subscribe?
    ensures OnlyForward(s, Apply(s, step))
  {
  }

  lemma DisposesForward(s: State, step: Step)
    requires step.DisposeHandle? || step.Dispose?
    ensures OnlyForward(s, Apply(s, step))
  {
    hide Without;
  }

  lemma OrderStep(s: State, step: Step)
    requires ChainInv(s) && OrderInv(s)
    ensures OrderInv(Apply(s, step))
  {
    hide ChainInv, OrderInv;
    if step.Deliver? {
      if step.k < |s.loops| && s.loops[step.k].Running? { OrderDelivery(s, step.k, step.frame); }
    } else {
      hide Apply;
      if step.DisposeHandle? || step.Dispose? { DisposesForward(s, step); } else { LoopsForward(s, step); }
      OrderKept(s, Apply(s, step));
    }
  }

  lemma {:induction false} InvRun(s: State, steps: seq<Step>)
    requires TokenInv(s) && ChainInv(s) && EndInv(s) && OrderInv(s)
    ensures var r := Run(s, steps);
            TokenInv(r) && ChainInv(r) && EndInv(r) && OrderInv(r)
    decreases |steps|
  {
    if steps != [] {
      TokenStep(s, steps[0]);
      ChainStep(s, steps[0]);
      EndStep(s, steps[0]);
      OrderStep(s, steps[0]);
      InvRun(Apply(s, steps[0]), steps[1..]);
    }
  }

  /**
   * Over all interleavings: at most one loop runs at any time, the token source exists exactly
   * while there are subscribers, and every older token is cancelled.
   */
  lemma SingleLoop(steps: seq<Step>)
    ensures var s := Run(INITIAL, steps);
            && (forall i, k ::
                 0 <= i < |s.loops| && 0 <= k < |s.loops| && s.loops[i].Running? && s.loops[k].Running? ==> i == k)
            && (s.cts.Some? <==> s.subscribers != [])
            && (forall k: Loop :: k < |s.loops| && s.cts != Some(k) ==> k in s.cancelled)
  {
    InvRun(INITIAL, steps);
  }

  /** The frames of two streams never interleave: the frames of a loop all come before those of a later one. */
  lemma StreamsDoNotInterleave(steps: seq<Step>, i: nat, j: nat)
    requires i < j < |Run(INITIAL, steps).deliveries|
    ensures Run(INITIAL, steps).deliveries[i].source <= Run(INITIAL, steps).deliveries[j].source
  {
    InvRun(INITIAL, steps);
  }

  /** A loop that waits can always start in the end: either it may start now or an earlier one can move. */
  lemma {:induction false} SomeLoopCanMove(s: State, k: Loop)
    requires TokenInv(s) && ChainInv(s) && EndInv(s)
    requires k < |s.loops| && !s.loops[k].Finished?
    ensures exists j: Loop :: j <= k && !s.loops[j].Finished? && (Apply(s, Start(j)) != s || s.loops[j].Running?)
    ensures forall j: Loop :: j < k && s.loops[j].Running? ==> Apply(s, Finish(j)) != s
    decreases k
  {
    if s.loops[k].Waiting? {
      if k == 0 || s.loops[k - 1].Finished? {
        assert Apply(s, Start(k)).loops[k] == Running;
      } else {
        SomeLoopCanMove(s, k - 1);
      }
    }
    forall j: Loop | j < k && s.loops[j].Running? ensures Apply(s, Finish(j)) != s {
      assert s.cts != Some(j);
      assert j in s.cancelled;
      assert Apply(s, Finish(j)).loops[j] == Finished;
    }
  }

  // ---------- whether frames can still come ----------

  lemma {:induction false} RunAppend(s: State, a: seq<Step>, b: seq<Step>)
    ensures Run(s, a + b) == Run(Run(s, a), b)
    decreases |a|
  {
    hide Apply;
    if a == [] {
      assert a + b == b;
    } else {
      assert (a + b)[0] == a[0] && (a + b)[1..] == a[1..] + b;
      RunAppend(Apply(s, a[0]), a[1..], b);
    }
  }

  lemma RunOne(s: State, step: Step)
    ensures Run(s, [step]) == Apply(s, step) && Run(s, []) == s
  {
    hide Apply;
    assert [step][1..] == [];
  }

  ghost predicate Inv(s: State) {
    TokenInv(s) && ChainInv(s) && EndInv(s) && OrderInv(s)
  }

  /** There are subscribers at every point of the run. */
  predicate NeverEmpty(s: State, steps: seq<Step>)
    decreases |steps|
  {
    s.subscribers != [] && (steps == [] || NeverEmpty(Apply(s, steps[0]), steps[1..]))
  }

  /** Some continuation during which someone is always subscribed delivers a frame. */
  ghost predicate Flows(s: State) {
    exists steps: seq<Step> :: NeverEmpty(s, steps) && Run(s, steps).deliveries != s.deliveries
  }

  /** Steps of the background loops alone. */
  predicate Background(step: Step) {
    step.Start? || step.Finish? || step.Deliver?
  }

  ghost predicate AllFinished(s: State) {
    forall k :: 0 <= k < |s.loops| ==> s.loops[k].Finished?
  }

  lemma FinishedStep(s: State, step: Step)
    requires AllFinished(s) && s.subscribers != []
    ensures var r := Apply(s, step);
            r.subscribers != [] ==> r.loops == s.loops && r.deliveries == s.deliveries
  {
    hide Without;
  }

  lemma {:induction false} FinishedRun(s: State, steps: seq<Step>)
    requires AllFinished(s) && NeverEmpty(s, steps)
    ensures Run(s, steps).loops == s.loops && Run(s, steps).deliveries == s.deliveries
    decreases |steps|
  {
    hide Apply;
    if steps != [] {
      FinishedStep(s, steps[0]);
      var r := Apply(s, steps[0]);
      assert NeverEmpty(r, steps[1..]) && r.subscribers != [];
      FinishedRun(r, steps[1..]);
    }
  }

  lemma NewestLoop(s: State)
    requires Inv(s) && s.subscribers != []
    ensures var n := |s.loops| - 1;
            && n >= 0 && s.cts == Some(n)
            && (n in s.aborted ==> AllFinished(s)) && (n !in s.aborted ==> !s.loops[n].Finished?)
            && forall k: Loop :: k < n ==> k in s.cancelled
  {
    var n := |s.loops| - 1;
    assert n !in s.cancelled;
  }

  lemma {:induction false} BackgroundRun(s: State, steps: seq<Step>)
    requires s.subscribers != [] && forall i :: 0 <= i < |steps| ==> Background(steps[i])
    ensures NeverEmpty(s, steps)
    decreases |steps|
  {
    if steps != [] {
      assert Background(steps[0]);
      assert Apply(s, steps[0]).subscribers == s.subscribers;
      BackgroundRun(Apply(s, steps[0]), steps[1..]);
    }
  }

  lemma {:induction false} InvAfter(s: State, steps: seq<Step>)
    requires Inv(s)
    ensures Inv(Run(s, steps))
  {
    InvRun(s, steps);
  }

  /** A schedule that ends the first k loops, all of them cancelled, and touches nothing else. */
  lemma {:induction false} Clear(s: State, k: nat) returns (steps: seq<Step>)
    requires Inv(s) && k <= |s.loops| && forall j: Loop :: j < k ==> j in s.cancelled
    ensures forall i :: 0 <= i < |steps| ==> Background(steps[i])
    ensures var r := Run(s, steps);
            && |r.loops| == |s.loops| && r == s.(loops := r.loops)
            && (forall j :: 0 <= j < k ==> r.loops[j].Finished?)
            && (forall j :: k <= j < |s.loops| ==> r.loops[j] == s.loops[j])
  {
    hide Inv;
    steps := [];
    if k > 0 {
      var j := k - 1;
      var first := Clear(s, j);
      InvAfter(s, first);
      var m := Run(s, first);
      var start := if m.loops[j].Waiting? then [Start(j)] else [];
      var end := if m.loops[j].Finished? then [] else [Finish(j)];
      EndOneLoop(m, j, start, end);
      RunAppend(s, first, start + end);
      steps := first + (start + end);
    }
  }

  lemma EndOneLoop(m: State, j: Loop, start: seq<Step>, end: seq<Step>)
    requires j < |m.loops| && j in m.cancelled && (j == 0 || m.loops[j - 1].Finished?)
    requires start == if m.loops[j].Waiting? then [Start(j)] else []
    requires end == if m.loops[j].Finished? then [] else [Finish(j)]
    ensures Run(m, start + end) == m.(loops := m.loops[j := Finished])
  {
    RunAppend(m, start, end);
    var r := Run(m, start);
    RunOne(m, Start(j));
    assert r == m.(loops := if m.loops[j].Waiting? then m.loops[j := Running] else m.loops);
    RunOne(r, Finish(j));
  }

  /**
   * While someone is subscribed, frames can still come exactly when the transport has not aborted
   * the newest loop. After an abort nothing is delivered and no loop is created, whoever subscribes
   * or unsubscribes, for as long as there are subscribers.
   */
  lemma FlowsIff(before: seq<Step>)
    requires Run(INITIAL, before).subscribers != []
    ensures var s := Run(INITIAL, before);
            && s.loops != [] && (Flows(s) <==> |s.loops| - 1 !in s.aborted)
            && (|s.loops| - 1 in s.aborted ==>
                  forall after: seq<Step> :: NeverEmpty(s, after) ==>
                    Run(s, after).deliveries == s.deliveries && Run(s, after).loops == s.loops)
  {
    hide Run, NeverEmpty;
    InvRun(INITIAL, before);
    var s := Run(INITIAL, before);
    var n := |s.loops| - 1;
    NewestLoop(s);
    if n in s.aborted {
      forall after: seq<Step> | NeverEmpty(s, after)
        ensures Run(s, after).deliveries == s.deliveries && Run(s, after).loops == s.loops
      {
        FinishedRun(s, after);
      }
    } else {
      var steps := Clear(s, n);
      DeliverAfter(s, steps, n);
    }
  }

  lemma DeliverAfter(s: State, steps: seq<Step>, n: nat)
    requires s.subscribers != [] && n == |s.loops| - 1 && !s.loops[n].Finished?
    requires forall i :: 0 <= i < |steps| ==> Background(steps[i])
    requires var r := Run(s, steps);
             && |r.loops| == |s.loops| && r == s.(loops := r.loops) && r.loops[n] == s.loops[n]
             && forall j :: 0 <= j < n ==> r.loops[j].Finished?
    ensures Flows(s)
  {
    var m := Run(s, steps);
    var f := Frame("");
    var start := if m.loops[n].Waiting? then [Start(n)] else [];
    var more := start + [Deliver(n, f)];
    RunAppend(m, start, [Deliver(n, f)]);
    RunOne(m, Start(n));
    var r := Run(m, start);
    assert r.loops[n].Running? && r.deliveries == s.deliveries;
    RunOne(r, Deliver(n, f));
    RunAppend(s, steps, more);
    BackgroundRun(s, steps + more);
    assert |Run(s, steps + more).deliveries| == |s.deliveries| + 1;
  }

  /** One cancellation raised by the transport itself, and the only subscriber waits in vain. */
  lemma AbortedSubscriber(c: Callback)
    ensures var s := Run(INITIAL, [Subscribe(c), Start(0), Abort(0)]);
            s.subscribers == [c] && s.cts == Some(0) && !Flows(s)
  {
    var p := [Subscribe(c), Start(0), Abort(0)];
    assert p == [p[0]] + ([p[1]] + [p[2]]);
    RunAppend(INITIAL, [p[0]], [p[1]] + [p[2]]);
    var s1 := Apply(INITIAL, p[0]);
    RunOne(INITIAL, p[0]);
    RunAppend(s1, [p[1]], [p[2]]);
    RunOne(s1, p[1]);
    RunOne(Apply(s1, p[1]), p[2]);
    hide Run;
    assert Run(INITIAL, p).aborted == {0};
    FlowsIff(p);
  }

  // ---------- subscribers ----------

  function Callbacks(handles: seq<Handle>): multiset<Callback> {
    if handles == [] then multiset{}
    else Callbacks(handles[..|handles| - 1]) +
         if handles[|handles| - 1].disposed then multiset{} else multiset{handles[|handles| - 1].callback}
  }

  lemma {:induction false} CallbacksDispose(handles: seq<Handle>, h: nat)
    requires h < |handles| && !handles[h].disposed
    ensures var now := handles[h := handles[h].(disposed := true)];
            Callbacks(handles) == Callbacks(now) + multiset{handles[h].callback}
    decreases |handles|
  {
    var n := |handles| - 1;
    var now := handles[h := handles[h].(disposed := true)];
    if h == n {
      assert now[..n] == handles[..n];
    } else {
      assert now[..n] == handles[..n][h := handles[h].(disposed := true)];
      CallbacksDispose(handles[..n], h);
    }
  }

  lemma SubscribersStep(s: State, step: Step)
    requires multiset(s.subscribers) == Callbacks(s.handles) && !step.Dispose?
    ensures multiset(Apply(s, step).subscribers) == Callbacks(Apply(s, step).handles)
  {
    hide Without, Callbacks;
    var r := Apply(s, step);
    if step.Subscribe? {
      CallbacksOpen(s.handles, step.callback);
    } else if step.DisposeHandle? && step.h < |s.handles| && !s.handles[step.h].disposed {
      CallbacksDispose(s.handles, step.h);
      assert r.subscribers == Without(s.subscribers, s.handles[step.h].callback);
    } else {
      assert r.subscribers == s.subscribers && r.handles == s.handles;
    }
  }

  lemma CallbacksOpen(handles: seq<Handle>, c: Callback)
    ensures Callbacks(handles + [Handle(c, false)]) == Callbacks(handles) + multiset{c}
  {
  }

  lemma {:induction false} SubscribersRun(s: State, steps: seq<Step>)
    requires multiset(s.subscribers) == Callbacks(s.handles)
    requires Dispose !in steps
    ensures multiset(Run(s, steps).subscribers) == Callbacks(Run(s, steps).handles)
    decreases |steps|
  {
    hide Callbacks, Apply;
    if steps != [] {
      SubscribersStep(s, steps[0]);
      SubscribersRun(Apply(s, steps[0]), steps[1..]);
    }
  }

  /** Until Dispose, the subscribers are the callbacks of the handles still open, however handles are disposed. */
  lemma SubscribersAreOpenHandles(steps: seq<Step>)
    requires Dispose !in steps
    ensures multiset(Run(INITIAL, steps).subscribers) == Callbacks(Run(INITIAL, steps).handles)
  {
    SubscribersRun(INITIAL, steps);
  }

  /** A handle from before the Dispose takes away a callback subscribed after it. */
  predicate Stale(s: State, step: Step, n: nat) {
    && step.DisposeHandle? && step.h < n && step.h < |s.handles| && !s.handles[step.h].disposed
    && s.handles[step.h].callback in s.subscribers
  }

  /** The subscribers are the callbacks of the open handles from the n-th on. */
  predicate Owned(s: State, n: nat) {
    n <= |s.handles| && multiset(s.subscribers) == Callbacks(s.handles[n..])
  }

  lemma OwnedStep(s: State, step: Step, n: nat)
    requires Owned(s, n) && !step.Dispose?
    ensures Owned(Apply(s, step), n) <==> !Stale(s, step, n)
  {
    hide Without, Callbacks;
    var r := Apply(s, step);
    if step.Subscribe? {
      CallbacksOpen(s.handles[n..], step.callback);
      assert r.handles[n..] == s.handles[n..] + [Handle(step.callback, false)];
    } else if step.DisposeHandle? && step.h < |s.handles| && !s.handles[step.h].disposed {
      OwnedDispose(s, step.h, n);
    }
  }

  lemma OwnedDispose(s: State, h: nat, n: nat)
    requires Owned(s, n) && h < |s.handles| && !s.handles[h].disposed
    ensures Owned(Apply(s, DisposeHandle(h)), n) <==> !Stale(s, DisposeHandle(h), n)
  {
    hide Without, Callbacks;
    var r, c := Apply(s, DisposeHandle(h)), s.handles[h].callback;
    assert multiset(r.subscribers) == multiset(s.subscribers) - multiset{c} by {
      assert r.subscribers == Without(s.subscribers, c);
    }
    if h < n {
      assert r.handles[n..] == s.handles[n..];
      assert c in s.subscribers <==> multiset(s.subscribers)[c] > 0;
      assert c in s.subscribers ==> multiset(r.subscribers)[c] == multiset(s.subscribers)[c] - 1;
    } else {
      var tail := s.handles[n..];
      assert r.handles[n..] == tail[h - n := tail[h - n].(disposed := true)];
      CallbacksDispose(tail, h - n);
    }
  }

  lemma {:induction false} OwnedRunIff(s: State, steps: seq<Step>, n: nat)
    requires Owned(s, n) && Dispose !in steps
    ensures (forall k :: 0 <= k <= |steps| ==> Owned(Run(s, steps[..k]), n)) <==>
            (forall k :: 0 <= k < |steps| ==> !Stale(Run(s, steps[..k]), steps[k], n))
  {
    hide Owned, Stale, Run, Apply;
    if forall k :: 0 <= k <= |steps| ==> Owned(Run(s, steps[..k]), n) {
      forall k | 0 <= k < |steps| ensures !Stale(Run(s, steps[..k]), steps[k], n) {
        RunNext(s, steps, k);
        assert Owned(Run(s, steps[..k + 1]), n);
        OwnedStep(Run(s, steps[..k]), steps[k], n);
      }
    } else if forall k :: 0 <= k < |steps| ==> !Stale(Run(s, steps[..k]), steps[k], n) {
      RunOne(s, Dispose);
      assert steps[..0] == [];
      var k := 0;
      while k < |steps|
        invariant 0 <= k <= |steps| && forall j :: 0 <= j <= k ==> Owned(Run(s, steps[..j]), n)
      {
        RunNext(s, steps, k);
        OwnedStep(Run(s, steps[..k]), steps[k], n);
        k := k + 1;
      }
    }
  }

  lemma RunNext(s: State, steps: seq<Step>, k: nat)
    requires k < |steps|
    ensures Run(s, steps[..k + 1]) == Apply(Run(s, steps[..k]), steps[k])
  {
    hide Apply;
    assert steps[..k + 1] == steps[..k] + [steps[k]];
    RunAppend(s, steps[..k], [steps[k]]);
    RunOne(Run(s, steps[..k]), steps[k]);
  }

  /**
   * After a Dispose the subscribers stay the callbacks of the handles opened since, at every point,
   * exactly when no open handle from before is disposed while its callback is subscribed again.
   */
  lemma SubscribersAfterDisposeIff(before: seq<Step>, after: seq<Step>)
    requires Dispose !in after
    ensures var s := Apply(Run(INITIAL, before), Dispose);
            var n := |s.handles|;
            (forall k :: 0 <= k <= |after| ==> Owned(Run(s, after[..k]), n)) <==>
            (forall k :: 0 <= k < |after| ==> !Stale(Run(s, after[..k]), after[k], n))
  {
    var s := Apply(Run(INITIAL, before), Dispose);
    assert s.handles[|s.handles|..] == [] && s.subscribers == [];
    OwnedRunIff(s, after, |s.handles|);
  }

  /** After Dispose an old handle can take the registration of a new subscription to the same callback. */
  lemma StaleHandleAfterDispose(c: Callback)
    ensures var s := Run(INITIAL, [Subscribe(c), Dispose, Subscribe(c), DisposeHandle(0)]);
            s.subscribers == [] && s.handles == [Handle(c, true), Handle(c, false)]
  {
    var p := [Subscribe(c), Dispose, Subscribe(c), DisposeHandle(0)];
    var s1 := Apply(INITIAL, p[0]);
    var s2 := Apply(s1, p[1]);
    var s3 := Apply(s2, p[2]);
    var s4 := Apply(s3, p[3]);
    assert Run(INITIAL, p) == Run(s1, p[1..]);
    assert p[1..][1..] == p[2..] && p[2..][1..] == p[3..] && p[3..][1..] == [];
    assert Run(s1, p[1..]) == Run(s2, p[2..]) == Run(s3, p[3..]) == Run(s4, []);
    assert s3.subscribers == [c];
  }

  // ---------- who gets a frame ----------

  lemma WithoutHead(s: seq<Callback>, c: Callback)
    requires s != []
    ensures Without(s, c) == if s[0] == c then s[1..] else [s[0]] + Without(s[1..], c)
  {
  }

  lemma SplitParts(a: seq<Callback>, c: Callback, b: seq<Callback>)
    requires a != []
    ensures var all := a + [c] + b;
            && all != [] && all[0] == a[0] && all[1..] == a[1..] + [c] + b && a + b == [a[0]] + (a[1..] + b)
  {
  }

  /** Removal takes out the first equal callback and keeps the others in order. */
  lemma {:induction false} WithoutSplit(a: seq<Callback>, c: Callback, b: seq<Callback>)
    requires c !in a
    ensures Without(a + [c] + b, c) == a + b
    decreases |a|, 1
  {
    WithoutHead(a + [c] + b, c);
    hide Without;
    if a != [] {
      SplitParts(a, c, b);
      WithoutTail(a, c, b);
    } else {
      assert a + [c] + b == [c] + b && a + b == b;
    }
  }

  lemma {:induction false} WithoutTail(a: seq<Callback>, c: Callback, b: seq<Callback>)
    requires c !in a && a != []
    ensures Without(a[1..] + [c] + b, c) == a[1..] + b
    decreases |a|, 0
  {
    assert c !in a[1..];
    WithoutSplit(a[1..], c, b);
  }

  lemma {:induction false} WithoutNone(a: seq<Callback>, c: Callback)
    requires c !in a
    ensures Without(a, c) == a
  {
    if a != [] { WithoutNone(a[1..], c); }
  }

  /** The deliveries that a run makes: each frame of a running loop, to all who are subscribed at that moment. */
  function Delivered(s: State, steps: seq<Step>): seq<Delivery>
    decreases |steps|
  {
    if steps == [] then []
    else
      var now := if steps[0].Deliver? && steps[0].k < |s.loops| && s.loops[steps[0].k].Running?
                 then [Delivery(steps[0].k, steps[0].frame, s.subscribers)] else [];
      now + Delivered(Apply(s, steps[0]), steps[1..])
  }

  /** No frame is lost, invented, or handed to anybody else. */
  lemma {:induction false} DeliveredToSubscribers(s: State, steps: seq<Step>)
    ensures Run(s, steps).deliveries == s.deliveries + Delivered(s, steps)
    decreases |steps|
  {
    if steps == [] {
      assert s.deliveries + [] == s.deliveries;
    } else {
      var r := Apply(s, steps[0]);
      OneDelivery(s, steps[0]);
      hide Apply;
      DeliveredToSubscribers(r, steps[1..]);
      var now := if steps[0].Deliver? && steps[0].k < |s.loops| && s.loops[steps[0].k].Running?
                 then [Delivery(steps[0].k, steps[0].frame, s.subscribers)] else [];
      Grouped(s.deliveries, now, Delivered(r, steps[1..]));
    }
  }

  lemma OneDelivery(s: State, step: Step)
    ensures Apply(s, step).deliveries == s.deliveries +
            if step.Deliver? && step.k < |s.loops| && s.loops[step.k].Running?
            then [Delivery(step.k, step.frame, s.subscribers)] else []
  {
    hide Without;
  }

  lemma Grouped(a: seq<Delivery>, b: seq<Delivery>, c: seq<Delivery>)
    ensures a + b + c == a + (b + c)
  {
  }

  /** Until Dispose, every frame goes to exactly the callbacks of the handles open at that moment. */
  lemma DeliveredToOpenHandles(before: seq<Step>, k: Loop, f: Frame)
    requires Dispose !in before
    requires k < |Run(INITIAL, before).loops| && Run(INITIAL, before).loops[k].Running?
    ensures var s, r := Run(INITIAL, before), Apply(Run(INITIAL, before), Deliver(k, f));
            exists targets: seq<Callback> :: r.deliveries == s.deliveries + [Delivery(k, f, targets)] &&
                              multiset(targets) == Callbacks(s.handles)
  {
    SubscribersAreOpenHandles(before);
    var s := Run(INITIAL, before);
    assert Apply(s, Deliver(k, f)).deliveries == s.deliveries + [Delivery(k, f, s.subscribers)];
  }

  /** A loop that has been cancelled may still deliver, to those who subscribed since. */
  lemma LateFrame(a: Callback, b: Callback, f: Frame)
    ensures var s := Run(INITIAL, [Subscribe(a), Start(0), DisposeHandle(0), Subscribe(b), Deliver(0, f)]);
            && s.cancelled == {0} && s.cts == Some(1) && s.loops == [Running, Waiting]
            && s.deliveries == [Delivery(0, f, [b])]
  {
    var s1 := Apply(INITIAL, Subscribe(a));
    assert s1 == State([a], Some(0), [Waiting], {}, {}, None, [Handle(a, false)], []);
    var s2 := Apply(s1, Start(0));
    assert s2 == s1.(loops := [Running]);
    var s3 := Apply(s2, DisposeHandle(0));
    assert s3 == State([], None, [Running], {0}, {}, None, [Handle(a, true)], []) by {
      assert Without([a], a) == [];
    }
    var s4 := Apply(s3, Subscribe(b));
    assert s4 == State([b], Some(1), [Running, Waiting], {0}, {}, None, [Handle(a, true), Handle(b, false)], []);
    var s5 := Apply(s4, Deliver(0, f));
    FiveSteps(INITIAL, Subscribe(a), Start(0), DisposeHandle(0), Subscribe(b), Deliver(0, f));
  }

  lemma FiveSteps(s: State, a: Step, b: Step, c: Step, d: Step, e: Step)
    ensures Run(s, [a, b, c, d, e]) == Apply(Apply(Apply(Apply(Apply(s, a), b), c), d), e)
  {
    hide Apply;
    var p := [a, b, c, d, e];
    assert p[1..] == [b, c, d, e] && [b, c, d, e][1..] == [c, d, e] && [c, d, e][1..] == [d, e];
    assert [d, e][1..] == [e] && [e][1..] == [];
    var s2 := Apply(Apply(s, a), b);
    assert Run(s, p) == Run(Apply(s, a), [b, c, d, e]) == Run(s2, [c, d, e]);
    assert Run(s2, [c, d, e]) == Run(Apply(s2, c), [d, e]) == Run(Apply(Apply(s2, c), d), [e]);
  }
}
