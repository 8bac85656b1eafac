/**
 * The lifecycle of the Rust client as a compare-and-swap protocol, together with the guard in front
 * of the transport. Every atomic load, compare-and-swap, lock section and request is one step; a
 * run is any interleaving of steps of any number of callers. Requests may fail.
 */
module Lifecycle {
  import opened Options

  type Caller = nat

  const CONNECTED := 0
  const READY := 1
  const SHUTTING_DOWN := 2
  const SHUTDOWN := 3

  /** Calls other than ready and shutdown; some test the lifecycle before the guard, players calls and pings do not. */
  datatype Call = Ready | Shutdown | Checked(name: string) | Unchecked(name: string)

  datatype Pc =
    | Idle
    | ReadyUsable
    | ReadyLoad
    | ReadyGuard
    | ReadySend
    | ReadySwap
    | ReadyStart
    | DownLoad
    | DownSwap(current: nat)
    | DownHealth
    | DownWatch
    | DownSend
    | DownStore
    | CallUsable(call: Call)
    | CallGuard(call: Call)
    | CallSend(call: Call)

  datatype Outcome = Done | NotConnected | RequestFailed

  /** A request handed to the inner transport, and whether it succeeded. */
  datatype Request = Request(caller: Caller, call: Call, ok: bool)

  datatype Reply = Reply(caller: Caller, call: Call, outcome: Outcome)

  /** What the atomics and locks hold, with counters for the events of interest. */
  datatype Shared = Shared(
    life: nat,
    claims: nat,
    readyWins: nat,
    starts: nat,
    healthStopped: bool,
    watchStopped: bool,
    downs: nat)

  datatype State = State(shared: Shared, callers: map<Caller, Pc>, requests: seq<Request>, replies: seq<Reply>)

  /** A caller enters a call, or makes its next step; ok says whether a request succeeds. */
  datatype Step = Begin(t: Caller, call: Call) | Move(t: Caller, ok: bool)

  const INITIAL := State(Shared(CONNECTED, 0, 0, 0, false, false, 0), map[], [], [])

  function PcOf(s: State, t: Caller): Pc {
    if t in s.callers then s.callers[t] else Idle
  }

  function Entry(call: Call): Pc {
    match call
    case Ready => ReadyUsable
    case Shutdown => DownLoad
    case Checked(_) => CallUsable(call)
    case Unchecked(_) => CallGuard(call)
  }

  /** What one step of one caller does: the shared state, its next place, a request and a reply. */
  datatype Effect = Effect(shared: Shared, pc: Pc, sent: Option<Call>, reply: Option<(Call, Outcome)>)

  function Goto(g: Shared, pc: Pc): Effect {
    Effect(g, pc, None, None)
  }

  function Return(g: Shared, call: Call, outcome: Outcome): Effect {
    Effect(g, Idle, None, Some((call, outcome)))
  }

  function Local(g: Shared, pc: Pc, ok: bool): Effect {
    match pc
    case Idle => Goto(g, Idle)
    case ReadyUsable =>
      if g.life >= SHUTTING_DOWN then Return(g, Ready, NotConnected) else Goto(g, ReadyLoad)
    case ReadyLoad =>
      if g.life == READY then Return(g, Ready, Done) else Goto(g, ReadyGuard)
    case ReadyGuard =>
      if g.life >= SHUTDOWN then Return(g, Ready, NotConnected) else Goto(g, ReadySend)
    case ReadySend =>
      if ok then Effect(g, ReadySwap, Some(Ready), None) else Effect(g, Idle, Some(Ready), Some((Ready, RequestFailed)))
    case ReadySwap =>
      if g.life == CONNECTED then Goto(g.(life := READY, readyWins := g.readyWins + 1), ReadyStart)
      else if g.life == READY then Return(g, Ready, Done)
      else Return(g, Ready, NotConnected)
    case ReadyStart =>
      Return(g.(starts := g.starts + 1), Ready, Done)
    case DownLoad =>
      if g.life >= SHUTTING_DOWN then Return(g, Shutdown, Done) else Goto(g, DownSwap(g.life))
    case DownSwap(current) =>
      if g.life == current then Goto(g.(life := SHUTTING_DOWN, claims := g.claims + 1), DownHealth)
      else Goto(g, DownLoad)
    case DownHealth => Goto(g.(healthStopped := true), DownWatch)
    case DownWatch => Goto(g.(watchStopped := true), DownSend)
    case DownSend => Effect(g.(downs := g.downs + 1), DownStore, Some(Shutdown), None)
    case DownStore => Return(g.(life := SHUTDOWN), Shutdown, Done)
    case CallUsable(call) =>
      if g.life >= SHUTTING_DOWN then Return(g, call, NotConnected) else Goto(g, CallGuard(call))
    case CallGuard(call) =>
      if g.life >= SHUTDOWN then Return(g, call, NotConnected) else Goto(g, CallSend(call))
    case CallSend(call) =>
      Effect(g, Idle, Some(call), Some((call, if ok then Done else RequestFailed)))
  }

  function StepEffect(s: State, step: Step): Effect {
    var pc := PcOf(s, step.t);
    match step
    case Begin(_, call) => Goto(s.shared, if pc.Idle? then Entry(call) else pc)
    case Move(_, ok) => Local(s.shared, pc, ok)
  }

  function Apply(s: State, step: Step): State {
    var e := StepEffect(s, step);
    State(e.shared, s.callers[step.t := e.pc],
          if e.sent.Some? then s.requests + [Request(step.t, e.sent.value, step.Move? && step.ok)] else s.requests,
          if e.reply.Some? then s.replies + [Reply(step.t, e.reply.value.0, e.reply.value.1)] else s.replies)
  }

  function Run(s: State, steps: seq<Step>): State
    decreases |steps|
  {
    if steps == [] then s else Run(Apply(s, steps[0]), steps[1..])
  }

  // ---------- safety ----------

  predicate Owner(pc: Pc) {
    pc.DownHealth? || pc.DownWatch? || pc.DownSend? || pc.DownStore?
  }

  /** The one caller that claimed the shutdown. */
  ghost predicate ClaimInv(s: State) {
    var g := s.shared;
    && g.life <= SHUTDOWN && g.claims <= 1
    && (g.claims == 1 <==> g.life >= SHUTTING_DOWN)
    && (forall t, u :: Owner(PcOf(s, t)) && Owner(PcOf(s, u)) ==> t == u)
    && (g.life == SHUTTING_DOWN <==> exists t :: Owner(PcOf(s, t)))
    && (forall t :: PcOf(s, t).DownSwap? ==> PcOf(s, t).current < SHUTTING_DOWN)
  }

  /** How far the owner of the shutdown has come. */
  predicate OwnerOk(g: Shared, pc: Pc) {
    && (pc.DownHealth? || pc.DownWatch? || pc.DownSend? ==> g.downs == 0)
    && (pc.DownWatch? || pc.DownSend? || pc.DownStore? ==> g.healthStopped)
    && (pc.DownSend? || pc.DownStore? ==> g.watchStopped)
    && (pc.DownStore? ==> g.downs == 1)
  }

  ghost predicate OrderInv(s: State) {
    var g := s.shared;
    && g.downs <= 1
    && (g.life < SHUTTING_DOWN ==> g.downs == 0)
    && (g.life == SHUTDOWN ==> g.downs == 1 && g.healthStopped && g.watchStopped)
    && (forall t :: OwnerOk(g, PcOf(s, t)))
  }

  /** The one ready that won its compare-and-swap. */
  ghost predicate ReadyInv(s: State) {
    var g := s.shared;
    && g.readyWins <= 1 && g.starts <= g.readyWins
    && (g.life == CONNECTED ==> g.readyWins == 0)
    && (forall t, u :: PcOf(s, t).ReadyStart? && PcOf(s, u).ReadyStart? ==> t == u)
    && (forall t :: PcOf(s, t).ReadyStart? ==> g.readyWins == 1 && g.starts == 0)
  }

  lemma PcAfter(s: State, step: Step)
    ensures PcOf(Apply(s, step), step.t) == StepEffect(s, step).pc
    ensures forall u :: u != step.t ==> PcOf(Apply(s, step), u) == PcOf(s, u)
  {
  }

  /** The four ways a step can concern the ownership of the shutdown. */
  lemma StepClaim(s: State, step: Step)
    requires ClaimInv(s)
    ensures var g, pc, e := s.shared, PcOf(s, step.t), StepEffect(s, step);
            && (Owner(pc) ==> g.life == SHUTTING_DOWN && e.shared.claims == g.claims)
            && (Owner(pc) && Owner(e.pc) ==> e.shared.life == SHUTTING_DOWN)
            && (Owner(pc) && !Owner(e.pc) ==> e.shared.life == SHUTDOWN)
            && (!Owner(pc) && Owner(e.pc) ==>
               g.life < SHUTTING_DOWN == e.shared.life && e.shared.claims == g.claims + 1)
            && (!Owner(pc) && !Owner(e.pc) ==>
                  e.shared.claims == g.claims && (e.shared.life == g.life || g.life < e.shared.life == READY))
            && (e.pc.DownSwap? ==> e.pc.current < SHUTTING_DOWN)
            && g.life <= e.shared.life
  {
  }

  lemma ClaimStep(s: State, step: Step)
    requires ClaimInv(s)
    ensures ClaimInv(Apply(s, step))
  {
    hide Local, Entry, Owner;
    PcAfter(s, step);
    StepClaim(s, step);
    var r, t := Apply(s, step), step.t;
    if s.shared.life == SHUTTING_DOWN {
      var u :| Owner(PcOf(s, u));
      assert r.shared.life == SHUTTING_DOWN ==> Owner(PcOf(r, u));
    }
    assert Owner(PcOf(r, t)) ==> r.shared.life == SHUTTING_DOWN;
  }

  lemma StepOrder(s: State, step: Step)
    requires OwnerOk(s.shared, PcOf(s, step.t))
    ensures var g, pc, e := s.shared, PcOf(s, step.t), StepEffect(s, step);
            && (Owner(pc) || (Owner(e.pc) && g.downs == 0) || !Owner(e.pc) ==> OwnerOk(e.shared, e.pc))
            && (!Owner(pc) ==>
               e.shared.downs == g.downs && e.shared.healthStopped == g.healthStopped
                   && e.shared.watchStopped == g.watchStopped)
            && (Owner(pc) ==> e.shared.downs <= 1)
            && (Owner(pc) && !Owner(e.pc) ==> e.shared.downs == 1 && e.shared.healthStopped && e.shared.watchStopped)
  {
  }

  lemma OrderStep(s: State, step: Step)
    requires ClaimInv(s) && OrderInv(s)
    ensures OrderInv(Apply(s, step))
  {
    hide Local, Entry;
    PcAfter(s, step);
    StepClaim(s, step);
    StepOrder(s, step);
    var r, t := Apply(s, step), step.t;
    forall u ensures OwnerOk(r.shared, PcOf(r, u)) {
      assert OwnerOk(s.shared, PcOf(s, u));
      if u != t && Owner(PcOf(s, u)) { assert !Owner(PcOf(s, t)); }
    }
  }

  lemma StepReady(s: State, step: Step)
    requires PcOf(s, step.t).ReadyStart? ==> s.shared.readyWins == 1 && s.shared.starts == 0
    requires s.shared.life == CONNECTED ==> s.shared.readyWins == 0
    ensures var g, pc, e := s.shared, PcOf(s, step.t), StepEffect(s, step);
            && (e.shared.life == CONNECTED ==> g.life == CONNECTED && e.shared.readyWins == 0)
            && (pc.ReadyStart? && !e.pc.ReadyStart? ==> e.shared.readyWins == 1 && e.shared.starts == 1)
            && (pc.ReadyStart? && e.pc.ReadyStart? ==> e.shared == g)
            && (!pc.ReadyStart? && e.pc.ReadyStart? ==>
               g.readyWins == 0 && e.shared.readyWins == 1 && e.shared.starts == g.starts && g.life == CONNECTED)
            && (!pc.ReadyStart? && !e.pc.ReadyStart? ==>
               e.shared.readyWins == g.readyWins && e.shared.starts == g.starts)
            && (g.life != CONNECTED ==> e.shared.readyWins == g.readyWins)
  {
  }

  lemma ReadyStep(s: State, step: Step)
    requires ClaimInv(s) && ReadyInv(s)
    ensures ReadyInv(Apply(s, step))
  {
    hide Local, Entry;
    PcAfter(s, step);
    StepReady(s, step);
  }

  lemma {:induction false} SafetyRun(s: State, steps: seq<Step>)
    requires ClaimInv(s) && OrderInv(s) && ReadyInv(s)
    ensures var r := Run(s, steps);
            && ClaimInv(r) && OrderInv(r) && ReadyInv(r) && s.shared.life <= r.shared.life
            && (s.shared.life >= SHUTTING_DOWN ==> r.shared.readyWins == s.shared.readyWins)
    decreases |steps|
  {
    hide ClaimInv, OrderInv, ReadyInv;
    if steps != [] {
      ClaimStep(s, steps[0]);
      OrderStep(s, steps[0]);
      ReadyStep(s, steps[0]);
      Monotone(s, steps[0]);
      SafetyRun(Apply(s, steps[0]), steps[1..]);
    }
  }

  lemma Monotone(s: State, step: Step)
    requires ClaimInv(s) && ReadyInv(s)
    ensures s.shared.life <= Apply(s, step).shared.life
    ensures s.shared.life >= SHUTTING_DOWN ==> Apply(s, step).shared.readyWins == s.shared.readyWins
  {
  }

  lemma InitialInv()
    ensures ClaimInv(INITIAL) && OrderInv(INITIAL) && ReadyInv(INITIAL)
  {
  }

  /**
   * Over all interleavings: the shutdown is claimed at most once and at most one shutdown request
   * is sent, after the health loop and the watch stream were stopped; the health loop is started at
   * most once; and every request list agrees with these counts.
   */
  lemma LifecycleSafety(steps: seq<Step>)
    ensures var s := Run(INITIAL, steps);
            var g := s.shared;
            && g.claims <= 1 && g.downs <= 1 && g.starts <= 1
            && (g.downs == 1 ==> g.healthStopped && g.watchStopped && g.claims == 1)
            && (g.life == SHUTDOWN ==> g.downs == 1)
            && g.downs == Count(s.requests)
  {
    hide Run, Count, Local;
    InitialInv();
    SafetyRun(INITIAL, steps);
    NoRequests();
    CountRun(INITIAL, steps);
    var s := Run(INITIAL, steps);
    if s.shared.downs == 1 && s.shared.life == SHUTTING_DOWN {
      var t :| Owner(PcOf(s, t));
      assert OwnerOk(s.shared, PcOf(s, t));
    }
  }

  lemma NoRequests()
    ensures Count([]) == 0
  {
  }

  /** The lifecycle never goes back, and no ready wins its compare-and-swap after the claim. */
  lemma LifecycleMonotone(before: seq<Step>, after: seq<Step>)
    ensures var s, r := Run(INITIAL, before), Run(Run(INITIAL, before), after);
            && s.shared.life <= r.shared.life
            && (s.shared.life >= SHUTTING_DOWN ==>
               r.shared.readyWins == s.shared.readyWins && r.shared.claims == s.shared.claims)
  {
    InitialInv();
    SafetyRun(INITIAL, before);
    SafetyRun(Run(INITIAL, before), after);
  }

  /** Shutdown requests actually sent. */
  function Count(requests: seq<Request>): nat {
    if requests == [] then 0
    else Count(requests[..|requests| - 1]) + if requests[|requests| - 1].call.Shutdown? then 1 else 0
  }

  ghost predicate CallsInv(s: State) {
    forall t :: (PcOf(s, t).CallUsable? || PcOf(s, t).CallGuard? || PcOf(s, t).CallSend?) ==> !PcOf(s, t).call.Shutdown?
  }

  lemma StepCalls(s: State, step: Step)
    requires CallsInv(s)
    ensures var e := StepEffect(s, step);
            && (e.pc.CallUsable? || e.pc.CallGuard? || e.pc.CallSend? ==> !e.pc.call.Shutdown?)
            && e.shared.downs == s.shared.downs + if e.sent == Some(Shutdown) then 1 else 0
  {
  }

  lemma CountStep(s: State, step: Step)
    requires CallsInv(s) && s.shared.downs == Count(s.requests)
    ensures CallsInv(Apply(s, step)) && Apply(s, step).shared.downs == Count(Apply(s, step).requests)
  {
    hide StepEffect, Count;
    PcAfter(s, step);
    StepCalls(s, step);
    if StepEffect(s, step).sent.Some? {
      CountSnoc(s.requests, Request(step.t, StepEffect(s, step).sent.value, step.Move? && step.ok));
    }
  }

  lemma CountSnoc(requests: seq<Request>, r: Request)
    ensures Count(requests + [r]) == Count(requests) + if r.call.Shutdown? then 1 else 0
  {
    assert (requests + [r])[..|requests|] == requests;
  }

  lemma {:induction false} CountRun(s: State, steps: seq<Step>)
    requires CallsInv(s) && s.shared.downs == Count(s.requests)
    ensures Run(s, steps).shared.downs == Count(Run(s, steps).requests)
    decreases |steps|
  {
    hide CallsInv, Count;
    if steps != [] {
      CountStep(s, steps[0]);
      CountRun(Apply(s, steps[0]), steps[1..]);
    }
  }

  // ---------- the guard ----------

  /** Still ahead of the guard of its call, or not in one. */
  predicate BeforeGuard(pc: Pc) {
    pc.Idle? || pc.ReadyUsable? || pc.ReadyLoad? || pc.ReadyGuard? || pc.CallUsable? || pc.CallGuard?
    || pc.DownLoad? || pc.DownSwap?
  }

  /** Requests and replies that a set of callers adds after a given point. */
  ghost predicate Silent(s: State, from: State, t: Caller) {
    && BeforeGuard(PcOf(s, t))
    && (forall i :: |from.requests| <= i < |s.requests| ==> s.requests[i].caller != t)
    && (forall i :: |from.replies| <= i < |s.replies| && s.replies[i].caller == t ==>
          s.replies[i].outcome.NotConnected? || s.replies[i].call.Shutdown?)
  }

  lemma SilentStep(s: State, from: State, t: Caller, step: Step)
    requires s.shared.life == SHUTDOWN && ClaimInv(s) && Silent(s, from, t)
    ensures Silent(Apply(s, step), from, t)
  {
  }

  lemma {:induction false} SilentRun(s: State, from: State, t: Caller, steps: seq<Step>)
    requires s.shared.life == SHUTDOWN && ClaimInv(s) && Silent(s, from, t)
    ensures Silent(Run(s, steps), from, t)
    decreases |steps|
  {
    hide Silent, ClaimInv, BeforeGuard;
    if steps != [] {
      SilentStep(s, from, t, steps[0]);
      ClaimStep(s, steps[0]);
      StepClaim(s, steps[0]);
      AtMostShutdown(Apply(s, steps[0]));
      SilentRun(Apply(s, steps[0]), from, t, steps[1..]);
    }
  }

  lemma AtMostShutdown(s: State)
    requires ClaimInv(s)
    ensures s.shared.life <= SHUTDOWN
  {
  }

  /**
   * Once SHUTDOWN is stored, a caller whose guard step comes later adds no request to the inner
   * transport, and every reply it gets, except to shutdown itself, is NotConnected. This covers the
   * pings of a health loop that is still scheduled.
   */
  lemma GuardSound(before: seq<Step>, after: seq<Step>, t: Caller)
    requires var s := Run(INITIAL, before);
             s.shared.life == SHUTDOWN && BeforeGuard(PcOf(s, t))
    ensures var s, r := Run(INITIAL, before), Run(Run(INITIAL, before), after);
            && (forall i :: |s.requests| <= i < |r.requests| ==> r.requests[i].caller != t)
            && (forall i :: |s.replies| <= i < |r.replies| && r.replies[i].caller == t ==>
                  r.replies[i].outcome.NotConnected? || r.replies[i].call.Shutdown?)
  {
    InitialInv();
    SafetyRun(INITIAL, before);
    SilentRun(Run(INITIAL, before), Run(INITIAL, before), t, after);
  }

  lemma {:induction false} RunAppend(s: State, a: seq<Step>, b: seq<Step>)
    ensures Run(s, a + b) == Run(Run(s, a), b)
    decreases |a|
  {
    hide Apply;
    if a == [] {
      assert a + b == b;
    } else {
      assert (a + b)[0] == a[0] && (a + b)[1..] == a[1..] + b;
      RunAppend(Apply(s, a[0]), a[1..], b);
    }
  }

  /** One caller claims the shutdown. */
  function Claim(): seq<Step> {
    [Begin(1, Shutdown), Move(1, true), Move(1, true)]
  }

  /** Another one's shutdown, and then a players call. */
  function AfterClaim(): seq<Step> {
    [Begin(2, Shutdown), Move(2, true), Begin(3, Unchecked("addValue")), Move(3, true), Move(3, true)]
  }

  lemma ClaimFirst()
    ensures var s := Run(INITIAL, Claim());
            s.shared == INITIAL.shared.(life := SHUTTING_DOWN, claims := 1) && s.callers == map[1 := DownHealth]
            && s.requests == [] && s.replies == []
  {
  }

  lemma CallsAfterClaim(s: State)
    requires s.shared.life == SHUTTING_DOWN && PcOf(s, 2).Idle? && PcOf(s, 3).Idle? && s.requests == []
             && s.replies == []
    ensures var r := Run(s, AfterClaim());
            && r.shared == s.shared && r.requests == [Request(3, Unchecked("addValue"), true)]
            && r.replies == [Reply(2, Shutdown, Done), Reply(3, Unchecked("addValue"), Done)]
  {
  }

  /**
   * A shutdown that finds the claim taken returns before the shutdown is complete: players calls
   * made afterwards may still reach the runtime, because their guard only looks for SHUTDOWN.
   */
  lemma SecondShutdownReturnsEarly()
    ensures var s := Run(INITIAL, Claim() + AfterClaim());
            && s.shared.life == SHUTTING_DOWN
            && s.replies == [Reply(2, Shutdown, Done), Reply(3, Unchecked("addValue"), Done)]
            && s.requests == [Request(3, Unchecked("addValue"), true)]
  {
    hide Run;
    RunAppend(INITIAL, Claim(), AfterClaim());
    ClaimFirst();
    CallsAfterClaim(Run(INITIAL, Claim()));
  }

  // ---------- what the return of a shutdown is worth ----------

  /** Replies to shutdown exist only after the claim. */
  ghost predicate ReturnInv(s: State) {
    forall i :: 0 <= i < |s.replies| && s.replies[i].call.Shutdown? ==> s.shared.life >= SHUTTING_DOWN
  }

  lemma StepReturn(s: State, step: Step)
    requires CallsInv(s) && ClaimInv(s)
    ensures var e := StepEffect(s, step);
            e.reply.Some? && e.reply.value.0.Shutdown? ==> e.shared.life >= SHUTTING_DOWN
  {
    assert var pc := PcOf(s, step.t); (pc.CallUsable? || pc.CallGuard? || pc.CallSend?) ==> !pc.call.Shutdown?;
    assert PcOf(s, step.t).DownStore? ==> Owner(PcOf(s, step.t));
  }

  lemma ReturnStep(s: State, step: Step)
    requires CallsInv(s) && ClaimInv(s) && ReturnInv(s)
    ensures ReturnInv(Apply(s, step))
  {
    StepReturn(s, step);
    StepClaim(s, step);
    hide Local, Entry, CallsInv, ClaimInv;
  }

  lemma {:induction false} ReturnRun(s: State, steps: seq<Step>)
    requires CallsInv(s) && ClaimInv(s) && ReturnInv(s) && s.shared.downs == Count(s.requests)
    ensures ReturnInv(Run(s, steps))
    decreases |steps|
  {
    hide CallsInv, ClaimInv, ReturnInv, Count;
    if steps != [] {
      ReturnStep(s, steps[0]);
      ClaimStep(s, steps[0]);
      CountStep(s, steps[0]);
      ReturnRun(Apply(s, steps[0]), steps[1..]);
    }
  }

  ghost predicate Sends(s: State, r: State, t: Caller) {
    exists i :: |s.requests| <= i < |r.requests| && r.requests[i].caller == t
  }

  /** A players call made from idle by one caller alone. */
  function PlayersCall(t: Caller): seq<Step> {
    [Begin(t, Unchecked("addValue")), Move(t, true), Move(t, true)]
  }

  lemma PlayersCallSends(s: State, t: Caller)
    requires PcOf(s, t).Idle? && s.shared.life < SHUTDOWN
    ensures Run(s, PlayersCall(t)).requests == s.requests + [Request(t, Unchecked("addValue"), true)]
  {
    var p := PlayersCall(t);
    var s1 := Apply(s, p[0]);
    var s2 := Apply(s1, p[1]);
    assert PcOf(s2, t) == CallSend(Unchecked("addValue")) && s2.requests == s.requests;
    assert p == [p[0]] + ([p[1]] + [p[2]]);
    RunAppend(s, [p[0]], [p[1]] + [p[2]]);
    RunAppend(s1, [p[1]], [p[2]]);
    assert Run(s, [p[0]]) == s1 && Run(s1, [p[1]]) == s2;
  }

  /**
   * After a shutdown has returned to anyone, an idle caller can no longer reach the runtime, by any
   * continuation, exactly when no claimed shutdown is still under way.
   */
  lemma ReturnSilencesIff(before: seq<Step>, t: Caller)
    requires var s := Run(INITIAL, before);
             PcOf(s, t).Idle? && exists i :: 0 <= i < |s.replies| && s.replies[i].call.Shutdown?
    ensures var s := Run(INITIAL, before);
            (forall after: seq<Step> :: !Sends(s, Run(s, after), t)) <==> (forall u :: !Owner(PcOf(s, u)))
  {
    hide Run, Local, Count;
    var s := Run(INITIAL, before);
    InitialInv();
    SafetyRun(INITIAL, before);
    NoRequests();
    ReturnRun(INITIAL, before);
    if u :| Owner(PcOf(s, u)) {
      PlayersCallSends(s, t);
      var r := Run(s, PlayersCall(t));
      assert r.requests[|s.requests|].caller == t;
      assert Sends(s, r, t);
    } else {
      assert s.shared.life == SHUTDOWN;
      forall after: seq<Step> ensures !Sends(s, Run(s, after), t) {
        GuardSound(before, after, t);
      }
    }
  }
}
