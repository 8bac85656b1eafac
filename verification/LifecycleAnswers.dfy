/** What the callers of the lifecycle are told, and what their requests have to do with it. */
module LifecycleAnswers {
  import opened Options
  import opened Lifecycle

  // ---------- every run ----------

  /** A request to become ready has succeeded. */
  ghost predicate ReadySucceeded(requests: seq<Request>) {
    exists i :: 0 <= i < |requests| && requests[i].call.Ready? && requests[i].ok
  }

  /** Winning a ready takes a successful request, and a start of the health loop follows it. */
  ghost predicate WinInv(s: State) {
    var g := s.shared;
    && (g.life == READY ==> g.readyWins == 1)
    && (g.readyWins > 0 ==> ReadySucceeded(s.requests))
    && (forall t :: PcOf(s, t).ReadySwap? || PcOf(s, t).ReadyStart? ==> ReadySucceeded(s.requests))
    && (g.starts == g.readyWins || exists t :: PcOf(s, t).ReadyStart?)
  }

  /** What each kind of reply says about the lifecycle. */
  ghost predicate ReplyInv(s: State) {
    forall i :: 0 <= i < |s.replies| ==>
      && (s.replies[i].outcome.NotConnected? ==> s.shared.life >= SHUTTING_DOWN && !s.replies[i].call.Shutdown?)
      && (s.replies[i].call.Ready? && s.replies[i].outcome.Done? ==> s.shared.readyWins > 0)
      && (s.replies[i].call.Shutdown? ==> s.shared.life >= SHUTTING_DOWN && s.replies[i].outcome.Done?)
  }

  /** The calls that callers are in are their own, not ready or shutdown. */
  ghost predicate PlainInv(s: State) {
    forall t :: var pc := PcOf(s, t);
                pc.CallUsable? || pc.CallGuard? || pc.CallSend? ==> !pc.call.Shutdown? && !pc.call.Ready?
  }

  lemma RequestsGrow(requests: seq<Request>, r: Request)
    ensures ReadySucceeded(requests) ==> ReadySucceeded(requests + [r])
    ensures r.call.Ready? && r.ok ==> ReadySucceeded(requests + [r])
  {
    if ReadySucceeded(requests) {
      var i :| 0 <= i < |requests| && requests[i].call.Ready? && requests[i].ok;
      assert (requests + [r])[i] == requests[i];
    }
    assert (requests + [r])[|requests|] == r;
  }

  /** What one step has to do with a ready that wins. */
  lemma StepWin(s: State, step: Step)
    requires ClaimInv(s) && ReadyInv(s)
    ensures var g, pc, e := s.shared, PcOf(s, step.t), StepEffect(s, step);
            && (e.shared.life == READY ==> g.life == READY || e.shared.readyWins == g.readyWins + 1)
            && (e.shared.readyWins != g.readyWins ==>
                  pc.ReadySwap? && e.pc.ReadyStart? && g.readyWins == 0 && e.shared.readyWins == 1)
            && (e.pc.ReadySwap? && !pc.ReadySwap? ==> e.sent == Some(Ready) && step.Move? && step.ok)
            && (e.pc.ReadySwap? && pc.ReadySwap? ==> e.shared == g)
            && (e.pc.ReadyStart? ==> pc.ReadySwap? || pc.ReadyStart?)
            && (e.shared.starts != g.starts ==> pc.ReadyStart? && e.shared.starts == g.starts + 1)
            && (pc.ReadyStart? && !e.pc.ReadyStart? ==> e.shared.starts == g.starts + 1)
  {
  }

  lemma WinStep(s: State, step: Step)
    requires ClaimInv(s) && ReadyInv(s) && WinInv(s)
    ensures WinInv(Apply(s, step))
  {
    StepWin(s, step);
    PcAfter(s, step);
    var e, r := StepEffect(s, step), Apply(s, step);
    if e.sent.Some? { RequestsGrow(s.requests, Request(step.t, e.sent.value, step.Move? && step.ok)); }
    hide StepEffect, ClaimInv, ReadySucceeded;
    if u :| PcOf(s, u).ReadyStart? {
      assert u != step.t ==> PcOf(r, u).ReadyStart?;
    }
  }

  lemma StepReply(s: State, step: Step)
    requires ClaimInv(s) && ReadyInv(s) && WinInv(s) && PlainInv(s)
    ensures var e := StepEffect(s, step);
            && s.shared.life <= e.shared.life && s.shared.readyWins <= e.shared.readyWins
            && (e.pc.CallUsable? || e.pc.CallGuard? || e.pc.CallSend? ==> !e.pc.call.Shutdown? && !e.pc.call.Ready?)
            && (e.reply.Some? ==> var (call, outcome) := e.reply.value;
                && (outcome.NotConnected? ==> e.shared.life >= SHUTTING_DOWN && !call.Shutdown?)
                && (call.Ready? && outcome.Done? ==> e.shared.readyWins > 0)
                && (call.Shutdown? ==> e.shared.life >= SHUTTING_DOWN && outcome.Done?))
  {
    assert PcOf(s, step.t).DownStore? ==> Owner(PcOf(s, step.t));
    hide ReadySucceeded;
  }

  lemma ReplyStep(s: State, step: Step)
    requires ClaimInv(s) && ReadyInv(s) && WinInv(s) && PlainInv(s) && ReplyInv(s)
    ensures PlainInv(Apply(s, step)) && ReplyInv(Apply(s, step))
  {
    StepReply(s, step);
    PcAfter(s, step);
    hide StepEffect, ClaimInv, ReadyInv, WinInv;
  }

  ghost predicate AnswersInv(s: State) {
    ClaimInv(s) && OrderInv(s) && ReadyInv(s) && WinInv(s) && PlainInv(s) && ReplyInv(s)
  }

  lemma {:induction false} AnswersRun(s: State, steps: seq<Step>)
    requires AnswersInv(s)
    ensures AnswersInv(Run(s, steps))
    decreases |steps|
  {
    hide ClaimInv, OrderInv, ReadyInv, WinInv, PlainInv, ReplyInv;
    if steps != [] {
      ClaimStep(s, steps[0]);
      OrderStep(s, steps[0]);
      ReadyStep(s, steps[0]);
      WinStep(s, steps[0]);
      ReplyStep(s, steps[0]);
      AnswersRun(Apply(s, steps[0]), steps[1..]);
    }
  }

  lemma Reachable(steps: seq<Step>)
    ensures AnswersInv(Run(INITIAL, steps))
  {
    InitialInv();
    AnswersRun(INITIAL, steps);
  }

  /**
   * Over all interleavings: the server becomes ready only after a request to become ready succeeded;
   * whoever won that race starts the health loop exactly once; a caller of ready is told Done only
   * if somebody won; NotConnected is told only from the claim of a shutdown on, and never to
   * shutdown itself, which never fails.
   */
  lemma ReadyIsEarned(steps: seq<Step>)
    ensures var s := Run(INITIAL, steps);
            var g := s.shared;
            && (g.life == READY ==> g.readyWins == 1)
            && (g.readyWins > 0 ==> ReadySucceeded(s.requests))
            && (g.starts == g.readyWins || exists t :: PcOf(s, t).ReadyStart?)
            && (forall i :: 0 <= i < |s.replies| ==>
                  && (s.replies[i].call.Ready? && s.replies[i].outcome.Done? ==> g.readyWins == 1)
                  && (s.replies[i].outcome.NotConnected? ==> g.life >= SHUTTING_DOWN)
                  && (s.replies[i].call.Shutdown? ==> g.life >= SHUTTING_DOWN && s.replies[i].outcome.Done?))
  {
    hide Run, ReadySucceeded;
    Reachable(steps);
  }

  /**
   * Over all interleavings: a step tells somebody RequestFailed exactly when it is the failure of a
   * request other than shutdown, and then it tells the caller of that request; the success of a
   * request is told at once, except that ready has its race still to run.
   */
  lemma FailuresAreTold(before: seq<Step>, step: Step)
    ensures var s := Run(INITIAL, before);
            var r := Apply(s, step);
            var sent, told := r.requests[|s.requests|..], r.replies[|s.replies|..];
            && |sent| <= 1 && |told| <= 1
            && r.requests[..|s.requests|] == s.requests && r.replies[..|s.replies|] == s.replies
            && ((told != [] && told[0].outcome.RequestFailed?) <==>
               (sent != [] && !sent[0].ok && !sent[0].call.Shutdown?))
            && (told != [] && told[0].outcome.RequestFailed? ==>
                  told[0].caller == sent[0].caller && told[0].call == sent[0].call)
            && (sent != [] && sent[0].ok ==>
                  told == if sent[0].call.Ready? || sent[0].call.Shutdown? then []
                          else [Reply(sent[0].caller, sent[0].call, Done)])
            && (sent != [] ==> step == Move(sent[0].caller, sent[0].ok))
  {
    Reachable(before);
    var s := Run(INITIAL, before);
    StepTold(s, step);
  }

  lemma StepTold(s: State, step: Step)
    requires PlainInv(s)
    ensures var e := StepEffect(s, step);
            && ((e.reply.Some? && e.reply.value.1.RequestFailed?) <==>
               (e.sent.Some? && !e.sent.value.Shutdown? && step.Move? && !step.ok))
            && (e.reply.Some? && e.reply.value.1.RequestFailed? ==> e.reply.value.0 == e.sent.value)
            && (e.sent.Some? && step.Move? && step.ok ==>
                  e.reply == if e.sent.value.Ready? || e.sent.value.Shutdown? then None
                             else Some((e.sent.value, Done)))
            && (e.sent.Some? ==> step.Move?)
  {
  }

  // ---------- one caller alone ----------

  /** One caller makes n steps, with nobody in between. */
  function Moves(t: Caller, ok: bool, n: nat): seq<Step> {
    seq(n, _ => Move(t, ok))
  }

  /** A call with all the steps it needs; a caller that has returned makes no more. */
  function Alone(t: Caller, call: Call, ok: bool): seq<Step> {
    [Begin(t, call)] + Moves(t, ok, 6)
  }

  /** Where some steps of one caller lead: the shared state, its place, its requests and its replies. */
  datatype Solo = Solo(shared: Shared, pc: Pc, sent: seq<Request>, told: seq<Reply>)

  function After(t: Caller, ok: bool, e: Effect, rest: Solo): Solo {
    rest.(sent := (if e.sent.Some? then [Request(t, e.sent.value, ok)] else []) + rest.sent,
          told := (if e.reply.Some? then [Reply(t, e.reply.value.0, e.reply.value.1)] else []) + rest.told)
  }

  function SoloMoves(t: Caller, ok: bool, g: Shared, pc: Pc, n: nat): Solo
    decreases n
  {
    if n == 0 then Solo(g, pc, [], [])
    else
      var e := Local(g, pc, ok);
      After(t, ok, e, SoloMoves(t, ok, e.shared, e.pc, n - 1))
  }

  /** The run r adds to s what the steps of one caller alone do. */
  ghost predicate Adds(s: State, r: State, t: Caller, solo: Solo) {
    && r.shared == solo.shared && PcOf(r, t) == solo.pc
    && r.requests == s.requests + solo.sent && r.replies == s.replies + solo.told
    && forall u :: u != t ==> PcOf(r, u) == PcOf(s, u)
  }

  lemma AddsFirst(s: State, t: Caller, ok: bool, r: State, rest: Solo)
    requires Adds(Apply(s, Move(t, ok)), r, t, rest)
    ensures Adds(s, r, t, After(t, ok, Local(s.shared, PcOf(s, t), ok), rest))
  {
    PcAfter(s, Move(t, ok));
    hide Local;
    var e := Local(s.shared, PcOf(s, t), ok);
    var all := After(t, ok, e, rest);
    assert r.requests == s.requests + all.sent;
    assert r.replies == s.replies + all.told;
  }

  lemma {:induction false} SoloRun(s: State, t: Caller, ok: bool, n: nat)
    ensures Adds(s, Run(s, Moves(t, ok, n)), t, SoloMoves(t, ok, s.shared, PcOf(s, t), n))
    decreases n
  {
    hide Local, After;
    if n > 0 {
      assert Moves(t, ok, n)[0] == Move(t, ok) && Moves(t, ok, n)[1..] == Moves(t, ok, n - 1);
      var m := Apply(s, Move(t, ok));
      SoloRun(m, t, ok, n - 1);
      PcAfter(s, Move(t, ok));
      AddsFirst(s, t, ok, Run(m, Moves(t, ok, n - 1)), SoloMoves(t, ok, m.shared, PcOf(m, t), n - 1));
    }
  }

  lemma {:induction false} SoloIdle(t: Caller, ok: bool, g: Shared, n: nat)
    ensures SoloMoves(t, ok, g, Idle, n) == Solo(g, Idle, [], [])
    decreases n
  {
    if n > 0 { SoloIdle(t, ok, g, n - 1); }
  }

  /** A call made from idle, with nobody in between, is the solo run from its entry. */
  lemma AloneRun(s: State, t: Caller, call: Call, ok: bool)
    requires PcOf(s, t).Idle?
    ensures Adds(s, Run(s, Alone(t, call, ok)), t, SoloMoves(t, ok, s.shared, Entry(call), 6))
  {
    hide Local, SoloMoves;
    var m := Apply(s, Begin(t, call));
    assert Alone(t, call, ok)[1..] == Moves(t, ok, 6);
    SoloRun(m, t, ok, 6);
    PcAfter(s, Begin(t, call));
  }

  lemma SoloStep(t: Caller, ok: bool, g: Shared, pc: Pc, n: nat)
    requires n > 0
    ensures var e := Local(g, pc, ok);
            && (e.sent.None? && e.reply.None? ==>
                  SoloMoves(t, ok, g, pc, n) == SoloMoves(t, ok, e.shared, e.pc, n - 1))
            && (e.pc.Idle? ==>
                  SoloMoves(t, ok, g, pc, n) == After(t, ok, e, Solo(e.shared, Idle, [], [])))
            && (e.sent.Some? && e.reply.None? ==>
                  SoloMoves(t, ok, g, pc, n) == After(t, ok, e, SoloMoves(t, ok, e.shared, e.pc, n - 1)))
  {
    hide Local;
    var e := Local(g, pc, ok);
    SoloIdle(t, ok, e.shared, n - 1);
    var rest := SoloMoves(t, ok, e.shared, e.pc, n - 1);
    assert [] + rest.sent == rest.sent && [] + rest.told == rest.told;
  }

  lemma SoloReady(t: Caller, ok: bool, g: Shared)
    requires g.life <= SHUTDOWN
    ensures SoloMoves(t, ok, g, ReadyUsable, 6) ==
            if g.life >= SHUTTING_DOWN then Solo(g, Idle, [], [Reply(t, Ready, NotConnected)])
            else if g.life == READY then Solo(g, Idle, [], [Reply(t, Ready, Done)])
            else if ok then
              Solo(g.(life := READY, readyWins := g.readyWins + 1, starts := g.starts + 1), Idle,
                   [Request(t, Ready, true)], [Reply(t, Ready, Done)])
            else Solo(g, Idle, [Request(t, Ready, false)], [Reply(t, Ready, RequestFailed)])
  {
    hide SoloMoves;
    SoloStep(t, ok, g, ReadyUsable, 6);
    SoloStep(t, ok, g, ReadyLoad, 5);
    SoloStep(t, ok, g, ReadyGuard, 4);
    SoloStep(t, ok, g, ReadySend, 3);
    SoloStep(t, ok, g, ReadySwap, 2);
    SoloStep(t, ok, g.(life := READY, readyWins := g.readyWins + 1), ReadyStart, 1);
  }

  lemma SoloShutdown(t: Caller, ok: bool, g: Shared)
    requires g.life <= SHUTDOWN
    ensures SoloMoves(t, ok, g, DownLoad, 6) ==
            if g.life >= SHUTTING_DOWN then Solo(g, Idle, [], [Reply(t, Shutdown, Done)])
            else Solo(g.(life := SHUTDOWN, claims := g.claims + 1, downs := g.downs + 1,
                         healthStopped := true, watchStopped := true), Idle,
                      [Request(t, Shutdown, ok)], [Reply(t, Shutdown, Done)])
  {
    hide SoloMoves;
    SoloStep(t, ok, g, DownLoad, 6);
    SoloStep(t, ok, g, DownSwap(g.life), 5);
    var g1 := g.(life := SHUTTING_DOWN, claims := g.claims + 1);
    SoloStep(t, ok, g1, DownHealth, 4);
    var g2 := g1.(healthStopped := true);
    SoloStep(t, ok, g2, DownWatch, 3);
    var g3 := g2.(watchStopped := true);
    SoloStep(t, ok, g3, DownSend, 2);
    SoloStep(t, ok, g3.(downs := g3.downs + 1), DownStore, 1);
  }

  lemma SoloCall(t: Caller, ok: bool, g: Shared, call: Call)
    requires (call.Checked? || call.Unchecked?) && g.life <= SHUTDOWN
    ensures SoloMoves(t, ok, g, Entry(call), 6) ==
            if g.life == SHUTDOWN || (call.Checked? && g.life == SHUTTING_DOWN)
            then Solo(g, Idle, [], [Reply(t, call, NotConnected)])
            else Solo(g, Idle, [Request(t, call, ok)], [Reply(t, call, if ok then Done else RequestFailed)])
  {
    hide SoloMoves;
    SoloStep(t, ok, g, CallUsable(call), 6);
    SoloStep(t, ok, g, CallGuard(call), 6);
    SoloStep(t, ok, g, CallGuard(call), 5);
    SoloStep(t, ok, g, CallSend(call), 5);
    SoloStep(t, ok, g, CallSend(call), 4);
  }

  /**
   * What a call does when nobody interferes, from every state: ready makes a connected server ready
   * and starts the health loop if its request succeeds, and otherwise leaves it connected; on a ready
   * server it does nothing.
   */
  lemma ReadyAlone(s: State, t: Caller, ok: bool)
    requires PcOf(s, t).Idle? && s.shared.life <= SHUTDOWN
    ensures var g, r := s.shared, Run(s, Alone(t, Ready, ok));
            if g.life >= SHUTTING_DOWN then Adds(s, r, t, Solo(g, Idle, [], [Reply(t, Ready, NotConnected)]))
            else if g.life == READY then Adds(s, r, t, Solo(g, Idle, [], [Reply(t, Ready, Done)]))
            else if ok then
              Adds(s, r, t, Solo(g.(life := READY, readyWins := g.readyWins + 1, starts := g.starts + 1), Idle,
                                 [Request(t, Ready, true)], [Reply(t, Ready, Done)]))
            else Adds(s, r, t, Solo(g, Idle, [Request(t, Ready, false)], [Reply(t, Ready, RequestFailed)]))
  {
    hide Run, SoloMoves, Adds, Alone;
    AloneRun(s, t, Ready, ok);
    SoloReady(t, ok, s.shared);
  }

  /** Shutdown takes a server all the way down once, whether or not its request succeeds. */
  lemma ShutdownAlone(s: State, t: Caller, ok: bool)
    requires PcOf(s, t).Idle? && s.shared.life <= SHUTDOWN
    ensures var g, r := s.shared, Run(s, Alone(t, Shutdown, ok));
            if g.life >= SHUTTING_DOWN then Adds(s, r, t, Solo(g, Idle, [], [Reply(t, Shutdown, Done)]))
            else Adds(s, r, t, Solo(g.(life := SHUTDOWN, claims := g.claims + 1, downs := g.downs + 1,
                                       healthStopped := true, watchStopped := true), Idle,
                                    [Request(t, Shutdown, ok)], [Reply(t, Shutdown, Done)]))
  {
    hide Run, SoloMoves, Adds, Alone;
    AloneRun(s, t, Shutdown, ok);
    SoloShutdown(t, ok, s.shared);
  }

  /** Any other call is refused from the claim of a shutdown on, or only from its end. */
  lemma CallAlone(s: State, t: Caller, call: Call, ok: bool)
    requires PcOf(s, t).Idle? && (call.Checked? || call.Unchecked?) && s.shared.life <= SHUTDOWN
    ensures var g, r := s.shared, Run(s, Alone(t, call, ok));
            if g.life == SHUTDOWN || (call.Checked? && g.life == SHUTTING_DOWN)
            then Adds(s, r, t, Solo(g, Idle, [], [Reply(t, call, NotConnected)]))
            else Adds(s, r, t, Solo(g, Idle, [Request(t, call, ok)],
                                    [Reply(t, call, if ok then Done else RequestFailed)]))
  {
    hide Run, SoloMoves, Adds, Alone;
    AloneRun(s, t, call, ok);
    SoloCall(t, ok, s.shared, call);
  }

  // ---------- callers under way when a shutdown is claimed ----------

  /** Not past the test of the lifecycle at the entry of a call, if the call has one. */
  predicate AheadOfTest(pc: Pc) {
    pc.Idle? || pc.ReadyUsable? || pc.CallUsable? || pc.DownLoad? || pc.DownSwap?
    || ((pc.CallGuard? || pc.CallSend?) && pc.call.Unchecked?)
  }

  ghost predicate OnlyUnchecked(s: State, r: State, t: Caller) {
    forall i :: |s.requests| <= i < |r.requests| && r.requests[i].caller == t ==> r.requests[i].call.Unchecked?
  }

  lemma {:induction false} UncheckedRun(s: State, r: State, t: Caller, steps: seq<Step>)
    requires r.shared.life >= SHUTTING_DOWN && AheadOfTest(PcOf(r, t)) && OnlyUnchecked(s, r, t)
    requires ClaimInv(r)
    ensures OnlyUnchecked(s, Run(r, steps), t)
    decreases |steps|
  {
    hide ClaimInv, OnlyUnchecked, AheadOfTest;
    if steps != [] {
      UncheckedStep(s, r, t, steps[0]);
      ClaimStep(r, steps[0]);
      UncheckedRun(s, Apply(r, steps[0]), t, steps[1..]);
    }
  }

  lemma UncheckedStep(s: State, r: State, t: Caller, step: Step)
    requires r.shared.life >= SHUTTING_DOWN && AheadOfTest(PcOf(r, t)) && OnlyUnchecked(s, r, t)
    requires ClaimInv(r)
    ensures var q := Apply(r, step);
            q.shared.life >= SHUTTING_DOWN && AheadOfTest(PcOf(q, t)) && OnlyUnchecked(s, q, t)
  {
    StepClaim(r, step);
    PcAfter(r, step);
    assert PcOf(r, t).DownSwap? ==> PcOf(r, t).current < SHUTTING_DOWN;
    hide ClaimInv, OnlyUnchecked;
    assert step.t == t ==> AheadOfTest(StepEffect(r, step).pc);
    UncheckedGrows(s, r, t, step);
  }

  lemma UncheckedGrows(s: State, r: State, t: Caller, step: Step)
    requires r.shared.life >= SHUTTING_DOWN && AheadOfTest(PcOf(r, t)) && OnlyUnchecked(s, r, t)
    ensures OnlyUnchecked(s, Apply(r, step), t)
  {
    assert step.t == t && StepEffect(r, step).sent.Some? ==> StepEffect(r, step).sent.value.Unchecked?;
    hide StepEffect, AheadOfTest;
  }

  /**
   * From the claim of a shutdown on, a caller that has not passed the test of the lifecycle sends no
   * request any more, whatever happens, except for the calls that make no such test.
   */
  lemma ClaimStopsTested(before: seq<Step>, after: seq<Step>, t: Caller)
    requires var s := Run(INITIAL, before);
             s.shared.life >= SHUTTING_DOWN && AheadOfTest(PcOf(s, t))
    ensures var s, r := Run(INITIAL, before), Run(Run(INITIAL, before), after);
            forall i :: |s.requests| <= i < |r.requests| && r.requests[i].caller == t ==>
              r.requests[i].call.Unchecked?
  {
    Reachable(before);
    UncheckedRun(Run(INITIAL, before), Run(INITIAL, before), t, after);
  }

  /** A ready under way when the shutdown is claimed still sends its request, and is told NotConnected. */
  lemma ReadyDuringShutdown()
    ensures var s := Run(INITIAL, EarlyReady() + Claim() + Moves(2, true, 3));
            && s.shared.life == SHUTTING_DOWN && s.shared.starts == 0
            && s.requests == [Request(2, Ready, true)] && s.replies == [Reply(2, Ready, NotConnected)]
  {
    var early := Run(INITIAL, EarlyReady());
    assert early.shared == INITIAL.shared && PcOf(early, 2) == ReadyGuard && PcOf(early, 1) == Idle
           && early.requests == [] && early.replies == [];
    RunAppend(INITIAL, EarlyReady(), Claim());
    var claimed := Run(early, Claim());
    ClaimOver(early);
    RunAppend(INITIAL, EarlyReady() + Claim(), Moves(2, true, 3));
    SoloRun(claimed, 2, true, 3);
    LateReady(claimed.shared);
    hide Run;
    assert Adds(claimed, Run(claimed, Moves(2, true, 3)), 2,
                Solo(claimed.shared, Idle, [Request(2, Ready, true)], [Reply(2, Ready, NotConnected)]));
  }

  /** A ready that has seen a connected server and stands before its guard. */
  function EarlyReady(): seq<Step> {
    [Begin(2, Ready), Move(2, true), Move(2, true)]
  }

  lemma ClaimSteps(s: State)
    ensures Run(s, Claim()) == Run(Apply(s, Begin(1, Shutdown)), Moves(1, true, 2))
  {
    hide Apply;
    assert Claim()[0] == Begin(1, Shutdown) && Claim()[1..] == Moves(1, true, 2);
  }

  lemma ClaimSolo(t: Caller, ok: bool, g: Shared)
    requires g.life < SHUTTING_DOWN
    ensures SoloMoves(t, ok, g, DownLoad, 2) ==
            Solo(g.(life := SHUTTING_DOWN, claims := g.claims + 1), DownHealth, [], [])
  {
    hide SoloMoves;
    SoloStep(t, ok, g, DownLoad, 2);
    SoloStep(t, ok, g, DownSwap(g.life), 1);
    SoloNone(t, ok, g.(life := SHUTTING_DOWN, claims := g.claims + 1), DownHealth);
  }

  lemma ClaimOver(s: State)
    requires s.shared.life < SHUTTING_DOWN && PcOf(s, 1) == Idle && PcOf(s, 2) == ReadyGuard
    ensures var r := Run(s, Claim());
            && r.shared == s.shared.(life := SHUTTING_DOWN, claims := s.shared.claims + 1)
            && PcOf(r, 2) == ReadyGuard && r.requests == s.requests && r.replies == s.replies
  {
    var m := Apply(s, Begin(1, Shutdown));
    PcAfter(s, Begin(1, Shutdown));
    ClaimSteps(s);
    hide Run, SoloMoves, Claim, Moves, Local;
    SoloRun(m, 1, true, 2);
    ClaimSolo(1, true, m.shared);
  }

  lemma SoloNone(t: Caller, ok: bool, g: Shared, pc: Pc)
    ensures SoloMoves(t, ok, g, pc, 0) == Solo(g, pc, [], [])
  {
  }

  lemma LateReady(g: Shared)
    requires g.life == SHUTTING_DOWN
    ensures SoloMoves(2, true, g, ReadyGuard, 3) ==
            Solo(g, Idle, [Request(2, Ready, true)], [Reply(2, Ready, NotConnected)])
  {
    hide SoloMoves;
    SoloStep(2, true, g, ReadyGuard, 3);
    SoloStep(2, true, g, ReadySend, 2);
    SoloStep(2, true, g, ReadySwap, 1);
  }

  /** A shutdown whose swap comes after somebody's ready starts over, and claims with the next two steps. */
  lemma ShutdownStartsOver(s: State, t: Caller, u: Caller, ok: bool)
    requires PcOf(s, t) == DownSwap(CONNECTED) && PcOf(s, u).Idle? && s.shared.life == CONNECTED
    ensures var m := Run(s, Alone(u, Ready, true));
            var r := Apply(m, Move(t, ok));
            && m.shared.life == READY && r.shared == m.shared && PcOf(r, t).DownLoad?
            && Run(r, Moves(t, ok, 2)).shared == m.shared.(life := SHUTTING_DOWN, claims := m.shared.claims + 1)
  {
    ReadyAlone(s, u, true);
    hide Run, Alone, SoloMoves, Moves;
    var m := Run(s, Alone(u, Ready, true));
    var r := Apply(m, Move(t, ok));
    SoloRun(r, t, ok, 2);
    ClaimSolo(t, ok, r.shared);
  }

  // ---------- a server that is ready ----------

  /** Not past the load that finds a ready server. */
  predicate AheadOfLoad(pc: Pc) {
    !pc.ReadyGuard? && !pc.ReadySend?
    && (pc.CallGuard? || pc.CallSend? || pc.CallUsable? ==> !pc.call.Ready?)
  }

  ghost predicate NoReady(s: State, r: State, t: Caller) {
    forall i :: |s.requests| <= i < |r.requests| && r.requests[i].caller == t ==> !r.requests[i].call.Ready?
  }

  lemma NoReadyStep(s: State, r: State, t: Caller, step: Step)
    requires r.shared.life == READY && AheadOfLoad(PcOf(r, t)) && NoReady(s, r, t)
    ensures AheadOfLoad(PcOf(Apply(r, step), t)) && NoReady(s, Apply(r, step), t)
  {
    PcAfter(r, step);
    assert step.t == t && StepEffect(r, step).sent.Some? ==> !StepEffect(r, step).sent.value.Ready?;
    assert step.t == t ==> AheadOfLoad(StepEffect(r, step).pc);
    hide StepEffect;
  }

  lemma {:induction false} NoReadyRun(s: State, r: State, t: Caller, steps: seq<Step>)
    requires AnswersInv(r) && AheadOfLoad(PcOf(r, t)) && NoReady(s, r, t)
    requires r.shared.life == READY && Run(r, steps).shared.life == READY
    ensures NoReady(s, Run(r, steps), t)
    decreases |steps|
  {
    hide AnswersInv, NoReady, AheadOfLoad;
    if steps != [] {
      var q := Apply(r, steps[0]);
      NoReadyStep(s, r, t, steps[0]);
      assert Run(r, [steps[0]]) == q by { assert [steps[0]][1..] == []; }
      AnswersRun(r, [steps[0]]);
      StaysReady(r, steps[0], steps[1..]);
      NoReadyRun(s, q, t, steps[1..]);
    }
  }

  lemma StaysReady(r: State, step: Step, steps: seq<Step>)
    requires AnswersInv(r) && AnswersInv(Apply(r, step)) && r.shared.life == READY
    requires Run(Apply(r, step), steps).shared.life == READY
    ensures Apply(r, step).shared.life == READY
  {
    hide Run;
    SafetyRun(Apply(r, step), steps);
    StepClaim(r, step);
  }

  /**
   * As long as a server stays ready, a caller whose load of the lifecycle is still to come never
   * sends a request to become ready again.
   */
  lemma ReadyOnce(before: seq<Step>, after: seq<Step>, t: Caller)
    requires var s, r := Run(INITIAL, before), Run(Run(INITIAL, before), after);
             s.shared.life == READY && r.shared.life == READY && AheadOfLoad(PcOf(s, t))
    ensures var s, r := Run(INITIAL, before), Run(Run(INITIAL, before), after);
            forall i :: |s.requests| <= i < |r.requests| && r.requests[i].caller == t ==> !r.requests[i].call.Ready?
  {
    Reachable(before);
    NoReadyRun(Run(INITIAL, before), Run(INITIAL, before), t, after);
  }
}
