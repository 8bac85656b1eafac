/** The health heartbeat of the Unreal and the Rust client. */
module Health {
  import opened Options
  import opened Streaks

  const THRESHOLD := 6

  /** The counters both loops keep; failures is assumed to stay within its machine width. */
  datatype Counter = Counter(failures: nat, degraded: bool)

  const FRESH := Counter(0, false)

  /** One settled ping. */
  function After(c: Counter, ok: bool): Counter {
    if ok then FRESH
    else Counter(c.failures + 1, c.degraded || c.failures + 1 >= THRESHOLD)
  }

  predicate Reports(c: Counter, ok: bool) {
    !ok && c.failures + 1 >= THRESHOLD && !c.degraded
  }

  function RunPings(pings: seq<bool>): Counter {
    if pings == [] then FRESH else After(RunPings(pings[..|pings| - 1]), pings[|pings| - 1])
  }

  // ---------- reference: maximal blocks of failures ----------

  /** A maximal block of failures: bounded by the ends of the sequence or by successes. */
  ghost predicate MaximalBlock(pings: seq<bool>, lo: nat, hi: nat) {
    && lo < hi <= |pings|
    && (forall i :: lo <= i < hi ==> !pings[i])
    && (lo == 0 || pings[lo - 1]) && (hi == |pings| || pings[hi])
  }

  /** The maximal blocks of at least six failures, in order of their start. */
  function LongBlocks(pings: seq<bool>, i: nat): nat
    requires i <= |pings|
    decreases |pings| - i
  {
    if i == |pings| then 0
    else (if StartsLongBlock(pings, i) then 1 else 0) + LongBlocks(pings, i + 1)
  }

  predicate StartsLongBlock(pings: seq<bool>, i: nat)
    requires i < |pings|
  {
    (i == 0 || pings[i - 1]) && i + THRESHOLD <= |pings| && forall j :: i <= j < i + THRESHOLD ==> !pings[j]
  }

  lemma StartsLongBlockIff(pings: seq<bool>, i: nat)
    requires i < |pings|
    ensures StartsLongBlock(pings, i) <==> exists hi: nat :: i + 6 <= hi && MaximalBlock(pings, i, hi)
  {
    if StartsLongBlock(pings, i) {
      var hi := i + THRESHOLD;
      while hi < |pings| && !pings[hi]
        invariant i + THRESHOLD <= hi <= |pings| && forall j :: i <= j < hi ==> !pings[j]
      {
        hi := hi + 1;
      }
      assert MaximalBlock(pings, i, hi);
    }
  }

  // ---------- exactness ----------

  lemma {:induction false} CounterIsTail(pings: seq<bool>)
    ensures RunPings(pings) == Counter(Tail(pings), Tail(pings) >= THRESHOLD)
    decreases |pings|
  {
    if pings != [] { CounterIsTail(pings[..|pings| - 1]); }
  }

  /** A report comes exactly at the sixth failure of a maximal block of failures. */
  lemma ReportIff(pings: seq<bool>, p: nat)
    requires p < |pings|
    ensures Reports(RunPings(pings[..p]), pings[p]) <==>
            && p >= 5 && (forall j :: p - 6 < j <= p ==> !pings[j]) && (p == 5 || pings[p - 6])
  {
    CounterIsTail(pings[..p]);
    TailBlock(pings[..p]);
  }

  /** The number of reports a loop makes over a sequence of pings. */
  function ReportCount(pings: seq<bool>): nat {
    if pings == [] then 0
    else
      var init := pings[..|pings| - 1];
      ReportCount(init) + if Reports(RunPings(init), pings[|pings| - 1]) then 1 else 0
  }

  lemma {:induction false} LongBlocksSnoc(pings: seq<bool>, ok: bool, i: nat)
    requires i <= |pings|
    ensures var start := |pings| + 1 - THRESHOLD;
            LongBlocks(pings + [ok], i) == LongBlocks(pings, i) +
              if start >= i && StartsLongBlock(pings + [ok], start) then 1 else 0
    decreases |pings| - i
  {
    var now := pings + [ok];
    if i < |pings| {
      LongBlocksSnoc(pings, ok, i + 1);
      if i + THRESHOLD <= |pings| {
        assert forall j :: i <= j < i + THRESHOLD ==> now[j] == pings[j];
        assert StartsLongBlock(now, i) == StartsLongBlock(pings, i);
      }
    }
  }

  /** The degraded reports are as many as the maximal failure blocks of length at least six. */
  lemma {:induction false} ReportsAreLongBlocks(pings: seq<bool>)
    ensures ReportCount(pings) == LongBlocks(pings, 0)
    decreases |pings|
  {
    if pings != [] {
      var n := |pings| - 1;
      var init := pings[..n];
      assert pings == init + [pings[n]];
      ReportsAreLongBlocks(init);
      LongBlocksSnoc(init, pings[n], 0);
      ReportIff(pings, n);
    }
  }

  // ---------- the Rust loop ----------

  /** The loop body run over the pings that settle before cancellation. */
  method RustRun(pings: seq<bool>) returns (reports: nat, recovered: nat)
    ensures reports == LongBlocks(pings, 0)
    ensures recovered + (if Tail(pings) >= THRESHOLD then 1 else 0) == reports
  {
    var consecutiveFailures := 0;
    var degraded := false;
    reports, recovered := 0, 0;
    assert pings[..0] == [];
    for i := 0 to |pings|
      invariant Counter(consecutiveFailures, degraded) == RunPings(pings[..i])
      invariant reports == ReportCount(pings[..i])
      invariant recovered + (if degraded then 1 else 0) == reports
    {
      assert pings[..i + 1][..i] == pings[..i];
      CounterIsTail(pings[..i]);
      if pings[i] {
        if degraded { recovered := recovered + 1; }
        consecutiveFailures := 0;
        degraded := false;
      } else {
        consecutiveFailures := consecutiveFailures + 1;
        if consecutiveFailures >= THRESHOLD && !degraded {
          degraded := true;
          reports := reports + 1;
        }
      }
    }
    assert pings[..|pings|] == pings;
    ReportsAreLongBlocks(pings);
    CounterIsTail(pings);
  }

  /** Start and stop, each entirely under the handle's mutex. */
  datatype Switch = On | Off

  class RustHandle {
    /** The running task, by number; tasks are numbered as they are spawned. */
    var handle: Option<nat>
    var spawned: nat
    var cancelled: set<nat>

    /** Every task ever spawned is cancelled, except the one in the handle. */
    ghost predicate Valid()
      reads this
    {
      && (forall k: nat :: k < spawned && k !in cancelled <==> handle == Some(k))
      && (forall k :: k in cancelled ==> k < spawned)
    }

    constructor ()
      ensures Valid() && handle.None? && spawned == 0
    {
      handle, spawned, cancelled := None, 0, {};
    }

    method Start()
      requires Valid()
      modifies this
      ensures Valid() && cancelled == old(cancelled)
      ensures if old(handle).Some? then handle == old(handle) && spawned == old(spawned)
              else handle == Some(old(spawned)) && spawned == old(spawned) + 1
    {
      assert forall k: nat :: k < spawned && k !in cancelled <==> handle == Some(k);
      if handle.Some? { return; }
      handle := Some(spawned);
      spawned := spawned + 1;
    }

    method Stop()
      requires Valid()
      modifies this
      ensures Valid() && handle.None? && spawned == old(spawned)
    {
      assert forall k: nat :: k < spawned && k !in cancelled <==> handle == Some(k);
      if handle.Some? { cancelled := cancelled + {handle.value}; }
      handle := None;
    }

    /** However starts and stops interleave, a loop is uncancelled exactly when the last of them was a start. */
    method Drive(switches: seq<Switch>)
      requires Valid()
      modifies this
      ensures Valid()
      ensures handle.Some? <==> if switches == [] then old(handle).Some? else switches[|switches| - 1].On?
    {
      for i := 0 to |switches|
        invariant Valid()
        invariant handle.Some? <==> if i == 0 then old(handle).Some? else switches[i - 1].On?
      {
        match switches[i]
        case On => Start();
        case Off => Stop();
      }
    }
  }

  // ---------- the Unreal loop ----------

  /**
   * A ping settles or a scheduled tick fires; either is skipped when nothing of the kind is due. If
   * the settling ping calls the degraded callback, stops says whether the callback stops the loop.
   */
  datatype Event = Settle(ok: bool, stops: bool) | Tick | Stop

  /** What the loop is waiting for, whether it was stopped, and its counters. */
  datatype Due = Due(phase: Phase, stopped: bool, counter: Counter)

  datatype Phase = Flying | Resting | Quiet

  function Next(d: Due, e: Event): Due {
    match e
    case Settle(ok, stops) =>
      if !d.phase.Flying? then d
      else
        var stopped := d.stopped || (stops && Reports(d.counter, ok));
        Due(if stopped then Quiet else Resting, stopped, After(d.counter, ok))
    case Tick => if d.phase.Resting? then d.(phase := if d.stopped then Quiet else Flying) else d
    case Stop => d.(stopped := true)
  }

  function AfterAll(d: Due, events: seq<Event>): Due
    decreases |events|
  {
    if events == [] then d else AfterAll(Next(d, events[0]), events[1..])
  }

  function Outcome(d: Due, e: Event): seq<bool> {
    if e.Settle? && d.phase.Flying? then [e.ok] else []
  }

  /** The pings that settle over a sequence of events. */
  function Outcomes(d: Due, events: seq<Event>): seq<bool>
    decreases |events|
  {
    if events == [] then [] else Outcome(d, events[0]) + Outcomes(Next(d, events[0]), events[1..])
  }

  lemma {:induction false} OutcomesAppend(d: Due, a: seq<Event>, b: seq<Event>)
    ensures Outcomes(d, a + b) == Outcomes(d, a) + Outcomes(AfterAll(d, a), b)
    decreases |a|
  {
    hide Next, Outcome;
    if a == [] {
      assert a + b == b;
    } else {
      assert (a + b)[0] == a[0] && (a + b)[1..] == a[1..] + b;
      OutcomesAppend(Next(d, a[0]), a[1..], b);
    }
  }

  lemma OutcomesSnoc(d: Due, events: seq<Event>, i: nat)
    requires i < |events|
    ensures AfterAll(d, events[..i + 1]) == Next(AfterAll(d, events[..i]), events[i])
    ensures Outcomes(d, events[..i + 1]) == Outcomes(d, events[..i]) + Outcome(AfterAll(d, events[..i]), events[i])
  {
    hide Next, Outcome;
    assert events[..i + 1] == events[..i] + [events[i]];
    OutcomesAppend(d, events[..i], [events[i]]);
    AfterSnoc(d, events[..i], events[i]);
    var after := AfterAll(d, events[..i]);
    assert Outcomes(after, [events[i]]) == Outcome(after, events[i]) + [];
  }

  lemma {:induction false} AfterSnoc(d: Due, a: seq<Event>, e: Event)
    ensures AfterAll(d, a + [e]) == Next(AfterAll(d, a), e)
    decreases |a|
  {
    hide Next;
    if a == [] {
      assert AfterAll(d, [e]) == AfterAll(Next(d, e), []);
    } else {
      assert (a + [e])[0] == a[0] && (a + [e])[1..] == a[1..] + [e];
      AfterSnoc(Next(d, a[0]), a[1..], e);
    }
  }

  lemma StopBetween(d: Due, before: seq<Event>, after: seq<Event>)
    ensures Outcomes(d, before + [Stop] + after) ==
            Outcomes(d, before) + Outcomes(AfterAll(d, before).(stopped := true), after)
  {
    hide Outcomes, AfterAll;
    var stop := [Stop];
    OutcomesAppend(d, before + stop, after);
    OutcomesSnoc(d, before + stop, |before|);
    assert (before + stop)[..|before|] == before && (before + stop)[..|before| + 1] == before + stop;
    assert Outcomes(d, before) + [] == Outcomes(d, before);
  }

  /** The callback is asked at the sixth failure in a row, and its stop holds: nothing settles any more. */
  lemma CallbackStops(pings: seq<bool>, ok: bool, stops: bool, after: seq<Event>)
    ensures var d := Next(Due(Flying, false, RunPings(pings)), Settle(ok, stops));
            && (d.stopped <==> stops && !ok && |pings| >= 5 && (forall j :: |pings| - 5 <= j < |pings| ==> !pings[j])
                               && (|pings| == 5 || pings[|pings| - 6]))
            && (d.stopped ==> d.phase.Quiet? && Outcomes(d, after) == [])
            && (!d.stopped ==> d.phase.Resting? && Next(d, Tick).phase.Flying?)
  {
    var now := pings + [ok];
    assert now[..|pings|] == pings && now[|pings|] == ok;
    ReportIff(now, |pings|);
    assert forall j :: 0 <= j < |pings| ==> now[j] == pings[j];
    hide RunPings;
    var d := Next(Due(Flying, false, RunPings(pings)), Settle(ok, stops));
    if d.stopped { QuietForever(d, after); }
  }

  lemma {:induction false} QuietForever(d: Due, events: seq<Event>)
    requires d.stopped && !d.phase.Flying?
    ensures Outcomes(d, events) == []
    decreases |events|
  {
    if events != [] { QuietForever(Next(d, events[0]), events[1..]); }
  }

  class HealthLoop {
    var consecutiveFailures: nat
    var degradedReported: bool
    var stopped: bool
    /** Pings sent and not settled, ticks scheduled and not fired, and the history. */
    var inFlight: nat
    var pendingTicks: nat
    var begun: nat
    var reports: nat
    var settled: seq<bool>

    constructor ()
      ensures Valid() && !stopped && inFlight == 0 && pendingTicks == 0 && begun == 0 && settled == []
      ensures DueNow().counter == FRESH
    {
      consecutiveFailures, degradedReported, stopped := 0, false, false;
      inFlight, pendingTicks, begun, reports, settled := 0, 0, 0, 0, [];
    }

    ghost predicate Valid()
      reads this
    {
      && Counter(consecutiveFailures, degradedReported) == RunPings(settled)
      && reports == ReportCount(settled)
      && inFlight + pendingTicks <= 1
      && begun == |settled| + inFlight
      // A started loop that was not stopped always waits for exactly one thing.
      && (begun > 0 && !stopped ==> inFlight + pendingTicks == 1)
    }

    function DueNow(): Due
      reads this
    {
      Due(if inFlight == 1 then Flying else if pendingTicks == 1 then Resting else Quiet, stopped,
          Counter(consecutiveFailures, degradedReported))
    }

    method DoPing()
      requires inFlight == 0 && pendingTicks == 0
      modifies this`inFlight, this`begun
      ensures inFlight == 1 && begun == old(begun) + 1
    {
      inFlight := inFlight + 1;
      begun := begun + 1;
    }

    method Start()
      requires Valid() && begun == 0 && inFlight == 0 && pendingTicks == 0
      modifies this
      ensures Valid() && settled == old(settled) && DueNow() == Due(Flying, false, old(DueNow().counter))
    {
      stopped := false;
      DoPing();
    }

    method StopLoop()
      modifies this`stopped
      ensures stopped && (old(Valid()) ==> Valid())
    {
      stopped := true;
    }

    method OnSettled(ok: bool, stops: bool)
      requires Valid() && inFlight == 1
      modifies this
      ensures Valid() && settled == old(settled) + [ok] && begun == old(begun)
      ensures Counter(consecutiveFailures, degradedReported) == After(old(DueNow().counter), ok)
      ensures stopped == (old(stopped) || (stops && Reports(old(DueNow().counter), ok)))
      ensures inFlight == 0 && pendingTicks == if stopped then 0 else 1
    {
      inFlight := inFlight - 1;
      ghost var was := settled;
      settled := settled + [ok];
      assert settled[..|settled| - 1] == was;
      if ok {
        consecutiveFailures := 0;
        degradedReported := false;
      } else {
        CounterIsTail(was);
        consecutiveFailures := consecutiveFailures + 1;
        if consecutiveFailures >= THRESHOLD && !degradedReported {
          degradedReported := true;
          reports := reports + 1;
          if stops { StopLoop(); }
        }
      }
      if !stopped { pendingTicks := pendingTicks + 1; }
    }

    method OnTick()
      requires Valid() && pendingTicks == 1
      modifies this
      ensures Valid() && stopped == old(stopped) && settled == old(settled) && pendingTicks == 0
      ensures DueNow().counter == old(DueNow().counter)
      ensures inFlight == (if stopped then 0 else 1) && begun == old(begun) + inFlight
    {
      pendingTicks := pendingTicks - 1;
      if !stopped { DoPing(); }
    }

    method React(e: Event)
      requires Valid()
      modifies this
      ensures Valid() && DueNow() == Next(old(DueNow()), e) && settled == old(settled) + Outcome(old(DueNow()), e)
      ensures old(stopped) ==> begun == old(begun)
    {
      hide RunPings, ReportCount;
      match e
      case Settle(ok, stops) => if inFlight == 1 { OnSettled(ok, stops); }
      case Tick => if pendingTicks == 1 { OnTick(); }
      case Stop => StopLoop();
    }

    /** Any order of completions, ticks and stops: no ping begins once stopped. */
    method Drive(events: seq<Event>)
      requires Valid()
      modifies this
      ensures Valid() && DueNow() == AfterAll(old(DueNow()), events)
      ensures settled == old(settled) + Outcomes(old(DueNow()), events)
      ensures old(stopped) ==> stopped && begun == old(begun)
    {
      hide RunPings, ReportCount, Outcome;
      assert events[..0] == [] && settled + [] == settled;
      for i := 0 to |events|
        invariant Valid() && DueNow() == AfterAll(old(DueNow()), events[..i])
        invariant settled == old(settled) + Outcomes(old(DueNow()), events[..i])
        invariant old(stopped) ==> stopped && begun == old(begun)
      {
        OutcomesSnoc(old(DueNow()), events, i);
        React(events[i]);
      }
      assert events[..|events|] == events;
    }
  }

  /**
   * From one Start, for any events before and after a Stop: pings in flight plus pending ticks never
   * exceed one, no ping begins after the Stop, and the reports are the long blocks of the history.
   */
  method OneLife(before: seq<Event>, after: seq<Event>)
    returns (begunAtStop: nat, begun: nat, outstanding: nat, reports: nat)
    ensures begun == begunAtStop && outstanding <= 1
    ensures var settled := Outcomes(Due(Flying, false, FRESH), before + [Stop] + after);
            reports == LongBlocks(settled, 0) && |settled| <= begun <= |settled| + outstanding
  {
    hide RunPings, ReportCount, Outcomes, AfterAll, LongBlocks;
    var loop := new HealthLoop();
    loop.Start();
    ghost var start := Due(Flying, false, FRESH);
    assert loop.DueNow() == start && loop.settled == [];
    loop.Drive(before);
    assert loop.settled == Outcomes(start, before);
    loop.StopLoop();
    begunAtStop := loop.begun;
    loop.Drive(after);
    begun, outstanding, reports := loop.begun, loop.inFlight + loop.pendingTicks, loop.reports;
    StopBetween(start, before, after);
    ReportsAreLongBlocks(loop.settled);
  }
}
