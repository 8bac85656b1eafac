/** Exponential backoff with jitter: the Unreal counter, the Rust connect loop and the Rust watch loop. */
module Backoff {
  import opened Int32
  import opened Streaks

  function Pow2(k: nat): (p: nat)
    ensures p > 0
  {
    if k == 0 then 1 else 2 * Pow2(k - 1)
  }

  function Min(a: int, b: int): int {
    if a < b then a else b
  }

  /** The documented delay: doubled k times, up to the cap. */
  function Capped(base: int, cap: int, k: nat): int {
    Min(base * Pow2(k), cap)
  }

  lemma CappedStart(base: int, cap: int)
    ensures Capped(base, cap, 0) == Min(base, cap)
  {
  }

  lemma CappedStep(base: int, cap: int, k: nat)
    requires base >= 0 && cap >= 0
    ensures Capped(base, cap, k + 1) == Min(Capped(base, cap, k) * 2, cap)
    ensures Capped(base, cap, k) >= 0
  {
  }

  lemma MulNatural(a: int, b: int)
    requires a >= 0 && b > 0
    ensures a * b >= 0 && (a > 0 ==> a * b > 0)
  {
  }

  // ---------- the Unreal counter ----------

  /** The counter after k delays since the last reset. */
  function Counter(base: int, cap: int, k: nat): int {
    if k == 0 then base else Min(Wrap32(Counter(base, cap, k - 1) * 2), cap)
  }

  /** The delay before jitter. */
  function Raw(base: int, cap: int, k: nat): int {
    Min(Counter(base, cap, k), cap)
  }

  lemma {:induction false} ClosedForm(base: int, cap: int, k: nat)
    requires 0 <= base < 0x4000_0000 && 0 <= cap < 0x4000_0000
    ensures Raw(base, cap, k) == Capped(base, cap, k)
    ensures 0 <= Counter(base, cap, k) < 0x4000_0000 && (k > 0 ==> Counter(base, cap, k) == Capped(base, cap, k))
  {
    hide Pow2, Capped;
    if k == 0 {
      CappedStart(base, cap);
    } else {
      ClosedForm(base, cap, k - 1);
      CappedStep(base, cap, k - 1);
      NoWrap(Counter(base, cap, k - 1) * 2);
      hide Wrap32;
    }
  }

  lemma {:induction false} ReachesTopHalf(base: int) returns (k: nat)
    requires 0 < base < 0x4000_0000
    ensures k > 0 && 0x4000_0000 <= base * Pow2(k) < 0x8000_0000
    decreases 0x4000_0000 - base
  {
    if 2 * base < 0x4000_0000 {
      var j := ReachesTopHalf(2 * base);
      k := j + 1;
      assert base * Pow2(k) == 2 * base * Pow2(j);
    } else {
      k := 1;
      assert Pow2(1) == 2 * Pow2(0);
    }
  }

  ghost predicate AlwaysClosed(base: int, cap: int) {
    forall k: nat :: Raw(base, cap, k) == Capped(base, cap, k)
  }

  /**
   * For every positive 32-bit base and cap the delays follow min(base * 2^k, cap) for all k exactly
   * when both are below 2^30; beyond that the doubling wraps to a negative counter.
   */
  lemma ClosedFormIff(base: int, cap: int)
    requires 0 < base < 0x8000_0000 && 0 < cap < 0x8000_0000
    ensures AlwaysClosed(base, cap) <==> base < 0x4000_0000 && cap < 0x4000_0000
  {
    if base < 0x4000_0000 && cap < 0x4000_0000 {
      forall k: nat ensures Raw(base, cap, k) == Capped(base, cap, k) { ClosedForm(base, cap, k); }
    } else if AlwaysClosed(base, cap) {
      var k := 0;
      if base < 0x4000_0000 { k := ReachesTopHalf(base); }
      var c := Counter(base, cap, k);
      assert Raw(base, cap, k) == Capped(base, cap, k);
      assert base * Pow2(0) == base;
      assert 0x4000_0000 <= c < 0x8000_0000;
      assert Counter(base, cap, k + 1) < 0;
      assert Raw(base, cap, k + 1) == Capped(base, cap, k + 1);
      MulNatural(base, Pow2(k + 1));
      assert false;
    }
  }

  lemma CounterStep(base: int, cap: int, k: nat)
    ensures Raw(base, cap, k) == Min(Counter(base, cap, k), cap)
    ensures Counter(base, cap, k + 1) == Min(Wrap32(Counter(base, cap, k) * 2), cap)
  {
  }

  /** A delay scaled by its jitter factor. */
  function Jittered(delay: int, factor: real): real {
    delay as real * factor
  }

  lemma JitterBounds(delay: int, factor: real)
    requires 0 <= delay && 0.8 <= factor <= 1.2
    ensures 0.8 * delay as real <= Jittered(delay, factor) <= 1.2 * delay as real
  {
    var d := delay as real;
    assert d * (factor - 0.8) >= 0.0;
    assert d * (1.2 - factor) >= 0.0;
  }

  /** The factor drawn is spread evenly over 0.8 to 1.2. */
  lemma JitterDraw(delay: int, random: real)
    ensures Jittered(delay, 1.0 + (random * 0.4 - 0.2)) == delay as real * (0.8 + 0.4 * random)
  {
    assert 1.0 + (random * 0.4 - 0.2) == 0.8 + 0.4 * random;
  }

  class UnrealBackoff {
    const baseMs: int
    const capMs: int
    var current: int

    constructor (baseMs: int, capMs: int)
      ensures this.baseMs == baseMs && this.capMs == capMs && current == Counter(baseMs, capMs, 0)
    {
      this.baseMs, this.capMs, current := baseMs, capMs, baseMs;
    }

    /** The (k+1)-st delay since the reset; random is the generator's value. */
    method NextDelayMs(random: real, ghost k: nat) returns (delay: int)
      requires 0.0 <= random <= 1.0 && current == Counter(baseMs, capMs, k)
      requires 0 <= baseMs < 0x4000_0000 && 0 <= capMs < 0x4000_0000
      modifies this`current
      ensures current == Counter(baseMs, capMs, k + 1)
      ensures var raw := Capped(baseMs, capMs, k) as real;
              && delay == (raw * (0.8 + 0.4 * random)).Floor
              && 0.8 * raw - 1.0 < delay as real <= 1.2 * raw
    {
      hide Pow2, Capped, Counter, Wrap32, Jittered;
      ClosedForm(baseMs, capMs, k);
      CounterStep(baseMs, capMs, k);
      var raw := Min(current, capMs);
      CappedStep(baseMs, capMs, k);
      var jitter := 1.0 + (random * 0.4 - 0.2);
      JitterBounds(raw, jitter);
      JitterDraw(raw, random);
      delay := Jittered(raw, jitter).Floor;
      current := Min(Wrap32(current * 2), capMs);
    }

    method Reset()
      modifies this`current
      ensures current == Counter(baseMs, capMs, 0)
    {
      current := baseMs;
    }
  }

  // ---------- connecting with retries ----------

  const INITIAL_PROBE_BACKOFF := 250
  const MAX_PROBE_BACKOFF := 4000

  /** How the surroundings behave at the i-th attempt: duration and outcome, jitter, oversleeping. */
  datatype World = World(takes: nat -> real, succeeds: nat -> bool, factor: nat -> real, oversleep: nat -> real)

  ghost predicate Physical(w: World) {
    forall i: nat :: w.takes(i) >= 0.0 && 0.8 <= w.factor(i) <= 1.2 && w.oversleep(i) >= 0.0
  }

  /** The wait after the i-th failed probe. */
  function Wait(w: World, i: nat): real {
    Jittered(Capped(INITIAL_PROBE_BACKOFF, MAX_PROBE_BACKOFF, i), w.factor(i))
  }

  /** When the i-th probe returns, counting from the first request. */
  function ProbeEnds(w: World, i: nat): real {
    if i == 0 then w.takes(0) else ProbeEnds(w, i - 1) + Wait(w, i - 1) + w.oversleep(i - 1) + w.takes(i)
  }

  /** The waits after the first n probes together. */
  function Waited(w: World, n: nat): real {
    if n == 0 then 0.0 else Waited(w, n - 1) + Wait(w, n - 1)
  }

  /** The wait after the i-th probe would end before the deadline. */
  ghost predicate InTime(w: World, timeout: real, i: nat) {
    ProbeEnds(w, i) + Wait(w, i) < timeout
  }

  lemma {:induction false} CappedAtLeast(k: nat)
    ensures Capped(INITIAL_PROBE_BACKOFF, MAX_PROBE_BACKOFF, k) >= INITIAL_PROBE_BACKOFF
  {
  }

  lemma WaitAtLeast(w: World, i: nat)
    requires Physical(w)
    ensures Wait(w, i) >= 200.0
  {
    hide Pow2, Capped, Jittered;
    CappedAtLeast(i);
    JitterBounds(Capped(INITIAL_PROBE_BACKOFF, MAX_PROBE_BACKOFF, i), w.factor(i));
  }

  lemma {:induction false} WaitedBounds(w: World, n: nat)
    requires Physical(w)
    ensures n as real * 200.0 <= Waited(w, n) <= ProbeEnds(w, n)
  {
    hide Wait;
    assert w.takes(n) >= 0.0;
    if n > 0 {
      WaitedBounds(w, n - 1);
      WaitAtLeast(w, n - 1);
      assert w.oversleep(n - 1) >= 0.0;
    }
  }

  /** The waits after n failed probes sum to less than the timeout, so n is below timeout / 200 ms. */
  ghost predicate Budgeted(w: World, timeout: real, n: nat) {
    0.0 <= n as real * 200.0 <= Waited(w, n) <= timeout && (n > 0 ==> Waited(w, n) < timeout)
  }

  /** The retry budget: sleeping only when in time, n waits sum to less than the timeout, so n < timeout / 200 ms. */
  lemma RetryBudget(w: World, timeout: real, n: nat)
    requires Physical(w) && timeout >= 0.0 && (n > 0 ==> InTime(w, timeout, n - 1))
    ensures Budgeted(w, timeout, n)
  {
    hide Wait, ProbeEnds;
    WaitedBounds(w, n);
    if n > 0 { WaitedBounds(w, n - 1); }
  }

  /**
   * Retries until success or until the next sleep would end at or past the deadline: it makes
   * retries + 1 probes, the last one being the first that succeeds or whose wait is not in time.
   */
  method ProbeWithRetry(timeout: real, w: World) returns (ok: bool, retries: nat, now: real)
    requires timeout >= 0.0 && Physical(w)
    ensures now == ProbeEnds(w, retries)
    ensures forall i: nat :: i < retries ==> !w.succeeds(i) && InTime(w, timeout, i)
    ensures ok == w.succeeds(retries) && (!ok ==> !InTime(w, timeout, retries))
    ensures Budgeted(w, timeout, retries)
  {
    ClockStart(w);
    hide Pow2, Capped, Jittered, ProbeEnds, Waited, Budgeted;
    var backoff := INITIAL_PROBE_BACKOFF;
    CappedStart(INITIAL_PROBE_BACKOFF, MAX_PROBE_BACKOFF);
    retries, now := 0, 0.0;
    var before := 0.0;
    while true
      invariant backoff == Capped(INITIAL_PROBE_BACKOFF, MAX_PROBE_BACKOFF, retries)
      invariant before + w.takes(retries) == ProbeEnds(w, retries)
      invariant forall i: nat :: i < retries ==> !w.succeeds(i) && InTime(w, timeout, i)
      decreases timeout - Waited(w, retries)
    {
      RetryBudget(w, timeout, retries);
      now := before + w.takes(retries);
      if w.succeeds(retries) { return true, retries, now; }
      var wait := Jittered(backoff, w.factor(retries));
      if now + wait >= timeout { return false, retries, now; }
      ClockStep(w, timeout, retries);
      CappedStep(INITIAL_PROBE_BACKOFF, MAX_PROBE_BACKOFF, retries);
      before := now + wait + w.oversleep(retries);
      backoff := Min(backoff * 2, MAX_PROBE_BACKOFF);
      retries := retries + 1;
    }
  }

  lemma ClockStart(w: World)
    ensures ProbeEnds(w, 0) == w.takes(0)
  {
  }

  lemma ClockStep(w: World, timeout: real, i: nat)
    requires Physical(w) && InTime(w, timeout, i)
    ensures ProbeEnds(w, i + 1) == ProbeEnds(w, i) + Wait(w, i) + w.oversleep(i) + w.takes(i + 1)
    ensures Waited(w, i + 1) == Waited(w, i) + Wait(w, i) && Wait(w, i) >= 200.0
    ensures Waited(w, i) + 200.0 < timeout
  {
    hide Wait;
    WaitAtLeast(w, i);
    WaitedBounds(w, i);
  }

  // ---------- reconnecting the Rust watch ----------

  const INITIAL_BACKOFF := 250
  const MAX_BACKOFF := 5000

  /**
   * Doublings behind the sleep after the newest stream: barren streams since the last delivery, or all
   * but the newest.
   */
  function Doublings(streams: seq<bool>): nat
    requires streams != []
  {
    if Tail(streams) == |streams| then |streams| - 1 else Tail(streams)
  }

  lemma DoublingsStep(streams: seq<bool>, delivered: bool)
    ensures Tail(streams) <= |streams|
    ensures Doublings(streams + [delivered]) == if delivered || streams == [] then 0 else Doublings(streams) + 1
  {
  }

  /** The sleep after each stream: streams[i] says whether the i-th stream delivered a message. */
  method WatchSleeps(streams: seq<bool>) returns (sleeps: seq<int>)
    ensures |sleeps| == |streams|
    ensures forall i :: 0 <= i < |streams| ==>
              sleeps[i] == Capped(INITIAL_BACKOFF, MAX_BACKOFF, Doublings(streams[..i + 1]))
  {
    hide Pow2, Capped, Tail, Doublings;
    var backoff := INITIAL_BACKOFF;
    CappedStart(INITIAL_BACKOFF, MAX_BACKOFF);
    sleeps := [];
    for i := 0 to |streams|
      invariant |sleeps| == i
      invariant backoff == if i == 0 then INITIAL_BACKOFF
                           else Capped(INITIAL_BACKOFF, MAX_BACKOFF, Doublings(streams[..i]) + 1)
      invariant forall j :: 0 <= j < i ==>
                sleeps[j] == Capped(INITIAL_BACKOFF, MAX_BACKOFF, Doublings(streams[..j + 1]))
    {
      assert streams[..i + 1] == streams[..i] + [streams[i]];
      DoublingsStep(streams[..i], streams[i]);
      if streams[i] { backoff := INITIAL_BACKOFF; }
      sleeps := sleeps + [backoff];
      CappedStep(INITIAL_BACKOFF, MAX_BACKOFF, Doublings(streams[..i + 1]));
      backoff := Min(backoff * 2, MAX_BACKOFF);
    }
  }

  // ---------- the watch against the connect parameters ----------

  /** The sleep after the newest stream, as WatchSleeps computes it. */
  function SleepAfter(streams: seq<bool>): int
    requires streams != []
  {
    Capped(INITIAL_BACKOFF, MAX_BACKOFF, Doublings(streams))
  }

  /** Within 20% of what the connect parameters give for as many doublings. */
  predicate Conforms(sleep: int, doublings: nat) {
    var wanted := Capped(INITIAL_PROBE_BACKOFF, MAX_PROBE_BACKOFF, doublings) as real;
    0.8 * wanted <= sleep as real <= 1.2 * wanted
  }

  lemma {:induction false} Pow2Monotone(j: nat, k: nat)
    requires j <= k
    ensures Pow2(j) <= Pow2(k)
  {
    if j < k { Pow2Monotone(j, k - 1); }
  }

  lemma CappedAround4(d: nat)
    ensures d <= 4 ==>
            Capped(INITIAL_BACKOFF, MAX_BACKOFF, d) == Capped(INITIAL_PROBE_BACKOFF, MAX_PROBE_BACKOFF, d) > 0
    ensures d >= 5 ==> Capped(INITIAL_BACKOFF, MAX_BACKOFF, d) == MAX_BACKOFF
    ensures d >= 5 ==> Capped(INITIAL_PROBE_BACKOFF, MAX_PROBE_BACKOFF, d) == MAX_PROBE_BACKOFF
  {
    assert Pow2(2) == 4 && Pow2(4) == 4 * Pow2(2) && Pow2(5) == 32;
    if d <= 4 { Pow2Monotone(d, 4); } else { Pow2Monotone(5, d); }
  }

  /**
   * The reconnect sleep keeps to the connect parameters exactly up to four doublings: from the fifth
   * on it is 5000 ms where at most 4800 ms are allowed.
   */
  lemma SleepConformsIff(streams: seq<bool>)
    requires streams != []
    ensures Conforms(SleepAfter(streams), Doublings(streams)) <==> Doublings(streams) <= 4
  {
    hide Capped, Doublings;
    CappedAround4(Doublings(streams));
  }

  const CONNECT_DELAYS := [250, 500, 1000, 2000, 4000]

  /** The delays before jitter: 250 ms doubled to 4000 ms when connecting, and on to 5000 ms in the watch. */
  lemma DelayTable(k: nat)
    ensures Capped(INITIAL_PROBE_BACKOFF, MAX_PROBE_BACKOFF, k) == if k <= 4 then CONNECT_DELAYS[k] else 4000
    ensures Capped(INITIAL_BACKOFF, MAX_BACKOFF, k) == if k <= 4 then CONNECT_DELAYS[k] else 5000
  {
    assert Pow2(1) == 2 && Pow2(2) == 4 && Pow2(3) == 8 && Pow2(4) == 16 && Pow2(5) == 32;
    if k >= 5 { Pow2Monotone(5, k); }
  }

  function Barren(k: nat): seq<bool> {
    seq(k, _ => false)
  }

  lemma {:induction false} BarrenTail(streams: seq<bool>, k: nat)
    requires streams == [] || streams[|streams| - 1]
    ensures Tail(streams + Barren(k)) == k
    decreases k
  {
    var s := streams + Barren(k);
    if k > 0 {
      assert s[..|s| - 1] == streams + Barren(k - 1);
      BarrenTail(streams, k - 1);
    } else {
      assert s == streams;
    }
  }

  /**
   * After a stream that delivered, whatever came before it, the k-th barren stream is followed by k
   * doublings; the first stream of all needs no delivery to count as the start.
   */
  lemma SleepAfterBarren(before: seq<bool>, k: nat)
    ensures SleepAfter(before + [true] + Barren(k)) == if k <= 4 then CONNECT_DELAYS[k] else 5000
    ensures SleepAfter(Barren(k + 1)) == if k <= 4 then CONNECT_DELAYS[k] else 5000
  {
    BarrenTail(before + [true], k);
    BarrenTail([], k + 1);
    assert [] + Barren(k + 1) == Barren(k + 1);
    DelayTable(k);
    hide Capped;
  }

  /** Six streams in a row without a message, and the client sleeps too long. */
  lemma SixBarrenStreams()
    ensures var streams := seq(6, _ => false);
            SleepAfter(streams) == 5000 && !Conforms(5000, Doublings(streams))
  {
    var streams := seq(6, _ => false);
    TailAll(streams);
    SleepConformsIff(streams);
    CappedAround4(5);
  }
}
