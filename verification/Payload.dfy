/** The launch payload of the Rust SDK: the last-known value and the change events derived from it. */
module Payload {
  import opened Options

  /** A present payload, or none. */
  type Payload = Option<string>

  const PAYLOAD_ANNOTATION := "GAMEFLOW_PAYLOAD"

  /** The part of a server object read here: the annotations of its metadata, if it has any. */
  datatype GameServer = GameServer(annotations: Option<map<string, string>>)

  function PayloadOf(gs: GameServer): Payload {
    if gs.annotations.Some? && PAYLOAD_ANNOTATION in gs.annotations.value
    then Some(gs.annotations.value[PAYLOAD_ANNOTATION]) else None
  }

  /** The payload is the value of the annotation GAMEFLOW_PAYLOAD, and nothing else of the object. */
  lemma PayloadIff(gs: GameServer, v: string)
    ensures PayloadOf(gs) == Some(v) <==>
            gs.annotations.Some? && ("GAMEFLOW_PAYLOAD", v) in gs.annotations.value.Items
    ensures PayloadOf(gs) == None <==>
            gs.annotations.None? || "GAMEFLOW_PAYLOAD" !in gs.annotations.value
  {
  }

  /** Setting the annotation sets the payload; no other annotation has any influence. */
  lemma PayloadSet(m: map<string, string>, k: string, v: string)
    ensures PayloadOf(GameServer(Some(m[k := v]))) ==
            if k == "GAMEFLOW_PAYLOAD" then Some(v) else PayloadOf(GameServer(Some(m)))
    ensures PayloadOf(GameServer(Some(map[]))) == None && PayloadOf(GameServer(None)) == None
  {
  }

  /** What reaches the last-known payload, in the order of its lock; a failed poll never gets there. */
  datatype Step = Update(gs: GameServer) | Poll(gs: GameServer) | FailedPoll

  /** What the application sees: the answers of its own polls and the change events. */
  datatype Seen = Answer(payload: Payload) | Changed(payload: Payload)

  function Last<T>(s: seq<T>): T
    requires s != []
  {
    s[|s| - 1]
  }

  function Front<T>(s: seq<T>): seq<T>
    requires s != []
  {
    s[..|s| - 1]
  }

  lemma FrontLast<T>(s: seq<T>, x: T)
    ensures Front(s + [x]) == s && Last(s + [x]) == x
  {
  }

  // ---------- specification ----------

  /** Every payload the runtime showed, the probe's first. */
  function Shown(seed: Payload, h: seq<Step>): (s: seq<Payload>)
    ensures s != []
  {
    if h == [] then [seed]
    else if Last(h).FailedPoll? then Shown(seed, Front(h))
    else Shown(seed, Front(h)) + [PayloadOf(Last(h).gs)]
  }

  /** Consecutive repetitions removed. */
  function Destutter(s: seq<Payload>): seq<Payload> {
    if |s| <= 1 then s
    else if Last(s) == Last(Front(s)) then Destutter(Front(s))
    else Destutter(Front(s)) + [Last(s)]
  }

  /**
   * Every element of s has its place in d; places start at the first, end at the last, and advance
   * by one exactly where the element changes.
   */
  predicate Places(s: seq<Payload>, d: seq<Payload>, place: seq<nat>) {
    && s != [] && d != [] && |place| == |s| && place[0] == 0 && Last(place) == |d| - 1
    && (forall i :: 0 <= i < |s| ==> place[i] < |d| && d[place[i]] == s[i])
    && (forall i :: 0 < i < |s| ==> place[i] == place[i - 1] + if s[i - 1] == s[i] then 0 else 1)
  }

  lemma PlacesSnoc(s: seq<Payload>, d: seq<Payload>, place: seq<nat>, x: Payload)
    requires Places(s, d, place)
    ensures Last(s) == x ==> Places(s + [x], d, place + [|d| - 1])
    ensures Last(s) != x ==> Places(s + [x], d + [x], place + [|d|])
  {
  }

  ghost predicate NoRepeats(d: seq<Payload>) {
    forall i :: 0 < i < |d| ==> d[i - 1] != d[i]
  }

  lemma NoRepeatsSnoc(d: seq<Payload>, x: Payload)
    requires d != [] && NoRepeats(d) && Last(d) != x
    ensures NoRepeats(d + [x])
  {
  }

  lemma PlacesEnds(s: seq<Payload>, d: seq<Payload>, place: seq<nat>)
    requires Places(s, d, place)
    ensures d[0] == s[0] && Last(d) == Last(s)
  {
  }

  /** What destuttering means; nothing is invented, and no change is dropped. */
  lemma {:induction false} DestutterMeaning(s: seq<Payload>) returns (place: seq<nat>)
    requires s != []
    ensures var d := Destutter(s);
            Places(s, d, place) && d != [] && d[0] == s[0] && Last(d) == Last(s) && NoRepeats(d)
  {
    if |s| == 1 {
      place := [0];
    } else {
      var front, x := Front(s), Last(s);
      var d := Destutter(front);
      assert s == front + [x];
      DestutterSnoc(front, x);
      hide Destutter, Places, NoRepeats;
      var before := DestutterMeaning(front);
      PlacesSnoc(front, d, before, x);
      if Last(front) == x {
        place := before + [|d| - 1];
      } else {
        place := before + [|d|];
        NoRepeatsSnoc(d, x);
      }
    }
    PlacesEnds(s, Destutter(s), place);
  }

  lemma DestutterSnoc(s: seq<Payload>, x: Payload)
    requires s != []
    ensures Destutter(s + [x]) == if Last(s) == x then Destutter(s) else Destutter(s) + [x]
  {
  }

  /** What the application sees over a history. */
  function Sees(seed: Payload, h: seq<Step>): seq<Seen> {
    if h == [] then []
    else
      match Last(h)
      case FailedPoll => Sees(seed, Front(h))
      case Poll(gs) => Sees(seed, Front(h)) + [Answer(PayloadOf(gs))]
      case Update(gs) =>
        if PayloadOf(gs) == Last(Shown(seed, Front(h))) then Sees(seed, Front(h))
        else Sees(seed, Front(h)) + [Changed(PayloadOf(gs))]
  }

  function Payloads(s: seq<Seen>): seq<Payload> {
    seq(|s|, i requires 0 <= i < |s| => s[i].payload)
  }

  // ---------- the tracker ----------

  class Tracker {
    var lastPayload: Payload
    /** What the application saw, and the steps that led to it. */
    ghost var seen: seq<Seen>
    ghost var history: seq<Step>
    const seed: GameServer

    ghost predicate Valid()
      reads this
    {
      && lastPayload == Last(Shown(PayloadOf(seed), history))
      && seen == Sees(PayloadOf(seed), history)
    }

    /** The successful probe. */
    constructor (gs: GameServer)
      ensures Valid() && seed == gs && history == [] && lastPayload == PayloadOf(gs)
    {
      seed, lastPayload, seen, history := gs, PayloadOf(gs), [], [];
    }

    /** A watch update; notified is what the payload listeners are called with. */
    method HandleUpdate(gs: GameServer) returns (notified: Option<Payload>)
      requires Valid()
      modifies this
      ensures Valid() && history == old(history) + [Update(gs)] && lastPayload == PayloadOf(gs)
      ensures notified == if PayloadOf(gs) != old(lastPayload) then Some(PayloadOf(gs)) else None
      ensures seen == old(seen) + if notified.Some? then [Changed(notified.value)] else []
    {
      FrontLast(history, Update(gs));
      var payload := PayloadOf(gs);
      notified := None;
      if lastPayload != payload {
        lastPayload := payload;
        notified := Some(payload);
        seen := seen + [Changed(payload)];
      }
      history := history + [Update(gs)];
    }

    /** A poll by the application; the reply is absent when the guard or the request fails. */
    method Poll(reply: Option<GameServer>) returns (answer: Option<Payload>)
      requires Valid()
      modifies this
      ensures Valid()
      ensures reply.None? ==> answer.None? && unchanged(this`lastPayload, this`seen)
      ensures reply.Some? ==> answer == Some(PayloadOf(reply.value)) && lastPayload == answer.value
      ensures history == old(history) + [if reply.Some? then Step.Poll(reply.value) else FailedPoll]
      ensures seen == old(seen) + if answer.Some? then [Answer(answer.value)] else []
    {
      ghost var step := if reply.Some? then Step.Poll(reply.value) else FailedPoll;
      FrontLast(history, step);
      history := history + [step];
      if reply.None? { return None; }
      var payload := PayloadOf(reply.value);
      lastPayload := payload;
      seen := seen + [Answer(payload)];
      answer := Some(payload);
    }
  }

  lemma PayloadsSnoc(seed: Payload, s: seq<Seen>, e: Seen)
    ensures [seed] + Payloads(s + [e]) == [seed] + Payloads(s) + [e.payload]
  {
    assert Payloads(s + [e]) == Payloads(s) + [e.payload];
  }

  // ---------- what the events are worth ----------

  /**
   * Replaying the probe, the poll answers and the events gives the whole history of payload changes,
   * none missing and none invented; in particular their last value is the last-known payload.
   */
  lemma {:induction false} ReplayReconstructs(seed: Payload, h: seq<Step>)
    ensures Destutter([seed] + Payloads(Sees(seed, h))) == Destutter(Shown(seed, h))
    ensures Last([seed] + Payloads(Sees(seed, h))) == Last(Shown(seed, h))
  {
    var replay := [seed] + Payloads(Sees(seed, h));
    if h != [] {
      ReplayReconstructs(seed, Front(h));
      var before := [seed] + Payloads(Sees(seed, Front(h)));
      if Sees(seed, h) != Sees(seed, Front(h)) {
        var x := PayloadOf(Last(h).gs);
        PayloadsSnoc(seed, Sees(seed, Front(h)), Last(Sees(seed, h)));
        DestutterSnoc(before, x);
      }
      if !Last(h).FailedPoll? { DestutterSnoc(Shown(seed, Front(h)), PayloadOf(Last(h).gs)); }
    }
    var _ := DestutterMeaning(replay);
    var _ := DestutterMeaning(Shown(seed, h));
  }

  ghost predicate NeverPolled(h: seq<Step>) {
    forall i :: 0 <= i < |h| ==> !h[i].Poll?
  }

  /** Without polls the events are exactly the destuttered history of the updates. */
  lemma {:induction false} EventsAreDestuttered(seed: Payload, h: seq<Step>)
    requires NeverPolled(h)
    ensures [seed] + Payloads(Sees(seed, h)) == Destutter(Shown(seed, h))
    ensures forall i :: 0 <= i < |Sees(seed, h)| ==> Sees(seed, h)[i].Changed?
  {
    if h != [] {
      EventsAreDestuttered(seed, Front(h));
      if Last(h).Update? {
        var x := PayloadOf(Last(h).gs);
        DestutterSnoc(Shown(seed, Front(h)), x);
        if Sees(seed, h) != Sees(seed, Front(h)) { PayloadsSnoc(seed, Sees(seed, Front(h)), Changed(x)); }
        hide Payloads, Destutter;
      }
    }
  }

  /** The view of a listener that started from the probe and hears only the events. */
  function Heard(seed: Payload, s: seq<Seen>): Payload {
    if s == [] then seed else if Last(s).Changed? then Last(s).payload else Heard(seed, Front(s))
  }

  ghost predicate ListenerCurrent(seed: Payload, h: seq<Step>) {
    forall n :: 0 <= n <= |h| ==> Heard(seed, Sees(seed, h[..n])) == Last(Shown(seed, h[..n]))
  }

  ghost predicate PollsNeverFirst(seed: Payload, h: seq<Step>) {
    forall n :: 0 <= n < |h| && h[n].Poll? ==> PayloadOf(h[n].gs) == Last(Shown(seed, h[..n]))
  }

  /** A listener follows the payload at every point exactly when no poll is the first to show a change. */
  lemma ListenerCurrentIff(seed: Payload, h: seq<Step>)
    ensures ListenerCurrent(seed, h) <==> PollsNeverFirst(seed, h)
  {
    if ListenerCurrent(seed, h) {
      forall n | 0 <= n < |h| && h[n].Poll? ensures PayloadOf(h[n].gs) == Last(Shown(seed, h[..n])) {
        HeardStep(seed, h, n);
        assert Heard(seed, Sees(seed, h[..n + 1])) == Last(Shown(seed, h[..n + 1]));
        assert Heard(seed, Sees(seed, h[..n])) == Last(Shown(seed, h[..n]));
      }
    }
    if PollsNeverFirst(seed, h) {
      forall n | 0 <= n <= |h| ensures Heard(seed, Sees(seed, h[..n])) == Last(Shown(seed, h[..n])) {
        HeardWhilePollsLate(seed, h, n);
      }
    }
  }

  /** A poll that shows a new payload first: the update that follows fires nothing, and a listener never hears. */
  lemma SwallowedChange(gs: GameServer)
    requires PayloadOf(gs).Some?
    ensures var h := [Poll(gs), Update(gs)];
            Sees(None, h) == [Answer(PayloadOf(gs))] && Heard(None, Sees(None, h)) == None && !ListenerCurrent(None, h)
  {
    var h := [Poll(gs), Update(gs)];
    assert Front(h) == [Poll(gs)] && Front(Front(h)) == [];
    assert h[..0] == [] && h[0] == Poll(gs);
    ListenerCurrentIff(None, h);
    assert Shown(None, Front(h)) == [None] + [PayloadOf(gs)];
    assert Sees(None, Front(h)) == [Answer(PayloadOf(gs))];
    assert Front(Sees(None, h)) == [];
  }

  lemma HeardStep(seed: Payload, h: seq<Step>, n: nat)
    requires n < |h|
    ensures h[n].Poll? ==> Heard(seed, Sees(seed, h[..n + 1])) == Heard(seed, Sees(seed, h[..n]))
                           && Last(Shown(seed, h[..n + 1])) == PayloadOf(h[n].gs)
    ensures h[n].Update? && Heard(seed, Sees(seed, h[..n])) == Last(Shown(seed, h[..n])) ==>
              Heard(seed, Sees(seed, h[..n + 1])) == Last(Shown(seed, h[..n + 1]))
    ensures h[n].FailedPoll? ==>
            Sees(seed, h[..n + 1]) == Sees(seed, h[..n]) && Shown(seed, h[..n + 1]) == Shown(seed, h[..n])
  {
    assert Front(h[..n + 1]) == h[..n] && Last(h[..n + 1]) == h[n];
    var s := Sees(seed, h[..n]);
    if !h[n].FailedPoll? {
      FrontLast(s, if h[n].Poll? then Answer(PayloadOf(h[n].gs)) else Changed(PayloadOf(h[n].gs)));
    }
  }

  lemma {:induction false} HeardWhilePollsLate(seed: Payload, h: seq<Step>, n: nat)
    requires n <= |h| && PollsNeverFirst(seed, h)
    ensures Heard(seed, Sees(seed, h[..n])) == Last(Shown(seed, h[..n]))
  {
    if n > 0 {
      HeardWhilePollsLate(seed, h, n - 1);
      HeardStep(seed, h, n - 1);
    }
  }
}
