/** What one player call answers and leaves behind, case by case, in terms of the list alone. */
module PlayerOutcomes {
  import opened Options
  import opened PlayerTracking

  // ---------- removal ----------

  /** Removing takes out the named entry and nothing else, and keeps the order of the others. */
  lemma RemovedSplit(a: seq<SessionId>, id: SessionId, b: seq<SessionId>)
    requires id !in a
    ensures Removed(a + [id] + b, id) == a + b
  {
    IndexSplit(a, id, b);
    var all := a + [id] + b;
    assert all[..|a|] == a && all[|a| + 1..] == b;
  }

  lemma {:induction false} IndexSplit(a: seq<SessionId>, id: SessionId, b: seq<SessionId>)
    requires id !in a
    ensures IndexOf(a + [id] + b, id) == |a|
  {
    if a != [] {
      assert (a + [id] + b)[0] == a[0] && (a + [id] + b)[1..] == a[1..] + [id] + b;
      IndexSplit(a[1..], id, b);
    }
  }

  // ---------- one call without faults ----------

  function Quiet(op: Op): Call {
    Call(op, NoFault, NoFault)
  }

  /** Connecting over the runtime: the four answers, and everything that each of them leaves behind. */
  lemma ConnectOutcome(list: Option<List>, echo: Echo, cache: Snapshot, id: SessionId)
    ensures var s := Session(RuntimeWorld(list, echo), cache);
            var (r, t) := Perform(s, Quiet(Connect(id)));
            if list == None then
              r == Failure(PlayerTrackingDisabled) && t == Session(s.world, Snapshot(false, 0, []))
            else if id in list.value.values then
              r == Failure(PlayerAlreadyConnected(id)) && t == s
            else if |list.value.values| >= list.value.capacity then
              r == Failure(ServerFull(Some(cache.capacity))) && t == s
            else
              var joined := list.value.values + [id];
              && r == Success(true)
              && t.world == RuntimeWorld(Some(List(list.value.capacity, joined)), echo)
              && t.cache == Snapshot(true, list.value.capacity, joined)
  {
    hide IndicatesCapacity, Decimal;
  }

  /** Disconnecting a player who is in the list: that entry goes, the others stay in order. */
  lemma DisconnectOutcome(
    capacity: int, a: seq<SessionId>, id: SessionId, b: seq<SessionId>, echo: Echo, cache: Snapshot)
    requires id !in a && cache.exists_
    ensures var s := Session(RuntimeWorld(Some(List(capacity, a + [id] + b)), echo), cache);
            Perform(s, Quiet(Disconnect(id))) ==
            (Success(true), Session(RuntimeWorld(Some(List(capacity, a + b)), echo), Snapshot(true, capacity, a + b)))
  {
    RemovedSplit(a, id, b);
    hide Removed;
    assert id in a + [id] + b;
  }

  /** The players that a world tracks. */
  function Tracked(w: World): seq<SessionId> {
    match w
    case LocalWorld(capacity, players) => if capacity == 0 then [] else players
    case RuntimeWorld(None, _) => []
    case RuntimeWorld(Some(l), _) => l.values
  }

  /** Disconnecting anybody else changes nothing; with tracking disabled it does not ask the runtime. */
  lemma DisconnectAbsent(s: Session, id: SessionId)
    requires id !in Tracked(s.world)
    ensures Perform(s, Quiet(Disconnect(id))) ==
            (if s.cache.exists_ then Success(false) else Failure(PlayerTrackingDisabled), s)
  {
  }

  /** A refresh puts the runtime's list into the cache, capacity and all. */
  lemma RefreshOutcome(list: Option<List>, echo: Echo, cache: Snapshot)
    ensures var w := RuntimeWorld(list, echo);
            Perform(Session(w, cache), Quiet(Refresh)) ==
            (Success(true), Session(w, if list == None then Snapshot(false, 0, [])
                                       else Snapshot(true, list.value.capacity, list.value.values)))
  {
  }

  /** The in-memory runtime: capacity 0 disables tracking, a negative one means no limit. */
  lemma LocalConnectOutcome(capacity: int, players: seq<SessionId>, cache: Snapshot, id: SessionId)
    ensures var s := Session(LocalWorld(capacity, players), cache);
            var (r, t) := Perform(s, Quiet(Connect(id)));
            if capacity == 0 then
              r == Failure(PlayerTrackingDisabled) && t == Session(s.world, Snapshot(false, 0, []))
            else if id in players then
              r == Failure(PlayerAlreadyConnected(id)) && t == s
            else if 0 < capacity <= |players| then
              r == Failure(ServerFull(Some(capacity))) && t == s
            else
              && r == Success(true)
              && t == Session(LocalWorld(capacity, players + [id]), Snapshot(true, capacity, players + [id]))
  {
  }

  lemma LocalDisconnectOutcome(
    capacity: int, a: seq<SessionId>, id: SessionId, b: seq<SessionId>, cache: Snapshot)
    requires id !in a && cache.exists_ && capacity != 0
    ensures Perform(Session(LocalWorld(capacity, a + [id] + b), cache), Quiet(Disconnect(id))) ==
            (Success(true), Session(LocalWorld(capacity, a + b), Snapshot(true, capacity, a + b)))
  {
    RemovedSplit(a, id, b);
    hide Removed;
    assert id in a + [id] + b;
  }

  /**
   * Whatever fails and whatever the cache holds: a disconnect that succeeds says whether the player
   * was in the list, and one that says no has changed nothing.
   */
  lemma FoundIff(s: Session, id: SessionId, first: Fault, reread: Fault)
    requires Perform(s, Call(Disconnect(id), first, reread)).0.Success?
    ensures var (r, t) := Perform(s, Call(Disconnect(id), first, reread));
            && (r == Success(true) <==> id in Tracked(s.world))
            && (r == Success(false) ==> t == s)
  {
    hide Removed;
  }

  /** A player who joins and leaves again leaves everything as it was, the order of the others included. */
  lemma JoinAndLeave(s: Session, id: SessionId)
    requires Perform(s, Quiet(Connect(id))).0.Success?
    ensures var t := Perform(s, Quiet(Connect(id))).1;
            && Tracked(t.world) == Tracked(s.world) + [id] && t.cache.values == Tracked(t.world)
            && Perform(t, Quiet(Disconnect(id))) == (Success(true), Seeded(s.world))
  {
    match s.world
    case LocalWorld(c, players) =>
      LocalConnectOutcome(c, players, s.cache, id);
      LocalDisconnectOutcome(c, players, id, [], Snapshot(true, c, players + [id]));
      assert players + [id] + [] == players + [id] && players + [] == players;
    case RuntimeWorld(list, echo) =>
      ConnectOutcome(list, echo, s.cache, id);
      hide Perform;
      var l := list.value;
      DisconnectOutcome(l.capacity, l.values, id, [], echo, Snapshot(true, l.capacity, l.values + [id]));
      assert l.values + [id] + [] == l.values + [id] && l.values + [] == l.values;
  }

  // ---------- faults ----------

  /** A refused or undelivered first request fails the call with its own error and changes nothing. */
  lemma FirstRequestFails(s: Session, op: Op, reread: Fault)
    requires s.world.RuntimeWorld? && (op.Disconnect? ==> s.cache.exists_)
    ensures Perform(s, Call(op, Unavailable503, reread)) == (Failure(RequestFailed), s)
    ensures Perform(s, Call(op, Unreachable, reread)) == (Failure(SidecarUnavailable), s)
  {
  }

  /** A lost answer is the same error, but the runtime has done what it was asked. */
  lemma AnswerFails(s: Session, op: Op, reread: Fault)
    requires s.world.RuntimeWorld? && (op.Disconnect? ==> s.cache.exists_)
    ensures Perform(s, Call(op, LostResponse, reread)) ==
            (Failure(SidecarUnavailable), Session(Perform(s, Quiet(op)).1.world, s.cache))
  {
    hide IndicatesCapacity, Decimal, Removed;
  }

  /** A change whose re-read fails: the error is the read's, the list has changed, the cache has not. */
  lemma RereadFails(s: Session, op: Op, reread: Fault)
    requires s.world.RuntimeWorld? && (op.Disconnect? ==> s.cache.exists_)
    requires Mutates(s.world.list, op) && !reread.NoFault?
    ensures Perform(s, Call(op, NoFault, reread)) ==
            (Failure(if reread.Unavailable503? then RequestFailed else SidecarUnavailable),
             Session(Perform(s, Quiet(op)).1.world, s.cache))
  {
    hide IndicatesCapacity, Decimal, Removed;
  }

  // ---------- refusals ----------

  const SMALL := "abcdefghijklmnopqrstuvwxyz"
  const LARGE := "ABCDEFGHIJKLMNOPQRSTUVWXYZ"

  /** The character is the given one, or its upper-case form. */
  predicate SameLetter(c: char, small: char) {
    c == small || exists i :: 0 <= i < 26 && c == LARGE[i] && small == SMALL[i]
  }

  /** The word stands at position i of the message, in any case. */
  predicate StandsAt(message: string, i: nat, word: string) {
    i + |word| <= |message| && forall k :: 0 <= k < |word| ==> SameLetter(message[i + k], word[k])
  }

  predicate Occurs(message: string, word: string) {
    exists i :: 0 <= i <= |message| && StandsAt(message, i, word)
  }

  /** No character is an upper-case letter. */
  predicate NoLarge(word: string) {
    forall k :: 0 <= k < |word| ==> word[k] !in LARGE
  }

  lemma LowerLetter(c: char, small: char)
    requires small !in LARGE
    ensures Lower([c])[0] == small <==> SameLetter(c, small)
  {
    if 'A' <= c <= 'Z' {
      var i := c as int - 65;
      assert LARGE[i] == c && SMALL[i] == c + 32 as char;
    }
    assert forall i :: 0 <= i < 26 ==> 'A' <= LARGE[i] <= 'Z' && SMALL[i] == LARGE[i] + 32 as char;
  }

  lemma PrefixIff(message: string, word: string)
    requires NoLarge(word)
    ensures word <= Lower(message) <==> StandsAt(message, 0, word)
  {
    var low := Lower(message);
    if |word| <= |message| {
      forall k | 0 <= k < |word| ensures low[k] == word[k] <==> SameLetter(message[k], word[k]) {
        LowerLetter(message[k], word[k]);
      }
    }
  }

  /** The search finds a word exactly where it stands, in any case. */
  lemma {:induction false} ContainsIff(message: string, word: string)
    requires NoLarge(word)
    ensures Contains(Lower(message), word) <==> Occurs(message, word)
  {
    PrefixIff(message, word);
    if message != [] {
      var more := message[1..];
      assert Lower(message)[1..] == Lower(more);
      ContainsIff(more, word);
      hide Lower, SameLetter, Contains;
      OccursLater(message, word);
      assert Contains(Lower(message), word) <==> word <= Lower(message) || Contains(Lower(more), word) by {
        ContainsStep(Lower(message), word);
      }
    } else {
      assert Contains(Lower(message), word) <==> word <= Lower(message);
    }
  }

  lemma ContainsStep(s: string, part: string)
    requires s != []
    ensures Contains(s, part) <==> part <= s || Contains(s[1..], part)
  {
  }

  lemma OccursLater(message: string, word: string)
    requires message != []
    ensures Occurs(message, word) <==> StandsAt(message, 0, word) || Occurs(message[1..], word)
  {
    hide SameLetter;
    var more := message[1..];
    forall i | 0 < i <= |message| ensures StandsAt(message, i, word) <==> StandsAt(more, i - 1, word) {
      StandsShift(message, i, word);
    }
    if Occurs(more, word) {
      var i :| 0 <= i <= |more| && StandsAt(more, i, word);
      assert StandsAt(message, i + 1, word);
    }
  }

  lemma StandsShift(message: string, i: nat, word: string)
    requires 0 < i <= |message|
    ensures StandsAt(message, i, word) <==> StandsAt(message[1..], i - 1, word)
  {
    hide SameLetter;
    var more := message[1..];
    if i + |word| <= |message| {
      forall k | 0 <= k < |word| ensures SameLetter(message[i + k], word[k]) <==> SameLetter(more[i - 1 + k], word[k]) {
        assert message[i + k] == more[i - 1 + k];
      }
    }
  }

  lemma SmallWords()
    ensures NoLarge("capacity") && NoLarge("out of range")
  {
    forall c: char | 'a' <= c <= 'z' || c == ' ' ensures c !in LARGE {
    }
  }

  /** A refused add (400) means a full list exactly by code 11 or by one of the two words in the message. */
  lemma RefusalMeaning(res: Response, id: SessionId)
    requires res.status == 400
    ensures AddError(res, id) ==
            if res.code == Some(11) || Occurs(res.message, "capacity") || Occurs(res.message, "out of range")
            then ServerFull(None) else RequestFailed
  {
    SmallWords();
    hide NoLarge;
    ContainsIff(res.message, "capacity");
    ContainsIff(res.message, "out of range");
    hide Contains, Lower, Occurs;
  }
}
