/**
 * Player tracking: the in-memory runtime of local mode, the REST runtime behind the sidecar
 * transport, and the player cache that sits in front of either.
 */
module PlayerTracking {
  import opened Options

  type SessionId = string

  /** The cached view of the players list; exists is false while tracking is disabled. */
  datatype Snapshot = Snapshot(exists_: bool, capacity: int, values: seq<SessionId>)

  const DISABLED := Snapshot(false, 0, [])

  datatype Error =
    | PlayerAlreadyConnected(id: SessionId)
    | ServerFull(capacity: Option<int>)
    | PlayerTrackingDisabled
    | RequestFailed
    | SidecarUnavailable

  datatype Result<+T> = Ok(value: T) | Err(error: Error)

  /** The runtime's list. */
  datatype List = List(capacity: int, values: seq<SessionId>)

  /** What list mutations echo back. */
  datatype Echo = EchoList | EchoDefaultList | EchoEmpty

  datatype Request = GetList | AddValue(value: SessionId) | RemoveValue(value: SessionId)

  /** A status, the gRPC code and the message of an error body, and a list body. */
  datatype Response = Response(status: nat, code: Option<int>, message: string, body: Option<List>)

  /** What can happen to one request: a 503, no connection, or processing without an answer. */
  datatype Fault = NoFault | Unavailable503 | Unreachable | LostResponse

  const OUT_OF_RANGE := 11

  // ---------- the list ----------

  function IndexOf(values: seq<SessionId>, id: SessionId): (i: nat)
    ensures i <= |values| && (i < |values| ==> values[i] == id)
    ensures i == |values| <==> id !in values
  {
    if values == [] || values[0] == id then 0 else 1 + IndexOf(values[1..], id)
  }

  function Removed(values: seq<SessionId>, id: SessionId): seq<SessionId> {
    var i := IndexOf(values, id);
    if i == |values| then values else values[..i] + values[i + 1..]
  }

  predicate Distinct(values: seq<SessionId>) {
    forall i, j :: 0 <= i < j < |values| ==> values[i] != values[j]
  }

  function ParseList(list: Option<List>): Snapshot {
    match list
    case None => DISABLED
    case Some(l) => Snapshot(true, l.capacity, l.values)
  }

  // ---------- error texts ----------

  function Lower(s: string): string {
    seq(|s|, i requires 0 <= i < |s| => if 'A' <= s[i] <= 'Z' then s[i] + 32 as char else s[i])
  }

  predicate Contains(s: string, part: string) {
    part <= s || (s != [] && Contains(s[1..], part))
  }

  lemma {:induction false} ContainsInside(a: string, part: string, b: string)
    ensures Contains(a + part + b, part)
  {
    var s := a + part + b;
    if a == [] {
      assert s[..|part|] == part;
    } else {
      assert s[1..] == a[1..] + part + b;
      ContainsInside(a[1..], part, b);
    }
  }

  const CAPACITY := "capacity"

  predicate IndicatesCapacity(message: string) {
    Contains(Lower(message), CAPACITY) || Contains(Lower(message), "out of range")
  }

  function Decimal(n: int): string
    decreases if n < 0 then 1 - n else n
  {
    if n < 0 then "-" + Decimal(-n)
    else if n < 10 then ["0123456789"[n]]
    else Decimal(n / 10) + ["0123456789"[n % 10]]
  }

  const LIST_NAME := "players"

  // ---------- the runtimes ----------

  /** Either runtime, as a value: the state a history of calls leaves behind. */
  datatype World =
    | LocalWorld(capacity: int, players: seq<SessionId>)
    | RuntimeWorld(list: Option<List>, echo: Echo)

  function LocalSnapshot(capacity: int, players: seq<SessionId>): Snapshot {
    if capacity != 0 then Snapshot(true, capacity, players) else DISABLED
  }

  function EchoBody(echo: Echo, list: List): Option<List> {
    match echo
    case EchoList => Some(list)
    case EchoDefaultList => Some(List(0, []))
    case EchoEmpty => None
  }

  function ListNotFound(): Response {
    Response(404, Some(5), "list " + LIST_NAME + " not found", None)
  }

  function Duplicate(v: SessionId): Response {
    Response(409, Some(6), "value " + v + " already in list " + LIST_NAME, None)
  }

  function AtCapacity(capacity: int): Response {
    Response(400, Some(OUT_OF_RANGE), "list " + LIST_NAME + " is at capacity " + Decimal(capacity), None)
  }

  function ValueNotFound(v: SessionId): Response {
    Response(404, Some(5), "value " + v + " not found in list " + LIST_NAME, None)
  }

  /** The runtime's handling of one list request. */
  function Handle(list: Option<List>, echo: Echo, req: Request): (Response, Option<List>) {
    if list.None? then (ListNotFound(), list)
    else
      var l := list.value;
      match req
      case GetList => (Response(200, None, "", Some(l)), list)
      case AddValue(v) =>
        if v in l.values then (Duplicate(v), list)
        else if |l.values| >= l.capacity then (AtCapacity(l.capacity), list)
        else
          var now := List(l.capacity, l.values + [v]);
          (Response(200, None, "", EchoBody(echo, now)), Some(now))
      case RemoveValue(v) =>
        if v !in l.values then (ValueNotFound(v), list)
        else
          var now := List(l.capacity, Removed(l.values, v));
          (Response(200, None, "", EchoBody(echo, now)), Some(now))
  }

  /** One request over a network that may fail; the statuses the caller expects are handed back. */
  function Exchange(w: World, req: Request, fault: Fault, expected: set<nat>): (Result<Response>, World)
    requires w.RuntimeWorld?
  {
    match fault
    case Unavailable503 => (Err(RequestFailed), w)
    case Unreachable => (Err(SidecarUnavailable), w)
    case LostResponse => (Err(SidecarUnavailable), w.(list := Handle(w.list, w.echo, req).1))
    case NoFault =>
      var (res, list) := Handle(w.list, w.echo, req);
      (if 200 <= res.status < 300 || res.status in expected then Ok(res) else Err(RequestFailed), w.(list := list))
  }

  function GetPlayerList(w: World, fault: Fault): Result<Snapshot> {
    match w
    case LocalWorld(c, players) => Ok(LocalSnapshot(c, players))
    case RuntimeWorld(_, _) =>
      match Exchange(w, GetList, fault, {404}).0
      case Err(e) => Err(e)
      case Ok(res) =>
        if res.status == 404 then Ok(DISABLED)
        else if res.body.None? then Err(RequestFailed)
        else Ok(ParseList(res.body))
  }

  function AddError(res: Response, id: SessionId): Error {
    if res.status == 409 then PlayerAlreadyConnected(id)
    else if res.status == 404 then PlayerTrackingDisabled
    else if res.code == Some(OUT_OF_RANGE) || IndicatesCapacity(res.message) then ServerFull(None)
    else RequestFailed
  }

  /** Even an answer without the gRPC code is recognised by the runtime's own words. */
  lemma FullWithoutCode(capacity: int, id: SessionId)
    ensures AddError(AtCapacity(capacity).(code := None), id) == ServerFull(None)
  {
    var a, b := "list " + LIST_NAME + " is at ", " " + Decimal(capacity);
    var message := a + CAPACITY + b;
    assert AtCapacity(capacity).message == message by { SplitMessage(capacity); }
    LowerConcat(a + CAPACITY, b);
    LowerConcat(a, CAPACITY);
    LowerWord();
    ContainsInside(Lower(a), CAPACITY, Lower(b));
    hide Lower, Contains, Decimal;
    assert IndicatesCapacity(message);
  }

  lemma SplitMessage(capacity: int)
    ensures AtCapacity(capacity).message == "list " + LIST_NAME + " is at " + CAPACITY + (" " + Decimal(capacity))
  {
    hide Decimal;
    assert " is at capacity " == " is at " + CAPACITY + " ";
    var a, d := "list " + LIST_NAME, Decimal(capacity);
    assert a + (" is at " + CAPACITY + " ") + d == a + " is at " + CAPACITY + (" " + d);
  }

  lemma LowerConcat(a: string, b: string)
    ensures Lower(a + b) == Lower(a) + Lower(b)
  {
  }

  lemma LowerWord()
    ensures Lower(CAPACITY) == CAPACITY
  {
  }

  function AddPlayer(w: World, id: SessionId, f: Fault, reread: Fault): (Result<Snapshot>, World) {
    match w
    case LocalWorld(c, players) =>
      if c == 0 then (Err(PlayerTrackingDisabled), w)
      else if id in players then (Err(PlayerAlreadyConnected(id)), w)
      else if c >= 0 && |players| >= c then (Err(ServerFull(Some(c))), w)
      else (Ok(LocalSnapshot(c, players + [id])), LocalWorld(c, players + [id]))
    case RuntimeWorld(_, _) =>
      var (r, now) := Exchange(w, AddValue(id), f, {400, 404, 409});
      match r
      case Err(e) => (Err(e), now)
      case Ok(res) =>
        if 200 <= res.status < 300 then (GetPlayerList(now, reread), now) else (Err(AddError(res, id)), now)
  }

  /** None when the player was not in the list. */
  function RemovePlayer(w: World, id: SessionId, f: Fault, reread: Fault): (Result<Option<Snapshot>>, World) {
    match w
    case LocalWorld(c, players) =>
      if c == 0 || id !in players then (Ok(None), w)
      else (Ok(Some(LocalSnapshot(c, Removed(players, id)))), LocalWorld(c, Removed(players, id)))
    case RuntimeWorld(_, _) =>
      var (r, now) := Exchange(w, RemoveValue(id), f, {404});
      match r
      case Err(e) => (Err(e), now)
      case Ok(res) =>
        if res.status == 404 then (Ok(None), now)
        else match GetPlayerList(now, reread)
          case Ok(snap) => (Ok(Some(snap)), now)
          case Err(e) => (Err(e), now)
  }

  // ---------- the cache ----------

  datatype Op = Connect(id: SessionId) | Disconnect(id: SessionId) | Refresh

  /** An operation with the fate of its requests. */
  datatype Call = Call(op: Op, first: Fault, reread: Fault)

  /** What the caller sees; found is meaningful for disconnect. */
  datatype Reply = Success(found: bool) | Failure(error: Error)

  datatype Session = Session(world: World, cache: Snapshot)

  function Perform(s: Session, call: Call): (Reply, Session) {
    match call.op
    case Connect(id) =>
      (match AddPlayer(s.world, id, call.first, call.reread)
       case (Ok(snap), w) => (Success(true), Session(w, snap))
       case (Err(e), w) =>
         if e.PlayerTrackingDisabled? then (Failure(e), Session(w, DISABLED))
         else if e == ServerFull(None) then (Failure(ServerFull(Some(s.cache.capacity))), Session(w, s.cache))
         else (Failure(e), Session(w, s.cache)))
    case Disconnect(id) =>
      if !s.cache.exists_ then (Failure(PlayerTrackingDisabled), s)
      else (match RemovePlayer(s.world, id, call.first, call.reread)
            case (Ok(None), w) => (Success(false), Session(w, s.cache))
            case (Ok(Some(snap)), w) => (Success(true), Session(w, snap))
            case (Err(e), w) => (Failure(e), Session(w, s.cache)))
    case Refresh =>
      match GetPlayerList(s.world, call.first)
      case Ok(snap) => (Success(true), Session(s.world, snap))
      case Err(e) => (Failure(e), s)
  }

  function RunCalls(s: Session, calls: seq<Call>): Session
    decreases |calls|
  {
    if calls == [] then s else RunCalls(Perform(s, calls[0]).1, calls[1..])
  }

  /** The replies of a history and the cache after each call. */
  function Trace(s: Session, calls: seq<Call>): seq<(Reply, Snapshot)>
    decreases |calls|
  {
    if calls == [] then []
    else
      var (r, t) := Perform(s, calls[0]);
      [(r, t.cache)] + Trace(t, calls[1..])
  }

  /** The cache as the connect probe seeds it. */
  function Seeded(w: World): Session {
    match w
    case LocalWorld(c, players) => Session(w, LocalSnapshot(c, players))
    case RuntimeWorld(list, _) => Session(w, ParseList(list))
  }

  // ---------- cache agreement ----------

  ghost predicate Agrees(s: Session) {
    s.world.RuntimeWorld? && s.cache == ParseList(s.world.list)
  }

  lemma RemovedShorter(values: seq<SessionId>, id: SessionId)
    requires id in values
    ensures |Removed(values, id)| == |values| - 1
  {
  }

  /** The calls that would change the runtime's list. */
  predicate Mutates(list: Option<List>, op: Op) {
    list.Some? &&
    match op
    case Connect(id) => id !in list.value.values && |list.value.values| < list.value.capacity
    case Disconnect(id) => id in list.value.values
    case Refresh => false
  }

  /** The mutation reached the runtime, but its answer or the read after it did not reach the client. */
  predicate AnswerLost(first: Fault, reread: Fault) {
    first.LostResponse? || (first.NoFault? && !reread.NoFault?)
  }

  /**
   * One call breaks the agreement of cache and list exactly when it would change the list and its
   * answer is lost; so it reports a failure and the list has changed.
   */
  lemma AgreementIff(s: Session, call: Call)
    requires Agrees(s)
    ensures var (r, t) := Perform(s, call);
            && (Agrees(t) <==> !(Mutates(s.world.list, call.op) && AnswerLost(call.first, call.reread)))
            && (Agrees(t) <==> r.Success? || t.world.list == s.world.list)
  {
    if call.op.Disconnect? && Mutates(s.world.list, call.op) {
      RemovedShorter(s.world.list.value.values, call.op.id);
    }
  }

  /** A player who connects while the answer, or the read after it, gets lost is in the list and not in the cache. */
  lemma LostPlayer(id: SessionId, echo: Echo)
    ensures var s := Seeded(RuntimeWorld(Some(List(1, [])), echo));
            forall first, reread | (first, reread) in {(LostResponse, NoFault), (NoFault, Unreachable)} ::
              var (r, t) := Perform(s, Call(Connect(id), first, reread));
              r.Failure? && t.world.list == Some(List(1, [id])) && t.cache.values == [] && !Agrees(t)
  {
    assert [] + [id] == [id];
  }

  /** The call breaks the agreement. */
  predicate Breaks(s: Session, call: Call) {
    s.world.RuntimeWorld? && Mutates(s.world.list, call.op) && AnswerLost(call.first, call.reread)
  }

  /** Over every history, cache and list agree at every point exactly when no call loses the answer to a change. */
  lemma {:induction false} AgreementHistoryIff(s: Session, calls: seq<Call>)
    requires Agrees(s)
    ensures (forall n :: 0 <= n <= |calls| ==> Agrees(RunCalls(s, calls[..n]))) <==>
            (forall n :: 0 <= n < |calls| ==> !Breaks(RunCalls(s, calls[..n]), calls[n]))
  {
    hide Agrees, Perform, Mutates, AnswerLost;
    if forall n :: 0 <= n <= |calls| ==> Agrees(RunCalls(s, calls[..n])) {
      forall n | 0 <= n < |calls| ensures !Breaks(RunCalls(s, calls[..n]), calls[n]) {
        RunCallsNext(s, calls, n);
        assert Agrees(RunCalls(s, calls[..n])) && Agrees(RunCalls(s, calls[..n + 1]));
        AgreementIff(RunCalls(s, calls[..n]), calls[n]);
      }
    } else if forall n :: 0 <= n < |calls| ==> !Breaks(RunCalls(s, calls[..n]), calls[n]) {
      var k := 0;
      assert calls[..0] == [] && RunCalls(s, []) == s;
      while k < |calls|
        invariant 0 <= k <= |calls| && forall n :: 0 <= n <= k ==> Agrees(RunCalls(s, calls[..n]))
      {
        RunCallsNext(s, calls, k);
        AgreesOverRuntime(RunCalls(s, calls[..k]));
        AgreementIff(RunCalls(s, calls[..k]), calls[k]);
        k := k + 1;
      }
    }
  }

  lemma AgreesOverRuntime(s: Session)
    requires Agrees(s)
    ensures s.world.RuntimeWorld?
  {
  }

  lemma {:induction false} RunCallsSnoc(s: Session, calls: seq<Call>, call: Call)
    ensures RunCalls(s, calls + [call]) == Perform(RunCalls(s, calls), call).1
    decreases |calls|
  {
    hide Perform;
    var all := calls + [call];
    if calls == [] {
      assert RunCalls(s, all) == RunCalls(Perform(s, call).1, all[1..]);
    } else {
      assert all[0] == calls[0] && all[1..] == calls[1..] + [call];
      RunCallsSnoc(Perform(s, calls[0]).1, calls[1..], call);
    }
  }

  lemma RunCallsNext(s: Session, calls: seq<Call>, n: nat)
    requires n < |calls|
    ensures RunCalls(s, calls[..n + 1]) == Perform(RunCalls(s, calls[..n]), calls[n]).1
  {
    assert calls[..n + 1] == calls[..n] + [calls[n]];
    RunCallsSnoc(s, calls[..n], calls[n]);
  }

  /** A success that returned a list restores agreement, whatever the cache held before. */
  lemma SuccessRestores(s: Session, call: Call)
    requires s.world.RuntimeWorld?
    requires Perform(s, call).0 == Success(true)
    ensures Agrees(Perform(s, call).1)
  {
  }

  predicate Sound(l: List) {
    Distinct(l.values) && (l.capacity >= 0 ==> |l.values| <= l.capacity)
  }

  predicate SoundCache(c: Snapshot) {
    c.exists_ ==> Sound(List(c.capacity, c.values))
  }

  lemma RemovedDistinct(values: seq<SessionId>, id: SessionId)
    requires Distinct(values)
    ensures Distinct(Removed(values, id)) && |Removed(values, id)| <= |values|
  {
  }

  predicate SoundList(list: Option<List>) {
    list.Some? ==> Sound(list.value)
  }

  lemma HandleSound(list: Option<List>, echo: Echo, req: Request)
    requires SoundList(list)
    ensures SoundList(Handle(list, echo, req).1)
  {
    if list.Some? && req.RemoveValue? { RemovedDistinct(list.value.values, req.value); }
  }

  lemma ExchangeSound(w: World, req: Request, fault: Fault, expected: set<nat>)
    requires w.RuntimeWorld? && SoundList(w.list)
    ensures Exchange(w, req, fault, expected).1.RuntimeWorld? && SoundList(Exchange(w, req, fault, expected).1.list)
    ensures GetPlayerList(w, fault).Ok? ==> GetPlayerList(w, fault).value == ParseList(w.list)
  {
    HandleSound(w.list, w.echo, req);
    hide SoundList;
  }

  lemma SoundStep(s: Session, call: Call)
    requires s.world.RuntimeWorld? && SoundCache(s.cache) && SoundList(s.world.list)
    ensures var t := Perform(s, call).1;
            t.world.RuntimeWorld? && SoundCache(t.cache) && SoundList(t.world.list)
  {
    hide Exchange, GetPlayerList, Sound, AddError;
    match call.op
    case Connect(id) =>
      ExchangeSound(s.world, AddValue(id), call.first, {400, 404, 409});
      ExchangeSound(Exchange(s.world, AddValue(id), call.first, {400, 404, 409}).1, GetList, call.reread, {404});
    case Disconnect(id) =>
      ExchangeSound(s.world, RemoveValue(id), call.first, {404});
      ExchangeSound(Exchange(s.world, RemoveValue(id), call.first, {404}).1, GetList, call.reread, {404});
    case Refresh => ExchangeSound(s.world, GetList, call.first, {404});
  }

  /**
   * Over every history from a sound seed, in every echo mode and whatever fails, neither the list
   * nor the cache ever holds a duplicate or exceeds a non-negative capacity.
   */
  lemma {:induction false} AlwaysSound(s: Session, calls: seq<Call>)
    requires s.world.RuntimeWorld? && SoundCache(s.cache) && SoundList(s.world.list)
    ensures SoundCache(RunCalls(s, calls).cache)
    ensures RunCalls(s, calls).world.RuntimeWorld? && SoundList(RunCalls(s, calls).world.list)
    decreases |calls|
  {
    if calls != [] {
      SoundStep(s, calls[0]);
      AlwaysSound(Perform(s, calls[0]).1, calls[1..]);
    }
  }

  predicate AllSucceed(s: Session, calls: seq<Call>)
    decreases |calls|
  {
    calls == [] || (Perform(s, calls[0]).0.Success? && AllSucceed(Perform(s, calls[0]).1, calls[1..]))
  }

  /** Over every history of successful calls the cache equals the runtime's list. */
  lemma {:induction false} SuccessfulHistoriesAgree(s: Session, calls: seq<Call>)
    requires Agrees(s) && AllSucceed(s, calls)
    ensures Agrees(RunCalls(s, calls))
    decreases |calls|
  {
    if calls != [] {
      AgreementIff(s, calls[0]);
      SuccessfulHistoriesAgree(Perform(s, calls[0]).1, calls[1..]);
    }
  }

  /** What mutations echo is never seen by the caller. */
  lemma {:induction false} EchoIrrelevant(list: Option<List>, cache: Snapshot, e1: Echo, e2: Echo, calls: seq<Call>)
    ensures Trace(Session(RuntimeWorld(list, e1), cache), calls) == Trace(Session(RuntimeWorld(list, e2), cache), calls)
    decreases |calls|
  {
    if calls != [] {
      var (r1, t1) := Perform(Session(RuntimeWorld(list, e1), cache), calls[0]);
      var (r2, t2) := Perform(Session(RuntimeWorld(list, e2), cache), calls[0]);
      EchoStep(list, cache, e1, e2, calls[0]);
      EchoIrrelevant(t1.world.list, t1.cache, e1, e2, calls[1..]);
    }
  }

  lemma EchoExchange(list: Option<List>, e1: Echo, e2: Echo, req: Request, fault: Fault, expected: set<nat>)
    ensures var (r1, w1) := Exchange(RuntimeWorld(list, e1), req, fault, expected);
            var (r2, w2) := Exchange(RuntimeWorld(list, e2), req, fault, expected);
            && w1.RuntimeWorld? && w1.echo == e1 && w2 == RuntimeWorld(w1.list, e2)
            && (r1.Err? ==> r2 == r1)
            && (r1.Ok? ==> r2.Ok? && r2.value == r1.value.(body := r2.value.body))
    ensures GetPlayerList(RuntimeWorld(list, e1), fault) == GetPlayerList(RuntimeWorld(list, e2), fault)
  {
  }

  lemma EchoStep(list: Option<List>, cache: Snapshot, e1: Echo, e2: Echo, call: Call)
    ensures var (r1, t1) := Perform(Session(RuntimeWorld(list, e1), cache), call);
            var (r2, t2) := Perform(Session(RuntimeWorld(list, e2), cache), call);
            && r1 == r2 && t1.cache == t2.cache
            && t1.world == RuntimeWorld(t1.world.list, e1) && t2.world == RuntimeWorld(t1.world.list, e2)
  {
    hide Exchange, GetPlayerList;
    var w := RuntimeWorld(list, e1);
    match call.op
    case Connect(id) =>
      EchoExchange(list, e1, e2, AddValue(id), call.first, {400, 404, 409});
      EchoExchange(Exchange(w, AddValue(id), call.first, {400, 404, 409}).1.list, e1, e2, GetList, call.reread, {404});
    case Disconnect(id) =>
      EchoExchange(list, e1, e2, RemoveValue(id), call.first, {404});
      EchoExchange(Exchange(w, RemoveValue(id), call.first, {404}).1.list, e1, e2, GetList, call.reread, {404});
    case Refresh => EchoExchange(list, e1, e2, GetList, call.first, {404});
  }

  // ---------- local mode against the runtime ----------

  predicate NoFaults(calls: seq<Call>) {
    forall i :: 0 <= i < |calls| ==> calls[i].first.NoFault? && calls[i].reread.NoFault?
  }

  /** The local configurations that stand for a given runtime list. */
  predicate Matching(local: World, list: Option<List>)
    requires local.LocalWorld?
  {
    || (local.capacity > 0 && list == Some(List(local.capacity, local.players)))
    || (local.capacity == 0 && list == None)
  }

  /** Two sessions that nobody can tell apart: each cache is what its own world would be seeded with. */
  predicate Simulates(local: Session, remote: Session) {
    && local.world.LocalWorld? && remote.world.RuntimeWorld? && Matching(local.world, remote.world.list)
    && local == Seeded(local.world) && remote == Seeded(remote.world)
  }

  lemma SeededSimulate(local: World, list: Option<List>, echo: Echo)
    requires local.LocalWorld? && Matching(local, list)
    ensures Simulates(Seeded(local), Seeded(RuntimeWorld(list, echo)))
  {
  }

  lemma SameCache(local: Session, remote: Session)
    requires Simulates(local, remote)
    ensures local.cache == remote.cache
  {
  }

  lemma SimulatesOne(local: Session, remote: Session, op: Op)
    requires Simulates(local, remote)
    ensures var (r1, t1) := Perform(local, Call(op, NoFault, NoFault));
            var (r2, t2) := Perform(remote, Call(op, NoFault, NoFault));
            r1 == r2 && Simulates(t1, t2)
  {
    hide IndicatesCapacity, Decimal, Removed;
  }

  lemma {:induction false} SimulatedTraces(local: Session, remote: Session, calls: seq<Call>)
    requires Simulates(local, remote) && NoFaults(calls)
    ensures Trace(local, calls) == Trace(remote, calls)
    decreases |calls|
  {
    if calls != [] {
      hide Simulates, Perform;
      assert calls[0] == Call(calls[0].op, NoFault, NoFault);
      SimulatesOne(local, remote, calls[0].op);
      var t1, t2 := Perform(local, calls[0]).1, Perform(remote, calls[0]).1;
      SameCache(t1, t2);
      SimulatedTraces(t1, t2, calls[1..]);
    }
  }

  lemma Simulation(local: World, list: Option<List>, echo: Echo, calls: seq<Call>)
    requires local.LocalWorld? && Matching(local, list) && NoFaults(calls)
    ensures Trace(Seeded(local), calls) == Trace(Seeded(RuntimeWorld(list, echo)), calls)
  {
    SeededSimulate(local, list, echo);
    SimulatedTraces(Seeded(local), Seeded(RuntimeWorld(list, echo)), calls);
  }

  /** A session id that is not in a list. */
  function Fresh(values: seq<SessionId>): (id: SessionId)
    ensures forall v :: v in values ==> |v| < |id|
    ensures id !in values
  {
    if values == [] then "a"
    else
      var id := Fresh(values[1..]);
      var longer := if |values[0]| < |id| then id else values[0] + "a";
      longer
  }

  ghost predicate ObservablyEqual(local: World, list: Option<List>, echo: Echo)
    requires local.LocalWorld?
  {
    && Seeded(local).cache == Seeded(RuntimeWorld(list, echo)).cache
    && forall calls | NoFaults(calls) :: Trace(Seeded(local), calls) == Trace(Seeded(RuntimeWorld(list, echo)), calls)
  }

  lemma UnlimitedAccepts(capacity: int, players: seq<SessionId>, id: SessionId)
    requires capacity < 0 && id !in players
    ensures Perform(Seeded(LocalWorld(capacity, players)), Call(Connect(id), NoFault, NoFault)).0 == Success(true)
  {
  }

  lemma NegativeRefuses(capacity: int, players: seq<SessionId>, echo: Echo, id: SessionId)
    requires capacity < 0
    ensures var s := Seeded(RuntimeWorld(Some(List(capacity, players)), echo));
            Perform(s, Call(Connect(id), NoFault, NoFault)).0.Failure?
  {
    hide IndicatesCapacity, Decimal;
  }

  lemma TraceOfOne(s: Session, call: Call)
    ensures |Trace(s, [call])| == 1 && Trace(s, [call])[0].0 == Perform(s, call).0
  {
    hide Perform;
    assert [call][1..] == [];
  }

  /** Two worlds that answer one call differently. */
  lemma DifferAt(local: World, list: Option<List>, echo: Echo, op: Op)
    requires local.LocalWorld?
    requires Perform(Seeded(local), Call(op, NoFault, NoFault)).0 !=
             Perform(Seeded(RuntimeWorld(list, echo)), Call(op, NoFault, NoFault)).0
    ensures !ObservablyEqual(local, list, echo)
  {
    hide Perform, Seeded, Trace;
    var call := Call(op, NoFault, NoFault);
    var calls := [call];
    TraceOfOne(Seeded(local), call);
    TraceOfOne(Seeded(RuntimeWorld(list, echo)), call);
    assert NoFaults(calls) && Trace(Seeded(local), calls) != Trace(Seeded(RuntimeWorld(list, echo)), calls);
  }

  /** Unlimited local mode accepts a connection that a runtime with the same list refuses. */
  lemma UnlimitedDiffers(capacity: int, players: seq<SessionId>, echo: Echo)
    requires capacity < 0
    ensures !ObservablyEqual(LocalWorld(capacity, players), Some(List(capacity, players)), echo)
  {
    hide Perform, Seeded, ObservablyEqual;
    var id := Fresh(players);
    UnlimitedAccepts(capacity, players, id);
    NegativeRefuses(capacity, players, echo, id);
    hide Fresh;
    DifferAt(LocalWorld(capacity, players), Some(List(capacity, players)), echo, Connect(id));
  }

  /**
   * Local mode cannot be told from the runtime, by any sequence of connect, disconnect and refresh
   * calls, exactly when its capacity is positive and the runtime has the same list, or its capacity
   * is zero and the runtime has none. In particular unlimited local mode (capacity -1) always can.
   */
  lemma ObservablyEqualIff(local: World, list: Option<List>, echo: Echo)
    requires local.LocalWorld?
    ensures ObservablyEqual(local, list, echo) <==> Matching(local, list)
  {
    if Matching(local, list) {
      forall calls | NoFaults(calls)
         ensures Trace(Seeded(local), calls) == Trace(Seeded(RuntimeWorld(list, echo)), calls) {
        Simulation(local, list, echo, calls);
      }
    } else if Seeded(local).cache == Seeded(RuntimeWorld(list, echo)).cache {
      assert local.capacity < 0 && list == Some(List(local.capacity, local.players));
      hide Trace;
      UnlimitedDiffers(local.capacity, local.players, echo);
    }
  }

  /** No runtime list is like unlimited local mode, not even one with the same capacity and players. */
  lemma UnlimitedIsTold(list: Option<List>, echo: Echo)
    ensures !ObservablyEqual(LocalWorld(-1, []), list, echo)
  {
    hide ObservablyEqual;
    ObservablyEqualIff(LocalWorld(-1, []), list, echo);
  }
}
