/** The stateful objects behind player tracking, each proved to do what PlayerTracking says. */
module PlayerObjects {
  import opened Options
  import opened PlayerTracking

  class LocalTransport {
    const capacity: int
    var players: seq<SessionId>
    /** The lists carried by the watch updates emitted so far. */
    var emitted: seq<Option<List>>

    constructor (capacity: int, players: seq<SessionId>)
      ensures World() == LocalWorld(capacity, players) && emitted == []
    {
      this.capacity := capacity;
      this.players := players;
      emitted := [];
    }

    ghost function World(): World
      reads this
    {
      LocalWorld(capacity, players)
    }

    /** The players list of the server object, absent while tracking is disabled. */
    function ListNow(): (list: Option<List>)
      reads this
      ensures ParseList(list) == LocalSnapshot(capacity, players)
    {
      if capacity != 0 then Some(List(capacity, players)) else None
    }

    /** A success emits one update, which carries the same list as the answer. */
    method AddPlayer(id: SessionId) returns (r: Result<Snapshot>)
      modifies this
      ensures (r, World()) == PlayerTracking.AddPlayer(old(World()), id, NoFault, NoFault)
      ensures emitted == old(emitted) + if r.Ok? then [ListNow()] else []
      ensures r.Ok? ==> r.value == ParseList(ListNow())
    {
      if capacity == 0 { return Err(PlayerTrackingDisabled); }
      for i := 0 to |players|
        invariant id !in players[..i]
      {
        if players[i] == id { return Err(PlayerAlreadyConnected(id)); }
        assert players[..i + 1] == players[..i] + [players[i]];
      }
      assert players[..|players|] == players;
      if capacity >= 0 && |players| >= capacity { return Err(ServerFull(Some(capacity))); }
      players := players + [id];
      emitted := emitted + [ListNow()];
      r := Ok(LocalSnapshot(capacity, players));
    }

    method RemovePlayer(id: SessionId) returns (r: Result<Option<Snapshot>>)
      modifies this
      ensures (r, World()) == PlayerTracking.RemovePlayer(old(World()), id, NoFault, NoFault)
      ensures emitted == old(emitted) + if r.Ok? && r.value.Some? then [ListNow()] else []
      ensures r.Ok? && r.value.Some? ==> r.value.value == ParseList(ListNow())
    {
      if capacity == 0 { return Ok(None); }
      var index := IndexOf(players, id);
      if index == |players| { return Ok(None); }
      players := players[..index] + players[index + 1..];
      emitted := emitted + [ListNow()];
      r := Ok(Some(LocalSnapshot(capacity, players)));
    }
  }

  class FakeRuntime {
    var list: Option<List>
    const echo: Echo

    constructor (list: Option<List>, echo: Echo)
      ensures World() == RuntimeWorld(list, echo)
    {
      this.list, this.echo := list, echo;
    }

    ghost function World(): World
      reads this
    {
      RuntimeWorld(list, echo)
    }

    method HandleList(req: Request) returns (res: Response)
      modifies this`list
      ensures (res, list) == Handle(old(list), echo, req)
    {
      if list.None? { return ListNotFound(); }
      var l := list.value;
      match req
      case GetList => res := Response(200, None, "", Some(l));
      case AddValue(v) =>
        if v in l.values { return Duplicate(v); }
        if |l.values| >= l.capacity { return AtCapacity(l.capacity); }
        list := Some(l.(values := l.values + [v]));
        res := Response(200, None, "", EchoBody(echo, list.value));
      case RemoveValue(v) =>
        var index := IndexOf(l.values, v);
        if index == |l.values| { return ValueNotFound(v); }
        list := Some(l.(values := l.values[..index] + l.values[index + 1..]));
        res := Response(200, None, "", EchoBody(echo, list.value));
    }

    /** One request, over a network that may drop it or its answer. */
    method Send(req: Request, fault: Fault, expected: set<nat>) returns (r: Result<Response>)
      modifies this`list
      ensures (r, World()) == Exchange(old(World()), req, fault, expected)
    {
      if fault.Unavailable503? { return Err(RequestFailed); }
      if fault.Unreachable? { return Err(SidecarUnavailable); }
      var res := HandleList(req);
      if fault.LostResponse? { return Err(SidecarUnavailable); }
      r := if 200 <= res.status < 300 || res.status in expected then Ok(res) else Err(RequestFailed);
    }
  }

  /** The REST transport: mutations are followed by a re-read, whatever they echoed. */
  class SidecarTransport {
    const runtime: FakeRuntime

    constructor (runtime: FakeRuntime)
      ensures this.runtime == runtime
    {
      this.runtime := runtime;
    }

    method GetPlayerList(fault: Fault) returns (r: Result<Snapshot>)
      modifies runtime`list
      ensures r == PlayerTracking.GetPlayerList(old(runtime.World()), fault) && runtime.list == old(runtime.list)
    {
      var res := runtime.Send(GetList, fault, {404});
      if res.Err? { return Err(res.error); }
      if res.value.status == 404 { return Ok(DISABLED); }
      if res.value.body.None? { return Err(RequestFailed); }
      r := Ok(ParseList(res.value.body));
    }

    method AddPlayer(id: SessionId, fault: Fault, reread: Fault) returns (r: Result<Snapshot>)
      modifies runtime`list
      ensures (r, runtime.World()) == PlayerTracking.AddPlayer(old(runtime.World()), id, fault, reread)
    {
      var res := runtime.Send(AddValue(id), fault, {400, 404, 409});
      if res.Err? { return Err(res.error); }
      if 200 <= res.value.status < 300 {
        r := GetPlayerList(reread);
      } else {
        r := Err(AddError(res.value, id));
      }
    }

    method RemovePlayer(id: SessionId, fault: Fault, reread: Fault) returns (r: Result<Option<Snapshot>>)
      modifies runtime`list
      ensures (r, runtime.World()) == PlayerTracking.RemovePlayer(old(runtime.World()), id, fault, reread)
    {
      var res := runtime.Send(RemoveValue(id), fault, {404});
      if res.Err? { return Err(res.error); }
      if res.value.status == 404 { return Ok(None); }
      var list := GetPlayerList(reread);
      r := match list case Ok(snap) => Ok(Some(snap)) case Err(e) => Err(e);
    }
  }

  datatype Transport = Local(local: LocalTransport) | Sidecar(sidecar: SidecarTransport)

  class Players {
    const transport: Transport
    var snapshot: Snapshot

    constructor (transport: Transport)
      ensures this.transport == transport && snapshot == DISABLED
    {
      this.transport := transport;
      snapshot := DISABLED;
    }

    ghost function Backend(): object {
      if transport.Local? then transport.local else transport.sidecar.runtime
    }

    ghost function Session(): Session
      reads this, Backend()
    {
      PlayerTracking.Session(if transport.Local? then transport.local.World()
          else transport.sidecar.runtime.World(), snapshot)
    }

    /** Local calls have no requests to fail. */
    ghost predicate Possible(fault: Fault, reread: Fault) {
      transport.Local? ==> fault.NoFault? && reread.NoFault?
    }

    method Connect(id: SessionId, fault: Fault, reread: Fault) returns (reply: Reply)
      requires Possible(fault, reread)
      modifies this, Backend()
      ensures (reply, Session()) == Perform(old(Session()), Call(PlayerTracking.Connect(id), fault, reread))
    {
      var r;
      match transport {
        case Local(l) => r := l.AddPlayer(id);
        case Sidecar(s) => r := s.AddPlayer(id, fault, reread);
      }
      match r
      case Ok(snap) =>
        snapshot := snap;
        reply := Success(true);
      case Err(PlayerTrackingDisabled) =>
        snapshot := DISABLED;
        reply := Failure(PlayerTrackingDisabled);
      case Err(ServerFull(None)) =>
        reply := Failure(ServerFull(Some(snapshot.capacity)));
      case Err(other) =>
        reply := Failure(other);
    }

    method Disconnect(id: SessionId, fault: Fault, reread: Fault) returns (reply: Reply)
      requires Possible(fault, reread)
      modifies this, Backend()
      ensures (reply, Session()) == Perform(old(Session()), Call(PlayerTracking.Disconnect(id), fault, reread))
    {
      if !snapshot.exists_ { return Failure(PlayerTrackingDisabled); }
      var r;
      match transport {
        case Local(l) => r := l.RemovePlayer(id);
        case Sidecar(s) => r := s.RemovePlayer(id, fault, reread);
      }
      match r
      case Err(e) => reply := Failure(e);
      case Ok(None) => reply := Success(false);
      case Ok(Some(snap)) =>
        snapshot := snap;
        reply := Success(true);
    }

    method Refresh(fault: Fault) returns (reply: Reply)
      requires Possible(fault, NoFault)
      modifies this, Backend()
      ensures (reply, Session()) == Perform(old(Session()), Call(PlayerTracking.Refresh, fault, NoFault))
    {
      var r;
      match transport {
        case Local(l) => r := Ok(LocalSnapshot(l.capacity, l.players));
        case Sidecar(s) => r := s.GetPlayerList(fault);
      }
      if r.Err? { return Failure(r.error); }
      snapshot := r.value;
      reply := Success(true);
    }

    /** The connect seed and every watch update overwrite the cache with the list they carry. */
    method SyncFromGameServer(list: Option<List>)
      modifies this
      ensures snapshot == ParseList(list)
    {
      snapshot := ParseList(list);
    }

    /** One call of a history. */
    method Do(call: Call) returns (reply: Reply)
      requires Possible(call.first, call.reread)
      modifies this, Backend()
      ensures (reply, Session()) == Perform(old(Session()), call)
    {
      match call.op
      case Connect(id) => reply := Connect(id, call.first, call.reread);
      case Disconnect(id) => reply := Disconnect(id, call.first, call.reread);
      case Refresh => reply := Refresh(call.first);
    }

    /** A history of calls: the replies, each with the cache after it. */
    method DoAll(calls: seq<Call>) returns (trace: seq<(Reply, Snapshot)>)
      requires forall i :: 0 <= i < |calls| ==> Possible(calls[i].first, calls[i].reread)
      modifies this, Backend()
      ensures trace == Trace(old(Session()), calls) && Session() == RunCalls(old(Session()), calls)
    {
      hide Perform;
      trace := [];
      for i := 0 to |calls|
        invariant trace + Trace(Session(), calls[i..]) == Trace(old(Session()), calls)
        invariant RunCalls(Session(), calls[i..]) == RunCalls(old(Session()), calls)
      {
        TraceStep(trace, Session(), calls, i);
        var reply := Do(calls[i]);
        trace := trace + [(reply, snapshot)];
      }
    }
  }

  lemma TraceStep(trace: seq<(Reply, Snapshot)>, s: Session, calls: seq<Call>, i: nat)
    requires i < |calls|
    ensures var (r, t) := Perform(s, calls[i]);
            && trace + Trace(s, calls[i..]) == trace + [(r, t.cache)] + Trace(t, calls[i + 1..])
            && RunCalls(s, calls[i..]) == RunCalls(t, calls[i + 1..])
  {
    assert calls[i..][1..] == calls[i + 1..];
  }

  /** Two running clients, one in local mode and one over the REST runtime, seeded alike: nobody can tell. */
  method SideBySide(local: World, list: Option<List>, echo: Echo, calls: seq<Call>)
    returns (one: seq<(Reply, Snapshot)>, other: seq<(Reply, Snapshot)>)
    requires local.LocalWorld? && Matching(local, list) && NoFaults(calls)
    ensures one == other && |one| == |calls|
  {
    var memory := new LocalTransport(local.capacity, local.players);
    var p := new Players(Local(memory));
    p.SyncFromGameServer(memory.ListNow());
    one := p.DoAll(calls);
    var runtime := new FakeRuntime(list, echo);
    var sidecar := new SidecarTransport(runtime);
    var q := new Players(Sidecar(sidecar));
    q.SyncFromGameServer(list);
    other := q.DoAll(calls);
    Simulation(local, list, echo, calls);
    TraceLength(Seeded(local), calls);
  }

  lemma {:induction false} TraceLength(s: Session, calls: seq<Call>)
    ensures |Trace(s, calls)| == |calls|
    decreases |calls|
  {
    if calls != [] { TraceLength(Perform(s, calls[0]).1, calls[1..]); }
  }

  /** A running client over the REST runtime: if every reply is a success, its cache is the runtime's list. */
  method CacheAfter(list: Option<List>, echo: Echo, calls: seq<Call>)
    returns (trace: seq<(Reply, Snapshot)>, cache: Snapshot, left: Option<List>)
    ensures |trace| == |calls|
    ensures (forall i :: 0 <= i < |trace| ==> trace[i].0.Success?) ==> cache == ParseList(left)
    ensures SoundList(list) ==> SoundList(left) && SoundCache(cache)
  {
    var runtime := new FakeRuntime(list, echo);
    var sidecar := new SidecarTransport(runtime);
    var p := new Players(Sidecar(sidecar));
    p.SyncFromGameServer(list);
    trace := p.DoAll(calls);
    cache, left := p.snapshot, runtime.list;
    var s := Seeded(RuntimeWorld(list, echo));
    TraceLength(s, calls);
    if forall i :: 0 <= i < |trace| ==> trace[i].0.Success? {
      SuccessesSucceed(s, calls);
      SuccessfulHistoriesAgree(s, calls);
    }
    if SoundList(list) { AlwaysSound(s, calls); }
  }

  lemma {:induction false} SuccessesSucceed(s: Session, calls: seq<Call>)
    requires forall i :: 0 <= i < |Trace(s, calls)| ==> Trace(s, calls)[i].0.Success?
    ensures AllSucceed(s, calls)
    decreases |calls|
  {
    if calls != [] {
      var (r, t) := Perform(s, calls[0]);
      assert Trace(s, calls)[0].0 == r && Trace(s, calls)[1..] == Trace(t, calls[1..]);
      SuccessesSucceed(t, calls[1..]);
    }
  }
}
