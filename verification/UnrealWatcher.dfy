/**
 * The Unreal watcher under re-entry: subscriber callbacks run inside the connection's own callback
 * and may subscribe, unsubscribe, close, or cause further frames, to any depth.
 */
module UnrealWatcher {
  import opened Options

  type Handle = nat

  /** A connection object: ticking from its creation, if a socket could be made, until either side closes it. */
  datatype Connection = Connection(id: nat, ticking: bool)

  datatype Job = Reconnect | Teardown

  /** What a subscriber does when it is called; a nested frame brings its own callbacks. */
  datatype Act = Subscribe | Unsubscribe(h: Handle) | Close | Frame(callbacks: seq<Callback>)

  /** The acts of one subscriber in one frame, in order. */
  datatype Callback = Callback(acts: seq<Act>)

  /** What reaches the watcher from outside: its owner, the connection, the core ticker. */
  datatype Event = Outside(act: Act) | PeerClosed | Fire(ticker: nat)

  /** The end of a connection object, with the callback depth at that moment. */
  datatype End = End(id: nat, depth: int)

  function Dropped(subscribers: seq<Handle>, h: Handle): seq<Handle> {
    if subscribers == [] then []
    else (if subscribers[0] == h then [] else [subscribers[0]]) + Dropped(subscribers[1..], h)
  }

  /** Dropping looks at every subscriber for itself. */
  lemma {:induction false} DroppedAppend(a: seq<Handle>, b: seq<Handle>, h: Handle)
    ensures Dropped(a + b, h) == Dropped(a, h) + Dropped(b, h)
  {
    if a == [] {
      assert a + b == b;
    } else {
      assert (a + b)[0] == a[0] && (a + b)[1..] == a[1..] + b;
      DroppedAppend(a[1..], b, h);
    }
  }

  lemma {:induction false} DroppedNobody(a: seq<Handle>, h: Handle)
    requires h !in a
    ensures Dropped(a, h) == a
  {
    if a != [] { DroppedNobody(a[1..], h); }
  }

  /** Unsubscribing takes out the one subscriber with that handle and keeps the others in order. */
  lemma DroppedSplit(a: seq<Handle>, h: Handle, b: seq<Handle>)
    requires h !in a && h !in b
    ensures Dropped(a + [h] + b, h) == a + b
  {
    DroppedNobody(a, h);
    DroppedNobody(b, h);
    DroppedAppend(a + [h], b, h);
    DroppedAppend(a, [h], h);
    DroppedOne(h);
    hide Dropped;
    assert a + [] == a;
  }

  lemma DroppedOne(h: Handle)
    ensures Dropped([h], h) == []
  {
  }

  /** What callbacks change: the subscribers, the next handle, and whether the stream was closed. */
  datatype View = View(subscribers: seq<Handle>, next: Handle, closed: bool)

  function ActView(v: View, act: Act): View
    decreases act, 0
  {
    match act
    case Subscribe => v.(subscribers := v.subscribers + [v.next], next := v.next + 1)
    case Unsubscribe(h) =>
      var left := Dropped(v.subscribers, h);
      v.(subscribers := left, closed := v.closed || left == [])
    case Close => v.(closed := true)
    case Frame(callbacks) => FrameView(v, callbacks, |v.subscribers|)
  }

  function ActsView(v: View, acts: seq<Act>): View
    decreases acts, 1
  {
    if acts == [] then v else ActsView(ActView(v, acts[0]), acts[1..])
  }

  /** A frame to n subscribers: the i-th runs the i-th list of acts, if there is one. */
  function FrameView(v: View, callbacks: seq<Callback>, n: nat): View
    decreases callbacks, 2
  {
    if n == 0 || callbacks == [] then v else FrameView(ActsView(v, callbacks[0].acts), callbacks[1..], n - 1)
  }

  /** What the callbacks of a frame do, one after the other. */
  function ActsOf(callbacks: seq<Callback>): seq<Act> {
    if callbacks == [] then [] else callbacks[0].acts + ActsOf(callbacks[1..])
  }

  lemma {:induction false} ActsAppend(v: View, a: seq<Act>, b: seq<Act>)
    ensures ActsView(v, a + b) == ActsView(ActsView(v, a), b)
    decreases |a|
  {
    hide ActView;
    if a == [] {
      assert a + b == b;
    } else {
      assert (a + b)[0] == a[0] && (a + b)[1..] == a[1..] + b;
      ActsAppend(ActView(v, a[0]), a[1..], b);
    }
  }

  /** A frame reaches the n subscribers it was taken for, in order, whatever the earlier ones do. */
  lemma {:induction false} FrameInOrder(v: View, callbacks: seq<Callback>, n: nat)
    ensures var reached := if n < |callbacks| then n else |callbacks|;
            FrameView(v, callbacks, n) == ActsView(v, ActsOf(callbacks[..reached]))
    decreases |callbacks|
  {
    hide ActsView;
    var reached := if n < |callbacks| then n else |callbacks|;
    if reached == 0 {
      assert callbacks[..reached] == [];
      NoActs(v);
    } else {
      var first, more := callbacks[0].acts, callbacks[1..];
      assert callbacks[..reached][0] == callbacks[0] && callbacks[..reached][1..] == more[..reached - 1];
      FrameInOrder(ActsView(v, first), more, n - 1);
      ActsAppend(v, first, ActsOf(more[..reached - 1]));
    }
  }

  lemma NoActs(v: View)
    ensures ActsView(v, []) == v
  {
  }

  /** A nested frame goes to whoever is subscribed when it comes; nobody being left, or a close, ends the stream. */
  lemma ActMeaning(v: View, a: seq<Handle>, h: Handle, b: seq<Handle>, callbacks: seq<Callback>)
    requires h !in a && h !in b
    ensures ActView(v, Subscribe) == View(v.subscribers + [v.next], v.next + 1, v.closed)
    ensures ActView(v, Close) == View(v.subscribers, v.next, true)
    ensures ActView(View(a + [h] + b, v.next, false), Unsubscribe(h)) == View(a + b, v.next, a == b == [])
    ensures v.subscribers == [] ==> ActView(v, Frame(callbacks)) == v
    ensures |callbacks| <= |v.subscribers| ==> ActView(v, Frame(callbacks)) == ActsView(v, ActsOf(callbacks))
  {
    hide ActsView, ActsOf;
    DroppedSplit(a, h, b);
    FrameInOrder(v, callbacks, |v.subscribers|);
    NoActs(v);
    assert callbacks[..|callbacks|] == callbacks;
  }

  /** The rest of a frame, from the k-th callback on. */
  lemma FrameRest(v: View, callbacks: seq<Callback>, k: nat, n: nat)
    requires k <= |callbacks|
    ensures FrameView(v, callbacks[k..], n) ==
            if n == 0 || k == |callbacks| then v
            else FrameView(ActsView(v, callbacks[k].acts), callbacks[k + 1..], n - 1)
    ensures callbacks[0..] == callbacks
  {
    hide ActsView;
    if k < |callbacks| { assert callbacks[k..][1..] == callbacks[k + 1..]; }
  }

  class Watcher {
    /** Whether the n-th connection gets a socket; one without stays inert. */
    const opens: nat -> bool
    var subscribers: seq<Handle>
    var nextHandle: nat
    var connection: Option<Connection>
    var openCount: nat
    var reconnectHandle: Option<nat>
    var teardownHandle: Option<nat>
    var closing: bool
    var callbackDepth: int
    /** The watcher's tickers in the core ticker. */
    var tickers: map<nat, Job>
    var nextTicker: nat
    /** Every connection destroyed so far, and the subscribers after each event so far. */
    var ended: seq<End>
    var history: seq<seq<Handle>>

    constructor (opens: nat -> bool)
      ensures Valid() && this.opens == opens && callbackDepth == 0 && subscribers == [] && nextHandle == 0
      ensures connection.None? && openCount == 0 && tickers == map[] && ended == [] && history == []
    {
      this.opens := opens;
      subscribers, nextHandle, connection, openCount := [], 0, None, 0;
      reconnectHandle, teardownHandle, closing, callbackDepth := None, None, false, 0;
      tickers, nextTicker, ended, history := map[], 0, [], [];
    }

    /** The registered tickers are exactly the valid handles, each with its job. */
    ghost predicate TickersMatch()
      reads this
    {
      && (forall k :: k in tickers <==> reconnectHandle == Some(k) || teardownHandle == Some(k))
      && (reconnectHandle.Some? ==> tickers[reconnectHandle.value].Reconnect? && reconnectHandle.value < nextTicker)
      && (teardownHandle.Some? ==> tickers[teardownHandle.value].Teardown? && teardownHandle.value < nextTicker)
    }

    ghost predicate Valid()
      reads this
    {
      && callbackDepth >= 0 && !closing && TickersMatch()
      // A pending ticker belongs to a connection that has stopped ticking, and only one is pending.
      && (reconnectHandle.Some? || teardownHandle.Some? ==> connection.Some? && !connection.value.ticking)
      && (reconnectHandle.None? || teardownHandle.None?)
      && (connection.Some? ==> connection.value.id < openCount)
      // No connection was ever destroyed under one of its callbacks.
      && (forall i :: 0 <= i < |ended| ==> ended[i].depth == 0)
    }

    /** Connection.Reset(): allowed only on a fresh stack. */
    method ResetConnection()
      requires callbackDepth == 0
      modifies this`connection, this`ended
      ensures connection.None?
      ensures ended == old(ended) + if old(connection).Some? then [End(old(connection).value.id, 0)] else []
    {
      if connection.Some? { ended := ended + [End(connection.value.id, callbackDepth)]; }
      connection := None;
    }

    /** The connection that opening one now would give. */
    function Opened(): Connection
      reads this
    {
      Connection(openCount, opens(openCount))
    }

    method OpenConnection()
      modifies this`connection, this`openCount
      ensures connection == Some(old(Opened())) && openCount == old(openCount) + 1
    {
      connection := Some(Opened());
      openCount := openCount + 1;
    }

    method CancelReconnect()
      modifies this`tickers, this`reconnectHandle
      ensures reconnectHandle.None?
      ensures tickers == if old(reconnectHandle).Some? then old(tickers) - {old(reconnectHandle).value}
              else old(tickers)
    {
      if reconnectHandle.Some? {
        tickers := tickers - {reconnectHandle.value};
        reconnectHandle := None;
      }
    }

    method CancelTeardown()
      modifies this`tickers, this`teardownHandle
      ensures teardownHandle.None?
      ensures tickers == if old(teardownHandle).Some? then old(tickers) - {old(teardownHandle).value} else old(tickers)
    {
      if teardownHandle.Some? {
        tickers := tickers - {teardownHandle.value};
        teardownHandle := None;
      }
    }

    /** Destroys the connection now, or from a one-shot ticker when a callback is on the stack. */
    method TeardownConnection()
      requires callbackDepth >= 0 && TickersMatch() && reconnectHandle.None?
      requires teardownHandle.Some? ==> connection.Some?
      modifies this`connection, this`ended, this`tickers, this`teardownHandle, this`nextTicker
      ensures TickersMatch()
      ensures old(connection).None? ==> connection.None? && teardownHandle.None? && ended == old(ended)
      ensures old(connection).Some? && callbackDepth == 0 ==>
                connection.None? && teardownHandle.None? && ended == old(ended) + [End(old(connection).value.id, 0)]
      ensures old(connection).Some? && callbackDepth > 0 ==>
                && connection == Some(old(connection).value.(ticking := false))
                && teardownHandle.Some? && ended == old(ended)
    {
      if connection.None? {
        CancelTeardown();
        return;
      }
      connection := Some(connection.value.(ticking := false));
      if callbackDepth > 0 {
        if teardownHandle.None? {
          teardownHandle := Some(nextTicker);
          tickers := tickers[nextTicker := Teardown];
          nextTicker := nextTicker + 1;
        }
        return;
      }
      CancelTeardown();
      ResetConnection();
    }

    /** What Close leaves behind, inside and outside a callback. */
    twostate predicate Closed_()
      reads this
    {
      && reconnectHandle.None?
      && (callbackDepth == 0 || old(connection).None? ==> connection.None? && teardownHandle.None? && tickers == map[])
      && (callbackDepth > 0 && old(connection).Some? ==>
            connection == Some(old(connection).value.(ticking := false)) && teardownHandle.Some? && ended == old(ended))
    }

    method Close()
      requires Valid()
      modifies this`closing, this`reconnectHandle, this`teardownHandle, this`tickers, this`nextTicker
      modifies this`connection, this`ended
      ensures Valid() && Closed_()
      ensures old(ended) <= ended
    {
      closing := true;
      CancelReconnect();
      TeardownConnection();
      closing := false;
    }

    method Subscribe() returns (h: Handle)
      requires Valid()
      modifies this`subscribers, this`nextHandle, this`connection, this`openCount
      ensures Valid() && h == old(nextHandle) && subscribers == old(subscribers) + [h] && nextHandle == h + 1
      ensures connection == if old(subscribers == [] && connection.None?) then Some(old(Opened())) else old(connection)
      ensures openCount == old(openCount) + if old(subscribers == [] && connection.None?) then 1 else 0
    {
      h := nextHandle;
      nextHandle := nextHandle + 1;
      subscribers := subscribers + [h];
      if |subscribers| == 1 && connection.None? { OpenConnection(); }
    }

    method Unsubscribe(h: Handle)
      requires Valid()
      modifies this`subscribers, this`closing, this`reconnectHandle, this`teardownHandle, this`tickers, this`nextTicker
      modifies this`connection, this`ended
      ensures Valid() && subscribers == Dropped(old(subscribers), h)
      ensures subscribers == [] ==> Closed_()
      ensures subscribers != [] ==>
                && connection == old(connection) && ended == old(ended) && tickers == old(tickers)
                && reconnectHandle == old(reconnectHandle) && teardownHandle == old(teardownHandle)
      ensures old(ended) <= ended
    {
      subscribers := Dropped(subscribers, h);
      if |subscribers| == 0 { Close(); }
    }

    /**
     * A frame, delivered to a snapshot of the subscribers whatever they do meanwhile. The
     * connection is never destroyed under it and the depth comes back to its start value.
     */
    method OnFrame(callbacks: seq<Callback>) returns (targets: seq<Handle>)
      requires Valid() && connection.Some?
      modifies this`subscribers, this`nextHandle, this`closing, this`reconnectHandle, this`teardownHandle, this`tickers
      modifies this`nextTicker, this`connection, this`openCount, this`ended, this`callbackDepth
      ensures Valid() && targets == old(subscribers)
      ensures Follows(FrameView(View(old(subscribers), old(nextHandle), false), callbacks, |old(subscribers)|))
      decreases callbacks, 2
    {
      hide FrameView, ActsView;
      callbackDepth := callbackDepth + 1;
      var snapshot := subscribers;
      targets := [];
      ghost var start := View(subscribers, nextHandle, false);
      ghost var v := start;
      FrameRest(start, callbacks, 0, |snapshot|);
      for k := 0 to |snapshot|
        invariant Valid() && callbackDepth == old(callbackDepth) + 1 && targets == snapshot[..k]
        invariant Moved(v)
        invariant FrameView(start, callbacks, |snapshot|) ==
                  if k < |callbacks| then FrameView(v, callbacks[k..], |snapshot| - k) else v
      {
        targets := targets + [snapshot[k]];
        if k < |callbacks| {
          FrameRest(v, callbacks, k, |snapshot| - k);
          FrameRest(ActsView(v, callbacks[k].acts), callbacks, k + 1, |snapshot| - k - 1);
          ClosedStaysActs(v, callbacks[k].acts);
          RunCallback(callbacks[k].acts, v.closed);
          v := ActsView(v, callbacks[k].acts);
        }
      }
      FrameRest(v, callbacks, if |snapshot| < |callbacks| then |snapshot| else |callbacks|, 0);
      callbackDepth := callbackDepth - 1;
    }

    /** The state that goes with a view, for a watcher in a callback since the old state. */
    twostate predicate Moved(v: View)
      reads this
    {
      && subscribers == v.subscribers && nextHandle == v.next && ended == old(ended) && openCount == old(openCount)
      && old(connection).Some?
      && connection == Some(old(connection).value.(ticking := old(connection).value.ticking && !v.closed))
      && teardownHandle.Some? == (old(teardownHandle).Some? || v.closed)
      && reconnectHandle == (if v.closed then None else old(reconnectHandle))
    }

    twostate predicate Follows(v: View)
      reads this
    {
      Moved(v) && callbackDepth == old(callbackDepth)
    }

    /** One subscriber's callback; closed says whether the stream was closed earlier in the frame. */
    method RunCallback(acts: seq<Act>, ghost closed: bool)
      requires Valid() && connection.Some? && callbackDepth > 0
      requires closed ==> !connection.value.ticking && teardownHandle.Some? && reconnectHandle.None?
      modifies this`subscribers, this`nextHandle, this`closing, this`reconnectHandle, this`teardownHandle, this`tickers
      modifies this`nextTicker, this`connection, this`openCount, this`ended, this`callbackDepth
      ensures Valid() && Follows(ActsView(View(old(subscribers), old(nextHandle), closed), acts))
      decreases acts, 1
    {
      ghost var start := View(subscribers, nextHandle, closed);
      ghost var v := start;
      for i := 0 to |acts|
        invariant Valid() && Follows(v)
        invariant ActsView(start, acts) == ActsView(v, acts[i..])
      {
        assert acts[i..][1..] == acts[i + 1..];
        ghost var was := v;
        match acts[i] {
          case Subscribe => var _ := Subscribe();
          case Unsubscribe(h) => Unsubscribe(h);
          case Close => Close();
          case Frame(callbacks) =>
            ClosedStays(View(subscribers, nextHandle, v.closed), callbacks, |subscribers|);
            var _ := OnFrame(callbacks);
        }
        v := ActView(v, acts[i]);
      }
    }

    /** The peer closed: the connection has removed its own ticker and calls back. */
    method OnClosed()
      requires Valid() && callbackDepth == 0 && connection.Some? && connection.value.ticking
      modifies this`connection, this`ended, this`tickers, this`nextTicker, this`reconnectHandle, this`teardownHandle
      modifies this`callbackDepth
      ensures Valid() && callbackDepth == 0 && ended == old(ended)
      ensures connection == Some(old(connection).value.(ticking := false))
      ensures if subscribers != [] then reconnectHandle.Some? && teardownHandle.None?
              else teardownHandle.Some? && reconnectHandle.None?
    {
      connection := Some(connection.value.(ticking := false));
      if closing { return; }
      callbackDepth := callbackDepth + 1;
      if |subscribers| > 0 {
        CancelReconnect();
        reconnectHandle := Some(nextTicker);
        tickers := tickers[nextTicker := Reconnect];
        nextTicker := nextTicker + 1;
      } else {
        TeardownConnection();
      }
      callbackDepth := callbackDepth - 1;
    }

    /** The core ticker runs one of the watcher's one-shot tickers on a fresh stack. */
    method FireTicker(k: nat)
      requires Valid() && callbackDepth == 0 && k in tickers
      modifies this`connection, this`ended, this`openCount, this`tickers, this`reconnectHandle, this`teardownHandle
      ensures Valid() && tickers == map[]
      ensures ended == old(ended) + [End(old(connection).value.id, 0)]
      ensures connection == if old(tickers)[k].Reconnect? && subscribers != [] then Some(old(Opened())) else None
      ensures openCount == old(openCount) + if connection.Some? then 1 else 0
    {
      if tickers[k].Teardown? {
        teardownHandle := None;
        ResetConnection();
      } else {
        reconnectHandle := None;
        DoReconnect();
      }
      tickers := tickers - {k};
    }

    method DoReconnect()
      requires callbackDepth == 0 && !closing && connection.Some?
      modifies this`connection, this`ended, this`openCount
      ensures ended == old(ended) + [End(old(connection).value.id, 0)]
      ensures if subscribers != [] then connection == Some(old(Opened())) && openCount == old(openCount) + 1
              else connection.None? && openCount == old(openCount)
    {
      ResetConnection();
      if !closing && |subscribers| > 0 { OpenConnection(); }
    }

    /** The destructor: it leaves a ticker behind exactly when it runs inside a callback. */
    method Destroy()
      requires Valid()
      modifies this
      ensures Valid() && (tickers == map[] <==> old(callbackDepth == 0 || connection.None?))
      ensures if tickers == map[] then connection.None?
              else teardownHandle.Some? && tickers == map[teardownHandle.value := Teardown]
    {
      Close();
      assert teardownHandle.Some? ==> teardownHandle.value in tickers;
    }

    /** Someone is subscribed, and neither a live connection nor a pending ticker will ever open a stream. */
    predicate Stuck()
      reads this
    {
      subscribers != [] && reconnectHandle.None? && (connection.Some? ==> !connection.value.ticking)
    }

    /** A frame reaches the watcher; a read can still hold frames after a callback closed the connection. */
    predicate Delivers(e: Event)
      reads this
    {
      e.Outside? && e.act.Frame? && connection.Some? && opens(connection.value.id)
    }

    /** The events that cut off the subscribers: a close, a frame that closes, a retry without a socket. */
    predicate CutsOff(e: Event)
      reads this
    {
      || e == Outside(Act.Close)
      || (Delivers(e) && FrameView(View(subscribers, nextHandle, false), e.act.callbacks, |subscribers|).closed)
      || (e.Fire? && reconnectHandle == Some(e.ticker) && !opens(openCount))
    }

    /** One event; one that cannot happen in the current state is skipped. */
    method Handle(e: Event)
      requires Valid() && callbackDepth == 0
      modifies this
      ensures Valid() && callbackDepth == 0 && old(ended) <= ended && history == old(history) + [subscribers]
      ensures old(openCount) <= openCount
      ensures old(Stuck()) && subscribers != [] ==> Stuck() && openCount == old(openCount)
      ensures old(subscribers != [] && !Stuck()) && subscribers != [] ==> (Stuck() <==> old(CutsOff(e)))
    {
      hide FrameView;
      match e {
        case Outside(Subscribe) => var _ := Subscribe();
        case Outside(Unsubscribe(h)) => Unsubscribe(h);
        case Outside(Close) => Close();
        case Outside(Frame(callbacks)) =>
          if connection.Some? && opens(connection.value.id) { var _ := OnFrame(callbacks); }
        case PeerClosed =>
          if connection.Some? && connection.value.ticking { OnClosed(); }
        case Fire(k) =>
          if k in tickers { FireTicker(k); }
      }
      history := history + [subscribers];
    }

    /**
     * Any history of events. Subscribers that are stuck stay stuck, and no connection is opened,
     * for as long as there are any.
     */
    method Drive(events: seq<Event>)
      requires Valid() && callbackDepth == 0
      modifies this
      ensures Valid() && callbackDepth == 0 && old(ended) <= ended
      ensures |history| == old(|history|) + |events| && old(history) <= history
      ensures old(Stuck()) && Watched(history, old(|history|)) ==> Stuck() && openCount == old(openCount)
    {
      for i := 0 to |events|
        invariant Valid() && callbackDepth == 0 && old(ended) <= ended
        invariant |history| == old(|history|) + i && old(history) <= history
        invariant old(Stuck()) && Watched(history, old(|history|)) ==> Stuck() && openCount == old(openCount)
      {
        ghost var before := history;
        Handle(events[i]);
        assert Watched(history, old(|history|)) ==> Watched(before, old(|history|)) && subscribers != [] by {
          assert forall j :: 0 <= j < |before| ==> before[j] == history[j];
          assert history[|history| - 1] == subscribers;
        }
      }
    }

    /** The peer closes, if it can, and the pending reconnect ticker fires, if there is one. */
    method Retry()
      requires Valid() && callbackDepth == 0
      modifies this
      ensures Valid() && callbackDepth == 0 && subscribers == old(subscribers)
      ensures openCount > old(openCount) <==> old(subscribers != [] && !Stuck())
    {
      if connection.Some? && connection.value.ticking { OnClosed(); }
      if reconnectHandle.Some? { FireTicker(reconnectHandle.value); }
    }
  }

  /** There were subscribers after every event from the n-th on. */
  predicate Watched(history: seq<seq<Handle>>, n: nat) {
    forall i :: n <= i < |history| ==> history[i] != []
  }

  /** Being closed earlier only adds the closed mark to what callbacks do. */
  lemma {:induction false} ClosedStaysAct(v: View, act: Act)
    ensures var open := ActView(v.(closed := false), act);
            ActView(v, act) == open.(closed := v.closed || open.closed)
    decreases act, 0
  {
    if act.Frame? { ClosedStays(v, act.callbacks, |v.subscribers|); }
  }

  lemma {:induction false} ClosedStaysActs(v: View, acts: seq<Act>)
    ensures var open := ActsView(v.(closed := false), acts);
            ActsView(v, acts) == open.(closed := v.closed || open.closed)
    decreases acts, 1
  {
    if acts != [] {
      ClosedStaysAct(v, acts[0]);
      ClosedStaysActs(ActView(v, acts[0]), acts[1..]);
      ClosedStaysActs(ActView(v.(closed := false), acts[0]), acts[1..]);
    }
  }

  lemma {:induction false} ClosedStays(v: View, callbacks: seq<Callback>, n: nat)
    ensures var open := FrameView(v.(closed := false), callbacks, n);
            FrameView(v, callbacks, n) == open.(closed := v.closed || open.closed)
    decreases callbacks, 2
  {
    if n != 0 && callbacks != [] {
      ClosedStaysActs(v, callbacks[0].acts);
      ClosedStays(ActsView(v, callbacks[0].acts), callbacks[1..], n - 1);
      ClosedStays(ActsView(v.(closed := false), callbacks[0].acts), callbacks[1..], n - 1);
    }
  }

  /**
   * For every history with every nesting of callbacks: each connection that ended did so at depth
   * zero, and destroying the watcher afterwards leaves no ticker registered.
   */
  method LiveAndDie(events: seq<Event>, opens: nat -> bool) returns (ended: seq<End>, left: map<nat, Job>)
    ensures forall i :: 0 <= i < |ended| ==> ended[i].depth == 0
    ensures left == map[]
  {
    var w := new Watcher(opens);
    w.Drive(events);
    w.Destroy();
    ended, left := w.ended, w.tickers;
  }

  /**
   * After one frame, and the pending teardown if there is one, the stream is still there exactly
   * when no callback closed it, even if subscribers were added after the close.
   */
  method FrameThenTicker(w: Watcher, callbacks: seq<Callback>) returns (connected: bool)
    requires w.Valid() && w.callbackDepth == 0 && w.connection.Some? && w.connection.value.ticking
    modifies w
    ensures var v := FrameView(View(old(w.subscribers), old(w.nextHandle), false), callbacks, |old(w.subscribers)|);
            && connected == w.connection.Some? == !v.closed
            && w.subscribers == v.subscribers && w.tickers == map[]
            && (w.Stuck() <==> v.closed && v.subscribers != [])
    ensures w.Valid() && w.callbackDepth == 0 && w.openCount == old(w.openCount) && w.history == old(w.history)
  {
    var _ := w.OnFrame(callbacks);
    if w.teardownHandle.Some? { w.FireTicker(w.teardownHandle.value); }
    connected := w.connection.Some?;
    assert w.tickers == map[];
  }

  /** So a subscriber that replaces itself inside a frame has no stream, and gets none while anyone is subscribed. */
  method ReplaceInsideFrame(events: seq<Event>)
    returns (subscribers: seq<Handle>, connected: bool, openings: nat, history: seq<seq<Handle>>)
    ensures subscribers == [1] && !connected && |history| == |events|
    ensures Watched(history, 0) ==> openings == 1
  {
    var w := new Watcher(_ => true);
    var h := w.Subscribe();
    var acts := [Unsubscribe(h), Subscribe];
    var callbacks := [Callback(acts)];
    assert ActView(View([h], 1, false), acts[0]) == View([], 1, true) by { DroppedOne(h); }
    assert ActView(View([], 1, true), Subscribe) == View([1], 2, true) by { assert [] + [1] == [1]; }
    assert acts[1..] == [Subscribe] && acts[1..][1..] == [];
    assert ActsView(View([h], 1, false), acts) == ActsView(View([], 1, true), acts[1..]) == View([1], 2, true);
    assert FrameView(View([h], 1, false), callbacks, 1) == FrameView(View([1], 2, true), callbacks[1..], 0);
    assert w.subscribers == [h] && w.nextHandle == 1;
    connected := FrameThenTicker(w, callbacks);
    subscribers := w.subscribers;
    w.Drive(events);
    openings, history := w.openCount, w.history;
  }

  /** The first connection gets no socket, and none is opened again while anyone is subscribed. */
  method NeverRetried(events: seq<Event>) returns (openings: nat, history: seq<seq<Handle>>)
    ensures |history| == |events| && (Watched(history, 0) ==> openings == 1)
  {
    var w := new Watcher(_ => false);
    var _ := w.Subscribe();
    w.Drive(events);
    openings, history := w.openCount, w.history;
  }

  /** After every history, a lost stream is retried exactly when the subscribers are not stuck. */
  method RetryAfter(events: seq<Event>, opens: nat -> bool) returns (subscribed: bool, stuck: bool, retried: bool)
    ensures retried <==> subscribed && !stuck
  {
    var w := new Watcher(opens);
    w.Drive(events);
    subscribed, stuck := w.subscribers != [], w.Stuck();
    var openings := w.openCount;
    w.Retry();
    retried := w.openCount > openings;
  }
}
