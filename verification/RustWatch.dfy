/**
 * The shared watch stream of the Rust client as a concurrent protocol. Every lock section, token
 * check and spawn is one atomic step; a run is any interleaving of steps of any number of threads
 * and stream tasks. A step that is not enabled leaves the state alone.
 */
module RustWatch {
  import opened Options

  type ThreadId = nat
  type ListenerId = nat
  type Token = nat

  /** A server object as pushed by the runtime. */
  datatype Frame = Frame(content: string)

  /** Where a thread is inside subscribe, the drop of its subscription, or stop. */
  datatype Pc =
    | Idle
    | Allocated(id: ListenerId)
    | Inserted(id: ListenerId)
    | Spawning(id: ListenerId, token: Token)
    | Subscribed(id: ListenerId)
    | Closing
    | Clearing

  /** Entries of the dispatch lock, in lock order. */
  datatype Event = Insert(id: ListenerId) | Remove(id: ListenerId) | Clear | Dispatch(frame: Frame)

  datatype State = State(
    nextId: nat,
    listeners: set<ListenerId>,
    latest: Option<Frame>,
    token: Option<Token>,
    stopped: bool,
    created: nat,
    cancelled: set<Token>,
    tasks: set<Token>,
    threads: map<ThreadId, Pc>,
    committed: map<ListenerId, seq<Frame>>,
    events: seq<Event>)

  datatype Step =
    | Allocate(t: ThreadId)
    | Register(t: ThreadId)
    | EnsureStream(t: ThreadId)
    | Spawn(t: ThreadId)
    | Unregister(t: ThreadId)
    | CloseStream(t: ThreadId)
    | StopControl(t: ThreadId)
    | StopListeners(t: ThreadId)
    | DispatchFrame(task: Token, frame: Frame)
    | ExitTask(task: Token)
    /** A listener, called on the stream task, panics. */
    | PanicTask(task: Token)

  const INITIAL := State(0, {}, None, None, false, 0, {}, {}, map[], map[], [])

  function PcOf(s: State, t: ThreadId): Pc {
    if t in s.threads then s.threads[t] else Idle
  }

  function Cancelled(s: State): State {
    if s.token.Some? then s.(cancelled := s.cancelled + {s.token.value}, token := None) else s
  }

  function Apply(s: State, step: Step): State {
    match step
    case Allocate(t) =>
      if !PcOf(s, t).Idle? then s
      else s.(nextId := s.nextId + 1, threads := s.threads[t := Allocated(s.nextId)])
    case Register(t) =>
      if !PcOf(s, t).Allocated? then s
      else
        var id := PcOf(s, t).id;
        s.(listeners := s.listeners + {id},
           committed := s.committed[id := if s.latest.Some? then [s.latest.value] else []],
           events := s.events + [Insert(id)],
           threads := s.threads[t := Inserted(id)])
    case EnsureStream(t) =>
      if !PcOf(s, t).Inserted? then s
      else
        var id := PcOf(s, t).id;
        if s.stopped || s.token.Some? then s.(threads := s.threads[t := Subscribed(id)])
        else s.(token := Some(s.created), created := s.created + 1,
                threads := s.threads[t := Spawning(id, s.created)])
    case Spawn(t) =>
      if !PcOf(s, t).Spawning? then s
      else s.(tasks := s.tasks + {PcOf(s, t).token}, threads := s.threads[t := Subscribed(PcOf(s, t).id)])
    case Unregister(t) =>
      if !PcOf(s, t).Subscribed? then s
      else
        var id := PcOf(s, t).id;
        var left := s.listeners - {id};
        s.(listeners := left, events := s.events + [Remove(id)],
           threads := s.threads[t := if left == {} then Closing else Idle])
    case CloseStream(t) =>
      if !PcOf(s, t).Closing? then s
      else Cancelled(s).(threads := s.threads[t := Idle])
    case StopControl(t) =>
      if !PcOf(s, t).Idle? then s
      else Cancelled(s).(stopped := true, threads := s.threads[t := Clearing])
    case StopListeners(t) =>
      if !PcOf(s, t).Clearing? then s
      else s.(listeners := {}, events := s.events + [Clear], threads := s.threads[t := Idle])
    case DispatchFrame(k, f) =>
      if k !in s.tasks then s
      else s.(latest := Some(f),
              committed := map id | id in s.committed :: if id in s.listeners then s.committed[id] + [f]
                  else s.committed[id],
              events := s.events + [Dispatch(f)])
    case ExitTask(k) =>
      if k !in s.tasks || k !in s.cancelled then s else s.(tasks := s.tasks - {k})
    case PanicTask(k) => s.(tasks := s.tasks - {k})
  }

  function Run(s: State, steps: seq<Step>): State
    decreases |steps|
  {
    if steps == [] then s else Run(Apply(s, steps[0]), steps[1..])
  }

  // ---------- one stream at a time ----------

  ghost predicate Live(s: State, k: Token) {
    k < s.created && k !in s.cancelled
  }

  /** Every token ever created is cancelled, except the one held under the control lock. */
  ghost predicate TokenInv(s: State) {
    && (s.token.Some? ==> s.token.value < s.created)
    && (forall k: Token :: Live(s, k) <==> s.token == Some(k))
    && (forall k: Token :: k in s.cancelled ==> k < s.created)
    && (forall k: Token :: k in s.tasks ==> k < s.created)
    && (forall t :: t in s.threads && s.threads[t].Spawning? ==> s.threads[t].token < s.created)
    && (s.stopped ==> s.token.None?)
  }

  lemma TokenStep(s: State, step: Step)
    requires TokenInv(s)
    ensures TokenInv(Apply(s, step))
    ensures s.stopped ==> Apply(s, step).stopped && Apply(s, step).created == s.created
    ensures s.cancelled <= Apply(s, step).cancelled
  {
  }

  lemma {:induction false} TokenRun(s: State, steps: seq<Step>)
    requires TokenInv(s)
    ensures TokenInv(Run(s, steps))
    ensures s.stopped ==> Run(s, steps).stopped && Run(s, steps).created == s.created
    decreases |steps|
  {
    if steps != [] {
      TokenStep(s, steps[0]);
      TokenRun(Apply(s, steps[0]), steps[1..]);
    }
  }

  /**
   * In every run at most one stream task is uncancelled, its token is the current one, and every
   * other token ever created, with a task or still without, is cancelled.
   */
  lemma SingleStream(steps: seq<Step>)
    ensures var s := Run(INITIAL, steps);
            && (forall a, b :: a in s.tasks && b in s.tasks && a !in s.cancelled && b !in s.cancelled ==> a == b)
            && (forall a :: a in s.tasks && a !in s.cancelled ==> s.token == Some(a))
            && (forall k: Token :: k < s.created && s.token != Some(k) ==> k in s.cancelled)
  {
    TokenRun(INITIAL, steps);
    var s := Run(INITIAL, steps);
    forall a | a in s.tasks && a !in s.cancelled ensures s.token == Some(a) {
      assert Live(s, a);
    }
    forall k: Token | k < s.created && s.token != Some(k) ensures k in s.cancelled {
      assert Live(s, k) <==> s.token == Some(k);
    }
  }

  /** Once stop has run its first section, no uncancelled stream exists and none is ever created. */
  lemma StopIsFinal(before: seq<Step>, after: seq<Step>)
    requires Run(INITIAL, before).stopped
    ensures var s, r := Run(INITIAL, before), Run(Run(INITIAL, before), after);
            && r.created == s.created && r.token.None?
            && forall k: Token :: k < r.created ==> k in r.cancelled
  {
    TokenRun(INITIAL, before);
    TokenRun(Run(INITIAL, before), after);
    var r := Run(Run(INITIAL, before), after);
    forall k: Token | k < r.created ensures k in r.cancelled {
      assert Live(r, k) <==> r.token == Some(k);
    }
  }

  // ---------- no frame lost or duplicated ----------

  /** Position of the registration of a listener in the lock order. */
  function InsertAt(events: seq<Event>, id: ListenerId): (i: nat)
    ensures i <= |events|
    ensures i < |events| ==> events[i] == Insert(id)
    ensures forall j :: 0 <= j < i ==> events[j] != Insert(id)
  {
    if events == [] || events[0] == Insert(id) then 0 else 1 + InsertAt(events[1..], id)
  }

  predicate Ends(e: Event, id: ListenerId) {
    e == Remove(id) || e.Clear?
  }

  /** Position of the first removal, counted from a given position. */
  function RemoveAfter(events: seq<Event>, id: ListenerId, i: nat): (j: nat)
    requires i <= |events|
    ensures i <= j <= |events|
    ensures j < |events| ==> Ends(events[j], id)
    ensures forall k :: i <= k < j ==> !Ends(events[k], id)
    decreases |events| - i
  {
    if i == |events| || Ends(events[i], id) then i else RemoveAfter(events, id, i + 1)
  }

  function Frames(events: seq<Event>): seq<Frame> {
    if events == [] then []
    else (if events[0].Dispatch? then [events[0].frame] else []) + Frames(events[1..])
  }

  function Last(frames: seq<Frame>): seq<Frame> {
    if frames == [] then [] else [frames[|frames| - 1]]
  }

  /**
   * What a listener must receive, from the lock order alone: the last frame dispatched before its
   * registration, then every frame dispatched until its removal.
   */
  function Expected(events: seq<Event>, id: ListenerId): seq<Frame> {
    var i := InsertAt(events, id);
    if i == |events| then []
    else Last(Frames(events[..i])) + Frames(events[i + 1..RemoveAfter(events, id, i + 1)])
  }

  /** A listener is registered exactly between its insertion and its removal. */
  predicate Present(events: seq<Event>, id: ListenerId) {
    var i := InsertAt(events, id);
    i < |events| && RemoveAfter(events, id, i + 1) == |events|
  }

  lemma {:induction false} FramesAppend(a: seq<Event>, b: seq<Event>)
    ensures Frames(a + b) == Frames(a) + Frames(b)
  {
    var c := a + b;
    if a == [] {
      assert c == b;
    } else {
      assert c[0] == a[0] && c[1..] == a[1..] + b;
      var head := if a[0].Dispatch? then [a[0].frame] else [];
      assert Frames(a) == head + Frames(a[1..]) && Frames(c) == head + Frames(c[1..]);
      hide Frames;
      FramesAppend(a[1..], b);
      Assoc(head, Frames(a[1..]), Frames(b));
    }
  }

  lemma Assoc(a: seq<Frame>, b: seq<Frame>, c: seq<Frame>)
    ensures a + (b + c) == a + b + c
  {
  }

  lemma InsertAtUnique(events: seq<Event>, id: ListenerId, i: nat)
    requires i <= |events| && (i < |events| ==> events[i] == Insert(id))
    requires forall j :: 0 <= j < i ==> events[j] != Insert(id)
    ensures InsertAt(events, id) == i
  {
  }

  lemma RemoveAfterUnique(events: seq<Event>, id: ListenerId, i: nat, j: nat)
    requires i <= j <= |events| && (j < |events| ==> Ends(events[j], id))
    requires forall k :: i <= k < j ==> !Ends(events[k], id)
    ensures RemoveAfter(events, id, i) == j
  {
  }

  /** How one more event changes what a listener must receive. */
  lemma ExpectedAppend(events: seq<Event>, id: ListenerId, e: Event)
    requires e == Insert(id) ==> InsertAt(events, id) == |events|
    ensures Present(events + [e], id) <==> e == Insert(id) || (Present(events, id) && !Ends(e, id))
    ensures Expected(events + [e], id) ==
            if e == Insert(id) then Last(Frames(events))
            else if Present(events, id) && e.Dispatch? then Expected(events, id) + [e.frame]
            else Expected(events, id)
  {
    hide RemoveAfter, Frames;
    var i := InsertAt(events, id);
    if i == |events| {
      ExpectedUnregistered(events, id, e);
    } else if RemoveAfter(events, id, i + 1) < |events| || Ends(e, id) {
      ExpectedEnded(events, id, e);
    } else {
      ExpectedLive(events, id, e);
    }
  }

  lemma ExpectedUnregistered(events: seq<Event>, id: ListenerId, e: Event)
    requires InsertAt(events, id) == |events|
    ensures Present(events + [e], id) <==> e == Insert(id)
    ensures Expected(events + [e], id) == if e == Insert(id) then Last(Frames(events)) else []
  {
    hide InsertAt, RemoveAfter, Frames;
    var now, i := events + [e], |events|;
    if e == Insert(id) {
      InsertAtUnique(now, id, i);
      assert now[..i] == events && now[i + 1..] == [];
      assert now[i + 1..RemoveAfter(now, id, i + 1)] == [];
      NoFrames();
    } else {
      InsertAtUnique(now, id, i + 1);
    }
  }

  lemma NoFrames()
    ensures Frames([]) == []
  {
  }

  lemma SameSlices(events: seq<Event>, e: Event, i: nat, j: nat)
    requires i < j <= |events|
    ensures (events + [e])[..i] == events[..i] && (events + [e])[i + 1..j] == events[i + 1..j]
  {
  }

  lemma ExpectedEnded(events: seq<Event>, id: ListenerId, e: Event)
    requires var i := InsertAt(events, id);
             i < |events| && (RemoveAfter(events, id, i + 1) < |events| || Ends(e, id))
    ensures !Present(events + [e], id) && Expected(events + [e], id) == Expected(events, id)
  {
    hide InsertAt, RemoveAfter, Frames, Last;
    var now, i := events + [e], InsertAt(events, id);
    var j := RemoveAfter(events, id, i + 1);
    InsertAtUnique(now, id, i);
    RemoveAfterUnique(now, id, i + 1, j);
    SameSlices(events, e, i, j);
  }

  lemma ExpectedLive(events: seq<Event>, id: ListenerId, e: Event)
    requires Present(events, id) && !Ends(e, id)
    ensures Present(events + [e], id)
    ensures Expected(events + [e], id) == Expected(events, id) + if e.Dispatch? then [e.frame] else []
  {
    hide InsertAt, RemoveAfter, Frames;
    var now, i := events + [e], InsertAt(events, id);
    InsertAtUnique(now, id, i);
    RemoveAfterUnique(now, id, i + 1, |now|);
    assert now[..i] == events[..i] && now[i + 1..|now|] == events[i + 1..|events|] + [e];
    FramesAppend(events[i + 1..|events|], [e]);
    OneFrame(e);
  }

  lemma OneFrame(e: Event)
    ensures Frames([e]) == if e.Dispatch? then [e.frame] else []
  {
  }

  ghost predicate FrameInv(s: State) {
    && (s.latest.None? ==> Frames(s.events) == [])
    && (s.latest.Some? ==> Last(Frames(s.events)) == [s.latest.value])
    && (forall id :: id in s.listeners <==> Present(s.events, id))
    && (forall id :: id in s.committed <==> InsertAt(s.events, id) < |s.events|)
    && (forall id :: id in s.committed ==> s.committed[id] == Expected(s.events, id))
  }

  /** Identifiers are handed out once. */
  ghost predicate IdInv(s: State) {
    && (forall id :: id in s.committed ==> id < s.nextId)
    && (forall t :: t in s.threads && s.threads[t].Allocated? ==>
       s.threads[t].id < s.nextId && s.threads[t].id !in s.committed)
    && (forall t, u :: t in s.threads && u in s.threads && t != u && s.threads[t].Allocated? && s.threads[u].Allocated?
                       ==> s.threads[t].id != s.threads[u].id)
  }

  function ExpectedNext(s: State, id: ListenerId, e: Event): seq<Frame> {
    if e == Insert(id) then Last(Frames(s.events))
    else if id in s.listeners && e.Dispatch? then Expected(s.events, id) + [e.frame]
    else Expected(s.events, id)
  }

  lemma EventAdded(s: State, r: State, e: Event)
    requires FrameInv(s) && r.events == s.events + [e]
    requires e.Insert? ==> e.id !in s.committed
    ensures forall id :: Present(r.events, id) <==> (e == Insert(id) || (id in s.listeners && !Ends(e, id)))
    ensures forall id :: InsertAt(r.events, id) < |r.events| <==> (id in s.committed || e == Insert(id))
    ensures forall id :: Expected(r.events, id) == ExpectedNext(s, id, e)
    ensures Frames(r.events) == Frames(s.events) + if e.Dispatch? then [e.frame] else []
  {
    forall id
      ensures Present(r.events, id) <==> (e == Insert(id) || (id in s.listeners && !Ends(e, id)))
      ensures InsertAt(r.events, id) < |r.events| <==> (id in s.committed || e == Insert(id))
      ensures Expected(r.events, id) == ExpectedNext(s, id, e)
    {
      ExpectedAppend(s.events, id, e);
      InsertAppend(s.events, id, e);
    }
    FramesAppend(s.events, [e]);
    OneFrame(e);
  }

  lemma InsertAppend(events: seq<Event>, id: ListenerId, e: Event)
    ensures InsertAt(events + [e], id) < |events + [e]| <==> (InsertAt(events, id) < |events| || e == Insert(id))
  {
    var now, i := events + [e], InsertAt(events, id);
    if i == |events| && e != Insert(id) { InsertAtUnique(now, id, i + 1); } else { InsertAtUnique(now, id, i); }
  }

  lemma IdStep(s: State, step: Step)
    requires IdInv(s)
    ensures IdInv(Apply(s, step))
  {
    match step {
      case Allocate(_) =>
      case Register(_) =>
      case _ =>
        hide IdInv;
        IdKept(s, Apply(s, step));
    }
  }

  lemma IdKept(s: State, r: State)
    requires IdInv(s) && r.nextId == s.nextId && r.committed.Keys == s.committed.Keys
    requires forall t :: t in r.threads && r.threads[t].Allocated? ==> t in s.threads && s.threads[t] == r.threads[t]
    ensures IdInv(r)
  {
  }

  lemma FrameRegister(s: State, t: ThreadId)
    requires FrameInv(s) && IdInv(s) && PcOf(s, t).Allocated?
    ensures FrameInv(Apply(s, Register(t)))
  {
    hide InsertAt, Present, Expected, Frames;
    EventAdded(s, Apply(s, Register(t)), Insert(PcOf(s, t).id));
  }

  lemma FrameEnd(s: State, e: Event, r: State)
    requires FrameInv(s) && (e.Remove? || e.Clear?)
    requires r.events == s.events + [e] && r.latest == s.latest && r.committed == s.committed
    requires r.listeners == if e.Remove? then s.listeners - {e.id} else {}
    ensures FrameInv(r)
  {
    hide InsertAt, Present, Expected, Frames;
    EventAdded(s, r, e);
  }

  lemma LastSnoc(frames: seq<Frame>, f: Frame)
    ensures Last(frames + [f]) == [f]
  {
  }

  lemma FrameSame(s: State, r: State)
    requires FrameInv(s)
    requires r.events == s.events && r.listeners == s.listeners && r.latest == s.latest && r.committed == s.committed
    ensures FrameInv(r)
  {
  }

  lemma FrameDispatched(s: State, r: State, f: Frame)
    requires FrameInv(s) && r.events == s.events + [Dispatch(f)] && r.latest == Some(f) && r.listeners == s.listeners
    requires forall id :: id in r.committed <==> id in s.committed
    requires forall id :: id in s.committed ==>
               r.committed[id] == if id in s.listeners then s.committed[id] + [f] else s.committed[id]
    ensures FrameInv(r)
  {
    hide InsertAt, Present, Expected, Frames, Last;
    EventAdded(s, r, Dispatch(f));
    LastSnoc(Frames(s.events), f);
    forall id | id in r.committed ensures r.committed[id] == Expected(r.events, id) {
      assert id in s.committed && Expected(r.events, id) == ExpectedNext(s, id, Dispatch(f));
    }
  }

  lemma FrameDispatch(s: State, k: Token, f: Frame)
    requires FrameInv(s) && k in s.tasks
    ensures FrameInv(Apply(s, DispatchFrame(k, f)))
  {
    hide FrameInv;
    FrameDispatched(s, Apply(s, DispatchFrame(k, f)), f);
  }

  lemma FrameStep(s: State, step: Step)
    requires FrameInv(s) && IdInv(s)
    ensures FrameInv(Apply(s, step))
  {
    hide FrameInv;
    match step
    case Register(t) => if PcOf(s, t).Allocated? { FrameRegister(s, t); }
    case Unregister(t) => if PcOf(s, t).Subscribed? { FrameEnd(s, Remove(PcOf(s, t).id), Apply(s, step)); }
    case StopListeners(t) => if PcOf(s, t).Clearing? { FrameEnd(s, Clear, Apply(s, step)); }
    case DispatchFrame(k, f) => if k in s.tasks { FrameDispatch(s, k, f); }
    case _ => FrameSame(s, Apply(s, step));
  }

  lemma {:induction false} FrameRun(s: State, steps: seq<Step>)
    requires FrameInv(s) && IdInv(s)
    ensures FrameInv(Run(s, steps))
    decreases |steps|
  {
    hide FrameInv, IdInv;
    if steps != [] {
      IdStep(s, steps[0]);
      FrameStep(s, steps[0]);
      FrameRun(Apply(s, steps[0]), steps[1..]);
    }
  }

  /**
   * For any interleaving, the frames committed to a listener are exactly the latest frame at its
   * registration followed by every frame dispatched until its removal, each once and in order.
   */
  lemma NoFrameLostOrDuplicated(steps: seq<Step>, id: ListenerId)
    requires id in Run(INITIAL, steps).committed
    ensures Run(INITIAL, steps).committed[id] == Expected(Run(INITIAL, steps).events, id)
    ensures id in Run(INITIAL, steps).listeners <==> Present(Run(INITIAL, steps).events, id)
  {
    FrameRun(INITIAL, steps);
  }

  /** Frames were committed to exactly the listeners that were registered at some point. */
  lemma CommittedIff(steps: seq<Step>, id: ListenerId)
    ensures id in Run(INITIAL, steps).committed <==> Insert(id) in Run(INITIAL, steps).events
  {
    FrameRun(INITIAL, steps);
    hide Run;
  }

  lemma {:induction false} RunSnoc(s: State, steps: seq<Step>, step: Step)
    ensures Run(s, steps + [step]) == Apply(Run(s, steps), step)
    decreases |steps|
  {
    hide Apply;
    var all := steps + [step];
    if steps == [] {
      assert Run(s, all) == Run(Apply(s, step), all[1..]);
    } else {
      assert all[0] == steps[0] && all[1..] == steps[1..] + [step];
      RunSnoc(Apply(s, steps[0]), steps[1..], step);
    }
  }
}
