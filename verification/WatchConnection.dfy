/** One watch connection: header stripping, framing and delivery over arbitrary receive slices. */
module WatchConnection {
  import opened Lines
  import opened ChunkedNdjson

  const RECV_SIZE := 4096

  /** What one call to Recv on the non-blocking socket reports. */
  datatype Recv = Data(bytes: Bytes) | Nothing | Failed

  /** What the frame callback does to the connection before it returns. */
  datatype Reaction = Continue | CloseSocket | Destroy

  predicate RealRecv(r: Recv) {
    r.Data? ==> 1 <= |r.bytes| <= RECV_SIZE
  }

  function DataOf(script: seq<Recv>): Bytes {
    if script == [] then []
    else (if script[0].Data? then script[0].bytes else []) + DataOf(script[1..])
  }

  lemma {:induction false} DataOfAppend(a: seq<Recv>, b: seq<Recv>)
    ensures DataOf(a + b) == DataOf(a) + DataOf(b)
  {
    if a == [] {
      assert a + b == b;
    } else {
      var c := a + b;
      var head := if a[0].Data? then a[0].bytes else [];
      assert c[0] == a[0] && c[1..] == a[1..] + b;
      assert DataOf(a) == head + DataOf(a[1..]) && DataOf(c) == head + DataOf(c[1..]);
      hide DataOf;
      DataOfAppend(a[1..], b);
      Assoc(head, DataOf(a[1..]), DataOf(b));
    }
  }

  lemma DataOfSnoc(script: seq<Recv>, i: nat)
    requires i < |script|
    ensures DataOf(script[..i + 1]) == DataOf(script[..i]) + if script[i].Data? then script[i].bytes else []
  {
    assert script[..i + 1] == script[..i] + [script[i]];
    DataOfAppend(script[..i], [script[i]]);
    assert DataOf([script[i]]) == (if script[i].Data? then script[i].bytes else []) + DataOf([]);
  }

  // ---------- headers ----------

  /** The blank line that ends the headers ends at position i. */
  predicate TerminatorAt(s: Bytes, i: int) {
    3 <= i < |s| && s[i - 3] == CR && s[i - 2] == LF && s[i - 1] == CR && s[i] == LF
  }

  ghost predicate HeadersComplete(s: Bytes) {
    exists i :: TerminatorAt(s, i)
  }

  ghost predicate FirstTerminator(s: Bytes, i: int) {
    TerminatorAt(s, i) && forall j :: j < i ==> !TerminatorAt(s, j)
  }

  function FindTerminator(s: Bytes, from: nat): (i: int)
    requires from <= |s| && forall j :: j < from ==> !TerminatorAt(s, j)
    ensures i >= 0 ==> FirstTerminator(s, i)
    ensures i < 0 ==> !HeadersComplete(s)
    decreases |s| - from
  {
    if from == |s| then -1
    else if TerminatorAt(s, from) then from
    else FindTerminator(s, from + 1)
  }

  /** Everything after the first CR LF CR LF of a response; empty while the headers are incomplete. */
  function AfterHeaders(s: Bytes): Bytes {
    var i := FindTerminator(s, 0);
    if i < 0 then [] else s[i + 1..]
  }

  lemma AfterHeadersAt(s: Bytes, i: int)
    requires FirstTerminator(s, i)
    ensures AfterHeaders(s) == s[i + 1..]
  {
  }

  lemma NoBodyYet(s: Bytes)
    requires !HeadersComplete(s)
    ensures AfterHeaders(s) == []
  {
  }

  const BLANK_LINE: Bytes := [13, 10, 13, 10]

  predicate BlankLineAt(s: Bytes, j: int) {
    0 <= j && j + 4 <= |s| && s[j..j + 4] == BLANK_LINE
  }

  /** The bytes CR LF CR LF stand nowhere in the text. */
  ghost predicate NoBlankLine(s: Bytes) {
    forall j :: !BlankLineAt(s, j)
  }

  lemma TerminatorIsBlank(s: Bytes, i: int)
    ensures TerminatorAt(s, i) <==> BlankLineAt(s, i - 3)
  {
    var j := i - 3;
    if 0 <= j && j + 4 <= |s| {
      var w := s[j..j + 4];
      assert w[0] == s[j] && w[1] == s[j + 1] && w[2] == s[j + 2] && w[3] == s[j + 3];
    }
  }

  lemma BlankLineMeaning(s: Bytes)
    ensures NoBlankLine(s) <==> !HeadersComplete(s)
  {
    hide TerminatorAt, BlankLineAt;
    forall i ensures TerminatorAt(s, i) <==> BlankLineAt(s, i - 3) {
      TerminatorIsBlank(s, i);
    }
    if j :| BlankLineAt(s, j) {
      TerminatorIsBlank(s, j + 3);
      assert TerminatorAt(s, j + 3);
    }
  }

  /** Without CR LF CR LF there is no body; the body is what follows the first one. */
  lemma BodyFollowsBlankLine(headers: Bytes, body: Bytes)
    ensures NoBlankLine(headers) <==> !HeadersComplete(headers)
    ensures NoBlankLine(headers) ==> AfterHeaders(headers) == []
    ensures NoBlankLine((headers + BLANK_LINE)[..|headers| + 3]) ==>
              AfterHeaders(headers + BLANK_LINE + body) == body
  {
    var start := (headers + BLANK_LINE)[..|headers| + 3];
    BlankLineMeaning(headers);
    BlankLineMeaning(start);
    if !HeadersComplete(headers) { NoBodyYet(headers); }
    if NoBlankLine(start) {
      var s, i := headers + BLANK_LINE + body, |headers| + 3;
      EndsThere(headers, body);
      AfterHeadersAt(s, i);
      assert s[i + 1..] == body;
    }
  }

  lemma EndsThere(headers: Bytes, body: Bytes)
    requires !HeadersComplete((headers + BLANK_LINE)[..|headers| + 3])
    ensures FirstTerminator(headers + BLANK_LINE + body, |headers| + 3)
  {
    var start := (headers + BLANK_LINE)[..|headers| + 3];
    var s, i := headers + BLANK_LINE + body, |headers| + 3;
    assert s[|headers|] == 13 && s[|headers| + 1] == 10 && s[|headers| + 2] == 13 && s[|headers| + 3] == 10;
    forall j | j < i ensures !TerminatorAt(s, j) {
      assert !TerminatorAt(start, j);
      assert j >= 3 ==> s[j - 3] == start[j - 3] && s[j - 2] == start[j - 2] && s[j - 1] == start[j - 1];
      assert j >= 0 ==> s[j] == start[j];
    }
  }

  /** Later bytes never move the end of the headers. */
  lemma HeadersStable(s: Bytes, more: Bytes)
    requires HeadersComplete(s)
    ensures HeadersComplete(s + more) && AfterHeaders(s + more) == AfterHeaders(s) + more
  {
    var i := FindTerminator(s, 0);
    var t := s + more;
    assert TerminatorAt(t, i);
    forall j | j < i ensures !TerminatorAt(t, j) {
      assert !TerminatorAt(s, j);
    }
    AfterHeadersAt(s, i);
    AfterHeadersAt(t, i);
    assert t[i + 1..] == s[i + 1..] + more;
  }

  /** When the headers end in the newest slice, the body starts inside that slice. */
  lemma HeadersEndInSlice(s: Bytes, slice: Bytes, i: int)
    requires !HeadersComplete(s) && FirstTerminator(s + slice, i)
    ensures |s| <= i && AfterHeaders(s + slice) == slice[i + 1 - |s|..]
  {
    if i < |s| {
      assert TerminatorAt(s, i);
      assert false;
    }
    AfterHeadersAt(s + slice, i);
    assert (s + slice)[i + 1..] == slice[i + 1 - |s|..];
  }

  // ---------- frames ----------

  /** A line that carries a server object; blank, malformed and error lines are skipped. */
  function Keep(line: Bytes, isFrame: Bytes -> bool): seq<Bytes> {
    if line != [] && isFrame(line) then [line] else []
  }

  function FramesOf(lines: seq<Bytes>, isFrame: Bytes -> bool): seq<Bytes> {
    if lines == [] then [] else Keep(lines[0], isFrame) + FramesOf(lines[1..], isFrame)
  }

  lemma {:induction false} FramesAppend(a: seq<Bytes>, b: seq<Bytes>, isFrame: Bytes -> bool)
    ensures FramesOf(a + b, isFrame) == FramesOf(a, isFrame) + FramesOf(b, isFrame)
  {
    var c := a + b;
    if a == [] {
      assert c == b;
    } else {
      var head := Keep(a[0], isFrame);
      assert c[0] == a[0] && c[1..] == a[1..] + b;
      assert FramesOf(a, isFrame) == head + FramesOf(a[1..], isFrame)
         && FramesOf(c, isFrame) == head + FramesOf(c[1..], isFrame);
      hide FramesOf, Keep;
      FramesAppend(a[1..], b, isFrame);
      Assoc(head, FramesOf(a[1..], isFrame), FramesOf(b, isFrame));
    }
  }

  lemma FramesSnoc(lines: seq<Bytes>, i: nat, isFrame: Bytes -> bool)
    requires i < |lines|
    ensures FramesOf(lines[..i + 1], isFrame) == FramesOf(lines[..i], isFrame) + Keep(lines[i], isFrame)
  {
    var one := [lines[i]];
    assert lines[..i + 1] == lines[..i] + one;
    FramesAppend(lines[..i], one, isFrame);
    assert FramesOf(one[1..], isFrame) == [];
  }

  lemma FramesSplit(lines: seq<Bytes>, i: nat, isFrame: Bytes -> bool)
    requires i <= |lines|
    ensures FramesOf(lines, isFrame) == FramesOf(lines[..i], isFrame) + FramesOf(lines[i..], isFrame)
  {
    var head, tail := lines[..i], lines[i..];
    assert lines == head + tail by { TakeDrop(lines, i); }
    FramesAppend(head, tail, isFrame);
  }

  lemma TakeDrop(lines: seq<Bytes>, i: nat)
    requires i <= |lines|
    ensures lines == lines[..i] + lines[i..]
  {
  }

  /** No callback from the n-th frame on destroys the connection while these frames are delivered. */
  predicate Survives(frames: seq<Bytes>, react: nat -> Reaction, n: nat) {
    frames == [] || (!react(n).Destroy? && Survives(frames[1..], react, n + 1))
  }

  /** The frames up to and including the first whose callback destroys the connection. */
  function Delivery(frames: seq<Bytes>, react: nat -> Reaction, n: nat): seq<Bytes> {
    if frames == [] then []
    else if react(n).Destroy? then [frames[0]]
    else [frames[0]] + Delivery(frames[1..], react, n + 1)
  }

  lemma {:induction false} DeliveryAppend(a: seq<Bytes>, b: seq<Bytes>, react: nat -> Reaction, n: nat)
    ensures Delivery(a + b, react, n) ==
            if Survives(a, react, n) then a + Delivery(b, react, n + |a|) else Delivery(a, react, n)
    ensures Survives(a, react, n) ==> Delivery(a, react, n) == a
    ensures Survives(a + b, react, n) <==> Survives(a, react, n) && Survives(b, react, n + |a|)
  {
    var c := a + b;
    if a == [] {
      assert c == b;
    } else {
      assert c[0] == a[0] && c[1..] == a[1..] + b;
      DeliveryAppend(a[1..], b, react, n + 1);
    }
  }

  lemma {:induction false} DeliveryLength(frames: seq<Bytes>, react: nat -> Reaction, n: nat)
    ensures |Delivery(frames, react, n)| <= |frames|
  {
    if frames != [] { DeliveryLength(frames[1..], react, n + 1); }
  }

  lemma {:induction false} DeliveryStops(frames: seq<Bytes>, react: nat -> Reaction, n: nat)
    requires !Survives(frames, react, n)
    ensures var d := |Delivery(frames, react, n)|;
            d > 0 && react(n + d - 1).Destroy?
  {
    if !react(n).Destroy? { DeliveryStops(frames[1..], react, n + 1); }
  }

  lemma {:induction false} SurvivesAll(frames: seq<Bytes>, react: nat -> Reaction, n: nat)
    ensures Survives(frames, react, n) <==> forall i :: n <= i < n + |frames| ==> !react(i).Destroy?
  {
    if frames != [] { SurvivesAll(frames[1..], react, n + 1); }
  }

  lemma OneFrame(line: Bytes, react: nat -> Reaction, n: nat)
    ensures Survives([line], react, n) == !react(n).Destroy? && Delivery([line], react, n) == [line]
  {
  }

  lemma DeliverStop(before: seq<Bytes>, line: Bytes, after: seq<Bytes>, react: nat -> Reaction, n: nat)
    requires Survives(before, react, n)
    ensures Survives(before + [line], react, n) == !react(n + |before|).Destroy?
    ensures react(n + |before|).Destroy? ==>
              && Delivery(before + [line] + after, react, n) == before + [line]
              && !Survives(before + [line] + after, react, n)
  {
    OneFrame(line, react, n + |before|);
    hide Delivery, Survives;
    DeliveryAppend(before, [line], react, n);
    DeliveryAppend(before + [line], after, react, n);
  }

  /** Delivering one more frame to a connection that is still alive. */
  lemma DeliverOne(lines: seq<Bytes>, i: nat, isFrame: Bytes -> bool, react: nat -> Reaction, n: nat)
    requires i < |lines| && lines[i] != [] && isFrame(lines[i])
    requires Survives(FramesOf(lines[..i], isFrame), react, n)
    ensures var done := FramesOf(lines[..i], isFrame) + [lines[i]];
            var last := n + |FramesOf(lines[..i], isFrame)|;
            && FramesOf(lines[..i + 1], isFrame) == done
            && Survives(done, react, n) == !react(last).Destroy?
            && (react(last).Destroy? ==>
                  Delivery(FramesOf(lines, isFrame), react, n) == done && !Survives(FramesOf(lines, isFrame), react, n))
  {
    hide FramesOf, Delivery, Survives;
    FramesSnoc(lines, i, isFrame);
    FramesSplit(lines, i + 1, isFrame);
    DeliverStop(FramesOf(lines[..i], isFrame), lines[i], FramesOf(lines[i + 1..], isFrame), react, n);
  }

  ghost predicate AllContinue(react: nat -> Reaction, lo: nat, hi: nat) {
    forall i :: lo <= i < hi ==> react(i).Continue?
  }

  /** All frames of a response, computed from its bytes alone. */
  function ResponseFrames(response: Bytes, isFrame: Bytes -> bool): seq<Bytes> {
    FramesOf(LinesOf(Body(INITIAL, AfterHeaders(response))), isFrame)
  }

  lemma FramesGrow(body: Bytes, more: Bytes, isFrame: Bytes -> bool)
    ensures FramesOf(LinesOf(Body(INITIAL, body + more)), isFrame) ==
            FramesOf(LinesOf(Body(INITIAL, body)), isFrame) +
            FramesOf(LinesOf(Rest(Body(INITIAL, body)) + Body(Run(INITIAL, body), more)), isFrame)
    ensures Rest(Body(INITIAL, body + more)) == Rest(Rest(Body(INITIAL, body)) + Body(Run(INITIAL, body), more))
  {
    RunAppend(INITIAL, body, more);
    var b := Body(INITIAL, body);
    var m := Body(Run(INITIAL, body), more);
    LinesAppend(b, m);
    SplitAppend(b, m);
    FramesAppend(LinesOf(b), LinesOf(Rest(b) + m), isFrame);
  }

  /** How the reference changes when a slice adds these body bytes. */
  lemma ResponseGrows(was: Bytes, now: Bytes, body: Bytes, isFrame: Bytes -> bool, react: nat -> Reaction)
    requires AfterHeaders(now) == AfterHeaders(was) + body
    requires Survives(ResponseFrames(was, isFrame), react, 0)
    ensures var c, buf := Run(INITIAL, AfterHeaders(was)), Rest(Body(INITIAL, AfterHeaders(was)));
            var found := FramesOf(LinesOf(buf + Body(c, body)), isFrame);
            var before := Delivery(ResponseFrames(was, isFrame), react, 0);
            && Run(INITIAL, AfterHeaders(now)) == Run(c, body)
            && Rest(Body(INITIAL, AfterHeaders(now))) == Rest(buf + Body(c, body))
            && Delivery(ResponseFrames(now, isFrame), react, 0) == before + Delivery(found, react, |before|)
            && Survives(ResponseFrames(now, isFrame), react, 0) == Survives(found, react, |before|)
  {
    var a := AfterHeaders(was);
    hide Delivery, Survives, FramesOf, LinesOf, Rest, Run, Body, AfterHeaders;
    FramesGrow(a, body, isFrame);
    RunAppend(INITIAL, a, body);
    var found := FramesOf(LinesOf(Rest(Body(INITIAL, a)) + Body(Run(INITIAL, a), body)), isFrame);
    DeliveryAppend(ResponseFrames(was, isFrame), found, react, 0);
  }

  lemma SameBody(was: Bytes, now: Bytes, isFrame: Bytes -> bool)
    requires AfterHeaders(now) == AfterHeaders(was)
    ensures ResponseFrames(now, isFrame) == ResponseFrames(was, isFrame)
  {
  }

  /** After this answer, with these bytes received, the read loop goes round again. */
  ghost predicate KeepsReading(r: Recv, received: Bytes) {
    r.Data? && (HeadersComplete(received) ==> |r.bytes| == RECV_SIZE)
  }

  /** The first n answers all kept the loop reading. */
  ghost predicate ReadOn(script: seq<Recv>, before: Bytes, n: int)
    requires n <= |script|
  {
    forall i :: 0 <= i < n ==> KeepsReading(script[i], before + DataOf(script[..i + 1]))
  }

  lemma ReadOnStep(script: seq<Recv>, before: Bytes, n: nat)
    requires n < |script| && ReadOn(script, before, n)
    ensures KeepsReading(script[n], before + DataOf(script[..n + 1])) ==> ReadOn(script, before, n + 1)
  {
  }

  lemma ReadOnStart(script: seq<Recv>, before: Bytes)
    ensures ReadOn(script, before, 0) && ReadOn(script, before, -1)
  {
  }

  /**
   * One tick reads on, however short the reads are, as long as no CR LF CR LF has come, and from then
   * on as long as every read fills the 4096-byte buffer.
   */
  lemma ReadOnIff(script: seq<Recv>, before: Bytes, n: nat)
    requires n <= |script|
    ensures ReadOn(script, before, n) <==>
            forall i :: 0 <= i < n ==>
              script[i].Data? && (|script[i].bytes| == 4096 || NoBlankLine(before + DataOf(script[..i + 1])))
  {
    hide NoBlankLine, HeadersComplete, DataOf;
    forall i | 0 <= i < n
      ensures KeepsReading(script[i], before + DataOf(script[..i + 1])) <==>
              script[i].Data? && (|script[i].bytes| == 4096 || NoBlankLine(before + DataOf(script[..i + 1])))
    {
      BlankLineMeaning(before + DataOf(script[..i + 1]));
    }
  }

  function FrameCount(response: Bytes, isFrame: Bytes -> bool): nat {
    |ResponseFrames(response, isFrame)|
  }

  lemma CountMonotone(was: Bytes, more: Bytes, isFrame: Bytes -> bool)
    ensures FrameCount(was, isFrame) <= FrameCount(was + more, isFrame)
  {
    hide ResponseFrames;
    var added := FramesExtend(was, more, isFrame);
  }

  /** The frames contained in the bytes before and the first n answers. */
  function CountAt(script: seq<Recv>, n: nat, before: Bytes, isFrame: Bytes -> bool): nat
    requires n <= |script|
  {
    FrameCount(before + DataOf(script[..n]), isFrame)
  }

  lemma CountAtMonotone(script: seq<Recv>, m: nat, n: nat, before: Bytes, isFrame: Bytes -> bool)
    requires m <= n <= |script|
    ensures CountAt(script, m, before, isFrame) <= CountAt(script, n, before, isFrame)
  {
    hide FrameCount, DataOf;
    var a, b := script[..m], script[m..n];
    assert script[..n] == a + b;
    DataOfAppend(a, b);
    assert before + (DataOf(a) + DataOf(b)) == before + DataOf(a) + DataOf(b);
    CountMonotone(before + DataOf(a), DataOf(b), isFrame);
  }

  ghost predicate SomeCloses(react: nat -> Reaction, lo: nat, hi: nat) {
    exists i :: lo <= i < hi && react(i).CloseSocket?
  }

  ghost predicate NoneDestroys(react: nat -> Reaction, lo: nat, hi: nat) {
    forall i :: lo <= i < hi ==> !react(i).Destroy?
  }

  /**
   * The n-th answer is reached with the socket open, fills the buffer, and completes frames of which
   * one has a closing callback and none a destroying one.
   */
  ghost predicate NullSocketAt(script: seq<Recv>, n: nat, before: Bytes, isFrame: Bytes -> bool, react: nat -> Reaction)
    requires n < |script|
  {
    var lo, hi := CountAt(script, n, before, isFrame), CountAt(script, n + 1, before, isFrame);
    && ReadOn(script, before, n) && AllContinue(react, FrameCount(before, isFrame), lo)
    && script[n].Data? && |script[n].bytes| == RECV_SIZE
    && SomeCloses(react, lo, hi) && NoneDestroys(react, lo, hi)
  }

  ghost predicate HitsNullSocket(script: seq<Recv>, before: Bytes, isFrame: Bytes -> bool, react: nat -> Reaction) {
    exists n :: 0 <= n < |script| && NullSocketAt(script, n, before, isFrame, react)
  }

  /** What a tick that made used calls to Recv says about where the null socket is met. */
  lemma NullSocketExactly(script: seq<Recv>, used: nat, before: Bytes, isFrame: Bytes -> bool, react: nat -> Reaction,
                          alive: bool, open: bool, nullSocket: bool)
    requires 0 < used <= |script| && ReadOn(script, before, used - 1)
    requires var start, mid, end := FrameCount(before, isFrame),
                                    CountAt(script, used - 1, before, isFrame), CountAt(script, used, before, isFrame);
             && start <= mid <= end && AllContinue(react, start, mid)
             && (alive <==> NoneDestroys(react, start, end))
             && (alive ==> (open <==> AllContinue(react, start, end)))
    requires nullSocket <==> alive && !open && script[used - 1].Data? && |script[used - 1].bytes| == RECV_SIZE
    requires alive && open && used < |script| ==> !KeepsReading(script[used - 1], before + DataOf(script[..used]))
    ensures nullSocket <==> HitsNullSocket(script, before, isFrame, react)
  {
    hide FrameCount, CountAt;
    var start, mid, end := FrameCount(before, isFrame),
                           CountAt(script, used - 1, before, isFrame), CountAt(script, used, before, isFrame);
    if nullSocket {
      var i :| start <= i < end && !react(i).Continue?;
      assert mid <= i && react(i).CloseSocket?;
      assert NullSocketAt(script, used - 1, before, isFrame, react);
    }
    forall n | 0 <= n < |script| && NullSocketAt(script, n, before, isFrame, react) ensures nullSocket {
      if n < used - 1 {
        CountAtMonotone(script, n + 1, used - 1, before, isFrame);
        CountAtMonotone(script, 0, n, before, isFrame);
        StartCount(script, before, isFrame);
        assert false;
      } else if n >= used {
        CountAtMonotone(script, used, n, before, isFrame);
        assert false;
      }
    }
  }

  lemma CountNow(script: seq<Recv>, n: nat, before: Bytes, now: Bytes, isFrame: Bytes -> bool)
    requires n <= |script| && now == before + DataOf(script[..n])
    ensures CountAt(script, n, before, isFrame) == FrameCount(now, isFrame)
  {
  }

  lemma AllContinueJoin(react: nat -> Reaction, a: nat, b: nat, c: nat)
    requires a <= b <= c
    ensures AllContinue(react, a, c) <==> AllContinue(react, a, b) && AllContinue(react, b, c)
    ensures AllContinue(react, a, a)
  {
  }

  lemma NoneDestroysJoin(react: nat -> Reaction, a: nat, b: nat)
    requires NoneDestroys(react, 0, a) && a <= b
    ensures NoneDestroys(react, 0, b) <==> NoneDestroys(react, a, b)
  {
  }

  lemma NoScript(before: Bytes, isFrame: Bytes -> bool, react: nat -> Reaction)
    ensures !HitsNullSocket([], before, isFrame, react)
  {
  }

  lemma StartCount(script: seq<Recv>, before: Bytes, isFrame: Bytes -> bool)
    ensures CountAt(script, 0, before, isFrame) == FrameCount(before, isFrame)
  {
    assert script[..0] == [] && before + [] == before;
  }

  class Connection {
    const isFrame: Bytes -> bool
    const react: nat -> Reaction
    const decoder: Decoder
    var headerBuf: Bytes
    var headersDone: bool
    var socketOpen: bool
    var ticking: bool
    var closedFired: bool
    var alive: bool
    /** The frames handed to OnFrame, and the number of OnClosed calls. */
    var delivered: seq<Bytes>
    var closedCalls: nat
    /** Every byte Recv has returned so far. */
    ghost var received: Bytes

    constructor (isFrame: Bytes -> bool, react: nat -> Reaction)
      ensures Valid() && fresh(decoder) && alive && ticking && !closedFired && received == []
      ensures this.isFrame == isFrame && this.react == react
    {
      this.isFrame, this.react := isFrame, react;
      decoder := new Decoder();
      headerBuf, headersDone, socketOpen, ticking := [], false, true, true;
      closedFired, alive, delivered, closedCalls, received := false, true, [], 0, [];
      new;
      SplitUnique([], []);
    }

    /** While the connection lives, its state is a function of the bytes received. */
    ghost predicate Consistent()
      reads this, decoder
    {
      var body := AfterHeaders(received);
      && headersDone == HeadersComplete(received)
      && (!headersDone ==> headerBuf == received)
      && decoder.Valid()
      && decoder.Chunks() == Run(INITIAL, body)
      && decoder.lineBuf == Rest(Body(INITIAL, body))
    }

    ghost predicate Valid()
      reads this, decoder
    {
      && delivered == Delivery(ResponseFrames(received, isFrame), react, 0)
      && alive == Survives(ResponseFrames(received, isFrame), react, 0)
      && (alive ==> Consistent())
      && closedCalls == (if closedFired then 1 else 0)
      && (ticking <==> socketOpen && !closedFired)
    }

    method Close()
      modifies this`ticking, this`socketOpen
      ensures !ticking && !socketOpen
    {
      ticking := false;
      socketOpen := false;
    }

    /** Hands over one frame; the callback may close or destroy the connection. */
    method OnFrame(line: Bytes)
      requires alive
      modifies this`delivered, this`alive, this`ticking, this`socketOpen
      ensures delivered == old(delivered) + [line]
      ensures alive == !react(old(|delivered|)).Destroy?
      ensures socketOpen == (old(socketOpen) && react(old(|delivered|)).Continue?)
      ensures ticking == (old(ticking) && react(old(|delivered|)).Continue?)
    {
      var n := |delivered|;
      delivered := delivered + [line];
      match react(n)
      case Continue =>
      case CloseSocket => Close();
      case Destroy =>
        alive := false;
        Close();
    }

    method ConsumeBody(data: Bytes)
      requires alive && decoder.Valid()
      modifies this`delivered, this`alive, this`ticking, this`socketOpen, decoder
      ensures decoder.Valid() && decoder.Chunks() == Run(old(decoder.Chunks()), data)
      ensures decoder.lineBuf == Rest(old(decoder.lineBuf) + Body(old(decoder.Chunks()), data))
      ensures var found := FramesOf(LinesOf(old(decoder.lineBuf) + Body(old(decoder.Chunks()), data)), isFrame);
              && delivered == old(delivered) + Delivery(found, react, old(|delivered|))
              && alive == Survives(found, react, old(|delivered|))
      ensures socketOpen == (old(socketOpen) && AllContinue(react, old(|delivered|), |delivered|))
      ensures ticking == (old(ticking) && AllContinue(react, old(|delivered|), |delivered|))
    {
      var lines := decoder.Feed(data);
      DeliverLines(lines);
    }

    method DeliverLines(lines: seq<Bytes>)
      requires alive
      modifies this`delivered, this`alive, this`ticking, this`socketOpen
      ensures delivered == old(delivered) + Delivery(FramesOf(lines, isFrame), react, old(|delivered|))
      ensures alive == Survives(FramesOf(lines, isFrame), react, old(|delivered|))
      ensures socketOpen == (old(socketOpen) && AllContinue(react, old(|delivered|), |delivered|))
      ensures ticking == (old(ticking) && AllContinue(react, old(|delivered|), |delivered|))
    {
      hide Delivery, Survives;
      ghost var n := |delivered|;
      assert Survives([], react, |delivered|) by { SurvivesAll([], react, |delivered|); }
      assert lines[..0] == [];
      var i := 0;
      while i < |lines|
        invariant 0 <= i <= |lines| && alive
        invariant delivered == old(delivered) + FramesOf(lines[..i], isFrame)
        invariant |delivered| == n + |FramesOf(lines[..i], isFrame)|
        invariant Survives(FramesOf(lines[..i], isFrame), react, n)
        invariant socketOpen == (old(socketOpen) && AllContinue(react, old(|delivered|), |delivered|))
        invariant ticking == (old(ticking) && AllContinue(react, old(|delivered|), |delivered|))
      {
        var line := lines[i];
        if line == [] || !isFrame(line) {
          FramesSnoc(lines, i, isFrame);
          assert FramesOf(lines[..i], isFrame) + [] == FramesOf(lines[..i], isFrame);
        } else {
          DeliverOne(lines, i, isFrame, react, n);
          OnFrame(line);
          if !alive { return; }
        }
        i := i + 1;
      }
      assert lines[..|lines|] == lines;
      DeliveryAppend(FramesOf(lines, isFrame), [], react, old(|delivered|));
    }

    method HandleClosed()
      requires Valid()
      modifies this`closedFired, this`ticking, this`closedCalls
      ensures Valid() && closedFired && !ticking && closedCalls == 1
    {
      if closedFired { return; }
      closedFired := true;
      ticking := false;
      closedCalls := closedCalls + 1;
    }

    /** Appends a slice to the headers; the offset of the first body byte in it, or -1 for none yet. */
    method TakeHeaders(slice: Bytes) returns (bodyStart: int)
      requires !headersDone && !HeadersComplete(headerBuf)
      modifies this`headerBuf, this`headersDone
      ensures headerBuf == old(headerBuf) + slice
      ensures headersDone == HeadersComplete(headerBuf) == (bodyStart >= 0)
      ensures headersDone ==> bodyStart <= |slice| && slice[bodyStart..] == AfterHeaders(headerBuf)
    {
      ghost var before := headerBuf;
      headerBuf := headerBuf + slice;
      bodyStart := -1;
      var i := 3;
      while i < |headerBuf|
        invariant 3 <= i && forall j :: j < i ==> !TerminatorAt(headerBuf, j)
      {
        if headerBuf[i - 3] == CR && headerBuf[i - 2] == LF && headerBuf[i - 1] == CR && headerBuf[i] == LF {
          var bodyInHeaderBuf := i + 1;
          var bytesBeforeThisRecv := |headerBuf| - |slice|;
          assert FirstTerminator(headerBuf, i) && HeadersComplete(headerBuf) by { assert TerminatorAt(headerBuf, i); }
          HeadersEndInSlice(before, slice, i);
          bodyStart := if bodyInHeaderBuf - bytesBeforeThisRecv < 0 then 0 else bodyInHeaderBuf - bytesBeforeThisRecv;
          headersDone := true;
          return;
        }
        i := i + 1;
      }
    }

    /**
     * One tick's worth of reading. The frames delivered stay the frames of all bytes received, cut
     * at the first destroying callback. Recv is called on a closed socket exactly when a callback
     * closed the connection, without destroying it, during a read that filled the whole buffer.
     */
    method DrainReadable(script: seq<Recv>) returns (used: nat, nullSocket: bool)
      requires Valid() && alive && forall i :: 0 <= i < |script| ==> RealRecv(script[i])
      modifies this, decoder
      ensures Valid() && used <= |script|
      ensures received == old(received) + DataOf(script[..used]) && |delivered| >= old(|delivered|)
      ensures used > 0 <==> old(socketOpen) && script != []
      ensures nullSocket <==> old(socketOpen) && HitsNullSocket(script, old(received), isFrame, react)
      ensures socketOpen <==> old(socketOpen) && AllContinue(react, old(|delivered|), |delivered|)
      ensures closedFired <==> old(closedFired) || (0 < used && script[used - 1].Failed?)
      ensures ReadOn(script, old(received), used - 1)
      ensures used > 0 ==>
              AllContinue(react, FrameCount(old(received), isFrame), CountAt(script, used - 1, old(received), isFrame))
      ensures old(socketOpen) && alive && socketOpen && used < |script| ==> !KeepsReading(script[used - 1], received)
    {
      hide Valid, HitsNullSocket, NoneDestroys, AllContinue, CountAt, FrameCount, ResponseFrames, DataOf,
         HeadersComplete;
      used, nullSocket := 0, false;
      assert script[..0] == [] && DataOf([]) == [] by { EmptyData(); }
      ReadOnStart(script, received);
      hide ReadOn;
      ghost var start, mid := |delivered|, |delivered|;
      AllContinueJoin(react, start, start, start);
      if !socketOpen || script == [] {
        NoScript(received, isFrame, react);
        return;
      }
      DeliveredSurvive();
      while true
        invariant Valid() && alive && used <= |script|
        invariant received == old(received) + DataOf(script[..used])
        invariant start <= |delivered| && (used == 0 ==> socketOpen)
        invariant used > 0 ==> start <= mid <= |delivered| && AllContinue(react, start, mid)
        invariant used > 0 ==> mid == CountAt(script, used - 1, old(received), isFrame)
        invariant !socketOpen ==> used > 0 && script[used - 1].Data? && |script[used - 1].bytes| == RECV_SIZE
        invariant ReadOn(script, old(received), used) && ReadOn(script, old(received), used - 1)
        invariant socketOpen <==> AllContinue(react, start, |delivered|)
        invariant closedFired == old(closedFired) && !nullSocket
        decreases |script| - used
      {
        if !socketOpen {
          nullSocket := true;
          break;
        }
        if used == |script| { break; }
        DeliveredSurvive();
        CountNow(script, used, old(received), received, isFrame);
        mid := |delivered|;
        var r := script[used];
        DataOfSnoc(script, used);
        ReadOnStep(script, old(received), used);
        used := used + 1;
        match r {
          case Nothing => break;
          case Failed =>
            HandleClosed();
            break;
          case Data(bytes) =>
            OnData(bytes);
            AllContinueJoin(react, start, mid, |delivered|);
            if !alive || (headersDone && |bytes| < RECV_SIZE) { break; }
            assert received == old(received) + DataOf(script[..used]);
        }
      }
      AliveIff();
      NoneDestroysJoin(react, start, FrameCount(received, isFrame));
      CountNow(script, used, old(received), received, isFrame);
      NullSocketExactly(script, used, old(received), isFrame, react, alive, socketOpen, nullSocket);
    }

    /** The socket is open, for a connection with no other reason to close it, exactly while all callbacks continue. */
    lemma ContinuedIff(start: nat)
      requires Valid() && start <= |delivered| && AllContinue(react, 0, start)
      ensures AllContinue(react, start, |delivered|) <==> AllContinue(react, 0, FrameCount(received, isFrame))
      ensures AllContinue(react, 0, FrameCount(received, isFrame)) ==> alive
    {
      hide Valid, FrameCount;
      AliveIff();
      StoppedByDestroy();
    }

    lemma StoppedByDestroy()
      requires Valid()
      ensures !alive ==> |delivered| > 0 && react(|delivered| - 1).Destroy?
    {
      if !alive { DeliveryStops(ResponseFrames(received, isFrame), react, 0); }
    }

    lemma AliveIff()
      requires Valid()
      ensures alive <==> NoneDestroys(react, 0, FrameCount(received, isFrame))
      ensures |delivered| <= FrameCount(received, isFrame)
      ensures alive ==> |delivered| == FrameCount(received, isFrame)
    {
      var frames := ResponseFrames(received, isFrame);
      SurvivesAll(frames, react, 0);
      DeliveryAppend(frames, [], react, 0);
      DeliveryLength(frames, react, 0);
    }

    lemma Outcome()
      requires Valid()
      ensures delivered == Delivery(ResponseFrames(received, isFrame), react, 0)
      ensures closedCalls == if closedFired then 1 else 0
    {
    }

    lemma DeliveredSurvive()
      requires Valid() && alive
      ensures delivered == ResponseFrames(received, isFrame) && |delivered| == FrameCount(received, isFrame)
      ensures NoneDestroys(react, 0, |delivered|)
    {
      var frames := ResponseFrames(received, isFrame);
      DeliveryAppend(frames, [], react, 0);
      SurvivesAll(frames, react, 0);
    }

    /** One successful read. */
    method OnData(bytes: Bytes)
      requires Valid() && alive && socketOpen
      modifies this, decoder
      ensures Valid() && received == old(received) + bytes
      ensures |delivered| >= old(|delivered|)
      ensures socketOpen <==> AllContinue(react, old(|delivered|), |delivered|)
      ensures !headersDone ==> delivered == old(delivered)
      ensures closedFired == old(closedFired) && (alive ==> headersDone == HeadersComplete(received))
    {
      hide Delivery, Survives, FramesOf, LinesOf, Rest, Run, Body, Next;
      hide AfterHeaders, FindTerminator, HeadersComplete, TerminatorAt, ResponseFrames, LfFree;
      var bodyStart := 0;
      ghost var was := received;
      received := received + bytes;
      if headersDone {
        HeadersStable(was, bytes);
      } else {
        NoBodyYet(was);
        bodyStart := TakeHeaders(bytes);
        if !headersDone {
          NoBodyYet(received);
          SameBody(was, received, isFrame);
          return;
        }
      }
      var body := bytes[bodyStart..];
      assert AfterHeaders(received) == AfterHeaders(was) + body;
      if |bytes| - bodyStart > 0 {
        ResponseGrows(was, received, body, isFrame, react);
        ConsumeBody(body);
      } else {
        assert AfterHeaders(received) == AfterHeaders(was);
        SameBody(was, received, isFrame);
      }
    }
  }

  /** More bytes only add frames at the end. */
  lemma FramesExtend(was: Bytes, more: Bytes, isFrame: Bytes -> bool) returns (added: seq<Bytes>)
    ensures ResponseFrames(was + more, isFrame) == ResponseFrames(was, isFrame) + added
  {
    hide FramesOf, LinesOf, Body, Run, Rest, AfterHeaders, HeadersComplete;
    if HeadersComplete(was) {
      HeadersStable(was, more);
      var body := AfterHeaders(was);
      FramesGrow(body, more, isFrame);
      added := FramesOf(LinesOf(Rest(Body(INITIAL, body)) + Body(Run(INITIAL, body), more)), isFrame);
    } else {
      NoBodyYet(was);
      NoFramesYet(was, isFrame);
      added := ResponseFrames(was + more, isFrame);
      assert [] + added == added;
    }
  }

  lemma NoFramesYet(was: Bytes, isFrame: Bytes -> bool)
    requires AfterHeaders(was) == []
    ensures ResponseFrames(was, isFrame) == []
  {
  }

  // ---------- a connection read to its end ----------

  /** No callback of a frame contained in these bytes closes or destroys. */
  ghost predicate Quiet(response: Bytes, isFrame: Bytes -> bool, react: nat -> Reaction) {
    AllContinue(react, 0, FrameCount(response, isFrame))
  }

  /** After n answers the connection is still read, tick after tick. */
  ghost predicate GoesOn(script: seq<Recv>, n: nat, isFrame: Bytes -> bool, react: nat -> Reaction)
    requires n <= |script|
  {
    (n > 0 ==> !script[n - 1].Failed?) && Quiet(DataOf(script[..n]), isFrame, react)
  }

  /** The number of answers that are read: up to the first failure or the first frame that ends the stream. */
  ghost function ReadEnd(script: seq<Recv>, n: nat, isFrame: Bytes -> bool, react: nat -> Reaction): (e: nat)
    requires n <= |script|
    ensures n <= e <= |script|
    decreases |script| - n
  {
    hide GoesOn;
    if n == |script| || !GoesOn(script, n, isFrame, react) then n else ReadEnd(script, n + 1, isFrame, react)
  }

  /** The connection is still read after every answer before the last one read, and not after that. */
  lemma {:induction false} ReadEndMeaning(script: seq<Recv>, n: nat, isFrame: Bytes -> bool, react: nat -> Reaction)
    requires n <= |script|
    ensures var e := ReadEnd(script, n, isFrame, react);
            && (e < |script| ==> !GoesOn(script, e, isFrame, react))
            && forall k :: n <= k < e ==> GoesOn(script, k, isFrame, react)
    decreases |script| - n
  {
    hide GoesOn;
    if n < |script| && GoesOn(script, n, isFrame, react) { ReadEndMeaning(script, n + 1, isFrame, react); }
  }

  lemma EndUnique(script: seq<Recv>, e: nat, isFrame: Bytes -> bool, react: nat -> Reaction)
    requires e <= |script| && (e < |script| ==> !GoesOn(script, e, isFrame, react))
    requires forall k :: 0 <= k < e ==> GoesOn(script, k, isFrame, react)
    ensures ReadEnd(script, 0, isFrame, react) == e
  {
    hide GoesOn;
    ReadEndMeaning(script, 0, isFrame, react);
    var f := ReadEnd(script, 0, isFrame, react);
    assert !(f < e) && !(e < f);
  }

  lemma QuietEarlier(was: Bytes, more: Bytes, isFrame: Bytes -> bool, react: nat -> Reaction)
    requires Quiet(was + more, isFrame, react)
    ensures Quiet(was, isFrame, react)
  {
    hide FrameCount;
    CountMonotone(was, more, isFrame);
  }

  lemma QuietStart(isFrame: Bytes -> bool, react: nat -> Reaction)
    ensures Quiet([], isFrame, react) && FrameCount([], isFrame) == 0
  {
    NoBodyYet([]);
    NoFramesYet([], isFrame);
  }

  /** One tick that made n calls keeps to the answers that are read. */
  lemma TickGoesOn(script: seq<Recv>, u: nat, n: nat, isFrame: Bytes -> bool, react: nat -> Reaction)
    requires u + n <= |script| && n > 0 && Quiet(DataOf(script[..u]), isFrame, react)
    requires var rest, before := script[u..], DataOf(script[..u]);
             && ReadOn(rest, before, n - 1)
             && AllContinue(react, FrameCount(before, isFrame), CountAt(rest, n - 1, before, isFrame))
    ensures DataOf(script[..u + n]) == DataOf(script[..u]) + DataOf(script[u..][..n])
    ensures forall k :: u < k < u + n ==> GoesOn(script, k, isFrame, react)
  {
    hide DataOf, FrameCount, CountAt, HeadersComplete;
    var rest, before := script[u..], DataOf(script[..u]);
    Spliced(script, u, n);
    forall k | u < k < u + n ensures GoesOn(script, k, isFrame, react) {
      assert KeepsReading(rest[k - u - 1], before + DataOf(rest[..k - u]));
      assert rest[k - u - 1] == script[k - 1];
      Spliced(script, u, k - u);
      CountAtMonotone(rest, k - u, n - 1, before, isFrame);
      CountNow(rest, k - u, before, DataOf(script[..k]), isFrame);
    }
  }

  lemma Spliced(script: seq<Recv>, u: nat, n: nat)
    requires u + n <= |script|
    ensures DataOf(script[..u + n]) == DataOf(script[..u]) + DataOf(script[u..][..n])
  {
    hide DataOf;
    assert script[..u + n] == script[..u] + script[u..][..n];
    DataOfAppend(script[..u], script[u..][..n]);
  }

  /**
   * A connection read to its end, tick after tick, whatever the callbacks do: which answers are
   * read, what is delivered from them, and that only a failed read calls back for a new connection.
   */
  method DeliverAll(script: seq<Recv>, isFrame: Bytes -> bool, react: nat -> Reaction)
    returns (delivered: seq<Bytes>, used: nat, closedCalls: nat)
    requires forall i :: 0 <= i < |script| ==> RealRecv(script[i])
    ensures used == ReadEnd(script, 0, isFrame, react)
    ensures delivered == Delivery(ResponseFrames(DataOf(script[..used]), isFrame), react, 0)
    ensures closedCalls == if used > 0 && script[used - 1].Failed? then 1 else 0
  {
    hide Delivery, ResponseFrames, DataOf, FrameCount, Connection.Valid;
    var connection := new Connection(isFrame, react);
    used := 0;
    assert script[..0] == [] && DataOf([]) == [] by { EmptyData(); }
    QuietStart(isFrame, react);
    while used < |script| && connection.ticking
      invariant used <= |script| && connection.Valid()
      invariant fresh(connection) && fresh(connection.decoder)
      invariant connection.received == DataOf(script[..used])
      invariant connection.isFrame == isFrame && connection.react == react
      invariant connection.closedFired <==> used > 0 && script[used - 1].Failed?
      invariant connection.ticking ==> connection.alive
      invariant connection.ticking <==> GoesOn(script, used, isFrame, react)
      invariant forall k :: 0 <= k < used ==> GoesOn(script, k, isFrame, react)
      decreases |script| - used
    {
      hide GoesOn, Quiet, RealRecv;
      used := OneTick(connection, script, used);
    }
    EndUnique(script, used, isFrame, react);
    connection.Outcome();
    delivered, closedCalls := connection.delivered, connection.closedCalls;
  }

  /** The reading of one tick, in terms of the whole list of answers. */
  method OneTick(connection: Connection, script: seq<Recv>, u: nat) returns (used: nat)
    requires forall i :: 0 <= i < |script| ==> RealRecv(script[i])
    requires u < |script| && connection.Valid() && connection.alive && connection.ticking
    requires connection.received == DataOf(script[..u]) && GoesOn(script, u, connection.isFrame, connection.react)
    modifies connection, connection.decoder
    ensures u < used <= |script| && connection.Valid() && connection.received == DataOf(script[..used])
    ensures connection.closedFired <==> script[used - 1].Failed?
    ensures connection.ticking ==> connection.alive
    ensures connection.ticking <==> GoesOn(script, used, connection.isFrame, connection.react)
    ensures forall k :: u < k < used ==> GoesOn(script, k, connection.isFrame, connection.react)
  {
    hide Delivery, Survives, ResponseFrames, DataOf, ReadOn, FrameCount, CountAt, HitsNullSocket, HeadersComplete;
    connection.DeliveredSurvive();
    ghost var isFrame, react, start := connection.isFrame, connection.react, |connection.delivered|;
    var n, nullSocket := connection.DrainReadable(script[u..]);
    used := u + n;
    TickGoesOn(script, u, n, isFrame, react);
    connection.AliveIff();
    connection.ContinuedIff(start);
  }

  lemma EmptyData()
    ensures DataOf([]) == []
  {
  }
}
