/** When the cuts of a response can be seen in what a watch connection delivers. */
module CutDependence {
  import opened Lines
  import opened ChunkedNdjson
  import opened ChunkedCoding
  import opened WatchConnection
  import opened RustFraming

  /** A way for Recv to hand over this response. */
  ghost predicate Cuts(script: seq<Recv>, response: Bytes) {
    DataOf(script) == response && forall i :: 0 <= i < |script| ==> RealRecv(script[i]) && !script[i].Failed?
  }

  /** What DeliverAll delivers. */
  ghost function Delivered(script: seq<Recv>, isFrame: Bytes -> bool, react: nat -> Reaction): seq<Bytes> {
    Delivery(ResponseFrames(DataOf(script[..ReadEnd(script, 0, isFrame, react)]), isFrame), react, 0)
  }

  ghost predicate CutIndependent(response: Bytes, isFrame: Bytes -> bool, react: nat -> Reaction) {
    forall a, b :: Cuts(a, response) && Cuts(b, response) ==>
       Delivered(a, isFrame, react) == Delivered(b, isFrame, react)
  }

  /** The q-th byte completes the first frame whose callback does not continue. */
  ghost predicate Ending(response: Bytes, q: int, isFrame: Bytes -> bool, react: nat -> Reaction) {
    0 < q <= |response| && Quiet(response[..q - 1], isFrame, react) && !Quiet(response[..q], isFrame, react)
  }

  /** And that callback closes the connection without destroying it, as a deferred teardown does. */
  ghost predicate Closing(response: Bytes, q: int, isFrame: Bytes -> bool, react: nat -> Reaction) {
    Ending(response, q, isFrame, react) && !react(CountOf(response, q, isFrame) - 1).Destroy?
  }

  function CountOf(response: Bytes, k: nat, isFrame: Bytes -> bool): nat
    requires k <= |response|
  {
    FrameCount(response[..k], isFrame)
  }

  /** The furthest a read can reach that still contains the q-th byte and starts before it. */
  function Reach(response: Bytes, q: nat): (k: nat)
    requires 0 < q <= |response|
    ensures q <= k <= |response|
  {
    if q - 1 + RECV_SIZE < |response| then q - 1 + RECV_SIZE else |response|
  }

  // ---------- prefixes of a response ----------

  lemma CountGrows(response: Bytes, j: nat, k: nat, isFrame: Bytes -> bool)
    requires j <= k <= |response|
    ensures CountOf(response, j, isFrame) <= CountOf(response, k, isFrame)
  {
    hide FrameCount;
    assert response[..k] == response[..j] + response[j..k];
    CountMonotone(response[..j], response[j..k], isFrame);
  }

  lemma QuietBefore(response: Bytes, j: nat, k: nat, isFrame: Bytes -> bool, react: nat -> Reaction)
    requires j <= k <= |response| && Quiet(response[..k], isFrame, react)
    ensures Quiet(response[..j], isFrame, react)
  {
    hide Quiet;
    assert response[..k] == response[..j] + response[j..k];
    QuietEarlier(response[..j], response[j..k], isFrame, react);
  }

  /** One byte completes at most one frame. */
  lemma OneByteOneFrame(was: Bytes, b: Byte, isFrame: Bytes -> bool)
    ensures FrameCount(was + [b], isFrame) <= FrameCount(was, isFrame) + 1
  {
    hide Rest, LinesOf, FramesOf, AfterHeaders, HeadersComplete, Run, Next;
    if HeadersComplete(was) {
      HeadersStable(was, [b]);
      var body := AfterHeaders(was);
      FramesGrow(body, [b], isFrame);
      var rest := Rest(Body(INITIAL, body));
      SplitJoin(Body(INITIAL, body));
      var more := Body(Run(INITIAL, body), [b]);
      AtMostOneByte(Run(INITIAL, body), b);
      OneByteLines(rest, b, more);
      ShortFrames(LinesOf(rest + more), isFrame);
    } else if HeadersComplete(was + [b]) {
      FirstOf(was + [b]);
      var i :| FirstTerminator(was + [b], i);
      HeadersEndInSlice(was, [b], i);
      assert AfterHeaders(was + [b]) == [b][i + 1 - |was|..] == [];
      NoFramesYet(was + [b], isFrame);
    } else {
      NoBodyYet(was + [b]);
      NoFramesYet(was + [b], isFrame);
    }
  }

  lemma FirstOf(s: Bytes)
    requires HeadersComplete(s)
    ensures exists i :: FirstTerminator(s, i)
  {
    var i := FindTerminator(s, 0);
    assert FirstTerminator(s, i);
  }

  lemma AtMostOneByte(c: Chunking, b: Byte)
    ensures Body(c, [b]) == [b] || Body(c, [b]) == []
  {
    assert Body(Next(c, b), []) == [];
  }

  lemma OneByteLines(rest: Bytes, b: Byte, more: Bytes)
    requires LfFree(rest) && (more == [b] || more == [])
    ensures |LinesOf(rest + more)| <= 1
  {
    SplitByte(rest, b);
    assert rest + [] == rest;
  }

  lemma ShortFrames(lines: seq<Bytes>, isFrame: Bytes -> bool)
    requires |lines| <= 1
    ensures |FramesOf(lines, isFrame)| <= 1
  {
  }

  /** The first frame whose callback does not continue. */
  lemma EndingFrame(response: Bytes, q: int, isFrame: Bytes -> bool, react: nat -> Reaction)
    requires Ending(response, q, isFrame, react)
    ensures var m := CountOf(response, q, isFrame) - 1;
            m >= 0 && !react(m).Continue? && AllContinue(react, 0, m) && CountOf(response, q - 1, isFrame) == m
  {
    hide FrameCount;
    assert response[..q] == response[..q - 1] + [response[q - 1]];
    OneByteOneFrame(response[..q - 1], response[q - 1], isFrame);
    CountGrows(response, q - 1, q, isFrame);
  }

  lemma {:induction false} EndingExists(response: Bytes, k: nat, isFrame: Bytes -> bool, react: nat -> Reaction)
    requires k <= |response| && !Quiet(response[..k], isFrame, react)
    ensures exists q :: q <= k && Ending(response, q, isFrame, react)
  {
    hide Quiet;
    if k == 0 {
      assert response[..0] == [];
      QuietStart(isFrame, react);
    } else if Quiet(response[..k - 1], isFrame, react) {
      assert Ending(response, k, isFrame, react);
    } else {
      EndingExists(response, k - 1, isFrame, react);
    }
  }

  // ---------- where a script stops ----------

  lemma DataLength(script: seq<Recv>, n: nat, response: Bytes)
    requires n <= |script| && Cuts(script, response)
    ensures |DataOf(script[..n])| <= |response| && DataOf(script[..n]) == response[..|DataOf(script[..n])|]
    ensures n > 0 ==> |DataOf(script[..n - 1])| <= |DataOf(script[..n])| <= |DataOf(script[..n - 1])| + RECV_SIZE
  {
    hide DataOf;
    assert script == script[..n] + script[n..];
    DataOfAppend(script[..n], script[n..]);
    if n > 0 {
      DataOfSnoc(script, n - 1);
      assert RealRecv(script[n - 1]);
    }
  }

  lemma GoesOnIff(script: seq<Recv>, n: nat, response: Bytes, isFrame: Bytes -> bool, react: nat -> Reaction)
    requires n <= |script| && Cuts(script, response) && |DataOf(script[..n])| <= |response|
    ensures GoesOn(script, n, isFrame, react) <==> Quiet(response[..|DataOf(script[..n])|], isFrame, react)
  {
    hide Quiet, DataOf;
    DataLength(script, n, response);
    assert n > 0 ==> RealRecv(script[n - 1]) && !script[n - 1].Failed?;
  }

  /** A prefix is quiet exactly when it stops short of the ending byte. */
  lemma QuietIff(response: Bytes, q: int, k: nat, isFrame: Bytes -> bool, react: nat -> Reaction)
    requires Ending(response, q, isFrame, react) && k <= |response|
    ensures Quiet(response[..k], isFrame, react) <==> k < q
  {
    hide Quiet;
    if k < q {
      QuietBefore(response, k, q - 1, isFrame, react);
    } else if Quiet(response[..k], isFrame, react) {
      QuietBefore(response, q, k, isFrame, react);
    }
  }

  /** The bytes up to where a script stops, and up to the read before. */
  lemma StopsAt(script: seq<Recv>, response: Bytes, isFrame: Bytes -> bool, react: nat -> Reaction)
    returns (j: nat, k: nat)
    requires Cuts(script, response)
    ensures j <= k <= |response| && k <= j + RECV_SIZE
    ensures DataOf(script[..ReadEnd(script, 0, isFrame, react)]) == response[..k]
    ensures k == |response| || !Quiet(response[..k], isFrame, react)
    ensures k == 0 || Quiet(response[..j], isFrame, react)
  {
    var e := ReadEnd(script, 0, isFrame, react);
    ReadEndMeaning(script, 0, isFrame, react);
    j, k := 0, |DataOf(script[..e])|;
    hide Quiet, GoesOn, DataOf;
    DataLength(script, e, response);
    GoesOnIff(script, e, response, isFrame, react);
    if e > 0 {
      j := |DataOf(script[..e - 1])|;
      DataLength(script, e - 1, response);
      GoesOnIff(script, e - 1, response, isFrame, react);
    }
    if e == |script| { assert script[..e] == script; }
    if e == 0 { EmptyStart(script); }
  }

  lemma EmptyStart(script: seq<Recv>)
    ensures DataOf(script[..0]) == []
  {
    assert script[..0] == [];
  }

  /** A script stops at the end of a quiet response, or in the read that contains the ending byte. */
  lemma StopsInReach(script: seq<Recv>, response: Bytes, isFrame: Bytes -> bool, react: nat -> Reaction)
    returns (k: nat)
    requires Cuts(script, response)
    ensures k <= |response|
            && Delivered(script, isFrame, react) == Delivery(ResponseFrames(response[..k], isFrame), react, 0)
    ensures Quiet(response, isFrame, react) ==> k == |response|
    ensures forall q :: Ending(response, q, isFrame, react) ==> q <= k <= Reach(response, q)
  {
    hide Quiet, DataOf, ResponseFrames, Delivery, Cuts;
    var j;
    j, k := StopsAt(script, response, isFrame, react);
    assert response[..|response|] == response;
    if Quiet(response, isFrame, react) { QuietBefore(response, k, |response|, isFrame, react); }
    forall q | Ending(response, q, isFrame, react) ensures q <= k <= Reach(response, q) {
      QuietIff(response, q, k, isFrame, react);
      QuietIff(response, q, j, isFrame, react);
    }
  }

  /** A response read byte by byte, except for one longer read of the bytes from lo to hi. */
  function Singles(bytes: Bytes): (script: seq<Recv>)
    ensures |script| == |bytes|
  {
    seq(|bytes|, i requires 0 <= i < |bytes| => Data([bytes[i]]))
  }

  lemma {:induction false} SinglesCut(bytes: Bytes)
    ensures Cuts(Singles(bytes), bytes)
    decreases |bytes|
  {
    var script := Singles(bytes);
    if bytes != [] {
      var n := |bytes| - 1;
      SinglesCut(bytes[..n]);
      assert script[..n] == Singles(bytes[..n]);
      DataOfSnoc(script, n);
      assert script[..n + 1] == script && bytes[..n] + [bytes[n]] == bytes;
    }
  }

  function OneRead(response: Bytes, lo: nat, hi: nat): (script: seq<Recv>)
    requires lo < hi <= |response|
  {
    Singles(response[..lo]) + [Data(response[lo..hi])] + Singles(response[hi..])
  }

  lemma OneReadCuts(response: Bytes, lo: nat, hi: nat)
    requires lo < hi <= |response| && hi - lo <= RECV_SIZE
    ensures Cuts(OneRead(response, lo, hi), response)
    ensures forall n :: 0 <= n <= lo ==> DataOf(OneRead(response, lo, hi)[..n]) == response[..n]
    ensures DataOf(OneRead(response, lo, hi)[..lo + 1]) == response[..hi]
  {
    var script := OneRead(response, lo, hi);
    var first, read, last := Singles(response[..lo]), [Data(response[lo..hi])], Singles(response[hi..]);
    SinglesCut(response[..lo]);
    SinglesCut(response[hi..]);
    assert DataOf(read) == response[lo..hi] by { assert DataOf(read[1..]) == []; }
    hide DataOf;
    DataOfAppend(first, read);
    DataOfAppend(first + read, last);
    assert response[..lo] + response[lo..hi] == response[..hi];
    assert response[..hi] + response[hi..] == response;
    assert script[..lo + 1] == first + read;
    forall n | 0 <= n <= lo ensures DataOf(script[..n]) == response[..n] {
      assert script[..n] == Singles(response[..n]);
      SinglesCut(response[..n]);
    }
  }

  /** Every stopping place within reach is met by some script. */
  lemma ReachedBy(response: Bytes, q: int, k: nat, isFrame: Bytes -> bool, react: nat -> Reaction)
    returns (script: seq<Recv>)
    requires Ending(response, q, isFrame, react) && q <= k <= Reach(response, q)
    ensures Cuts(script, response)
    ensures Delivered(script, isFrame, react) == Delivery(ResponseFrames(response[..k], isFrame), react, 0)
  {
    hide Quiet, DataOf, ResponseFrames, Delivery;
    script := OneRead(response, q - 1, k);
    OneReadCuts(response, q - 1, k);
    forall n | 0 <= n < q ensures GoesOn(script, n, isFrame, react) {
      assert DataOf(script[..n]) == response[..n];
      GoesOnIff(script, n, response, isFrame, react);
      QuietIff(response, q, n, isFrame, react);
    }
    GoesOnIff(script, q, response, isFrame, react);
    QuietIff(response, q, k, isFrame, react);
    EndUnique(script, q, isFrame, react);
  }

  // ---------- the exact condition ----------

  lemma FrameSplit(response: Bytes, j: nat, k: nat, isFrame: Bytes -> bool) returns (added: seq<Bytes>)
    requires j <= k <= |response|
    ensures ResponseFrames(response[..k], isFrame) == ResponseFrames(response[..j], isFrame) + added
    ensures |added| == CountOf(response, k, isFrame) - CountOf(response, j, isFrame)
  {
    hide ResponseFrames;
    assert response[..k] == response[..j] + response[j..k];
    added := FramesExtend(response[..j], response[j..k], isFrame);
  }

  /** What is delivered when the read with the ending byte reaches to k. */
  lemma DeliveredAt(response: Bytes, q: int, k: nat, isFrame: Bytes -> bool, react: nat -> Reaction)
    requires Ending(response, q, isFrame, react) && q <= k <= |response|
    ensures var at, atQ := Delivery(ResponseFrames(response[..k], isFrame), react, 0),
                           Delivery(ResponseFrames(response[..q], isFrame), react, 0);
            at == atQ <==> !Closing(response, q, isFrame, react)
                           || CountOf(response, k, isFrame) == CountOf(response, q, isFrame)
  {
    hide ResponseFrames, Delivery, Survives;
    EndingFrame(response, q, isFrame, react);
    var frames := ResponseFrames(response[..q], isFrame);
    SurvivesAll(frames, react, 0);
    var m := |frames| - 1;
    assert Survives(frames, react, 0) <==> !react(m).Destroy? by {
      assert forall i :: 0 <= i < m ==> react(i).Continue?;
    }
    var added := FrameSplit(response, q, k, isFrame);
    DeliveryAppend(frames, added, react, 0);
    DeliveryNonEmpty(added, react, |frames|);
    assert frames + [] == frames;
    assert CountOf(response, k, isFrame) == CountOf(response, q, isFrame) <==> added == [];
  }

  lemma DeliveryNonEmpty(frames: seq<Bytes>, react: nat -> Reaction, n: nat)
    ensures Delivery(frames, react, n) == [] <==> frames == []
  {
  }

  /**
   * The cuts of a response cannot be seen in what is delivered exactly when no further frame comes
   * within reach of a read that completes the first frame whose callback closes without destroying.
   */
  lemma CutIndependentIff(response: Bytes, isFrame: Bytes -> bool, react: nat -> Reaction)
    ensures CutIndependent(response, isFrame, react) <==>
            forall q :: Closing(response, q, isFrame, react) ==>
              CountOf(response, Reach(response, q), isFrame) == CountOf(response, q, isFrame)
  {
    hide Quiet, ResponseFrames, Delivery, Delivered, Cuts, CountOf;
    if q :| Closing(response, q, isFrame, react) &&
            CountOf(response, Reach(response, q), isFrame) != CountOf(response, q, isFrame) {
      var a := ReachedBy(response, q, q, isFrame, react);
      var b := ReachedBy(response, q, Reach(response, q), isFrame, react);
      DeliveredAt(response, q, Reach(response, q), isFrame, react);
      assert Cuts(a, response) && Cuts(b, response);
    } else {
      forall a, b | Cuts(a, response)
         && Cuts(b, response) ensures Delivered(a, isFrame, react) == Delivered(b, isFrame, react) {
        var j := StopsInReach(a, response, isFrame, react);
        var k := StopsInReach(b, response, isFrame, react);
        if !Quiet(response, isFrame, react) {
          assert response[..|response|] == response;
          EndingExists(response, |response|, isFrame, react);
          var q :| Ending(response, q, isFrame, react);
          SameAt(response, q, j, isFrame, react);
          SameAt(response, q, k, isFrame, react);
        }
      }
    }
  }

  lemma SameAt(response: Bytes, q: int, k: nat, isFrame: Bytes -> bool, react: nat -> Reaction)
    requires Ending(response, q, isFrame, react) && q <= k <= Reach(response, q)
    requires Closing(response, q, isFrame, react) ==>
               CountOf(response, Reach(response, q), isFrame) == CountOf(response, q, isFrame)
    ensures Delivery(ResponseFrames(response[..k], isFrame), react, 0) ==
            Delivery(ResponseFrames(response[..q], isFrame), react, 0)
  {
    hide CountOf, Delivery, ResponseFrames;
    DeliveredAt(response, q, k, isFrame, react);
    CountGrows(response, q, k, isFrame);
    CountGrows(response, k, Reach(response, q), isFrame);
  }

  /** In particular, while no callback closes without destroying, the cuts never show. */
  lemma QuietCuts(response: Bytes, isFrame: Bytes -> bool, react: nat -> Reaction)
    requires forall i :: 0 <= i < FrameCount(response, isFrame) ==> !react(i).CloseSocket?
    ensures CutIndependent(response, isFrame, react)
  {
    hide CutIndependent, FrameCount;
    CutIndependentIff(response, isFrame, react);
    forall q | Closing(response, q, isFrame, react) ensures false {
      assert response[..|response|] == response;
      CountGrows(response, q, |response|, isFrame);
      EndingFrame(response, q, isFrame, react);
    }
  }

  // ---------- a response of two frames, and callbacks that close ----------

  lemma PrefixFrames(headers: Bytes, chunks: seq<Chunk>, end: End, j: nat, isFrame: Bytes -> bool)
    requires Headers(headers) && ValidChunks(chunks) && end.Valid() && j <= |Encode(chunks, end)|
    ensures ResponseFrames(headers + Encode(chunks, end)[..j], isFrame) ==
            FramesOf(LinesOf(BodyBefore(chunks, j)), isFrame)
  {
    var wire := Encode(chunks, end)[..j];
    AfterHeadersAt(headers, |headers| - 1);
    HeadersStable(headers, wire);
    assert AfterHeaders(headers + wire) == wire;
    ChunkLayerInverts(INITIAL, chunks, end, j);
  }

  const BLANK_LINE: Bytes := [CR, LF, CR, LF]
  const TWO_LINES: Bytes := [97, LF, 98, LF]
  const TWO_FRAMES := Chunk([], [52], [], CRLF, TWO_LINES, CRLF)

  /** No header fields, one chunk with two lines, and a closing chunk followed by the given bytes. */
  function Sample(tail: Bytes): (response: Bytes)
    ensures |response| == 16 + |tail|
  {
    var end := ChunkedCoding.End([], [48], [], CRLF, tail);
    assert |TWO_FRAMES.Header()| == 3 && |Encode([], end)| == 3 + |tail|;
    assert [TWO_FRAMES][1..] == [];
    BLANK_LINE + Encode([TWO_FRAMES], end)
  }

  lemma SampleValid(tail: Bytes)
    ensures TWO_FRAMES.Valid() && ChunkedCoding.End([], [48], [], CRLF, tail).Valid() && Headers(BLANK_LINE)
  {
    assert Spells([52], 4) && Spells([48], 0) by {
      assert [52][..0] == [] && [48][..0] == [];
    }
  }

  lemma LinesCounted()
    ensures LinesOf([97]) == [] && LinesOf([97, LF]) == [[97]] && LinesOf(TWO_LINES) == [[97], [98]]
  {
    SplitUnique([], [97]);
    SplitUnique([[97]], []);
    assert Join([[97]], []) == [97, LF] by { assert [[97]][1..] == []; }
    SplitUnique([[97], [98]], []);
    assert Join([[97], [98]], []) == TWO_LINES by {
      assert [[97], [98]][1..] == [[98]] && [[98]][1..] == [];
    }
  }

  /** How many frames the sample holds up to the first line, with it, and as a whole. */
  lemma SampleCounts(tail: Bytes, isFrame: Bytes -> bool)
    requires forall line :: isFrame(line)
    ensures FrameCount(Sample(tail)[..8], isFrame) == 0 && FrameCount(Sample(tail)[..9], isFrame) == 1
    ensures FrameCount(Sample(tail), isFrame) == 2
  {
    var chunks, end, w := [TWO_FRAMES], ChunkedCoding.End([], [48], [], CRLF, tail), Sample(tail);
    SampleValid(tail);
    var wire := Encode(chunks, end);
    LinesCounted();
    assert w[..8] == BLANK_LINE + wire[..4] && w[..9] == BLANK_LINE + wire[..5];
    assert w == BLANK_LINE + wire[..|wire|] by { assert wire[..|wire|] == wire; }
    PrefixFrames(BLANK_LINE, chunks, end, 4, isFrame);
    PrefixFrames(BLANK_LINE, chunks, end, 5, isFrame);
    PrefixFrames(BLANK_LINE, chunks, end, |wire|, isFrame);
    BodyBeforeAll(chunks, end, |wire|);
    SampleBodies();
    hide BodyBefore, BodyOf, Encode, LinesOf, ResponseFrames;
    FramesAreNonEmptyLines(LinesOf([97]), isFrame);
    FramesAreNonEmptyLines(LinesOf([97, LF]), isFrame);
    FramesAreNonEmptyLines(LinesOf(TWO_LINES), isFrame);
    AllNonEmpty();
    CountIs(w[..8], isFrame);
    CountIs(w[..9], isFrame);
    CountIs(w, isFrame);
  }

  lemma CountIs(w: Bytes, isFrame: Bytes -> bool)
    ensures FrameCount(w, isFrame) == |ResponseFrames(w, isFrame)|
  {
  }

  lemma AllNonEmpty()
    ensures NonEmpty([]) == [] && NonEmpty([[97]]) == [[97]] && NonEmpty([[97], [98]]) == [[97], [98]]
  {
    assert [[97]][1..] == [] && [[97], [98]][1..] == [[98]] && [[98]][1..] == [];
  }

  lemma SampleBodies()
    ensures BodyBefore([TWO_FRAMES], 4) == [97] && BodyBefore([TWO_FRAMES], 5) == [97, LF]
    ensures BodyOf([TWO_FRAMES]) == TWO_LINES
  {
    assert |TWO_FRAMES.Header()| == 3;
    assert TWO_LINES[..1] == [97] && TWO_LINES[..2] == [97, LF];
    assert [TWO_FRAMES][1..] == [];
  }

  /** Two lines that carry both an object and an error: Unreal reports both objects, Rust none. */
  lemma SinksDiffer(kind: Bytes -> Kind)
    requires forall line :: kind(line) == Object(true, true)
    ensures |ResponseFrames(Sample([]), UnrealKeeps(kind))| == 2
    ensures FramesOf(NonEmpty(LinesOf(Flatten([TWO_LINES]))), RustKeeps(kind)) == []
  {
    SampleCounts([], UnrealKeeps(kind));
    CountIs(Sample([]), UnrealKeeps(kind));
    assert Flatten([TWO_LINES]) == TWO_LINES by { assert [TWO_LINES][1..] == []; }
    hide Sample, ResponseFrames, LinesOf, FramesOf, NonEmpty;
    LinesCounted();
    AllNonEmpty();
    NoneKept([97], [98], RustKeeps(kind));
  }

  lemma NoneKept(a: Bytes, b: Bytes, keeps: Bytes -> bool)
    requires !keeps(a) && !keeps(b)
    ensures FramesOf([a, b], keeps) == []
  {
    assert [a, b][1..] == [b] && [b][1..] == [];
    assert FramesOf([b], keeps) == Keep(b, keeps) + FramesOf([], keeps);
    assert FramesOf([a, b], keeps) == Keep(a, keeps) + FramesOf([b], keeps);
  }

  /** Two frames in one read are both delivered to a subscriber that closes; read apart, only the first is. */
  lemma CutsShow(isFrame: Bytes -> bool, react: nat -> Reaction)
    requires (forall line :: isFrame(line)) && forall n :: react(n).CloseSocket?
    ensures !CutIndependent(Sample([]), isFrame, react)
  {
    hide FrameCount, Sample;
    var w := Sample([]);
    SampleCounts([], isFrame);
    assert w[..|w|] == w;
    assert |w| == 16 && Reach(w, 9) == |w|;
    assert react(0).CloseSocket? && CountOf(w, 8, isFrame) == 0 && CountOf(w, 9, isFrame) == 1;
    assert Quiet(w[..8], isFrame, react) && !Quiet(w[..9], isFrame, react);
    assert Closing(w, 9, isFrame, react);
    CutIndependentIff(w, isFrame, react);
  }

  /** A read that fills the buffer and holds a frame whose callback closes: the next Recv meets the null socket. */
  method MeetNullSocket() returns (nullSocket: bool, delivered: nat)
    ensures nullSocket && delivered == 2
  {
    hide FrameCount, Sample, ResponseFrames, Delivery, Survives, ReadOn;
    var isFrame: Bytes -> bool, react: nat -> Reaction := _ => true, _ => CloseSocket;
    var response := Sample(seq(4080, _ => 0));
    var connection := new Connection(isFrame, react);
    var script := [Data(response)];
    SampleCounts(seq(4080, _ => 0), isFrame);
    QuietStart(isFrame, react);
    OneSlice(response, isFrame);
    ReadOnStart(script, []);
    assert react(0).CloseSocket?;
    assert NullSocketAt(script, 0, [], isFrame, react);
    var used;
    used, nullSocket := connection.DrainReadable(script);
    assert script[..1] == script;
    connection.AliveIff();
    delivered := |connection.delivered|;
  }

  lemma OneSlice(response: Bytes, isFrame: Bytes -> bool)
    ensures var script := [Data(response)];
            && DataOf(script) == response
            && CountAt(script, 0, [], isFrame) == FrameCount([], isFrame)
            && CountAt(script, 1, [], isFrame) == FrameCount(response, isFrame)
  {
    var script := [Data(response)];
    assert script[1..] == [] && script[..0] == [] && script[..1] == script;
    assert DataOf(script) == response + DataOf([]) == response;
    assert [] + response == response;
  }
}
