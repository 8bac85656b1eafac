/** The Rust watch stream, which frames bytes that are already de-chunked, and its agreement with Unreal. */
module RustFraming {
  import opened Lines
  import opened ChunkedNdjson
  import opened ChunkedCoding
  import opened WatchConnection

  /**
   * The draining-buffer loop over the network chunks of one stream. Each non-empty line is handed
   * over once, in order, and only an LF-free remainder stays in the buffer.
   */
  method WatchStream(chunks: seq<Bytes>) returns (handled: seq<Bytes>, buffer: Bytes)
    ensures handled == NonEmpty(LinesOf(Flatten(chunks)))
    ensures buffer == Rest(Flatten(chunks)) && LfFree(buffer)
  {
    buffer, handled := [], [];
    assert chunks[..0] == [];
    SplitUnique([], []);
    for i := 0 to |chunks|
      invariant handled == NonEmpty(LinesOf(Flatten(chunks[..i])))
      invariant buffer == Rest(Flatten(chunks[..i])) && LfFree(buffer)
    {
      FlattenSnoc(chunks, i);
      ghost var whole := Flatten(chunks[..i]);
      LinesAppend(whole, chunks[i]);
      SplitAppend(whole, chunks[i]);
      NonEmptyAppend(LinesOf(whole), LinesOf(buffer + chunks[i]));
      var more;
      more, buffer := DrainLines(buffer + chunks[i]);
      handled := handled + more;
    }
    assert chunks[..|chunks|] == chunks;
  }

  /** The inner loop: cut at the first LF until none is left. */
  method DrainLines(start: Bytes) returns (handled: seq<Bytes>, buffer: Bytes)
    ensures handled == NonEmpty(LinesOf(start))
    ensures buffer == Rest(start) && LfFree(buffer)
  {
    hide NonEmpty, StripAll, RawLines, Rest;
    buffer, handled := start, [];
    while true
      invariant handled + NonEmpty(LinesOf(buffer)) == NonEmpty(LinesOf(start))
      invariant Rest(buffer) == Rest(start)
      decreases |buffer|
    {
      var pos := FirstLf(buffer);
      if pos == |buffer| {
        SplitLast(buffer);
        NoLines();
        return;
      }
      LinesHead(buffer);
      var line := buffer[..pos];
      buffer := buffer[pos + 1..];
      if line != [] && line[|line| - 1] == CR {
        line := line[..|line| - 1];
      }
      if line == [] { continue; }
      handled := handled + [line];
    }
  }

  lemma StripAllCons(line: Bytes, tail: seq<Bytes>)
    ensures NonEmpty(StripAll([line] + tail)) ==
            (if StripCr(line) == [] then [] else [StripCr(line)]) + NonEmpty(StripAll(tail))
  {
    var all := StripAll([line] + tail);
    assert all[0] == StripCr(line);
    assert all[1..] == StripAll(tail);
  }

  lemma NoLines()
    ensures NonEmpty(StripAll([])) == []
  {
  }

  lemma LinesHead(s: Bytes)
    requires FirstLf(s) < |s|
    ensures var p := FirstLf(s);
            var line := StripCr(s[..p]);
            && NonEmpty(LinesOf(s)) == (if line == [] then [] else [line]) + NonEmpty(LinesOf(s[p + 1..]))
            && Rest(s) == Rest(s[p + 1..])
  {
    SplitHead(s);
    StripAllCons(s[..FirstLf(s)], RawLines(s[FirstLf(s) + 1..]));
  }

  /** The lines the Unreal connection looks at are the lines the Rust client is handed. */
  lemma {:induction false} FramesAreNonEmptyLines(lines: seq<Bytes>, isFrame: Bytes -> bool)
    ensures FramesOf(lines, isFrame) == FramesOf(NonEmpty(lines), isFrame)
    ensures (forall l :: isFrame(l)) ==> FramesOf(lines, isFrame) == NonEmpty(lines)
  {
    if lines != [] {
      FramesAreNonEmptyLines(lines[1..], isFrame);
      var n := NonEmpty(lines);
      if lines[0] != [] {
        assert n[0] == lines[0] && n[1..] == NonEmpty(lines[1..]);
      } else {
        assert n == NonEmpty(lines[1..]);
      }
    }
  }

  predicate Headers(h: Bytes) {
    |h| >= 4 && TerminatorAt(h, |h| - 1) && forall j :: 0 <= j < |h| - 1 ==> !TerminatorAt(h, j)
  }

  /**
   * Both clients see the same frames: the Unreal pipeline from any chunk encoding of a body behind
   * any response headers, and the Rust loop from any network split of that body.
   */
  lemma ClientsAgree(headers: Bytes, chunks: seq<Chunk>, end: End, split: seq<Bytes>, isFrame: Bytes -> bool)
    requires Headers(headers) && ValidChunks(chunks) && end.Valid()
    requires Flatten(split) == BodyOf(chunks)
    ensures ResponseFrames(headers + Encode(chunks, end), isFrame) ==
            FramesOf(NonEmpty(LinesOf(Flatten(split))), isFrame)
  {
    var wire := Encode(chunks, end);
    AfterHeadersAt(headers, |headers| - 1);
    HeadersStable(headers, wire);
    assert AfterHeaders(headers + wire) == wire;
    CompleteEncoding(chunks, end);
    FramesAreNonEmptyLines(LinesOf(BodyOf(chunks)), isFrame);
  }

  // ---------- which lines are reported ----------

  /** What a JSON library makes of a line: nothing, or whether it has a server object and an error. */
  datatype Kind = Malformed | Object(result: bool, error: bool)

  /** Unreal looks for the object first. */
  function UnrealKeeps(kind: Bytes -> Kind): Bytes -> bool {
    line => kind(line).Object? && kind(line).result
  }

  /** Rust looks for the error first. */
  function RustKeeps(kind: Bytes -> Kind): Bytes -> bool {
    line => kind(line).Object? && !kind(line).error && kind(line).result
  }

  predicate Alike(lines: seq<Bytes>, one: Bytes -> bool, other: Bytes -> bool) {
    forall line :: line in lines && line != [] ==> one(line) == other(line)
  }

  lemma {:induction false} KeptOnly(lines: seq<Bytes>, keeps: Bytes -> bool)
    ensures forall line :: line in FramesOf(lines, keeps) <==> line in lines && line != [] && keeps(line)
  {
    if lines != [] {
      KeptOnly(lines[1..], keeps);
      assert lines == [lines[0]] + lines[1..];
    }
  }

  lemma {:induction false} KeptAlike(lines: seq<Bytes>, one: Bytes -> bool, other: Bytes -> bool)
    requires Alike(lines, one, other)
    ensures FramesOf(lines, one) == FramesOf(lines, other)
  {
    if lines != [] {
      assert lines[0] in lines && forall line :: line in lines[1..] ==> line in lines;
      KeptAlike(lines[1..], one, other);
    }
  }

  /** Two clients keep the same frames exactly when they judge every non-empty line alike. */
  lemma KeptAlikeIff(lines: seq<Bytes>, one: Bytes -> bool, other: Bytes -> bool)
    ensures FramesOf(lines, one) == FramesOf(lines, other) <==> Alike(lines, one, other)
  {
    KeptOnly(lines, one);
    KeptOnly(lines, other);
    if Alike(lines, one, other) {
      KeptAlike(lines, one, other);
    } else {
      var line :| line in lines && line != [] && one(line) != other(line);
      assert line in FramesOf(lines, one) <==> line !in FramesOf(lines, other);
    }
  }

  predicate Unambiguous(lines: seq<Bytes>, kind: Bytes -> Kind) {
    forall line :: line in lines && line != [] && kind(line).Object? ==> !(kind(line).result && kind(line).error)
  }

  /**
   * The two clients, each with its own JSON library, report the same objects exactly when they judge
   * every non-empty line of the body alike; with equal libraries, exactly when no line has both.
   */
  lemma SinksAgreeIff(headers: Bytes, chunks: seq<Chunk>, end: End, split: seq<Bytes>,
                      unreal: Bytes -> Kind, rust: Bytes -> Kind)
    requires Headers(headers) && ValidChunks(chunks) && end.Valid()
    requires Flatten(split) == BodyOf(chunks)
    ensures var lines := LinesOf(BodyOf(chunks));
            var same := ResponseFrames(headers + Encode(chunks, end), UnrealKeeps(unreal)) ==
                        FramesOf(NonEmpty(LinesOf(Flatten(split))), RustKeeps(rust));
            && (same <==> Alike(lines, UnrealKeeps(unreal), RustKeeps(rust)))
            && (unreal == rust ==> (same <==> Unambiguous(lines, unreal)))
  {
    ClientsAgree(headers, chunks, end, split, UnrealKeeps(unreal));
    var lines := LinesOf(BodyOf(chunks));
    FramesAreNonEmptyLines(lines, UnrealKeeps(unreal));
    FramesAreNonEmptyLines(lines, RustKeeps(rust));
    KeptAlikeIff(lines, UnrealKeeps(unreal), RustKeeps(rust));
    hide FramesOf, LinesOf, ResponseFrames, NonEmpty, Encode, BodyOf;
    if unreal == rust { UnambiguousAlike(lines, unreal); }
  }

  lemma UnambiguousAlike(lines: seq<Bytes>, kind: Bytes -> Kind)
    ensures Unambiguous(lines, kind) <==> Alike(lines, UnrealKeeps(kind), RustKeeps(kind))
  {
  }

  /** The same as two running clients: whatever the slices and splits, equal deliveries. */
  method RunBoth(script: seq<Recv>, split: seq<Bytes>, isFrame: Bytes -> bool,
                 ghost headers: Bytes, ghost chunks: seq<Chunk>, ghost end: End)
    returns (unreal: seq<Bytes>, rust: seq<Bytes>)
    requires forall i :: 0 <= i < |script| ==> RealRecv(script[i]) && !script[i].Failed?
    requires Headers(headers) && ValidChunks(chunks) && end.Valid()
    requires DataOf(script) == headers + Encode(chunks, end) && Flatten(split) == BodyOf(chunks)
    ensures unreal == FramesOf(rust, isFrame)
  {
    hide Delivery, Survives, FramesOf, LinesOf, Rest, NonEmpty, Encode, BodyOf, ResponseFrames;
    var react: nat -> Reaction := _ => Continue;
    var used, closedCalls;
    unreal, used, closedCalls := DeliverAll(script, isFrame, react);
    EndUnique(script, |script|, isFrame, react);
    assert script[..|script|] == script;
    var buffer;
    rust, buffer := WatchStream(split);
    ClientsAgree(headers, chunks, end, split, isFrame);
    var frames := ResponseFrames(DataOf(script), isFrame);
    SurvivesAll(frames, react, 0);
    DeliveryAppend(frames, [], react, 0);
  }
}
