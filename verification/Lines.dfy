/** Newline framing of a byte stream: the reference both stream clients are measured against. */
module Lines {

  type Byte = b: int | 0 <= b < 256
  type Bytes = seq<Byte>

  const LF: Byte := 10
  const CR: Byte := 13

  predicate LfFree(s: Bytes) {
    forall i :: 0 <= i < |s| ==> s[i] != LF
  }

  /** The position of the first LF, or the length when there is none. */
  function FirstLf(s: Bytes): (p: nat)
    ensures p <= |s| && LfFree(s[..p])
    ensures p < |s| ==> s[p] == LF
  {
    if s == [] || s[0] == LF then 0 else
      var p := 1 + FirstLf(s[1..]);
      assert s[..p] == [s[0]] + s[1..][..p - 1];
      p
  }

  /** The LF-terminated pieces of the stream, terminators removed. */
  function RawLines(s: Bytes): seq<Bytes>
    decreases |s|
  {
    var p := FirstLf(s);
    if p == |s| then [] else [s[..p]] + RawLines(s[p + 1..])
  }

  /** What follows the last LF. */
  function Rest(s: Bytes): Bytes
    decreases |s|
  {
    var p := FirstLf(s);
    if p == |s| then s else Rest(s[p + 1..])
  }

  function StripCr(line: Bytes): Bytes {
    if line != [] && line[|line| - 1] == CR then line[..|line| - 1] else line
  }

  function StripAll(raw: seq<Bytes>): (r: seq<Bytes>)
    ensures |r| == |raw|
  {
    seq(|raw|, i requires 0 <= i < |raw| => StripCr(raw[i]))
  }

  /** The lines a client is meant to see. */
  function LinesOf(s: Bytes): seq<Bytes> {
    StripAll(RawLines(s))
  }

  function NonEmpty(lines: seq<Bytes>): seq<Bytes> {
    if lines == [] then []
    else (if lines[0] == [] then [] else [lines[0]]) + NonEmpty(lines[1..])
  }

  function Flatten(parts: seq<Bytes>): Bytes {
    if parts == [] then [] else parts[0] + Flatten(parts[1..])
  }

  /** Puts terminators back: the inverse of splitting. */
  function Join(raw: seq<Bytes>, rest: Bytes): Bytes {
    if raw == [] then rest else raw[0] + [LF] + Join(raw[1..], rest)
  }

  lemma {:induction false} FirstLfUnique(s: Bytes, p: nat)
    requires p <= |s| && LfFree(s[..p])
    requires p < |s| ==> s[p] == LF
    ensures FirstLf(s) == p
  {
  }

  lemma SplitHead(s: Bytes)
    requires FirstLf(s) < |s|
    ensures var p := FirstLf(s);
            && RawLines(s) == [s[..p]] + RawLines(s[p + 1..]) && Rest(s) == Rest(s[p + 1..])
            && s == s[..p] + [LF] + s[p + 1..]
  {
    hide FirstLf, LfFree;
    CutAt(s, FirstLf(s));
  }

  lemma CutAt(s: Bytes, p: nat)
    requires p < |s| && s[p] == LF
    ensures s == s[..p] + [LF] + s[p + 1..]
  {
  }

  lemma SplitLast(s: Bytes)
    requires FirstLf(s) == |s|
    ensures RawLines(s) == [] && Rest(s) == s && LfFree(s)
  {
    assert s[..|s|] == s;
  }

  lemma JoinCons(line: Bytes, raw: seq<Bytes>, rest: Bytes)
    ensures Join([line] + raw, rest) == line + [LF] + Join(raw, rest)
  {
  }

  /** Splitting loses nothing, and every piece and the remainder are LF-free. */
  lemma {:induction false} SplitJoin(s: Bytes)
    ensures Join(RawLines(s), Rest(s)) == s
    ensures LfFree(Rest(s)) && forall i :: 0 <= i < |RawLines(s)| ==> LfFree(RawLines(s)[i])
    decreases |s|
  {
    hide RawLines, Rest, FirstLf;
    var p := FirstLf(s);
    if p == |s| {
      SplitLast(s);
    } else {
      SplitHead(s);
      SplitJoin(s[p + 1..]);
      JoinCons(s[..p], RawLines(s[p + 1..]), Rest(s[p + 1..]));
    }
  }

  /** There is only one way to cut a stream into LF-free pieces and an LF-free remainder. */
  lemma {:induction false} SplitUnique(raw: seq<Bytes>, rest: Bytes)
    requires LfFree(rest) && forall i :: 0 <= i < |raw| ==> LfFree(raw[i])
    ensures RawLines(Join(raw, rest)) == raw && Rest(Join(raw, rest)) == rest
    decreases |raw|
  {
    var s := Join(raw, rest);
    if raw == [] {
      assert s[..|s|] == s;
      FirstLfUnique(s, |s|);
    } else {
      SplitUnique(raw[1..], rest);
      var p := |raw[0]|;
      assert s[..p] == raw[0] && s[p] == LF && s[p + 1..] == Join(raw[1..], rest);
      FirstLfUnique(s, p);
    }
  }

  lemma {:induction false} JoinAppend(raw: seq<Bytes>, rest: Bytes, more: Bytes)
    ensures Join(raw, rest) + more == Join(raw, rest + more)
  {
    if raw != [] {
      JoinAppend(raw[1..], rest, more);
      assert Join(raw, rest) + more == raw[0] + [LF] + (Join(raw[1..], rest) + more);
    }
  }

  lemma {:induction false} JoinConcat(a: seq<Bytes>, b: seq<Bytes>, rest: Bytes)
    ensures Join(a, Join(b, rest)) == Join(a + b, rest)
  {
    if a == [] {
      assert a + b == b;
    } else {
      JoinConcat(a[1..], b, rest);
      assert (a + b)[0] == a[0] && (a + b)[1..] == a[1..] + b;
    }
  }

  /** Framing is incremental: only the remainder of the first part matters for the second. */
  lemma SplitAppend(a: Bytes, b: Bytes)
    ensures RawLines(a + b) == RawLines(a) + RawLines(Rest(a) + b)
    ensures Rest(a + b) == Rest(Rest(a) + b)
  {
    var c := Rest(a) + b;
    SplitJoin(a);
    SplitJoin(c);
    JoinAppend(RawLines(a), Rest(a), b);
    JoinConcat(RawLines(a), RawLines(c), Rest(c));
    SplitUnique(RawLines(a) + RawLines(c), Rest(c));
  }

  /** One trailing CR is dropped, and nothing else. */
  lemma StripCrMeaning(line: Bytes)
    ensures StripCr(line + [CR]) == line
    ensures line == [] || line[|line| - 1] != CR ==> StripCr(line) == line
  {
  }

  /** The text of a line with its terminator, CR LF or LF alone. */
  function Terminated(line: Bytes, cr: bool): Bytes {
    line + if cr then [CR] else []
  }

  function Written(lines: seq<Bytes>, crs: seq<bool>): (raw: seq<Bytes>)
    requires |lines| == |crs|
    ensures |raw| == |lines|
  {
    seq(|lines|, i requires 0 <= i < |lines| => Terminated(lines[i], crs[i]))
  }

  /** Lines written with any mixture of CR LF and LF are read back as they were. */
  lemma LinesRead(lines: seq<Bytes>, crs: seq<bool>, rest: Bytes)
    requires |lines| == |crs| && LfFree(rest)
    requires forall i :: 0 <= i < |lines| ==> LfFree(lines[i])
    requires forall i :: 0 <= i < |lines| && !crs[i] ==> lines[i] == [] || lines[i][|lines[i]| - 1] != CR
    ensures LinesOf(Join(Written(lines, crs), rest)) == lines && Rest(Join(Written(lines, crs), rest)) == rest
  {
    var raw := Written(lines, crs);
    forall i | 0 <= i < |lines| ensures LfFree(raw[i]) && StripCr(raw[i]) == lines[i] {
      StripCrMeaning(lines[i]);
      assert raw[i] == Terminated(lines[i], crs[i]);
      assert lines[i] + [] == lines[i];
    }
    SplitUnique(raw, rest);
    hide RawLines, Rest, Join;
    assert StripAll(raw) == lines;
  }

  lemma LinesAppend(a: Bytes, b: Bytes)
    ensures LinesOf(a + b) == LinesOf(a) + LinesOf(Rest(a) + b)
  {
    SplitAppend(a, b);
  }

  /** One more byte either completes a line or extends the remainder. */
  lemma SplitByte(s: Bytes, b: Byte)
    requires LfFree(s)
    ensures RawLines(s) == [] && Rest(s) == s
    ensures RawLines(s + [b]) == if b == LF then [s] else []
    ensures Rest(s + [b]) == if b == LF then [] else s + [b]
  {
    SplitUnique([], s);
    if b == LF {
      assert s + [b] == Join([s], []);
      SplitUnique([s], []);
    } else {
      SplitUnique([], s + [b]);
    }
  }

  lemma {:induction false} NonEmptyAppend(a: seq<Bytes>, b: seq<Bytes>)
    ensures NonEmpty(a + b) == NonEmpty(a) + NonEmpty(b)
  {
    if a == [] {
      assert a + b == b;
    } else {
      var c := a + b;
      var head := if a[0] == [] then [] else [a[0]];
      assert c[0] == a[0] && c[1..] == a[1..] + b;
      assert NonEmpty(a) == head + NonEmpty(a[1..]) && NonEmpty(c) == head + NonEmpty(c[1..]);
      hide NonEmpty;
      NonEmptyAppend(a[1..], b);
      Assoc(head, NonEmpty(a[1..]), NonEmpty(b));
    }
  }

  lemma {:induction false} FlattenAppend(a: seq<Bytes>, b: seq<Bytes>)
    ensures Flatten(a + b) == Flatten(a) + Flatten(b)
  {
    if a == [] {
      assert a + b == b;
    } else {
      FlattenHead(a);
      FlattenHead(a + b);
      hide Flatten;
      assert (a + b)[0] == a[0] && (a + b)[1..] == a[1..] + b;
      FlattenAppend(a[1..], b);
      Assoc(a[0], Flatten(a[1..]), Flatten(b));
    }
  }

  lemma FlattenHead(parts: seq<Bytes>)
    requires parts != []
    ensures Flatten(parts) == parts[0] + Flatten(parts[1..])
  {
  }

  lemma Assoc<T>(a: seq<T>, b: seq<T>, c: seq<T>)
    ensures a + (b + c) == a + b + c
  {
  }

  lemma FlattenSnoc(parts: seq<Bytes>, i: nat)
    requires i < |parts|
    ensures Flatten(parts[..i + 1]) == Flatten(parts[..i]) + parts[i]
  {
    assert parts[..i + 1] == parts[..i] + [parts[i]];
    FlattenAppend(parts[..i], [parts[i]]);
    assert Flatten([parts[i]]) == parts[i];
  }
}
