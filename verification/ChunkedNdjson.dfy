/** The resumable decoder of a chunked body that carries newline-delimited JSON. */
module ChunkedNdjson {
  import opened Int32
  import opened Lines

  // ---------- chunk-size lines ----------

  const SPACE: Byte := 32

  predicate IsHex(c: Byte) {
    48 <= c <= 57 || 97 <= c <= 102 || 65 <= c <= 70
  }

  function Digit(c: Byte): (d: nat)
    requires IsHex(c)
    ensures d < 16
  {
    if c <= 57 then c - 48 else if c >= 97 then c - 87 else c - 55
  }

  /** Truncating at every digit is the same as truncating once. */
  lemma WrapDigit(v: int, d: nat)
    ensures Wrap32(Wrap32(Wrap32(v) * 16) + d) == Wrap32(v * 16 + d)
  {
    var k := (v + 0x8000_0000) / 0x1_0000_0000;
    assert Wrap32(v) == v - k * 0x1_0000_0000;
    var w := Wrap32(v) * 16;
    var j := (w + 0x8000_0000) / 0x1_0000_0000;
    assert Wrap32(w) == w - j * 0x1_0000_0000;
    WrapPeriodic(v * 16 + d, -16 * k - j);
  }

  predicate AllHex(s: Bytes) {
    forall i :: 0 <= i < |s| ==> IsHex(s[i])
  }

  /** The number a hexadecimal spelling denotes, without any width. */
  function HexValue(s: Bytes): nat
    requires AllHex(s)
  {
    if s == [] then 0 else HexValue(s[..|s| - 1]) * 16 + Digit(s[|s| - 1])
  }

  /** The leading hexadecimal digits of a text. */
  function HexRun(s: Bytes): (r: Bytes)
    ensures AllHex(r) && r <= s
    ensures |r| < |s| ==> !IsHex(s[|r|])
  {
    if s == [] || !IsHex(s[0]) then [] else [s[0]] + HexRun(s[1..])
  }

  /** -1 without a digit, else the truncated value of the leading digits. */
  method ParseHexSize(hex: Bytes) returns (size: int)
    ensures size == if HexRun(hex) == [] then -1 else Wrap32(HexValue(HexRun(hex)))
  {
    var value := 0;
    var any := false;
    var i := 0;
    while i < |hex| && IsHex(hex[i])
      invariant 0 <= i <= |hex| && AllHex(hex[..i])
      invariant any == (i > 0) && value == Wrap32(HexValue(hex[..i]))
    {
      assert hex[..i + 1][..i] == hex[..i];
      WrapDigit(HexValue(hex[..i]), Digit(hex[i]));
      value := Wrap32(Wrap32(value * 16) + Digit(hex[i]));
      any := true;
      i := i + 1;
    }
    HexRunUnique(hex, i);
    size := if any then value else -1;
  }

  lemma {:induction false} HexRunUnique(s: Bytes, n: nat)
    requires n <= |s| && AllHex(s[..n]) && (n < |s| ==> !IsHex(s[n]))
    ensures HexRun(s) == s[..n]
  {
  }

  predicate IsSpace(c: Byte) {
    c == SPACE || 9 <= c <= 13
  }

  function TrimStart(s: Bytes): Bytes {
    if s != [] && IsSpace(s[0]) then TrimStart(s[1..]) else s
  }

  function TrimEnd(s: Bytes): (r: Bytes)
    ensures r <= s
    ensures r != [] ==> !IsSpace(r[|r| - 1])
  {
    if s != [] && IsSpace(s[|s| - 1]) then TrimEnd(s[..|s| - 1]) else s
  }

  function SizeOf(sizeLine: Bytes): int {
    var run := HexRun(TrimEnd(TrimStart(sizeLine)));
    if run == [] then -1 else Wrap32(HexValue(run))
  }

  // ---------- chunk layer ----------

  datatype State = ChunkSize | ChunkData | ChunkCrlf | Done

  datatype Chunking = Chunking(state: State, sizeLine: Bytes, remaining: int, crlfSeen: int) {
    predicate Valid() {
      (state.ChunkData? ==> 0 < remaining < 0x8000_0000) && (state.ChunkCrlf? ==> 0 <= crlfSeen < 2)
    }
  }

  const INITIAL := Chunking(ChunkSize, [], 0, 0)

  /** One byte of wire; a byte met in ChunkData is a body byte. */
  function Next(c: Chunking, b: Byte): Chunking {
    match c.state
    case ChunkSize =>
      if b == LF then
        var size := SizeOf(c.sizeLine);
        if size <= 0 then c.(state := Done, sizeLine := [])
        else c.(state := ChunkData, sizeLine := [], remaining := size)
      else if b != CR then c.(sizeLine := c.sizeLine + [b])
      else c
    case ChunkData =>
      if c.remaining - 1 == 0 then c.(state := ChunkCrlf, remaining := 0, crlfSeen := 0)
      else c.(remaining := c.remaining - 1)
    case ChunkCrlf =>
      if c.crlfSeen + 1 >= 2 || b == LF then c.(state := ChunkSize, crlfSeen := c.crlfSeen + 1)
      else c.(crlfSeen := c.crlfSeen + 1)
    case Done => c
  }

  function Run(c: Chunking, wire: Bytes): Chunking
    decreases |wire|
  {
    if wire == [] then c else Run(Next(c, wire[0]), wire[1..])
  }

  /** The body bytes found in a piece of wire. */
  function Body(c: Chunking, wire: Bytes): Bytes
    decreases |wire|
  {
    if wire == [] then []
    else (if c.state.ChunkData? then [wire[0]] else []) + Body(Next(c, wire[0]), wire[1..])
  }

  lemma {:induction false} RunValid(c: Chunking, wire: Bytes)
    requires c.Valid()
    ensures Run(c, wire).Valid()
    decreases |wire|
  {
    if wire != [] { RunValid(Next(c, wire[0]), wire[1..]); }
  }

  /** Where the wire is cut does not matter to the chunk layer. */
  lemma {:induction false} RunAppend(c: Chunking, a: Bytes, b: Bytes)
    ensures Run(c, a + b) == Run(Run(c, a), b)
    ensures Body(c, a + b) == Body(c, a) + Body(Run(c, a), b)
    decreases |a|
  {
    if a == [] {
      assert a + b == b;
    } else {
      assert (a + b)[0] == a[0] && (a + b)[1..] == a[1..] + b;
      RunAppend(Next(c, a[0]), a[1..], b);
    }
  }

  lemma {:induction false} DoneAbsorbs(c: Chunking, wire: Bytes)
    requires c.state.Done?
    ensures Run(c, wire) == c && Body(c, wire) == []
    decreases |wire|
  {
    if wire != [] { DoneAbsorbs(c, wire[1..]); }
  }

  // ---------- the decoder object ----------

  class Decoder {
    var state: State
    var sizeLine: Bytes
    var remaining: int
    var crlfSeen: int
    var lineBuf: Bytes

    constructor ()
      ensures Chunks() == INITIAL && lineBuf == [] && Valid()
    {
      state, sizeLine, remaining, crlfSeen, lineBuf := ChunkSize, [], 0, 0, [];
    }

    ghost function Chunks(): Chunking
      reads this
    {
      Chunking(state, sizeLine, remaining, crlfSeen)
    }

    ghost predicate Valid()
      reads this
    {
      Chunks().Valid() && LfFree(lineBuf)
    }

    method EmitLine(nlIndex: nat) returns (line: Bytes)
      requires nlIndex < |lineBuf|
      modifies this`lineBuf
      ensures line == StripCr(old(lineBuf[..nlIndex]))
      ensures lineBuf == old(lineBuf[nlIndex + 1..])
    {
      if nlIndex > 0 {
        var byteLen := nlIndex;
        if lineBuf[byteLen - 1] == CR {
          byteLen := byteLen - 1;
        }
        line := lineBuf[..byteLen];
        assert byteLen < nlIndex ==> line == lineBuf[..nlIndex][..byteLen];
      } else {
        line := [];
      }
      lineBuf := lineBuf[nlIndex + 1..];
    }

    method PushBodyByte(b: Byte) returns (lines: seq<Bytes>)
      requires LfFree(lineBuf)
      modifies this`lineBuf
      ensures lines == LinesOf(old(lineBuf) + [b]) && lineBuf == Rest(old(lineBuf) + [b])
      ensures LfFree(lineBuf)
    {
      SplitByte(lineBuf, b);
      lineBuf := lineBuf + [b];
      lines := [];
      if b == LF {
        assert lineBuf[..|lineBuf| - 1] == old(lineBuf);
        var line := EmitLine(|lineBuf| - 1);
        lines := [line];
      }
    }

    /** What one byte does in the states that still read. */
    method FeedByte(b: Byte) returns (lines: seq<Bytes>)
      requires Valid() && !state.Done?
      modifies this
      ensures Valid() && Chunks() == Next(old(Chunks()), b)
      ensures lines == if old(state).ChunkData? then LinesOf(old(lineBuf) + [b]) else []
      ensures lineBuf == if old(state).ChunkData? then Rest(old(lineBuf) + [b]) else old(lineBuf)
    {
      hide LinesOf, Rest, HexRun, HexValue, Wrap32, TrimStart, TrimEnd;
      lines := [];
      match state {
        case ChunkSize =>
          if b == LF {
            var size := ParseHexSize(TrimEnd(TrimStart(sizeLine)));
            sizeLine := [];
            if size <= 0 {
              state := Done;
            } else {
              remaining := size;
              state := ChunkData;
            }
          } else if b != CR {
            sizeLine := sizeLine + [b];
          }
        case ChunkData =>
          lines := PushBodyByte(b);
          remaining := remaining - 1;
          if remaining == 0 {
            crlfSeen := 0;
            state := ChunkCrlf;
          }
        case ChunkCrlf =>
          crlfSeen := crlfSeen + 1;
          if crlfSeen >= 2 || b == LF {
            state := ChunkSize;
          }
      }
    }

    /** Appends the lines completed by these bytes; keeps everything else for the next call. */
    method Feed(data: Bytes) returns (lines: seq<Bytes>)
      requires Valid()
      modifies this
      ensures Valid()
      ensures Chunks() == Run(old(Chunks()), data)
      ensures lines == LinesOf(old(lineBuf) + Body(old(Chunks()), data))
      ensures lineBuf == Rest(old(lineBuf) + Body(old(Chunks()), data))
    {
      lines := [];
      SplitUnique([], lineBuf);
      assert data[..0] == [] && lineBuf + [] == lineBuf;
      for i := 0 to |data|
        invariant Valid()
        invariant Chunks() == Run(old(Chunks()), data[..i])
        invariant lines == LinesOf(old(lineBuf) + Body(old(Chunks()), data[..i]))
        invariant lineBuf == Rest(old(lineBuf) + Body(old(Chunks()), data[..i]))
      {
        hide Run, Body, LinesOf, Rest, Next, LfFree;
        if state.Done? {
          FeedEnd(old(Chunks()), data, i);
          return;
        }
        FeedStep(old(Chunks()), old(lineBuf), data, i);
        var more := FeedByte(data[i]);
        lines := lines + more;
      }
      assert data[..|data|] == data;
    }
  }

  /** What the i-th byte adds to the chunk state, the body and the lines. */
  lemma FeedStep(c: Chunking, buf: Bytes, data: Bytes, i: nat)
    requires i < |data|
    ensures Run(c, data[..i + 1]) == Next(Run(c, data[..i]), data[i])
    ensures var was := buf + Body(c, data[..i]);
            var now := buf + Body(c, data[..i + 1]);
            if Run(c, data[..i]).state.ChunkData?
            then LinesOf(now) == LinesOf(was) + LinesOf(Rest(was) + [data[i]])
                && Rest(now) == Rest(Rest(was) + [data[i]])
            else now == was
  {
    assert data[..i + 1] == data[..i] + [data[i]];
    RunAppend(c, data[..i], [data[i]]);
    if Run(c, data[..i]).state.ChunkData? {
      assert Body(Run(c, data[..i]), [data[i]]) == [data[i]];
      assert buf + Body(c, data[..i + 1]) == (buf + Body(c, data[..i])) + [data[i]];
      LinesAppend(buf + Body(c, data[..i]), [data[i]]);
      SplitAppend(buf + Body(c, data[..i]), [data[i]]);
    } else {
      assert Body(Run(c, data[..i]), [data[i]]) == [];
    }
  }

  lemma FeedEnd(c: Chunking, data: Bytes, i: nat)
    requires i <= |data| && Run(c, data[..i]).state.Done?
    ensures Run(c, data) == Run(c, data[..i]) && Body(c, data) == Body(c, data[..i])
  {
    assert data == data[..i] + data[i..];
    RunAppend(c, data[..i], data[i..]);
    DoneAbsorbs(Run(c, data[..i]), data[i..]);
  }
}
