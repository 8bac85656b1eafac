/** Chunked transfer coding, section 7.1 of RFC 9112: the encoder the decoder must invert. */
module ChunkedCoding {
  import opened Int32
  import opened Lines
  import opened ChunkedNdjson

  // ---------- numbers in base sixteen ----------

  /** The numerals "0123456789abcdef" and their upper-case forms. */
  const LOWER: Bytes := [48, 49, 50, 51, 52, 53, 54, 55, 56, 57, 97, 98, 99, 100, 101, 102]
  const UPPER: Bytes := [48, 49, 50, 51, 52, 53, 54, 55, 56, 57, 65, 66, 67, 68, 69, 70]

  predicate Numeral(c: Byte, d: nat) {
    d < 16 && (c == LOWER[d] || c == UPPER[d])
  }

  /** The text is n in base sixteen, in any case and with any number of leading zeros. */
  predicate Spells(text: Bytes, n: nat) {
    if text == [] then n == 0
    else Numeral(text[|text| - 1], n % 16) && Spells(text[..|text| - 1], n / 16)
  }

  /** The decoder's digits are the numerals, with their values. */
  lemma DigitTable(i: nat)
    requires i < 16
    ensures IsHex(LOWER[i]) && Digit(LOWER[i]) == i && IsHex(UPPER[i]) && Digit(UPPER[i]) == i
  {
  }

  lemma NumeralIff(c: Byte)
    ensures IsHex(c) <==> c in LOWER || c in UPPER
  {
    if 48 <= c <= 57 { assert c == LOWER[c - 48]; }
    if 97 <= c <= 102 { assert c == LOWER[c - 87]; }
    if 65 <= c <= 70 { assert c == UPPER[c - 55]; }
  }

  /** Reading a spelling gives the number spelled. */
  lemma {:induction false} SpellingRead(text: Bytes, n: nat)
    requires Spells(text, n)
    ensures AllHex(text) && HexValue(text) == n
  {
    if text != [] {
      var init, c := text[..|text| - 1], text[|text| - 1];
      DigitTable(n % 16);
      SpellingRead(init, n / 16);
      assert text == init + [c];
    }
  }

  /** Whatever the decoder takes for a number is a spelling of the value it reads. */
  lemma {:induction false} ReadingSpells(text: Bytes)
    requires AllHex(text)
    ensures Spells(text, HexValue(text))
  {
    if text != [] {
      var init, c := text[..|text| - 1], text[|text| - 1];
      ReadingSpells(init);
      IsNumeral(c);
      LastDigit(HexValue(init), Digit(c));
    }
  }

  lemma IsNumeral(c: Byte)
    requires IsHex(c)
    ensures Numeral(c, Digit(c))
  {
    NumeralIff(c);
    var i :| 0 <= i < 16 && (c == LOWER[i] || c == UPPER[i]);
    DigitTable(i);
  }

  lemma LastDigit(n: nat, d: nat)
    requires d < 16
    ensures (n * 16 + d) / 16 == n && (n * 16 + d) % 16 == d
  {
  }

  // ---------- the encoder ----------

  /**
   * One chunk: blanks, its size as spelled, what else stands on its line, and its data. The line may
   * end in a lone LF, and the data may be followed by a lone LF or by any two bytes, as the decoder
   * tolerates it; the standard asks for no blanks and for CR LF twice.
   */
  datatype Chunk = Chunk(blanks: Bytes, size: Bytes, ext: Bytes, lineEnd: Bytes, data: Bytes, dataEnd: Bytes) {
    predicate Valid() {
      && ValidLine(blanks, size, ext, |data|) && LineEnd(lineEnd)
      && 1 <= |data| < 0x8000_0000 && DataEnd(dataEnd)
    }
    function Header(): Bytes {
      SizeLine(blanks, size, ext) + lineEnd
    }
  }

  /** The closing chunk, followed by trailer fields and whatever else the peer sends. */
  datatype End = End(blanks: Bytes, zeros: Bytes, ext: Bytes, lineEnd: Bytes, tail: Bytes) {
    predicate Valid() {
      ValidLine(blanks, zeros, ext, 0) && LineEnd(lineEnd)
    }
    function Header(): Bytes {
      SizeLine(blanks, zeros, ext) + lineEnd
    }
  }

  const CRLF: Bytes := [CR, LF]

  function SizeLine(blanks: Bytes, size: Bytes, ext: Bytes): Bytes {
    blanks + size + ext
  }

  predicate LineEnd(end: Bytes) {
    end == CRLF || end == [LF]
  }

  predicate DataEnd(end: Bytes) {
    end == [LF] || (|end| == 2 && end[0] != LF)
  }

  /** Blanks, a spelling of n, and anything that does not continue the number. */
  predicate ValidLine(blanks: Bytes, size: Bytes, ext: Bytes, n: nat) {
    && AllBlank(blanks) && size != [] && Spells(size, n)
    && LineSafe(ext) && (ext != [] ==> ext[0] !in LOWER && ext[0] !in UPPER)
  }

  /** Space, horizontal tab, vertical tab or form feed. */
  predicate AllBlank(blanks: Bytes) {
    forall i :: 0 <= i < |blanks| ==> blanks[i] == 32 || blanks[i] == 9 || blanks[i] == 11 || blanks[i] == 12
  }

  predicate LineSafe(s: Bytes) {
    forall i :: 0 <= i < |s| ==> s[i] != LF && s[i] != CR
  }

  predicate ValidChunks(chunks: seq<Chunk>) {
    forall i :: 0 <= i < |chunks| ==> chunks[i].Valid()
  }

  function Encode(chunks: seq<Chunk>, end: End): Bytes {
    if chunks == [] then end.Header() + end.tail
    else chunks[0].Header() + chunks[0].data + chunks[0].dataEnd + Encode(chunks[1..], end)
  }

  function BodyOf(chunks: seq<Chunk>): Bytes {
    if chunks == [] then [] else chunks[0].data + BodyOf(chunks[1..])
  }

  /** The body bytes contained in the first k bytes of the encoding. */
  function BodyBefore(chunks: seq<Chunk>, k: nat): Bytes {
    if chunks == [] then []
    else
      var h := |chunks[0].Header()|;
      var n := |chunks[0].data|;
      var e := |chunks[0].dataEnd|;
      if k <= h then []
      else if k <= h + n then chunks[0].data[..k - h]
      else if k <= h + n + e then chunks[0].data
      else chunks[0].data + BodyBefore(chunks[1..], k - h - n - e)
  }

  lemma {:induction false} BodyBeforeAll(chunks: seq<Chunk>, end: End, k: nat)
    requires end.Valid() && k >= |Encode(chunks, end)|
    ensures BodyBefore(chunks, k) == BodyOf(chunks)
  {
    if chunks != [] {
      var c := chunks[0];
      assert |Encode(chunks, end)| == |c.Header()| + |c.data| + |c.dataEnd| + |Encode(chunks[1..], end)|;
      EncodeLonger(chunks[1..], end);
      BodyBeforeAll(chunks[1..], end, k - |c.Header()| - |c.data| - |c.dataEnd|);
    }
  }

  lemma EncodeLonger(chunks: seq<Chunk>, end: End)
    requires end.Valid()
    ensures |Encode(chunks, end)| >= 1
  {
  }

  // ---------- the size line ----------

  lemma {:induction false} TrimStartBlanks(blanks: Bytes, s: Bytes)
    requires AllBlank(blanks)
    ensures TrimStart(blanks + s) == TrimStart(s)
  {
    var t := blanks + s;
    if blanks == [] {
      assert t == s;
    } else {
      assert t[0] == blanks[0] && t[1..] == blanks[1..] + s;
      TrimStartBlanks(blanks[1..], s);
    }
  }

  lemma {:induction false} TrimEndKeeps(s: Bytes, n: nat)
    requires 0 < n <= |s| && !IsSpace(s[n - 1])
    ensures |TrimEnd(s)| >= n
  {
    if |s| > n && IsSpace(s[|s| - 1]) { TrimEndKeeps(s[..|s| - 1], n); }
  }

  lemma HexNotSpace(c: Byte)
    requires IsHex(c)
    ensures !IsSpace(c)
  {
  }

  /** Blanks, trimming and whatever follows the number never change the size that is read. */
  lemma SizeOfLine(blanks: Bytes, size: Bytes, ext: Bytes, v: nat)
    requires ValidLine(blanks, size, ext, v)
    ensures SizeOf(SizeLine(blanks, size, ext)) == Wrap32(v)
  {
    var s := size + ext;
    var n := |size|;
    assert SizeLine(blanks, size, ext) == blanks + s;
    TrimStartBlanks(blanks, s);
    SpellingRead(size, v);
    hide Spells;
    assert IsHex(size[0]) && IsHex(size[n - 1]);
    assert s[0] == size[0] && s[n - 1] == size[n - 1];
    HexNotSpace(size[0]);
    HexNotSpace(size[n - 1]);
    assert TrimStart(s) == s;
    TrimEndKeeps(s, n);
    var t := TrimEnd(s);
    assert t == s[..|t|] && t[..n] == size;
    if n < |t| {
      assert t[n] == ext[0];
      NumeralIff(ext[0]);
    }
    HexRunUnique(t, n);
  }

  lemma {:induction false} SizeLineGrows(c: Chunking, text: Bytes)
    requires c.state.ChunkSize? && LineSafe(text)
    ensures Run(c, text) == c.(sizeLine := c.sizeLine + text) && Body(c, text) == []
    decreases |text|
  {
    if text == [] {
      assert c.sizeLine + text == c.sizeLine;
    } else {
      assert text[0] != LF && text[0] != CR;
      SizeLineGrows(Next(c, text[0]), text[1..]);
      assert c.sizeLine + [text[0]] + text[1..] == c.sizeLine + text;
    }
  }

  predicate AtSize(c: Chunking) {
    c.state.ChunkSize? && c.sizeLine == []
  }

  /** Any proper prefix of a line yields no body byte and stays on the line. */
  lemma LinePrefix(c: Chunking, line: Bytes, end: Bytes, k: nat)
    requires AtSize(c) && LineSafe(line) && LineEnd(end) && k < |line + end|
    ensures Body(c, (line + end)[..k]) == []
    ensures Run(c, (line + end)[..k]) == c.(sizeLine := line[..if k < |line| then k else |line|])
  {
    if k <= |line| {
      assert (line + end)[..k] == line[..k];
      SizeLineGrows(c, line[..k]);
    } else {
      assert (line + end)[..k] == line + [CR];
      assert line[..|line|] == line;
      SizeLineGrows(c, line);
      RunAppend(c, line, [CR]);
      var d := Run(c, line);
      assert Run(d, [CR]) == Run(Next(d, CR), []) == d;
      assert Body(d, [CR]) == [] + Body(Next(d, CR), []);
    }
  }

  /** What a whole line does, by the size read from it. */
  lemma LineRead(c: Chunking, line: Bytes, end: Bytes)
    requires AtSize(c) && LineSafe(line) && LineEnd(end)
    ensures Body(c, line + end) == []
    ensures var size := SizeOf(line);
            Run(c, line + end) == if size <= 0 then c.(state := Done) else c.(state := ChunkData, remaining := size)
  {
    var h := line + end;
    var k := |h| - 1;
    LinePrefix(c, line, end, k);
    assert h == h[..k] + [LF];
    RunAppend(c, h[..k], [LF]);
    assert line[..|line|] == line;
    var d := Run(c, h[..k]);
    assert Run(d, [LF]) == Run(Next(d, LF), []) == Next(d, LF);
    assert Body(d, [LF]) == [] + Body(Next(d, LF), []);
  }

  lemma LineIsSafe(blanks: Bytes, size: Bytes, ext: Bytes, v: nat)
    requires ValidLine(blanks, size, ext, v)
    ensures LineSafe(SizeLine(blanks, size, ext))
  {
    SpellingRead(size, v);
    assert forall i :: 0 <= i < |size| ==> IsHex(size[i]);
  }

  /**
   * What a line that spells v means to the decoder, for every v: the body ends when the low 32 bits
   * of v are zero or have the sign bit set, and otherwise they are the chunk's length.
   */
  lemma HeaderMeaning(c: Chunking, blanks: Bytes, size: Bytes, ext: Bytes, end: Bytes, v: nat)
    requires AtSize(c) && ValidLine(blanks, size, ext, v) && LineEnd(end)
    ensures Body(c, SizeLine(blanks, size, ext) + end) == []
    ensures var low := v % 0x1_0000_0000;
            Run(c, SizeLine(blanks, size, ext) + end) ==
              if low == 0 || low >= 0x8000_0000 then c.(state := Done)
              else c.(state := ChunkData, remaining := low)
  {
    LineIsSafe(blanks, size, ext, v);
    SizeOfLine(blanks, size, ext, v);
    hide Spells, SizeOf;
    LineRead(c, SizeLine(blanks, size, ext), end);
    WrapLow(v);
  }

  /** A size line therefore works as the standard says exactly for the sizes 0 to 2^31 - 1. */
  lemma HeaderFaithful(blanks: Bytes, size: Bytes, ext: Bytes, end: Bytes, v: nat)
    requires ValidLine(blanks, size, ext, v) && LineEnd(end)
    ensures (Run(INITIAL, SizeLine(blanks, size, ext) + end) ==
               if v == 0 then INITIAL.(state := Done) else INITIAL.(state := ChunkData, remaining := v))
            <==> v < 0x8000_0000
  {
    hide Spells, Run;
    HeaderMeaning(INITIAL, blanks, size, ext, end, v);
  }

  /** A line without a number, once its blanks are gone, ends the body. */
  lemma NoNumberEndsBody(c: Chunking, blanks: Bytes, text: Bytes, end: Bytes)
    requires AtSize(c) && AllBlank(blanks) && LineSafe(text) && LineEnd(end)
    requires text != [] ==> text[0] !in LOWER && text[0] !in UPPER && text[0] !in {9, 11, 12, 32}
    ensures Run(c, blanks + text + end) == c.(state := Done) && Body(c, blanks + text + end) == []
  {
    TrimStartBlanks(blanks, text);
    var t := TrimEnd(TrimStart(text));
    if t != [] {
      assert t[0] == text[0];
      NumeralIff(t[0]);
    }
    assert HexRun(t) == [];
    LineRead(c, blanks + text, end);
  }

  /** The spelling "80000000" ends the body although it announces 2^31 bytes. */
  lemma OversizeEndsBody()
    ensures var size := [56, 48, 48, 48, 48, 48, 48, 48];
            && ValidLine([], size, [], 0x8000_0000)
            && Run(INITIAL, SizeLine([], size, []) + CRLF).state == Done
  {
    var size: Bytes := [56, 48, 48, 48, 48, 48, 48, 48];
    EightSpelled(size);
    HeaderMeaning(INITIAL, [], size, [], CRLF, 0x8000_0000);
  }

  lemma EightSpelled(size: Bytes)
    requires size == [56, 48, 48, 48, 48, 48, 48, 48]
    ensures Spells(size, 0x8000_0000)
  {
    var powers := [8, 0x80, 0x800, 0x8000, 0x8_0000, 0x80_0000, 0x800_0000, 0x8000_0000];
    var k := 1;
    assert size[..1] == [56] && size[..1][..0] == [];
    assert Spells(size[..1], 8);
    while k < 8
      invariant 1 <= k <= 8 && Spells(size[..k], powers[k - 1])
    {
      assert size[..k + 1][..k] == size[..k] && size[..k + 1][k] == 48;
      assert powers[k] % 16 == 0 && powers[k] / 16 == powers[k - 1];
      k := k + 1;
    }
    assert size[..8] == size;
  }

  // ---------- data and trailer ----------

  lemma {:induction false} DataPrefix(c: Chunking, d: Bytes)
    requires c.state.ChunkData? && 0 < |d| <= c.remaining
    ensures Body(c, d) == d
    ensures Run(c, d) == if |d| == c.remaining then c.(state := ChunkCrlf, remaining := 0, crlfSeen := 0)
                         else c.(remaining := c.remaining - |d|)
    decreases |d|
  {
    if |d| == 1 {
      assert d[1..] == [];
    } else {
      DataPrefix(Next(c, d[0]), d[1..]);
    }
  }

  /** Two bytes, or a lone LF, after the data lead back to a size line; before that, nothing happens. */
  lemma DataEndSkipped(c: Chunking, end: Bytes)
    requires c.state.ChunkCrlf? && c.crlfSeen == 0 && DataEnd(end)
    ensures Run(c, end).state.ChunkSize? && Run(c, end).sizeLine == c.sizeLine && Body(c, end) == []
    ensures forall k :: 0 <= k < |end| ==> Body(c, end[..k]) == []
  {
    var d := Next(c, end[0]);
    assert Body(c, [end[0]]) == [] + Body(d, []) == [];
    if |end| == 1 {
      assert end[1..] == [] && end[..0] == [];
    } else {
      assert end[1..] == [end[1]] && end[..1] == [end[0]] && end[..0] == [];
      assert Run(d, [end[1]]) == Run(Next(d, end[1]), []) == Next(d, end[1]);
      assert Body(d, [end[1]]) == [] + Body(Next(d, end[1]), []);
    }
  }

  lemma ChunkHeader(c: Chunking, ch: Chunk)
    requires AtSize(c) && ch.Valid()
    ensures Body(c, ch.Header()) == []
    ensures Run(c, ch.Header()) == c.(state := ChunkData, remaining := |ch.data|)
  {
    hide Spells, Run, Body;
    HeaderMeaning(c, ch.blanks, ch.size, ch.ext, ch.lineEnd, |ch.data|);
  }

  /** A whole chunk is consumed and the decoder is back at a size line. */
  lemma WholeChunk(c: Chunking, ch: Chunk)
    requires AtSize(c) && ch.Valid()
    ensures var w := ch.Header() + ch.data + ch.dataEnd;
            Body(c, w) == ch.data && AtSize(Run(c, w))
  {
    var h := ch.Header();
    ChunkHeader(c, ch);
    var c1 := Run(c, h);
    DataPrefix(c1, ch.data);
    var c2 := Run(c1, ch.data);
    DataEndSkipped(c2, ch.dataEnd);
    RunAppend(c, h, ch.data);
    RunAppend(c, h + ch.data, ch.dataEnd);
    assert Body(c, h + ch.data) == ch.data;
  }

  lemma DataOfChunk(c: Chunking, ch: Chunk, n: nat)
    requires AtSize(c) && ch.Valid() && 0 < n <= |ch.data|
    ensures Body(c, ch.Header() + ch.data[..n]) == ch.data[..n]
  {
    hide Run, Body, Next;
    var h := ch.Header();
    ChunkHeader(c, ch);
    RunAppend(c, h, ch.data[..n]);
    DataPrefix(Run(c, h), ch.data[..n]);
  }

  lemma DataAndMore(c: Chunking, ch: Chunk, n: nat)
    requires AtSize(c) && ch.Valid() && n < |ch.dataEnd|
    ensures Body(c, ch.Header() + ch.data + ch.dataEnd[..n]) == ch.data
  {
    hide Run, Body, Next;
    var h := ch.Header();
    ChunkHeader(c, ch);
    RunAppend(c, h, ch.data);
    DataPrefix(Run(c, h), ch.data);
    RunAppend(c, h + ch.data, ch.dataEnd[..n]);
    DataEndSkipped(Run(c, h + ch.data), ch.dataEnd);
  }

  lemma ChunkHeaderPrefix(c: Chunking, ch: Chunk, k: nat)
    requires AtSize(c) && ch.Valid() && k < |ch.Header()|
    ensures Body(c, ch.Header()[..k]) == []
  {
    LineIsSafe(ch.blanks, ch.size, ch.ext, |ch.data|);
    LinePrefix(c, SizeLine(ch.blanks, ch.size, ch.ext), ch.lineEnd, k);
  }

  /** Within the first chunk, a prefix of the wire carries a prefix of its data. */
  lemma FirstChunkPrefix(c: Chunking, ch: Chunk, k: nat)
    requires AtSize(c) && ch.Valid()
    requires k < |ch.Header()| + |ch.data| + |ch.dataEnd|
    ensures Body(c, (ch.Header() + ch.data + ch.dataEnd)[..k]) == BodyBefore([ch], k)
  {
    hide Run, Body, Next;
    var h := ch.Header();
    var w := h + ch.data + ch.dataEnd;
    if k < |h| {
      assert w[..k] == h[..k];
      ChunkHeaderPrefix(c, ch, k);
    } else if k == |h| {
      assert w[..k] == h;
      ChunkHeader(c, ch);
    } else if k <= |h| + |ch.data| {
      assert w[..k] == h + ch.data[..k - |h|];
      DataOfChunk(c, ch, k - |h|);
    } else {
      var n := k - |h| - |ch.data|;
      assert w[..k] == h + ch.data + ch.dataEnd[..n];
      DataAndMore(c, ch, n);
    }
  }

  lemma EndPrefix(c: Chunking, end: End, k: nat)
    requires AtSize(c) && end.Valid() && k <= |Encode([], end)|
    ensures Body(c, Encode([], end)[..k]) == []
    ensures k >= |end.Header()| ==> Run(c, Encode([], end)[..k]).state.Done?
  {
    hide Spells;
    var h := end.Header();
    var w := Encode([], end);
    assert w == h + end.tail;
    if k < |h| {
      assert w[..k] == h[..k];
      LineIsSafe(end.blanks, end.zeros, end.ext, 0);
      LinePrefix(c, SizeLine(end.blanks, end.zeros, end.ext), end.lineEnd, k);
    } else {
      assert w[..k] == h + end.tail[..k - |h|];
      HeaderMeaning(c, end.blanks, end.zeros, end.ext, end.lineEnd, 0);
      RunAppend(c, h, end.tail[..k - |h|]);
      DoneAbsorbs(Run(c, h), end.tail[..k - |h|]);
    }
  }

  /** After every prefix of the encoding the chunk layer has produced exactly the body so far. */
  lemma {:induction false} ChunkLayerInverts(c: Chunking, chunks: seq<Chunk>, end: End, k: nat)
    requires AtSize(c) && ValidChunks(chunks) && end.Valid() && k <= |Encode(chunks, end)|
    ensures Body(c, Encode(chunks, end)[..k]) == BodyBefore(chunks, k)
    decreases |chunks|
  {
    if chunks == [] {
      EndPrefix(c, end, k);
    } else {
      var ch := chunks[0];
      assert ch.Valid();
      var w := ch.Header() + ch.data + ch.dataEnd;
      var more := Encode(chunks[1..], end);
      assert Encode(chunks, end) == w + more;
      if k < |w| {
        assert (w + more)[..k] == w[..k];
        FirstChunkPrefix(c, ch, k);
      } else {
        var j := k - |w|;
        assert (w + more)[..k] == w + more[..j];
        WholeChunk(c, ch);
        RunAppend(c, w, more[..j]);
        ChunkLayerInverts(Run(c, w), chunks[1..], end, j);
        if j == 0 { assert more[..j] == []; }
      }
    }
  }

  /**
   * The decoder inverts the encoder at every prefix and for every way of slicing it: the lines out
   * are the lines of the body so far, and the buffer is its unterminated remainder.
   */
  method DecodeSlices(slices: seq<Bytes>, ghost chunks: seq<Chunk>, ghost end: End, ghost k: nat)
    returns (lines: seq<Bytes>, pending: Bytes)
    requires ValidChunks(chunks) && end.Valid() && k <= |Encode(chunks, end)|
    requires Flatten(slices) == Encode(chunks, end)[..k]
    ensures lines == LinesOf(BodyBefore(chunks, k))
    ensures pending == Rest(BodyBefore(chunks, k)) && LfFree(pending)
  {
    var decoder := new Decoder();
    lines := [];
    SplitUnique([], []);
    assert slices[..0] == [];
    for i := 0 to |slices|
      invariant decoder.Valid() && fresh(decoder)
      invariant decoder.Chunks() == Run(INITIAL, Flatten(slices[..i]))
      invariant lines == LinesOf(Body(INITIAL, Flatten(slices[..i])))
      invariant decoder.lineBuf == Rest(Body(INITIAL, Flatten(slices[..i])))
    {
      FlattenSnoc(slices, i);
      RunAppend(INITIAL, Flatten(slices[..i]), slices[i]);
      LinesAppend(Body(INITIAL, Flatten(slices[..i])), Body(decoder.Chunks(), slices[i]));
      SplitAppend(Body(INITIAL, Flatten(slices[..i])), Body(decoder.Chunks(), slices[i]));
      var more := decoder.Feed(slices[i]);
      lines := lines + more;
    }
    assert slices[..|slices|] == slices;
    pending := decoder.lineBuf;
    ChunkLayerInverts(INITIAL, chunks, end, k);
  }

  /** The body that every complete encoding carries, whatever follows the closing chunk. */
  lemma CompleteEncoding(chunks: seq<Chunk>, end: End)
    requires ValidChunks(chunks) && end.Valid()
    ensures Body(INITIAL, Encode(chunks, end)) == BodyOf(chunks)
  {
    var w := Encode(chunks, end);
    ChunkLayerInverts(INITIAL, chunks, end, |w|);
    assert w[..|w|] == w;
    BodyBeforeAll(chunks, end, |w|);
  }
}
