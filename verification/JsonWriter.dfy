/** The JSON writer for flat objects of strings, and its round trip through the reader. */
module JsonWriter {
  import opened JsonReader
  import opened JsonGrammar

  type Field = (Text, Text)

  function PieceFor(c: Unit): Piece {
    match c
    case 34 => Escaped(QUOTE)
    case 92 => Escaped(BACKSLASH)
    case 10 => Escaped(LETTER_N)
    case 13 => Escaped(114)
    case 9 => Escaped(LETTER_T)
    case _ => Raw(c)
  }

  /** No u escape, and no raw quote or backslash. */
  predicate Plain(p: Piece) {
    match p
    case Raw(c) => c != QUOTE && c != BACKSLASH
    case Escaped(e) => e != LETTER_U
    case Code(_) => false
  }

  function PiecesFor(s: Text): (ps: seq<Piece>)
    ensures forall i :: 0 <= i < |ps| ==> Plain(ps[i])
  {
    if s == [] then [] else [PieceFor(s[0])] + PiecesFor(s[1..])
  }

  /** Escaping as the source writes it. */
  method Escape(s: Text) returns (sb: Text)
    ensures sb == PiecesText(PiecesFor(s))
  {
    sb := [];
    for i := 0 to |s|
      invariant sb + PiecesText(PiecesFor(s[i..])) == PiecesText(PiecesFor(s))
    {
      var c := s[i];
      EscapeStep(s, i, sb);
      match c
      case 34 => sb := sb + [BACKSLASH, QUOTE];
      case 92 => sb := sb + [BACKSLASH, BACKSLASH];
      case 10 => sb := sb + [BACKSLASH, LETTER_N];
      case 13 => sb := sb + [BACKSLASH, 114];
      case 9 => sb := sb + [BACKSLASH, LETTER_T];
      case _ => sb := sb + [c];
    }
  }

  lemma EscapeStep(s: Text, i: nat, sb: Text)
    requires i < |s|
    ensures sb + PiecesText(PiecesFor(s[i..])) == sb + PieceText(PieceFor(s[i])) + PiecesText(PiecesFor(s[i + 1..]))
  {
  }

  /** Escaping loses nothing: the pieces stand for the original text. */
  lemma {:induction false} EscapeValue(lib: Library, s: Text)
    ensures PiecesValue(lib, PiecesFor(s)) == s
  {
    if s != [] {
      var p, ps := PieceFor(s[0]), PiecesFor(s[1..]);
      var all := [p] + ps;
      assert all[0] == p && all[1..] == ps;
      EscapeValue(lib, s[1..]);
    }
  }

  predicate RawControl(c: Unit) {
    c < 32 && c != 9 && c != 10 && c != 13
  }

  /** The text can be read as the contents of a string literal of section 7 of RFC 8259. */
  ghost predicate StandardText(t: Text) {
    exists ps: seq<Piece> :: AllStandard(ps) && PiecesText(ps) == t
  }

  /** The output is legal JSON exactly when the text has no control character besides tab, LF and CR. */
  lemma EscapeStandard(s: Text)
    ensures StandardText(PiecesText(PiecesFor(s))) <==> forall i :: 0 <= i < |s| ==> !RawControl(s[i])
  {
    hide PiecesFor, PiecesText, AllStandard;
    var t := PiecesText(PiecesFor(s));
    if forall i :: 0 <= i < |s| ==> !RawControl(s[i]) {
      StandardPieces(s);
    } else {
      var i :| 0 <= i < |s| && RawControl(s[i]);
      RawKept(s, i);
      forall ps: seq<Piece> | AllStandard(ps) ensures PiecesText(ps) != t {
        NoControls(ps);
      }
    }
  }

  /** The character with code 1 is written as it is, and no string literal may hold it. */
  lemma RawControlWritten()
    ensures !StandardText(PiecesText(PiecesFor([1])))
  {
    EscapeStandard([1]);
    assert RawControl([1][0]);
  }

  lemma StandardPieces(s: Text)
    requires forall i :: 0 <= i < |s| ==> !RawControl(s[i])
    ensures AllStandard(PiecesFor(s))
  {
    PiecesPointwise(s);
    hide PiecesFor;
    assert forall c: Unit :: !RawControl(c) ==> StandardPiece(PieceFor(c));
  }

  /** A raw control character of the original shows up in the output. */
  lemma {:induction false} RawKept(s: Text, i: nat)
    requires i < |s| && RawControl(s[i])
    ensures s[i] in PiecesText(PiecesFor(s))
  {
    var p, ps := PieceFor(s[0]), PiecesFor(s[1..]);
    var all := [p] + ps;
    assert all[0] == p && all[1..] == ps && PiecesFor(s) == all;
    assert PiecesText(all) == PieceText(p) + PiecesText(ps);
    if i > 0 { RawKept(s[1..], i - 1); }
  }

  /** A standard literal holds no control character. */
  lemma {:induction false} NoControls(ps: seq<Piece>)
    requires AllStandard(ps)
    ensures forall c :: c in PiecesText(ps) ==> c >= 32
  {
    if ps != [] {
      NoControl(ps[0]);
      NoControls(ps[1..]);
    }
  }

  lemma NoControl(p: Piece)
    requires StandardPiece(p)
    ensures forall c :: c in PieceText(p) ==> c >= 32
  {
    hide IsHex4;
    if p.Code? {
      var u: Unit :| IsHex4(p.hex, u);
      HexPrinted(p.hex, u);
    }
  }

  lemma HexPrinted(hex: Text, u: Unit)
    requires IsHex4(hex, u)
    ensures forall c :: c in hex ==> c >= 48
  {
    hide IsHexDigit;
    DigitPrinted(hex[0], u / 4096);
    DigitPrinted(hex[1], u / 256 % 16);
    DigitPrinted(hex[2], u / 16 % 16);
    DigitPrinted(hex[3], u % 16);
  }

  lemma DigitPrinted(c: Unit, d: nat)
    requires IsHexDigit(c, d)
    ensures c >= 48
  {
  }

  lemma {:induction false} PiecesPointwise(s: Text)
    ensures |PiecesFor(s)| == |s| && forall i :: 0 <= i < |s| ==> PiecesFor(s)[i] == PieceFor(s[i])
  {
    if s != [] { PiecesPointwise(s[1..]); }
  }

  /** One field, and what follows it. */
  function FieldText(f: Field): Text {
    Literal(PiecesFor(f.0)) + [COLON] + Literal(PiecesFor(f.1))
  }

  function From(fields: seq<Field>, k: nat): Text
    requires k <= |fields|
    decreases |fields| - k
  {
    if k == |fields| then [CLOSE_BRACE]
    else (if k > 0 then [COMMA] else []) + FieldText(fields[k]) + From(fields, k + 1)
  }

  method Obj(fields: seq<Field>) returns (text: Text)
    ensures text == [OPEN_BRACE] + From(fields, 0)
  {
    if |fields| == 0 { return [OPEN_BRACE, CLOSE_BRACE]; }
    var sb: Text := [OPEN_BRACE];
    for k := 0 to |fields|
      invariant sb + From(fields, k) == [OPEN_BRACE] + From(fields, 0)
    {
      hide From;
      var comma := if k > 0 then [COMMA] else [];
      var key := Escape(fields[k].0);
      var val := Escape(fields[k].1);
      ObjStep(fields, k, sb);
      sb := sb + comma + [QUOTE] + key + [QUOTE, COLON, QUOTE] + val + [QUOTE];
    }
    text := sb + [CLOSE_BRACE];
  }

  lemma ObjStep(fields: seq<Field>, k: nat, sb: Text)
    requires k < |fields|
    ensures var comma := if k > 0 then [COMMA] else [];
            var key, val := PiecesText(PiecesFor(fields[k].0)), PiecesText(PiecesFor(fields[k].1));
            sb + From(fields, k) ==
            sb + comma + [QUOTE] + key + [QUOTE, COLON, QUOTE] + val + [QUOTE] + From(fields, k + 1)
  {
    var comma := if k > 0 then [COMMA] else [];
    var key, val := PiecesText(PiecesFor(fields[k].0)), PiecesText(PiecesFor(fields[k].1));
    FieldAppended(sb, comma, key, val, From(fields, k + 1));
  }

  lemma FieldAppended(sb: Text, comma: Text, key: Text, val: Text, rest: Text)
    ensures sb + comma + [QUOTE] + key + [QUOTE, COLON, QUOTE] + val + [QUOTE] + rest ==
            sb + (comma + (([QUOTE] + key + [QUOTE]) + [COLON] + ([QUOTE] + val + [QUOTE])) + rest)
  {
  }

  // ---------- the written text as a document ----------

  function MemberFor(f: Field): Member {
    Member([], QUOTE, PiecesFor(f.0), [], COLON, [], DString(PiecesFor(f.1)), [])
  }

  function MembersFor(fields: seq<Field>): (ms: seq<Member>)
    ensures |ms| == |fields|
    ensures forall m :: m in ms ==> exists f :: f in fields && m == MemberFor(f)
  {
    if fields == [] then [] else [MemberFor(fields[0])] + MembersFor(fields[1..])
  }

  function Written(fields: seq<Field>): Doc {
    DObject([], MembersFor(fields), CLOSE_BRACE)
  }

  lemma WrittenReadable(lib: Library, fields: seq<Field>)
    ensures Readable(lib, Written(fields)) && ReadableMembers(lib, MembersFor(fields))
  {
    MembersReadable(lib, fields);
    assert COMMA != CLOSE_BRACE && CLOSE_BRACE !in BLANKS;
    hide PiecesFor, ReadablePieces, MembersFor, MemberFor;
  }

  lemma MembersReadable(lib: Library, fields: seq<Field>)
    ensures ReadableMembers(lib, MembersFor(fields)) && MembersEnd(MembersFor(fields), CLOSE_BRACE)
    ensures fields != [] ==> MembersFor(fields)[0].quote == QUOTE
  {
    forall m | m in MembersFor(fields)
      ensures MemberFits(m) && ReadablePieces(lib, m.name) && Readable(lib, m.doc) && m.doc.DString? && m.quote == QUOTE
    {
      var f :| f in fields && m == MemberFor(f);
      MemberReadable(lib, f);
    }
    hide PiecesFor, ReadablePieces, MemberFor;
  }

  lemma MemberReadable(lib: Library, f: Field)
    ensures var m := MemberFor(f);
            MemberFits(m) && ReadablePieces(lib, m.name) && Readable(lib, m.doc)
  {
    assert QUOTE !in BLANKS && COLON !in BLANKS;
  }

  lemma RenderField(f: Field, rest: Text)
    ensures Then([], Then(Literal(PiecesFor(f.0)), Then([], Then([COLON], Then([], Then(Literal(PiecesFor(f.1)),
            Then([], rest)))))))
            == FieldText(f) + rest
  {
  }

  lemma RenderFirst(ms: seq<Member>, f: Field)
    requires ms != [] && ms[0] == MemberFor(f)
    ensures RenderMembers(ms, CLOSE_BRACE) == FieldText(f) + AfterMember(ms, CLOSE_BRACE)
  {
    hide QuotedBy, FieldText, Then, AfterMember;
    var b := Literal(PiecesFor(f.1));
    assert Render(ms[0].doc) == b;
    assert AfterColon(ms, CLOSE_BRACE) == Then([], Then(b, Then([], AfterMember(ms, CLOSE_BRACE))));
    assert AfterName(ms, CLOSE_BRACE) == Then([], Then([COLON], AfterColon(ms, CLOSE_BRACE)));
    assert RenderMembers(ms, CLOSE_BRACE) == Then([], Then(Literal(PiecesFor(f.0)), AfterName(ms, CLOSE_BRACE)));
    RenderField(f, AfterMember(ms, CLOSE_BRACE));
  }

  /** The writer's text from field k on is the rendering of the remaining members. */
  lemma {:induction false} WrittenRenders(fields: seq<Field>, k: nat)
    requires k < |fields|
    ensures From(fields, k) == (if k > 0 then [COMMA] else []) + RenderMembers(MembersFor(fields[k..]), CLOSE_BRACE)
    decreases |fields| - k
  {
    hide FieldText, RenderMembers;
    var fs := fields[k..];
    var ms := MembersFor(fs);
    assert fs[0] == fields[k] && fs[1..] == fields[k + 1..];
    assert ms[0] == MemberFor(fields[k]) && ms[1..] == MembersFor(fields[k + 1..]);
    if k + 1 < |fields| { WrittenRenders(fields, k + 1); }
    assert AfterMember(ms, CLOSE_BRACE) == From(fields, k + 1);
    RenderFirst(ms, fields[k]);
  }

  /** The map obtained by inserting the fields in order. */
  function Inserted(fields: seq<Field>, d: map<Text, Value>): map<Text, Value> {
    if fields == [] then d else Inserted(fields[1..], d[fields[0].0 := String(fields[0].1)])
  }

  lemma {:induction false} MembersInserted(lib: Library, fields: seq<Field>, d: map<Text, Value>)
    requires ReadableMembers(lib, MembersFor(fields))
    ensures DenoteMembers(lib, MembersFor(fields), d) == Inserted(fields, d)
    decreases |fields|
  {
    if fields != [] {
      var f, ms := fields[0], MembersFor(fields);
      assert ms[0] == MemberFor(f) && ms[1..] == MembersFor(fields[1..]);
      assert ms[0] in ms;
      EscapeValue(lib, f.0);
      EscapeValue(lib, f.1);
      WrittenReadable(lib, fields[1..]);
      MembersInserted(lib, fields[1..], d[f.0 := String(f.1)]);
    }
  }

  /** Reading what was written gives back the fields, for every text and whatever the library does. */
  lemma RoundTrip(lib: Library, fields: seq<Field>)
    ensures var s := [OPEN_BRACE] + From(fields, 0);
            Document(lib, s) == Ok(Object(Inserted(fields, map[])), |s|)
  {
    hide Document, Inserted;
    var d := Written(fields);
    WrittenReadable(lib, fields);
    MembersInserted(lib, fields, map[]);
    WrittenDocument(fields);
    assert Denote(lib, d) == Object(Inserted(fields, map[]));
    Bare(Render(d));
    ReaderTakes(lib, Render(d), [], d, []);
  }

  lemma Bare(t: Text)
    ensures [] + t + [] == t
  {
  }

  lemma WrittenDocument(fields: seq<Field>)
    ensures Render(Written(fields)) == [OPEN_BRACE] + From(fields, 0)
  {
    if fields != [] {
      WrittenRenders(fields, 0);
      assert fields[0..] == fields;
    }
  }

  /** The same on running code. */
  method WriteThenParse(lib: Library, fields: seq<Field>) returns (r: Parsed<Value>)
    ensures r.Ok? && r.value == Object(Inserted(fields, map[]))
  {
    var text := Obj(fields);
    RoundTrip(lib, fields);
    r := Parse(lib, text);
  }
}
