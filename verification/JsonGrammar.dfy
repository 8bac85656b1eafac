/** The JSON grammar of RFC 8259, sections 2 to 7, as concrete syntax trees, and the reader's correctness on it. */
module JsonGrammar {
  import opened Options
  import opened JsonReader

  // ---------- concrete syntax ----------

  /** One character of a string literal: itself, a two-character escape, or a u escape. */
  datatype Piece = Raw(c: Unit) | Escaped(e: Unit) | Code(hex: Text)

  /**
   * What the reader takes for a document. It looks at the first letter of a keyword only, and it
   * does not look at all at the opening quote of a name, at the colon after it, and at the character
   * closing a non-empty array or object; these characters are part of the tree.
   */
  datatype Doc =
    | DNull(more: Text)
    | DTrue(more: Text)
    | DFalse(more: Text)
    | DNumber(token: Text)
    | DString(pieces: seq<Piece>)
    | DArray(blank: Text, items: seq<Item>, close: Unit)
    | DObject(blank: Text, members: seq<Member>, close: Unit)

  /** An array element with the whitespace around it. */
  datatype Item = Item(before: Text, doc: Doc, after: Text)

  /** A name/value pair with the whitespace around the name, the colon and the value. */
  datatype Member =
    Member(before: Text, quote: Unit, name: seq<Piece>, colonBefore: Text, colon: Unit, colonAfter: Text,
           doc: Doc, after: Text)

  /** Space, horizontal tab, line feed and carriage return. */
  const BLANKS: Text := [0x20, 0x09, 0x0A, 0x0D]

  /** The characters of number tokens: the digits, both signs, the point and both forms of e. */
  const NUMBER_CHARS: Text := [48, 49, 50, 51, 52, 53, 54, 55, 56, 57, 43, 45, 46, 69, 101]

  predicate AllWs(t: Text) {
    forall i :: 0 <= i < |t| ==> t[i] in BLANKS
  }

  /** The reader skips exactly the whitespace of section 2. */
  lemma WsIff(c: Unit)
    ensures IsWs(c) <==> c in BLANKS
  {
    if IsWs(c) {
      assert c == BLANKS[0] || c == BLANKS[1] || c == BLANKS[2] || c == BLANKS[3];
    }
  }

  /** The reader's number characters are exactly those of section 6. */
  lemma NumericIff(c: Unit)
    ensures IsNumeric(c) <==> c in NUMBER_CHARS
  {
    if 48 <= c <= 57 { assert c == NUMBER_CHARS[c - 48]; }
    assert NUMBER_CHARS[10] == 43 && NUMBER_CHARS[11] == 45 && NUMBER_CHARS[12] == 46;
    assert NUMBER_CHARS[13] == 69 && NUMBER_CHARS[14] == 101;
  }

  /** What a two-character escape stands for by section 7; every other character stands for itself. */
  function EscapeMeaning(e: Unit): Unit {
    if e == 98 then 0x08 // b, backspace
    else if e == 102 then 0x0C // f, form feed
    else if e == 110 then 0x0A // n, line feed
    else if e == 114 then 0x0D // r, carriage return
    else if e == 116 then 0x09 // t, tab
    else e
  }

  // ---------- the standard ----------

  /** The numerals "0123456789abcdef" and their upper-case forms. */
  const LOWER_HEX: Text := [48, 49, 50, 51, 52, 53, 54, 55, 56, 57, 97, 98, 99, 100, 101, 102]
  const UPPER_HEX: Text := [48, 49, 50, 51, 52, 53, 54, 55, 56, 57, 65, 66, 67, 68, 69, 70]

  predicate IsHexDigit(c: Unit, d: nat) {
    d < 16 && (c == LOWER_HEX[d] || c == UPPER_HEX[d])
  }

  /** The text spells the code unit in four hexadecimal digits of any case. */
  predicate IsHex4(t: Text, c: Unit) {
    && |t| == 4
    && IsHexDigit(t[0], c / 4096) && IsHexDigit(t[1], c / 256 % 16)
    && IsHexDigit(t[2], c / 16 % 16) && IsHexDigit(t[3], c % 16)
  }

  predicate AllDigits(t: Text) {
    t != [] && forall i :: 0 <= i < |t| ==> 48 <= t[i] <= 57
  }

  /** int = zero / ( digit1-9 *DIGIT ) */
  predicate IsInt(t: Text) {
    AllDigits(t) && (t[0] == 48 ==> |t| == 1)
  }

  /** frac = decimal-point 1*DIGIT, or nothing */
  predicate IsFrac(t: Text) {
    t == [] || (t[0] == 46 && AllDigits(t[1..]))
  }

  /** exp = e [ minus / plus ] 1*DIGIT, or nothing */
  predicate IsExp(t: Text) {
    t == [] || ((t[0] == 101 || t[0] == 69) &&
                (AllDigits(t[1..]) || (|t| > 1 && (t[1] == 43 || t[1] == 45) && AllDigits(t[2..]))))
  }

  /** number = [ minus ] int [ frac ] [ exp ] */
  ghost predicate IsNumberToken(t: Text) {
    exists minus: Text, digits: Text, frac: Text, exp: Text ::
      && t == minus + digits + frac + exp
      && (minus == [] || minus == [45]) && IsInt(digits) && IsFrac(frac) && IsExp(exp)
  }

  /** The two library calls do what their documentation says on the tokens of the grammar. */
  ghost predicate Faithful(lib: Library) {
    && (forall t: Text, c: Unit :: IsHex4(t, c) ==> lib.hex(t) == Some(c))
    && (forall t: Text :: IsNumberToken(t) ==> lib.number(t))
  }

  /** The grammar allows raw characters from space on and the escapes of section 7. */
  ghost predicate StandardPiece(p: Piece) {
    match p
    case Raw(c) => c >= 32 && c != QUOTE && c != BACKSLASH
    case Escaped(e) => e in {QUOTE, BACKSLASH, SLASH, 98, 102, 110, 114, 116}
    case Code(hex) => exists c: Unit :: IsHex4(hex, c)
  }

  ghost predicate AllStandard(ps: seq<Piece>) {
    forall i :: 0 <= i < |ps| ==> StandardPiece(ps[i])
  }

  ghost predicate Standard(d: Doc)
    decreases d
  {
    match d
    case DNull(more) => more == [117, 108, 108]
    case DTrue(more) => more == [114, 117, 101]
    case DFalse(more) => more == [97, 108, 115, 101]
    case DNumber(token) => IsNumberToken(token)
    case DString(pieces) => AllStandard(pieces)
    case DArray(blank, items, close) =>
      && AllWs(blank) && close == CLOSE_BRACKET
      && forall x :: x in items ==> AllWs(x.before) && AllWs(x.after) && Standard(x.doc)
    case DObject(blank, members, close) =>
      && AllWs(blank) && close == CLOSE_BRACE
      && forall m :: m in members ==> MemberFits(m) && m.quote == QUOTE && m.colon == COLON
                                      && AllStandard(m.name) && Standard(m.doc)
  }

  // ---------- what the reader takes ----------

  /** The reader also takes raw control characters and any other escaped character. */
  predicate ReadablePiece(lib: Library, p: Piece) {
    match p
    case Raw(c) => c != QUOTE && c != BACKSLASH
    case Escaped(e) => e != LETTER_U
    case Code(hex) => |hex| == 4 && lib.hex(hex).Some?
  }

  predicate ReadablePieces(lib: Library, ps: seq<Piece>) {
    forall i :: 0 <= i < |ps| ==> ReadablePiece(lib, ps[i])
  }

  /** Whitespace where it belongs; the two characters that are not looked at are no whitespace. */
  predicate MemberFits(m: Member) {
    && AllWs(m.before) && AllWs(m.colonBefore) && AllWs(m.colonAfter) && AllWs(m.after)
    && m.quote !in BLANKS && m.colon !in BLANKS
  }

  /** A character that ends a list after this value: it must not continue the list or a number. */
  predicate Ends(doc: Doc, after: Text, close: Unit) {
    close != COMMA && close !in BLANKS && (doc.DNumber? && after == [] ==> close !in NUMBER_CHARS)
  }

  predicate ItemsEnd(items: seq<Item>, close: Unit) {
    items != [] ==> Ends(items[|items| - 1].doc, items[|items| - 1].after, close)
  }

  predicate MembersEnd(members: seq<Member>, close: Unit) {
    members != [] ==> Ends(members[|members| - 1].doc, members[|members| - 1].after, close)
  }

  predicate Readable(lib: Library, d: Doc)
    decreases d, 1
  {
    match d
    case DNull(more) => |more| == 3
    case DTrue(more) => |more| == 3
    case DFalse(more) => |more| == 4
    case DNumber(token) => token != [] && AllNumeric(token) && lib.number(token)
    case DString(pieces) => ReadablePieces(lib, pieces)
    case DArray(blank, items, close) =>
      && AllWs(blank) && ReadableItems(lib, items) && ItemsEnd(items, close)
      && (items == [] ==> close == CLOSE_BRACKET)
    case DObject(blank, members, close) =>
      && AllWs(blank) && ReadableMembers(lib, members) && MembersEnd(members, close)
      && (if members == [] then close == CLOSE_BRACE else members[0].quote != CLOSE_BRACE)
  }

  predicate ReadableItems(lib: Library, items: seq<Item>)
    decreases items, 0
  {
    forall x :: x in items ==> AllWs(x.before) && AllWs(x.after) && Readable(lib, x.doc)
  }

  predicate ReadableMembers(lib: Library, members: seq<Member>)
    decreases members, 0
  {
    forall m :: m in members ==> MemberFits(m) && ReadablePieces(lib, m.name) && Readable(lib, m.doc)
  }

  predicate AllNumeric(t: Text) {
    forall i :: 0 <= i < |t| ==> t[i] in NUMBER_CHARS
  }

  // ---------- rendering and meaning ----------

  function PieceText(p: Piece): Text {
    match p
    case Raw(c) => [c]
    case Escaped(e) => [BACKSLASH, e]
    case Code(hex) => [BACKSLASH, LETTER_U] + hex
  }

  function PieceValue(lib: Library, p: Piece): Unit
    requires ReadablePiece(lib, p)
  {
    match p
    case Raw(c) => c
    case Escaped(e) => EscapeMeaning(e)
    case Code(hex) => lib.hex(hex).value
  }

  function PiecesText(ps: seq<Piece>): Text {
    if ps == [] then [] else PieceText(ps[0]) + PiecesText(ps[1..])
  }

  function PiecesValue(lib: Library, ps: seq<Piece>): Text
    requires ReadablePieces(lib, ps)
  {
    if ps == [] then [] else [PieceValue(lib, ps[0])] + PiecesValue(lib, ps[1..])
  }

  function Literal(ps: seq<Piece>): Text {
    QuotedBy(QUOTE, ps)
  }

  function QuotedBy(quote: Unit, ps: seq<Piece>): Text {
    [quote] + PiecesText(ps) + [QUOTE]
  }

  /** Concatenation, named so that proofs can keep it folded. */
  function Then(a: Text, b: Text): (t: Text)
    ensures |t| == |a| + |b|
  {
    a + b
  }

  function Render(d: Doc): Text
    decreases d, 4
  {
    match d
    case DNull(more) => [LETTER_N] + more
    case DTrue(more) => [LETTER_T] + more
    case DFalse(more) => [LETTER_F] + more
    case DNumber(token) => token
    case DString(pieces) => Literal(pieces)
    case DArray(blank, items, close) =>
      Then([OPEN_BRACKET], if items == [] then Then(blank, [close]) else RenderItems(items, close))
    case DObject(blank, members, close) =>
      Then([OPEN_BRACE], if members == [] then Then(blank, [close]) else RenderMembers(members, close))
  }

  /** The elements with their separators, up to and including the closing character. */
  function RenderItems(items: seq<Item>, close: Unit): Text
    requires items != []
    decreases items, 1
  {
    Then(items[0].before, Then(Render(items[0].doc), Then(items[0].after, AfterItem(items, close))))
  }

  function AfterItem(items: seq<Item>, close: Unit): Text
    requires items != []
    decreases items, 0
  {
    if |items| == 1 then [close] else Then([COMMA], RenderItems(items[1..], close))
  }

  function RenderMembers(members: seq<Member>, close: Unit): Text
    requires members != []
    decreases members, 3
  {
    Then(members[0].before, Then(QuotedBy(members[0].quote, members[0].name), AfterName(members, close)))
  }

  function AfterName(members: seq<Member>, close: Unit): Text
    requires members != []
    decreases members, 2
  {
    Then(members[0].colonBefore, Then([members[0].colon], AfterColon(members, close)))
  }

  function AfterColon(members: seq<Member>, close: Unit): Text
    requires members != []
    decreases members, 1
  {
    var m := members[0];
    Then(m.colonAfter, Then(Render(m.doc), Then(m.after, AfterMember(members, close))))
  }

  function AfterMember(members: seq<Member>, close: Unit): Text
    requires members != []
    decreases members, 0
  {
    if |members| == 1 then [close] else Then([COMMA], RenderMembers(members[1..], close))
  }

  function Denote(lib: Library, d: Doc): Value
    requires Readable(lib, d)
    decreases d, 1
  {
    match d
    case DNull(_) => Null
    case DTrue(_) => Bool(true)
    case DFalse(_) => Bool(false)
    case DNumber(token) => Number(token)
    case DString(pieces) => String(PiecesValue(lib, pieces))
    case DArray(_, items, _) => Array(DenoteItems(lib, items))
    case DObject(_, members, _) => Object(DenoteMembers(lib, members, map[]))
  }

  function DenoteItems(lib: Library, items: seq<Item>): seq<Value>
    requires ReadableItems(lib, items)
    decreases items, 0
  {
    if items == [] then [] else [Denote(lib, items[0].doc)] + DenoteItems(lib, items[1..])
  }

  /** Members in order, so the last of several equal names wins. */
  function DenoteMembers(lib: Library, members: seq<Member>, d: map<Text, Value>): map<Text, Value>
    requires ReadableMembers(lib, members)
    decreases members, 0
  {
    if members == [] then d
    else DenoteMembers(lib, members[1..],
                       d[PiecesValue(lib, members[0].name) := Denote(lib, members[0].doc)])
  }

  /** The reader takes the whole grammar. */
  lemma {:induction false} StandardReadable(lib: Library, d: Doc)
    requires Faithful(lib) && Standard(d)
    ensures Readable(lib, d)
    decreases d
  {
    hide Faithful;
    match d
    case DNumber(token) =>
      NumberTokenShape(token);
      NumberAccepted(lib, token);
    case DString(pieces) => StandardPiecesReadable(lib, pieces);
    case DArray(_, items, close) =>
      forall x | x in items ensures Readable(lib, x.doc) {
        StandardReadable(lib, x.doc);
      }
      NoNumberChar(close);
    case DObject(_, members, close) =>
      forall m | m in members ensures Readable(lib, m.doc) && ReadablePieces(lib, m.name) {
        StandardReadable(lib, m.doc);
        StandardPiecesReadable(lib, m.name);
      }
      NoNumberChar(close);
    case _ =>
  }

  lemma NoNumberChar(close: Unit)
    ensures close == CLOSE_BRACKET || close == CLOSE_BRACE ==> close !in NUMBER_CHARS && close !in BLANKS
  {
  }

  lemma NumberAccepted(lib: Library, token: Text)
    requires Faithful(lib) && IsNumberToken(token)
    ensures lib.number(token)
  {
  }

  lemma StandardPiecesReadable(lib: Library, ps: seq<Piece>)
    requires Faithful(lib) && AllStandard(ps)
    ensures ReadablePieces(lib, ps)
  {
    hide IsHex4;
    forall i | 0 <= i < |ps| ensures ReadablePiece(lib, ps[i]) {
      assert StandardPiece(ps[i]);
      if ps[i].Code? { CodeReadable(lib, ps[i].hex); }
    }
  }

  lemma CodeReadable(lib: Library, hex: Text)
    requires Faithful(lib) && StandardPiece(Code(hex))
    ensures |hex| == 4 && lib.hex(hex).Some?
  {
    var c: Unit :| IsHex4(hex, c);
    CodeValue(lib, hex, c);
  }

  /** A u escape stands for the code unit that its four digits spell. */
  lemma CodeValue(lib: Library, hex: Text, c: Unit)
    requires Faithful(lib) && IsHex4(hex, c)
    ensures ReadablePiece(lib, Code(hex)) && PieceValue(lib, Code(hex)) == c
  {
    hide IsHexDigit;
    assert lib.hex(hex) == Some(c);
  }

  // ---------- reading text at a cursor ----------

  /** The text t stands at position i of s. */
  ghost predicate At(s: Text, i: nat, t: Text) {
    i + |t| <= |s| && s[i..i + |t|] == t
  }

  lemma AtSplit(s: Text, i: nat, a: Text, b: Text)
    requires At(s, i, Then(a, b))
    ensures At(s, i, a) && At(s, i + |a|, b)
    ensures i + |a| + |b| <= |s|
  {
    var t := a + b;
    assert s[i..i + |t|][..|a|] == a;
    assert s[i..i + |t|][|a|..] == b;
  }

  lemma AtWhole(s: Text)
    ensures At(s, 0, s)
  {
  }

  lemma AtUnit(s: Text, i: nat, t: Text)
    requires At(s, i, t) && t != []
    ensures i < |s| && s[i] == t[0]
  {
  }

  lemma WsUnits(t: Text)
    requires AllWs(t) && t != []
    ensures IsWs(t[0]) && !IsNumeric(t[0])
  {
    WsIff(t[0]);
  }

  lemma {:induction false} SkipsWs(s: Text, i: nat, t: Text)
    requires At(s, i, t) && AllWs(t)
    requires i + |t| < |s| ==> !IsWs(s[i + |t|])
    ensures SkipWs(s, i) == i + |t|
    decreases |t|
  {
    if t != [] {
      AtUnit(s, i, t);
      WsIff(t[0]);
      assert t == Then([t[0]], t[1..]);
      AtSplit(s, i, [t[0]], t[1..]);
      SkipsWs(s, i + 1, t[1..]);
    }
  }

  lemma ReadsNoPiece(lib: Library, s: Text, i: nat)
    requires At(s, i, [QUOTE])
    ensures StringTail(lib, s, i) == Ok([], i + 1)
  {
    AtUnit(s, i, [QUOTE]);
  }

  lemma PiecesHead(lib: Library, ps: seq<Piece>)
    requires ps != [] && ReadablePieces(lib, ps)
    ensures ReadablePiece(lib, ps[0]) && ReadablePieces(lib, ps[1..])
    ensures PiecesText(ps) == Then(PieceText(ps[0]), PiecesText(ps[1..]))
    ensures PiecesValue(lib, ps) == [PieceValue(lib, ps[0])] + PiecesValue(lib, ps[1..])
  {
  }

  lemma {:induction false} ReadsPieces(lib: Library, s: Text, i: nat, ps: seq<Piece>)
    requires ReadablePieces(lib, ps) && At(s, i, PiecesText(ps)) && At(s, i + |PiecesText(ps)|, [QUOTE])
    ensures StringTail(lib, s, i) == Ok(PiecesValue(lib, ps), i + |PiecesText(ps)| + 1)
    decreases |ps|
  {
    hide StringTail, At, PieceText, PieceValue, Then;
    if ps == [] {
      ReadsNoPiece(lib, s, i);
    } else {
      PiecesHead(lib, ps);
      hide PiecesText, PiecesValue, ReadablePieces, ReadablePiece;
      var head := PieceText(ps[0]);
      AtSplit(s, i, head, PiecesText(ps[1..]));
      ReadsPieces(lib, s, i + |head|, ps[1..]);
      ReadsPiece(lib, s, i, ps[0]);
    }
  }

  lemma ReadsPiece(lib: Library, s: Text, i: nat, p: Piece)
    requires ReadablePiece(lib, p) && At(s, i, PieceText(p))
    ensures StringTail(lib, s, i) == Prepend(PieceValue(lib, p), StringTail(lib, s, i + |PieceText(p)|))
  {
    AtUnit(s, i, PieceText(p));
    match p
    case Raw(c) =>
    case Escaped(e) =>
      assert PieceText(p) == Then([BACKSLASH], [e]);
      AtSplit(s, i, [BACKSLASH], [e]);
      AtUnit(s, i + 1, [e]);
    case Code(hex) =>
      assert PieceText(p) == Then([BACKSLASH], Then([LETTER_U], hex));
      AtSplit(s, i, [BACKSLASH], Then([LETTER_U], hex));
      AtUnit(s, i + 1, Then([LETTER_U], hex));
      AtSplit(s, i + 1, [LETTER_U], hex);
      assert s[i + 2..i + 6] == hex;
  }

  lemma QuotedThen(quote: Unit, ps: seq<Piece>)
    ensures QuotedBy(quote, ps) == Then([quote], Then(PiecesText(ps), [QUOTE]))
    ensures QuotedBy(quote, ps) != [] && QuotedBy(quote, ps)[0] == quote
  {
    ThenThen([quote], PiecesText(ps), [QUOTE]);
  }

  /** The reader does not look at the opening quote; its caller may have. */
  lemma ReadsQuoted(lib: Library, s: Text, i: nat, quote: Unit, ps: seq<Piece>)
    requires ReadablePieces(lib, ps) && At(s, i, QuotedBy(quote, ps))
    ensures i < |s| && s[i] == quote
    ensures StringTail(lib, s, i + 1) == Ok(PiecesValue(lib, ps), i + |QuotedBy(quote, ps)|)
  {
    QuotedThen(quote, ps);
    hide StringTail, At, PiecesText, PiecesValue, QuotedBy, Then, ReadablePieces;
    AtUnit(s, i, QuotedBy(quote, ps));
    AtSplit(s, i, [quote], Then(PiecesText(ps), [QUOTE]));
    AtSplit(s, i + 1, PiecesText(ps), [QUOTE]);
    ReadsPieces(lib, s, i + 1, ps);
  }

  // ---------- numbers ----------

  /** A number ends where the next character could not continue one. */
  predicate Delimited(s: Text, i: nat) {
    i < |s| ==> !IsNumeric(s[i])
  }

  lemma NumberTokenShape(t: Text)
    requires IsNumberToken(t)
    ensures t != [] && AllNumeric(t)
  {
    forall i | 0 <= i < |t| ensures t[i] in NUMBER_CHARS {
      NumericIff(t[i]);
    }
  }

  lemma {:induction false} NumberEndsAt(s: Text, i: nat, t: Text)
    requires At(s, i, t) && Delimited(s, i + |t|) && AllNumeric(t)
    ensures NumberEnd(s, i) == i + |t|
    decreases |t|
  {
    if t != [] {
      AtUnit(s, i, t);
      NumericIff(t[0]);
      assert t == Then([t[0]], t[1..]);
      AtSplit(s, i, [t[0]], t[1..]);
      NumberEndsAt(s, i + 1, t[1..]);
    }
  }

  // ---------- values ----------

  /** A document starts with a character that is no whitespace, separator or closer. */
  lemma RenderStart(lib: Library, d: Doc)
    requires Readable(lib, d)
    ensures Render(d) != [] && !IsWs(Render(d)[0])
    ensures Render(d)[0] != CLOSE_BRACKET && Render(d)[0] != COMMA
    ensures d.DNumber? ==> Render(d)[0] !in {123, 91, 34, 116, 102, 110}
  {
    hide ReadableItems, ReadableMembers, RenderItems, RenderMembers;
    if d.DNumber? {
      assert d.token[0] in NUMBER_CHARS;
      NumericIff(d.token[0]);
    }
  }

  /** Leading whitespace never changes what is read. */
  lemma ValueAfterWs(lib: Library, s: Text, i: nat, ws: Text)
    requires At(s, i, ws) && AllWs(ws) && i + |ws| < |s| && !IsWs(s[i + |ws|])
    ensures ValueAt(lib, s, i) == ValueAt(lib, s, i + |ws|) && SkipWs(s, i) == i + |ws|
  {
    SkipsWs(s, i, ws);
    SkipsWs(s, i + |ws|, []);
  }

  lemma ReadsScalar(lib: Library, s: Text, i: nat, d: Doc)
    requires Readable(lib, d) && At(s, i, Render(d)) && (d.DNumber? ==> Delimited(s, i + |Render(d)|))
    requires !d.DArray? && !d.DObject?
    ensures ValueAt(lib, s, i) == Ok(Denote(lib, d), i + |Render(d)|)
  {
    RenderStart(lib, d);
    AtUnit(s, i, Render(d));
    SkipsWs(s, i, []);
    match d
    case DNumber(token) => NumberEndsAt(s, i, token);
    case DString(pieces) => ReadsQuoted(lib, s, i, QUOTE, pieces);
    case _ =>
  }

  lemma ReadsEmpty(lib: Library, s: Text, i: nat, d: Doc)
    requires Readable(lib, d) && At(s, i, Render(d))
    requires (d.DArray? && d.items == []) || (d.DObject? && d.members == [])
    ensures ValueAt(lib, s, i) == Ok(Denote(lib, d), i + |Render(d)|)
  {
    hide ValueAt, SkipWs, At, Then;
    var open := if d.DArray? then [OPEN_BRACKET] else [OPEN_BRACE];
    AtSplit(s, i, open, Then(d.blank, [d.close]));
    AtUnit(s, i, open);
    AtSplit(s, i + 1, d.blank, [d.close]);
    AtUnit(s, i + 1 + |d.blank|, [d.close]);
    SkipsWs(s, i + 1, d.blank);
    EmptyBody(lib, s, i);
  }

  /**
   * Reading a rendered document at any position yields its meaning and stops right after it; in
   * particular no index runs past the end.
   */
  lemma {:induction false} ReadsDoc(lib: Library, s: Text, i: nat, d: Doc)
    requires Readable(lib, d) && At(s, i, Render(d)) && (d.DNumber? ==> Delimited(s, i + |Render(d)|))
    ensures ValueAt(lib, s, i) == Ok(Denote(lib, d), i + |Render(d)|)
    decreases d, 2
  {
    hide ValueAt, ElementsAt, MembersAt, SkipWs, At, Then, RenderItems, RenderMembers, Delimited;
    match d
    case DArray(blank, items, close) =>
      if items == [] {
        ReadsEmpty(lib, s, i, d);
      } else {
        AtSplit(s, i, [OPEN_BRACKET], RenderItems(items, close));
        AtUnit(s, i, [OPEN_BRACKET]);
        FirstItem(lib, s, i + 1, items, close);
        EntersLoop(lib, s, i);
        ReadsItems(lib, s, i + 1, items, close, []);
        assert [] + DenoteItems(lib, items) == DenoteItems(lib, items);
      }
    case DObject(blank, members, close) =>
      if members == [] {
        ReadsEmpty(lib, s, i, d);
      } else {
        AtSplit(s, i, [OPEN_BRACE], RenderMembers(members, close));
        AtUnit(s, i, [OPEN_BRACE]);
        FirstMember(lib, s, i + 1, members, close);
        EntersLoop(lib, s, i);
        ReadsMembers(lib, s, i + 1, members, close, map[]);
      }
    case _ => ReadsScalar(lib, s, i, d);
  }

  /** The first element starts after whitespace, and skipping that whitespace early is harmless. */
  lemma FirstItem(lib: Library, s: Text, i: nat, items: seq<Item>, close: Unit)
    requires items != [] && ReadableItems(lib, items) && At(s, i, RenderItems(items, close))
    ensures var k := SkipWs(s, i);
            k < |s| && s[k] != CLOSE_BRACKET && forall a :: ElementsAt(lib, s, k, a) == ElementsAt(lib, s, i, a)
  {
    hide ValueAt, ElementsAt, SkipWs, At, Then, Render, AllWs, Readable;
    var x := items[0];
    assert x in items;
    ItemStart(lib, s, i, items, close);
    ValueAfterWs(lib, s, i, x.before);
    forall a ensures ElementsAt(lib, s, SkipWs(s, i), a) == ElementsAt(lib, s, i, a) {
      ElementsSame(lib, s, SkipWs(s, i), i, a);
    }
  }

  lemma ElementsSame(lib: Library, s: Text, k: nat, i: nat, a: seq<Value>)
    requires ValueAt(lib, s, k) == ValueAt(lib, s, i)
    ensures ElementsAt(lib, s, k, a) == ElementsAt(lib, s, i, a)
  {
    hide ValueAt;
  }

  /** Where the parts of the first element stand. */
  lemma ItemStart(lib: Library, s: Text, i: nat, items: seq<Item>, close: Unit)
    requires items != [] && Readable(lib, items[0].doc) && At(s, i, RenderItems(items, close))
    ensures var x := items[0];
            var j := i + |x.before|;
            && At(s, i, x.before) && At(s, j, Render(x.doc)) && j < |s|
            && !IsWs(s[j]) && s[j] != CLOSE_BRACKET
            && At(s, j + |Render(x.doc)|, Then(x.after, AfterItem(items, close)))
  {
    hide At, Then, Render, AfterItem, Readable;
    var x := items[0];
    var tail := Then(x.after, AfterItem(items, close));
    AtSplit(s, i, x.before, Then(Render(x.doc), tail));
    AtSplit(s, i + |x.before|, Render(x.doc), tail);
    RenderStart(lib, x.doc);
    AtUnit(s, i + |x.before|, Render(x.doc));
  }

  /** Reads the first element; what follows it is a separator or the closer. */
  lemma {:induction false} ReadsItem(lib: Library, s: Text, i: nat, items: seq<Item>, close: Unit)
    requires items != [] && ReadableItems(lib, items) && ItemsEnd(items, close)
    requires At(s, i, RenderItems(items, close))
    ensures var x := items[0];
            var m := i + |x.before| + |Render(x.doc)|;
            var p := m + |x.after|;
            && ValueAt(lib, s, i) == Ok(Denote(lib, x.doc), m) && SkipWs(s, m) == p
            && p < |s| && s[p] == (if |items| == 1 then close else COMMA) && At(s, p, AfterItem(items, close))
    decreases items, 0
  {
    hide ValueAt, SkipWs, At, Then, Render, Denote, AllWs, Readable, Delimited, IsWs, AfterItem, RenderItems;
    hide IsNumeric;
    var x := items[0];
    assert x in items;
    ItemStart(lib, s, i, items, close);
    ValueAfterWs(lib, s, i, x.before);
    var j := i + |x.before|;
    AfterItemStart(items, close);
    Separated(s, j + |Render(x.doc)|, x.doc, x.after, AfterItem(items, close));
    ReadsDoc(lib, s, j, x.doc);
  }

  lemma ItemsLength(items: seq<Item>, close: Unit)
    requires items != []
    ensures var x := items[0];
            |RenderItems(items, close)| == |x.before| + |Render(x.doc)| + |x.after| + |AfterItem(items, close)|
  {
    hide Render, AfterItem, Then;
  }

  lemma ItemsTail(lib: Library, items: seq<Item>)
    requires items != [] && ReadableItems(lib, items)
    ensures Readable(lib, items[0].doc) && ReadableItems(lib, items[1..])
    ensures DenoteItems(lib, items) == [Denote(lib, items[0].doc)] + DenoteItems(lib, items[1..])
    ensures DenoteItems(lib, []) == []
  {
    assert items[0] in items && forall x :: x in items[1..] ==> x in items;
  }

  lemma AfterItemIs(items: seq<Item>, close: Unit)
    requires items != []
    ensures AfterItem(items, close) ==
            if |items| == 1 then [close] else Then([COMMA], RenderItems(items[1..], close))
  {
  }

  lemma {:induction false} ReadsItems(lib: Library, s: Text, i: nat, items: seq<Item>, close: Unit, a: seq<Value>)
    requires items != [] && ReadableItems(lib, items) && ItemsEnd(items, close)
    requires At(s, i, RenderItems(items, close))
    ensures ElementsAt(lib, s, i, a) == Ok(Array(a + DenoteItems(lib, items)), i + |RenderItems(items, close)|)
    decreases items, 1
  {
    hide ValueAt, ElementsAt, SkipWs, At, Then, Render, RenderItems, AfterItem, Denote, DenoteItems;
    hide AllWs, Readable, ReadableItems, Ends;
    var x, more := items[0], items[1..];
    ItemsTail(lib, items);
    ReadsItem(lib, s, i, items, close);
    AfterItemIs(items, close);
    ItemsLength(items, close);
    var v := Denote(lib, x.doc);
    ElementsStep(lib, s, i, a, v, i + |x.before| + |Render(x.doc)|);
    if |items| == 1 {
      assert more == [];
      ConsAssoc(a, v, []);
      AppendNil(a + [v]);
      CloseNoComma(items, close);
    } else {
      var p := i + |x.before| + |Render(x.doc)| + |x.after|;
      AtSplit(s, p, [COMMA], RenderItems(more, close));
      ReadsItems(lib, s, p + 1, more, close, a + [v]);
      ConsAssoc(a, v, DenoteItems(lib, more));
    }
  }

  lemma CloseNoComma(items: seq<Item>, close: Unit)
    requires items != [] && ItemsEnd(items, close)
    ensures close != COMMA
  {
  }

  lemma AppendNil(a: seq<Value>)
    ensures a + [] == a
  {
  }

  lemma ConsAssoc(a: seq<Value>, v: Value, b: seq<Value>)
    ensures a + [v] + b == a + ([v] + b)
  {
  }

  /** What follows an element is no whitespace, and it ends a number that it touches. */
  lemma AfterItemStart(items: seq<Item>, close: Unit)
    requires items != [] && ItemsEnd(items, close)
    ensures var c := AfterItem(items, close);
            && c != [] && c[0] == (if |items| == 1 then close else COMMA)
            && SeparatorFits(items[0].doc, items[0].after, c[0])
  {
    SeparatorIs(items[0].doc, items[0].after, AfterItem(items, close)[0]);
  }

  lemma AfterMemberStart(members: seq<Member>, close: Unit)
    requires members != [] && MembersEnd(members, close)
    ensures var c := AfterMember(members, close);
            && c != [] && c[0] == (if |members| == 1 then close else COMMA)
            && SeparatorFits(members[0].doc, members[0].after, c[0])
  {
    SeparatorIs(members[0].doc, members[0].after, AfterMember(members, close)[0]);
  }

  predicate SeparatorFits(doc: Doc, after: Text, c: Unit) {
    !IsWs(c) && (doc.DNumber? && after == [] ==> !IsNumeric(c))
  }

  lemma SeparatorIs(doc: Doc, after: Text, c: Unit)
    requires c == COMMA || Ends(doc, after, c)
    ensures SeparatorFits(doc, after, c)
  {
    WsIff(c);
    NumericIff(c);
  }

  /** Whitespace and a separator delimit whatever stands before them. */
  lemma Separated(s: Text, m: nat, doc: Doc, ws: Text, rest: Text)
    requires AllWs(ws) && At(s, m, Then(ws, rest)) && rest != [] && SeparatorFits(doc, ws, rest[0])
    ensures doc.DNumber? ==> Delimited(s, m)
    ensures SkipWs(s, m) == m + |ws| && m + |ws| < |s| && s[m + |ws|] == rest[0]
    ensures At(s, m + |ws|, rest)
  {
    AtSplit(s, m, ws, rest);
    AtUnit(s, m + |ws|, rest);
    SkipsWs(s, m, ws);
    if ws != [] {
      AtUnit(s, m, ws);
      WsUnits(ws);
    }
  }

  lemma FirstMember(lib: Library, s: Text, i: nat, members: seq<Member>, close: Unit)
    requires members != [] && ReadableMembers(lib, members) && members[0].quote != CLOSE_BRACE
    requires At(s, i, RenderMembers(members, close))
    ensures var k := SkipWs(s, i);
            k < |s| && s[k] != CLOSE_BRACE && forall d :: MembersAt(lib, s, k, d) == MembersAt(lib, s, i, d)
  {
    hide ValueAt, MembersAt, StringTail, SkipWs, At, Then, QuotedBy, AfterName, AllWs, Readable, ReadablePieces;
    var m := members[0];
    assert m in members;
    AtSplit(s, i, m.before, Then(QuotedBy(m.quote, m.name), AfterName(members, close)));
    AtSplit(s, i + |m.before|, QuotedBy(m.quote, m.name), AfterName(members, close));
    QuotedThen(m.quote, m.name);
    AtUnit(s, i + |m.before|, QuotedBy(m.quote, m.name));
    WsIff(m.quote);
    SkipsWs(s, i, m.before);
    FieldSame(lib, s, i);
    forall d ensures MembersAt(lib, s, SkipWs(s, i), d) == MembersAt(lib, s, i, d) {
      MembersSame(lib, s, SkipWs(s, i), i, d);
    }
  }

  lemma FieldSame(lib: Library, s: Text, i: nat)
    ensures FieldAt(lib, s, SkipWs(s, i)) == FieldAt(lib, s, i)
  {
  }

  lemma MembersSame(lib: Library, s: Text, k: nat, i: nat, d: map<Text, Value>)
    requires FieldAt(lib, s, k) == FieldAt(lib, s, i)
    ensures MembersAt(lib, s, k, d) == MembersAt(lib, s, i, d)
  {
    hide FieldAt;
  }

  /** Reads the name of the first member up to its colon. */
  lemma ReadsName(lib: Library, s: Text, i: nat, members: seq<Member>, close: Unit)
    requires members != [] && At(s, i, RenderMembers(members, close))
    requires MemberFits(members[0]) && ReadablePieces(lib, members[0].name)
    ensures var m := members[0];
            var c := i + |m.before| + |QuotedBy(m.quote, m.name)|;
            && StringTail(lib, s, SkipWs(s, i) + 1) == Ok(PiecesValue(lib, m.name), c)
            && SkipWs(s, c) == c + |m.colonBefore|
            && At(s, c + |m.colonBefore| + 1, AfterColon(members, close))
  {
    hide ValueAt, StringTail, At, Then, QuotedBy, AfterColon, PiecesValue, AllWs, ReadablePieces, SkipWs, IsWs;
    var m := members[0];
    var n := i + |m.before|;
    AtSplit(s, i, m.before, Then(QuotedBy(m.quote, m.name), AfterName(members, close)));
    AtSplit(s, n, QuotedBy(m.quote, m.name), AfterName(members, close));
    ReadsQuoted(lib, s, n, m.quote, m.name);
    WsIff(m.quote);
    WsIff(m.colon);
    SkipsWs(s, i, m.before);
    var c := n + |QuotedBy(m.quote, m.name)|;
    AtSplit(s, c, m.colonBefore, Then([m.colon], AfterColon(members, close)));
    AtSplit(s, c + |m.colonBefore|, [m.colon], AfterColon(members, close));
    AtUnit(s, c + |m.colonBefore|, [m.colon]);
    SkipsWs(s, c, m.colonBefore);
  }

  /** The text of a member up to the whitespace after its value. */
  function FieldLength(m: Member): nat {
    |m.before| + |QuotedBy(m.quote, m.name)| + |m.colonBefore| + 1 + |m.colonAfter| + |Render(m.doc)|
  }

  lemma MembersLength(members: seq<Member>, close: Unit)
    requires members != []
    ensures |RenderMembers(members, close)|
            == FieldLength(members[0]) + |members[0].after| + |AfterMember(members, close)|
  {
    hide QuotedBy, Render, AfterMember, Then;
    var m := members[0];
    assert AfterColon(members, close)
        == Then(m.colonAfter, Then(Render(m.doc), Then(m.after, AfterMember(members, close))));
    assert AfterName(members, close) == Then(m.colonBefore, Then([m.colon], AfterColon(members, close)));
    assert RenderMembers(members, close)
        == Then(m.before, Then(QuotedBy(m.quote, m.name), AfterName(members, close)));
  }

  /** Reads the value of the first member from just after its colon; what follows is a separator. */
  lemma {:induction false} ReadsMemberValue(lib: Library, s: Text, v: nat, members: seq<Member>, close: Unit)
    requires members != [] && ReadableMembers(lib, members) && MembersEnd(members, close)
    requires At(s, v, AfterColon(members, close))
    ensures var m := members[0];
            var e := v + |m.colonAfter| + |Render(m.doc)|;
            var p := e + |m.after|;
            && ValueAt(lib, s, v) == Ok(Denote(lib, m.doc), e) && SkipWs(s, e) == p
            && p < |s| && s[p] == (if |members| == 1 then close else COMMA) && At(s, p, AfterMember(members, close))
    decreases members, 0
  {
    hide ValueAt, SkipWs, At, Then, Render, Denote, AllWs, Readable, Delimited, AfterMember, IsWs, IsNumeric;
    var m := members[0];
    assert m in members;
    var tail := Then(m.after, AfterMember(members, close));
    AtSplit(s, v, m.colonAfter, Then(Render(m.doc), tail));
    var j := v + |m.colonAfter|;
    AtSplit(s, j, Render(m.doc), tail);
    RenderStart(lib, m.doc);
    AtUnit(s, j, Render(m.doc));
    ValueAfterWs(lib, s, v, m.colonAfter);
    AfterMemberStart(members, close);
    Separated(s, j + |Render(m.doc)|, m.doc, m.after, AfterMember(members, close));
    ReadsDoc(lib, s, j, m.doc);
  }

  /** Reads the first member. */
  lemma {:induction false} ReadsField(lib: Library, s: Text, i: nat, members: seq<Member>, close: Unit)
    requires members != [] && ReadableMembers(lib, members) && MembersEnd(members, close)
    requires At(s, i, RenderMembers(members, close))
    ensures var m := members[0];
            var e := i + FieldLength(m);
            var p := e + |m.after|;
            && FieldAt(lib, s, i) == Ok((PiecesValue(lib, m.name), Denote(lib, m.doc)), e) && SkipWs(s, e) == p
            && p < |s| && s[p] == (if |members| == 1 then close else COMMA) && At(s, p, AfterMember(members, close))
    decreases members, 1
  {
    hide ValueAt, SkipWs, StringTail, At, Then, Render, Denote, QuotedBy, PiecesValue, AllWs;
    hide Readable, ReadablePieces, AfterMember, AfterColon, RenderMembers, Ends, MemberFits;
    var m := members[0];
    assert m in members;
    ReadsName(lib, s, i, members, close);
    ReadsMemberValue(lib, s, i + |m.before| + |QuotedBy(m.quote, m.name)| + |m.colonBefore| + 1, members, close);
  }

  lemma {:induction false} ReadsMembers(
    lib: Library, s: Text, i: nat, members: seq<Member>, close: Unit, d: map<Text, Value>)
    requires members != [] && ReadableMembers(lib, members) && MembersEnd(members, close)
    requires At(s, i, RenderMembers(members, close))
    ensures MembersAt(lib, s, i, d)
            == Ok(Object(DenoteMembers(lib, members, d)), i + |RenderMembers(members, close)|)
    decreases members, 2
  {
    hide ValueAt, FieldAt, MembersAt, SkipWs, At, Then, Denote, PiecesValue, AllWs;
    hide Readable, ReadablePieces, AfterMember, RenderMembers, FieldLength;
    var m := members[0];
    assert m in members;
    var k, v := PiecesValue(lib, m.name), Denote(lib, m.doc);
    var e := i + FieldLength(m);
    MembersLength(members, close);
    ReadsField(lib, s, i, members, close);
    MembersStep(lib, s, i, d, k, v, e);
    AfterMemberIs(members, close);
    if |members| > 1 {
      var more := members[1..];
      var p := e + |m.after|;
      AtSplit(s, p, [COMMA], RenderMembers(more, close));
      assert forall y :: y in more ==> y in members;
      ReadsMembers(lib, s, p + 1, more, close, d[k := v]);
    }
  }

  lemma AfterMemberIs(members: seq<Member>, close: Unit)
    requires members != []
    ensures AfterMember(members, close) ==
            if |members| == 1 then [close] else Then([COMMA], RenderMembers(members[1..], close))
  {
  }

  lemma ThenThen(a: Text, b: Text, c: Text)
    ensures a + b + c == Then(a, Then(b, c))
  {
  }

  /** The text is the document with whitespace around it. */
  predicate Spelled(lib: Library, s: Text, before: Text, d: Doc, after: Text) {
    Readable(lib, d) && AllWs(before) && AllWs(after) && s == before + Render(d) + after
  }

  /** The reader finds the meaning of everything it takes for a document, up to the end of the text. */
  lemma ReaderTakes(lib: Library, s: Text, before: Text, d: Doc, after: Text)
    requires Spelled(lib, s, before, d, after)
    ensures Document(lib, s) == Ok(Denote(lib, d), |s|)
  {
    hide ValueAt, SkipWs, At, Then, Render, AllWs, Readable, Denote;
    ThenThen(before, Render(d), after);
    AtWhole(s);
    AtSplit(s, 0, before, Then(Render(d), after));
    var j := |before|;
    AtSplit(s, j, Render(d), after);
    RenderStart(lib, d);
    AtUnit(s, j, Render(d));
    ValueAfterWs(lib, s, 0, before);
    var m := j + |Render(d)|;
    if after != [] {
      AtUnit(s, m, after);
      WsUnits(after);
    }
    ReadsDoc(lib, s, j, d);
    SkipsWs(s, m, after);
  }

  /** The reader is correct on the whole grammar, with whitespace around the document as well. */
  lemma ReaderCorrect(lib: Library, before: Text, d: Doc, after: Text)
    requires Faithful(lib) && Standard(d) && AllWs(before) && AllWs(after)
    ensures Readable(lib, d)
    ensures var s := before + Render(d) + after;
            Document(lib, s) == Ok(Denote(lib, d), |s|)
  {
    hide Faithful, Standard, Document;
    StandardReadable(lib, d);
    ReaderTakes(lib, before + Render(d) + after, before, d, after);
  }
}
