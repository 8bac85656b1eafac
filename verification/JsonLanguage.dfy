/** Exactly which texts the reader takes, and what its failures mean. */
module JsonLanguage {
  import opened Options
  import opened JsonReader
  import opened JsonGrammar

  // ---------- text at a cursor ----------

  lemma AtJoin(s: Text, i: nat, a: Text, b: Text)
    requires At(s, i, a) && At(s, i + |a|, b)
    ensures At(s, i, Then(a, b))
  {
  }

  lemma AtOne(s: Text, i: nat)
    requires i < |s|
    ensures At(s, i, [s[i]])
  {
  }

  lemma AtSlice(s: Text, i: nat, j: nat)
    requires i <= j <= |s|
    ensures At(s, i, s[i..j]) && |s[i..j]| == j - i
  {
  }

  /** Everything skipped is whitespace. */
  lemma {:induction false} Skipped(s: Text, i: nat)
    requires i <= |s|
    ensures i <= SkipWs(s, i) <= |s| && AllWs(s[i..SkipWs(s, i)])
    decreases |s| - i
  {
    if i < |s| && IsWs(s[i]) {
      Skipped(s, i + 1);
      WsIff(s[i]);
      assert s[i..SkipWs(s, i)] == [s[i]] + s[i + 1..SkipWs(s, i)];
    }
  }

  lemma {:induction false} NumberRun(s: Text, i: nat)
    requires i <= |s|
    ensures i <= NumberEnd(s, i) <= |s| && AllNumeric(s[i..NumberEnd(s, i)]) && Delimited(s, NumberEnd(s, i))
    decreases |s| - i
  {
    if i < |s| && IsNumeric(s[i]) {
      NumberRun(s, i + 1);
      NumericIff(s[i]);
      assert s[i..NumberEnd(s, i)] == [s[i]] + s[i + 1..NumberEnd(s, i)];
    }
  }

  // ---------- every success is the rendering of a tree ----------

  /** The cursor is at a piece that is not cut short by the end of the text. */
  predicate HasPiece(s: Text, i: nat) {
    i < |s| && s[i] != QUOTE && (s[i] == BACKSLASH ==> i + 1 < |s| && (s[i + 1] == LETTER_U ==> i + 6 <= |s|))
  }

  function PieceAt(s: Text, i: nat): (p: Piece)
    requires HasPiece(s, i)
  {
    if s[i] != BACKSLASH then Raw(s[i])
    else if s[i + 1] != LETTER_U then Escaped(s[i + 1])
    else Code(s[i + 2..i + 6])
  }

  lemma PieceBounds(lib: Library, s: Text, i: nat)
    requires StringTail(lib, s, i).Ok?
    ensures i < |s| && (s[i] == QUOTE || (HasPiece(s, i) && ReadablePiece(lib, PieceAt(s, i))))
    ensures s[i] == QUOTE ==> StringTail(lib, s, i) == Ok([], i + 1)
  {
  }

  lemma PieceStands(s: Text, i: nat)
    requires HasPiece(s, i)
    ensures At(s, i, PieceText(PieceAt(s, i))) && |PieceText(PieceAt(s, i))| > 0
  {
    if PieceAt(s, i).Code? {
      assert s[i..i + 6] == [BACKSLASH, LETTER_U] + s[i + 2..i + 6];
    }
  }

  lemma {:induction false} ExplainString(lib: Library, s: Text, i: nat) returns (ps: seq<Piece>)
    requires StringTail(lib, s, i).Ok?
    ensures ReadablePieces(lib, ps) && StringTail(lib, s, i) == Ok(PiecesValue(lib, ps), i + |PiecesText(ps)| + 1)
    ensures At(s, i, Then(PiecesText(ps), [QUOTE]))
    decreases Left(s, i)
  {
    hide StringTail, PieceAt, PieceText, PieceValue, ReadablePiece, At, Then, HasPiece;
    PieceBounds(lib, s, i);
    if s[i] == QUOTE {
      ps := [];
      AtOne(s, i);
      NilThen([QUOTE]);
    } else {
      PieceStands(s, i);
      var p := PieceAt(s, i);
      ReadsPiece(lib, s, i, p);
      var j := i + |PieceText(p)|;
      var more := ExplainString(lib, s, j);
      ps := [p] + more;
      assert ps[0] == p && ps[1..] == more;
      AtJoin(s, i, PieceText(p), Then(PiecesText(more), [QUOTE]));
      PiecesHead(lib, ps);
      PairText(PieceText(p), PiecesText(more));
    }
  }

  lemma NilThen(t: Text)
    ensures Then([], t) == t
  {
  }

  lemma PairText(a: Text, b: Text)
    ensures Then(Then(a, b), [QUOTE]) == Then(a, Then(b, [QUOTE]))
  {
  }

  lemma QuotedAt(s: Text, i: nat, quote: Unit, ps: seq<Piece>)
    requires i < |s| && s[i] == quote && At(s, i + 1, Then(PiecesText(ps), [QUOTE]))
    ensures At(s, i, QuotedBy(quote, ps)) && |QuotedBy(quote, ps)| == |PiecesText(ps)| + 2
  {
    AtOne(s, i);
    AtJoin(s, i, [quote], Then(PiecesText(ps), [QUOTE]));
    QuotedThen(quote, ps);
  }

  lemma {:induction false} ExplainValue(lib: Library, s: Text, i: nat) returns (d: Doc)
    requires !lib.number([]) && ValueAt(lib, s, i).Ok? && ValueAt(lib, s, i).next <= |s|
    ensures Readable(lib, d) && SkipWs(s, i) < |s| && At(s, SkipWs(s, i), Render(d))
    ensures ValueAt(lib, s, i) == Ok(Denote(lib, d), SkipWs(s, i) + |Render(d)|)
    ensures d.DNumber? ==> Delimited(s, SkipWs(s, i) + |Render(d)|)
    decreases Left(s, i), 2
  {
    var j := SkipWs(s, i);
    SkipTwice(lib, s, i);
    ValueStarts(lib, s, i);
    hide ValueAt, SkipWs, Render, Denote, Readable, At, Delimited, IsWs;
    if s[j] == OPEN_BRACE {
      d := ExplainObject(lib, s, j);
    } else if s[j] == OPEN_BRACKET {
      d := ExplainArray(lib, s, j);
    } else {
      d := ExplainScalar(lib, s, j);
    }
  }

  lemma ValueStarts(lib: Library, s: Text, i: nat)
    requires ValueAt(lib, s, i).Ok?
    ensures SkipWs(s, i) < |s|
  {
    hide MembersAt, ElementsAt, StringTail;
  }

  lemma {:induction false} ExplainScalar(lib: Library, s: Text, j: nat) returns (d: Doc)
    requires !lib.number([]) && ValueAt(lib, s, j).Ok? && ValueAt(lib, s, j).next <= |s|
    requires j < |s| && SkipWs(s, j) == j && s[j] != OPEN_BRACE && s[j] != OPEN_BRACKET
    ensures !d.DObject? && !d.DArray? && Readable(lib, d) && At(s, j, Render(d))
    ensures ValueAt(lib, s, j) == Ok(Denote(lib, d), j + |Render(d)|)
    ensures d.DNumber? ==> Delimited(s, j + |Render(d)|)
  {
    hide SkipWs, MembersAt, ElementsAt, IsWs;
    match s[j]
    case 34 =>
      hide StringTail;
      var ps := ExplainString(lib, s, j + 1);
      QuotedAt(s, j, QUOTE, ps);
      d := DString(ps);
    case 116 =>
      KeywordAt(s, j, 4);
      d := DTrue(s[j + 1..j + 4]);
    case 102 =>
      KeywordAt(s, j, 5);
      d := DFalse(s[j + 1..j + 5]);
    case 110 =>
      KeywordAt(s, j, 4);
      d := DNull(s[j + 1..j + 4]);
    case _ =>
      NumberRun(s, j);
      d := DNumber(s[j..NumberEnd(s, j)]);
      AtSlice(s, j, NumberEnd(s, j));
  }

  lemma KeywordAt(s: Text, j: nat, n: nat)
    requires 0 < n && j + n <= |s|
    ensures At(s, j, [s[j]] + s[j + 1..j + n])
  {
    assert s[j..j + n] == [s[j]] + s[j + 1..j + n];
  }

  lemma SkipTwice(lib: Library, s: Text, i: nat)
    ensures SkipWs(s, SkipWs(s, i)) == SkipWs(s, i)
    ensures ValueAt(lib, s, SkipWs(s, i)) == ValueAt(lib, s, i)
  {
  }

  lemma {:induction false} ExplainArray(lib: Library, s: Text, i: nat) returns (d: Doc)
    requires !lib.number([]) && i < |s| && s[i] == OPEN_BRACKET
    requires ValueAt(lib, s, i).Ok? && ValueAt(lib, s, i).next <= |s|
    ensures d.DArray? && Readable(lib, d) && At(s, i, Render(d))
    ensures ValueAt(lib, s, i) == Ok(Denote(lib, d), i + |Render(d)|)
    decreases Left(s, i), 1
  {
    hide ValueAt, ElementsAt, SkipWs, At, Then, AllWs, RenderItems, DenoteItems, ReadableItems, Readable;
    EmptyBody(lib, s, i);
    var k := SkipWs(s, i + 1);
    Skipped(s, i + 1);
    AtOne(s, i);
    AtSlice(s, i + 1, k);
    if s[k] == CLOSE_BRACKET {
      d := DArray(s[i + 1..k], [], CLOSE_BRACKET);
      AtOne(s, k);
      AtJoin(s, i + 1, s[i + 1..k], [CLOSE_BRACKET]);
      AtJoin(s, i, [OPEN_BRACKET], Then(s[i + 1..k], [CLOSE_BRACKET]));
      EmptyReadable(lib, s[i + 1..k]);
    } else {
      EntersLoop(lib, s, i);
      SkipTwice(lib, s, i + 1);
      ElementsSame(lib, s, k, i + 1, []);
      var items, close := ExplainElements(lib, s, i + 1, []);
      d := DArray([], items, close);
      AtJoin(s, i, [OPEN_BRACKET], RenderItems(items, close));
      ArrayReadable(lib, items, close);
    }
  }

  lemma EmptyReadable(lib: Library, blank: Text)
    requires AllWs(blank)
    ensures Readable(lib, DArray(blank, [], CLOSE_BRACKET))
    ensures Denote(lib, DArray(blank, [], CLOSE_BRACKET)) == Array([])
    ensures Readable(lib, DObject(blank, [], CLOSE_BRACE))
    ensures Denote(lib, DObject(blank, [], CLOSE_BRACE)) == Object(map[])
  {
  }

  lemma ArrayReadable(lib: Library, items: seq<Item>, close: Unit)
    requires items != [] && ReadableItems(lib, items) && ItemsEnd(items, close)
    ensures Readable(lib, DArray([], items, close))
    ensures Denote(lib, DArray([], items, close)) == Array([] + DenoteItems(lib, items))
  {
    hide ReadableItems, DenoteItems;
    assert [] + DenoteItems(lib, items) == DenoteItems(lib, items);
  }

  lemma {:induction false} ExplainElements(lib: Library, s: Text, i: nat, a: seq<Value>)
    returns (items: seq<Item>, close: Unit)
    requires !lib.number([]) && ElementsAt(lib, s, i, a).Ok? && ElementsAt(lib, s, i, a).next <= |s|
    ensures items != [] && ReadableItems(lib, items) && ItemsEnd(items, close)
    ensures At(s, i, RenderItems(items, close))
    ensures ElementsAt(lib, s, i, a) == Ok(Array(a + DenoteItems(lib, items)), i + |RenderItems(items, close)|)
    decreases Left(s, i), 3
  {
    hide ElementsAt, ValueAt, SkipWs, At, Then, AllWs, RenderItems, DenoteItems, ReadableItems, Readable, Render;
    hide IsWs, IsNumeric, Delimited;
    ElementsFail(lib, s, i, a);
    var first := ValueAt(lib, s, i);
    var m := first.next;
    ElementsStep(lib, s, i, a, first.value, m);
    var p := SkipWs(s, m);
    var d := ExplainValue(lib, s, i);
    var j := SkipWs(s, i);
    var x := Item(s[i..j], d, s[m..p]);
    ItemAt(lib, s, i, x);
    if s[p] == COMMA {
      var more, c := ExplainElements(lib, s, p + 1, a + [first.value]);
      items, close := [x] + more, c;
      AtOne(s, p);
      AtJoin(s, p, [COMMA], RenderItems(more, close));
      ItemsCons(lib, x, more, close);
      ConsAssoc(a, first.value, DenoteItems(lib, more));
    } else {
      items, close := [x], s[p];
      AtOne(s, p);
      EndsAt(s, m, d);
      ItemsOne(lib, x, close);
    }
    ItemsLength(items, close);
    ItemJoin(s, i, items, close);
  }

  /** The parts of an element that was read stand where they were read. */
  lemma ItemAt(lib: Library, s: Text, i: nat, x: Item)
    requires i <= SkipWs(s, i) <= |s| && x.before == s[i..SkipWs(s, i)]
    requires At(s, SkipWs(s, i), Render(x.doc))
    requires var m := SkipWs(s, i) + |Render(x.doc)|;
             m <= SkipWs(s, m) <= |s| && x.after == s[m..SkipWs(s, m)]
    ensures AllWs(x.before) && AllWs(x.after) && |x.before| == SkipWs(s, i) - i
    ensures At(s, i, x.before)
    ensures var m := SkipWs(s, i) + |Render(x.doc)|;
            At(s, m, x.after) && |x.after| == SkipWs(s, m) - m
  {
    hide SkipWs, At, AllWs, Render;
    var m := SkipWs(s, i) + |Render(x.doc)|;
    Skipped(s, i);
    Skipped(s, m);
    AtSlice(s, i, SkipWs(s, i));
    AtSlice(s, m, SkipWs(s, m));
  }

  lemma ItemJoin(s: Text, i: nat, items: seq<Item>, close: Unit)
    requires items != [] && At(s, i, items[0].before)
    requires At(s, i + |items[0].before|, Render(items[0].doc))
    requires At(s, i + |items[0].before| + |Render(items[0].doc)|, items[0].after)
    requires At(s, i + |items[0].before| + |Render(items[0].doc)| + |items[0].after|, AfterItem(items, close))
    ensures At(s, i, RenderItems(items, close))
  {
    hide At, Then, Render, AfterItem;
    var x, tail := items[0], AfterItem(items, close);
    var j := i + |x.before|;
    AtJoin(s, j + |Render(x.doc)|, x.after, tail);
    AtJoin(s, j, Render(x.doc), Then(x.after, tail));
    AtJoin(s, i, x.before, Then(Render(x.doc), Then(x.after, tail)));
  }

  lemma ItemsCons(lib: Library, x: Item, more: seq<Item>, close: Unit)
    requires AllWs(x.before) && AllWs(x.after) && Readable(lib, x.doc)
    requires more != [] && ReadableItems(lib, more) && ItemsEnd(more, close)
    ensures var items := [x] + more;
            && ReadableItems(lib, items) && ItemsEnd(items, close)
            && DenoteItems(lib, items) == [Denote(lib, x.doc)] + DenoteItems(lib, more)
            && AfterItem(items, close) == Then([COMMA], RenderItems(more, close))
  {
    hide AllWs, Readable, RenderItems, Denote, Ends;
    var items := [x] + more;
    assert items[0] == x && items[1..] == more && items[|items| - 1] == more[|more| - 1];
  }

  lemma ItemsOne(lib: Library, x: Item, close: Unit)
    requires AllWs(x.before) && AllWs(x.after) && Readable(lib, x.doc) && Ends(x.doc, x.after, close)
    ensures ReadableItems(lib, [x]) && ItemsEnd([x], close) && AfterItem([x], close) == [close]
    ensures DenoteItems(lib, [x]) == [Denote(lib, x.doc)]
  {
    hide AllWs, Readable, Denote, Ends;
  }

  /** The character that ended a list ends it in the sense of the grammar. */
  lemma EndsAt(s: Text, m: nat, d: Doc)
    requires m <= SkipWs(s, m) < |s| && s[SkipWs(s, m)] != COMMA && (d.DNumber? ==> Delimited(s, m))
    ensures Ends(d, s[m..SkipWs(s, m)], s[SkipWs(s, m)])
  {
    var c := s[SkipWs(s, m)];
    WsIff(c);
    NumericIff(c);
  }

  lemma {:induction false} ExplainObject(lib: Library, s: Text, i: nat) returns (d: Doc)
    requires !lib.number([]) && i < |s| && s[i] == OPEN_BRACE
    requires ValueAt(lib, s, i).Ok? && ValueAt(lib, s, i).next <= |s|
    ensures d.DObject? && Readable(lib, d) && At(s, i, Render(d))
    ensures ValueAt(lib, s, i) == Ok(Denote(lib, d), i + |Render(d)|)
    decreases Left(s, i), 1
  {
    hide ValueAt, MembersAt, SkipWs, At, Then, AllWs, RenderMembers, DenoteMembers, ReadableMembers, Readable;
    EmptyBody(lib, s, i);
    var k := SkipWs(s, i + 1);
    Skipped(s, i + 1);
    AtOne(s, i);
    AtSlice(s, i + 1, k);
    if s[k] == CLOSE_BRACE {
      d := DObject(s[i + 1..k], [], CLOSE_BRACE);
      AtOne(s, k);
      AtJoin(s, i + 1, s[i + 1..k], [CLOSE_BRACE]);
      AtJoin(s, i, [OPEN_BRACE], Then(s[i + 1..k], [CLOSE_BRACE]));
      EmptyReadable(lib, s[i + 1..k]);
    } else {
      EntersMembers(lib, s, i);
      var members, close := ExplainMembers(lib, s, i + 1, map[]);
      d := DObject([], members, close);
      AtJoin(s, i, [OPEN_BRACE], RenderMembers(members, close));
      ObjectReadable(lib, members, close);
    }
  }

  lemma EntersMembers(lib: Library, s: Text, i: nat)
    requires i < |s| && s[i] == OPEN_BRACE && SkipWs(s, i + 1) < |s| && s[SkipWs(s, i + 1)] != CLOSE_BRACE
    ensures ValueAt(lib, s, i) == MembersAt(lib, s, i + 1, map[])
    ensures SkipWs(s, SkipWs(s, i + 1)) == SkipWs(s, i + 1)
  {
    hide ValueAt, MembersAt, SkipWs, FieldAt;
    EntersLoop(lib, s, i);
    SkipTwice(lib, s, i + 1);
    FieldSame(lib, s, i + 1);
    MembersSame(lib, s, SkipWs(s, i + 1), i + 1, map[]);
  }

  lemma ObjectReadable(lib: Library, members: seq<Member>, close: Unit)
    requires members != [] && ReadableMembers(lib, members) && MembersEnd(members, close)
    requires members[0].quote != CLOSE_BRACE
    ensures Readable(lib, DObject([], members, close))
    ensures Denote(lib, DObject([], members, close)) == Object(DenoteMembers(lib, members, map[]))
  {
    hide ReadableMembers, DenoteMembers;
  }

  lemma {:induction false} ExplainMembers(lib: Library, s: Text, i: nat, d: map<Text, Value>)
    returns (members: seq<Member>, close: Unit)
    requires !lib.number([]) && MembersAt(lib, s, i, d).Ok? && MembersAt(lib, s, i, d).next <= |s|
    ensures members != [] && ReadableMembers(lib, members) && MembersEnd(members, close)
    ensures SkipWs(s, i) < |s| && members[0].quote == s[SkipWs(s, i)]
    ensures At(s, i, RenderMembers(members, close))
    ensures MembersAt(lib, s, i, d)
            == Ok(Object(DenoteMembers(lib, members, d)), i + |RenderMembers(members, close)|)
    decreases Left(s, i), 1
  {
    hide MembersAt, ValueAt, SkipWs, At, Then, AllWs, RenderMembers, DenoteMembers, ReadableMembers, Readable, Render;
    hide FieldAt, IsWs, IsNumeric, Delimited, StringTail, QuotedBy, PiecesValue, ReadablePieces, MemberFits;
    MembersFail(lib, s, i, d);
    var first := FieldAt(lib, s, i);
    var m := first.next;
    MembersStep(lib, s, i, d, first.value.0, first.value.1, m);
    var p := SkipWs(s, m);
    var x := ExplainField(lib, s, i);
    if s[p] == COMMA {
      var more, c := ExplainMembers(lib, s, p + 1, d[first.value.0 := first.value.1]);
      members, close := [x] + more, c;
      AtOne(s, p);
      AtJoin(s, p, [COMMA], RenderMembers(more, close));
      MembersCons(lib, x, more, close, d);
    } else {
      members, close := [x], s[p];
      AtOne(s, p);
      EndsAt(s, m, x.doc);
      MembersOne(lib, x, close, d);
    }
    MembersLength(members, close);
    MemberJoin(s, i, members, close);
  }

  /** The parts of a member stand one after the other. */
  ghost predicate MemberAt(s: Text, i: nat, m: Member) {
    var n := i + |m.before|;
    var b := n + |QuotedBy(m.quote, m.name)|;
    var c := b + |m.colonBefore|;
    var v := c + 1 + |m.colonAfter|;
    && At(s, i, m.before) && At(s, n, QuotedBy(m.quote, m.name)) && At(s, b, m.colonBefore)
    && At(s, c, [m.colon]) && At(s, c + 1, m.colonAfter) && At(s, v, Render(m.doc))
    && At(s, v + |Render(m.doc)|, m.after)
  }

  lemma FieldParts(lib: Library, s: Text, i: nat)
    requires FieldAt(lib, s, i).Ok?
    ensures var k := StringTail(lib, s, SkipWs(s, i) + 1);
            && k.Ok? && SkipWs(s, i) < |s| && k.next <= |s|
            && var v := ValueAt(lib, s, SkipWs(s, k.next) + 1);
               v.Ok? && SkipWs(s, k.next) < |s| && FieldAt(lib, s, i) == Ok((k.value, v.value), v.next)
  {
    hide ValueAt, StringTail;
    var k := StringTail(lib, s, SkipWs(s, i) + 1);
    PastEnd(lib, s, SkipWs(s, k.next) + 1);
  }

  lemma PastEnd(lib: Library, s: Text, i: nat)
    ensures i >= |s| ==> ValueAt(lib, s, i).Err?
  {
  }

  lemma {:induction false} ExplainField(lib: Library, s: Text, i: nat) returns (x: Member)
    requires !lib.number([]) && FieldAt(lib, s, i).Ok? && SkipWs(s, FieldAt(lib, s, i).next) < |s|
    ensures MemberFits(x) && ReadablePieces(lib, x.name) && Readable(lib, x.doc) && MemberAt(s, i, x)
    ensures SkipWs(s, i) < |s| && x.quote == s[SkipWs(s, i)]
    ensures var m := i + FieldLength(x);
            && FieldAt(lib, s, i) == Ok((PiecesValue(lib, x.name), Denote(lib, x.doc)), m)
            && m <= SkipWs(s, m) && x.after == s[m..SkipWs(s, m)] && (x.doc.DNumber? ==> Delimited(s, m))
    decreases Left(s, i), 0
  {
    hide ValueAt, SkipWs, At, Then, AllWs, Readable, Render, PiecesValue, ReadablePieces, PiecesText, Delimited;
    hide Denote, IsWs, FieldAt, StringTail, IsNumeric, QuotedBy, MemberFits, MemberAt;
    FieldParts(lib, s, i);
    var q := SkipWs(s, i);
    var name := ExplainString(lib, s, q + 1);
    var b := q + 2 + |PiecesText(name)|;
    var c := SkipWs(s, b);
    var doc := ExplainValue(lib, s, c + 1);
    var v := SkipWs(s, c + 1);
    var m := v + |Render(doc)|;
    QuotedAt(s, q, s[q], name);
    x := MemberFound(s, i, name, b, doc, m);
  }

  /** The member cut out of the text at the cursors found. */
  lemma MemberFound(s: Text, i: nat, name: seq<Piece>, b: nat, doc: Doc, m: nat) returns (x: Member)
    requires i <= |s| && SkipWs(s, i) < |s| && b <= |s| && SkipWs(s, b) < |s|
    requires At(s, SkipWs(s, i), QuotedBy(s[SkipWs(s, i)], name))
    requires b == SkipWs(s, i) + |QuotedBy(s[SkipWs(s, i)], name)|
    requires At(s, SkipWs(s, SkipWs(s, b) + 1), Render(doc)) && m <= |s|
    requires m == SkipWs(s, SkipWs(s, b) + 1) + |Render(doc)|
    ensures MemberFits(x) && MemberAt(s, i, x) && x.name == name && x.doc == doc && x.quote == s[SkipWs(s, i)]
    ensures i + FieldLength(x) == m && m <= SkipWs(s, m) <= |s| && x.after == s[m..SkipWs(s, m)]
  {
    hide SkipWs, At, AllWs, Render, QuotedBy, IsWs;
    var q, c := SkipWs(s, i), SkipWs(s, b);
    var v := SkipWs(s, c + 1);
    Skipped(s, i);
    Skipped(s, b);
    Skipped(s, c + 1);
    Skipped(s, m);
    x := Member(s[i..q], s[q], name, s[b..c], s[c], s[c + 1..v], doc, s[m..SkipWs(s, m)]);
    NotSkipped(s, i);
    NotSkipped(s, b);
    AtSlice(s, i, q);
    AtSlice(s, b, c);
    AtOne(s, c);
    AtSlice(s, c + 1, v);
    AtSlice(s, m, SkipWs(s, m));
  }

  lemma NotSkipped(s: Text, i: nat)
    requires SkipWs(s, i) < |s|
    ensures s[SkipWs(s, i)] !in BLANKS
  {
    WsIff(s[SkipWs(s, i)]);
  }

  lemma MemberJoin(s: Text, i: nat, members: seq<Member>, close: Unit)
    requires members != [] && MemberAt(s, i, members[0])
    requires At(s, i + FieldLength(members[0]) + |members[0].after|, AfterMember(members, close))
    ensures At(s, i, RenderMembers(members, close))
  {
    hide At, Then, Render, AfterMember, QuotedBy;
    var m, tail := members[0], AfterMember(members, close);
    var n := i + |m.before|;
    var b := n + |QuotedBy(m.quote, m.name)|;
    var c := b + |m.colonBefore|;
    var v := c + 1 + |m.colonAfter|;
    AtJoin(s, v + |Render(m.doc)|, m.after, tail);
    AtJoin(s, v, Render(m.doc), Then(m.after, tail));
    AtJoin(s, c + 1, m.colonAfter, Then(Render(m.doc), Then(m.after, tail)));
    AtJoin(s, c, [m.colon], AfterColon(members, close));
    AtJoin(s, b, m.colonBefore, Then([m.colon], AfterColon(members, close)));
    AtJoin(s, n, QuotedBy(m.quote, m.name), AfterName(members, close));
    AtJoin(s, i, m.before, Then(QuotedBy(m.quote, m.name), AfterName(members, close)));
  }

  lemma MembersCons(lib: Library, x: Member, more: seq<Member>, close: Unit, d: map<Text, Value>)
    requires MemberFits(x) && ReadablePieces(lib, x.name) && Readable(lib, x.doc)
    requires more != [] && ReadableMembers(lib, more) && MembersEnd(more, close)
    ensures var members := [x] + more;
            && ReadableMembers(lib, members) && MembersEnd(members, close)
            && DenoteMembers(lib, members, d)
               == DenoteMembers(lib, more, d[PiecesValue(lib, x.name) := Denote(lib, x.doc)])
            && AfterMember(members, close) == Then([COMMA], RenderMembers(more, close))
  {
    hide MemberFits, Readable, ReadablePieces, RenderMembers, Denote, PiecesValue, Ends;
    var members := [x] + more;
    assert members[0] == x && members[1..] == more && members[|members| - 1] == more[|more| - 1];
  }

  lemma MembersOne(lib: Library, x: Member, close: Unit, d: map<Text, Value>)
    requires MemberFits(x) && ReadablePieces(lib, x.name) && Readable(lib, x.doc) && Ends(x.doc, x.after, close)
    ensures ReadableMembers(lib, [x]) && MembersEnd([x], close) && AfterMember([x], close) == [close]
    ensures DenoteMembers(lib, [x], d) == d[PiecesValue(lib, x.name) := Denote(lib, x.doc)]
  {
    hide MemberFits, Readable, ReadablePieces, Denote, PiecesValue, Ends;
    assert [x][1..] == [];
  }

  /**
   * The reader takes exactly the renderings of trees, with whitespace around them, and gives back
   * their meaning; for every library that takes no empty token for a number.
   */
  lemma ReaderExact(lib: Library, s: Text, v: Value)
    requires !lib.number([])
    ensures Document(lib, s) == Ok(v, |s|) <==>
            exists before: Text, d: Doc, after: Text :: Spelled(lib, s, before, d, after) && Denote(lib, d) == v
  {
    hide ValueAt, Denote, Readable, Render, AllWs;
    if Document(lib, s) == Ok(v, |s|) {
      var before, d, after := ExplainDocument(lib, s);
      assert Spelled(lib, s, before, d, after) && Denote(lib, d) == v;
    }
    forall before: Text, d: Doc, after: Text | Spelled(lib, s, before, d, after)
      ensures Document(lib, s) == Ok(Denote(lib, d), |s|)
    {
      ReaderTakes(lib, s, before, d, after);
    }
  }

  lemma ExplainDocument(lib: Library, s: Text) returns (before: Text, d: Doc, after: Text)
    requires !lib.number([]) && Document(lib, s).Ok?
    ensures Spelled(lib, s, before, d, after) && Document(lib, s).value == Denote(lib, d)
  {
    hide ValueAt, SkipWs, AllWs, Readable, Denote, Render;
    var n := ValueAt(lib, s, 0).next;
    d := ExplainValue(lib, s, 0);
    var j := SkipWs(s, 0);
    Skipped(s, 0);
    Skipped(s, n);
    before, after := s[..j], s[n..];
    assert s[0..j] == s[..j] && s[n..|s|] == s[n..] && s[j..n] == Render(d);
    assert s == s[..j] + s[j..n] + s[n..];
  }

  // ---------- failures ----------

  /** Some run of number characters, or the four characters of some u escape, is refused. */
  ghost predicate Refused(lib: Library, s: Text) {
    || (exists a: nat, b: nat :: a <= b <= |s| && AllNumeric(s[a..b]) && !lib.number(s[a..b]))
    || (exists a: nat :: a + 6 <= |s| && s[a] == BACKSLASH && s[a + 1] == LETTER_U && lib.hex(s[a + 2..a + 6]).None?)
  }

  /** The text ends within the four digits of a u escape. */
  ghost predicate CutEscape(s: Text) {
    exists a: nat :: a + 2 <= |s| < a + 6 && s[a] == BACKSLASH && s[a + 1] == LETTER_U
  }

  ghost predicate Cause(lib: Library, s: Text, e: Error) {
    match e
    case Format => Refused(lib, s)
    case ArgumentOutOfRange => CutEscape(s)
    case IndexOutOfRange => true
  }

  lemma {:induction false} StringFailure(lib: Library, s: Text, i: nat)
    ensures StringTail(lib, s, i).Err? ==> Cause(lib, s, StringTail(lib, s, i).error)
    decreases Left(s, i)
  {
    if i < |s| && s[i] != QUOTE && s[i] != BACKSLASH {
      StringFailure(lib, s, i + 1);
    } else if i + 1 < |s| && s[i] == BACKSLASH && s[i + 1] != LETTER_U {
      StringFailure(lib, s, i + 2);
    } else if i + 1 < |s| && s[i] == BACKSLASH {
      if i + 6 <= |s| && lib.hex(s[i + 2..i + 6]).Some? { StringFailure(lib, s, i + 6); }
    }
  }

  /** A failing value blames a refused token or a cut escape that is in the text. */
  lemma {:induction false} ValueFailure(lib: Library, s: Text, i: nat)
    ensures ValueAt(lib, s, i).Err? ==> Cause(lib, s, ValueAt(lib, s, i).error)
    decreases Left(s, i), 2
  {
    hide Cause, ElementsAt, MembersAt, StringTail;
    IndexCause(lib, s);
    var j := SkipWs(s, i);
    if j < |s| && s[j] == OPEN_BRACE {
      if SkipWs(s, j + 1) < |s| { MembersFailure(lib, s, SkipWs(s, j + 1), map[]); }
    } else if j < |s| && s[j] == OPEN_BRACKET {
      if SkipWs(s, j + 1) < |s| { ElementsFailure(lib, s, SkipWs(s, j + 1), []); }
    } else if j < |s| && s[j] == QUOTE {
      StringFailure(lib, s, j + 1);
    } else if j < |s| && !lib.number(s[j..NumberEnd(s, j)]) {
      NumberFailure(lib, s, j);
    }
  }

  lemma IndexCause(lib: Library, s: Text)
    ensures Cause(lib, s, IndexOutOfRange)
  {
  }

  lemma NumberFailure(lib: Library, s: Text, j: nat)
    requires j < |s| && !lib.number(s[j..NumberEnd(s, j)])
    ensures Cause(lib, s, Format)
  {
    NumberRun(s, j);
  }

  lemma {:induction false} FieldFailure(lib: Library, s: Text, i: nat)
    ensures FieldAt(lib, s, i).Err? ==> Cause(lib, s, FieldAt(lib, s, i).error)
    decreases Left(s, i), 0
  {
    hide Cause, StringTail, ValueAt;
    StringFailure(lib, s, SkipWs(s, i) + 1);
    var k := StringTail(lib, s, SkipWs(s, i) + 1);
    if k.Ok? { ValueFailure(lib, s, SkipWs(s, k.next) + 1); }
  }

  lemma {:induction false} MembersFailure(lib: Library, s: Text, i: nat, d: map<Text, Value>)
    ensures MembersAt(lib, s, i, d).Err? ==> Cause(lib, s, MembersAt(lib, s, i, d).error)
    decreases Left(s, i), 1
  {
    hide Cause, FieldAt, SkipWs;
    IndexCause(lib, s);
    FieldFailure(lib, s, i);
    var f := FieldAt(lib, s, i);
    if f.Ok? && SkipWs(s, f.next) < |s| {
      MembersFailure(lib, s, SkipWs(s, f.next) + 1, d[f.value.0 := f.value.1]);
    }
  }

  lemma {:induction false} ElementsFailure(lib: Library, s: Text, i: nat, a: seq<Value>)
    ensures ElementsAt(lib, s, i, a).Err? ==> Cause(lib, s, ElementsAt(lib, s, i, a).error)
    decreases Left(s, i), 3
  {
    hide Cause, ValueAt, SkipWs;
    IndexCause(lib, s);
    ValueFailure(lib, s, i);
    var v := ValueAt(lib, s, i);
    if v.Ok? && SkipWs(s, v.next) < |s| {
      ElementsFailure(lib, s, SkipWs(s, v.next) + 1, a + [v.value]);
    }
  }

  /**
   * Why a text fails: an argument error comes from a u escape cut by the end of the text, and a format
   * error from a token that the library refuses or from something other than whitespace after the value.
   */
  lemma FailureHasCause(lib: Library, s: Text)
    requires Document(lib, s).Err?
    ensures Document(lib, s).error == ArgumentOutOfRange ==> CutEscape(s)
    ensures Document(lib, s).error == Format ==>
              Refused(lib, s) || (ValueAt(lib, s, 0).Ok? && SkipWs(s, ValueAt(lib, s, 0).next) != |s|)
  {
    ValueFailure(lib, s, 0);
  }

  /** Anything but whitespace after a complete document is a format error. */
  lemma TrailingContent(lib: Library, before: Text, d: Doc, after: Text, c: Unit, more: Text)
    requires Readable(lib, d) && AllWs(before) && AllWs(after) && c !in BLANKS
    requires d.DNumber? && after == [] ==> c !in NUMBER_CHARS
    ensures Document(lib, before + Render(d) + after + ([c] + more)) == Err(Format)
  {
    hide ValueAt, SkipWs, At, Then, Render, AllWs, Readable, Denote, IsWs, IsNumeric;
    var rest := [c] + more;
    var s := before + Render(d) + after + rest;
    FourParts(before, Render(d), after, rest);
    AtWhole(s);
    AtSplit(s, 0, before, Then(Render(d), Then(after, rest)));
    var j := |before|;
    AtSplit(s, j, Render(d), Then(after, rest));
    RenderStart(lib, d);
    AtUnit(s, j, Render(d));
    ValueAfterWs(lib, s, 0, before);
    WsIff(c);
    NumericIff(c);
    Separated(s, j + |Render(d)|, d, after, rest);
    ReadsDoc(lib, s, j, d);
  }

  lemma FourParts(a: Text, b: Text, c: Text, d: Text)
    ensures a + b + c + d == Then(a, Then(b, Then(c, d)))
  {
    assert a + b + c + d == a + (b + (c + d));
  }

  /** A text that starts with none of the characters a value starts with is a format error. */
  lemma StrayCharacter(lib: Library, before: Text, c: Unit, more: Text)
    requires !lib.number([]) && AllWs(before) && c !in BLANKS && c !in NUMBER_CHARS
    requires c !in {OPEN_BRACE, OPEN_BRACKET, QUOTE, LETTER_T, LETTER_F, LETTER_N}
    ensures Document(lib, before + ([c] + more)) == Err(Format)
  {
    hide SkipWs, At, Then, AllWs;
    var s := before + ([c] + more);
    assert s == Then(before, [c] + more) by { ThenIs(before, [c] + more); }
    AtWhole(s);
    AtSplit(s, 0, before, [c] + more);
    AtUnit(s, |before|, [c] + more);
    WsIff(c);
    NumericIff(c);
    SkipsWs(s, 0, before);
    var j := |before|;
    SkipTwice(lib, s, 0);
    assert NumberEnd(s, j) == j && s[j..j] == [];
    assert ValueAt(lib, s, j) == Err(Format);
  }

  lemma ThenIs(a: Text, b: Text)
    ensures Then(a, b) == a + b
  {
  }
}
