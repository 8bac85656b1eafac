/** The hand-written JSON reader and writer of the Unity client. */
module JsonReader {
  import opened Options

  /** UTF-16 code units, so that unpaired surrogates are texts too. */
  type Unit = c: int | 0 <= c < 0x1_0000
  type Text = seq<Unit>

  const QUOTE: Unit := 34
  const COMMA: Unit := 44
  const SLASH: Unit := 47
  const COLON: Unit := 58
  const OPEN_BRACKET: Unit := 91
  const BACKSLASH: Unit := 92
  const CLOSE_BRACKET: Unit := 93
  const LETTER_F: Unit := 102
  const LETTER_N: Unit := 110
  const LETTER_T: Unit := 116
  const LETTER_U: Unit := 117
  const OPEN_BRACE: Unit := 123
  const CLOSE_BRACE: Unit := 125

  datatype Value =
    | Null
    | Bool(b: bool)
    | Number(token: Text)
    | String(text: Text)
    | Array(items: seq<Value>)
    | Object(fields: map<Text, Value>)

  /** The exceptions of the source: a bad index, a bad substring, a bad number or trailing content. */
  datatype Error = IndexOutOfRange | ArgumentOutOfRange | Format

  /** A value and the cursor after it. */
  datatype Parsed<+T> = Ok(value: T, next: nat) | Err(error: Error)

  /** int.Parse on four characters with NumberStyles.HexNumber, and whether double.Parse accepts. */
  datatype Library = Library(hex: Text -> Option<Unit>, number: Text -> bool)

  predicate IsWs(c: Unit) {
    c == 32 || c == 9 || c == 10 || c == 13
  }

  /** The characters "+-0123456789.eE". */
  predicate IsNumeric(c: Unit) {
    c == 43 || c == 45 || 48 <= c <= 57 || c == 46 || c == 101 || c == 69
  }

  /** What a backslash followed by this character stands for (the u form aside). */
  function Unescape(e: Unit): Unit {
    match e
    case 98 => 8
    case 102 => 12
    case 110 => 10
    case 114 => 13
    case 116 => 9
    case _ => e
  }

  // ---------- specification ----------

  function SkipWs(s: Text, i: nat): (r: nat)
    ensures i <= r && (i <= |s| ==> r <= |s|)
    ensures r < |s| ==> !IsWs(s[r])
    decreases |s| - i
  {
    if i < |s| && IsWs(s[i]) then SkipWs(s, i + 1) else i
  }

  /** Characters left, never negative: the cursor may already be past the end. */
  function Left(s: Text, i: nat): nat {
    if i < |s| then |s| - i else 0
  }

  function Prepend(c: Unit, r: Parsed<Text>): Parsed<Text> {
    match r
    case Ok(t, n) => Ok([c] + t, n)
    case Err(e) => Err(e)
  }

  /** The rest of a string literal, from just after its opening quote. */
  function StringTail(lib: Library, s: Text, i: nat): (r: Parsed<Text>)
    ensures r.Ok? ==> i < r.next <= |s|
    decreases Left(s, i)
  {
    if i >= |s| then Err(IndexOutOfRange)
    else if s[i] == QUOTE then Ok([], i + 1)
    else if s[i] != BACKSLASH then Prepend(s[i], StringTail(lib, s, i + 1))
    else if i + 1 >= |s| then Err(IndexOutOfRange)
    else if s[i + 1] != LETTER_U then Prepend(Unescape(s[i + 1]), StringTail(lib, s, i + 2))
    else if i + 6 > |s| then Err(ArgumentOutOfRange)
    else match lib.hex(s[i + 2..i + 6])
      case None => Err(Format)
      case Some(c) => Prepend(c, StringTail(lib, s, i + 6))
  }

  function NumberEnd(s: Text, i: nat): (r: nat)
    ensures i <= r && (i <= |s| ==> r <= |s|)
    decreases |s| - i
  {
    if i < |s| && IsNumeric(s[i]) then NumberEnd(s, i + 1) else i
  }

  function ValueAt(lib: Library, s: Text, i: nat): (r: Parsed<Value>)
    ensures r.Ok? ==> i <= r.next
    decreases Left(s, i), 2
  {
    var j := SkipWs(s, i);
    if j >= |s| then Err(IndexOutOfRange)
    else match s[j]
      case 123 =>
        var k := SkipWs(s, j + 1);
        if k >= |s| then Err(IndexOutOfRange)
        else if s[k] == CLOSE_BRACE then Ok(Object(map[]), k + 1)
        else MembersAt(lib, s, k, map[])
      case 91 =>
        var k := SkipWs(s, j + 1);
        if k >= |s| then Err(IndexOutOfRange)
        else if s[k] == CLOSE_BRACKET then Ok(Array([]), k + 1)
        else ElementsAt(lib, s, k, [])
      case 34 =>
        (match StringTail(lib, s, j + 1)
         case Ok(t, n) => Ok(String(t), n)
         case Err(e) => Err(e))
      case 116 => Ok(Bool(true), j + 4)
      case 102 => Ok(Bool(false), j + 5)
      case 110 => Ok(Null, j + 4)
      case _ =>
        var token := s[j..NumberEnd(s, j)];
        if lib.number(token) then Ok(Number(token), NumberEnd(s, j)) else Err(Format)
  }

  /** A name, whatever stands where the colon should be, and a value. */
  function FieldAt(lib: Library, s: Text, i: nat): (r: Parsed<(Text, Value)>)
    ensures r.Ok? ==> i < r.next && i < |s|
    decreases Left(s, i), 0
  {
    match StringTail(lib, s, SkipWs(s, i) + 1)
    case Err(e) => Err(e)
    case Ok(k, n) =>
      match ValueAt(lib, s, SkipWs(s, n) + 1)
      case Err(e) => Err(e)
      case Ok(v, m) => Ok((k, v), m)
  }

  function MembersAt(lib: Library, s: Text, i: nat, d: map<Text, Value>): (r: Parsed<Value>)
    ensures r.Ok? ==> i <= r.next
    decreases Left(s, i), 1
  {
    match FieldAt(lib, s, i)
    case Err(e) => Err(e)
    case Ok(kv, m) =>
      var p := SkipWs(s, m);
      if p >= |s| then Err(IndexOutOfRange)
      else if s[p] == COMMA then MembersAt(lib, s, p + 1, d[kv.0 := kv.1])
      else Ok(Object(d[kv.0 := kv.1]), p + 1)
  }

  function ElementsAt(lib: Library, s: Text, i: nat, a: seq<Value>): (r: Parsed<Value>)
    ensures r.Ok? ==> i <= r.next
    decreases Left(s, i), 3
  {
    match ValueAt(lib, s, i)
    case Err(e) => Err(e)
    case Ok(v, m) =>
      var p := SkipWs(s, m);
      if p >= |s| then Err(IndexOutOfRange)
      else if s[p] == COMMA then ElementsAt(lib, s, p + 1, a + [v])
      else Ok(Array(a + [v]), p + 1)
  }

  /** A bracket or brace followed by something other than its closer enters the element loop. */
  lemma EntersLoop(lib: Library, s: Text, i: nat)
    requires i < |s| && SkipWs(s, i + 1) < |s|
    ensures var k := SkipWs(s, i + 1);
            && (s[i] == OPEN_BRACKET && s[k] != CLOSE_BRACKET ==> ValueAt(lib, s, i) == ElementsAt(lib, s, k, []))
            && (s[i] == OPEN_BRACE && s[k] != CLOSE_BRACE ==> ValueAt(lib, s, i) == MembersAt(lib, s, k, map[]))
  {
  }

  lemma EmptyBody(lib: Library, s: Text, i: nat)
    requires i < |s| && (s[i] == OPEN_BRACE || s[i] == OPEN_BRACKET)
    ensures var k := SkipWs(s, i + 1);
            && (k >= |s| ==> ValueAt(lib, s, i) == Err(IndexOutOfRange))
            && (k < |s| && s[i] == OPEN_BRACE && s[k] == CLOSE_BRACE ==> ValueAt(lib, s, i) == Ok(Object(map[]), k + 1))
            && (k < |s| && s[i] == OPEN_BRACKET && s[k] == CLOSE_BRACKET ==> ValueAt(lib, s, i) == Ok(Array([]), k + 1))
  {
  }

  lemma ElementsFail(lib: Library, s: Text, i: nat, a: seq<Value>)
    ensures ValueAt(lib, s, i).Err? ==> ElementsAt(lib, s, i, a) == Err(ValueAt(lib, s, i).error)
  {
  }

  lemma MembersFail(lib: Library, s: Text, i: nat, d: map<Text, Value>)
    ensures FieldAt(lib, s, i).Err? ==> MembersAt(lib, s, i, d) == Err(FieldAt(lib, s, i).error)
  {
  }

  lemma ElementsStep(lib: Library, s: Text, i: nat, a: seq<Value>, v: Value, m: nat)
    requires ValueAt(lib, s, i) == Ok(v, m)
    ensures var p := SkipWs(s, m);
            ElementsAt(lib, s, i, a) ==
              if p >= |s| then Err(IndexOutOfRange)
              else if s[p] == COMMA then ElementsAt(lib, s, p + 1, a + [v])
              else Ok(Array(a + [v]), p + 1)
  {
  }

  lemma MembersStep(lib: Library, s: Text, i: nat, d: map<Text, Value>, k: Text, v: Value, m: nat)
    requires FieldAt(lib, s, i) == Ok((k, v), m)
    ensures var p := SkipWs(s, m);
            MembersAt(lib, s, i, d) ==
              if p >= |s| then Err(IndexOutOfRange)
              else if s[p] == COMMA then MembersAt(lib, s, p + 1, d[k := v])
              else Ok(Object(d[k := v]), p + 1)
  {
  }

  function Document(lib: Library, s: Text): Parsed<Value> {
    match ValueAt(lib, s, 0)
    case Err(e) => Err(e)
    case Ok(v, n) => if SkipWs(s, n) != |s| then Err(Format) else Ok(v, |s|)
  }

  // ---------- the reader ----------

  method Parse(lib: Library, s: Text) returns (r: Parsed<Value>)
    ensures r == Document(lib, s)
  {
    r := ParseValue(lib, s, 0);
    if r.Ok? {
      var i := SkipWhitespace(s, r.next);
      r := if i != |s| then Err(Format) else Ok(r.value, i);
    }
  }

  method SkipWhitespace(s: Text, start: nat) returns (i: nat)
    ensures i == SkipWs(s, start)
  {
    i := start;
    while i < |s| && IsWs(s[i])
      invariant start <= i && SkipWs(s, i) == SkipWs(s, start)
    {
      i := i + 1;
    }
  }

  method ParseValue(lib: Library, s: Text, start: nat) returns (r: Parsed<Value>)
    ensures r == ValueAt(lib, s, start)
    decreases Left(s, start), 2
  {
    var i := SkipWhitespace(s, start);
    if i >= |s| { return Err(IndexOutOfRange); }
    match s[i]
    case 123 => r := ParseObject(lib, s, i);
    case 91 => r := ParseArray(lib, s, i);
    case 34 =>
      var t := ParseString(lib, s, i);
      r := match t case Ok(text, n) => Ok(String(text), n) case Err(e) => Err(e);
    case 116 => r := Ok(Bool(true), i + 4);
    case 102 => r := Ok(Bool(false), i + 5);
    case 110 => r := Ok(Null, i + 4);
    case _ => r := ParseNumber(lib, s, i);
  }

  method ParseObject(lib: Library, s: Text, start: nat) returns (r: Parsed<Value>)
    requires start < |s| && s[start] == OPEN_BRACE
    ensures r == ValueAt(lib, s, start)
    decreases Left(s, start), 1
  {
    hide ValueAt, MembersAt, FieldAt, SkipWs;
    var d: map<Text, Value> := map[];
    var i := SkipWhitespace(s, start + 1);
    EmptyBody(lib, s, start);
    if i >= |s| { return Err(IndexOutOfRange); }
    if s[i] == CLOSE_BRACE { return Ok(Object(d), i + 1); }
    EntersLoop(lib, s, start);
    while true
      invariant start < i && MembersAt(lib, s, i, d) == ValueAt(lib, s, start)
      decreases Left(s, i)
    {
      MembersFail(lib, s, i, d);
      var field := ParseField(lib, s, i);
      if field.Err? { return Err(field.error); }
      MembersStep(lib, s, i, d, field.value.0, field.value.1, field.next);
      d := d[field.value.0 := field.value.1];
      var m := SkipWhitespace(s, field.next);
      if m >= |s| { return Err(IndexOutOfRange); }
      i := m + 1;
      if s[m] == COMMA { continue; }
      break;
    }
    r := Ok(Object(d), i);
  }

  /** The part of the object loop that reads one name and its value. */
  method ParseField(lib: Library, s: Text, start: nat) returns (r: Parsed<(Text, Value)>)
    ensures r == FieldAt(lib, s, start)
    decreases Left(s, start), 0
  {
    hide ValueAt, StringTail;
    var i := SkipWhitespace(s, start);
    var k := ParseString(lib, s, i);
    if k.Err? { return Err(k.error); }
    i := SkipWhitespace(s, k.next);
    i := i + 1;
    var v := ParseValue(lib, s, i);
    if v.Err? { return Err(v.error); }
    r := Ok((k.value, v.value), v.next);
  }

  method ParseArray(lib: Library, s: Text, start: nat) returns (r: Parsed<Value>)
    requires start < |s| && s[start] == OPEN_BRACKET
    ensures r == ValueAt(lib, s, start)
    decreases Left(s, start), 1
  {
    hide ValueAt, ElementsAt, StringTail, SkipWs;
    var a: seq<Value> := [];
    var i := SkipWhitespace(s, start + 1);
    EmptyBody(lib, s, start);
    if i >= |s| { return Err(IndexOutOfRange); }
    if s[i] == CLOSE_BRACKET { return Ok(Array(a), i + 1); }
    EntersLoop(lib, s, start);
    while true
      invariant start < i && ElementsAt(lib, s, i, a) == ValueAt(lib, s, start)
      decreases Left(s, i)
    {
      ElementsFail(lib, s, i, a);
      var v := ParseValue(lib, s, i);
      if v.Err? { return v; }
      ElementsStep(lib, s, i, a, v.value, v.next);
      a := a + [v.value];
      var m := SkipWhitespace(s, v.next);
      if m >= |s| { return Err(IndexOutOfRange); }
      i := m + 1;
      if s[m] == COMMA { continue; }
      break;
    }
    r := Ok(Array(a), i);
  }

  /** Takes the opening quote on trust, like the source. */
  method ParseString(lib: Library, s: Text, start: nat) returns (r: Parsed<Text>)
    ensures r == StringTail(lib, s, start + 1)
  {
    var sb: Text := [];
    var i := start + 1;
    PrependNil(StringTail(lib, s, i));
    while true
      invariant start < i && StringTail(lib, s, start + 1) == PrependAll(sb, StringTail(lib, s, i))
      decreases Left(s, i)
    {
      if i >= |s| { return Err(IndexOutOfRange); }
      var c := s[i];
      i := i + 1;
      if c == QUOTE {
        assert sb + [] == sb;
        break;
      }
      var out := c;
      if c == BACKSLASH {
        if i >= |s| { return Err(IndexOutOfRange); }
        var e := s[i];
        i := i + 1;
        if e == LETTER_U {
          if i + 4 > |s| { return Err(ArgumentOutOfRange); }
          var h := lib.hex(s[i..i + 4]);
          if h.None? { return Err(Format); }
          out := h.value;
          i := i + 4;
        } else {
          out := Unescape(e);
        }
      }
      PrependSnoc(sb, out, StringTail(lib, s, i));
      sb := sb + [out];
    }
    r := Ok(sb, i);
  }

  function PrependAll(t: Text, r: Parsed<Text>): Parsed<Text> {
    match r
    case Ok(u, n) => Ok(t + u, n)
    case Err(e) => Err(e)
  }

  lemma PrependNil(r: Parsed<Text>)
    ensures PrependAll([], r) == r
  {
    if r.Ok? { assert [] + r.value == r.value; }
  }

  lemma PrependSnoc(t: Text, c: Unit, r: Parsed<Text>)
    ensures PrependAll(t, Prepend(c, r)) == PrependAll(t + [c], r)
  {
    if r.Ok? { assert t + ([c] + r.value) == t + [c] + r.value; }
  }

  method ParseNumber(lib: Library, s: Text, start: nat) returns (r: Parsed<Value>)
    requires start < |s| && !IsWs(s[start]) && s[start] !in {123, 91, 34, 116, 102, 110}
    ensures r == ValueAt(lib, s, start)
  {
    var i := start;
    while i < |s| && IsNumeric(s[i])
      invariant start <= i <= |s| && NumberEnd(s, i) == NumberEnd(s, start)
    {
      i := i + 1;
    }
    var token := s[start..i];
    r := if lib.number(token) then Ok(Number(token), i) else Err(Format);
  }
}
