/**
 * The sorted-key JSON printer of src/core/approval-contract.js, and a reader that undoes it. Strings are
 * escaped as in section 7 of RFC 8259, with lone surrogates escaped as well-formed JSON.stringify does.
 */
module CanonicalJson {
  import opened Common
  import JsNumber
  import Sorting

  /** A JavaScript value made of JSON data; an object lists its own keys in creation order. */
  datatype Json =
    | Null
    | Bool(b: bool)
    | Num(n: JsNumber.Number)
    | Str(s: Text)
    | Arr(items: seq<Json>)
    | Obj(fields: seq<Field>)

  datatype Field = Field(key: Text, value: Json)

  function FieldKey(f: Field): Text { f.key }

  predicate UniqueKeys(fields: seq<Field>) {
    forall i, j | 0 <= i < j < |fields| :: fields[i].key != fields[j].key
  }

  /** What the language guarantees of a value: finite numbers, and no key twice in one object. */
  predicate WellFormed(v: Json) {
    match v
    case Num(n) => JsNumber.Valid(n)
    case Arr(items) => forall item <- items :: WellFormed(item)
    case Obj(fields) => UniqueKeys(fields) && forall f <- fields :: WellFormed(f.value)
    case _ => true
  }

  const QUOTE: CodeUnit := 34
  const COMMA: CodeUnit := 44
  const COLON: CodeUnit := 58
  const LBRACKET: CodeUnit := 91
  const BACKSLASH: CodeUnit := 92
  const RBRACKET: CodeUnit := 93
  const LBRACE: CodeUnit := 123
  const RBRACE: CodeUnit := 125

  const NULL_TEXT: Text := [110, 117, 108, 108]
  const TRUE_TEXT: Text := [116, 114, 117, 101]
  const FALSE_TEXT: Text := [102, 97, 108, 115, 101]

  // ------------------------------------------------------------- strings

  predicate IsLead(u: CodeUnit) { 0xD800 <= u <= 0xDBFF }

  predicate IsTrail(u: CodeUnit) { 0xDC00 <= u <= 0xDFFF }

  function HexDigit(d: int): CodeUnit
    requires 0 <= d < 16
  {
    if d < 10 then (48 + d) as CodeUnit else (87 + d) as CodeUnit
  }

  function HexValue(u: CodeUnit): Option<int> {
    if 48 <= u <= 57 then Some(u as int - 48)
    else if 97 <= u <= 102 then Some(u as int - 87)
    else None
  }

  function UnicodeEscape(u: CodeUnit): Text {
    var x := u as int;
    var x1 := x / 16;
    var x2 := x1 / 16;
    var x3 := x2 / 16;
    [BACKSLASH, 117, HexDigit(x3), HexDigit(x2 % 16), HexDigit(x1 % 16), HexDigit(x % 16)]
  }

  function EscapeUnit(u: CodeUnit): Text {
    if u == 8 then [BACKSLASH, 98]
    else if u == 9 then [BACKSLASH, 116]
    else if u == 10 then [BACKSLASH, 110]
    else if u == 12 then [BACKSLASH, 102]
    else if u == 13 then [BACKSLASH, 114]
    else if u == QUOTE || u == BACKSLASH then [BACKSLASH, u]
    else if u < 0x20 || IsLead(u) || IsTrail(u) then UnicodeEscape(u)
    else [u]
  }

  function Escape(s: Text): Text {
    if s == [] then []
    else if StartsPair(s) then s[..2] + Escape(s[2..])
    else EscapeUnit(s[0]) + Escape(s[1..])
  }

  function Quote(s: Text): Text {
    [QUOTE] + (Escape(s) + [QUOTE])
  }

  function ReadHex(s: Text): Option<CodeUnit>
    requires |s| == 4
  {
    match (HexValue(s[0]), HexValue(s[1]), HexValue(s[2]), HexValue(s[3]))
    case (Some(a), Some(b), Some(c), Some(d)) =>
      var x := a * 4096 + b * 256 + c * 16 + d;
      if 0 <= x < 0x1_0000 then Some(x as CodeUnit) else None
    case _ => None
  }

  /** One character of a string body, and how many units it took. */
  function ReadUnit(s: Text): Option<(CodeUnit, nat)>
    requires s != [] && s[0] != QUOTE
    ensures ReadUnit(s).Some? ==> 1 <= ReadUnit(s).value.1 <= |s|
  {
    if s[0] != BACKSLASH then Some((s[0], 1))
    else if |s| < 2 then None
    else if s[1] == 98 then Some((8, 2))
    else if s[1] == 116 then Some((9, 2))
    else if s[1] == 110 then Some((10, 2))
    else if s[1] == 102 then Some((12, 2))
    else if s[1] == 114 then Some((13, 2))
    else if s[1] == QUOTE || s[1] == BACKSLASH then Some((s[1], 2))
    else if s[1] == 117 && |s| >= 6 then
      match ReadHex(s[2..6])
      case Some(u) => Some((u, 6))
      case None => None
    else None
  }

  /** The body of a string up to its closing quote, and what follows. */
  function ReadString(s: Text): (r: Option<(Text, Text)>)
    ensures r.Some? ==> |r.value.1| < |s|
  {
    if s == [] then None
    else if s[0] == QUOTE then Some(([], s[1..]))
    else
      match ReadUnit(s)
      case None => None
      case Some((u, n)) =>
        match ReadString(s[n..])
        case None => None
        case Some((body, rest)) => Some(([u] + body, rest))
  }

  lemma HexRoundTrip(u: CodeUnit)
    ensures ReadHex(UnicodeEscape(u)[2..6]) == Some(u)
  {
    var x := u as int;
    var x1 := x / 16;
    var x2 := x1 / 16;
    var t := UnicodeEscape(u)[2..6];
    assert HexValue(t[0]) == Some(x2 / 16) && HexValue(t[1]) == Some(x2 % 16);
    assert HexValue(t[2]) == Some(x1 % 16) && HexValue(t[3]) == Some(x % 16);
  }

  lemma ReadEscapedUnit(u: CodeUnit, tail: Text)
    ensures var s := EscapeUnit(u) + tail;
            && s[0] != QUOTE && ReadUnit(s) == Some((u, |EscapeUnit(u)|))
            && s[|EscapeUnit(u)|..] == tail
  {
    var s := EscapeUnit(u) + tail;
    HexRoundTrip(u);
    if u != 8 && u != 9 && u != 10 && u != 12 && u != 13 && u != QUOTE && u != BACKSLASH
       && (u < 0x20 || IsLead(u) || IsTrail(u)) {
      assert s[2..6] == UnicodeEscape(u)[2..6];
    }
  }

  lemma ReadOneUnit(u: CodeUnit, more: Text, body: Text, rest: Text)
    requires ReadString(more) == Some((body, rest))
    ensures ReadString(EscapeUnit(u) + more) == Some(([u] + body, rest))
  {
    ReadEscapedUnit(u, more);
  }

  lemma ReadRawPair(a: CodeUnit, b: CodeUnit, more: Text, body: Text, rest: Text)
    requires IsLead(a) && IsTrail(b) && ReadString(more) == Some((body, rest))
    ensures ReadString([a, b] + more) == Some(([a, b] + body, rest))
  {
    var t := [a, b] + more;
    assert t[1..] == [b] + more;
    assert t[1..][1..] == more;
    assert ReadString(t[1..]) == Some(([b] + body, rest));
    assert [a] + ([b] + body) == [a, b] + body;
  }

  predicate StartsPair(s: Text) {
    |s| > 1 && IsLead(s[0]) && IsTrail(s[1])
  }

  lemma EscapeStep(s: Text, tail: Text)
    requires s != []
    ensures StartsPair(s) ==> Escape(s) + tail == [s[0], s[1]] + (Escape(s[2..]) + tail)
    ensures !StartsPair(s) ==> Escape(s) + tail == EscapeUnit(s[0]) + (Escape(s[1..]) + tail)
  {
    if StartsPair(s) {
      assert s[..2] == [s[0], s[1]];
      Associates(s[..2], Escape(s[2..]), tail);
    } else {
      Associates(EscapeUnit(s[0]), Escape(s[1..]), tail);
    }
  }

  /** Reading back `head` in front of `more` adds `units` to whatever `more` reads as. */
  lemma ReadStep(s: Text, more: Text, body: Text, rest: Text)
    requires s != [] && ReadString(more) == Some((body, rest))
    ensures StartsPair(s) ==> ReadString([s[0], s[1]] + more) == Some(([s[0], s[1]] + body, rest))
    ensures !StartsPair(s) ==> ReadString(EscapeUnit(s[0]) + more) == Some(([s[0]] + body, rest))
  {
    if StartsPair(s) {
      ReadRawPair(s[0], s[1], more, body, rest);
    } else {
      ReadOneUnit(s[0], more, body, rest);
    }
  }

  lemma {:induction false} ReadUndoesEscape(s: Text, rest: Text)
    ensures ReadString(Escape(s) + ([QUOTE] + rest)) == Some((s, rest))
    decreases |s|
  {
    hide ReadString, Escape, EscapeUnit;
    var tail := [QUOTE] + rest;
    if s == [] {
      ReadEmptyString(rest);
    } else {
      var tail' := if StartsPair(s) then s[2..] else s[1..];
      ReadUndoesEscape(tail', rest);
      EscapeStep(s, tail);
      ReadStep(s, Escape(tail') + tail, tail', rest);
      assert s == (if StartsPair(s) then [s[0], s[1]] else [s[0]]) + tail';
    }
  }

  lemma ReadEmptyString(rest: Text)
    ensures ReadString(Escape([]) + ([QUOTE] + rest)) == Some(([], rest))
  {
    assert Escape([]) + ([QUOTE] + rest) == [QUOTE] + rest;
    assert ([QUOTE] + rest)[1..] == rest;
  }

  // ------------------------------------------------------------ printing

  /** One `"key":value` piece of an object, with the key it is sorted by. */
  datatype Piece = Piece(key: Text, text: Text)

  function PieceKey(p: Piece): Text { p.key }

  /** Array.prototype.join with the separator ",". */
  function Joined(parts: seq<Text>): Text {
    if |parts| == 0 then []
    else if |parts| == 1 then parts[0]
    else parts[0] + ([COMMA] + Joined(parts[1..]))
  }

  function PieceTexts(pieces: seq<Piece>): (r: seq<Text>)
    ensures |r| == |pieces| && forall i | 0 <= i < |r| :: r[i] == pieces[i].text
  {
    seq(|pieces|, i requires 0 <= i < |pieces| => pieces[i].text)
  }

  function PrintNumber(n: JsNumber.Number): Text {
    if JsNumber.Valid(n) then JsNumber.Print(n) else []
  }

  function Print(v: Json): Text {
    match v
    case Null => NULL_TEXT
    case Bool(b) => if b then TRUE_TEXT else FALSE_TEXT
    case Num(n) => PrintNumber(n)
    case Str(s) => Quote(s)
    case Arr(items) => [LBRACKET] + (Joined(PrintItems(items)) + [RBRACKET])
    case Obj(fields) =>
      var pieces := Sorting.Sort(PrintFields(fields), PieceKey);
      [LBRACE] + (Joined(PieceTexts(pieces)) + [RBRACE])
  }

  function PrintItems(items: seq<Json>): (r: seq<Text>)
    ensures |r| == |items| && forall i | 0 <= i < |r| :: r[i] == Print(items[i])
  {
    if items == [] then [] else [Print(items[0])] + PrintItems(items[1..])
  }

  function PrintFields(fields: seq<Field>): (r: seq<Piece>)
    ensures |r| == |fields|
    ensures forall i | 0 <= i < |r| ::
              r[i] == Piece(fields[i].key, Quote(fields[i].key) + ([COLON] + Print(fields[i].value)))
  {
    if fields == [] then []
    else
      [Piece(fields[0].key, Quote(fields[0].key) + ([COLON] + Print(fields[0].value)))] + PrintFields(fields[1..])
  }

  function PrintField(f: Field): Piece {
    Piece(f.key, Quote(f.key) + ([COLON] + Print(f.value)))
  }

  /** Sorting the printed pieces prints the fields sorted by key. */
  lemma SortedPieces(fields: seq<Field>)
    ensures Sorting.Sort(PrintFields(fields), PieceKey) == PrintFields(Sorting.Sort(fields, FieldKey))
  {
    Sorting.SortCommutes(fields, PrintFields(fields), PrintField, FieldKey, PieceKey);
  }

  // ------------------------------------------------------- canonical form

  /** Keys sorted everywhere, and no negative zero. */
  function Canon(v: Json): Json {
    match v
    case Num(n) => if n.NegativeZero? then Num(JsNumber.PositiveZero) else v
    case Arr(items) => Arr(CanonItems(items))
    case Obj(fields) => Obj(Sorting.Sort(CanonFields(fields), FieldKey))
    case _ => v
  }

  function CanonItems(items: seq<Json>): (r: seq<Json>)
    ensures |r| == |items| && forall i | 0 <= i < |r| :: r[i] == Canon(items[i])
  {
    if items == [] then [] else [Canon(items[0])] + CanonItems(items[1..])
  }

  function CanonFields(fields: seq<Field>): (r: seq<Field>)
    ensures |r| == |fields|
    ensures forall i | 0 <= i < |r| :: r[i] == Field(fields[i].key, Canon(fields[i].value))
  {
    if fields == [] then [] else [Field(fields[0].key, Canon(fields[0].value))] + CanonFields(fields[1..])
  }

  function CanonField(f: Field): Field { Field(f.key, Canon(f.value)) }

  lemma SortedCanon(fields: seq<Field>)
    ensures Sorting.Sort(CanonFields(fields), FieldKey) == CanonFields(Sorting.Sort(fields, FieldKey))
  {
    Sorting.SortCommutes(fields, CanonFields(fields), CanonField, FieldKey, FieldKey);
  }

  // ------------------------------------------------------------- reading

  function ReadLiteral(s: Text, literal: Text, v: Json): Option<(Json, Text)> {
    if literal <= s then Some((v, s[|literal|..])) else None
  }

  function ReadNumber(s: Text): (r: Option<(Json, Text)>)
    ensures r.Some? ==> |r.value.1| < |s|
  {
    match JsNumber.ReadDecimal(s)
    case None => None
    case Some((d, rest)) => Some((Num(JsNumber.ToNumber(d)), rest))
  }

  function ReadValue(s: Text): (r: Option<(Json, Text)>)
    ensures r.Some? ==> |r.value.1| < |s|
    decreases |s|, 1
  {
    if s == [] then None
    else if s[0] == 110 then ReadLiteral(s, NULL_TEXT, Null)
    else if s[0] == 116 then ReadLiteral(s, TRUE_TEXT, Bool(true))
    else if s[0] == 102 then ReadLiteral(s, FALSE_TEXT, Bool(false))
    else if s[0] == QUOTE then
      match ReadString(s[1..])
      case None => None
      case Some((body, rest)) => Some((Str(body), rest))
    else if s[0] == LBRACKET then
      if JsNumber.Starts(s[1..], RBRACKET) then Some((Arr([]), s[2..]))
      else
        match ReadItems(s[1..])
        case None => None
        case Some((items, rest)) => Some((Arr(items), rest))
    else if s[0] == LBRACE then
      if JsNumber.Starts(s[1..], RBRACE) then Some((Obj([]), s[2..]))
      else
        match ReadFields(s[1..])
        case None => None
        case Some((fields, rest)) => Some((Obj(fields), rest))
    else ReadNumber(s)
  }

  function ReadItems(s: Text): (r: Option<(seq<Json>, Text)>)
    ensures r.Some? ==> |r.value.1| < |s|
    decreases |s|, 2
  {
    match ReadValue(s)
    case None => None
    case Some((v, rest)) =>
      if JsNumber.Starts(rest, RBRACKET) then Some(([v], rest[1..]))
      else if JsNumber.Starts(rest, COMMA) then
        match ReadItems(rest[1..])
        case None => None
        case Some((vs, rest')) => Some(([v] + vs, rest'))
      else None
  }

  function ReadField(s: Text): (r: Option<(Field, Text)>)
    ensures r.Some? ==> |r.value.1| < |s|
    decreases |s|, 2
  {
    if !JsNumber.Starts(s, QUOTE) then None
    else
      match ReadString(s[1..])
      case None => None
      case Some((key, rest)) =>
        if !JsNumber.Starts(rest, COLON) then None
        else
          match ReadValue(rest[1..])
          case None => None
          case Some((v, rest')) => Some((Field(key, v), rest'))
  }

  function ReadFields(s: Text): (r: Option<(seq<Field>, Text)>)
    ensures r.Some? ==> |r.value.1| < |s|
    decreases |s|, 3
  {
    match ReadField(s)
    case None => None
    case Some((f, rest)) =>
      if JsNumber.Starts(rest, RBRACE) then Some(([f], rest[1..]))
      else if JsNumber.Starts(rest, COMMA) then
        match ReadFields(rest[1..])
        case None => None
        case Some((fs, rest')) => Some(([f] + fs, rest'))
      else None
  }

  // ---------------------------------------------------------- round trip

  lemma FirstUnit(v: Json)
    requires WellFormed(v)
    ensures Print(v) != []
    ensures Print(v)[0] != RBRACKET && Print(v)[0] != RBRACE
    ensures v.Num? ==> JsNumber.IsDigit(Print(v)[0]) || Print(v)[0] == JsNumber.MINUS
  {
    if v.Num? { JsNumber.PrintStart(v.n); }
  }

  lemma ReadUndoesQuote(s: Text, rest: Text)
    ensures Quote(s) + rest == [QUOTE] + (Escape(s) + ([QUOTE] + rest))
    ensures (Quote(s) + rest)[1..] == Escape(s) + ([QUOTE] + rest)
    ensures ReadString((Quote(s) + rest)[1..]) == Some((s, rest))
  {
    ReadUndoesEscape(s, rest);
    var t := Escape(s) + ([QUOTE] + rest);
    assert Quote(s) + rest == [QUOTE] + t;
  }

  lemma ReadUndoesNumber(n: JsNumber.Number, rest: Text)
    requires JsNumber.Valid(n) && JsNumber.EndsNumber(rest)
    ensures ReadValue(JsNumber.Print(n) + rest) == Some((Canon(Num(n)), rest))
  {
    JsNumber.ReadUndoesPrint(n, rest);
    JsNumber.PrintStart(n);
    var s := JsNumber.Print(n) + rest;
    assert s[0] == JsNumber.Print(n)[0];
    NumberDispatch(s);
  }

  lemma NumberDispatch(s: Text)
    requires s != [] && (JsNumber.IsDigit(s[0]) || s[0] == JsNumber.MINUS)
    ensures ReadValue(s) == ReadNumber(s)
  {
    hide ReadNumber, ReadLiteral, ReadString, ReadItems, ReadFields;
  }

  /**
   * The reader gives back the canonical form of whatever was printed, and stops exactly where it ended:
   * no printed value is a proper prefix of another one's text inside a document.
   */
  lemma {:induction false} ReadUndoesPrint(v: Json, rest: Text)
    requires WellFormed(v) && JsNumber.EndsNumber(rest)
    ensures ReadValue(Print(v) + rest) == Some((Canon(v), rest))
    decreases v, 1
  {
    match v
    case Null => assert (NULL_TEXT + rest)[4..] == rest;
    case Bool(b) => assert (TRUE_TEXT + rest)[4..] == rest && (FALSE_TEXT + rest)[5..] == rest;
    case Num(n) => ReadUndoesNumber(n, rest);
    case Str(s) => ReadUndoesQuote(s, rest);
    case Arr(items) => ReadUndoesArray(items, rest);
    case Obj(fields) =>
      var sorted := Sorting.Sort(fields, FieldKey);
      Sorting.SortKeepsMembers(fields, FieldKey);
      SortedPieces(fields);
      SortedCanon(fields);
      if sorted != [] {
        ReadUndoesFields(v, sorted, rest);
      }
      ReadObjectOf(sorted, rest);
  }

  lemma {:induction false} ReadUndoesArray(items: seq<Json>, rest: Text)
    requires forall item <- items :: WellFormed(item)
    ensures ReadValue(Print(Arr(items)) + rest) == Some((Arr(CanonItems(items)), rest))
    decreases items, 1
  {
    hide ReadItems, ReadFields, ReadString, ReadNumber, ReadLiteral, Quote, PrintNumber;
    var body := Joined(PrintItems(items)) + ([RBRACKET] + rest);
    var s := Print(Arr(items)) + rest;
    assert s == [LBRACKET] + body;
    assert s[1..] == body;
    if items == [] {
      assert body == [RBRACKET] + rest;
      assert s[2..] == rest;
    } else {
      ReadUndoesItems(items, rest);
      FirstUnit(items[0]);
      assert body[0] == Print(items[0])[0];
    }
  }

  lemma {:induction false} ReadUndoesItems(items: seq<Json>, rest: Text)
    requires items != [] && forall item <- items :: WellFormed(item)
    ensures ReadItems(Joined(PrintItems(items)) + ([RBRACKET] + rest)) == Some((CanonItems(items), rest))
    decreases items, 0
  {
    hide ReadValue, ReadString, Print, Canon, Quote, WellFormed;
    var first := Print(items[0]);
    var parts := PrintItems(items);
    var close := [RBRACKET] + rest;
    if |items| == 1 {
      ReadUndoesPrint(items[0], close);
      assert CanonItems(items) == [Canon(items[0])];
      assert close[1..] == rest;
    } else {
      assert parts[1..] == PrintItems(items[1..]);
      var more := Joined(PrintItems(items[1..])) + close;
      assert Joined(parts) + close == first + ([COMMA] + more);
      ReadUndoesPrint(items[0], [COMMA] + more);
      assert ([COMMA] + more)[1..] == more;
      ReadUndoesItems(items[1..], rest);
    }
  }

  /** Wraps the fields read between the braces. */
  lemma ReadObjectOf(sorted: seq<Field>, rest: Text)
    requires sorted != [] ==>
               ReadFields(Joined(PieceTexts(PrintFields(sorted))) + ([RBRACE] + rest)) == Some((CanonFields(sorted), rest))
    ensures ReadValue([LBRACE] + (Joined(PieceTexts(PrintFields(sorted))) + [RBRACE]) + rest)
            == Some((Obj(CanonFields(sorted)), rest))
  {
    var parts := PieceTexts(PrintFields(sorted));
    var body := Joined(parts) + ([RBRACE] + rest);
    var s := [LBRACE] + (Joined(parts) + [RBRACE]) + rest;
    assert s == [LBRACE] + body;
    assert s[1..] == body;
    if sorted == [] {
      assert body == [RBRACE] + rest;
      assert s[2..] == rest;
    } else {
      assert body[0] == parts[0][0] == QUOTE;
    }
  }

  lemma {:induction false} ReadUndoesField(f: Field, rest: Text)
    requires WellFormed(f.value) && JsNumber.EndsNumber(rest)
    ensures ReadField(PrintField(f).text + rest) == Some((CanonField(f), rest))
    decreases f, 0
  {
    hide ReadValue, ReadString, Print, Canon, Quote, Escape, WellFormed;
    var tail := [COLON] + (Print(f.value) + rest);
    assert PrintField(f).text + rest == Quote(f.key) + tail;
    ReadUndoesQuote(f.key, tail);
    assert tail[1..] == Print(f.value) + rest;
    ReadUndoesPrint(f.value, rest);
  }

  lemma FirstPiece(fields: seq<Field>)
    requires fields != []
    ensures var parts := PieceTexts(PrintFields(fields));
            parts[0] == PrintField(fields[0]).text && parts[1..] == PieceTexts(PrintFields(fields[1..]))
  {
  }

  /** The text of some fields: the first one, and behind a comma the text of the others. */
  lemma FieldsText(fields: seq<Field>, close: Text)
    requires fields != []
    ensures Joined(PieceTexts(PrintFields(fields))) + close
            == PrintField(fields[0]).text
               + if |fields| == 1 then close else [COMMA] + (Joined(PieceTexts(PrintFields(fields[1..]))) + close)
  {
    FirstPiece(fields);
    hide Print, Quote, PieceTexts, PrintFields, PrintField;
    var parts := PieceTexts(PrintFields(fields));
    if |fields| > 1 {
      var more := Joined(parts[1..]);
      assert Joined(parts) == parts[0] + ([COMMA] + more);
      Associates(parts[0], [COMMA] + more, close);
      Associates([COMMA], more, close);
    }
  }

  lemma ReadLastField(s: Text, g: Field, rest: Text)
    requires ReadField(s) == Some((g, [RBRACE] + rest))
    ensures ReadFields(s) == Some(([g], rest))
  {
    hide ReadField;
    assert ([RBRACE] + rest)[1..] == rest;
  }

  lemma ReadFieldAndMore(s: Text, g: Field, more: Text, fields: seq<Field>, rest: Text)
    requires ReadField(s) == Some((g, [COMMA] + more)) && ReadFields(more) == Some((fields, rest))
    ensures ReadFields(s) == Some(([g] + fields, rest))
  {
    hide ReadField;
    assert ([COMMA] + more)[1..] == more;
  }

  lemma {:induction false} ReadUndoesFields(v: Json, fields: seq<Field>, rest: Text)
    requires v.Obj? && fields != [] && forall f <- fields :: f in v.fields && WellFormed(f.value)
    ensures ReadFields(Joined(PieceTexts(PrintFields(fields))) + ([RBRACE] + rest)) == Some((CanonFields(fields), rest))
    decreases v, 0, |fields|
  {
    hide ReadFields, ReadField, Print, Canon, Quote, WellFormed, PieceTexts, Joined, PrintFields, PrintField;
    var close := [RBRACE] + rest;
    FieldsText(fields, close);
    var s := Joined(PieceTexts(PrintFields(fields))) + close;
    if |fields| == 1 {
      ReadUndoesField(fields[0], close);
      ReadLastField(s, CanonField(fields[0]), rest);
      assert CanonFields(fields) == [CanonField(fields[0])];
    } else {
      var more := Joined(PieceTexts(PrintFields(fields[1..]))) + close;
      ReadUndoesField(fields[0], [COMMA] + more);
      ReadUndoesFields(v, fields[1..], rest);
      ReadFieldAndMore(s, CanonField(fields[0]), more, CanonFields(fields[1..]), rest);
    }
  }

  // ------------------------------------------------ what the text decides

  /** Equal up to the order of object keys and the sign of zero, said without sorting or printing. */
  ghost predicate Same(a: Json, b: Json)
    decreases a
  {
    match (a, b)
    case (Num(x), Num(y)) => x == y || (!x.NonZero? && !y.NonZero?)
    case (Arr(x), Arr(y)) => |x| == |y| && forall i | 0 <= i < |x| :: Same(x[i], y[i])
    case (Obj(x), Obj(y)) =>
      && (forall f <- x :: exists g <- y :: f.key == g.key && Same(f.value, g.value))
      && (forall g <- y :: exists f <- x :: f.key == g.key && Same(f.value, g.value))
    case _ => a == b
  }

  lemma {:induction false} SameFields(x: seq<Field>, y: seq<Field>)
    requires UniqueKeys(x) && UniqueKeys(y)
    requires forall f: Field :: f in CanonFields(x) <==> f in CanonFields(y)
    ensures Canon(Obj(x)) == Canon(Obj(y))
  {
    var cx, cy := CanonFields(x), CanonFields(y);
    Sorting.SortOrders(cx, FieldKey);
    Sorting.SortOrders(cy, FieldKey);
    Sorting.SortKeepsMembers(cx, FieldKey);
    Sorting.SortKeepsMembers(cy, FieldKey);
    Sorting.OrderedIsUnique(Sorting.Sort(cx, FieldKey), Sorting.Sort(cy, FieldKey), FieldKey);
  }

  lemma CanonFieldsMembers(x: seq<Field>, c: Field)
    ensures c in CanonFields(x) <==> exists f <- x :: CanonField(f) == c
  {
    var cx := CanonFields(x);
    if c in cx {
      var i :| 0 <= i < |cx| && cx[i] == c;
      assert x[i] in x && CanonField(x[i]) == c;
    }
    if exists f <- x :: CanonField(f) == c {
      var f :| f in x && CanonField(f) == c;
      var i :| 0 <= i < |x| && x[i] == f;
      assert cx[i] == c;
    }
  }

  lemma {:induction false} SameIsSameCanon(a: Json, b: Json)
    requires WellFormed(a) && WellFormed(b)
    ensures Same(a, b) <==> Canon(a) == Canon(b)
    decreases a
  {
    match (a, b)
    case (Arr(x), Arr(y)) =>
      if |x| == |y| {
        forall i | 0 <= i < |x| ensures Same(x[i], y[i]) <==> CanonItems(x)[i] == CanonItems(y)[i] {
          SameIsSameCanon(x[i], y[i]);
        }
      }
    case (Obj(x), Obj(y)) =>
      forall f, g | f in x && g in y ensures Same(f.value, g.value) <==> Canon(f.value) == Canon(g.value) {
        SameIsSameCanon(f.value, g.value);
      }
      SameObjects(x, y);
    case _ =>
  }

  lemma SameObjects(x: seq<Field>, y: seq<Field>)
    requires WellFormed(Obj(x)) && WellFormed(Obj(y))
    requires forall f, g | f in x && g in y :: Same(f.value, g.value) <==> Canon(f.value) == Canon(g.value)
    ensures Same(Obj(x), Obj(y)) <==> Canon(Obj(x)) == Canon(Obj(y))
  {
    if Same(Obj(x), Obj(y)) {
      forall c: Field ensures c in CanonFields(x) <==> c in CanonFields(y) {
        CanonFieldsMembers(x, c);
        CanonFieldsMembers(y, c);
      }
      SameFields(x, y);
    }
    if Canon(Obj(x)) == Canon(Obj(y)) { SameCanonFields(x, y); }
  }

  lemma SameCanonField(x: seq<Field>, y: seq<Field>, f: Field) returns (g: Field)
    requires Canon(Obj(x)) == Canon(Obj(y)) && f in x
    ensures g in y && f.key == g.key && Canon(f.value) == Canon(g.value)
  {
    CanonFieldsMembers(x, CanonField(f));
    assert CanonField(f) in CanonFields(x);
    Sorting.SortKeepsMembers(CanonFields(x), FieldKey);
    Sorting.SortKeepsMembers(CanonFields(y), FieldKey);
    assert CanonField(f) in CanonFields(y);
    CanonFieldsMembers(y, CanonField(f));
    g :| g in y && CanonField(g) == CanonField(f);
  }

  lemma SameCanonFields(x: seq<Field>, y: seq<Field>)
    requires Canon(Obj(x)) == Canon(Obj(y))
    ensures forall f <- x :: exists g <- y :: f.key == g.key && Canon(f.value) == Canon(g.value)
    ensures forall g <- y :: exists f <- x :: f.key == g.key && Canon(f.value) == Canon(g.value)
  {
    forall f | f in x ensures exists g <- y :: f.key == g.key && Canon(f.value) == Canon(g.value) {
      var g := SameCanonField(x, y, f);
    }
    forall g | g in y ensures exists f <- x :: f.key == g.key && Canon(f.value) == Canon(g.value) {
      var f := SameCanonField(y, x, g);
    }
  }

  /** Canonical form never changes the printed text. */
  lemma {:induction false} PrintOfCanon(v: Json)
    requires WellFormed(v)
    ensures Print(Canon(v)) == Print(v)
    decreases v
  {
    match v
    case Arr(items) =>
      forall i | 0 <= i < |items| ensures Print(CanonItems(items)[i]) == Print(items[i]) {
        PrintOfCanon(items[i]);
      }
      assert PrintItems(CanonItems(items)) == PrintItems(items);
    case Obj(fields) =>
      forall i | 0 <= i < |fields| ensures Print(CanonFields(fields)[i].value) == Print(fields[i].value) {
        assert fields[i] in fields;
        PrintOfCanon(fields[i].value);
      }
      assert PrintFields(CanonFields(fields)) == PrintFields(fields);
      SortedPieces(CanonFields(fields));
      Sorting.SortOrders(PrintFields(fields), PieceKey);
      Sorting.SortIsIdempotent(Sorting.Sort(PrintFields(fields), PieceKey), PieceKey);
    case _ =>
  }

  /** The text decides the value, up to key order and the sign of zero, and nothing else changes it. */
  lemma PrintsAlike(a: Json, b: Json)
    requires WellFormed(a) && WellFormed(b)
    ensures Print(a) == Print(b) <==> Same(a, b)
  {
    SameIsSameCanon(a, b);
    if Print(a) == Print(b) {
      ReadUndoesPrint(a, []);
      ReadUndoesPrint(b, []);
    }
    PrintOfCanon(a);
    PrintOfCanon(b);
  }

  // --------------------------------------------------- safe to encode

  /** No lone surrogate: encoding such a text as UTF-8 replaces nothing. */
  predicate WellFormedUtf16(t: Text) {
    if t == [] then true
    else if IsLead(t[0]) then |t| > 1 && IsTrail(t[1]) && WellFormedUtf16(t[2..])
    else !IsTrail(t[0]) && WellFormedUtf16(t[1..])
  }

  lemma {:induction false} ConcatWellFormed(a: Text, b: Text)
    requires WellFormedUtf16(a) && WellFormedUtf16(b)
    ensures WellFormedUtf16(a + b)
    decreases |a|
  {
    if a == [] {
      assert a + b == b;
    } else if IsLead(a[0]) {
      ConcatWellFormed(a[2..], b);
      assert (a + b)[2..] == a[2..] + b;
    } else {
      ConcatWellFormed(a[1..], b);
      assert (a + b)[1..] == a[1..] + b;
    }
  }

  lemma {:induction false} PlainWellFormed(t: Text)
    requires forall i | 0 <= i < |t| :: t[i] < 0xD800
    ensures WellFormedUtf16(t)
  {
    if t != [] { PlainWellFormed(t[1..]); }
  }

  lemma {:induction false} EscapeWellFormed(s: Text)
    ensures WellFormedUtf16(Escape(s))
    decreases |s|
  {
    if s == [] {
    } else if StartsPair(s) {
      EscapeWellFormed(s[2..]);
      PairWellFormed(s[0], s[1]);
      assert s[..2] == [s[0], s[1]];
      ConcatWellFormed(s[..2], Escape(s[2..]));
    } else {
      EscapeWellFormed(s[1..]);
      EscapeUnitWellFormed(s[0]);
      ConcatWellFormed(EscapeUnit(s[0]), Escape(s[1..]));
    }
  }

  lemma PairWellFormed(a: CodeUnit, b: CodeUnit)
    requires IsLead(a) && IsTrail(b)
    ensures WellFormedUtf16([a, b])
  {
    assert [a, b][2..] == [];
  }

  lemma EscapeUnitWellFormed(u: CodeUnit)
    ensures WellFormedUtf16(EscapeUnit(u))
  {
    if |EscapeUnit(u)| == 1 {
      assert EscapeUnit(u)[1..] == [];
    } else {
      PlainWellFormed(EscapeUnit(u));
    }
  }

  lemma QuoteWellFormed(s: Text)
    ensures WellFormedUtf16(Quote(s))
  {
    EscapeWellFormed(s);
    PlainWellFormed([QUOTE]);
    ConcatWellFormed(Escape(s), [QUOTE]);
    ConcatWellFormed([QUOTE], Escape(s) + [QUOTE]);
  }

  lemma {:induction false} JoinedWellFormed(parts: seq<Text>)
    requires forall t <- parts :: WellFormedUtf16(t)
    ensures WellFormedUtf16(Joined(parts))
  {
    if |parts| > 1 {
      JoinedWellFormed(parts[1..]);
      PlainWellFormed([COMMA]);
      ConcatWellFormed([COMMA], Joined(parts[1..]));
      ConcatWellFormed(parts[0], [COMMA] + Joined(parts[1..]));
    }
  }

  lemma BracketedWellFormed(open: CodeUnit, body: Text, close: CodeUnit)
    requires open < 0xD800 && close < 0xD800 && WellFormedUtf16(body)
    ensures WellFormedUtf16([open] + (body + [close]))
  {
    PlainWellFormed([open]);
    PlainWellFormed([close]);
    ConcatWellFormed(body, [close]);
    ConcatWellFormed([open], body + [close]);
  }

  lemma FieldWellFormed(f: Field)
    requires WellFormedUtf16(Print(f.value))
    ensures WellFormedUtf16(PrintField(f).text)
  {
    QuoteWellFormed(f.key);
    PlainWellFormed([COLON]);
    ConcatWellFormed([COLON], Print(f.value));
    ConcatWellFormed(Quote(f.key), [COLON] + Print(f.value));
  }

  /** Whatever the strings inside hold, the printed text has no lone surrogate. */
  lemma {:induction false} PrintIsEncodable(v: Json)
    requires WellFormed(v)
    ensures WellFormedUtf16(Print(v))
    decreases v
  {
    hide WellFormedUtf16, Joined, Sorting.Sort;
    match v
    case Null => PlainWellFormed(Print(v));
    case Bool(_) => PlainWellFormed(Print(v));
    case Num(n) => JsNumber.PrintIsAscii(n); PlainWellFormed(Print(v));
    case Str(s) => QuoteWellFormed(s);
    case Arr(items) =>
      forall t | t in PrintItems(items) ensures WellFormedUtf16(t) {
        var i :| 0 <= i < |items| && t == Print(items[i]);
        PrintIsEncodable(items[i]);
      }
      JoinedWellFormed(PrintItems(items));
      BracketedWellFormed(LBRACKET, Joined(PrintItems(items)), RBRACKET);
    case Obj(fields) =>
      var pieces := Sorting.Sort(PrintFields(fields), PieceKey);
      forall t | t in PieceTexts(pieces) ensures WellFormedUtf16(t) {
        var k :| 0 <= k < |pieces| && t == pieces[k].text;
        Sorting.SortKeepsMembers(PrintFields(fields), PieceKey);
        assert pieces[k] in PrintFields(fields);
        var i :| 0 <= i < |fields| && pieces[k] == PrintFields(fields)[i];
        assert fields[i] in fields;
        PrintIsEncodable(fields[i].value);
        FieldWellFormed(fields[i]);
      }
      JoinedWellFormed(PieceTexts(pieces));
      BracketedWellFormed(LBRACE, Joined(PieceTexts(pieces)), RBRACE);
  }
}
