/**
 The specification of `JsonObject::stringify`, `escape` and `deescape`.
 A `Doc` is a JSON tree together with the order in which its unordered maps are walked.
 */
module JsonPrint {
  import opened Text
  import opened JsonScan

  datatype Field = Field(key: string, value: Doc)

  datatype Doc = Empty | Str(s: string) | Dict(fields: seq<Field>) | List(items: seq<Doc>)

  function EscapeChar(c: char): string {
    if c == '\n' then "\\n"
    else if c == '\r' then "\\r"
    else if c == '\t' then "\\t"
    else if c == '"' then "\\\""
    else if c == '\\' then "\\\\"
    else [c]
  }

  function EscapeBody(s: string): (r: string)
    ensures |r| >= |s|
  {
    if s == "" then "" else EscapeChar(s[0]) + EscapeBody(s[1..])
  }

  function Quote(s: string): string {
    "\"" + EscapeBody(s) + "\""
  }

  function NewLine(pretty: bool): string {
    if pretty then "\n" else ""
  }

  function Tabs(pretty: bool, depth: nat): string {
    if pretty then Repeat('\t', depth) else ""
  }

  function Deeper(pretty: bool, depth: nat): nat {
    if pretty then depth + 1 else depth
  }

  function Print(d: Doc, pretty: bool, depth: nat): string
    decreases d, 0
  {
    match d
    case Empty => "\"\""
    case Str(s) => Quote(s)
    case Dict(fields) =>
      "{" + NewLine(pretty) + PrintFields(fields, pretty, Deeper(pretty, depth)) + Tabs(pretty, depth) + "}"
    case List(items) =>
      "[" + NewLine(pretty) + PrintItems(items, pretty, Deeper(pretty, depth)) + Tabs(pretty, depth) + "]"
  }

  function Comma(more: bool): string {
    if more then "," else ""
  }

  function PrintField(f: Field, pretty: bool, depth: nat, more: bool): string
    decreases f, 1
  {
    Tabs(pretty, depth) + Quote(f.key) + ":" + Print(f.value, pretty, depth) + Comma(more) + NewLine(pretty)
  }

  function PrintFields(fields: seq<Field>, pretty: bool, depth: nat): string
    decreases fields, 2
  {
    if fields == [] then ""
    else PrintField(fields[0], pretty, depth, |fields| > 1) + PrintFields(fields[1..], pretty, depth)
  }

  function PrintItem(d: Doc, pretty: bool, depth: nat, more: bool): string
    decreases d, 1
  {
    Tabs(pretty, depth) + Print(d, pretty, depth) + Comma(more) + NewLine(pretty)
  }

  function PrintItems(items: seq<Doc>, pretty: bool, depth: nat): string
    decreases items, 2
  {
    if items == [] then ""
    else PrintItem(items[0], pretty, depth, |items| > 1) + PrintItems(items[1..], pretty, depth)
  }

  /** The three characters whose escapes the parser deletes. */
  predicate Control(c: char) {
    c == '\n' || c == '\r' || c == '\t'
  }

  /** What the parser keeps of a string: the escapes of line feed, return and tab vanish. */
  function Strip(s: string): string {
    if s == "" then ""
    else (if Control(s[0]) then "" else [s[0]]) + Strip(s[1..])
  }

  /** The node a parser makes of the printed document. */
  function Readback(d: Doc): Json
    decreases d, 0
  {
    match d
    case Empty => Json(String, "", map[], [])
    case Str(s) => Json(String, Strip(s), map[], [])
    case Dict(fields) => Json(Object, "", Overlay(map[], fields), [])
    case List(items) => Json(Array, "", map[], ReadItems(items))
  }

  /** The map `m` with the pairs of `fields` written over it, in print order. */
  function Overlay(m: map<string, Json>, fields: seq<Field>): map<string, Json>
    decreases fields, 1
  {
    if fields == [] then m
    else Overlay(m[Strip(fields[0].key) := Readback(fields[0].value)], fields[1..])
  }

  function ReadItems(items: seq<Doc>): (r: seq<Json>)
    decreases items, 1
  {
    if items == [] then [] else [Readback(items[0])] + ReadItems(items[1..])
  }

  predicate NulFreeDoc(d: Doc) {
    match d
    case Empty => true
    case Str(s) => NulFree(s)
    case Dict(fields) => forall f <- fields :: NulFree(f.key) && NulFreeDoc(f.value)
    case List(items) => forall i <- items :: NulFreeDoc(i)
  }

  predicate Escapes(c: char) {
    c == 'n' || c == 'r' || c == 't' || c == '"' || c == '\\'
  }

  function EscapedChar(c: char): char {
    match c
    case 'n' => '\n'
    case 'r' => '\r'
    case 't' => '\t'
    case _ => c
  }

  /** The specification of `deescape`: the five escapes are undone from left to right. */
  function Unescaped(s: string): string {
    if s == "" then ""
    else if |s| > 1 && s[0] == '\\' && Escapes(s[1]) then [EscapedChar(s[1])] + Unescaped(s[2..])
    else [s[0]] + Unescaped(s[1..])
  }

  /** `deescape` undoes `escape` on every string, controls included. */
  lemma {:induction false} UnescapedEscape(s: string)
    ensures Unescaped(EscapeBody(s)) == s
  {
    if s != "" {
      var e, rest := EscapeChar(s[0]), EscapeBody(s[1..]);
      UnescapedEscape(s[1..]);
      UnescapeChar(s[0], rest);
      assert s == [s[0]] + s[1..];
    }
  }

  lemma UnescapeChar(c: char, rest: string)
    ensures Unescaped(EscapeChar(c) + rest) == [c] + Unescaped(rest)
  {
    var e := EscapeChar(c);
    assert (e + rest)[|e|..] == rest;
  }

  lemma EscapeStep(s: string, i: nat)
    requires i < |s|
    ensures EscapeBody(s[i..]) == EscapeChar(s[i]) + EscapeBody(s[i + 1..])
  {
    assert s[i..][1..] == s[i + 1..];
  }

  lemma EscapeEnd(s: string)
    requires s == ""
    ensures EscapeBody(s) == "" && Unescaped(s) == ""
  {}

  lemma UnescapeStep(s: string, i: nat)
    requires i < |s|
    ensures if i + 1 < |s| && s[i] == '\\' && Escapes(s[i + 1])
      then Unescaped(s[i..]) == [EscapedChar(s[i + 1])] + Unescaped(s[i + 2..])
      else Unescaped(s[i..]) == [s[i]] + Unescaped(s[i + 1..])
  {
    assert s[i..][1..] == s[i + 1..];
    assert i + 1 < |s| ==> s[i..][2..] == s[i + 2..];
  }

  /** The text of pairs when `more` pairs follow them. */
  function PrintFieldsThen(fields: seq<Field>, pretty: bool, depth: nat, more: bool): string {
    if fields == [] then ""
    else PrintField(fields[0], pretty, depth, more || |fields| > 1) + PrintFieldsThen(fields[1..], pretty, depth, more)
  }

  lemma PrintNothing(pretty: bool, depth: nat)
    ensures forall more :: PrintFieldsThen([], pretty, depth, more) == "" && PrintItemsThen([], pretty, depth, more) == ""
  {}

  lemma {:induction false} PrintFieldsEnd(fields: seq<Field>, pretty: bool, depth: nat)
    ensures PrintFieldsThen(fields, pretty, depth, false) == PrintFields(fields, pretty, depth)
  {
    if fields != [] {
      PrintFieldsEnd(fields[1..], pretty, depth);
    }
  }

  lemma {:induction false} PrintFieldsSnoc(fields: seq<Field>, f: Field, pretty: bool, depth: nat, more: bool)
    ensures PrintFieldsThen(fields + [f], pretty, depth, more)
         == PrintFieldsThen(fields, pretty, depth, true) + PrintField(f, pretty, depth, more)
  {
    hide PrintField;
    if fields != [] {
      PrintFieldsSnoc(fields[1..], f, pretty, depth, more);
      assert (fields + [f])[1..] == fields[1..] + [f] && (fields + [f])[0] == fields[0];
      Assoc(PrintField(fields[0], pretty, depth, true), PrintFieldsThen(fields[1..], pretty, depth, true), PrintField(f, pretty, depth, more));
    } else {
      assert fields + [f] == [f] && [f][1..] == [];
    }
  }

  function PrintItemsThen(items: seq<Doc>, pretty: bool, depth: nat, more: bool): string {
    if items == [] then ""
    else PrintItem(items[0], pretty, depth, more || |items| > 1) + PrintItemsThen(items[1..], pretty, depth, more)
  }

  lemma {:induction false} PrintItemsEnd(items: seq<Doc>, pretty: bool, depth: nat)
    ensures PrintItemsThen(items, pretty, depth, false) == PrintItems(items, pretty, depth)
  {
    if items != [] {
      PrintItemsEnd(items[1..], pretty, depth);
    }
  }

  lemma {:induction false} PrintItemsSnoc(items: seq<Doc>, d: Doc, pretty: bool, depth: nat, more: bool)
    ensures PrintItemsThen(items + [d], pretty, depth, more)
         == PrintItemsThen(items, pretty, depth, true) + PrintItem(d, pretty, depth, more)
  {
    hide PrintItem;
    if items != [] {
      PrintItemsSnoc(items[1..], d, pretty, depth, more);
      assert (items + [d])[1..] == items[1..] + [d] && (items + [d])[0] == items[0];
      Assoc(PrintItem(items[0], pretty, depth, true), PrintItemsThen(items[1..], pretty, depth, true), PrintItem(d, pretty, depth, more));
    } else {
      assert items + [d] == [d] && [d][1..] == [];
    }
  }

  // ----- Where the parts of a print stand

  lemma QuoteWhole(text: string, it: nat, s: string)
    requires Occurs(text, it, Quote(s))
    ensures Occurs(text, it + 1, EscapeBody(s)) && it + |Quote(s)| <= |text|
    ensures text[it] == '"' && text[it + 1 + |EscapeBody(s)|] == '"'
  {
    hide EscapeBody, Occurs;
    OccursSplit(text, it, "\"" + EscapeBody(s), "\"");
    OccursSplit(text, it, "\"", EscapeBody(s));
    LoneOccurs(text, it, '"');
    LoneOccurs(text, it + 1 + |EscapeBody(s)|, '"');
  }

  lemma BracketsOccur(text: string, it: nat, open: char, body: string, close: char, pretty: bool, depth: nat) returns (inside: nat)
    requires Occurs(text, it, [open] + NewLine(pretty) + body + Tabs(pretty, depth) + [close])
    ensures inside == it + 1 + |NewLine(pretty)|
    ensures Occurs(text, it + 1, NewLine(pretty)) && Occurs(text, inside, body) && Occurs(text, inside + |body|, Tabs(pretty, depth))
    ensures var end := inside + |body| + |Tabs(pretty, depth)|;
      it < end < |text| && text[it] == open && text[end] == close
  {
    hide NewLine, Tabs, Occurs;
    OccursSplit(text, it, [open] + NewLine(pretty) + body + Tabs(pretty, depth), [close]);
    OccursSplit(text, it, [open] + NewLine(pretty) + body, Tabs(pretty, depth));
    OccursSplit(text, it, [open] + NewLine(pretty), body);
    OccursSplit(text, it, [open], NewLine(pretty));
    LoneOccurs(text, it, open);
    inside := it + 1 + |NewLine(pretty)|;
    LoneOccurs(text, inside + |body| + |Tabs(pretty, depth)|, close);
  }

  lemma FieldParts(text: string, it: nat, f: Field, pretty: bool, depth: nat, more: bool)
    requires Occurs(text, it, PrintField(f, pretty, depth, more))
    ensures var start := it + |Tabs(pretty, depth)|;
      var colon := start + |Quote(f.key)|;
      var end := colon + 1 + |Print(f.value, pretty, depth)|;
      && Occurs(text, it, Tabs(pretty, depth)) && Occurs(text, start, Quote(f.key))
      && colon < |text| && text[colon] == ':' && Occurs(text, colon + 1, Print(f.value, pretty, depth))
      && Occurs(text, end, Comma(more)) && Occurs(text, end + |Comma(more)|, NewLine(pretty))
      && it + |PrintField(f, pretty, depth, more)| == end + |Comma(more)| + |NewLine(pretty)| <= |text|
  {
    hide Occurs, Tabs, Print, Quote, Comma, NewLine;
    var head := Tabs(pretty, depth) + Quote(f.key);
    FourParts(text, it, head + ":", Print(f.value, pretty, depth), Comma(more), NewLine(pretty));
    OccursSplit(text, it, head, ":");
    OccursSplit(text, it, Tabs(pretty, depth), Quote(f.key));
    LoneOccurs(text, it + |head|, ':');
  }

  lemma ItemParts(text: string, it: nat, d: Doc, pretty: bool, depth: nat, more: bool)
    requires Occurs(text, it, PrintItem(d, pretty, depth, more))
    ensures var start := it + |Tabs(pretty, depth)|;
      var end := start + |Print(d, pretty, depth)|;
      && Occurs(text, it, Tabs(pretty, depth)) && Occurs(text, start, Print(d, pretty, depth))
      && Occurs(text, end, Comma(more)) && Occurs(text, end + |Comma(more)|, NewLine(pretty))
      && it + |PrintItem(d, pretty, depth, more)| == end + |Comma(more)| + |NewLine(pretty)| <= |text|
  {
    hide Occurs, Tabs, Print, Comma, NewLine;
    FourParts(text, it, Tabs(pretty, depth), Print(d, pretty, depth), Comma(more), NewLine(pretty));
  }

  // ----- What deescaping makes of any text

  /** A character that is no backslash, one of the five escapes, or a backslash in front of another character. */
  datatype Piece = Plain(c: char) | Pair(c: char) | Lone(c: char)

  predicate GoodPiece(p: Piece) {
    match p
    case Plain(c) => c != '\\'
    case Pair(c) => c in "nrt\"\\"
    case Lone(c) => c !in "nrt\"\\"
  }

  function PiecesText(pieces: seq<Piece>): string {
    if pieces == [] then ""
    else (if pieces[0].Plain? then [pieces[0].c] else ['\\', pieces[0].c]) + PiecesText(pieces[1..])
  }

  function PieceMeans(p: Piece): string {
    match p
    case Plain(c) => [c]
    case Pair(c) => if c == 'n' then "\n" else if c == 'r' then "\r" else if c == 't' then "\t" else [c]
    case Lone(c) => ['\\', c]
  }

  function PiecesMean(pieces: seq<Piece>): string {
    if pieces == [] then "" else PieceMeans(pieces[0]) + PiecesMean(pieces[1..])
  }

  /** The five escapes are undone and nothing else is touched, a last lone backslash included. */
  lemma {:induction false} UnescapedPieces(pieces: seq<Piece>, end: string)
    requires (forall k :: 0 <= k < |pieces| ==> GoodPiece(pieces[k])) && (end == "" || end == "\\")
    ensures Unescaped(PiecesText(pieces) + end) == PiecesMean(pieces) + end
  {
    if pieces == [] {
      assert "" + end == end;
    } else {
      var p, rest := pieces[0], PiecesText(pieces[1..]) + end;
      var first := if p.Plain? then [p.c] else ['\\', p.c];
      UnescapedPieces(pieces[1..], end);
      assert PiecesText(pieces) + end == first + rest;
      UnescapePiece(p, rest);
      Assoc(PieceMeans(p), PiecesMean(pieces[1..]), end);
    }
  }

  lemma UnescapePiece(p: Piece, rest: string)
    requires GoodPiece(p)
    ensures Unescaped((if p.Plain? then [p.c] else ['\\', p.c]) + rest) == PieceMeans(p) + Unescaped(rest)
  {
    var first := if p.Plain? then [p.c] else ['\\', p.c];
    assert (first + rest)[|first|..] == rest;
    if p.Lone? {
      assert (first + rest)[1..] == [p.c] + rest && ([p.c] + rest)[1..] == rest;
      assert p.c != '\\';
      assert Unescaped([p.c] + rest) == [p.c] + Unescaped(rest);
      assert ['\\'] + ([p.c] + Unescaped(rest)) == ['\\', p.c] + Unescaped(rest);
    }
  }
}
