/** Parsing what `stringify` printed: the induction over documents, with exact cursors. */
module JsonRoundTrip {
  import opened Text
  import opened JsonScan
  import opened JsonPrint

  /** Characters the reader passes over between values. */
  predicate Blank(s: string) {
    forall k :: 0 <= k < |s| ==> s[k] == '\n' || s[k] == '\t' || s[k] == ','
  }

  lemma Advance(text: string, r: Reader, fuel: nat)
    requires Turn(text, r).Go? && fuel > 0
    ensures Scan(text, r, fuel) == Scan(text, Turn(text, r).next, fuel - 1)
  {}

  lemma FirstBlank(text: string, r: Reader, s: string)
    requires Occurs(text, r.it, s) && Blank(s) && s != ""
    requires (r.node.kind == Array || r.node.kind == Object) && r.os == NoState
    ensures Turn(text, r) == Go(r.(it := r.it + 1)) && Occurs(text, r.it + 1, s[1..]) && Blank(s[1..])
  {
    assert s == [s[0]] + s[1..];
    OccursSplit(text, r.it, [s[0]], s[1..]);
    LoneOccurs(text, r.it, s[0]);
  }

  lemma {:induction false} SkipBlanks(text: string, r: Reader, s: string, fuel: nat)
    requires Occurs(text, r.it, s) && Blank(s) && fuel >= |s|
    requires (r.node.kind == Array || r.node.kind == Object) && r.os == NoState
    ensures Scan(text, r, fuel) == Scan(text, r.(it := r.it + |s|), fuel - |s|)
    decreases |s|
  {
    hide Scan, Turn, Blank, Occurs;
    if s != "" {
      FirstBlank(text, r, s);
      Advance(text, r, fuel);
      SkipBlanks(text, r.(it := r.it + 1), s[1..], fuel - 1);
    }
  }

  predicate Reading(r: Reader) {
    r.node.kind == String || (r.node.kind == Object && r.os == GetKey)
  }

  lemma ReadChar(text: string, r: Reader, c: char)
    requires Occurs(text, r.it, EscapeChar(c)) && c != NUL && Reading(r)
    ensures Turn(text, r) == Go(r.(it := r.it + |EscapeChar(c)|, ss := if Control(c) then r.ss else r.ss + [c]))
  {
    var e := EscapeChar(c);
    assert text[r.it] == text[r.it..r.it + |e|][0] == e[0];
    if |e| == 2 {
      assert text[r.it + 1] == text[r.it..r.it + |e|][1] == e[1];
    }
  }

  lemma StripNothing(ss: string)
    ensures ss + Strip("") == ss
  {}

  lemma StripStep(ss: string, s: string)
    requires s != ""
    ensures (if Control(s[0]) then ss else ss + [s[0]]) + Strip(s[1..]) == ss + Strip(s)
  {
    var rest := Strip(s[1..]);
    assert Strip(s) == if Control(s[0]) then rest else [s[0]] + rest by {
      assert "" + rest == rest;
    }
    hide Strip, Control;
    Assoc(ss, [s[0]], rest);
  }

  /** A string body is read one source character at a time, whether as a value or as a key. */
  lemma {:induction false} ReadBody(text: string, r: Reader, s: string, fuel: nat)
    requires Occurs(text, r.it, EscapeBody(s)) && NulFree(s) && fuel >= |s| && Reading(r)
    ensures Scan(text, r, fuel)
         == Scan(text, r.(it := r.it + |EscapeBody(s)|, ss := r.ss + Strip(s)), fuel - |s|)
    decreases |s|
  {
    hide Scan, Turn, EscapeChar, Occurs, Strip;
    var last := r.(it := r.it + |EscapeBody(s)|, ss := r.ss + Strip(s));
    if s == "" {
      StripNothing(r.ss);
      assert last == r;
    } else {
      var c, rest := s[0], s[1..];
      var next := r.(it := r.it + |EscapeChar(c)|, ss := if Control(c) then r.ss else r.ss + [c]);
      assert EscapeBody(s) == EscapeChar(c) + EscapeBody(rest);
      OccursSplit(text, r.it, EscapeChar(c), EscapeBody(rest));
      assert c in s;
      ReadChar(text, r, c);
      Advance(text, r, fuel);
      ReadBody(text, next, rest, fuel - 1);
      StripStep(r.ss, s);
      assert last == next.(it := next.it + |EscapeBody(rest)|, ss := next.ss + Strip(rest));
    }
  }

  /** Fuel that lasts for a value that starts at `it`, and for a node already open there. */
  predicate Enough(text: string, it: nat, fuel: nat) {
    it <= |text| && fuel >= 2 * (|text| - it)
  }

  predicate EnoughInside(text: string, it: nat, fuel: nat) {
    it <= |text| && fuel >= 2 * (|text| - it) + 1
  }

  /** A quoted string, read as a value: the cursor ends behind the closing quote. */
  lemma ReadString(text: string, it: nat, s: string, fuel: nat)
    requires Occurs(text, it, Quote(s)) && NulFree(s) && Enough(text, it, fuel)
    ensures Scan(text, Start(it, FRESH), fuel)
         == Some(Parsed(Json(String, Strip(s), map[], []), it + |Quote(s)|))
  {
    hide Scan, Occurs, EscapeBody, Strip;
    var body := it + 1;
    var close := body + |EscapeBody(s)|;
    assert Quote(s) == ['"'] + (EscapeBody(s) + "\"");
    FirstOccurs(text, it, '"', EscapeBody(s) + "\"");
    OccursSplit(text, body, EscapeBody(s), "\"");
    LoneOccurs(text, close, '"');
    var open := Start(body, FRESH.(kind := String));
    Advance(text, Start(it, FRESH), fuel);
    ReadBody(text, open, s, fuel - 1);
    assert "" + Strip(s) == Strip(s);
    Finish(text, open.(it := close, ss := Strip(s)), fuel - 1 - |s|);
  }

  lemma Finish(text: string, r: Reader, fuel: nat)
    requires Turn(text, r).Done? && fuel > 0
    ensures Scan(text, r, fuel) == Some(Turn(text, r).result)
  {}

  lemma Descend(text: string, r: Reader, fuel: nat)
    requires Turn(text, r).Call? && fuel > 0
    requires Scan(text, Start(r.it, FRESH), fuel - 1).Some?
    ensures Scan(text, Start(r.it, FRESH), fuel - 1).value.end >= 0
    ensures Scan(text, r, fuel) == Scan(text, Resume(r, Scan(text, Start(r.it, FRESH), fuel - 1).value), fuel - 1)
  {}

  /** From the opening quote of a key to the colon behind its closing quote. */
  lemma ReadKey(text: string, r: Reader, key: string, fuel: nat) returns (colon: Reader, f: nat)
    requires Occurs(text, r.it, Quote(key)) && NulFree(key) && EnoughInside(text, r.it, fuel)
    requires r.node.kind == Object && r.os == NoState && r.ss == ""
    ensures colon == r.(it := r.it + |Quote(key)|, os := GotKey, ss := Strip(key))
    ensures EnoughInside(text, colon.it, f)
    ensures Scan(text, r, fuel) == Scan(text, colon, f)
  {
    hide Scan, Occurs, EscapeBody, Strip;
    var body := r.it + 1;
    var close := body + |EscapeBody(key)|;
    assert Quote(key) == ['"'] + (EscapeBody(key) + "\"");
    FirstOccurs(text, r.it, '"', EscapeBody(key) + "\"");
    OccursSplit(text, body, EscapeBody(key), "\"");
    LoneOccurs(text, close, '"');
    var open := r.(it := body, os := GetKey);
    Advance(text, r, fuel);
    ReadBody(text, open, key, fuel - 1);
    assert "" + Strip(key) == Strip(key);
    var last := open.(it := close, ss := Strip(key));
    Advance(text, last, fuel - 1 - |key|);
    colon, f := last.(it := close + 1, os := GotKey), fuel - 2 - |key|;
  }

  /** The cursor `parse` returns for a document printed from `it` in `n` characters. */
  function Returned(d: Doc, it: nat, n: nat): int {
    if d.Dict? || d.List? then it + n - 1 else it + n
  }

  /**
   The round trip. Wherever a document was printed, a parse started there on a fresh node
   yields the document with the three controls deleted, and returns a cursor one past the
   closing quote of a string and on the closing bracket of an object or array, whatever
   text follows.
   */
  lemma {:induction false} ReadDoc(text: string, it: nat, d: Doc, pretty: bool, depth: nat, fuel: nat)
    requires Occurs(text, it, Print(d, pretty, depth)) && NulFreeDoc(d) && Enough(text, it, fuel)
    ensures Scan(text, Start(it, FRESH), fuel)
         == Some(Parsed(Readback(d), Returned(d, it, |Print(d, pretty, depth)|)))
    decreases d, 0
  {
    hide Scan, Occurs;
    match d
    case Empty =>
      assert Quote("") == "\"\"";
      ReadString(text, it, "", fuel);
    case Str(s) => ReadString(text, it, s, fuel);
    case Dict(fields) => ReadBraces(text, it, fields, pretty, depth, fuel);
    case List(items) => ReadBrackets(text, it, items, pretty, depth, fuel);
  }

  lemma {:induction false} ReadBraces(text: string, it: nat, fields: seq<Field>, pretty: bool, depth: nat, fuel: nat)
    requires var d := Dict(fields);
      Occurs(text, it, Print(d, pretty, depth)) && NulFreeDoc(d) && Enough(text, it, fuel)
    ensures var d := Dict(fields);
      Scan(text, Start(it, FRESH), fuel) == Some(Parsed(Readback(d), it + |Print(d, pretty, depth)| - 1))
    decreases fields, 4
  {
    hide Scan, Occurs, PrintFields, Overlay;
    var before := NewLine(pretty) + PrintFields(fields, pretty, Deeper(pretty, depth)) + Tabs(pretty, depth);
    assert Print(Dict(fields), pretty, depth) == ['{'] + (before + "}");
    FirstOccurs(text, it, '{', before + "}");
    Advance(text, Start(it, FRESH), fuel);
    ReadDict(text, Start(it + 1, FRESH.(kind := Object)), fields, pretty, depth, fuel - 1);
  }

  lemma {:induction false} ReadBrackets(text: string, it: nat, items: seq<Doc>, pretty: bool, depth: nat, fuel: nat)
    requires var d := List(items);
      Occurs(text, it, Print(d, pretty, depth)) && NulFreeDoc(d) && Enough(text, it, fuel)
    ensures var d := List(items);
      Scan(text, Start(it, FRESH), fuel) == Some(Parsed(Readback(d), it + |Print(d, pretty, depth)| - 1))
    decreases items, 4
  {
    hide Scan, Occurs, PrintItems, ReadItems;
    var before := NewLine(pretty) + PrintItems(items, pretty, Deeper(pretty, depth)) + Tabs(pretty, depth);
    assert Print(List(items), pretty, depth) == ['['] + (before + "]");
    FirstOccurs(text, it, '[', before + "]");
    Advance(text, Start(it, FRESH), fuel);
    ReadList(text, Start(it + 1, FRESH.(kind := Array)), items, pretty, depth, fuel - 1);
    assert FRESH.arr + ReadItems(items) == ReadItems(items);
  }

  /** Behind a printed child the parent goes on at the first character after it. */
  lemma Behind(r: Reader, d: Doc, it: nat, n: nat)
    requires n > 0 && (r.node.kind == Array || r.node.kind == Object)
    ensures var next := Resume(r, Parsed(Readback(d), Returned(d, it, n)));
      if r.node.kind == Array then next == r.(it := it + n, node := r.node.(arr := r.node.arr + [Readback(d)]))
      else next == Start(it + n, r.node.(obj := r.node.obj[r.ss := Readback(d)]))
  {
    match d
    case Empty =>
    case Str(_) =>
    case Dict(_) =>
    case List(_) =>
  }

  ghost predicate NulFreeFields(fields: seq<Field>) {
    forall f <- fields :: NulFree(f.key) && NulFreeDoc(f.value)
  }

  ghost predicate NulFreeItems(items: seq<Doc>) {
    forall i <- items :: NulFreeDoc(i)
  }

  lemma BlankParts(pretty: bool, depth: nat, more: bool)
    ensures Blank(Tabs(pretty, depth)) && Blank(NewLine(pretty)) && Blank(Comma(more))
  {}

  /** Blanks cost one unit of fuel a character. */
  lemma PassBlanks(text: string, r: Reader, s: string, fuel: nat) returns (f: nat)
    requires Occurs(text, r.it, s) && Blank(s) && EnoughInside(text, r.it, fuel)
    requires (r.node.kind == Array || r.node.kind == Object) && r.os == NoState
    ensures EnoughInside(text, r.it + |s|, f)
    ensures Scan(text, r, fuel) == Scan(text, r.(it := r.it + |s|), f)
  {
    SkipBlanks(text, r, s, fuel);
    f := fuel - |s|;
  }

  /** A printed object, read from behind its opening brace over whatever pairs the node already has. */
  lemma {:induction false} ReadDict(text: string, r: Reader, fields: seq<Field>, pretty: bool, depth: nat, fuel: nat)
    requires Occurs(text, r.it, NewLine(pretty) + PrintFields(fields, pretty, Deeper(pretty, depth)) + Tabs(pretty, depth) + "}")
    requires r.node.kind == Object && r.os == NoState && r.ss == ""
    requires NulFreeFields(fields) && EnoughInside(text, r.it, fuel)
    ensures Scan(text, r, fuel)
         == Some(Parsed(r.node.(obj := Overlay(r.node.obj, fields)),
                        r.it + |NewLine(pretty) + PrintFields(fields, pretty, Deeper(pretty, depth)) + Tabs(pretty, depth)|))
    decreases fields, 3
  {
    hide Scan, Occurs, PrintFields, Overlay, Tabs, NewLine, Blank, Returned;
    var body, tabs := PrintFields(fields, pretty, Deeper(pretty, depth)), Tabs(pretty, depth);
    OccursSplit(text, r.it, NewLine(pretty) + body + tabs, "}");
    OccursSplit(text, r.it, NewLine(pretty) + body, tabs);
    OccursSplit(text, r.it, NewLine(pretty), body);
    BlankParts(pretty, depth, false);
    var f := PassBlanks(text, r, NewLine(pretty), fuel);
    var r1 := r.(it := r.it + |NewLine(pretty)|);
    f := ReadFields(text, r1, fields, pretty, Deeper(pretty, depth), f);
    var r2 := r1.(it := r1.it + |body|, node := r.node.(obj := Overlay(r.node.obj, fields)));
    f := PassBlanks(text, r2, tabs, f);
    var r3 := r2.(it := r2.it + |tabs|);
    LoneOccurs(text, r3.it, '}');
    Finish(text, r3, f);
  }

  lemma {:induction false} ReadFields(text: string, r: Reader, fields: seq<Field>, pretty: bool, depth: nat, fuel: nat) returns (f: nat)
    requires Occurs(text, r.it, PrintFields(fields, pretty, depth))
    requires r.node.kind == Object && r.os == NoState && r.ss == ""
    requires NulFreeFields(fields) && EnoughInside(text, r.it, fuel)
    ensures EnoughInside(text, r.it + |PrintFields(fields, pretty, depth)|, f)
    ensures Scan(text, r, fuel)
         == Scan(text, r.(it := r.it + |PrintFields(fields, pretty, depth)|,
                          node := r.node.(obj := Overlay(r.node.obj, fields))), f)
    decreases fields, 2
  {
    hide Scan, Occurs, PrintField, Readback, NulFreeDoc;
    if fields == [] {
      f := fuel;
      assert r.node.(obj := Overlay(r.node.obj, fields)) == r.node;
    } else {
      var first := PrintField(fields[0], pretty, depth, |fields| > 1);
      OccursSplit(text, r.it, first, PrintFields(fields[1..], pretty, depth));
      assert fields[0] in fields;
      var r1, f1 := ReadField(text, r, fields[0], pretty, depth, |fields| > 1, fuel);
      f := ReadFields(text, r1, fields[1..], pretty, depth, f1);
    }
  }

  lemma {:induction false} ReadField(text: string, r: Reader, field: Field, pretty: bool, depth: nat, more: bool, fuel: nat)
    returns (next: Reader, f: nat)
    requires Occurs(text, r.it, PrintField(field, pretty, depth, more))
    requires r.node.kind == Object && r.os == NoState && r.ss == ""
    requires NulFree(field.key) && NulFreeDoc(field.value) && EnoughInside(text, r.it, fuel)
    ensures next == r.(it := r.it + |PrintField(field, pretty, depth, more)|,
                       node := r.node.(obj := r.node.obj[Strip(field.key) := Readback(field.value)]))
    ensures EnoughInside(text, next.it, f)
    ensures Scan(text, r, fuel) == Scan(text, next, f)
    decreases field, 1
  {
    hide Scan, Occurs, Tabs, NewLine, Comma, Blank, Quote, Print, Readback, Strip, NulFreeDoc, NulFree;
    var tabs, key, value := Tabs(pretty, depth), Quote(field.key), Print(field.value, pretty, depth);
    OccursSplit(text, r.it, tabs + key + ":" + value + Comma(more), NewLine(pretty));
    OccursSplit(text, r.it, tabs + key + ":" + value, Comma(more));
    OccursSplit(text, r.it, tabs + key + ":", value);
    OccursSplit(text, r.it, tabs + key, ":");
    OccursSplit(text, r.it, tabs, key);
    BlankParts(pretty, depth, more);
    f := PassBlanks(text, r, tabs, fuel);
    var colon, f1 := ReadKey(text, r.(it := r.it + |tabs|), field.key, f);
    LoneOccurs(text, colon.it, ':');
    f1 := ReadMember(text, colon, field.value, pretty, depth, f1);
    var r1 := Start(colon.it + 1 + |value|, r.node.(obj := r.node.obj[Strip(field.key) := Readback(field.value)]));
    f1 := PassBlanks(text, r1, Comma(more), f1);
    var r2 := r1.(it := r1.it + |Comma(more)|);
    f := PassBlanks(text, r2, NewLine(pretty), f1);
    next := r2.(it := r2.it + |NewLine(pretty)|);
  }

  /** The value behind a colon: the child parse itself starts on the colon and passes over it. */
  lemma {:induction false} ReadMember(text: string, r: Reader, d: Doc, pretty: bool, depth: nat, fuel: nat) returns (f: nat)
    requires r.it < |text| && text[r.it] == ':' && Occurs(text, r.it + 1, Print(d, pretty, depth))
    requires r.node.kind == Object && r.os == GotKey
    requires NulFreeDoc(d) && EnoughInside(text, r.it, fuel)
    ensures EnoughInside(text, r.it + 1 + |Print(d, pretty, depth)|, f)
    ensures Scan(text, r, fuel)
         == Scan(text, Start(r.it + 1 + |Print(d, pretty, depth)|, r.node.(obj := r.node.obj[r.ss := Readback(d)])), f)
    decreases d, 1
  {
    hide Scan, Resume, Print, Readback;
    Advance(text, Start(r.it, FRESH), fuel - 1);
    ReadDoc(text, r.it + 1, d, pretty, depth, fuel - 2);
    Descend(text, r, fuel);
    FirstChar(d, pretty, depth);
    Behind(r, d, r.it + 1, |Print(d, pretty, depth)|);
    f := fuel - 1;
  }

  lemma {:induction false} ReadList(text: string, r: Reader, items: seq<Doc>, pretty: bool, depth: nat, fuel: nat)
    requires Occurs(text, r.it, NewLine(pretty) + PrintItems(items, pretty, Deeper(pretty, depth)) + Tabs(pretty, depth) + "]")
    requires r.node.kind == Array && r.os == NoState && r.ss == ""
    requires NulFreeItems(items) && EnoughInside(text, r.it, fuel)
    ensures Scan(text, r, fuel)
         == Some(Parsed(r.node.(arr := r.node.arr + ReadItems(items)),
                        r.it + |NewLine(pretty) + PrintItems(items, pretty, Deeper(pretty, depth)) + Tabs(pretty, depth)|))
    decreases items, 3
  {
    hide Scan, Occurs, PrintItems, ReadItems, Tabs, NewLine, Blank, Returned;
    var body, tabs := PrintItems(items, pretty, Deeper(pretty, depth)), Tabs(pretty, depth);
    OccursSplit(text, r.it, NewLine(pretty) + body + tabs, "]");
    OccursSplit(text, r.it, NewLine(pretty) + body, tabs);
    OccursSplit(text, r.it, NewLine(pretty), body);
    BlankParts(pretty, depth, false);
    var f := PassBlanks(text, r, NewLine(pretty), fuel);
    var r1 := r.(it := r.it + |NewLine(pretty)|);
    f := ReadElements(text, r1, items, pretty, Deeper(pretty, depth), f);
    var r2 := r1.(it := r1.it + |body|, node := r.node.(arr := r.node.arr + ReadItems(items)));
    f := PassBlanks(text, r2, tabs, f);
    var r3 := r2.(it := r2.it + |tabs|);
    LoneOccurs(text, r3.it, ']');
    Finish(text, r3, f);
  }

  lemma FirstItem(items: seq<Doc>, pretty: bool, depth: nat, arr: seq<Json>)
    ensures items == [] ==> PrintItems(items, pretty, depth) == "" && arr + ReadItems(items) == arr
    ensures items != [] ==>
      && PrintItems(items, pretty, depth) == PrintItem(items[0], pretty, depth, |items| > 1) + PrintItems(items[1..], pretty, depth)
      && arr + ReadItems(items) == arr + [Readback(items[0])] + ReadItems(items[1..])
  {
    hide PrintItem, Readback;
  }

  lemma {:induction false} ReadElements(text: string, r: Reader, items: seq<Doc>, pretty: bool, depth: nat, fuel: nat) returns (f: nat)
    requires Occurs(text, r.it, PrintItems(items, pretty, depth))
    requires r.node.kind == Array && r.os == NoState && r.ss == ""
    requires NulFreeItems(items) && EnoughInside(text, r.it, fuel)
    ensures EnoughInside(text, r.it + |PrintItems(items, pretty, depth)|, f)
    ensures Scan(text, r, fuel)
         == Scan(text, r.(it := r.it + |PrintItems(items, pretty, depth)|,
                          node := r.node.(arr := r.node.arr + ReadItems(items))), f)
    decreases items, 2
  {
    hide Scan, Occurs, PrintItem, PrintItems, ReadItems, Readback, NulFreeDoc, EnoughInside;
    FirstItem(items, pretty, depth, r.node.arr);
    if items == [] {
      f := fuel;
    } else {
      var first := PrintItem(items[0], pretty, depth, |items| > 1);
      OccursSplit(text, r.it, first, PrintItems(items[1..], pretty, depth));
      assert items[0] in items;
      var r1, f1 := ReadElement(text, r, items[0], pretty, depth, |items| > 1, fuel);
      assert r1.it == r.it + |first|;
      f := ReadElements(text, r1, items[1..], pretty, depth, f1);
    }
  }

  lemma FirstChar(d: Doc, pretty: bool, depth: nat)
    ensures var p := Print(d, pretty, depth);
      p != "" && (p[0] == '"' || p[0] == '{' || p[0] == '[')
  {}

  lemma {:induction false} ReadElement(text: string, r: Reader, d: Doc, pretty: bool, depth: nat, more: bool, fuel: nat)
    returns (next: Reader, f: nat)
    requires Occurs(text, r.it, PrintItem(d, pretty, depth, more))
    requires r.node.kind == Array && r.os == NoState && r.ss == ""
    requires NulFreeDoc(d) && EnoughInside(text, r.it, fuel)
    ensures next == r.(it := r.it + |PrintItem(d, pretty, depth, more)|,
                       node := r.node.(arr := r.node.arr + [Readback(d)]))
    ensures EnoughInside(text, next.it, f)
    ensures Scan(text, r, fuel) == Scan(text, next, f)
    decreases d, 1
  {
    hide Scan, Occurs, Resume, Print, Readback, Tabs, NewLine, Comma, Blank, NulFreeDoc;
    var tabs, value := Tabs(pretty, depth), Print(d, pretty, depth);
    OccursSplit(text, r.it, tabs + value + Comma(more), NewLine(pretty));
    OccursSplit(text, r.it, tabs + value, Comma(more));
    OccursSplit(text, r.it, tabs, value);
    BlankParts(pretty, depth, more);
    f := PassBlanks(text, r, tabs, fuel);
    var r0 := r.(it := r.it + |tabs|);
    FirstChar(d, pretty, depth);
    assert value == [value[0]] + value[1..];
    FirstOccurs(text, r0.it, value[0], value[1..]);
    ReadDoc(text, r0.it, d, pretty, depth, f - 1);
    Descend(text, r0, f);
    Behind(r0, d, r0.it, |value|);
    var r1 := r0.(it := r0.it + |value|, node := r.node.(arr := r.node.arr + [Readback(d)]));
    var f1 := PassBlanks(text, r1, Comma(more), f - 1);
    var r2 := r1.(it := r1.it + |Comma(more)|);
    f := PassBlanks(text, r2, NewLine(pretty), f1);
    next := r2.(it := r2.it + |NewLine(pretty)|);
  }
}
