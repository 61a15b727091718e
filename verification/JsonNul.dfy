/**
 Parsing the print of a document that holds NULs. The first NUL of the print, the character in
 front of it and the value it lies in decide, unless the parser steps over it.
 */
module JsonNul {
  import opened Text
  import opened JsonScan
  import opened JsonPrint
  import opened JsonRoundTrip
  import opened JsonLaws
  import opened JsonHalting

  /** What becomes of a parse at the first NUL of a print. */
  datatype Fate =
    | Whole     // there is no NUL
    | Back      // every value ends there
    | Stays     // an array reads the quote in front of it for ever
    | Over      // a holder takes the backslash in front of it for an escape and goes on behind it

  /** The character in front of the NUL: the opening quote, or the last one of an escape. */
  function LastPrinted(s: string): char {
    if s == "" then '"'
    else
      match s[|s| - 1]
      case '\n' => 'n'
      case '\r' => 'r'
      case '\t' => 't'
      case c => c
  }

  /** Of a string: what holds it reads the character in front of the NUL again. */
  function StringFate(s: string, below: seq<Kind>): Fate {
    if NulFree(s) then Whole
    else if below == [] then Back
    else
      var last := LastPrinted(CString(s));
      if last == '\\' then Over
      else if last == '"' && below[|below| - 1] == Array then Stays
      else Back
  }

  /** Of a document with these values around it: the first NUL in print order counts, and in a key it ends the object. */
  function FateOf(d: Doc, below: seq<Kind>): Fate
    decreases d, 0
  {
    match d
    case Empty => Whole
    case Str(s) => StringFate(s, below)
    case Dict(fields) => FieldsFate(fields)
    case List(items) => ItemsFate(items)
  }

  function FieldFate(f: Field): Fate
    decreases f, 0
  {
    if !NulFree(f.key) then Back else FateOf(f.value, [Object])
  }

  function FieldsFate(fields: seq<Field>): Fate
    decreases fields, 1
  {
    if fields == [] then Whole
    else if FieldFate(fields[0]) != Whole then FieldFate(fields[0])
    else FieldsFate(fields[1..])
  }

  function ItemsFate(items: seq<Doc>): Fate
    decreases items, 1
  {
    if items == [] then Whole
    else if FateOf(items[0], [Array]) != Whole then FateOf(items[0], [Array])
    else ItemsFate(items[1..])
  }

  /** What a fate says of the check in front of a text, given what it says behind. */
  predicate Meets(fate: Fate, before: bool, behind: bool) {
    match fate
    case Whole => before == behind
    case Back => before
    case Stays => !before
    case Over => true
  }

  // ----- The check on the parts of a print

  lemma {:induction false} WalkBlanks(text: string, it: nat, s: string, kind: Kind, below: seq<Kind>)
    requires Occurs(text, it, s) && Blank(s) && (kind == Array || kind == Object)
    ensures Halts(text, it, kind, NoState, below) == Halts(text, it + |s|, kind, NoState, below)
    decreases |s|
  {
    if s != "" {
      FirstBlank(text, Reader(it, FRESH.(kind := kind), NoState, ""), s);
      WalkBlanks(text, it + 1, s[1..], kind, below);
    }
  }

  lemma WalkChar(text: string, it: nat, c: char, kind: Kind, os: ObjState, below: seq<Kind>)
    requires Occurs(text, it, EscapeChar(c)) && c != NUL && (kind == String || (kind == Object && os == GetKey))
    ensures Halts(text, it, kind, os, below) == Halts(text, it + |EscapeChar(c)|, kind, os, below)
  {
    ReadChar(text, Reader(it, FRESH.(kind := kind), os, ""), c);
  }

  /** A string or key up to its end, or to its NUL. */
  lemma {:induction false} WalkBody(text: string, it: nat, s: string, kind: Kind, os: ObjState, below: seq<Kind>)
    requires Occurs(text, it, EscapeBody(s)) && NulFree(s) && (kind == String || (kind == Object && os == GetKey))
    ensures Halts(text, it, kind, os, below) == Halts(text, it + |EscapeBody(s)|, kind, os, below)
    decreases |s|
  {
    hide Halts, EscapeChar, Occurs;
    if s != "" {
      OccursSplit(text, it, EscapeChar(s[0]), EscapeBody(s[1..]));
      WalkChar(text, it, s[0], kind, os, below);
      WalkBody(text, it + |EscapeChar(s[0])|, s[1..], kind, os, below);
    }
  }

  /** A string with a NUL is printed up to the NUL, the NUL, and the rest. */
  lemma {:induction false} BodyCut(s: string) returns (rest: string)
    requires !NulFree(s)
    ensures EscapeBody(s) == EscapeBody(CString(s)) + ([NUL] + rest)
  {
    if s[0] == NUL {
      rest := EscapeBody(s[1..]);
    } else {
      assert s == [s[0]] + s[1..];
      rest := BodyCut(s[1..]);
      assert CString(s)[1..] == CString(s[1..]);
      hide EscapeChar;
      Assoc(EscapeChar(s[0]), EscapeBody(CString(s[1..])), [NUL] + rest);
    }
  }

  lemma {:induction false} LastOfEscape(s: string)
    ensures var printed := "\"" + EscapeBody(s); printed[|printed| - 1] == LastPrinted(s)
  {
    if |s| > 1 {
      LastOfEscape(s[1..]);
      assert s[1..][|s| - 2] == s[|s| - 1];
    } else if |s| == 1 {
      assert s[1..] == "";
    }
  }

  /** Where the NUL of a quoted string stands, and what stands in front of it. */
  lemma QuoteCut(text: string, it: nat, s: string) returns (nul: nat)
    requires Occurs(text, it, Quote(s)) && !NulFree(s)
    ensures nul == it + 1 + |EscapeBody(CString(s))| < |text| && text[it] == '"' && text[nul] == NUL
    ensures Occurs(text, it + 1, EscapeBody(CString(s))) && text[nul - 1] == LastPrinted(CString(s))
  {
    hide EscapeBody, Occurs, CString, LastPrinted, Quote;
    var kept := EscapeBody(CString(s));
    var rest := BodyCut(s);
    LastOfEscape(CString(s));
    QuoteParts(s, kept, rest);
    OccursSplit(text, it, "\"" + kept, [NUL] + (rest + "\""));
    OccursSplit(text, it, "\"", kept);
    LoneOccurs(text, it, '"');
    nul := it + |"\"" + kept|;
    FirstOccurs(text, nul, NUL, rest + "\"");
    LastOccurs(text, it, "\"" + kept);
  }

  lemma QuoteParts(s: string, kept: string, rest: string)
    requires EscapeBody(s) == kept + ([NUL] + rest)
    ensures Quote(s) == "\"" + kept + ([NUL] + (rest + "\""))
  {
    hide EscapeBody;
    assert Quote(s) == ("\"" + (kept + ([NUL] + rest))) + "\"";
  }

  lemma LastOccurs(text: string, it: nat, s: string)
    requires Occurs(text, it, s) && s != ""
    ensures text[it + |s| - 1] == s[|s| - 1]
  {
    assert text[it..it + |s|][|s| - 1] == s[|s| - 1];
  }

  /** The check in the innermost holder, or at the end of everything. */
  predicate Behind(text: string, it: nat, below: seq<Kind>)
    requires it <= |text|
  {
    below == [] || Halts(text, it, below[|below| - 1], NoState, below[..|below| - 1])
  }

  lemma WalkString(text: string, it: nat, s: string, below: seq<Kind>)
    requires Occurs(text, it, Quote(s))
    ensures it + |Quote(s)| <= |text|
    ensures Meets(StringFate(s, below), Halts(text, it, NoType, NoState, below), Behind(text, it + |Quote(s)|, below))
  {
    hide EscapeBody, CString, LastPrinted, Occurs;
    if NulFree(s) {
      QuoteWhole(text, it, s);
      assert Halts(text, it, NoType, NoState, below) == Halts(text, it + 1, String, NoState, below);
      WalkBody(text, it + 1, s, String, NoState, below);
    } else {
      var nul := QuoteCut(text, it, s);
      QuoteWhole(text, it, s);
      assert Halts(text, it, NoType, NoState, below) == Halts(text, it + 1, String, NoState, below);
      WalkBody(text, it + 1, CString(s), String, NoState, below);
    }
  }

  /** From the opening quote of a key to the colon, or to a NUL in the key. */
  lemma WalkKey(text: string, it: nat, key: string, below: seq<Kind>)
    requires Occurs(text, it, Quote(key))
    ensures it + |Quote(key)| <= |text|
    ensures Meets(if NulFree(key) then Whole else Back,
                  Halts(text, it, Object, NoState, below), Halts(text, it + |Quote(key)|, Object, GotKey, below))
  {
    hide EscapeBody, CString, LastPrinted, Occurs;
    QuoteWhole(text, it, key);
    assert Halts(text, it, Object, NoState, below) == Halts(text, it + 1, Object, GetKey, below);
    if NulFree(key) {
      WalkBody(text, it + 1, key, Object, GetKey, below);
    } else {
      var nul := QuoteCut(text, it, key);
      WalkBody(text, it + 1, CString(key), Object, GetKey, below);
    }
  }

  // ----- The check on documents

  lemma {:induction false} FateOnTop(d: Doc, below: seq<Kind>, kind: Kind)
    ensures FateOf(d, below + [kind]) == FateOf(d, [kind])
  {}

  /** Wherever a document is printed, in any text, its fate is what the check makes of it. */
  lemma {:induction false} WalkDoc(text: string, it: nat, d: Doc, pretty: bool, depth: nat, below: seq<Kind>)
    requires Occurs(text, it, Print(d, pretty, depth))
    ensures it + |Print(d, pretty, depth)| <= |text|
    ensures Meets(FateOf(d, below), Halts(text, it, NoType, NoState, below), Behind(text, it + |Print(d, pretty, depth)|, below))
    decreases d, 0
  {
    hide Halts, Behind, Occurs, PrintFields, PrintItems, FieldsFate, ItemsFate, StringFate, Quote;
    match d
    case Empty =>
      EmptyFate(below);
      WalkString(text, it, "", below);
    case Str(s) => WalkString(text, it, s, below);
    case Dict(fields) =>
      var body := PrintFields(fields, pretty, Deeper(pretty, depth));
      var inside := BracketsOccur(text, it, '{', body, '}', pretty, depth);
      WalkFields(text, inside, fields, pretty, Deeper(pretty, depth), below);
      WalkBrackets(text, it, '{', body, '}', pretty, depth, Object, below);
    case List(items) =>
      var body := PrintItems(items, pretty, Deeper(pretty, depth));
      var inside := BracketsOccur(text, it, '[', body, ']', pretty, depth);
      WalkItems(text, inside, items, pretty, Deeper(pretty, depth), below);
      WalkBrackets(text, it, '[', body, ']', pretty, depth, Array, below);
  }

  lemma EmptyFate(below: seq<Kind>)
    ensures StringFate("", below) == Whole && Quote("") == "\"\""
  {}

  /** The brackets and blanks around the pairs or elements. */
  lemma WalkBrackets(text: string, it: nat, open: char, body: string, close: char, pretty: bool, depth: nat,
                     kind: Kind, below: seq<Kind>)
    requires Occurs(text, it, [open] + NewLine(pretty) + body + Tabs(pretty, depth) + [close])
    requires (open == '{' && close == '}' && kind == Object) || (open == '[' && close == ']' && kind == Array)
    ensures var inside := it + 1 + |NewLine(pretty)|;
      var end := inside + |body| + |Tabs(pretty, depth)|;
      && end < |text|
      && Halts(text, it, NoType, NoState, below) == Halts(text, inside, kind, NoState, below)
      && Halts(text, inside + |body|, kind, NoState, below) == Behind(text, end + 1, below)
  {
    hide NewLine, Tabs, Occurs, Blank;
    var inside := BracketsOccur(text, it, open, body, close, pretty, depth);
    BlankParts(pretty, depth, false);
    WalkBlanks(text, it + 1, NewLine(pretty), kind, below);
    WalkBlanks(text, inside + |body|, Tabs(pretty, depth), kind, below);
  }

  lemma {:induction false} WalkFields(text: string, it: nat, fields: seq<Field>, pretty: bool, depth: nat, below: seq<Kind>)
    requires Occurs(text, it, PrintFields(fields, pretty, depth))
    ensures it + |PrintFields(fields, pretty, depth)| <= |text|
    ensures Meets(FieldsFate(fields), Halts(text, it, Object, NoState, below),
                  Halts(text, it + |PrintFields(fields, pretty, depth)|, Object, NoState, below))
    decreases fields, 3
  {
    hide Halts, PrintField, FieldFate;
    if fields != [] {
      var first := PrintField(fields[0], pretty, depth, |fields| > 1);
      OccursSplit(text, it, first, PrintFields(fields[1..], pretty, depth));
      WalkField(text, it, fields[0], pretty, depth, |fields| > 1, below);
      WalkFields(text, it + |first|, fields[1..], pretty, depth, below);
    }
  }

  lemma {:induction false} WalkField(text: string, it: nat, f: Field, pretty: bool, depth: nat, more: bool, below: seq<Kind>)
    requires Occurs(text, it, PrintField(f, pretty, depth, more))
    ensures it + |PrintField(f, pretty, depth, more)| <= |text|
    ensures Meets(FieldFate(f), Halts(text, it, Object, NoState, below),
                  Halts(text, it + |PrintField(f, pretty, depth, more)|, Object, NoState, below))
    decreases f, 2
  {
    hide Halts, Occurs, Tabs, Quote, EscapeBody, Print, PrintField, Comma, NewLine, FieldFate, Blank;
    FieldParts(text, it, f, pretty, depth, more);
    BlankParts(pretty, depth, more);
    var start := it + |Tabs(pretty, depth)|;
    var colon := start + |Quote(f.key)|;
    var end := colon + 1 + |Print(f.value, pretty, depth)|;
    WalkBlanks(text, it, Tabs(pretty, depth), Object, below);
    WalkPair(text, start, f, pretty, depth, below);
    WalkBlanks(text, end, Comma(more), Object, below);
    WalkBlanks(text, end + |Comma(more)|, NewLine(pretty), Object, below);
  }

  /** A key, its colon and its value. */
  lemma {:induction false} WalkPair(text: string, it: nat, f: Field, pretty: bool, depth: nat, below: seq<Kind>)
    requires Occurs(text, it, Quote(f.key)) && Occurs(text, it + |Quote(f.key)| + 1, Print(f.value, pretty, depth))
    requires it + |Quote(f.key)| < |text| && text[it + |Quote(f.key)|] == ':'
    ensures var end := it + |Quote(f.key)| + 1 + |Print(f.value, pretty, depth)|;
      && end <= |text|
      && Meets(FieldFate(f), Halts(text, it, Object, NoState, below), Halts(text, end, Object, NoState, below))
    decreases f, 1
  {
    hide Halts, Occurs, Quote, EscapeBody, Print, FateOf, NulFree;
    WalkKey(text, it, f.key, below);
    WalkValue(text, it + |Quote(f.key)|, f.value, pretty, depth, below);
  }

  /** The value behind a colon. */
  lemma {:induction false} WalkValue(text: string, it: nat, d: Doc, pretty: bool, depth: nat, below: seq<Kind>)
    requires it < |text| && text[it] == ':' && Occurs(text, it + 1, Print(d, pretty, depth))
    ensures it + 1 + |Print(d, pretty, depth)| <= |text|
    ensures Meets(FateOf(d, [Object]), Halts(text, it, Object, GotKey, below),
                  Halts(text, it + 1 + |Print(d, pretty, depth)|, Object, NoState, below))
    decreases d, 1
  {
    hide Halts, Behind, Occurs, Print, FateOf;
    WalkColon(text, it, below);
    FateOnTop(d, below, Object);
    WalkDoc(text, it + 1, d, pretty, depth, below + [Object]);
    TopBehind(text, it + 1 + |Print(d, pretty, depth)|, below, Object);
  }

  lemma WalkColon(text: string, it: nat, below: seq<Kind>)
    requires it < |text| && text[it] == ':'
    ensures Halts(text, it, Object, GotKey, below) == Halts(text, it + 1, NoType, NoState, below + [Object])
  {}

  lemma TopBehind(text: string, it: nat, below: seq<Kind>, kind: Kind)
    requires it <= |text|
    ensures Behind(text, it, below + [kind]) == Halts(text, it, kind, NoState, below)
  {
    OnTop(below, kind);
  }

  lemma {:induction false} WalkItems(text: string, it: nat, items: seq<Doc>, pretty: bool, depth: nat, below: seq<Kind>)
    requires Occurs(text, it, PrintItems(items, pretty, depth))
    ensures it + |PrintItems(items, pretty, depth)| <= |text|
    ensures Meets(ItemsFate(items), Halts(text, it, Array, NoState, below),
                  Halts(text, it + |PrintItems(items, pretty, depth)|, Array, NoState, below))
    decreases items, 3
  {
    hide Halts, PrintItem, FateOf;
    if items != [] {
      var first := PrintItem(items[0], pretty, depth, |items| > 1);
      OccursSplit(text, it, first, PrintItems(items[1..], pretty, depth));
      WalkItem(text, it, items[0], pretty, depth, |items| > 1, below);
      WalkItems(text, it + |first|, items[1..], pretty, depth, below);
    }
  }

  lemma {:induction false} WalkItem(text: string, it: nat, d: Doc, pretty: bool, depth: nat, more: bool, below: seq<Kind>)
    requires Occurs(text, it, PrintItem(d, pretty, depth, more))
    ensures it + |PrintItem(d, pretty, depth, more)| <= |text|
    ensures Meets(FateOf(d, [Array]), Halts(text, it, Array, NoState, below),
                  Halts(text, it + |PrintItem(d, pretty, depth, more)|, Array, NoState, below))
    decreases d, 2
  {
    hide Halts, Occurs, Tabs, Print, PrintItem, Comma, NewLine, FateOf, Blank, Quote, EscapeBody;
    ItemParts(text, it, d, pretty, depth, more);
    BlankParts(pretty, depth, more);
    var start := it + |Tabs(pretty, depth)|;
    WalkBlanks(text, it, Tabs(pretty, depth), Array, below);
    WalkElement(text, start, d, pretty, depth, below);
    var end := start + |Print(d, pretty, depth)|;
    WalkBlanks(text, end, Comma(more), Array, below);
    WalkBlanks(text, end + |Comma(more)|, NewLine(pretty), Array, below);
  }

  lemma {:induction false} WalkElement(text: string, it: nat, d: Doc, pretty: bool, depth: nat, below: seq<Kind>)
    requires Occurs(text, it, Print(d, pretty, depth))
    ensures it + |Print(d, pretty, depth)| <= |text|
    ensures Meets(FateOf(d, [Array]), Halts(text, it, Array, NoState, below),
                  Halts(text, it + |Print(d, pretty, depth)|, Array, NoState, below))
    decreases d, 1
  {
    hide Halts, Behind, Occurs, Print, FateOf;
    DocOpens(text, it, d, pretty, depth);
    WalkOpening(text, it, below);
    FateOnTop(d, below, Array);
    WalkDoc(text, it, d, pretty, depth, below + [Array]);
    TopBehind(text, it + |Print(d, pretty, depth)|, below, Array);
  }

  lemma DocOpens(text: string, it: nat, d: Doc, pretty: bool, depth: nat)
    requires Occurs(text, it, Print(d, pretty, depth))
    ensures it < |text| && (text[it] == '"' || text[it] == '{' || text[it] == '[')
  {
    FirstChar(d, pretty, depth);
    hide Print;
    assert text[it] == text[it..it + |Print(d, pretty, depth)|][0];
  }

  lemma WalkOpening(text: string, it: nat, below: seq<Kind>)
    requires it < |text| && (text[it] == '"' || text[it] == '{' || text[it] == '[')
    ensures Halts(text, it, Array, NoState, below) == Halts(text, it, NoType, NoState, below + [Array])
  {}

  // ----- All documents

  /** Whether the parse of a print returns: by its first NUL, or, when the parser steps over that, by the check. */
  predicate Returns(d: Doc, pretty: bool, depth: nat) {
    match FateOf(d, [])
    case Whole => true
    case Back => true
    case Stays => false
    case Over => Halts(Print(d, pretty, depth), 0, NoType, NoState, [])
  }

  lemma PrintHalts(d: Doc, pretty: bool, depth: nat)
    ensures Returns(d, pretty, depth) <==> Halts(Print(d, pretty, depth), 0, NoType, NoState, [])
  {
    hide Halts, FateOf, Print;
    var text := Print(d, pretty, depth);
    OccursSelf(text);
    WalkDoc(text, 0, d, pretty, depth, []);
  }

  /** A parse of a whole buffer, by the check. */
  lemma ParsesExact(text: string)
    ensures (exists result :: Parses(text, result)) <==> Halts(text, 0, NoType, NoState, [])
  {
    hide Halts, Scan;
    var r := Start(0, FRESH);
    HaltsExact(text, r);
    if fuel: nat :| Scan(text, r, fuel).Some? {
      assert Parses(text, Scan(text, r, fuel).value);
    }
    if result :| Parses(text, result) {
      var fuel: nat :| Scan(text, r, fuel) == Some(result);
    }
  }

  /** For every document, compact or pretty. */
  lemma ReturnsExact(d: Doc, pretty: bool, depth: nat)
    ensures (exists result :: Parses(Print(d, pretty, depth), result)) <==> Returns(d, pretty, depth)
  {
    hide Halts, Print, Returns;
    PrintHalts(d, pretty, depth);
    ParsesExact(Print(d, pretty, depth));
  }

  /** An array whose only element starts with a NUL: the parse of its print never returns. */
  lemma NulInArrayNeverReturns(rest: string, pretty: bool, depth: nat)
    ensures FateOf(List([Str([NUL] + rest)]), []) == Stays
    ensures forall result :: !Parses(Print(List([Str([NUL] + rest)]), pretty, depth), result)
  {
    var d := List([Str([NUL] + rest)]);
    assert ([NUL] + rest)[0] == NUL;
    assert ItemsFate(d.items) == FateOf(d.items[0], [Array]) == Stays;
    ReturnsExact(d, pretty, depth);
  }

  // ----- Behind a NUL that was stepped over

  /** A string that neither starts with a NUL nor has one behind a quote. */
  predicate Unquoted(s: string) {
    (s != "" ==> s[0] != NUL) && forall k :: 0 <= k < |s| - 1 && s[k] == '"' ==> s[k + 1] != NUL
  }

  predicate Guarded(s: string) {
    forall k :: 0 <= k < |s| - 1 && s[k] == '"' ==> s[k + 1] != NUL
  }

  lemma {:induction false} EscapedGuarded(s: string)
    requires Unquoted(s)
    ensures Unquoted(EscapeBody(s))
  {
    EscapedInside(s);
    if s != "" {
      assert EscapeBody(s)[0] == EscapeChar(s[0])[0];
    }
  }

  lemma {:induction false} EscapedInside(s: string)
    requires Guarded(s)
    ensures Guarded(EscapeBody(s)) && (s != "" && s[0] != NUL ==> EscapeBody(s)[0] != NUL)
  {
    if s != "" {
      var e, rest := EscapeChar(s[0]), EscapeBody(s[1..]);
      GuardedTail(s);
      EscapedInside(s[1..]);
      assert s[1..] == "" ==> rest == "";
      GuardedJoin(e, rest);
    }
  }

  lemma GuardedTail(s: string)
    requires Guarded(s) && s != ""
    ensures Guarded(s[1..])
  {
    var t := s[1..];
    forall k | 0 <= k < |t| - 1 && t[k] == '"'
      ensures t[k + 1] != NUL
    {
      assert s[k + 1] == '"';
    }
  }

  lemma GuardedJoin(a: string, b: string)
    requires Guarded(a) && Guarded(b) && (a != "" && b != "" && a[|a| - 1] == '"' ==> b[0] != NUL)
    ensures Guarded(a + b)
  {}

  lemma UnquotedJoin(a: string, b: string)
    requires Unquoted(a) && Unquoted(b)
    ensures Unquoted(a + b)
  {
    GuardedJoin(a, b);
    assert a == "" ==> a + b == b;
  }

  lemma UnquotedKept()
    ensures OfPrints(Unquoted, Unquoted)
  {
    forall a: string, b: string | Unquoted(a) && Unquoted(b)
      ensures Unquoted(a + b)
    {
      UnquotedJoin(a, b);
    }
    forall s: string | Unquoted(s)
      ensures Unquoted(Quote(s))
    {
      EscapedGuarded(s);
      UnquotedJoin("\"", EscapeBody(s));
      UnquotedJoin("\"" + EscapeBody(s), "\"");
    }
    assert Unquoted(Quote("")) by {
      EscapedGuarded("");
    }
    forall s: string | Layout(s)
      ensures Unquoted(s)
    {
      assert forall k :: 0 <= k < |s| ==> s[k] in s;
    }
  }

  /** A text without a quote in front of a NUL passes the check. */
  lemma {:induction false} GuardedHalts(text: string, it: nat, kind: Kind, os: ObjState, below: seq<Kind>)
    requires Guarded(text) && it <= |text| && (below == [] || it > 0 || At(text, 0) != NUL)
    requires text != "" && text[|text| - 1] != '"' && text[|text| - 1] != '\\'
    ensures Halts(text, it, kind, os, below)
    decreases |text| - it, if kind == NoType then 0 else 1
  {
    if At(text, it) == NUL {
      if below != [] && it < |text| && text[it - 1] == '\\' {
        GuardedHalts(text, it + 1, below[|below| - 1], NoState, below[..|below| - 1]);
      }
    } else if text[it] == '\\' {
      GuardedHalts(text, it + 2, kind, os, below);
    } else {
      match ActionOf(kind, os, text[it])
      case Open(now) => GuardedHalts(text, it + 1, now, NoState, below);
      case Item => GuardedHalts(text, it, NoType, NoState, below + [Array]);
      case Member => GuardedHalts(text, it + 1, NoType, NoState, below + [Object]);
      case Key(next) => GuardedHalts(text, it + 1, kind, next, below);
      case Take => GuardedHalts(text, it + 1, kind, os, below);
      case Skip => GuardedHalts(text, it + 1, kind, os, below);
      case _ =>
        if below != [] {
          GuardedHalts(text, it + 1, below[|below| - 1], NoState, below[..|below| - 1]);
        }
    }
  }

  /** When no string or key has a NUL at its start or behind a quote, the parse of the print returns. */
  lemma UnquotedReturns(d: Doc, pretty: bool, depth: nat)
    requires AllStrings(d, Unquoted)
    ensures exists result :: Parses(Print(d, pretty, depth), result)
  {
    if d.Dict? || d.List? {
      PrintEnds(d, pretty, depth);
      hide Print, OfPrints, Halts, Returns, AllStrings, Parses;
      UnquotedKept();
      ReturnsExact(d, pretty, depth);
      PrintKept(d, pretty, depth, Unquoted, Unquoted);
      PrintHalts(d, pretty, depth);
      GuardedHalts(Print(d, pretty, depth), 0, NoType, NoState, []);
    } else {
      RootReturns(d, pretty, depth);
    }
  }

  lemma RootReturns(d: Doc, pretty: bool, depth: nat)
    requires d.Empty? || d.Str?
    ensures exists result :: Parses(Print(d, pretty, depth), result)
  {
    hide Print, Parses, Halts;
    ReturnsExact(d, pretty, depth);
  }

  lemma PrintEnds(d: Doc, pretty: bool, depth: nat)
    requires d.Dict? || d.List?
    ensures var text := Print(d, pretty, depth); text != "" && text[|text| - 1] == if d.Dict? then '}' else ']'
  {}

  /** An element or member `\\`, NUL, `x`: the parser steps over the NUL and comes back. */
  lemma SteppedOverReturns(pretty: bool, depth: nat)
    ensures var s := ['\\', NUL, 'x'];
      && FateOf(List([Str(s)]), []) == FateOf(Dict([Field("k", Str(s))]), []) == Over
      && (exists result :: Parses(Print(List([Str(s)]), pretty, depth), result))
      && (exists result :: Parses(Print(Dict([Field("k", Str(s))]), pretty, depth), result))
  {
    var s := ['\\', NUL, 'x'];
    SteppedOver('x');
    assert Unquoted(s) && Unquoted("k");
    UnquotedReturns(List([Str(s)]), pretty, depth);
    UnquotedReturns(Dict([Field("k", Str(s))]), pretty, depth);
  }

  lemma SteppedOver(c: char)
    ensures var s := ['\\', NUL, c];
      !NulFree(s) && CString(s) == "\\" && StringFate(s, [Array]) == StringFate(s, [Object]) == Over
    ensures var s := ['\\', NUL, c];
      FateOf(List([Str(s)]), []) == FateOf(Dict([Field("k", Str(s))]), []) == Over
  {
    var s := ['\\', NUL, c];
    assert s[1] == NUL && s[1..][0] == NUL;
    assert CString(s[1..]) == "";
    assert s[0] != NUL;
    assert FieldFate(Field("k", Str(s))) == Over;
    assert ItemsFate([Str(s)]) == Over;
    assert FieldsFate([Field("k", Str(s))]) == Over;
  }

  /**
   Behind such a NUL the quotes pair the other way round until an object that waits for its
   colon passes one: here `b` is read as that object's text, and its array is entered as an
   array, where it stands on a quote in front of a NUL.
   */
  lemma SteppedOverStays()
    ensures var d := Dict([Field("a", Str(['\\', NUL])), Field("b", List([Str([NUL])]))]);
      FateOf(d, []) == Over && forall result :: !Parses(Print(d, false, 0), result)
  {
    var over, loop := Field("a", Str(['\\', NUL])), Field("b", List([Str([NUL])]));
    var d := Dict([over, loop]);
    StepPrint();
    StepHalts();
    ReturnsExact(d, false, 0);
    assert FieldFate(over) == Over by {
      assert over.value.s[1] == NUL && over.value.s[1..][0] == NUL && CString(over.value.s[1..]) == "";
    }
  }

  const STEP_TEXT := "{\"a\":\"\\\\\0\",\"b\":[\"\0\"]}"

  lemma CompactItem(d: Doc)
    ensures Print(List([d]), false, 0) == "[" + Print(d, false, 0) + "]"
  {
    assert [d][1..] == [] && PrintItems([], false, 0) == "";
    CompactElement(d);
    hide PrintItem, Quote, EscapeBody;
    assert PrintItems([d], false, 0) == Print(d, false, 0) + "" == Print(d, false, 0);
  }

  lemma CompactElement(d: Doc)
    ensures PrintItem(d, false, 0, false) == Print(d, false, 0)
  {
    hide Print;
    assert "" + Print(d, false, 0) + "" + "" == Print(d, false, 0);
  }

  lemma CompactField(f: Field, more: bool)
    ensures PrintField(f, false, 0, more) == Quote(f.key) + ":" + Print(f.value, false, 0) + (if more then "," else "")
  {
    hide Print, Quote;
    assert "" + Quote(f.key) == Quote(f.key);
  }

  lemma CompactPair(f: Field, g: Field)
    ensures Print(Dict([f, g]), false, 0) == "{" + PrintField(f, false, 0, true) + PrintField(g, false, 0, false) + "}"
  {
    hide PrintField;
    assert [f, g][1..] == [g] && [g][1..] == [] && PrintFields([], false, 0) == "";
    assert PrintFields([g], false, 0) == PrintField(g, false, 0, false);
    assert PrintFields([f, g], false, 0) == PrintField(f, false, 0, true) + PrintFields([g], false, 0);
  }

  lemma QuoteOne(c: char)
    ensures EscapeBody([c]) == EscapeChar(c) && Quote([c]) == "\"" + EscapeChar(c) + "\""
  {
    hide EscapeChar;
    assert [c][1..] == "";
    assert EscapeBody([c]) == EscapeChar(c) + "" == EscapeChar(c);
  }

  lemma OverField()
    ensures PrintField(Field("a", Str(['\\', NUL])), false, 0, true) == "\"a\":\"\\\\\0\","
  {
    CompactField(Field("a", Str(['\\', NUL])), true);
    QuoteOne('a');
    QuoteOne(NUL);
    assert ['\\', NUL][1..] == [NUL];
    assert EscapeBody(['\\', NUL]) == "\\\\" + [NUL];
    hide PrintField, EscapeBody;
  }

  lemma LoopField()
    ensures PrintField(Field("b", List([Str([NUL])])), false, 0, false) == "\"b\":[\"\0\"]"
  {
    CompactField(Field("b", List([Str([NUL])])), false);
    CompactItem(Str([NUL]));
    QuoteOne('b');
    QuoteOne(NUL);
    hide PrintField, PrintItems, EscapeBody, Quote;
  }

  lemma StepPrint()
    ensures Print(Dict([Field("a", Str(['\\', NUL])), Field("b", List([Str([NUL])]))]), false, 0) == STEP_TEXT
  {
    hide Print, PrintField;
    OverField();
    LoopField();
    CompactPair(Field("a", Str(['\\', NUL])), Field("b", List([Str([NUL])])));
  }

  lemma StepHalts()
    ensures !Halts(STEP_TEXT, 0, NoType, NoState, [])
  {
    var text, o, oa := STEP_TEXT, [Object], [Object, Array];
    assert [] + [Object] == o && o[..0] == [] && o + [Array] == oa && |text| == 21;
    assert !Halts(text, 17, String, NoState, oa);
    assert !Halts(text, 16, Array, NoState, o);
    assert !Halts(text, 15, NoType, NoState, o);
    assert !Halts(text, 13, Object, GotKey, []);
    assert !Halts(text, 12, Object, GotKey, []);
    assert !Halts(text, 10, Object, GetKey, []);
    assert !Halts(text, 9, Object, NoState, []);
    assert !Halts(text, 8, String, NoState, o);
    assert !Halts(text, 6, String, NoState, o);
    assert !Halts(text, 5, NoType, NoState, o);
    assert !Halts(text, 4, Object, GotKey, []);
    assert !Halts(text, 2, Object, GetKey, []);
    assert !Halts(text, 1, Object, NoState, []);
  }
}
