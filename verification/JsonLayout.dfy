/** The layout of a pretty print: it is the compact print with line ends and tabs, and every line stands at its depth. */
module JsonLayout {
  import opened Text
  import opened JsonPrint
  import opened JsonRoundTrip

  // ----- Taken out

  /** The text without its line feeds and tabs. */
  function Bare(s: string): string {
    if s == "" then "" else (if s[0] == '\n' || s[0] == '\t' then "" else [s[0]]) + Bare(s[1..])
  }

  lemma {:induction false} BareAppend(a: string, b: string)
    ensures Bare(a + b) == Bare(a) + Bare(b)
  {
    if a == "" {
      assert a + b == b;
    } else {
      assert (a + b)[1..] == a[1..] + b && (a + b)[0] == a[0];
      BareAppend(a[1..], b);
      Assoc(if a[0] == '\n' || a[0] == '\t' then "" else [a[0]], Bare(a[1..]), Bare(b));
    }
  }

  lemma {:induction false} BareSame(s: string)
    requires '\n' !in s && '\t' !in s
    ensures Bare(s) == s
  {
    if s != "" {
      BareSame(s[1..]);
    }
  }

  lemma {:induction false} BareNothing(s: string)
    requires forall k :: 0 <= k < |s| ==> s[k] == '\n' || s[k] == '\t'
    ensures Bare(s) == ""
  {
    if s != "" {
      BareNothing(s[1..]);
    }
  }

  lemma BodyBare(s: string)
    ensures '\n' !in EscapeBody(s) && '\t' !in EscapeBody(s)
  {}

  lemma QuoteBare(s: string)
    ensures Bare(Quote(s)) == Quote(s)
  {
    BodyBare(s);
    BareSame(Quote(s));
  }

  lemma BlanksBare(depth: nat)
    ensures Bare(NewLine(true)) == "" && Bare(Tabs(true, depth)) == ""
  {
    BareNothing(NewLine(true));
    BareNothing(Tabs(true, depth));
  }

  /** Line ends and tabs around other parts. */
  lemma BareAround(a: string, nl: string, b: string, tabs: string, c: string)
    requires Bare(nl) == "" && Bare(tabs) == ""
    ensures Bare(a + nl + b + tabs + c) == Bare(a) + Bare(b) + Bare(c)
  {
    BareAppend(a + nl + b + tabs, c);
    BareAppend(a + nl + b, tabs);
    BareAppend(a + nl, b);
    BareAppend(a, nl);
  }

  /** The pretty print with line feeds and tabs taken out is the compact print. */
  lemma {:induction false} PrettyIsCompact(d: Doc, depth: nat, other: nat)
    ensures Bare(Print(d, true, depth)) == Print(d, false, other)
    decreases d, 0
  {
    hide Bare, Quote, PrintFields, PrintItems;
    BlanksBare(depth);
    match d
    case Empty => QuoteBare("");
      EmptyIs();
    case Str(s) => QuoteBare(s);
    case Dict(fields) =>
      FieldsCompact(fields, depth + 1, other);
      BareAround("{", NewLine(true), PrintFields(fields, true, depth + 1), Tabs(true, depth), "}");
      BareBrackets();
      Compact("{", PrintFields(fields, false, other), "}");
    case List(items) =>
      ItemsCompact(items, depth + 1, other);
      BareAround("[", NewLine(true), PrintItems(items, true, depth + 1), Tabs(true, depth), "]");
      BareBrackets();
      Compact("[", PrintItems(items, false, other), "]");
  }

  lemma EmptyIs()
    ensures Quote("") == "\"\""
  {}

  lemma BareBrackets()
    ensures Bare("{") == "{" && Bare("}") == "}" && Bare("[") == "[" && Bare("]") == "]" && Bare(":") == ":" && Bare(",") == "," && Bare("") == ""
  {}

  lemma Compact(open: string, body: string, close: string)
    ensures open + "" + body + "" + close == open + body + close
  {}

  lemma {:induction false} FieldsCompact(fields: seq<Field>, depth: nat, other: nat)
    ensures Bare(PrintFields(fields, true, depth)) == PrintFields(fields, false, other)
    decreases fields, 2
  {
    hide PrintField;
    if fields == [] {
      BareBrackets();
    } else {
      hide Bare;
      FieldCompact(fields[0], depth, other, |fields| > 1);
      FieldsCompact(fields[1..], depth, other);
      BareAppend(PrintField(fields[0], true, depth, |fields| > 1), PrintFields(fields[1..], true, depth));
    }
  }

  lemma {:induction false} FieldCompact(f: Field, depth: nat, other: nat, more: bool)
    ensures Bare(PrintField(f, true, depth, more)) == PrintField(f, false, other, more)
    decreases f, 1
  {
    hide Bare, Quote, Print;
    BlanksBare(depth);
    BareBrackets();
    QuoteBare(f.key);
    PrettyIsCompact(f.value, depth, other);
    var key, value, comma := Quote(f.key), Print(f.value, true, depth), Comma(more);
    BareField(Tabs(true, depth), key, value, comma, NewLine(true));
    var compact := Print(f.value, false, other);
    assert "" + key == key && key + ":" + compact + comma + "" == key + ":" + compact + comma;
  }

  lemma BareField(tabs: string, key: string, value: string, comma: string, nl: string)
    requires Bare(tabs) == "" && Bare(nl) == "" && Bare(":") == ":"
    ensures Bare(tabs + key + ":" + value + comma + nl) == Bare(key) + ":" + Bare(value) + Bare(comma)
  {
    BareAppend(tabs + key + ":" + value + comma, nl);
    BareAppend(tabs + key + ":" + value, comma);
    BareAppend(tabs + key + ":", value);
    BareAppend(tabs + key, ":");
    BareAppend(tabs, key);
  }

  lemma {:induction false} ItemsCompact(items: seq<Doc>, depth: nat, other: nat)
    ensures Bare(PrintItems(items, true, depth)) == PrintItems(items, false, other)
    decreases items, 2
  {
    hide PrintItem;
    if items == [] {
      BareBrackets();
    } else {
      hide Bare;
      ItemCompact(items[0], depth, other, |items| > 1);
      ItemsCompact(items[1..], depth, other);
      BareAppend(PrintItem(items[0], true, depth, |items| > 1), PrintItems(items[1..], true, depth));
    }
  }

  lemma {:induction false} ItemCompact(d: Doc, depth: nat, other: nat, more: bool)
    ensures Bare(PrintItem(d, true, depth, more)) == PrintItem(d, false, other, more)
    decreases d, 1
  {
    hide Bare, Print;
    BlanksBare(depth);
    BareBrackets();
    PrettyIsCompact(d, depth, other);
    var value, comma := Print(d, true, depth), Comma(more);
    BareAppend(Tabs(true, depth) + value + comma, NewLine(true));
    BareAppend(Tabs(true, depth) + value, comma);
    BareAppend(Tabs(true, depth), value);
    var compact := Print(d, false, other);
    assert "" + compact + comma + "" == compact + comma;
  }

  // ----- Lines and depths

  predicate Closer(c: char) {
    c == '}' || c == ']'
  }

  function TabsFrom(text: string, it: nat): (n: nat)
    requires it <= |text|
    ensures it + n <= |text|
    decreases |text| - it
  {
    if it < |text| && text[it] == '\t' then 1 + TabsFrom(text, it + 1) else 0
  }

  /**
   From `it` on, outside of strings and inside `depth` brackets: a line ends behind every
   opening bracket and every comma and in front of every closing bracket, and nowhere else;
   each line starts with as many tabs as it is deep, a closing bracket's with one less.
   */
  predicate Laid(text: string, it: nat, depth: int, first: bool)
    requires it <= |text|
    decreases |text| - it
  {
    if it == |text| then true
    else
      var c := text[it];
      if c == '"' then LaidWord(text, it + 1, depth)
      else if c == '\n' then
        var line := it + 1 + TabsFrom(text, it + 1);
        && line < |text| && text[line] != '\n' && text[line] != ',' && text[line] != ':'
        && line - (it + 1) == (if Closer(text[line]) then depth - 1 else depth)
        && Laid(text, line, depth, true)
      else if Closer(c) then first && Laid(text, it + 1, depth - 1, false)
      else if c == ':' then it + 1 < |text| && text[it + 1] != '\n' && Laid(text, it + 1, depth, false)
      else
        && (c == '{' || c == '[' || c == ',') && it + 1 < |text| && text[it + 1] == '\n'
        && Laid(text, it + 1, if c == ',' then depth else depth + 1, false)
  }

  /** The same inside a string. */
  predicate LaidWord(text: string, it: nat, depth: int)
    requires it <= |text|
    decreases |text| - it
  {
    && it < |text| && text[it] != '\n' && text[it] != '\t'
    && if text[it] == '"' then Laid(text, it + 1, depth, false)
       else if text[it] == '\\' then it + 1 < |text| && LaidWord(text, it + 2, depth)
       else LaidWord(text, it + 1, depth)
  }

  lemma {:induction false} TabsThere(text: string, it: nat, n: nat)
    requires Occurs(text, it, Tabs(true, n)) && it + n < |text| && text[it + n] != '\t'
    ensures TabsFrom(text, it) == n
    decreases n
  {
    if n > 0 {
      var tabs := Tabs(true, n);
      assert text[it] == text[it..it + n][0] == tabs[0];
      assert text[it + 1..it + n] == text[it..it + n][1..] == tabs[1..] == Tabs(true, n - 1);
      TabsThere(text, it + 1, n - 1);
    }
  }

  lemma BodyChar(text: string, it: nat, c: char, depth: int)
    requires Occurs(text, it, EscapeChar(c)) && it <= |text|
    ensures it + |EscapeChar(c)| <= |text|
    ensures LaidWord(text, it, depth) == LaidWord(text, it + |EscapeChar(c)|, depth)
  {
    var e := EscapeChar(c);
    assert text[it] == text[it..it + |e|][0] == e[0];
  }

  lemma {:induction false} LaidBody(text: string, it: nat, s: string, depth: int)
    requires Occurs(text, it, EscapeBody(s))
    ensures it + |EscapeBody(s)| <= |text| && LaidWord(text, it, depth) == LaidWord(text, it + |EscapeBody(s)|, depth)
    decreases |s|
  {
    hide LaidWord, EscapeChar, Occurs;
    if s == "" {
      Inside(text, it, "");
    } else {
      OccursSplit(text, it, EscapeChar(s[0]), EscapeBody(s[1..]));
      Inside(text, it, EscapeChar(s[0]));
      BodyChar(text, it, s[0], depth);
      LaidBody(text, it + |EscapeChar(s[0])|, s[1..], depth);
    }
  }

  lemma LaidQuote(text: string, it: nat, s: string, depth: int, first: bool)
    requires Occurs(text, it, Quote(s))
    ensures it + |Quote(s)| <= |text| && Laid(text, it, depth, first) == Laid(text, it + |Quote(s)|, depth, false)
  {
    hide EscapeBody, Occurs;
    QuoteWhole(text, it, s);
    LaidBody(text, it + 1, s, depth);
  }

  /** A line end, tabs, and what the line starts with. */
  lemma LaidLine(text: string, it: nat, tabs: nat, depth: int, first: bool)
    requires it < |text| && text[it] == '\n' && Occurs(text, it + 1, Tabs(true, tabs)) && it + 1 + tabs < |text|
    requires var c := text[it + 1 + tabs];
      c != '\t' && c != '\n' && c != ',' && c != ':' && tabs == if Closer(c) then depth - 1 else depth
    ensures Laid(text, it, depth, first) == Laid(text, it + 1 + tabs, depth, true)
  {
    TabsThere(text, it + 1, tabs);
  }

  lemma LaidChar(text: string, it: nat, depth: int, first: bool)
    requires it + 1 < |text|
    ensures (text[it] == '{' || text[it] == '[') && text[it + 1] == '\n' ==>
      Laid(text, it, depth, first) == Laid(text, it + 1, depth + 1, false)
    ensures text[it] == ',' && text[it + 1] == '\n' ==> Laid(text, it, depth, first) == Laid(text, it + 1, depth, false)
    ensures text[it] == ':' && text[it + 1] != '\n' ==> Laid(text, it, depth, first) == Laid(text, it + 1, depth, false)
  {}

  lemma LaidCloser(text: string, it: nat, depth: int)
    requires it < |text| && Closer(text[it])
    ensures Laid(text, it, depth, true) == Laid(text, it + 1, depth - 1, false)
  {}

  /** Wherever a pretty print stands, the layout goes on behind it at the same depth. */
  lemma {:induction false} LaidDoc(text: string, it: nat, d: Doc, depth: nat, first: bool)
    requires Occurs(text, it, Print(d, true, depth))
    ensures var end := it + |Print(d, true, depth)|;
      end <= |text| && Laid(text, it, depth, first) == Laid(text, end, depth, false)
    decreases d, 0
  {
    hide Laid, Occurs, Quote, PrintFields, PrintItems;
    match d
    case Empty =>
      EmptyIs();
      LaidQuote(text, it, "", depth, first);
    case Str(s) => LaidQuote(text, it, s, depth, first);
    case Dict(fields) =>
      var body := PrintFields(fields, true, depth + 1);
      var inside := BracketsOccur(text, it, '{', body, '}', true, depth);
      LoneOccurs(text, it + 1, '\n');
      Inside(text, inside, body);
      LaidFields(text, inside, fields, depth + 1);
      LaidBrackets(text, it, '{', body, '}', depth, first);
    case List(items) =>
      var body := PrintItems(items, true, depth + 1);
      var inside := BracketsOccur(text, it, '[', body, ']', true, depth);
      LoneOccurs(text, it + 1, '\n');
      Inside(text, inside, body);
      LaidItems(text, inside, items, depth + 1);
      LaidBrackets(text, it, '[', body, ']', depth, first);
  }

  /** The brackets around members or elements that lay out from one line end to the next. */
  lemma LaidBrackets(text: string, it: nat, open: char, body: string, close: char, depth: nat, first: bool)
    requires Occurs(text, it, [open] + NewLine(true) + body + Tabs(true, depth) + [close])
    requires (open == '{' && close == '}') || (open == '[' && close == ']')
    requires it + 1 + |body| < |text| && text[it + 1 + |body|] == '\n'
    requires Laid(text, it + 1, depth + 1, false) == Laid(text, it + 1 + |body|, depth + 1, false)
    ensures var end := it + |[open] + NewLine(true) + body + Tabs(true, depth) + [close]|;
      end <= |text| && Laid(text, it, depth, first) == Laid(text, end, depth, false)
  {
    hide Laid, Occurs;
    var inside := BracketsOccur(text, it, open, body, close, true, depth);
    LoneOccurs(text, it + 1, '\n');
    LaidChar(text, it, depth, first);
    var last := inside + |body|;
    LaidLine(text, last - 1, depth, depth + 1, false);
    LaidCloser(text, last + depth, depth + 1);
  }

  /** Members, from the line end in front of them to the line end behind the last. */
  lemma {:induction false} LaidFields(text: string, it: nat, fields: seq<Field>, depth: nat)
    requires it > 0 && Occurs(text, it, PrintFields(fields, true, depth)) && it <= |text| && text[it - 1] == '\n'
    ensures var end := it + |PrintFields(fields, true, depth)|;
      end <= |text| && text[end - 1] == '\n' && Laid(text, it - 1, depth, false) == Laid(text, end - 1, depth, false)
    decreases fields, 3
  {
    hide Laid, PrintField, Occurs;
    if fields != [] {
      var first := PrintField(fields[0], true, depth, |fields| > 1);
      OccursSplit(text, it, first, PrintFields(fields[1..], true, depth));
      LaidField(text, it, fields[0], depth, |fields| > 1);
      LaidFields(text, it + |first|, fields[1..], depth);
    }
  }

  lemma {:induction false} LaidField(text: string, it: nat, f: Field, depth: nat, more: bool)
    requires it > 0 && Occurs(text, it, PrintField(f, true, depth, more)) && it <= |text| && text[it - 1] == '\n'
    ensures var end := it + |PrintField(f, true, depth, more)|;
      it < end <= |text| && text[end - 1] == '\n' && Laid(text, it - 1, depth, false) == Laid(text, end - 1, depth, false)
    decreases f, 2
  {
    hide Laid, Occurs, Quote, Print, PrintField;
    FieldParts(text, it, f, true, depth, more);
    var start := it + depth;
    var colon := start + |Quote(f.key)|;
    var end := colon + 1 + |Print(f.value, true, depth)|;
    QuoteWhole(text, start, f.key);
    LaidLine(text, it - 1, depth, depth, false);
    LaidQuote(text, start, f.key, depth, true);
    DocOpens(text, colon + 1, f.value, depth);
    LaidChar(text, colon, depth, false);
    LaidDoc(text, colon + 1, f.value, depth, false);
    LaidEnd(text, end, depth, more);
  }

  /** The comma, if any, and the line end behind a value. */
  lemma LaidEnd(text: string, it: nat, depth: nat, more: bool)
    requires it <= |text| && Occurs(text, it, Comma(more)) && Occurs(text, it + |Comma(more)|, NewLine(true))
    ensures var end := it + |Comma(more)|;
      end < |text| && text[end] == '\n' && Laid(text, it, depth, false) == Laid(text, end, depth, false)
  {
    hide Laid;
    LoneOccurs(text, it + |Comma(more)|, '\n');
    if more {
      LoneOccurs(text, it, ',');
      LaidChar(text, it, depth, false);
    }
  }

  lemma DocOpens(text: string, it: nat, d: Doc, depth: nat)
    requires Occurs(text, it, Print(d, true, depth))
    ensures it < |text| && (text[it] == '"' || text[it] == '{' || text[it] == '[')
  {
    FirstChar(d, true, depth);
    hide Print;
    assert text[it] == text[it..it + |Print(d, true, depth)|][0];
  }

  lemma {:induction false} LaidItems(text: string, it: nat, items: seq<Doc>, depth: nat)
    requires it > 0 && Occurs(text, it, PrintItems(items, true, depth)) && it <= |text| && text[it - 1] == '\n'
    ensures var end := it + |PrintItems(items, true, depth)|;
      end <= |text| && text[end - 1] == '\n' && Laid(text, it - 1, depth, false) == Laid(text, end - 1, depth, false)
    decreases items, 3
  {
    hide Laid, PrintItem, Occurs;
    if items != [] {
      var first := PrintItem(items[0], true, depth, |items| > 1);
      OccursSplit(text, it, first, PrintItems(items[1..], true, depth));
      LaidItem(text, it, items[0], depth, |items| > 1);
      LaidItems(text, it + |first|, items[1..], depth);
    }
  }

  lemma {:induction false} LaidItem(text: string, it: nat, d: Doc, depth: nat, more: bool)
    requires it > 0 && Occurs(text, it, PrintItem(d, true, depth, more)) && it <= |text| && text[it - 1] == '\n'
    ensures var end := it + |PrintItem(d, true, depth, more)|;
      it < end <= |text| && text[end - 1] == '\n' && Laid(text, it - 1, depth, false) == Laid(text, end - 1, depth, false)
    decreases d, 2
  {
    hide Laid, Occurs, Print, PrintItem;
    ItemParts(text, it, d, true, depth, more);
    DocOpens(text, it + depth, d, depth);
    LaidLine(text, it - 1, depth, depth, false);
    LaidDoc(text, it + depth, d, depth, true);
    LaidEnd(text, it + depth + |Print(d, true, depth)|, depth, more);
  }

  /** Every line of a pretty print stands at its depth. */
  lemma PrettyLaid(d: Doc, depth: nat)
    ensures Laid(Print(d, true, depth), 0, depth, false)
  {
    hide Print;
    var text := Print(d, true, depth);
    OccursSelf(text);
    LaidDoc(text, 0, d, depth, false);
  }
}
