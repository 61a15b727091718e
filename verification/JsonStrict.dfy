/** Prints against RFC 8259: what is accepted, what it denotes, and how it is laid out. */
module JsonStrict {
  import opened Text
  import opened JsonScan
  import opened JsonPrint
  import opened JsonRoundTrip
  import opened JsonLaws
  import opened JsonGrammar
  import opened JsonSpelled

  // ----- Which prints are JSON

  /** A string that holds no raw control character but the three the printer escapes. */
  predicate Printable(s: string) {
    forall c <- s :: c >= ' ' || c == '\n' || c == '\r' || c == '\t'
  }

  /** The document a print stands for: a node without type is the empty string. */
  function Said(d: Doc): Doc {
    match d
    case Empty => Str("")
    case Str(_) => d
    case Dict(fields) => Dict(FieldsSaid(fields))
    case List(items) => List(ItemsSaid(items))
  }

  function FieldsSaid(fields: seq<Field>): seq<Field> {
    if fields == [] then [] else [Field(fields[0].key, Said(fields[0].value))] + FieldsSaid(fields[1..])
  }

  function ItemsSaid(items: seq<Doc>): seq<Doc> {
    if items == [] then [] else [Said(items[0])] + ItemsSaid(items[1..])
  }

  function UnitOf(c: char): Unit {
    if c == '\n' then Short('n')
    else if c == '\r' then Short('r')
    else if c == '\t' then Short('t')
    else if c == '"' || c == '\\' then Short(c)
    else Raw(c)
  }

  function UnitsOf(s: string): seq<Unit> {
    if s == "" then [] else [UnitOf(s[0])] + UnitsOf(s[1..])
  }

  /** The print as a written value: a line end and tabs in front of each member or element, and behind the last. */
  function TreeOf(d: Doc, pretty: bool, depth: nat): Tree
    decreases d, 0
  {
    var behind := NewLine(pretty) + Tabs(pretty, depth);
    match d
    case Empty => WordTree([])
    case Str(s) => WordTree(UnitsOf(s))
    case Dict(fields) => RecordTree(behind, BranchesOf(fields, pretty, Deeper(pretty, depth), behind))
    case List(items) => SequenceTree(behind, LeavesOf(items, pretty, Deeper(pretty, depth), behind))
  }

  function BranchesOf(fields: seq<Field>, pretty: bool, depth: nat, behind: string): seq<Branch>
    decreases fields, 1
  {
    if fields == [] then []
    else
      [Branch(NewLine(pretty) + Tabs(pretty, depth), UnitsOf(fields[0].key), "", "", TreeOf(fields[0].value, pretty, depth),
              if |fields| == 1 then behind else "")]
      + BranchesOf(fields[1..], pretty, depth, behind)
  }

  function LeavesOf(items: seq<Doc>, pretty: bool, depth: nat, behind: string): seq<Leaf>
    decreases items, 1
  {
    if items == [] then []
    else
      [Leaf(NewLine(pretty) + Tabs(pretty, depth), TreeOf(items[0], pretty, depth), if |items| == 1 then behind else "")]
      + LeavesOf(items[1..], pretty, depth, behind)
  }

  lemma UnitShows(c: char)
    ensures ShowUnit(UnitOf(c)) == EscapeChar(c)
    ensures Printable([c]) ==> GoodUnit(UnitOf(c))
  {
    assert c in [c];
  }

  lemma {:induction false} UnitsShow(s: string)
    ensures ShowUnits(UnitsOf(s)) == EscapeBody(s)
  {
    if s != "" {
      hide ShowUnit, UnitOf, EscapeChar;
      UnitsShow(s[1..]);
      UnitShows(s[0]);
      assert UnitsOf(s)[1..] == UnitsOf(s[1..]);
    }
  }

  lemma {:induction false} UnitsGood(s: string)
    requires Printable(s)
    ensures GoodUnits(UnitsOf(s))
  {
    if s != "" {
      hide UnitOf, GoodUnit;
      assert s[0] in s && forall c <- s[1..] :: c in s;
      UnitsGood(s[1..]);
      UnitShows(s[0]);
    }
  }

  lemma WordShows(s: string)
    ensures ShowWord(UnitsOf(s)) == Quote(s)
  {
    UnitsShow(s);
  }

  lemma {:induction false} UnitsMean(s: string, code: string -> string)
    ensures MeantWord(UnitsOf(s), code) == s && KnownUnits(UnitsOf(s))
  {
    if s != "" {
      UnitsMean(s[1..], code);
    }
  }

  lemma SpacesAhead(pretty: bool, depth: nat)
    ensures Spaces(NewLine(pretty) + Tabs(pretty, depth))
  {}

  lemma {:induction false} TreeShows(d: Doc, pretty: bool, depth: nat)
    ensures Show(TreeOf(d, pretty, depth)) == Print(d, pretty, depth)
    decreases d, 0
  {
    hide ShowWord, Quote, ShowBranches, ShowLeaves, PrintFields, PrintItems, BranchesOf, LeavesOf, NewLine, Tabs;
    match d
    case Empty => EmptyShows();
    case Str(s) => WordShows(s);
    case Dict(fields) =>
      BranchesShow(fields, pretty, Deeper(pretty, depth), NewLine(pretty) + Tabs(pretty, depth), Tabs(pretty, depth));
      Around("{", NewLine(pretty), PrintFields(fields, pretty, Deeper(pretty, depth)), Tabs(pretty, depth), "}");
    case List(items) =>
      LeavesShow(items, pretty, Deeper(pretty, depth), NewLine(pretty) + Tabs(pretty, depth), Tabs(pretty, depth));
      Around("[", NewLine(pretty), PrintItems(items, pretty, Deeper(pretty, depth)), Tabs(pretty, depth), "]");
  }

  lemma EmptyShows()
    ensures ShowWord([]) == "\"\""
  {}

  lemma Around(open: string, nl: string, body: string, tabs: string, close: string)
    ensures open + (nl + body + tabs) + close == open + nl + body + tabs + close
    ensures body == "" ==> nl + tabs == nl + body + tabs
  {}

  lemma {:induction false} BranchesShow(fields: seq<Field>, pretty: bool, depth: nat, behind: string, tabs: string)
    requires behind == NewLine(pretty) + tabs
    ensures (fields == [] <==> BranchesOf(fields, pretty, depth, behind) == []) && (fields == [] ==> PrintFields(fields, pretty, depth) == "")
    ensures fields != [] ==>
      ShowBranches(BranchesOf(fields, pretty, depth, behind)) == NewLine(pretty) + PrintFields(fields, pretty, depth) + tabs
    decreases fields, 1
  {
    hide Quote, ShowWord, Print, Show, TreeOf, NewLine, Tabs;
    if fields != [] {
      var f, rest := fields[0], fields[1..];
      var branches := BranchesOf(fields, pretty, depth, behind);
      TreeShows(f.value, pretty, depth);
      WordShows(f.key);
      BranchesShow(rest, pretty, depth, behind, tabs);
      assert branches[0].value == TreeOf(f.value, pretty, depth) && branches[1..] == BranchesOf(rest, pretty, depth, behind);
      hide BranchesOf, ShowBranches, UnitsOf;
      FieldShows(NewLine(pretty), Tabs(pretty, depth), Quote(f.key), Print(f.value, pretty, depth), PrintFields(rest, pretty, depth), tabs);
      OneShown(branches);
      OneField(fields, pretty, depth);
    }
  }

  lemma OneShown(branches: seq<Branch>)
    requires branches != []
    ensures ShowBranches(branches) ==
      if |branches| == 1 then ShowBranch(branches[0]) else ShowBranch(branches[0]) + ("," + ShowBranches(branches[1..]))
  {
    hide ShowBranch;
  }

  lemma OneField(fields: seq<Field>, pretty: bool, depth: nat)
    requires fields != []
    ensures PrintFields(fields, pretty, depth)
      == PrintField(fields[0], pretty, depth, |fields| > 1) + PrintFields(fields[1..], pretty, depth)
  {
    hide PrintField;
  }

  /** The two ways of putting a member together. */
  lemma FieldShows(nl: string, ahead: string, key: string, value: string, rest: string, tabs: string)
    ensures (nl + ahead) + (key + ("" + (":" + ("" + (value + (nl + tabs))))))
         == nl + (ahead + key + ":" + value + "" + nl + "") + tabs
    ensures (nl + ahead) + (key + ("" + (":" + ("" + (value + ""))))) + ("," + (nl + rest + tabs))
         == nl + (ahead + key + ":" + value + "," + nl + rest) + tabs
  {
    assert "" + (value + (nl + tabs)) == value + (nl + tabs) && "" + (value + "") == value;
    assert "" + (":" + (value + (nl + tabs))) == ":" + (value + (nl + tabs)) && "" + (":" + value) == ":" + value;
  }

  lemma {:induction false} LeavesShow(items: seq<Doc>, pretty: bool, depth: nat, behind: string, tabs: string)
    requires behind == NewLine(pretty) + tabs
    ensures (items == [] <==> LeavesOf(items, pretty, depth, behind) == []) && (items == [] ==> PrintItems(items, pretty, depth) == "")
    ensures items != [] ==>
      ShowLeaves(LeavesOf(items, pretty, depth, behind)) == NewLine(pretty) + PrintItems(items, pretty, depth) + tabs
    decreases items, 1
  {
    hide Print, Show, TreeOf, NewLine, Tabs;
    if items != [] {
      var d, rest := items[0], items[1..];
      var leaves := LeavesOf(items, pretty, depth, behind);
      TreeShows(d, pretty, depth);
      LeavesShow(rest, pretty, depth, behind, tabs);
      assert leaves[0].value == TreeOf(d, pretty, depth) && leaves[1..] == LeavesOf(rest, pretty, depth, behind);
      hide LeavesOf, ShowLeaves;
      ItemShows(NewLine(pretty), Tabs(pretty, depth), Print(d, pretty, depth), PrintItems(rest, pretty, depth), tabs);
      OneLeafShown(leaves);
      OneItem(items, pretty, depth);
    }
  }

  lemma OneLeafShown(leaves: seq<Leaf>)
    requires leaves != []
    ensures ShowLeaves(leaves) ==
      if |leaves| == 1 then ShowLeaf(leaves[0]) else ShowLeaf(leaves[0]) + ("," + ShowLeaves(leaves[1..]))
  {
    hide ShowLeaf;
  }

  lemma OneItem(items: seq<Doc>, pretty: bool, depth: nat)
    requires items != []
    ensures PrintItems(items, pretty, depth)
      == PrintItem(items[0], pretty, depth, |items| > 1) + PrintItems(items[1..], pretty, depth)
  {
    hide PrintItem;
  }

  lemma ItemShows(nl: string, ahead: string, value: string, rest: string, tabs: string)
    ensures (nl + ahead) + (value + (nl + tabs)) == nl + (ahead + value + "" + nl + "") + tabs
    ensures (nl + ahead) + (value + "") + ("," + (nl + rest + tabs)) == nl + (ahead + value + "," + nl + rest) + tabs
  {}

  /** With printable strings the written value is well formed. */
  lemma {:induction false} TreeGood(d: Doc, pretty: bool, depth: nat)
    requires AllStrings(d, Printable)
    ensures Good(TreeOf(d, pretty, depth))
    decreases d, 0
  {
    hide Spaces, GoodUnits, Printable, NewLine, Tabs;
    SpacesAhead(pretty, depth);
    match d
    case Empty => NoUnits();
    case Str(s) => UnitsGood(s);
    case Dict(fields) => BranchesGood(fields, pretty, Deeper(pretty, depth), NewLine(pretty) + Tabs(pretty, depth));
    case List(items) => LeavesGood(items, pretty, Deeper(pretty, depth), NewLine(pretty) + Tabs(pretty, depth));
  }

  lemma NoUnits()
    ensures GoodUnits([]) && Spaces("")
  {}

  lemma {:induction false} BranchesGood(fields: seq<Field>, pretty: bool, depth: nat, behind: string)
    requires (forall f <- fields :: Printable(f.key) && AllStrings(f.value, Printable)) && Spaces(behind)
    ensures forall b <- BranchesOf(fields, pretty, depth, behind) :: GoodBranch(b)
    decreases fields, 1
  {
    hide Spaces, GoodUnits, Printable, NewLine, Tabs, Good, TreeOf;
    if fields != [] {
      var f := fields[0];
      assert f in fields;
      SpacesAhead(pretty, depth);
      NoUnits();
      UnitsGood(f.key);
      TreeGood(f.value, pretty, depth);
      BranchesGood(fields[1..], pretty, depth, behind);
    }
  }

  lemma {:induction false} LeavesGood(items: seq<Doc>, pretty: bool, depth: nat, behind: string)
    requires (forall d <- items :: AllStrings(d, Printable)) && Spaces(behind)
    ensures forall l <- LeavesOf(items, pretty, depth, behind) :: GoodLeaf(l)
    decreases items, 1
  {
    hide Spaces, Printable, NewLine, Tabs, Good, TreeOf;
    if items != [] {
      assert items[0] in items;
      SpacesAhead(pretty, depth);
      NoUnits();
      TreeGood(items[0], pretty, depth);
      LeavesGood(items[1..], pretty, depth, behind);
    }
  }

  /** The written value denotes the document. */
  lemma {:induction false} TreeMeans(d: Doc, pretty: bool, depth: nat, code: string -> string)
    ensures MeaningOf(ValueOf(TreeOf(d, pretty, depth)), code) == Said(d)
    decreases d, 0
  {
    match d
    case Empty =>
    case Str(s) => UnitsMean(s, code);
    case Dict(fields) => BranchesMean(fields, pretty, Deeper(pretty, depth), NewLine(pretty) + Tabs(pretty, depth), code);
    case List(items) => LeavesMean(items, pretty, Deeper(pretty, depth), NewLine(pretty) + Tabs(pretty, depth), code);
  }

  lemma {:induction false} BranchesMean(fields: seq<Field>, pretty: bool, depth: nat, behind: string, code: string -> string)
    ensures FieldsMeant(MembersOf(BranchesOf(fields, pretty, depth, behind)), code) == FieldsSaid(fields)
    decreases fields, 1
  {
    hide TreeOf, ValueOf, MeaningOf, MeantWord, UnitsOf, NewLine, Tabs;
    if fields != [] {
      var f, branches := fields[0], BranchesOf(fields, pretty, depth, behind);
      TreeMeans(f.value, pretty, depth, code);
      UnitsMean(f.key, code);
      BranchesMean(fields[1..], pretty, depth, behind, code);
      assert branches[1..] == BranchesOf(fields[1..], pretty, depth, behind);
      assert MembersOf(branches)[1..] == MembersOf(branches[1..]);
    }
  }

  lemma {:induction false} LeavesMean(items: seq<Doc>, pretty: bool, depth: nat, behind: string, code: string -> string)
    ensures ItemsMeant(ValuesOf(LeavesOf(items, pretty, depth, behind)), code) == ItemsSaid(items)
    decreases items, 1
  {
    hide TreeOf, ValueOf, MeaningOf, NewLine, Tabs;
    if items != [] {
      var leaves := LeavesOf(items, pretty, depth, behind);
      TreeMeans(items[0], pretty, depth, code);
      LeavesMean(items[1..], pretty, depth, behind, code);
      assert leaves[1..] == LeavesOf(items[1..], pretty, depth, behind);
      assert ValuesOf(leaves)[1..] == ValuesOf(leaves[1..]);
    }
  }

  // ----- What is no JSON

  predicate Allowed(c: char) {
    c >= ' ' || Space(c)
  }

  predicate Between(text: string, from: nat, to: nat)
    requires to <= |text|
  {
    forall k :: from <= k < to ==> Allowed(text[k])
  }

  lemma UnitAllowed(text: string, it: nat)
    requires it < |text| && NextUnit(text, it).Some?
    ensures Between(text, it, NextUnit(text, it).value.1)
  {
    if NextUnit(text, it).value.0.Code? {
      var digits := text[it + 2..it + 6];
      assert forall k :: 0 <= k < 4 ==> digits[k] == text[it + 2 + k] && digits[k] >= ' ';
    }
  }

  lemma {:induction false} UnitsAllowed(text: string, it: nat)
    requires it <= |text| && ReadUnits(text, it).Some?
    ensures Between(text, it, ReadUnits(text, it).value.1)
    decreases |text| - it
  {
    hide NextUnit;
    if text[it] != '"' {
      UnitAllowed(text, it);
      UnitsAllowed(text, NextUnit(text, it).value.1);
    }
  }

  /** Nothing the recognizer accepts holds another control character. */
  lemma {:induction false} ValueAllowed(text: string, it: nat)
    requires it <= |text| && ReadValue(text, it).Some?
    ensures Between(text, it, ReadValue(text, it).value.1)
    decreases |text| - it, 0
  {
    hide ReadUnits, ReadMembers, ReadValues, SkipSpace;
    match text[it] {
      case '"' => UnitsAllowed(text, it + 1);
      case '{' =>
        var first := SkipSpace(text, it + 1);
        if !(first < |text| && text[first] == '}') {
          MembersAllowed(text, first);
        }
      case _ =>
        var first := SkipSpace(text, it + 1);
        if !(first < |text| && text[first] == ']') {
          ValuesAllowed(text, first);
        }
    }
  }

  lemma {:induction false} PairAllowed(text: string, it: nat)
    requires it <= |text| && ReadPair(text, it).Some?
    ensures Between(text, it, ReadPair(text, it).value.1)
    decreases |text| - it, 1
  {
    hide ReadUnits, ReadValue, SkipSpace;
    UnitsAllowed(text, it + 1);
    var colon := SkipSpace(text, ReadUnits(text, it + 1).value.1);
    ValueAllowed(text, SkipSpace(text, colon + 1));
  }

  lemma {:induction false} MembersAllowed(text: string, it: nat)
    requires it <= |text| && ReadMembers(text, it).Some?
    ensures Between(text, it, ReadMembers(text, it).value.1)
    decreases |text| - it, 2
  {
    hide ReadPair, SkipSpace;
    PairAllowed(text, it);
    var behind := ReadPair(text, it).value.1;
    if text[behind] == ',' {
      MembersAllowed(text, SkipSpace(text, behind + 1));
    }
  }

  lemma {:induction false} ValuesAllowed(text: string, it: nat)
    requires it <= |text| && ReadValues(text, it).Some?
    ensures Between(text, it, ReadValues(text, it).value.1)
    decreases |text| - it, 1
  {
    hide ReadValue, SkipSpace;
    ValueAllowed(text, it);
    var behind := SkipSpace(text, ReadValue(text, it).value.1);
    if text[behind] == ',' {
      ValuesAllowed(text, SkipSpace(text, behind + 1));
    }
  }

  lemma TextAllowed(text: string)
    requires ReadText(text).Some?
    ensures Between(text, 0, |text|)
  {
    ValueAllowed(text, SkipSpace(text, 0));
  }

  predicate AllAllowed(s: string) {
    forall c <- s :: Allowed(c)
  }

  lemma AllowedParts(a: string, b: string)
    requires AllAllowed(a + b)
    ensures AllAllowed(a) && AllAllowed(b)
  {
    assert forall c <- a :: c in a + b;
    assert forall c <- b :: c in a + b;
  }

  lemma {:induction false} BodyShows(s: string)
    requires AllAllowed(EscapeBody(s))
    ensures Printable(s)
  {
    if s != "" {
      AllowedParts(EscapeChar(s[0]), EscapeBody(s[1..]));
      BodyShows(s[1..]);
      CharShows(s[0]);
      assert s == [s[0]] + s[1..];
    }
  }

  lemma CharShows(c: char)
    requires AllAllowed(EscapeChar(c))
    ensures c >= ' ' || c == '\n' || c == '\r' || c == '\t'
  {
    assert c in [c];
  }

  lemma QuoteShows(s: string)
    requires AllAllowed(Quote(s))
    ensures Printable(s)
  {
    AllowedParts("\"" + EscapeBody(s), "\"");
    AllowedParts("\"", EscapeBody(s));
    BodyShows(s);
  }

  /** A print without other control characters is of a document without them. */
  lemma {:induction false} PrintShows(d: Doc, pretty: bool, depth: nat)
    requires AllAllowed(Print(d, pretty, depth))
    ensures AllStrings(d, Printable)
    decreases d, 0
  {
    hide AllAllowed, Quote, Printable, PrintFields, PrintItems, NewLine, Tabs;
    match d
    case Empty =>
    case Str(s) => QuoteShows(s);
    case Dict(fields) =>
      var body := PrintFields(fields, pretty, Deeper(pretty, depth));
      BodyAllowed("{", NewLine(pretty), body, Tabs(pretty, depth), "}");
      FieldsShow(fields, pretty, Deeper(pretty, depth));
    case List(items) =>
      var body := PrintItems(items, pretty, Deeper(pretty, depth));
      BodyAllowed("[", NewLine(pretty), body, Tabs(pretty, depth), "]");
      ItemsShow(items, pretty, Deeper(pretty, depth));
  }

  lemma BodyAllowed(open: string, nl: string, body: string, tabs: string, close: string)
    requires AllAllowed(open + nl + body + tabs + close)
    ensures AllAllowed(body)
  {
    hide AllAllowed;
    AllowedParts(open + nl + body + tabs, close);
    AllowedParts(open + nl + body, tabs);
    AllowedParts(open + nl, body);
  }

  lemma {:induction false} FieldsShow(fields: seq<Field>, pretty: bool, depth: nat)
    requires AllAllowed(PrintFields(fields, pretty, depth))
    ensures forall f <- fields :: Printable(f.key) && AllStrings(f.value, Printable)
    decreases fields, 1
  {
    hide AllAllowed, Quote, Printable, Print, NewLine, Tabs, Comma;
    if fields != [] {
      var f, more := fields[0], |fields| > 1;
      var tabs, key, value := Tabs(pretty, depth), Quote(f.key), Print(f.value, pretty, depth);
      AllowedParts(PrintField(f, pretty, depth, more), PrintFields(fields[1..], pretty, depth));
      FieldsShow(fields[1..], pretty, depth);
      AllowedParts(tabs + key + ":" + value + Comma(more), NewLine(pretty));
      AllowedParts(tabs + key + ":" + value, Comma(more));
      AllowedParts(tabs + key + ":", value);
      AllowedParts(tabs + key, ":");
      AllowedParts(tabs, key);
      QuoteShows(f.key);
      PrintShows(f.value, pretty, depth);
      assert fields == [f] + fields[1..];
    }
  }

  lemma {:induction false} ItemsShow(items: seq<Doc>, pretty: bool, depth: nat)
    requires AllAllowed(PrintItems(items, pretty, depth))
    ensures forall d <- items :: AllStrings(d, Printable)
    decreases items, 1
  {
    hide AllAllowed, Printable, Print, NewLine, Tabs, Comma;
    if items != [] {
      var d, more := items[0], |items| > 1;
      var tabs, value := Tabs(pretty, depth), Print(d, pretty, depth);
      AllowedParts(PrintItem(d, pretty, depth, more), PrintItems(items[1..], pretty, depth));
      ItemsShow(items[1..], pretty, depth);
      AllowedParts(tabs + value + Comma(more), NewLine(pretty));
      AllowedParts(tabs + value, Comma(more));
      AllowedParts(tabs, value);
      PrintShows(d, pretty, depth);
      assert items == [d] + items[1..];
    }
  }

  /**
   Every print, compact or pretty, at any depth, is JSON by RFC 8259 and denotes its document,
   exactly when no string or key holds another raw control character.
   */
  lemma PrintAccepted(d: Doc, pretty: bool, depth: nat, code: string -> string)
    ensures var read := ReadText(Print(d, pretty, depth));
      && (read.Some? <==> AllStrings(d, Printable))
      && (read.Some? ==> MeaningOf(read.value, code) == Said(d))
  {
    hide ReadText, Print, Show, TreeOf, ValueOf, MeaningOf, Good, Said, AllStrings, AllAllowed;
    var text, t := Print(d, pretty, depth), TreeOf(d, pretty, depth);
    if AllStrings(d, Printable) {
      TreeShows(d, pretty, depth);
      TreeGood(d, pretty, depth);
      TreeMeans(d, pretty, depth, code);
      NoUnits();
      TextRead("", t, "");
      assert "" + Show(t) + "" == text;
    } else if ReadText(text).Some? {
      TextAllowed(text);
      AllOf(text);
      PrintShows(d, pretty, depth);
    }
  }

  lemma AllOf(text: string)
    requires Between(text, 0, |text|)
    ensures AllAllowed(text)
  {}
}
