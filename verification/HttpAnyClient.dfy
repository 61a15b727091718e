/** What a server reads of requests that any client wrote: any separators, protocol and line ends, bodies in any layout. */
module HttpAnyClient {
  import opened Text
  import opened JsonScan
  import opened JsonPrint
  import opened JsonGrammar
  import opened JsonSpelled
  import opened HttpScan
  import opened HttpText
  import opened HttpRoundTrip
  import opened HttpLaws

  // ----- Heads

  /** A header line; `gap` is the one character behind the colon that the parser takes for the space. */
  datatype Line = Line(name: string, gap: char, value: string, eol: string)

  function LineText(l: Line): string {
    l.name + [':', l.gap] + l.value + l.eol
  }

  function LinesText(lines: seq<Line>): string {
    if lines == [] then "" else LineText(lines[0]) + LinesText(lines[1..])
  }

  function HeadersOf(lines: seq<Line>): (r: seq<Header>)
    ensures |r| == |lines| && forall i :: 0 <= i < |lines| ==> r[i] == Header(lines[i].name, lines[i].value, lines[i].eol)
  {
    if lines == [] then [] else [Header(lines[0].name, lines[0].value, lines[0].eol)] + HeadersOf(lines[1..])
  }

  predicate GoodLines(lines: seq<Line>) {
    forall i :: 0 <= i < |lines| ==> Printable(HeadersOf(lines)[i]) && !RequestLine(lines[i].name)
  }

  /** From behind the method's slash to the body; `last` is a line without a colon, such as an empty one. */
  function HeadText(t: Target, version: string, lines: seq<Line>, last: string): string {
    PrintTarget(t) + " " + (version + "\n") + LinesText(lines) + (last + "\n")
  }

  /** Line `i` is the last of its name. */
  predicate LastOf(lines: seq<Line>, i: nat) {
    i < |lines| && forall j :: i < j < |lines| ==> lines[j].name != lines[i].name
  }

  /** What a head writes into the request object: its request line, its headers, the parameters no header overrides. */
  ghost predicate Stored(m: map<string, Json>, obj: map<string, Json>, name: string, t: Target, version: string, lines: seq<Line>, fuel: nat) {
    && HasString(m, "method", name)
    && HasString(m, "route", "/" + Decoded(t.path, false))
    && HasString(m, "protocol", TargetLeftover(t) + Decoded(version, false))
    && (forall i :: 0 <= i < |lines| && LastOf(lines, i) ==> HasString(m, lines[i].name, Decoded(lines[i].value, false)))
    && (forall i :: 0 <= i < |ParamsOf(t)| && !NameIn(HeadersOf(lines), ParamsOf(t)[i].key) ==>
          ParamsOf(t)[i].key in m && Some(m[ParamsOf(t)[i].key]) == EntryOf(obj, ParamsOf(t)[i], fuel))
  }

  lemma {:induction false} ReadLines(text: string, h: Head, lines: seq<Line>, fuel: nat) returns (next: Head)
    requires h.state == HEADER_KEY && h.key == "" && GoodLines(lines) && Occurs(text, h.it, LinesText(lines))
    ensures next == h.(it := h.it + |LinesText(lines)|, value := next.value, obj := StoreHeaders(h.obj, HeadersOf(lines)))
    ensures ReadHead(text, h, fuel) == ReadHead(text, next, fuel)
    decreases lines
  {
    hide ReadHead, Occurs, HttpRoundTrip.Decoded, Printable;
    if lines == [] {
      next := h;
    } else {
      var l := lines[0];
      assert HeadersOf(lines)[1..] == HeadersOf(lines[1..]);
      assert forall i :: 0 <= i < |lines[1..]| ==> HeadersOf(lines[1..])[i] == HeadersOf(lines)[i + 1];
      OccursSplit(text, h.it, LineText(l), LinesText(lines[1..]));
      next := ReadLine(text, h, l.name, l.gap, l.value, l.eol, fuel);
      next := ReadLines(text, next, lines[1..], fuel);
    }
  }

  ghost function Kept(obj: map<string, Json>, t: Target, version: string, lines: seq<Line>, fuel: nat): map<string, Json>
    requires StoreTarget(obj, t, fuel).Some?
  {
    StoreHeaders(SetText(StoreTarget(obj, t, fuel).value, "protocol", TargetLeftover(t) + Decoded(version, false)), HeadersOf(lines))
  }

  lemma ReadHeadText(text: string, start: nat, obj: map<string, Json>, t: Target, version: string, lines: seq<Line>, last: string, fuel: nat)
    requires Occurs(text, start, HeadText(t, version, lines, last))
    requires GoodTarget(t) && StoreTarget(obj, t, fuel).Some? && Holds(PROTOCOL, version) && Holds(HEADER_KEY, last) && GoodLines(lines)
    ensures var r := ReadHead(text, Head(start, ROUTE, "", "/", obj), fuel);
      r.Some? && r.value.it == start + |HeadText(t, version, lines, last)| && r.value.obj == Kept(obj, t, version, lines, fuel)
  {
    hide ReadHead, Occurs, StoreTarget, StoreHeaders, PrintTarget, LinesText, GoodLines, GoodTarget, TargetLeftover, Holds, HttpRoundTrip.Decoded;
    Text.FourParts(text, start, PrintTarget(t) + " ", version + "\n", LinesText(lines), last + "\n");
    var h := ReadTarget(text, Head(start, ROUTE, "", "/", obj), t, fuel);
    h := ReadVersion(text, h, version, fuel);
    h := ReadLines(text, h, lines, fuel);
    ReadEnd(text, h, last, fuel);
  }

  lemma KeptStored(given: map<string, Json>, name: string, t: Target, version: string, lines: seq<Line>, fuel: nat)
    requires GoodParams(Initial(given, name), t, fuel) && GoodLines(lines)
    ensures StoreTarget(Initial(given, name), t, fuel).Some?
    ensures Stored(Kept(Initial(given, name), t, version, lines, fuel), Initial(given, name), name, t, version, lines, fuel)
  {
    hide Reparsed, HttpRoundTrip.Decoded, StoreHeaders, StoreTarget, EntryOf, NameIn, TargetLeftover, Printable;
    var obj, hs := Initial(given, name), HeadersOf(lines);
    TargetEntries(obj, t, fuel);
    var s := StoreTarget(obj, t, fuel).value;
    var start := SetText(s, "protocol", TargetLeftover(t) + Decoded(version, false));
    NoneHidden(lines);
    assert !KeyIn(ParamsOf(t), "method") && !KeyIn(ParamsOf(t), "protocol");
    OtherEntry(start, hs, "method");
    OtherEntry(start, hs, "route");
    OtherEntry(start, hs, "protocol");
    forall i | 0 <= i < |lines| && LastOf(lines, i)
      ensures HasString(StoreHeaders(start, hs), lines[i].name, Decoded(lines[i].value, false))
    {
      HeaderAt(start, hs, i);
    }
    forall i | 0 <= i < |ParamsOf(t)| && !NameIn(hs, ParamsOf(t)[i].key)
      ensures var m, k := StoreHeaders(start, hs), ParamsOf(t)[i].key; k in m && m[k] == s[k]
    {
      KeyThere(ParamsOf(t), i);
      OtherEntry(start, hs, ParamsOf(t)[i].key);
    }
  }

  lemma NoneHidden(lines: seq<Line>)
    requires GoodLines(lines)
    ensures forall k :: RequestLine(k) ==> !NameIn(HeadersOf(lines), k)
  {}

  predicate GoodHead(m: Method, t: Target, version: string, lines: seq<Line>, last: string) {
    GoodMethod(m) && GoodTarget(t) && Holds(PROTOCOL, version) && GoodLines(lines) && Holds(HEADER_KEY, last)
  }

  /** The head of any request is read to its end, and its body handed on. */
  lemma HeadRead(m: Method, t: Target, version: string, lines: seq<Line>, last: string, body: string, node: Json, fuel: nat)
    requires GoodHead(m, t, version, lines, last) && GoodParams(Initial(node.obj, m.name), t, fuel)
    ensures var text := m.start + HeadText(t, version, lines, last) + body;
      exists s ::
        && Stored(s, Initial(node.obj, m.name), m.name, t, version, lines, fuel)
        && ParseRequest(text, node, fuel) == ParseBody(text, node.(obj := s), |text| - |body|, fuel)
  {
    hide ReadHead, Kept, Stored, HeadText, GoodLines, GoodTarget, GoodParams, StoreTarget, MethodOf, ParseBody, Initial, Occurs, Holds;
    var head, obj := HeadText(t, version, lines, last), Initial(node.obj, m.name);
    var text := m.start + head + body;
    assert text == m.start + (head + body);
    MethodFound(text, m, head + body);
    OccursSelf(text);
    OccursSplit(text, 0, m.start + head, body);
    OccursSplit(text, 0, m.start, head);
    KeptStored(node.obj, m.name, t, version, lines, fuel);
    ReadHeadText(text, |m.start|, obj, t, version, lines, last, fuel);
    assert Stored(Kept(obj, t, version, lines, fuel), obj, m.name, t, version, lines, fuel);
  }

  /** The last `Content-Type` line decodes to `value`. */
  predicate TypeIs(lines: seq<Line>, value: string) {
    exists i :: 0 <= i < |lines| && LastOf(lines, i) && lines[i].name == "Content-Type" && Decoded(lines[i].value, false) == value
  }

  // ----- Bodies

  /** An object that anyone wrote, behind any head that announces JSON, overlays what the head left. */
  lemma JsonBodyRead(m: Method, t: Target, version: string, lines: seq<Line>, last: string, before: string, blank: string,
                     branches: seq<Branch>, behind: string, code: string -> string, node: Json, fuel: nat)
    requires GoodHead(m, t, version, lines, last) && GoodParams(Initial(node.obj, m.name), t, fuel) && TypeIs(lines, "application/json")
    requires Spaces(before) && Good(RecordTree(blank, branches)) && KnownValue(ValueOf(RecordTree(blank, branches)))
    requires var body := before + Show(RecordTree(blank, branches)) + behind;
      node.kind == Object && fuel > 2 * |body|
    ensures var text := m.start + HeadText(t, version, lines, last) + (before + Show(RecordTree(blank, branches)) + behind);
      exists s ::
        && Stored(s, Initial(node.obj, m.name), m.name, t, version, lines, fuel)
        && ParseRequest(text, node, fuel)
             == Some(Request(HTTP_API, node.(obj := Overlay(s, FieldsMeant(MembersOf(branches), code)))))
  {
    hide Scan, Stored, HeadText, GoodHead, GoodParams, Initial, Occurs, Overlay, Show, FieldsMeant, MembersOf, ParseRequest, KnownValue, Good;
    var tree := RecordTree(blank, branches);
    var body := before + Show(tree) + behind;
    var text := m.start + HeadText(t, version, lines, last) + body;
    var it := |text| - |body|;
    HeadRead(m, t, version, lines, last, body, node, fuel);
    var s :| Stored(s, Initial(node.obj, m.name), m.name, t, version, lines, fuel)
      && ParseRequest(text, node, fuel) == ParseBody(text, node.(obj := s), it, fuel);
    TypeStored(s, Initial(node.obj, m.name), m.name, t, version, lines, "application/json", fuel);
    OccursSelf(text);
    OccursSplit(text, 0, m.start + HeadText(t, version, lines, last), body);
    BodyParsed(text, it, before, tree, behind, node.(obj := s), code, fuel);
  }

  lemma BodyParsed(text: string, it: nat, before: string, t: Tree, behind: string, node: Json, code: string -> string, fuel: nat)
    requires Occurs(text, it, before + Show(t) + behind) && |text| == it + |before + Show(t) + behind| && fuel > 2 * (|text| - it)
    requires Spaces(before) && Good(t) && t.RecordTree? && KnownValue(ValueOf(t)) && node.kind == Object
    ensures exists end ::
      Scan(text, Start(it, node), fuel) == Some(Parsed(node.(obj := Overlay(node.obj, FieldsMeant(MembersOf(t.branches), code))), end))
  {
    hide Scan, Occurs, Overlay, Show, FieldsMeant, MembersOf, KnownValue, Good;
    OccursSplit(text, it, before + Show(t), behind);
    OccursSplit(text, it, before, Show(t));
    Starts(text, it + |before|, t);
    SkipSpaces(text, it, before);
    PassSpace(text, Start(it, node), fuel);
    ParseOver(text, it + |before|, t, node, code, fuel - |before|);
  }

  lemma TypeStored(s: map<string, Json>, obj: map<string, Json>, name: string, t: Target, version: string, lines: seq<Line>, value: string, fuel: nat)
    requires Stored(s, obj, name, t, version, lines, fuel) && TypeIs(lines, value)
    ensures HasString(s, "Content-Type", value)
  {
    hide HttpRoundTrip.Decoded, TargetLeftover, EntryOf, NameIn;
  }

  /** Behind a head with another type a body is left alone. */
  lemma OtherBodyRead(m: Method, t: Target, version: string, lines: seq<Line>, last: string, body: string, value: string, node: Json, fuel: nat)
    requires GoodHead(m, t, version, lines, last) && GoodParams(Initial(node.obj, m.name), t, fuel)
    requires TypeIs(lines, value) && value != "application/json" && value != FORM_TYPE
    ensures exists s ::
      && Stored(s, Initial(node.obj, m.name), m.name, t, version, lines, fuel)
      && ParseRequest(m.start + HeadText(t, version, lines, last) + body, node, fuel) == Some(Request(HTTP, node.(obj := s)))
  {
    hide Scan, ReadForm, Stored, HeadText, GoodHead, GoodParams, Initial, ParseRequest, TypeIs;
    var text := m.start + HeadText(t, version, lines, last) + body;
    HeadRead(m, t, version, lines, last, body, node, fuel);
    var s :| Stored(s, Initial(node.obj, m.name), m.name, t, version, lines, fuel)
      && ParseRequest(text, node, fuel) == ParseBody(text, node.(obj := s), |text| - |body|, fuel);
    TypeStored(s, Initial(node.obj, m.name), m.name, t, version, lines, value, fuel);
  }

  // ----- Forms

  /** A field and the texts behind its equals signs, which are joined without them. */
  datatype Pair = Pair(key: string, parts: seq<string>)

  function PartsText(parts: seq<string>): string {
    if parts == [] then "" else "=" + parts[0] + PartsText(parts[1..])
  }

  function Joined(parts: seq<string>): string {
    if parts == [] then "" else parts[0] + Joined(parts[1..])
  }

  function FormOf(pairs: seq<Pair>): string {
    if pairs == [] then ""
    else pairs[0].key + PartsText(pairs[0].parts) + (if |pairs| > 1 then "&" + FormOf(pairs[1..]) else "")
  }

  predicate GoodPairs(pairs: seq<Pair>) {
    forall p <- pairs :: FormText(p.key) && forall s <- p.parts :: FormText(s)
  }

  /** A last field without an equals sign is not stored; any other field is. */
  ghost function StorePairs(obj: map<string, Json>, pairs: seq<Pair>, fuel: nat): Option<map<string, Json>>
    decreases pairs
  {
    if pairs == [] || (|pairs| == 1 && pairs[0].parts == []) then Some(obj)
    else
      match StoreParam(obj, pairs[0].key, Joined(pairs[0].parts), fuel)
      case None => None
      case Some(next) => StorePairs(next, pairs[1..], fuel)
  }

  lemma {:induction false} ReadParts(text: string, f: Form, parts: seq<string>, fuel: nat)
    requires Occurs(text, f.it, PartsText(parts)) && forall s <- parts :: FormText(s)
    ensures ReadForm(text, f, fuel)
         == ReadForm(text, f.(it := f.it + |PartsText(parts)|, inValue := f.inValue || parts != [],
                              value := f.value + Joined(parts)), fuel)
    decreases parts
  {
    hide ReadForm, Occurs, FormText;
    if parts == [] {
      assert f.value + "" == f.value;
    } else {
      var s, rest := parts[0], parts[1..];
      OccursSplit(text, f.it, "=" + s, PartsText(rest));
      OccursSplit(text, f.it, "=", s);
      FirstOf(text, f.it, "=");
      FormEquals(text, f, fuel);
      assert s in parts;
      ReadFormRun(text, f.(it := f.it + 1, inValue := true), s, fuel);
      ReadParts(text, f.(it := f.it + 1 + |s|, inValue := true, value := f.value + s), rest, fuel);
      Assoc(f.value, s, Joined(rest));
    }
  }

  lemma ReadField(text: string, it: nat, obj: map<string, Json>, p: Pair, fuel: nat)
    requires Occurs(text, it, p.key + PartsText(p.parts)) && GoodPairs([p])
    ensures ReadForm(text, Form(it, false, "", "", obj), fuel)
         == ReadForm(text, Form(it + |p.key + PartsText(p.parts)|, p.parts != [], p.key, Joined(p.parts), obj), fuel)
  {
    hide ReadForm, Occurs, FormText, PartsText, Joined;
    assert p in [p];
    OccursSplit(text, it, p.key, PartsText(p.parts));
    ReadFormRun(text, Form(it, false, "", "", obj), p.key, fuel);
    assert "" + p.key == p.key && "" + Joined(p.parts) == Joined(p.parts);
    ReadParts(text, Form(it + |p.key|, false, p.key, "", obj), p.parts, fuel);
  }

  /** A form at the end of the text, whatever its fields look like. */
  lemma {:induction false} FormRead(text: string, it: nat, obj: map<string, Json>, pairs: seq<Pair>, fuel: nat)
    requires Occurs(text, it, FormOf(pairs)) && it + |FormOf(pairs)| == |text| && GoodPairs(pairs)
    ensures ReadForm(text, Form(it, false, "", "", obj), fuel) == StorePairs(obj, pairs, fuel)
    decreases pairs
  {
    hide Occurs, StoreParam, FormText, PartsText, Joined;
    if pairs != [] {
      var p, rest := pairs[0], pairs[1..];
      var first := p.key + PartsText(p.parts);
      assert p in pairs && forall q <- rest :: q in pairs;
      if rest == [] {
        assert FormOf(pairs) == first;
        ReadField(text, it, obj, p, fuel);
      } else {
        var more := "&" + FormOf(rest);
        assert FormOf(pairs) == first + more;
        OccursSplit(text, it, first, more);
        FirstOf(text, it + |first|, more);
        assert more[1..] == FormOf(rest);
        ReadField(text, it, obj, p, fuel);
        var stored := StoreParam(obj, p.key, Joined(p.parts), fuel);
        if stored.Some? {
          FormRead(text, it + |first| + 1, stored.value, rest, fuel);
        }
      }
    }
  }

  // ----- Values

  /** A parameter or field that holds JSON renews its entry: members over the old ones, elements behind the old ones. */
  lemma ParamRenewed(obj: map<string, Json>, key: string, before: string, t: Tree, behind: string, code: string -> string, fuel: nat)
    requires Spaces(before) && Good(t) && KnownValue(ValueOf(t)) && fuel > 2 * |before + Show(t) + behind|
    ensures StoreParam(obj, key, before + Show(t) + behind, fuel)
         == Some(obj[key := Renewed(ChildAt(obj, key), MeaningOf(ValueOf(t), code))])
  {
    hide Scan, Show, MeaningOf, Good, KnownValue;
    var child := ChildAt(obj, key).(kind := NoType);
    ParseAgain(before, t, behind, child, code, fuel);
    assert Renewed(child, MeaningOf(ValueOf(t), code)) == Renewed(ChildAt(obj, key), MeaningOf(ValueOf(t), code));
  }
}
