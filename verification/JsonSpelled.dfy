/** Parsing what anyone may write: every text of strings, objects and arrays by RFC 8259, whatever its white space and escapes. */
module JsonSpelled {
  import opened Text
  import opened JsonScan
  import opened JsonPrint
  import opened JsonRoundTrip
  import opened JsonLaws
  import opened JsonGrammar

  /** What the parser makes of one written character: an escape is the character behind its backslash, or nothing. */
  function Heard(u: Unit): string {
    match u
    case Raw(c) => [c]
    case Short(c) => if c == 'n' || c == 'r' || c == 't' then "" else [c]
    case Code(digits) => "u" + digits
  }

  function HeardWord(units: seq<Unit>): string {
    if units == [] then "" else Heard(units[0]) + HeardWord(units[1..])
  }

  function NodeOf(v: Value): Json
    decreases v, 0
  {
    match v
    case Word(units) => Json(String, HeardWord(units), map[], [])
    case Record(members) => Json(Object, "", NodesOver(map[], members), [])
    case Sequence(values) => Json(Array, "", map[], NodesIn(values))
  }

  function NodesOver(m: map<string, Json>, members: seq<Member>): map<string, Json>
    decreases members, 1
  {
    if members == [] then m
    else NodesOver(m[HeardWord(members[0].name) := NodeOf(members[0].value)], members[1..])
  }

  function NodesIn(values: seq<Value>): seq<Json>
    decreases values, 1
  {
    if values == [] then [] else [NodeOf(values[0])] + NodesIn(values[1..])
  }

  /** A node without a type that gets a value: its other fields are kept, its own members overridden, its elements kept in front. */
  function Filled(node: Json, v: Value): Json {
    match v
    case Word(units) => node.(kind := String, str := HeardWord(units))
    case Record(members) => node.(kind := Object, obj := NodesOver(node.obj, members))
    case Sequence(values) => node.(kind := Array, arr := node.arr + NodesIn(values))
  }

  lemma FilledFresh(v: Value)
    ensures Filled(FRESH, v) == NodeOf(v)
  {
    hide HeardWord, NodesOver, NodesIn;
    match v
    case Sequence(values) => assert [] + NodesIn(values) == NodesIn(values);
    case _ =>
  }

  /** The cursor a parse returns: behind a string, on the closing bracket of anything else. */
  function Cursor(v: Value, end: nat): int {
    if v.Word? then end else end - 1
  }

  // ----- Strings and white space

  lemma HearRaw(text: string, r: Reader, fuel: nat)
    requires r.it < |text| && GoodUnit(Raw(text[r.it])) && Reading(r) && fuel > 0
    ensures Scan(text, r, fuel) == Scan(text, r.(it := r.it + 1, ss := r.ss + [text[r.it]]), fuel - 1)
  {}

  lemma HearShort(text: string, r: Reader, fuel: nat)
    requires r.it + 1 < |text| && text[r.it] == '\\' && Reading(r) && fuel > 0
    ensures Scan(text, r, fuel)
         == Scan(text, r.(it := r.it + 2, ss := if Deleted(text[r.it + 1]) then r.ss else r.ss + [text[r.it + 1]]), fuel - 1)
  {}

  /** A number of raw characters. */
  lemma {:induction false} HearRaws(text: string, r: Reader, n: nat, fuel: nat)
    requires r.it + n <= |text| && (forall k :: r.it <= k < r.it + n ==> GoodUnit(Raw(text[k]))) && Reading(r) && fuel >= n
    ensures Scan(text, r, fuel) == Scan(text, r.(it := r.it + n, ss := r.ss + text[r.it..r.it + n]), fuel - n)
    decreases n
  {
    hide Scan;
    if n == 0 {
      assert r.ss + text[r.it..r.it] == r.ss;
    } else {
      HearRaw(text, r, fuel);
      HearRaws(text, r.(it := r.it + 1, ss := r.ss + [text[r.it]]), n - 1, fuel - 1);
      assert r.ss + [text[r.it]] + text[r.it + 1..r.it + n] == r.ss + text[r.it..r.it + n];
    }
  }

  lemma HearUnit(text: string, r: Reader, fuel: nat) returns (f: nat)
    requires r.it < |text| && text[r.it] != '"' && NextUnit(text, r.it).Some? && Reading(r) && EnoughInside(text, r.it, fuel)
    ensures var (u, next) := NextUnit(text, r.it).value;
      && EnoughInside(text, next, f)
      && Scan(text, r, fuel) == Scan(text, r.(it := next, ss := r.ss + Heard(u)), f)
  {
    hide Scan;
    var (u, next) := NextUnit(text, r.it).value;
    match u {
      case Raw(_) =>
        HearRaw(text, r, fuel);
        f := fuel - 1;
      case Short(c) =>
        HearShort(text, r, fuel);
        assert r.ss + "" == r.ss;
        f := fuel - 1;
      case Code(digits) =>
        HearShort(text, r, fuel);
        var r1 := r.(it := r.it + 2, ss := r.ss + ['u']);
        assert forall k :: r1.it <= k < r1.it + 4 ==> text[k] == digits[k - r1.it];
        HearRaws(text, r1, 4, fuel - 1);
        assert r.ss + ['u'] + digits == r.ss + ("u" + digits);
        f := fuel - 5;
    }
  }

  /** A string or key up to its closing quote. */
  lemma {:induction false} HearUnits(text: string, r: Reader, fuel: nat) returns (f: nat)
    requires r.it <= |text| && ReadUnits(text, r.it).Some? && Reading(r) && EnoughInside(text, r.it, fuel)
    ensures var (units, end) := ReadUnits(text, r.it).value;
      && text[end - 1] == '"' && EnoughInside(text, end - 1, f)
      && Scan(text, r, fuel) == Scan(text, r.(it := end - 1, ss := r.ss + HeardWord(units)), f)
    decreases |text| - r.it
  {
    hide Scan, NextUnit, Heard;
    var (units, end) := ReadUnits(text, r.it).value;
    if text[r.it] == '"' {
      assert r.ss + HeardWord([]) == r.ss;
      f := fuel;
    } else {
      var (u, next) := NextUnit(text, r.it).value;
      f := HearUnit(text, r, fuel);
      f := HearUnits(text, r.(it := next, ss := r.ss + Heard(u)), f);
      HeardMore(r.ss, u, units);
    }
  }

  lemma HeardMore(ss: string, u: Unit, units: seq<Unit>)
    requires units != [] && units[0] == u
    ensures ss + Heard(u) + HeardWord(units[1..]) == ss + HeardWord(units)
  {
    hide Heard;
  }

  /** White space is passed over wherever no string or key is read. */
  lemma {:induction false} PassSpace(text: string, r: Reader, fuel: nat)
    requires r.it <= |text| && r.node.kind != String && (r.node.kind == Object ==> r.os != GetKey)
    requires fuel >= SkipSpace(text, r.it) - r.it
    ensures Scan(text, r, fuel) == Scan(text, r.(it := SkipSpace(text, r.it)), fuel - (SkipSpace(text, r.it) - r.it))
    decreases |text| - r.it
  {
    if r.it < |text| && Space(text[r.it]) {
      SpaceTurn(text, r);
      Advance(text, r, fuel);
      hide Scan, Turn;
      PassSpace(text, r.(it := r.it + 1), fuel - 1);
    }
  }

  /** A comma between members or elements, and the white space behind it. */
  lemma PassComma(text: string, r: Reader, fuel: nat) returns (f: nat)
    requires r.it < |text| && text[r.it] == ',' && EnoughInside(text, r.it, fuel)
    requires (r.node.kind == Object || r.node.kind == Array) && r.os == NoState
    ensures var first := SkipSpace(text, r.it + 1);
      EnoughInside(text, first, f) && Scan(text, r, fuel) == Scan(text, r.(it := first), f)
  {
    hide Scan, Turn, SkipSpace;
    CommaTurn(text, r);
    Advance(text, r, fuel);
    PassSpace(text, r.(it := r.it + 1), fuel - 1);
    f := fuel - 1 - (SkipSpace(text, r.it + 1) - (r.it + 1));
  }

  lemma CommaTurn(text: string, r: Reader)
    requires r.it < |text| && text[r.it] == ',' && (r.node.kind == Object || r.node.kind == Array) && r.os == NoState
    ensures Turn(text, r) == Go(r.(it := r.it + 1))
  {}

  lemma SpaceTurn(text: string, r: Reader)
    requires r.it < |text| && Space(text[r.it]) && r.node.kind != String && (r.node.kind == Object ==> r.os != GetKey)
    ensures Turn(text, r) == Go(r.(it := r.it + 1))
  {}

  // ----- Values

  /** Wherever the recognizer reads a value, a parse from any node without a type gives it that value, with the exact cursor. */
  lemma {:induction false} ParseValue(text: string, it: nat, node: Json, fuel: nat)
    requires it <= |text| && ReadValue(text, it).Some? && node.kind == NoType && Enough(text, it, fuel)
    ensures var (v, end) := ReadValue(text, it).value;
      Scan(text, Start(it, node), fuel) == Some(Parsed(Filled(node, v), Cursor(v, end)))
    decreases |text| - it, 0
  {
    hide Scan, ReadUnits, ReadMembers, ReadValues, HeardWord, SkipSpace, NodesOver, NodesIn;
    match text[it] {
      case '"' => ParseWord(text, it, node, fuel);
      case '{' =>
        var first := SkipSpace(text, it + 1);
        var f := ParseOpening(text, it, node, Object, fuel);
        var r := Start(first, node.(kind := Object));
        if first < |text| && text[first] == '}' {
          Finish(text, r, f);
          NoNodes(node);
        } else {
          ParseMembers(text, r, f);
        }
      case _ =>
        var first := SkipSpace(text, it + 1);
        var f := ParseOpening(text, it, node, Array, fuel);
        var r := Start(first, node.(kind := Array));
        if first < |text| && text[first] == ']' {
          Finish(text, r, f);
          NoNodes(node);
        } else {
          ParseValues(text, r, f);
        }
    }
  }

  lemma NoNodes(node: Json)
    ensures NodesOver(node.obj, []) == node.obj && NodesIn([]) == [] && node.arr + NodesIn([]) == node.arr
  {}

  lemma ParseWord(text: string, it: nat, node: Json, fuel: nat)
    requires it < |text| && text[it] == '"' && ReadUnits(text, it + 1).Some? && node.kind == NoType && Enough(text, it, fuel)
    ensures var (units, end) := ReadUnits(text, it + 1).value;
      Scan(text, Start(it, node), fuel) == Some(Parsed(node.(kind := String, str := HeardWord(units)), end))
  {
    hide Scan, ReadUnits, HeardWord;
    Advance(text, Start(it, node), fuel);
    var r := Start(it + 1, node.(kind := String));
    var f := HearUnits(text, r, fuel - 1);
    var (units, end) := ReadUnits(text, it + 1).value;
    assert "" + HeardWord(units) == HeardWord(units);
    Finish(text, r.(it := end - 1, ss := HeardWord(units)), f);
  }

  /** An opening bracket and the white space behind it. */
  lemma ParseOpening(text: string, it: nat, node: Json, kind: Kind, fuel: nat) returns (f: nat)
    requires it < |text| && node.kind == NoType && Enough(text, it, fuel) && ((text[it] == '{' && kind == Object) || (text[it] == '[' && kind == Array))
    ensures var first := SkipSpace(text, it + 1);
      && EnoughInside(text, first, f)
      && Scan(text, Start(it, node), fuel) == Scan(text, Start(first, node.(kind := kind)), f)
  {
    hide Scan, SkipSpace;
    Advance(text, Start(it, node), fuel);
    PassSpace(text, Start(it + 1, node.(kind := kind)), fuel - 1);
    f := fuel - 1 - (SkipSpace(text, it + 1) - (it + 1));
  }

  /** A name up to its colon. */
  lemma ParseName(text: string, r: Reader, fuel: nat) returns (f: nat)
    requires r.it < |text| && text[r.it] == '"' && ReadUnits(text, r.it + 1).Some?
    requires r.node.kind == Object && r.os == NoState && r.ss == "" && EnoughInside(text, r.it, fuel)
    ensures var (name, end) := ReadUnits(text, r.it + 1).value;
      var colon := SkipSpace(text, end);
      && EnoughInside(text, colon, f)
      && Scan(text, r, fuel) == Scan(text, r.(it := colon, os := GotKey, ss := HeardWord(name)), f)
  {
    hide Scan, ReadUnits, HeardWord, SkipSpace;
    Advance(text, r, fuel);
    var key := r.(it := r.it + 1, os := GetKey);
    f := HearUnits(text, key, fuel - 1);
    var (name, end) := ReadUnits(text, r.it + 1).value;
    assert "" + HeardWord(name) == HeardWord(name);
    Advance(text, key.(it := end - 1, ss := HeardWord(name)), f);
    var named := r.(it := end, os := GotKey, ss := HeardWord(name));
    PassSpace(text, named, f - 1);
    f := f - 1 - (SkipSpace(text, end) - end);
  }

  lemma {:induction false} ParseMember(text: string, r: Reader, fuel: nat) returns (f: nat)
    requires r.it <= |text| && ReadPair(text, r.it).Some?
    requires r.node.kind == Object && r.os == NoState && r.ss == "" && EnoughInside(text, r.it, fuel)
    ensures var (m, behind) := ReadPair(text, r.it).value;
      && EnoughInside(text, behind, f)
      && Scan(text, r, fuel)
           == Scan(text, Start(behind, r.node.(obj := r.node.obj[HeardWord(m.name) := NodeOf(m.value)])), f)
    decreases |text| - r.it, 1
  {
    hide Scan, ReadUnits, ReadValue, HeardWord, SkipSpace, NodeOf, Resume;
    var (name, end) := ReadUnits(text, r.it + 1).value;
    var colon := SkipSpace(text, end);
    f := ParseName(text, r, fuel);
    var named := r.(it := colon, os := GotKey, ss := HeardWord(name));
    ParseChild(text, colon, f - 1);
    var (v, last) := ReadValue(text, SkipSpace(text, colon + 1)).value;
    Descend(text, named, f);
    ResumeNamed(named, v, last);
    PassSpace(text, Resume(named, Parsed(NodeOf(v), Cursor(v, last))), f - 1);
    f := f - 1 - (SkipSpace(text, last) - last);
  }

  lemma ResumeNamed(r: Reader, v: Value, end: nat)
    requires r.node.kind == Object && end > 0
    ensures Resume(r, Parsed(NodeOf(v), Cursor(v, end))) == Start(end, r.node.(obj := r.node.obj[r.ss := NodeOf(v)]))
  {
    KindOf(v);
  }

  lemma ResumeElement(r: Reader, v: Value, end: nat)
    requires r.node.kind == Array && end > 0
    ensures Resume(r, Parsed(NodeOf(v), Cursor(v, end))) == r.(it := end, node := r.node.(arr := r.node.arr + [NodeOf(v)]))
  {
    KindOf(v);
  }

  /** The value behind a colon: the child starts on the colon. */
  lemma {:induction false} ParseChild(text: string, colon: nat, fuel: nat)
    requires colon < |text| && text[colon] == ':' && ReadValue(text, SkipSpace(text, colon + 1)).Some? && Enough(text, colon, fuel)
    ensures var (v, end) := ReadValue(text, SkipSpace(text, colon + 1)).value;
      Scan(text, Start(colon, FRESH), fuel) == Some(Parsed(NodeOf(v), Cursor(v, end)))
    decreases |text| - colon, 0
  {
    hide Scan, ReadValue, SkipSpace, NodeOf;
    var first := SkipSpace(text, colon + 1);
    Advance(text, Start(colon, FRESH), fuel);
    PassSpace(text, Start(colon + 1, FRESH), fuel - 1);
    ParseValue(text, first, FRESH, fuel - 1 - (first - (colon + 1)));
    FilledFresh(ReadValue(text, first).value.0);
  }

  lemma KindOf(v: Value)
    ensures NodeOf(v).kind == match v case Word(_) => String case Record(_) => Object case Sequence(_) => Array
  {}

  lemma {:induction false} ParseMembers(text: string, r: Reader, fuel: nat)
    requires r.it <= |text| && ReadMembers(text, r.it).Some?
    requires r.node.kind == Object && r.os == NoState && r.ss == "" && EnoughInside(text, r.it, fuel)
    ensures var (members, end) := ReadMembers(text, r.it).value;
      Scan(text, r, fuel) == Some(Parsed(r.node.(obj := NodesOver(r.node.obj, members)), end - 1))
    decreases |text| - r.it, 2
  {
    hide Scan, ReadPair, HeardWord, SkipSpace, NodeOf;
    var (m, behind) := ReadPair(text, r.it).value;
    var f := ParseMember(text, r, fuel);
    var next := Start(behind, r.node.(obj := r.node.obj[HeardWord(m.name) := NodeOf(m.value)]));
    if text[behind] == '}' {
      Finish(text, next, f);
    } else {
      var first := SkipSpace(text, behind + 1);
      f := PassComma(text, next, f);
      ParseMembers(text, next.(it := first), f);
    }
  }

  lemma {:induction false} ParseElement(text: string, r: Reader, fuel: nat) returns (f: nat)
    requires r.it <= |text| && ReadValue(text, r.it).Some?
    requires r.node.kind == Array && r.os == NoState && r.ss == "" && EnoughInside(text, r.it, fuel)
    ensures var (v, end) := ReadValue(text, r.it).value;
      var behind := SkipSpace(text, end);
      && EnoughInside(text, behind, f)
      && Scan(text, r, fuel) == Scan(text, r.(it := behind, node := r.node.(arr := r.node.arr + [NodeOf(v)])), f)
    decreases |text| - r.it, 1
  {
    hide Scan, ReadValue, SkipSpace, NodeOf, Turn, Resume, Cursor;
    OpensElement(text, r);
    var (v, end) := ReadValue(text, r.it).value;
    ParseValue(text, r.it, FRESH, fuel - 1);
    FilledFresh(v);
    Descend(text, r, fuel);
    ResumeElement(r, v, end);
    PassSpace(text, r.(it := end, node := r.node.(arr := r.node.arr + [NodeOf(v)])), fuel - 1);
    f := fuel - 1 - (SkipSpace(text, end) - end);
  }

  lemma OpensElement(text: string, r: Reader)
    requires r.it <= |text| && ReadValue(text, r.it).Some? && r.node.kind == Array
    ensures Turn(text, r).Call?
  {
    hide ReadMembers, ReadValues, ReadUnits, SkipSpace;
  }

  lemma {:induction false} ParseValues(text: string, r: Reader, fuel: nat)
    requires r.it <= |text| && ReadValues(text, r.it).Some?
    requires r.node.kind == Array && r.os == NoState && r.ss == "" && EnoughInside(text, r.it, fuel)
    ensures var (values, end) := ReadValues(text, r.it).value;
      Scan(text, r, fuel) == Some(Parsed(r.node.(arr := r.node.arr + NodesIn(values)), end - 1))
    decreases |text| - r.it, 2
  {
    hide Scan, ReadValue, SkipSpace, NodeOf, NodesIn, EnoughInside;
    var (v, end) := ReadValue(text, r.it).value;
    var behind := SkipSpace(text, end);
    var f := ParseElement(text, r, fuel);
    var next := r.(it := behind, node := r.node.(arr := r.node.arr + [NodeOf(v)]));
    if text[behind] == ']' {
      CloseArray(text, next, f);
      NodesMore(r.node.arr, v, []);
      NoNodes(r.node);
    } else {
      var first := SkipSpace(text, behind + 1);
      f := PassComma(text, next, f);
      ParseValues(text, next.(it := first), f);
      NodesMore(r.node.arr, v, ReadValues(text, first).value.0);
    }
  }

  lemma CloseArray(text: string, r: Reader, fuel: nat)
    requires r.it < |text| && text[r.it] == ']' && r.node.kind == Array && EnoughInside(text, r.it, fuel)
    ensures Scan(text, r, fuel) == Some(Parsed(r.node, r.it))
  {}

  lemma NodesMore(arr: seq<Json>, v: Value, rest: seq<Value>)
    ensures arr + [NodeOf(v)] + NodesIn(rest) == arr + NodesIn([v] + rest)
    ensures NodesIn([v]) == [NodeOf(v)]
  {
    hide NodeOf;
    assert ([v] + rest)[1..] == rest && [v][1..] == [];
  }

  // ----- What is written and what is read

  /** What section 7 of RFC 8259 means by a written character; `code` gives the bytes of a four-digit code. */
  function Meant(u: Unit, code: string -> string): string {
    match u
    case Raw(c) => [c]
    case Short(c) =>
      (match c
       case 'b' => [8 as char]
       case 'f' => [12 as char]
       case 'n' => "\n"
       case 'r' => "\r"
       case 't' => "\t"
       case _ => [c])
    case Code(digits) => code(digits)
  }

  function MeantWord(units: seq<Unit>, code: string -> string): string {
    if units == [] then "" else Meant(units[0], code) + MeantWord(units[1..], code)
  }

  /** The document a value denotes. */
  function MeaningOf(v: Value, code: string -> string): Doc
    decreases v, 0
  {
    match v
    case Word(units) => Str(MeantWord(units, code))
    case Record(members) => Dict(FieldsMeant(members, code))
    case Sequence(values) => List(ItemsMeant(values, code))
  }

  function FieldsMeant(members: seq<Member>, code: string -> string): seq<Field>
    decreases members, 1
  {
    if members == [] then []
    else [Field(MeantWord(members[0].name, code), MeaningOf(members[0].value, code))] + FieldsMeant(members[1..], code)
  }

  function ItemsMeant(values: seq<Value>, code: string -> string): seq<Doc>
    decreases values, 1
  {
    if values == [] then [] else [MeaningOf(values[0], code)] + ItemsMeant(values[1..], code)
  }

  /** Escapes that the parser knows: not of a backspace or a form feed, and no code. */
  predicate KnownUnit(u: Unit) {
    !u.Code? && u != Short('b') && u != Short('f')
  }

  predicate KnownUnits(units: seq<Unit>) {
    forall k :: 0 <= k < |units| ==> KnownUnit(units[k])
  }

  predicate KnownValue(v: Value) {
    match v
    case Word(units) => KnownUnits(units)
    case Record(members) => forall m <- members :: KnownUnits(m.name) && KnownValue(m.value)
    case Sequence(values) => forall w <- values :: KnownValue(w)
  }

  lemma {:induction false} StripAppend(a: string, b: string)
    ensures Strip(a + b) == Strip(a) + Strip(b)
  {
    if a == "" {
      assert a + b == b;
    } else {
      assert (a + b)[1..] == a[1..] + b && (a + b)[0] == a[0];
      StripAppend(a[1..], b);
      var first := if Control(a[0]) then "" else [a[0]];
      hide Strip, Control;
      Assoc(first, Strip(a[1..]), Strip(b));
    }
  }

  lemma StripOne(c: char)
    ensures Strip([c]) == if Control(c) then "" else [c]
  {
    assert [c][1..] == "";
  }

  /** What is heard of one character, against what is kept of its meaning. */
  lemma HeardUnit(u: Unit, code: string -> string)
    requires GoodUnit(u)
    ensures KnownUnit(u) ==> Heard(u) == Strip(Meant(u, code))
    ensures u == Short('b') ==> Strip(Meant(u, code)) == [8 as char]
    ensures u == Short('f') ==> Strip(Meant(u, code)) == [12 as char]
    ensures forall c <- Heard(u) :: c >= ' '
  {
    match u
    case Raw(c) => StripOne(c);
    case Short(c) => StripOne(Meant(u, code)[0]);
    case Code(digits) => assert forall k :: 0 <= k < 4 ==> digits[k] >= ' ';
  }

  lemma {:induction false} StripShorter(s: string)
    ensures |Strip(s)| <= |s|
  {
    if s != "" {
      StripShorter(s[1..]);
    }
  }

  /** Without backspaces and form feeds more is heard than meant, by every code. */
  lemma {:induction false} HeardLonger(units: seq<Unit>, code: string -> string)
    requires GoodUnits(units) && (forall d :: |code(d)| <= 3)
    requires Short('b') !in units && Short('f') !in units
    ensures |HeardWord(units)| >= |Strip(MeantWord(units, code))|
    ensures (exists k :: 0 <= k < |units| && units[k].Code?) ==> |HeardWord(units)| > |Strip(MeantWord(units, code))|
  {
    hide Strip, Heard, Meant;
    if units == [] {
      StripShorter("");
    } else {
      var u, rest := units[0], units[1..];
      assert units == [u] + rest;
      HeardLonger(rest, code);
      StripAppend(Meant(u, code), MeantWord(rest, code));
      if u.Code? {
        CodeLonger(u, code);
      } else {
        HeardUnit(u, code);
      }
      if k :| 0 < k < |units| && units[k].Code? {
        assert rest[k - 1].Code?;
      }
    }
  }

  lemma CodeLonger(u: Unit, code: string -> string)
    requires GoodUnit(u) && u.Code? && |code(u.digits)| <= 3
    ensures |Heard(u)| > |Strip(Meant(u, code))|
  {
    StripShorter(code(u.digits));
  }

  /** A backspace or form feed is meant, but never heard. */
  lemma {:induction false} HeardPrintable(units: seq<Unit>, code: string -> string)
    requires GoodUnits(units)
    ensures forall c <- HeardWord(units) :: c >= ' '
    ensures Short('b') in units ==> (8 as char) in Strip(MeantWord(units, code))
    ensures Short('f') in units ==> (12 as char) in Strip(MeantWord(units, code))
  {
    hide Strip, Heard, Meant;
    if units != [] {
      var u, rest := units[0], units[1..];
      HeardPrintable(rest, code);
      StripAppend(Meant(u, code), MeantWord(rest, code));
      HeardUnit(u, code);
      assert units == [u] + rest;
    }
  }

  lemma {:induction false} HeardKnown(units: seq<Unit>, code: string -> string)
    requires GoodUnits(units) && KnownUnits(units)
    ensures HeardWord(units) == Strip(MeantWord(units, code))
  {
    hide Strip, Heard, Meant;
    if units == [] {
      StripNothing("");
      assert "" + Strip("") == Strip("");
    } else {
      HeardKnown(units[1..], code);
      HeardUnit(units[0], code);
      StripAppend(Meant(units[0], code), MeantWord(units[1..], code));
    }
  }

  /** A written string is read as what it means, less the three controls, exactly when the parser knows all its escapes. */
  lemma HeardExact(units: seq<Unit>, code: string -> string)
    requires GoodUnits(units) && forall d :: |code(d)| <= 3
    ensures HeardWord(units) == Strip(MeantWord(units, code)) <==> KnownUnits(units)
  {
    hide HeardWord, Strip, MeantWord;
    if KnownUnits(units) {
      HeardKnown(units, code);
    } else {
      HeardPrintable(units, code);
      var k :| 0 <= k < |units| && !KnownUnit(units[k]);
      if Short('b') !in units && Short('f') !in units {
        HeardLonger(units, code);
      }
    }
  }

  /** Every string and name in a value is well formed. */
  predicate GoodValue(v: Value) {
    match v
    case Word(units) => GoodUnits(units)
    case Record(members) => forall m <- members :: GoodUnits(m.name) && GoodValue(m.value)
    case Sequence(values) => forall w <- values :: GoodValue(w)
  }

  lemma {:induction false} NodeMeant(v: Value, code: string -> string)
    requires GoodValue(v) && KnownValue(v)
    ensures NodeOf(v) == Readback(MeaningOf(v, code))
    decreases v, 0
  {
    hide HeardWord, Strip, MeantWord;
    match v
    case Word(units) => HeardKnown(units, code);
    case Record(members) => NodesMeant(map[], members, code);
    case Sequence(values) => NodesInMeant(values, code);
  }

  lemma {:induction false} NodesMeant(m: map<string, Json>, members: seq<Member>, code: string -> string)
    requires forall n <- members :: GoodUnits(n.name) && GoodValue(n.value) && KnownUnits(n.name) && KnownValue(n.value)
    ensures NodesOver(m, members) == Overlay(m, FieldsMeant(members, code))
    decreases members, 1
  {
    hide HeardWord, Strip, MeantWord, NodeOf, MeaningOf, Readback;
    if members != [] {
      var first, rest := members[0], members[1..];
      assert first in members;
      HeardKnown(first.name, code);
      NodeMeant(first.value, code);
      NodesMeant(m[HeardWord(first.name) := NodeOf(first.value)], rest, code);
      assert FieldsMeant(members, code)[1..] == FieldsMeant(rest, code);
    }
  }

  lemma {:induction false} NodesInMeant(values: seq<Value>, code: string -> string)
    requires forall w <- values :: GoodValue(w) && KnownValue(w)
    ensures NodesIn(values) == ReadItems(ItemsMeant(values, code))
    decreases values, 1
  {
    hide NodeOf, MeaningOf, Readback;
    if values != [] {
      assert values[0] in values;
      NodeMeant(values[0], code);
      NodesInMeant(values[1..], code);
      assert ItemsMeant(values, code)[1..] == ItemsMeant(values[1..], code);
    }
  }

  // ----- Every text

  lemma {:induction false} GoodTree(t: Tree)
    requires Good(t)
    ensures GoodValue(ValueOf(t))
    decreases t, 0
  {
    hide GoodUnits, Spaces;
    match t
    case WordTree(_) =>
    case RecordTree(_, branches) => GoodBranches(branches);
    case SequenceTree(_, leaves) => GoodLeaves(leaves);
  }

  lemma {:induction false} GoodBranches(branches: seq<Branch>)
    requires forall k :: 0 <= k < |branches| ==> GoodBranch(branches[k])
    ensures forall m <- MembersOf(branches) :: GoodUnits(m.name) && GoodValue(m.value)
    decreases branches, 1
  {
    hide GoodUnits, Spaces, Good, GoodValue, ValueOf;
    if branches != [] {
      assert GoodBranch(branches[0]);
      GoodTree(branches[0].value);
      GoodBranches(branches[1..]);
    }
  }

  lemma {:induction false} GoodLeaves(leaves: seq<Leaf>)
    requires forall k :: 0 <= k < |leaves| ==> GoodLeaf(leaves[k])
    ensures forall w <- ValuesOf(leaves) :: GoodValue(w)
    decreases leaves, 1
  {
    hide Spaces, Good, GoodValue, ValueOf;
    if leaves != [] {
      assert GoodLeaf(leaves[0]);
      GoodTree(leaves[0].value);
      GoodLeaves(leaves[1..]);
    }
  }

  /**
   Wherever a document is written in a buffer, with any white space between its tokens and any
   escapes the parser knows, the parse from a fresh node gives the readback of the document.
   */
  lemma ParseSpelled(text: string, it: nat, t: Tree, code: string -> string, fuel: nat)
    requires Occurs(text, it, Show(t)) && Good(t) && KnownValue(ValueOf(t)) && Enough(text, it, fuel)
    ensures Scan(text, Start(it, FRESH), fuel)
         == Some(Parsed(Readback(MeaningOf(ValueOf(t), code)), it + |Show(t)| - (if t.WordTree? then 0 else 1)))
  {
    hide Scan, Show, NodeOf, Readback, MeaningOf, KnownValue, ReadValue, GoodValue;
    TreeRead(text, it, t);
    ParseValue(text, it, FRESH, fuel);
    FilledFresh(ValueOf(t));
    GoodTree(t);
    NodeMeant(ValueOf(t), code);
  }

  /** A node that held values and is given a document anew, its type taken back first. */
  function Renewed(node: Json, d: Doc): Json {
    match d
    case Empty => node.(kind := String, str := "")
    case Str(s) => node.(kind := String, str := Strip(s))
    case Dict(fields) => node.(kind := Object, obj := Overlay(node.obj, fields))
    case List(items) => node.(kind := Array, arr := node.arr + ReadItems(items))
  }

  lemma FilledMeant(node: Json, v: Value, code: string -> string)
    requires GoodValue(v) && KnownValue(v)
    ensures Filled(node, v) == Renewed(node, MeaningOf(v, code))
  {
    hide HeardWord, Strip, MeantWord, NodesOver, NodesIn, Overlay, FieldsMeant, ItemsMeant, ReadItems;
    match v
    case Word(units) => HeardKnown(units, code);
    case Record(members) => NodesMeant(node.obj, members, code);
    case Sequence(values) => NodesInMeant(values, code);
  }

  /** A document with white space in front of it, parsed over any node without a type. */
  lemma ParseAgain(before: string, t: Tree, behind: string, node: Json, code: string -> string, fuel: nat)
    requires Spaces(before) && Good(t) && KnownValue(ValueOf(t)) && node.kind == NoType && fuel > 2 * |before + Show(t) + behind|
    ensures Scan(before + Show(t) + behind, Start(0, node), fuel)
         == Some(Parsed(Renewed(node, MeaningOf(ValueOf(t), code)), |before + Show(t)| - (if t.WordTree? then 0 else 1)))
  {
    hide Scan, Show, Filled, Renewed, MeaningOf, KnownValue, Good, ReadValue, GoodValue;
    var text := before + Show(t) + behind;
    OccursSelf(text);
    OccursSplit(text, 0, before + Show(t), behind);
    OccursSplit(text, 0, before, Show(t));
    Starts(text, |before|, t);
    SkipSpaces(text, 0, before);
    PassSpace(text, Start(0, node), fuel);
    TreeRead(text, |before|, t);
    ParseValue(text, |before|, node, fuel - |before|);
    GoodTree(t);
    FilledMeant(node, ValueOf(t), code);
  }

  /** A written object parsed over a node that is an object already: its members override the old ones. */
  lemma ParseOver(text: string, it: nat, t: Tree, node: Json, code: string -> string, fuel: nat)
    requires Occurs(text, it, Show(t)) && Good(t) && t.RecordTree? && KnownValue(ValueOf(t))
    requires node.kind == Object && EnoughInside(text, it, fuel)
    ensures Scan(text, Start(it, node), fuel)
         == Some(Parsed(node.(obj := Overlay(node.obj, FieldsMeant(MembersOf(t.branches), code))), it + |Show(t)| - 1))
  {
    hide Scan, Show, ReadMembers, NodesOver, Overlay, FieldsMeant, SkipSpace;
    TreeRead(text, it, t);
    GoodTree(t);
    var members := MembersOf(t.branches);
    hide MembersOf, Good;
    NodesMeant(node.obj, members, code);
    var first := SkipSpace(text, it + 1);
    Advance(text, Start(it, node), fuel);
    PassSpace(text, Start(it + 1, node), fuel - 1);
    var f := fuel - 1 - (first - (it + 1));
    if first < |text| && text[first] == '}' {
      Finish(text, Start(first, node), f);
      NoNodesOver(node.obj);
    } else {
      ParseMembers(text, Start(first, node), f);
    }
  }

  lemma NoNodesOver(m: map<string, Json>)
    ensures NodesOver(m, []) == m
  {}

  /** A whole text with white space around it. */
  lemma ParseText(before: string, t: Tree, behind: string, code: string -> string)
    requires Spaces(before) && Good(t) && KnownValue(ValueOf(t))
    ensures Parses(before + Show(t) + behind,
                   Parsed(Readback(MeaningOf(ValueOf(t), code)), |before + Show(t)| - (if t.WordTree? then 0 else 1)))
  {
    hide Scan, Show, Readback, MeaningOf, KnownValue, ValueOf, Good;
    var text := before + Show(t) + behind;
    OccursSelf(text);
    OccursSplit(text, 0, before + Show(t), behind);
    OccursSplit(text, 0, before, Show(t));
    Starts(text, |before|, t);
    SkipSpaces(text, 0, before);
    PassSpace(text, Start(0, FRESH), 2 * |text|);
    ParseSpelled(text, |before|, t, code, 2 * |text| - |before|);
  }

  // ----- What is no document

  /** Text without quotes, brackets, backslashes and NULs: numbers, the other literals, and anything else. */
  predicate Junk(s: string) {
    forall c <- s :: c !in "\"{}[]\\\0"
  }

  /** Outside of strings and keys junk is passed over; only an object that waits for its colon looks at one. */
  lemma {:induction false} PassJunk(text: string, r: Reader, s: string, fuel: nat)
    requires Occurs(text, r.it, s) && Junk(s) && fuel >= |s|
    requires r.node.kind != String && (r.node.kind == Object ==> r.os == NoState || (r.os == GotKey && ':' !in s))
    ensures Scan(text, r, fuel) == Scan(text, r.(it := r.it + |s|), fuel - |s|)
    decreases |s|
  {
    hide Scan, Turn, Occurs, Junk;
    if s != "" {
      JunkFirst(text, r, s);
      Advance(text, r, fuel);
      PassJunk(text, r.(it := r.it + 1), s[1..], fuel - 1);
    }
  }

  lemma JunkFirst(text: string, r: Reader, s: string)
    requires Occurs(text, r.it, s) && Junk(s) && s != ""
    requires r.node.kind != String && (r.node.kind == Object ==> r.os == NoState || (r.os == GotKey && ':' !in s))
    ensures Occurs(text, r.it + 1, s[1..]) && Junk(s[1..]) && (':' !in s ==> ':' !in s[1..])
    ensures Turn(text, r) == Go(r.(it := r.it + 1))
  {
    assert s == [s[0]] + s[1..] && s[0] in s && forall c <- s[1..] :: c in s;
    FirstOccurs(text, r.it, s[0], s[1..]);
    hide Turn, Occurs;
    JunkTurn(text, r);
  }

  lemma JunkTurn(text: string, r: Reader)
    requires r.it < |text| && text[r.it] !in "\"{}[]\\\0"
    requires r.node.kind != String && (r.node.kind == Object ==> r.os == NoState || (r.os == GotKey && text[r.it] != ':'))
    ensures Turn(text, r) == Go(r.(it := r.it + 1))
  {
    assert '"' in "\"{}[]\\\0" && '{' in "\"{}[]\\\0" && '}' in "\"{}[]\\\0" && '[' in "\"{}[]\\\0";
    assert ']' in "\"{}[]\\\0" && '\\' in "\"{}[]\\\0" && NUL in "\"{}[]\\\0";
  }

  /** A member's value is the next string, object or array behind its colon, whatever stands in between: numbers are not understood. */
  lemma ValueBehindJunk(text: string, colon: nat, junk: string, t: Tree, fuel: nat)
    requires Occurs(text, colon, ":" + (junk + Show(t))) && Junk(junk) && Good(t) && Enough(text, colon, fuel)
    ensures var end := colon + 1 + |junk| + |Show(t)|;
      Scan(text, Start(colon, FRESH), fuel) == Some(Parsed(NodeOf(ValueOf(t)), Cursor(ValueOf(t), end)))
  {
    hide Scan, Show, ReadValue, NodeOf, Occurs, Good, Junk;
    OccursSplit(text, colon, ":", junk + Show(t));
    LoneOccurs(text, colon, ':');
    OccursSplit(text, colon + 1, junk, Show(t));
    Inside(text, colon + 1, junk);
    Advance(text, Start(colon, FRESH), fuel);
    PassJunk(text, Start(colon + 1, FRESH), junk, fuel - 1);
    TreeRead(text, colon + 1 + |junk|, t);
    ParseValue(text, colon + 1 + |junk|, FRESH, fuel - 1 - |junk|);
    FilledFresh(ValueOf(t));
  }

  /** A bracket of the wrong kind closes an array, and an object that waits for a key; one that waits for its colon is closed by a square one only. */
  lemma WrongBracket(text: string, r: Reader, fuel: nat)
    requires r.it < |text| && (text[r.it] == ']' || text[r.it] == '}') && fuel > 0
    requires r.node.kind == Array || (r.node.kind == Object && r.os != GetKey)
    ensures if r.node.kind == Object && r.os == GotKey && text[r.it] == '}' then Scan(text, r, fuel) == Scan(text, r.(it := r.it + 1), fuel - 1)
            else Scan(text, r, fuel) == Some(Parsed(r.node, r.it))
  {}
}
