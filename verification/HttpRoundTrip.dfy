/** Reading back the request texts the client prints: method, target, protocol, headers, body. */
module HttpRoundTrip {
  import opened Text
  import opened JsonScan
  import opened HttpScan
  import opened HttpText

  /**
   What the parser keeps of a value: returns vanish, two percent escapes are decoded, other
   percent signs vanish, and in a parameter (`plus`) a plus sign is a space.
   */
  function Decoded(s: string, plus: bool): string {
    if s == "" then ""
    else if s[0] == '%' then
      if Escape(s, '2', '6') then "\"" + Decoded(s[3..], plus)
      else if Escape(s, '0', 'A') then "\n" + Decoded(s[3..], plus)
      else Decoded(s[1..], plus)
    else if s[0] == '\r' then Decoded(s[1..], plus)
    else [Char(s[0], plus)] + Decoded(s[1..], plus)
  }

  function Char(c: char, plus: bool): char {
    if plus && c == '+' then ' ' else c
  }

  predicate Escape(s: string, a: char, b: char) {
    |s| >= 3 && s[1] == a && s[2] == b
  }

  // ----- What the parser makes of any value

  /** A character without a role, a plus, a return, one of the two codes it knows, or another code. */
  datatype Sign = Plain(c: char) | Plus | Return | QuoteCode | LineCode | OtherCode(a: char, b: char)

  predicate GoodSign(g: Sign) {
    match g
    case Plain(c) => c !in "%\r+"
    case OtherCode(a, b) => a !in "%\r+" && b !in "%\r+" && [a, b] != "26" && [a, b] != "0A"
    case _ => true
  }

  function SignText(g: Sign): string {
    match g
    case Plain(c) => [c]
    case Plus => "+"
    case Return => "\r"
    case QuoteCode => "%26"
    case LineCode => "%0A"
    case OtherCode(a, b) => ['%', a, b]
  }

  /** `%26` is read as a quote and `%0A` as a line feed; of any other code only the percent sign is lost. */
  function SignMeans(g: Sign, plus: bool): string {
    match g
    case Plain(c) => [c]
    case Plus => if plus then " " else "+"
    case Return => ""
    case QuoteCode => "\""
    case LineCode => "\n"
    case OtherCode(a, b) => [a, b]
  }

  function SignsText(signs: seq<Sign>): string {
    if signs == [] then "" else SignText(signs[0]) + SignsText(signs[1..])
  }

  function SignsMean(signs: seq<Sign>, plus: bool): string {
    if signs == [] then "" else SignMeans(signs[0], plus) + SignsMean(signs[1..], plus)
  }

  lemma SignDecoded(g: Sign, rest: string, plus: bool)
    requires GoodSign(g)
    ensures Decoded(SignText(g) + rest, plus) == SignMeans(g, plus) + Decoded(rest, plus)
  {
    match g {
      case QuoteCode => CodeDecoded('2', '6', rest, plus);
      case LineCode => CodeDecoded('0', 'A', rest, plus);
      case OtherCode(a, b) => OtherDecoded(a, b, rest, plus);
      case _ =>
        var t := SignText(g) + rest;
        assert t[1..] == rest && t[0] == SignText(g)[0];
    }
  }

  lemma CodeDecoded(a: char, b: char, rest: string, plus: bool)
    requires (a == '2' && b == '6') || (a == '0' && b == 'A')
    ensures Decoded(['%', a, b] + rest, plus) == (if a == '2' then "\"" else "\n") + Decoded(rest, plus)
  {
    var t := ['%', a, b] + rest;
    assert t[3..] == rest;
  }

  lemma PlainDecoded(c: char, rest: string, plus: bool)
    requires c !in "%\r+"
    ensures Decoded([c] + rest, plus) == [c] + Decoded(rest, plus)
  {
    assert '%' in "%\r+" && '\r' in "%\r+" && '+' in "%\r+";
    assert ([c] + rest)[1..] == rest;
  }

  lemma OtherDecoded(a: char, b: char, rest: string, plus: bool)
    requires GoodSign(OtherCode(a, b))
    ensures Decoded(['%', a, b] + rest, plus) == [a, b] + Decoded(rest, plus)
  {
    var t := ['%', a, b] + rest;
    assert [a, b] == "26" <==> a == '2' && b == '6';
    assert [a, b] == "0A" <==> a == '0' && b == 'A';
    assert t[1..] == [a] + ([b] + rest);
    assert Decoded(t, plus) == Decoded([a] + ([b] + rest), plus);
    PlainDecoded(a, [b] + rest, plus);
    PlainDecoded(b, rest, plus);
  }

  /** Any value, sign by sign. */
  lemma {:induction false} DecodedSigns(signs: seq<Sign>, plus: bool)
    requires forall k :: 0 <= k < |signs| ==> GoodSign(signs[k])
    ensures Decoded(SignsText(signs), plus) == SignsMean(signs, plus)
  {
    if signs != [] {
      hide Decoded, SignText, SignMeans;
      DecodedSigns(signs[1..], plus);
      SignDecoded(signs[0], SignsText(signs[1..]), plus);
    }
  }

  /** A value comes through unchanged exactly when it holds no return, no percent sign and, in a parameter, no plus. */
  lemma {:induction false} DecodedExact(s: string, plus: bool)
    ensures |Decoded(s, plus)| <= |s|
    ensures Decoded(s, plus) == s <==> '%' !in s && '\r' !in s && (plus ==> '+' !in s)
  {
    if s != "" {
      DecodedExact(s[1..], plus);
      if |s| >= 3 {
        DecodedExact(s[3..], plus);
      }
      assert s == [s[0]] + s[1..];
    }
  }

  predicate ValueState(state: nat) {
    state == ROUTE || state == PARAM_VALUE || state == PROTOCOL || state == HEADER_VALUE
  }

  /** A character that ends the value or the key being read. */
  predicate Ends(state: nat, c: char) {
    if state == ROUTE then c == ' ' || c == '?'
    else if state == PARAM_KEY then c == ' ' || c == '='
    else if state == PARAM_VALUE then c == ' ' || c == '&'
    else if state == HEADER_KEY then c == '\n' || c == ':'
    else c == '\n'
  }

  predicate Holds(state: nat, s: string) {
    forall k :: 0 <= k < |s| ==> s[k] != NUL && !Ends(state, s[k])
  }

  /** A character that cannot complete a percent escape begun before it. */
  predicate Neutral(c: char) {
    c != '2' && c != '6' && c != '0' && c != 'A'
  }

  lemma Follow(text: string, h: Head, fuel: nat)
    requires h.it < |text| && text[h.it] != NUL && HeadStep(text, h, fuel).Next?
    ensures ReadHead(text, h, fuel) == ReadHead(text, HeadStep(text, h, fuel).at, fuel)
  {}

  /** How much of a value one round takes, and what it keeps of it. */
  function FirstTaken(s: string): (n: nat)
    requires s != ""
    ensures 0 < n <= |s|
  {
    if s[0] == '%' && (Escape(s, '2', '6') || Escape(s, '0', 'A')) then 3 else 1
  }

  function FirstKept(s: string, plus: bool): string
    requires s != ""
  {
    if s[0] == '%' then if Escape(s, '2', '6') then "\"" else if Escape(s, '0', 'A') then "\n" else ""
    else if s[0] == '\r' then "" else [Char(s[0], plus)]
  }

  lemma DecodedFirst(s: string, plus: bool)
    requires s != ""
    ensures Decoded(s, plus) == FirstKept(s, plus) + Decoded(s[FirstTaken(s)..], plus)
  {}

  /** The escapes of a value are recognized in the text around it. */
  lemma EscapeInText(text: string, it: nat, s: string, a: char, b: char)
    requires s != "" && Occurs(text, it, s) && !Neutral(a) && !Neutral(b)
    requires it + |s| == |text| || Neutral(text[it + |s|])
    ensures PercentAt(text, it, a, b) <==> Escape(s, a, b)
  {
    assert forall k :: 0 <= k < |s| ==> text[it + k] == text[it..it + |s|][k] == s[k];
  }

  lemma TakeFirst(text: string, h: Head, s: string, fuel: nat)
    requires ValueState(h.state) && s != "" && Occurs(text, h.it, s) && Holds(h.state, s)
    requires h.it + |s| == |text| || Neutral(text[h.it + |s|])
    ensures h.it < |text| && text[h.it] != NUL
    ensures HeadStep(text, h, fuel) == Next(h.(it := h.it + FirstTaken(s), value := h.value + FirstKept(s, h.state == PARAM_VALUE)))
  {
    assert text[h.it] == text[h.it..h.it + |s|][0] == s[0];
    EscapeInText(text, h.it, s, '2', '6');
    EscapeInText(text, h.it, s, '0', 'A');
    assert h.value + "" == h.value;
  }

  lemma {:induction false} ReadValue(text: string, h: Head, s: string, fuel: nat)
    requires ValueState(h.state) && Occurs(text, h.it, s) && Holds(h.state, s)
    requires h.it + |s| == |text| || Neutral(text[h.it + |s|])
    ensures ReadHead(text, h, fuel) == ReadHead(text, h.(it := h.it + |s|, value := h.value + Decoded(s, h.state == PARAM_VALUE)), fuel)
    decreases |s|
  {
    hide ReadHead, HeadStep, FirstKept;
    if s == "" {
      assert h.value + Decoded(s, h.state == PARAM_VALUE) == h.value;
    } else {
      hide Decoded;
      var n := FirstTaken(s);
      TakeFirst(text, h, s, fuel);
      Follow(text, h, fuel);
      assert s == s[..n] + s[n..];
      OccursSplit(text, h.it, s[..n], s[n..]);
      ReadValue(text, h.(it := h.it + n, value := h.value + FirstKept(s, h.state == PARAM_VALUE)), s[n..], fuel);
      var plus := h.state == PARAM_VALUE;
      DecodedFirst(s, plus);
      Assoc(h.value, FirstKept(s, plus), Decoded(s[n..], plus));
    }
  }

  lemma {:induction false} ReadKey(text: string, h: Head, s: string, fuel: nat)
    requires (h.state == PARAM_KEY || h.state == HEADER_KEY) && Occurs(text, h.it, s) && Holds(h.state, s)
    ensures ReadHead(text, h, fuel) == ReadHead(text, h.(it := h.it + |s|, key := h.key + s), fuel)
    decreases |s|
  {
    hide ReadHead;
    if s == "" {
      assert h.key + s == h.key;
    } else {
      assert s == [s[0]] + s[1..];
      OccursSplit(text, h.it, [s[0]], s[1..]);
      assert text[h.it] == text[h.it..h.it + 1][0] == s[0];
      Follow(text, h, fuel);
      var t := h.(it := h.it + 1, key := h.key + [s[0]]);
      ReadKey(text, t, s[1..], fuel);
      assert t.key + s[1..] == h.key + s;
    }
  }

  /** A header the client may print: its name and value do not break the line, and no NUL ends the text. */
  predicate Printable(h: Header) {
    Holds(HEADER_KEY, h.name) && Holds(HEADER_VALUE, h.value) && (h.eol == "\n" || h.eol == "\r\n")
  }

  /** The entries that header lines write, later lines over earlier ones. */
  function StoreHeaders(obj: map<string, Json>, hs: seq<Header>): map<string, Json>
    decreases hs
  {
    if hs == [] then obj
    else StoreHeaders(StoreString(obj, hs[0].name, Decoded(hs[0].value, false)), hs[1..])
  }

  /** A return in front of the line feed adds nothing. */
  lemma DecodedReturn(s: string)
    ensures Decoded(s + "\r", false) == Decoded(s, false)
  {
    if s == "" {
      assert "\r"[1..] == "";
    } else {
      var t := s + "\r";
      DecodedReturn(s[1..]);
      assert t[1..] == s[1..] + "\r";
      if |s| >= 3 {
        DecodedReturn(s[3..]);
        assert t[3..] == s[3..] + "\r";
      }
      assert t[0] == s[0] && Escape(t, '2', '6') == Escape(s, '2', '6') && Escape(t, '0', 'A') == Escape(s, '0', 'A');
    }
  }

  lemma FirstOf(text: string, it: nat, part: string)
    requires part != "" && Occurs(text, it, part)
    ensures it < |text| && text[it] == part[0] && Occurs(text, it + 1, part[1..])
  {
    assert part == [part[0]] + part[1..];
    OccursSplit(text, it, [part[0]], part[1..]);
    assert text[it] == text[it..it + 1][0];
  }

  /** Whatever character stands behind the colon is taken for the space. */
  lemma ReadLine(text: string, h: Head, name: string, gap: char, value: string, eol: string, fuel: nat) returns (next: Head)
    requires h.state == HEADER_KEY && h.key == "" && Printable(Header(name, value, eol))
    requires Occurs(text, h.it, name + [':', gap] + value + eol)
    ensures next == h.(it := h.it + |name| + 2 + |value| + |eol|, value := next.value,
                       obj := StoreString(h.obj, name, Decoded(value, false)))
    ensures ReadHead(text, h, fuel) == ReadHead(text, next, fuel)
  {
    hide ReadHead, Occurs, Decoded;
    var line := value + eol[..|eol| - 1];
    assert name + [':', gap] + value + eol == name + ([':', gap] + (line + "\n"));
    OccursSplit(text, h.it, name, [':', gap] + (line + "\n"));
    ReadKey(text, h, name, fuel);
    var h1 := h.(it := h.it + |name|, key := name);
    assert h.key + name == name;
    OccursSplit(text, h1.it, [':', gap], line + "\n");
    FirstOf(text, h1.it, [':', gap]);
    Follow(text, h1, fuel);
    var h2 := h1.(it := h1.it + 2, state := HEADER_VALUE, value := "");
    OccursSplit(text, h2.it, line, "\n");
    FirstOf(text, h2.it + |line|, "\n");
    ReadValue(text, h2, line, fuel);
    LineDecoded(value, eol);
    var h3 := h2.(it := h2.it + |line|, value := Decoded(value, false));
    assert "" + Decoded(line, false) == Decoded(value, false);
    Follow(text, h3, fuel);
    next := h3.(it := h3.it + 1, state := HEADER_KEY, key := "", obj := StoreString(h.obj, name, h3.value));
  }

  lemma ReadHeader(text: string, h: Head, header: Header, fuel: nat) returns (next: Head)
    requires h.state == HEADER_KEY && h.key == "" && Printable(header) && Occurs(text, h.it, PrintHeader(header))
    ensures next == h.(it := h.it + |PrintHeader(header)|, value := next.value,
                       obj := StoreString(h.obj, header.name, Decoded(header.value, false)))
    ensures ReadHead(text, h, fuel) == ReadHead(text, next, fuel)
  {
    hide ReadHead, Occurs, Decoded, Printable;
    assert [':', ' '] == ": ";
    next := ReadLine(text, h, header.name, ' ', header.value, header.eol, fuel);
  }

  lemma LineDecoded(value: string, eol: string)
    requires eol == "\n" || eol == "\r\n"
    ensures Decoded(value + eol[..|eol| - 1], false) == Decoded(value, false)
  {
    DecodedReturn(value);
    assert "\r\n"[..1] == "\r";
    assert "\n"[..0] == "";
    assert value + "" == value;
  }

  lemma {:induction false} ReadHeaders(text: string, h: Head, hs: seq<Header>, fuel: nat) returns (next: Head)
    requires h.state == HEADER_KEY && h.key == "" && Occurs(text, h.it, PrintHeaders(hs))
    requires forall i :: 0 <= i < |hs| ==> Printable(hs[i])
    ensures next == h.(it := h.it + |PrintHeaders(hs)|, value := next.value, obj := StoreHeaders(h.obj, hs))
    ensures ReadHead(text, h, fuel) == ReadHead(text, next, fuel)
    decreases hs
  {
    hide ReadHead, Occurs, Decoded, Printable;
    if hs == [] {
      next := h;
    } else {
      OccursSplit(text, h.it, PrintHeader(hs[0]), PrintHeaders(hs[1..]));
      next := ReadHeader(text, h, hs[0], fuel);
      next := ReadHeaders(text, next, hs[1..], fuel);
    }
  }

  datatype Param = Param(key: string, value: string)

  /** `key=value` pairs joined by `&`; `tail` is a last key without an equals sign. */
  datatype Query = Query(params: seq<Param>, tail: Option<string>)

  /** What stands between the slash behind the method name and the space before the protocol. */
  datatype Target = Target(path: string, query: Option<Query>)

  function PrintQuery(params: seq<Param>, tail: Option<string>): string {
    if params == [] then if tail.Some? then tail.value else ""
    else
      params[0].key + "=" + params[0].value
      + (if |params| > 1 || tail.Some? then "&" else "")
      + PrintQuery(params[1..], tail)
  }

  function PrintTarget(t: Target): string {
    t.path + (if t.query.Some? then "?" + PrintQuery(t.query.value.params, t.query.value.tail) else "")
  }

  predicate GoodQuery(params: seq<Param>, tail: Option<string>) {
    && (params == [] ==> tail.Some?)
    && (tail.Some? ==> Holds(PARAM_KEY, tail.value))
    && (forall i :: 0 <= i < |params| ==> Holds(PARAM_KEY, params[i].key) && Holds(PARAM_VALUE, params[i].value))
  }

  predicate GoodTarget(t: Target) {
    && Holds(ROUTE, t.path)
    && (t.query.Some? ==> GoodQuery(t.query.value.params, t.query.value.tail))
  }

  /** The entries that query parameters write; None when a value makes the JSON parser run away. */
  ghost function StoreParams(obj: map<string, Json>, params: seq<Param>, fuel: nat): Option<map<string, Json>>
    decreases params
  {
    if params == [] then Some(obj)
    else
      match StoreParam(obj, params[0].key, Decoded(params[0].value, true), fuel)
      case None => None
      case Some(next) => StoreParams(next, params[1..], fuel)
  }

  ghost function StoreTarget(obj: map<string, Json>, t: Target, fuel: nat): Option<map<string, Json>> {
    var routed := SetText(obj, "route", "/" + Decoded(t.path, false));
    if t.query.None? then Some(routed) else StoreParams(routed, t.query.value.params, fuel)
  }

  /** What is left in the value buffer when the protocol starts: a last key without `=` does not clear it. */
  function Leftover(params: seq<Param>, tail: Option<string>, before: string): string {
    if params != [] then Leftover(params[1..], tail, Decoded(params[0].value, true))
    else if tail.Some? then before
    else ""
  }

  function TargetLeftover(t: Target): string {
    if t.query.None? then ""
    else Leftover(t.query.value.params, t.query.value.tail, "/" + Decoded(t.path, false))
  }

  /** One `key=value` and the character that ends it. */
  lemma ReadParam(text: string, h: Head, p: Param, fuel: nat) returns (last: Head)
    requires h.state == PARAM_KEY && h.key == "" && Occurs(text, h.it, p.key + "=" + p.value)
    requires Holds(PARAM_KEY, p.key) && Holds(PARAM_VALUE, p.value)
    requires var end := h.it + |p.key + "=" + p.value|; end == |text| || Neutral(text[end])
    ensures last == h.(it := h.it + |p.key + "=" + p.value|, state := PARAM_VALUE, key := p.key, value := Decoded(p.value, true))
    ensures ReadHead(text, h, fuel) == ReadHead(text, last, fuel)
  {
    hide ReadHead, Occurs, Decoded;
    OccursSplit(text, h.it, p.key + "=", p.value);
    OccursSplit(text, h.it, p.key, "=");
    ReadKey(text, h, p.key, fuel);
    assert h.key + p.key == p.key;
    var h1 := h.(it := h.it + |p.key|, key := p.key);
    FirstOf(text, h1.it, "=");
    Follow(text, h1, fuel);
    var h2 := h1.(it := h1.it + 1, state := PARAM_VALUE, value := "");
    ReadValue(text, h2, p.value, fuel);
    assert "" + Decoded(p.value, true) == Decoded(p.value, true);
    last := h2.(it := h2.it + |p.value|, value := Decoded(p.value, true));
  }

  lemma {:induction false} ReadQuery(text: string, h: Head, params: seq<Param>, tail: Option<string>, fuel: nat) returns (next: Head)
    requires h.state == PARAM_KEY && h.key == "" && Occurs(text, h.it, PrintQuery(params, tail) + " ")
    requires GoodQuery(params, tail) && StoreParams(h.obj, params, fuel).Some?
    ensures next == h.(it := h.it + |PrintQuery(params, tail)| + 1, state := PROTOCOL, key := next.key,
                       value := Leftover(params, tail, h.value), obj := StoreParams(h.obj, params, fuel).value)
    ensures ReadHead(text, h, fuel) == ReadHead(text, next, fuel)
    decreases params
  {
    hide ReadHead, Occurs, Decoded, StoreParam;
    if params == [] {
      OccursSplit(text, h.it, tail.value, " ");
      ReadKey(text, h, tail.value, fuel);
      var h1 := h.(it := h.it + |tail.value|, key := h.key + tail.value);
      FirstOf(text, h1.it, " ");
      Follow(text, h1, fuel);
      next := h1.(it := h1.it + 1, state := PROTOCOL);
    } else {
      var p, rest := params[0], params[1..];
      var pair := p.key + "=" + p.value;
      var stored := StoreParam(h.obj, p.key, Decoded(p.value, true), fuel).value;
      if rest == [] && tail.None? {
        assert PrintQuery(params, tail) + " " == pair + " ";
        assert StoreParams(stored, rest, fuel) == Some(stored);
        next := ReadLast(text, h, p, fuel);
      } else {
        var behind := PrintQuery(rest, tail) + " ";
        QueryParts(params, tail);
        hide PrintQuery;
        var h2 := ReadNext(text, h, p, behind, fuel);
        next := ReadQuery(text, h2, rest, tail, fuel);
      }
    }
  }

  lemma QueryParts(params: seq<Param>, tail: Option<string>)
    requires params != [] && (params[1..] != [] || tail.Some?)
    ensures PrintQuery(params, tail) + " " == params[0].key + "=" + params[0].value + ("&" + (PrintQuery(params[1..], tail) + " "))
  {}

  /** The last parameter and the space behind it. */
  lemma ReadLast(text: string, h: Head, p: Param, fuel: nat) returns (next: Head)
    requires h.state == PARAM_KEY && h.key == "" && Occurs(text, h.it, p.key + "=" + p.value + " ")
    requires Holds(PARAM_KEY, p.key) && Holds(PARAM_VALUE, p.value) && StoreParam(h.obj, p.key, Decoded(p.value, true), fuel).Some?
    ensures next == h.(it := h.it + |p.key + "=" + p.value| + 1, state := PROTOCOL, key := p.key, value := "",
                       obj := StoreParam(h.obj, p.key, Decoded(p.value, true), fuel).value)
    ensures ReadHead(text, h, fuel) == ReadHead(text, next, fuel)
  {
    hide ReadHead, Occurs, Decoded, StoreParam;
    var pair := p.key + "=" + p.value;
    OccursSplit(text, h.it, pair, " ");
    FirstOf(text, h.it + |pair|, " ");
    var h1 := ReadParam(text, h, p, fuel);
    Follow(text, h1, fuel);
    next := h1.(it := h1.it + 1, state := PROTOCOL, value := "", obj := StoreParam(h.obj, p.key, Decoded(p.value, true), fuel).value);
  }

  /** A parameter, stored at the ampersand behind it. */
  lemma ReadNext(text: string, h: Head, p: Param, behind: string, fuel: nat) returns (next: Head)
    requires h.state == PARAM_KEY && h.key == "" && Occurs(text, h.it, p.key + "=" + p.value + ("&" + behind))
    requires Holds(PARAM_KEY, p.key) && Holds(PARAM_VALUE, p.value) && StoreParam(h.obj, p.key, Decoded(p.value, true), fuel).Some?
    ensures next == h.(it := h.it + |p.key + "=" + p.value| + 1, value := Decoded(p.value, true),
                       obj := StoreParam(h.obj, p.key, Decoded(p.value, true), fuel).value)
    ensures Occurs(text, next.it, behind) && ReadHead(text, h, fuel) == ReadHead(text, next, fuel)
  {
    hide ReadHead, Occurs, Decoded, StoreParam;
    var pair := p.key + "=" + p.value;
    OccursSplit(text, h.it, pair, "&" + behind);
    FirstOf(text, h.it + |pair|, "&" + behind);
    assert ("&" + behind)[1..] == behind;
    var h1 := ReadParam(text, h, p, fuel);
    Follow(text, h1, fuel);
    next := h1.(it := h1.it + 1, state := PARAM_KEY, key := "", obj := StoreParam(h.obj, p.key, Decoded(p.value, true), fuel).value);
  }

  /** From behind the slash to the start of the protocol. */
  lemma {:induction false} ReadTarget(text: string, h: Head, t: Target, fuel: nat) returns (next: Head)
    requires h.state == ROUTE && h.value == "/" && Occurs(text, h.it, PrintTarget(t) + " ")
    requires GoodTarget(t) && StoreTarget(h.obj, t, fuel).Some?
    ensures next == h.(it := h.it + |PrintTarget(t)| + 1, state := PROTOCOL, key := next.key,
                       value := TargetLeftover(t), obj := StoreTarget(h.obj, t, fuel).value)
    ensures ReadHead(text, h, fuel) == ReadHead(text, next, fuel)
  {
    hide ReadHead, Occurs, Decoded, StoreParams, PrintQuery, Leftover;
    var route := "/" + Decoded(t.path, false);
    var after := PrintTarget(t)[|t.path|..] + " ";
    assert PrintTarget(t) + " " == t.path + after;
    OccursSplit(text, h.it, t.path, after);
    FirstOf(text, h.it + |t.path|, after);
    ReadValue(text, h, t.path, fuel);
    var h1 := h.(it := h.it + |t.path|, value := route);
    Follow(text, h1, fuel);
    var obj := SetText(h.obj, "route", route);
    if t.query.None? {
      next := h1.(it := h1.it + 1, state := PROTOCOL, value := "", obj := obj);
    } else {
      var q := t.query.value;
      assert after[1..] == PrintQuery(q.params, q.tail) + " ";
      next := ReadQuery(text, h1.(it := h1.it + 1, state := PARAM_KEY, key := "", obj := obj), q.params, q.tail, fuel);
    }
  }

  const PROTOCOL_LINE := "HTTP/1.1\r\n"

  lemma ProtocolText()
    ensures Decoded("HTTP/1.1\r", false) == "HTTP/1.1" && Holds(PROTOCOL, "HTTP/1.1\r")
  {
    DecodedReturn("HTTP/1.1");
    DecodedExact("HTTP/1.1", false);
    assert "HTTP/1.1" + "\r" == "HTTP/1.1\r";
  }

  /** The protocol, whatever it is, is appended to whatever the target left in the buffer. */
  lemma ReadVersion(text: string, h: Head, version: string, fuel: nat) returns (next: Head)
    requires h.state == PROTOCOL && Holds(PROTOCOL, version) && Occurs(text, h.it, version + "\n")
    ensures next == h.(it := h.it + |version| + 1, state := HEADER_KEY, key := "", value := h.value + Decoded(version, false),
                       obj := SetText(h.obj, "protocol", h.value + Decoded(version, false)))
    ensures ReadHead(text, h, fuel) == ReadHead(text, next, fuel)
  {
    hide ReadHead, Occurs, Decoded;
    OccursSplit(text, h.it, version, "\n");
    FirstOf(text, h.it + |version|, "\n");
    ReadValue(text, h, version, fuel);
    var h1 := h.(it := h.it + |version|, value := h.value + Decoded(version, false));
    Follow(text, h1, fuel);
    next := h1.(it := h1.it + 1, state := HEADER_KEY, key := "", obj := SetText(h.obj, "protocol", h1.value));
  }

  lemma ReadProtocol(text: string, h: Head, fuel: nat) returns (next: Head)
    requires h.state == PROTOCOL && Occurs(text, h.it, PROTOCOL_LINE)
    ensures next == h.(it := h.it + |PROTOCOL_LINE|, state := HEADER_KEY, key := "", value := h.value + "HTTP/1.1",
                       obj := SetText(h.obj, "protocol", h.value + "HTTP/1.1"))
    ensures ReadHead(text, h, fuel) == ReadHead(text, next, fuel)
  {
    hide ReadHead, Occurs, Decoded;
    ProtocolText();
    assert PROTOCOL_LINE == "HTTP/1.1\r" + "\n";
    next := ReadVersion(text, h, "HTTP/1.1\r", fuel);
  }

  /** A line without a colon, empty or not, ends the header section; the parser stops on the first body character. */
  lemma ReadEnd(text: string, h: Head, last: string, fuel: nat)
    requires h.state == HEADER_KEY && Holds(HEADER_KEY, last) && Occurs(text, h.it, last + "\n")
    ensures ReadHead(text, h, fuel).Some?
    ensures ReadHead(text, h, fuel).value.it == h.it + |last| + 1 && ReadHead(text, h, fuel).value.obj == h.obj
  {
    OccursSplit(text, h.it, last, "\n");
    ReadKey(text, h, last, fuel);
    FirstOf(text, h.it + |last|, "\n");
    assert HeadStep(text, h.(it := h.it + |last|, key := h.key + last), fuel).Exit?;
  }

  lemma ReadBlankLine(text: string, h: Head, fuel: nat)
    requires h.state == HEADER_KEY && Occurs(text, h.it, "\r\n")
    ensures ReadHead(text, h, fuel).Some?
    ensures ReadHead(text, h, fuel).value.it == h.it + 2 && ReadHead(text, h, fuel).value.obj == h.obj
  {
    hide ReadHead;
    assert "\r" + "\n" == "\r\n";
    ReadEnd(text, h, "\r", fuel);
  }

  /** A text that ends in the middle of a head leaves the request as it was read so far. */
  lemma ReadCut(text: string, h: Head, fuel: nat)
    requires h.it <= |text| && ROUTE <= h.state <= HEADER_VALUE && Holds(h.state, text[h.it..])
    ensures ReadHead(text, h, fuel).Some?
    ensures ReadHead(text, h, fuel).value.it == |text| && ReadHead(text, h, fuel).value.obj == h.obj
  {
    hide Decoded;
    var rest := text[h.it..];
    assert Occurs(text, h.it, rest);
    if ValueState(h.state) {
      ReadValue(text, h, rest, fuel);
    } else {
      ReadKey(text, h, rest, fuel);
    }
  }

  /** Everything the head of a printed request writes into the request object. */
  ghost function StoreHead(obj: map<string, Json>, t: Target, hs: seq<Header>, fuel: nat): map<string, Json>
    requires StoreTarget(obj, t, fuel).Some?
  {
    StoreHeaders(SetText(StoreTarget(obj, t, fuel).value, "protocol", TargetLeftover(t) + "HTTP/1.1"), hs)
  }

  /** The head of any printed request is read to its end, and the body starts where it was printed. */
  lemma ReadPrintedHead(text: string, start: nat, obj: map<string, Json>, t: Target, hs: seq<Header>, fuel: nat)
    requires Occurs(text, start, PrintTarget(t) + " " + PROTOCOL_LINE + PrintHeaders(hs) + "\r\n")
    requires GoodTarget(t) && StoreTarget(obj, t, fuel).Some?
    requires forall i :: 0 <= i < |hs| ==> Printable(hs[i])
    ensures var r := ReadHead(text, Head(start, ROUTE, "", "/", obj), fuel);
      && r.Some?
      && r.value.it == start + |PrintTarget(t) + " " + PROTOCOL_LINE + PrintHeaders(hs) + "\r\n"|
      && r.value.obj == StoreHead(obj, t, hs, fuel)
  {
    hide ReadHead, Occurs, StoreTarget, StoreHeaders, PrintTarget, PrintHeaders, Printable, GoodTarget, TargetLeftover;
    OccursSplit(text, start, PrintTarget(t) + " " + PROTOCOL_LINE + PrintHeaders(hs), "\r\n");
    OccursSplit(text, start, PrintTarget(t) + " " + PROTOCOL_LINE, PrintHeaders(hs));
    OccursSplit(text, start, PrintTarget(t) + " ", PROTOCOL_LINE);
    var h := ReadTarget(text, Head(start, ROUTE, "", "/", obj), t, fuel);
    h := ReadProtocol(text, h, fuel);
    h := ReadHeaders(text, h, hs, fuel);
    ReadBlankLine(text, h, fuel);
  }

  /** The method name of a printed request decides the start that matches. */
  lemma MethodFound(text: string, m: Method, rest: string)
    requires m in METHODS && text == m.start + rest
    ensures MethodOf(text, METHODS) == Some(m)
  {
    assert forall k <- METHODS :: k.start <= text ==> k == m by {
      assert text[0] == m.start[0] && text[1] == m.start[1];
    }
    FirstMatch(text, METHODS, m);
  }

  lemma {:induction false} FirstMatch(text: string, methods: seq<Method>, m: Method)
    requires m in methods && m.start <= text && forall k <- methods :: k.start <= text ==> k == m
    ensures MethodOf(text, methods) == Some(m)
    decreases methods
  {
    if methods[0] != m {
      FirstMatch(text, methods[1..], m);
    }
  }

  predicate GoodMethod(m: Method) {
    m in METHODS && m.start == m.name + " /"
  }

  lemma RequestParts(m: Method, t: Target, hs: seq<Header>, body: string)
    requires GoodMethod(m)
    ensures PrintRequest(m.name, "/" + PrintTarget(t), hs, body)
         == m.start + (PrintTarget(t) + " " + PROTOCOL_LINE + PrintHeaders(hs) + "\r\n" + body)
  {
    hide PrintTarget, PrintHeaders;
  }

  /** Every printed request, with any of the five methods, is read back in full and its body handed on. */
  lemma ReadPrintedRequest(m: Method, t: Target, hs: seq<Header>, body: string, node: Json, fuel: nat)
    requires GoodMethod(m) && GoodTarget(t) && forall i :: 0 <= i < |hs| ==> Printable(hs[i])
    requires StoreTarget(Initial(node.obj, m.name), t, fuel).Some?
    ensures var text := PrintRequest(m.name, "/" + PrintTarget(t), hs, body);
      ParseRequest(text, node, fuel)
        == ParseBody(text, node.(obj := StoreHead(Initial(node.obj, m.name), t, hs, fuel)), |text| - |body|, fuel)
  {
    hide ReadHead, StoreHead, PrintTarget, PrintHeaders, Printable, GoodTarget, StoreTarget, PrintRequest, MethodOf, ParseBody, Initial, Occurs;
    var text := PrintRequest(m.name, "/" + PrintTarget(t), hs, body);
    var head := PrintTarget(t) + " " + PROTOCOL_LINE + PrintHeaders(hs) + "\r\n";
    RequestParts(m, t, hs, body);
    MethodFound(text, m, head + body);
    OccursSelf(text);
    OccursSplit(text, 0, m.start, head + body);
    OccursSplit(text, |m.start|, head, body);
    ReadPrintedHead(text, |m.start|, Initial(node.obj, m.name), t, hs, fuel);
  }
}
