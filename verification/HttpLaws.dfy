/** What a server reads of the requests this library's client sends. */
module HttpLaws {
  import opened Text
  import opened JsonScan
  import opened JsonPrint
  import opened JsonRoundTrip
  import opened JsonLaws
  import JsonGrammar
  import JsonSpelled
  import opened HttpScan
  import opened HttpText
  import opened HttpRoundTrip
  import opened Replace
  import Url

  // ----- Values without JSON in them

  /** Text in which the JSON parser finds no opening character and no escape. */
  predicate Inert(s: string) {
    forall k :: 0 <= k < |s| ==> s[k] != NUL && s[k] != '"' && s[k] != '{' && s[k] != '[' && s[k] != '\\'
  }

  lemma {:induction false} ScanInert(s: string, it: nat, node: Json, fuel: nat)
    requires Inert(s) && it <= |s| && node.kind == NoType && fuel > |s| - it
    ensures Scan(s, Start(it, node), fuel) == Some(Parsed(node, |s| - 1))
    decreases |s| - it
  {
    if it < |s| {
      Advance(s, Start(it, node), fuel);
      ScanInert(s, it + 1, node, fuel - 1);
    }
  }

  /** A parameter or form field without JSON is stored as the string it is. */
  lemma StoreInert(obj: map<string, Json>, key: string, value: string, fuel: nat)
    requires Inert(value) && fuel > |value|
    ensures StoreParam(obj, key, value, fuel) == Some(StoreString(obj, key, value))
  {
    ScanInert(value, 0, ChildAt(obj, key).(kind := NoType), fuel);
  }

  predicate DistinctKeys(params: seq<Param>) {
    forall a, b :: 0 <= a < b < |params| ==> params[a].key != params[b].key
  }

  /** The entries of string parameters, later ones over earlier ones. */
  function StoreAll(obj: map<string, Json>, params: seq<Param>): map<string, Json>
    decreases params
  {
    if params == [] then obj
    else StoreAll(StoreString(obj, params[0].key, params[0].value), params[1..])
  }

  lemma {:induction false} StoreAllElsewhere(obj: map<string, Json>, params: seq<Param>, k: string)
    requires forall a :: 0 <= a < |params| ==> params[a].key != k
    ensures k in StoreAll(obj, params) <==> k in obj
    ensures k in obj ==> StoreAll(obj, params)[k] == obj[k]
    decreases params
  {
    if params != [] {
      StoreAllElsewhere(StoreString(obj, params[0].key, params[0].value), params[1..], k);
    }
  }

  lemma {:induction false} StoreAllAt(obj: map<string, Json>, params: seq<Param>, a: nat)
    requires DistinctKeys(params) && a < |params|
    ensures HasString(StoreAll(obj, params), params[a].key, params[a].value)
    decreases params
  {
    var next := StoreString(obj, params[0].key, params[0].value);
    if a == 0 {
      StoreAllElsewhere(next, params[1..], params[0].key);
    } else {
      StoreAllAt(next, params[1..], a - 1);
    }
  }

  // ----- Query parameters

  function ParamsOf(t: Target): seq<Param> {
    if t.query.None? then [] else t.query.value.params
  }

  /** What a parameter's entry becomes: the JSON of its value, or the value as a string. */
  ghost function EntryOf(obj: map<string, Json>, p: Param, fuel: nat): Option<Json> {
    Reparsed(ChildAt(obj, p.key), Decoded(p.value, true), fuel)
  }

  /** Parameters with different names whose values are strings or JSON that can be parsed. */
  ghost predicate Readable(obj: map<string, Json>, params: seq<Param>, fuel: nat) {
    DistinctKeys(params) && forall i :: 0 <= i < |params| ==> EntryOf(obj, params[i], fuel).Some?
  }

  predicate KeyIn(params: seq<Param>, k: string) {
    exists i :: 0 <= i < |params| && params[i].key == k
  }

  lemma InertEntry(obj: map<string, Json>, p: Param, fuel: nat)
    requires Inert(Decoded(p.value, true)) && fuel > |p.value|
    ensures EntryOf(obj, p, fuel) == Some(ChildAt(obj, p.key).(kind := String, str := Decoded(p.value, true)))
  {
    DecodedExact(p.value, true);
    StoreInert(obj, p.key, Decoded(p.value, true), fuel);
    var v := Decoded(p.value, true);
    hide Reparsed, HttpRoundTrip.Decoded, Inert;
    assert obj[p.key := EntryOf(obj, p, fuel).value][p.key] == StoreString(obj, p.key, v)[p.key];
  }

  /** A parameter whose value decodes to printed JSON holds that JSON. */
  lemma JsonEntry(obj: map<string, Json>, p: Param, d: Doc, pretty: bool, fuel: nat)
    requires NulFreeDoc(d) && Decoded(p.value, true) == Print(d, pretty, 0) && p.key !in obj
    requires fuel >= 2 * |Print(d, pretty, 0)|
    ensures EntryOf(obj, p, fuel) == Some(Readback(d))
  {
    hide Print, Scan, Readback, NulFreeDoc, HttpRoundTrip.Decoded;
    var text := Print(d, pretty, 0);
    OccursSelf(text);
    ReadDoc(text, 0, d, pretty, 0, fuel);
    ReadbackTyped(d);
  }

  lemma ReadbackTyped(d: Doc)
    ensures Readback(d).kind != NoType
  {}

  /** Every query parameter gets its entry, and nothing else is touched. */
  lemma {:induction false} ParamsRead(obj: map<string, Json>, params: seq<Param>, fuel: nat)
    requires Readable(obj, params, fuel)
    ensures StoreParams(obj, params, fuel).Some?
    ensures var s := StoreParams(obj, params, fuel).value;
      && (forall i :: 0 <= i < |params| ==> params[i].key in s && Some(s[params[i].key]) == EntryOf(obj, params[i], fuel))
      && (forall k :: !KeyIn(params, k) ==> (k in s <==> k in obj) && (k in obj ==> s[k] == obj[k]))
    decreases params
  {
    hide Reparsed, HttpRoundTrip.Decoded;
    if params != [] {
      var p, rest := params[0], params[1..];
      var next := obj[p.key := EntryOf(obj, p, fuel).value];
      assert forall i :: 0 <= i < |rest| ==> rest[i] == params[i + 1] && EntryOf(next, rest[i], fuel) == EntryOf(obj, rest[i], fuel);
      ParamsRead(next, rest, fuel);
      assert !KeyIn(rest, p.key);
      assert forall k :: KeyIn(params, k) <==> k == p.key || KeyIn(rest, k) by {
        forall k
          ensures KeyIn(params, k) <==> k == p.key || KeyIn(rest, k)
        {
          KeySplit(params, k);
        }
      }
    }
  }

  lemma KeySplit(params: seq<Param>, k: string)
    requires params != []
    ensures KeyIn(params, k) <==> k == params[0].key || KeyIn(params[1..], k)
  {
    if KeyIn(params, k) {
      var i :| 0 <= i < |params| && params[i].key == k;
      if i > 0 {
        assert params[1..][i - 1].key == k;
      }
    }
    if KeyIn(params[1..], k) {
      var i :| 0 <= i < |params[1..]| && params[1..][i].key == k;
      assert params[i + 1].key == k;
    }
    assert params[0].key == k ==> KeyIn(params, k);
  }

  // ----- Forms

  /** A form body: pairs joined by `&`. */
  function PrintForm(params: seq<Param>): string {
    if params == [] then ""
    else
      params[0].key + "=" + params[0].value
      + (if |params| > 1 then "&" else "")
      + PrintForm(params[1..])
  }

  predicate FormText(s: string) {
    forall k :: 0 <= k < |s| ==> s[k] != NUL && s[k] != '&' && s[k] != '='
  }

  /** The form reader behind some more text of the key or the value. */
  function Collected(f: Form, s: string): Form {
    if f.inValue then f.(it := f.it + |s|, value := f.value + s) else f.(it := f.it + |s|, key := f.key + s)
  }

  lemma CollectedMore(f: Form, a: string, b: string)
    ensures Collected(Collected(f, a), b) == Collected(f, a + b) && Collected(f, "") == f
  {
    Assoc(f.value, a, b);
    Assoc(f.key, a, b);
    assert f.value + "" == f.value && f.key + "" == f.key;
  }

  lemma FormChar(text: string, f: Form, fuel: nat)
    requires f.it < |text| && text[f.it] != NUL && text[f.it] != '&' && text[f.it] != '='
    ensures ReadForm(text, f, fuel) == ReadForm(text, Collected(f, [text[f.it]]), fuel)
  {}

  lemma {:induction false} ReadFormRun(text: string, f: Form, s: string, fuel: nat)
    requires Occurs(text, f.it, s) && FormText(s)
    ensures ReadForm(text, f, fuel) == ReadForm(text, Collected(f, s), fuel)
    decreases |s|
  {
    hide ReadForm, Occurs;
    if s == "" {
      CollectedMore(f, "", "");
    } else {
      FirstOf(text, f.it, s);
      FormChar(text, f, fuel);
      CollectedMore(f, [s[0]], s[1..]);
      assert s == [s[0]] + s[1..];
      ReadFormRun(text, Collected(f, [s[0]]), s[1..], fuel);
    }
  }

  /** Fields whose keys and values have no delimiter and whose values hold no JSON. */
  predicate GoodForm(params: seq<Param>, fuel: nat) {
    forall i :: 0 <= i < |params| ==>
      FormText(params[i].key) && FormText(params[i].value) && Inert(params[i].value) && fuel > |params[i].value|
  }

  lemma ReadPair(text: string, it: nat, obj: map<string, Json>, p: Param, fuel: nat)
    requires Occurs(text, it, p.key + "=" + p.value) && FormText(p.key) && FormText(p.value)
    ensures ReadForm(text, Form(it, false, "", "", obj), fuel)
         == ReadForm(text, Form(it + |p.key + "=" + p.value|, true, p.key, p.value, obj), fuel)
  {
    hide Occurs, ReadForm, FormText;
    OccursSplit(text, it, p.key + "=", p.value);
    OccursSplit(text, it, p.key, "=");
    ReadFormRun(text, Form(it, false, "", "", obj), p.key, fuel);
    assert "" + p.key == p.key && "" + p.value == p.value;
    FirstOf(text, it + |p.key|, "=");
    FormEquals(text, Form(it + |p.key|, false, p.key, "", obj), fuel);
    ReadFormRun(text, Form(it + |p.key| + 1, true, p.key, "", obj), p.value, fuel);
  }

  lemma FormEquals(text: string, f: Form, fuel: nat)
    requires f.it < |text| && text[f.it] == '='
    ensures ReadForm(text, f, fuel) == ReadForm(text, f.(it := f.it + 1, inValue := true), fuel)
  {}

  /** A form at the end of the text stores every field as a string. */
  lemma {:induction false} ReadPrintedForm(text: string, it: nat, obj: map<string, Json>, params: seq<Param>, fuel: nat)
    requires Occurs(text, it, PrintForm(params)) && it + |PrintForm(params)| == |text| && GoodForm(params, fuel)
    ensures ReadForm(text, Form(it, false, "", "", obj), fuel) == Some(StoreAll(obj, params))
    decreases params
  {
    hide Occurs, StoreParam, Inert;
    if params != [] {
      var p, rest := params[0], params[1..];
      var pair := p.key + "=" + p.value;
      StoreInert(obj, p.key, p.value, fuel);
      if rest == [] {
        assert PrintForm(params) == pair;
        ReadPair(text, it, obj, p, fuel);
        assert StoreAll(obj, params) == StoreString(obj, p.key, p.value);
      } else {
        assert PrintForm(params) == pair + ("&" + PrintForm(rest));
        OccursSplit(text, it, pair, "&" + PrintForm(rest));
        FirstOf(text, it + |pair|, "&" + PrintForm(rest));
        assert ("&" + PrintForm(rest))[1..] == PrintForm(rest);
        ReadPair(text, it, obj, p, fuel);
        ReadPrintedForm(text, it + |pair| + 1, StoreString(obj, p.key, p.value), rest, fuel);
      }
    }
  }

  /** Fields with URL-encoded values, as a browser or script sends them. */
  function EncodedParams(params: seq<Param>): (r: seq<Param>)
    ensures |r| == |params|
    ensures forall i :: 0 <= i < |params| ==> r[i] == Param(params[i].key, Url.Encoded(params[i].value))
  {
    seq(|params|, i requires 0 <= i < |params| => Param(params[i].key, Url.Encoded(params[i].value)))
  }

  /** Enough fuel for every field's value. */
  predicate FuelFor(params: seq<Param>, fuel: nat) {
    forall i :: 0 <= i < |params| ==> fuel > |Url.Encoded(params[i].value)|
  }

  /**
   A form of URL-encoded fields, read by the form branch: each field holds its encoded
   value, and decoding that gives the original value exactly when the value is ASCII
   without NUL.
   */
  lemma FormRoundTrip(text: string, it: nat, obj: map<string, Json>, params: seq<Param>, fuel: nat)
    requires DistinctKeys(params) && FuelFor(params, fuel)
    requires forall i :: 0 <= i < |params| ==> FormText(params[i].key) && Url.Bytes(params[i].value)
    requires Occurs(text, it, PrintForm(EncodedParams(params))) && it + |PrintForm(EncodedParams(params))| == |text|
    ensures var read := ReadForm(text, Form(it, false, "", "", obj), fuel);
      && read.Some?
      && forall i :: 0 <= i < |params| ==>
           && HasString(read.value, params[i].key, Url.Encoded(params[i].value))
           && (Url.Decoded(read.value[params[i].key].str) == Some(params[i].value) <==> Url.Ascii(params[i].value))
  {
    hide Occurs, FormText, Inert, PrintForm, StoreAll, Url.Encoded, Url.Decoded, Url.Ascii;
    var sent := EncodedParams(params);
    forall i | 0 <= i < |params|
      ensures FormText(sent[i].value) && Inert(sent[i].value)
    {
      EncodedInert(params[i].value);
    }
    ReadPrintedForm(text, it, obj, sent, fuel);
    forall i | 0 <= i < |params|
      ensures HasString(StoreAll(obj, sent), params[i].key, Url.Encoded(params[i].value))
      ensures Url.Decoded(Url.Encoded(params[i].value)) == Some(params[i].value) <==> Url.Ascii(params[i].value)
    {
      StoreAllAt(obj, sent, i);
      Url.RoundTripExact(params[i].value);
    }
  }

  /** No character that `url_encode` produces has a role in a form body or opens a JSON value. */
  lemma EncodedInert(s: string)
    ensures FormText(Url.Encoded(s)) && Inert(Url.Encoded(s))
  {
    Url.EncodedHarmless(CString(s));
  }

  // ----- Header entries

  lemma {:induction false} HeadersElsewhere(obj: map<string, Json>, hs: seq<Header>, k: string)
    requires forall i :: 0 <= i < |hs| ==> hs[i].name != k
    ensures k in StoreHeaders(obj, hs) <==> k in obj
    ensures k in obj ==> StoreHeaders(obj, hs)[k] == obj[k]
    decreases hs
  {
    hide HttpRoundTrip.Decoded;
    if hs != [] {
      HeadersElsewhere(StoreString(obj, hs[0].name, Decoded(hs[0].value, false)), hs[1..], k);
    }
  }

  /** The last header of a name decides its entry. */
  lemma {:induction false} HeaderAt(obj: map<string, Json>, hs: seq<Header>, i: nat)
    requires i < |hs| && forall j :: i < j < |hs| ==> hs[j].name != hs[i].name
    ensures HasString(StoreHeaders(obj, hs), hs[i].name, Decoded(hs[i].value, false))
    decreases hs
  {
    hide HttpRoundTrip.Decoded;
    var next := StoreString(obj, hs[0].name, Decoded(hs[0].value, false));
    if i == 0 {
      HeadersElsewhere(next, hs[1..], hs[0].name);
    } else {
      HeaderAt(next, hs[1..], i - 1);
    }
  }

  lemma {:induction false} CallerAt(headers: map<string, string>, order: seq<string>)
    requires forall k <- order :: k in headers
    ensures |CallerHeaders(headers, order)| == |order|
    ensures forall i :: 0 <= i < |order| ==> CallerHeaders(headers, order)[i] == Header(order[i], headers[order[i]], "\n")
    decreases order
  {
    if order != [] {
      CallerAt(headers, order[1..]);
    }
  }

  /** Header names that the request object uses for the request line, or that `post` writes last. */
  predicate Reserved(name: string) {
    name == "method" || name == "route" || name == "protocol" || name == "Content-Length"
  }

  /** Caller's headers that neither break their line nor hide an entry of the request line. */
  predicate GoodHeaders(headers: map<string, string>) {
    forall k <- headers :: Holds(HEADER_KEY, k) && Holds(HEADER_VALUE, headers[k]) && !Reserved(k)
  }

  lemma PostPrintable(hostname: string, headers: map<string, string>, order: seq<string>, body: string)
    requires Orders(order, headers.Keys) && GoodHeaders(headers) && Holds(HEADER_VALUE, hostname)
    ensures var hs := PostHeaders(hostname, headers, order, body);
      forall i :: 0 <= i < |hs| ==> Printable(hs[i])
  {
    hide Holds, PostHeaders;
    var hs := PostHeaders(hostname, headers, order, body);
    CallerPlaces(hostname, headers, order, body);
    FixedPrintable(hostname);
    DecimalHolds(|PostedBody(body)|);
    assert hs[4 + |order|] == Header("Content-Length", Decimal(|PostedBody(body)|), "\r\n") by {
      LengthLast(hostname, headers, order, body);
    }
  }

  lemma LengthLast(hostname: string, headers: map<string, string>, order: seq<string>, body: string)
    requires Orders(order, headers.Keys)
    ensures var hs := PostHeaders(hostname, headers, order, body);
      hs != [] && hs[|hs| - 1] == Header("Content-Length", Decimal(|PostedBody(body)|), "\r\n")
  {}

  lemma FixedPrintable(hostname: string)
    requires Holds(HEADER_VALUE, hostname)
    ensures forall i :: 0 <= i < 4 ==> Printable(FixedHeaders(hostname)[i])
    ensures Holds(HEADER_KEY, "Content-Length")
  {
    FixedKeysHold();
    FixedValuesHold();
    hide Holds;
  }

  lemma FixedKeysHold()
    ensures Holds(HEADER_KEY, "Host") && Holds(HEADER_KEY, "User-Agent") && Holds(HEADER_KEY, "Accept")
    ensures Holds(HEADER_KEY, "Connection") && Holds(HEADER_KEY, "Content-Length")
  {}

  lemma FixedValuesHold()
    ensures Holds(HEADER_VALUE, "close") && Holds(HEADER_VALUE, "libjaypea") && Holds(HEADER_VALUE, "*/*")
  {}

  lemma DecimalHolds(n: nat)
    ensures Holds(HEADER_VALUE, Decimal(n))
  {
    var d := Decimal(n);
    assert forall k :: 0 <= k < |d| ==> d[k] in d;
  }

  // ----- The head of a request

  predicate RequestLine(name: string) {
    name == "method" || name == "route" || name == "protocol"
  }

  predicate NameIn(hs: seq<Header>, k: string) {
    exists i :: 0 <= i < |hs| && hs[i].name == k
  }

  /** A query whose parameters can be read and do not hide the request line. */
  ghost predicate GoodParams(obj: map<string, Json>, t: Target, fuel: nat) {
    Readable(obj, ParamsOf(t), fuel) && forall k :: KeyIn(ParamsOf(t), k) ==> !RequestLine(k)
  }

  /** The request line and the parameters, once the target was read. */
  ghost predicate TargetStored(s: map<string, Json>, obj: map<string, Json>, t: Target, fuel: nat) {
    && "route" in s && s["route"] == ChildAt(obj, "route").(str := "/" + Decoded(t.path, false))
    && (forall i :: 0 <= i < |ParamsOf(t)| ==>
          ParamsOf(t)[i].key in s && Some(s[ParamsOf(t)[i].key]) == EntryOf(obj, ParamsOf(t)[i], fuel))
    && (forall k :: k != "route" && !KeyIn(ParamsOf(t), k) ==> (k in s <==> k in obj) && (k in obj ==> s[k] == obj[k]))
  }

  lemma TargetEntries(obj: map<string, Json>, t: Target, fuel: nat)
    requires GoodParams(obj, t, fuel)
    ensures StoreTarget(obj, t, fuel).Some? && TargetStored(StoreTarget(obj, t, fuel).value, obj, t, fuel)
  {
    hide Reparsed, HttpRoundTrip.Decoded, KeyIn;
    var params := ParamsOf(t);
    var routed := SetText(obj, "route", "/" + Decoded(t.path, false));
    forall i | 0 <= i < |params|
      ensures EntryOf(routed, params[i], fuel) == EntryOf(obj, params[i], fuel)
    {
      KeyThere(params, i);
    }
    ParamsRead(routed, params, fuel);
    assert t.query.None? ==> StoreParams(routed, params, fuel) == Some(routed);
  }

  lemma KeyThere(params: seq<Param>, i: nat)
    requires i < |params|
    ensures KeyIn(params, params[i].key)
  {}

  /** The entries of any head: the request line, and the parameters that no header overrides. */
  ghost predicate HeadStored(m: map<string, Json>, obj: map<string, Json>, name: string, t: Target, hs: seq<Header>, fuel: nat) {
    && HasString(m, "method", name)
    && HasString(m, "route", "/" + Decoded(t.path, false))
    && HasString(m, "protocol", TargetLeftover(t) + "HTTP/1.1")
    && (forall i :: 0 <= i < |ParamsOf(t)| && !NameIn(hs, ParamsOf(t)[i].key) ==>
          ParamsOf(t)[i].key in m && Some(m[ParamsOf(t)[i].key]) == EntryOf(obj, ParamsOf(t)[i], fuel))
  }

  lemma HeadEntries(given: map<string, Json>, name: string, t: Target, hs: seq<Header>, fuel: nat)
    requires GoodParams(Initial(given, name), t, fuel) && forall k :: NameIn(hs, k) ==> !RequestLine(k)
    ensures StoreTarget(Initial(given, name), t, fuel).Some?
    ensures HeadStored(StoreHead(Initial(given, name), t, hs, fuel), Initial(given, name), name, t, hs, fuel)
  {
    hide Reparsed, HttpRoundTrip.Decoded, StoreHeaders, StoreTarget, EntryOf, NameIn, TargetLeftover;
    var obj := Initial(given, name);
    TargetEntries(obj, t, fuel);
    var s := StoreTarget(obj, t, fuel).value;
    var start := SetText(s, "protocol", TargetLeftover(t) + "HTTP/1.1");
    assert !KeyIn(ParamsOf(t), "method") && !KeyIn(ParamsOf(t), "protocol");
    OtherEntry(start, hs, "method");
    OtherEntry(start, hs, "route");
    OtherEntry(start, hs, "protocol");
    forall i | 0 <= i < |ParamsOf(t)| && !NameIn(hs, ParamsOf(t)[i].key)
      ensures var m, k := StoreHeaders(start, hs), ParamsOf(t)[i].key; k in m && m[k] == s[k]
    {
      KeyThere(ParamsOf(t), i);
      OtherEntry(start, hs, ParamsOf(t)[i].key);
    }
  }

  lemma OtherEntry(start: map<string, Json>, hs: seq<Header>, k: string)
    requires !NameIn(hs, k)
    ensures k in StoreHeaders(start, hs) <==> k in start
    ensures k in start ==> StoreHeaders(start, hs)[k] == start[k]
  {
    hide StoreHeaders;
    HeadersElsewhere(start, hs, k);
  }

  /** Where the caller's headers stand in a post. */
  lemma CallerPlaces(hostname: string, headers: map<string, string>, order: seq<string>, body: string)
    requires Orders(order, headers.Keys)
    ensures var hs := PostHeaders(hostname, headers, order, body);
      && |hs| == 5 + |order| && hs[4 + |order|].name == "Content-Length"
      && (forall i :: 0 <= i < 4 ==> hs[i] == FixedHeaders(hostname)[i])
      && (forall i :: 4 <= i < 4 + |order| ==> order[i - 4] in headers && hs[i] == Header(order[i - 4], headers[order[i - 4]], "\n"))
  {
    CallerAt(headers, order);
  }

  lemma CallerEntry(start: map<string, Json>, hs: seq<Header>, headers: map<string, string>, order: seq<string>, i: nat)
    requires Orders(order, headers.Keys) && i < |order| && order[i] != "Content-Length"
    requires |hs| == 5 + |order| && hs[4 + |order|].name == "Content-Length"
    requires forall j :: 4 <= j < 4 + |order| ==> order[j - 4] in headers && hs[j] == Header(order[j - 4], headers[order[j - 4]], "\n")
    ensures order[i] in headers && HasString(StoreHeaders(start, hs), order[i], Decoded(headers[order[i]], false))
  {
    hide HttpRoundTrip.Decoded, StoreHeaders;
    forall j | i + 4 < j < |hs|
      ensures hs[j].name != order[i]
    {
      assert j < 4 + |order| ==> order[j - 4] != order[i];
    }
    HeaderAt(start, hs, i + 4);
  }

  /** Each caller's header is found with its decoded value. */
  lemma CallerEntries(start: map<string, Json>, hostname: string, headers: map<string, string>, order: seq<string>, body: string)
    requires Orders(order, headers.Keys) && GoodHeaders(headers)
    ensures forall k <- headers :: HasString(StoreHeaders(start, PostHeaders(hostname, headers, order, body)), k, Decoded(headers[k], false))
  {
    hide HttpRoundTrip.Decoded, StoreHeaders, Holds, HasString, PostHeaders;
    var hs := PostHeaders(hostname, headers, order, body);
    CallerPlaces(hostname, headers, order, body);
    forall k <- headers
      ensures HasString(StoreHeaders(start, hs), k, Decoded(headers[k], false))
    {
      assert k in order && !Reserved(k);
      var i :| 0 <= i < |order| && order[i] == k;
      CallerEntry(start, hs, headers, order, i);
    }
  }

  /** No header of a post hides the request line. */
  lemma PostNames(hostname: string, headers: map<string, string>, order: seq<string>, body: string)
    requires Orders(order, headers.Keys) && GoodHeaders(headers)
    ensures forall k :: NameIn(PostHeaders(hostname, headers, order, body), k) ==> !RequestLine(k)
  {
    hide Holds, PostHeaders;
    var hs := PostHeaders(hostname, headers, order, body);
    CallerPlaces(hostname, headers, order, body);
    FixedNames(hostname);
    forall i | 0 <= i < |hs|
      ensures !RequestLine(hs[i].name)
    {
      if i < 4 {
        assert NameIn(FixedHeaders(hostname), hs[i].name);
      } else if i < 4 + |order| {
        assert !Reserved(order[i - 4]);
      }
    }
  }

  /** The entries of a posted request: the request line, the parameters, and each caller's header with its decoded value. */
  lemma PostEntries(given: map<string, Json>, t: Target, hostname: string, headers: map<string, string>, order: seq<string>, body: string, fuel: nat)
    requires Orders(order, headers.Keys) && GoodHeaders(headers) && GoodParams(Initial(given, "POST"), t, fuel)
    ensures StoreTarget(Initial(given, "POST"), t, fuel).Some?
    ensures var obj, hs := Initial(given, "POST"), PostHeaders(hostname, headers, order, body);
      var m := StoreHead(obj, t, hs, fuel);
      HeadStored(m, obj, "POST", t, hs, fuel) && forall k <- headers :: HasString(m, k, Decoded(headers[k], false))
  {
    hide HeadStored, StoreTarget, StoreHeaders, PostHeaders, GoodHeaders, GoodParams, Initial, HttpRoundTrip.Decoded, TargetLeftover;
    var obj, hs := Initial(given, "POST"), PostHeaders(hostname, headers, order, body);
    PostNames(hostname, headers, order, body);
    HeadEntries(given, "POST", t, hs, fuel);
    var s := StoreTarget(obj, t, fuel).value;
    CallerEntries(SetText(s, "protocol", TargetLeftover(t) + "HTTP/1.1"), hostname, headers, order, body);
  }

  // ----- Bodies

  predicate ReturnFree(s: string) {
    '\r' !in s
  }

  lemma QuoteReturnFree(s: string)
    ensures ReturnFree(Quote(s))
  {
    EscapedReturnFree(s);
  }

  lemma EscapedReturnFree(s: string)
    ensures '\r' !in EscapeBody(s)
  {}

  lemma ReturnFreeKept(any: string -> bool)
    ensures OfPrints(ReturnFree, any)
  {
    hide Quote;
    forall s: string
      ensures ReturnFree(Quote(s))
    {
      QuoteReturnFree(s);
    }
  }

  /** Printed JSON holds no return, so posting it changes nothing. */
  lemma PrintReturnFree(d: Doc, pretty: bool, depth: nat)
    ensures '\r' !in Print(d, pretty, depth)
  {
    var any := (s: string) => true;
    hide OfPrints, Print;
    ReturnFreeKept(any);
    AnyStrings(d, any);
    PrintKept(d, pretty, depth, ReturnFree, any);
  }

  lemma PostedUnchanged(body: string)
    requires '\r' !in body
    ensures PostedBody(body) == body
  {
    forall k | 0 <= k < |body|
      ensures !("\r\n" <= body[k..])
    {
      assert body[k..][0] == body[k];
    }
    ReplacedAbsent(body, "\r\n", "<br>");
  }

  /** A printed object parsed over a node that is an object already: its pairs override the old ones. */
  lemma ReadOverObject(text: string, it: nat, node: Json, fields: seq<Field>, pretty: bool, depth: nat, fuel: nat)
    requires node.kind == Object && NulFreeFields(fields) && EnoughInside(text, it, fuel)
    requires Occurs(text, it, Print(Dict(fields), pretty, depth))
    ensures Scan(text, Start(it, node), fuel)
         == Some(Parsed(node.(obj := Overlay(node.obj, fields)), it + |Print(Dict(fields), pretty, depth)| - 1))
  {
    hide Scan, Occurs, PrintFields, Overlay;
    var before := NewLine(pretty) + PrintFields(fields, pretty, Deeper(pretty, depth)) + Tabs(pretty, depth);
    assert Print(Dict(fields), pretty, depth) == ['{'] + (before + "}");
    FirstOccurs(text, it, '{', before + "}");
    Advance(text, Start(it, node), fuel);
    ReadDict(text, Start(it + 1, node), fields, pretty, depth, fuel - 1);
  }

  // ----- The client's requests

  /**
   A posted JSON object. Whatever the path, its query, the header order and the fields, the
   server's request object holds the request line, the parameters and the headers, overridden
   by the object's pairs.
   */
  lemma PostReadBack(hostname: string, t: Target, headers: map<string, string>, order: seq<string>,
                     fields: seq<Field>, pretty: bool, node: Json, fuel: nat)
    requires GoodTarget(t) && GoodParams(Initial(node.obj, "POST"), t, fuel) && GoodHeaders(headers) && Orders(order, headers.Keys)
    requires Holds(HEADER_VALUE, hostname) && NulFreeFields(fields) && node.kind == Object
    requires "Content-Type" in headers && headers["Content-Type"] == "application/json"
    requires fuel > 2 * |Print(Dict(fields), pretty, 0)|
    ensures var body := Print(Dict(fields), pretty, 0);
      var text := PrintRequest("POST", "/" + PrintTarget(t), PostHeaders(hostname, headers, order, body), PostedBody(body));
      exists m ::
        && ParseRequest(text, node, fuel) == Some(Request(HTTP_API, node.(obj := Overlay(m, fields))))
        && HeadStored(m, Initial(node.obj, "POST"), "POST", t, PostHeaders(hostname, headers, order, body), fuel)
        && (forall k <- headers :: HasString(m, k, Decoded(headers[k], false)))
  {
    hide ParseRequest, PrintFields, PrintRequest, PrintHeaders, StoreHead, PostHeaders, PostedBody, Overlay, GoodTarget, Scan,
      HttpRoundTrip.Decoded, StoreTarget, PrintTarget, HeadStored, GoodParams, Initial;
    var body := Print(Dict(fields), pretty, 0);
    var post := Method("POST", "POST /");
    var hs := PostHeaders(hostname, headers, order, body);
    var obj := Initial(node.obj, "POST");
    PrintReturnFree(Dict(fields), pretty, 0);
    PostedUnchanged(body);
    PostPrintable(hostname, headers, order, body);
    PostEntries(node.obj, t, hostname, headers, order, body, fuel);
    ReadPrintedRequest(post, t, hs, body, node, fuel);
    var m := StoreHead(obj, t, hs, fuel);
    var text := PrintRequest("POST", "/" + PrintTarget(t), hs, body);
    BodyOccurs("POST", "/" + PrintTarget(t), hs, body);
    JsonTypeDecoded();
    ReadOverObject(text, |text| - |body|, node.(obj := m), fields, pretty, 0, fuel);
  }

  /** With any other content type a posted body is not parsed. */
  lemma OtherReadBack(hostname: string, t: Target, headers: map<string, string>, order: seq<string>, body: string, node: Json, fuel: nat)
    requires GoodTarget(t) && GoodParams(Initial(node.obj, "POST"), t, fuel) && GoodHeaders(headers) && Orders(order, headers.Keys)
    requires Holds(HEADER_VALUE, hostname) && "Content-Type" in headers
    requires Decoded(headers["Content-Type"], false) != "application/json"
    requires Decoded(headers["Content-Type"], false) != "application/x-www-form-urlencoded"
    ensures var hs := PostHeaders(hostname, headers, order, body);
      exists m ::
        && ParseRequest(PrintRequest("POST", "/" + PrintTarget(t), hs, PostedBody(body)), node, fuel)
             == Some(Request(HTTP, node.(obj := m)))
        && HeadStored(m, Initial(node.obj, "POST"), "POST", t, hs, fuel)
        && (forall k <- headers :: HasString(m, k, Decoded(headers[k], false)))
  {
    hide ParseRequest, PrintRequest, PrintHeaders, StoreHead, PostHeaders, PostedBody, GoodTarget, Scan, ReadForm,
      HttpRoundTrip.Decoded, StoreTarget, PrintTarget, HeadStored, GoodParams, Initial;
    var post := Method("POST", "POST /");
    var hs := PostHeaders(hostname, headers, order, body);
    PostPrintable(hostname, headers, order, body);
    PostEntries(node.obj, t, hostname, headers, order, body, fuel);
    ReadPrintedRequest(post, t, hs, PostedBody(body), node, fuel);
    var m := StoreHead(Initial(node.obj, "POST"), t, hs, fuel);
    assert HasString(m, "Content-Type", Decoded(headers["Content-Type"], false));
  }

  lemma JsonTypeDecoded()
    ensures Decoded("application/json", false) == "application/json"
  {
    hide HttpRoundTrip.Decoded;
    DecodedExact("application/json", false);
  }

  lemma BodyOccurs(name: string, target: string, hs: seq<Header>, body: string)
    ensures var text := PrintRequest(name, target, hs, body);
      |text| >= |body| && Occurs(text, |text| - |body|, body)
  {
    hide PrintHeaders;
  }

  /** The form content type among the caller's headers. */
  const FORM_TYPE := "application/x-www-form-urlencoded"

  lemma FormTypeDecoded()
    ensures Decoded(FORM_TYPE, false) == FORM_TYPE
  {
    hide HttpRoundTrip.Decoded;
    DecodedExact(FORM_TYPE, false);
  }

  lemma {:induction false} FormReturnFree(params: seq<Param>)
    requires forall i :: 0 <= i < |params| ==> '\r' !in params[i].key && '\r' !in params[i].value
    ensures '\r' !in PrintForm(params)
    decreases params
  {
    if params != [] {
      FormReturnFree(params[1..]);
      PairReturnFree(params[0].key, params[0].value, PrintForm(params[1..]), |params| > 1);
    }
  }

  lemma PairReturnFree(key: string, value: string, rest: string, more: bool)
    requires '\r' !in key && '\r' !in value && '\r' !in rest
    ensures '\r' !in key + "=" + value + (if more then "&" else "") + rest
  {}

  /** Every field is stored, and decodes to the value that was sent exactly when that is ASCII without NUL. */
  ghost predicate FieldsStored(obj: map<string, Json>, params: seq<Param>) {
    forall i :: 0 <= i < |params| ==>
      && HasString(obj, params[i].key, Url.Encoded(params[i].value))
      && (Url.Decoded(obj[params[i].key].str) == Some(params[i].value) <==> Url.Ascii(params[i].value))
  }

  predicate GoodFields(params: seq<Param>, fuel: nat) {
    && DistinctKeys(params) && FuelFor(params, fuel)
    && forall i :: 0 <= i < |params| ==>
         FormText(params[i].key) && '\r' !in params[i].key && Url.Bytes(params[i].value)
  }

  lemma FormBody(text: string, it: nat, node: Json, params: seq<Param>, fuel: nat)
    requires GoodFields(params, fuel) && HasString(node.obj, "Content-Type", FORM_TYPE)
    requires Occurs(text, it, PrintForm(EncodedParams(params))) && it + |PrintForm(EncodedParams(params))| == |text|
    ensures exists obj ::
      ParseBody(text, node, it, fuel) == Some(Request(HTTP_FORM, node.(obj := obj))) && FieldsStored(obj, params)
  {
    hide Occurs, ReadForm, PrintForm, FormText, Url.Encoded, Url.Decoded, Url.Ascii, Url.Bytes;
    FormRoundTrip(text, it, node.obj, params, fuel);
    var obj := ReadForm(text, Form(it, false, "", "", node.obj), fuel).value;
    assert FieldsStored(obj, params);
  }

  lemma FormUnchanged(params: seq<Param>, fuel: nat)
    requires GoodFields(params, fuel)
    ensures PostedBody(PrintForm(EncodedParams(params))) == PrintForm(EncodedParams(params))
  {
    hide Url.Encoded, PrintForm, PostedBody;
    var sent := EncodedParams(params);
    forall i | 0 <= i < |params|
      ensures '\r' !in sent[i].key && '\r' !in sent[i].value
    {
      EncodedReturnFree(params[i].value);
    }
    FormReturnFree(sent);
    PostedUnchanged(PrintForm(sent));
  }

  /** A posted form of URL-encoded fields: the server's request object holds every field. */
  lemma FormReadBack(hostname: string, t: Target, headers: map<string, string>, order: seq<string>,
                     params: seq<Param>, node: Json, fuel: nat)
    requires GoodTarget(t) && GoodParams(Initial(node.obj, "POST"), t, fuel) && GoodHeaders(headers) && Orders(order, headers.Keys)
    requires Holds(HEADER_VALUE, hostname) && GoodFields(params, fuel)
    requires "Content-Type" in headers && headers["Content-Type"] == FORM_TYPE
    ensures var body := PrintForm(EncodedParams(params));
      var text := PrintRequest("POST", "/" + PrintTarget(t), PostHeaders(hostname, headers, order, body), PostedBody(body));
      exists obj ::
        ParseRequest(text, node, fuel) == Some(Request(HTTP_FORM, node.(obj := obj))) && FieldsStored(obj, params)
  {
    hide ParseRequest, PrintForm, PrintRequest, PrintHeaders, StoreHead, PostHeaders, PostedBody, GoodTarget, GoodFields,
      HttpRoundTrip.Decoded, StoreTarget, PrintTarget, Occurs, FieldsStored, ParseBody, Holds, HeadStored, GoodParams, Initial;
    var body := PrintForm(EncodedParams(params));
    FormUnchanged(params, fuel);
    var hs := PostHeaders(hostname, headers, order, body);
    PostPrintable(hostname, headers, order, body);
    PostEntries(node.obj, t, hostname, headers, order, body, fuel);
    ReadPrintedRequest(Method("POST", "POST /"), t, hs, body, node, fuel);
    var m := StoreHead(Initial(node.obj, "POST"), t, hs, fuel);
    var text := PrintRequest("POST", "/" + PrintTarget(t), hs, body);
    BodyOccurs("POST", "/" + PrintTarget(t), hs, body);
    FormTypeDecoded();
    FormBody(text, |text| - |body|, node.(obj := m), params, fuel);
  }

  lemma EncodedReturnFree(s: string)
    ensures '\r' !in Url.Encoded(s)
  {
    Url.EncodedHarmless(CString(s));
  }

  // ----- Requests without a body

  /** Names that the fixed headers of `get_body` write, or that select a body parser. */
  predicate FixedName(name: string) {
    name == "Content-Type" || name == "Host" || name == "Connection" || name == "User-Agent" || name == "Accept"
  }

  /** What a fetch leaves: the request line, the host, and every parameter as its JSON or its string. */
  ghost predicate FetchStored(m: map<string, Json>, obj: map<string, Json>, hostname: string, t: Target, fuel: nat) {
    && HasString(m, "method", "GET")
    && HasString(m, "route", "/" + Decoded(t.path, false))
    && HasString(m, "protocol", TargetLeftover(t) + "HTTP/1.1")
    && HasString(m, "Host", Decoded(hostname, false))
    && (forall i :: 0 <= i < |ParamsOf(t)| ==>
          ParamsOf(t)[i].key in m && Some(m[ParamsOf(t)[i].key]) == EntryOf(obj, ParamsOf(t)[i], fuel))
  }

  /** A fetched page: every query parameter is read back, as the JSON it decodes to or as a string. */
  lemma GetReadBack(hostname: string, t: Target, node: Json, fuel: nat)
    requires GoodTarget(t) && GoodParams(Initial(node.obj, "GET"), t, fuel) && Holds(HEADER_VALUE, hostname)
    requires forall k :: KeyIn(ParamsOf(t), k) ==> !FixedName(k)
    requires "Content-Type" !in node.obj
    ensures exists m ::
      && ParseRequest(PrintRequest("GET", "/" + PrintTarget(t), FixedHeaders(hostname), ""), node, fuel)
           == Some(Request(HTTP, node.(obj := m)))
      && FetchStored(m, Initial(node.obj, "GET"), hostname, t, fuel)
  {
    hide ParseRequest, PrintRequest, GoodTarget, StoreHead, StoreTarget, GoodParams, FetchStored, Holds, PrintTarget, Initial, KeyIn;
    var obj := Initial(node.obj, "GET");
    GetStored(node.obj, hostname, t, fuel);
    FixedPrintable(hostname);
    ReadPrintedRequest(Method("GET", "GET /"), t, FixedHeaders(hostname), "", node, fuel);
    var m := StoreHead(obj, t, FixedHeaders(hostname), fuel);
    assert FetchStored(m, obj, hostname, t, fuel);
  }

  lemma GetStored(given: map<string, Json>, hostname: string, t: Target, fuel: nat)
    requires GoodParams(Initial(given, "GET"), t, fuel) && "Content-Type" !in given
    requires forall k :: KeyIn(ParamsOf(t), k) ==> !FixedName(k)
    ensures var obj := Initial(given, "GET");
      && StoreTarget(obj, t, fuel).Some?
      && FetchStored(StoreHead(obj, t, FixedHeaders(hostname), fuel), obj, hostname, t, fuel)
      && "Content-Type" !in StoreHead(obj, t, FixedHeaders(hostname), fuel)
  {
    hide HttpRoundTrip.Decoded, StoreHeaders, StoreTarget, TargetLeftover, EntryOf, KeyIn;
    var hs, obj := FixedHeaders(hostname), Initial(given, "GET");
    FixedNames(hostname);
    HeadEntries(given, "GET", t, hs, fuel);
    TargetEntries(obj, t, fuel);
    var start := SetText(StoreTarget(obj, t, fuel).value, "protocol", TargetLeftover(t) + "HTTP/1.1");
    HeaderAt(start, hs, 0);
    OtherEntry(start, hs, "Content-Type");
    forall i | 0 <= i < |ParamsOf(t)|
      ensures !NameIn(hs, ParamsOf(t)[i].key)
    {
      KeyThere(ParamsOf(t), i);
    }
  }

  lemma FixedNames(hostname: string)
    ensures forall k :: NameIn(FixedHeaders(hostname), k) ==> FixedName(k) && !RequestLine(k) && k != "Content-Type"
  {}

  /**
   The protocol is read as it was sent unless the query ends in a key without an equals
   sign behind text that has been collected: the path, or a last value that is not empty.
   */
  lemma ProtocolExact(t: Target)
    requires GoodTarget(t)
    ensures TargetLeftover(t) + "HTTP/1.1" == "HTTP/1.1" <==>
      (t.query.Some? && t.query.value.tail.Some? ==>
         ParamsOf(t) != [] && Decoded(ParamsOf(t)[|ParamsOf(t)| - 1].value, true) == "")
  {
    hide HttpRoundTrip.Decoded;
    assert |TargetLeftover(t) + "HTTP/1.1"| == |TargetLeftover(t)| + |"HTTP/1.1"|;
    assert TargetLeftover(t) == "" ==> TargetLeftover(t) + "HTTP/1.1" == "HTTP/1.1";
    if t.query.Some? {
      LeftoverIs(t.query.value.params, t.query.value.tail, "/" + Decoded(t.path, false));
    }
  }

  /** For the target `/?b` the protocol is read as `/HTTP/1.1`. */
  lemma BareKeyLeaks()
    ensures var t := Target("", Some(Query([], Some("b"))));
      GoodTarget(t) && PrintTarget(t) == "?b" && TargetLeftover(t) + "HTTP/1.1" == "/HTTP/1.1"
  {}

  lemma {:induction false} LeftoverIs(params: seq<Param>, tail: Option<string>, before: string)
    ensures Leftover(params, tail, before) ==
      if tail.None? then "" else if params == [] then before else Decoded(params[|params| - 1].value, true)
    decreases params
  {
    hide HttpRoundTrip.Decoded;
    if params != [] {
      LeftoverIs(params[1..], tail, Decoded(params[0].value, true));
    }
  }

  // ----- Requests without an HTTP start

  /** The five starts that make a text an HTTP request. */
  predicate HttpStart(text: string) {
    "GET /" <= text || "HEAD /" <= text || "POST /" <= text || "DELETE /" <= text || "PUT /" <= text
  }

  /** A text is taken for a pure API request exactly when it has none of the five starts. */
  lemma ApiExact(text: string, node: Json, fuel: nat)
    requires ParseRequest(text, node, fuel).Some?
    ensures ParseRequest(text, node, fuel).value.result == API <==> !HttpStart(text)
  {
    hide ReadHead, ReadForm, Scan;
    StartsExact(text);
  }

  lemma StartsExact(text: string)
    ensures MethodOf(text, METHODS).None? <==> !HttpStart(text)
  {
    assert METHODS[1..][1..][1..][1..][1..] == [];
    assert METHODS[1..][0] == METHODS[1] && METHODS[1..][1..][0] == METHODS[2];
    assert METHODS[1..][1..][1..][0] == METHODS[3] && METHODS[1..][1..][1..][1..][0] == METHODS[4];
    var m1 := METHODS[1..];
    var m2 := m1[1..];
    var m3 := m2[1..];
    var m4 := m3[1..];
    assert MethodOf(text, m4).None? <==> !("PUT /" <= text);
    assert MethodOf(text, m3).None? <==> !("DELETE /" <= text) && MethodOf(text, m4).None?;
    assert MethodOf(text, m2).None? <==> !("POST /" <= text) && MethodOf(text, m3).None?;
    assert MethodOf(text, m1).None? <==> !("HEAD /" <= text) && MethodOf(text, m2).None?;
  }

  /** The entries of a request that came without a request line; all others are as they were. */
  ghost predicate ApiEntries(m: map<string, Json>, given: map<string, Json>) {
    && HasString(m, "method", "GET") && HasString(m, "route", "") && HasString(m, "protocol", "JPON")
    && forall k :: !RequestLine(k) ==> (k in m <==> k in given) && (k in m ==> m[k] == given[k])
  }

  lemma InitialEntries(given: map<string, Json>)
    ensures ApiEntries(Initial(given, "GET"), given)
  {}

  /** A printed object at the start of a text, whatever follows: its pairs override the request's entries. */
  lemma ApiReadBack(fields: seq<Field>, pretty: bool, behind: string, node: Json, fuel: nat)
    requires NulFreeFields(fields) && node.kind == Object && fuel > 2 * |Print(Dict(fields), pretty, 0) + behind|
    ensures exists m ::
      && ApiEntries(m, node.obj)
      && ParseRequest(Print(Dict(fields), pretty, 0) + behind, node, fuel)
           == Some(Request(API, node.(obj := Overlay(m, fields))))
  {
    hide Scan, PrintFields, Overlay, ApiEntries, Initial, RequestLine;
    var text, m := Print(Dict(fields), pretty, 0) + behind, Initial(node.obj, "GET");
    OccursSelf(text);
    OccursSplit(text, 0, Print(Dict(fields), pretty, 0), behind);
    assert text[0] == '{';
    NoStart(text);
    InitialEntries(node.obj);
    ReadOverObject(text, 0, node.(obj := m), fields, pretty, 0, fuel);
  }

  lemma NoStart(text: string)
    requires text != "" && text[0] != 'G' && text[0] != 'H' && text[0] != 'P' && text[0] != 'D'
    ensures MethodOf(text, METHODS).None?
  {
    StartsExact(text);
  }

  /** The same for an object anyone wrote, with any white space, and more in front of it. */
  lemma ApiSpelled(before: string, blank: string, branches: seq<JsonGrammar.Branch>, behind: string, code: string -> string,
                   node: Json, fuel: nat)
    requires JsonGrammar.Spaces(before) && node.kind == Object
    requires var t := JsonGrammar.RecordTree(blank, branches);
      && JsonGrammar.Good(t) && JsonSpelled.KnownValue(JsonGrammar.ValueOf(t))
      && fuel > 2 * |before + JsonGrammar.Show(t) + behind|
    ensures exists m ::
      && ApiEntries(m, node.obj)
      && ParseRequest(before + JsonGrammar.Show(JsonGrammar.RecordTree(blank, branches)) + behind, node, fuel)
           == Some(Request(API, node.(obj := Overlay(m, JsonSpelled.FieldsMeant(JsonGrammar.MembersOf(branches), code)))))
  {
    hide Scan, Overlay, ApiEntries, Initial, RequestLine, JsonGrammar.Show, JsonSpelled.FieldsMeant, JsonGrammar.MembersOf;
    var t := JsonGrammar.RecordTree(blank, branches);
    var text, m := before + JsonGrammar.Show(t) + behind, Initial(node.obj, "GET");
    OccursSelf(text);
    OccursSplit(text, 0, before + JsonGrammar.Show(t), behind);
    OccursSplit(text, 0, before, JsonGrammar.Show(t));
    JsonGrammar.Starts(text, |before|, t);
    RecordOpens(t);
    assert before != "" ==> text[0] == before[0];
    NoStart(text);
    InitialEntries(node.obj);
    JsonGrammar.SkipSpaces(text, 0, before);
    JsonSpelled.PassSpace(text, Start(0, node.(obj := m)), fuel);
    JsonSpelled.ParseOver(text, |before|, t, node.(obj := m), code, fuel - |before|);
  }

  lemma RecordOpens(t: JsonGrammar.Tree)
    requires t.RecordTree?
    ensures JsonGrammar.Show(t) != "" && JsonGrammar.Show(t)[0] == '{'
  {}
}
