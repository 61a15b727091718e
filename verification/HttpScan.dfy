/** The specification of `Util::parse_http_request`: eight states over a C string. */
module HttpScan {
  import opened Text
  import opened JsonScan

  datatype RequestResult = HTTP | HTTP_API | HTTP_FORM | API

  const ROUTE: nat := 1
  const PARAM_KEY: nat := 2
  const PARAM_VALUE: nat := 3
  const PROTOCOL: nat := 4
  const HEADER_KEY: nat := 5
  const HEADER_VALUE: nat := 6
  const LINE_ENDS: nat := 7
  const BODY: nat := 8

  /** The parser between two characters; `obj` is the map of the request object. */
  datatype Head = Head(it: nat, state: nat, key: string, value: string, obj: map<string, Json>)

  datatype Step =
    | Broken            // a parameter's value makes the JSON parser run away
    | Exit(at: Head)    // the header section is complete
    | Next(at: Head)

  function ChildAt(obj: map<string, Json>, key: string): Json {
    if key in obj then obj[key] else FRESH
  }

  function StoreString(obj: map<string, Json>, key: string, value: string): map<string, Json> {
    obj[key := ChildAt(obj, key).(kind := String, str := value)]
  }

  /** A node parsed again from scratch; what holds no JSON becomes a string. */
  ghost function Reparsed(node: Json, value: string, fuel: nat): Option<Json> {
    match Scan(value, Start(0, node.(kind := NoType)), fuel)
    case None => None
    case Some(p) => Some(if p.node.kind == NoType then p.node.(kind := String, str := value) else p.node)
  }

  ghost function StoreParam(obj: map<string, Json>, key: string, value: string, fuel: nat): Option<map<string, Json>> {
    match Reparsed(ChildAt(obj, key), value, fuel)
    case None => None
    case Some(node) => Some(obj[key := node])
  }

  /** `objectValues[key]->stringValue = value` on an entry that exists. */
  function SetText(obj: map<string, Json>, key: string, value: string): map<string, Json> {
    obj[key := ChildAt(obj, key).(str := value)]
  }

  /** The two percent escapes that values understand, and how many characters they take. */
  predicate PercentAt(text: string, it: nat, a: char, b: char)
    requires it < |text|
  {
    it + 2 < |text| && text[it + 1] == a && text[it + 2] == b
  }

  function TakeValue(text: string, h: Head): Head
    requires h.it < |text|
  {
    if text[h.it] == '%' then
      if PercentAt(text, h.it, '2', '6') then h.(it := h.it + 3, value := h.value + "\"")
      else if PercentAt(text, h.it, '0', 'A') then h.(it := h.it + 3, value := h.value + "\n")
      else h.(it := h.it + 1)
    else if text[h.it] == '\r' then h.(it := h.it + 1)
    else h.(it := h.it + 1, value := h.value + [text[h.it]])
  }

  /** A character without a role of its own in the state. */
  function Collect(text: string, h: Head): Step
    requires h.it < |text|
  {
    var c := text[h.it];
    if h.state == PARAM_VALUE && c == '+' then Next(h.(it := h.it + 1, value := h.value + " "))
    else if h.state == ROUTE || h.state == PARAM_VALUE || h.state == PROTOCOL || h.state == HEADER_VALUE then
      Next(TakeValue(text, h))
    else if h.state == PARAM_KEY || h.state == HEADER_KEY then
      Next(h.(it := h.it + 1, key := h.key + [c]))
    else
      var state := if c == '\r' || c == '\n' then h.state + 1 else h.state;
      if state >= BODY then Exit(h.(it := h.it + 1, state := state)) else Next(h.(it := h.it + 1, state := state))
  }

  ghost function EndParam(h: Head, after: Head, fuel: nat): Step {
    match StoreParam(h.obj, h.key, h.value, fuel)
    case None => Broken
    case Some(obj) => Next(after.(obj := obj))
  }

  ghost function HeadStep(text: string, h: Head, fuel: nat): Step
    requires h.it < |text|
  {
    var c, next := text[h.it], h.(it := h.it + 1);
    if c == ' ' && h.state == ROUTE then
      if h.value == "" then Exit(next)
      else Next(next.(state := PROTOCOL, value := "", obj := SetText(h.obj, "route", h.value)))
    else if c == ' ' && h.state == PARAM_KEY then Next(next.(state := PROTOCOL))
    else if c == ' ' && h.state == PARAM_VALUE then EndParam(h, next.(state := PROTOCOL, value := ""), fuel)
    else if c == '?' && h.state == ROUTE then
      Next(next.(state := PARAM_KEY, key := "", obj := SetText(h.obj, "route", h.value)))
    else if c == '=' && h.state == PARAM_KEY then Next(next.(state := PARAM_VALUE, value := ""))
    else if c == '&' && h.state == PARAM_VALUE then EndParam(h, next.(state := PARAM_KEY, key := ""), fuel)
    else if c == '\n' && h.state == PROTOCOL then
      Next(next.(state := HEADER_KEY, key := "", obj := SetText(h.obj, "protocol", h.value)))
    else if c == '\n' && h.state == HEADER_KEY then Collect(text, h.(state := LINE_ENDS))
    else if c == '\n' && h.state == HEADER_VALUE then
      Next(next.(state := HEADER_KEY, key := "", obj := StoreString(h.obj, h.key, h.value)))
    else if c == ':' && h.state == HEADER_KEY then
      Next(h.(it := h.it + 2, state := HEADER_VALUE, value := ""))
    else Collect(text, h)
  }

  /** Runs over the request line and the headers; the result stands at the first body character. */
  ghost function ReadHead(text: string, h: Head, fuel: nat): (r: Option<Head>)
    ensures r.Some? ==> r.value.it <= |text|
    decreases |text| + 2 - h.it
  {
    if h.it > |text| then None
    else if At(text, h.it) == NUL then Some(h)
    else
      match HeadStep(text, h, fuel)
      case Broken => None
      case Exit(at) => Some(at)
      case Next(at) => ReadHead(text, at, fuel)
  }

  /** The form body: one `key=value` after another, joined by `&`. */
  datatype Form = Form(it: nat, inValue: bool, key: string, value: string, obj: map<string, Json>)

  ghost function ReadForm(text: string, f: Form, fuel: nat): Option<map<string, Json>>
    requires f.it <= |text|
    decreases |text| - f.it
  {
    if At(text, f.it) == NUL then
      if f.inValue then StoreParam(f.obj, f.key, f.value, fuel) else Some(f.obj)
    else if text[f.it] == '&' then
      match StoreParam(f.obj, f.key, f.value, fuel)
      case None => None
      case Some(obj) => ReadForm(text, Form(f.it + 1, false, "", "", obj), fuel)
    else if text[f.it] == '=' then ReadForm(text, f.(it := f.it + 1, inValue := true), fuel)
    else if f.inValue then ReadForm(text, f.(it := f.it + 1, value := f.value + [text[f.it]]), fuel)
    else ReadForm(text, f.(it := f.it + 1, key := f.key + [text[f.it]]), fuel)
  }

  predicate HasString(obj: map<string, Json>, key: string, value: string) {
    key in obj && obj[key].kind == String && obj[key].str == value
  }

  datatype Method = Method(name: string, start: string)

  const METHODS: seq<Method> := [
    Method("GET", "GET /"), Method("HEAD", "HEAD /"), Method("POST", "POST /"),
    Method("DELETE", "DELETE /"), Method("PUT", "PUT /")]

  /** The first request start that the text begins with. */
  function MethodOf(text: string, methods: seq<Method>): Option<Method> {
    if methods == [] then None
    else if methods[0].start <= text then Some(methods[0])
    else MethodOf(text, methods[1..])
  }

  /** The entries every request starts with. */
  function Initial(obj: map<string, Json>, name: string): map<string, Json> {
    obj["method" := FRESH.(kind := String, str := name)]
       ["route" := FRESH.(kind := String)]
       ["protocol" := FRESH.(kind := String, str := "JPON")]
  }

  datatype Request = Request(result: RequestResult, node: Json)

  ghost function ParseBody(text: string, node: Json, it: nat, fuel: nat): Option<Request>
    requires it <= |text|
  {
    if HasString(node.obj, "Content-Type", "application/json") then
      match Scan(text, Start(it, node), fuel)
      case None => None
      case Some(p) => Some(Request(HTTP_API, p.node))
    else if HasString(node.obj, "Content-Type", "application/x-www-form-urlencoded") then
      match ReadForm(text, Form(it, false, "", "", node.obj), fuel)
      case None => None
      case Some(obj) => Some(Request(HTTP_FORM, node.(obj := obj)))
    else Some(Request(HTTP, node))
  }

  /** None: the source would run away on a JSON value or read behind the text. */
  ghost function ParseRequest(text: string, node: Json, fuel: nat): Option<Request> {
    match MethodOf(text, METHODS)
    case None =>
      (match Scan(text, Start(0, node.(obj := Initial(node.obj, "GET"))), fuel)
       case None => None
       case Some(p) => Some(Request(API, p.node)))
    case Some(m) =>
      (match ReadHead(text, Head(|m.start|, ROUTE, "", "/", Initial(node.obj, m.name)), fuel)
       case None => None
       case Some(h) => ParseBody(text, node.(obj := h.obj), h.it, fuel))
  }
}
