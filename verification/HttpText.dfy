/** The request texts of `TlsClientManager::post` and `get_body`. */
module HttpText {
  import opened Text
  import opened Replace

  /** A header line; the fixed headers end in CR LF, the caller's in LF alone. */
  datatype Header = Header(name: string, value: string, eol: string)

  function PrintHeader(h: Header): string {
    h.name + ": " + h.value + h.eol
  }

  function PrintHeaders(hs: seq<Header>): string {
    if hs == [] then "" else PrintHeader(hs[0]) + PrintHeaders(hs[1..])
  }

  function PrintRequest(name: string, target: string, hs: seq<Header>, body: string): string {
    name + " " + target + " HTTP/1.1\r\n" + PrintHeaders(hs) + "\r\n" + body
  }

  function FixedHeaders(hostname: string): seq<Header> {
    [Header("Host", hostname, "\r\n"), Header("Connection", "close", "\r\n"),
     Header("User-Agent", "libjaypea", "\r\n"), Header("Accept", "*/*", "\r\n")]
  }

  /** The caller's headers, in the order in which the map was walked. */
  function CallerHeaders(headers: map<string, string>, order: seq<string>): seq<Header>
    requires forall k <- order :: k in headers
  {
    if order == [] then []
    else [Header(order[0], headers[order[0]], "\n")] + CallerHeaders(headers, order[1..])
  }

  function Digit(n: nat): char
    requires n < 10
  {
    "0123456789"[n]
  }

  /** `std::to_string` of a length. */
  function Decimal(n: nat): (r: string)
    ensures r != "" && forall c <- r :: '0' <= c <= '9'
  {
    if n < 10 then [Digit(n)] else Decimal(n / 10) + [Digit(n % 10)]
  }

  /** Line breaks become markup before a body is posted. */
  function PostedBody(body: string): string {
    Replaced(body, "\r\n", "<br>")
  }

  function PostHeaders(hostname: string, headers: map<string, string>, order: seq<string>, body: string): seq<Header>
    requires forall k <- order :: k in headers
  {
    FixedHeaders(hostname) + CallerHeaders(headers, order) + [Header("Content-Length", Decimal(|PostedBody(body)|), "\r\n")]
  }

  lemma {:induction false} PrintHeadersAppend(a: seq<Header>, b: seq<Header>)
    ensures PrintHeaders(a + b) == PrintHeaders(a) + PrintHeaders(b)
  {
    if a == [] {
      assert a + b == b;
    } else {
      PrintHeadersAppend(a[1..], b);
      assert (a + b)[1..] == a[1..] + b;
      Assoc(PrintHeader(a[0]), PrintHeaders(a[1..]), PrintHeaders(b));
    }
  }

  lemma PrintOne(h: Header)
    ensures PrintHeaders([h]) == PrintHeader(h)
  {
    assert [h][1..] == [];
  }

  lemma PrintFixed(hostname: string)
    ensures PrintHeaders(FixedHeaders(hostname))
         == "Host: " + hostname + "\r\n" + "Connection: close\r\n" + "User-Agent: libjaypea\r\n" + "Accept: */*\r\n"
  {
    var hs := FixedHeaders(hostname);
    assert hs == [hs[0]] + ([hs[1]] + ([hs[2]] + [hs[3]]));
    FixedLines(hostname);
    hide PrintHeaders, PrintHeader, FixedHeaders;
    PrintHeadersAppend([hs[0]], [hs[1]] + ([hs[2]] + [hs[3]]));
    PrintHeadersAppend([hs[1]], [hs[2]] + [hs[3]]);
    PrintHeadersAppend([hs[2]], [hs[3]]);
    PrintOne(hs[0]);
    PrintOne(hs[1]);
    PrintOne(hs[2]);
    PrintOne(hs[3]);
    FourParts(PrintHeader(hs[0]), PrintHeader(hs[1]), PrintHeader(hs[2]), PrintHeader(hs[3]));
  }

  lemma FixedLines(hostname: string)
    ensures var hs := FixedHeaders(hostname);
      && PrintHeader(hs[0]) == "Host: " + hostname + "\r\n"
      && PrintHeader(hs[1]) == "Connection: close\r\n"
      && PrintHeader(hs[2]) == "User-Agent: libjaypea\r\n"
      && PrintHeader(hs[3]) == "Accept: */*\r\n"
  {
    assert "Host" + ": " == "Host: ";
  }

  lemma FourParts(a: string, b: string, c: string, d: string)
    ensures a + (b + (c + d)) == a + b + c + d
  {}

  lemma CallerSnoc(headers: map<string, string>, order: seq<string>, key: string)
    requires key in headers && forall k <- order :: k in headers
    ensures forall k <- order + [key] :: k in headers
    ensures CallerHeaders(headers, order + [key]) == CallerHeaders(headers, order) + [Header(key, headers[key], "\n")]
    decreases order
  {
    if order == [] {
      assert [key][1..] == [];
      assert order + [key] == [key];
    } else {
      CallerSnoc(headers, order[1..], key);
      assert (order + [key])[1..] == order[1..] + [key];
    }
  }

  /** The whole text of a post, from its parts. */
  lemma PostParts(hostname: string, path: string, headers: map<string, string>, order: seq<string>, body: string)
    requires forall k <- order :: k in headers
    ensures var fixed, caller := PrintHeaders(FixedHeaders(hostname)), PrintHeaders(CallerHeaders(headers, order));
      var length := "Content-Length: " + Decimal(|PostedBody(body)|) + "\r\n\r\n";
      ("POST " + path + " HTTP/1.1\r\n" + fixed) + caller + length + PostedBody(body)
        == PrintRequest("POST", path, PostHeaders(hostname, headers, order, body), PostedBody(body))
  {
    hide PrintHeaders, CallerHeaders, Decimal, FixedHeaders, Replaced;
    var last := Header("Content-Length", Decimal(|PostedBody(body)|), "\r\n");
    PrintHeadersAppend(FixedHeaders(hostname) + CallerHeaders(headers, order), [last]);
    PrintHeadersAppend(FixedHeaders(hostname), CallerHeaders(headers, order));
    PrintOne(last);
  }

  /** The printed request with the caller's headers in some order. */
  ghost predicate PostText(hostname: string, path: string, headers: map<string, string>, body: string, request: string) {
    exists order :: Orders(order, headers.Keys)
      && request == PrintRequest("POST", path, PostHeaders(hostname, headers, order, body), PostedBody(body))
  }

  /** The text `post` sends; `order` is the order in which its header map was walked. */
  method BuildPost(hostname: string, path: string, headers: map<string, string>, body: string)
    returns (request: string, ghost order: seq<string>)
    ensures Orders(order, headers.Keys)
    ensures request == PrintRequest("POST", path, PostHeaders(hostname, headers, order, body), PostedBody(body))
    ensures PostText(hostname, path, headers, body, request)
  {
    hide PrintHeaders, CallerHeaders, Decimal, Replaced, PrintRequest, PostHeaders;
    request := "POST " + path + " HTTP/1.1\r\n";
    ghost var start := request;
    request := request + ("Host: " + hostname + "\r\n");
    request := request + "Connection: close\r\n";
    request := request + "User-Agent: libjaypea\r\n";
    request := request + "Accept: */*\r\n";
    assert request == start + PrintHeaders(FixedHeaders(hostname)) by {
      PrintFixed(hostname);
    }
    start := request;
    order := [];
    CallerNone(headers);
    var rest := headers.Keys;
    while rest != {}
      invariant rest <= headers.Keys
      invariant forall a, b :: 0 <= a < b < |order| ==> order[a] != order[b]
      invariant forall k <- order :: k in headers && k !in rest
      invariant forall k <- headers :: k in rest || k in order
      invariant request == start + PrintHeaders(CallerHeaders(headers, order))
      decreases rest
    {
      var key :| key in rest;
      rest := rest - {key};
      CallerLine(headers, order, key);
      request := request + (key + ": " + headers[key] + "\n");
      order := order + [key];
    }
    var posted := ReplaceAll(body, "\r\n", "<br>");
    request := request + ("Content-Length: " + Decimal(|posted|) + "\r\n\r\n");
    request := request + posted;
    PostParts(hostname, path, headers, order, body);
  }

  lemma CallerNone(headers: map<string, string>)
    ensures PrintHeaders(CallerHeaders(headers, [])) == ""
  {}

  lemma CallerLine(headers: map<string, string>, order: seq<string>, key: string)
    requires key in headers && forall k <- order :: k in headers
    ensures forall k <- order + [key] :: k in headers
    ensures PrintHeaders(CallerHeaders(headers, order + [key]))
         == PrintHeaders(CallerHeaders(headers, order)) + (key + ": " + headers[key] + "\n")
  {
    CallerSnoc(headers, order, key);
    PrintHeadersAppend(CallerHeaders(headers, order), [Header(key, headers[key], "\n")]);
    PrintOne(Header(key, headers[key], "\n"));
  }

  /** The text `get_body` sends. */
  method BuildGet(hostname: string, path: string) returns (request: string)
    ensures request == PrintRequest("GET", path, FixedHeaders(hostname), "")
  {
    request := "GET " + path + " HTTP/1.1\r\n";
    request := request + ("Host: " + hostname + "\r\n");
    request := request + "Connection: close\r\n";
    request := request + "User-Agent: libjaypea\r\n";
    request := request + "Accept: */*\r\n\r\n";
    PrintFixed(hostname);
    assert request == PrintRequest("GET", path, FixedHeaders(hostname), "");
  }
}
