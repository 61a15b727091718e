/**
 The client's request texts against RFC 9112: a reader written from sections 2.1 (start line,
 field lines, empty line, body), 2.2 (a line may end in LF alone) and 5 (name, colon, value
 with blanks around it), and from section 8.6 of RFC 9110 (Content-Length).
 */
module HttpStrict {
  import opened Text
  import opened HttpText

  datatype FieldLine = FieldLine(name: string, value: string)

  datatype Message = Message(start: string, fields: seq<FieldLine>, body: string)

  /** The first line feed from `it` on, or the end. */
  function LineFeed(text: string, it: nat): (end: nat)
    requires it <= |text|
    ensures it <= end <= |text|
    decreases |text| - it
  {
    if it == |text| || text[it] == '\n' then it else LineFeed(text, it + 1)
  }

  /** A line without a return at its end. */
  function LineOf(s: string): string {
    if s != "" && s[|s| - 1] == '\r' then s[..|s| - 1] else s
  }

  function Colon(s: string): (n: nat)
    ensures n <= |s|
  {
    if s == "" || s[0] == ':' then 0 else 1 + Colon(s[1..])
  }

  predicate BlankChar(c: char) {
    c == ' ' || c == '\t'
  }

  function TrimLeft(s: string): string {
    if s != "" && BlankChar(s[0]) then TrimLeft(s[1..]) else s
  }

  function TrimRight(s: string): string {
    if s != "" && BlankChar(s[|s| - 1]) then TrimRight(s[..|s| - 1]) else s
  }

  function Trim(s: string): string {
    TrimRight(TrimLeft(s))
  }

  /** A field line: a name without blank at its end, a colon, and the value. */
  function ReadField(line: string): Option<FieldLine> {
    var n := Colon(line);
    if n == |line| || n == 0 || BlankChar(line[n - 1]) then None
    else Some(FieldLine(line[..n], Trim(line[n + 1..])))
  }

  /** Field lines up to the empty line, and where the body starts. */
  function ReadFields(text: string, it: nat): (r: Option<(seq<FieldLine>, nat)>)
    requires it <= |text|
    ensures r.Some? ==> r.value.1 <= |text|
    decreases |text| - it
  {
    var end := LineFeed(text, it);
    if end == |text| then None
    else
      var line := LineOf(text[it..end]);
      if line == "" then Some(([], end + 1))
      else
        match ReadField(line)
        case None => None
        case Some(field) =>
          match ReadFields(text, end + 1)
          case None => None
          case Some((rest, body)) => Some(([field] + rest, body))
  }

  function ReadMessage(text: string): Option<Message> {
    var end := LineFeed(text, 0);
    if end == |text| then None
    else
      match ReadFields(text, end + 1)
      case None => None
      case Some((fields, body)) => Some(Message(LineOf(text[..end]), fields, text[body..]))
  }

  /** The number that decimal digits spell. */
  function NumberIn(s: string): Option<nat> {
    if s == "" then None
    else
      var c := s[|s| - 1];
      if !('0' <= c <= '9') then None
      else if |s| == 1 then Some(c as int - '0' as int)
      else
        match NumberIn(s[..|s| - 1])
        case None => None
        case Some(n) => Some(10 * n + (c as int - '0' as int))
  }

  // ----- Reading what was printed

  /** A text that stays on its line. */
  predicate OneLine(s: string) {
    '\n' !in s && '\r' !in s
  }

  predicate GoodLine(h: Header) {
    && h.name != "" && OneLine(h.name) && ':' !in h.name && !BlankChar(h.name[|h.name| - 1])
    && OneLine(h.value) && (h.eol == "\n" || h.eol == "\r\n")
  }

  lemma {:induction false} FeedThere(text: string, it: nat, s: string)
    requires Occurs(text, it, s + "\n") && '\n' !in s
    ensures it + |s| < |text| && LineFeed(text, it) == it + |s| && text[it..it + |s|] == s
    decreases |s|
  {
    OccursSplit(text, it, s, "\n");
    LoneOccurs(text, it + |s|, '\n');
    if s != "" {
      assert text[it] == text[it..it + |s|][0] == s[0];
      assert s + "\n" == [s[0]] + (s[1..] + "\n");
      FirstOccurs(text, it, s[0], s[1..] + "\n");
      FeedThere(text, it + 1, s[1..]);
    }
  }

  /** A line with either end. */
  lemma LineThere(text: string, it: nat, s: string, eol: string)
    requires Occurs(text, it, s + eol) && OneLine(s) && (eol == "\n" || eol == "\r\n")
    ensures it + |s + eol| <= |text|
    ensures var end := LineFeed(text, it); end + 1 == it + |s + eol| <= |text| && LineOf(text[it..end]) == s
  {
    if eol == "\n" {
      FeedThere(text, it, s);
    } else {
      assert s + eol == (s + "\r") + "\n";
      FeedThere(text, it, s + "\r");
      assert (s + "\r")[..|s|] == s;
    }
  }

  lemma {:induction false} ColonThere(name: string, rest: string)
    requires ':' !in name
    ensures Colon(name + ":" + rest) == |name|
  {
    if name == "" {
      assert name + ":" + rest == ":" + rest;
    } else {
      assert (name + ":" + rest)[1..] == name[1..] + ":" + rest;
      ColonThere(name[1..], rest);
    }
  }

  lemma FieldRead(h: Header)
    requires GoodLine(h)
    ensures ReadField(h.name + ": " + h.value) == Some(FieldLine(h.name, Trim(h.value)))
  {
    var line := h.name + ": " + h.value;
    assert line == h.name + ":" + (" " + h.value);
    ColonThere(h.name, " " + h.value);
    assert line[..|h.name|] == h.name && line[|h.name| + 1..] == " " + h.value;
    assert (" " + h.value)[1..] == h.value;
  }

  function FieldsOf(hs: seq<Header>): (r: seq<FieldLine>)
    ensures |r| == |hs| && forall i :: 0 <= i < |hs| ==> r[i] == FieldLine(hs[i].name, Trim(hs[i].value))
  {
    seq(|hs|, i requires 0 <= i < |hs| => FieldLine(hs[i].name, Trim(hs[i].value)))
  }

  lemma {:induction false} FieldsRead(text: string, it: nat, hs: seq<Header>, body: string)
    requires Occurs(text, it, PrintHeaders(hs) + ("\r\n" + body)) && forall i :: 0 <= i < |hs| ==> GoodLine(hs[i])
    ensures it <= |text| && ReadFields(text, it) == Some((FieldsOf(hs), it + |PrintHeaders(hs)| + 2))
    decreases |hs|
  {
    hide Occurs, LineFeed, LineOf, ReadField, Trim, OneLine;
    Inside(text, it, PrintHeaders(hs) + ("\r\n" + body));
    if hs == [] {
      assert "" + ("\r\n" + body) == ("" + "\r\n") + body;
      OccursSplit(text, it, "" + "\r\n", body);
      EmptyLine();
      LineThere(text, it, "", "\r\n");
    } else {
      var h, rest := hs[0], PrintHeaders(hs[1..]) + ("\r\n" + body);
      var s := h.name + ": " + h.value;
      assert PrintHeaders(hs) + ("\r\n" + body) == (s + h.eol) + rest;
      OccursSplit(text, it, s + h.eol, rest);
      SafeLine(h);
      LineThere(text, it, s, h.eol);
      FieldRead(h);
      FieldsRead(text, it + |s + h.eol|, hs[1..], body);
      assert FieldsOf(hs) == [FieldLine(h.name, Trim(h.value))] + FieldsOf(hs[1..]);
    }
  }

  lemma EmptyLine()
    ensures OneLine("")
  {}

  lemma SafeLine(h: Header)
    requires GoodLine(h)
    ensures OneLine(h.name + ": " + h.value)
  {}

  /** A printed request is read with its start line, its fields in order and its body. */
  lemma RequestRead(name: string, target: string, hs: seq<Header>, body: string)
    requires OneLine(name) && OneLine(target) && forall i :: 0 <= i < |hs| ==> GoodLine(hs[i])
    ensures ReadMessage(PrintRequest(name, target, hs, body))
         == Some(Message(name + " " + target + " HTTP/1.1", FieldsOf(hs), body))
  {
    hide PrintHeaders, ReadFields, LineFeed, LineOf, Occurs, GoodLine;
    var text, start := PrintRequest(name, target, hs, body), name + " " + target + " HTTP/1.1";
    var rest := PrintHeaders(hs) + ("\r\n" + body);
    assert text == (start + "\r\n") + rest;
    OccursSelf(text);
    OccursSplit(text, 0, start + "\r\n", rest);
    LineThere(text, 0, start, "\r\n");
    FieldsRead(text, |start + "\r\n"|, hs, body);
    var at := |start + "\r\n"| + |PrintHeaders(hs)| + 2;
    assert text == (start + "\r\n" + PrintHeaders(hs) + "\r\n") + body && |start + "\r\n" + PrintHeaders(hs) + "\r\n"| == at;
    assert text[at..] == body;
  }

  lemma {:induction false} DecimalRead(n: nat)
    ensures NumberIn(Decimal(n)) == Some(n)
  {
    var s := Decimal(n);
    if n >= 10 {
      DecimalRead(n / 10);
      assert s[..|s| - 1] == Decimal(n / 10) && s[|s| - 1] == Digit(n % 10);
    }
  }

  lemma TrimDigits(s: string)
    requires s != "" && forall c <- s :: '0' <= c <= '9'
    ensures Trim(s) == s && OneLine(s)
  {
    assert s[0] in s && s[|s| - 1] in s;
    Untrimmed(s);
  }

  lemma Untrimmed(s: string)
    requires s != "" && !BlankChar(s[0]) && !BlankChar(s[|s| - 1])
    ensures Trim(s) == s
  {}

  /** The caller's headers can be told apart from the lines around them. */
  predicate GoodHeaderMap(headers: map<string, string>) {
    forall k <- headers :: GoodLine(Header(k, headers[k], "\n"))
  }

  /** A posted request by the standard: its target, the caller's headers among the client's own, and a length that is the body's. */
  lemma PostRead(hostname: string, path: string, headers: map<string, string>, order: seq<string>, body: string)
    requires OneLine(path) && OneLine(hostname) && Trim(hostname) == hostname && GoodHeaderMap(headers) && Orders(order, headers.Keys)
    ensures var read := ReadMessage(PrintRequest("POST", path, PostHeaders(hostname, headers, order, body), PostedBody(body)));
      && read.Some?
      && var m, n := read.value, |order|;
         && m.start == "POST " + path + " HTTP/1.1" && |m.fields| == n + 5 && m.body == PostedBody(body)
         && m.fields[0] == FieldLine("Host", hostname) && m.fields[1] == FieldLine("Connection", "close")
         && m.fields[2] == FieldLine("User-Agent", "libjaypea") && m.fields[3] == FieldLine("Accept", "*/*")
         && (forall i :: 0 <= i < n ==> m.fields[4 + i] == FieldLine(order[i], Trim(headers[order[i]])))
         && m.fields[n + 4].name == "Content-Length" && NumberIn(m.fields[n + 4].value) == Some(|m.body|)
  {
    hide PrintRequest, ReadMessage, Trim, PostedBody, Decimal, NumberIn, GoodLine, PostHeaders, OneLine, Orders;
    OrdersIn(order, headers.Keys);
    var hs, length := PostHeaders(hostname, headers, order, body), Decimal(|PostedBody(body)|);
    PostPlaces(hostname, headers, order, body);
    PostGood(hostname, headers, order, body);
    TrimFixed();
    DecimalRead(|PostedBody(body)|);
    TrimDigits(length);
    LengthLine(length);
    RequestRead("POST", path, hs, PostedBody(body));
    assert "POST" + " " + path + " HTTP/1.1" == "POST " + path + " HTTP/1.1";
  }

  lemma OrdersIn(order: seq<string>, keys: set<string>)
    requires Orders(order, keys)
    ensures forall k <- order :: k in keys
  {}

  /** Which header stands where. */
  lemma PostPlaces(hostname: string, headers: map<string, string>, order: seq<string>, body: string)
    requires forall k <- order :: k in headers
    ensures var hs, n := PostHeaders(hostname, headers, order, body), |order|;
      && |hs| == n + 5
      && hs[0] == Header("Host", hostname, "\r\n") && hs[1] == Header("Connection", "close", "\r\n")
      && hs[2] == Header("User-Agent", "libjaypea", "\r\n") && hs[3] == Header("Accept", "*/*", "\r\n")
      && (forall i :: 0 <= i < n ==> hs[4 + i] == Header(order[i], headers[order[i]], "\n"))
      && hs[n + 4] == Header("Content-Length", Decimal(|PostedBody(body)|), "\r\n")
  {
    hide Decimal, PostedBody;
    CallersAt(headers, order);
  }

  lemma {:induction false} CallersAt(headers: map<string, string>, order: seq<string>)
    requires forall k <- order :: k in headers
    ensures var hs := CallerHeaders(headers, order);
      |hs| == |order| && forall i :: 0 <= i < |order| ==> hs[i] == Header(order[i], headers[order[i]], "\n")
    decreases order
  {
    if order != [] {
      CallersAt(headers, order[1..]);
    }
  }

  lemma PostGood(hostname: string, headers: map<string, string>, order: seq<string>, body: string)
    requires OneLine(hostname) && GoodHeaderMap(headers) && forall k <- order :: k in headers
    ensures forall h <- PostHeaders(hostname, headers, order, body) :: GoodLine(h)
  {
    hide Decimal, PostedBody, GoodLine, PostHeaders;
    var hs := PostHeaders(hostname, headers, order, body);
    PostPlaces(hostname, headers, order, body);
    FixedGood(hostname);
    TrimDigits(Decimal(|PostedBody(body)|));
    LengthLine(Decimal(|PostedBody(body)|));
    forall i | 0 <= i < |hs|
      ensures GoodLine(hs[i])
    {
      if 4 <= i < |order| + 4 {
        assert order[i - 4] in order;
      }
    }
  }

  lemma LengthLine(s: string)
    requires OneLine(s)
    ensures GoodLine(Header("Content-Length", s, "\r\n")) && OneLine("POST") && OneLine("GET")
  {}

  lemma FixedGood(hostname: string)
    requires OneLine(hostname)
    ensures GoodLine(Header("Host", hostname, "\r\n")) && GoodLine(Header("Connection", "close", "\r\n"))
    ensures GoodLine(Header("User-Agent", "libjaypea", "\r\n")) && GoodLine(Header("Accept", "*/*", "\r\n"))
  {
    hide OneLine;
    assert GoodLine(Header("Host", hostname, "\r\n")) by { SafeHost(); }
    assert GoodLine(Header("Connection", "close", "\r\n")) by { SafeConnection(); }
    assert GoodLine(Header("User-Agent", "libjaypea", "\r\n")) by { SafeAgent(); }
    assert GoodLine(Header("Accept", "*/*", "\r\n")) by { SafeAccept(); }
  }

  lemma SafeHost()
    ensures OneLine("Host") && ':' !in "Host"
  {}

  lemma SafeConnection()
    ensures OneLine("Connection") && ':' !in "Connection" && OneLine("close")
  {}

  lemma SafeAgent()
    ensures OneLine("User-Agent") && ':' !in "User-Agent" && OneLine("libjaypea")
  {}

  lemma SafeAccept()
    ensures OneLine("Accept") && ':' !in "Accept" && OneLine("*/*")
  {}

  lemma TrimFixed()
    ensures Trim("close") == "close" && Trim("libjaypea") == "libjaypea" && Trim("*/*") == "*/*"
  {
    hide Trim;
    Untrimmed("close");
    Untrimmed("libjaypea");
    Untrimmed("*/*");
  }

  /** A fetched page by the standard. */
  lemma GetRead(hostname: string, path: string)
    requires OneLine(path) && OneLine(hostname) && Trim(hostname) == hostname
    ensures ReadMessage(PrintRequest("GET", path, FixedHeaders(hostname), ""))
      == Some(Message("GET " + path + " HTTP/1.1",
                      [FieldLine("Host", hostname), FieldLine("Connection", "close"),
                       FieldLine("User-Agent", "libjaypea"), FieldLine("Accept", "*/*")], ""))
  {
    hide PrintRequest, ReadMessage, Trim, GoodLine, OneLine;
    FixedGood(hostname);
    TrimFixed();
    EmptyLine();
    LengthLine("");
    RequestRead("GET", path, FixedHeaders(hostname), "");
    var fields := FieldsOf(FixedHeaders(hostname));
    assert |fields| == 4 && fields[0] == FieldLine("Host", hostname) && fields[1] == FieldLine("Connection", "close");
    assert fields[2] == FieldLine("User-Agent", "libjaypea") && fields[3] == FieldLine("Accept", "*/*");
    assert fields == [fields[0], fields[1], fields[2], fields[3]];
    assert "GET" + " " + path + " HTTP/1.1" == "GET " + path + " HTTP/1.1";
  }
}
