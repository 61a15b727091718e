/** What printing a node and parsing the text gives, for every node and every order of its pairs. */
module JsonLaws {
  import opened Text
  import opened JsonScan
  import opened JsonPrint
  import opened JsonRoundTrip

  /** `d` is a walk over the node `j`: each map is listed once, in some order. */
  predicate Depicts(d: Doc, j: Json)
    decreases d
  {
    match d
    case Empty => j.kind == NoType
    case Str(s) => j.kind == String && s == j.str
    case Dict(fields) =>
      && j.kind == Object
      && (forall a, b :: 0 <= a < b < |fields| ==> fields[a].key != fields[b].key)
      && (forall f <- fields :: f.key in j.obj && Depicts(f.value, j.obj[f.key]))
      && (forall k <- j.obj :: exists f <- fields :: f.key == k)
    case List(items) =>
      && j.kind == Array
      && |items| == |j.arr|
      && (forall k :: 0 <= k < |items| ==> Depicts(items[k], j.arr[k]))
  }

  ghost predicate NulFreeNode(j: Json)
  {
    && NulFree(j.str)
    && (forall k <- j.obj :: NulFree(k) && NulFreeNode(j.obj[k]))
    && (forall i <- j.arr :: NulFreeNode(i))
  }

  predicate ControlFree(s: string) {
    forall k :: 0 <= k < |s| ==> !Control(s[k])
  }

  /** A text that `stringify` may return: the print of the node in some order of its maps. */
  ghost predicate Prints(j: Json, pretty: bool, depth: nat, text: string) {
    exists d :: Depicts(d, j) && text == Print(d, pretty, depth)
  }

  /** The nodes that survive a round trip unchanged. */
  ghost predicate Plain(j: Json) {
    match j.kind
    case NoType => false
    case String => ControlFree(j.str) && NulFree(j.str) && j.obj == map[] && j.arr == []
    case Object =>
      && j.str == "" && j.arr == []
      && forall k <- j.obj :: ControlFree(k) && NulFree(k) && Plain(j.obj[k])
    case Array =>
      && j.str == "" && j.obj == map[]
      && forall i <- j.arr :: Plain(i)
  }

  /** No two keys of one object become equal when their controls are deleted. */
  ghost predicate Apart(j: Json) {
    && (j.kind == Object ==>
          && (forall k, l | k in j.obj && l in j.obj :: Strip(k) == Strip(l) ==> k == l)
          && (forall k <- j.obj :: Apart(j.obj[k])))
    && (j.kind == Array ==> forall i <- j.arr :: Apart(i))
  }

  function StripAll(keys: set<string>): set<string> {
    set k <- keys :: Strip(k)
  }

  /** `r` is `j` with the controls deleted everywhere and untyped nodes turned into empty strings. */
  ghost predicate ReadsAs(j: Json, r: Json)
    decreases j
  {
    match j.kind
    case NoType => r == Json(String, "", map[], [])
    case String => r == Json(String, Strip(j.str), map[], [])
    case Object =>
      && r == Json(Object, "", r.obj, [])
      && r.obj.Keys == StripAll(j.obj.Keys)
      && (forall k <- j.obj :: Strip(k) in r.obj && ReadsAs(j.obj[k], r.obj[Strip(k)]))
    case Array =>
      && r == Json(Array, "", map[], r.arr)
      && |r.arr| == |j.arr|
      && (forall i :: 0 <= i < |j.arr| ==> ReadsAs(j.arr[i], r.arr[i]))
  }

  /** At most one node is the reading of another. */
  lemma {:induction false} ReadsAsUnique(j: Json, a: Json, b: Json)
    requires ReadsAs(j, a) && ReadsAs(j, b)
    ensures a == b
    decreases j
  {
    hide Strip;
    match j.kind
    case NoType =>
    case String =>
    case Object =>
      forall k <- j.obj
        ensures a.obj[Strip(k)] == b.obj[Strip(k)]
      {
        ReadsAsUnique(j.obj[k], a.obj[Strip(k)], b.obj[Strip(k)]);
      }
      forall s <- a.obj
        ensures a.obj[s] == b.obj[s]
      {
        var k :| k in j.obj && Strip(k) == s;
      }
      assert a.obj == b.obj;
    case Array =>
      forall i | 0 <= i < |j.arr|
        ensures a.arr[i] == b.arr[i]
      {
        ReadsAsUnique(j.arr[i], a.arr[i], b.arr[i]);
      }
      assert a.arr == b.arr;
  }

  // ----- Strip

  lemma StripIsControlFree(s: string)
    ensures ControlFree(Strip(s)) && |Strip(s)| <= |s|
    ensures NulFree(s) ==> NulFree(Strip(s))
  {}

  lemma StripKeeps(s: string)
    ensures Strip(s) == s <==> ControlFree(s)
  {
    if s != "" {
      StripKeeps(s[1..]);
      StripIsControlFree(s[1..]);
      if ControlFree(s) {
        assert ControlFree(s[1..]);
        assert s == [s[0]] + s[1..];
      }
      if Strip(s) == s {
        assert !Control(s[0]);
        assert Strip(s)[1..] == Strip(s[1..]);
        assert forall k :: 1 <= k < |s| ==> s[k] == s[1..][k - 1];
      }
    }
  }

  // ----- Overlay

  predicate KeysApart(fields: seq<Field>) {
    forall a, b :: 0 <= a < b < |fields| ==> Strip(fields[a].key) != Strip(fields[b].key)
  }

  /** The keys of a map written over by pairs, in whatever order they come. */
  lemma {:induction false} OverlayKeys(m: map<string, Json>, fields: seq<Field>)
    ensures Overlay(m, fields).Keys == m.Keys + set f <- fields :: Strip(f.key)
    decreases fields
  {
    if fields != [] {
      OverlayKeys(m[Strip(fields[0].key) := Readback(fields[0].value)], fields[1..]);
      assert fields == [fields[0]] + fields[1..];
    }
  }

  /** A key that no pair writes keeps its old value. */
  lemma {:induction false} OverlayElsewhere(m: map<string, Json>, fields: seq<Field>, k: string)
    requires k in m && forall a :: 0 <= a < |fields| ==> Strip(fields[a].key) != k
    ensures k in Overlay(m, fields) && Overlay(m, fields)[k] == m[k]
    decreases fields
  {
    if fields != [] {
      OverlayElsewhere(m[Strip(fields[0].key) := Readback(fields[0].value)], fields[1..], k);
    }
  }

  /** When the pairs do not collide, every one of them is found in the result. */
  lemma {:induction false} OverlayAt(m: map<string, Json>, fields: seq<Field>, a: nat)
    requires KeysApart(fields) && a < |fields|
    ensures Strip(fields[a].key) in Overlay(m, fields)
    ensures Overlay(m, fields)[Strip(fields[a].key)] == Readback(fields[a].value)
    decreases fields
  {
    hide Strip, Readback;
    var m0 := m[Strip(fields[0].key) := Readback(fields[0].value)];
    if a == 0 {
      OverlayElsewhere(m0, fields[1..], Strip(fields[0].key));
    } else {
      OverlayAt(m0, fields[1..], a - 1);
    }
  }

  lemma {:induction false} ItemsAt(items: seq<Doc>)
    ensures |ReadItems(items)| == |items|
    ensures forall k :: 0 <= k < |items| ==> ReadItems(items)[k] == Readback(items[k])
  {
    if items != [] {
      ItemsAt(items[1..]);
    }
  }

  // ----- The node read back

  /** The order in which a map is printed does not matter, as long as its keys stay apart. */
  lemma {:induction false} ReadbackReads(d: Doc, j: Json)
    requires Depicts(d, j) && Apart(j)
    ensures ReadsAs(j, Readback(d))
    decreases d, 1
  {
    match d
    case Empty =>
    case Str(_) =>
    case Dict(fields) => OverlayReads(fields, j);
    case List(items) =>
      forall k | 0 <= k < |items|
        ensures ReadsAs(j.arr[k], Readback(items[k]))
      {
        ReadbackReads(items[k], j.arr[k]);
      }
      ItemsAt(items);
  }

  lemma {:induction false} OverlayReads(fields: seq<Field>, j: Json)
    requires Depicts(Dict(fields), j) && Apart(j)
    ensures ReadsAs(j, Json(Object, "", Overlay(map[], fields), []))
    decreases Dict(fields), 0
  {
    hide Strip, Overlay, Readback;
    var m := Overlay(map[], fields);
    OverlayKeys(map[], fields);
    WalkKeys(fields, j);
    assert m.Keys == StripAll(j.obj.Keys);
    forall k <- j.obj
      ensures Strip(k) in m && ReadsAs(j.obj[k], m[Strip(k)])
    {
      var f :| f in fields && f.key == k;
      var a :| 0 <= a < |fields| && fields[a] == f;
      OverlayAt(map[], fields, a);
      ReadbackReads(f.value, j.obj[k]);
    }
  }

  lemma WalkKeys(fields: seq<Field>, j: Json)
    requires Depicts(Dict(fields), j) && Apart(j)
    ensures KeysApart(fields) && (set f <- fields :: Strip(f.key)) == StripAll(j.obj.Keys)
  {
    hide Strip;
    forall a, b | 0 <= a < b < |fields|
      ensures Strip(fields[a].key) != Strip(fields[b].key)
    {
      assert fields[a] in fields && fields[b] in fields;
    }
    forall k <- j.obj
      ensures exists f <- fields :: Strip(f.key) == Strip(k)
    {
      var f :| f in fields && f.key == k;
    }
  }

  lemma {:induction false} PlainReads(j: Json)
    requires Plain(j)
    ensures Apart(j) && ReadsAs(j, j)
    decreases j
  {
    match j.kind
    case String => StripKeeps(j.str);
    case Object =>
      forall k <- j.obj
        ensures Strip(k) == k && Apart(j.obj[k]) && ReadsAs(j.obj[k], j.obj[k])
      {
        StripKeeps(k);
        PlainReads(j.obj[k]);
      }
      assert StripAll(j.obj.Keys) == j.obj.Keys;
    case Array =>
      forall i <- j.arr
        ensures Apart(i) && ReadsAs(i, i)
      {
        PlainReads(i);
      }
  }

  /** Whatever is read back survives every further round trip. */
  lemma {:induction false} ReadbackIsPlain(d: Doc)
    requires NulFreeDoc(d)
    ensures Plain(Readback(d))
    decreases d, 0
  {
    match d
    case Empty =>
    case Str(s) => StripIsControlFree(s);
    case Dict(fields) =>
      OverlayIsPlain(map[], fields);
    case List(items) =>
      ItemsAt(items);
      forall k | 0 <= k < |items|
        ensures Plain(Readback(items[k]))
      {
        ReadbackIsPlain(items[k]);
      }
  }

  ghost predicate PlainPairs(m: map<string, Json>) {
    forall k <- m :: ControlFree(k) && NulFree(k) && Plain(m[k])
  }

  lemma {:induction false} OverlayIsPlain(m: map<string, Json>, fields: seq<Field>)
    requires PlainPairs(m) && NulFreeFields(fields)
    ensures PlainPairs(Overlay(m, fields))
    decreases fields, 1
  {
    if fields != [] {
      var f := fields[0];
      assert f in fields;
      StripIsControlFree(f.key);
      ReadbackIsPlain(f.value);
      OverlayIsPlain(m[Strip(f.key) := Readback(f.value)], fields[1..]);
    }
  }

  // ----- Texts

  lemma {:induction false} DepictsNulFree(d: Doc, j: Json)
    requires Depicts(d, j) && NulFreeNode(j)
    ensures NulFreeDoc(d)
    decreases d
  {
    match d
    case Empty =>
    case Str(_) =>
    case Dict(fields) =>
      forall f <- fields
        ensures NulFree(f.key) && NulFreeDoc(f.value)
      {
        DepictsNulFree(f.value, j.obj[f.key]);
      }
    case List(items) =>
      forall k | 0 <= k < |items|
        ensures NulFreeDoc(items[k])
      {
        DepictsNulFree(items[k], j.arr[k]);
      }
  }

  /** Every string and key of the document. */
  predicate AllStrings(d: Doc, good: string -> bool)
    decreases d
  {
    match d
    case Empty => true
    case Str(s) => good(s)
    case Dict(fields) => forall f <- fields :: good(f.key) && AllStrings(f.value, good)
    case List(items) => forall i <- items :: AllStrings(i, good)
  }

  /** What a print consists of besides quoted strings. */
  predicate Layout(s: string) {
    forall c <- s :: c == '{' || c == '}' || c == '[' || c == ']' || c == ':' || c == ',' || c == '\n' || c == '\t'
  }

  /** A property of texts that holds of layout and of quoted good strings, and of what is put together from such. */
  ghost predicate OfPrints(kept: string -> bool, good: string -> bool) {
    && (forall a: string, b: string {:trigger kept(a + b)} :: kept(a) && kept(b) ==> kept(a + b))
    && (forall s: string :: Layout(s) ==> kept(s))
    && kept(Quote("")) && (forall s: string {:trigger good(s)} :: good(s) ==> kept(Quote(s)))
  }

  lemma {:induction false} PrintKept(d: Doc, pretty: bool, depth: nat, kept: string -> bool, good: string -> bool)
    requires OfPrints(kept, good) && AllStrings(d, good)
    ensures kept(Print(d, pretty, depth))
    decreases d, 0
  {
    hide Quote, EscapeBody, PrintFields, PrintItems;
    match d
    case Empty => EmptyQuote();
    case Str(s) =>
    case Dict(fields) =>
      FieldsKept(fields, pretty, Deeper(pretty, depth), kept, good);
      BracketsKept('{', PrintFields(fields, pretty, Deeper(pretty, depth)), '}', pretty, depth, kept, good);
    case List(items) =>
      ItemsKept(items, pretty, Deeper(pretty, depth), kept, good);
      BracketsKept('[', PrintItems(items, pretty, Deeper(pretty, depth)), ']', pretty, depth, kept, good);
  }

  lemma EmptyQuote()
    ensures Quote("") == "\"\""
  {}

  lemma BracketsKept(open: char, body: string, close: char, pretty: bool, depth: nat, kept: string -> bool, good: string -> bool)
    requires OfPrints(kept, good) && kept(body) && Layout([open]) && Layout([close])
    ensures kept([open] + NewLine(pretty) + body + Tabs(pretty, depth) + [close])
  {
    assert kept([open]) && kept(NewLine(pretty)) && kept(Tabs(pretty, depth)) && kept([close]);
    assert kept([open] + NewLine(pretty));
    assert kept([open] + NewLine(pretty) + body);
    assert kept([open] + NewLine(pretty) + body + Tabs(pretty, depth));
  }

  lemma {:induction false} FieldsKept(fields: seq<Field>, pretty: bool, depth: nat, kept: string -> bool, good: string -> bool)
    requires OfPrints(kept, good) && forall f <- fields :: good(f.key) && AllStrings(f.value, good)
    ensures kept(PrintFields(fields, pretty, depth))
    decreases fields, 1
  {
    hide Quote, Print, OfPrints;
    if fields == [] {
      LayoutKept("", kept, good);
    } else {
      var f, more := fields[0], |fields| > 1;
      PrintKept(f.value, pretty, depth, kept, good);
      QuoteKept(f.key, kept, good);
      LayoutKept(Tabs(pretty, depth), kept, good);
      LayoutKept(":", kept, good);
      LayoutKept(Comma(more), kept, good);
      LayoutKept(NewLine(pretty), kept, good);
      FieldsKept(fields[1..], pretty, depth, kept, good);
      hide Tabs, Comma, NewLine;
      Joined(Tabs(pretty, depth), Quote(f.key), kept, good);
      Joined(Tabs(pretty, depth) + Quote(f.key), ":", kept, good);
      Joined(Tabs(pretty, depth) + Quote(f.key) + ":", Print(f.value, pretty, depth), kept, good);
      Joined(Tabs(pretty, depth) + Quote(f.key) + ":" + Print(f.value, pretty, depth), Comma(more), kept, good);
      Joined(Tabs(pretty, depth) + Quote(f.key) + ":" + Print(f.value, pretty, depth) + Comma(more), NewLine(pretty), kept, good);
      Joined(PrintField(f, pretty, depth, more), PrintFields(fields[1..], pretty, depth), kept, good);
    }
  }

  lemma {:induction false} ItemsKept(items: seq<Doc>, pretty: bool, depth: nat, kept: string -> bool, good: string -> bool)
    requires OfPrints(kept, good) && forall i <- items :: AllStrings(i, good)
    ensures kept(PrintItems(items, pretty, depth))
    decreases items, 1
  {
    hide Print, OfPrints;
    if items == [] {
      LayoutKept("", kept, good);
    } else {
      var more := |items| > 1;
      PrintKept(items[0], pretty, depth, kept, good);
      LayoutKept(Tabs(pretty, depth), kept, good);
      LayoutKept(Comma(more), kept, good);
      LayoutKept(NewLine(pretty), kept, good);
      ItemsKept(items[1..], pretty, depth, kept, good);
      hide Tabs, Comma, NewLine;
      Joined(Tabs(pretty, depth), Print(items[0], pretty, depth), kept, good);
      Joined(Tabs(pretty, depth) + Print(items[0], pretty, depth), Comma(more), kept, good);
      Joined(Tabs(pretty, depth) + Print(items[0], pretty, depth) + Comma(more), NewLine(pretty), kept, good);
      Joined(PrintItem(items[0], pretty, depth, more), PrintItems(items[1..], pretty, depth), kept, good);
    }
  }

  lemma Joined(a: string, b: string, kept: string -> bool, good: string -> bool)
    requires OfPrints(kept, good) && kept(a) && kept(b)
    ensures kept(a + b)
  {}

  lemma LayoutKept(s: string, kept: string -> bool, good: string -> bool)
    requires OfPrints(kept, good) && Layout(s)
    ensures kept(s)
  {}

  lemma QuoteKept(s: string, kept: string -> bool, good: string -> bool)
    requires OfPrints(kept, good) && good(s)
    ensures kept(Quote(s))
  {
    hide Quote;
  }

  // ----- The parser as a partial function

  /** More fuel never changes a result. */
  lemma {:induction false} ScanAgrees(text: string, r: Reader, f: nat, g: nat)
    requires f <= g && Scan(text, r, f).Some?
    ensures Scan(text, r, g) == Scan(text, r, f)
    decreases f
  {
    hide Resume;
    match Turn(text, r)
    case Done(_) =>
    case Go(next) => ScanAgrees(text, next, f - 1, g - 1);
    case Call =>
      ScanAgrees(text, Start(r.it, FRESH), f - 1, g - 1);
      ScanAgrees(text, Resume(r, Scan(text, Start(r.it, FRESH), f - 1).value), f - 1, g - 1);
  }

  /** From `it` on, no escape is of a NUL. */
  predicate NoNulEscape(text: string, it: nat)
    decreases |text| - it
  {
    if it >= |text| then true
    else if text[it] == '\\' then it + 1 < |text| ==> text[it + 1] != NUL && NoNulEscape(text, it + 2)
    else NoNulEscape(text, it + 1)
  }

  /** The cursor stands where an escape may start, or on the last character in front of a NUL, outside of strings and keys. */
  predicate Fit(text: string, r: Reader) {
    && r.it <= |text|
    && (NoNulEscape(text, r.it) || (!Reading(r) && (r.node.kind == Object ==> r.os == NoState) && LastFit(text, r.it)))
  }

  predicate LastFit(text: string, it: nat) {
    it + 1 <= |text| && At(text, it + 1) == NUL && NoNulEscape(text, it + 1)
  }

  /** Where the parser goes on behind a value. */
  predicate EndFit(text: string, p: Parsed) {
    if p.node.kind == Object || p.node.kind == Array then 0 <= p.end + 1 <= |text| && NoNulEscape(text, p.end + 1)
    else p.end >= -1 && (p.end >= 0 ==> p.end <= |text| && (NoNulEscape(text, p.end) || LastFit(text, p.end)))
  }

  /** A text in which no escape is of a NUL puts none into a string or key. */
  lemma {:induction false} ScanNulFree(text: string, r: Reader, fuel: nat)
    requires Fit(text, r) && NulFreeNode(r.node) && NulFree(r.ss) && Scan(text, r, fuel).Some?
    ensures NulFreeNode(Scan(text, r, fuel).value.node) && EndFit(text, Scan(text, r, fuel).value)
    decreases fuel
  {
    hide NulFreeNode, NulFree, Fit, EndFit, Resume;
    TurnNulFree(text, r);
    TurnFit(text, r);
    match Turn(text, r)
    case Done(_) =>
    case Go(next) => ScanNulFree(text, next, fuel - 1);
    case Call =>
      FreshNulFree();
      ScanNulFree(text, Start(r.it, FRESH), fuel - 1);
      var child := Scan(text, Start(r.it, FRESH), fuel - 1).value;
      ResumeNulFree(r, child);
      ResumeFit(text, r, child);
      ScanNulFree(text, Resume(r, child), fuel - 1);
  }

  lemma FreshNulFree()
    ensures NulFreeNode(FRESH) && NulFree("")
  {}

  lemma TurnNulFree(text: string, r: Reader)
    requires Fit(text, r) && NulFreeNode(r.node) && NulFree(r.ss)
    ensures match Turn(text, r)
      case Done(result) => NulFreeNode(result.node)
      case Go(next) => NulFreeNode(next.node) && NulFree(next.ss)
      case _ => true
  {}

  lemma TurnFit(text: string, r: Reader)
    requires Fit(text, r)
    ensures match Turn(text, r)
      case Done(result) => EndFit(text, result)
      case Go(next) => Fit(text, next)
      case Call => Fit(text, Start(r.it, FRESH))
      case Stuck => true
  {}

  lemma ResumeNulFree(r: Reader, child: Parsed)
    requires NulFreeNode(r.node) && NulFree(r.ss) && NulFreeNode(child.node) && child.end >= 0
    ensures NulFreeNode(Resume(r, child).node) && NulFree(Resume(r, child).ss)
  {}

  lemma ResumeFit(text: string, r: Reader, child: Parsed)
    requires EndFit(text, child) && child.end >= 0 && (r.node.kind == Object || r.node.kind == Array)
    ensures Fit(text, Resume(r, child))
  {}

  /** In particular a text in which no backslash stands in front of a NUL. */
  lemma {:induction false} NoBackslashNul(text: string, it: nat)
    requires forall k :: it <= k < |text| - 1 && text[k] == '\\' ==> text[k + 1] != NUL
    ensures NoNulEscape(text, it)
    decreases |text| - it
  {
    if it < |text| {
      if text[it] == '\\' {
        NoBackslashNul(text, it + 2);
      } else {
        NoBackslashNul(text, it + 1);
      }
    }
  }

  /** The string of an escaped NUL is read with its NUL. */
  lemma EscapedNulKept()
    ensures Parses("\"\\\0\"", Parsed(Json(String, [NUL], map[], []), 4))
  {
    var text := "\"\\\0\"";
    var r := Start(1, FRESH.(kind := String));
    Advance(text, Start(0, FRESH), 3);
    assert text[1] == '\\' && text[2] == NUL && "" + [NUL] == [NUL];
    Advance(text, r, 2);
    Finish(text, r.(it := 3, ss := [NUL]), 1);
    assert Scan(text, Start(0, FRESH), 3) == Some(Parsed(Json(String, [NUL], map[], []), 4));
  }

  /** A text that is made of whole escapes and other characters, none an escape of NUL. */
  predicate Units(s: string) {
    if s == "" then true
    else if s[0] == '\\' then |s| > 1 && s[1] != NUL && Units(s[2..])
    else Units(s[1..])
  }

  lemma {:induction false} UnitsAppend(a: string, b: string)
    requires Units(a) && Units(b)
    ensures Units(a + b)
  {
    if a == "" {
      assert a + b == b;
    } else {
      var n := if a[0] == '\\' then 2 else 1;
      UnitsAppend(a[n..], b);
      FirstUnit(a, b, n);
    }
  }

  lemma FirstUnit(a: string, b: string, n: nat)
    requires a != "" && n == (if a[0] == '\\' then 2 else 1) && n <= |a| && (n == 2 ==> a[1] != NUL) && Units(a[n..] + b)
    ensures Units(a + b)
  {
    assert (a + b)[n..] == a[n..] + b;
  }

  lemma {:induction false} UnitsAt(text: string, it: nat)
    requires it <= |text| && Units(text[it..])
    ensures NoNulEscape(text, it)
    decreases |text| - it
  {
    var rest := text[it..];
    if it < |text| {
      var n := if text[it] == '\\' then 2 else 1;
      assert rest[0] == text[it] && rest[n..] == text[it + n..];
      UnitsAt(text, it + n);
    }
  }

  lemma {:induction false} LayoutUnits(s: string)
    requires Layout(s)
    ensures Units(s)
  {
    if s != "" {
      assert s[0] in s && forall c <- s[1..] :: c in s;
      LayoutUnits(s[1..]);
    }
  }

  lemma {:induction false} EscapedUnits(s: string)
    ensures Units(EscapeBody(s))
  {
    if s != "" {
      var e := EscapeChar(s[0]);
      EscapedUnits(s[1..]);
      assert e[1..] == if |e| == 1 then "" else [e[1]];
      assert |e| == 2 ==> e[2..] == "";
      UnitsAppend(e, EscapeBody(s[1..]));
    }
  }

  lemma QuotedUnits(s: string)
    ensures Units(Quote(s))
  {
    EscapedUnits(s);
    assert "\""[1..] == "";
    UnitsAppend("\"", EscapeBody(s));
    UnitsAppend("\"" + EscapeBody(s), "\"");
  }

  /** No print, of whatever document, holds an escape of NUL. */
  lemma PrintNoNulEscape(d: Doc, pretty: bool, depth: nat)
    ensures NoNulEscape(Print(d, pretty, depth), 0)
  {
    var any := (s: string) => true;
    UnitsKept(any);
    AnyStrings(d, any);
    hide Units, OfPrints, Print;
    PrintKept(d, pretty, depth, Units, any);
    var text := Print(d, pretty, depth);
    assert text[0..] == text;
    UnitsAt(text, 0);
  }

  lemma UnitsKept(any: string -> bool)
    ensures OfPrints(Units, any)
  {
    hide Units, Quote, Layout;
    forall a: string, b: string | Units(a) && Units(b)
      ensures Units(a + b)
    {
      UnitsAppend(a, b);
    }
    forall s: string
      ensures Units(Quote(s)) && (Layout(s) ==> Units(s))
    {
      QuotedUnits(s);
      if Layout(s) {
        LayoutUnits(s);
      }
    }
  }

  lemma {:induction false} AnyStrings(d: Doc, good: string -> bool)
    requires forall s :: good(s)
    ensures AllStrings(d, good)
  {
    match d
    case Dict(fields) => forall f <- fields ensures AllStrings(f.value, good) { AnyStrings(f.value, good); }
    case List(items) => forall i <- items ensures AllStrings(i, good) { AnyStrings(i, good); }
    case _ =>
  }

  /** `parse`, called on a fresh node with this buffer, returns and leaves `result` in the node; the buffer may hold NULs. */
  ghost predicate Parses(buffer: string, result: Parsed) {
    exists fuel: nat :: Scan(buffer, Start(0, FRESH), fuel) == Some(result)
  }

  lemma ParsesUnique(buffer: string, a: Parsed, b: Parsed)
    requires Parses(buffer, a) && Parses(buffer, b)
    ensures a == b
  {
    var text, r := buffer, Start(0, FRESH);
    var f: nat :| Scan(text, r, f) == Some(a);
    var g: nat :| Scan(text, r, g) == Some(b);
    if f <= g {
      ScanAgrees(text, r, f, g);
    } else {
      ScanAgrees(text, r, g, f);
    }
  }

  /** Printing any node without NUL and parsing the text: the parser returns, with this node and cursor. */
  lemma RoundTrip(d: Doc, pretty: bool, depth: nat)
    requires NulFreeDoc(d)
    ensures Parses(Print(d, pretty, depth), Parsed(Readback(d), Returned(d, 0, |Print(d, pretty, depth)|)))
    ensures Plain(Readback(d))
  {
    var text := Print(d, pretty, depth);
    assert Occurs(text, 0, text);
    ReadDoc(text, 0, d, pretty, depth, 2 * |text|);
    ReadbackIsPlain(d);
  }

  /** With keys that stay apart the result is the same for every print order, compact or pretty. */
  lemma RoundTripAnyOrder(d: Doc, j: Json, pretty: bool, depth: nat)
    requires Depicts(d, j) && NulFreeNode(j) && Apart(j)
    ensures exists r, end :: Parses(Print(d, pretty, depth), Parsed(r, end))
    ensures forall r, end | Parses(Print(d, pretty, depth), Parsed(r, end)) :: ReadsAs(j, r)
  {
    DepictsNulFree(d, j);
    RoundTrip(d, pretty, depth);
    ReadbackReads(d, j);
    var printed := Print(d, pretty, depth);
    forall r, end | Parses(printed, Parsed(r, end))
      ensures r == Readback(d)
    {
      ParsesUnique(printed, Parsed(r, end), Parsed(Readback(d), Returned(d, 0, |printed|)));
    }
  }

  /** A round trip returns the very node it printed exactly when the node is plain. */
  lemma RoundTripExact(d: Doc, j: Json, pretty: bool, depth: nat)
    requires Depicts(d, j)
    ensures (exists end :: Parses(Print(d, pretty, depth), Parsed(j, end))) <==> Plain(j)
  {
    var printed := Print(d, pretty, depth);
    if Plain(j) {
      PlainIsNulFree(j);
      PlainReads(j);
      RoundTripAnyOrder(d, j, pretty, depth);
      var r, end :| Parses(printed, Parsed(r, end));
      ReadsAsUnique(j, j, r);
    }
    if end :| Parses(printed, Parsed(j, end)) {
      var fuel: nat :| Scan(printed, Start(0, FRESH), fuel) == Some(Parsed(j, end));
      PrintNoNulEscape(d, pretty, depth);
      ScanNulFree(printed, Start(0, FRESH), fuel);
      DepictsNulFree(d, j);
      RoundTrip(d, pretty, depth);
      ParsesUnique(printed, Parsed(j, end), Parsed(Readback(d), Returned(d, 0, |printed|)));
    }
  }

  /** The string of one line feed never comes back. */
  lemma LineFeedLost(pretty: bool, depth: nat, end: nat)
    ensures !Parses(Print(Str("\n"), pretty, depth), Parsed(Json(String, "\n", map[], []), end))
  {
    assert "\n"[0] == '\n';
    RoundTripExact(Str("\n"), Json(String, "\n", map[], []), pretty, depth);
  }

  lemma {:induction false} PlainIsNulFree(j: Json)
    requires Plain(j)
    ensures NulFreeNode(j)
    decreases j
  {
    forall k <- j.obj
      ensures NulFreeNode(j.obj[k])
    {
      PlainIsNulFree(j.obj[k]);
    }
    forall i <- j.arr
      ensures NulFreeNode(i)
    {
      PlainIsNulFree(i);
    }
  }
}
