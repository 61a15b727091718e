/** `Util::parse_http_request` over request objects on the heap. */
module HttpParser {
  import opened Text
  import opened JsonScan
  import opened JsonHeap
  import opened HttpScan

  /** `objectValues[key]->stringValue = s`. */
  method SetMemberString(o: JsonObject, key: string, s: string)
    requires o.Valid()
    modifies o, o.Repr
    ensures o.Valid() && fresh(o.Repr - old(o.Repr)) && o.kind == old(o.kind)
    ensures o.Node == old(o.Node).(obj := SetText(old(o.Node).obj, key, s))
  {
    hide o.Valid, o.ValidChild, o.Separate;
    var child := o.TakeMember(key);
    child.SetString(s);
    o.SetMember(key, child);
    assert (old(o.Node).obj - {key})[key := child.Node] == SetText(old(o.Node).obj, key, s);
  }

  /** The entry becomes a string, whatever it was. */
  method StoreStringAt(o: JsonObject, key: string, value: string)
    requires o.Valid()
    modifies o, o.Repr
    ensures o.Valid() && fresh(o.Repr - old(o.Repr)) && o.kind == old(o.kind)
    ensures o.Node == old(o.Node).(obj := StoreString(old(o.Node).obj, key, value))
  {
    hide o.Valid, o.ValidChild, o.Separate;
    var child := o.TakeMember(key);
    child.SetKind(String);
    child.SetString(value);
    o.SetMember(key, child);
    assert (old(o.Node).obj - {key})[key := child.Node] == StoreString(old(o.Node).obj, key, value);
  }

  /** A node parsed again from scratch; what holds no JSON becomes a string. */
  method Reparse(child: JsonObject, value: string, ghost fuel: nat)
    requires child.Valid() && Reparsed(child.Node, value, fuel).Some?
    modifies child
    ensures child.Valid() && fresh(child.Repr - old(child.Repr))
    ensures Some(child.Node) == Reparsed(old(child.Node), value, fuel)
  {
    hide child.Valid, child.ValidChild, child.Separate, Scan;
    child.SetKind(NoType);
    var end := child.Parse(value, 0, fuel);
    if child.kind == NoType {
      child.SetKind(String);
      child.SetString(value);
    }
  }

  /** The entry under `key` is parsed again from the value. */
  method StoreParamAt(o: JsonObject, key: string, value: string, ghost fuel: nat)
    requires o.Valid() && StoreParam(o.Node.obj, key, value, fuel).Some?
    modifies o, o.Repr
    ensures o.Valid() && fresh(o.Repr - old(o.Repr)) && o.kind == old(o.kind)
    ensures o.Node == old(o.Node).(obj := StoreParam(old(o.Node).obj, key, value, fuel).value)
  {
    hide o.Valid, o.ValidChild, o.Separate, Reparsed;
    var child := o.TakeMember(key);
    Reparse(child, value, fuel);
    o.SetMember(key, child);
    assert (old(o.Node).obj - {key})[key := child.Node] == old(o.Node).obj[key := child.Node];
  }

  lemma HeadTurn(text: string, h: Head, fuel: nat)
    requires ReadHead(text, h, fuel).Some?
    ensures h.it <= |text|
    ensures At(text, h.it) == NUL ==> ReadHead(text, h, fuel) == Some(h)
    ensures At(text, h.it) != NUL ==>
      var step := HeadStep(text, h, fuel);
      && !step.Broken?
      && (step.Exit? ==> ReadHead(text, h, fuel) == Some(step.at) && step.at.it == h.it + 1)
      && (step.Next? ==> ReadHead(text, h, fuel) == ReadHead(text, step.at, fuel) && step.at.it > h.it)
  {}

  /** The request line and the headers; returns the cursor on the first body character. */
  method ParseHead(request: string, start: nat, o: JsonObject, ghost fuel: nat) returns (it: nat)
    requires o.Valid() && ReadHead(request, Head(start, ROUTE, "", "/", o.Node.obj), fuel).Some?
    modifies o, o.Repr
    ensures o.Valid() && fresh(o.Repr - old(o.Repr)) && o.kind == old(o.kind)
    ensures var h := ReadHead(request, Head(start, ROUTE, "", "/", old(o.Node).obj), fuel).value;
      it == h.it && it <= |request| && o.Node == old(o.Node).(obj := h.obj)
  {
    hide o.Valid, o.ValidChild, o.Separate, ReadHead;
    it := start;
    var state: nat := ROUTE;
    var newKey := "";
    var newValue := "/";
    ghost var result := ReadHead(request, Head(start, ROUTE, "", "/", o.Node.obj), fuel);
    ghost var h := Head(it, state, newKey, newValue, o.Node.obj);
    HeadTurn(request, h, fuel);
    while At(request, it) != NUL
      invariant o.Valid() && fresh(o.Repr - old(o.Repr)) && o.kind == old(o.kind)
      invariant it <= |request| && o.Node == old(o.Node).(obj := o.Node.obj)
      invariant ReadHead(request, Head(it, state, newKey, newValue, o.Node.obj), fuel) == result
      decreases |request| + 2 - it
    {
      h := Head(it, state, newKey, newValue, o.Node.obj);
      HeadTurn(request, h, fuel);
      if HeadStep(request, h, fuel).Next? {
        HeadTurn(request, HeadStep(request, h, fuel).at, fuel);
      }
      var c := request[it];
      if c == ' ' && state == ROUTE {
        if newValue == "" {
          return it + 1;
        }
        SetMemberString(o, "route", newValue);
        state, newValue := PROTOCOL, "";
        it := it + 1;
        continue;
      } else if c == ' ' && state == PARAM_KEY {
        state := PROTOCOL;
        it := it + 1;
        continue;
      } else if c == ' ' && state == PARAM_VALUE {
        StoreParamAt(o, newKey, newValue, fuel);
        state, newValue := PROTOCOL, "";
        it := it + 1;
        continue;
      } else if c == '?' && state == ROUTE {
        SetMemberString(o, "route", newValue);
        newKey, state := "", PARAM_KEY;
        it := it + 1;
        continue;
      } else if c == '=' && state == PARAM_KEY {
        newValue, state := "", PARAM_VALUE;
        it := it + 1;
        continue;
      } else if c == '&' && state == PARAM_VALUE {
        StoreParamAt(o, newKey, newValue, fuel);
        newKey, state := "", PARAM_KEY;
        it := it + 1;
        continue;
      } else if c == '\n' && state == PROTOCOL {
        SetMemberString(o, "protocol", newValue);
        newKey, state := "", HEADER_KEY;
        it := it + 1;
        continue;
      } else if c == '\n' && state == HEADER_KEY {
        state := LINE_ENDS;
      } else if c == '\n' && state == HEADER_VALUE {
        StoreStringAt(o, newKey, newValue);
        newKey, state := "", HEADER_KEY;
        it := it + 1;
        continue;
      } else if c == ':' && state == HEADER_KEY {
        it := it + 2;
        newValue, state := "", HEADER_VALUE;
        continue;
      }
      if state == PARAM_VALUE && c == '+' {
        newValue := newValue + " ";
      } else if state == ROUTE || state == PARAM_VALUE || state == PROTOCOL || state == HEADER_VALUE {
        if c == '%' {
          if PercentAt(request, it, '2', '6') {
            it := it + 2;
            newValue := newValue + "\"";
          } else if PercentAt(request, it, '0', 'A') {
            it := it + 2;
            newValue := newValue + "\n";
          }
        } else if c != '\r' {
          newValue := newValue + [c];
        }
      } else if state == PARAM_KEY || state == HEADER_KEY {
        newKey := newKey + [c];
      } else {
        if c == '\r' || c == '\n' {
          state := state + 1;
        }
        if state >= BODY {
          return it + 1;
        }
      }
      it := it + 1;
    }
    HeadTurn(request, Head(it, state, newKey, newValue, o.Node.obj), fuel);
  }

  /** The form body behind the headers. */
  method ParseForm(request: string, start: nat, o: JsonObject, ghost fuel: nat)
    requires o.Valid() && start <= |request|
    requires ReadForm(request, Form(start, false, "", "", o.Node.obj), fuel).Some?
    modifies o, o.Repr
    ensures o.Valid() && o.kind == old(o.kind)
    ensures o.Node == old(o.Node).(obj := ReadForm(request, Form(start, false, "", "", old(o.Node).obj), fuel).value)
  {
    hide o.Valid, o.ValidChild, o.Separate, StoreParam;
    var state := 1;
    var newKey, newValue := "", "";
    var it := start;
    ghost var result := ReadForm(request, Form(start, false, "", "", o.Node.obj), fuel);
    while At(request, it) != NUL
      invariant o.Valid() && fresh(o.Repr - old(o.Repr)) && o.kind == old(o.kind)
      invariant it <= |request| && o.Node == old(o.Node).(obj := o.Node.obj) && (state == 1 || state == 2)
      invariant ReadForm(request, Form(it, state == 2, newKey, newValue, o.Node.obj), fuel) == result
      decreases |request| - it
    {
      if request[it] == '&' {
        StoreParamAt(o, newKey, newValue, fuel);
        state, newKey, newValue := 1, "", "";
      } else if request[it] == '=' {
        state := 2;
      } else if state == 1 {
        newKey := newKey + [request[it]];
      } else if state == 2 {
        newValue := newValue + [request[it]];
      }
      it := it + 1;
    }
    if state == 2 {
      StoreParamAt(o, newKey, newValue, fuel);
    }
  }

  method HasStringValue(o: JsonObject, key: string, value: string) returns (b: bool)
    requires o.Valid()
    ensures b == HasString(o.Node.obj, key, value)
  {
    b := false;
    assert o.Node.obj.Keys == o.objectValues.Keys;
    if key in o.objectValues {
      assert o.ValidChild(o.objectValues[key], o.Node.obj[key]);
      b := o.objectValues[key].kind == String && o.objectValues[key].stringValue == value;
    }
  }

  /** `request_obj->objectValues[key] = new JsonObject(value)`. */
  method NewString(o: JsonObject, key: string, value: string)
    requires o.Valid()
    modifies o
    ensures o.Valid() && fresh(o.Repr - old(o.Repr)) && o.kind == old(o.kind)
    ensures o.Node == old(o.Node).(obj := old(o.Node).obj[key := FRESH.(kind := String, str := value)])
  {
    var value := new JsonObject.OfString(value);
    o.SetMember(key, value);
  }

  /** The request start, compared in the order of the source. */
  method SelectMethod(request: string) returns (found: Option<Method>)
    ensures found == MethodOf(request, METHODS)
  {
    MethodFrom(request, 0);
    MethodFrom(request, 1);
    MethodFrom(request, 2);
    MethodFrom(request, 3);
    MethodFrom(request, 4);
    assert METHODS[0..] == METHODS;
    assert METHODS[5..] == [];
    if "GET /" <= request {
      return Some(Method("GET", "GET /"));
    } else if "HEAD /" <= request {
      return Some(Method("HEAD", "HEAD /"));
    } else if "POST /" <= request {
      return Some(Method("POST", "POST /"));
    } else if "DELETE /" <= request {
      return Some(Method("DELETE", "DELETE /"));
    } else if "PUT /" <= request {
      return Some(Method("PUT", "PUT /"));
    }
    return None;
  }

  lemma MethodFrom(text: string, i: nat)
    requires i < |METHODS|
    ensures MethodOf(text, METHODS[i..]) ==
      if METHODS[i].start <= text then Some(METHODS[i]) else MethodOf(text, METHODS[i + 1..])
  {
    assert METHODS[i..][1..] == METHODS[i + 1..];
  }

  /** What follows the headers, by content type. */
  method ParseBodyAt(request: string, it: nat, o: JsonObject, ghost fuel: nat) returns (result: RequestResult)
    requires o.Valid() && it <= |request| && ParseBody(request, o.Node, it, fuel).Some?
    modifies o, o.Repr
    ensures o.Valid()
    ensures ParseBody(request, old(o.Node), it, fuel) == Some(Request(result, o.Node))
  {
    hide o.Valid, o.ValidChild, o.Separate, ReadForm, Scan;
    var isJson := HasStringValue(o, "Content-Type", "application/json");
    if isJson {
      var end := o.Parse(request, it, fuel);
      return HTTP_API;
    }
    var isForm := HasStringValue(o, "Content-Type", "application/x-www-form-urlencoded");
    if isForm {
      ParseForm(request, it, o, fuel);
      return HTTP_FORM;
    }
    return HTTP;
  }

  /** The three entries that exist before anything is read. */
  method StartRequest(o: JsonObject)
    requires o.Valid()
    modifies o
    ensures o.Valid() && fresh(o.Repr - old(o.Repr)) && o.kind == old(o.kind)
    ensures o.Node == old(o.Node).(obj := Initial(old(o.Node).obj, "GET"))
  {
    hide o.Valid, o.ValidChild, o.Separate;
    NewString(o, "method", "GET");
    NewString(o, "route", "");
    NewString(o, "protocol", "JPON");
  }

  lemma InitialNamed(obj: map<string, Json>, name: string)
    ensures SetText(Initial(obj, "GET"), "method", name) == Initial(obj, name)
  {}

  method ParseHttpRequest(request: string, o: JsonObject, ghost fuel: nat) returns (result: RequestResult)
    requires o.Valid() && ParseRequest(request, o.Node, fuel).Some?
    modifies o, o.Repr
    ensures o.Valid()
    ensures ParseRequest(request, old(o.Node), fuel) == Some(Request(result, o.Node))
  {
    hide o.Valid, o.ValidChild, o.Separate, ReadHead, ParseBody, Scan, MethodOf, Initial, SetText;
    StartRequest(o);
    var found := SelectMethod(request);
    if found.None? {
      var end := o.Parse(request, 0, fuel);
      return API;
    }
    InitialNamed(old(o.Node).obj, found.value.name);
    SetMemberString(o, "method", found.value.name);
    var it := ParseHead(request, |found.value.start|, o, fuel);
    result := ParseBodyAt(request, it, o, fuel);
  }
}
