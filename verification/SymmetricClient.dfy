/**
 `SymmetricTcpClient::communicate`: a request goes to a server that answers each request it
 receives with one reply, and both travel over symmetric channels of one connection. The
 connection is closed, and both counters start again, when a write or a read fails.
 */
module SymmetricClient {
  import opened Text
  import opened SymmetricChannel

  /** What the server does between two reads of the client: nothing, one read (writing the reply if a request came), or closing. */
  datatype Turn = Pause | Serve(outcome: Outcome) | Quit

  /** The two directions of a connection. */
  datatype Wire = Wire(up: Channel, down: Channel)

  const NEW_WIRE := Wire(NEW_CHANNEL, NEW_CHANNEL)

  /** The server's handler and the link, on both sides. */
  datatype World = World(link: Link, reply: string -> string)

  predicate KnownWire(w: Wire) {
    Known(w.up) && Known(w.down)
  }

  function Turned(o: World, w: Wire, turn: Turn): (r: Wire)
    requires KnownWire(w)
    ensures KnownWire(r)
  {
    match turn
    case Pause => w
    case Quit => w.(up := w.up.(open := false))
    case Serve(outcome) =>
      var up := Receive(o.link, w.up).0;
      if up.received == w.up.received then Wire(up, w.down)
      else Wire(up, Send(w.down, o.reply(Last(up.delivered)), outcome).0)
  }

  function Last(texts: seq<string>): string {
    if texts == [] then "" else texts[|texts| - 1]
  }

  /** The client's read; a connection the server closed reads as the end. */
  function Taken(o: World, w: Wire): (r: (Wire, int))
    requires KnownWire(w)
    ensures KnownWire(r.0)
  {
    if w.down.link == [] && !w.up.open then (w, -2)
    else var (down, code) := Receive(o.link, w.down); (w.(down := down), code)
  }

  /** The reading loop over the server's turns; it goes on while the code is 0. */
  function Awaited(o: World, w: Wire, turns: seq<Turn>): (r: (Wire, int))
    requires KnownWire(w)
    ensures KnownWire(r.0)
    decreases |turns|
  {
    if turns == [] then (w, 0)
    else
      var (next, code) := Taken(o, Turned(o, w, turns[0]));
      if code != 0 then (next, code) else Awaited(o, next, turns[1..])
  }

  // ----- What holds of a connection

  function Replies(o: World, requests: seq<string>): (r: seq<string>)
    ensures |r| == |requests| && forall i :: 0 <= i < |r| ==> r[i] == o.reply(requests[i])
  {
    seq(|requests|, i requires 0 <= i < |requests| => o.reply(requests[i]))
  }

  /** Both directions are in step, every request the server took was answered once, and at most one is unanswered. */
  predicate Paired(o: World, w: Wire) {
    && InStep(o.link, w.up) && InStep(o.link, w.down)
    && w.down.sent == Replies(o, w.up.delivered)
    && |w.up.sent| <= w.down.received + 1
  }

  /** With one request at a time no stamp can be mistaken. */
  lemma PairedTells(o: World, w: Wire)
    requires Paired(o, w)
    ensures ToldApart(w.up) && ToldApart(w.down)
    ensures w.down.received <= |w.down.sent| == w.up.received <= |w.up.sent|
  {}

  lemma TurnPaired(o: World, w: Wire, turn: Turn)
    requires Paired(o, w)
    ensures Paired(o, Turned(o, w, turn)) && Turned(o, w, turn).up.sent == w.up.sent
  {
    hide Fits, InOrder, Receive;
    PairedTells(o, w);
    ReceiveInStep(o.link, w.up);
    ReceiveGrows(o.link, w.up);
    var up := Receive(o.link, w.up).0;
    if turn.Serve? && up.received != w.up.received {
      var text := o.reply(Last(up.delivered));
      SendInStep(o.link, w.down, text, turn.outcome);
      assert Replies(o, up.delivered) == Replies(o, w.up.delivered) + [text];
    }
  }

  /** A read leaves the sender alone, and delivers one text with its length as the code, or none. */
  lemma ReceiveGrows(l: Link, ch: Channel)
    requires Known(ch)
    ensures var (next, code) := Receive(l, ch);
      && next.sent == ch.sent
      && (if next.received == ch.received then code <= 0 && next.delivered == ch.delivered && (code < 0 <==> next.open != ch.open)
          else next.received == ch.received + 1 && |next.delivered| == |ch.delivered| + 1 && next.open
               && next.delivered == ch.delivered + [Last(next.delivered)] && code == |Last(next.delivered)|)
  {
    hide TextOf, LengthOf, Number4;
  }

  lemma TakePaired(o: World, w: Wire)
    requires Paired(o, w)
    ensures var (next, code) := Taken(o, w);
      && Paired(o, next) && next.up.sent == w.up.sent
      && (code > 0 ==> next.down.received == w.down.received + 1 && code == |Last(next.down.delivered)|)
  {
    hide Fits, InOrder, Receive;
    PairedTells(o, w);
    ReceiveInStep(o.link, w.down);
    ReceiveGrows(o.link, w.down);
  }

  /** The reply to the last request. */
  function Answer(o: World, w: Wire): string {
    CString(o.reply(CString(Last(w.up.sent))))
  }

  /** A text delivered while one request is out is the reply to it. */
  lemma LastIsAnswer(o: World, w: Wire)
    requires Paired(o, w) && w.down.received == |w.up.sent| > 0
    ensures Last(w.down.delivered) == Answer(o, w)
  {
    hide CString, Fits, InOrder;
    PairedTells(o, w);
    var n := |w.up.sent|;
    assert w.down.delivered[n - 1] == CString(w.down.sent[n - 1]);
  }

  lemma SameAnswer(o: World, v: Wire, w: Wire)
    requires v.up.sent == w.up.sent
    ensures Answer(o, v) == Answer(o, w)
  {}

  /** Whatever the server and the link do, a text that ends the wait is the reply to this request. */
  lemma {:induction false} AwaitedAnswers(o: World, w: Wire, turns: seq<Turn>)
    requires Paired(o, w) && w.up.sent != []
    ensures var (last, code) := Awaited(o, w, turns);
      && Paired(o, last) && last.up.sent == w.up.sent
      && (code > 0 ==> last.down.received == |last.up.sent| && code == |Answer(o, w)| && Last(last.down.delivered) == Answer(o, w))
    decreases |turns|
  {
    assert KnownWire(w);
    hide InStep, Turned, Taken, Answer;
    if turns != [] {
      TurnPaired(o, w, turns[0]);
      var mid := Turned(o, w, turns[0]);
      TakePaired(o, mid);
      var (next, code) := Taken(o, mid);
      if code == 0 {
        AwaitedAnswers(o, next, turns[1..]);
        SameAnswer(o, next, w);
      } else if code > 0 {
        PairedTells(o, next);
        LastIsAnswer(o, next);
        SameAnswer(o, next, w);
      }
    }
  }

  // ----- A server that answers at once

  /** Nothing is under way and every request was answered. */
  predicate Quiet(o: World, w: Wire) {
    Paired(o, w) && w.down.received == |w.up.sent| && Settled(w.up) && Settled(w.down)
  }

  /** The client's three reads after a request to a server that answers at once. */
  lemma PromptTurns(o: World, w: Wire, request: string) returns (w1: Wire, w2: Wire, w3: Wire)
    requires KnownWire(w) && Settled(w.up) && Settled(w.down)
    requires Small(o.link, request) && Small(o.link, o.reply(CString(request)))
    ensures KnownWire(w1) && KnownWire(w2)
    ensures Taken(o, Turned(o, w.(up := Send(w.up, request, Sent).0), Serve(Sent))) == (w1, 0)
    ensures Taken(o, Turned(o, w1, Serve(Sent))) == (w2, 0)
    ensures Taken(o, Turned(o, w2, Pause)) == (w3, |CString(o.reply(CString(request)))|)
    ensures Settled(w3.up) && Settled(w3.down)
    ensures w3.up.received == w.up.received + 1 && w3.down.received == w.down.received + 1
  {
    assert Receive(o.link, w.down) == (w.down, 0);
    hide Receive, Send, CString, Small, Known;
    SettledPass(o.link, w.up, request);
    var up1 := Receive(o.link, Send(w.up, request, Sent).0).0;
    var up2 := Receive(o.link, up1).0;
    var text := o.reply(CString(request));
    SettledPass(o.link, w.down, text);
    var down1 := Receive(o.link, Send(w.down, text, Sent).0).0;
    w1, w2, w3 := Wire(up1, w.down), Wire(up2, down1), Wire(up2, Receive(o.link, down1).0);
  }

  /** On a quiet connection a request that is written whole, two reads by the server and a reply written whole end the wait with the reply. */
  lemma {:induction false} PromptAnswer(o: World, w: Wire, request: string, turns: seq<Turn>)
    requires Quiet(o, w) && KnownWire(w)
    requires [Serve(Sent), Serve(Sent), Pause] <= turns
    requires Small(o.link, request) && Small(o.link, o.reply(CString(request)))
    requires CString(o.reply(CString(request))) != ""
    ensures var asked := w.(up := Send(w.up, request, Sent).0);
      var (last, code) := Awaited(o, asked, turns);
      && code == |Answer(o, asked)| > 0 && Last(last.down.delivered) == CString(o.reply(CString(request))) && Quiet(o, last)
  {
    hide Paired, Turned, Taken, Answer, Settled, Send, CString, Small;
    var asked := w.(up := Send(w.up, request, Sent).0);
    var w1, w2, w3 := PromptTurns(o, w, request);
    var code := |CString(o.reply(CString(request)))|;
    assert turns[0] == Serve(Sent) && turns[1..][0] == Serve(Sent) && turns[1..][1..][0] == Pause;
    assert Awaited(o, w2, turns[1..][1..]) == (w3, code);
    assert Awaited(o, w1, turns[1..]) == (w3, code);
    assert Awaited(o, asked, turns) == (w3, code);
    SendPaired(o, w, request, Sent);
    AwaitedAnswers(o, asked, turns);
  }

  lemma FirstQuiet(o: World)
    ensures Quiet(o, NEW_WIRE)
  {}

  /** A request leaves the pairing as it was, when all earlier ones were answered. */
  lemma SendPaired(o: World, w: Wire, request: string, outcome: Outcome)
    requires Paired(o, w) && w.down.received == |w.up.sent|
    ensures KnownWire(w)
    ensures var asked := w.(up := Send(w.up, request, outcome).0);
      KnownWire(asked) && Paired(o, asked) && asked.up.sent == w.up.sent + [request] && Answer(o, asked) == CString(o.reply(CString(request)))
  {
    assert KnownWire(w);
    hide InStep, CString;
    SendInStep(o.link, w.up, request, outcome);
  }

  // ----- The client

  /** How one try to send a request goes: whether a closed client reconnects, how the writes end, and the server's turns after them. */
  datatype Attempt = Attempt(reaches: bool, outcome: Outcome, turns: seq<Turn>)

  class SymmetricTcpClient {
    const world: World
    var connected: bool
    var writeCount: nat
    var readCount: nat
    var wire: Wire

    /** Between two calls. */
    ghost predicate Valid()
      reads this
    {
      && writeCount == readCount
      && (if connected then Paired(world, wire) && writeCount == |wire.up.sent| && readCount == wire.down.received else writeCount == 0)
    }

    /** The server is reachable or the connection quiet, and everything works at the first attempt. */
    ghost predicate Prompt(request: string, attempts: seq<Attempt>)
      reads this
    {
      && attempts != [] && attempts[0].outcome == Sent && [Serve(Sent), Serve(Sent), Pause] <= attempts[0].turns
      && (if connected then Quiet(world, wire) else attempts[0].reaches)
      && Small(world.link, request) && Small(world.link, world.reply(CString(request)))
      && CString(world.reply(CString(request))) != ""
    }

    constructor (world: World)
      ensures Valid() && !connected && this.world == world
    {
      this.world := world;
      connected := false;
      writeCount := 0;
      readCount := 0;
      wire := NEW_WIRE;
    }

    method CloseClient()
      modifies this
      ensures !connected && writeCount == readCount == 0
    {
      connected := false;
      writeCount := 0;
      readCount := 0;
    }

    /** `recv` until something was delivered or the connection is given up; `code` is 0 when the turns end first. */
    method Await(turns: seq<Turn>) returns (code: int)
      requires KnownWire(wire) && readCount == wire.down.received
      modifies this`wire, this`readCount
      ensures (wire, code) == Awaited(world, old(wire), turns)
      ensures KnownWire(wire) && readCount == wire.down.received
    {
      code := 0;
      var i := 0;
      while i < |turns| && code == 0
        invariant i <= |turns| && KnownWire(wire) && readCount == wire.down.received
        invariant Awaited(world, old(wire), turns) == if code == 0 then Awaited(world, wire, turns[i..]) else (wire, code)
      {
        assert turns[i..][0] == turns[i] && turns[i..][1..] == turns[i + 1..];
        var next, c := Read(Turned(world, wire, turns[i]));
        wire, code := next, c;
        readCount := wire.down.received;
        i := i + 1;
      }
    }

    method Read(w: Wire) returns (next: Wire, code: int)
      requires KnownWire(w)
      ensures (next, code) == Taken(world, w)
    {
      if w.down.link == [] && !w.up.open {
        return w, -2;
      }
      var r := Receive(world.link, w.down);
      next, code := w.(down := r.0), r.1;
    }

    /**
     The response to a request, empty when the server cannot be reached or the connection
     broke; not `done` when the attempts end while it is still trying or waiting. Whatever
     the server and the link did, a response is the reply to this very request.
     */
    method Communicate(request: string, attempts: seq<Attempt>) returns (done: bool, response: string)
      requires Valid()
      modifies this
      ensures done ==> Valid() && (connected <==> response != "")
      ensures done && response != "" ==> response == CString(world.reply(CString(request)))
      ensures old(Prompt(request, attempts)) ==> done && connected && Quiet(world, wire)
      decreases |attempts|
    {
      hide CString, Awaited, Paired, Settled, Small;
      if attempts == [] {
        return false, "";
      }
      if !connected {
        connected := attempts[0].reaches;
        if !connected {
          return true, "";
        }
        wire := NEW_WIRE;
        FirstQuiet(world);
      }
      ghost var before := wire;
      SendPaired(world, wire, request, attempts[0].outcome);
      var sending := Send(wire.up, request, attempts[0].outcome);
      wire := wire.(up := sending.0);
      writeCount := writeCount + 1;
      if sending.1 {
        CloseClient();
        done, response := Communicate(request, attempts[1..]);
        return;
      }
      ghost var asked := wire;
      var code := Await(attempts[0].turns);
      AwaitedAnswers(world, asked, attempts[0].turns);
      if old(Prompt(request, attempts)) {
        PromptAnswer(world, before, request, attempts[0].turns);
      }
      if code < 0 {
        CloseClient();
        return true, "";
      }
      done, response := code > 0, if code > 0 then Last(wire.down.delivered) else "";
    }
  }
}
