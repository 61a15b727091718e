/**
 The rate limiter of an API route: the time of a client's last admitted call is kept, and a
 call sooner than the route's minimum after it is refused. Readings of the clock are
 arbitrary and may go back.
 */
module RateLimiter {
  datatype Call = Call(client: string, now: int)

  predicate Admits(last: map<string, int>, minimum: int, c: Call) {
    minimum <= 0 || c.client !in last || c.now - last[c.client] >= minimum
  }

  function Noted(last: map<string, int>, minimum: int, c: Call): map<string, int> {
    if minimum > 0 && Admits(last, minimum, c) then last[c.client := c.now] else last
  }

  /** The times at which calls of one client are admitted. */
  function Times(last: map<string, int>, minimum: int, calls: seq<Call>, client: string): seq<int>
    decreases |calls|
  {
    if calls == [] then []
    else
      (if calls[0].client == client && Admits(last, minimum, calls[0]) then [calls[0].now] else [])
      + Times(Noted(last, minimum, calls[0]), minimum, calls[1..], client)
  }

  /** The calls of one client. */
  function Of(calls: seq<Call>, client: string): seq<Call> {
    if calls == [] then []
    else (if calls[0].client == client then [calls[0]] else []) + Of(calls[1..], client)
  }

  predicate Spaced(times: seq<int>, minimum: int) {
    forall i :: 0 < i < |times| ==> times[i] - times[i - 1] >= minimum
  }

  /** Admitted calls of a client are at least the minimum apart, whatever the clock and other clients do. */
  lemma {:induction false} AdmittedSpaced(last: map<string, int>, minimum: int, calls: seq<Call>, client: string)
    requires minimum > 0
    ensures var times := Times(last, minimum, calls, client);
      Spaced(times, minimum) && (client in last && times != [] ==> times[0] - last[client] >= minimum)
    decreases |calls|
  {
    if calls != [] {
      AdmittedSpaced(Noted(last, minimum, calls[0]), minimum, calls[1..], client);
    }
  }

  /** Other clients never matter. */
  lemma {:induction false} OthersIrrelevant(last: map<string, int>, other: map<string, int>, minimum: int, calls: seq<Call>, client: string)
    requires (client in last <==> client in other) && (client in last ==> last[client] == other[client])
    ensures Times(last, minimum, calls, client) == Times(other, minimum, Of(calls, client), client)
    decreases |calls|
  {
    if calls != [] {
      var rest := Of(calls[1..], client);
      if calls[0].client == client {
        OthersIrrelevant(Noted(last, minimum, calls[0]), Noted(other, minimum, calls[0]), minimum, calls[1..], client);
        assert Of(calls, client)[1..] == rest;
      } else {
        OthersIrrelevant(Noted(last, minimum, calls[0]), other, minimum, calls[1..], client);
        assert Of(calls, client) == rest;
      }
    }
  }

  /** How many times lie in the window from `from` to `from + width`, both included. */
  function CountIn(times: seq<int>, from: int, width: nat): nat {
    if times == [] then 0 else (if from <= times[0] <= from + width then 1 else 0) + CountIn(times[1..], from, width)
  }

  lemma {:induction false} SpacedCount(times: seq<int>, minimum: int, from: int, width: nat)
    requires minimum > 0 && Spaced(times, minimum)
    ensures (CountIn(times, from, width) - 1) * minimum <= width
    ensures times != [] && times[0] >= from ==>
      CountIn(times, from, width) == 0 || (CountIn(times, from, width) - 1) * minimum <= from + width - times[0]
  {
    if times != [] {
      var rest := times[1..];
      assert rest != [] ==> times[1] - times[0] >= minimum;
      assert forall i :: 0 < i < |rest| ==> rest[i] == times[i + 1];
      SpacedCount(rest, minimum, from, width);
      var n := CountIn(rest, from, width);
      assert n * minimum == (n - 1) * minimum + minimum;
    }
  }

  lemma Quotient(n: nat, m: int, width: nat)
    requires m > 0 && n * m <= width
    ensures n <= width / m
  {
    var q := width / m;
    assert width < (q + 1) * m;
    if n >= q + 1 {
      Product(q + 1, n, m);
      assert false;
    }
  }

  lemma Product(a: int, b: int, m: int)
    requires a <= b && m > 0
    ensures a * m <= b * m
  {}

  /** Any window of width W holds at most W / minimum + 1 admitted calls of a client. */
  lemma WindowBound(minimum: int, calls: seq<Call>, client: string, from: int, width: nat)
    requires minimum > 0
    ensures CountIn(Times(map[], minimum, calls, client), from, width) <= width / minimum + 1
  {
    AdmittedSpaced(map[], minimum, calls, client);
    var times := Times(map[], minimum, calls, client);
    SpacedCount(times, minimum, from, width);
    if times == [] || CountIn(times, from, width) == 0 {
      Quotient(0, minimum, width);
    } else {
      Quotient(CountIn(times, from, width) - 1, minimum, width);
    }
  }

  // ----- Which calls are admitted

  /** What is kept after some calls. */
  function Kept(minimum: int, calls: seq<Call>): map<string, int>
    decreases |calls|
  {
    if calls == [] then map[] else Noted(Kept(minimum, calls[..|calls| - 1]), minimum, calls[|calls| - 1])
  }

  predicate Admitted(minimum: int, calls: seq<Call>, i: nat)
    requires i < |calls|
  {
    Admits(Kept(minimum, calls[..i]), minimum, calls[i])
  }

  /** The time kept for a client is that of its last admitted call, and no admitted call is later. */
  lemma {:induction false} KeptIs(minimum: int, calls: seq<Call>, n: nat, client: string)
    requires minimum > 0 && n <= |calls|
    ensures var last := Kept(minimum, calls[..n]);
      && (client in last ==> exists i :: 0 <= i < n && calls[i] == Call(client, last[client]) && Admitted(minimum, calls, i))
      && (forall i :: 0 <= i < n && calls[i].client == client && Admitted(minimum, calls, i) ==>
            client in last && calls[i].now <= last[client])
    decreases n
  {
    if n > 0 {
      KeptIs(minimum, calls, n - 1, client);
      assert calls[..n][..n - 1] == calls[..n - 1] && calls[..n][n - 1] == calls[n - 1];
      var c := calls[n - 1];
      if c.client == client && Admitted(minimum, calls, n - 1) {
        assert calls[n - 1] == Call(client, c.now);
      }
    }
  }

  /** A call is admitted exactly when no admitted call of the same client lies less than the minimum before it, or behind it. */
  lemma AdmittedExact(minimum: int, calls: seq<Call>, i: nat)
    requires minimum > 0 && i < |calls|
    ensures Admitted(minimum, calls, i) <==>
      forall j :: 0 <= j < i && calls[j].client == calls[i].client && Admitted(minimum, calls, j) ==> calls[i].now - calls[j].now >= minimum
  {
    KeptIs(minimum, calls, i, calls[i].client);
  }

  /** Without a minimum every call is admitted. */
  lemma AllAdmitted(minimum: int, calls: seq<Call>, i: nat)
    requires minimum <= 0 && i < |calls|
    ensures Admitted(minimum, calls, i)
  {}

  class Route {
    const minimum: int
    var clientMsAtCall: map<string, int>

    constructor (minimum: int)
      ensures this.minimum == minimum && clientMsAtCall == map[]
    {
      this.minimum := minimum;
      clientMsAtCall := map[];
    }

    method Called(c: Call) returns (admitted: bool)
      modifies this
      ensures admitted == Admits(old(clientMsAtCall), minimum, c)
      ensures clientMsAtCall == Noted(old(clientMsAtCall), minimum, c)
    {
      if minimum > 0 {
        if c.client in clientMsAtCall {
          var diff := c.now - clientMsAtCall[c.client];
          if diff < minimum {
            return false;
          }
        }
        clientMsAtCall := clientMsAtCall[c.client := c.now];
      }
      admitted := true;
    }
  }
}
