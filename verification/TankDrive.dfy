/** Where a tank goes: ticks of the game in which its player holds a key, with any handlers of any clients between them. */
module TankDrive {
  import opened Text
  import opened JsonScan
  import opened TankGeometry
  import opened TankGame

  // ----- One step

  lemma TickTank(g: Game, h: Game, cos: real -> real, sin: real -> real, name: string)
    requires Inv(g) && IsTick(g, h, cos, sin) && name in g.players && name in h.players
    ensures Inv(h) && Aligned(g) && Aligned(h) && TankIn(h, name) == NextTank(TankIn(g, name), cos, sin)
  {
    hide NextTank, Announces, Drained, GoodTank;
    var m :| TickVia(g, m, h, cos, sin);
    DrainKeeps(g);
    assert Inv(m);
    DrainedTank(g, name);
    MoveKeeps(m, h, cos, sin);
  }

  lemma DrainedTank(g: Game, name: string)
    requires Aligned(g) && Aligned(Drained(g)) && name in Drained(g).players
    ensures name in g.players && TankIn(Drained(g), name) == TankIn(g, name)
  {
    DrainedIs(g);
    hide Drained, Doomed;
  }

  /** The entries of a tank that only ticks change. */
  predicate SamePlace(g: Game, h: Game, name: string) {
    && Aligned(g) && Aligned(h) && name in g.players && name in h.players
    && h.locations[name] == g.locations[name] && h.rotations[name] == g.rotations[name]
    && h.speeds[name] == g.speeds[name] && h.turnSpeeds[name] == g.turnSpeeds[name]
  }

  /** No handler moves a tank that is there. */
  lemma HandlerTank(g: Game, h: Game, name: string)
    requires Inv(g) && HandlerStep(g, h) && name in g.players && name in h.players
    ensures Inv(h) && SamePlace(g, h, name)
  {
    HandlerKeeps(g, h);
    hide OnMessage, Effect, Inv;
    assert Aligned(g) && Aligned(h);
    if fd :| h == OnDisconnected(g, fd) {
    } else {
      var fd, msg, stod :| h == OnMessage(g, fd, msg, stod);
      MessageEffect(g, fd, msg, stod);
      EffectPlace(g, h, name);
    }
  }

  lemma EffectPlace(g: Game, h: Game, name: string)
    requires Effect(g, h) && Aligned(g) && Aligned(h) && name in g.players && name in h.players
    ensures SamePlace(g, h, name)
  {}

  // ----- Holding a key

  ghost predicate HeldStep(g: Game, h: Game, tick: bool, name: string, key: string -> bool, cos: real -> real, sin: real -> real) {
    && name in g.players && name in h.players
    && if tick then key(g.players[name].input) && IsTick(g, h, cos, sin) else HandlerStep(g, h)
  }

  /** A stretch of ticks and handlers: the tank is there throughout, and whenever a tick starts its input satisfies `key`. */
  ghost predicate Held(games: seq<Game>, ticks: seq<bool>, name: string, key: string -> bool, cos: real -> real, sin: real -> real) {
    && |games| == |ticks| + 1 && name in games[0].players
    && forall i :: 0 <= i < |ticks| ==> HeldStep(games[i], games[i + 1], ticks[i], name, key, cos, sin)
  }

  lemma HeldRest(games: seq<Game>, ticks: seq<bool>, name: string, key: string -> bool, cos: real -> real, sin: real -> real)
    requires Held(games, ticks, name, key, cos, sin) && ticks != []
    ensures HeldStep(games[0], games[1], ticks[0], name, key, cos, sin)
    ensures Held(games[1..], ticks[1..], name, key, cos, sin) && games[1..][|ticks| - 1] == games[|ticks|]
  {
    hide HeldStep;
    assert HeldStep(games[0], games[1], ticks[0], name, key, cos, sin);
    assert name in games[1].players by {
      HeldThere(games[0], games[1], ticks[0], name, key, cos, sin);
    }
    forall i | 0 <= i < |ticks[1..]|
      ensures HeldStep(games[1..][i], games[1..][i + 1], ticks[1..][i], name, key, cos, sin)
    {
      assert HeldStep(games[i + 1], games[i + 2], ticks[i + 1], name, key, cos, sin);
    }
  }

  lemma HeldThere(g: Game, h: Game, tick: bool, name: string, key: string -> bool, cos: real -> real, sin: real -> real)
    requires HeldStep(g, h, tick, name, key, cos, sin)
    ensures name in g.players && name in h.players
  {}

  // ----- Driving

  predicate Straight(input: string) {
    CharAt(input, 1) != 'l' && CharAt(input, 1) != 'r'
  }

  /** Accelerating straight on: forwards, or backwards. */
  predicate Pushes(input: string, forwards: bool) {
    Straight(input) && CharAt(input, 0) == if forwards then 'f' else 'b'
  }

  /** Rolling out straight on. */
  predicate Rolls(input: string) {
    Straight(input) && CharAt(input, 0) != 'f' && CharAt(input, 0) != 'b'
  }

  /** Inputs that drive the tank so. */
  ghost predicate Drive(key: string -> bool, forwards: bool, pushed: bool) {
    forall input: string {:trigger key(input)} :: key(input) ==> if pushed then Pushes(input, forwards) else Rolls(input)
  }

  /** Accelerations after one more tick: at most 200 when pushed, fewer by one when rolling. */
  function After(pushed: bool, u: int): int {
    if pushed then if u < 200 then u + 1 else u else if u > 0 then u - 1 else 0
  }

  /** The accelerations of `k` ticks, added up. */
  function Way(pushed: bool, u: int, k: nat): int
    decreases k
  {
    if k == 0 then 0 else After(pushed, u) + Way(pushed, After(pushed, u), k - 1)
  }

  function Final(pushed: bool, u: int, k: nat): int
    decreases k
  {
    if k == 0 then u else Final(pushed, After(pushed, u), k - 1)
  }

  function Sign(forwards: bool): real {
    if forwards then 1.0 else -1.0
  }

  /** The tank has so many accelerations in the direction. */
  predicate Runs(g: Game, name: string, forwards: bool, u: int) {
    name in g.speeds && g.speeds[name] == Sign(forwards) * (u as real * 0.05)
  }

  /** The place a way from `p` in the direction of a rotation, whose cosine and sine are `c` and `s`. */
  function Along(p: Point, way: real, c: real, s: real): Point {
    Point(p.x + way * c, p.y - way * s)
  }

  /** The place so many accelerations away. */
  function Far(p: Point, forwards: bool, n: int, c: real, s: real): Point {
    Along(p, Sign(forwards) * (n as real * 0.05), c, s)
  }

  lemma SpeedOf(speed: real, direction: char, forwards: bool, pushed: bool, u: int)
    requires speed == Sign(forwards) * (u as real * 0.05) && (if pushed then -200 <= u <= 200 else u >= 0)
    requires if pushed then direction == (if forwards then 'f' else 'b') else direction != 'f' && direction != 'b'
    ensures NextSpeed(speed, direction) == Sign(forwards) * (After(pushed, u) as real * 0.05)
  {}

  lemma AlongTwice(p: Point, a: real, b: real, c: real, s: real)
    ensures Along(Along(p, a, c, s), b, c, s) == Along(p, a + b, c, s)
  {
    assert a * c + b * c == (a + b) * c && a * s + b * s == (a + b) * s;
  }

  lemma MovesAlong(t: Tank, forwards: bool, pushed: bool, u: int, cos: real -> real, sin: real -> real)
    requires t.speed == Sign(forwards) * (u as real * 0.05) && (if pushed then -200 <= u <= 200 else u >= 0)
    requires if pushed then Pushes(t.player.input, forwards) else Rolls(t.player.input)
    ensures var next := NextTank(t, cos, sin);
      && next.rotation == t.rotation
      && next.speed == Sign(forwards) * (After(pushed, u) as real * 0.05)
      && next.location == Far(t.location, forwards, After(pushed, u), cos(t.rotation), sin(t.rotation))
  {
    SpeedOf(t.speed, CharAt(t.player.input, 0), forwards, pushed, u);
    hide NextSpeed, NextTurn, NextLocation, Along, Sign, After;
    MovesOn(t.location, NextTank(t, cos, sin).speed, t.rotation, cos, sin);
  }

  lemma MovesOn(p: Point, speed: real, r: real, cos: real -> real, sin: real -> real)
    ensures NextLocation(p, speed, r, cos, sin) == Along(p, speed, cos(r), sin(r))
  {
    var v := sin(r);
    assert speed * -1.0 * v == -(speed * v);
  }

  /** One tick or handler. */
  lemma DriveStep(g: Game, h: Game, tick: bool, name: string, key: string -> bool, forwards: bool, pushed: bool, u: int,
                  cos: real -> real, sin: real -> real)
    requires Inv(g) && HeldStep(g, h, tick, name, key, cos, sin) && Runs(g, name, forwards, u)
    requires Drive(key, forwards, pushed)
    requires if pushed then -200 <= u <= 200 else u >= 0
    ensures Inv(h) && name in g.rotations && name in g.locations && name in h.rotations && name in h.locations
    ensures var v := if tick then After(pushed, u) else u;
      && h.rotations[name] == g.rotations[name] && Runs(h, name, forwards, v)
      && h.locations[name] == if tick then Far(g.locations[name], forwards, v, cos(g.rotations[name]), sin(g.rotations[name]))
                              else g.locations[name]
  {
    hide Inv, Aligned, HandlerStep, IsTick, Pushes, Rolls, Far, Sign, After, Drive;
    InvAligned(g);
    if tick {
      assert if pushed then Pushes(g.players[name].input, forwards) else Rolls(g.players[name].input) by {
        DriveMeans(key, forwards, pushed, g.players[name].input);
      }
      DriveTick(g, h, name, forwards, pushed, u, cos, sin);
    } else {
      HandlerTank(g, h, name);
    }
    InvAligned(h);
  }

  lemma DriveMeans(key: string -> bool, forwards: bool, pushed: bool, input: string)
    requires Drive(key, forwards, pushed) && key(input)
    ensures if pushed then Pushes(input, forwards) else Rolls(input)
  {}

  lemma DriveTick(g: Game, h: Game, name: string, forwards: bool, pushed: bool, u: int, cos: real -> real, sin: real -> real)
    requires Inv(g) && Aligned(g) && IsTick(g, h, cos, sin) && name in g.players && name in h.players && Runs(g, name, forwards, u)
    requires if pushed then Pushes(g.players[name].input, forwards) else Rolls(g.players[name].input)
    requires if pushed then -200 <= u <= 200 else u >= 0
    ensures Inv(h) && Aligned(h) && h.rotations[name] == g.rotations[name] && Runs(h, name, forwards, After(pushed, u))
    ensures h.locations[name] == Far(g.locations[name], forwards, After(pushed, u), cos(g.rotations[name]), sin(g.rotations[name]))
  {
    hide Inv, NextTank, IsTick, Pushes, Rolls, Far, Sign, After;
    TickTank(g, h, cos, sin, name);
    MovesAlong(TankIn(g, name), forwards, pushed, u, cos, sin);
  }

  lemma InvAligned(g: Game)
    requires Inv(g)
    ensures Aligned(g)
    ensures forall name <- g.players :: name in g.locations && name in g.rotations && name in g.speeds && name in g.turnSpeeds
  {}

  /** A tank that is pushed, or rolls out, goes straight on by the speeds of its ticks, added up. */
  lemma {:induction false} Drives(games: seq<Game>, ticks: seq<bool>, name: string, key: string -> bool, forwards: bool, pushed: bool,
                                  u: int, cos: real -> real, sin: real -> real)
    requires Held(games, ticks, name, key, cos, sin) && Inv(games[0]) && Runs(games[0], name, forwards, u)
    requires Drive(key, forwards, pushed)
    requires if pushed then -200 <= u <= 200 else u >= 0
    ensures var g, h, k := games[0], games[|ticks|], Count(ticks);
      && name in g.rotations && name in g.locations && name in h.rotations && name in h.locations
      && h.rotations[name] == g.rotations[name] && Runs(h, name, forwards, Final(pushed, u, k))
      && h.locations[name] == Far(g.locations[name], forwards, Way(pushed, u, k), cos(g.rotations[name]), sin(g.rotations[name]))
    decreases |ticks|
  {
    hide Inv, HeldStep, Far, Drive, Runs, Way, Final;
    var g := games[0];
    if ticks == [] {
      StaysHere(g, name, forwards, pushed, u, cos, sin);
    } else {
      HeldRest(games, ticks, name, key, cos, sin);
      hide Held;
      DriveStep(g, games[1], ticks[0], name, key, forwards, pushed, u, cos, sin);
      var v := if ticks[0] then After(pushed, u) else u;
      Drives(games[1..], ticks[1..], name, key, forwards, pushed, v, cos, sin);
      if ticks[0] {
        WayMore(g.locations[name], pushed, u, Count(ticks[1..]), forwards, cos(g.rotations[name]), sin(g.rotations[name]));
      }
    }
  }

  lemma StaysHere(g: Game, name: string, forwards: bool, pushed: bool, u: int, cos: real -> real, sin: real -> real)
    requires Inv(g) && name in g.players
    ensures name in g.rotations && name in g.locations && Final(pushed, u, 0) == u
    ensures g.locations[name] == Far(g.locations[name], forwards, Way(pushed, u, 0), cos(g.rotations[name]), sin(g.rotations[name]))
  {
    InvAligned(g);
    hide Inv;
    assert Way(pushed, u, 0) == 0;
  }

  lemma WayMore(p: Point, pushed: bool, u: int, k: nat, forwards: bool, c: real, s: real)
    ensures var v := After(pushed, u);
      Far(Far(p, forwards, v, c, s), forwards, Way(pushed, v, k), c, s) == Far(p, forwards, Way(pushed, u, k + 1), c, s)
    ensures Final(pushed, u, k + 1) == Final(pushed, After(pushed, u), k)
  {
    var v := After(pushed, u);
    AlongTwice(p, Sign(forwards) * (v as real * 0.05), Sign(forwards) * (Way(pushed, v, k) as real * 0.05), c, s);
  }

  lemma {:induction false} PushedWay(u: int, k: nat)
    requires u + k <= 200
    ensures 2 * Way(true, u, k) == k * (2 * u + k + 1) && Final(true, u, k) == u + k
    decreases k
  {
    if k > 0 {
      PushedWay(u + 1, k - 1);
    }
  }

  lemma {:induction false} RolledWay(u: nat, k: nat)
    requires k >= u
    ensures 2 * Way(false, u, k) == u * (u - 1) && Final(false, u, k) == 0
    decreases k
  {
    if u > 0 {
      RolledWay(u - 1, k - 1);
    } else if k > 0 {
      RolledWay(0, k - 1);
    }
  }

  lemma {:induction false} FullWay(k: nat)
    ensures Way(true, 200, k) == 200 * k && Final(true, 200, k) == 200
    decreases k
  {
    if k > 0 {
      FullWay(k - 1);
    }
  }

  /** From rest at rotation r, `k` ticks forwards or backwards move a tank by 0.05 * k * (k + 1) / 2 along (cos r, -sin r). */
  lemma FromRest(games: seq<Game>, ticks: seq<bool>, name: string, forwards: bool, cos: real -> real, sin: real -> real)
    requires Held(games, ticks, name, (input: string) => Pushes(input, forwards), cos, sin) && Inv(games[0])
    requires name in games[0].speeds && games[0].speeds[name] == 0.0 && Count(ticks) <= 200
    ensures var g, h, k := games[0], games[|ticks|], Count(ticks) as real;
      && name in g.rotations && name in g.locations && name in h.rotations && name in h.locations && name in h.speeds
      && var way := Sign(forwards) * (0.05 * (k * (k + 1.0) / 2.0));
         && h.locations[name].x == g.locations[name].x + way * cos(g.rotations[name])
         && h.locations[name].y == g.locations[name].y - way * sin(g.rotations[name])
         && h.rotations[name] == g.rotations[name] && h.speeds[name] == Sign(forwards) * (0.05 * k)
  {
    hide Inv, HeldStep, Way, Final, Pushes, Count, Far, Sign;
    var g, k := games[0], Count(ticks);
    ZeroRuns(g, name, forwards);
    Drives(games, ticks, name, (input: string) => Pushes(input, forwards), forwards, true, 0, cos, sin);
    PushedWay(0, k);
    FarFromRest(g.locations[name], forwards, k, Way(true, 0, k), cos(g.rotations[name]), sin(g.rotations[name]));
    SpeedFromRest(games[|ticks|], name, forwards, k);
  }

  lemma ZeroRuns(g: Game, name: string, forwards: bool)
    requires name in g.speeds && g.speeds[name] == 0.0
    ensures Runs(g, name, forwards, 0)
  {}

  lemma SpeedFromRest(g: Game, name: string, forwards: bool, k: nat)
    requires Runs(g, name, forwards, k)
    ensures name in g.speeds && g.speeds[name] == Sign(forwards) * (0.05 * k as real)
  {}

  lemma FarFromRest(p: Point, forwards: bool, k: nat, w: int, c: real, s: real)
    requires 2 * w == k * (k + 1)
    ensures var way := Sign(forwards) * (0.05 * (k as real * (k as real + 1.0) / 2.0));
      Far(p, forwards, w, c, s).x == p.x + way * c && Far(p, forwards, w, c, s).y == p.y - way * s
  {
    HalfWay(k, w);
    hide Sign;
  }

  lemma HalfWay(k: nat, w: int)
    requires 2 * w == k * (k + 1)
    ensures w as real * 0.05 == 0.05 * (k as real * (k as real + 1.0) / 2.0)
  {
    assert (k * (k + 1)) as real == k as real * (k as real + 1.0);
    assert (2 * w) as real == 2.0 * w as real;
  }

  /** Every tick moves a tank by its new speed in the direction of its new rotation, whatever its input. */
  lemma TickMoves(g: Game, h: Game, cos: real -> real, sin: real -> real, name: string)
    requires Inv(g) && IsTick(g, h, cos, sin) && name in g.players && name in h.players
    ensures name in g.locations && name in h.locations && name in h.speeds && name in h.rotations
    ensures h.locations[name] == Along(g.locations[name], h.speeds[name], cos(h.rotations[name]), sin(h.rotations[name]))
    ensures h.players[name].input == g.players[name].input
  {
    InvAligned(g);
    hide Inv, IsTick, NextTank, Along;
    TickTank(g, h, cos, sin, name);
    InvAligned(h);
    NextMoves(TankIn(g, name), cos, sin);
  }

  lemma NextMoves(t: Tank, cos: real -> real, sin: real -> real)
    ensures var next := NextTank(t, cos, sin);
      next.location == Along(t.location, next.speed, cos(next.rotation), sin(next.rotation)) && next.player.input == t.player.input
  {
    hide NextSpeed, NextTurn, NextRotation, NextLocation, Along;
    var next := NextTank(t, cos, sin);
    MovesOn(t.location, next.speed, next.rotation, cos, sin);
  }

  // ----- Turning

  predicate Steers(input: string, left: bool) {
    CharAt(input, 1) == if left then 'l' else 'r'
  }

  ghost predicate Steering(key: string -> bool, turning: bool, left: bool) {
    forall input: string {:trigger key(input)} :: key(input) ==> if turning then Steers(input, left) else Straight(input)
  }

  /** Turn accelerations after one more tick: at most 100 while turning, fewer by one when not. */
  function TurnAfter(turning: bool, v: int): int {
    if turning then if v < 100 then v + 1 else v else if v > 0 then v - 1 else 0
  }

  function Turned(v: int, k: nat): int
    decreases k
  {
    if k == 0 then 0 else TurnAfter(true, v) + Turned(TurnAfter(true, v), k - 1)
  }

  function TurnFinal(turning: bool, v: int, k: nat): int
    decreases k
  {
    if k == 0 then v else TurnFinal(turning, TurnAfter(turning, v), k - 1)
  }

  predicate Spins(g: Game, name: string, v: int) {
    name in g.turnSpeeds && g.turnSpeeds[name] == v as real * 0.0005
  }

  lemma SteersOnce(t: Tank, turning: bool, left: bool, v: int, cos: real -> real, sin: real -> real)
    requires t.turnSpeed == v as real * 0.0005 && 0 <= v <= 100
    requires if turning then Steers(t.player.input, left) else Straight(t.player.input)
    ensures var next := NextTank(t, cos, sin);
      && next.turnSpeed == TurnAfter(turning, v) as real * 0.0005
      && next.rotation == if turning then t.rotation + Sign(left) * next.turnSpeed else t.rotation
  {
    hide NextSpeed, NextLocation;
  }

  lemma SteerStep(g: Game, h: Game, tick: bool, name: string, key: string -> bool, turning: bool, left: bool, v: int,
                  cos: real -> real, sin: real -> real)
    requires Inv(g) && HeldStep(g, h, tick, name, key, cos, sin) && Spins(g, name, v) && 0 <= v <= 100
    requires Steering(key, turning, left)
    ensures Inv(h) && name in g.rotations && name in h.rotations
    ensures var w := if tick then TurnAfter(turning, v) else v;
      && Spins(h, name, w)
      && h.rotations[name] == if tick && turning then g.rotations[name] + Sign(left) * (w as real * 0.0005) else g.rotations[name]
  {
    hide Inv, NextTank, HandlerStep, IsTick, Steers, Straight;
    InvAligned(g);
    if tick {
      TickTank(g, h, cos, sin, name);
      SteersOnce(TankIn(g, name), turning, left, v, cos, sin);
    } else {
      HandlerTank(g, h, name);
    }
    InvAligned(h);
  }

  /** A tank that holds a turning key turns by its turn speeds, added up; without one it keeps its rotation and loses turn speed. */
  lemma {:induction false} Turns(games: seq<Game>, ticks: seq<bool>, name: string, key: string -> bool, turning: bool, left: bool, v: int,
                                 cos: real -> real, sin: real -> real)
    requires Held(games, ticks, name, key, cos, sin) && Inv(games[0]) && Spins(games[0], name, v) && 0 <= v <= 100
    requires Steering(key, turning, left)
    ensures var g, h, k := games[0], games[|ticks|], Count(ticks);
      && name in g.rotations && name in h.rotations && Spins(h, name, TurnFinal(turning, v, k))
      && h.rotations[name] == g.rotations[name] + (if turning then Sign(left) * (Turned(v, k) as real * 0.0005) else 0.0)
    decreases |ticks|
  {
    hide Inv, HeldStep, Steering, Spins;
    if ticks == [] {
      InvAligned(games[0]);
    } else {
      HeldRest(games, ticks, name, key, cos, sin);
      hide Held;
      SteerStep(games[0], games[1], ticks[0], name, key, turning, left, v, cos, sin);
      Turns(games[1..], ticks[1..], name, key, turning, left, if ticks[0] then TurnAfter(turning, v) else v, cos, sin);
    }
  }

  lemma {:induction false} TurnedWay(v: nat, k: nat)
    requires v + k <= 100
    ensures 2 * Turned(v, k) == k * (2 * v + k + 1) && TurnFinal(true, v, k) == v + k
    decreases k
  {
    if k > 0 {
      TurnedWay(v + 1, k - 1);
    }
  }

  /** Without turn speed, `k` ticks of `l` or `r` turn a tank by 0.0005 * k * (k + 1) / 2. */
  lemma TurnFromRest(games: seq<Game>, ticks: seq<bool>, name: string, left: bool, cos: real -> real, sin: real -> real)
    requires Held(games, ticks, name, (input: string) => Steers(input, left), cos, sin) && Inv(games[0])
    requires name in games[0].turnSpeeds && games[0].turnSpeeds[name] == 0.0 && Count(ticks) <= 100
    ensures var g, h, k := games[0], games[|ticks|], Count(ticks) as real;
      && name in g.rotations && name in h.rotations && name in h.turnSpeeds
      && h.rotations[name] == g.rotations[name] + Sign(left) * (0.0005 * (k * (k + 1.0) / 2.0))
      && h.turnSpeeds[name] == 0.0005 * k
  {
    hide Inv, Held, Turned, TurnFinal, Steers, Count;
    var key := (input: string) => Steers(input, left);
    Turns(games, ticks, name, key, true, left, 0, cos, sin);
    TurnedWay(0, Count(ticks));
    HalfTurn(Count(ticks), Turned(0, Count(ticks)));
  }

  lemma HalfTurn(k: nat, w: int)
    requires 2 * w == k * (k + 1)
    ensures w as real * 0.0005 == 0.0005 * (k as real * (k as real + 1.0) / 2.0)
  {
    assert (k * (k + 1)) as real == k as real * (k as real + 1.0);
    assert (2 * w) as real == 2.0 * w as real;
  }

  // ----- What the players see

  /** The public record of every tank shows where it is and how it moves. */
  predicate Shown(g: Game) {
    && Aligned(g)
    && forall name <- g.players ::
         var p, t := g.players[name], TankIn(g, name);
         Point(p.x, p.y) == t.location && p.s == t.speed && p.r == t.rotation && p.ts == t.turnSpeed
  }

  lemma InputShown(g: Game, tank: string, input: string)
    requires Shown(g) && tank in g.players
    ensures Shown(g.(players := g.players[tank := g.players[tank].(input := input)]))
  {}

  lemma SpawnShown(g: Game, tank: string, at: Point)
    requires Shown(g) && tank !in g.players
    ensures Shown(Spawn(g, tank, at))
  {}

  lemma QueueShown(g: Game, clients: map<int, string>, queue: seq<Event>)
    requires Shown(g)
    ensures Shown(g.(clients := clients, queue := queue))
  {}

  lemma MessageShown(g: Game, fd: int, msg: Json, stod: string -> real)
    requires Shown(g)
    ensures Shown(OnMessage(g, fd, msg, stod))
  {
    hide Shown, Spawn;
    var h := OnMessage(g, fd, msg, stod);
    if HasText(msg, "handle") && HasText(msg, "i") {
      if TankOf(msg.obj["handle"].str) in g.players {
        InputShown(g, TankOf(msg.obj["handle"].str), msg.obj["i"].str);
      }
    } else if HasText(msg, "announce") {
      QueueShown(g, h.clients, h.queue);
    } else if HasText(msg, "handle") && HasText(msg, "x") && HasText(msg, "y") {
      if TankOf(msg.obj["handle"].str) !in g.players {
        SpawnShown(g, TankOf(msg.obj["handle"].str), Point(stod(msg.obj["x"].str), stod(msg.obj["y"].str)));
      }
    }
  }

  lemma MoveShown(g: Game, h: Game, cos: real -> real, sin: real -> real)
    requires MovedBut(g, h, {}, cos, sin)
    ensures Shown(h)
  {
    hide NextSpeed, NextTurn, NextRotation, NextLocation;
    forall name <- h.players
      ensures var p, t := h.players[name], TankIn(h, name);
        Point(p.x, p.y) == t.location && p.s == t.speed && p.r == t.rotation && p.ts == t.turnSpeed
    {
      assert TankIn(h, name) == NextTank(TankIn(g, name), cos, sin);
    }
  }

  /** In every state of every run the public records are up to date. */
  lemma {:induction false} RunShown(games: seq<Game>, i: nat)
    requires Run(games) && i < |games|
    ensures Shown(games[i])
    decreases i
  {
    if i > 0 {
      RunShown(games, i - 1);
      var g, h := games[i - 1], games[i];
      assert Step(g, h);
      hide Shown, Run;
      StepShown(g, h);
    }
  }

  lemma StepShown(g: Game, h: Game)
    requires Shown(g) && Step(g, h)
    ensures Shown(h)
  {
    hide OnMessage, Drained, MovedBut, Announces;
    if fd :| h == OnDisconnected(g, fd) {
    } else if fd, msg, stod :| h == OnMessage(g, fd, msg, stod) {
      MessageShown(g, fd, msg, stod);
    } else {
      var cos, sin :| IsTick(g, h, cos, sin);
      var m :| TickVia(g, m, h, cos, sin);
      MoveShown(m, h, cos, sin);
    }
  }

  /** `name` came up by this message, at the message's place, standing still without direction. */
  predicate SpawnedBy(h: Game, name: string, msg: Json, stod: string -> real) {
    && HasText(msg, "handle") && HasText(msg, "x") && HasText(msg, "y") && name == TankOf(msg.obj["handle"].str)
    && name in h.locations && h.locations[name] == Point(stod(msg.obj["x"].str), stod(msg.obj["y"].str))
    && name in h.speeds && h.speeds[name] == 0.0 && name in h.rotations && h.rotations[name] == 0.0
    && name in h.turnSpeeds && h.turnSpeeds[name] == 0.0 && name in h.players && h.players[name].input == "nn"
  }

  lemma MessageSpawns(g: Game, fd: int, msg: Json, stod: string -> real, name: string)
    requires Aligned(g) && name !in g.players && name in OnMessage(g, fd, msg, stod).players
    ensures SpawnedBy(OnMessage(g, fd, msg, stod), name, msg, stod)
  {}

  lemma TickSpawnsNone(g: Game, h: Game, cos: real -> real, sin: real -> real)
    requires IsTick(g, h, cos, sin)
    ensures h.players.Keys <= g.players.Keys
  {
    var m :| TickVia(g, m, h, cos, sin);
    DrainedIs(g);
    hide Drained, Doomed, Announces, NextTank;
  }

  /** A tank comes up only by a message with its handle and place. */
  lemma Spawned(g: Game, h: Game, name: string)
    requires Inv(g) && Step(g, h) && name !in g.players && name in h.players
    ensures exists fd, msg, stod :: h == OnMessage(g, fd, msg, stod) && SpawnedBy(h, name, msg, stod)
  {
    InvAligned(g);
    hide Inv, Aligned, OnMessage, OnDisconnected, IsTick, SpawnedBy;
    if TickStep(g, h) {
      var cos, sin :| IsTick(g, h, cos, sin);
      TickSpawnsNone(g, h, cos, sin);
    } else if fd :| h == OnDisconnected(g, fd) {
      DisconnectSpawnsNone(g, fd);
    } else {
      var fd, msg, stod :| h == OnMessage(g, fd, msg, stod);
      MessageSpawns(g, fd, msg, stod, name);
      assert h == OnMessage(g, fd, msg, stod) && SpawnedBy(h, name, msg, stod);
    }
  }

  lemma DisconnectSpawnsNone(g: Game, fd: int)
    ensures OnDisconnected(g, fd).players == g.players
  {}

  // ----- What messages and departures do

  /** A message changes the input of the tank it names, and of no other; a tank that is there stays. */
  lemma InputTaken(g: Game, fd: int, msg: Json, stod: string -> real, name: string)
    requires name in g.players
    ensures var h := OnMessage(g, fd, msg, stod);
      && name in h.players
      && h.players[name].input ==
           if HasText(msg, "handle") && HasText(msg, "i") && name == msg.obj["handle"].str + "tank" then msg.obj["i"].str
           else g.players[name].input
  {
    SpawnsOthers(g, name);
    hide Spawn;
    if HasText(msg, "handle") && HasText(msg, "i") {
      assert TankOf(msg.obj["handle"].str) == msg.obj["handle"].str + "tank";
    }
  }

  lemma SpawnsOthers(g: Game, name: string)
    requires name in g.players
    ensures forall tank, at {:trigger Spawn(g, tank, at)} :: tank != name ==>
      name in Spawn(g, tank, at).players && Spawn(g, tank, at).players[name] == g.players[name]
  {}

  /** The first announcement of a connection, and no later one, gives its player's name. */
  lemma AnnouncementTaken(g: Game, fd: int, msg: Json, stod: string -> real, client: int)
    ensures var h := OnMessage(g, fd, msg, stod);
      && (client in g.clients ==> client in h.clients && h.clients[client] == g.clients[client])
      && (client !in g.clients ==>
            (client in h.clients <==>
               client == fd && HasText(msg, "announce") && !(HasText(msg, "handle") && HasText(msg, "i")))
            && (client in h.clients ==> h.clients[client] == msg.obj["announce"].str))
  {}

  /** When a player who announced a name disconnects, the next drain takes his tank away, and nothing else with it. */
  lemma LeaverRemoved(g: Game, fd: int, name: string)
    requires Inv(g) && fd in g.clients
    ensures var h := OnDisconnected(g, fd);
      && fd !in h.clients
      && (name in Drained(h).players <==> name in Drained(g).players && name != g.clients[fd] + "tank")
      && (name in Drained(h).players ==> Aligned(Drained(h)) && Aligned(Drained(g)) && TankIn(Drained(h), name) == TankIn(Drained(g), name))
  {
    var h := OnDisconnected(g, fd);
    InvAligned(g);
    DisconnectKeeps(g, fd);
    InvAligned(h);
    hide Inv, Drained;
    DrainedIs(g);
    DrainedIs(h);
    DrainedAligned(g);
    DrainedAligned(h);
    DoomedLast(g.queue, Disconnected(g.clients[fd]));
  }

  lemma {:induction false} DoomedLast(queue: seq<Event>, e: Event)
    requires e.Disconnected?
    ensures Doomed(queue + [e]) == Doomed(queue) + {e.player + "tank"}
    decreases queue
  {
    if queue == [] {
      assert [] + [e] == [e] && [e][1..] == [];
    } else {
      assert (queue + [e])[1..] == queue[1..] + [e] && (queue + [e])[0] == queue[0];
      DoomedLast(queue[1..], e);
    }
  }
}
