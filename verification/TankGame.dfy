/** The tank game: five maps that move in step, an event queue, and a tick that drains, tests and moves. */
module TankGame {
  import opened Text
  import opened TankGeometry
  import opened JsonScan

  const MAX_SPEED := 10.0
  const ACCELERATION := 0.05
  const MAX_TURN := 0.05
  const TURN_ACCELERATION := 0.0005

  datatype Event = Connected(player: string) | Disconnected(player: string) | Destroyed(tank: string)

  /** The public record of a player's tank; numbers stand for their printed text. */
  datatype Player = Player(input: string, x: real, y: real, s: real, r: real, ts: real)

  datatype Game = Game(
    locations: map<string, Point>, rotations: map<string, real>, speeds: map<string, real>,
    turnSpeeds: map<string, real>, players: map<string, Player>,
    clients: map<int, string>, queue: seq<Event>)

  const EMPTY := Game(map[], map[], map[], map[], map[], map[], [])

  function TankOf(player: string): string {
    player + "tank"
  }

  // ----- Handlers

  function RemoveAll(g: Game, tanks: set<string>): Game {
    g.(locations := g.locations - tanks, rotations := g.rotations - tanks, speeds := g.speeds - tanks,
       turnSpeeds := g.turnSpeeds - tanks, players := g.players - tanks)
  }

  function Remove(g: Game, tank: string): Game {
    RemoveAll(g, {tank})
  }

  function Spawn(g: Game, tank: string, at: Point): Game {
    g.(locations := if tank in g.locations then g.locations else g.locations[tank := at],
       rotations := if tank in g.rotations then g.rotations else g.rotations[tank := 0.0],
       speeds := if tank in g.speeds then g.speeds else g.speeds[tank := 0.0],
       turnSpeeds := if tank in g.turnSpeeds then g.turnSpeeds else g.turnSpeeds[tank := 0.0],
       players := g.players[tank := Player("nn", at.x, at.y, 0.0, 0.0, 0.0)])
  }

  function OnDisconnected(g: Game, fd: int): Game {
    if fd in g.clients then g.(queue := g.queue + [Disconnected(g.clients[fd])], clients := g.clients - {fd})
    else g
  }

  predicate HasText(msg: Json, key: string) {
    key in msg.obj && msg.obj[key].kind == String
  }

  /** `stod` reads a coordinate. */
  function OnMessage(g: Game, fd: int, msg: Json, stod: string -> real): Game {
    if HasText(msg, "handle") && HasText(msg, "i") then
      var tank := TankOf(msg.obj["handle"].str);
      if tank in g.players then g.(players := g.players[tank := g.players[tank].(input := msg.obj["i"].str)]) else g
    else if HasText(msg, "announce") then
      var player := msg.obj["announce"].str;
      if fd in g.clients then g else g.(clients := g.clients[fd := player], queue := g.queue + [Connected(player)])
    else if HasText(msg, "handle") && HasText(msg, "x") && HasText(msg, "y") then
      var tank := TankOf(msg.obj["handle"].str);
      if tank in g.players then g else Spawn(g, tank, Point(stod(msg.obj["x"].str), stod(msg.obj["y"].str)))
    else g
  }

  // ----- The tick

  function Handle(g: Game, e: Event): Game {
    match e
    case Connected(_) => g
    case Disconnected(player) => Remove(g, TankOf(player))
    case Destroyed(tank) => Remove(g, tank)
  }

  function Drained(g: Game): Game
    decreases |g.queue|
  {
    if g.queue == [] then g else Drained(Handle(g.(queue := g.queue[1..]), g.queue[0]))
  }

  /** The tanks that another tank collides with. */
  ghost predicate Overlaps(locations: map<string, Point>, a: string) {
    a in locations && exists b :: b in locations && b != a && Collides(TankAt(locations[a]), TankAt(locations[b]))
  }

  /** `events` announce every overlapping tank, and nothing else. */
  ghost predicate Announces(events: seq<Event>, locations: map<string, Point>) {
    && (forall i :: 0 <= i < |events| ==> events[i].Destroyed? && Overlaps(locations, events[i].tank))
    && (forall a :: Overlaps(locations, a) ==> Destroyed(a) in events)
  }

  function NextSpeed(s: real, direction: char): real {
    if direction == 'f' then if s < MAX_SPEED then s + ACCELERATION else s
    else if direction == 'b' then if s > -MAX_SPEED then s - ACCELERATION else s
    else if -ACCELERATION <= s <= ACCELERATION then 0.0
    else if s > 0.0 then s - ACCELERATION
    else s + ACCELERATION
  }

  function NextTurn(t: real, turn: char): real {
    if turn == 'l' || turn == 'r' then if t < MAX_TURN then t + TURN_ACCELERATION else t
    else if t <= TURN_ACCELERATION then 0.0
    else t - TURN_ACCELERATION
  }

  function NextRotation(r: real, t: real, turn: char): real {
    if turn == 'l' then r + t else if turn == 'r' then r - t else r
  }

  function NextLocation(p: Point, s: real, r: real, cos: real -> real, sin: real -> real): Point {
    Point(p.x + s * cos(r), p.y + s * -1.0 * sin(r))
  }

  function CharAt(s: string, k: nat): char {
    if k < |s| then s[k] else NUL
  }

  /** The five maps hold the same tanks. */
  predicate Aligned(g: Game) {
    g.locations.Keys == g.rotations.Keys == g.speeds.Keys == g.turnSpeeds.Keys == g.players.Keys
  }

  /** One tank's entries in the five maps. */
  datatype Tank = Tank(location: Point, rotation: real, speed: real, turnSpeed: real, player: Player)

  function TankIn(g: Game, name: string): Tank
    requires Aligned(g) && name in g.players
  {
    Tank(g.locations[name], g.rotations[name], g.speeds[name], g.turnSpeeds[name], g.players[name])
  }

  function NextTank(t: Tank, cos: real -> real, sin: real -> real): Tank {
    var input := t.player.input;
    var s := NextSpeed(t.speed, CharAt(input, 0));
    var ts := NextTurn(t.turnSpeed, CharAt(input, 1));
    var r := NextRotation(t.rotation, ts, CharAt(input, 1));
    var p := NextLocation(t.location, s, r, cos, sin);
    Tank(p, r, s, ts, Player(input, p.x, p.y, s, r, ts))
  }

  function Put(g: Game, name: string, t: Tank): Game {
    g.(locations := g.locations[name := t.location], rotations := g.rotations[name := t.rotation],
       speeds := g.speeds[name := t.speed], turnSpeeds := g.turnSpeeds[name := t.turnSpeed],
       players := g.players[name := t.player])
  }

  /** Of the tanks of `g`, those outside `rest` have moved once in `h` and the others have not. */
  ghost predicate MovedBut(g: Game, h: Game, rest: set<string>, cos: real -> real, sin: real -> real) {
    && Aligned(g) && Aligned(h) && h.players.Keys == g.players.Keys && h.clients == g.clients && h.queue == g.queue
    && (forall name <- g.players ::
          TankIn(h, name) == if name in rest then TankIn(g, name) else NextTank(TankIn(g, name), cos, sin))
  }

  lemma OverlapsInside(locations: map<string, Point>)
    ensures forall a :: Overlaps(locations, a) ==> a in locations
  {}

  lemma NothingMoved(g: Game, cos: real -> real, sin: real -> real)
    requires Aligned(g)
    ensures MovedBut(g, g, g.players.Keys, cos, sin)
  {}

  lemma MovedOne(g: Game, h: Game, rest: set<string>, name: string, cos: real -> real, sin: real -> real)
    requires MovedBut(g, h, rest, cos, sin) && name in rest && rest <= g.players.Keys
    ensures Aligned(h) && name in h.players
    ensures var next := Put(h, name, NextTank(TankIn(h, name), cos, sin));
      Aligned(next) && next.players.Keys == h.players.Keys && MovedBut(g, next, rest - {name}, cos, sin)
  {
    hide NextTank;
    var next := Put(h, name, NextTank(TankIn(h, name), cos, sin));
    PutAligned(h, name, NextTank(TankIn(h, name), cos, sin));
    forall n <- g.players
      ensures TankIn(next, n) == if n in rest - {name} then TankIn(g, n) else NextTank(TankIn(g, n), cos, sin)
    {
      assert n != name ==> TankIn(next, n) == TankIn(h, n);
    }
  }

  lemma PutAligned(g: Game, name: string, t: Tank)
    requires Aligned(g) && name in g.players
    ensures Aligned(Put(g, name, t)) && Put(g, name, t).players.Keys == g.players.Keys
    ensures TankIn(Put(g, name, t), name) == t
  {}

  class Server {
    var locations: map<string, Point>
    var rotations: map<string, real>
    var speeds: map<string, real>
    var turnSpeeds: map<string, real>
    var players: map<string, Player>
    var clients: map<int, string>
    var queue: seq<Event>

    function State(): Game
      reads this
    {
      Game(locations, rotations, speeds, turnSpeeds, players, clients, queue)
    }

    constructor ()
      ensures State() == EMPTY
    {
      locations, rotations, speeds, turnSpeeds := map[], map[], map[], map[];
      players, clients, queue := map[], map[], [];
    }

    method OnDisconnect(fd: int)
      modifies this
      ensures State() == OnDisconnected(old(State()), fd)
    {
      if fd in clients {
        queue := queue + [Disconnected(clients[fd])];
        clients := clients - {fd};
      }
    }

    method OnRead(fd: int, msg: Json, stod: string -> real)
      modifies this
      ensures State() == OnMessage(old(State()), fd, msg, stod)
    {
      if HasText(msg, "handle") && HasText(msg, "i") {
        var tank := TankOf(msg.obj["handle"].str);
        if tank in players {
          players := players[tank := players[tank].(input := msg.obj["i"].str)];
        }
      } else if HasText(msg, "announce") {
        if fd !in clients {
          clients := clients[fd := msg.obj["announce"].str];
          queue := queue + [Connected(clients[fd])];
        }
      } else if HasText(msg, "handle") && HasText(msg, "x") && HasText(msg, "y") {
        var tank := TankOf(msg.obj["handle"].str);
        if tank !in players {
          var at := Point(stod(msg.obj["x"].str), stod(msg.obj["y"].str));
          if tank !in locations {
            locations := locations[tank := at];
          }
          if tank !in rotations {
            rotations := rotations[tank := 0.0];
          }
          if tank !in speeds {
            speeds := speeds[tank := 0.0];
          }
          if tank !in turnSpeeds {
            turnSpeeds := turnSpeeds[tank := 0.0];
          }
          players := players[tank := Player("nn", at.x, at.y, 0.0, 0.0, 0.0)];
        }
      }
    }

    method Erase(tank: string)
      modifies this
      ensures State() == Remove(old(State()), tank)
    {
      locations := locations - {tank};
      rotations := rotations - {tank};
      speeds := speeds - {tank};
      turnSpeeds := turnSpeeds - {tank};
      players := players - {tank};
    }

    method Drain()
      modifies this
      ensures State() == Drained(old(State()))
    {
      while queue != []
        invariant Drained(State()) == Drained(old(State()))
        decreases |queue|
      {
        var event := queue[0];
        queue := queue[1..];
        match event {
          case Connected(_) =>
          case Disconnected(player) => Erase(TankOf(player));
          case Destroyed(tank) => Erase(tank);
        }
      }
    }

    /** Tank `a` against every other tank: one event for each that it collides with. */
    method DetectFor(a: string) returns (ghost events: seq<Event>)
      requires a in locations
      modifies this`queue
      ensures queue == old(queue) + events
      ensures forall i :: 0 <= i < |events| ==> events[i] == Destroyed(a)
      ensures events != [] <==> Overlaps(locations, a)
    {
      events := [];
      var edgesA := TankAt(locations[a]);
      var rest := locations.Keys;
      while rest != {}
        invariant rest <= locations.Keys && queue == old(queue) + events
        invariant forall i :: 0 <= i < |events| ==> events[i] == Destroyed(a)
        invariant events != [] ==> Overlaps(locations, a)
        invariant forall b <- locations ::
          b !in rest && b != a && Collides(TankAt(locations[a]), TankAt(locations[b])) ==> events != []
        decreases rest
      {
        hide Collides;
        var b :| b in rest;
        rest := rest - {b};
        if a == b {
          continue;
        }
        var collision := Test(edgesA, TankAt(locations[b]));
        if collision {
          queue := queue + [Destroyed(a)];
          events := events + [Destroyed(a)];
        }
      }
    }

    /** All ordered pairs of different tanks are tested, in any order. */
    method Detect()
      modifies this`queue
      ensures exists events :: queue == old(queue) + events && Announces(events, locations)
    {
      hide Overlaps;
      ghost var events: seq<Event> := [];
      var rest := locations.Keys;
      assert queue == old(queue) + events;
      while rest != {}
        invariant rest <= locations.Keys && queue == old(queue) + events
        invariant forall i :: 0 <= i < |events| ==> events[i].Destroyed? && Overlaps(locations, events[i].tank)
        invariant forall a <- locations :: Overlaps(locations, a) && a !in rest ==> Destroyed(a) in events
        decreases rest
      {
        var a :| a in rest;
        rest := rest - {a};
        ghost var more := DetectFor(a);
        assert more != [] ==> more[0] == Destroyed(a);
        events := events + more;
      }
      OverlapsInside(locations);
    }

    method Accelerate(name: string)
      requires name in players && name in speeds
      modifies this`speeds
      ensures speeds == old(speeds)[name := NextSpeed(old(speeds)[name], CharAt(players[name].input, 0))]
    {
      var direction := CharAt(players[name].input, 0);
      if direction == 'f' {
        if speeds[name] < MAX_SPEED {
          speeds := speeds[name := speeds[name] + ACCELERATION];
        }
      } else if direction == 'b' {
        if speeds[name] > -MAX_SPEED {
          speeds := speeds[name := speeds[name] - ACCELERATION];
        }
      } else if -ACCELERATION <= speeds[name] <= ACCELERATION {
        speeds := speeds[name := 0.0];
      } else if speeds[name] > 0.0 {
        speeds := speeds[name := speeds[name] - ACCELERATION];
      } else if speeds[name] < 0.0 {
        speeds := speeds[name := speeds[name] + ACCELERATION];
      }
    }

    method Turn(name: string)
      requires name in players && name in turnSpeeds && name in rotations
      modifies this`turnSpeeds, this`rotations
      ensures turnSpeeds == old(turnSpeeds)[name := NextTurn(old(turnSpeeds)[name], CharAt(players[name].input, 1))]
      ensures rotations == old(rotations)[name := NextRotation(old(rotations)[name], turnSpeeds[name], CharAt(players[name].input, 1))]
    {
      var turn := CharAt(players[name].input, 1);
      if turn == 'l' {
        if turnSpeeds[name] < MAX_TURN {
          turnSpeeds := turnSpeeds[name := turnSpeeds[name] + TURN_ACCELERATION];
        }
        rotations := rotations[name := rotations[name] + turnSpeeds[name]];
      } else if turn == 'r' {
        if turnSpeeds[name] < MAX_TURN {
          turnSpeeds := turnSpeeds[name := turnSpeeds[name] + TURN_ACCELERATION];
        }
        rotations := rotations[name := rotations[name] - turnSpeeds[name]];
      } else if turnSpeeds[name] <= TURN_ACCELERATION {
        turnSpeeds := turnSpeeds[name := 0.0];
      } else if turnSpeeds[name] > 0.0 {
        turnSpeeds := turnSpeeds[name := turnSpeeds[name] - TURN_ACCELERATION];
      }
    }

    method MoveTank(name: string, cos: real -> real, sin: real -> real)
      requires Aligned(State()) && name in players
      modifies this
      ensures State() == Put(old(State()), name, NextTank(TankIn(old(State()), name), cos, sin))
    {
      hide NextSpeed, NextTurn, NextRotation, NextLocation, CharAt;
      Accelerate(name);
      Turn(name);
      locations := locations[name := NextLocation(locations[name], speeds[name], rotations[name], cos, sin)];
      players := players[name := Player(players[name].input, locations[name].x, locations[name].y,
                                        speeds[name], rotations[name], turnSpeeds[name])];
    }

    method Move(cos: real -> real, sin: real -> real)
      requires Aligned(State())
      modifies this
      ensures MovedBut(old(State()), State(), {}, cos, sin)
    {
      hide NextTank, MovedBut;
      NothingMoved(State(), cos, sin);
      var rest := players.Keys;
      while rest != {}
        invariant rest <= players.Keys && Aligned(State())
        invariant MovedBut(old(State()), State(), rest, cos, sin)
        decreases rest
      {
        var name :| name in rest;
        MovedOne(old(State()), State(), rest, name, cos, sin);
        rest := rest - {name};
        MoveTank(name, cos, sin);
      }
    }

    /** One tick of the simulation thread. */
    method Tick(cos: real -> real, sin: real -> real)
      requires Aligned(State())
      modifies this
      ensures IsTick(old(State()), State(), cos, sin)
    {
      ghost var start := State();
      DrainedAligned(start);
      Drain();
      Detect();
      ghost var tested := State();
      Move(cos, sin);
      assert TickVia(start, tested, State(), cos, sin);
    }
  }

  /** A tick: the queue is drained, collisions are announced in state `m`, and every tank moves. */
  ghost predicate TickVia(g: Game, m: Game, h: Game, cos: real -> real, sin: real -> real) {
    && Aligned(m) && m == Drained(g).(queue := m.queue) && Announces(m.queue, m.locations)
    && MovedBut(m, h, {}, cos, sin)
  }

  ghost predicate IsTick(g: Game, h: Game, cos: real -> real, sin: real -> real) {
    exists m :: TickVia(g, m, h, cos, sin)
  }

  // ----- What every run keeps

  predicate Multiple(s: real, unit: real, k: int) {
    s == k as real * unit
  }

  /** A speed is a whole number of accelerations, at most 200 of them either way. */
  ghost predicate GoodSpeed(s: real) {
    exists k :: -200 <= k <= 200 && Multiple(s, ACCELERATION, k)
  }

  /** A turn speed is a whole number of turn accelerations, and never negative. */
  ghost predicate GoodTurn(t: real) {
    exists k :: 0 <= k <= 100 && Multiple(t, TURN_ACCELERATION, k)
  }

  ghost predicate GoodTank(t: Tank) {
    GoodSpeed(t.speed) && GoodTurn(t.turnSpeed)
  }

  ghost predicate Inv(g: Game) {
    Aligned(g) && forall name <- g.players :: GoodTank(TankIn(g, name))
  }

  lemma {:induction false} DrainedAligned(g: Game)
    requires Aligned(g)
    ensures Aligned(Drained(g)) && Drained(g).queue == [] && Drained(g).clients == g.clients
    decreases |g.queue|
  {
    if g.queue != [] {
      var h := Handle(g.(queue := g.queue[1..]), g.queue[0]);
      DrainedAligned(h);
    }
  }

  lemma NextSpeedGood(s: real, direction: char)
    requires GoodSpeed(s)
    ensures GoodSpeed(NextSpeed(s, direction)) && -MAX_SPEED <= NextSpeed(s, direction) <= MAX_SPEED
  {
    var k :| -200 <= k <= 200 && Multiple(s, ACCELERATION, k);
    assert Multiple(s + ACCELERATION, ACCELERATION, k + 1);
    assert Multiple(s - ACCELERATION, ACCELERATION, k - 1);
    assert Multiple(0.0, ACCELERATION, 0);
  }

  lemma NextTurnGood(t: real, turn: char)
    requires GoodTurn(t)
    ensures GoodTurn(NextTurn(t, turn)) && 0.0 <= NextTurn(t, turn) <= MAX_TURN
  {
    var k :| 0 <= k <= 100 && Multiple(t, TURN_ACCELERATION, k);
    assert Multiple(t + TURN_ACCELERATION, TURN_ACCELERATION, k + 1);
    assert Multiple(t - TURN_ACCELERATION, TURN_ACCELERATION, k - 1);
    assert Multiple(0.0, TURN_ACCELERATION, 0);
  }

  /** A step of the game: a handler of the network thread, or a whole tick. */
  ghost predicate HandlerStep(g: Game, h: Game) {
    || (exists fd :: h == OnDisconnected(g, fd))
    || (exists fd, msg, stod :: h == OnMessage(g, fd, msg, stod))
  }

  ghost predicate Step(g: Game, h: Game) {
    HandlerStep(g, h) || TickStep(g, h)
  }

  ghost predicate TickStep(g: Game, h: Game) {
    exists cos, sin :: IsTick(g, h, cos, sin)
  }

  ghost predicate Run(games: seq<Game>) {
    && games != [] && games[0] == EMPTY
    && forall i :: 0 < i < |games| ==> Step(games[i - 1], games[i])
  }

  lemma SpawnKeeps(g: Game, tank: string, at: Point)
    requires Inv(g)
    ensures Inv(Spawn(g, tank, at))
  {
    assert Multiple(0.0, ACCELERATION, 0) && Multiple(0.0, TURN_ACCELERATION, 0);
  }

  /** What a message does: nothing, a new input, an announcement, or a spawn. */
  ghost predicate Effect(g: Game, h: Game) {
    || h == g
    || (exists tank, p :: InputOf(g, h, tank, p))
    || (exists fd, player :: Announcement(g, h, fd, player))
    || (exists tank, at :: h == Spawn(g, tank, at))
  }

  predicate InputOf(g: Game, h: Game, tank: string, p: Player) {
    tank in g.players && h == g.(players := g.players[tank := p])
  }

  predicate Announcement(g: Game, h: Game, fd: int, player: string) {
    h == g.(clients := g.clients[fd := player], queue := g.queue + [Connected(player)])
  }

  lemma MessageEffect(g: Game, fd: int, msg: Json, stod: string -> real)
    ensures Effect(g, OnMessage(g, fd, msg, stod))
  {
    hide Spawn;
    var h := OnMessage(g, fd, msg, stod);
    if HasText(msg, "handle") && HasText(msg, "i") {
      var tank := TankOf(msg.obj["handle"].str);
      assert tank in g.players ==> InputOf(g, h, tank, g.players[tank].(input := msg.obj["i"].str));
    } else if HasText(msg, "announce") {
      assert fd !in g.clients ==> Announcement(g, h, fd, msg.obj["announce"].str);
    } else if HasText(msg, "handle") && HasText(msg, "x") && HasText(msg, "y") {
      assert h == g || h == Spawn(g, TankOf(msg.obj["handle"].str), Point(stod(msg.obj["x"].str), stod(msg.obj["y"].str)));
    }
  }

  lemma EffectKeeps(g: Game, h: Game)
    requires Inv(g) && Effect(g, h)
    ensures Inv(h)
  {
    if tank, p :| InputOf(g, h, tank, p) {
    } else if fd, player :| Announcement(g, h, fd, player) {
    } else if tank, at :| h == Spawn(g, tank, at) {
      SpawnKeeps(g, tank, at);
    }
  }

  lemma HandlerKeeps(g: Game, h: Game)
    requires Inv(g) && HandlerStep(g, h)
    ensures Inv(h)
  {
    hide Inv, OnMessage, Effect, OnDisconnected;
    if fd :| h == OnDisconnected(g, fd) {
      DisconnectKeeps(g, fd);
    } else {
      var fd, msg, stod :| h == OnMessage(g, fd, msg, stod);
      MessageEffect(g, fd, msg, stod);
      EffectKeeps(g, h);
    }
  }

  lemma DisconnectKeeps(g: Game, fd: int)
    requires Inv(g)
    ensures Inv(OnDisconnected(g, fd))
  {}

  lemma {:induction false} DrainKeeps(g: Game)
    requires Inv(g)
    ensures Inv(Drained(g))
    decreases |g.queue|
  {
    if g.queue != [] {
      DrainKeeps(Handle(g.(queue := g.queue[1..]), g.queue[0]));
    }
  }

  lemma NextTankGood(t: Tank, cos: real -> real, sin: real -> real)
    requires GoodTank(t)
    ensures GoodTank(NextTank(t, cos, sin))
  {
    hide NextSpeed, NextTurn, NextLocation, NextRotation, GoodSpeed, GoodTurn;
    NextSpeedGood(t.speed, CharAt(t.player.input, 0));
    NextTurnGood(t.turnSpeed, CharAt(t.player.input, 1));
  }

  lemma MoveKeeps(g: Game, h: Game, cos: real -> real, sin: real -> real)
    requires Inv(g) && MovedBut(g, h, {}, cos, sin)
    ensures Inv(h)
  {
    hide NextTank, GoodTank;
    forall name <- h.players
      ensures GoodTank(TankIn(h, name))
    {
      NextTankGood(TankIn(g, name), cos, sin);
    }
  }

  /** In every state of every run the five maps agree and the speeds are in range: no lookup of the tick can fail. */
  lemma {:induction false} RunKeeps(games: seq<Game>, i: nat)
    requires Run(games) && i < |games|
    ensures Inv(games[i])
    decreases i
  {
    if i > 0 {
      RunKeeps(games, i - 1);
      var g, h := games[i - 1], games[i];
      assert Step(g, h);
      if HandlerStep(g, h) {
        HandlerKeeps(g, h);
      } else {
        var cos, sin :| IsTick(g, h, cos, sin);
        var m :| TickVia(g, m, h, cos, sin);
        DrainKeeps(g);
        assert Inv(m);
        MoveKeeps(m, h, cos, sin);
      }
    }
  }

  // ----- Collisions

  /** The tanks that queued events remove. */
  function Doomed(queue: seq<Event>): set<string> {
    if queue == [] then {}
    else
      (match queue[0]
       case Connected(_) => {}
       case Disconnected(player) => {TankOf(player)}
       case Destroyed(tank) => {tank})
      + Doomed(queue[1..])
  }

  lemma MinusTwice<K, V>(m: map<K, V>, a: set<K>, b: set<K>)
    ensures (m - a) - b == m - (a + b)
  {}

  lemma RemoveTwice(g: Game, a: set<string>, b: set<string>)
    ensures RemoveAll(RemoveAll(g, a), b) == RemoveAll(g, a + b)
  {
    MinusTwice(g.locations, a, b);
    MinusTwice(g.rotations, a, b);
    MinusTwice(g.speeds, a, b);
    MinusTwice(g.turnSpeeds, a, b);
    MinusTwice(g.players, a, b);
  }

  lemma RemoveNone(g: Game)
    ensures RemoveAll(g, {}) == g
  {
    assert g.locations - {} == g.locations && g.rotations - {} == g.rotations && g.speeds - {} == g.speeds;
    assert g.turnSpeeds - {} == g.turnSpeeds && g.players - {} == g.players;
  }

  /** Draining removes the doomed tanks from all maps and leaves every other entry as it was. */
  lemma {:induction false} DrainedIs(g: Game)
    ensures Drained(g) == RemoveAll(g, Doomed(g.queue)).(queue := [])
    decreases |g.queue|
  {
    RemoveNone(g);
    if g.queue != [] {
      var rest := g.(queue := g.queue[1..]);
      var h := Handle(rest, g.queue[0]);
      DrainedIs(h);
      RemoveNone(rest);
      match g.queue[0] {
        case Connected(_) =>
          assert {} + Doomed(rest.queue) == Doomed(rest.queue);
        case Disconnected(player) => RemoveTwice(rest, {TankOf(player)}, Doomed(rest.queue));
        case Destroyed(tank) => RemoveTwice(rest, {tank}, Doomed(rest.queue));
      }
    }
  }

  lemma {:induction false} DoomedAre(queue: seq<Event>, tank: string)
    ensures tank in Doomed(queue) <==>
      Destroyed(tank) in queue || exists e <- queue :: e.Disconnected? && TankOf(e.player) == tank
    decreases queue
  {
    if queue != [] {
      DoomedAre(queue[1..], tank);
      assert queue == [queue[0]] + queue[1..];
    }
  }

  /** Between two ticks, handlers only append connections and disconnections. */
  lemma {:induction false} HandlersAppend(games: seq<Game>)
    requires games != [] && forall i :: 0 < i < |games| ==> HandlerStep(games[i - 1], games[i])
    ensures var first, last := games[0].queue, games[|games| - 1].queue;
      first <= last && forall i :: |first| <= i < |last| ==> !last[i].Destroyed?
    decreases |games|
  {
    if |games| > 1 {
      var before := games[..|games| - 1];
      HandlersAppend(before);
      var g, h := games[|games| - 2], games[|games| - 1];
      assert before[|before| - 1] == g && HandlerStep(g, h);
      HandlerAppends(g, h);
    }
  }

  lemma HandlerAppends(g: Game, h: Game)
    requires HandlerStep(g, h)
    ensures g.queue <= h.queue && forall i :: |g.queue| <= i < |h.queue| ==> !h.queue[i].Destroyed?
  {
    hide OnMessage, Effect;
    if fd :| h == OnDisconnected(g, fd) {
    } else {
      var fd, msg, stod :| h == OnMessage(g, fd, msg, stod);
      MessageEffect(g, fd, msg, stod);
      EffectAppends(g, h);
    }
  }

  lemma EffectAppends(g: Game, h: Game)
    requires Effect(g, h)
    ensures g.queue <= h.queue && forall i :: |g.queue| <= i < |h.queue| ==> !h.queue[i].Destroyed?
  {
    if tank, p :| InputOf(g, h, tank, p) {
    } else if fd, player :| Announcement(g, h, fd, player) {
    } else if tank, at :| h == Spawn(g, tank, at) {
    }
  }

  /** The announced tanks are those that shared a point with another. */
  lemma AnnouncedShare(m: Game, queue: seq<Event>, tank: string)
    requires Announces(m.queue, m.locations)
    requires m.queue <= queue && forall i :: |m.queue| <= i < |queue| ==> !queue[i].Destroyed?
    ensures Destroyed(tank) in queue <==> Touches(m.locations, tank)
  {
    hide Collides, Share;
    assert Destroyed(tank) in queue <==> Destroyed(tank) in m.queue;
    forall b <- m.locations | tank in m.locations
      ensures Collides(TankAt(m.locations[tank]), TankAt(m.locations[b])) <==> Share(TankAt(m.locations[tank]), TankAt(m.locations[b]))
    {
      CollisionExact(m.locations[tank], m.locations[b]);
    }
  }

  /** The tank shares a point with another tank. */
  ghost predicate Touches(locations: map<string, Point>, tank: string) {
    tank in locations && exists b <- locations :: b != tank && Share(TankAt(locations[tank]), TankAt(locations[b]))
  }

  ghost predicate HasLeft(queue: seq<Event>, tank: string) {
    exists e <- queue :: e.Disconnected? && TankOf(e.player) == tank
  }

  /**
   From the collision test of one tick (in state `m`) over any handlers to the drain of the
   next: what is removed is exactly the tanks that shared a point with another tank, and the
   tanks of players that have disconnected meanwhile.
   */
  lemma CollisionRound(g: Game, m: Game, games: seq<Game>, cos: real -> real, sin: real -> real, tank: string)
    requires games != [] && TickVia(g, m, games[0], cos, sin)
    requires forall i :: 0 < i < |games| ==> HandlerStep(games[i - 1], games[i])
    ensures var last := games[|games| - 1];
      tank in Drained(last).locations <==>
        tank in last.locations && !Touches(m.locations, tank) && !HasLeft(last.queue, tank)
  {
    hide Drained, Doomed, HandlerStep, Announces, Touches;
    var last := games[|games| - 1];
    HandlersAppend(games);
    AnnouncedShare(m, last.queue, tank);
    DrainedIs(last);
    DoomedAre(last.queue, tank);
  }

  // ----- Standing still

  /** The first character of the tank's input asks for no movement. */
  predicate Idle(g: Game, name: string) {
    name in g.players && CharAt(g.players[name].input, 0) != 'f' && CharAt(g.players[name].input, 0) != 'b'
  }

  /** A stretch of a run, tick by tick and handler by handler: the tank is there throughout, and idle whenever a tick starts. */
  ghost predicate IdleSpell(games: seq<Game>, ticks: seq<bool>, name: string) {
    && |games| == |ticks| + 1
    && (forall i :: 0 <= i < |games| ==> name in games[i].players)
    && (forall i :: 0 <= i < |ticks| ==> SpellStep(games[i], games[i + 1], ticks[i], name))
  }

  ghost predicate SpellStep(g: Game, h: Game, tick: bool, name: string) {
    if tick then Idle(g, name) && TickStep(g, h) else HandlerStep(g, h)
  }

  function Count(ticks: seq<bool>): nat {
    if ticks == [] then 0 else (if ticks[0] then 1 else 0) + Count(ticks[1..])
  }

  /** A tick gives a tank that survives it the next speed for its input. */
  lemma TickSpeed(g: Game, h: Game, cos: real -> real, sin: real -> real, name: string)
    requires Inv(g) && IsTick(g, h, cos, sin) && name in g.players && name in h.players
    ensures name in h.speeds && h.speeds[name] == NextSpeed(g.speeds[name], CharAt(g.players[name].input, 0)) && Inv(h)
  {
    hide NextSpeed, NextTurn, NextLocation, NextRotation, Doomed, Announces, GoodTank;
    var m :| TickVia(g, m, h, cos, sin);
    DrainedIs(g);
    DrainKeeps(g);
    hide Drained;
    assert TankIn(m, name).speed == g.speeds[name] && m.players[name] == g.players[name];
    assert TankIn(h, name) == NextTank(TankIn(m, name), cos, sin);
    assert Inv(m);
    MoveKeeps(m, h, cos, sin);
  }

  /** No handler changes the speed of a tank that is there. */
  lemma HandlerSpeed(g: Game, h: Game, name: string)
    requires Inv(g) && HandlerStep(g, h) && name in g.players
    ensures name in h.speeds && h.speeds[name] == g.speeds[name] && Inv(h)
  {
    HandlerKeeps(g, h);
    hide OnMessage, Effect, Inv;
    assert Aligned(g);
    if fd :| h == OnDisconnected(g, fd) {
    } else {
      var fd, msg, stod :| h == OnMessage(g, fd, msg, stod);
      MessageEffect(g, fd, msg, stod);
      EffectSpeed(g, h, name);
    }
  }

  lemma EffectSpeed(g: Game, h: Game, name: string)
    requires Effect(g, h) && name in g.speeds
    ensures name in h.speeds && h.speeds[name] == g.speeds[name]
  {}

  /** Without a direction a speed moves one acceleration towards 0. */
  lemma IdleSpeed(s: real, direction: char, k: int)
    requires Multiple(s, ACCELERATION, k) && direction != 'f' && direction != 'b'
    ensures Multiple(NextSpeed(s, direction), ACCELERATION, if k > 0 then k - 1 else if k < 0 then k + 1 else 0)
  {}

  /** Accelerations that are left after a step of an idle tank. */
  function Slower(k: int, tick: bool): int {
    if !tick then k else if k > 0 then k - 1 else if k < 0 then k + 1 else 0
  }

  lemma SpellSpeed(g: Game, h: Game, tick: bool, name: string, k: int)
    requires Inv(g) && SpellStep(g, h, tick, name) && name in g.players && name in h.players
    requires name in g.speeds && Multiple(g.speeds[name], ACCELERATION, k)
    ensures Inv(h) && name in h.speeds && Multiple(h.speeds[name], ACCELERATION, Slower(k, tick))
  {
    hide Inv, HandlerStep, IsTick, NextSpeed, Multiple;
    if tick {
      var cos, sin :| IsTick(g, h, cos, sin);
      TickSpeed(g, h, cos, sin, name);
      IdleSpeed(g.speeds[name], CharAt(g.players[name].input, 0), k);
    } else {
      HandlerSpeed(g, h, name);
    }
  }

  lemma SlowerFits(ticks: seq<bool>, k: int)
    requires ticks != [] && -(Count(ticks) as int) <= k <= Count(ticks)
    ensures -(Count(ticks[1..]) as int) <= Slower(k, ticks[0]) <= Count(ticks[1..])
  {}

  lemma Still(s: real, k: int)
    requires Multiple(s, ACCELERATION, k) && k == 0
    ensures s == 0.0
  {}

  /** A tank that moves at `k` accelerations stands still after `k` idle ticks, whatever handlers run between them, and stays there. */
  lemma {:induction false} SpellStops(games: seq<Game>, ticks: seq<bool>, name: string, k: int)
    requires IdleSpell(games, ticks, name) && Inv(games[0])
    requires Multiple(games[0].speeds[name], ACCELERATION, k) && -(Count(ticks) as int) <= k <= Count(ticks)
    ensures name in games[|ticks|].speeds && games[|ticks|].speeds[name] == 0.0
    decreases |ticks|
  {
    assert name in games[0].speeds;
    hide Inv, SpellStep, Multiple;
    if ticks == [] {
      Still(games[0].speeds[name], k);
    } else {
      var g, h := games[0], games[1];
      assert SpellStep(g, h, ticks[0], name) && name in g.players && name in h.players;
      SpellRest(games, ticks, name);
      SlowerFits(ticks, k);
      hide IdleSpell, Count, Slower;
      SpellSpeed(g, h, ticks[0], name, k);
      SpellStops(games[1..], ticks[1..], name, Slower(k, ticks[0]));
    }
  }

  lemma SpellRest(games: seq<Game>, ticks: seq<bool>, name: string)
    requires IdleSpell(games, ticks, name) && ticks != []
    ensures IdleSpell(games[1..], ticks[1..], name)
  {
    hide SpellStep;
    forall i | 0 <= i < |ticks[1..]|
      ensures SpellStep(games[1..][i], games[1..][i + 1], ticks[1..][i], name)
    {
      assert SpellStep(games[i + 1], games[i + 2], ticks[i + 1], name);
    }
  }

  /** In every run: a tank that was idle for 200 ticks stands still. */
  lemma IdleTankStops(games: seq<Game>, from: nat, ticks: seq<bool>, name: string)
    requires Run(games) && from + |ticks| < |games|
    requires IdleSpell(games[from..from + |ticks| + 1], ticks, name) && Count(ticks) >= 200
    ensures var last := games[from + |ticks|]; name in last.speeds && last.speeds[name] == 0.0
  {
    hide IdleSpell, Count;
    RunKeeps(games, from);
    var g := games[from];
    var spell := games[from..from + |ticks| + 1];
    assert spell[0] == g && spell[|ticks|] == games[from + |ticks|];
    SpellFirst(spell, ticks, name);
    assert GoodTank(TankIn(g, name));
    var k :| -200 <= k <= 200 && Multiple(g.speeds[name], ACCELERATION, k);
    SpellStops(spell, ticks, name, k);
  }

  lemma SpellFirst(games: seq<Game>, ticks: seq<bool>, name: string)
    requires IdleSpell(games, ticks, name)
    ensures name in games[0].players
  {}
}
