/**
 One run of the client com against comd: the client's session, the two directions of their
 connection as message queues, and everything else that may happen to the server.
 */
module ComdSession {
  import opened Text
  import opened Comd

  datatype Com = Com(state: State, routine: Routine, alive: bool)

  /** The callback of `client.run`; the client ends when a write fails. */
  function OnReply(com: Com, sends: bool): (Com, seq<string>) {
    match com.state
    case VerifyIdentity =>
      if sends then (com.(state := SelectRoutine), [Request(com.routine)]) else (com.(alive := false), [])
    case SelectRoutine => (com.(state := ExchangePackets), [])
    case ExchangePackets => (com, [])
  }

  datatype Session = Session(
    com: Com,
    daemon: Daemon,
    mine: Option<nat>,     // the number of com's connection once the server accepted it
    up: seq<string>,       // on the way to the server
    down: seq<string>,     // on the way to the client
    spoken: seq<string>,   // everything com put on the link
    input: seq<string>,    // of that, what was typed at the terminal
    answers: nat,          // messages the server put on the link
    shown: nat)            // messages the client took off it

  /** com connected and sent its identity; the server has any history. */
  function Started(routine: Routine, daemon: Daemon): Session {
    Session(Com(VerifyIdentity, routine, true), daemon, None, [IDENTITY], [], [IDENTITY], [], 0, 0)
  }

  datatype Move =
    | Elsewhere(e: Event)              // the server and other clients
    | Accepted
    | ServerReads(chance: Chance)
    | Dropped
    | ShellSays(text: string)          // output of the shell sent to its client
    | ClientReads(sends: bool)
    | Types(text: string, sends: bool) // a packet from the terminal
    | ClientEnds

  /** The server's open connection is com's. */
  predicate Mine(s: Session) {
    s.mine.Some? && s.daemon.connected && s.mine.value == |s.daemon.heard| - 1
  }

  function Moved(s: Session, m: Move): Session {
    match m
    case Elsewhere(e) => if Mine(s) && e != ShellEnds then s else s.(daemon := Next(s.daemon, e))
    case Accepted =>
      if s.mine.Some? || s.daemon.connected then s
      else s.(daemon := Next(s.daemon, Connect), mine := Some(|s.daemon.heard|))
    case ServerReads(chance) =>
      if !Mine(s) || s.up == [] then s
      else
        var r := Handled(s.daemon, s.up[0], chance);
        s.(daemon := r.daemon, up := s.up[1..], down := s.down + r.said, answers := s.answers + |r.said|)
    case Dropped => if Mine(s) then s.(daemon := Next(s.daemon, Drop)) else s
    case ShellSays(text) =>
      if Mine(s) && s.daemon.shell.running && s.daemon.shellClient == s.mine.value
      then s.(down := s.down + [CString(text)], answers := s.answers + 1) else s
    case ClientReads(sends) =>
      if !s.com.alive || s.down == [] then s
      else
        var (com, said) := OnReply(s.com, sends);
        s.(com := com, down := s.down[1..], shown := s.shown + 1, up := s.up + said, spoken := s.spoken + said)
    case Types(text, sends) =>
      if !s.com.alive || s.com.state != ExchangePackets || s.com.routine != ShellRoutine then s
      else if !sends then s.(com := s.com.(alive := false))
      else s.(up := s.up + [CString(text)], spoken := s.spoken + [CString(text)], input := s.input + [CString(text)])
    case ClientEnds => s.(com := s.com.(alive := false))
  }

  function AfterMoves(s: Session, moves: seq<Move>): Session
    decreases |moves|
  {
    if moves == [] then s else AfterMoves(Moved(s, moves[0]), moves[1..])
  }

  // ----- How far both sides are

  /** What com has said by its state. */
  predicate Script(s: Session) {
    && s.spoken == (if s.com.state == VerifyIdentity then [IDENTITY] else [IDENTITY, Request(s.com.routine)]) + s.input
    && (s.input != [] ==> s.com.state == ExchangePackets && s.com.routine == ShellRoutine)
    && (s.com.alive ==> match s.com.state
                        case VerifyIdentity => s.shown == 0
                        case SelectRoutine => s.shown == 1
                        case ExchangePackets => s.shown >= 2)
    && (s.com.state == ExchangePackets ==> s.shown >= 2)
  }

  /** Both directions keep messages in order, and nothing is lost while the connection lasts. */
  predicate Queued(s: Session) {
    && |s.down| + s.shown == s.answers
    && match s.mine
       case None => s.up == s.spoken && s.answers == 0
       case Some(c) => c < |s.daemon.heard| && s.daemon.heard[c] + s.up == s.spoken
  }

  /** The server's answers by its state. */
  predicate Answered(s: Session) {
    Mine(s) ==> match s.daemon.state
                case VerifyIdentity => s.answers == 0
                case SelectRoutine => s.answers == 1
                case ExchangePackets => s.answers >= 2
  }

  predicate Joint(s: Session) {
    Sound(s.daemon) && Script(s) && Queued(s) && Answered(s)
  }

  lemma SameScript(s: Session, next: Session)
    requires Script(s) && next.com == s.com && next.spoken == s.spoken && next.input == s.input && next.shown == s.shown
    ensures Script(next)
  {}

  lemma ElsewhereJoint(s: Session, e: Event)
    requires Joint(s)
    ensures Joint(Moved(s, Elsewhere(e)))
  {
    NextSound(s.daemon, e);
    NextHeard(s.daemon, e);
    hide Sound, Next, Script;
    SameScript(s, Moved(s, Elsewhere(e)));
  }

  /** Only the open connection, or a new one, is touched. */
  lemma NextHeard(d: Daemon, e: Event)
    ensures var next := Next(d, e);
      && |next.heard| >= |d.heard| && (d.connected ==> |next.heard| == |d.heard|)
      && (forall c :: 0 <= c < |d.heard| && !(d.connected && c == |d.heard| - 1) ==> next.heard[c] == d.heard[c])
      && (!d.connected && next.connected ==> |next.heard| > |d.heard|)
      && (e == ShellEnds ==> next.heard == d.heard && next.connected == d.connected && next.state == d.state)
  {
    if e.Read? && d.connected && d.heard != [] {
      HandledTypes(d, e.data, e.chance);
    }
    hide React;
  }

  lemma ServerReadsJoint(s: Session, chance: Chance)
    requires Joint(s)
    ensures Joint(Moved(s, ServerReads(chance)))
  {
    if Mine(s) && s.up != [] {
      var d, data := s.daemon, s.up[0];
      HandledSound(d, data, chance);
      HandledTypes(d, data, chance);
      HandledAnswers(d, data, chance);
      hide Sound, Handled, Script;
      var i := |d.heard| - 1;
      assert Hear(d, data).heard[i] + s.up[1..] == d.heard[i] + s.up;
      SameScript(s, Moved(s, ServerReads(chance)));
    }
  }

  /** How many messages the server has sent by its state. */
  function Sent(state: State): nat {
    match state
    case VerifyIdentity => 0
    case SelectRoutine => 1
    case ExchangePackets => 2
  }

  /** While the connection lasts, a handled message brings the state and the answers forward together. */
  lemma HandledAnswers(d: Daemon, data: string, chance: Chance)
    requires d.heard != []
    ensures var r := Handled(d, data, chance);
      r.daemon.connected ==> Sent(r.daemon.state) == Sent(d.state) + |r.said|
  {
    hide CString;
  }

  /** The client's moves leave the server alone. */
  lemma ClientJoint(s: Session, m: Move)
    requires Joint(s) && (m.ClientReads? || m.Types? || m.ClientEnds?)
    ensures Joint(Moved(s, m))
  {
    hide Sound;
    var next := Moved(s, m);
    if m.ClientReads? {
      var said := OnReply(s.com, m.sends).1;
      assert s.mine.Some? ==> s.daemon.heard[s.mine.value] + (s.up + said) == (s.daemon.heard[s.mine.value] + s.up) + said;
    } else if m.Types? {
      var said := [CString(m.text)];
      assert s.mine.Some? ==> s.daemon.heard[s.mine.value] + (s.up + said) == (s.daemon.heard[s.mine.value] + s.up) + said;
    }
  }

  lemma ServerJoint(s: Session, m: Move)
    requires Joint(s) && (m.Accepted? || m.Dropped? || m.ShellSays?)
    ensures Joint(Moved(s, m))
  {
    NextSound(s.daemon, Connect);
    NextSound(s.daemon, Drop);
    assert Mine(s) && s.daemon.shell.running ==> s.daemon.state == ExchangePackets;
    hide Sound;
  }

  lemma MovedJoint(s: Session, m: Move)
    requires Joint(s)
    ensures Joint(Moved(s, m))
  {
    hide Joint, Moved;
    match m
    case Elsewhere(e) => ElsewhereJoint(s, e);
    case ServerReads(chance) => ServerReadsJoint(s, chance);
    case Accepted => ServerJoint(s, m);
    case Dropped => ServerJoint(s, m);
    case ShellSays(text) => ServerJoint(s, m);
    case _ => ClientJoint(s, m);
  }

  lemma {:induction false} AfterMovesJoint(s: Session, moves: seq<Move>)
    requires Joint(s)
    ensures Joint(AfterMoves(s, moves))
    decreases |moves|
  {
    hide Joint, Moved;
    if moves != [] {
      MovedJoint(s, moves[0]);
      AfterMovesJoint(Moved(s, moves[0]), moves[1..]);
    }
  }

  /** While com exchanges packets the server does too, or has closed its connection. */
  lemma ExchangeTogether(routine: Routine, d: Daemon, moves: seq<Move>)
    requires Sound(d)
    ensures var s := AfterMoves(Started(routine, d), moves);
      s.com.state == ExchangePackets ==> s.mine.Some? && (Mine(s) ==> s.daemon.state == ExchangePackets)
  {
    hide Sound;
    AfterMovesJoint(Started(routine, d), moves);
  }

  /** The first two messages of a session are com's own, the rest was typed. */
  lemma HeardIsInput(s: Session)
    requires Script(s) && Queued(s) && s.mine.Some? && |s.daemon.heard[s.mine.value]| >= 2
    ensures s.daemon.heard[s.mine.value][2..] + s.up == s.input
  {
    var messages := s.daemon.heard[s.mine.value];
    assert s.spoken == messages + s.up && |s.spoken| >= 2;
    assert s.com.state != VerifyIdentity;
    assert messages[2..] + s.up == s.spoken[2..];
  }

  /** What com's connection wrote to the shell is a beginning of what was typed at com's terminal, packet by packet. */
  lemma ShellHearsTerminal(routine: Routine, d: Daemon, moves: seq<Move>)
    requires Sound(d)
    ensures var s := AfterMoves(Started(routine, d), moves);
      s.mine.Some? ==> s.mine.value < |s.daemon.heard| && TypedBy(s.daemon.shell.typed, s.mine.value) <= s.input
  {
    hide TypedBy, AfterMoves;
    assert Joint(Started(routine, d));
    hide Script, Answered;
    AfterMovesJoint(Started(routine, d), moves);
    var s := AfterMoves(Started(routine, d), moves);
    hide Stage, Owned;
    if s.mine.Some? {
      var c := s.mine.value;
      assert Exact(s.daemon, c);
      if Admitted(s.daemon.heard[c]) {
        HeardIsInput(s);
      }
    }
  }

  /** With every write succeeding, five messages bring a shell client and an idle server together. */
  lemma HandshakeWorks(d: Daemon, chance: Chance)
    requires Sound(d) && !d.connected && chance.sends
    ensures var s := AfterMoves(Started(ShellRoutine, d), [Accepted, ServerReads(chance), ClientReads(true), ServerReads(chance), ClientReads(true)]);
      s.com.state == ExchangePackets && s.com.alive && Mine(s) && s.daemon.state == ExchangePackets && s.up == [] && s.down == []
  {
    IdentityWhole();
    RequestWhole();
    hide CString;
    var m := ServerReads(chance);
    var s0 := Started(ShellRoutine, d);
    var s1 := Moved(s0, Accepted);
    var s2 := Moved(s1, m);
    assert s2.daemon.state == SelectRoutine && s2.down == [VERIFIED] && s2.up == [] && Mine(s2);
    var s3 := Moved(s2, ClientReads(true));
    assert s3.up == [Request(ShellRoutine)] && s3.down == [];
    var s4 := Moved(s3, m);
    assert s4.daemon.state == ExchangePackets && s4.down == [START_ROUTINE] && s4.up == [] && Mine(s4);
    var s5 := Moved(s4, ClientReads(true));
    assert AfterMoves(s4, [ClientReads(true)]) == s5;
    assert AfterMoves(s3, [m, ClientReads(true)]) == s5;
    assert AfterMoves(s2, [ClientReads(true), m, ClientReads(true)]) == s5;
    assert AfterMoves(s1, [m, ClientReads(true), m, ClientReads(true)]) == s5;
  }

  /** Read as a C string the identity is itself, */
  lemma IdentityWhole()
    ensures CString(IDENTITY) == IDENTITY
  {
    hide CString;
    var s := IDENTITY;
    assert forall i :: 0 <= i < |s| ==> s[i] != NUL;
    CStringWhole(s);
  }

  /** and so is the request for the shell. */
  lemma RequestWhole()
    ensures CString(Request(ShellRoutine)) == Request(ShellRoutine)
  {
    hide CString;
    var s := Request(ShellRoutine);
    assert forall i :: 0 <= i < |s| ==> s[i] != NUL;
    CStringWhole(s);
  }

  // ----- The client's handlers

  class Client {
    var state: State
    var routine: Routine
    var alive: bool

    ghost function View(): Com
      reads this
    {
      Com(state, routine, alive)
    }

    constructor (routine: Routine)
      ensures View() == Com(VerifyIdentity, routine, true)
    {
      state, alive := VerifyIdentity, true;
      this.routine := routine;
    }

    method OnConnect(sends: bool) returns (said: seq<string>)
      modifies this`alive
      ensures alive == (old(alive) && sends) && said == if sends then [IDENTITY] else []
    {
      said := [];
      if sends {
        said := [IDENTITY];
      } else {
        alive := false;
      }
    }

    method OnData(data: string, sends: bool) returns (code: int, said: seq<string>)
      modifies this
      ensures (View(), said) == OnReply(old(View()), sends)
      ensures code == if old(state) == VerifyIdentity && !sends then -1 else |data|
    {
      code, said := |data|, [];
      match state
      case VerifyIdentity =>
        if !sends {
          alive := false;
          return -1, [];
        }
        said := [Request(routine)];
        state := SelectRoutine;
      case SelectRoutine =>
        state := ExchangePackets;
      case ExchangePackets =>
    }
  }
}
