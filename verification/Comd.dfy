/**
 The sessions of the remote shell: the server comd (`on_connect`, `on_read`,
 `on_disconnect`, the shell it drives) and its client com. The server keeps one state for
 its single connection; connections are numbered in the order they are accepted.
 */
module Comd {
  import opened Text

  datatype State = VerifyIdentity | SelectRoutine | ExchangePackets
  datatype Routine = ShellRoutine | SendFile | RecvFile

  const IDENTITY := "This is my example identification string."
  const VERIFIED := "Your identity has been verified."
  const START_ROUTINE := "You are welcome to start the requested routine."
  const BAD_ROUTINE := "You have requested an invalid routine!"

  function Request(routine: Routine): string {
    match routine
    case ShellRoutine => "I would like to use the shell please."
    case SendFile => "I would like to send a file please."
    case RecvFile => "I would like to receive a file please."
  }

  /** Bytes written to the input of the n-th shell process while a connection was handled. */
  datatype Typed = Typed(shell: nat, from: nat, text: string)

  /** The shell: whether a process runs, how many were started, and everything written to them. */
  datatype Shell = Shell(running: bool, launched: nat, typed: seq<Typed>)

  datatype Daemon = Daemon(
    state: State,
    routine: Routine,
    shellClient: nat,
    shell: Shell,
    connected: bool,          // a connection is open: the last one accepted
    heard: seq<seq<string>>)  // the messages received on each connection

  const NEW_DAEMON := Daemon(VerifyIdentity, ShellRoutine, 0, Shell(false, 0, []), false, [])

  /** What the outside lets happen: writing to the client, starting a shell, writing to the shell. */
  datatype Chance = Chance(sends: bool, opens: bool, writes: bool)

  /** A handler's result: the new state, its return value (negative closes the connection), and what reached the link. */
  datatype Reaction = Reaction(daemon: Daemon, code: int, said: seq<string>)

  function Said(text: string, chance: Chance): seq<string> {
    if chance.sends then [text] else []
  }

  /** `on_read` for connection `fd`. */
  function React(d: Daemon, fd: nat, data: string, chance: Chance): Reaction {
    match d.state
    case VerifyIdentity =>
      if CString(data) != IDENTITY || !chance.sends then Reaction(d, -1, [])
      else Reaction(d.(state := SelectRoutine), |data|, [VERIFIED])
    case SelectRoutine =>
      if CString(data) != Request(ShellRoutine) then Reaction(d, -1, Said(BAD_ROUTINE, chance))
      else if !chance.sends then Reaction(d, -1, [])
      else Reaction(d.(shellClient := fd, routine := ShellRoutine, state := ExchangePackets), |data|, [START_ROUTINE])
    case ExchangePackets =>
      if d.routine != ShellRoutine || (!d.shell.running && !chance.opens) then Reaction(d, -1, [])
      else
        var shell := if d.shell.running then d.shell else d.shell.(running := true, launched := d.shell.launched + 1);
        if !chance.writes then Reaction(d.(shell := shell), -1, [])
        else Reaction(d.(shell := shell.(typed := shell.typed + [Typed(shell.launched, fd, data)])), |data|, [])
  }

  // ----- The server and its connections

  /** What happens to the server; a connection is dropped by its client, a timeout or a failing read. */
  datatype Event = Connect | Read(data: string, chance: Chance) | Drop | ShellEnds

  /** `on_disconnect` closes the shell. */
  function Closed(d: Daemon): Daemon {
    d.(connected := false, shell := d.shell.(running := false))
  }

  function Hear(d: Daemon, data: string): Daemon
    requires d.heard != []
  {
    var i := |d.heard| - 1;
    d.(heard := d.heard[i := d.heard[i] + [data]])
  }

  /** A message on the open connection. */
  function Handled(d: Daemon, data: string, chance: Chance): Reaction
    requires d.heard != []
  {
    var r := React(Hear(d, data), |d.heard| - 1, data, chance);
    if r.code < 0 then r.(daemon := Closed(r.daemon)) else r
  }

  /** One event; with one connection open no other is accepted. */
  function Next(d: Daemon, e: Event): Daemon {
    match e
    case Connect => if d.connected then d else d.(connected := true, heard := d.heard + [[]], state := VerifyIdentity)
    case Read(data, chance) => if d.connected && d.heard != [] then Handled(d, data, chance).daemon else d
    case Drop => if d.connected then Closed(d) else d
    case ShellEnds => d.(shell := d.shell.(running := false))
  }

  // ----- Who writes to the shell

  predicate Admitted(messages: seq<string>) {
    |messages| >= 2 && CString(messages[0]) == IDENTITY && CString(messages[1]) == Request(ShellRoutine)
  }

  /** What connection `c` wrote to the shell, in order. */
  function TypedBy(typed: seq<Typed>, c: nat): seq<string> {
    if typed == [] then []
    else
      var n := |typed| - 1;
      TypedBy(typed[..n], c) + if typed[n].from == c then [typed[n].text] else []
  }

  /** A connection that proved itself had every later message written, except perhaps the one it was closed for; no other had any. */
  predicate Exact(d: Daemon, c: nat)
    requires c < |d.heard|
  {
    var messages, typed := d.heard[c], TypedBy(d.shell.typed, c);
    if Admitted(messages) then
      || typed == messages[2..]
      || (|messages| > 2 && typed == messages[2..|messages| - 1] && !(d.connected && c == |d.heard| - 1))
    else typed == []
  }

  /** The state belongs to the messages of the open connection. */
  predicate Stage(d: Daemon) {
    d.connected ==>
      && d.heard != []
      && var messages := d.heard[|d.heard| - 1];
         match d.state
         case VerifyIdentity => messages == []
         case SelectRoutine => |messages| == 1 && CString(messages[0]) == IDENTITY
         case ExchangePackets => Admitted(messages) && d.routine == ShellRoutine && d.shellClient == |d.heard| - 1
  }

  /** A shell process serves one connection, and a running one the open connection. */
  predicate Owned(d: Daemon) {
    && (forall t :: t in d.shell.typed ==> t.from < |d.heard| && t.shell <= d.shell.launched)
    && (forall t, u :: t in d.shell.typed && u in d.shell.typed && t.shell == u.shell ==> t.from == u.from)
    && (d.shell.running ==> d.connected && d.state == ExchangePackets && d.heard != [])
    && (d.shell.running ==> forall t :: t in d.shell.typed && t.shell == d.shell.launched ==> t.from == |d.heard| - 1)
  }

  predicate Sound(d: Daemon) {
    Stage(d) && Owned(d) && forall c :: 0 <= c < |d.heard| ==> Exact(d, c)
  }

  lemma TypedSnoc(typed: seq<Typed>, t: Typed, c: nat)
    ensures TypedBy(typed + [t], c) == TypedBy(typed, c) + if t.from == c then [t.text] else []
  {
    assert (typed + [t])[..|typed|] == typed;
  }

  lemma {:induction false} TypedByNone(typed: seq<Typed>, c: nat)
    requires forall t :: t in typed ==> t.from != c
    ensures TypedBy(typed, c) == []
  {
    if typed != [] {
      TypedByNone(typed[..|typed| - 1], c);
    }
  }

  lemma ConnectSound(d: Daemon)
    requires Sound(d)
    ensures Sound(Next(d, Connect))
  {
    hide TypedBy;
    var next := Next(d, Connect);
    if !d.connected {
      TypedByNone(d.shell.typed, |d.heard|);
      forall c | 0 <= c < |next.heard| ensures Exact(next, c) {
        if c < |d.heard| {
          assert Exact(d, c);
        }
      }
    }
  }

  /** Other connections are not concerned. */
  lemma OthersExact(d: Daemon, next: Daemon, c: nat)
    requires d.heard != [] && c < |d.heard| - 1 && Exact(d, c)
    requires |next.heard| == |d.heard| && next.heard[c] == d.heard[c]
    requires TypedBy(next.shell.typed, c) == TypedBy(d.shell.typed, c)
    ensures Exact(next, c)
  {}

  lemma HandledStage(d: Daemon, data: string, chance: Chance)
    requires Stage(d) && d.connected
    ensures Stage(Handled(d, data, chance).daemon)
  {
    hide CString;
  }

  lemma HandledOwned(d: Daemon, data: string, chance: Chance)
    requires Stage(d) && Owned(d) && d.connected
    ensures Owned(Handled(d, data, chance).daemon)
  {
    hide CString, Admitted, TypedBy;
    if d.state == ExchangePackets {
      var i := |d.heard| - 1;
      var next := Handled(d, data, chance).daemon;
      assert next.connected ==> next.shell.typed == d.shell.typed + [Typed(next.shell.launched, i, data)];
      assert next.connected ==> forall t :: t in d.shell.typed && t.shell == next.shell.launched ==> t.from == i;
    }
  }

  /** What a message adds to what was written to the shell. */
  lemma HandledTypes(d: Daemon, data: string, chance: Chance)
    requires d.heard != []
    ensures var next := Handled(d, data, chance);
      || next.daemon.shell.typed == d.shell.typed
      || (next.code >= 0 && d.state == ExchangePackets
          && next.daemon.shell.typed == d.shell.typed + [Typed(next.daemon.shell.launched, |d.heard| - 1, data)])
    ensures Handled(d, data, chance).daemon.heard == Hear(d, data).heard
    ensures d.state == ExchangePackets && Handled(d, data, chance).code >= 0 ==> Handled(d, data, chance).daemon.shell.typed != d.shell.typed
    ensures Handled(d, data, chance).code < 0 ==> !Handled(d, data, chance).daemon.connected
  {
    hide CString;
  }

  lemma HandledExact(d: Daemon, data: string, chance: Chance)
    requires Stage(d) && Owned(d) && d.connected && Exact(d, |d.heard| - 1)
    ensures Exact(Handled(d, data, chance).daemon, |d.heard| - 1)
  {
    hide CString, TypedBy, Owned;
    var i := |d.heard| - 1;
    var next := Handled(d, data, chance).daemon;
    var before, after := d.heard[i], next.heard[i];
    HandledTypes(d, data, chance);
    HandledStage(d, data, chance);
    TypedSnoc(d.shell.typed, Typed(next.shell.launched, i, data), i);
    hide Handled;
    assert after == before + [data];
    if d.state == ExchangePackets {
      assert TypedBy(d.shell.typed, i) == before[2..];
      assert after[2..] == before[2..] + [data] && after[2..|after| - 1] == before[2..];
    } else {
      assert TypedBy(next.shell.typed, i) == [];
    }
  }

  lemma HandledSound(d: Daemon, data: string, chance: Chance)
    requires Sound(d) && d.connected
    ensures Sound(Handled(d, data, chance).daemon)
  {
    hide TypedBy, CString, Exact, React;
    HandledStage(d, data, chance);
    HandledOwned(d, data, chance);
    HandledExact(d, data, chance);
    HandledTypes(d, data, chance);
    assert d.heard != [];
    hide Handled, Stage, Owned;
    var next := Handled(d, data, chance).daemon;
    forall c | 0 <= c < |next.heard| ensures Exact(next, c) {
      assert Exact(d, c);
      if c < |d.heard| - 1 {
        TypedSnoc(d.shell.typed, Typed(next.shell.launched, |d.heard| - 1, data), c);
        OthersExact(d, next, c);
      }
    }
  }

  /** The end of a connection or of a shell process leaves what was written. */
  lemma DroppedExact(d: Daemon, e: Event, c: nat)
    requires (e.Drop? || e.ShellEnds?) && c < |d.heard| && Exact(d, c)
    ensures Next(d, e).heard == d.heard && Exact(Next(d, e), c)
  {}

  lemma NextSound(d: Daemon, e: Event)
    requires Sound(d)
    ensures Sound(Next(d, e))
  {
    hide Exact;
    match e
    case Connect => ConnectSound(d);
    case Read(data, chance) => if d.connected { HandledSound(d, data, chance); }
    case _ =>
      var next := Next(d, e);
      forall c | 0 <= c < |d.heard| ensures Exact(next, c) {
        DroppedExact(d, e, c);
      }
  }

  function After(d: Daemon, events: seq<Event>): Daemon
    decreases |events|
  {
    if events == [] then d else After(Next(d, events[0]), events[1..])
  }

  /** Whatever clients do, in whatever order. */
  lemma {:induction false} AfterSound(d: Daemon, events: seq<Event>)
    requires Sound(d)
    ensures Sound(After(d, events))
    decreases |events|
  {
    hide Sound, Next;
    if events != [] {
      NextSound(d, events[0]);
      AfterSound(Next(d, events[0]), events[1..]);
    }
  }

  /**
   In every run, a connection whose first message was not exactly the identity, or whose second
   was not exactly the request for the shell, wrote nothing to it; any other wrote all its later
   messages in order, except perhaps the one the connection was closed for.
   */
  lemma ShellExact(events: seq<Event>, c: nat)
    requires c < |After(NEW_DAEMON, events).heard|
    ensures var d := After(NEW_DAEMON, events);
      var messages, typed := d.heard[c], TypedBy(d.shell.typed, c);
      && (!Admitted(messages) ==> typed == [])
      && (Admitted(messages) ==> typed == messages[2..] || (|messages| > 2 && typed == messages[2..|messages| - 1]))
  {
    hide TypedBy, Admitted;
    AfterSound(NEW_DAEMON, events);
    assert Exact(After(NEW_DAEMON, events), c);
  }

  /** A shell process never takes bytes from two connections. */
  lemma ShellUnshared(events: seq<Event>, t: Typed, u: Typed)
    requires var typed := After(NEW_DAEMON, events).shell.typed; t in typed && u in typed && t.shell == u.shell
    ensures t.from == u.from
  {
    AfterSound(NEW_DAEMON, events);
  }

  /** What the open connection is told, by how many messages came before; a message that is not answered well closes it. */
  lemma RepliesExact(d: Daemon, data: string, chance: Chance)
    requires Sound(d) && d.connected && d.heard != []
    ensures var r, n := Handled(d, data, chance), |d.heard[|d.heard| - 1]|;
      && (n == 0 ==> r.said == if CString(data) == IDENTITY && chance.sends then [VERIFIED] else [])
      && (n == 1 ==> r.said == if !chance.sends then [] else if CString(data) == Request(ShellRoutine) then [START_ROUTINE] else [BAD_ROUTINE])
      && (n >= 2 ==> r.said == [])
      && (r.code == |data| || r.code == -1) && (r.daemon.connected <==> r.code >= 0)
      && (r.code >= 0 <==> match n
                           case 0 => CString(data) == IDENTITY && chance.sends
                           case 1 => CString(data) == Request(ShellRoutine) && chance.sends
                           case _ => (d.shell.running || chance.opens) && chance.writes)
  {
    SoundStage(d);
    hide Sound, Stage, React, CString, Request;
    HeardState(d, data);
    var h, fd := Hear(d, data), |d.heard| - 1;
    match d.state
    case VerifyIdentity => IdentityReply(h, fd, data, chance);
    case SelectRoutine =>
      if CString(data) == Request(ShellRoutine) {
        RoutineAccepted(h, fd, data, chance);
      } else {
        RoutineRefused(h, fd, data, chance);
      }
    case ExchangePackets => PacketReply(h, fd, data, chance);
  }

  lemma HeardState(d: Daemon, data: string)
    requires d.heard != []
    ensures var h := Hear(d, data); h.state == d.state && h.routine == d.routine && h.shell == d.shell && h.connected == d.connected
  {}

  lemma IdentityReply(d: Daemon, fd: nat, data: string, chance: Chance)
    requires d.state == VerifyIdentity
    ensures var r, good := React(d, fd, data, chance), CString(data) == IDENTITY && chance.sends;
      && r.said == (if good then [VERIFIED] else []) && r.code == (if good then |data| else -1) && r.daemon.connected == d.connected
  {
    hide CString, Request;
  }

  lemma RoutineAccepted(d: Daemon, fd: nat, data: string, chance: Chance)
    requires d.state == SelectRoutine && CString(data) == Request(ShellRoutine)
    ensures var r := React(d, fd, data, chance);
      && r.said == (if chance.sends then [START_ROUTINE] else []) && r.code == (if chance.sends then |data| else -1)
      && r.daemon.connected == d.connected
  {
    hide CString, Request;
  }

  lemma RoutineRefused(d: Daemon, fd: nat, data: string, chance: Chance)
    requires d.state == SelectRoutine && CString(data) != Request(ShellRoutine)
    ensures React(d, fd, data, chance) == Reaction(d, -1, if chance.sends then [BAD_ROUTINE] else [])
  {
    hide CString, Request;
  }

  lemma PacketReply(d: Daemon, fd: nat, data: string, chance: Chance)
    requires d.state == ExchangePackets && d.routine == ShellRoutine
    ensures var r, good := React(d, fd, data, chance), (d.shell.running || chance.opens) && chance.writes;
      r.said == [] && r.code == (if good then |data| else -1) && r.daemon.connected == d.connected
  {
    hide CString, Request;
  }

  lemma SoundStage(d: Daemon)
    requires Sound(d) && d.connected
    ensures d.heard != []
    ensures var n := |d.heard[|d.heard| - 1]|;
      && (n == 0 <==> d.state == VerifyIdentity) && (n == 1 <==> d.state == SelectRoutine)
      && (n >= 2 <==> d.state == ExchangePackets) && (n >= 2 ==> d.routine == ShellRoutine)
  {
    hide CString, Exact, Owned;
  }

  // ----- The handlers

  class Server {
    var state: State
    var routine: Routine
    var shellClient: nat
    var shell: Shell
    var connected: bool
    var heard: seq<seq<string>>

    ghost function View(): Daemon
      reads this
    {
      Daemon(state, routine, shellClient, shell, connected, heard)
    }

    constructor ()
      ensures View() == NEW_DAEMON
    {
      state := VerifyIdentity;
      routine := ShellRoutine;
      shellClient := 0;
      shell := Shell(false, 0, []);
      connected := false;
      heard := [];
    }

    method OnConnect()
      modifies this
      ensures View() == old(View()).(state := VerifyIdentity)
    {
      state := VerifyIdentity;
    }

    /** `Shell::sopen`; true when it fails. */
    method OpenShell(chance: Chance) returns (failed: bool)
      modifies this`shell
      ensures failed <==> !old(shell).running && !chance.opens
      ensures shell == if old(shell).running || failed then old(shell) else old(shell).(running := true, launched := old(shell).launched + 1)
    {
      if shell.running {
        return false;
      }
      if !chance.opens {
        return true;
      }
      shell := shell.(running := true, launched := shell.launched + 1);
      failed := false;
    }

    method OnRead(fd: nat, data: string, chance: Chance) returns (code: int, said: seq<string>)
      modifies this
      ensures Reaction(View(), code, said) == React(old(View()), fd, data, chance)
    {
      code, said := |data|, [];
      match state
      case VerifyIdentity =>
        if CString(data) != IDENTITY {
          return -1, [];
        }
        if !chance.sends {
          return -1, [];
        }
        said := [VERIFIED];
        state := SelectRoutine;
      case SelectRoutine =>
        if CString(data) == Request(ShellRoutine) {
          if !chance.sends {
            return -1, [];
          }
          said := [START_ROUTINE];
          shellClient := fd;
          routine := ShellRoutine;
        } else {
          return -1, Said(BAD_ROUTINE, chance);
        }
        state := ExchangePackets;
      case ExchangePackets =>
        match routine
        case ShellRoutine =>
          var failed := OpenShell(chance);
          if failed {
            return -1, [];
          }
          if !chance.writes {
            return -1, [];
          }
          shell := shell.(typed := shell.typed + [Typed(shell.launched, fd, data)]);
        case _ =>
          return -1, [];
    }

    method OnDisconnect()
      modifies this
      ensures View() == old(View()).(shell := old(shell).(running := false))
    {
      shell := shell.(running := false);
    }

    /** The event loop with one connection at most. */
    method Serve(events: seq<Event>)
      modifies this
      ensures View() == After(old(View()), events)
    {
      var i := 0;
      while i < |events|
        invariant i <= |events|
        invariant After(View(), events[i..]) == After(old(View()), events)
      {
        assert events[i..][0] == events[i] && events[i..][1..] == events[i + 1..];
        Happen(events[i]);
        i := i + 1;
      }
    }

    method Happen(e: Event)
      modifies this
      ensures View() == Next(old(View()), e)
    {
      match e
      case Connect =>
        if !connected {
          connected, heard := true, heard + [[]];
          OnConnect();
        }
      case Read(data, chance) =>
        if connected && heard != [] {
          var c := |heard| - 1;
          heard := heard[c := heard[c] + [data]];
          var code, said := OnRead(c, data, chance);
          if code < 0 {
            connected := false;
            OnDisconnect();
          }
        }
      case Drop =>
        if connected {
          connected := false;
          OnDisconnect();
        }
      case ShellEnds =>
        shell := shell.(running := false);
    }
  }
}
