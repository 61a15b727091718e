/**
 `EpollServer::run_thread` on any number of threads. Each thread is a program counter with
 its two maps and its connection count. Every statement that touches the kernel, the mutex or
 a callback is one step, so steps of different threads interleave freely; the two statements
 that enter or erase a pair in the thread's own maps are one step, as no other thread sees them.
 */
module EpollServer {
  import opened Text

  type Fd = int

  datatype Cause = TimedOut | HungUp | ReadFailed

  /** Where a thread stands; the file descriptors it holds outside its maps are part of this. */
  datatype Pc =
    | Waiting                        // in epoll_wait, between two events
    | Accepting                      // holds the mutex, at the head of the accept loop
    | Accepted(fd: Fd)               // a connection has been taken from the listening socket
    | Admitted(fd: Fd)               // accept_continuation has let it pass
    | Registered(fd: Fd)             // it is registered with the thread's epoll
    | Timed(fd: Fd, timer: Fd)       // it has a timer
    | Tracked(fd: Fd)                // it is in both maps
    | Announced(fd: Fd)              // on_connect has been called
    | LeavingAccept                  // behind the accept loop
    | Erased(fd: Fd, timer: Fd)      // taken out of both maps
    | TimerClosed(fd: Fd)
    | Closed(fd: Fd)                 // the descriptor is back with the kernel
    | Notified(fd: Fd)               // on_disconnect has been called
    | Listening(fd: Fd)              // the listening socket is registered again if it had to be

  /** What a thread decides by: where it stands, its count, and whether its epoll has the listening socket. */
  datatype Control = Control(pc: Pc, connections: int, listening: bool)

  /** What a thread keeps of its connections; `ids` are the serial numbers behind the descriptors. */
  datatype Maps = Maps(timerToClient: map<Fd, Fd>, clientToTimer: map<Fd, Fd>, ids: map<Fd, nat>)

  datatype Thread = Thread(control: Control, maps: Maps)

  datatype Server = Server(
    max: int,
    threads: seq<Thread>,
    open: set<Fd>,                   // descriptors the kernel has handed out
    holder: Option<nat>,             // the thread that holds accept_mutex
    accepted: nat,                   // connections accepted so far; the next serial number
    connects: multiset<nat>,         // on_connect calls
    disconnects: multiset<nat>,      // on_disconnect calls
    causes: map<nat, Cause>)         // why connections were closed

  datatype Act =
    | Lock | TakeConnection(fd: Fd) | NothingToAccept
    | Continue(ok: bool) | Register(ok: bool) | SetTimer(timer: Fd) | Track | CallOnConnect | Count | Rearm
    | StartClose(fd: Fd, timer: Fd, cause: Cause) | CloseTimer | CloseClient | CallOnDisconnect | Relisten | Uncount

  const FRESH_THREAD := Thread(Control(Waiting, 0, true), Maps(map[], map[], map[]))

  function Init(max: int, n: nat, used: set<Fd>): Server {
    Server(max, seq(n, _ => FRESH_THREAD), used, None, 0, multiset{}, multiset{}, map[])
  }

  /** How the thread goes on; None when the step cannot be taken. */
  function StepControl(c: Control, act: Act, max: int): Option<Control> {
    match act
    case Lock => if c.pc.Waiting? && c.listening then Some(c.(pc := Accepting)) else None
    case TakeConnection(fd) => if c.pc.Accepting? && c.connections < max then Some(c.(pc := Accepted(fd))) else None
    case NothingToAccept => if c.pc.Accepting? then Some(c.(pc := LeavingAccept)) else None
    case Continue(ok) => if c.pc.Accepted? then Some(c.(pc := if ok then Admitted(c.pc.fd) else LeavingAccept)) else None
    case Register(ok) => if c.pc.Admitted? then Some(c.(pc := if ok then Registered(c.pc.fd) else LeavingAccept)) else None
    case SetTimer(timer) => if c.pc.Registered? then Some(c.(pc := Timed(c.pc.fd, timer))) else None
    case Track => if c.pc.Timed? then Some(c.(pc := Tracked(c.pc.fd))) else None
    case CallOnConnect => if c.pc.Tracked? then Some(c.(pc := Announced(c.pc.fd))) else None
    case Count => if c.pc.Announced? then Some(c.(pc := Accepting, connections := c.connections + 1)) else None
    case Rearm => if c.pc.LeavingAccept? then Some(c.(pc := Waiting, listening := c.connections < max)) else None
    case StartClose(fd, timer, _) => if c.pc.Waiting? then Some(c.(pc := Erased(fd, timer))) else None
    case CloseTimer => if c.pc.Erased? then Some(c.(pc := TimerClosed(c.pc.fd))) else None
    case CloseClient => if c.pc.TimerClosed? then Some(c.(pc := Closed(c.pc.fd))) else None
    case CallOnDisconnect => if c.pc.Closed? then Some(c.(pc := Notified(c.pc.fd))) else None
    case Relisten =>
      if c.pc.Notified? then Some(c.(pc := Listening(c.pc.fd), listening := c.listening || c.connections >= max)) else None
    case Uncount => if c.pc.Listening? then Some(c.(pc := Waiting, connections := c.connections - 1)) else None
  }

  /** What happens to the maps; a close looks its timer up. */
  function StepMaps(m: Maps, pc: Pc, act: Act, serial: nat): Option<Maps> {
    match act
    case TakeConnection(fd) => Some(m.(ids := m.ids[fd := serial]))
    case Continue(ok) => Some(if ok || !pc.Accepted? then m else m.(ids := m.ids - {pc.fd}))
    case Register(ok) => Some(if ok || !pc.Admitted? then m else m.(ids := m.ids - {pc.fd}))
    case Track =>
      Some(if !pc.Timed? then m
           else m.(timerToClient := m.timerToClient[pc.timer := pc.fd], clientToTimer := m.clientToTimer[pc.fd := pc.timer]))
    case StartClose(fd, timer, _) =>
      if fd in m.clientToTimer && m.clientToTimer[fd] == timer then
        Some(m.(timerToClient := m.timerToClient - {timer}, clientToTimer := m.clientToTimer - {fd}))
      else None
    case Uncount => Some(if !pc.Listening? then m else m.(ids := m.ids - {pc.fd}))
    case _ => Some(m)
  }

  function StepThread(th: Thread, act: Act, max: int, serial: nat): Option<Thread> {
    var c := StepControl(th.control, act, max);
    var m := StepMaps(th.maps, th.control.pc, act, serial);
    if c.None? || m.None? then None else Some(Thread(c.value, m.value))
  }

  /** Descriptors the kernel hands out in a step, and descriptors that go back to it. */
  function Taken(act: Act): set<Fd> {
    match act
    case TakeConnection(fd) => {fd}
    case SetTimer(timer) => {timer}
    case _ => {}
  }

  function Released(pc: Pc, act: Act): set<Fd> {
    if pc.Accepted? && act == Continue(false) then {pc.fd}
    else if pc.Admitted? && act == Register(false) then {pc.fd}
    else if pc.Erased? && act.CloseTimer? then {pc.timer}
    else if pc.TimerClosed? && act.CloseClient? then {pc.fd}
    else {}
  }

  /** The connection a callback or a close is about. */
  function SubjectFd(pc: Pc, act: Act): Option<Fd> {
    if act.CallOnConnect? && pc.Tracked? then Some(pc.fd)
    else if act.CallOnDisconnect? && pc.Closed? then Some(pc.fd)
    else if act.StartClose? then Some(act.fd)
    else None
  }

  function Subject(th: Thread, act: Act): Option<nat> {
    match SubjectFd(th.control.pc, act)
    case Some(fd) => if fd in th.maps.ids then Some(th.maps.ids[fd]) else None
    case None => None
  }

  function Once(id: Option<nat>, when: bool): multiset<nat> {
    if when && id.Some? then multiset{id.value} else multiset{}
  }

  /** One step of thread `t`; None when it cannot be taken. */
  function Next(s: Server, t: nat, act: Act): Option<Server>
    requires t < |s.threads|
  {
    var th := s.threads[t];
    var id := Subject(th, act);
    match StepThread(th, act, s.max, s.accepted)
    case None => None
    case Some(next) =>
      if (act.Lock? && s.holder.Some?) || Taken(act) * s.open != {} then None
      else Some(Server(
        s.max,
        s.threads[t := next],
        s.open + Taken(act) - Released(th.control.pc, act),
        if act.Lock? then Some(t) else if act.Rearm? then None else s.holder,
        if act.TakeConnection? then s.accepted + 1 else s.accepted,
        s.connects + Once(id, act.CallOnConnect?),
        s.disconnects + Once(id, act.CallOnDisconnect?),
        if act.StartClose? && id.Some? then s.causes[id.value := act.cause] else s.causes))
  }

  // ----- What every thread keeps

  /** The connection the program counter is busy with. */
  predicate Busy(pc: Pc, fd: Fd) {
    !pc.Waiting? && !pc.Accepting? && !pc.LeavingAccept? && pc.fd == fd
  }

  /** An open descriptor that the thread holds outside its maps. */
  predicate InHand(pc: Pc, fd: Fd) {
    match pc
    case Accepted(f) => fd == f
    case Admitted(f) => fd == f
    case Registered(f) => fd == f
    case Timed(f, timer) => fd == f || fd == timer
    case Erased(f, timer) => fd == f || fd == timer
    case TimerClosed(f) => fd == f
    case _ => false
  }

  /** An open descriptor that belongs to the thread. */
  predicate Owns(th: Thread, fd: Fd) {
    fd in th.maps.clientToTimer || fd in th.maps.timerToClient || InHand(th.control.pc, fd)
  }

  predicate InAccept(pc: Pc) {
    pc.Accepting? || pc.Accepted? || pc.Admitted? || pc.Registered? || pc.Timed? || pc.Tracked? || pc.Announced? || pc.LeavingAccept?
  }

  predicate InClose(pc: Pc) {
    pc.Erased? || pc.TimerClosed? || pc.Closed? || pc.Notified? || pc.Listening?
  }

  /** The two maps are inverse to each other, and no descriptor is a client and a timer. */
  predicate Inverse(clientToTimer: map<Fd, Fd>, timerToClient: map<Fd, Fd>) {
    && (forall f <- clientToTimer :: clientToTimer[f] in timerToClient && timerToClient[clientToTimer[f]] == f)
    && (forall g <- timerToClient :: timerToClient[g] in clientToTimer && clientToTimer[timerToClient[g]] == g)
    && (forall f :: !(f in clientToTimer && f in timerToClient))
  }

  /** Connections tracked but not counted, less connections counted but no longer tracked. */
  function Uncounted(pc: Pc): int {
    if pc.Tracked? || pc.Announced? then 1 else if InClose(pc) then -1 else 0
  }

  /**
   With `n` tracked connections: the count is right, there is room while a connection is
   being admitted, and the listening socket is registered exactly while there is room,
   except where a step is about to restore this.
   */
  predicate Counts(c: Control, n: int, max: int) {
    && c.connections == n - Uncounted(c.pc)
    && c.connections <= max
    && (InAccept(c.pc) && !c.pc.Accepting? && !c.pc.LeavingAccept? ==> c.connections < max)
    && (if InAccept(c.pc) || c.pc.Listening? then c.listening else c.listening <==> c.connections < max)
  }

  predicate Free(m: Maps, fd: Fd) {
    fd !in m.clientToTimer && fd !in m.timerToClient
  }

  /** What the thread holds in hand is not in its maps. */
  predicate HandApart(pc: Pc, m: Maps) {
    match pc
    case Accepted(fd) => Free(m, fd)
    case Admitted(fd) => Free(m, fd)
    case Registered(fd) => Free(m, fd)
    case Timed(fd, timer) => Free(m, fd) && Free(m, timer) && fd != timer
    case Erased(fd, timer) => Free(m, fd) && Free(m, timer) && fd != timer
    case TimerClosed(fd) => Free(m, fd)
    case Tracked(fd) => fd in m.clientToTimer
    case Announced(fd) => fd in m.clientToTimer
    case Closed(fd) => fd !in m.clientToTimer
    case Notified(fd) => fd !in m.clientToTimer
    case Listening(fd) => fd !in m.clientToTimer
    case _ => true
  }

  /** Serial numbers are known of the tracked connections and of the one the thread is busy with. */
  predicate Known(pc: Pc, m: Maps) {
    && (forall fd <- m.ids :: fd in m.clientToTimer || Busy(pc, fd))
    && (forall fd <- m.clientToTimer :: fd in m.ids)
    && (!pc.Waiting? && !pc.Accepting? && !pc.LeavingAccept? ==> pc.fd in m.ids)
  }

  /** The maps of a thread that stands at `pc` are in order. */
  predicate MapsInv(pc: Pc, m: Maps) {
    Inverse(m.clientToTimer, m.timerToClient) && HandApart(pc, m) && Known(pc, m)
  }

  predicate ThreadInv(th: Thread, max: int) {
    MapsInv(th.control.pc, th.maps) && Counts(th.control, |th.maps.clientToTimer|, max)
  }

  lemma InverseTrack(clients: map<Fd, Fd>, timers: map<Fd, Fd>, fd: Fd, timer: Fd)
    requires Inverse(clients, timers) && fd != timer
    requires fd !in clients && fd !in timers && timer !in clients && timer !in timers
    ensures Inverse(clients[fd := timer], timers[timer := fd])
  {}

  lemma InverseErase(clients: map<Fd, Fd>, timers: map<Fd, Fd>, fd: Fd)
    requires Inverse(clients, timers) && fd in clients
    ensures clients[fd] in timers && clients[fd] !in clients && fd !in timers
    ensures Inverse(clients - {fd}, timers - {clients[fd]})
  {
    var timer := clients[fd];
    assert timer in timers;
    assert !(timer in clients && timer in timers);
  }

  lemma MinusKey<K, V>(m: map<K, V>, k: K)
    requires k in m
    ensures |m - {k}| == |m| - 1
  {
    assert (m - {k}).Keys == m.Keys - {k};
    assert |(m - {k}).Keys| == |m.Keys| - 1;
  }

  lemma PlusKey<K, V>(m: map<K, V>, k: K, v: V)
    requires k !in m
    ensures |m[k := v]| == |m| + 1
  {
    assert m[k := v].Keys == m.Keys + {k};
    assert |m[k := v].Keys| == |m.Keys| + 1;
  }

  lemma CountsKeep(c: Control, n: int, act: Act, max: int)
    requires Counts(c, n, max) && StepControl(c, act, max).Some?
    ensures Counts(StepControl(c, act, max).value, n + (if act.Track? then 1 else if act.StartClose? then -1 else 0), max)
  {}

  lemma TrackKeeps(m: Maps, fd: Fd, timer: Fd)
    requires MapsInv(Timed(fd, timer), m)
    ensures MapsInv(Tracked(fd), m.(timerToClient := m.timerToClient[timer := fd], clientToTimer := m.clientToTimer[fd := timer]))
    ensures |m.clientToTimer[fd := timer]| == |m.clientToTimer| + 1
  {
    hide Inverse;
    InverseTrack(m.clientToTimer, m.timerToClient, fd, timer);
    PlusKey(m.clientToTimer, fd, timer);
  }

  lemma EraseKeeps(m: Maps, fd: Fd)
    requires MapsInv(Waiting, m) && fd in m.clientToTimer
    ensures var timer := m.clientToTimer[fd];
      MapsInv(Erased(fd, timer), m.(timerToClient := m.timerToClient - {timer}, clientToTimer := m.clientToTimer - {fd}))
    ensures |m.clientToTimer - {fd}| == |m.clientToTimer| - 1
  {
    hide Inverse;
    InverseErase(m.clientToTimer, m.timerToClient, fd);
    MinusKey(m.clientToTimer, fd);
  }

  lemma TakeKeeps(m: Maps, fd: Fd, serial: nat)
    requires MapsInv(Accepting, m) && Free(m, fd)
    ensures MapsInv(Accepted(fd), m.(ids := m.ids[fd := serial]))
  {
    hide Inverse;
  }

  /** A connection that is not tracked is forgotten. */
  lemma ForgetKeeps(pc: Pc, m: Maps, to: Pc)
    requires MapsInv(pc, m) && (pc.Accepted? || pc.Admitted? || pc.Listening?) && (to.LeavingAccept? || to.Waiting?)
    ensures MapsInv(to, m.(ids := m.ids - {pc.fd}))
  {
    hide Inverse;
  }

  /** The kernel hands out descriptors that the thread does not own. */
  predicate TakesNew(th: Thread, act: Act) {
    forall fd <- Taken(act) :: !Owns(th, fd)
  }

  /** Steps that only move the program counter. */
  lemma MoveKeeps(th: Thread, act: Act, max: int)
    requires StepControl(th.control, act, max).Some? && MapsInv(th.control.pc, th.maps) && TakesNew(th, act)
    requires !act.TakeConnection? && !act.Track? && !act.StartClose? && !act.Uncount? && act != Continue(false) && act != Register(false)
    ensures MapsInv(StepControl(th.control, act, max).value.pc, th.maps)
  {
    hide Inverse;
    assert act.SetTimer? ==> act.timer in Taken(act);
  }

  /** The maps stay in order, and the number of tracked connections changes by the step. */
  lemma MapsKeep(th: Thread, act: Act, max: int, serial: nat)
    requires StepThread(th, act, max, serial).Some? && MapsInv(th.control.pc, th.maps) && TakesNew(th, act)
    ensures var next := StepThread(th, act, max, serial).value;
      && MapsInv(next.control.pc, next.maps)
      && |next.maps.clientToTimer| == |th.maps.clientToTimer| + (if act.Track? then 1 else if act.StartClose? then -1 else 0)
  {
    hide MapsInv;
    var m, pc := th.maps, th.control.pc;
    match act {
      case TakeConnection(fd) =>
        assert fd in Taken(act);
        TakeKeeps(m, fd, serial);
      case Track => TrackKeeps(m, pc.fd, pc.timer);
      case StartClose(fd, _, _) => EraseKeeps(m, fd);
      case Uncount => ForgetKeeps(pc, m, Waiting);
      case Continue(ok) => if ok { MoveKeeps(th, act, max); } else { ForgetKeeps(pc, m, LeavingAccept); }
      case Register(ok) => if ok { MoveKeeps(th, act, max); } else { ForgetKeeps(pc, m, LeavingAccept); }
      case _ => MoveKeeps(th, act, max);
    }
  }

  /** A thread's own step keeps its invariant. */
  lemma ThreadKeeps(th: Thread, act: Act, max: int, serial: nat)
    requires StepThread(th, act, max, serial).Some? && ThreadInv(th, max) && TakesNew(th, act)
    ensures ThreadInv(StepThread(th, act, max, serial).value, max)
  {
    hide StepControl, StepMaps, MapsInv, Counts;
    CountsKeep(th.control, |th.maps.clientToTimer|, act, max);
    MapsKeep(th, act, max, serial);
  }

  /** What a thread owns changes by what the kernel hands out and gets back. */
  lemma OwnedStep(th: Thread, act: Act, max: int, serial: nat, fd: Fd)
    requires StepThread(th, act, max, serial).Some? && ThreadInv(th, max) && TakesNew(th, act)
    ensures fd in Released(th.control.pc, act) ==> Owns(th, fd)
    ensures Owns(StepThread(th, act, max, serial).value, fd)
      <==> (Owns(th, fd) || fd in Taken(act)) && fd !in Released(th.control.pc, act)
  {
    hide Counts, Known;
    if act.StartClose? {
      InverseErase(th.maps.clientToTimer, th.maps.timerToClient, act.fd);
    } else if !act.Track? {
      OwnedInHand(th, act, max, serial, fd);
    }
  }

  /** Steps that leave the two maps alone only change what is in hand. */
  lemma OwnedInHand(th: Thread, act: Act, max: int, serial: nat, fd: Fd)
    requires StepThread(th, act, max, serial).Some? && ThreadInv(th, max) && !act.StartClose? && !act.Track?
    ensures var next := StepThread(th, act, max, serial).value;
      && next.maps.clientToTimer == th.maps.clientToTimer && next.maps.timerToClient == th.maps.timerToClient
      && (fd in Released(th.control.pc, act) ==> InHand(th.control.pc, fd))
      && (InHand(next.control.pc, fd) <==> (InHand(th.control.pc, fd) || fd in Taken(act)) && fd !in Released(th.control.pc, act))
      && (fd in Released(th.control.pc, act) ==> Free(th.maps, fd))
  {
    MapsStay(th.maps, th.control.pc, act, serial);
    assert StepControl(th.control, act, max).Some? && HandApart(th.control.pc, th.maps);
    hide StepMaps, ThreadInv;
    HandStep(th.control, act, max, th.maps, fd);
  }

  lemma MapsStay(m: Maps, pc: Pc, act: Act, serial: nat)
    requires StepMaps(m, pc, act, serial).Some? && !act.StartClose? && !act.Track?
    ensures StepMaps(m, pc, act, serial).value.clientToTimer == m.clientToTimer
    ensures StepMaps(m, pc, act, serial).value.timerToClient == m.timerToClient
  {}

  lemma HandStep(c: Control, act: Act, max: int, m: Maps, fd: Fd)
    requires StepControl(c, act, max).Some? && HandApart(c.pc, m) && !act.StartClose? && !act.Track?
    ensures fd in Released(c.pc, act) ==> InHand(c.pc, fd) && Free(m, fd)
    ensures InHand(StepControl(c, act, max).value.pc, fd)
      <==> (InHand(c.pc, fd) || fd in Taken(act)) && fd !in Released(c.pc, act)
  {
    hide Free;
  }

  // ----- What every interleaving keeps

  /** Owned descriptors are open, and no descriptor belongs to two threads. */
  ghost predicate Apart(s: Server) {
    && (forall t, fd | 0 <= t < |s.threads| && Owns(s.threads[t], fd) :: fd in s.open)
    && (forall t, u, fd | 0 <= t < |s.threads| && 0 <= u < |s.threads| && Owns(s.threads[t], fd) && Owns(s.threads[u], fd) :: t == u)
  }

  ghost predicate EachThread(s: Server) {
    forall t :: 0 <= t < |s.threads| ==> ThreadInv(s.threads[t], s.max)
  }

  /** Only the thread that holds the mutex is between lock and unlock. */
  ghost predicate Exclusive(s: Server) {
    forall t :: 0 <= t < |s.threads| ==> (InAccept(s.threads[t].control.pc) <==> s.holder == Some(t))
  }

  lemma ApartKeeps(s: Server, t: nat, act: Act)
    requires t < |s.threads| && Next(s, t, act).Some? && EachThread(s) && Apart(s)
    ensures Apart(Next(s, t, act).value) && EachThread(Next(s, t, act).value)
  {
    hide StepThread, ThreadInv, Owns, Released, Taken;
    var th, next := s.threads[t], Next(s, t, act).value;
    assert TakesNew(th, act) by {
      forall fd <- Taken(act)
        ensures !Owns(th, fd)
      {
        assert fd !in Taken(act) * s.open ==> fd !in s.open;
      }
    }
    ThreadKeeps(th, act, s.max, s.accepted);
    forall fd
      ensures fd in Released(th.control.pc, act) ==> Owns(th, fd)
      ensures Owns(next.threads[t], fd) <==> (Owns(th, fd) || fd in Taken(act)) && fd !in Released(th.control.pc, act)
      ensures fd in Taken(act) ==> fd !in s.open
    {
      OwnedStep(th, act, s.max, s.accepted, fd);
      assert fd !in Taken(act) * s.open;
    }
  }

  lemma ExclusiveKeeps(s: Server, t: nat, act: Act)
    requires t < |s.threads| && Next(s, t, act).Some? && Exclusive(s)
    ensures Exclusive(Next(s, t, act).value)
  {
    var th, next := s.threads[t], Next(s, t, act).value;
    assert InAccept(next.threads[t].control.pc) <==> (if act.Lock? then true else if act.Rearm? then false else InAccept(th.control.pc));
  }

  // ----- Callbacks

  /** How often a connection has been announced and taken leave of, and whether it was closed for a cause. */
  datatype Record = Record(connects: nat, disconnects: nat, caused: bool)

  function RecordOf(s: Server, id: nat): Record {
    Record(s.connects[id], s.disconnects[id], id in s.causes)
  }

  /** The record of the connection behind `fd` when its thread stands at `pc`. */
  function Stage(pc: Pc, fd: Fd): Record {
    if !Busy(pc, fd) || pc.Announced? then Record(1, 0, false)
    else if pc.Erased? || pc.TimerClosed? || pc.Closed? then Record(1, 0, true)
    else if pc.Notified? || pc.Listening? then Record(1, 1, true)
    else Record(0, 0, false)
  }

  predicate Holds(s: Server, t: nat, fd: Fd, id: nat)
    requires t < |s.threads|
  {
    fd in s.threads[t].maps.ids && s.threads[t].maps.ids[fd] == id
  }

  ghost predicate Held(s: Server, id: nat) {
    exists t, fd :: 0 <= t < |s.threads| && Holds(s, t, fd, id)
  }

  /** A connection that is over: it was turned away unannounced, or announced and then taken leave of. */
  predicate Settled(r: Record) {
    r == Record(0, 0, false) || r == Record(1, 1, true)
  }

  ghost predicate Calls(s: Server) {
    && (forall t, fd, id: nat | 0 <= t < |s.threads| && Holds(s, t, fd, id) ::
          id < s.accepted && RecordOf(s, id) == Stage(s.threads[t].control.pc, fd))
    && (forall t, u, f, g, id: nat | 0 <= t < |s.threads| && 0 <= u < |s.threads| && Holds(s, t, f, id) && Holds(s, u, g, id) ::
          t == u && f == g)
    && (forall id: nat :: id < s.accepted && !Held(s, id) ==> Settled(RecordOf(s, id)))
    && (forall id: nat :: id >= s.accepted ==> RecordOf(s, id) == Record(0, 0, false))
  }

  function Changed(r: Record, act: Act): Record {
    if act.CallOnConnect? then r.(connects := r.connects + 1)
    else if act.CallOnDisconnect? then r.(disconnects := r.disconnects + 1)
    else if act.StartClose? then r.(caused := true)
    else r
  }

  /** A step changes only the record of its subject. */
  lemma RecordStep(s: Server, t: nat, act: Act, id: nat)
    requires t < |s.threads| && Next(s, t, act).Some?
    ensures RecordOf(Next(s, t, act).value, id)
      == if Subject(s.threads[t], act) == Some(id) then Changed(RecordOf(s, id), act) else RecordOf(s, id)
  {
    hide StepThread;
  }

  /** Within a thread, a connection's stage moves on exactly when it is the subject of the step. */
  lemma StageStep(th: Thread, act: Act, max: int, serial: nat, fd: Fd)
    requires StepThread(th, act, max, serial).Some? && ThreadInv(th, max) && TakesNew(th, act)
    ensures var next := StepThread(th, act, max, serial).value;
      && (act.TakeConnection? && act.fd == fd ==> fd in next.maps.ids && next.maps.ids[fd] == serial && fd !in th.maps.ids)
      && (fd in next.maps.ids && !(act.TakeConnection? && act.fd == fd) ==>
            && fd in th.maps.ids && next.maps.ids[fd] == th.maps.ids[fd]
            && Stage(next.control.pc, fd)
                 == if SubjectFd(th.control.pc, act) == Some(fd) then Changed(Stage(th.control.pc, fd), act)
                    else Stage(th.control.pc, fd))
      && (act.TakeConnection? && act.fd == fd ==> Stage(next.control.pc, fd) == Record(0, 0, false))
      && (fd in th.maps.ids && fd !in next.maps.ids ==>
            Settled(Stage(th.control.pc, fd)) && SubjectFd(th.control.pc, act) == None)
  {
    assert act.TakeConnection? ==> act.fd in Taken(act);
    assert act.TakeConnection? ==> Free(th.maps, act.fd);
    assert Known(th.control.pc, th.maps);
    hide ThreadInv, Owns;
    IdsStep(th.maps, th.control.pc, act, serial, fd);
    hide Known, StepMaps, Stage;
    StageMoves(th.control, act, max, fd);
  }

  /** The connection leaves its thread: it is turned away, or its close is complete. */
  predicate Lets(pc: Pc, act: Act, fd: Fd) {
    Busy(pc, fd) && (act == Continue(false) || act == Register(false) || act.Uncount?)
  }

  /** Serial numbers come with a connection and go when its thread lets it go. */
  lemma IdsStep(m: Maps, pc: Pc, act: Act, serial: nat, fd: Fd)
    requires StepMaps(m, pc, act, serial).Some? && Known(pc, m)
    requires act.Continue? ==> pc.Accepted?
    requires act.Register? ==> pc.Admitted?
    requires act.Uncount? ==> pc.Listening?
    requires act.TakeConnection? ==> pc.Accepting? && Free(m, act.fd)
    ensures var next := StepMaps(m, pc, act, serial).value;
      if act.TakeConnection? && act.fd == fd then fd in next.ids && next.ids[fd] == serial && fd !in m.ids
      else
        && (fd in next.ids <==> fd in m.ids && !Lets(pc, act, fd))
        && (fd in next.ids ==> next.ids[fd] == m.ids[fd])
  {}

  /** The record a stage stands for moves on with the callbacks. */
  lemma StageMoves(c: Control, act: Act, max: int, fd: Fd)
    requires StepControl(c, act, max).Some?
    ensures var next := StepControl(c, act, max).value;
      && (Lets(c.pc, act, fd) ==> Settled(Stage(c.pc, fd)) && SubjectFd(c.pc, act) == None)
      && (act.TakeConnection? && act.fd == fd ==> Stage(next.pc, fd) == Record(0, 0, false))
      && (!Lets(c.pc, act, fd) && !(act.TakeConnection? && act.fd == fd) ==>
            Stage(next.pc, fd) == if SubjectFd(c.pc, act) == Some(fd) then Changed(Stage(c.pc, fd), act) else Stage(c.pc, fd))
  {}

  /** Where a connection was before the step that leaves it with `fd`. */
  lemma HoldsBefore(s: Server, t: nat, act: Act, u: nat, fd: Fd, id: nat)
    requires t < |s.threads| && u < |s.threads| && Next(s, t, act).Some? && EachThread(s) && Apart(s) && Calls(s)
    requires Holds(Next(s, t, act).value, u, fd, id)
    ensures var next := Next(s, t, act).value;
      if t == u && act.TakeConnection? && act.fd == fd then
        id == s.accepted && Stage(next.threads[u].control.pc, fd) == Record(0, 0, false)
      else
        && Holds(s, u, fd, id) && id < s.accepted
        && RecordOf(next, id) == Stage(next.threads[u].control.pc, fd)
  {
    hide StepThread, ThreadInv, Stage, Owns, RecordOf;
    var th, next := s.threads[t], Next(s, t, act).value;
    RecordStep(s, t, act, id);
    if t == u {
      TakesNewHere(s, t, act);
      StageStep(th, act, s.max, s.accepted, fd);
      if fd in th.maps.ids {
        SubjectIs(s, t, act, fd);
      }
    } else {
      assert Holds(s, u, fd, id);
      SubjectOther(s, t, act, u, fd, id);
    }
  }

  lemma TakesNewHere(s: Server, t: nat, act: Act)
    requires t < |s.threads| && Next(s, t, act).Some? && Apart(s)
    ensures TakesNew(s.threads[t], act)
  {
    hide StepThread, Owns, Taken;
    forall fd <- Taken(act)
      ensures !Owns(s.threads[t], fd)
    {
      assert fd !in Taken(act) * s.open;
    }
  }

  /** The subject of a step is the connection behind its descriptor. */
  lemma SubjectIs(s: Server, t: nat, act: Act, fd: Fd)
    requires t < |s.threads| && Calls(s) && fd in s.threads[t].maps.ids
    ensures Subject(s.threads[t], act) == Some(s.threads[t].maps.ids[fd]) <==> SubjectFd(s.threads[t].control.pc, act) == Some(fd)
  {
    hide Stage, RecordOf;
    var ids := s.threads[t].maps.ids;
    if Subject(s.threads[t], act) == Some(ids[fd]) {
      var f := SubjectFd(s.threads[t].control.pc, act).value;
      assert Holds(s, t, f, ids[fd]) && Holds(s, t, fd, ids[fd]);
    }
  }

  lemma SubjectOther(s: Server, t: nat, act: Act, u: nat, fd: Fd, id: nat)
    requires t < |s.threads| && u < |s.threads| && t != u && Calls(s) && Holds(s, u, fd, id)
    ensures Subject(s.threads[t], act) != Some(id)
  {
    hide Stage, RecordOf;
    var f := SubjectFd(s.threads[t].control.pc, act);
    if f.Some? {
      assert !Holds(s, t, f.value, id);
    }
  }

  lemma CallsKeeps(s: Server, t: nat, act: Act)
    requires t < |s.threads| && Next(s, t, act).Some? && EachThread(s) && Apart(s) && Calls(s)
    ensures Calls(Next(s, t, act).value)
  {
    hide StepThread, ThreadInv, Stage, Owns, RecordOf, Subject, Settled;
    var next := Next(s, t, act).value;
    forall u, fd, id: nat | 0 <= u < |s.threads| && Holds(next, u, fd, id)
      ensures id < next.accepted && RecordOf(next, id) == Stage(next.threads[u].control.pc, fd)
      ensures if t == u && act.TakeConnection? && act.fd == fd then id == s.accepted else Holds(s, u, fd, id) && id < s.accepted
    {
      HoldsBefore(s, t, act, u, fd, id);
      RecordStep(s, t, act, id);
      NewIsNoSubject(s, t, act);
    }
    forall id: nat
      ensures id >= next.accepted ==> RecordOf(next, id) == Record(0, 0, false)
      ensures id < next.accepted && !Held(next, id) ==> Settled(RecordOf(next, id))
    {
      LooseRecord(s, t, act, id);
    }
  }

  lemma NewIsNoSubject(s: Server, t: nat, act: Act)
    requires t < |s.threads| && Calls(s)
    ensures Subject(s.threads[t], act).Some? ==> Subject(s.threads[t], act).value < s.accepted
  {
    hide Stage, RecordOf;
    if Subject(s.threads[t], act).Some? {
      var f := SubjectFd(s.threads[t].control.pc, act).value;
      assert Holds(s, t, f, Subject(s.threads[t], act).value);
    }
  }

  /** Connections that no thread holds: not accepted yet, or settled. */
  lemma LooseRecord(s: Server, t: nat, act: Act, id: nat)
    requires t < |s.threads| && Next(s, t, act).Some? && EachThread(s) && Apart(s) && Calls(s)
    ensures var next := Next(s, t, act).value;
      && (id >= next.accepted ==> RecordOf(next, id) == Record(0, 0, false))
      && (id < next.accepted && !Held(next, id) ==> Settled(RecordOf(next, id)))
  {
    hide StepThread, ThreadInv, Stage, Owns, RecordOf, Subject, Settled;
    var th, next := s.threads[t], Next(s, t, act).value;
    RecordStep(s, t, act, id);
    NewIsNoSubject(s, t, act);
    TakesNewHere(s, t, act);
    assert forall u, fd :: 0 <= u < |s.threads| && u != t && Holds(s, u, fd, id) ==> Holds(next, u, fd, id);
    if act.TakeConnection? && id == s.accepted {
      StageStep(th, act, s.max, s.accepted, act.fd);
      assert Holds(next, t, act.fd, id);
      assert Held(next, id);
    } else if id < s.accepted && !Held(next, id) {
      if Held(s, id) {
        var u, fd :| 0 <= u < |s.threads| && Holds(s, u, fd, id);
        assert u == t && !Holds(next, t, fd, id);
        StageStep(th, act, s.max, s.accepted, fd);
        SubjectIs(s, t, act, fd);
      } else if Subject(th, act) == Some(id) {
        SubjectHeld(s, t, act, id);
      }
    }
  }

  lemma SubjectHeld(s: Server, t: nat, act: Act, id: nat)
    requires t < |s.threads| && Subject(s.threads[t], act) == Some(id)
    ensures Held(s, id)
  {
    assert Holds(s, t, SubjectFd(s.threads[t].control.pc, act).value, id);
  }

  ghost predicate Inv(s: Server) {
    EachThread(s) && Apart(s) && Exclusive(s) && Calls(s)
  }

  lemma InitInv(max: int, n: nat, used: set<Fd>)
    requires max > 0
    ensures Inv(Init(max, n, used))
  {}

  lemma StepInv(s: Server, t: nat, act: Act)
    requires t < |s.threads| && Next(s, t, act).Some? && Inv(s)
    ensures Inv(Next(s, t, act).value)
  {
    hide Next, EachThread, Apart, Exclusive, Calls;
    ApartKeeps(s, t, act);
    ExclusiveKeeps(s, t, act);
    CallsKeeps(s, t, act);
  }

  /** A step of some thread. */
  ghost predicate Step(s: Server, next: Server) {
    exists t, act :: 0 <= t < |s.threads| && Next(s, t, act) == Some(next)
  }

  ghost predicate Run(states: seq<Server>, max: int, n: nat, used: set<Fd>) {
    && states != [] && states[0] == Init(max, n, used)
    && forall i :: 0 < i < |states| ==> Step(states[i - 1], states[i])
  }

  lemma {:induction false} RunInv(states: seq<Server>, max: int, n: nat, used: set<Fd>, i: nat)
    requires max > 0 && Run(states, max, n, used) && i < |states|
    ensures Inv(states[i]) && states[i].max == max && |states[i].threads| == n
    decreases i
  {
    hide Inv;
    if i == 0 {
      InitInv(max, n, used);
    } else {
      RunInv(states, max, n, used, i - 1);
      var t, act :| 0 <= t < |states[i - 1].threads| && Next(states[i - 1], t, act) == Some(states[i]);
      StepInv(states[i - 1], t, act);
    }
  }

  // ----- The main results

  /**
   At every moment of every interleaving: each thread's two maps are inverse to each other,
   every tracked descriptor is open, and no descriptor is tracked by two threads.
   */
  lemma TrackedOnce(states: seq<Server>, max: int, n: nat, used: set<Fd>, i: nat, t: nat, u: nat, fd: Fd)
    requires max > 0 && Run(states, max, n, used) && i < |states| && t < n && u < n
    ensures var s := states[i];
      && |s.threads| == n
      && Inverse(s.threads[t].maps.clientToTimer, s.threads[t].maps.timerToClient)
      && (fd in s.threads[t].maps.clientToTimer || fd in s.threads[t].maps.timerToClient ==> fd in s.open)
      && (t != u ==>
            !((fd in s.threads[t].maps.clientToTimer || fd in s.threads[t].maps.timerToClient)
              && (fd in s.threads[u].maps.clientToTimer || fd in s.threads[u].maps.timerToClient)))
  {
    RunInv(states, max, n, used, i);
    hide Inverse;
    var s := states[i];
    assert Owns(s.threads[t], fd) && Owns(s.threads[u], fd) ==> t == u;
    assert Owns(s.threads[t], fd) ==> fd in s.open;
  }

  /** Between two events a thread's count is the size of its maps, within bounds, and it listens exactly while it has room. */
  lemma CountedAtRest(states: seq<Server>, max: int, n: nat, used: set<Fd>, i: nat, t: nat)
    requires max > 0 && Run(states, max, n, used) && i < |states| && t < n
    ensures var s := states[i];
      && |s.threads| == n
      && var c, m := s.threads[t].control, s.threads[t].maps;
         c.pc.Waiting? ==>
           c.connections == |m.clientToTimer| && 0 <= c.connections <= max && (c.listening <==> c.connections < max)
  {
    RunInv(states, max, n, used, i);
    hide Inverse;
  }

  /** No two threads are accepting at the same time. */
  lemma AcceptAlone(states: seq<Server>, max: int, n: nat, used: set<Fd>, i: nat, t: nat, u: nat)
    requires max > 0 && Run(states, max, n, used) && i < |states| && t < n && u < n
    ensures |states[i].threads| == n
    ensures InAccept(states[i].threads[t].control.pc) && InAccept(states[i].threads[u].control.pc) ==> t == u
  {
    RunInv(states, max, n, used, i);
  }

  /**
   Of every connection: on_connect is called at most once, on_disconnect at most once and
   never before, and only for one that was closed by timeout, hang-up or failed read. When
   no thread holds the connection any more, it had neither call and no cause, or all three.
   */
  lemma CallbackOnce(states: seq<Server>, max: int, n: nat, used: set<Fd>, i: nat, id: nat)
    requires max > 0 && Run(states, max, n, used) && i < |states|
    ensures var s := states[i];
      && s.disconnects[id] <= s.connects[id] <= 1
      && (s.disconnects[id] == 1 ==> id in s.causes)
      && (id in s.causes ==> s.connects[id] == 1)
      && (!Held(s, id) ==> (s.connects[id] == 1 <==> id in s.causes) && s.disconnects[id] == s.connects[id])
  {
    RunInv(states, max, n, used, i);
    hide EachThread, Apart, Exclusive;
    var s := states[i];
    var r := RecordOf(s, id);
    if Held(s, id) {
      var t, fd :| 0 <= t < |s.threads| && Holds(s, t, fd, id);
      assert r == Stage(s.threads[t].control.pc, fd);
    } else {
      assert Settled(r);
    }
  }

  /** A tracked and counted connection has been announced exactly once and not been taken leave of. */
  lemma CountedIsAnnounced(states: seq<Server>, max: int, n: nat, used: set<Fd>, i: nat, t: nat, fd: Fd)
    requires max > 0 && Run(states, max, n, used) && i < |states| && t < n
    requires |states[i].threads| == n && fd in states[i].threads[t].maps.clientToTimer && !states[i].threads[t].control.pc.Tracked?
    ensures var s := states[i];
      && fd in s.threads[t].maps.ids
      && s.connects[s.threads[t].maps.ids[fd]] == 1 && s.disconnects[s.threads[t].maps.ids[fd]] == 0
  {
    RunInv(states, max, n, used, i);
    hide Inverse, Apart, Exclusive;
    var s := states[i];
    var th := s.threads[t];
    assert ThreadInv(th, max);
    var id := th.maps.ids[fd];
    assert Holds(s, t, fd, id);
    assert RecordOf(s, id) == Stage(th.control.pc, fd);
  }

  /** The connection that a thread gives up because accept_continuation or the registration failed. */
  predicate Refuses(th: Thread, act: Act, id: nat) {
    && (if th.control.pc.Accepted? then act == Continue(false) else th.control.pc.Admitted? && act == Register(false))
    && th.control.pc.fd in th.maps.ids && th.maps.ids[th.control.pc.fd] == id
  }

  /** Given up: nobody holds it, and no callback was called. */
  ghost predicate Gone(s: Server, id: nat) {
    id < s.accepted && !Held(s, id) && RecordOf(s, id) == Record(0, 0, false)
  }

  lemma RefusedIsGone(s: Server, t: nat, act: Act, id: nat)
    requires t < |s.threads| && Inv(s) && Next(s, t, act).Some? && Refuses(s.threads[t], act, id)
    ensures Gone(Next(s, t, act).value, id)
  {
    hide EachThread, Apart, Exclusive, RecordOf;
    var next, fd := Next(s, t, act).value, s.threads[t].control.pc.fd;
    assert Holds(s, t, fd, id);
    RecordStep(s, t, act, id);
    forall u, f | 0 <= u < |next.threads|
      ensures !Holds(next, u, f, id)
    {
      if Holds(next, u, f, id) {
        HoldsBefore(s, t, act, u, f, id);
      }
    }
  }

  /** What nobody holds stays as it is. */
  lemma GoneStays(s: Server, t: nat, act: Act, id: nat)
    requires t < |s.threads| && Inv(s) && Next(s, t, act).Some? && Gone(s, id)
    ensures Gone(Next(s, t, act).value, id)
  {
    hide Next, EachThread, Apart, Exclusive, Calls, RecordOf, Holds;
    var next := Next(s, t, act).value;
    RecordStep(s, t, act, id);
    if Subject(s.threads[t], act) == Some(id) {
      SubjectHeld(s, t, act, id);
    }
    SameThreads(s, t, act);
    forall u, fd | 0 <= u < |next.threads|
      ensures !Holds(next, u, fd, id)
    {
      if Holds(next, u, fd, id) {
        HoldsBefore(s, t, act, u, fd, id);
      }
    }
  }

  lemma SameThreads(s: Server, t: nat, act: Act)
    requires t < |s.threads| && Next(s, t, act).Some?
    ensures |Next(s, t, act).value.threads| == |s.threads| && Next(s, t, act).value.accepted >= s.accepted
  {}

  /** A refused connection gets neither callback, then or ever after. */
  lemma {:induction false} RefusedSilent(states: seq<Server>, max: int, n: nat, used: set<Fd>, i: nat, t: nat, act: Act, id: nat, j: nat)
    requires max > 0 && Run(states, max, n, used) && i < j < |states| && t < |states[i].threads|
    requires Next(states[i], t, act) == Some(states[i + 1]) && Refuses(states[i].threads[t], act, id)
    ensures Gone(states[j], id)
    ensures states[j].connects[id] == 0 && states[j].disconnects[id] == 0
    decreases j
  {
    hide Inv, Next, Held;
    if j == i + 1 {
      RunInv(states, max, n, used, i);
      RefusedIsGone(states[i], t, act, id);
    } else {
      RefusedSilent(states, max, n, used, i, t, act, id, j - 1);
      RunInv(states, max, n, used, j - 1);
      assert Step(states[j - 1], states[j]);
      var u, a :| 0 <= u < |states[j - 1].threads| && Next(states[j - 1], u, a) == Some(states[j]);
      GoneStays(states[j - 1], u, a, id);
    }
  }
}
