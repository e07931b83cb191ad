/** Pooled MUX execution: the client half (`execViaMux` and the one-shot fallback behind it)
    and the daemon half (`HandleMux`, and `HandleTransfer` for one-shot connections) as one
    transition system over reliable FIFO connections.

    Any number of calls to one host run at the same time; the session's mutex, the pooled
    connection and the connections left behind by failed calls are all part of the state.
    The fault model: a peer's close is seen only after everything it sent before, an error of any
    other cause (a deadline, ETIMEDOUT, an unreadable reply, anything else) may strike any read or
    write, and the daemon closes only where `HandleMux` reads its next line. It may also die anywhere
    (`DaemonDies`); exactly one kind of death is harmful. */
module MuxProtocol {
  import opened NetErrors
  import opened Optional

  type CallId = nat
  type ConnId = nat

  // ----- state -----

  datatype Line = Exej(id: CallId) | Quit

  /** A reply line: the result of running the command, or a policy refusal without running it. */
  datatype Reply = Ran(id: CallId) | Refused(id: CallId)

  /** `during` is the command that a daemon died in the middle of; the client cannot see it. */
  datatype Daemon = Reading | Running(id: CallId) | Gone(during: Option<CallId>)

  datatype Kind = Mux | OneShot

  datatype Conn = Conn(kind: Kind, inbox: seq<Line>, outbox: seq<Reply>, daemon: Daemon, hungUp: bool)

  datatype Outcome = Answered(reply: Reply) | Failed

  /** Where a call is inside `ExecCommandStructuredTimeout` and `execViaMux`. */
  datatype Pc =
    | Waiting                                            // wants the session's mutex
    | Dialing(retry: bool)                               // inside establish
    | Ready(reused: bool, retry: bool)                   // about to write the command
    | Sent(reused: bool, retry: bool)                    // waiting for the reply
    | Broken(reused: bool, retry: bool, safe: bool)        // the round trip failed; safe = safeToRetry(err)
    | FallBack                                           // about to open a one-shot connection
    | OneShotSent(conn: ConnId)
    | Done(outcome: Outcome)

  datatype State = State(
    conns: seq<Conn>,
    pooled: Option<ConnId>,        // muxSession.conn
    noMux: bool,                   // muxSession.noMux
    lock: Option<CallId>,          // holder of muxSession.mu
    calls: map<CallId, Pc>,
    ran: multiset<CallId>)         // every command execution the daemon ever started

  const INIT := State([], None, false, None, map[], multiset{})

  datatype DialResult = Up | DialError | NoMuxReply | HandshakeError

  datatype Event =
    | Begin(id: CallId, persistent: bool)
    | Acquire(id: CallId)
    | Dial(id: CallId, result: DialResult)
    | Write(id: CallId)
    | WriteFails(id: CallId, err: NetError)
    | ReadReply(id: CallId)
    | ReadFails(id: CallId, err: NetError)
    | DropSession(id: CallId)
    | OneShotWrite(id: CallId)
    | OneShotDialFails(id: CallId)
    | OneShotReply(id: CallId)
    | OneShotFails(id: CallId)
    | DaemonReads(conn: ConnId, permitted: bool)
    | DaemonFinishes(conn: ConnId)
    | DaemonCloses(conn: ConnId)
    | DaemonDies(conn: ConnId)

  predicate At(s: State, id: CallId, pc: Pc) {
    id in s.calls && s.calls[id] == pc
  }

  predicate HasSession(s: State) {
    s.pooled.Some? && s.pooled.value < |s.conns|
  }

  function Session(s: State): Conn
    requires HasSession(s)
  {
    s.conns[s.pooled.value]
  }

  function Goto(s: State, id: CallId, pc: Pc): State {
    s.(calls := s.calls[id := pc])
  }

  /** Leaving `execViaMux` releases the mutex. */
  function Leave(s: State, id: CallId, pc: Pc): State {
    Goto(s, id, pc).(lock := None)
  }

  function SetConn(s: State, c: ConnId, conn: Conn): State
    requires c < |s.conns|
  {
    s.(conns := s.conns[c := conn])
  }

  // ----- the client's steps -----

  function AfterAcquire(s: State, id: CallId): State {
    if s.noMux then Goto(s, id, FallBack)
    else Goto(s, id, if s.pooled.Some? then Ready(true, false) else Dialing(false)).(lock := Some(id))
  }

  predicate CanDial(s: State, id: CallId) {
    id in s.calls && s.calls[id].Dialing?
  }

  function AfterDial(s: State, id: CallId, result: DialResult): State
    requires CanDial(s, id)
  {
    var retry := s.calls[id].retry;
    match result
    case Up =>
      Goto(s, id, Ready(false, retry)).(
        conns := s.conns + [Conn(Mux, [], [], Reading, false)],
        pooled := Some(|s.conns|))
    case DialError => Leave(s, id, Done(Failed))
    case NoMuxReply => Leave(s, id, if retry then Done(Failed) else FallBack).(noMux := true)
    case HandshakeError => Leave(s, id, if retry then Done(Failed) else FallBack)
  }

  predicate CanWrite(s: State, id: CallId) {
    id in s.calls && s.calls[id].Ready? && HasSession(s)
  }

  function AfterWrite(s: State, id: CallId): State
    requires CanWrite(s, id)
  {
    SetConn(Goto(s, id, Sent(s.calls[id].reused, s.calls[id].retry)), s.pooled.value,
            Session(s).(inbox := Session(s).inbox + [Exej(id)]))
  }

  function AfterWriteFails(s: State, id: CallId, safe: bool): State
    requires CanWrite(s, id)
  {
    Goto(s, id, Broken(s.calls[id].reused, s.calls[id].retry, safe))
  }

  predicate CanRead(s: State, id: CallId) {
    id in s.calls && s.calls[id].Sent? && HasSession(s)
  }

  function AfterReadReply(s: State, id: CallId): State
    requires CanRead(s, id) && Session(s).outbox != []
  {
    SetConn(Leave(s, id, Done(Answered(Session(s).outbox[0]))), s.pooled.value,
            Session(s).(outbox := Session(s).outbox[1..]))
  }

  function AfterReadFails(s: State, id: CallId, safe: bool): State
    requires CanRead(s, id)
  {
    Goto(s, id, Broken(s.calls[id].reused, s.calls[id].retry, safe))
  }

  predicate CanDrop(s: State, id: CallId) {
    id in s.calls && s.calls[id].Broken? && HasSession(s)
  }

  /** `closeLocked`, then the one retry or the error return. */
  function AfterDrop(s: State, id: CallId): State
    requires CanDrop(s, id)
  {
    var pc := s.calls[id];
    var dropped := SetConn(s, s.pooled.value,
                           Session(s).(inbox := Session(s).inbox + [Quit], hungUp := true)).(pooled := None);
    if !pc.retry && pc.reused && pc.safe then Goto(dropped, id, Dialing(true))
    else Leave(dropped, id, Done(Failed))
  }

  function AfterOneShotWrite(s: State, id: CallId): State {
    Goto(s, id, OneShotSent(|s.conns|)).(conns := s.conns + [Conn(OneShot, [Exej(id)], [], Reading, false)])
  }

  predicate CanReadOneShot(s: State, id: CallId) {
    id in s.calls && s.calls[id].OneShotSent? && s.calls[id].conn < |s.conns|
  }

  function AfterOneShotReply(s: State, id: CallId): State
    requires CanReadOneShot(s, id) && s.conns[s.calls[id].conn].outbox != []
  {
    var conn := s.conns[s.calls[id].conn];
    SetConn(Goto(s, id, Done(Answered(conn.outbox[0]))), s.calls[id].conn,
            conn.(outbox := conn.outbox[1..], hungUp := true))
  }

  function AfterOneShotFails(s: State, id: CallId): State
    requires CanReadOneShot(s, id)
  {
    SetConn(Goto(s, id, Done(Failed)), s.calls[id].conn, s.conns[s.calls[id].conn].(hungUp := true))
  }

  // ----- the daemon's steps -----

  predicate CanServe(s: State, c: ConnId) {
    c < |s.conns| && s.conns[c].daemon.Reading? && s.conns[c].inbox != []
  }

  /** One turn of the daemon's read loop, up to starting the command. */
  function AfterDaemonReads(s: State, c: ConnId, permitted: bool): State
    requires CanServe(s, c)
  {
    var conn := s.conns[c].(inbox := s.conns[c].inbox[1..]);
    match s.conns[c].inbox[0]
    case Quit => SetConn(s, c, conn.(daemon := Gone(None)))
    case Exej(id) =>
      if permitted then
        SetConn(s, c, conn.(daemon := Running(id))).(ran := s.ran + multiset{id})
      else
        SetConn(s, c, conn.(
          outbox := conn.outbox + [Refused(id)],
          daemon := if conn.kind.Mux? then Reading else Gone(None)))
  }

  /** The command ends: its reply is written before the next read. */
  function AfterDaemonFinishes(s: State, c: ConnId): State
    requires c < |s.conns| && s.conns[c].daemon.Running?
  {
    var conn := s.conns[c];
    SetConn(s, c, conn.(
      outbox := conn.outbox + [Ran(conn.daemon.id)],
      daemon := if conn.kind.Mux? then Reading else Gone(None)))
  }

  function AfterDaemonGone(s: State, c: ConnId): State
    requires c < |s.conns|
  {
    var daemon := s.conns[c].daemon;
    SetConn(s, c, s.conns[c].(daemon :=
      match daemon
      case Reading => Gone(None)
      case Running(id) => Gone(Some(id))
      case Gone(_) => daemon))
  }

  // ----- runs -----

  predicate Enabled(s: State, e: Event) {
    match e
    case Begin(id, _) => id !in s.calls
    case Acquire(id) => At(s, id, Waiting) && s.lock.None?
    case Dial(id, _) => CanDial(s, id)
    case Write(id) => CanWrite(s, id)
    case WriteFails(id, err) => CanWrite(s, id) && Plausible(err) && (Closing(err.cause) ==> Session(s).daemon.Gone?)
    case ReadReply(id) => CanRead(s, id) && Session(s).outbox != []
    case ReadFails(id, err) =>
      && CanRead(s, id) && Plausible(err)
      && (Closing(err.cause) ==> Session(s).daemon.Gone? && Session(s).outbox == [])
    case DropSession(id) => CanDrop(s, id)
    case OneShotWrite(id) => At(s, id, FallBack)
    case OneShotDialFails(id) => At(s, id, FallBack)
    case OneShotReply(id) => CanReadOneShot(s, id) && s.conns[s.calls[id].conn].outbox != []
    case OneShotFails(id) => CanReadOneShot(s, id)
    case DaemonReads(c, _) => CanServe(s, c)
    case DaemonFinishes(c) => c < |s.conns| && s.conns[c].daemon.Running?
    case DaemonCloses(c) => c < |s.conns| && s.conns[c].daemon.Reading?
    case DaemonDies(c) => c < |s.conns|
  }

  function Apply(s: State, e: Event): State
    requires Enabled(s, e)
  {
    match e
    case Begin(id, persistent) => Goto(s, id, if persistent then Waiting else FallBack)
    case Acquire(id) => AfterAcquire(s, id)
    case Dial(id, result) => AfterDial(s, id, result)
    case Write(id) => AfterWrite(s, id)
    case WriteFails(id, err) => AfterWriteFails(s, id, SafeToRetry(err))
    case ReadReply(id) => AfterReadReply(s, id)
    case ReadFails(id, err) => AfterReadFails(s, id, SafeToRetry(err))
    case DropSession(id) => AfterDrop(s, id)
    case OneShotWrite(id) => AfterOneShotWrite(s, id)
    case OneShotDialFails(id) => Goto(s, id, Done(Failed))
    case OneShotReply(id) => AfterOneShotReply(s, id)
    case OneShotFails(id) => AfterOneShotFails(s, id)
    case DaemonReads(c, permitted) => AfterDaemonReads(s, c, permitted)
    case DaemonFinishes(c) => AfterDaemonFinishes(s, c)
    case DaemonCloses(c) => AfterDaemonGone(s, c)
    case DaemonDies(c) => AfterDaemonGone(s, c)
  }

  /** An event that is not enabled leaves the state alone, so every event list is a run. */
  function Step(s: State, e: Event): State {
    if Enabled(s, e) then Apply(s, e) else s
  }

  function After(run: seq<Event>): State {
    if run == [] then INIT else Step(After(run[..|run| - 1]), run[|run| - 1])
  }

  /** The daemon dies while it runs a command that came over a reused session, before the retry. */
  predicate Harmful(s: State, e: Event) {
    && e.DaemonDies? && s.pooled == Some(e.conn) && HasSession(s)
    && Session(s).daemon.Running? && At(s, Session(s).daemon.id, Sent(true, false))
  }

  /** A run in which the daemon dies only where that does no harm. */
  predicate Orderly(run: seq<Event>) {
    run == [] || (Orderly(run[..|run| - 1]) && !Harmful(After(run[..|run| - 1]), run[|run| - 1]))
  }

  // ----- the invariant -----

  /** The daemon may still execute the copy of `id` that waits on this connection. */
  predicate Holds(c: Conn, id: CallId) {
    !c.daemon.Gone? && c.inbox != [] && c.inbox[0] == Exej(id)
  }

  ghost predicate Unread(s: State, id: CallId) {
    forall c | 0 <= c < |s.conns| :: !Holds(s.conns[c], id)
  }

  /** The daemon has not run the command, and no copy of it can still reach the daemon. */
  ghost predicate Clean(s: State, id: CallId) {
    s.ran[id] == 0 && Unread(s, id)
  }

  predicate Quiet(c: Conn) {
    c.inbox == [] && c.outbox == [] && !c.daemon.Running?
  }

  /** The four places a command can be between the client's write and its read. */
  ghost predicate Flight(s: State, c: Conn, id: CallId) {
    || (c.inbox == [Exej(id)] && c.outbox == [] && c.daemon.Reading? && s.ran[id] == 0)
    || (c.inbox == [Exej(id)] && c.outbox == [] && c.daemon.Gone? && Clean(s, id))
    || (c.inbox == [] && c.outbox == [] && c.daemon == Running(id) && s.ran[id] == 1)
    || (c.inbox == [] && c.outbox == [Ran(id)] && !c.daemon.Running? && s.ran[id] == 1)
    || (c.inbox == [] && c.outbox == [Refused(id)] && !c.daemon.Running? && Clean(s, id))
  }

  /** The daemon died while it ran the command. */
  predicate Lost(s: State, c: Conn, id: CallId) {
    c.inbox == [] && c.outbox == [] && c.daemon == Gone(Some(id)) && s.ran[id] == 1
  }

  ghost predicate CallOk(s: State, id: CallId, pc: Pc) {
    match pc
    case Waiting => Clean(s, id)
    case FallBack => Clean(s, id)
    case Dialing(_) => s.lock == Some(id) && s.pooled.None? && Clean(s, id)
    case Ready(_, _) => s.lock == Some(id) && HasSession(s) && Quiet(Session(s)) && Clean(s, id)
    case Sent(reused, retry) =>
      && s.lock == Some(id) && HasSession(s)
      && (Flight(s, Session(s), id) || (!(reused && !retry) && Lost(s, Session(s), id)))
    case Broken(reused, retry, safe) =>
      && s.lock == Some(id) && HasSession(s)
      && (Session(s).inbox == [] || Session(s).inbox == [Exej(id)])
      && (safe ==> Unread(s, id))
      && (safe && reused && !retry ==> Clean(s, id))
    case OneShotSent(c) =>
      && c < |s.conns| && s.conns[c].kind.OneShot?
      && (Flight(s, s.conns[c], id) || Lost(s, s.conns[c], id))
    case Done(Failed) => true
    case Done(Answered(reply)) =>
      reply.id == id && (if reply.Ran? then s.ran[id] == 1 else Clean(s, id))
  }

  /** The calls that may have a copy of their command waiting at the daemon. */
  predicate Exposed(pc: Pc) {
    || pc.Sent? || pc.OneShotSent? || pc == Done(Failed)
    || (pc.Broken? && !pc.safe)
  }

  predicate InboxShape(inbox: seq<Line>) {
    || inbox == [] || inbox == [Quit]
    || (|inbox| == 1 && inbox[0].Exej?)
    || (|inbox| == 2 && inbox[0].Exej? && inbox[1].Quit?)
  }

  ghost predicate ConnsOk(s: State) {
    && (forall c | 0 <= c < |s.conns| :: InboxShape(s.conns[c].inbox))
    && (forall c, id | 0 <= c < |s.conns| && Holds(s.conns[c], id) ::
          s.ran[id] == 0 && id in s.calls && Exposed(s.calls[id]))
    && (forall c, d, id | 0 <= c < |s.conns| && 0 <= d < |s.conns| && Holds(s.conns[c], id) && Holds(s.conns[d], id) ::
          c == d)
  }

  ghost predicate SessionOk(s: State) {
    && (s.pooled.Some? ==> HasSession(s) && Session(s).kind.Mux?)
    && (s.pooled.Some? && s.lock.None? ==> Quiet(Session(s)))
    && (s.lock.Some? ==>
          && s.lock.value in s.calls
          && var pc := s.calls[s.lock.value]; (pc.Dialing? || pc.Ready? || pc.Sent? || pc.Broken?))
  }

  ghost predicate CallsOk(s: State) {
    && (forall id | id in s.calls :: CallOk(s, id, s.calls[id]))
    && (forall id :: s.ran[id] <= 1)
    && (forall id | id !in s.calls :: s.ran[id] == 0)
  }

  ghost predicate Inv(s: State) {
    ConnsOk(s) && SessionOk(s) && CallsOk(s)
  }

  // ----- every step keeps it -----

  /** A step of the mutex holder that touches no one-shot connection and gives no other
      call's command a new place leaves the other calls as they were. */
  lemma OthersKept(s: State, s': State, id: CallId)
    requires Inv(s)
    requires s.lock == Some(id)
    requires s'.ran == s.ran && s'.calls.Keys == s.calls.Keys
    requires forall j | j in s.calls && j != id :: s'.calls[j] == s.calls[j]
    requires |s.conns| <= |s'.conns|
    requires forall c | 0 <= c < |s.conns| && s.conns[c].kind.OneShot? :: s'.conns[c] == s.conns[c]
    requires forall c, j | 0 <= c < |s'.conns| && j != id && Holds(s'.conns[c], j) ::
      c < |s.conns| && Holds(s.conns[c], j)
    ensures forall j | j in s'.calls && j != id :: CallOk(s', j, s'.calls[j])
  {
    forall j | j in s'.calls && j != id
      ensures CallOk(s', j, s'.calls[j])
    {
      assert CallOk(s, j, s.calls[j]);
    }
  }

  lemma DialUpKeepsInv(s: State, id: CallId)
    requires Inv(s) && CanDial(s, id)
    ensures Inv(AfterDial(s, id, Up))
  {
    var s' := AfterDial(s, id, Up);
    assert CallOk(s, id, s.calls[id]);
    DialUpKeepsConns(s, id);
    OthersKept(s, s', id);
    assert CallOk(s', id, s'.calls[id]);
  }

  lemma DialUpKeepsConns(s: State, id: CallId)
    requires Inv(s) && CanDial(s, id)
    ensures var s' := AfterDial(s, id, Up);
      ConnsOk(s') && forall c, j | 0 <= c < |s'.conns| && Holds(s'.conns[c], j) :: c < |s.conns| && Holds(s.conns[c], j)
  {
    assert CallOk(s, id, s.calls[id]);
  }

  lemma DialFailsKeepsInv(s: State, id: CallId, result: DialResult)
    requires Inv(s) && CanDial(s, id) && !result.Up?
    ensures Inv(AfterDial(s, id, result))
  {
    var s' := AfterDial(s, id, result);
    assert CallOk(s, id, s.calls[id]);
    OthersKept(s, s', id);
    assert CallOk(s', id, s'.calls[id]);
  }

  lemma WriteKeepsInv(s: State, id: CallId)
    requires Inv(s) && CanWrite(s, id)
    ensures Inv(AfterWrite(s, id))
  {
    var s' := AfterWrite(s, id);
    assert CallOk(s, id, s.calls[id]);
    OthersKept(s, s', id);
    assert CallOk(s', id, s'.calls[id]);
  }

  lemma BreakKeepsInv(s: State, id: CallId, safe: bool)
    requires Inv(s) && id in s.calls && HasSession(s)
    requires s.calls[id].Ready? || s.calls[id].Sent?
    requires safe ==> Session(s).daemon.Gone? && Session(s).outbox == []
    ensures Inv(Goto(s, id, Broken(s.calls[id].reused, s.calls[id].retry, safe)))
  {
    var s' := Goto(s, id, Broken(s.calls[id].reused, s.calls[id].retry, safe));
    BreakKeepsCall(s, id, safe);
    OthersKept(s, s', id);
  }

  lemma BreakKeepsCall(s: State, id: CallId, safe: bool)
    requires Inv(s) && id in s.calls && HasSession(s)
    requires s.calls[id].Ready? || s.calls[id].Sent?
    requires safe ==> Session(s).daemon.Gone? && Session(s).outbox == []
    ensures var s' := Goto(s, id, Broken(s.calls[id].reused, s.calls[id].retry, safe));
      CallOk(s', id, s'.calls[id]) && s.lock == Some(id) && (safe ==> Unread(s, id))
  {
    assert CallOk(s, id, s.calls[id]);
  }

  lemma ReadReplyKeepsInv(s: State, id: CallId)
    requires Inv(s) && CanRead(s, id) && Session(s).outbox != []
    ensures Inv(AfterReadReply(s, id))
  {
    var s' := AfterReadReply(s, id);
    assert CallOk(s, id, s.calls[id]);
    OthersKept(s, s', id);
    assert CallOk(s', id, s'.calls[id]);
  }

  lemma DropHolds(s: State, id: CallId)
    requires CanDrop(s, id) && (Session(s).inbox == [] || Session(s).inbox == [Exej(id)])
    ensures var s' := AfterDrop(s, id);
      && InboxShape(s'.conns[s.pooled.value].inbox)
      && forall d, j | 0 <= d < |s'.conns| && Holds(s'.conns[d], j) :: Holds(s.conns[d], j)
  {
    var inbox := AfterDrop(s, id).conns[s.pooled.value].inbox;
    assert inbox == Session(s).inbox + [Quit];
    assert inbox == [Quit] || inbox == [Exej(id), Quit];
  }

  lemma DropKeepsConns(s: State, id: CallId)
    requires Inv(s) && CanDrop(s, id)
    ensures ConnsOk(AfterDrop(s, id))
  {
    assert CallOk(s, id, s.calls[id]);
    DropHolds(s, id);
  }

  lemma DropKeepsInv(s: State, id: CallId)
    requires Inv(s) && CanDrop(s, id)
    ensures Inv(AfterDrop(s, id))
  {
    var s' := AfterDrop(s, id);
    assert CallOk(s, id, s.calls[id]);
    DropHolds(s, id);
    DropKeepsConns(s, id);
    OthersKept(s, s', id);
    assert CallOk(s', id, s'.calls[id]);
  }

  /** A step of a one-shot call: its own connection is the only one that changes. */
  lemma OneShotOthersKept(s: State, s': State, id: CallId, c: ConnId)
    requires Inv(s) && id in s.calls && c <= |s.conns|
    requires (s.calls[id].FallBack? && c == |s.conns|) || s.calls[id] == OneShotSent(c)
    requires s'.ran == s.ran && s'.calls.Keys == s.calls.Keys && s'.lock == s.lock && s'.pooled == s.pooled
    requires forall j | j in s.calls && j != id :: s'.calls[j] == s.calls[j]
    requires |s.conns| <= |s'.conns|
    requires forall d | 0 <= d < |s.conns| && d != c :: s'.conns[d] == s.conns[d]
    requires forall d, j | 0 <= d < |s'.conns| && j != id && Holds(s'.conns[d], j) ::
      d < |s.conns| && Holds(s.conns[d], j)
    ensures forall j | j in s'.calls && j != id :: CallOk(s', j, s'.calls[j])
  {
    forall j | j in s'.calls && j != id
      ensures CallOk(s', j, s'.calls[j])
    {
      OneShotOtherKept(s, s', id, c, j);
    }
  }

  lemma OneShotOtherKept(s: State, s': State, id: CallId, c: ConnId, j: CallId)
    requires Inv(s) && id in s.calls && c <= |s.conns|
    requires (s.calls[id].FallBack? && c == |s.conns|) || s.calls[id] == OneShotSent(c)
    requires s'.ran == s.ran && s'.calls.Keys == s.calls.Keys && s'.lock == s.lock && s'.pooled == s.pooled
    requires |s.conns| <= |s'.conns|
    requires forall d | 0 <= d < |s.conns| && d != c :: s'.conns[d] == s.conns[d]
    requires j in s.calls && j != id && s'.calls[j] == s.calls[j]
    requires forall d | 0 <= d < |s'.conns| && Holds(s'.conns[d], j) :: d < |s.conns| && Holds(s.conns[d], j)
    ensures CallOk(s', j, s'.calls[j])
  {
    assert CallOk(s, id, s.calls[id]);
    assert CallOk(s, j, s.calls[j]);
  }

  lemma OneShotWriteKeepsInv(s: State, id: CallId)
    requires Inv(s) && At(s, id, FallBack)
    ensures Inv(AfterOneShotWrite(s, id))
  {
    var s' := AfterOneShotWrite(s, id);
    assert CallOk(s, id, s.calls[id]);
    OneShotOthersKept(s, s', id, |s.conns|);
    assert CallOk(s', id, s'.calls[id]);
  }

  lemma OneShotReplyKeepsInv(s: State, id: CallId)
    requires Inv(s) && CanReadOneShot(s, id) && s.conns[s.calls[id].conn].outbox != []
    ensures Inv(AfterOneShotReply(s, id))
  {
    var s' := AfterOneShotReply(s, id);
    OneShotReplyKeepsConns(s, id);
    OneShotOthersKept(s, s', id, s.calls[id].conn);
    OneShotReplyKeepsCall(s, id);
  }

  lemma OneShotReplyKeepsConns(s: State, id: CallId)
    requires Inv(s) && CanReadOneShot(s, id) && s.conns[s.calls[id].conn].outbox != []
    ensures var s' := AfterOneShotReply(s, id);
      ConnsOk(s') && SessionOk(s')
      && forall d, j | 0 <= d < |s'.conns| && Holds(s'.conns[d], j) :: Holds(s.conns[d], j)
  {
    assert CallOk(s, id, s.calls[id]);
  }

  lemma OneShotReplyKeepsCall(s: State, id: CallId)
    requires Inv(s) && CanReadOneShot(s, id) && s.conns[s.calls[id].conn].outbox != []
    ensures var s' := AfterOneShotReply(s, id); CallOk(s', id, s'.calls[id])
  {
    assert CallOk(s, id, s.calls[id]);
  }

  lemma OneShotFailsKeepsInv(s: State, id: CallId)
    requires Inv(s) && CanReadOneShot(s, id)
    ensures Inv(AfterOneShotFails(s, id))
  {
    var s' := AfterOneShotFails(s, id);
    assert CallOk(s, id, s.calls[id]);
    OneShotOthersKept(s, s', id, s.calls[id].conn);
    assert CallOk(s', id, s'.calls[id]);
  }

  lemma OneShotDialFailsKeepsInv(s: State, id: CallId)
    requires Inv(s) && At(s, id, FallBack)
    ensures Inv(Goto(s, id, Done(Failed)))
  {
    var s' := Goto(s, id, Done(Failed));
    OneShotOthersKept(s, s', id, |s.conns|);
    assert CallOk(s', id, s'.calls[id]);
  }

  lemma BeginKeepsInv(s: State, id: CallId, persistent: bool)
    requires Inv(s) && id !in s.calls
    ensures Inv(Goto(s, id, if persistent then Waiting else FallBack))
  {
    var s' := Goto(s, id, if persistent then Waiting else FallBack);
    forall j | j in s'.calls
      ensures CallOk(s', j, s'.calls[j])
    {
      BeginKeepsCall(s, id, persistent, j);
    }
  }

  lemma BeginKeepsCall(s: State, id: CallId, persistent: bool, j: CallId)
    requires Inv(s) && id !in s.calls && (j in s.calls || j == id)
    ensures var s' := Goto(s, id, if persistent then Waiting else FallBack); CallOk(s', j, s'.calls[j])
  {
    assert j != id ==> CallOk(s, j, s.calls[j]);
  }

  lemma AcquireKeepsInv(s: State, id: CallId)
    requires Inv(s) && At(s, id, Waiting) && s.lock.None?
    ensures Inv(AfterAcquire(s, id))
  {
    var s' := AfterAcquire(s, id);
    forall j | j in s'.calls
      ensures CallOk(s', j, s'.calls[j])
    {
      assert CallOk(s, j, s.calls[j]);
    }
  }

  lemma GoneKeepsCall(s: State, c: ConnId, j: CallId)
    requires Inv(s) && c < |s.conns| && j in s.calls && !Harmful(s, DaemonDies(c))
    ensures CallOk(AfterDaemonGone(s, c), j, s.calls[j])
  {
    assert CallOk(s, j, s.calls[j]);
    var s' := AfterDaemonGone(s, c);
    assert forall d | 0 <= d < |s'.conns| && Holds(s'.conns[d], j) :: d != c && Holds(s.conns[d], j);
  }

  lemma DaemonGoneKeepsInv(s: State, c: ConnId)
    requires Inv(s) && c < |s.conns| && !Harmful(s, DaemonDies(c))
    ensures Inv(AfterDaemonGone(s, c))
  {
    forall j | j in s.calls
      ensures CallOk(AfterDaemonGone(s, c), j, s.calls[j])
    {
      GoneKeepsCall(s, c, j);
    }
    GoneKeepsConns(s, c);
  }

  lemma GoneKeepsConns(s: State, c: ConnId)
    requires Inv(s) && c < |s.conns|
    ensures ConnsOk(AfterDaemonGone(s, c)) && SessionOk(AfterDaemonGone(s, c))
  {
    var s' := AfterDaemonGone(s, c);
    assert forall d, j | 0 <= d < |s'.conns| && Holds(s'.conns[d], j) :: d != c && Holds(s.conns[d], j);
  }

  lemma FinishKeepsCall(s: State, c: ConnId, j: CallId)
    requires Inv(s) && c < |s.conns| && s.conns[c].daemon.Running? && j in s.calls
    ensures CallOk(AfterDaemonFinishes(s, c), j, s.calls[j])
  {
    assert CallOk(s, j, s.calls[j]);
    var s' := AfterDaemonFinishes(s, c);
    assert forall d | 0 <= d < |s'.conns| && Holds(s'.conns[d], j) :: Holds(s.conns[d], j);
  }

  lemma DaemonFinishesKeepsInv(s: State, c: ConnId)
    requires Inv(s) && c < |s.conns| && s.conns[c].daemon.Running?
    ensures Inv(AfterDaemonFinishes(s, c))
  {
    forall j | j in s.calls
      ensures CallOk(AfterDaemonFinishes(s, c), j, s.calls[j])
    {
      FinishKeepsCall(s, c, j);
    }
    FinishKeepsConns(s, c);
    FinishKeepsSession(s, c);
  }

  lemma FinishKeepsConns(s: State, c: ConnId)
    requires Inv(s) && c < |s.conns| && s.conns[c].daemon.Running?
    ensures ConnsOk(AfterDaemonFinishes(s, c))
  {
    var s' := AfterDaemonFinishes(s, c);
    assert forall d, j | 0 <= d < |s'.conns| && Holds(s'.conns[d], j) :: Holds(s.conns[d], j);
  }

  lemma FinishKeepsSession(s: State, c: ConnId)
    requires Inv(s) && c < |s.conns| && s.conns[c].daemon.Running?
    ensures SessionOk(AfterDaemonFinishes(s, c))
  {
  }

  /** Taking a line off an inbox removes a held command and adds none. */
  lemma ReadHolds(s: State, c: ConnId, permitted: bool)
    requires ConnsOk(s) && CanServe(s, c)
    ensures var s' := AfterDaemonReads(s, c, permitted);
      forall d, j | 0 <= d < |s'.conns| && Holds(s'.conns[d], j) :: d != c && s'.conns[d] == s.conns[d]
  {
    assert InboxShape(s.conns[c].inbox);
  }

  lemma QuitKeepsCall(s: State, c: ConnId, permitted: bool, j: CallId)
    requires Inv(s) && CanServe(s, c) && j in s.calls && s.conns[c].inbox[0].Quit?
    ensures CallOk(AfterDaemonReads(s, c, permitted), j, s.calls[j])
  {
    assert CallOk(s, j, s.calls[j]);
    ReadHolds(s, c, permitted);
  }

  lemma StartKeepsCall(s: State, c: ConnId, j: CallId)
    requires Inv(s) && CanServe(s, c) && j in s.calls && s.conns[c].inbox[0].Exej?
    ensures CallOk(AfterDaemonReads(s, c, true), j, s.calls[j])
  {
    assert CallOk(s, j, s.calls[j]);
    assert Holds(s.conns[c], s.conns[c].inbox[0].id);
    ReadHolds(s, c, true);
  }

  lemma RefuseKeepsCall(s: State, c: ConnId, j: CallId)
    requires Inv(s) && CanServe(s, c) && j in s.calls && s.conns[c].inbox[0].Exej?
    ensures CallOk(AfterDaemonReads(s, c, false), j, s.calls[j])
  {
    assert CallOk(s, j, s.calls[j]);
    assert Holds(s.conns[c], s.conns[c].inbox[0].id);
    ReadHolds(s, c, false);
  }

  lemma ReadKeepsConns(s: State, c: ConnId, permitted: bool)
    requires Inv(s) && CanServe(s, c)
    ensures ConnsOk(AfterDaemonReads(s, c, permitted))
  {
    assert InboxShape(s.conns[c].inbox);
    ReadHolds(s, c, permitted);
  }

  lemma DaemonReadsKeepsInv(s: State, c: ConnId, permitted: bool)
    requires Inv(s) && CanServe(s, c)
    ensures Inv(AfterDaemonReads(s, c, permitted))
  {
    forall j | j in s.calls
      ensures CallOk(AfterDaemonReads(s, c, permitted), j, s.calls[j])
    {
      if s.conns[c].inbox[0].Quit? {
        QuitKeepsCall(s, c, permitted, j);
      } else if permitted {
        StartKeepsCall(s, c, j);
      } else {
        RefuseKeepsCall(s, c, j);
      }
    }
    ReadKeepsConns(s, c, permitted);
    ReadKeepsSession(s, c, permitted);
    ReadCounts(s, c, permitted);
  }

  lemma ReadKeepsSession(s: State, c: ConnId, permitted: bool)
    requires Inv(s) && CanServe(s, c)
    ensures SessionOk(AfterDaemonReads(s, c, permitted))
  {
  }

  lemma ReadCounts(s: State, c: ConnId, permitted: bool)
    requires Inv(s) && CanServe(s, c)
    ensures var s' := AfterDaemonReads(s, c, permitted);
      && (forall id :: s'.ran[id] <= 1)
      && (forall id | id !in s'.calls :: s'.ran[id] == 0)
  {
    if s.conns[c].inbox[0].Exej? {
      assert Holds(s.conns[c], s.conns[c].inbox[0].id);
    }
  }

  lemma StepKeepsInv(s: State, e: Event)
    requires Inv(s) && !Harmful(s, e)
    ensures Inv(Step(s, e))
  {
    if Enabled(s, e) {
      match e
      case Begin(id, persistent) => BeginKeepsInv(s, id, persistent);
      case Acquire(id) => AcquireKeepsInv(s, id);
      case Dial(id, result) => if result.Up? { DialUpKeepsInv(s, id); } else { DialFailsKeepsInv(s, id, result); }
      case Write(id) => WriteKeepsInv(s, id);
      case WriteFails(id, err) =>
        SafeToRetryIff(err);
        assert CallOk(s, id, s.calls[id]);
        BreakKeepsInv(s, id, SafeToRetry(err));
      case ReadReply(id) => ReadReplyKeepsInv(s, id);
      case ReadFails(id, err) =>
        SafeToRetryIff(err);
        BreakKeepsInv(s, id, SafeToRetry(err));
      case DropSession(id) => DropKeepsInv(s, id);
      case OneShotWrite(id) => OneShotWriteKeepsInv(s, id);
      case OneShotDialFails(id) => OneShotDialFailsKeepsInv(s, id);
      case OneShotReply(id) => OneShotReplyKeepsInv(s, id);
      case OneShotFails(id) => OneShotFailsKeepsInv(s, id);
      case DaemonReads(c, permitted) => DaemonReadsKeepsInv(s, c, permitted);
      case DaemonFinishes(c) => DaemonFinishesKeepsInv(s, c);
      case DaemonCloses(c) => DaemonGoneKeepsInv(s, c);
      case DaemonDies(c) => DaemonGoneKeepsInv(s, c);
    }
  }

  lemma {:induction false} RunKeepsInv(run: seq<Event>)
    requires Orderly(run)
    ensures Inv(After(run))
  {
    if run != [] {
      RunKeepsInv(run[..|run| - 1]);
      StepKeepsInv(After(run[..|run| - 1]), run[|run| - 1]);
    }
  }
}
