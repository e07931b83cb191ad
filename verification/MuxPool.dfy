/** The code of `mux_pool.go`, `mux.go` and the exec entry point, statement by statement, run
    against the shared state of `MuxProtocol`. Before every action of a method the other callers
    and the daemon take any number of steps of their own. */
module MuxPool {
  import opened MuxProtocol
  import opened NetErrors
  import opened Optional

  datatype Actor = Caller(id: CallId) | Server(conn: ConnId)

  function ActorOf(e: Event): Actor {
    match e
    case Begin(id, _) => Caller(id)
    case Acquire(id) => Caller(id)
    case Dial(id, _) => Caller(id)
    case Write(id) => Caller(id)
    case WriteFails(id, _) => Caller(id)
    case ReadReply(id) => Caller(id)
    case ReadFails(id, _) => Caller(id)
    case DropSession(id) => Caller(id)
    case OneShotWrite(id) => Caller(id)
    case OneShotDialFails(id) => Caller(id)
    case OneShotReply(id) => Caller(id)
    case OneShotFails(id) => Caller(id)
    case DaemonReads(c, _) => Server(c)
    case DaemonFinishes(c) => Server(c)
    case DaemonCloses(c) => Server(c)
    case DaemonDies(c) => Server(c)
  }

  /** What the steps of others leave alone. */
  predicate Undisturbed(s: State, s': State, me: Actor) {
    match me
    case Caller(id) => (id in s.calls <==> id in s'.calls) && (id in s.calls ==> s'.calls[id] == s.calls[id])
    case Server(c) => c < |s.conns| ==> c < |s'.conns| && s'.conns[c].daemon == s.conns[c].daemon
                                        && s'.conns[c].kind == s.conns[c].kind
  }

  lemma StepUndisturbed(s: State, e: Event, me: Actor)
    requires ActorOf(e) != me
    ensures Undisturbed(s, Step(s, e), me)
  {
    match me
    case Caller(id) => CallUndisturbed(s, e, id);
    case Server(c) => ServerUndisturbed(s, e, c);
  }

  lemma CallUndisturbed(s: State, e: Event, id: CallId)
    requires ActorOf(e) != Caller(id)
    ensures Undisturbed(s, Step(s, e), Caller(id))
  {
  }

  lemma ServerUndisturbed(s: State, e: Event, c: ConnId)
    requires ActorOf(e) != Server(c)
    ensures Undisturbed(s, Step(s, e), Server(c))
  {
  }

  lemma FallBackIsClean(run: seq<Event>, id: CallId)
    requires Orderly(run) && At(After(run), id, FallBack)
    ensures Clean(After(run), id)
  {
    RunKeepsInv(run);
    assert CallOk(After(run), id, FallBack);
  }

  /** The error of a read whose deadline passes. */
  function DeadlinePasses(): (err: NetError)
    ensures Plausible(err) && !Closing(err.cause) && !SafeToRetry(err)
  {
    TimeoutsArePlausible(Deadline);
    NetError("", Deadline)
  }

  class Host {
    var st: State
    ghost var run: seq<Event>

    ghost predicate Valid()
      reads this
    {
      st == After(run) && Orderly(run)
    }

    constructor ()
      ensures Valid() && st == INIT
    {
      st, run := INIT, [];
    }

    method Do(e: Event)
      requires Valid() && Enabled(st, e) && !Harmful(st, e)
      modifies this
      ensures Valid() && run == old(run) + [e] && st == Apply(old(st), e)
    {
      st := Step(st, e);
      run := run + [e];
      assert run[..|run| - 1] == old(run);
    }

    /** Everybody but `me` takes any number of steps; daemons may die, short of the harmful death. */
    method Interleave(me: Actor)
      requires Valid()
      modifies this
      ensures Valid() && Inv(st) && old(run) <= run
      ensures Undisturbed(old(st), st, me)
    {
      var steps: nat := *;
      while steps > 0
        invariant Valid() && old(run) <= run
        invariant Undisturbed(old(st), st, me)
      {
        var e: Event := *;
        if Enabled(st, e) && !Harmful(st, e) && ActorOf(e) != me {
          StepUndisturbed(st, e, me);
          Do(e);
        }
        steps := steps - 1;
      }
      RunKeepsInv(run);
    }

    method Establish(id: CallId) returns (result: DialResult)
      requires Valid() && CanDial(st, id)
      modifies this
      ensures Valid() && old(run) <= run
      ensures id in st.calls
      ensures st.calls[id] ==
        match result
        case Up => Ready(false, old(st).calls[id].retry)
        case DialError => Done(Failed)
        case _ => if old(st).calls[id].retry then Done(Failed) else FallBack
    {
      Interleave(Caller(id));
      result := *;
      Do(Dial(id, result));
    }

    /** One EXEJ line out, one reply line in. */
    method Roundtrip(id: CallId) returns (reply: Option<Reply>, err: NetError)
      requires Valid() && id in st.calls && st.calls[id].Ready?
      modifies this
      ensures Valid() && old(run) <= run
      ensures id in st.calls
      ensures reply.Some? ==> st.calls[id] == Done(Answered(reply.value))
      ensures reply.None? ==>
        st.calls[id] == Broken(old(st).calls[id].reused, old(st).calls[id].retry, SafeToRetry(err))
    {
      reply := None;
      err := *;
      Interleave(Caller(id));
      assert CallOk(st, id, st.calls[id]);
      var writeFails: bool := *;
      if writeFails && Plausible(err) && (Closing(err.cause) ==> Session(st).daemon.Gone?) {
        Do(WriteFails(id, err));
        return;
      }
      Do(Write(id));
      reply, err := AwaitReply(id, err);
    }

    /** The read half of a round trip. */
    method AwaitReply(id: CallId, failure: NetError) returns (reply: Option<Reply>, err: NetError)
      requires Valid() && id in st.calls && st.calls[id].Sent?
      modifies this
      ensures Valid() && old(run) <= run
      ensures id in st.calls
      ensures reply.Some? ==> st.calls[id] == Done(Answered(reply.value))
      ensures reply.None? ==>
        st.calls[id] == Broken(old(st).calls[id].reused, old(st).calls[id].retry, SafeToRetry(err))
    {
      reply, err := None, failure;
      Interleave(Caller(id));
      assert CallOk(st, id, st.calls[id]);
      var inTime: bool := *;
      if Session(st).outbox != [] && inTime {
        reply := Some(Session(st).outbox[0]);
        Do(ReadReply(id));
        return;
      }
      var closed := Session(st).daemon.Gone? && Session(st).outbox == [];
      if !Plausible(err) || (Closing(err.cause) && !closed) {
        err := DeadlinePasses();  // no close to see yet
      }
      Do(ReadFails(id, err));
    }

    method CloseLocked(id: CallId)
      requires Valid() && id in st.calls && st.calls[id].Broken?
      modifies this
      ensures Valid() && old(run) <= run && id in st.calls
      ensures var pc := old(st).calls[id];
        st.calls[id] == if !pc.retry && pc.reused && pc.safe then Dialing(true) else Done(Failed)
    {
      Interleave(Caller(id));
      assert CallOk(st, id, st.calls[id]);
      Do(DropSession(id));
    }

    /** The pooled path. `usable` is false when the caller must open a one-shot connection; the command
        has then neither run nor been left where the daemon can read it. */
    method ExecViaMux(id: CallId) returns (outcome: Outcome, usable: bool)
      requires Valid() && At(st, id, Waiting) && st.lock.None?
      modifies this
      ensures Valid() && old(run) <= run
      ensures if usable then At(st, id, Done(outcome)) else At(st, id, FallBack) && Clean(st, id)
    {
      var noMux, reused := st.noMux, st.pooled.Some?;
      outcome := Failed;
      Do(Acquire(id));
      if noMux {
        FallBackIsClean(run, id);
        return Failed, false;
      }
      if !reused {
        var dialed := Establish(id);
        if dialed == DialError {
          return Failed, true;
        }
        if dialed != Up {
          FallBackIsClean(run, id);
          return Failed, false;
        }
      }
      var reply, err := Roundtrip(id);
      if reply.Some? {
        return Answered(reply.value), true;
      }
      CloseLocked(id);
      if reused && SafeToRetry(err) {
        outcome := SecondAttempt(id);
        return outcome, true;
      }
      return Failed, true;
    }

    /** The one retry, on a fresh session. */
    method SecondAttempt(id: CallId) returns (outcome: Outcome)
      requires Valid() && At(st, id, Dialing(true))
      modifies this
      ensures Valid() && old(run) <= run && At(st, id, Done(outcome))
    {
      var dialed := Establish(id);
      if dialed == Up {
        var reply, _ := Roundtrip(id);
        if reply.Some? {
          return Answered(reply.value);
        }
        CloseLocked(id);
      }
      return Failed;
    }

    method ExecOneShot(id: CallId) returns (outcome: Outcome)
      requires Valid() && At(st, id, FallBack)
      modifies this
      ensures Valid() && old(run) <= run && At(st, id, Done(outcome))
    {
      Interleave(Caller(id));
      if * {
        Do(OneShotDialFails(id));
        return Failed;
      }
      Do(OneShotWrite(id));
      Interleave(Caller(id));
      assert CallOk(st, id, st.calls[id]);
      var c := st.calls[id].conn;
      var inTime: bool := *;
      if st.conns[c].outbox != [] && inTime {
        outcome := Answered(st.conns[c].outbox[0]);
        Do(OneShotReply(id));
      } else {
        Do(OneShotFails(id));
        outcome := Failed;
      }
    }

    /** `ExecCommandStructuredTimeout`. No value is returned while the call still waits for the
        session's mutex. */
    method Exec(id: CallId, persistent: bool) returns (outcome: Option<Outcome>)
      requires Valid() && id !in st.calls
      modifies this
      ensures Valid() && old(run) <= run
      ensures st.ran[id] <= 1
      ensures outcome.None? ==> At(st, id, Waiting) && st.ran[id] == 0
      ensures outcome.Some? ==> At(st, id, Done(outcome.value))
      ensures outcome.Some? && outcome.value.Answered? ==>
        var reply := outcome.value.reply;
        && reply.id == id
        && st.ran[id] == (if reply.Ran? then 1 else 0)
    {
      Do(Begin(id, persistent));
      var usable := false;
      var result := Failed;
      if persistent {
        Interleave(Caller(id));
        if st.lock.Some? {
          assert CallOk(st, id, st.calls[id]);
          return None;
        }
        result, usable := ExecViaMux(id);
      }
      if !usable {
        result := ExecOneShot(id);
      }
      RunKeepsInv(run);
      assert CallOk(st, id, st.calls[id]);
      return Some(result);
    }

    /** The daemon takes a line off its connection and answers it before it looks for another. */
    method ServeLine(c: ConnId) returns (quit: bool)
      requires Valid() && CanServe(st, c) && st.conns[c].kind.Mux?
      modifies this
      ensures Valid() && old(run) <= run
      ensures c < |st.conns| && st.conns[c].kind.Mux?
      ensures st.conns[c].daemon == (if quit then Gone(None) else Reading)
    {
      var permitted: bool := *;
      quit := st.conns[c].inbox[0].Quit?;
      Do(DaemonReads(c, permitted));
      if !quit && permitted {
        Interleave(Server(c));
        Do(DaemonFinishes(c));
      }
    }

    /** `HandleMux`: the loop is left only where it reads its next line. */
    method HandleMux(c: ConnId, turns: nat)
      requires Valid() && c < |st.conns| && st.conns[c].kind.Mux? && st.conns[c].daemon.Reading?
      modifies this
      ensures Valid() && old(run) <= run
      ensures c < |st.conns| && !st.conns[c].daemon.Running?
    {
      var n := turns;
      while n > 0
        invariant Valid() && old(run) <= run
        invariant c < |st.conns| && st.conns[c].kind.Mux? && st.conns[c].daemon.Reading?
      {
        Interleave(Server(c));
        var idle: bool := *;
        if idle {
          Do(DaemonCloses(c));  // idle timeout, or the client hung up
          return;
        }
        if st.conns[c].inbox != [] {
          var quit := ServeLine(c);
          if quit {
            return;
          }
        }
        n := n - 1;
      }
    }
  }
}
