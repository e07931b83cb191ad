/** What pooled MUX execution can always do: nobody is ever stuck, and the faults and the daemon's steps that
    the transition system allows are all those there are. */
module MuxProgress {
  import opened MuxProtocol
  import opened MuxRuns
  import opened NetErrors
  import opened Optional

  const TIMEOUT := NetError("", Deadline)

  /** From `run` to `run'` nobody died, the call failed, the mutex is free, and the other calls are where
      they were. */
  ghost predicate Ends(run: seq<Event>, run': seq<Event>, id: CallId) {
    && run <= run' && NobodyDies(run'[|run|..]) && Orderly(run')
    && At(After(run'), id, Done(Failed)) && After(run').lock.None?
    && OthersStay(After(run), After(run'), id)
  }

  ghost predicate OthersStay(s: State, s': State, id: CallId) {
    && s'.calls.Keys == s.calls.Keys
    && forall j | j in s.calls && j != id :: s'.calls[j] == s.calls[j]
  }

  lemma OneEvent(run: seq<Event>, e: Event) returns (run': seq<Event>)
    requires Orderly(run) && !e.DaemonDies?
    ensures run' == run + [e] && Orderly(run') && After(run') == Step(After(run), e)
  {
    run' := Extend(run, e);
  }

  lemma EndsEarlier(run: seq<Event>, e: Event, run': seq<Event>, id: CallId)
    requires !e.DaemonDies? && Ends(run + [e], run', id) && OthersStay(After(run), After(run + [e]), id)
    ensures Ends(run, run', id)
  {
    assert (run + [e])[..|run|] == run;
    assert run'[|run|] == e;
    assert forall i | 0 < i < |run'| - |run| :: run'[|run|..][i] == run'[|run| + 1..][i - 1];
  }

  lemma EndsHere(run: seq<Event>, e: Event, id: CallId)
    requires !e.DaemonDies? && Orderly(run + [e]) && OthersStay(After(run), After(run + [e]), id)
    requires At(After(run + [e]), id, Done(Failed)) && After(run + [e]).lock.None?
    ensures Ends(run, run + [e], id)
  {
  }

  lemma DialingEnds(run: seq<Event>, id: CallId) returns (run': seq<Event>)
    requires Orderly(run) && CanDial(After(run), id)
    ensures Ends(run, run', id)
  {
    run' := OneEvent(run, Dial(id, DialError));
    EndsHere(run, Dial(id, DialError), id);
  }

  lemma BrokenEnds(run: seq<Event>, id: CallId) returns (run': seq<Event>)
    requires Orderly(run) && CanDrop(After(run), id)
    ensures Ends(run, run', id)
  {
    var next := OneEvent(run, DropSession(id));
    if After(next).calls[id].Dialing? {
      run' := DialingEnds(next, id);
      EndsEarlier(run, DropSession(id), run', id);
    } else {
      run' := next;
      EndsHere(run, DropSession(id), id);
    }
  }

  lemma SentEnds(run: seq<Event>, id: CallId) returns (run': seq<Event>)
    requires Orderly(run) && CanRead(After(run), id)
    ensures Ends(run, run', id)
  {
    TimeoutsArePlausible(Deadline);
    var next := OneEvent(run, ReadFails(id, TIMEOUT));
    run' := BrokenEnds(next, id);
    EndsEarlier(run, ReadFails(id, TIMEOUT), run', id);
  }

  lemma ReadyEnds(run: seq<Event>, id: CallId) returns (run': seq<Event>)
    requires Orderly(run) && CanWrite(After(run), id)
    ensures Ends(run, run', id)
  {
    var next := OneEvent(run, Write(id));
    run' := SentEnds(next, id);
    EndsEarlier(run, Write(id), run', id);
  }

  /** Whoever holds the mutex gives it back, even if the daemon never moves again. */
  lemma HolderEnds(run: seq<Event>, id: CallId) returns (run': seq<Event>)
    requires Orderly(run) && After(run).lock == Some(id)
    ensures Ends(run, run', id)
  {
    RunKeepsInv(run);
    var s := After(run);
    assert id in s.calls && CallOk(s, id, s.calls[id]);
    match s.calls[id]
    case Dialing(_) => run' := DialingEnds(run, id);
    case Ready(_, _) => run' := ReadyEnds(run, id);
    case Sent(_, _) => run' := SentEnds(run, id);
    case Broken(_, _, _) => run' := BrokenEnds(run, id);
  }

  /** A call that is done can be reached without a death. */
  ghost predicate CanEnd(run: seq<Event>, id: CallId) {
    exists more :: NobodyDies(more) && At(After(run + more), id, Done(Failed))
  }

  lemma EndsIsCanEnd(run: seq<Event>, run': seq<Event>, id: CallId)
    requires run <= run' && NobodyDies(run'[|run|..]) && At(After(run'), id, Done(Failed))
    ensures CanEnd(run, id)
  {
    assert run + run'[|run|..] == run';
  }

  lemma FallBackEnds(run: seq<Event>, id: CallId)
    requires At(After(run), id, FallBack)
    ensures CanEnd(run, id)
  {
    var run' := Extend(run, OneShotDialFails(id));
    assert run'[|run|..] == [OneShotDialFails(id)];
    EndsIsCanEnd(run, run', id);
  }

  lemma OneShotEnds(run: seq<Event>, id: CallId)
    requires CanReadOneShot(After(run), id)
    ensures CanEnd(run, id)
  {
    var run' := Extend(run, OneShotFails(id));
    assert run'[|run|..] == [OneShotFails(id)];
    EndsIsCanEnd(run, run', id);
  }

  lemma CanEndEarlier(run: seq<Event>, e: Event, id: CallId)
    requires !e.DaemonDies? && CanEnd(run + [e], id)
    ensures CanEnd(run, id)
  {
    var more :| NobodyDies(more) && At(After(run + [e] + more), id, Done(Failed));
    assert run + [e] + more == run + ([e] + more);
    assert NobodyDies([e] + more);
  }

  /** With the mutex free a waiting call gets on. */
  lemma WaitingEnds(run: seq<Event>, id: CallId)
    requires Orderly(run) && At(After(run), id, Waiting) && After(run).lock.None?
    ensures CanEnd(run, id)
  {
    var next := OneEvent(run, Acquire(id));
    if After(next).calls[id].FallBack? {
      FallBackEnds(next, id);
    } else {
      var run' := HolderEnds(next, id);
      EndsIsCanEnd(next, run', id);
    }
    CanEndEarlier(run, Acquire(id), id);
  }

  /** No call is ever stuck: after any orderly run, every call that is not over can still end, whatever the
      daemon does or fails to do, and without anybody dying. */
  lemma NobodyIsStuck(run: seq<Event>, id: CallId)
    requires Orderly(run) && id in After(run).calls && !After(run).calls[id].Done?
    ensures CanEnd(run, id)
  {
    RunKeepsInv(run);
    var s := After(run);
    assert CallOk(s, id, s.calls[id]);
    match s.calls[id]
    case FallBack => FallBackEnds(run, id);
    case OneShotSent(_) => OneShotEnds(run, id);
    case Waiting =>
      if s.lock.Some? {
        var run' := HolderEnds(run, s.lock.value);
        WaitingEnds(run', id);
        CanEndBefore(run, run', id);
      } else {
        WaitingEnds(run, id);
      }
    case _ =>
      var run' := HolderEnds(run, id);
      EndsIsCanEnd(run, run', id);
  }

  lemma CanEndBefore(run: seq<Event>, run': seq<Event>, id: CallId)
    requires run <= run' && NobodyDies(run'[|run|..]) && CanEnd(run', id)
    ensures CanEnd(run, id)
  {
    var more :| NobodyDies(more) && At(After(run' + more), id, Done(Failed));
    assert run' + more == run + (run'[|run|..] + more);
    assert NobodyDies(run'[|run|..] + more);
  }

  // ----- what may go wrong, and where -----

  /** A call that waits for its reply can meet any error of a cause that leaves the connection open, and any
      closing one once the daemon is gone and all it sent has been read. It then counts as broken, with the
      retry decision of that error. */
  lemma AnyReadFails(run: seq<Event>, id: CallId, err: NetError)
    requires Orderly(run) && Plausible(err) && id in After(run).calls && After(run).calls[id].Sent?
    ensures HasSession(After(run))
    ensures var s := After(run);
      !Closing(err.cause) || (Session(s).daemon.Gone? && Session(s).outbox == []) ==>
        At(Step(s, ReadFails(id, err)), id, Broken(s.calls[id].reused, s.calls[id].retry, SafeToRetry(err)))
  {
    SessionIsThere(run, id);
    var s := After(run);
    if !Closing(err.cause) || (Session(s).daemon.Gone? && Session(s).outbox == []) {
      assert Enabled(s, ReadFails(id, err));
    }
  }

  /** The same for the write of the command, where a closing error needs a daemon that is gone. */
  lemma AnyWriteFails(run: seq<Event>, id: CallId, err: NetError)
    requires Orderly(run) && Plausible(err) && id in After(run).calls && After(run).calls[id].Ready?
    ensures HasSession(After(run))
    ensures var s := After(run);
      !Closing(err.cause) || Session(s).daemon.Gone? ==>
        At(Step(s, WriteFails(id, err)), id, Broken(s.calls[id].reused, s.calls[id].retry, SafeToRetry(err)))
  {
    SessionIsThere(run, id);
    var s := After(run);
    if !Closing(err.cause) || Session(s).daemon.Gone? {
      assert Enabled(s, WriteFails(id, err));
    }
  }

  lemma SessionIsThere(run: seq<Event>, id: CallId)
    requires Orderly(run) && id in After(run).calls && (After(run).calls[id].Sent? || After(run).calls[id].Ready?)
    ensures HasSession(After(run))
  {
    RunKeepsInv(run);
    assert CallOk(After(run), id, After(run).calls[id]);
  }

  /** A reply that has arrived can be read, and that ends the call and frees the mutex. */
  lemma AnyReplyIsRead(s: State, id: CallId, reply: Reply)
    requires id in s.calls && s.calls[id].Sent? && HasSession(s) && Session(s).outbox == [reply]
    ensures At(Step(s, ReadReply(id)), id, Done(Answered(reply))) && Step(s, ReadReply(id)).lock.None?
  {
  }

  /** So can one on a connection of the call's own. */
  lemma AnyOneShotReplyIsRead(s: State, id: CallId, c: ConnId, reply: Reply)
    requires At(s, id, OneShotSent(c)) && c < |s.conns| && s.conns[c].outbox == [reply]
    ensures At(Step(s, OneShotReply(id)), id, Done(Answered(reply)))
  {
  }

  /** A new call may begin at any time, and a connection may come about, fail, or meet a daemon without MUX
      whenever it is opened. */
  lemma AnyCallBegins(s: State, id: CallId)
    ensures id !in s.calls ==>
      && At(Step(s, Begin(id, true)), id, Waiting) && At(Step(s, Begin(id, false)), id, FallBack)
    ensures CanDial(s, id) ==> var retry := s.calls[id].retry;
      && At(Step(s, Dial(id, Up)), id, Ready(false, retry))
      && At(Step(s, Dial(id, DialError)), id, Done(Failed))
      && At(Step(s, Dial(id, HandshakeError)), id, if retry then Done(Failed) else FallBack)
      && At(Step(s, Dial(id, NoMuxReply)), id, if retry then Done(Failed) else FallBack)
    ensures At(s, id, FallBack) ==>
      && At(Step(s, OneShotWrite(id)), id, OneShotSent(|s.conns|))
      && Step(s, OneShotWrite(id)).conns == s.conns + [Conn(OneShot, [Exej(id)], [], Reading, false)]
      && At(Step(s, OneShotDialFails(id)), id, Done(Failed))
  {
  }

  /** A daemon that reads may run the next command, which counts as an execution, or refuse it. */
  lemma DaemonServes(s: State, c: ConnId, id: CallId)
    requires c < |s.conns| && s.conns[c].daemon.Reading? && [Exej(id)] <= s.conns[c].inbox
    ensures var s' := Step(s, DaemonReads(c, true));
      && s'.conns[c] == s.conns[c].(inbox := s.conns[c].inbox[1..], daemon := Running(id))
      && s'.ran == s.ran + multiset{id}
    ensures var s' := Step(s, DaemonReads(c, false));
      && s'.conns[c].inbox == s.conns[c].inbox[1..] && s'.conns[c].outbox == s.conns[c].outbox + [Refused(id)]
      && s'.ran == s.ran
  {
  }

  /** It leaves on QUIT, and it may close there. */
  lemma DaemonLeaves(s: State, c: ConnId, permitted: bool)
    requires c < |s.conns| && s.conns[c].daemon.Reading?
    ensures [Quit] <= s.conns[c].inbox ==> Step(s, DaemonReads(c, permitted)).conns[c].daemon == Gone(None)
    ensures Step(s, DaemonCloses(c)).conns[c].daemon == Step(s, DaemonDies(c)).conns[c].daemon == Gone(None)
  {
  }

  /** A command that runs ends with its reply, unless the daemon dies; it does not close there. */
  lemma DaemonFinishesOrDies(s: State, c: ConnId, id: CallId)
    requires c < |s.conns| && s.conns[c].daemon == Running(id)
    ensures Step(s, DaemonFinishes(c)).conns[c].outbox == s.conns[c].outbox + [Ran(id)]
    ensures Step(s, DaemonDies(c)).conns[c].daemon == Gone(Some(id)) && Step(s, DaemonCloses(c)) == s
  {
  }
}
