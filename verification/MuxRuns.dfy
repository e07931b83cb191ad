/** Pooled MUX execution over whole runs: what holds in every run of the transition system, and the one
    event that it does not survive. */
module MuxRuns {
  import opened MuxProtocol
  import opened NetErrors
  import opened Optional

  // ----- what holds over every run -----

  /** However calls, timeouts, idle closes, retries and fallbacks interleave, the daemon
      starts each call's command at most once. */
  lemma AtMostOnce(run: seq<Event>, id: CallId)
    requires Orderly(run)
    ensures After(run).ran[id] <= 1
  {
    RunKeepsInv(run);
  }

  /** A call that returns a reply returns its own, and the daemon ran the command exactly once,
      or never if the reply is a policy refusal; a refused command cannot run later either. */
  lemma AnsweredExactlyOnce(run: seq<Event>, id: CallId, reply: Reply)
    requires Orderly(run) && At(After(run), id, Done(Answered(reply)))
    ensures reply.id == id
    ensures After(run).ran[id] == (if reply.Ran? then 1 else 0)
    ensures reply.Refused? ==> Clean(After(run), id)
  {
    RunKeepsInv(run);
    assert CallOk(After(run), id, After(run).calls[id]);
  }

  /** Between calls nothing is outstanding on the pooled connection, so the next round trip
      cannot read an earlier command's late reply. */
  lemma PoolQuietBetweenCalls(run: seq<Event>)
    requires Orderly(run) && After(run).lock.None? && After(run).pooled.Some?
    ensures HasSession(After(run)) && Quiet(Session(After(run)))
  {
    RunKeepsInv(run);
  }

  /** A failed round trip is followed by a second attempt only when the daemon has neither run
      the first copy nor can still read it; otherwise the call ends. Either way the connection
      is no longer pooled when the mutex is released. */
  lemma RetryOnlyUnread(run: seq<Event>, id: CallId)
    requires Orderly(run) && CanDrop(After(run), id)
    ensures var s := Step(After(run), DropSession(id));
      && s.pooled.None?
      && (s.calls[id] == Dialing(true) || (s.calls[id] == Done(Failed) && s.lock.None?))
      && (s.calls[id] == Dialing(true) ==> Clean(s, id))
  {
    RunKeepsInv(run);
    DropKeepsInv(After(run), id);
    var s := Step(After(run), DropSession(id));
    assert CallOk(After(run), id, After(run).calls[id]);
    assert CallOk(s, id, s.calls[id]);
  }

  /** A first attempt over a reused session that fails to read its reply is retried if and only if the
      connection was closed or broken and nothing in the error's text speaks of a timeout. */
  lemma RetriedIff(run: seq<Event>, id: CallId, err: NetError)
    requires Orderly(run) && Enabled(After(run), ReadFails(id, err))
    ensures var s := Step(Step(After(run), ReadFails(id, err)), DropSession(id));
      At(s, id, Dialing(true)) <==>
        && After(run).calls[id] == Sent(true, false) && Closing(err.cause)
        && !Occurs("timeout", Message(err)) && !Occurs("deadline exceeded", Message(err))
  {
    SafeToRetryIff(err);
    FailedReadBreaks(After(run), id, err);
    DropDecides(Step(After(run), ReadFails(id, err)), id);
  }

  lemma FailedReadBreaks(s: State, id: CallId, err: NetError)
    requires Enabled(s, ReadFails(id, err))
    ensures var broken := Step(s, ReadFails(id, err));
      CanDrop(broken, id) && broken.calls[id] == Broken(s.calls[id].reused, s.calls[id].retry, SafeToRetry(err))
  {
  }

  lemma DropDecides(s: State, id: CallId)
    requires CanDrop(s, id)
    ensures At(Step(s, DropSession(id)), id, Dialing(true)) <==>
      s.calls[id].reused && !s.calls[id].retry && s.calls[id].safe
  {
  }

  // ----- a daemon without MUX -----

  lemma {:induction false} NoMuxStays(run: seq<Event>, more: seq<Event>)
    requires After(run).noMux
    ensures After(run + more).noMux
    decreases |more|
  {
    if more == [] {
      assert run + more == run;
    } else {
      NoMuxStays(run, more[..|more| - 1]);
      var _ := Extend(run + more[..|more| - 1], more[|more| - 1]);
      assert run + more == run + more[..|more| - 1] + [more[|more| - 1]];
    }
  }

  /** A daemon that answers the MUX line with anything else is dialled for that once: whatever happens
      then, every later call goes straight to a connection of its own. A handshake that only fails is
      not held against it. */
  lemma NoMuxIsRemembered(run: seq<Event>, id: CallId, more: seq<Event>, later: CallId)
    requires CanDial(After(run), id)
    requires var s := After(run + [Dial(id, NoMuxReply)] + more); At(s, later, Waiting) && s.lock.None?
    ensures var s := After(run + [Dial(id, NoMuxReply)] + more);
      At(Step(s, Acquire(later)), later, FallBack) && Step(s, Acquire(later)).conns == s.conns
    ensures After(run + [Dial(id, HandshakeError)]).noMux == After(run).noMux
  {
    var _ := Extend(run, Dial(id, NoMuxReply));
    var _ := Extend(run, Dial(id, HandshakeError));
    NoMuxStays(run + [Dial(id, NoMuxReply)], more);
  }

  // ----- the fault model is needed -----

  lemma Extend(run: seq<Event>, e: Event) returns (run': seq<Event>)
    ensures run' == run + [e] && After(run') == Step(After(run), e)
    ensures Orderly(run) && !Harmful(After(run), e) ==> Orderly(run')
  {
    run' := run + [e];
    assert run'[..|run|] == run;
  }

  lemma CrashEndsRead(run: seq<Event>, id: CallId) returns (run': seq<Event>)
    requires CanRead(After(run), id) && Session(After(run)).outbox == []
    requires After(run).calls[id] == Sent(true, false)
    ensures run' == run + [DaemonDies(After(run).pooled.value), ReadFails(id, NetError("", EndOfFile))]
    ensures CanDrop(After(run'), id) && At(After(run'), id, Broken(true, false, true))
    ensures After(run').ran == After(run).ran
  {
    EndOfFileIsSafe();
    run' := Extend(run, DaemonDies(After(run).pooled.value));
    run' := Extend(run', ReadFails(id, NetError("", EndOfFile)));
  }

  lemma CrashLooksIdle(run: seq<Event>, id: CallId) returns (run': seq<Event>)
    requires Orderly(run) && CanRead(After(run), id)
    requires After(run).calls[id] == Sent(true, false) && Session(After(run)).daemon == Running(id)
    ensures run' == run + [DaemonDies(After(run).pooled.value), ReadFails(id, NetError("", EndOfFile)), DropSession(id)]
    ensures At(After(run'), id, Dialing(true)) && After(run').ran[id] == 1
  {
    RunKeepsInv(run);
    assert CallOk(After(run), id, After(run).calls[id]);
    run' := CrashEndsRead(run, id);
    run' := Extend(run', DropSession(id));
  }

  lemma RedialRuns(run: seq<Event>, id: CallId) returns (run': seq<Event>)
    requires At(After(run), id, Dialing(true))
    ensures run' == run + [Dial(id, Up), Write(id), DaemonReads(|After(run).conns|, true)]
    ensures After(run').ran[id] == After(run).ran[id] + 1
  {
    var c := |After(run).conns|;
    run' := Extend(run, Dial(id, Up));
    assert CanWrite(After(run'), id) && Session(After(run')) == Conn(Mux, [], [], Reading, false);
    run' := Extend(run', Write(id));
    assert After(run').conns[c].inbox == [Exej(id)];
    run' := Extend(run', DaemonReads(c, true));
  }

  /** If the daemon dies while it runs a command that came over a reused session, the client
      sees an end of file that looks like an idle close, and its retry runs the command again. */
  lemma CrashWhileRunningRepeats(run: seq<Event>, id: CallId) returns (run': seq<Event>)
    requires Orderly(run) && CanRead(After(run), id)
    requires After(run).calls[id] == Sent(true, false) && Session(After(run)).daemon == Running(id)
    ensures run <= run' && |run'| == |run| + 6 && run'[|run|] == DaemonDies(After(run).pooled.value)
    ensures NobodyDies(run'[|run| + 1..])
    ensures After(run').ran[id] == 2
  {
    run' := CrashLooksIdle(run, id);
    run' := RedialRuns(run', id);
  }

  ghost predicate NobodyDies(run: seq<Event>) {
    forall i | 0 <= i < |run| :: !run[i].DaemonDies?
  }

  lemma {:induction false} StaysOrderly(run: seq<Event>, more: seq<Event>)
    requires Orderly(run) && NobodyDies(more)
    ensures Orderly(run + more)
    decreases |more|
  {
    if more == [] {
      assert run + more == run;
    } else {
      var front := more[..|more| - 1];
      assert (run + more)[..|run + more| - 1] == run + front;
      assert !more[|more| - 1].DaemonDies?;
      StaysOrderly(run, front);
    }
  }

  lemma HarmfulDeathRepeats(run: seq<Event>, e: Event) returns (more: seq<Event>, id: CallId)
    requires Orderly(run) && Harmful(After(run), e)
    ensures NobodyDies(more) && After(run + [e] + more).ran[id] == 2
  {
    id := Session(After(run)).daemon.id;
    var run' := CrashWhileRunningRepeats(run, id);
    more := run'[|run| + 1..];
    assert run' == run + [e] + more;
  }

  /** Whatever happens next, at-most-once survives it in every continuation if and only if it is not
      the harmful death. */
  lemma OnlyTheHarmfulDeathRepeats(run: seq<Event>, e: Event)
    requires Orderly(run)
    ensures (forall more, id | NobodyDies(more) :: After(run + [e] + more).ran[id] <= 1) <==> !Harmful(After(run), e)
  {
    if Harmful(After(run), e) {
      var more, id := HarmfulDeathRepeats(run, e);
      assert NobodyDies(more) && After(run + [e] + more).ran[id] == 2;
    } else {
      var next := Extend(run, e);
      forall more, id | NobodyDies(more)
        ensures After(run + [e] + more).ran[id] <= 1
      {
        StaysOrderly(next, more);
        AtMostOnce(next + more, id);
      }
    }
  }

  /** There is one connection, and it is pooled. */
  ghost predicate OnePooled(s: State, inbox: seq<Line>, outbox: seq<Reply>, daemon: Daemon, lock: Option<CallId>) {
    && s.pooled == Some(0) && !s.noMux && s.lock == lock
    && |s.conns| == 1 && s.conns[0].kind.Mux?
    && s.conns[0].inbox == inbox && s.conns[0].outbox == outbox && s.conns[0].daemon == daemon
  }

  /** Such a run exists: one answered call, then a second one on its session. */
  lemma ReusedSessionRunning() returns (run: seq<Event>)
    ensures Orderly(run) && CanRead(After(run), 1)
    ensures After(run).calls[1] == Sent(true, false) && Session(After(run)).daemon == Running(1)
  {
    run := FirstCallAnswered();
    run := Extend(run, Begin(1, true));
    run := Extend(run, Acquire(1));
    run := SecondCallSent(run);
  }

  lemma SecondCallSent(ready: seq<Event>) returns (run: seq<Event>)
    requires Orderly(ready) && OnePooled(After(ready), [], [], Reading, Some(1))
      && At(After(ready), 1, Ready(true, false))
    ensures Orderly(run) && CanRead(After(run), 1)
    ensures After(run).calls[1] == Sent(true, false) && Session(After(run)).daemon == Running(1)
  {
    run := Extend(ready, Write(1));
    assert OnePooled(After(run), [Exej(1)], [], Reading, Some(1)) && At(After(run), 1, Sent(true, false));
    run := Extend(run, DaemonReads(0, true));
  }

  lemma FirstCallDialing() returns (run: seq<Event>)
    ensures Orderly(run) && After(run).calls.Keys == {0} && At(After(run), 0, Dialing(false))
    ensures After(run).conns == [] && !After(run).noMux && After(run).lock == Some(0)
  {
    run := Extend([], Begin(0, true));
    run := Extend(run, Acquire(0));
  }

  lemma FirstCallSent() returns (run: seq<Event>)
    ensures Orderly(run) && After(run).calls.Keys == {0} && At(After(run), 0, Sent(false, false))
    ensures OnePooled(After(run), [Exej(0)], [], Reading, Some(0))
  {
    run := FirstCallDialing();
    run := Extend(run, Dial(0, Up));
    assert OnePooled(After(run), [], [], Reading, Some(0)) && At(After(run), 0, Ready(false, false));
    run := Extend(run, Write(0));
  }

  lemma FirstCallAnswered() returns (run: seq<Event>)
    ensures Orderly(run) && After(run).calls.Keys == {0}
    ensures OnePooled(After(run), [], [], Reading, None)
  {
    run := FirstCallSent();
    run := Extend(run, DaemonReads(0, true));
    assert OnePooled(After(run), [], [], Running(0), Some(0));
    run := Extend(run, DaemonFinishes(0));
    assert OnePooled(After(run), [], [Ran(0)], Reading, Some(0));
    run := Extend(run, ReadReply(0));
  }
}
