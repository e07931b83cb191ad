/** The table of accepted connections that wait for the client of a reverse tunnel
    (`HandleReverseForward`, `HandleReverseData` and the reaper, over `revPending`).
    Each event is one critical section, or a step of the world between two of them. */
module ReverseAccepts {

  type Id = nat
  type Conn = nat

  datatype Event =
    | Accept(id: Id, c: Conn)      // a new connection is entered under its id
    | Reaches(id: Id)              // the line "ACCEPT id" reaches the client
    | WriteOk(id: Id, c: Conn)     // the write of that line returns; the reaper's clock starts
    | WriteFails(id: Id, c: Conn)  // the write fails; the entry is removed, the connection closed
    | Claim(id: Id)                // RDATA id
    | Reap(id: Id, c: Conn)        // 15 seconds after WriteOk

  datatype Table = Table(pending: map<Id, Conn>, claimed: set<Conn>, reaped: set<Conn>, dropped: set<Conn>)

  const EMPTY := Table(map[], {}, {}, {})

  function Apply(t: Table, e: Event): Table {
    match e
    case Accept(id, c) => t.(pending := t.pending[id := c])
    case WriteFails(id, c) => t.(pending := t.pending - {id}, dropped := t.dropped + {c})
    case Claim(id) =>
      if id in t.pending then t.(pending := t.pending - {id}, claimed := t.claimed + {t.pending[id]}) else t
    case Reap(id, c) =>
      if id in t.pending && t.pending[id] == c then t.(pending := t.pending - {id}, reaped := t.reaped + {c}) else t
    case _ => t
  }

  function Run(h: seq<Event>): Table {
    if h == [] then EMPTY else Apply(Run(h[..|h| - 1]), h[|h| - 1])
  }

  // ----- which histories can happen -----

  predicate Accepted(h: seq<Event>, id: Id, c: Conn) {
    Accept(id, c) in h
  }

  ghost predicate NewConn(h: seq<Event>, c: Conn) {
    forall id :: !Accepted(h, id, c)
  }

  ghost predicate NewId(h: seq<Event>, id: Id) {
    forall c :: !Accepted(h, id, c)
  }

  /** What the order of statements in the handlers allows next: one connection object per accept,
      one outcome of its write, and its reaper only after the write succeeded. Any id can be asked for
      at any time. */
  ghost predicate Possible(h: seq<Event>, e: Event) {
    match e
    case Accept(id, c) => NewConn(h, c)
    case Reaches(id) => !NewId(h, id)
    case WriteOk(id, c) => Accepted(h, id, c) && WriteOk(id, c) !in h && WriteFails(id, c) !in h
    case WriteFails(id, c) => Accepted(h, id, c) && WriteOk(id, c) !in h && WriteFails(id, c) !in h
    case Claim(id) => true
    case Reap(id, c) => WriteOk(id, c) in h
  }

  ghost predicate Feasible(h: seq<Event>) {
    h == [] || (Feasible(h[..|h| - 1]) && Possible(h[..|h| - 1], h[|h| - 1]))
  }

  /** A new connection does not take the place of a waiting one, and a failed write removes its own. */
  predicate Harmless(t: Table, e: Event) {
    match e
    case Accept(id, c) => id !in t.pending
    case WriteFails(id, c) => id in t.pending && t.pending[id] == c
    case _ => true
  }

  predicate Careful(h: seq<Event>) {
    h == [] || (Careful(h[..|h| - 1]) && Harmless(Run(h[..|h| - 1]), h[|h| - 1]))
  }

  ghost predicate Legal(h: seq<Event>) {
    Feasible(h) && Careful(h)
  }

  // ----- what happens to one connection, told without the table -----

  datatype Fate = Unseen | Waiting | Claimed | Reaped | Dropped

  /** A waiting connection goes to whoever comes first. */
  function FateAfter(before: Fate, e: Event, id: Id, c: Conn): Fate {
    match e
    case Accept(i, k) => if i == id && k == c then Waiting else before
    case Claim(i) => if i == id && before == Waiting then Claimed else before
    case Reap(i, k) => if i == id && k == c && before == Waiting then Reaped else before
    case WriteFails(i, k) => if i == id && k == c && before == Waiting then Dropped else before
    case _ => before
  }

  function FateOf(h: seq<Event>, id: Id, c: Conn): Fate {
    if h == [] then Unseen
    else FateAfter(FateOf(h[..|h| - 1], id, c), h[|h| - 1], id, c)
  }

  predicate Places(t: Table, id: Id, c: Conn, f: Fate) {
    && (f == Waiting <==> id in t.pending && t.pending[id] == c)
    && (f == Claimed <==> c in t.claimed)
    && (f == Reaped <==> c in t.reaped)
    && (f == Dropped <==> c in t.dropped)
  }

  ghost predicate Placed(h: seq<Event>, t: Table) {
    && (forall id, c | Accepted(h, id, c) :: Places(t, id, c, FateOf(h, id, c)))
    && (forall id | id in t.pending :: Accepted(h, id, t.pending[id]))
    && (forall c | c in t.claimed + t.reaped + t.dropped :: !NewConn(h, c))
  }

  // ----- the shared map -----

  class Accepts {
    var pending: map<Id, Conn>
    var claimed: set<Conn>
    var reaped: set<Conn>
    var dropped: set<Conn>
    ghost var h: seq<Event>

    function State(): Table
      reads this
    {
      Table(pending, claimed, reaped, dropped)
    }

    ghost predicate Valid()
      reads this
    {
      Feasible(h) && State() == Run(h)
    }

    constructor ()
      ensures Valid() && h == [] && State() == EMPTY
    {
      pending, claimed, reaped, dropped, h := map[], {}, {}, {}, [];
    }

    /** The handler enters a connection; it waits, and so does everybody else who did, unless the id
        was taken. */
    method Enter(id: Id, c: Conn)
      requires Valid() && Possible(h, Accept(id, c))
      modifies this
      ensures Valid() && h == old(h) + [Accept(id, c)] && FateOf(h, id, c) == Waiting
      ensures Careful(h) <==> Careful(old(h)) && id !in old(pending)
      ensures Careful(h) ==> Placed(h, State())
    {
      OneMore(h, Accept(id, c));
      pending := pending[id := c];
      h := h + [Accept(id, c)];
      WhenCareful(h);
    }

    /** The write of the line succeeded, or the line reached the client; the map stays as it is. */
    method Announced(e: Event)
      requires Valid() && (e.WriteOk? || e.Reaches?) && Possible(h, e)
      modifies this`h
      ensures Valid() && h == old(h) + [e] && (Careful(h) <==> Careful(old(h)))
    {
      OneMore(h, e);
      h := h + [e];
    }

    /** The write failed: the connection is closed, and it was still waiting, exactly when the entry is
        its own. */
    method Withdraw(id: Id, c: Conn)
      requires Valid() && Possible(h, WriteFails(id, c))
      modifies this
      ensures Valid() && h == old(h) + [WriteFails(id, c)] && c in dropped
      ensures Careful(h) <==> Careful(old(h)) && id in old(pending) && old(pending)[id] == c
      ensures Careful(h) ==> Placed(h, State()) && FateOf(h, id, c) == Dropped
    {
      OneMore(h, WriteFails(id, c));
      pending := pending - {id};
      dropped := dropped + {c};
      h := h + [WriteFails(id, c)];
      WhenCareful(h);
    }

    /** `HandleReverseData`; false is the reply "no such pending connection". */
    method Take(id: Id) returns (found: bool, c: Conn)
      requires Valid()
      modifies this
      ensures Valid() && h == old(h) + [Claim(id)] && (Careful(h) <==> Careful(old(h)))
      ensures Careful(h) ==> Placed(h, State())
      ensures Careful(h) && found ==>
        Accepted(h, id, c) && FateOf(old(h), id, c) == Waiting && FateOf(h, id, c) == Claimed
      ensures Careful(h) && !found ==>
        forall k | Accepted(h, id, k) :: FateOf(h, id, k) == FateOf(old(h), id, k) != Waiting
    {
      OneMore(h, Claim(id));
      found, c := id in pending, 0;
      if found {
        c := pending[id];
        claimed := claimed + {c};
      }
      pending := pending - {id};
      h := h + [Claim(id)];
      WhenCareful(h[..|h| - 1]);
      WhenCareful(h);
    }

    /** The reaper closes the connection if it still waits, and nothing otherwise. */
    method Expire(id: Id, c: Conn)
      requires Valid() && Possible(h, Reap(id, c))
      modifies this
      ensures Valid() && h == old(h) + [Reap(id, c)] && (Careful(h) <==> Careful(old(h)))
      ensures Careful(h) ==> Placed(h, State())
      ensures FateOf(h, id, c) == if FateOf(old(h), id, c) == Waiting then Reaped else FateOf(old(h), id, c)
    {
      OneMore(h, Reap(id, c));
      if id in pending && pending[id] == c {
        pending := pending - {id};
        reaped := reaped + {c};
      }
      h := h + [Reap(id, c)];
      WhenCareful(h);
    }
  }

  lemma OneMore(h: seq<Event>, e: Event)
    ensures Run(h + [e]) == Apply(Run(h), e)
    ensures Careful(h + [e]) <==> Careful(h) && Harmless(Run(h), e)
    ensures Feasible(h + [e]) <==> Feasible(h) && Possible(h, e)
    ensures (h + [e])[..|h|] == h
  {
    assert (h + [e])[..|h|] == h;
  }

  lemma WhenCareful(h: seq<Event>)
    requires Feasible(h)
    ensures Careful(h) ==> Placed(h, Run(h))
  {
    if Careful(h) {
      TableIsRight(h);
    }
  }

  // ----- where a fate comes from -----

  ghost predicate Earned(h: seq<Event>, id: Id, c: Conn) {
    var f := FateOf(h, id, c);
    && (f == Unseen <==> !Accepted(h, id, c))
    && (f == Claimed ==> Claim(id) in h)
    && (f == Reaped ==> Reap(id, c) in h && WriteOk(id, c) in h)
    && (f == Dropped ==> WriteFails(id, c) in h)
    && (f == Waiting ==> Reap(id, c) !in h && WriteFails(id, c) !in h)
  }

  ghost predicate OneIdEach(h: seq<Event>) {
    forall i, j, c | Accepted(h, i, c) && Accepted(h, j, c) :: i == j
  }

  lemma InHistory(h: seq<Event>, x: Event)
    requires h != []
    ensures x in h <==> x in h[..|h| - 1] || x == h[|h| - 1]
  {
    assert h == h[..|h| - 1] + [h[|h| - 1]];
  }

  lemma AcceptedBefore(h: seq<Event>, id: Id, c: Conn)
    requires h != []
    ensures Accepted(h, id, c) <==> Accepted(h[..|h| - 1], id, c) || h[|h| - 1] == Accept(id, c)
  {
    InHistory(h, Accept(id, c));
  }

  lemma {:induction false} NothingBeforeAccept(h: seq<Event>, id: Id, c: Conn)
    requires Feasible(h) && !Accepted(h, id, c)
    ensures FateOf(h, id, c) == Unseen
    ensures WriteOk(id, c) !in h && WriteFails(id, c) !in h && Reap(id, c) !in h
  {
    if h != [] {
      forall x { InHistory(h, x); }
      NothingBeforeAccept(h[..|h| - 1], id, c);
    }
  }

  lemma {:induction false} FatesAreEarned(h: seq<Event>, id: Id, c: Conn)
    requires Feasible(h)
    ensures Earned(h, id, c)
  {
    if h != [] {
      var front := h[..|h| - 1];
      forall x { InHistory(h, x); }
      FatesAreEarned(front, id, c);
      if !Accepted(front, id, c) {
        NothingBeforeAccept(front, id, c);
      }
    }
  }

  lemma {:induction false} IdsAreUnique(h: seq<Event>)
    requires Feasible(h)
    ensures OneIdEach(h)
  {
    if h != [] {
      IdsAreUnique(h[..|h| - 1]);
      forall id, c { AcceptedBefore(h, id, c); }
    }
  }

  // ----- the table is right -----

  /** Over every careful history, every connection is where its own history says. */
  lemma {:induction false} TableIsRight(h: seq<Event>)
    requires Legal(h)
    ensures Placed(h, Run(h))
  {
    if h != [] {
      var front := h[..|h| - 1];
      TableIsRight(front);
      IdsAreUnique(h);
      forall id, c | Accepted(h, id, c)
        ensures Places(Run(h), id, c, FateOf(h, id, c))
      {
        FatesAreEarned(front, id, c);
        StepPlaces(h, id, c);
      }
      StepPending(h);
    }
  }

  lemma StepPlaces(h: seq<Event>, id: Id, c: Conn)
    requires h != [] && Legal(h) && OneIdEach(h) && Accepted(h, id, c)
    requires Placed(h[..|h| - 1], Run(h[..|h| - 1])) && Earned(h[..|h| - 1], id, c)
    ensures Places(Run(h), id, c, FateOf(h, id, c))
  {
    var front, e := h[..|h| - 1], h[|h| - 1];
    AcceptedBefore(h, id, c);
    match e
    case Accept(i, k) =>
      AcceptedBefore(h, i, k);
    case WriteFails(i, k) =>
      AcceptedBefore(h, i, k);
    case Claim(i) =>
      if i in Run(front).pending {
        AcceptedBefore(h, i, Run(front).pending[i]);
      }
    case Reap(i, k) =>
      if i in Run(front).pending {
        AcceptedBefore(h, i, Run(front).pending[i]);
      }
    case _ =>
  }

  lemma StepPending(h: seq<Event>)
    requires h != [] && Feasible(h) && Placed(h[..|h| - 1], Run(h[..|h| - 1]))
    ensures forall id | id in Run(h).pending :: Accepted(h, id, Run(h).pending[id])
    ensures var t := Run(h); forall c | c in t.claimed + t.reaped + t.dropped :: !NewConn(h, c)
  {
    var front := h[..|h| - 1];
    forall x { InHistory(h, x); }
    assert forall c | !NewConn(front, c) :: !NewConn(h, c) by {
      assert forall id, c | Accepted(front, id, c) :: Accepted(h, id, c);
    }
    assert forall id, c | Accepted(h, id, c) :: !NewConn(h, c);
  }

  /** Every accepted connection is in exactly one place, the one its own history says. */
  lemma ExactlyOnePlace(h: seq<Event>, id: Id, c: Conn)
    requires Legal(h) && Accepted(h, id, c)
    ensures var t := Run(h);
      && Places(t, id, c, FateOf(h, id, c)) && FateOf(h, id, c) != Unseen
      && (c in t.pending.Values <==> FateOf(h, id, c) == Waiting)
  {
    TableIsRight(h);
    IdsAreUnique(h);
    FatesAreEarned(h, id, c);
  }

  /** A claimed connection stays the claimer's, whatever the reaper and failing writes do later. */
  lemma {:induction false} ClaimedIsNeverReaped(h: seq<Event>, more: seq<Event>, c: Conn)
    requires Legal(h + more) && Legal(h) && c in Run(h).claimed
    ensures var t := Run(h + more);
      c in t.claimed && c !in t.reaped && c !in t.dropped && c !in t.pending.Values
    decreases |more|
  {
    TableIsRight(h);
    assert !NewConn(h, c);
    var id :| Accepted(h, id, c);
    if more == [] {
      assert h + more == h;
      ExactlyOnePlace(h, id, c);
    } else {
      assert (h + more)[..|h + more| - 1] == h + more[..|more| - 1];
      ClaimedIsNeverReaped(h, more[..|more| - 1], c);
      assert Accepted(h + more, id, c);
      ExactlyOnePlace(h + more, id, c);
    }
  }

  /** When every write has failed or its reaper has run, nothing is left in the table. */
  lemma NothingLeaks(h: seq<Event>)
    requires Legal(h)
    requires forall id, c | Accepted(h, id, c) :: WriteFails(id, c) in h || Reap(id, c) in h
    ensures Run(h).pending == map[]
  {
    TableIsRight(h);
    var pending := Run(h).pending;
    assert forall id | id in pending :: Accepted(h, id, pending[id]) && FateOf(h, id, pending[id]) == Waiting;
    forall id, c | Accepted(h, id, c)
      ensures FateOf(h, id, c) != Waiting
    {
      FatesAreEarned(h, id, c);
    }
  }

  // ----- exactly when it is right -----

  predicate PlacedOnce(t: Table, c: Conn) {
    && (c in t.pending.Values || c in t.claimed || c in t.reaped || c in t.dropped)
    && (c in t.pending.Values ==> c !in t.claimed && c !in t.reaped && c !in t.dropped)
    && (c in t.claimed ==> c !in t.reaped && c !in t.dropped)
    && (c in t.reaped ==> c !in t.dropped)
  }

  /** After every step so far, every accepted connection was in exactly one place. */
  ghost predicate AlwaysOnce(h: seq<Event>) {
    && (h == [] || AlwaysOnce(h[..|h| - 1]))
    && forall id, c | Accepted(h, id, c) :: PlacedOnce(Run(h), c)
  }

  /** Over every history that can happen: each connection is always in exactly one place if and only if
      no accept hits an id that waits and no failed write hits an entry that is not its own. */
  lemma {:induction false} AlwaysOnceIff(h: seq<Event>)
    requires Feasible(h)
    ensures AlwaysOnce(h) <==> Careful(h)
  {
    if h != [] {
      var front, e := h[..|h| - 1], h[|h| - 1];
      AlwaysOnceIff(front);
      if Careful(h) {
        forall id, c | Accepted(h, id, c)
          ensures PlacedOnce(Run(h), c)
        {
          ExactlyOnePlace(h, id, c);
        }
      } else if Careful(front) {
        assert h == front + [e];
        match e
        case Accept(id, c) =>
          LostWithoutFreshIds(front, id, c);
          assert Accepted(h, id, Run(front).pending[id]);
        case WriteFails(id, c) => MisplacedByFailedWrite(front, id, c);
      }
    }
  }

  ghost predicate Nowhere(t: Table, c: Conn) {
    c !in t.pending.Values && c !in t.claimed && c !in t.reaped && c !in t.dropped
  }

  /** An id that still waits, given out again, loses the connection that waits. */
  lemma LostWithoutFreshIds(h: seq<Event>, id: Id, c: Conn)
    requires Legal(h) && NewConn(h, c) && id in Run(h).pending
    ensures var d := Run(h).pending[id];
      Accepted(h + [Accept(id, c)], id, d) && Nowhere(Run(h + [Accept(id, c)]), d)
  {
    OneMore(h, Accept(id, c));
    TableIsRight(h);
    OnlyUnder(h, id);
    assert Run(h + [Accept(id, c)]).pending == Run(h).pending[id := c];
    assert !Accepted(h, id, c);
  }

  /** A waiting connection waits under one id. */
  lemma OnlyUnder(h: seq<Event>, id: Id)
    requires Legal(h) && id in Run(h).pending
    ensures var t, d := Run(h), Run(h).pending[id];
      && (forall i | i in t.pending && t.pending[i] == d :: i == id)
      && Accepted(h, id, d) && d !in t.claimed && d !in t.reaped && d !in t.dropped
  {
    TableIsRight(h);
    IdsAreUnique(h);
    var t := Run(h);
    assert Places(t, id, t.pending[id], FateOf(h, id, t.pending[id]));
    assert forall i | i in t.pending :: Accepted(h, i, t.pending[i]);
  }

  /** For good, if its line was written. */
  lemma {:induction false} LostForGood(h: seq<Event>, more: seq<Event>, id: Id, d: Conn)
    requires Feasible(h + more) && Feasible(h) && WriteOk(id, d) in h && Accepted(h, id, d) && Nowhere(Run(h), d)
    ensures Nowhere(Run(h + more), d)
    decreases |more|
  {
    if more == [] {
      assert h + more == h;
    } else {
      var front, e := h + more[..|more| - 1], more[|more| - 1];
      assert h + more == front + [e];
      OneMore(front, e);
      LostForGood(h, more[..|more| - 1], id, d);
      assert Accepted(front, id, d);
      IdsAreUnique(front);
    }
  }

  /** A write that fails when the entry is no longer its own closes a claimed connection, or loses the
      one that has the id now. */
  lemma MisplacedByFailedWrite(h: seq<Event>, id: Id, c: Conn)
    requires Legal(h) && Possible(h, WriteFails(id, c)) && !Harmless(Run(h), WriteFails(id, c))
    ensures var after, t := h + [WriteFails(id, c)], Run(h + [WriteFails(id, c)]);
      if id in Run(h).pending then Accepted(after, id, Run(h).pending[id]) && Nowhere(t, Run(h).pending[id])
      else Accepted(after, id, c) && c in t.claimed && c in t.dropped
  {
    OneMore(h, WriteFails(id, c));
    FatesAreEarned(h, id, c);
    ExactlyOnePlace(h, id, c);
    if id in Run(h).pending {
      OnlyUnder(h, id);
    }
  }

  // ----- assumptions that suffice -----

  /** Random ids are never given out twice and never guessed, and a failed write has not reached the
      client. */
  ghost predicate Assumed(h: seq<Event>, e: Event) {
    match e
    case Accept(id, _) => NewId(h, id)
    case Claim(id) => Reaches(id) in h
    case WriteFails(id, _) => Reaches(id) !in h
    case _ => true
  }

  ghost predicate AllAssumed(h: seq<Event>) {
    h == [] || (AllAssumed(h[..|h| - 1]) && Assumed(h[..|h| - 1], h[|h| - 1]))
  }

  lemma {:induction false} ClaimsWereReached(h: seq<Event>, id: Id)
    requires AllAssumed(h) && Claim(id) in h
    ensures Reaches(id) in h
  {
    forall x { InHistory(h, x); }
    if h[|h| - 1] != Claim(id) {
      ClaimsWereReached(h[..|h| - 1], id);
    }
  }

  lemma {:induction false} AssumptionsSuffice(h: seq<Event>)
    requires Feasible(h) && AllAssumed(h)
    ensures Legal(h)
  {
    if h != [] {
      var front, e := h[..|h| - 1], h[|h| - 1];
      AssumptionsSuffice(front);
      TableIsRight(front);
      if e.WriteFails? {
        FatesAreEarned(front, e.id, e.c);
        if Claim(e.id) in front {
          ClaimsWereReached(front, e.id);
        }
        assert Places(Run(front), e.id, e.c, FateOf(front, e.id, e.c));
      }
    }
  }

  // ----- every fate is open -----

  ghost predicate Good(h: seq<Event>) {
    Legal(h) && AllAssumed(h)
  }

  lemma OneMoreGood(h: seq<Event>, e: Event)
    requires Good(h) && Possible(h, e) && Assumed(h, e)
    ensures Good(h + [e])
  {
    OneMore(h, e);
    assert (h + [e])[..|h|] == h;
    AssumptionsSuffice(h + [e]);
  }

  /** A new connection under a new id, after any history that the assumptions allow, can be claimed, can be
      reaped and can have its write fail; each of these histories is allowed again. */
  lemma EveryFateIsOpen(h: seq<Event>, id: Id, c: Conn)
    requires Good(h) && NewConn(h, c) && NewId(h, id) && Reaches(id) !in h
    ensures Good(h + [Accept(id, c)] + [WriteFails(id, c)])
    ensures FateOf(h + [Accept(id, c)] + [WriteFails(id, c)], id, c) == Dropped
    ensures Good(h + [Accept(id, c)] + [Reaches(id)] + [WriteOk(id, c)] + [Claim(id)])
    ensures FateOf(h + [Accept(id, c)] + [Reaches(id)] + [WriteOk(id, c)] + [Claim(id)], id, c) == Claimed
    ensures Good(h + [Accept(id, c)] + [Reaches(id)] + [WriteOk(id, c)] + [Reap(id, c)])
    ensures FateOf(h + [Accept(id, c)] + [Reaches(id)] + [WriteOk(id, c)] + [Reap(id, c)], id, c) == Reaped
  {
    var waits := h + [Accept(id, c)];
    NothingYet(h, id, c);
    Next(h, Accept(id, c), id, c);
    Next(waits, WriteFails(id, c), id, c);
    Next(waits, Reaches(id), id, c);
    var told := waits + [Reaches(id)];
    Next(told, WriteOk(id, c), id, c);
    var open := told + [WriteOk(id, c)];
    Next(open, Claim(id), id, c);
    Next(open, Reap(id, c), id, c);
  }

  lemma Next(h: seq<Event>, e: Event, id: Id, c: Conn)
    requires Good(h) && Possible(h, e) && Assumed(h, e)
    ensures Good(h + [e]) && (h + [e])[..|h|] == h
    ensures FateOf(h + [e], id, c) == FateAfter(FateOf(h, id, c), e, id, c)
  {
    OneMoreGood(h, e);
  }

  /** Writes are of connections that were accepted. */
  lemma {:induction false} NothingYet(h: seq<Event>, id: Id, c: Conn)
    requires Feasible(h) && NewConn(h, c)
    ensures WriteOk(id, c) !in h && WriteFails(id, c) !in h
  {
    if h != [] {
      var front, e := h[..|h| - 1], h[|h| - 1];
      assert h == front + [e];
      forall i
        ensures !Accepted(front, i, c)
      {
        assert !Accepted(h, i, c);
      }
      NothingYet(front, id, c);
    }
  }
}
