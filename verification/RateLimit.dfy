/** Per-key exec rate limiting: `rateExceeded` keeps, for every key, the times of the execs it
    admitted, compacts that list in place and refuses once `perMin` of them are recent. */
module RateLimit {

  const WINDOW := 60

  // ----- the specification on whole histories -----

  /** The admissions no older than `cutoff`. */
  function Since(times: seq<int>, cutoff: int): (kept: seq<int>) {
    if times == [] then []
    else
      var front := Since(times[..|times| - 1], cutoff);
      if times[|times| - 1] >= cutoff then front + [times[|times| - 1]] else front
  }

  /** One call. The clock is read twice: for the cutoff, and for the time that is recorded. */
  datatype Request = Request(key: string, perMin: int, readAt: int, recordAt: int)

  predicate Limited(r: Request) {
    r.perMin > 0 && r.key != ""
  }

  function Times(times: map<string, seq<int>>, key: string): seq<int> {
    if key in times then times[key] else []
  }

  function Recent(list: seq<int>, r: Request): seq<int> {
    Since(list, r.readAt - WINDOW)
  }

  predicate Full(list: seq<int>, r: Request) {
    |Recent(list, r)| >= r.perMin
  }

  /** The compacted list, with the new admission if there is one. */
  function NextList(list: seq<int>, r: Request): seq<int> {
    if Full(list, r) then Recent(list, r) else Recent(list, r) + [r.recordAt]
  }

  predicate Exceeded(times: map<string, seq<int>>, r: Request) {
    Limited(r) && Full(Times(times, r.key), r)
  }

  /** What the daemon keeps. */
  function Compacted(times: map<string, seq<int>>, r: Request): map<string, seq<int>> {
    if !Limited(r) then times else times[r.key := NextList(Times(times, r.key), r)]
  }

  /** What it would keep if it forgot nothing. */
  function Remembered(times: map<string, seq<int>>, r: Request): map<string, seq<int>> {
    if !Limited(r) || Exceeded(times, r) then times
    else times[r.key := Times(times, r.key) + [r.recordAt]]
  }

  function Kept(run: seq<Request>): map<string, seq<int>> {
    if run == [] then map[] else Compacted(Kept(run[..|run| - 1]), run[|run| - 1])
  }

  function History(run: seq<Request>): map<string, seq<int>> {
    if run == [] then map[] else Remembered(History(run[..|run| - 1]), run[|run| - 1])
  }

  /** The wall clock never goes back. Calls of one key hold its lock from the first reading to the
      second; those of different keys may interleave. */
  predicate Monotone(run: seq<Request>) {
    && (forall i | 0 <= i < |run| :: run[i].readAt <= run[i].recordAt)
    && (forall i, j | 0 <= i < j < |run| && run[i].key == run[j].key :: run[i].recordAt <= run[j].readAt)
  }

  // ----- filtering by time -----

  lemma {:induction false} SinceSince(times: seq<int>, early: int, late: int)
    requires early <= late
    ensures Since(Since(times, early), late) == Since(times, late)
  {
    if times != [] {
      SinceSince(times[..|times| - 1], early, late);
      var front := Since(times[..|times| - 1], early);
      var last := times[|times| - 1];
      assert (front + [last])[..|front|] == front;
    }
  }

  lemma SinceSnoc(times: seq<int>, t: int, cutoff: int)
    ensures Since(times + [t], cutoff) == if t >= cutoff then Since(times, cutoff) + [t] else Since(times, cutoff)
  {
    assert (times + [t])[..|times|] == times;
  }

  lemma {:induction false} SinceAll(times: seq<int>, cutoff: int)
    requires forall i | 0 <= i < |times| :: times[i] >= cutoff
    ensures Since(times, cutoff) == times
  {
    if times != [] {
      SinceAll(times[..|times| - 1], cutoff);
    }
  }

  // ----- the compacted list answers as the whole history would -----

  /** At a cutoff no earlier than the last one used, both lists hold the same admissions. */
  ghost predicate Agree(kept: seq<int>, history: seq<int>, now: int) {
    forall cutoff | cutoff >= now - WINDOW :: Since(kept, cutoff) == Since(history, cutoff)
  }

  /** Compacting at `cut` and appending the same admission to both lists. */
  lemma ListsAgree(kept: seq<int>, history: seq<int>, added: seq<int>, cut: int, cutoff: int)
    requires Since(kept, cutoff) == Since(history, cutoff) && cut <= cutoff && |added| <= 1
    ensures Since(Since(kept, cut) + added, cutoff) == Since(history + added, cutoff)
  {
    SinceSince(kept, cut, cutoff);
    if added == [] {
      assert Since(kept, cut) + added == Since(kept, cut) && history + added == history;
    } else {
      assert added == [added[0]];
      SinceSnoc(Since(kept, cut), added[0], cutoff);
      SinceSnoc(history, added[0], cutoff);
    }
  }

  lemma ListStepAgrees(kept: seq<int>, history: seq<int>, added: seq<int>, now: int, readAt: int)
    requires Agree(kept, history, now) && now <= readAt && |added| <= 1
    ensures Agree(Since(kept, readAt - WINDOW) + added, history + added, readAt)
  {
    forall cutoff | cutoff >= readAt - WINDOW
      ensures Since(Since(kept, readAt - WINDOW) + added, cutoff) == Since(history + added, cutoff)
    {
      ListsAgree(kept, history, added, readAt - WINDOW, cutoff);
    }
  }

  lemma NextAgrees(kept: map<string, seq<int>>, history: map<string, seq<int>>, now: int, r: Request, key: string)
    requires Agree(Times(kept, key), Times(history, key), now) && now <= r.readAt
    requires Exceeded(kept, r) == Exceeded(history, r)
    ensures Agree(Times(Compacted(kept, r), key), Times(Remembered(history, r), key), r.readAt)
  {
    if key == r.key && Limited(r) {
      var added := if Exceeded(kept, r) then [] else [r.recordAt];
      ListStepAgrees(Times(kept, key), Times(history, key), added, now, r.readAt);
      assert Recent(Times(kept, key), r) + [] == Recent(Times(kept, key), r);
      assert Times(history, key) + [] == Times(history, key);
    }
  }

  lemma {:induction false} OwnRunAgrees(run: seq<Request>, key: string, now: int)
    requires Monotone(run) && forall i | 0 <= i < |run| :: run[i].key == key
    requires run != [] ==> now == run[|run| - 1].readAt
    ensures Agree(Times(Kept(run), key), Times(History(run), key), now)
  {
    if run != [] {
      var front, r := run[..|run| - 1], run[|run| - 1];
      var before := if front == [] then now else front[|front| - 1].readAt;
      OwnRunAgrees(front, key, before);
      assert front != [] ==> front[|front| - 1] == run[|run| - 2];
      NextAgrees(Kept(front), History(front), before, r, key);
    }
  }

  /** The list kept for a key and all its admissions select the same times at every later cutoff. */
  lemma RunAgrees(run: seq<Request>, key: string, now: int)
    requires Monotone(run) && forall i | 0 <= i < |run| && run[i].key == key :: run[i].readAt <= now
    ensures Agree(Times(Kept(run), key), Times(History(run), key), now)
  {
    var own := Only(run, key);
    KeysAreIndependent(run, key);
    OnlyOwn(run, key);
    OnlyIsMonotone(run, key);
    OwnRunAgrees(own, key, if own == [] then now else own[|own| - 1].readAt);
    assert own != [] ==> own[|own| - 1] in run;
  }

  /** An exec is refused exactly when its key was admitted `perMin` times since a window ago,
      counted over everything that key was ever admitted. */
  lemma RefusedExactlyWhenFull(run: seq<Request>, r: Request)
    requires Monotone(run + [r]) && r.perMin > 0 && r.key != ""
    ensures Exceeded(Kept(run), r) <==> |Since(Times(History(run), r.key), r.readAt - 60)| >= r.perMin
  {
    assert forall i | 0 <= i < |run| :: (run + [r])[i] == run[i];
    assert (run + [r])[|run|] == r;
    RunAgrees(run, r.key, r.readAt);
  }

  // ----- keys do not affect each other -----

  function Only(run: seq<Request>, key: string): seq<Request> {
    if run == [] then []
    else
      var front := Only(run[..|run| - 1], key);
      if run[|run| - 1].key == key then front + [run[|run| - 1]] else front
  }

  lemma OneMore(run: seq<Request>, r: Request)
    ensures Kept(run + [r]) == Compacted(Kept(run), r) && History(run + [r]) == Remembered(History(run), r)
  {
    assert (run + [r])[..|run|] == run;
  }

  lemma OwnRequest(a: map<string, seq<int>>, b: map<string, seq<int>>, r: Request)
    requires Times(a, r.key) == Times(b, r.key)
    ensures Times(Compacted(a, r), r.key) == Times(Compacted(b, r), r.key)
    ensures Times(Remembered(a, r), r.key) == Times(Remembered(b, r), r.key)
  {
  }

  lemma OtherRequest(times: map<string, seq<int>>, r: Request, key: string)
    requires r.key != key
    ensures Times(Compacted(times, r), key) == Times(times, key) == Times(Remembered(times, r), key)
  {
  }

  /** What is kept and what is remembered for a key depend on that key's own requests alone. */
  lemma {:induction false} KeysAreIndependent(run: seq<Request>, key: string)
    ensures Times(Kept(run), key) == Times(Kept(Only(run, key)), key)
    ensures Times(History(run), key) == Times(History(Only(run, key)), key)
  {
    if run != [] {
      var front, r := run[..|run| - 1], run[|run| - 1];
      var own := Only(front, key);
      KeysAreIndependent(front, key);
      if r.key == key {
        OneMore(own, r);
        OwnRequest(Kept(front), Kept(own), r);
        OwnRequest(History(front), History(own), r);
      } else {
        OtherRequest(Kept(front), r, key);
        OtherRequest(History(front), r, key);
      }
    }
  }

  lemma {:induction false} OnlyOwn(run: seq<Request>, key: string)
    ensures forall r | r in Only(run, key) :: r.key == key && r in run
  {
    if run != [] {
      OnlyOwn(run[..|run| - 1], key);
    }
  }

  lemma {:induction false} OnlyIsMonotone(run: seq<Request>, key: string)
    requires Monotone(run)
    ensures Monotone(Only(run, key))
  {
    if run != [] {
      var front, r := run[..|run| - 1], run[|run| - 1];
      assert forall i | 0 <= i < |front| :: front[i] == run[i];
      OnlyIsMonotone(front, key);
      OnlyOwn(front, key);
      assert forall x | x in front && x.key == r.key :: x.recordAt <= r.readAt;
    }
  }

  // ----- the bound -----

  /** The admissions of the window that ends at `t`, ends included. */
  function InWindow(times: seq<int>, t: int): seq<int> {
    if times == [] then []
    else
      var front := InWindow(times[..|times| - 1], t);
      if t - 60 <= times[|times| - 1] <= t then front + [times[|times| - 1]] else front
  }

  /** At most `limit` admissions fall into any window. */
  ghost predicate Bounded(times: seq<int>, limit: int) {
    forall t :: |InWindow(times, t)| <= limit
  }

  /** A window holds the times of its 60 seconds, each as often as it was recorded. */
  lemma {:induction false} InWindowCounts(times: seq<int>, t: int)
    ensures |InWindow(times, t)| == |set i | 0 <= i < |times| && t - 60 <= times[i] <= t|
  {
    if times != [] {
      var n := |times| - 1;
      InWindowCounts(times[..n], t);
      var before := set i | 0 <= i < |times[..n]| && t - 60 <= times[..n][i] <= t;
      var all := set i | 0 <= i < |times| && t - 60 <= times[i] <= t;
      assert all == before + (if t - 60 <= times[n] <= t then {n} else {});
    }
  }

  lemma {:induction false} WindowIsFewer(times: seq<int>, t: int, cutoff: int)
    requires cutoff <= t - WINDOW
    ensures |InWindow(times, t)| <= |Since(times, cutoff)|
  {
    if times != [] {
      WindowIsFewer(times[..|times| - 1], t, cutoff);
    }
  }

  lemma OneMoreIsBounded(before: seq<int>, limit: int, readAt: int, recordAt: int)
    requires Bounded(before, limit) && readAt <= recordAt
    requires |Since(before, readAt - WINDOW)| < limit
    ensures Bounded(before + [recordAt], limit)
  {
    forall t
      ensures |InWindow(before + [recordAt], t)| <= limit
    {
      assert (before + [recordAt])[..|before|] == before;
      if recordAt <= t {
        WindowIsFewer(before, t, readAt - WINDOW);
      }
      assert |InWindow(before, t)| <= limit;
    }
  }

  predicate LimitedTo(run: seq<Request>, key: string, perMin: int) {
    forall i | 0 <= i < |run| && run[i].key == key :: run[i].perMin <= perMin
  }

  /** However the limit changes, no window of 60 seconds ever holds more recorded admissions of a key
      than the highest one. */
  lemma {:induction false} WindowIsBounded(run: seq<Request>, key: string, perMin: int)
    requires Monotone(run) && key != "" && perMin > 0 && LimitedTo(run, key, perMin)
    ensures Bounded(Times(History(run), key), perMin)
  {
    if run == [] {
      assert Times(History(run), key) == [];
    } else {
      var front, r := run[..|run| - 1], run[|run| - 1];
      assert forall i | 0 <= i < |front| :: front[i] == run[i];
      WindowIsBounded(front, key, perMin);
      if r.key == key && Limited(r) && !Exceeded(History(front), r) {
        OneMoreIsBounded(Times(History(front), key), perMin, r.readAt, r.recordAt);
      }
    }
  }

  /** The times of a key's execs that were let through. */
  function Admitted(run: seq<Request>, key: string): seq<int> {
    if run == [] then []
    else
      var front, r := run[..|run| - 1], run[|run| - 1];
      Admitted(front, key) + (if r.key == key && !Exceeded(Kept(front), r) then [r.recordAt] else [])
  }

  lemma {:induction false} AdmittedIsHistory(run: seq<Request>, key: string)
    requires Monotone(run) && key != "" && forall i | 0 <= i < |run| && run[i].key == key :: run[i].perMin > 0
    ensures Admitted(run, key) == Times(History(run), key)
  {
    if run != [] {
      var front, r := run[..|run| - 1], run[|run| - 1];
      assert forall i | 0 <= i < |front| :: front[i] == run[i];
      AdmittedIsHistory(front, key);
      if r.key == key {
        assert run == front + [r];
        KeptDecides(front, r);
      }
    }
  }

  lemma KeptDecides(run: seq<Request>, r: Request)
    requires Monotone(run + [r]) && r.perMin > 0 && r.key != ""
    ensures Exceeded(Kept(run), r) <==> Exceeded(History(run), r)
  {
    RefusedExactlyWhenFull(run, r);
  }

  /** When every exec of a key came with a limit, and none with a higher one, no window of 60 seconds ever
      holds more execs let through than that. */
  lemma AdmittedIsBounded(run: seq<Request>, key: string, limit: int)
    requires Monotone(run) && key != ""
    requires forall i | 0 <= i < |run| && run[i].key == key :: 0 < run[i].perMin <= limit
    ensures limit > 0 ==> Bounded(Admitted(run, key), limit)
  {
    AdmittedIsHistory(run, key);
    if limit > 0 {
      WindowIsBounded(run, key, limit);
    }
  }

  /** Without a limit, or without a key, nothing is refused and nothing is kept. */
  lemma UnlimitedIsAdmitted(run: seq<Request>, r: Request)
    requires r.perMin <= 0 || r.key == ""
    ensures !Exceeded(Kept(run), r) && Compacted(Kept(run), r) == Kept(run)
  {
  }

  // ----- the code -----

  /** A Go slice that is compacted and appended to in place: the first `len` cells of `buf`. */
  class RateWindow {
    var buf: array<int>
    var len: nat

    ghost predicate Valid()
      reads this
    {
      len <= buf.Length
    }

    ghost function Events(): seq<int>
      reads this, buf
      requires Valid()
    {
      buf[..len]
    }

    constructor ()
      ensures Valid() && Events() == [] && fresh(buf)
    {
      buf, len := new int[0], 0;
    }

    /** `kept := w.events[:0]` and the loop that appends to it */
    method Compact(cutoff: int)
      requires Valid()
      modifies this`len, buf
      ensures Valid() && Events() == Since(old(Events()), cutoff)
    {
      var kept := 0;
      for i := 0 to len
        invariant kept <= i <= len <= buf.Length
        invariant buf[..kept] == Since(old(buf[..len])[..i], cutoff)
        invariant buf[i..len] == old(buf[..len])[i..]
      {
        assert old(buf[..len])[..i + 1][..i] == old(buf[..len])[..i];
        var t := buf[i];
        assert t == buf[i..len][0] == old(buf[..len])[i];
        assert buf[i + 1..len] == buf[i..len][1..] == old(buf[..len])[i + 1..];
        if t >= cutoff {
          ghost var before := buf[..kept];
          buf[kept] := t;
          kept := kept + 1;
          assert buf[..kept] == before + [t];
        }
      }
      assert old(buf[..len])[..len] == old(Events());
      len := kept;
    }

    /** `append`: into the spare capacity if there is any, else into a larger array. */
    method Append(t: int)
      requires Valid()
      modifies this, buf
      ensures Valid() && (buf == old(buf) || fresh(buf))
      ensures Events() == old(Events()) + [t]
    {
      if len == buf.Length {
        var bigger := new int[2 * len + 1];
        forall i | 0 <= i < len {
          bigger[i] := buf[i];
        }
        assert bigger[..len] == buf[..len];
        buf := bigger;
      }
      buf[len] := t;
      len := len + 1;
    }

    /** `rateExceeded` of one key, under its lock */
    method RateExceeded(r: Request) returns (exceeded: bool)
      requires Valid()
      modifies this, buf
      ensures Valid() && (buf == old(buf) || fresh(buf))
      ensures exceeded <==> r.perMin > 0 && r.key != "" && |Since(old(Events()), r.readAt - 60)| >= r.perMin
      ensures Events() ==
        if r.perMin <= 0 || r.key == "" then old(Events())
        else Since(old(Events()), r.readAt - 60) + (if exceeded then [] else [r.recordAt])
      ensures Limited(r) ==> Events() == NextList(old(Events()), r)
    {
      if !Limited(r) {
        return false;
      }
      Compact(r.readAt - WINDOW);
      if len >= r.perMin {
        return true;
      }
      Append(r.recordAt);
      return false;
    }
  }
}
