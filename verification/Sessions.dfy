/** `Analyze`: audit records are filtered by age, sorted by time, and cut into sessions. */
module Sessions {
  import opened Optional
  import opened Sorting

  datatype Record = Record(
    ts: int, command: string, success: bool, exitCode: int, keyName: string, remote: string, transport: string)

  datatype Outcome = Outcome(command: string, success: bool, exitCode: int)

  datatype Session = Session(
    keyName: string, remote: string, transport: string, start: int, end: int, outcomes: seq<Outcome>)

  /** `now` is the clock's where the caller gives none. */
  datatype Options = Options(lastN: int, since: int, now: int, gap: int)

  const DEFAULT_GAP := 300 * 1_000_000_000

  predicate ByTime(a: Record, b: Record) {
    a.ts <= b.ts
  }

  function Recent(rs: seq<Record>, cutoff: int): seq<Record> {
    if rs == [] then []
    else
      var front := Recent(rs[..|rs| - 1], cutoff);
      if rs[|rs| - 1].ts > cutoff then front + [rs[|rs| - 1]] else front
  }

  /** The records that count, oldest first. */
  function Considered(rs: seq<Record>, opts: Options): seq<Record> {
    StableSort(if opts.since > 0 then Recent(rs, opts.now - opts.since) else rs, ByTime)
  }

  function GapOf(opts: Options): int {
    if opts.gap <= 0 then DEFAULT_GAP else opts.gap
  }

  // ----- what a segmentation is -----

  predicate Together(a: Record, b: Record, gap: int) {
    a.keyName == b.keyName && a.remote == b.remote && b.ts - a.ts <= gap
  }

  function Flatten(groups: seq<seq<Record>>): seq<Record> {
    if groups == [] then [] else Flatten(groups[..|groups| - 1]) + groups[|groups| - 1]
  }

  predicate IsGroup(g: seq<Record>, gap: int) {
    g != [] && forall i | 0 < i < |g| :: Together(g[i - 1], g[i], gap)
  }

  /** No two neighbouring groups could be one. */
  predicate Apart(g: seq<Record>, h: seq<Record>, gap: int) {
    g != [] && h != [] && !Together(g[|g| - 1], h[0], gap)
  }

  predicate Segmentation(groups: seq<seq<Record>>, rs: seq<Record>, gap: int) {
    && Flatten(groups) == rs
    && (forall k | 0 <= k < |groups| :: IsGroup(groups[k], gap))
    && (forall k | 0 < k < |groups| :: Apart(groups[k - 1], groups[k], gap))
  }

  function OutcomeOf(r: Record): Outcome {
    Outcome(r.command, r.success, r.exitCode)
  }

  function Outcomes(g: seq<Record>): seq<Outcome> {
    seq(|g|, i requires 0 <= i < |g| => OutcomeOf(g[i]))
  }

  function SessionOf(g: seq<Record>): Session
    requires g != []
  {
    Session(g[0].keyName, g[0].remote, g[0].transport, g[0].ts, g[|g| - 1].ts, Outcomes(g))
  }

  ghost predicate SessionsOf(sessions: seq<Session>, groups: seq<seq<Record>>) {
    && |sessions| == |groups|
    && forall k | 0 <= k < |groups| :: groups[k] != [] && sessions[k] == SessionOf(groups[k])
  }

  /** The most recent `n`, or all for 0 and less. */
  function LastN(sessions: seq<Session>, n: int): seq<Session> {
    if 0 < n < |sessions| then sessions[|sessions| - n..] else sessions
  }

  ghost predicate AnalysisOf(sessions: seq<Session>, rs: seq<Record>, opts: Options) {
    exists groups, all ::
      Segmentation(groups, Considered(rs, opts), GapOf(opts)) && SessionsOf(all, groups) && sessions
           == LastN(all, opts.lastN)
  }

  // ----- growing a segmentation record by record -----

  lemma {:induction false} GroupIsUniform(g: seq<Record>, gap: int)
    requires IsGroup(g, gap)
    ensures g[|g| - 1].keyName == g[0].keyName && g[|g| - 1].remote == g[0].remote
  {
    if |g| > 1 {
      GroupIsUniform(g[..|g| - 1], gap);
      assert Together(g[|g| - 2], g[|g| - 1], gap);
    }
  }

  lemma FlattenLast(groups: seq<seq<Record>>, g: seq<Record>)
    ensures Flatten(groups + [g]) == Flatten(groups) + g
  {
    assert (groups + [g])[..|groups|] == groups;
  }

  lemma AddGroup(groups: seq<seq<Record>>, rs: seq<Record>, g: seq<Record>, gap: int)
    requires Segmentation(groups, rs, gap) && IsGroup(g, gap)
    requires groups != [] ==> Apart(groups[|groups| - 1], g, gap)
    ensures Segmentation(groups + [g], rs + g, gap)
  {
    FlattenLast(groups, g);
  }

  /** The test for a new session. */
  predicate Splits(s: Session, r: Record, gap: int) {
    r.keyName != s.keyName || r.remote != s.remote || r.ts - s.end > gap
  }

  function Empty(r: Record): Session {
    Session(r.keyName, r.remote, r.transport, r.ts, r.ts, [])
  }

  function Grown(s: Session, r: Record): Session {
    s.(end := r.ts, outcomes := s.outcomes + [OutcomeOf(r)])
  }

  lemma SplitsIsNotTogether(g: seq<Record>, r: Record, gap: int)
    requires IsGroup(g, gap)
    ensures Splits(SessionOf(g), r, gap) <==> !Together(g[|g| - 1], r, gap)
  {
    GroupIsUniform(g, gap);
  }

  lemma Continue(groups: seq<seq<Record>>, g: seq<Record>, r: Record, rs: seq<Record>, gap: int)
    requires g != [] && Segmentation(groups + [g], rs, gap) && !Splits(SessionOf(g), r, gap)
    ensures Segmentation(groups + [g + [r]], rs + [r], gap)
  {
    var was := groups + [g];
    FlattenLast(groups, g);
    assert IsGroup(was[|groups|], gap);
    SplitsIsNotTogether(g, r, gap);
    if groups != [] {
      assert Apart(was[|groups| - 1], was[|groups|], gap);
    }
    assert was[..|groups|] == groups && forall k | 0 <= k < |groups| :: was[k] == groups[k];
    AddGroup(groups, Flatten(groups), g + [r], gap);
    assert Flatten(groups) + (g + [r]) == rs + [r];
  }

  lemma StartAnother(groups: seq<seq<Record>>, r: Record, rs: seq<Record>, gap: int)
    requires Segmentation(groups, rs, gap)
    requires groups != [] ==> groups[|groups| - 1] != [] && Splits(SessionOf(groups[|groups| - 1]), r, gap)
    ensures Segmentation(groups + [[r]], rs + [r], gap)
  {
    if groups != [] {
      assert IsGroup(groups[|groups| - 1], gap);
      SplitsIsNotTogether(groups[|groups| - 1], r, gap);
    }
    AddGroup(groups, rs, [r], gap);
  }

  /** `sessions` and, if there is one, the session still growing. */
  function WithCurrent(sessions: seq<Session>, cur: Option<Session>): seq<Session> {
    if cur.None? then sessions else sessions + [cur.value]
  }

  ghost predicate Cuts(sessions: seq<Session>, groups: seq<seq<Record>>, rs: seq<Record>, gap: int) {
    Segmentation(groups, rs, gap) && SessionsOf(sessions, groups)
  }

  lemma CutsOneMore(sessions: seq<Session>, groups: seq<seq<Record>>, r: Record, rs: seq<Record>, gap: int)
    requires Cuts(sessions, groups, rs, gap)
    requires sessions != [] ==> Splits(sessions[|sessions| - 1], r, gap)
    ensures Cuts(sessions + [Grown(Empty(r), r)], groups + [[r]], rs + [r], gap)
  {
    StartAnother(groups, r, rs, gap);
    SessionOfOne(r);
  }

  lemma SessionOfOne(r: Record)
    ensures SessionOf([r]) == Grown(Empty(r), r)
  {
    assert Outcomes([r]) == [OutcomeOf(r)];
  }

  lemma CutsGrown(sessions: seq<Session>, cur: Session, groups: seq<seq<Record>>, r: Record, rs: seq<Record>, gap: int)
    returns (grown: seq<seq<Record>>)
    requires Cuts(sessions + [cur], groups, rs, gap) && !Splits(cur, r, gap)
    ensures Cuts(sessions + [Grown(cur, r)], grown, rs + [r], gap)
  {
    var front, g := groups[..|groups| - 1], groups[|groups| - 1];
    assert groups == front + [g];
    assert (sessions + [cur])[|sessions|] == SessionOf(g) == cur;
    Continue(front, g, r, rs, gap);
    grown := front + [g + [r]];
    SessionGrows(g, r);
    assert forall k | 0 <= k < |sessions| :: (sessions + [cur])[k] == sessions[k];
  }

  predicate Restarts(cur: Option<Session>, r: Record, gap: int) {
    cur.None? || Splits(cur.value, r, gap)
  }

  lemma CutsNext(
    sessions: seq<Session>, cur: Option<Session>, groups: seq<seq<Record>>, r: Record, rs: seq<Record>, gap: int)
    returns (next: seq<seq<Record>>)
    requires Cuts(WithCurrent(sessions, cur), groups, rs, gap) && (cur.None? ==> sessions == [])
    ensures Restarts(cur, r, gap) ==> Cuts(WithCurrent(sessions, cur) + [Grown(Empty(r), r)], next, rs + [r], gap)
    ensures !Restarts(cur, r, gap) ==> Cuts(sessions + [Grown(cur.value, r)], next, rs + [r], gap)
  {
    if Restarts(cur, r, gap) {
      CutsOneMore(WithCurrent(sessions, cur), groups, r, rs, gap);
      next := groups + [[r]];
    } else {
      next := CutsGrown(sessions, cur.value, groups, r, rs, gap);
    }
  }

  lemma SessionGrows(g: seq<Record>, r: Record)
    requires g != []
    ensures SessionOf(g + [r]) == Grown(SessionOf(g), r)
  {
  }

  // ----- the methods -----

  method Sort(recs: array<Record>)
    modifies recs
    ensures recs[..] == StableSort(old(recs[..]), ByTime)
  {
    SortKeepsLength(recs[..], ByTime);
    Fill(recs, StableSort(recs[..], ByTime));
  }

  method Filter(recs: array<Record>, cutoff: int) returns (filtered: array<Record>)
    ensures fresh(filtered) && filtered[..] == Recent(recs[..], cutoff)
  {
    var kept := [];
    for i := 0 to recs.Length
      invariant kept == Recent(recs[..i], cutoff)
    {
      assert recs[..i + 1][..i] == recs[..i];
      if recs[i].ts > cutoff {
        kept := kept + [recs[i]];
      }
    }
    assert recs[..recs.Length] == recs[..];
    filtered := new Record[|kept|](i requires 0 <= i < |kept| => kept[i]);
  }

  method Cut(recs: seq<Record>, gap: int) returns (sessions: seq<Session>)
    ensures exists groups :: Cuts(sessions, groups, recs, gap)
  {
    sessions := [];
    var cur: Option<Session> := None;
    ghost var groups := [];
    for i := 0 to |recs|
      invariant cur.None? ==> sessions == []
      invariant Cuts(WithCurrent(sessions, cur), groups, recs[..i], gap)
    {
      var r := recs[i];
      assert recs[..i + 1] == recs[..i] + [r];
      groups := CutsNext(sessions, cur, groups, r, recs[..i], gap);
      if cur.None? || r.keyName != cur.value.keyName || r.remote != cur.value.remote || r.ts - cur.value.end > gap {
        if cur.Some? {
          sessions := sessions + [cur.value];
        }
        cur := Some(Session(r.keyName, r.remote, r.transport, r.ts, r.ts, []));
      }
      cur := Some(cur.value.(end := r.ts, outcomes := cur.value.outcomes + [OutcomeOf(r)]));
    }
    assert recs[..|recs|] == recs;
    if cur.Some? {
      sessions := sessions + [cur.value];
    }
  }

  /** `Analyze`. Without a time limit it sorts the slice of its caller. */
  method Analyze(recs: array<Record>, opts: Options) returns (sessions: seq<Session>)
    modifies recs
    ensures recs[..] == if opts.since > 0 then old(recs[..]) else StableSort(old(recs[..]), ByTime)
    ensures AnalysisOf(sessions, old(recs[..]), opts)
  {
    var work := recs;
    if opts.since > 0 {
      work := Filter(recs, opts.now - opts.since);
    }
    Sort(work);
    var all := Cut(work[..], GapOf(opts));
    ghost var groups :| Cuts(all, groups, work[..], GapOf(opts));
    sessions := all;
    if opts.lastN > 0 && |sessions| > opts.lastN {
      sessions := sessions[|sessions| - opts.lastN..];
    }
    assert Considered(old(recs[..]), opts) == work[..];
    assert sessions == LastN(all, opts.lastN);
  }

  // ----- there is one answer -----

  lemma SegmentationFront(groups: seq<seq<Record>>, rs: seq<Record>, gap: int)
    requires Segmentation(groups, rs, gap) && groups != []
    ensures var g := groups[|groups| - 1];
      IsGroup(g, gap) && |g| <= |rs| && g == rs[|rs| - |g|..]
      && Segmentation(groups[..|groups| - 1], rs[..|rs| - |g|], gap)
  {
    var front, g := groups[..|groups| - 1], groups[|groups| - 1];
    assert rs == Flatten(front) + g;
    assert IsGroup(g, gap);
  }

  lemma FlattenEmpty(groups: seq<seq<Record>>, gap: int)
    requires Segmentation(groups, [], gap)
    ensures groups == []
  {
    if groups != [] {
      SegmentationFront(groups, [], gap);
    }
  }

  /** The group before the last one ends where the last one begins. */
  lemma LastGroupStarts(groups: seq<seq<Record>>, rs: seq<Record>, gap: int)
    requires Segmentation(groups, rs, gap) && groups != []
    ensures var g := groups[|groups| - 1];
      0 < |g| <= |rs| && (|g| < |rs| ==> !Together(rs[|rs| - |g| - 1], rs[|rs| - |g|], gap))
  {
    SegmentationFront(groups, rs, gap);
    var front, g := groups[..|groups| - 1], groups[|groups| - 1];
    var before := rs[..|rs| - |g|];
    if |g| < |rs| {
      assert front != [];
      SegmentationFront(front, before, gap);
      var f := front[|front| - 1];
      assert f[|f| - 1] == before[|before| - 1];
      assert Apart(groups[|groups| - 2], groups[|groups| - 1], gap);
    }
  }

  lemma LongerLastGroupFails(a: seq<seq<Record>>, b: seq<seq<Record>>, rs: seq<Record>, gap: int)
    requires Segmentation(a, rs, gap) && Segmentation(b, rs, gap) && a != [] && b != []
    ensures |a[|a| - 1]| >= |b[|b| - 1]|
  {
    LastGroupStarts(a, rs, gap);
    SegmentationFront(a, rs, gap);
    SegmentationFront(b, rs, gap);
    var h := b[|b| - 1];
    var start := |rs| - |h|;
    forall p | start < p < |rs|
      ensures Together(rs[p - 1], rs[p], gap)
    {
      assert Together(h[p - start - 1], h[p - start], gap);
    }
  }

  lemma {:induction false} SegmentationIsUnique(a: seq<seq<Record>>, b: seq<seq<Record>>, rs: seq<Record>, gap: int)
    requires Segmentation(a, rs, gap) && Segmentation(b, rs, gap)
    ensures a == b
  {
    if rs == [] {
      FlattenEmpty(a, gap);
      FlattenEmpty(b, gap);
    } else {
      LongerLastGroupFails(a, b, rs, gap);
      LongerLastGroupFails(b, a, rs, gap);
      SegmentationFront(a, rs, gap);
      SegmentationFront(b, rs, gap);
      SegmentationIsUnique(a[..|a| - 1], b[..|b| - 1], rs[..|rs| - |a[|a| - 1]|], gap);
      assert a == a[..|a| - 1] + [a[|a| - 1]];
      assert b == b[..|b| - 1] + [b[|b| - 1]];
    }
  }

  lemma AnalysisIsUnique(x: seq<Session>, y: seq<Session>, rs: seq<Record>, opts: Options)
    requires AnalysisOf(x, rs, opts) && AnalysisOf(y, rs, opts)
    ensures x == y
  {
    var all := Considered(rs, opts);
    var a, xs :| Segmentation(a, all, GapOf(opts)) && SessionsOf(xs, a) && x == LastN(xs, opts.lastN);
    var b, ys :| Segmentation(b, all, GapOf(opts)) && SessionsOf(ys, b) && y == LastN(ys, opts.lastN);
    SegmentationIsUnique(a, b, all, GapOf(opts));
    assert xs == ys;
  }

  // ----- what the order of the log and the age limit change -----

  lemma {:induction false} RankOfRecent(rs: seq<Record>, x: Record, cutoff: int)
    ensures Rank(Recent(rs, cutoff), x, ByTime) == if x.ts > cutoff then Rank(rs, x, ByTime) else []
  {
    if rs != [] {
      var front, r := rs[..|rs| - 1], rs[|rs| - 1];
      RankOfRecent(front, x, cutoff);
      assert rs == front + [r];
      RankOneMore(front, r, x);
      RankOneMore(Recent(front, cutoff), r, x);
    }
  }

  lemma RankOneMore(rs: seq<Record>, r: Record, x: Record)
    ensures Rank(rs + [r], x, ByTime) == Rank(rs, x, ByTime) + (if r.ts == x.ts then [r] else [])
  {
    RankAppend(rs, [r], x);
    assert [r][1..] == [];
  }

  lemma {:induction false} RankAppend(a: seq<Record>, b: seq<Record>, x: Record)
    ensures Rank(a + b, x, ByTime) == Rank(a, x, ByTime) + Rank(b, x, ByTime)
  {
    if a == [] {
      assert a + b == b;
    } else {
      assert (a + b)[1..] == a[1..] + b;
      RankAppend(a[1..], b, x);
    }
  }

  /** Log lines that are out of place make no difference, as long as those of one instant stand in
      the same order. */
  lemma OrderOfLogDoesNotMatter(rs: seq<Record>, ts: seq<Record>, opts: Options)
    requires SameRanks(rs, ts, ByTime)
    ensures Considered(rs, opts) == Considered(ts, opts)
    ensures forall sessions | AnalysisOf(sessions, rs, opts) :: AnalysisOf(sessions, ts, opts)
  {
    var cutoff := opts.now - opts.since;
    forall x
      ensures Rank(Recent(rs, cutoff), x, ByTime) == Rank(Recent(ts, cutoff), x, ByTime)
    {
      RankOfRecent(rs, x, cutoff);
      RankOfRecent(ts, x, cutoff);
      assert Rank(rs, x, ByTime) == Rank(ts, x, ByTime);
    }
    SameRanksSortAlike(rs, ts);
    SameRanksSortAlike(Recent(rs, cutoff), Recent(ts, cutoff));
  }

  lemma SameRanksSortAlike(rs: seq<Record>, ts: seq<Record>)
    requires SameRanks(rs, ts, ByTime)
    ensures StableSort(rs, ByTime) == StableSort(ts, ByTime)
  {
    SortSorts(rs, ByTime);
    forall x
      ensures Rank(StableSort(rs, ByTime), x, ByTime) == Rank(ts, x, ByTime)
    {
      SortIsStable(rs, x, ByTime);
      assert Rank(rs, x, ByTime) == Rank(ts, x, ByTime);
    }
    StableSortIsTheOne(ts, StableSort(rs, ByTime), ByTime);
  }

  lemma RecentKeepsRanks(rs: seq<Record>, cutoff: int)
    ensures forall x :: Rank(Recent(StableSort(rs, ByTime), cutoff), x, ByTime) == Rank(Recent(rs, cutoff), x, ByTime)
  {
    forall x
      ensures Rank(Recent(StableSort(rs, ByTime), cutoff), x, ByTime) == Rank(Recent(rs, cutoff), x, ByTime)
    {
      SortIsStable(rs, x, ByTime);
      RankOfRecent(rs, x, cutoff);
      RankOfRecent(StableSort(rs, ByTime), x, cutoff);
    }
  }

  /** An age limit takes the end of the sorted log. */
  lemma LimitTakesTheEnd(rs: seq<Record>, opts: Options) returns (k: nat)
    requires opts.since > 0
    ensures var sorted := StableSort(rs, ByTime);
      k <= |sorted| && Considered(rs, opts) == sorted[k..]
  {
    k := RecentCutsSorted(rs, opts.now - opts.since);
    RecentOfSorted(rs, opts.now - opts.since, k);
  }

  lemma RecentCutsSorted(rs: seq<Record>, cutoff: int) returns (k: nat)
    ensures k <= |StableSort(rs, ByTime)| && Recent(StableSort(rs, ByTime), cutoff) == StableSort(rs, ByTime)[k..]
  {
    SortSorts(rs, ByTime);
    k := RecentIsSuffix(StableSort(rs, ByTime), cutoff);
  }

  lemma RecentOfSorted(rs: seq<Record>, cutoff: int, k: nat)
    requires k <= |StableSort(rs, ByTime)| && Recent(StableSort(rs, ByTime), cutoff) == StableSort(rs, ByTime)[k..]
    ensures StableSort(Recent(rs, cutoff), ByTime) == StableSort(rs, ByTime)[k..]
  {
    SortSorts(rs, ByTime);
    RecentKeepsRanks(rs, cutoff);
    SuffixIsSorted(StableSort(rs, ByTime), k);
    StableSortIsTheOne(Recent(rs, cutoff), StableSort(rs, ByTime)[k..], ByTime);
  }

  lemma SuffixIsSorted(sorted: seq<Record>, k: nat)
    requires Sorted(sorted, ByTime) && k <= |sorted|
    ensures Sorted(sorted[k..], ByTime)
  {
  }

  lemma {:induction false} RecentIsSuffix(rs: seq<Record>, cutoff: int) returns (k: nat)
    requires Sorted(rs, ByTime)
    ensures k <= |rs| && Recent(rs, cutoff) == rs[k..]
    ensures forall i | k <= i < |rs| :: rs[i].ts > cutoff
  {
    if rs == [] {
      k := 0;
    } else {
      var n := |rs| - 1;
      k := RecentIsSuffix(rs[..n], cutoff);
      if rs[n].ts > cutoff {
        assert rs[k..] == rs[..n][k..] + [rs[n]];
      } else {
        assert k == n;
        k := |rs|;
      }
    }
  }

  /** So an age limit cuts at most one session: the first one shown is the end of a session of the
      whole log, and every later one is a session of the whole log. */
  lemma {:induction false} LimitCutsOneSession(
    whole: seq<seq<Record>>, part: seq<seq<Record>>, rs: seq<Record>, k: nat, gap: int)
    requires Segmentation(whole, rs, gap) && k < |rs| && Segmentation(part, rs[k..], gap)
    ensures 0 < |part| <= |whole|
    ensures part[1..] == whole[|whole| - |part| + 1..]
    ensures var g := whole[|whole| - |part|]; |part[0]| <= |g| && part[0] == g[|g| - |part[0]|..]
  {
    var j, m := Cutting(whole, rs, k, gap);
    SegmentationIsUnique(part, CutAt(whole, j, m), rs[k..], gap);
  }

  lemma {:induction false} Cutting(whole: seq<seq<Record>>, rs: seq<Record>, k: nat, gap: int) returns (j: nat, m: nat)
    requires Segmentation(whole, rs, gap) && k < |rs|
    ensures j < |whole| && m < |whole[j]|
    ensures Segmentation(CutAt(whole, j, m), rs[k..], gap)
    decreases |rs|
  {
    assert whole != [];
    SegmentationFront(whole, rs, gap);
    var g := whole[|whole| - 1];
    var n := |rs| - |g|;
    if k >= n {
      j, m := |whole| - 1, k - n;
      CuttingLast(whole, rs, k, gap);
    } else {
      j, m := Cutting(whole[..|whole| - 1], rs[..n], k, gap);
      CuttingOneMore(whole, rs, k, gap, j, m);
    }
  }

  lemma CuttingLast(whole: seq<seq<Record>>, rs: seq<Record>, k: nat, gap: int)
    requires whole != [] && IsGroup(whole[|whole| - 1], gap) && |whole[|whole| - 1]| <= |rs|
    requires whole[|whole| - 1] == rs[|rs| - |whole[|whole| - 1]|..] && |rs| - |whole[|whole| - 1]| <= k < |rs|
    ensures Segmentation(CutAt(whole, |whole| - 1, k - (|rs| - |whole[|whole| - 1]|)), rs[k..], gap)
  {
    var g := whole[|whole| - 1];
    var m := k - (|rs| - |g|);
    OneGroup(g, m, gap);
    assert g[m..] == rs[k..];
    assert CutAt(whole, |whole| - 1, m) == [g[m..]];
  }

  lemma CuttingOneMore(whole: seq<seq<Record>>, rs: seq<Record>, k: nat, gap: int, j: nat, m: nat)
    requires Segmentation(whole, rs, gap) && whole != [] && IsGroup(whole[|whole| - 1], gap)
    requires k + |whole[|whole| - 1]| < |rs| && whole[|whole| - 1] == rs[|rs| - |whole[|whole| - 1]|..]
    requires j < |whole| - 1 && m < |whole[j]|
    requires Segmentation(CutAt(whole[..|whole| - 1], j, m), rs[..|rs| - |whole[|whole| - 1]|][k..], gap)
    ensures Segmentation(CutAt(whole, j, m), rs[k..], gap)
  {
    var front, g := whole[..|whole| - 1], whole[|whole| - 1];
    var n := |rs| - |g|;
    assert Apart(whole[|front| - 1], whole[|front|], gap);
    CutEndsAlike(front, j, m);
    AddGroup(CutAt(front, j, m), rs[..n][k..], g, gap);
    assert rs[..n][k..] + g == rs[k..];
    CutOneMore(front, g, j, m);
    assert whole == front + [g];
  }

  /** The groups from `j` on, the first of them without its first `m` records. */
  function CutAt(groups: seq<seq<Record>>, j: nat, m: nat): seq<seq<Record>>
    requires j < |groups| && m < |groups[j]|
  {
    [groups[j][m..]] + groups[j + 1..]
  }

  lemma CutOneMore(groups: seq<seq<Record>>, g: seq<Record>, j: nat, m: nat)
    requires j < |groups| && m < |groups[j]|
    ensures CutAt(groups + [g], j, m) == CutAt(groups, j, m) + [g]
  {
  }

  lemma CutEndsAlike(groups: seq<seq<Record>>, j: nat, m: nat)
    requires j < |groups| && m < |groups[j]| && groups[|groups| - 1] != []
    ensures var cut, g := CutAt(groups, j, m), groups[|groups| - 1];
      var h := cut[|cut| - 1];
      h != [] && h[|h| - 1] == g[|g| - 1]
  {
  }

  lemma OneGroup(g: seq<Record>, m: nat, gap: int)
    requires IsGroup(g, gap) && m < |g|
    ensures Segmentation([g[m..]], g[m..], gap)
  {
    var h := g[m..];
    FlattenLast([], h);
    assert [] + [h] == [h];
    forall i | 0 < i < |h|
      ensures Together(h[i - 1], h[i], gap)
    {
      assert Together(g[m + i - 1], g[m + i], gap);
    }
  }

  // ----- what an analysis says, record by record -----

  /** The session tells of exactly these records. */
  ghost predicate Tells(s: Session, g: seq<Record>) {
    && g != [] && |s.outcomes| == |g|
    && s.transport == g[0].transport && s.start == g[0].ts && s.end == g[|g| - 1].ts
    && (forall i | 0 <= i < |g| :: g[i].keyName == s.keyName && g[i].remote == s.remote)
    && (forall i | 0 <= i < |g| ::
          && s.outcomes[i].command == g[i].command && s.outcomes[i].success == g[i].success
          && s.outcomes[i].exitCode == g[i].exitCode)
    && forall i, j | 0 <= i < j < |g| :: g[i].ts <= g[j].ts
  }

  /** The gap asked for, or five minutes in nanoseconds. */
  ghost predicate Gap(gap: int, opts: Options) {
    gap == if opts.gap > 0 then opts.gap else 300_000_000_000
  }

  /** No pause between neighbours is longer than the gap. */
  ghost predicate WithoutPause(g: seq<Record>, gap: int) {
    forall i | 0 < i < |g| :: g[i].ts - g[i - 1].ts <= gap
  }

  /** The next session has another key, another endpoint, or comes after a longer pause. */
  ghost predicate MustPart(g: seq<Record>, h: seq<Record>, gap: int) {
    && g != [] && h != []
    && (h[0].keyName != g[|g| - 1].keyName || h[0].remote != g[|g| - 1].remote || h[0].ts - g[|g| - 1].ts > gap)
  }

  ghost predicate CutWhereItMust(groups: seq<seq<Record>>, gap: int) {
    && (forall k | 0 <= k < |groups| :: WithoutPause(groups[k], gap))
    && forall k | 0 < k < |groups| :: MustPart(groups[k - 1], groups[k], gap)
  }

  /** Session by session, what is told and the records it tells of. */
  ghost predicate AllTell(all: seq<Session>, groups: seq<seq<Record>>) {
    |all| == |groups| && forall k | 0 <= k < |groups| :: Tells(all[k], groups[k])
  }

  /** The sessions are the last `n` of all, or all of them for 0 and less. */
  ghost predicate TheLast(sessions: seq<Session>, all: seq<Session>, n: int) {
    && |sessions| == (if n <= 0 || n >= |all| then |all| else n)
    && sessions == all[|all| - |sessions|..]
  }

  /** The records considered fall into sessions that are cut where they must be and nowhere else, and
      the last of them are reported, each with the key, the endpoint, the times and the outcomes of
      its own records. */
  lemma AnalysisMeans(sessions: seq<Session>, rs: seq<Record>, opts: Options)
    requires AnalysisOf(sessions, rs, opts)
    ensures exists groups, all, gap ::
      && Gap(gap, opts) && Flatten(groups) == Considered(rs, opts) && CutWhereItMust(groups, gap)
      && AllTell(all, groups) && TheLast(sessions, all, opts.lastN)
  {
    var groups: seq<seq<Record>>, all: seq<Session> :|
      Segmentation(groups, Considered(rs, opts), GapOf(opts)) && SessionsOf(all, groups)
      && sessions == LastN(all, opts.lastN);
    var gap := GapOf(opts);
    ConsideredIsSorted(rs, opts);
    SegmentationMeans(groups, all, Considered(rs, opts), gap);
    LastNIsTheLast(all, opts.lastN);
    assert Gap(gap, opts) && CutWhereItMust(groups, gap);
    assert AllTell(all, groups) && TheLast(sessions, all, opts.lastN);
  }

  lemma ConsideredIsSorted(rs: seq<Record>, opts: Options)
    ensures Sorted(Considered(rs, opts), ByTime)
  {
    SortSorts(if opts.since > 0 then Recent(rs, opts.now - opts.since) else rs, ByTime);
  }

  lemma LastNIsTheLast(all: seq<Session>, n: int)
    ensures TheLast(LastN(all, n), all, n)
  {
  }

  lemma SegmentationMeans(groups: seq<seq<Record>>, all: seq<Session>, rs: seq<Record>, gap: int)
    requires Segmentation(groups, rs, gap) && SessionsOf(all, groups) && Sorted(rs, ByTime)
    ensures CutWhereItMust(groups, gap) && AllTell(all, groups)
  {
    forall k | 0 <= k < |groups|
      ensures Tells(all[k], groups[k]) && WithoutPause(groups[k], gap)
    {
      GroupIsSorted(groups, rs, gap, k);
      GroupTells(groups[k], gap);
    }
    forall k | 0 < k < |groups|
      ensures MustPart(groups[k - 1], groups[k], gap)
    {
      assert Apart(groups[k - 1], groups[k], gap);
    }
  }

  lemma GroupTells(g: seq<Record>, gap: int)
    requires IsGroup(g, gap) && Sorted(g, ByTime)
    ensures Tells(SessionOf(g), g) && WithoutPause(g, gap)
  {
    GroupIsUniformAt(g, gap);
    forall i, j | 0 <= i < j < |g|
      ensures g[i].ts <= g[j].ts
    {
      assert ByTime(g[i], g[j]);
    }
    forall i | 0 < i < |g|
      ensures g[i].ts - g[i - 1].ts <= gap
    {
      assert Together(g[i - 1], g[i], gap);
    }
  }

  lemma {:induction false} GroupIsUniformAt(g: seq<Record>, gap: int)
    requires IsGroup(g, gap)
    ensures forall i | 0 <= i < |g| :: g[i].keyName == g[0].keyName && g[i].remote == g[0].remote
  {
    if |g| > 1 {
      var front := g[..|g| - 1];
      GroupIsUniformAt(front, gap);
      assert forall i | 0 <= i < |front| :: g[i] == front[i];
      assert Together(g[|g| - 2], g[|g| - 1], gap);
    }
  }

  lemma {:induction false} GroupIsSorted(groups: seq<seq<Record>>, rs: seq<Record>, gap: int, k: nat)
    requires Segmentation(groups, rs, gap) && Sorted(rs, ByTime) && k < |groups|
    ensures IsGroup(groups[k], gap) && Sorted(groups[k], ByTime)
  {
    SegmentationFront(groups, rs, gap);
    var g := groups[|groups| - 1];
    var n := |rs| - |g|;
    if k == |groups| - 1 {
      forall i, j | 0 <= i < j < |g|
        ensures ByTime(g[i], g[j])
      {
        assert ByTime(rs[n + i], rs[n + j]);
      }
    } else {
      assert Sorted(rs[..n], ByTime);
      GroupIsSorted(groups[..|groups| - 1], rs[..n], gap, k);
    }
  }

  /** The records considered are those of the log that are young enough. */
  lemma {:induction false} ConsideredAre(rs: seq<Record>, opts: Options, r: Record)
    ensures r in Considered(rs, opts) <==> r in rs && (opts.since > 0 ==> r.ts > opts.now - opts.since)
  {
    RecentAre(rs, opts.now - opts.since, r);
    SortKeepsMembers(if opts.since > 0 then Recent(rs, opts.now - opts.since) else rs, r);
  }

  lemma SortKeepsMembers(kept: seq<Record>, r: Record)
    ensures r in StableSort(kept, ByTime) <==> r in kept
  {
    SortSorts(kept, ByTime);
    assert r in StableSort(kept, ByTime) <==> r in multiset(StableSort(kept, ByTime));
    assert r in kept <==> r in multiset(kept);
  }

  lemma {:induction false} RecentAre(rs: seq<Record>, cutoff: int, r: Record)
    ensures r in Recent(rs, cutoff) <==> r in rs && r.ts > cutoff
  {
    if rs != [] {
      RecentAre(rs[..|rs| - 1], cutoff, r);
      assert rs == rs[..|rs| - 1] + [rs[|rs| - 1]];
    }
  }
}
