/** Choosing a host for a routed command: `scoreRouteCandidate` and `selectRoute`. The lists of a host
    are as `getStringSliceFromHost` returns them; the reasons that go with a score are left out. */
module Routing {
  import opened Optional
  import opened Text
  import opened Sorting

  datatype Host = Host(name: string, caps: seq<string>, tags: seq<string>, status: Option<string>)

  datatype Request = Request(required: seq<string>, preferred: seq<string>, avoid: seq<string>, target: string)

  datatype Candidate = Candidate(name: string, score: int, missing: seq<string>, health: string, selected: bool)

  datatype Decision = Decision(success: bool, selected: string, reason: string, candidates: seq<Candidate>)

  // ----- what a score counts -----

  /** `containsNormalized` */
  predicate Has(values: seq<string>, want: string) {
    exists i | 0 <= i < |values| :: ToLower(Trim(values[i])) == ToLower(Trim(want))
  }

  predicate EqualFold(a: string, b: string) {
    ToLower(a) == ToLower(b)
  }

  /** `getHealthStatus` */
  function Health(h: Host): string {
    if h.status.None? || Trim(h.status.value) == "" then "unknown" else ToLower(h.status.value)
  }

  function HealthValue(health: string): int {
    if health == "online" then 20
    else if health == "stale" then -10
    else if health == "degraded" then -50
    else if health == "offline" then -1000
    else 0
  }

  function In(values: seq<string>): string -> bool {
    want => Has(values, want)
  }

  function Is(health: string): string -> bool {
    avoid => EqualFold(health, avoid)
  }

  function Without(test: string -> bool, list: seq<string>): (out: seq<string>)
    ensures |out| <= |list|
  {
    if list == [] then []
    else
      var front, last := Without(test, list[..|list| - 1]), list[|list| - 1];
      if test(last) then front else front + [last]
  }

  function Count(test: string -> bool, list: seq<string>): (n: nat)
    ensures n <= |list|
  {
    if list == [] then 0
    else Count(test, list[..|list| - 1]) + (if test(list[|list| - 1]) then 1 else 0)
  }

  function Missing(caps: seq<string>, required: seq<string>): (missing: seq<string>)
    ensures |missing| <= |required|
  {
    Without(In(caps), required)
  }

  function Liked(tags: seq<string>, preferred: seq<string>): (n: nat)
    ensures n <= |preferred|
  {
    Count(In(tags), preferred)
  }

  function Avoided(health: string, avoid: seq<string>): nat {
    Count(Is(health), avoid)
  }

  function Score(h: Host, req: Request): int {
    var missing := |Missing(h.caps, req.required)|;
    100 * (|req.required| - missing) - 1000 * missing
    + 10 * Liked(h.tags, req.preferred) + HealthValue(Health(h)) - 1000 * Avoided(Health(h), req.avoid)
  }

  predicate Wanted(h: Host, req: Request) {
    req.target == "" || EqualFold(h.name, req.target)
  }

  function Final(h: Host, req: Request): int {
    Score(h, req) - if Wanted(h, req) then 0 else 10000
  }

  function CandidateOf(h: Host, req: Request): Candidate {
    Candidate(h.name, Final(h, req), Missing(h.caps, req.required), Health(h), false)
  }

  function Candidates(hosts: seq<Host>, req: Request): (cs: seq<Candidate>)
    ensures |cs| == |hosts|
    ensures forall i | 0 <= i < |hosts| :: cs[i] == CandidateOf(hosts[i], req)
  {
    seq(|hosts|, i requires 0 <= i < |hosts| => CandidateOf(hosts[i], req))
  }

  /** Higher score first, then the smaller name. */
  predicate ByRank(a: Candidate, b: Candidate) {
    a.score > b.score || (a.score == b.score && AtMost(a.name, b.name))
  }

  function Ranked(hosts: seq<Host>, req: Request): seq<Candidate> {
    StableSort(Candidates(hosts, req), ByRank)
  }

  predicate Acceptable(ranked: seq<Candidate>) {
    ranked != [] && ranked[0].missing == [] && ranked[0].score >= 0
  }

  function Chosen(hosts: seq<Host>, req: Request): Option<Candidate> {
    var ranked := Ranked(hosts, req);
    if Acceptable(ranked) then Some(ranked[0]) else None
  }

  // ----- the methods -----

  method ScoreCapabilities(has: string -> bool, required: seq<string>) returns (score: int, missing: seq<string>)
    ensures missing == Without(has, required)
    ensures score == 100 * (|required| - |missing|) - 1000 * |missing|
  {
    score, missing := 0, [];
    for i := 0 to |required|
      invariant missing == Without(has, required[..i])
      invariant score == 100 * (i - |missing|) - 1000 * |missing|
    {
      assert required[..i + 1][..i] == required[..i];
      if has(required[i]) {
        score := score + 100;
      } else {
        score := score - 1000;
        missing := missing + [required[i]];
      }
    }
    assert required[..|required|] == required;
  }

  method AddEach(score: int, amount: int, test: string -> bool, list: seq<string>) returns (total: int)
    ensures total == score + amount * Count(test, list)
  {
    total := score;
    for i := 0 to |list|
      invariant total == score + amount * Count(test, list[..i])
    {
      assert list[..i + 1][..i] == list[..i];
      if test(list[i]) {
        total := total + amount;
      }
    }
    assert list[..|list|] == list;
  }

  method ScoreRouteCandidate(h: Host, req: Request) returns (c: Candidate)
    ensures c == Candidate(h.name, Score(h, req), Missing(h.caps, req.required), Health(h), false)
  {
    var health := Health(h);
    var score, missing := ScoreCapabilities(In(h.caps), req.required);
    score := AddEach(score, 10, In(h.tags), req.preferred);
    score := score + HealthValue(health);
    score := AddEach(score, -1000, Is(health), req.avoid);
    c := Candidate(h.name, score, missing, health, false);
  }

  method ScoreAll(hosts: seq<Host>, req: Request) returns (candidates: seq<Candidate>)
    ensures candidates == Candidates(hosts, req)
  {
    candidates := [];
    for i := 0 to |hosts|
      invariant |candidates| == i
      invariant forall k | 0 <= k < i :: candidates[k] == CandidateOf(hosts[k], req)
    {
      var c := ScoreRouteCandidate(hosts[i], req);
      if req.target != "" && !EqualFold(c.name, req.target) {
        c := c.(score := c.score - 10000);
      }
      assert c == CandidateOf(hosts[i], req);
      candidates := candidates + [c];
    }
  }

  /** `selectRoute`; no list of hosts is the error of the listing. */
  method SelectRoute(hosts: Option<seq<Host>>, req: Request) returns (d: Decision)
    ensures d.success <==> hosts.Some? && Chosen(hosts.value, req).Some?
    ensures d.selected == if d.success then Chosen(hosts.value, req).value.name else ""
    ensures hosts.Some? ==>
      var ranked := Ranked(hosts.value, req);
      d.candidates == if d.success then ranked[0 := ranked[0].(selected := true)] else ranked
  {
    if hosts.None? {
      return Decision(false, "", "failed to list hosts", []);
    }
    var candidates := ScoreAll(hosts.value, req);
    candidates := StableSort(candidates, ByRank);
    if |candidates| == 0 {
      return Decision(false, "", "no hosts available", candidates);
    }
    var best := candidates[0];
    if |best.missing| > 0 || best.score < 0 {
      return Decision(false, "", "no host satisfies route constraints", candidates);
    }
    candidates := candidates[0 := candidates[0].(selected := true)];
    d := Decision(true, best.name, "", candidates);
  }

  // ----- the first of the ranking -----

  lemma RankIsOrder()
    ensures Order(ByRank)
  {
    StringsAreOrdered();
  }

  lemma FirstOfSorted(cs: seq<Candidate>)
    requires cs != []
    ensures var ranked := StableSort(cs, ByRank);
      ranked != [] && ranked[0] in cs && forall c | c in cs :: ByRank(ranked[0], c)
  {
    var ranked := StableSort(cs, ByRank);
    RankIsOrder();
    SortSorts(cs, ByRank);
    SortKeepsLength(cs, ByRank);
    assert ranked[0] in multiset(cs);
    forall c | c in cs
      ensures ByRank(ranked[0], c)
    {
      assert c in multiset(ranked);
      assert c in ranked;
      assert ByRank(ranked[0], ranked[0]);
    }
  }

  /** Every candidate is in the ranking, and a candidate scores more than all behind it, or as much as they
      with a name that is not greater. */
  lemma RankedInOrder(hosts: seq<Host>, req: Request)
    ensures Permuted(Ranked(hosts, req), Candidates(hosts, req))
    ensures var ranked := Ranked(hosts, req);
      forall i, j | 0 <= i < j < |ranked| ::
        || ranked[i].score > ranked[j].score
        || (ranked[i].score == ranked[j].score && AtMost(ranked[i].name, ranked[j].name))
  {
    RankIsOrder();
    SortSorts(Candidates(hosts, req), ByRank);
    var ranked := Ranked(hosts, req);
    forall i, j | 0 <= i < j < |ranked|
      ensures ranked[i].score > ranked[j].score
           || (ranked[i].score == ranked[j].score && AtMost(ranked[i].name, ranked[j].name))
    {
      assert ByRank(ranked[i], ranked[j]);
    }
  }

  /** The first candidate is a host, and no host comes before it. */
  lemma FirstIsBest(hosts: seq<Host>, req: Request) returns (k: nat)
    requires hosts != []
    ensures Ranked(hosts, req) != [] && k < |hosts| && Ranked(hosts, req)[0] == CandidateOf(hosts[k], req)
    ensures forall i | 0 <= i < |hosts| :: ByRank(CandidateOf(hosts[k], req), CandidateOf(hosts[i], req))
    ensures forall i | 0 <= i < |hosts| ::
      || Final(hosts[k], req) > Final(hosts[i], req)
      || (Final(hosts[k], req) == Final(hosts[i], req) && AtMost(hosts[k].name, hosts[i].name))
  {
    var cs := Candidates(hosts, req);
    FirstOfSorted(cs);
    k :| 0 <= k < |hosts| && cs[k] == Ranked(hosts, req)[0];
    assert forall i | 0 <= i < |hosts| :: cs[i] in cs;
  }

  // ----- what a score of 0 or more means -----

  /** The same text but for case. */
  ghost predicate SameButCase(a: string, b: string) {
    |a| == |b| && forall i | 0 <= i < |a| :: Lower(a[i]) == Lower(b[i])
  }

  lemma FoldIff(a: string, b: string)
    ensures EqualFold(a, b) <==> SameButCase(a, b)
    ensures ToLower(a) == ToLower(b) <==> SameButCase(a, b)
  {
    if EqualFold(a, b) {
      assert forall i | 0 <= i < |a| :: ToLower(a)[i] == ToLower(b)[i];
    }
  }

  /** One of the values is the one wanted, but for case and white space around it. */
  ghost predicate Among(values: seq<string>, want: string) {
    exists i | 0 <= i < |values| :: SameButCase(Trim(values[i]), Trim(want))
  }

  lemma HasIff(values: seq<string>, want: string)
    ensures Has(values, want) <==> Among(values, want)
  {
    forall i | 0 <= i < |values|
      ensures ToLower(Trim(values[i])) == ToLower(Trim(want)) <==> SameButCase(Trim(values[i]), Trim(want))
    {
      FoldIff(Trim(values[i]), Trim(want));
    }
  }

  /** The state of health, but for case; without one, or with a blank one, it is unknown. */
  ghost predicate InState(h: Host, state: string) {
    match h.status
    case None => SameButCase(state, "unknown")
    case Some(status) =>
      SameButCase(state, if forall i | 0 <= i < |status| :: IsSpace(status[i]) then "unknown" else status)
  }

  /** Fit for the request, whatever it scores. */
  ghost predicate Qualified(h: Host, req: Request) {
    && (forall i | 0 <= i < |req.required| :: Among(h.caps, req.required[i]))
    && !InState(h, "offline")
    && (forall i | 0 <= i < |req.avoid| :: !InState(h, req.avoid[i]))
    && (req.target == "" || SameButCase(h.name, req.target))
  }

  lemma HealthIff(h: Host, state: string)
    ensures EqualFold(Health(h), state) <==> InState(h, state)
  {
    if h.status.None? || Blank(h.status.value) {
      NoStatusIsUnknown(h);
      FoldIff(state, "unknown");
    } else {
      StatusIsHealth(h);
      LowerTwice(h.status.value);
      FoldIff(state, h.status.value);
    }
  }

  lemma NoStatusIsUnknown(h: Host)
    requires h.status.None? || Blank(h.status.value)
    ensures Health(h) == "unknown"
  {
    if h.status.Some? {
      TrimIsEmptyIff(h.status.value);
    }
  }

  lemma StatusIsHealth(h: Host)
    requires h.status.Some? && !Blank(h.status.value)
    ensures Health(h) == ToLower(h.status.value)
  {
    TrimIsEmptyIff(h.status.value);
  }

  lemma LowerTwice(s: string)
    ensures ToLower(ToLower(s)) == ToLower(s)
  {
    LowerIsLower(s);
    LowerOfLower(ToLower(s));
  }

  lemma KnownState(h: Host, state: string)
    requires IsLower(state)
    ensures Health(h) == state <==> InState(h, state)
  {
    HealthIff(h, state);
    LowerOfLower(state);
    HealthIsLower(h);
  }

  lemma HealthIsLower(h: Host)
    ensures ToLower(Health(h)) == Health(h)
  {
    LowerOfLower("unknown");
    if h.status.Some? {
      LowerTwice(h.status.value);
    }
  }

  lemma TrimIsEmptyIff(s: string)
    ensures Trim(s) == "" <==> Blank(s)
  {
    var k := TrimShape(s);
    if Trim(s) == "" {
      assert s == s[..k] + s[k..];
    } else {
      assert !IsSpace(s[k]);
    }
  }

  // ----- what the numbers count -----

  /** The places of the list that pass. */
  ghost function Where(test: string -> bool, list: seq<string>): set<int> {
    set i | 0 <= i < |list| && test(list[i])
  }

  lemma {:induction false} CountIsWhere(test: string -> bool, list: seq<string>)
    ensures Count(test, list) == |Where(test, list)|
  {
    if list != [] {
      var n := |list| - 1;
      var front := list[..n];
      CountIsWhere(test, front);
      assert forall i | 0 <= i < n :: front[i] == list[i];
      assert Where(test, list) == Where(test, front) + (if test(list[n]) then {n} else {});
    }
  }

  lemma {:induction false} WithoutIsRest(test: string -> bool, list: seq<string>)
    ensures |Without(test, list)| == |list| - Count(test, list)
    ensures forall x :: x in Without(test, list) <==> x in list && !test(x)
  {
    if list != [] {
      WithoutIsRest(test, list[..|list| - 1]);
      assert list == list[..|list| - 1] + [list[|list| - 1]];
    }
  }

  /** The places of the required capabilities that the host has, of the preferred tags that it has, and
      of the states to avoid that it is in. */
  ghost function Present(h: Host, req: Request): set<int> {
    set i | 0 <= i < |req.required| && Among(h.caps, req.required[i])
  }

  ghost function Preferred(h: Host, req: Request): set<int> {
    set i | 0 <= i < |req.preferred| && Among(h.tags, req.preferred[i])
  }

  ghost function ToAvoid(h: Host, req: Request): set<int> {
    set i | 0 <= i < |req.avoid| && InState(h, req.avoid[i])
  }

  /** The score in full, and the missing capabilities: those required that are not among the host's. */
  lemma ScoreCounts(h: Host, req: Request)
    ensures Final(h, req) ==
      100 * |Present(h, req)| - 1000 * (|req.required| - |Present(h, req)|)
      + 10 * |Preferred(h, req)|
      + (if InState(h, "online") then 20 else if InState(h, "stale") then -10
         else if InState(h, "degraded") then -50 else if InState(h, "offline") then -1000 else 0)
      - 1000 * |ToAvoid(h, req)|
      - (if req.target == "" || SameButCase(h.name, req.target) then 0 else 10000)
    ensures forall c :: c in Missing(h.caps, req.required) <==> c in req.required && !Among(h.caps, c)
  {
    CountsAre(h, req);
    StatesAre(h);
    FoldIff(h.name, req.target);
  }

  lemma HadAre(values: seq<string>, list: seq<string>)
    ensures Count(In(values), list) == |set i | 0 <= i < |list| && Among(values, list[i])|
    ensures forall x :: In(values)(x) <==> Among(values, x)
  {
    forall x
      ensures In(values)(x) <==> Among(values, x)
    {
      HasIff(values, x);
    }
    CountIsWhere(In(values), list);
    assert Where(In(values), list) == set i | 0 <= i < |list| && Among(values, list[i]);
  }

  lemma AvoidedAre(h: Host, avoid: seq<string>)
    ensures Avoided(Health(h), avoid) == |set i | 0 <= i < |avoid| && InState(h, avoid[i])|
  {
    forall i | 0 <= i < |avoid|
      ensures Is(Health(h))(avoid[i]) <==> InState(h, avoid[i])
    {
      HealthIff(h, avoid[i]);
    }
    CountIsWhere(Is(Health(h)), avoid);
    assert Where(Is(Health(h)), avoid) == set i | 0 <= i < |avoid| && InState(h, avoid[i]);
  }

  lemma CountsAre(h: Host, req: Request)
    ensures |Missing(h.caps, req.required)| == |req.required| - |Present(h, req)|
    ensures Liked(h.tags, req.preferred) == |Preferred(h, req)|
    ensures Avoided(Health(h), req.avoid) == |ToAvoid(h, req)|
    ensures forall c :: c in Missing(h.caps, req.required) <==> c in req.required && !Among(h.caps, c)
  {
    HadAre(h.caps, req.required);
    HadAre(h.tags, req.preferred);
    WithoutIsRest(In(h.caps), req.required);
    AvoidedAre(h, req.avoid);
  }

  lemma StateNamesAreLower()
    ensures IsLower("online") && IsLower("stale") && IsLower("degraded") && IsLower("offline")
  {
  }

  lemma StatesAre(h: Host)
    ensures HealthValue(Health(h)) ==
      if InState(h, "online") then 20 else if InState(h, "stale") then -10
      else if InState(h, "degraded") then -50 else if InState(h, "offline") then -1000 else 0
    ensures HealthValue(Health(h)) == -1000 <==> InState(h, "offline")
  {
    StateNamesAreLower();
    KnownState(h, "online");
    KnownState(h, "stale");
    KnownState(h, "degraded");
    KnownState(h, "offline");
  }

  predicate Bounded(req: Request) {
    100 * |req.required| + 10 * |req.preferred| + 20 < 1000
  }

  /** Within the bound a host scores 0 or more exactly when it is fit and, where nothing is required, its
      state of health is no debt, or one that enough preferred tags pay: one if it is stale, five if it
      is degraded. */
  lemma ScoreIff(h: Host, req: Request)
    requires Bounded(req)
    ensures Final(h, req) >= 0 <==>
      && Qualified(h, req)
      && (req.required == [] && InState(h, "stale") ==> |Preferred(h, req)| >= 1)
      && (req.required == [] && InState(h, "degraded") ==> |Preferred(h, req)| >= 5)
    ensures Final(h, req) >= 0 ==> Missing(h.caps, req.required) == []
  {
    QualifiedCounts(h, req);
    CountsAre(h, req);
    StatesAre(h);
    OneState(h);
    ScoreArithmetic(|req.required|, |Missing(h.caps, req.required)|, |Preferred(h, req)|, |req.preferred|,
                    HealthValue(Health(h)), |ToAvoid(h, req)|, if Wanted(h, req) then 0 else 10000);
  }

  lemma OneState(h: Host)
    ensures InState(h, "degraded") ==> !InState(h, "online") && !InState(h, "stale")
    ensures InState(h, "stale") ==> !InState(h, "online")
  {
    StateNamesAreLower();
    KnownState(h, "online");
    KnownState(h, "stale");
    KnownState(h, "degraded");
  }

  lemma QualifiedCounts(h: Host, req: Request)
    ensures Qualified(h, req) <==>
      && |Missing(h.caps, req.required)| == 0 && HealthValue(Health(h)) > -1000
      && |ToAvoid(h, req)| == 0 && Wanted(h, req)
  {
    CountsAre(h, req);
    StatesAre(h);
    FoldIff(h.name, req.target);
    AllPresentIff(h, req);
    NoneToAvoidIff(h, req);
  }

  lemma AllPresentIff(h: Host, req: Request)
    ensures (forall i | 0 <= i < |req.required| :: Among(h.caps, req.required[i]))
       <==> Missing(h.caps, req.required) == []
  {
    var missing := Missing(h.caps, req.required);
    CountsAre(h, req);
    if missing != [] {
      assert missing[0] in missing;
    }
    assert forall i | 0 <= i < |req.required| :: req.required[i] in req.required;
  }

  lemma NoneToAvoidIff(h: Host, req: Request)
    ensures (forall i | 0 <= i < |req.avoid| :: !InState(h, req.avoid[i])) <==> |ToAvoid(h, req)| == 0
  {
    if |ToAvoid(h, req)| == 0 {
      assert forall i | 0 <= i < |req.avoid| && InState(h, req.avoid[i]) :: i in ToAvoid(h, req);
    } else {
      assert exists i :: i in ToAvoid(h, req);
    }
  }

  lemma ScoreArithmetic(required: nat, missing: nat, liked: nat, preferred: nat, value: int, avoided: nat, debt: nat)
    requires missing <= required && liked <= preferred && 100 * required + 10 * preferred + 20 < 1000
    requires value == -1000 || -50 <= value <= 20
    requires debt == 0 || debt == 10000
    ensures 100 * (required - missing) - 1000 * missing + 10 * liked + value - 1000 * avoided - debt >= 0 <==>
      missing == 0 && value > -1000 && avoided == 0 && debt == 0 && (required > 0 || 10 * liked + value >= 0)
  {
  }

  /** Within the bound a route is found exactly when some host scores 0 or more; the host chosen has
      every required capability, is neither offline nor avoided, is the target if there is one, and
      no host scores more, nor as much under a smaller name. */
  lemma RouteIff(hosts: seq<Host>, req: Request)
    requires Bounded(req)
    ensures Chosen(hosts, req).Some? <==> exists i | 0 <= i < |hosts| :: Final(hosts[i], req) >= 0
    ensures Chosen(hosts, req).Some? ==>
      exists k | 0 <= k < |hosts| :: Chosen(hosts, req).value == CandidateOf(hosts[k], req) && Qualified(hosts[k], req)
        && forall i | 0 <= i < |hosts| :: ByRank(CandidateOf(hosts[k], req), CandidateOf(hosts[i], req))
  {
    if hosts == [] {
      assert Ranked(hosts, req) == [];
    } else {
      var k := FirstIsBest(hosts, req);
      ScoreIff(hosts[k], req);
      assert forall i | 0 <= i < |hosts| :: Final(hosts[i], req) == CandidateOf(hosts[i], req).score;
    }
  }

  /** Hosts listed in another order make no difference, unless two of them share a name. */
  lemma OrderOfHostsDoesNotMatter(hosts: seq<Host>, others: seq<Host>, req: Request)
    requires Permuted(Candidates(hosts, req), Candidates(others, req))
    requires forall i, j | 0 <= i < j < |hosts| :: hosts[i].name != hosts[j].name
    ensures Ranked(hosts, req) == Ranked(others, req)
  {
    var cs := Candidates(hosts, req);
    forall i, j | 0 <= i < |cs| && 0 <= j < |cs| && cs[i].name == cs[j].name
      ensures cs[i] == cs[j]
    {
      assert cs[i].name == hosts[i].name && cs[j].name == hosts[j].name;
    }
    NamesDecideRank(cs, Candidates(others, req));
  }

  lemma NamesDecideRank(cs: seq<Candidate>, ds: seq<Candidate>)
    requires Permuted(cs, ds)
    requires forall i, j | 0 <= i < |cs| && 0 <= j < |cs| && cs[i].name == cs[j].name :: cs[i] == cs[j]
    ensures StableSort(cs, ByRank) == StableSort(ds, ByRank)
  {
    RankIsOrder();
    SortSorts(cs, ByRank);
    SortSorts(ds, ByRank);
    var ranked := StableSort(cs, ByRank);
    forall x, y | x in ranked && y in ranked && ByRank(x, y) && ByRank(y, x)
      ensures x == y
    {
      AtMostTotal(x.name, y.name);
      assert x in multiset(ranked) && y in multiset(ranked);
      assert x in cs && y in cs;
    }
    SortedPermutationIsUnique(ranked, StableSort(ds, ByRank), ByRank);
  }

  // ----- the bound is needed -----

  ghost predicate Sound(hosts: seq<Host>, req: Request) {
    Chosen(hosts, req).Some? ==>
      exists k | 0 <= k < |hosts| :: Chosen(hosts, req).value == CandidateOf(hosts[k], req) && Qualified(hosts[k], req)
  }

  lemma {:induction false} HasItself(list: seq<string>, front: seq<string>)
    requires front <= list
    ensures Missing(list, front) == [] && Liked(list, front) == |front|
  {
    if front != [] {
      HasItself(list, front[..|front| - 1]);
      assert Has(list, front[|front| - 1]);
    }
  }

  /** Beyond the bound a host that is to be avoided can be chosen. */
  lemma AvoidedHostIsChosen(required: seq<string>, preferred: seq<string>)
    requires 100 * |required| + 10 * |preferred| + 20 >= 1000
    ensures !Sound([Host("h", required, preferred, Some("online"))], Request(required, preferred, ["online"], ""))
  {
    var h := Host("h", required, preferred, Some("online"));
    var req := Request(required, preferred, ["online"], "");
    OnlineHealth(h);
    AvoidedHostScores(h, req);
    OnlineIsToAvoid(h, req);
    OnlyHostIsChosen(h, req);
    assert forall k | 0 <= k < |[h]| :: [h][k] == h;
  }

  lemma OnlyHostIsChosen(h: Host, req: Request)
    requires Final(h, req) >= 0 && Missing(h.caps, req.required) == []
    ensures Chosen([h], req) == Some(CandidateOf(h, req))
  {
    var k := FirstIsBest([h], req);
  }

  lemma OnlineIsToAvoid(h: Host, req: Request)
    requires Health(h) == "online" && req.avoid == ["online"]
    ensures !Qualified(h, req)
  {
    HealthIff(h, req.avoid[0]);
  }

  lemma OnlineHealth(h: Host)
    requires h.status == Some("online")
    ensures Health(h) == "online"
  {
    assert Trim("online") == "online";
    assert ToLower("online") == "online";
  }

  lemma AvoidedHostScores(h: Host, req: Request)
    requires Health(h) == "online" && req.avoid == ["online"] && req.target == ""
    requires h.caps == req.required && h.tags == req.preferred
    ensures Missing(h.caps, req.required) == []
    ensures Final(h, req) == 100 * |req.required| + 10 * |req.preferred| + 20 - 1000
  {
    HasItself(req.required, req.required);
    HasItself(req.preferred, req.preferred);
    CountOfOne(Is("online"), "online");
  }

  lemma CountOfOne(test: string -> bool, s: string)
    ensures Count(test, [s]) == if test(s) then 1 else 0
  {
    assert [s][..0] == [];
  }

  /** For a list of required capabilities and a list of preferred tags: the choice is right for all
      hosts, all health to avoid and all targets exactly when the two lists are within the bound. */
  lemma BoundIsExact(required: seq<string>, preferred: seq<string>)
    ensures (forall hosts, avoid, target :: Sound(hosts, Request(required, preferred, avoid, target)))
       <==> 100 * |required| + 10 * |preferred| + 20 < 1000
  {
    if 100 * |required| + 10 * |preferred| + 20 < 1000 {
      forall hosts, avoid, target
        ensures Sound(hosts, Request(required, preferred, avoid, target))
      {
        RouteIff(hosts, Request(required, preferred, avoid, target));
      }
    } else {
      AvoidedHostIsChosen(required, preferred);
    }
  }
}
