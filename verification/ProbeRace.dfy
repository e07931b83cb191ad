/** `pickReachable`: all candidate hosts are probed at once, and the answers come back in any
    order. The winner must not depend on that order, and must be returned without waiting for
    an answer that cannot change it. */
module ProbeRace {
  import opened Optional

  datatype Probe = Pending | IsUp | IsDown

  /** The most preferred host that is up. */
  ghost predicate Wins(up: seq<bool>, winner: Option<nat>) {
    match winner
    case None => forall i | 0 <= i < |up| :: !up[i]
    case Some(w) => w < |up| && up[w] && forall i | 0 <= i < w :: !up[i]
  }

  /** The answers come back in the order `arrival`. */
  ghost predicate Arrives(arrival: seq<nat>, n: nat) {
    && |arrival| == n
    && (forall i | 0 <= i < n :: arrival[i] < n)
    && (forall i, j | 0 <= i < j < n :: arrival[i] != arrival[j])
  }

  ghost predicate Heard(arrival: seq<nat>, k: nat, i: nat)
    requires k <= |arrival|
  {
    i in arrival[..k]
  }

  /** Another world that agrees on the first `k` answers. */
  ghost predicate SameSoFar(up: seq<bool>, other: seq<bool>, arrival: seq<nat>, k: nat)
    requires k <= |arrival|
  {
    && |other| == |up|
    && forall i | 0 <= i < |up| && Heard(arrival, k, i) :: other[i] == up[i]
  }

  /** After `k` answers the winner is known: no answer still pending could change it. */
  ghost predicate Decided(up: seq<bool>, arrival: seq<nat>, k: nat, winner: Option<nat>)
    requires k <= |arrival|
  {
    forall other | SameSoFar(up, other, arrival, k) :: Wins(other, winner)
  }

  function After(up: seq<bool>, arrival: seq<nat>, k: nat): seq<Probe>
    requires k <= |arrival|
  {
    seq(|up|, i requires 0 <= i < |up| =>
      if i in arrival[..k] then (if up[i] then IsUp else IsDown) else Pending)
  }

  /** Everything before `p` is down, and `p` is the end or still pending. */
  predicate FirstOpen(state: seq<Probe>, p: nat) {
    && p <= |state| && (p < |state| ==> state[p].Pending?)
    && forall i | 0 <= i < p :: state[i].IsDown?
  }

  /** `decided` is what the scan over `state` concludes. */
  predicate Concludes(state: seq<Probe>, decided: Option<nat>) {
    match decided
    case Some(w) => w < |state| && state[w].IsUp? && forall i | 0 <= i < w :: state[i].IsDown?
    case None => exists p | 0 <= p <= |state| :: FirstOpen(state, p)
  }

  /** The inner loop: it stops at the first host that is not known to be down. */
  method Scan(state: seq<Probe>) returns (decided: Option<nat>)
    ensures Concludes(state, decided)
  {
    for i := 0 to |state|
      invariant forall j | 0 <= j < i :: state[j].IsDown?
    {
      if state[i].Pending? {
        assert FirstOpen(state, i);
        return None;
      }
      if state[i].IsUp? {
        return Some(i);
      }
    }
    assert FirstOpen(state, |state|);
    return None;
  }

  /** The most preferred reachable host, whatever the arrival order, at the first moment at which
      it is certain; `heard` is the number of answers received by then. */
  method PickReachable(hosts: seq<string>, up: seq<bool>, arrival: seq<nat>)
    returns (host: string, ok: bool, ghost winner: Option<nat>, ghost heard: nat)
    requires |up| == |hosts| && Arrives(arrival, |hosts|)
    ensures Wins(up, winner)
    ensures ok <==> exists i | 0 <= i < |hosts| :: up[i]
    ensures ok ==> winner.Some? && host == hosts[winner.value]
    ensures !ok ==> winner.None? && host == ""
    ensures heard <= |hosts| && Decided(up, arrival, heard, winner)
    ensures forall k, w | 0 <= k < heard :: !Decided(up, arrival, k, w)
  {
    winner, heard := None, 0;
    if |hosts| == 0 {
      return "", false, None, 0;
    }
    var state := seq(|hosts|, _ => Pending);
    assert state == After(up, arrival, 0);
    for received := 0 to |hosts|
      invariant heard == received && state == After(up, arrival, received)
      invariant forall k, w | 0 <= k < received :: !Decided(up, arrival, k, w)
      invariant received > 0 ==> Concludes(state, None)
    {
      if received > 0 {
        Undecided(up, arrival, received);
      } else {
        NothingHeard(up, arrival);
      }
      var idx := arrival[received];
      state := state[idx := if up[idx] then IsUp else IsDown];
      heard := received + 1;
      OneMoreAnswer(up, arrival, received);
      var decided := Scan(state);
      if decided.Some? {
        winner := decided;
        KnownWinner(up, arrival, heard, decided.value);
        return hosts[decided.value], true, winner, heard;
      }
    }
    AllDown(up, arrival);
    return "", false, None, |hosts|;
  }

  lemma OneMoreAnswer(up: seq<bool>, arrival: seq<nat>, k: nat)
    requires k < |arrival| && arrival[k] < |up|
    ensures After(up, arrival, k + 1)
         == After(up, arrival, k)[arrival[k] := if up[arrival[k]] then IsUp else IsDown]
  {
    assert arrival[..k + 1] == arrival[..k] + [arrival[k]];
  }

  lemma KnownWinner(up: seq<bool>, arrival: seq<nat>, k: nat, w: nat)
    requires k <= |arrival| && Concludes(After(up, arrival, k), Some(w))
    ensures Decided(up, arrival, k, Some(w)) && Wins(up, Some(w))
  {
    var state := After(up, arrival, k);
    assert forall i | 0 <= i <= w :: Heard(arrival, k, i) && up[i] == (i == w) by {
      forall i | 0 <= i <= w
        ensures Heard(arrival, k, i) && up[i] == (i == w)
      {
        assert state[i] == if i == w then IsUp else IsDown;
      }
    }
  }

  /** While a host that may still come first is pending, two worlds disagree on the winner. */
  lemma PendingMatters(up: seq<bool>, arrival: seq<nat>, k: nat, p: nat, w: Option<nat>)
    requires k <= |arrival| && p < |up| && !Heard(arrival, k, p)
    requires forall i | 0 <= i < p :: Heard(arrival, k, i) && !up[i]
    ensures !Decided(up, arrival, k, w)
  {
    var yes, no := up[p := true], up[p := false];
    assert SameSoFar(up, yes, arrival, k) && SameSoFar(up, no, arrival, k);
    WorldsDiffer(up, p, w);
  }

  lemma WorldsDiffer(up: seq<bool>, p: nat, w: Option<nat>)
    requires p < |up| && forall i | 0 <= i < p :: !up[i]
    ensures !(Wins(up[p := true], w) && Wins(up[p := false], w))
  {
    if Wins(up[p := true], w) {
      WinnerIsUnique(up[p := true], w, Some(p));
    }
  }

  lemma NothingHeard(up: seq<bool>, arrival: seq<nat>)
    requires |up| > 0
    ensures forall w :: !Decided(up, arrival, 0, w)
  {
    forall w
      ensures !Decided(up, arrival, 0, w)
    {
      PendingMatters(up, arrival, 0, 0, w);
    }
  }

  lemma Undecided(up: seq<bool>, arrival: seq<nat>, k: nat)
    requires Arrives(arrival, |up|) && k < |up| && Concludes(After(up, arrival, k), None)
    ensures forall w :: !Decided(up, arrival, k, w)
  {
    var state := After(up, arrival, k);
    assert !Heard(arrival, k, arrival[k]);
    assert state[arrival[k]].Pending?;
    var p :| 0 <= p <= |state| && FirstOpen(state, p);
    forall i | 0 <= i < p
      ensures Heard(arrival, k, i) && !up[i]
    {
      assert state[i].IsDown?;
    }
    forall w
      ensures !Decided(up, arrival, k, w)
    {
      PendingMatters(up, arrival, k, p, w);
    }
  }

  lemma AllDown(up: seq<bool>, arrival: seq<nat>)
    requires Arrives(arrival, |up|) && Concludes(After(up, arrival, |up|), None)
    ensures Wins(up, None) && Decided(up, arrival, |up|, None)
  {
    var n, state := |up|, After(up, arrival, |up|);
    AllHeard(arrival, n);
    var p :| 0 <= p <= |state| && FirstOpen(state, p);
    assert forall i | 0 <= i < n :: !state[i].Pending?;
    forall i | 0 <= i < n
      ensures Heard(arrival, n, i) && !up[i]
    {
      assert state[i].IsDown?;
    }
  }

  /** `n` different answers below `n` are all the answers. */
  lemma AllHeard(arrival: seq<nat>, n: nat)
    requires Arrives(arrival, n)
    ensures forall i | 0 <= i < n :: i in arrival[..n]
  {
    var heard := Answers(arrival, n);
    InjectiveSize(arrival, n);
    assert heard <= Below(n);
    SubsetOfSameSize(heard, Below(n));
    forall i | 0 <= i < n
      ensures i in arrival[..n]
    {
      assert i in heard;
    }
  }

  function Below(n: nat): (s: set<nat>)
    ensures |s| == n && forall i: nat :: i in s <==> i < n
  {
    if n == 0 then {} else Below(n - 1) + {n - 1}
  }

  function Answers(arrival: seq<nat>, k: nat): set<nat>
    requires k <= |arrival|
  {
    set i | 0 <= i < k :: arrival[i]
  }

  lemma {:induction false} InjectiveSize(arrival: seq<nat>, k: nat)
    requires k <= |arrival| && forall i, j | 0 <= i < j < k :: arrival[i] != arrival[j]
    ensures |Answers(arrival, k)| == k
  {
    if k > 0 {
      InjectiveSize(arrival, k - 1);
      AnswersOneMore(arrival, k - 1);
      assert arrival[k - 1] !in Answers(arrival, k - 1);
    }
  }

  lemma AnswersOneMore(arrival: seq<nat>, k: nat)
    requires k < |arrival|
    ensures Answers(arrival, k + 1) == Answers(arrival, k) + {arrival[k]}
  {
    forall x
      ensures x in Answers(arrival, k + 1) <==> x in Answers(arrival, k) || x == arrival[k]
    {
      if x in Answers(arrival, k) {
        var i :| 0 <= i < k && arrival[i] == x;
        assert 0 <= i < k + 1;
      }
    }
  }

  lemma SubsetOfSameSize(a: set<nat>, b: set<nat>)
    requires a <= b && |a| == |b|
    ensures a == b
  {
    assert |b - a| == |b| - |a|;
  }

  /** Two arrival orders of the same answers name the same host. */
  lemma WinnerIsUnique(up: seq<bool>, a: Option<nat>, b: Option<nat>)
    requires Wins(up, a) && Wins(up, b)
    ensures a == b
  {
  }
}
