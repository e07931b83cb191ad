/** The signed fleet snapshot: `sortedNodesCopy`, `canonicalFleetBytes`, `BuildAndSignFleetState` and
    `VerifyFleetState`. The slices of the caller are arrays, so that what is copied and what is
    sorted in place can be told apart. */
module FleetState {
  import opened Sorting

  datatype Facts = Facts(ip: string, os: string, arch: string, pubkey: string, online: bool, lastSeen: int)

  datatype Node = Node(name: string, facts: Facts, caps: array<string>, tags: array<string>)

  /** What a node says, wherever its slices live. */
  datatype NodeView = NodeView(name: string, facts: Facts, caps: seq<string>, tags: seq<string>)

  function View(n: Node): NodeView
    reads n.caps, n.tags
  {
    NodeView(n.name, n.facts, n.caps[..], n.tags[..])
  }

  function Views(nodes: seq<Node>): (vs: seq<NodeView>)
    reads set n | n in nodes :: n.caps
    reads set n | n in nodes :: n.tags
    ensures |vs| == |nodes|
    ensures forall i | 0 <= i < |nodes| :: vs[i] == View(nodes[i])
  {
    seq(|nodes|, i requires 0 <= i < |nodes|
                   reads set n | n in nodes :: n.caps
                   reads set n | n in nodes :: n.tags
                   => View(nodes[i]))
  }

  // ----- the canonical form -----

  function Normal(v: NodeView): NodeView {
    v.(caps := StableSort(v.caps, AtMost), tags := StableSort(v.tags, AtMost))
  }

  function Map<T, U>(f: T -> U, s: seq<T>): (t: seq<U>)
    ensures |t| == |s|
    ensures forall i | 0 <= i < |s| :: t[i] == f(s[i])
  {
    seq(|s|, i requires 0 <= i < |s| => f(s[i]))
  }

  predicate ByName(v: NodeView, w: NodeView) {
    AtMost(v.name, w.name)
  }

  /** `sort.Slice` is not stable, so this is all it promises. */
  ghost predicate IsCanonical(vs: seq<NodeView>, out: seq<NodeView>) {
    Sorted(out, ByName) && Permuted(out, Map(Normal, vs))
  }

  // ----- sorting in place -----

  method SortStrings(a: array<string>)
    modifies a
    ensures a[..] == StableSort(old(a[..]), AtMost)
  {
    SortKeepsLength(a[..], AtMost);
    Fill(a, StableSort(a[..], AtMost));
  }

  lemma Taken<T>(s: seq<T>, k: nat)
    requires k < |s|
    ensures multiset(s) == multiset(s[..k] + s[k + 1..]) + multiset{s[k]}
  {
    assert s == s[..k] + [s[k]] + s[k + 1..];
  }

  lemma Matching<T>(s: seq<T>, t: seq<T>) returns (k: nat)
    requires Permuted(s, t) && s != []
    ensures k < |t| && t[k] == s[0] && Permuted(s[1..], t[..k] + t[k + 1..])
  {
    assert s[0] in multiset(t);
    k :| 0 <= k < |t| && t[k] == s[0];
    Taken(t, k);
    assert s == [s[0]] + s[1..];
    assert multiset(s[1..]) == multiset(s) - multiset{s[0]};
    assert multiset(t[..k] + t[k + 1..]) == multiset(t) - multiset{s[0]};
  }

  lemma MapTaken<T, U>(f: T -> U, s: seq<T>, k: nat)
    requires k < |s|
    ensures multiset(Map(f, s)) == multiset(Map(f, s[..k] + s[k + 1..])) + multiset{f(s[k])}
  {
    Taken(Map(f, s), k);
    assert Map(f, s)[..k] + Map(f, s)[k + 1..] == Map(f, s[..k] + s[k + 1..]);
  }

  lemma {:induction false} MapPermuted<T, U>(f: T -> U, s: seq<T>, t: seq<T>)
    requires Permuted(s, t)
    ensures Permuted(Map(f, s), Map(f, t))
  {
    PermutedLength(s, t);
    if s != [] {
      var k := Matching(s, t);
      MapPermuted(f, s[1..], t[..k] + t[k + 1..]);
      MapTaken(f, t, k);
      assert Map(f, s) == [f(s[0])] + Map(f, s[1..]);
    }
  }

  datatype Place = Place(name: string, index: nat)

  predicate ByKey(p: Place, q: Place) {
    AtMost(p.name, q.name)
  }

  /** `sort.Slice` by name. */
  method SortByName(nodes: array<Node>)
    modifies nodes
    ensures forall k | 0 <= k < nodes.Length :: nodes[k] in old(nodes[..])
    ensures Sorted(Views(nodes[..]), ByName) && Permuted(Views(nodes[..]), old(Views(nodes[..])))
  {
    var was := nodes[..];
    var places := seq(|was|, i requires 0 <= i < |was| => Place(was[i].name, i));
    var sorted := StableSort(places, ByKey);
    SortedPlaces(places);
    Fill(nodes, Picked(was, sorted));
    PickedViews(was, places, sorted);
    assert Views(was) == old(Views(nodes[..]));
  }

  function Picked(nodes: seq<Node>, places: seq<Place>): (out: seq<Node>)
    requires forall p | p in places :: p.index < |nodes|
    ensures |out| == |places|
    ensures forall k | 0 <= k < |places| :: out[k] == nodes[places[k].index]
  {
    seq(|places|, i requires 0 <= i < |places| => nodes[places[i].index])
  }

  lemma PickedViews(nodes: seq<Node>, places: seq<Place>, sorted: seq<Place>)
    requires |places| == |nodes|
    requires forall i | 0 <= i < |nodes| :: places[i] == Place(nodes[i].name, i)
    requires forall p | p in sorted :: p.index < |nodes| && p == places[p.index]
    requires Sorted(sorted, ByKey) && Permuted(sorted, places)
    ensures Sorted(Views(Picked(nodes, sorted)), ByName)
    ensures Permuted(Views(Picked(nodes, sorted)), Views(nodes))
  {
    var views := Views(nodes);
    var at := (p: Place) => if p.index < |views| then views[p.index] else NOBODY;
    assert Map(at, places) == views;
    assert Map(at, sorted) == Views(Picked(nodes, sorted));
    MapPermuted(at, sorted, places);
  }

  const NOBODY := NodeView("", Facts("", "", "", "", false, 0), [], [])

  lemma SortedPlaces(places: seq<Place>)
    requires forall i | 0 <= i < |places| :: places[i].index == i
    ensures var sorted := StableSort(places, ByKey);
      && |sorted| == |places| && Permuted(sorted, places) && Sorted(sorted, ByKey)
      && forall p | p in sorted :: p.index < |places| && p == places[p.index]
  {
    var sorted := StableSort(places, ByKey);
    assert Order(ByKey) by {
      StringsAreOrdered();
    }
    SortSorts(places, ByKey);
    PermutedLength(sorted, places);
    forall p | p in sorted
      ensures p.index < |places| && p == places[p.index]
    {
      assert p in multiset(sorted);
      assert p in places;
    }
  }

  method Copied(a: array<string>) returns (c: array<string>)
    ensures fresh(c) && c[..] == a[..]
  {
    c := new string[a.Length](i requires 0 <= i < a.Length reads a => a[i]);
  }

  method NormalCopy(n: Node) returns (m: Node)
    ensures fresh(m.caps) && fresh(m.tags)
    ensures View(m) == Normal(View(n))
  {
    var c := Copied(n.caps);
    SortStrings(c);
    var t := Copied(n.tags);
    SortStrings(t);
    m := n.(caps := c, tags := t);
  }

  method NormalCopies(input: array<Node>) returns (nodes: array<Node>)
    ensures fresh(nodes)
    ensures forall i | 0 <= i < nodes.Length :: fresh(nodes[i].caps) && fresh(nodes[i].tags)
    ensures Views(nodes[..]) == Map(Normal, Views(input[..]))
  {
    nodes := new Node[input.Length](i requires 0 <= i < input.Length reads input => input[i]);
    for i := 0 to nodes.Length
      invariant forall k | i <= k < nodes.Length :: nodes[k] == input[k]
      invariant forall k | 0 <= k < i :: fresh(nodes[k].caps) && fresh(nodes[k].tags)
      invariant forall k | 0 <= k < i :: View(nodes[k]) == Normal(View(input[k]))
    {
      var n := NormalCopy(nodes[i]);
      nodes[i] := n;
    }
  }

  /** `sortedNodesCopy`: it changes nothing the caller can see, and shares no slice with it. */
  method SortedNodesCopy(input: array<Node>) returns (nodes: array<Node>)
    ensures fresh(nodes)
    ensures forall i | 0 <= i < nodes.Length :: fresh(nodes[i].caps) && fresh(nodes[i].tags)
    ensures IsCanonical(Views(input[..]), Views(nodes[..]))
  {
    nodes := NormalCopies(input);
    ghost var given, normal := Views(input[..]), nodes[..];
    SortByName(nodes);
    assert Views(input[..]) == given;
    assert forall k | 0 <= k < nodes.Length :: nodes[k] in normal;
  }

  // ----- when the canonical form is one form -----

  /** Two nodes of one name are the same node up to the order of their lists. */
  ghost predicate NamesDecide(vs: seq<NodeView>) {
    NoTies(Map(Normal, vs), ByName)
  }

  ghost predicate DistinctNames(vs: seq<NodeView>) {
    forall i, j | 0 <= i < j < |vs| :: vs[i].name != vs[j].name
  }

  lemma NamesAreOrdered()
    ensures Order(ByName)
  {
    StringsAreOrdered();
  }

  lemma DistinctNamesDecide(vs: seq<NodeView>)
    requires DistinctNames(vs)
    ensures NamesDecide(vs)
  {
    var ns := Map(Normal, vs);
    forall x, y | x in ns && y in ns && ByName(x, y) && ByName(y, x)
      ensures x == y
    {
      AtMostTotal(x.name, y.name);
      var i, j :| 0 <= i < |ns| && 0 <= j < |ns| && ns[i] == x && ns[j] == y;
      assert vs[i].name == x.name && vs[j].name == y.name;
    }
  }

  lemma CanonicalIsOne(vs: seq<NodeView>, a: seq<NodeView>, b: seq<NodeView>)
    requires NamesDecide(vs) && IsCanonical(vs, a) && IsCanonical(vs, b)
    ensures a == b
  {
    NamesAreOrdered();
    forall x | x in a
      ensures x in Map(Normal, vs)
    {
      assert x in multiset(a);
    }
    SortedPermutationIsUnique(a, b, ByName);
  }

  /** Two different nodes of one name can come out either way round. */
  lemma TieHasTwoForms(vs: seq<NodeView>, a: seq<NodeView>) returns (b: seq<NodeView>)
    requires !NamesDecide(vs) && IsCanonical(vs, a)
    ensures IsCanonical(vs, b) && b != a
  {
    var ns := Map(Normal, vs);
    var x, y :| x in ns && y in ns && ByName(x, y) && ByName(y, x) && x != y;
    assert x in multiset(a) && y in multiset(a);
    var i, j :| 0 <= i < |a| && 0 <= j < |a| && a[i] == x && a[j] == y;
    b := a[i := y][j := x];
    AtMostTotal(x.name, y.name);
    SwapKeeps(a, i, j);
    assert b[i] != a[i];
  }

  lemma SwapKeeps(a: seq<NodeView>, i: nat, j: nat)
    requires i < |a| && j < |a| && a[i].name == a[j].name && Sorted(a, ByName)
    ensures var b := a[i := a[j]][j := a[i]]; Sorted(b, ByName) && Permuted(b, a)
  {
    var b := a[i := a[j]][j := a[i]];
    forall k, l | 0 <= k < l < |b|
      ensures ByName(b[k], b[l])
    {
      assert ByName(a[k], a[l]);
    }
  }

  lemma SomeCanonical(vs: seq<NodeView>) returns (a: seq<NodeView>)
    ensures IsCanonical(vs, a)
  {
    NamesAreOrdered();
    a := StableSort(Map(Normal, vs), ByName);
    SortSorts(Map(Normal, vs), ByName);
  }

  /** The bytes to sign are determined exactly when no two different nodes share a name. */
  lemma DeterminedIff(vs: seq<NodeView>)
    ensures (forall a, b | IsCanonical(vs, a) && IsCanonical(vs, b) :: a == b) <==> NamesDecide(vs)
  {
    if NamesDecide(vs) {
      forall a, b | IsCanonical(vs, a) && IsCanonical(vs, b) {
        CanonicalIsOne(vs, a, b);
      }
    } else {
      var a := SomeCanonical(vs);
      var b := TieHasTwoForms(vs, a);
    }
  }

  // ----- reorderings -----

  lemma SortOfPermutation(s: seq<string>, t: seq<string>)
    ensures StableSort(s, AtMost) == StableSort(t, AtMost) <==> Permuted(s, t)
  {
    StringsAreOrdered();
    SortSorts(s, AtMost);
    SortSorts(t, AtMost);
    if Permuted(s, t) {
      forall x, y {
        AtMostTotal(x, y);
      }
      SortedPermutationIsUnique(StableSort(s, AtMost), StableSort(t, AtMost), AtMost);
    }
  }

  /** What the normal form of a node forgets is the order of its lists, and nothing else. */
  lemma NormalForgetsOrder(v: NodeView, w: NodeView)
    ensures Normal(v) == Normal(w) <==>
      v.name == w.name && v.facts == w.facts && Permuted(v.caps, w.caps) && Permuted(v.tags, w.tags)
  {
    SortOfPermutation(v.caps, w.caps);
    SortOfPermutation(v.tags, w.tags);
  }

  lemma NormalTwice(v: NodeView)
    ensures Normal(Normal(v)) == Normal(v)
  {
    StringsAreOrdered();
    SortSorts(v.caps, AtMost);
    SortSorts(v.tags, AtMost);
    NormalForgetsOrder(Normal(v), v);
  }

  /** The same nodes in some order, each with its lists in some order. */
  ghost predicate Reordered(vs: seq<NodeView>, ws: seq<NodeView>) {
    Permuted(Map(Normal, vs), Map(Normal, ws))
  }

  lemma PermutedIsReordered(vs: seq<NodeView>, ws: seq<NodeView>)
    requires Permuted(vs, ws)
    ensures Reordered(vs, ws)
  {
    MapPermuted(Normal, vs, ws);
  }

  /** A canonical form is a reordering, and its own canonical form. */
  lemma CanonicalAgain(vs: seq<NodeView>, out: seq<NodeView>)
    requires IsCanonical(vs, out)
    ensures Reordered(vs, out) && IsCanonical(out, out)
  {
    forall k | 0 <= k < |out|
      ensures Normal(out[k]) == out[k]
    {
      assert out[k] in multiset(Map(Normal, vs));
      assert out[k] in Map(Normal, vs);
      var i :| 0 <= i < |vs| && out[k] == Normal(vs[i]);
      NormalTwice(vs[i]);
    }
    assert Map(Normal, out) == out;
  }

  // ----- signatures -----

  type Bytes = seq<nat>

  datatype Fleet = Fleet(version: int, generatedAt: string, generatedBy: string, nodes: array<Node>, signature: string)

  datatype FleetView = FleetView(
    version: int, generatedAt: string, generatedBy: string, nodes: seq<NodeView>, signature: string)

  function ViewOf(fs: Fleet): FleetView
    reads fs.nodes
    reads set n | n in fs.nodes[..] :: n.caps
    reads set n | n in fs.nodes[..] :: n.tags
  {
    FleetView(fs.version, fs.generatedAt, fs.generatedBy, Views(fs.nodes[..]), fs.signature)
  }

  /** The JSON of a state. */
  type Encoding = FleetView -> Bytes

  /** `priv` applied to bytes, and the check of a signature under a key, both in base64. */
  type Signing = Bytes -> string
  type Checking = (string, Bytes, string) -> bool

  ghost predicate IsBytesOf(fs: FleetView, encode: Encoding, b: Bytes) {
    exists out :: IsCanonical(fs.nodes, out) && b == encode(fs.(nodes := out, signature := ""))
  }

  method CanonicalFleetBytes(fs: Fleet, encode: Encoding) returns (b: Bytes)
    ensures IsBytesOf(ViewOf(fs), encode, b)
  {
    var cp := fs.(signature := "");
    var nodes := SortedNodesCopy(fs.nodes);
    cp := cp.(nodes := nodes);
    b := encode(ViewOf(cp));
  }

  method Signed(fs: Fleet, encode: Encoding, sign: Signing) returns (signed: Fleet)
    ensures signed == fs.(signature := signed.signature)
    ensures IsSigned(ViewOf(signed), encode, sign)
  {
    var b := CanonicalFleetBytes(fs, encode);
    SignatureIsCleared(ViewOf(fs), encode, b, sign(b));
    signed := fs.(signature := sign(b));
  }

  method BuildAndSignFleetState(nodes: array<Node>, now: string, pub: string, encode: Encoding, sign: Signing)
    returns (fs: Fleet)
    ensures fs.version == 1 && fs.generatedAt == now && fs.generatedBy == pub
    ensures IsCanonical(Views(nodes[..]), Views(fs.nodes[..]))
    ensures IsSigned(ViewOf(fs), encode, sign)
  {
    var sorted := SortedNodesCopy(nodes);
    ghost var given, kept := Views(nodes[..]), Views(sorted[..]);
    fs := Signed(Fleet(1, now, pub, sorted, ""), encode, sign);
    assert Views(nodes[..]) == given;
    assert Views(sorted[..]) == kept;
  }

  ghost predicate IsSigned(fs: FleetView, encode: Encoding, sign: Signing) {
    exists b :: IsBytesOf(fs, encode, b) && fs.signature == sign(b)
  }

  lemma SignatureIsCleared(fs: FleetView, encode: Encoding, b: Bytes, signature: string)
    requires IsBytesOf(fs, encode, b)
    ensures IsBytesOf(fs.(signature := signature), encode, b)
  {
    var out :| IsCanonical(fs.nodes, out) && b == encode(fs.(nodes := out, signature := ""));
    assert fs.(signature := signature).(nodes := out, signature := "") == fs.(nodes := out, signature := "");
  }

  method VerifyFleetState(fs: Fleet, encode: Encoding, check: Checking) returns (ok: bool)
    ensures exists b :: IsBytesOf(ViewOf(fs), encode, b) && ok == check(fs.generatedBy, b, fs.signature)
  {
    var b := CanonicalFleetBytes(fs, encode);
    ok := check(fs.generatedBy, b, fs.signature);
  }

  /** A signature holds for the bytes it was made of, under the
      strings that stand for its own key, and for nothing else. */
  ghost predicate Ideal(owns: string -> bool, sign: Signing, check: Checking) {
    forall key, b, c :: check(key, b, sign(c)) <==> owns(key) && b == c
  }

  ghost predicate Injective(encode: Encoding) {
    forall v, w | encode(v) == encode(w) :: v == w
  }

  ghost predicate SameFleet(v: FleetView, w: FleetView) {
    && v.version == w.version && v.generatedAt == w.generatedAt && v.generatedBy == w.generatedBy
    && Reordered(v.nodes, w.nodes)
  }

  /** A state that carries the signature of another one verifies exactly when it is that state up to
      the order of nodes, capabilities and tags. */
  lemma VerifiesIffReordered(
    signed: FleetView, bytes: Bytes, received: FleetView, again: Bytes,
    owns: string -> bool, encode: Encoding, sign: Signing, check: Checking)
    requires Ideal(owns, sign, check) && Injective(encode) && NamesDecide(signed.nodes)
    requires IsBytesOf(signed, encode, bytes) && owns(signed.generatedBy)
    requires IsBytesOf(received, encode, again)
    ensures check(received.generatedBy, again, sign(bytes)) <==> SameFleet(signed, received)
  {
    var out :| IsCanonical(signed.nodes, out) && bytes == encode(signed.(nodes := out, signature := ""));
    var got :| IsCanonical(received.nodes, got) && again == encode(received.(nodes := got, signature := ""));
    if SameFleet(signed, received) {
      assert IsCanonical(signed.nodes, got);
      CanonicalIsOne(signed.nodes, out, got);
    }
  }

  /** What was built and signed verifies: signer and verifier need not use the same sort. */
  lemma SignedStateVerifies(
    nodes: seq<NodeView>, fs: FleetView, bytes: Bytes, again: Bytes,
    owns: string -> bool, encode: Encoding, sign: Signing, check: Checking)
    requires Ideal(owns, sign, check) && Injective(encode) && DistinctNames(nodes)
    requires owns(fs.generatedBy) && IsCanonical(nodes, fs.nodes)
    requires IsBytesOf(fs, encode, bytes) && IsBytesOf(fs, encode, again)
    ensures check(fs.generatedBy, again, sign(bytes))
  {
    DistinctNamesDecide(nodes);
    CanonicalAgain(nodes, fs.nodes);
    forall x | x in Map(Normal, fs.nodes)
      ensures x in Map(Normal, nodes)
    {
      assert x in multiset(Map(Normal, fs.nodes));
      assert x in multiset(Map(Normal, nodes));
    }
    assert NamesDecide(fs.nodes);
    VerifiesIffReordered(fs, bytes, fs, again, owns, encode, sign, check);
  }

  /** With two different nodes of one name, nothing in what the sort promises keeps an unchanged state
      verifying. */
  lemma TieCanFailToVerify(fs: FleetView, owns: string -> bool, encode: Encoding, sign: Signing, check: Checking)
    returns (bytes: Bytes, again: Bytes)
    requires Ideal(owns, sign, check) && Injective(encode) && !NamesDecide(fs.nodes)
    ensures IsBytesOf(fs, encode, bytes) && IsBytesOf(fs, encode, again)
    ensures !check(fs.generatedBy, again, sign(bytes))
  {
    var a := SomeCanonical(fs.nodes);
    var b := TieHasTwoForms(fs.nodes, a);
    bytes, again := encode(fs.(nodes := a, signature := "")), encode(fs.(nodes := b, signature := ""));
    assert fs.(nodes := a, signature := "").nodes != fs.(nodes := b, signature := "").nodes;
  }
}
