/** What Go's `sort` package promises, independent of its algorithm: a stable sort has exactly one
    result, an unstable one has exactly one where no two elements are equal in rank. */
module Sorting {

  ghost predicate Order<T(!new)>(le: (T, T) -> bool) {
    && (forall x, y :: le(x, y) || le(y, x))
    && (forall x, y, z :: le(x, y) && le(y, z) ==> le(x, z))
  }

  ghost predicate Sorted<T>(s: seq<T>, le: (T, T) -> bool) {
    forall i, j | 0 <= i < j < |s| :: le(s[i], s[j])
  }

  ghost predicate Permuted<T>(s: seq<T>, t: seq<T>) {
    multiset(s) == multiset(t)
  }

  function Insert<T>(x: T, s: seq<T>, le: (T, T) -> bool): seq<T> {
    if s == [] || le(x, s[0]) then [x] + s else [s[0]] + Insert(x, s[1..], le)
  }

  /** `sort.SliceStable`, written as the insertion sort that its contract determines. */
  function StableSort<T>(s: seq<T>, le: (T, T) -> bool): seq<T> {
    if s == [] then [] else Insert(s[0], StableSort(s[1..], le), le)
  }

  /** The elements of the rank of `x`, in order. */
  function Rank<T>(s: seq<T>, x: T, le: (T, T) -> bool): seq<T> {
    if s == [] then []
    else (if le(s[0], x) && le(x, s[0]) then [s[0]] else []) + Rank(s[1..], x, le)
  }

  ghost predicate SameRanks<T(!new)>(s: seq<T>, t: seq<T>, le: (T, T) -> bool) {
    forall x :: Rank(s, x, le) == Rank(t, x, le)
  }

  lemma {:induction false} InsertIsPermuted<T>(x: T, s: seq<T>, le: (T, T) -> bool)
    ensures multiset(Insert(x, s, le)) == multiset(s) + multiset{x}
  {
    if s != [] {
      assert s == [s[0]] + s[1..];
      if !le(x, s[0]) {
        InsertIsPermuted(x, s[1..], le);
      }
    }
  }

  lemma {:induction false} InsertIsSorted<T(!new)>(x: T, s: seq<T>, le: (T, T) -> bool)
    requires Order(le) && Sorted(s, le)
    ensures Sorted(Insert(x, s, le), le)
  {
    if s != [] && !le(x, s[0]) {
      var rest := Insert(x, s[1..], le);
      InsertIsSorted(x, s[1..], le);
      InsertIsPermuted(x, s[1..], le);
      forall y | y in rest
        ensures le(s[0], y)
      {
        assert y in multiset(rest);
        assert y == x || y in multiset(s[1..]);
      }
    }
  }

  lemma {:induction false} InsertIsStable<T(!new)>(x: T, s: seq<T>, y: T, le: (T, T) -> bool)
    requires Order(le)
    ensures Rank(Insert(x, s, le), y, le) == Rank([x], y, le) + Rank(s, y, le)
  {
    assert [x][1..] == [];
    if s == [] || le(x, s[0]) {
      assert ([x] + s)[1..] == s;
    } else {
      InsertIsStable(x, s[1..], y, le);
      assert Insert(x, s, le)[1..] == Insert(x, s[1..], le);
    }
  }

  lemma {:induction false} SortSorts<T(!new)>(s: seq<T>, le: (T, T) -> bool)
    requires Order(le)
    ensures Sorted(StableSort(s, le), le) && Permuted(StableSort(s, le), s)
  {
    if s != [] {
      SortSorts(s[1..], le);
      InsertIsSorted(s[0], StableSort(s[1..], le), le);
      InsertIsPermuted(s[0], StableSort(s[1..], le), le);
      assert s == [s[0]] + s[1..];
    }
  }

  lemma PermutedLength<T>(s: seq<T>, t: seq<T>)
    requires Permuted(s, t)
    ensures |s| == |t|
  {
    assert |s| == |multiset(s)| == |multiset(t)|;
  }

  lemma {:induction false} SortKeepsLength<T>(s: seq<T>, le: (T, T) -> bool)
    ensures |StableSort(s, le)| == |s|
  {
    if s != [] {
      SortKeepsLength(s[1..], le);
      InsertIsPermuted(s[0], StableSort(s[1..], le), le);
      assert |multiset(Insert(s[0], StableSort(s[1..], le), le))| == |s|;
    }
  }

  /** What sorting in place leaves in the slice. */
  method Fill<T>(a: array<T>, s: seq<T>)
    requires |s| == a.Length
    modifies a
    ensures a[..] == s
  {
    for i := 0 to a.Length
      invariant a[..i] == s[..i]
    {
      a[i] := s[i];
    }
  }

  lemma {:induction false} RankFirst<T>(s: seq<T>, y: T, le: (T, T) -> bool)
    requires s != []
    ensures Rank(s, y, le) == Rank([s[0]], y, le) + Rank(s[1..], y, le)
  {
    assert [s[0]][1..] == [];
  }

  lemma {:induction false} SortIsStable<T(!new)>(s: seq<T>, y: T, le: (T, T) -> bool)
    requires Order(le)
    ensures Rank(StableSort(s, le), y, le) == Rank(s, y, le)
  {
    if s != [] {
      SortIsStable(s[1..], y, le);
      InsertIsStable(s[0], StableSort(s[1..], le), y, le);
      RankFirst(s, y, le);
    }
  }

  lemma {:induction false} RankMembers<T>(s: seq<T>, x: T, le: (T, T) -> bool)
    ensures forall y | y in Rank(s, x, le) :: y in s && le(x, y) && le(y, x)
    ensures x in s && le(x, x) ==> x in Rank(s, x, le)
  {
    if s != [] {
      RankMembers(s[1..], x, le);
    }
  }

  /** A sorted arrangement is determined by the order inside each rank. */
  lemma {:induction false} SortedIsUnique<T(!new)>(t: seq<T>, u: seq<T>, le: (T, T) -> bool)
    requires Order(le) && Sorted(t, le) && Sorted(u, le) && SameRanks(t, u, le)
    ensures t == u
  {
    if t == [] && u == [] {
    } else if t == [] {
      RankMembers(u, u[0], le);
      RankMembers(t, u[0], le);
    } else if u == [] {
      RankMembers(t, t[0], le);
      RankMembers(u, t[0], le);
    } else {
      SameHead(t, u, le);
      forall x
        ensures Rank(t[1..], x, le) == Rank(u[1..], x, le)
      {
        RankFirst(t, x, le);
        RankFirst(u, x, le);
        var head := Rank([t[0]], x, le);
        assert Rank(t[1..], x, le) == Rank(t, x, le)[|head|..];
        assert Rank(u[1..], x, le) == Rank(u, x, le)[|head|..];
      }
      SortedIsUnique(t[1..], u[1..], le);
    }
  }

  lemma SameHead<T(!new)>(t: seq<T>, u: seq<T>, le: (T, T) -> bool)
    requires Order(le) && Sorted(t, le) && Sorted(u, le) && SameRanks(t, u, le)
    requires t != [] && u != []
    ensures t[0] == u[0]
  {
    RankMembers(t, t[0], le);
    RankMembers(u, t[0], le);
    RankMembers(t, u[0], le);
    RankMembers(u, u[0], le);
    assert Rank(t, t[0], le) == Rank(u, t[0], le);
    assert Rank(t, u[0], le) == Rank(u, u[0], le);
    assert t[0] in u && u[0] in t;
    assert Rank(t, t[0], le)[0] == t[0] && Rank(u, t[0], le)[0] == u[0];
  }

  /** Any stable sort gives what `StableSort` gives. */
  lemma StableSortIsTheOne<T(!new)>(s: seq<T>, t: seq<T>, le: (T, T) -> bool)
    requires Order(le) && Sorted(t, le) && SameRanks(t, s, le)
    ensures t == StableSort(s, le)
  {
    SortSorts(s, le);
    forall x
      ensures Rank(t, x, le) == Rank(StableSort(s, le), x, le)
    {
      SortIsStable(s, x, le);
      assert Rank(t, x, le) == Rank(s, x, le);
    }
    SortedIsUnique(t, StableSort(s, le), le);
  }

  ghost predicate NoTies<T>(s: seq<T>, le: (T, T) -> bool) {
    forall x, y | x in s && y in s && le(x, y) && le(y, x) :: x == y
  }

  lemma WithoutFirst<T>(s: seq<T>)
    requires s != []
    ensures multiset(s[1..]) == multiset(s) - multiset{s[0]}
  {
    assert s == [s[0]] + s[1..];
  }

  /** Without ties even an unstable sort has one result. */
  lemma {:induction false} SortedPermutationIsUnique<T(!new)>(t: seq<T>, u: seq<T>, le: (T, T) -> bool)
    requires Order(le) && Sorted(t, le) && Sorted(u, le) && Permuted(t, u) && NoTies(t, le)
    ensures t == u
  {
    assert |t| == |multiset(t)| == |multiset(u)| == |u|;
    if t != [] {
      assert t[0] in multiset(u) && u[0] in multiset(t);
      assert t[0] in u && u[0] in t;
      assert le(t[0], u[0]) && le(u[0], t[0]);
      WithoutFirst(t);
      WithoutFirst(u);
      SortedPermutationIsUnique(t[1..], u[1..], le);
    }
  }

  // ----- strings -----

  /** Go's `<=` on strings. */
  predicate AtMost(a: string, b: string) {
    a == "" || (b != "" && (a[0] < b[0] || (a[0] == b[0] && AtMost(a[1..], b[1..]))))
  }

  lemma {:induction false} AtMostTotal(a: string, b: string)
    ensures AtMost(a, b) || AtMost(b, a)
    ensures AtMost(a, b) && AtMost(b, a) ==> a == b
  {
    if a != "" && b != "" && a[0] == b[0] {
      AtMostTotal(a[1..], b[1..]);
      assert a == [a[0]] + a[1..] && b == [b[0]] + b[1..];
    }
  }

  lemma {:induction false} AtMostTransitive(a: string, b: string, c: string)
    requires AtMost(a, b) && AtMost(b, c)
    ensures AtMost(a, c)
  {
    if a != "" && a[0] == b[0] == c[0] {
      AtMostTransitive(a[1..], b[1..], c[1..]);
    }
  }

  /** The order of a dictionary: a prefix comes first, else the first character that differs decides. */
  lemma {:induction false} AtMostIff(a: string, b: string)
    ensures AtMost(a, b) <==> a <= b || exists k: nat :: DecidesAt(a, b, k)
  {
    if AtMost(a, b) && !(a <= b) {
      var k := AtMostDecides(a, b);
    }
    if a <= b {
      PrefixIsAtMost(a, b);
    }
    if k: nat :| DecidesAt(a, b, k) {
      DecidedIsAtMost(a, b, k);
    }
  }

  lemma {:induction false} AtMostDecides(a: string, b: string) returns (k: nat)
    requires AtMost(a, b) && !(a <= b)
    ensures DecidesAt(a, b, k)
  {
    if a[0] < b[0] {
      k := 0;
    } else {
      assert a == [a[0]] + a[1..] && b == [b[0]] + b[1..];
      k := AtMostDecides(a[1..], b[1..]);
      assert a[..k + 1] == [a[0]] + a[1..][..k] && b[..k + 1] == [b[0]] + b[1..][..k];
      k := k + 1;
    }
  }

  lemma {:induction false} PrefixIsAtMost(a: string, b: string)
    requires a <= b
    ensures AtMost(a, b)
  {
    if a != "" {
      PrefixIsAtMost(a[1..], b[1..]);
    }
  }

  lemma {:induction false} DecidedIsAtMost(a: string, b: string, k: nat)
    requires DecidesAt(a, b, k)
    ensures AtMost(a, b)
  {
    if k > 0 {
      assert a[..k][0] == a[0] && b[..k][0] == b[0];
      assert a[1..][..k - 1] == a[..k][1..] && b[1..][..k - 1] == b[..k][1..];
      DecidedIsAtMost(a[1..], b[1..], k - 1);
    }
  }

  ghost predicate DecidesAt(a: string, b: string, k: nat) {
    k < |a| && k < |b| && a[k] < b[k] && a[..k] == b[..k]
  }

  lemma StringsAreOrdered()
    ensures Order(AtMost)
  {
    forall a, b {
      AtMostTotal(a, b);
    }
    forall a, b, c | AtMost(a, b) && AtMost(b, c) {
      AtMostTransitive(a, b, c);
    }
  }
}
