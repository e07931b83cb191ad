/** When does the order in which `fillParams` walks its map show? Exactly when the value of one key can
    open a hole of another, for commands of any text. */
module SubstitutionOrder {
  import opened Text
  import opened Templates

  ghost predicate BraceFreeKeys(params: map<string, string>) {
    forall key | key in params :: BraceFree(key)
  }

  /** With the front of a hole before it and the end of the hole behind it, the value completes the hole.
      Both can be empty, and then the value holds it. */
  predicate Opens(value: string, key: string) {
    var p := Pattern(key);
    exists j, k | 0 <= j < |p| && 0 < k <= |p| :: Contains(p[..j] + value + p[k..], p)
  }

  /** No value opens a hole of another key, unless that key stands for its own hole. */
  ghost predicate Settled(params: map<string, string>) {
    forall a, b | a in params && b in params && a != b && Opens(params[a], b) :: params[b] == Pattern(b)
  }

  // ----- simultaneous substitution in any text -----

  ghost predicate StartsWithHole(s: string, params: map<string, string>) {
    exists key :: key in params && Pattern(key) <= s
  }

  ghost function Simultaneous(s: string, params: map<string, string>): string
    decreases |s|
  {
    if s == "" then ""
    else if StartsWithHole(s, params) then
      var key :| key in params && Pattern(key) <= s;
      params[key] + Simultaneous(s[|Pattern(key)|..], params)
    else [s[0]] + Simultaneous(s[1..], params)
  }

  lemma OneHole(s: string, key: string, other: string)
    requires BraceFree(key) && BraceFree(other) && Pattern(key) <= s && Pattern(other) <= s
    ensures key == other
  {
    var p, q := Pattern(key), Pattern(other);
    assert p[2..] == key + "}}" && q[2..] == other + "}}";
    assert p[2..] <= s[2..] && q[2..] <= s[2..];
    SameKey(key, other, s[|q|..]);
    assert s[2..] == other + "}}" + s[|q|..];
  }

  lemma SimultaneousHole(key: string, rest: string, params: map<string, string>)
    requires BraceFreeKeys(params) && key in params
    ensures Simultaneous(Pattern(key) + rest, params) == params[key] + Simultaneous(rest, params)
  {
    var s := Pattern(key) + rest;
    assert s[..|Pattern(key)|] == Pattern(key) && s[|Pattern(key)|..] == rest;
    assert StartsWithHole(s, params);
    forall other | other in params && Pattern(other) <= s
      ensures other == key
    {
      OneHole(s, key, other);
    }
  }

  /** No hole begins before `rest` does. */
  ghost predicate NoHoleBefore(before: string, rest: string, params: map<string, string>) {
    forall i, key | 0 <= i < |before| && key in params :: !MatchAt(before + rest, i, Pattern(key))
  }

  lemma NoHoleFurther(before: string, rest: string, params: map<string, string>)
    requires before != "" && NoHoleBefore(before, rest, params)
    ensures forall key | key in params :: !(Pattern(key) <= before + rest)
    ensures NoHoleBefore(before[1..], rest, params)
  {
    forall key | key in params
      ensures !(Pattern(key) <= before + rest)
      ensures forall i | 0 <= i < |before| - 1 :: !MatchAt(before[1..] + rest, i, Pattern(key))
    {
      UnmatchedTail(before, rest, Pattern(key));
    }
  }

  lemma {:induction false} SimultaneousSkip(before: string, rest: string, params: map<string, string>)
    requires NoHoleBefore(before, rest, params)
    ensures Simultaneous(before + rest, params) == before + Simultaneous(rest, params)
  {
    if before == "" {
      assert before + rest == rest;
    } else {
      NoHoleFurther(before, rest, params);
      SimultaneousSkip(before[1..], rest, params);
      FirstInFront(before, rest);
      SimultaneousLiteral(before[0], before[1..] + rest, params);
      FirstInFront(before, Simultaneous(rest, params));
    }
  }

  lemma FirstInFront(before: string, rest: string)
    requires before != ""
    ensures before + rest == [before[0]] + (before[1..] + rest)
  {
  }

  lemma SimultaneousLiteral(c: char, rest: string, params: map<string, string>)
    requires forall key | key in params :: !(Pattern(key) <= [c] + rest)
    ensures Simultaneous([c] + rest, params) == [c] + Simultaneous(rest, params)
  {
    assert ([c] + rest)[1..] == rest;
  }

  lemma {:induction false} SimultaneousNothing(s: string)
    ensures Simultaneous(s, map[]) == s
  {
    if s != "" {
      SimultaneousNothing(s[1..]);
    }
  }

  // ----- what opens a hole -----

  /** A hole that reaches into the value, from whatever text around it. */
  lemma OpensInText(x: string, value: string, y: string, i: nat, key: string)
    requires MatchAt(x + value + y, i, Pattern(key))
    requires i < |x| + |value| && |x| < i + |Pattern(key)|
    ensures Opens(value, key)
  {
    var t, p := x + value + y, Pattern(key);
    var j := if i < |x| then |x| - i else 0;
    var k := if i + |p| > |x| + |value| then |x| + |value| - i else |p|;
    assert t[i..][..|p|] == p;
    assert forall n | 0 <= n < |p| :: p[n] == t[i + n];
    var w := p[..j] + value + p[k..];
    var at := if i < |x| then 0 else i - |x|;
    assert forall n | 0 <= n < |p| :: w[at + n] == p[n];
    assert w[at..at + |p|] == p;
    ContainsAt(w, p, at);
  }

  ghost predicate ReplacedAt(s: string, p: string, v: string, k: nat)
    requires p != ""
  {
    MatchAt(s, k, p) && ReplaceAll(s, p, v) == s[..k] + v + ReplaceAll(s[k + |p|..], p, v)
  }

  /** Where a text is first replaced. */
  lemma {:induction false} FirstReplaced(s: string, p: string, v: string) returns (found: bool, k: nat)
    requires p != ""
    ensures if found then ReplacedAt(s, p, v, k) else ReplaceAll(s, p, v) == s
    ensures found && !(p <= s) ==> k > 0
    decreases |s|
  {
    if |s| < |p| {
      found, k := false, 0;
    } else if p <= s {
      found, k := true, 0;
      ReplacedAtHead(s, p, v);
    } else {
      found, k := FirstReplaced(s[1..], p, v);
      if found {
        ReplacedFurther(s, p, v, k);
      }
      k := k + 1;
    }
  }

  lemma ReplacedAtHead(s: string, p: string, v: string)
    requires p != "" && p <= s
    ensures ReplacedAt(s, p, v, 0)
  {
    assert s[0..] == s && s[0 + |p|..] == s[|p|..];
    assert s[..0] + v == v;
  }

  lemma ReplacedFurther(s: string, p: string, v: string, k: nat)
    requires p != "" && |s| >= |p| && !(p <= s) && ReplacedAt(s[1..], p, v, k)
    ensures ReplacedAt(s, p, v, k + 1)
  {
    var rest := s[k + 1 + |p|..];
    assert s == [s[0]] + s[1..];
    SkipOne(s[0], s[1..], p, v);
    assert s[1..][k..] == s[k + 1..] && s[1..][k + |p|..] == rest;
    OneFurther(s, k, v, ReplaceAll(rest, p, v));
  }

  lemma OneFurther(s: string, k: nat, v: string, rest: string)
    requires k < |s|
    ensures [s[0]] + (s[1..][..k] + v + rest) == s[..k + 1] + v + rest
  {
    assert [s[0]] + s[1..][..k] == s[..k + 1];
  }

  lemma HeadStaysUnmatched(s: string, a: string, value: string, b: string)
    requires !(Pattern(a) <= s) && !(Pattern(b) <= s) && !Opens(value, b)
    ensures !(Pattern(b) <= ReplaceAll(s, Pattern(a), value))
  {
    var p := Pattern(a);
    var found, k := FirstReplaced(s, p, value);
    if found {
      var y := ReplaceAll(s[k + |p|..], p, value);
      var t := s[..k] + value + y;
      if k < |Pattern(b)| {
        if MatchAt(t, 0, Pattern(b)) {
          OpensInText(s[..k], value, y, 0, b);
        }
        assert t[0..] == t;
      } else {
        assert t[..|Pattern(b)|] == s[..|Pattern(b)|];
      }
    }
  }

  /** One replacement, then all the others at once, is all of them at once. */
  lemma {:induction false} OneThenRest(s: string, a: string, value: string, rest: map<string, string>)
    requires BraceFree(a) && BraceFreeKeys(rest) && a !in rest
    requires forall b | b in rest :: !Opens(value, b)
    ensures Simultaneous(ReplaceAll(s, Pattern(a), value), rest) == Simultaneous(s, rest[a := value])
    decreases |s|
  {
    var p, all := Pattern(a), rest[a := value];
    if s == "" {
    } else if p <= s {
      OneThenRest(s[|p|..], a, value, rest);
      ValueStays(value, ReplaceAll(s[|p|..], p, value), rest);
      assert s == p + s[|p|..];
      SimultaneousHole(a, s[|p|..], all);
    } else if StartsWithHole(s, rest) {
      var b :| b in rest && Pattern(b) <= s;
      var t := s[|Pattern(b)|..];
      assert s == Pattern(b) + t;
      OneThenRest(t, a, value, rest);
      OtherHoleStays(b, t, a, value);
      SimultaneousHole(b, ReplaceAll(t, p, value), rest);
      SimultaneousHole(b, t, all);
    } else {
      OneThenRest(s[1..], a, value, rest);
      LiteralStays(s, a, value, rest);
    }
  }

  lemma ValueStays(value: string, more: string, rest: map<string, string>)
    requires forall b | b in rest :: !Opens(value, b)
    ensures Simultaneous(value + more, rest) == value + Simultaneous(more, rest)
  {
    forall i, b | 0 <= i < |value| && b in rest
      ensures !MatchAt(value + more, i, Pattern(b))
    {
      if MatchAt(value + more, i, Pattern(b)) {
        assert "" + value + more == value + more;
        OpensInText("", value, more, i, b);
      }
    }
    SimultaneousSkip(value, more, rest);
  }

  lemma OtherHoleStays(b: string, t: string, a: string, value: string)
    requires BraceFree(a) && BraceFree(b) && a != b
    ensures ReplaceAll(Pattern(b) + t, Pattern(a), value) == Pattern(b) + ReplaceAll(t, Pattern(a), value)
  {
    forall i | 0 <= i < |Pattern(b)|
      ensures !MatchAt(Pattern(b) + t, i, Pattern(a))
    {
      HoleUnmatched(b, t, a, i);
    }
    SkipUnmatched(Pattern(b), t, Pattern(a), value);
  }

  lemma LiteralStays(s: string, a: string, value: string, rest: map<string, string>)
    requires s != "" && !(Pattern(a) <= s) && !StartsWithHole(s, rest)
    requires forall b | b in rest :: !Opens(value, b)
    requires Simultaneous(ReplaceAll(s[1..], Pattern(a), value), rest) == Simultaneous(s[1..], rest[a := value])
    ensures Simultaneous(ReplaceAll(s, Pattern(a), value), rest) == Simultaneous(s, rest[a := value])
  {
    var r := ReplaceAll(s, Pattern(a), value);
    assert s == [s[0]] + s[1..];
    SkipOne(s[0], s[1..], Pattern(a), value);
    assert r[0] == s[0] && r[1..] == ReplaceAll(s[1..], Pattern(a), value);
    forall b | b in rest
      ensures !(Pattern(b) <= r)
    {
      assert !(Pattern(b) <= s);
      HeadStaysUnmatched(s, a, value, b);
    }
    assert !StartsWithHole(s, rest[a := value]);
  }

  // ----- settled maps: every order is simultaneous substitution -----

  lemma {:induction false} SelfReplace(s: string, p: string)
    requires p != ""
    ensures ReplaceAll(s, p, p) == s
    decreases |s|
  {
    if |s| >= |p| {
      if p <= s {
        SelfReplace(s[|p|..], p);
      } else {
        SelfReplace(s[1..], p);
      }
    }
  }

  /** The keys of `order` that do not stand for their own hole. */
  function Live(params: map<string, string>, order: seq<string>): map<string, string> {
    map key | key in params && key in order && params[key] != Pattern(key) :: params[key]
  }

  ghost predicate Distinct(order: seq<string>) {
    forall i, j | 0 <= i < j < |order| :: order[i] != order[j]
  }

  lemma {:induction false} SettledInOrder(cmd: string, order: seq<string>, params: map<string, string>)
    requires BraceFreeKeys(params) && Settled(params)
    requires Distinct(order) && forall key | key in order :: key in params
    ensures ReplaceInOrder(cmd, order, params) == Simultaneous(cmd, Live(params, order))
    decreases |order|
  {
    if order == [] {
      SimultaneousNothing(cmd);
      assert Live(params, order) == map[];
    } else {
      var a, rest := order[0], order[1..];
      SettledInOrder(ReplaceAll(cmd, Pattern(a), params[a]), rest, params);
      LiveFirst(params, order);
      if params[a] == Pattern(a) {
        SelfReplace(cmd, Pattern(a));
      } else {
        OneThenRest(cmd, a, params[a], Live(params, rest));
      }
    }
  }

  lemma LiveFirst(params: map<string, string>, order: seq<string>)
    requires order != [] && Distinct(order) && order[0] in params
    ensures order[0] !in order[1..]
    ensures var a, rest := order[0], Live(params, order[1..]);
      Live(params, order) == if params[a] == Pattern(a) then rest else rest[a := params[a]]
  {
    assert order == [order[0]] + order[1..];
  }

  lemma SettledIsSimultaneous(cmd: string, order: seq<string>, params: map<string, string>)
    requires BraceFreeKeys(params) && Settled(params) && Walks(order, params)
    ensures ReplaceInOrder(cmd, order, params) == Simultaneous(cmd, Live(params, order))
    ensures Live(params, order) == map key | key in params && params[key] != Pattern(key) :: params[key]
  {
    SettledInOrder(cmd, order, params);
  }

  // ----- any other map: two orders differ -----

  lemma {:induction false} ReplaceSize(s: string, p: string, v: string)
    requires p != ""
    ensures |v| >= |p| ==> |ReplaceAll(s, p, v)| >= |s|
    ensures |v| <= |p| ==> |ReplaceAll(s, p, v)| <= |s|
    decreases |s|
  {
    if |s| >= |p| {
      ReplaceSize(if p <= s then s[|p|..] else s[1..], p, v);
    }
  }

  lemma {:induction false} ReplaceChanges(s: string, p: string, v: string)
    requires p != "" && Contains(s, p) && v != p
    ensures ReplaceAll(s, p, v) != s
    decreases |s|
  {
    if p <= s {
      ReplaceSize(s[|p|..], p, v);
      if |v| == |p| {
        assert ReplaceAll(s, p, v)[..|p|] == v;
      }
    } else {
      ContainsFits(s, p);
      ReplaceChanges(s[1..], p, v);
      assert ReplaceAll(s, p, v)[1..] == ReplaceAll(s[1..], p, v);
    }
  }

  lemma {:induction false} ContainsFits(s: string, p: string)
    requires Contains(s, p)
    ensures |p| <= |s|
  {
    if !(p <= s) {
      ContainsFits(s[1..], p);
    }
  }

  /** The front of a hole is no hole when another one begins right behind it. */
  lemma {:induction false} CutHoleDoesNotClose(c: string, b: string, n: nat, rest: string)
    requires BraceFree(c) && BraceFree(b) && n < |b| + 2
    requires rest != "" && rest[0] == '{'
    ensures !(c + "}}" <= (b + "}}")[..n] + rest)
  {
    var w, text := (b + "}}")[..n], (b + "}}")[..n] + rest;
    if n == 0 {
      assert text[0] == '{' && (c + "}}")[0] != '{';
    } else if b == "" {
      assert text[1] == '{' && (c + "}}")[1] != '{';
    } else if c == "" {
      assert text[0] == b[0] && (c + "}}")[0] == '}';
    } else {
      CutHoleDoesNotClose(c[1..], b[1..], n - 1, rest);
      assert (c + "}}")[1..] == c[1..] + "}}";
      assert text[1..] == (b[1..] + "}}")[..n - 1] + rest;
    }
  }

  lemma FrontUnmatched(b: string, j: nat, rest: string, c: string, i: nat)
    requires BraceFree(b) && BraceFree(c) && i < j < |Pattern(b)|
    requires |rest| >= 2 && rest[0] == '{' && rest[1] == '{'
    ensures !MatchAt(Pattern(b)[..j] + rest, i, Pattern(c))
  {
    var s := Pattern(b)[..j] + rest;
    if MatchAt(s, i, Pattern(c)) {
      PatternStart(c, s[i..]);
      assert s[i] == '{' && s[i + 1] == '{' && s[i + 2] != '{';
      BracesOf(b, i);
      BracesOf(b, 2);
      assert i == 0 && j > 2;
      assert s[2..] == (b + "}}")[..j - 2] + rest;
      assert Pattern(c)[2..] == c + "}}" && Pattern(c)[2..] <= s[2..];
      CutHoleDoesNotClose(c, b, j - 2, rest);
    }
  }

  lemma BracesOf(b: string, i: nat)
    requires BraceFree(b) && i < |Pattern(b)|
    ensures Pattern(b)[i] == '{' <==> i < 2
    ensures Pattern(b)[|Pattern(b)| - 1] == '}'
  {
    assert i >= 2 ==> Pattern(b)[i] == (b + "}}")[i - 2];
  }

  /** The end of a hole, and a full stop, hold no hole. */
  lemma EndUnmatched(b: string, k: nat, c: string, i: nat)
    requires BraceFree(b) && BraceFree(c) && 0 < k <= |Pattern(b)|
    requires i < |Pattern(b)[k..] + "."|
    ensures !MatchAt(Pattern(b)[k..] + ".", i, Pattern(c))
  {
    var s := Pattern(b)[k..] + ".";
    if MatchAt(s, i, Pattern(c)) {
      PatternStart(c, s[i..]);
      assert s[i] == '{' && s[i + 1] == '{';
      assert i + 1 < |s| - 1 && s[i + 1] == Pattern(b)[k + i + 1];
      BracesOf(b, k + i + 1);
    }
  }

  /** A command with one whole hole, of `a`, between the two parts of one of `b`. */
  function Trap(a: string, b: string, j: nat, k: nat): string
    requires j < |Pattern(b)| && k <= |Pattern(b)|
  {
    "." + (Pattern(b)[..j] + (Pattern(a) + (Pattern(b)[k..] + ".")))
  }

  /** Replacing any key leaves all but the whole hole as it is. */
  lemma TrapReplaced(a: string, b: string, j: nat, k: nat, c: string, v: string)
    requires BraceFree(a) && BraceFree(b) && BraceFree(c) && j < |Pattern(b)| && 0 < k <= |Pattern(b)|
    ensures ReplaceAll(Trap(a, b, j, k), Pattern(c), v) ==
      if c == a then "." + (Pattern(b)[..j] + (v + (Pattern(b)[k..] + "."))) else Trap(a, b, j, k)
  {
    var end := Pattern(b)[k..] + ".";
    var whole := Pattern(a) + end;
    forall i | 0 <= i < |end|
      ensures !MatchAt(end + "", i, Pattern(c))
    {
      EndUnmatched(b, k, c, i);
      assert end + "" == end;
    }
    SkipUnmatched(end, "", Pattern(c), v);
    assert end + "" == end;
    if c == a {
      assert whole[..|Pattern(a)|] == Pattern(a) && whole[|Pattern(a)|..] == end;
    } else {
      OtherHoleStays(a, end, c, v);
    }
    forall i | 0 <= i < j
      ensures !MatchAt(Pattern(b)[..j] + whole, i, Pattern(c))
    {
      FrontUnmatched(b, j, whole, c, i);
    }
    SkipUnmatched(Pattern(b)[..j], whole, Pattern(c), v);
    StopStays(Pattern(b)[..j] + whole, c, v);
  }

  lemma StopStays(s: string, c: string, v: string)
    ensures ReplaceAll("." + s, Pattern(c), v) == "." + ReplaceAll(s, Pattern(c), v)
  {
    assert Pattern(c)[0] == '{';
    SkipOne('.', s, Pattern(c), v);
  }

  lemma {:induction false} LastStopStays(s: string, c: string, v: string)
    ensures ReplaceAll(s + ".", Pattern(c), v) == ReplaceAll(s, Pattern(c), v) + "."
    decreases |s|
  {
    var p := Pattern(c);
    assert p[|p| - 1] == '}';
    if p <= s {
      assert (s + ".")[..|p|] == p && (s + ".")[|p|..] == s[|p|..] + ".";
      LastStopStays(s[|p|..], c, v);
    } else if s == "" {
      assert s + "." == ".";
    } else {
      assert !(p <= s + ".") by {
        assert |p| == |s| + 1 ==> (s + ".")[|p| - 1] == '.';
      }
      assert (s + ".")[1..] == s[1..] + ".";
      LastStopStays(s[1..], c, v);
      if |s| < |p| {
        ShortStays(s[1..], p, v);
        ShortStays(s, p, v);
      }
    }
  }

  lemma ShortStays(s: string, p: string, v: string)
    requires |s| < |p|
    ensures ReplaceAll(s, p, v) == s
  {
  }

  lemma {:induction false} InOrderStays(cmd: string, order: seq<string>, params: map<string, string>)
    requires forall key | key in order :: key in params && ReplaceAll(cmd, Pattern(key), params[key]) == cmd
    ensures ReplaceInOrder(cmd, order, params) == cmd
    decreases |order|
  {
    if order != [] {
      InOrderStays(cmd, order[1..], params);
    }
  }

  lemma {:induction false} Listed(keys: set<string>) returns (order: seq<string>)
    ensures Distinct(order) && forall key :: key in order <==> key in keys
    decreases keys
  {
    if keys == {} {
      order := [];
    } else {
      var key :| key in keys;
      var rest := Listed(keys - {key});
      order := rest + [key];
    }
  }

  /** A value that opens a hole of another key makes two walks fill some command differently. */
  lemma OpeningMatters(params: map<string, string>, a: string, b: string)
    returns (cmd: string, one: seq<string>, two: seq<string>)
    requires BraceFreeKeys(params) && a in params && b in params && a != b
    requires Opens(params[a], b) && params[b] != Pattern(b)
    ensures Walks(one, params) && Walks(two, params)
    ensures Trim(ReplaceInOrder(cmd, one, params)) != Trim(ReplaceInOrder(cmd, two, params))
  {
    var p := Pattern(b);
    var j, k :| 0 <= j < |p| && 0 < k <= |p| && Contains(p[..j] + params[a] + p[k..], p);
    cmd := Trap(a, b, j, k);
    var rest := Listed(params.Keys - {a, b});
    one, two := rest + [b] + [a], rest + [a] + [b];
    LastTwoWalk(rest, a, b, params);
    LastTwoWalk(rest, b, a, params);
    LastTwoReplaced(rest, a, b, j, k, params);
    Sprung(p[..j], params[a], p[k..], b, params[b]);
  }

  lemma LastTwoWalk(rest: seq<string>, a: string, b: string, params: map<string, string>)
    requires Distinct(rest) && a in params && b in params && a != b
    requires forall key :: key in rest <==> key in params && key != a && key != b
    ensures Walks(rest + [a] + [b], params)
  {
    var order := rest + [a] + [b];
    assert order[|rest|] == a && order[|rest| + 1] == b;
    assert forall i | 0 <= i < |rest| :: order[i] == rest[i];
  }

  lemma LastTwoReplaced(rest: seq<string>, a: string, b: string, j: nat, k: nat, params: map<string, string>)
    requires BraceFreeKeys(params) && a in params && b in params && a != b
    requires j < |Pattern(b)| && 0 < k <= |Pattern(b)|
    requires forall key | key in rest :: key in params && key != a && key != b
    ensures var sprung := "." + (Pattern(b)[..j] + (params[a] + (Pattern(b)[k..] + ".")));
      && (forall key | key in rest + [a] + [b] ::
        key in params) && (forall key | key in rest + [b] + [a] :: key in params)
      && ReplaceInOrder(Trap(a, b, j, k), rest + [b] + [a], params) == sprung
      && ReplaceInOrder(Trap(a, b, j, k), rest + [a] + [b], params) == ReplaceAll(sprung, Pattern(b), params[b])
  {
    var cmd := Trap(a, b, j, k);
    forall c | c in rest
      ensures ReplaceAll(cmd, Pattern(c), params[c]) == cmd
    {
      TrapReplaced(a, b, j, k, c, params[c]);
    }
    InOrderStays(cmd, rest, params);
    TrapReplaced(a, b, j, k, b, params[b]);
    TrapReplaced(a, b, j, k, a, params[a]);
    ReplaceOneMore(cmd, rest, b, params);
    ReplaceOneMore(cmd, rest + [b], a, params);
    ReplaceOneMore(cmd, rest, a, params);
    ReplaceOneMore(cmd, rest + [a], b, params);
  }

  /** The trap with the value in it, and what replacing the hole it then holds makes of it. */
  lemma Sprung(x: string, value: string, y: string, b: string, v: string)
    requires Contains(x + value + y, Pattern(b)) && v != Pattern(b)
    ensures var s := "." + (x + (value + (y + ".")));
      Trim(s) != Trim(ReplaceAll(s, Pattern(b), v))
  {
    var inner := x + value + y;
    var s := "." + (x + (value + (y + ".")));
    assert s == "." + (inner + ".");
    var r := ReplaceAll(inner, Pattern(b), v);
    LastStopStays(inner, b, v);
    StopStays(inner + ".", b, v);
    ReplaceChanges(inner, Pattern(b), v);
    assert r != inner;
    assert ("." + (inner + "."))[1..|inner| + 1] == inner && ("." + (r + "."))[1..|r| + 1] == r;
    BetweenStops(inner);
    BetweenStops(r);
  }

  lemma BetweenStops(s: string)
    ensures Trim("." + (s + ".")) == "." + (s + ".")
  {
    var t := "." + (s + ".");
    assert t[|t| - 1] == '.';
    TrimOfTrimmed(t);
  }

  /** For brace-free keys: every command is filled in one way, whatever order the map is walked in, if
      and only if no value opens a hole of another key. */
  lemma OrderDoesNotMatterIff(params: map<string, string>)
    requires BraceFreeKeys(params)
    ensures (forall cmd, one, two | Walks(one, params) && Walks(two, params) ::
               Trim(ReplaceInOrder(cmd, one, params)) == Trim(ReplaceInOrder(cmd, two, params)))
            <==> Settled(params)
  {
    if Settled(params) {
      forall cmd, one, two | Walks(one, params) && Walks(two, params)
        ensures ReplaceInOrder(cmd, one, params) == ReplaceInOrder(cmd, two, params)
      {
        SettledIsSimultaneous(cmd, one, params);
        SettledIsSimultaneous(cmd, two, params);
      }
    } else {
      var a, b :| a in params && b in params && a != b && Opens(params[a], b) && params[b] != Pattern(b);
      var cmd, one, two := OpeningMatters(params, a, b);
    }
  }

  /** A value that holds the whole hole of another key opens it; so does an empty one. */
  lemma HoleInValueMatters(params: map<string, string>, a: string, b: string)
    returns (cmd: string, one: seq<string>, two: seq<string>)
    requires BraceFreeKeys(params) && a in params && b in params && a != b
    requires Contains(params[a], Pattern(b)) || params[a] == ""
    requires params[b] != Pattern(b)
    ensures Walks(one, params) && Walks(two, params)
    ensures Trim(ReplaceInOrder(cmd, one, params)) != Trim(ReplaceInOrder(cmd, two, params))
  {
    var p := Pattern(b);
    if params[a] == "" {
      assert p[..1] + params[a] + p[1..] == p;
      assert Contains(p[..1] + params[a] + p[1..], p);
    } else {
      assert p[..0] + params[a] + p[|p|..] == params[a];
    }
    cmd, one, two := OpeningMatters(params, a, b);
  }
}
