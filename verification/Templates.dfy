/** `fillParams`: substitution of `{{key}}` holes in a command, one key at a time, in the
    unspecified order in which Go walks a map. */
module Templates {
  import opened Text

  /** `strings.ReplaceAll` for a non-empty `old` */
  function ReplaceAll(s: string, old': string, new': string): string
    requires old' != ""
    decreases |s|
  {
    if |s| < |old'| then s
    else if old' <= s then new' + ReplaceAll(s[|old'|..], old', new')
    else [s[0]] + ReplaceAll(s[1..], old', new')
  }

  function Pattern(key: string): (p: string)
    ensures p != ""
  {
    "{{" + key + "}}"
  }

  /** One pass of the loop per key. */
  function ReplaceInOrder(cmd: string, order: seq<string>, params: map<string, string>): string
    requires forall key | key in order :: key in params
    decreases |order|
  {
    if order == [] then cmd
    else ReplaceInOrder(ReplaceAll(cmd, Pattern(order[0]), params[order[0]]), order[1..], params)
  }

  /** `order` is one way to walk the map. */
  ghost predicate Walks(order: seq<string>, params: map<string, string>) {
    && (forall key :: key in order <==> key in params)
    && (forall i, j | 0 <= i < j < |order| :: order[i] != order[j])
  }

  method FillParams(cmd: string, params: map<string, string>) returns (filled: string, ghost order: seq<string>)
    ensures Walks(order, params)
    ensures filled == Trim(ReplaceInOrder(cmd, order, params))
    ensures forall pieces | WellFormed(pieces) && Render(pieces) == cmd && PlainParams(params) ::
      filled == Trim(Render(Substitute(pieces, params)))
  {
    var rest := params.Keys;
    var text := cmd;
    order := [];
    while rest != {}
      invariant rest <= params.Keys
      invariant forall key :: key in order <==> key in params && key !in rest
      invariant forall i, j | 0 <= i < j < |order| :: order[i] != order[j]
      invariant text == ReplaceInOrder(cmd, order, params)
    {
      var key :| key in rest;
      ReplaceOneMore(cmd, order, key, params);
      text := ReplaceAll(text, Pattern(key), params[key]);
      order := order + [key];
      rest := rest - {key};
    }
    filled := Trim(text);
    forall pieces | WellFormed(pieces) && Render(pieces) == cmd && PlainParams(params)
      ensures filled == Trim(Render(Substitute(pieces, params)))
    {
      OrderDoesNotMatter(pieces, order, params);
    }
  }

  lemma {:induction false} ReplaceOneMore(cmd: string, order: seq<string>, key: string, params: map<string, string>)
    requires key in params && forall k | k in order :: k in params
    ensures forall k | k in order + [key] :: k in params
    ensures ReplaceInOrder(cmd, order + [key], params)
         == ReplaceAll(ReplaceInOrder(cmd, order, params), Pattern(key), params[key])
    decreases |order|
  {
    if order != [] {
      assert (order + [key])[1..] == order[1..] + [key];
      ReplaceOneMore(ReplaceAll(cmd, Pattern(order[0]), params[order[0]]), order[1..], key, params);
    }
  }

  // ----- templates -----

  datatype Piece = Lit(text: string) | Hole(key: string)

  function Show(p: Piece): string {
    match p
    case Lit(text) => text
    case Hole(key) => Pattern(key)
  }

  function Render(pieces: seq<Piece>): string {
    if pieces == [] then "" else Show(pieces[0]) + Render(pieces[1..])
  }

  /** A template's text is that of its pieces one after the other. */
  lemma {:induction false} RenderOfConcat(a: seq<Piece>, b: seq<Piece>)
    ensures Render(a + b) == Render(a) + Render(b)
  {
    if a == [] {
      assert a + b == b;
    } else {
      assert (a + b)[1..] == a[1..] + b;
      RenderOfConcat(a[1..], b);
    }
  }

  /** A hole is its key in double braces. */
  lemma RenderOfOne(p: Piece)
    ensures Render([p]) == if p.Lit? then p.text else "{{" + p.key + "}}"
  {
    assert Render([p]) == Show(p) + Render([]);
  }

  /** Text in which no hole can begin: every `{` stands alone, and not in front. */
  predicate Plain(text: string) {
    forall i | 0 <= i < |text| && text[i] == '{' :: i > 0 && text[i - 1] != '{'
  }

  predicate BraceFree(key: string) {
    forall i | 0 <= i < |key| :: key[i] != '{' && key[i] != '}'
  }

  predicate PieceOk(p: Piece) {
    if p.Lit? then Plain(p.text) else BraceFree(p.key)
  }

  predicate WellFormed(pieces: seq<Piece>) {
    forall i | 0 <= i < |pieces| :: PieceOk(pieces[i])
  }

  ghost predicate PlainParams(params: map<string, string>) {
    forall key | key in params :: BraceFree(key) && Plain(params[key])
  }

  function SubstitutePiece(p: Piece, params: map<string, string>): Piece {
    if p.Hole? && p.key in params then Lit(params[p.key]) else p
  }

  /** Simultaneous substitution. */
  function Substitute(pieces: seq<Piece>, params: map<string, string>): seq<Piece> {
    seq(|pieces|, i requires 0 <= i < |pieces| => SubstitutePiece(pieces[i], params))
  }

  // ----- one replacement -----

  lemma SkipOne(c: char, rest: string, old': string, new': string)
    requires old' != "" && !(old' <= [c] + rest)
    ensures ReplaceAll([c] + rest, old', new') == [c] + ReplaceAll(rest, old', new')
  {
    assert ([c] + rest)[1..] == rest;
  }

  predicate MatchAt(s: string, i: nat, p: string) {
    i <= |s| && p <= s[i..]
  }

  lemma {:induction false} SkipUnmatched(before: string, rest: string, old': string, new': string)
    requires old' != ""
    requires forall i | 0 <= i < |before| :: !MatchAt(before + rest, i, old')
    ensures ReplaceAll(before + rest, old', new') == before + ReplaceAll(rest, old', new')
    decreases |before|
  {
    if before == "" {
      assert before + rest == rest;
    } else {
      UnmatchedTail(before, rest, old');
      SkipUnmatched(before[1..], rest, old', new');
      SkipOne(before[0], before[1..] + rest, old', new');
      assert before == [before[0]] + before[1..];
    }
  }

  lemma UnmatchedTail(before: string, rest: string, p: string)
    requires before != "" && forall i | 0 <= i < |before| :: !MatchAt(before + rest, i, p)
    ensures before + rest == [before[0]] + (before[1..] + rest) && !(p <= before + rest)
    ensures forall i | 0 <= i < |before| - 1 :: !MatchAt(before[1..] + rest, i, p)
  {
    var s, tail := before + rest, before[1..] + rest;
    assert s[0..] == s && !MatchAt(s, 0, p);
    forall i | 0 <= i < |before| - 1
      ensures !MatchAt(tail, i, p)
    {
      assert !MatchAt(s, i + 1, p);
      assert s[i + 1..] == tail[i..];
    }
  }

  lemma {:induction false} BraceStartsHole(pieces: seq<Piece>)
    requires WellFormed(pieces)
    ensures var r := Render(pieces); r != "" && r[0] == '{' ==> |r| > 1 && r[1] == '{'
  {
    if pieces != [] && Show(pieces[0]) == "" {
      assert WellFormed(pieces[1..]);
      BraceStartsHole(pieces[1..]);
      assert Render(pieces) == Render(pieces[1..]);
    } else if pieces != [] {
      assert PieceOk(pieces[0]);
    }
  }

  lemma LitUnmatched(text: string, rest: seq<Piece>, key: string, i: nat)
    requires Plain(text) && WellFormed(rest) && BraceFree(key) && i < |text|
    ensures !MatchAt(text + Render(rest), i, Pattern(key))
  {
    PatternStart(key, (text + Render(rest))[i..]);
    BraceStartsHole(rest);
  }

  lemma PatternStart(key: string, s: string)
    requires BraceFree(key)
    ensures Pattern(key) <= s ==> |s| > 2 && s[0] == '{' && s[1] == '{' && s[2] != '{'
  {
    if Pattern(key) <= s {
      assert s[0] == Pattern(key)[0] && s[1] == Pattern(key)[1] && s[2] == Pattern(key)[2];
    }
  }

  lemma {:induction false} SameKey(key: string, other: string, rest: string)
    requires BraceFree(key) && BraceFree(other)
    requires key + "}}" <= other + "}}" + rest
    ensures key == other
  {
    assert (key + "}}")[0] == (other + "}}" + rest)[0];
    if key != "" && other != "" {
      assert (key + "}}")[1..] == key[1..] + "}}";
      assert (other + "}}" + rest)[1..] == other[1..] + "}}" + rest;
      SameKey(key[1..], other[1..], rest);
    }
  }

  lemma HoleUnmatched(other: string, rest: string, key: string, i: nat)
    requires BraceFree(other) && BraceFree(key) && other != key && i < |Pattern(other)|
    ensures !MatchAt(Pattern(other) + rest, i, Pattern(key))
  {
    var p, s := Pattern(key), (Pattern(other) + rest)[i..];
    if p <= s {
      assert s[0] == p[0] && s[1] == p[1];
      assert p[2..] == key + "}}" && s[2..] == other + "}}" + rest;
      SameKey(key, other, rest);
    }
  }

  lemma {:induction false} ReplaceIsSubstitute(pieces: seq<Piece>, key: string, value: string)
    requires WellFormed(pieces) && BraceFree(key)
    ensures ReplaceAll(Render(pieces), Pattern(key), value) == Render(Substitute(pieces, map[key := value]))
  {
    var m := map[key := value];
    if pieces != [] {
      var p, rest := pieces[0], pieces[1..];
      assert PieceOk(p) && WellFormed(rest);
      ReplaceIsSubstitute(rest, key, value);
      assert Substitute(pieces, m)[1..] == Substitute(rest, m);
      if p == Hole(key) {
        var s := Pattern(key) + Render(rest);
        assert s[..|Pattern(key)|] == Pattern(key) && s[|Pattern(key)|..] == Render(rest);
      } else {
        forall i | 0 <= i < |Show(p)|
          ensures !MatchAt(Show(p) + Render(rest), i, Pattern(key))
        {
          if p.Lit? { LitUnmatched(p.text, rest, key, i); } else { HoleUnmatched(p.key, Render(rest), key, i); }
        }
        SkipUnmatched(Show(p), Render(rest), Pattern(key), value);
      }
    }
  }

  // ----- all of them, in any order -----

  function Restrict(params: map<string, string>, keys: seq<string>): map<string, string> {
    map key | key in params && key in keys :: params[key]
  }

  lemma OnceIsWellFormed(pieces: seq<Piece>, key: string, params: map<string, string>)
    requires WellFormed(pieces) && PlainParams(params) && key in params
    ensures WellFormed(Substitute(pieces, map[key := params[key]]))
  {
    var once := Substitute(pieces, map[key := params[key]]);
    forall i | 0 <= i < |once|
      ensures PieceOk(once[i])
    {
      assert PieceOk(pieces[i]);
    }
  }

  /** One key and then some others is all of these keys. */
  lemma OnceThenRest(pieces: seq<Piece>, key: string, rest: seq<string>, params: map<string, string>)
    requires key in params
    ensures Substitute(Substitute(pieces, map[key := params[key]]), Restrict(params, rest))
         == Substitute(pieces, Restrict(params, [key] + rest))
  {
    var once := Substitute(pieces, map[key := params[key]]);
    forall i | 0 <= i < |pieces|
      ensures SubstitutePiece(once[i], Restrict(params, rest))
           == SubstitutePiece(pieces[i], Restrict(params, [key] + rest))
    {
      assert once[i] == SubstitutePiece(pieces[i], map[key := params[key]]);
    }
  }

  lemma {:induction false} ReplaceSome(pieces: seq<Piece>, order: seq<string>, params: map<string, string>)
    requires WellFormed(pieces) && PlainParams(params)
    requires forall key | key in order :: key in params
    ensures ReplaceInOrder(Render(pieces), order, params) == Render(Substitute(pieces, Restrict(params, order)))
    decreases |order|
  {
    if order == [] {
      assert Substitute(pieces, Restrict(params, order)) == pieces;
    } else {
      var key, rest := order[0], order[1..];
      ReplaceFirst(pieces, key, rest, params);
      OnceIsWellFormed(pieces, key, params);
      ReplaceSome(Substitute(pieces, map[key := params[key]]), rest, params);
      OnceThenRest(pieces, key, rest, params);
      assert order == [key] + rest;
    }
  }

  lemma ReplaceFirst(pieces: seq<Piece>, key: string, rest: seq<string>, params: map<string, string>)
    requires WellFormed(pieces) && BraceFree(key)
    requires key in params && forall k | k in rest :: k in params
    ensures forall k | k in [key] + rest :: k in params
    ensures ReplaceInOrder(Render(pieces), [key] + rest, params)
         == ReplaceInOrder(Render(Substitute(pieces, map[key := params[key]])), rest, params)
  {
    ReplaceIsSubstitute(pieces, key, params[key]);
    assert ([key] + rest)[1..] == rest;
  }

  /** Whatever order Go picks, the result is the simultaneous substitution. */
  lemma OrderDoesNotMatter(pieces: seq<Piece>, order: seq<string>, params: map<string, string>)
    requires WellFormed(pieces) && PlainParams(params) && Walks(order, params)
    ensures ReplaceInOrder(Render(pieces), order, params) == Render(Substitute(pieces, params))
  {
    ReplaceSome(pieces, order, params);
    assert Restrict(params, order) == params;
  }
}
