/** The path that is judged and the file that is opened. `resolvePath` cleans `..` away lexically and then
    looks at symlinks; opening the raw path follows symlinks one component at a time, and `..` leaves
    the directory they led to. */
module PathOpening {
  import opened Optional
  import opened PathScope
  import opened Text

  function Up(p: Path): Path {
    if p == [] then [] else p[..|p| - 1]
  }

  /** One component further; a name that does not exist stays as it is. */
  function Follow(base: Path, part: string, links: Links): Path {
    if part == "" || part == "." then base
    else if part == ".." then Up(base)
    else
      match links(base + [part])
      case Some(target) => target
      case None => base + [part]
  }

  /** Where the operating system ends up, from the directory `base`. */
  function Physical(base: Path, parts: seq<string>, links: Links): Path {
    if parts == [] then base
    else Follow(Physical(base, parts[..|parts| - 1], links), parts[|parts| - 1], links)
  }

  /** A path exists only under one that does, and what it resolves to can be found from what that one
      resolves to. */
  predicate Through(p: Path, c: string, links: Links) {
    && (links(p + [c]).Some? ==> links(p).Some?)
    && (links(p).Some? ==> links(links(p).value + [c]) == links(p + [c]))
  }

  ghost predicate Coherent(links: Links) {
    links([]) == Some([]) && forall p, c | Clean(p) && ComponentOk(c) :: Through(p, c, links)
  }

  ghost predicate FilesOk(cwd: Path, links: Links) {
    Clean(cwd) && LinksOk(links) && Coherent(links)
  }

  /** The judgement of `resolvePath` on a clean path. */
  function Judged(full: Path, links: Links): Path {
    ResolveUpTo(full, |full|, links)
  }

  /** The directory that a path starts from, and that directory as it is on disk. */
  function StartOf(path: string, cwd: Path): Path {
    if "/" <= path then [] else cwd
  }

  function Opened(path: string, cwd: Path, links: Links): Path {
    Physical(Judged(StartOf(path, cwd), links), Split(path, '/'), links)
  }

  // ----- following a name -----

  lemma {:induction false} ResolveUpToPrefix(full: Path, c: string, k: nat, links: Links)
    requires k <= |full|
    ensures ResolveUpTo(full + [c], k, links) == ResolveUpTo(full, k, links) + [c]
  {
    assert (full + [c])[..k] == full[..k] && (full + [c])[k..] == full[k..] + [c];
    if links(full[..k]).None? && k > 0 {
      ResolveUpToPrefix(full, c, k - 1, links);
    }
  }

  lemma JudgedOneMore(full: Path, c: string, links: Links)
    ensures Judged(full + [c], links) ==
      match links(full + [c]) case Some(target) => target case None => Judged(full, links) + [c]
  {
    var more := full + [c];
    assert more[..|more|] == more && more[|more|..] == [];
    if links(more).None? {
      ResolveUpToPrefix(full, c, |full|, links);
    }
  }

  lemma JudgedIsClean(full: Path, links: Links)
    requires Clean(full) && LinksOk(links)
    ensures Clean(Judged(full, links))
  {
    ResolveUpToIsClean(full, |full|, links);
  }

  /** A path that does not exist does not exist after resolving what there is of it. */
  lemma {:induction false} MissingStaysMissing(full: Path, links: Links)
    requires FilesOk(full, links) && links(full).None?
    ensures links(Judged(full, links)).None?
  {
    assert full != [];
    var p, c := full[..|full| - 1], full[|full| - 1];
    assert full == p + [c] && Clean(p) && ComponentOk(c);
    JudgedOneMore(p, c, links);
    assert Through(p, c, links);
    if links(p).Some? {
      JudgedOfExisting(p, links);
    } else {
      MissingStaysMissing(p, links);
      JudgedIsClean(p, links);
      assert Through(Judged(p, links), c, links);
    }
  }

  lemma JudgedOfExisting(full: Path, links: Links)
    requires links(full).Some?
    ensures Judged(full, links) == links(full).value
  {
    assert full[..|full|] == full && full[|full|..] == [];
    assert links(full).value + [] == links(full).value;
  }

  /** Following a name from what was judged is judging the longer path. */
  lemma FollowName(full: Path, c: string, links: Links)
    requires FilesOk(full, links) && ComponentOk(c)
    ensures Follow(Judged(full, links), c, links) == Judged(full + [c], links)
  {
    JudgedOneMore(full, c, links);
    assert Through(full, c, links);
    if links(full).Some? {
      JudgedOfExisting(full, links);
    } else {
      MissingStaysMissing(full, links);
      JudgedIsClean(full, links);
      assert Through(Judged(full, links), c, links);
    }
  }

  // ----- following `..` -----

  /** Going up from here and going up from where this resolves to end in one place: this is the root, or
      does not exist, or resolves to something in the directory that the one above it resolves to. */
  predicate UpIsSafe(full: Path, links: Links) {
    full == [] || links(full).None? || Some(Up(links(full).value)) == links(full[..|full| - 1])
  }

  lemma FollowUp(full: Path, links: Links)
    requires FilesOk(full, links)
    ensures Up(Judged(full, links)) == Judged(Up(full), links) <==> UpIsSafe(full, links)
  {
    if full == [] {
      JudgedOfExisting([], links);
    } else {
      var p, c := full[..|full| - 1], full[|full| - 1];
      assert full == p + [c] && Clean(p) && ComponentOk(c);
      JudgedOneMore(p, c, links);
      assert Through(p, c, links);
      if links(full).Some? {
        JudgedOfExisting(p, links);
      } else {
        assert (Judged(p, links) + [c])[..|Judged(p, links)|] == Judged(p, links);
      }
    }
  }

  // ----- whole paths -----

  lemma {:induction false} WalkOneMore(base: Path, parts: seq<string>, part: string)
    ensures Walk(base, parts + [part]) ==
      var p := Walk(base, parts);
      if part == "" || part == "." then p else if part == ".." then Up(p) else p + [part]
    decreases |parts|
  {
    if parts == [] {
      assert [part][1..] == [];
    } else {
      assert (parts + [part])[1..] == parts[1..] + [part];
      if parts[0] == "" || parts[0] == "." {
        WalkOneMore(base, parts[1..], part);
      } else if parts[0] == ".." {
        WalkOneMore(if base == [] then [] else base[..|base| - 1], parts[1..], part);
      } else {
        WalkOneMore(base + [parts[0]], parts[1..], part);
      }
    }
  }

  /** Every `..` on the way is safe. */
  ghost predicate Steady(base: Path, parts: seq<string>, links: Links) {
    parts == [] ||
    var front := parts[..|parts| - 1];
    && Steady(base, front, links)
    && (parts[|parts| - 1] == ".." ==> UpIsSafe(Walk(base, front), links))
  }

  /** At every component of the way, what is opened is what is judged. */
  ghost predicate AlwaysAgree(base: Path, parts: seq<string>, links: Links) {
    && (parts == [] || AlwaysAgree(base, parts[..|parts| - 1], links))
    && Physical(Judged(base, links), parts, links) == Judged(Walk(base, parts), links)
  }

  lemma PartOk(parts: seq<string>)
    requires parts != [] && AllFree(parts, '/')
    ensures AllFree(parts[..|parts| - 1], '/')
    ensures var part := parts[|parts| - 1]; part == "" || part == "." || part == ".." || ComponentOk(part)
  {
    assert Free(parts[|parts| - 1], '/');
    assert forall i | 0 <= i < |parts| - 1 :: Free(parts[i], '/');
  }

  lemma FollowAgrees(full: Path, part: string, next: Path, links: Links)
    requires FilesOk(full, links) && (part == "" || part == "." || part == ".." || ComponentOk(part))
    requires next == if part == "" || part == "." then full else if part == ".." then Up(full) else full + [part]
    ensures Follow(Judged(full, links), part, links) == Judged(next, links) <==> (part == ".." ==>
      UpIsSafe(full, links))
  {
    if part == ".." {
      FollowUp(full, links);
    } else if part != "" && part != "." {
      FollowName(full, part, links);
    }
  }

  /** The file opened is the path judged, at every component, if and only if no `..` leaves a place that a
      symlink led to from another directory. */
  lemma {:induction false} AgreeIff(base: Path, parts: seq<string>, links: Links)
    requires FilesOk(base, links) && AllFree(parts, '/')
    ensures AlwaysAgree(base, parts, links) <==> Steady(base, parts, links)
  {
    if parts != [] {
      var front, part := parts[..|parts| - 1], parts[|parts| - 1];
      PartOk(parts);
      AgreeIff(base, front, links);
      WalkIsClean(base, front);
      assert parts == front + [part];
      WalkOneMore(base, front, part);
      FollowAgrees(Walk(base, front), part, Walk(base, parts), links);
      if AlwaysAgree(base, front, links) {
        assert Physical(Judged(base, links), front, links) == Judged(Walk(base, front), links);
      }
    }
  }

  /** So a path with only safe `..`s opens what is judged. */
  lemma OpenedIsJudged(path: string, cwd: Path, links: Links)
    requires FilesOk(cwd, links) && Steady(StartOf(path, cwd), Split(path, '/'), links)
    ensures Opened(path, cwd, links) == Resolve(path, cwd, links)
  {
    SplitPartsFree(path, '/');
    assert Clean([]);
    AgreeIff(StartOf(path, cwd), Split(path, '/'), links);
  }

  lemma {:induction false} NoDotsIsSteady(base: Path, parts: seq<string>, links: Links)
    requires ".." !in parts
    ensures Steady(base, parts, links)
  {
    if parts != [] {
      assert parts[|parts| - 1] in parts;
      NoDotsIsSteady(base, parts[..|parts| - 1], links);
    }
  }

  // ----- policies -----

  /** A policy of subtree globs lets such a path through if and only if the file opened lies in one of the
      resolved subtrees. */
  lemma ScopeOfOpened(bases: seq<string>, path: string, at: Setting)
    requires SettingOk(at) && Coherent(at.links) && forall i | 0 <= i < |bases| :: StaticBase(bases[i])
    requires Steady(StartOf(path, at.cwd), Split(path, '/'), at.links)
    ensures true in Verdicts(SubtreeGlobs(bases), Resolve(path, at.cwd, at.links), at)
       <==> exists i | 0 <= i < |bases| :: Within(Resolve(bases[i], at.cwd, at.links), Opened(path, at.cwd, at.links))
  {
    OpenedIsJudged(path, at.cwd, at.links);
    ResolveIsClean(path, at.cwd, at.links);
    SubtreePolicy(bases, Resolve(path, at.cwd, at.links), at);
  }

  lemma ScopeWithoutDots(bases: seq<string>, path: string, at: Setting)
    requires SettingOk(at) && Coherent(at.links) && forall i | 0 <= i < |bases| :: StaticBase(bases[i])
    requires ".." !in Split(path, '/')
    ensures true in Verdicts(SubtreeGlobs(bases), Resolve(path, at.cwd, at.links), at)
       <==> exists i | 0 <= i < |bases| :: Within(Resolve(bases[i], at.cwd, at.links), Opened(path, at.cwd, at.links))
  {
    NoDotsIsSteady(StartOf(path, at.cwd), Split(path, '/'), at.links);
    ScopeOfOpened(bases, path, at);
  }

  // ----- a `..` behind a symlink -----

  /** An absolute path through the directory `p`, the name `c` in it, `..`, and the name `s`. */
  function Detour(p: Path, c: string, s: string): Path {
    p + [c] + [".."] + [s]
  }

  lemma DetourParts(p: Path, c: string, s: string)
    requires Clean(p) && ComponentOk(c) && ComponentOk(s)
    ensures var path := Show(Detour(p, c, s)); "/" <= path && Split(path, '/') == [""] + Detour(p, c, s)
  {
    var parts := Detour(p, c, s);
    assert AllFree(parts, '/') by {
      CleanIsFree(p);
      forall i | 0 <= i < |parts|
        ensures Free(parts[i], '/')
      {
        assert i < |p| ==> Free(p[i], '/');
      }
    }
    SplitOfJoin(parts, '/');
    SplitFirst('/', Join(parts, '/'), '/');
  }

  lemma PhysicalOneMore(base: Path, parts: seq<string>, part: string, links: Links)
    ensures Physical(base, parts + [part], links) == Follow(Physical(base, parts, links), part, links)
  {
    assert (parts + [part])[..|parts|] == parts;
  }

  /** Not a link: missing, or resolved to itself. */
  predicate NoLink(p: Path, links: Links) {
    links(p) == None || links(p) == Some(p)
  }

  /** The directory `p` is `q` on disk, and the name `c` in it leads to `target`. */
  predicate LeadsTo(p: Path, q: Path, c: string, target: Path, links: Links) {
    links(p) == Some(q) && links(p + [c]) == Some(target)
  }

  /** It is judged as `p` and then `s`; what is opened is `s` beside the target of `c`. The two are one
      place if and only if `..` behind `c` is safe, when neither `s` is a link. */
  lemma DetourGoesElsewhere(p: Path, q: Path, c: string, target: Path, s: string, cwd: Path, links: Links)
    requires FilesOk(p, links) && Clean(cwd) && ComponentOk(c) && ComponentOk(s)
    requires LeadsTo(p, q, c, target, links) && NoLink(q + [s], links) && NoLink(Up(target) + [s], links)
    ensures var path := Show(Detour(p, c, s));
      && Resolve(path, cwd, links) == q + [s]
      && Opened(path, cwd, links) == Up(target) + [s]
      && (Opened(path, cwd, links) == Resolve(path, cwd, links) <==> UpIsSafe(p + [c], links))
  {
    DetourParts(p, c, s);
    DetourJudged(p, q, c, s, links);
    NamesOpened(p, c, links);
    DetourOpened(p, c, target, s, links);
    var b := Up(target);
    assert (q + [s])[..|q|] == q && (b + [s])[..|b|] == b;
    assert (p + [c])[..|p|] == p;
  }

  lemma DetourJudged(p: Path, q: Path, c: string, s: string, links: Links)
    requires FilesOk(p, links) && ComponentOk(c) && ComponentOk(s)
    requires links(p) == Some(q) && NoLink(q + [s], links)
    ensures Judged(Walk([], [""] + Detour(p, c, s)), links) == q + [s]
  {
    DetourWalk(p, c, s);
    JudgedOneMore(p, s, links);
    JudgedOfExisting(p, links);
    assert Through(p, s, links);
  }

  lemma DetourWalk(p: Path, c: string, s: string)
    requires Clean(p) && ComponentOk(c) && ComponentOk(s)
    ensures Walk([], [""] + Detour(p, c, s)) == p + [s]
  {
    assert [""] + Detour(p, c, s) == [""] + p + [c] + [".."] + [s];
    NamesWalk(p);
    WalkOneMore([], [""] + p, c);
    WalkOneMore([], [""] + p + [c], "..");
    WalkOneMore([], [""] + p + [c] + [".."], s);
    assert Up(p + [c]) == p;
  }

  lemma DetourOpened(p: Path, c: string, target: Path, s: string, links: Links)
    requires Physical(Judged([], links), [""] + p + [c], links) == target
    requires ComponentOk(s) && NoLink(Up(target) + [s], links)
    ensures Physical(Judged([], links), [""] + Detour(p, c, s), links) == Up(target) + [s]
  {
    var start, front := Judged([], links), [""] + p + [c];
    PhysicalOneMore(start, front, "..", links);
    PhysicalOneMore(start, front + [".."], s, links);
    assert [""] + Detour(p, c, s) == front + [".."] + [s];
  }

  lemma NamesParts(full: Path)
    requires Clean(full)
    ensures AllFree([""] + full, '/') && ".." !in [""] + full && Walk([], [""] + full) == full
  {
    NamesWalk(full);
    CleanIsFree(full);
    forall part | part in [""] + full
      ensures part != ".." && Free(part, '/')
    {
      if part in full {
        var i :| 0 <= i < |full| && full[i] == part;
        assert ComponentOk(full[i]);
      }
    }
  }

  lemma NamesWalk(full: Path)
    requires Clean(full)
    ensures Walk([], [""] + full) == full
  {
    assert ([""] + full)[1..] == full;
    WalkOfClean([], full);
    assert [] + full == full;
  }

  /** Names alone are followed to what they resolve to. */
  lemma NamesOpened(p: Path, c: string, links: Links)
    requires FilesOk(p, links) && ComponentOk(c) && links(p + [c]).Some?
    ensures Physical(Judged([], links), [""] + p + [c], links) == links(p + [c]).value
  {
    var full := p + [c];
    assert [""] + full == [""] + p + [c];
    NamesParts(full);
    NoDotsIsSteady([], [""] + full, links);
    AgreeIff([], [""] + full, links);
    JudgedOfExisting(full, links);
  }

  predicate AllStatic(p: Path) {
    forall i | 0 <= i < |p| :: Static(p[i])
  }

  lemma {:induction false} StaticJoin(p: Path)
    requires AllStatic(p)
    ensures Static(Join(p, '/'))
  {
    if |p| > 1 {
      assert AllStatic(p[1..]) && Static(p[0]);
      StaticJoin(p[1..]);
    } else if |p| == 1 {
      assert Static(p[0]);
    }
  }

  lemma StaticShow(p: Path)
    requires AllStatic(p)
    ensures StaticBase(Show(p))
  {
    StaticJoin(p);
  }

  /** Then a policy of the subtree of `p` lets the path through, while the file opened lies outside of it
      exactly when the directory of the target does. */
  lemma DetourIsLetThrough(p: Path, q: Path, c: string, target: Path, s: string, at: Setting)
    requires FilesOk(p, at.links) && Clean(at.cwd) && ComponentOk(c) && ComponentOk(s)
    requires LeadsTo(p, q, c, target, at.links) && NoLink(q + [s], at.links) && NoLink(Up(target) + [s], at.links)
    requires AllStatic(p) && q != []
    ensures var path := Show(Detour(p, c, s));
      && Resolve(Show(p), at.cwd, at.links) == q
      && Accepts(Show(p) + "/**", Resolve(path, at.cwd, at.links), at)
      && (Within(q, Opened(path, at.cwd, at.links)) <==> q <= Up(target) + [s])
  {
    var path := Show(Detour(p, c, s));
    StaticShow(p);
    DetourGoesElsewhere(p, q, c, target, s, at.cwd, at.links);
    ResolveOfShown(p, at.cwd, at.links);
    ResolveIsClean(path, at.cwd, at.links);
    SubtreeAccepts(Show(p), Resolve(path, at.cwd, at.links), at);
  }

  lemma ResolveOfShown(p: Path, cwd: Path, links: Links)
    requires Clean(p) && links(p).Some?
    ensures Resolve(Show(p), cwd, links) == links(p).value
  {
    WalkOfClean([], p);
    if p == [] {
      assert Show(p) == "/";
      SplitFirst('/', "", '/');
      assert Split(Show(p), '/') == ["", ""] && ["", ""][1..] == [""] && [""][1..] == [];
    } else {
      CleanIsFree(p);
      SplitOfJoin(p, '/');
      SplitFirst('/', Join(p, '/'), '/');
      assert ([""] + p)[1..] == p;
    }
    assert [] + p == p;
    JudgedOfExisting(p, links);
  }

  /** There are such files: everything exists, and one name is a link out of its directory. */
  function OneLink(p: Path): Option<Path> {
    if !Clean(p) then None
    else if ["a", "l"] <= p then Some(["e", "x"] + p[2..])
    else Some(p)
  }

  lemma OneLinkIsCoherent()
    ensures LinksOk(OneLink) && Coherent(OneLink)
  {
    forall p | OneLink(p).Some?
      ensures Clean(OneLink(p).value)
    {
      assert ComponentOk("e") && ComponentOk("x");
    }
    forall p, c | Clean(p) && ComponentOk(c)
      ensures Through(p, c, OneLink)
    {
      OneLinkThrough(p, c);
    }
  }

  lemma OneLinkThrough(p: Path, c: string)
    requires Clean(p) && ComponentOk(c)
    ensures Through(p, c, OneLink)
  {
    assert ComponentOk("e") && ComponentOk("x");
    if ["a", "l"] <= p {
      assert (["e", "x"] + p[2..]) + [c] == ["e", "x"] + (p + [c])[2..];
      assert (["e", "x"] + (p + [c])[2..])[0] == "e";
    }
  }

  /** With them, a policy of the subtree of "/a" lets "/a/l/../s" through, and what is opened is "/e/s". */
  lemma DetourOutOfScope(fileMatch: (string, string) -> bool)
    ensures var at, path := Setting([], OneLink, fileMatch), Show(Detour(["a"], "l", "s"));
      && SettingOk(at) && Coherent(at.links)
      && Accepts(Show(["a"]) + "/**", Resolve(path, [], OneLink), at)
      && Opened(path, [], OneLink) == ["e", "s"] && !Within(["a"], Opened(path, [], OneLink))
  {
    OneLinkIsCoherent();
    OneLinkNames();
    OneLinkValues();
    DetourGoesElsewhere(["a"], ["a"], "l", ["e", "x"], "s", [], OneLink);
    DetourIsLetThrough(["a"], ["a"], "l", ["e", "x"], "s", Setting([], OneLink, fileMatch));
  }

  lemma OneLinkNames()
    ensures ComponentOk("a") && ComponentOk("l") && ComponentOk("s") && ComponentOk("e") && ComponentOk("x")
    ensures AllStatic(["a"]) && Clean(["a"]) && Clean([])
  {
  }

  lemma OneLinkValues()
    ensures OneLink(["a"]) == Some(["a"]) && OneLink(["a"] + ["l"]) == Some(["e", "x"])
    ensures OneLink(["a"] + ["s"]) == Some(["a"] + ["s"]) && OneLink(["e"] + ["s"]) == Some(["e"] + ["s"])
    ensures Up(["e", "x"]) == ["e"] && ["e"] + ["s"] == ["e", "s"] && !Within(["a"], ["e", "s"])
  {
    OneLinkNames();
    assert ["a"] + ["l"] == ["a", "l"] && ["a"] + ["s"] == ["a", "s"] && ["e"] + ["s"] == ["e", "s"];
    assert ["a", "s"][1] != "l" && ["e", "s"][0] != "a" && ["e", "x"][..1] == ["e"];
    assert Clean(["a", "l"]) && Clean(["a", "s"]) && Clean(["e", "s"]);
    assert ["a", "l"][2..] == [] && ["e", "x"] + ["a", "l"][2..] == ["e", "x"];
  }

  // ----- what an upload replaces -----

  /** The entry that a rename onto the path replaces: the last name in the directory before it. */
  function Entry(base: Path, parts: seq<string>, links: Links): Path
    requires parts != []
  {
    Physical(base, parts[..|parts| - 1], links) + [parts[|parts| - 1]]
  }

  /** A rename does not follow its last name: it replaces the file that opening the path would give if and
      only if that name is no link to elsewhere. */
  lemma EntryIsOpenedIff(base: Path, parts: seq<string>, links: Links)
    requires parts != [] && ComponentOk(parts[|parts| - 1])
    ensures var e := Entry(base, parts, links);
      Physical(base, parts, links) == e <==> links(e) == None || links(e) == Some(e)
  {
  }
}
