/** Policy path scoping: `resolvePath` resolves the longest existing ancestor of a path, globs get
    their static base resolved the same way, and a glob that ends in a double star matches a whole subtree.
    The file system's symlinks are an arbitrary function on clean absolute paths. */
module PathScope {
  import opened Optional
  import opened Text

  /** A clean absolute path, as its components; the root is the empty list. */
  type Path = seq<string>

  predicate ComponentOk(c: string) {
    c != "" && c != "." && c != ".." && Free(c, '/')
  }

  predicate Clean(p: Path) {
    forall i | 0 <= i < |p| :: ComponentOk(p[i])
  }

  function Show(p: Path): string {
    "/" + Join(p, '/')
  }

  /** `filepath.EvalSymlinks`, which fails on a path that does not exist. */
  type Links = Path -> Option<Path>

  ghost predicate LinksOk(links: Links) {
    forall p | links(p).Some? :: Clean(links(p).value)
  }

  // ----- lexical cleaning -----

  /** Walking `parts` from the directory `base`. */
  function Walk(base: Path, parts: seq<string>): Path
    decreases |parts|
  {
    if parts == [] then base
    else if parts[0] == "" || parts[0] == "." then Walk(base, parts[1..])
    else if parts[0] == ".." then Walk(if base == [] then [] else base[..|base| - 1], parts[1..])
    else Walk(base + [parts[0]], parts[1..])
  }

  /** `filepath.Clean(filepath.Abs(path))` */
  function Absolute(path: string, cwd: Path): Path {
    Walk(if "/" <= path then [] else cwd, Split(path, '/'))
  }

  lemma {:induction false} WalkIsClean(base: Path, parts: seq<string>)
    requires Clean(base) && AllFree(parts, '/')
    ensures Clean(Walk(base, parts))
    decreases |parts|
  {
    if parts != [] {
      assert AllFree(parts[1..], '/') && Free(parts[0], '/');
      if parts[0] == "" || parts[0] == "." {
        WalkIsClean(base, parts[1..]);
      } else if parts[0] == ".." {
        WalkIsClean(if base == [] then [] else base[..|base| - 1], parts[1..]);
      } else {
        WalkIsClean(base + [parts[0]], parts[1..]);
      }
    }
  }

  lemma {:induction false} WalkOfClean(base: Path, parts: Path)
    requires Clean(parts)
    ensures Walk(base, parts) == base + parts
    decreases |parts|
  {
    if parts != [] {
      assert ComponentOk(parts[0]);
      WalkOfClean(base + [parts[0]], parts[1..]);
      assert base + [parts[0]] + parts[1..] == base + parts;
    }
  }

  // ----- resolving -----

  /** The longest prefix of `full`, of at most `k` components, that resolves, resolved, with the
      rest of `full` after it. */
  function ResolveUpTo(full: Path, k: nat, links: Links): Path
    requires k <= |full|
  {
    if links(full[..k]).Some? then links(full[..k]).value + full[k..]
    else if k == 0 then full
    else ResolveUpTo(full, k - 1, links)
  }

  function Resolve(path: string, cwd: Path, links: Links): Path {
    var full := Absolute(path, cwd);
    ResolveUpTo(full, |full|, links)
  }

  lemma AbsoluteIsClean(path: string, cwd: Path)
    requires Clean(cwd)
    ensures Clean(Absolute(path, cwd))
  {
    SplitPartsFree(path, '/');
    WalkIsClean(if "/" <= path then [] else cwd, Split(path, '/'));
  }

  /** `resolvePath`: the ancestor shrinks, and ancestor plus tail stay the cleaned path. */
  method ResolvePath(path: string, cwd: Path, links: Links) returns (r: Path)
    requires Clean(cwd) && LinksOk(links)
    ensures r == Resolve(path, cwd, links) && Clean(r)
  {
    var full := Absolute(path, cwd);
    AbsoluteIsClean(path, cwd);
    var cur, rest := full, [];
    while true
      invariant cur + rest == full && Clean(full)
      invariant cur == full[..|cur|] && rest == full[|cur|..]
      invariant ResolveUpTo(full, |full|, links) == ResolveUpTo(full, |cur|, links)
      decreases |cur|
    {
      var ev := links(cur);
      if ev.Some? {
        WalkOfClean(ev.value, rest);
        return Walk(ev.value, rest);
      }
      if cur == [] {
        break;
      }
      rest := [cur[|cur| - 1]] + rest;
      cur := cur[..|cur| - 1];
    }
    return full;
  }

  // ----- globs -----

  predicate Wildcard(c: char) {
    c == '*' || c == '?' || c == '['
  }

  function IndexWildcard(s: string): (i: Option<nat>)
    ensures i.None? ==> forall j | 0 <= j < |s| :: !Wildcard(s[j])
    ensures i.Some? ==> i.value < |s| && Wildcard(s[i.value]) && forall j | 0 <= j < i.value :: !Wildcard(s[j])
  {
    if s == "" then None
    else if Wildcard(s[0]) then Some(0)
    else match IndexWildcard(s[1..]) case None => None case Some(i) => Some(i + 1)
  }

  function LastSlash(s: string): (i: Option<nat>)
    ensures i.None? ==> Free(s, '/')
    ensures i.Some? ==> i.value < |s| && s[i.value] == '/' && Free(s[i.value + 1..], '/')
  {
    if s == "" then None
    else if s[|s| - 1] == '/' then Some(|s| - 1)
    else match LastSlash(s[..|s| - 1]) case None => None case Some(i) => Some(i)
  }

  /** `resolveGlob` */
  function ResolveGlob(glob: string, cwd: Path, links: Links): string {
    match IndexWildcard(glob)
    case None => Show(Resolve(glob, cwd, links))
    case Some(i) =>
      var base := match LastSlash(glob[..i]) case None => glob[..i] case Some(j) => glob[..j];
      Show(Resolve(base, cwd, links)) + glob[|base|..]
  }

  predicate HasSuffix(s: string, suffix: string) {
    |suffix| <= |s| && s[|s| - |suffix|..] == suffix
  }

  /** `matchGlob`; anything but a trailing subtree pattern goes to `filepath.Match`. */
  predicate MatchGlob(glob: string, path: string, fileMatch: (string, string) -> bool) {
    if HasSuffix(glob, "/**") then
      var base := glob[..|glob| - 3];
      path == base || base + "/" <= path
    else fileMatch(glob, path)
  }

  /** What a policy is evaluated against. */
  datatype Setting = Setting(cwd: Path, links: Links, fileMatch: (string, string) -> bool)

  ghost predicate SettingOk(at: Setting) {
    Clean(at.cwd) && LinksOk(at.links)
  }

  predicate Accepts(glob: string, path: Path, at: Setting) {
    MatchGlob(ResolveGlob(glob, at.cwd, at.links), Show(path), at.fileMatch)
  }

  function Verdicts(globs: seq<string>, path: Path, at: Setting): (verdicts: seq<bool>)
    ensures |verdicts| == |globs|
    ensures forall i | 0 <= i < |globs| :: verdicts[i] == Accepts(globs[i], path, at)
  {
    seq(|globs|, i requires 0 <= i < |globs| => Accepts(globs[i], path, at))
  }

  method PathAllowed(globs: seq<string>, path: string, at: Setting) returns (allowed: bool)
    requires SettingOk(at)
    ensures allowed <==> true in Verdicts(globs, Resolve(path, at.cwd, at.links), at)
  {
    if |globs| == 0 {
      return false;
    }
    var resolved := ResolvePath(path, at.cwd, at.links);
    ghost var verdicts := Verdicts(globs, resolved, at);
    for i := 0 to |globs|
      invariant true !in verdicts[..i]
    {
      assert verdicts[..i + 1] == verdicts[..i] + [verdicts[i]];
      if Accepts(globs[i], resolved, at) {
        assert verdicts[i];
        return true;
      }
    }
    assert verdicts[..|globs|] == verdicts;
    return false;
  }

  // ----- a string prefix is a component prefix -----

  lemma {:induction false} JoinOfAppend(a: Path, b: Path)
    requires a != [] && b != []
    ensures Join(a + b, '/') == Join(a, '/') + "/" + Join(b, '/')
  {
    if |a| == 1 {
      assert (a + b)[1..] == b;
    } else {
      assert (a + b)[1..] == a[1..] + b;
      JoinOfAppend(a[1..], b);
    }
  }

  lemma CleanIsFree(p: Path)
    requires Clean(p)
    ensures AllFree(p, '/')
  {
    forall i | 0 <= i < |p|
      ensures Free(p[i], '/')
    {
      assert ComponentOk(p[i]);
    }
  }

  /** Two clean paths that look the same are the same. */
  lemma ShowIsInjective(a: Path, b: Path)
    requires Clean(a) && Clean(b) && Show(a) == Show(b)
    ensures a == b
  {
    assert Join(a, '/') == Show(a)[1..] == Show(b)[1..] == Join(b, '/');
    JoinIsEmpty(a);
    JoinIsEmpty(b);
    if a != [] {
      CleanIsFree(a);
      CleanIsFree(b);
      SplitOfJoin(a, '/');
      SplitOfJoin(b, '/');
    }
  }

  lemma JoinIsEmpty(p: Path)
    requires Clean(p)
    ensures Join(p, '/') == "" <==> p == []
  {
    if p != [] {
      assert ComponentOk(p[0]);
    }
  }

  lemma BelowInText(a: Path, p: Path)
    requires Clean(a) && Clean(p) && a != [] && Show(a) + "/" <= Show(p)
    ensures a < p
  {
    var text := Join(p, '/');
    var rest := text[|Join(a, '/')| + 1..];
    assert Show(p)[1..] == text;
    assert (Show(a) + "/")[1..] == Join(a, '/') + "/" <= text;
    assert text == Join(a, '/') + ['/'] + rest;
    CleanIsFree(a);
    CleanIsFree(p);
    SplitOfJoin(a, '/');
    SplitAround(Join(a, '/'), '/', rest);
    if p != [] {
      SplitOfJoin(p, '/');
    }
    assert p == a + Split(rest, '/');
  }

  lemma BelowInComponents(a: Path, p: Path)
    requires a != [] && a < p
    ensures Show(a) + "/" <= Show(p)
  {
    assert p == a + p[|a|..];
    JoinOfAppend(a, p[|a|..]);
    assert Show(p) == Show(a) + "/" + Join(p[|a|..], '/');
  }

  lemma NothingBelowRootText(p: Path)
    requires Clean(p)
    ensures !("//" <= Show(p))
  {
    if p != [] {
      assert ComponentOk(p[0]) && p[0][0] in p[0];
      assert Show(p)[1] == p[0][0];
    }
  }

  // ----- the scope of a subtree glob -----

  /** `path` is `base` or lies under it; a base that resolves to the root covers only the root. */
  predicate Within(base: Path, path: Path) {
    base <= path && (base == [] ==> path == [])
  }

  predicate StaticBase(base: string) {
    base != "" && forall i | 0 <= i < |base| :: !Wildcard(base[i])
  }

  lemma {:induction false} LastSlashIs(s: string, j: nat)
    requires j < |s| && s[j] == '/' && Free(s[j + 1..], '/')
    ensures LastSlash(s) == Some(j)
  {
    if j < |s| - 1 {
      assert s[j + 1..][|s| - 2 - j] == s[|s| - 1];
      assert s[..|s| - 1][j + 1..] == s[j + 1..][..|s| - 2 - j];
      LastSlashIs(s[..|s| - 1], j);
    }
  }

  lemma GlobSplitsAt(glob: string, i: nat, j: nat, cwd: Path, links: Links)
    requires j < i < |glob| && Wildcard(glob[i]) && forall k | 0 <= k < i :: !Wildcard(glob[k])
    requires glob[j] == '/' && Free(glob[j + 1..i], '/')
    ensures ResolveGlob(glob, cwd, links) == Show(Resolve(glob[..j], cwd, links)) + glob[j..]
  {
    assert IndexWildcard(glob) == Some(i);
    assert glob[..i][j + 1..] == glob[j + 1..i] && glob[..i][..j] == glob[..j];
    LastSlashIs(glob[..i], j);
  }

  lemma SubtreeGlobResolves(base: string, cwd: Path, links: Links)
    requires StaticBase(base)
    ensures ResolveGlob(base + "/**", cwd, links) == Show(Resolve(base, cwd, links)) + "/**"
  {
    var glob := base + "/**";
    assert glob[..|base|] == base && glob[|base|..] == "/**";
    assert glob[|base|] == '/' && glob[|base| + 1] == '*' && glob[|base| + 1..|base| + 1] == "";
    GlobSplitsAt(glob, |base| + 1, |base|, cwd, links);
  }

  /** A glob made of a static base and a trailing subtree pattern accepts exactly the paths
      whose resolution has the resolved base as a prefix of components, whatever the symlinks. */
  lemma SubtreeGlobScope(base: string, path: Path, cwd: Path, links: Links, fileMatch: (string, string) -> bool)
    requires StaticBase(base) && Clean(path) && Clean(Resolve(base, cwd, links))
    ensures MatchGlob(ResolveGlob(base + "/**", cwd, links), Show(path), fileMatch)
       <==> Within(Resolve(base, cwd, links), path)
  {
    SubtreeGlobResolves(base, cwd, links);
    SubtreeTextScope(Resolve(base, cwd, links), path, fileMatch);
  }

  /** What a glob accepts that is the text of a clean path and a trailing subtree pattern. */
  lemma SubtreeTextScope(root: Path, path: Path, fileMatch: (string, string) -> bool)
    requires Clean(root) && Clean(path)
    ensures MatchGlob(Show(root) + "/**", Show(path), fileMatch) <==> Within(root, path)
  {
    var glob := Show(root) + "/**";
    assert HasSuffix(glob, "/**") && glob[..|glob| - 3] == Show(root);
    if Show(path) == Show(root) {
      ShowIsInjective(path, root);
    }
    if root == [] {
      NothingBelowRootText(path);
      assert Show(root) == "/" && Show(root) + "/" == "//";
    } else {
      if Show(root) + "/" <= Show(path) {
        BelowInText(root, path);
      }
      if root < path {
        BelowInComponents(root, path);
      } else if root <= path {
        assert root == path;
      }
    }
  }

  // ----- a wildcard in front of a subtree pattern -----

  predicate HasWildcard(c: string) {
    IndexWildcard(c).Some?
  }

  predicate Static(base: string) {
    forall i | 0 <= i < |base| :: !Wildcard(base[i])
  }

  lemma WildcardGlobResolves(base: string, text: string, w: nat, cwd: Path, links: Links)
    requires Static(base) && w < |text| && Wildcard(text[w])
    requires forall k | 0 <= k < w :: !Wildcard(text[k]) && text[k] != '/'
    ensures ResolveGlob(base + ("/" + text), cwd, links) == Show(Resolve(base, cwd, links)) + ("/" + text)
  {
    var glob := base + ("/" + text);
    var i := |base| + 1 + w;
    assert forall k | 0 <= k < |text| :: glob[|base| + 1 + k] == text[k];
    assert glob[|base|] == '/' && glob[|base| + 1..i] == text[..w];
    GlobSplitsAt(glob, i, |base|, cwd, links);
    assert glob[..|base|] == base && glob[|base|..] == "/" + text;
  }

  /** A glob whose first wildcard is not in the last component but in one before a subtree pattern. */
  function WildcardGlob(base: string, literal: Path): string {
    base + ("/" + (Join(literal, '/') + "/**"))
  }

  lemma FirstWildcard(literal: Path) returns (w: nat)
    requires Clean(literal) && literal != [] && HasWildcard(literal[0])
    ensures var text := Join(literal, '/') + "/**";
      w < |text| && Wildcard(text[w]) && forall k | 0 <= k < w :: !Wildcard(text[k]) && text[k] != '/'
  {
    w := IndexWildcard(literal[0]).value;
    assert ComponentOk(literal[0]);
    FirstComponent(literal);
    assert forall k | 0 <= k < |literal[0]| :: (Join(literal, '/') + "/**")[k] == literal[0][k];
  }

  lemma FirstComponent(p: Path)
    requires p != []
    ensures p[0] <= Join(p, '/')
  {
  }

  /** The matcher takes what stands before a trailing subtree pattern literally, wildcards and all: the
      glob accepts exactly the paths under the resolved base and then those very components, and none
      when the base resolves to the root. */
  lemma WildcardSubtreeScope(base: string, literal: Path, path: Path, at: Setting)
    requires SettingOk(at) && Clean(path)
    requires Static(base) && Clean(literal) && literal != [] && HasWildcard(literal[0])
    ensures var root := Resolve(base, at.cwd, at.links);
      Accepts(WildcardGlob(base, literal), path, at) <==> root != [] && root + literal <= path
  {
    var root := Resolve(base, at.cwd, at.links);
    var w := FirstWildcard(literal);
    WildcardGlobResolves(base, Join(literal, '/') + "/**", w, at.cwd, at.links);
    ResolveIsClean(base, at.cwd, at.links);
    LiteralScope(root, literal, path, at.fileMatch);
  }

  lemma LiteralScope(root: Path, literal: Path, path: Path, fileMatch: (string, string) -> bool)
    requires Clean(root) && Clean(path) && Clean(literal) && literal != []
    ensures MatchGlob(Show(root) + ("/" + (Join(literal, '/') + "/**")), Show(path), fileMatch)
       <==> root != [] && root + literal <= path
  {
    if root == [] {
      assert Show(root) == "/";
      Reassociated("/", Join(literal, '/'), "/**");
      NothingUnderDoubleSlash(Join(literal, '/'), path, fileMatch);
    } else {
      ShowOfAppend(root, literal);
      Reassociated(Show(root), Join(literal, '/'), "/**");
      assert root + literal != [];
      SubtreeTextScope(root + literal, path, fileMatch);
    }
  }

  lemma Reassociated(a: string, b: string, c: string)
    ensures a + ("/" + (b + c)) == ((a + "/") + b) + c
  {
  }

  lemma ShowOfAppend(a: Path, b: Path)
    requires a != [] && b != []
    ensures Show(a + b) == (Show(a) + "/") + Join(b, '/')
  {
    JoinOfAppend(a, b);
  }

  lemma NothingUnderDoubleSlash(text: string, path: Path, fileMatch: (string, string) -> bool)
    requires Clean(path)
    ensures !MatchGlob((("/" + "/") + text) + "/**", Show(path), fileMatch)
  {
    var base := ("/" + "/") + text;
    var glob := base + "/**";
    assert HasSuffix(glob, "/**") && glob[..|glob| - 3] == base;
    NothingBelowRootText(path);
    assert "//" <= base <= base + "/";
  }

  lemma {:induction false} ResolveUpToIsClean(full: Path, k: nat, links: Links)
    requires k <= |full| && Clean(full) && LinksOk(links)
    ensures Clean(ResolveUpTo(full, k, links))
  {
    if links(full[..k]).None? && k > 0 {
      ResolveUpToIsClean(full, k - 1, links);
    }
  }

  lemma ResolveIsClean(path: string, cwd: Path, links: Links)
    requires Clean(cwd) && LinksOk(links)
    ensures Clean(Resolve(path, cwd, links))
  {
    AbsoluteIsClean(path, cwd);
    var full := Absolute(path, cwd);
    ResolveUpToIsClean(full, |full|, links);
  }

  lemma SubtreeAccepts(base: string, path: Path, at: Setting)
    requires SettingOk(at) && Clean(path) && StaticBase(base)
    ensures Accepts(base + "/**", path, at) <==> Within(Resolve(base, at.cwd, at.links), path)
  {
    ResolveIsClean(base, at.cwd, at.links);
    SubtreeGlobScope(base, path, at.cwd, at.links, at.fileMatch);
  }

  function SubtreeGlobs(bases: seq<string>): seq<string> {
    seq(|bases|, i requires 0 <= i < |bases| => bases[i] + "/**")
  }

  /** A policy whose file_paths are all subtree globs lets a path through exactly when it lies
      in one of the resolved subtrees. */
  lemma SubtreePolicy(bases: seq<string>, path: Path, at: Setting)
    requires SettingOk(at) && Clean(path) && forall i | 0 <= i < |bases| :: StaticBase(bases[i])
    ensures true in Verdicts(SubtreeGlobs(bases), path, at)
       <==> exists i | 0 <= i < |bases| :: Within(Resolve(bases[i], at.cwd, at.links), path)
  {
    var verdicts := Verdicts(SubtreeGlobs(bases), path, at);
    forall i | 0 <= i < |bases|
      ensures verdicts[i] == Within(Resolve(bases[i], at.cwd, at.links), path)
    {
      SubtreeAccepts(bases[i], path, at);
      assert SubtreeGlobs(bases)[i] == bases[i] + "/**";
    }
  }

  /** A bare subtree pattern has no static base: its base is the working directory, not the root. */
  lemma BareSubtreeIsCwd(cwd: Path, links: Links)
    ensures ResolveGlob("/**", cwd, links) == Show(ResolveUpTo(cwd, |cwd|, links)) + "/**"
  {
    BareGlobResolves(cwd, links);
    EmptyIsCwd(cwd);
  }

  lemma BareGlobResolves(cwd: Path, links: Links)
    ensures ResolveGlob("/**", cwd, links) == Show(Resolve("", cwd, links)) + "/**"
  {
    GlobSplitsAt("/**", 1, 0, cwd, links);
    assert "/**"[..0] == "" && "/**"[0..] == "/**";
  }

  lemma EmptyIsCwd(cwd: Path)
    ensures Absolute("", cwd) == cwd
  {
    assert Split("", '/') == [""] && [""][1..] == [];
  }

  // ----- globs without a subtree pattern -----

  /** The characters that mean something to `filepath.Match`. */
  predicate Literal(s: string) {
    '*' !in s && '?' !in s && '[' !in s && '\\' !in s
  }

  /** A matcher compares patterns without such characters as they are. */
  ghost predicate TakesLiterally(fileMatch: (string, string) -> bool) {
    forall pattern, text | Literal(pattern) :: fileMatch(pattern, text) <==> pattern == text
  }

  lemma LiteralIsStatic(s: string)
    requires Literal(s)
    ensures Static(s) && IndexWildcard(s).None? && !HasSuffix(s, "/**")
  {
    SubtreeSuffix(s);
    assert s != "" ==> s[|s| - 1] in s;
  }

  lemma SubtreeSuffix(s: string)
    ensures HasSuffix(s, "/**") <==>
      |s| >= 3 && s[|s| - 3] == '/' && s[|s| - 2] == '*' && s[|s| - 1] == '*'
  {
  }

  /** A glob with nothing special in it, which resolves to a path with nothing special in it, accepts that
      path and no other. */
  lemma LiteralGlobScope(glob: string, path: Path, at: Setting)
    requires SettingOk(at) && Clean(path) && TakesLiterally(at.fileMatch)
    requires Literal(glob) && Literal(Show(Resolve(glob, at.cwd, at.links)))
    ensures Accepts(glob, path, at) <==> path == Resolve(glob, at.cwd, at.links)
  {
    var root := Resolve(glob, at.cwd, at.links);
    LiteralIsStatic(glob);
    LiteralIsStatic(Show(root));
    ResolveIsClean(glob, at.cwd, at.links);
    if Show(path) == Show(root) {
      ShowIsInjective(path, root);
    }
  }

  /** So a policy of that one glob lets through exactly the paths that resolve to what the glob does. */
  lemma LiteralPolicy(glob: string, path: string, at: Setting)
    requires SettingOk(at) && TakesLiterally(at.fileMatch)
    requires Literal(glob) && Literal(Show(Resolve(glob, at.cwd, at.links)))
    ensures true in Verdicts([glob], Resolve(path, at.cwd, at.links), at)
       <==> Resolve(path, at.cwd, at.links) == Resolve(glob, at.cwd, at.links)
  {
    ResolveIsClean(path, at.cwd, at.links);
    LiteralGlobScope(glob, Resolve(path, at.cwd, at.links), at);
    assert Verdicts([glob], Resolve(path, at.cwd, at.links), at)
        == [Accepts(glob, Resolve(path, at.cwd, at.links), at)];
  }

  /** A glob with its first wildcard in the last component accepts what the matcher says of the resolved
      base and that component: nothing, if the matcher accepts nothing. */
  lemma LastComponentScope(base: string, last: string, w: nat, path: Path, at: Setting)
    requires SettingOk(at) && Static(base) && '/' !in last && last != "**"
    requires w < |last| && (last[w] == '*' || last[w] == '?' || last[w] == '[') && Literal(last[..w])
    ensures Accepts(base + ("/" + last), path, at)
       <==> at.fileMatch(Show(Resolve(base, at.cwd, at.links)) + ("/" + last), Show(path))
  {
    assert forall k | 0 <= k < w :: last[k] == last[..w][k];
    WildcardGlobResolves(base, last, w, at.cwd, at.links);
    NoSubtreeSuffix(Show(Resolve(base, at.cwd, at.links)), last);
  }

  lemma NoSubtreeSuffix(s: string, last: string)
    requires '/' !in last && last != "**"
    ensures !HasSuffix(s + ("/" + last), "/**")
  {
    var t := s + ("/" + last);
    SubtreeSuffix(t);
    assert forall i | 0 <= i < |last| :: t[|s| + 1 + i] == last[i] && last[i] in last;
    assert t[|s|] == '/';
    assert |last| == 2 ==> last == [last[0], last[1]];
  }
}
