/**
  The path policy for remote workspaces: which paths are already inside the workspace, and where
  every other path is put.
 */
module WorkspaceLayout {
  import opened Base
  import opened PosixPath

  const WORK := "work"
  const OUTPUT := "output"
  const LOGS := "logs"
  const GENERATED := "generated"
  const EXTERNAL := "external"
  const SFTP := "sftp"
  const BINARIES := "test-binaries"

  function CategoryRoot(category: string): string {
    if category == WORK || category == OUTPUT then OUTPUT
    else if category == LOGS then Over(OUTPUT, LOGS)
    else if category == GENERATED then Over(OUTPUT, GENERATED)
    else category
  }

  function RStripSlash(s: string): string {
    if s != [] && s[|s| - 1] == '/' then RStripSlash(s[..|s| - 1]) else s
  }

  function LStripSlash(s: string): string {
    if s != [] && s[0] == '/' then LStripSlash(s[1..]) else s
  }

  /** lstrip("./"): all leading dots and slashes. */
  function LStrip(s: string): string {
    if s != [] && (s[0] == '.' || s[0] == '/') then LStrip(s[1..]) else s
  }

  predicate IsManaged(path: string, root: string) {
    var normalized := NormPath(AsPosix(path));
    var workspace := RStripSlash(root);
    normalized == workspace || workspace + ['/'] <= normalized
  }

  /** The text after the first occurrence of marker, if there is one. */
  function AfterFirst(s: string, marker: string): Option<string> {
    if |s| < |marker| then None
    else if marker <= s then Some(s[|marker|..])
    else if s == [] then None
    else AfterFirst(s[1..], marker)
  }

  function AfterFirstOf(s: string, markers: seq<string>): Option<string> {
    if markers == [] then None
    else var r := AfterFirst(s, markers[0]); if r.Some? then r else AfterFirstOf(s, markers[1..])
  }

  function Replaced(s: string): string {
    if s == [] then [] else [if s[0] == ':' then '_' else s[0]] + Replaced(s[1..])
  }

  /** category with slashes around it */
  function Marker(category: string): string {
    ['/'] + Over(category, [])
  }

  function UnderOutput(category: string): Option<string> {
    if Over(OUTPUT, []) <= category then Some(category[|OUTPUT| + 1..]) else None
  }

  /** The part of an absolute path that belongs to a category. */
  function RelativePart(path: string, category: string): string {
    var normalized := Replaced(NormPath(path));
    var external := if category == EXTERNAL
                    then AfterFirstOf(normalized, [Marker(Over(OUTPUT, BINARIES)), Marker(Over(OUTPUT, EXTERNAL)), Marker(EXTERNAL)])
                    else None;
    var output := if category == OUTPUT then AfterFirst(normalized, Marker(OUTPUT)) else None;
    var suffix := UnderOutput(category);
    var nested := if suffix.Some? then AfterFirst(normalized, Marker(Over(OUTPUT, suffix.value))) else None;
    if external.Some? then external.value
    else if output.Some? then Over(OUTPUT, output.value)
    else if nested.Some? then Over(suffix.value, nested.value)
    else LStripSlash(normalized)
  }

  function Prefixes(category: string): seq<string> {
    var suffix := UnderOutput(category);
    if suffix.Some? then [Over(Over(OUTPUT, suffix.value), []), Over(suffix.value, [])]
    else if category == OUTPUT then [Over(OUTPUT, [])]
    else if category == EXTERNAL then
      [Over(Over(OUTPUT, BINARIES), []), Over(Over(OUTPUT, EXTERNAL), []), Over(EXTERNAL, [])]
    else []
  }

  function DropFirst(s: string, prefixes: seq<string>): string {
    if prefixes == [] then s
    else if prefixes[0] <= s then s[|prefixes[0]|..]
    else DropFirst(s, prefixes[1..])
  }

  function TrimCategory(path: string, category: string): string {
    var rel := LStrip(NormPath(path));
    if rel == DOT then [] else DropFirst(rel, Prefixes(category))
  }

  function RemotePath(root: string, path: string, category: string): string {
    var raw := AsPosix(path);
    if IsManaged(raw, root) then NormPath(raw)
    else
      var c := CategoryRoot(category);
      var rel := if Slashes(raw) > 0 then RelativePart(raw, c) else raw;
      JoinPath(JoinPath(root, c), TrimCategory(rel, c))
  }

  // ---- what is left of a path ----

  lemma {:induction false} LStripDots(c: string, t: string)
    requires '/' !in c
    ensures LStrip(c + t) == LStrip(if LStrip(c) == [] then t else c) + if LStrip(c) == [] then [] else t
    ensures LStrip(c) != [] ==> LStrip(c)[0] != '.' && '/' !in LStrip(c)
  {
    if c == [] {
      assert c + t == t;
    } else if c[0] == '.' {
      assert (c + t)[1..] == c[1..] + t;
      LStripDots(c[1..], t);
    }
  }

  lemma {:induction false} LStripJoin(cs: seq<string>, ups: nat) returns (ds: seq<string>)
    requires Resolved(false, cs, ups)
    ensures Down(ds) && LStrip(Join(cs)) == Join(ds)
    decreases |cs|
  {
    if cs == [] {
      return [];
    }
    assert Name(cs[0]);
    var rest := cs[1..];
    var tail := if rest == [] then [] else ['/'] + Join(rest);
    assert Join(cs) == cs[0] + tail;
    LStripDots(cs[0], tail);
    if LStrip(cs[0]) == [] {
      ds := LStripJoin(rest, if ups == 0 then 0 else ups - 1);
      assert rest != [] ==> tail[1..] == Join(rest);
    } else {
      assert LStrip(UP) == [] by { assert UP[1..] == DOT; assert DOT[1..] == []; }
      assert ups == 0;
      ds := [LStrip(cs[0])] + rest;
      assert ds[1..] == rest;
    }
  }

  lemma LStripOne(t: string)
    ensures LStrip(['/'] + t) == LStrip(t)
  {
    assert (['/'] + t)[1..] == t;
  }

  lemma {:induction false} LStripLead(n: nat, t: string)
    ensures LStrip(Lead(n) + t) == LStrip(t)
  {
    if n == 0 {
      assert [] + t == t;
    } else {
      LStripLead(n - 1, t);
      LStripOne(Lead(n - 1) + t);
      assert ['/'] + Lead(n - 1) + t == ['/'] + (Lead(n - 1) + t);
    }
  }

  /** Whatever the path, stripping its normal form leaves components that only go down. */
  lemma StrippedGoesDown(path: string) returns (ds: seq<string>)
    ensures Down(ds) && LStrip(NormPath(path)) == Join(ds)
  {
    var n := Norm(path);
    var ups := NormIsResolved(path);
    if n.slashes == 0 && n.comps == [] {
      assert DOT[1..] == [];
      return [];
    }
    ds := LStripJoin(n.comps, ups);
    LStripLead(n.slashes, Join(n.comps));
  }

  lemma DownIsNames(cs: seq<string>)
    requires Down(cs)
    ensures Names(cs)
  {
  }

  lemma DropPrefix(cs: seq<string>, p: string) returns (ds: seq<string>)
    requires Down(cs) && p != [] && p[|p| - 1] == '/' && p <= Join(cs)
    ensures Down(ds) && Join(cs)[|p|..] == Join(ds)
  {
    var q, rest := p[..|p| - 1], Join(cs)[|p|..];
    assert Join(cs) == Over(q, rest);
    SplitOver(q, rest);
    SplitJoin(cs);
    JoinSplit(rest);
    ds := cs[|Split(q)|..];
  }

  predicate AllDirs(prefixes: seq<string>) {
    forall i :: 0 <= i < |prefixes| ==> prefixes[i] != [] && prefixes[i][|prefixes[i]| - 1] == '/'
  }

  lemma OverEndsInSlash(a: string)
    ensures Over(a, []) != [] && Over(a, [])[|Over(a, [])| - 1] == '/'
  {
  }

  lemma PrefixesEndInSlash(category: string)
    ensures AllDirs(Prefixes(category))
  {
    OverEndsInSlash(OUTPUT);
    OverEndsInSlash(EXTERNAL);
    OverEndsInSlash(Over(OUTPUT, BINARIES));
    OverEndsInSlash(Over(OUTPUT, EXTERNAL));
    if UnderOutput(category).Some? {
      OverEndsInSlash(UnderOutput(category).value);
      OverEndsInSlash(Over(OUTPUT, UnderOutput(category).value));
    }
  }

  lemma {:induction false} DropFirstGoesDown(cs: seq<string>, prefixes: seq<string>) returns (ds: seq<string>)
    requires Down(cs)
    requires AllDirs(prefixes)
    ensures Down(ds) && DropFirst(Join(cs), prefixes) == Join(ds)
  {
    if prefixes == [] {
      ds := cs;
    } else if prefixes[0] <= Join(cs) {
      ds := DropPrefix(cs, prefixes[0]);
    } else {
      ds := DropFirstGoesDown(cs, prefixes[1..]);
    }
  }

  lemma PureOfDown(cs: seq<string>)
    requires Down(cs)
    ensures Pure(Join(cs)) == Path(0, cs) && (Join(cs) == [] || Join(cs)[0] != '/')
  {
    if cs == [] {
      assert Split([]) == [[]];
      assert Clean([[]]) == [];
    } else {
      DownIsNames(cs);
      JoinEnds(cs);
      PureJoin(cs);
    }
  }

  /** What is appended below the category root never climbs and never starts over at "/". */
  lemma TrimGoesDown(path: string, category: string) returns (ds: seq<string>)
    ensures Down(ds) && TrimCategory(path, category) == Join(ds)
  {
    ds := StrippedGoesDown(path);
    if Join(ds) == DOT {
      ds := [];
    } else {
      PrefixesEndInSlash(category);
      ds := DropFirstGoesDown(ds, Prefixes(category));
    }
  }

  // ---- inside the workspace ----

  /** A category root that is relative and never climbs. */
  predicate Inside(c: string) {
    (c == [] || c[0] != '/') && UP !in Split(c)
  }

  lemma {:induction false} CleanHasNoUp(cs: seq<string>)
    requires UP !in cs
    ensures UP !in Clean(cs)
  {
    if cs != [] {
      CleanHasNoUp(cs[1..]);
    }
  }

  lemma InsideGoesDown(c: string)
    requires Inside(c)
    ensures Down(Pure(c).comps)
  {
    PureIsNames(c);
    CleanHasNoUp(Split(c));
  }

  /** The components of a path under p. */
  ghost predicate Beneath(p: Path, root: Path) {
    p.slashes == root.slashes && root.comps <= p.comps
  }

  /** Components that only go down are added to whatever path they are joined to. */
  lemma JoinDownNorm(base: string, ds: seq<string>)
    requires base != [] && Down(ds)
    ensures Norm(JoinPath(base, Join(ds))) == Path(Norm(base).slashes, Norm(base).comps + ds)
  {
    PureOfDown(ds);
    JoinPathIsAppend(base, Join(ds));
    var p := Pure(base);
    ResolveAppend(p.slashes > 0, [], p.comps, ds);
    ResolveDown(p.slashes > 0, Norm(base).comps, ds);
  }

  lemma JoinedPure(root: string, c: string, ds: seq<string>)
    requires root != [] && (c == [] || c[0] != '/') && Down(ds)
    ensures Pure(JoinPath(JoinPath(root, c), Join(ds))) == Path(Pure(root).slashes, Pure(root).comps + Pure(c).comps + ds)
  {
    JoinPathIsAppend(root, c);
    PureOfDown(ds);
    JoinPathIsAppend(JoinPath(root, c), Join(ds));
  }

  lemma ResolveBelow(rooted: bool, cs: seq<string>, ups: nat, c: seq<string>, ds: seq<string>)
    requires Resolved(rooted, cs, ups) && Down(c) && Down(ds)
    ensures Resolve(rooted, [], cs + c + ds) == cs + (c + ds)
  {
    var below := c + ds;
    assert cs + c + ds == cs + below;
    ResolveAppend(rooted, [], cs, below);
    ResolvedIsFixed(rooted, cs, ups);
    ResolveDown(rooted, cs, below);
  }

  lemma JoinedNorm(root: string, c: string, ds: seq<string>)
    requires NormPath(root) == root && Inside(c) && Down(ds)
    ensures Norm(JoinPath(JoinPath(root, c), Join(ds))) == Path(Norm(root).slashes, Norm(root).comps + (Pure(c).comps + ds))
  {
    var w := Norm(root);
    var ups := NormIsResolved(root);
    NormPathIsIdempotent(root);
    ShowIsNotEmpty(w);
    JoinedPure(root, c, ds);
    InsideGoesDown(c);
    ResolveBelow(w.slashes > 0, w.comps, ups, Pure(c).comps, ds);
  }

  lemma ShowIsNotEmpty(p: Path)
    requires p.slashes <= 2 && Names(p.comps)
    ensures Show(p) != []
  {
    if p.comps != [] {
      JoinEnds(p.comps);
    }
  }

  /** A path that is not yet managed lands exactly at root/category root/rest, where rest only goes down. */
  lemma LandsBelow(root: string, path: string, category: string) returns (ds: seq<string>)
    requires NormPath(root) == root && Inside(CategoryRoot(category)) && !IsManaged(AsPosix(path), root)
    ensures Down(ds)
    ensures Norm(RemotePath(root, path, category))
         == Path(Norm(root).slashes, Norm(root).comps + (Pure(CategoryRoot(category)).comps + ds))
  {
    var raw := AsPosix(path);
    var c := CategoryRoot(category);
    var rel := if Slashes(raw) > 0 then RelativePart(raw, c) else raw;
    ds := TrimGoesDown(rel, c);
    JoinedNorm(root, c, ds);
  }

  // ---- the textual test and the components ----

  lemma RStripOfName(root: string)
    requires root != [] && root[|root| - 1] != '/'
    ensures RStripSlash(root) == root
  {
  }

  lemma OverRegroups(lead: string, a: string, b: string)
    ensures lead + Over(a, b) == Over(lead + a, b)
  {
  }

  lemma ShowAppend(w: Path, more: seq<string>)
    requires Names(w.comps) && w.comps != [] && Names(more) && more != []
    ensures Show(Path(w.slashes, w.comps + more)) == Over(Show(w), Join(more))
  {
    JoinAppend(w.comps, more);
    OverRegroups(Lead(w.slashes), Join(w.comps), Join(more));
  }

  lemma ShowEnd(w: Path)
    requires w.slashes <= 2 && Names(w.comps) && w.comps != []
    ensures Show(w) != [] && Show(w)[|Show(w)| - 1] != '/' && RStripSlash(Show(w)) == Show(w)
  {
    JoinEnds(w.comps);
    RStripOfName(Show(w));
  }

  lemma TextPrefix(a: string, t: string)
    requires a != [] && a[|a| - 1] != '/' && a + ['/'] <= t
    ensures Beneath(Pure(t), Pure(a))
  {
    var rest := t[|a| + 1..];
    assert t == Over(a, rest);
    PureOver(a, rest);
  }

  lemma PrefixIsBeneath(w: Path, n: Path)
    requires w.slashes <= 2 && Names(w.comps) && w.comps != [] && n.slashes <= 2 && Names(n.comps)
    requires Show(w) + ['/'] <= Show(n)
    ensures Beneath(n, w)
  {
    ShowEnd(w);
    TextPrefix(Show(w), Show(n));
    PureShow(w);
    PureShow(n);
  }

  lemma BeneathIsPrefix(w: Path, n: Path)
    requires w.slashes <= 2 && Names(w.comps) && w.comps != [] && Names(n.comps) && Beneath(n, w)
    ensures Show(n) == Show(w) || Show(w) + ['/'] <= Show(n)
  {
    var more := n.comps[|w.comps|..];
    assert n.comps == w.comps + more;
    if more != [] {
      assert Names(more);
      ShowAppend(w, more);
    } else {
      assert n == w;
    }
  }

  /** The prefix test on text says exactly that the components lie beneath the workspace's. */
  lemma ManagedIsBeneath(path: string, root: string)
    requires NormPath(root) == root && Norm(root).comps != []
    ensures IsManaged(path, root) <==> Beneath(Norm(path), Norm(root))
  {
    var w, n := Norm(root), Norm(path);
    AsPosixIsIdempotent(path);
    var _ := NormIsResolved(root);
    var _ := NormIsResolved(path);
    ShowEnd(w);
    PureShow(w);
    PureShow(n);
    if IsManaged(path, root) && Show(n) != Show(w) {
      PrefixIsBeneath(w, n);
    }
    if Beneath(n, w) {
      BeneathIsPrefix(w, n);
    }
  }

  lemma RStripLead(n: nat)
    requires 1 <= n <= 2
    ensures RStripSlash(Lead(n)) == []
  {
    assert Lead(1) == ['/'];
    assert Lead(2) == ['/', '/'];
    assert Lead(2)[..1] == Lead(1);
    assert Lead(1)[..0] == [];
  }

  lemma ShowStart(p: Path)
    requires p.slashes <= 2 && Names(p.comps)
    ensures ['/'] <= Show(p) <==> p.slashes > 0
  {
    if p.slashes == 0 {
      if p.comps != [] {
        JoinEnds(p.comps);
        assert Lead(0) + Join(p.comps) == Join(p.comps);
        assert Show(p)[0] != '/';
      } else {
        assert Show(p)[0] != '/';
      }
    } else {
      assert Lead(p.slashes)[0] == '/';
    }
  }

  /** For the root directory itself, the managed paths are the absolute ones. */
  lemma ManagedUnderSlash(path: string, root: string)
    requires NormPath(root) == root && Norm(root).comps == [] && root != DOT
    ensures Norm(root).slashes > 0
    ensures IsManaged(path, root) <==> Norm(path).slashes > 0
  {
    var w, n := Norm(root), Norm(path);
    AsPosixIsIdempotent(path);
    var _ := NormIsResolved(root);
    var _ := NormIsResolved(path);
    assert root == Lead(w.slashes) + [] == Lead(w.slashes);
    RStripLead(w.slashes);
    assert [] + ['/'] == ['/'];
    ShowIsNotEmpty(n);
    ShowStart(n);
  }

  /** A text that starts with "./" splits into "." and more. */
  lemma SplitAfterDot(j: string)
    requires DOT + ['/'] <= j
    ensures Split(j)[0] == DOT
  {
    assert j == Over(DOT, j[2..]);
    SplitOver(DOT, j[2..]);
    SplitPlain(DOT);
  }

  lemma DotIsNoPrefix(n: Path)
    requires n.slashes <= 2 && Names(n.comps)
    ensures !(DOT + ['/'] <= Show(n))
  {
    ShowStart(n);
    if n.slashes == 0 && n.comps != [] {
      var j := Join(n.comps);
      assert Lead(0) + j == j;
      SplitJoin(n.comps);
      assert Name(n.comps[0]);
      if DOT + ['/'] <= j {
        SplitAfterDot(j);
        assert false;
      }
    }
  }

  /** "." is never a textual prefix of a normal path, so only "." itself counts as managed under it. */
  lemma ManagedUnderDot(path: string)
    ensures IsManaged(path, DOT) <==> Norm(path) == Path(0, [])
  {
    AsPosixIsIdempotent(path);
    var _ := NormIsResolved(path);
    RStripOfName(DOT);
    DotIsNoPrefix(Norm(path));
    NormIsDot(path);
  }

  lemma NormIsDot(path: string)
    ensures NormPath(path) == DOT <==> Norm(path) == Path(0, [])
  {
    NormPathIsIdempotent(path);
    PureDot();
  }

  // ---- main results ----

  lemma ManagedOfSame(p: string, q: string, root: string)
    requires Norm(p) == Norm(q)
    ensures IsManaged(p, root) == IsManaged(q, root)
  {
    AsPosixIsIdempotent(p);
    AsPosixIsIdempotent(q);
  }

  lemma BeneathIsManaged(r: string, root: string)
    requires NormPath(root) == root && root != DOT && Beneath(Norm(r), Norm(root))
    ensures IsManaged(r, root)
  {
    if Norm(root).comps == [] {
      ManagedUnderSlash(r, root);
    } else {
      ManagedIsBeneath(r, root);
    }
  }

  /** Whether text is managed, in terms of components, for every normalised root. */
  lemma ManagedExactlyWhen(path: string, root: string)
    requires NormPath(root) == root
    ensures IsManaged(path, root) <==>
              if root == DOT then Norm(path) == Path(0, [])
              else if Norm(root).comps == [] then Norm(path).slashes > 0
              else Beneath(Norm(path), Norm(root))
  {
    if root == DOT {
      ManagedUnderDot(path);
    } else if Norm(root).comps == [] {
      ManagedUnderSlash(path, root);
    } else {
      ManagedIsBeneath(path, root);
    }
  }

  lemma RootIsNotEmpty(root: string, c: string)
    requires NormPath(root) == root
    ensures root != [] && JoinPath(root, c) != []
  {
    var _ := NormIsResolved(root);
    ShowIsNotEmpty(Norm(root));
  }

  /** What is below a managed path is managed. */
  lemma BelowManaged(root: string, base: string, ds: seq<string>)
    requires NormPath(root) == root && root != DOT && base != [] && Down(ds) && IsManaged(base, root)
    ensures IsManaged(JoinPath(base, Join(ds)), root)
  {
    ManagedExactlyWhen(base, root);
    JoinDownNorm(base, ds);
    ManagedExactlyWhen(JoinPath(base, Join(ds)), root);
  }

  lemma ManagedCategoryContains(root: string, path: string, category: string)
    requires NormPath(root) == root && root != DOT && IsManaged(JoinPath(root, CategoryRoot(category)), root)
    ensures IsManaged(RemotePath(root, path, category), root)
  {
    var raw, c := AsPosix(path), CategoryRoot(category);
    if IsManaged(raw, root) {
      NormPathIsIdempotent(raw);
      ManagedOfSame(NormPath(raw), raw, root);
    } else {
      RootIsNotEmpty(root, c);
      var ds := TrimGoesDown(if Slashes(raw) > 0 then RelativePart(raw, c) else raw, c);
      BelowManaged(root, JoinPath(root, c), ds);
    }
  }

  /** A one-letter name that is not the last component of the root. */
  function Stranger(root: string): (x: string)
    ensures Name(x) && x[0] != '.' && |x| == 1
  {
    var cs := Norm(root).comps;
    if cs != [] && cs[|cs| - 1] == ['a'] then ['b'] else ['a']
  }

  lemma PrefixesAreLong(c: string, x: string, i: nat)
    requires |x| == 1 && x[0] != '/' && i < |Prefixes(c)|
    ensures !(Prefixes(c)[i] <= x)
  {
  }

  lemma {:induction false} DropNone(x: string, prefixes: seq<string>)
    requires forall i :: 0 <= i < |prefixes| ==> !(prefixes[i] <= x)
    ensures DropFirst(x, prefixes) == x
  {
    if prefixes != [] {
      DropNone(x, prefixes[1..]);
    }
  }

  lemma StrangerIsUnmanaged(root: string)
    requires NormPath(root) == root
    ensures var x := Stranger(root); Ordinary(x) && Norm(x) == Path(0, [x]) && !IsManaged(x, root)
  {
    var x := Stranger(root);
    SingleName(x);
    ManagedExactlyWhen(x, root);
  }

  lemma StrangerLands(root: string, category: string)
    requires NormPath(root) == root
    ensures var x := Stranger(root); RemotePath(root, x, category) == JoinPath(JoinPath(root, CategoryRoot(category)), x)
  {
    var x, c := Stranger(root), CategoryRoot(category);
    StrangerIsUnmanaged(root);
    OrdinaryLands(root, x, category);
    forall i | 0 <= i < |Prefixes(c)| ensures !(Prefixes(c)[i] <= x) {
      PrefixesAreLong(c, x, i);
    }
    DropNone(x, Prefixes(c));
  }

  lemma StrangerBelow(root: string, base: string)
    requires NormPath(root) == root && base != [] && (root == DOT || !IsManaged(base, root))
    ensures !IsManaged(JoinPath(base, Stranger(root)), root)
  {
    var x := Stranger(root);
    assert Join([x]) == x;
    JoinDownNorm(base, [x]);
    ManagedExactlyWhen(base, root);
    ManagedExactlyWhen(JoinPath(base, x), root);
    BeneathWithoutLast(Norm(base), x, Norm(root));
  }

  lemma BeneathWithoutLast(p: Path, x: string, root: Path)
    requires root.comps == [] || root.comps[|root.comps| - 1] != x
    ensures Beneath(Path(p.slashes, p.comps + [x]), root) ==> Beneath(p, root)
  {
    assert (p.comps + [x])[..|p.comps|] == p.comps;
    assert (p.comps + [x])[|p.comps|] == x;
  }

  /**
    For any normalised root and any category whatever, registered or not: every path is mapped into
    the workspace if and only if the root is not "." and the category's own directory lies in it.
   */
  lemma ContainedExactlyWhen(root: string, category: string)
    requires NormPath(root) == root
    ensures (forall path :: IsManaged(RemotePath(root, path, category), root))
            <==> root != DOT && IsManaged(JoinPath(root, CategoryRoot(category)), root)
  {
    if root != DOT && IsManaged(JoinPath(root, CategoryRoot(category)), root) {
      forall path ensures IsManaged(RemotePath(root, path, category), root) {
        ManagedCategoryContains(root, path, category);
      }
    } else {
      RootIsNotEmpty(root, CategoryRoot(category));
      StrangerLands(root, category);
      StrangerBelow(root, JoinPath(root, CategoryRoot(category)));
    }
  }

  /** A category root that is relative and never climbs, such as every known one, lies in the workspace. */
  lemma InsideIsManaged(root: string, c: string)
    requires NormPath(root) == root && root != DOT && Inside(c)
    ensures IsManaged(JoinPath(root, c), root)
  {
    RootIsNotEmpty(root, c);
    NormPathIsIdempotent(root);
    var w := Norm(root);
    var ups := NormIsResolved(root);
    JoinPathIsAppend(root, c);
    InsideGoesDown(c);
    ResolveAppend(w.slashes > 0, [], w.comps, Pure(c).comps);
    ResolvedIsFixed(w.slashes > 0, w.comps, ups);
    ResolveDown(w.slashes > 0, w.comps, Pure(c).comps);
    BeneathIsManaged(JoinPath(root, c), root);
  }

  /** Every path, whatever it is, is then mapped into the workspace. */
  lemma StaysInside(root: string, path: string, category: string)
    requires NormPath(root) == root && root != DOT && Inside(CategoryRoot(category))
    ensures IsManaged(RemotePath(root, path, category), root)
  {
    InsideIsManaged(root, CategoryRoot(category));
    ManagedCategoryContains(root, path, category);
  }

  /** Mapping a mapped path again, under any category, only normalises it; a third time changes nothing. */
  lemma MappingAgainNormalises(root: string, path: string, category: string, again: string)
    requires NormPath(root) == root && root != DOT && IsManaged(JoinPath(root, CategoryRoot(category)), root)
    ensures var r := RemotePath(root, path, category);
            RemotePath(root, r, again) == NormPath(r) && RemotePath(root, NormPath(r), again) == NormPath(r)
  {
    var r := RemotePath(root, path, category);
    ManagedCategoryContains(root, path, category);
    AsPosixIsIdempotent(r);
    ManagedOfSame(AsPosix(r), r, root);
    NormPathIsIdempotent(r);
    AsPosixIsIdempotent(NormPath(r));
    ManagedOfSame(AsPosix(NormPath(r)), r, root);
  }

  predicate Known(category: string) {
    category in [WORK, OUTPUT, LOGS, GENERATED, EXTERNAL, SFTP]
  }

  lemma PlainRoot(c: string)
    requires Name(c) && c != UP
    ensures Inside(c) && Pure(c).comps == [c]
  {
    SplitPlain(c);
    assert Clean([c]) == [c] + Clean([]);
  }

  lemma NestedRoot(a: string, b: string)
    requires Name(a) && a != UP && Name(b) && b != UP
    ensures Inside(Over(a, b)) && Pure(Over(a, b)).comps == [a, b]
  {
    PlainRoot(a);
    PlainRoot(b);
    SplitOver(a, b);
    CleanAppend(Split(a), Split(b));
  }

  /** Every known category has a root of plain components below the workspace. */
  lemma KnownIsInside(category: string)
    requires Known(category)
    ensures Inside(CategoryRoot(category)) && Pure(CategoryRoot(category)).comps != []
  {
    if category == LOGS {
      NestedRoot(OUTPUT, LOGS);
    } else if category == GENERATED {
      NestedRoot(OUTPUT, GENERATED);
    } else {
      PlainRoot(CategoryRoot(category));
    }
  }

  /** For the known categories and a normalised root, the one failing root is ".". */
  lemma InsideExactlyWhen(root: string, path: string, category: string)
    requires NormPath(root) == root && Known(category)
    ensures IsManaged(RemotePath(root, path, category), root) <==> root != DOT || NormPath(path) == DOT
  {
    KnownIsInside(category);
    if root != DOT {
      StaysInside(root, path, category);
    } else {
      var raw := AsPosix(path);
      var r := RemotePath(root, path, category);
      AsPosixIsIdempotent(path);
      ManagedUnderDot(r);
      ManagedUnderDot(raw);
      NormIsDot(path);
      if IsManaged(raw, root) {
        NormPathIsIdempotent(raw);
      } else {
        var ds := LandsBelow(root, path, category);
      }
    }
  }

  // ---- where ordinary paths go ----

  /** A normal relative path that does not start with a dot. */
  predicate Ordinary(x: string) {
    NormPath(x) == x && x != [] && x[0] != '/' && x[0] != '.'
  }

  lemma OrdinaryIsFixed(x: string)
    requires Ordinary(x)
    ensures AsPosix(x) == x && LStrip(NormPath(x)) == x && x != DOT && Slashes(x) == 0
  {
    NormPathIsIdempotent(x);
  }

  /** It keeps its whole text below the category root, less at most one category prefix. */
  lemma OrdinaryLands(root: string, x: string, category: string)
    requires Ordinary(x) && !IsManaged(x, root)
    ensures var c := CategoryRoot(category);
            RemotePath(root, x, category) == JoinPath(JoinPath(root, c), DropFirst(x, Prefixes(c)))
  {
    OrdinaryIsFixed(x);
  }

  /** Its components go down, and it is their text. */
  lemma OrdinaryGoesDown(x: string)
    requires Ordinary(x)
    ensures Norm(x).comps != [] && Down(Norm(x).comps) && x == Join(Norm(x).comps)
  {
    OrdinaryIsFixed(x);
    NormPathIsIdempotent(x);
    var ups := NormIsResolved(x);
    var cs := Norm(x).comps;
    assert Lead(0) + Join(cs) == Join(cs);
    assert cs[0][0] == x[0];
  }

  lemma DownIsNormal(cs: seq<string>)
    requires cs != [] && Down(cs)
    ensures NormPath(Join(cs)) == Join(cs)
  {
    PureOfDown(cs);
    ResolveDown(false, [], cs);
    assert [] + cs == cs;
    assert Lead(0) + Join(cs) == Join(cs);
  }

  lemma OutputOverIsOrdinary(x: string)
    requires Ordinary(x)
    ensures Ordinary(Over(OUTPUT, x))
  {
    OrdinaryGoesDown(x);
    var ds := [OUTPUT] + Norm(x).comps;
    assert ds[1..] == Norm(x).comps;
    assert Down(ds);
    assert Join(ds) == Over(OUTPUT, x);
    DownIsNormal(ds);
  }

  lemma DropOutput(x: string)
    ensures DropFirst(Over(OUTPUT, x), Prefixes(OUTPUT)) == x
  {
    assert !(Over(OUTPUT, []) <= OUTPUT);
    assert Over(OUTPUT, x)[..|OUTPUT| + 1] == Over(OUTPUT, []);
  }

  /** What a local run put in output/x is found remotely at output/x, not at output/output/x. */
  lemma OutputPrefixIsNotRepeated(root: string, x: string)
    requires Ordinary(x) && !IsManaged(Over(OUTPUT, x), root)
    ensures RemotePath(root, Over(OUTPUT, x), WORK) == JoinPath(JoinPath(root, OUTPUT), x)
  {
    OutputOverIsOrdinary(x);
    OrdinaryLands(root, Over(OUTPUT, x), WORK);
    DropOutput(x);
  }

  // ---- a category nobody registered ----

  lemma SingleName(c: string)
    requires Name(c) && c[0] != '.'
    ensures Ordinary(c) && Norm(c) == Path(0, [c])
  {
    PlainRoot(c);
    ResolveDown(false, [], [c]);
    assert [] + [c] == [c];
    assert Join([c]) == c;
    assert Lead(0) + c == c;
  }

  lemma SingleRoot(c: string)
    requires Name(c) && c != UP
    ensures var root := ['/'] + c; NormPath(root) == root && Norm(root) == Path(1, [c])
  {
    PlainRoot(c);
    PureLead(1);
    assert Lead(1) == ['/'];
    PureAfterSlash(Lead(1), c);
    ResolveDown(true, [], [c]);
    assert [] + [c] == [c];
    assert Join([c]) == c;
  }

  lemma ClimbNorm(c: string)
    requires Name(c) && c != UP
    ensures Norm(Over(['/'] + c, UP)) == Path(1, [])
  {
    var root := ['/'] + c;
    SingleRoot(c);
    NormPathIsIdempotent(root);
    SplitPlain(UP);
    assert Clean([UP]) == [UP] + Clean([]);
    PureOver(root, UP);
    var cs := [c] + [UP];
    assert cs[1..] == [UP] && [] + [c] == [c];
    assert [UP][1..] == [] && [c][..0] == [];
    assert Resolve(true, [], cs) == Resolve(true, [c], [UP]) == Resolve(true, [], []) == [];
  }

  /** A path already in the workspace is only normalised, whatever the category. */
  lemma ManagedIsNormalised(root: string, path: string, category: string)
    requires IsManaged(path, root)
    ensures RemotePath(root, path, category) == NormPath(path)
  {
    AsPosixIsIdempotent(path);
  }

  lemma RootedCategory(c: string)
    requires c != [] && c[0] == '/'
    ensures CategoryRoot(c) == c && Prefixes(c) == []
  {
    assert Over(OUTPUT, [])[0] == 'o';
  }

  /** A category that is an absolute path is used as it is, so the workspace's root makes no difference. */
  lemma RootedCategoryIgnoresRoot(root: string, x: string, c: string)
    requires Ordinary(x) && !IsManaged(x, root) && c != [] && c[0] == '/' && c[|c| - 1] != '/'
    ensures RemotePath(root, x, c) == c + "/" + x
  {
    RootedCategory(c);
    OrdinaryLands(root, x, c);
    assert JoinPath(root, c) == c;
    assert JoinPath(c, x) == Over(c, x) == c + "/" + x;
  }

  /** An unregistered category is used as it is, so ".." leads out of the workspace. */
  lemma ParentCategoryEscapes(c: string)
    requires Name(c) && c != UP
    ensures var root := ['/'] + c;
            && !IsManaged(JoinPath(root, UP), root)
            && RemotePath(root, Stranger(root), UP) == JoinPath(Over(root, UP), Stranger(root))
            && !IsManaged(RemotePath(root, Stranger(root), UP), root)
  {
    var root := ['/'] + c;
    SingleRoot(c);
    ClimbNorm(c);
    ManagedIsBeneath(Over(root, UP), root);
    StrangerLands(root, UP);
    StrangerBelow(root, Over(root, UP));
  }

  /** A detour such as "a/.." is not plain, yet it stays in the workspace. */
  lemma DetourStaysInside(root: string, path: string)
    requires NormPath(root) == root && root != DOT
    ensures IsManaged(RemotePath(root, path, Over(['a'], UP)), root)
  {
    var c := Over(['a'], UP);
    assert CategoryRoot(c) == c;
    RootIsNotEmpty(root, c);
    NormPathIsIdempotent(root);
    var w := Norm(root);
    var ups := NormIsResolved(root);
    JoinPathIsAppend(root, c);
    DetourParts();
    assert w.comps + [['a'], UP] == w.comps + [['a']] + [UP];
    ResolveAppend(w.slashes > 0, [], w.comps + [['a']], [UP]);
    ResolveAppend(w.slashes > 0, [], w.comps, [['a']]);
    ResolvedIsFixed(w.slashes > 0, w.comps, ups);
    ResolveDown(w.slashes > 0, w.comps, [['a']]);
    UpExactly(w.slashes > 0, w.comps, ['a']);
    BeneathIsManaged(JoinPath(root, c), root);
    ManagedCategoryContains(root, path, c);
  }

  lemma DetourParts()
    ensures Pure(Over(['a'], UP)) == Path(0, [['a'], UP])
  {
    SplitPlain(['a']);
    SplitPlain(UP);
    SplitOver(['a'], UP);
    assert Clean([UP]) == [UP] + Clean([]);
    CleanAppend([['a']], [UP]);
  }
}
