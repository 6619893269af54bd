/**
  Where absolute local paths go: for each category, the part of the path that belongs to it keeps its
  place below the category's root in the remote workspace.
 */
module AbsolutePaths {
  import opened Base
  import opened PosixPath
  import opened WorkspaceLayout

  // ---- the shape of a normalised absolute path ----

  lemma {:induction false} ReplacedAt(s: string)
    ensures |Replaced(s)| == |s| && forall i :: 0 <= i < |s| ==> Replaced(s)[i] == if s[i] == ':' then '_' else s[i]
  {
    if s != [] {
      ReplacedAt(s[1..]);
    }
  }

  lemma ReplacedAppend(a: string, b: string)
    ensures Replaced(a + b) == Replaced(a) + Replaced(b)
  {
    ReplacedAt(a);
    ReplacedAt(b);
    ReplacedAt(a + b);
  }

  lemma ReplacedName(c: string)
    requires Name(c) && c != UP
    ensures Name(Replaced(c)) && Replaced(c) != UP
  {
    ReplacedAt(c);
    assert |c| == 1 ==> c == [c[0]];
    assert |c| == 2 ==> c == [c[0], c[1]];
  }

  /** Replacing colons keeps the shape of a path. */
  lemma {:induction false} ReplacedJoin(cs: seq<string>) returns (ms: seq<string>)
    requires Down(cs)
    ensures Replaced(Join(cs)) == Join(ms) && Down(ms) && |ms| == |cs|
  {
    if cs == [] {
      return [];
    }
    ReplacedName(cs[0]);
    var first := Replaced(cs[0]);
    if |cs| == 1 {
      return [first];
    }
    var rest := ReplacedJoin(cs[1..]);
    ms := [first] + rest;
    assert ms[1..] == rest;
    ReplacedAppend(cs[0], ['/'] + Join(cs[1..]));
    ReplacedAppend(['/'], Join(cs[1..]));
    assert Replaced(['/']) == ['/'];
  }

  function Blanks(n: nat): seq<string> {
    if n == 0 then [] else [[]] + Blanks(n - 1)
  }

  lemma {:induction false} BlanksAt(n: nat)
    ensures |Blanks(n)| == n && forall i :: 0 <= i < n ==> Blanks(n)[i] == []
  {
    if n > 0 {
      BlanksAt(n - 1);
    }
  }

  lemma SplitSlash(t: string)
    ensures Split(['/'] + t) == [[]] + Split(t)
  {
    assert (['/'] + t)[1..] == t;
  }

  lemma ConsRegroups<T>(x: T, a: seq<T>, b: seq<T>)
    ensures [x] + a + b == [x] + (a + b)
  {
  }

  lemma {:induction false} SplitLead(n: nat, t: string)
    ensures Split(Lead(n) + t) == Blanks(n) + Split(t)
  {
    if n == 0 {
      assert [] + t == t;
      assert [] + Split(t) == Split(t);
    } else {
      var lead, blanks, parts := Lead(n - 1), Blanks(n - 1), Split(t);
      SplitLead(n - 1, t);
      SplitSlash(lead + t);
      ConsRegroups('/', lead, t);
      ConsRegroups([], blanks, parts);
    }
  }

  lemma {:induction false} AfterFirstSplits(s: string, marker: string) returns (before: string)
    requires AfterFirst(s, marker).Some?
    ensures s == before + (marker + AfterFirst(s, marker).value)
  {
    if marker <= s {
      before := [];
    } else {
      var b := AfterFirstSplits(s[1..], marker);
      before := [s[0]] + b;
      ConsRegroups(s[0], b, marker + AfterFirst(s, marker).value);
      assert s == [s[0]] + s[1..];
    }
  }

  /** What follows a component in a rooted path is a path that only goes down. */
  lemma SuffixGoesDown(n: nat, ms: seq<string>, before: string, c: string, x: string) returns (ds: seq<string>)
    requires ms != [] && Down(ms) && Name(c) && Lead(n) + Join(ms) == Over(Over(before, c), x)
    ensures Down(ds) && ds != [] && x == Join(ds)
  {
    DownIsNames(ms);
    SplitJoin(ms);
    SplitLead(n, Join(ms));
    SplitPlain(c);
    SplitOver(before, c);
    SplitOver(Over(before, c), x);
    JoinSplit(x);
    ds := Split(x);
    AfterBlanks(n, ms, Split(before), c, ds);
  }

  lemma AfterBlanks(n: nat, ms: seq<string>, pre: seq<string>, c: string, xs: seq<string>)
    requires Blanks(n) + ms == pre + [c] + xs && c != [] && Down(ms)
    ensures Down(xs)
  {
    BlanksAt(n);
    var j := |pre|;
    assert (Blanks(n) + ms)[j] == c;
    assert j >= n;
    forall i | 0 <= i < |xs| ensures xs[i] == ms[j + 1 + i - n] {
      assert (pre + [c] + xs)[j + 1 + i] == xs[i];
    }
  }

  /** h/c/ as a marker: a directory c after the text h. */
  lemma MarkerRegroups(before: string, h: string, c: string, x: string)
    ensures before + (Over(h, Over(c, [])) + x) == Over(Over(before + h, c), x)
  {
  }

  /** The text a marker is looked for in: the normal form, colons replaced. */
  function Normal(path: string): string {
    Replaced(NormPath(path))
  }

  /** The normal form of an absolute path: one or two slashes and components that only go down. */
  lemma NormalIsRooted(path: string) returns (n: nat, ms: seq<string>)
    requires Slashes(path) > 0
    ensures 1 <= n <= 2 && Down(ms) && Normal(path) == Lead(n) + Join(ms)
  {
    var p := Norm(path);
    var ups := NormIsResolved(path);
    assert Down(p.comps);
    n := p.slashes;
    ms := ReplacedJoin(p.comps);
    ReplacedAppend(Lead(n), Join(p.comps));
    ReplacedAt(Lead(n));
    LeadIsSlashes(n);
    assert Replaced(Lead(n)) == Lead(n);
  }

  /** What follows a marker only goes down. */
  lemma AfterMarkerGoesDown(path: string, h: string, c: string, x: string) returns (ds: seq<string>)
    requires Slashes(path) > 0 && Name(c) && |c| >= 2 && AfterFirst(Normal(path), Over(h, Over(c, []))) == Some(x)
    ensures Down(ds) && ds != [] && x == Join(ds)
  {
    var n, ms := NormalIsRooted(path);
    var marker := Over(h, Over(c, []));
    var before := AfterFirstSplits(Normal(path), marker);
    MarkerRegroups(before, h, c, x);
    LeadIsSlashes(n);
    assert |Normal(path)| >= |marker| > 2;
    assert ms != [];
    ds := SuffixGoesDown(n, ms, before + h, c, x);
  }

  lemma {:induction false} LeadIsSlashes(n: nat)
    ensures |Lead(n)| == n && forall i :: 0 <= i < n ==> Lead(n)[i] == '/'
  {
    if n > 0 {
      LeadIsSlashes(n - 1);
    }
  }

  // ---- the first occurrence of a marker ----

  predicate OccursAt(s: string, marker: string, i: nat) {
    i + |marker| <= |s| && s[i..i + |marker|] == marker
  }

  /** AfterFirst cuts at the first occurrence. */
  lemma {:induction false} AfterFirstAt(s: string, marker: string, i: nat)
    requires marker != [] && OccursAt(s, marker, i) && forall j: nat :: j < i ==> !OccursAt(s, marker, j)
    ensures AfterFirst(s, marker) == Some(s[i + |marker|..])
    decreases i
  {
    if i > 0 {
      var t := s[1..];
      assert !OccursAt(s, marker, 0);
      assert s[..|marker|] == s[0..0 + |marker|];
      forall j: nat | j < i - 1 ensures !OccursAt(t, marker, j) {
        assert !OccursAt(s, marker, j + 1);
        assert j + |marker| <= |t| ==> t[j..j + |marker|] == s[j + 1..j + 1 + |marker|];
      }
      assert t[i - 1..i - 1 + |marker|] == s[i..i + |marker|];
      AfterFirstAt(t, marker, i - 1);
      assert t[i - 1 + |marker|..] == s[i + |marker|..];
    } else {
      assert marker <= s;
    }
  }

  /** And finds nothing when there is none. */
  lemma {:induction false} AfterFirstNone(s: string, marker: string)
    requires marker != [] && forall j: nat :: !OccursAt(s, marker, j)
    ensures AfterFirst(s, marker) == None
  {
    if |s| >= |marker| {
      var t := s[1..];
      assert !OccursAt(s, marker, 0);
      assert s[..|marker|] == s[0..0 + |marker|];
      forall j: nat ensures !OccursAt(t, marker, j) {
        assert !OccursAt(s, marker, j + 1);
        assert j + |marker| <= |t| ==> t[j..j + |marker|] == s[j + 1..j + 1 + |marker|];
      }
      AfterFirstNone(t, marker);
    }
  }

  // ---- what is cut off a path that only goes down ----

  lemma DownIsNormal(ds: seq<string>)
    requires Down(ds) && ds != []
    ensures NormPath(Join(ds)) == Join(ds)
  {
    PureOfDown(ds);
    ResolveDown(false, [], ds);
    assert [] + ds == ds;
    assert Lead(0) + Join(ds) == Join(ds);
  }

  lemma LStripIsNotDot(s: string)
    ensures LStrip(s) != DOT
    decreases |s|
  {
  }

  lemma TrimDown(ds: seq<string>, c: string)
    requires Down(ds) && ds != []
    ensures TrimCategory(Join(ds), c) == DropFirst(LStrip(Join(ds)), Prefixes(c))
  {
    DownIsNormal(ds);
    LStripIsNotDot(Join(ds));
  }

  lemma TrimNothing(c: string)
    ensures TrimCategory([], c) == DropFirst(LStrip([]), Prefixes(c))
  {
    assert Split([]) == [[]] && Clean([[]]) == [];
    assert NormPath([]) == DOT;
    assert DOT[1..] == [];
  }

  lemma OverIsDown(c: string, ds: seq<string>)
    requires Name(c) && c != UP && Down(ds) && ds != []
    ensures Down([c] + ds) && Join([c] + ds) == Over(c, Join(ds))
  {
    assert ([c] + ds)[1..] == ds;
  }

  lemma SameRelativePart(path: string, c: string)
    ensures RelativePart(AsPosix(path), c) == RelativePart(path, c)
  {
    AsPosixIsIdempotent(path);
    assert NormPath(AsPosix(path)) == NormPath(path);
  }

  /** An absolute path outside the workspace goes through RelativePart. */
  lemma AbsoluteLands(root: string, path: string, category: string)
    requires Slashes(path) > 0 && !IsManaged(path, root)
    ensures var c := CategoryRoot(category);
            RemotePath(root, path, category) == JoinPath(JoinPath(root, c), TrimCategory(RelativePart(path, c), c))
  {
    var raw := AsPosix(path);
    AsPosixIsIdempotent(path);
    assert Slashes(raw) == Pure(raw).slashes == Slashes(path);
    ManagedOfSame(raw, path, root);
    SameRelativePart(path, CategoryRoot(category));
  }

  // ---- output ----

  /** Everything after the first /output/ is found below the remote output directory. */
  lemma OutputKeepsItsPlace(root: string, path: string, x: string)
    requires Slashes(path) > 0 && !IsManaged(path, root) && AfterFirst(Normal(path), "/output/") == Some(x)
    ensures RemotePath(root, path, "work") == JoinPath(JoinPath(root, "output"), x)
    ensures RemotePath(root, path, "output") == JoinPath(JoinPath(root, "output"), x)
  {
    assert Marker(OUTPUT) == "/output/" == Over([], Over(OUTPUT, []));
    var ds := AfterMarkerGoesDown(path, [], OUTPUT, x);
    OutputNotUnderOutput();
    assert RelativePart(path, OUTPUT) == Over(OUTPUT, x);
    OverIsDown(OUTPUT, ds);
    TrimDown([OUTPUT] + ds, OUTPUT);
    assert LStrip(Over(OUTPUT, x)) == Over(OUTPUT, x);
    DropOutput(x);
    AbsoluteLands(root, path, "work");
    AbsoluteLands(root, path, "output");
  }

  lemma OutputNotUnderOutput()
    ensures UnderOutput(OUTPUT).None? && OUTPUT != EXTERNAL
  {
  }

  // ---- logs and generated ----

  lemma NestedCategory(cat: string)
    requires cat == LOGS || cat == GENERATED
    ensures var c := Over(OUTPUT, cat);
            && CategoryRoot(cat) == c && UnderOutput(c) == Some(cat) && c != OUTPUT && c != EXTERNAL
            && Prefixes(c) == [Over(Over(OUTPUT, cat), []), Over(cat, [])]
            && Name(cat) && cat != UP && |cat| >= 2 && cat[0] != '.' && cat[0] != '/' && cat[0] != 'o'
  {
    var c := Over(OUTPUT, cat);
    assert c[|OUTPUT| + 1..] == cat;
    assert Over(OUTPUT, []) <= c by { assert c[..|OUTPUT| + 1] == Over(OUTPUT, []); }
    assert |c| > |OUTPUT|;
    assert c[0] == 'o' && EXTERNAL[0] == 'e';
  }

  lemma DropNested(cat: string, x: string)
    requires cat == LOGS || cat == GENERATED
    ensures DropFirst(LStrip(Over(cat, x)), Prefixes(Over(OUTPUT, cat))) == x
  {
    NestedCategory(cat);
    var s, long, short := Over(cat, x), Over(Over(OUTPUT, cat), []), Over(cat, []);
    assert s[0] == cat[0] && LStrip(s) == s;
    assert long[0] == 'o' && !(long <= s);
    assert s[..|short|] == short && s[|short|..] == x;
    assert [long, short][1..] == [short];
  }

  /** Everything after the first /output/logs/ or /output/generated/ keeps its place below that directory. */
  lemma NestedKeepsItsPlace(root: string, path: string, cat: string, x: string)
    requires cat == "logs" || cat == "generated"
    requires Slashes(path) > 0 && !IsManaged(path, root) && AfterFirst(Normal(path), "/output/" + cat + "/") == Some(x)
    ensures RemotePath(root, path, cat) == JoinPath(JoinPath(root, "output/" + cat), x)
  {
    var c := Over(OUTPUT, cat);
    NestedCategory(cat);
    NestedMarker(cat);
    var ds := AfterMarkerGoesDown(path, "/output", cat, x);
    assert RelativePart(path, c) == Over(cat, x);
    OverIsDown(cat, ds);
    TrimDown([cat] + ds, c);
    DropNested(cat, x);
    AbsoluteLands(root, path, cat);
    assert c == "output/" + cat;
  }

  lemma NestedMarker(cat: string)
    ensures "/output/" + cat + "/" == Marker(Over(OUTPUT, cat)) == Over("/output", Over(cat, []))
  {
  }

  // ---- external ----

  /** The markers of external sources, tried in this order. */
  function AfterExternal(s: string): Option<string> {
    var a, b := AfterFirst(s, "/output/test-binaries/"), AfterFirst(s, "/output/external/");
    if a.Some? then a else if b.Some? then b else AfterFirst(s, "/external/")
  }

  lemma FirstOfThree(s: string, a: string, b: string, c: string)
    ensures AfterFirstOf(s, [a, b, c]) ==
            if AfterFirst(s, a).Some? then AfterFirst(s, a)
            else if AfterFirst(s, b).Some? then AfterFirst(s, b)
            else AfterFirst(s, c)
  {
    assert [a, b, c][1..] == [b, c] && [b, c][1..] == [c] && [c][1..] == [];
    assert AfterFirstOf(s, []) == None;
    assert AfterFirstOf(s, [c]) == AfterFirst(s, c);
    assert AfterFirstOf(s, [b, c]) == if AfterFirst(s, b).Some? then AfterFirst(s, b) else AfterFirstOf(s, [c]);
  }

  lemma BinariesMarker()
    ensures "/output/test-binaries/" == Marker(Over(OUTPUT, BINARIES)) == Over("/output", Over(BINARIES, []))
  {
  }

  lemma OutputExternalMarker()
    ensures "/output/external/" == Marker(Over(OUTPUT, EXTERNAL)) == Over("/output", Over(EXTERNAL, []))
  {
  }

  lemma ExternalMarker()
    ensures "/external/" == Marker(EXTERNAL) == Over([], Over(EXTERNAL, []))
  {
  }

  lemma ExternalMarkers(s: string)
    ensures AfterFirstOf(s, [Marker(Over(OUTPUT, BINARIES)), Marker(Over(OUTPUT, EXTERNAL)), Marker(EXTERNAL)]) == AfterExternal(s)
  {
    BinariesMarker();
    OutputExternalMarker();
    ExternalMarker();
    FirstOfThree(s, Marker(Over(OUTPUT, BINARIES)), Marker(Over(OUTPUT, EXTERNAL)), Marker(EXTERNAL));
  }

  lemma AfterExternalGoesDown(path: string, x: string) returns (ds: seq<string>)
    requires Slashes(path) > 0 && AfterExternal(Normal(path)) == Some(x)
    ensures Down(ds) && ds != [] && x == Join(ds)
  {
    var s := Normal(path);
    if AfterFirst(s, "/output/test-binaries/").Some? {
      BinariesMarker();
      ds := AfterMarkerGoesDown(path, "/output", BINARIES, x);
    } else if AfterFirst(s, "/output/external/").Some? {
      OutputExternalMarker();
      ds := AfterMarkerGoesDown(path, "/output", EXTERNAL, x);
    } else {
      ExternalMarker();
      ds := AfterMarkerGoesDown(path, [], EXTERNAL, x);
    }
  }

  lemma ExternalPrefixes()
    ensures CategoryRoot(EXTERNAL) == EXTERNAL
    ensures Prefixes(EXTERNAL) == ["output/test-binaries/", "output/external/", "external/"]
  {
    assert Over(Over(OUTPUT, BINARIES), []) == "output/test-binaries/";
    assert Over(Over(OUTPUT, EXTERNAL), []) == "output/external/";
    assert Over(EXTERNAL, []) == "external/";
    assert EXTERNAL[0] == 'e' && Over(OUTPUT, [])[0] == 'o';
  }

  /**
    What follows the marker of an external source goes below the remote external directory, less
    leading dots and one more category prefix.
   */
  lemma ExternalKeepsItsPlace(root: string, path: string, x: string)
    requires Slashes(path) > 0 && !IsManaged(path, root) && AfterExternal(Normal(path)) == Some(x)
    ensures RemotePath(root, path, "external") ==
            JoinPath(JoinPath(root, "external"), DropFirst(LStrip(x), ["output/test-binaries/", "output/external/", "external/"]))
  {
    var ds := AfterExternalGoesDown(path, x);
    ExternalMarkers(Normal(path));
    ExternalPrefixes();
    assert RelativePart(path, EXTERNAL) == x;
    TrimDown(ds, EXTERNAL);
    AbsoluteLands(root, path, "external");
  }

  lemma KeptWhole(x: string, prefixes: seq<string>)
    requires x != [] && x[0] != '.' && x[0] != '/' && forall i :: 0 <= i < |prefixes| ==> !(prefixes[i] <= x)
    ensures DropFirst(LStrip(x), prefixes) == x
  {
    DropNone(x, prefixes);
  }

  lemma ExternalIsWhole(x: string)
    requires x != [] && x[0] != '.' && x[0] != '/'
    requires !("output/test-binaries/" <= x) && !("output/external/" <= x) && !("external/" <= x)
    ensures DropFirst(LStrip(x), ["output/test-binaries/", "output/external/", "external/"]) == x
  {
    KeptWhole(x, ["output/test-binaries/", "output/external/", "external/"]);
  }

  /** An ordinary remainder with no such prefix stands there as it is. */
  lemma ExternalRemainderIsKept(root: string, path: string, x: string)
    requires Slashes(path) > 0 && !IsManaged(path, root) && AfterExternal(Normal(path)) == Some(x)
    requires x != [] && x[0] != '.' && !("output/test-binaries/" <= x) && !("output/external/" <= x) && !("external/" <= x)
    ensures RemotePath(root, path, "external") == JoinPath(JoinPath(root, "external"), x)
  {
    var ds := AfterExternalGoesDown(path, x);
    PureOfDown(ds);
    ExternalIsWhole(x);
    ExternalKeepsItsPlace(root, path, x);
  }

  // ---- no marker ----

  /** The markers of a category, as text. */
  ghost predicate Unmarked(s: string, category: string) {
    && (category == "external" ==> AfterExternal(s).None?)
    && (category == "work" || category == "output" ==> AfterFirst(s, "/output/").None?)
    && (category == "logs" || category == "generated" ==> AfterFirst(s, "/output/" + category + "/").None?)
  }

  lemma UnmarkedNested(path: string, cat: string)
    requires (cat == LOGS || cat == GENERATED) && AfterFirst(Normal(path), "/output/" + cat + "/").None?
    ensures RelativePart(path, Over(OUTPUT, cat)) == LStripSlash(Normal(path))
  {
    NestedCategory(cat);
    NestedMarker(cat);
  }

  lemma UnmarkedExternal(path: string)
    requires AfterExternal(Normal(path)).None?
    ensures RelativePart(path, EXTERNAL) == LStripSlash(Normal(path))
  {
    ExternalMarkers(Normal(path));
    assert EXTERNAL[0] == 'e' && Over(OUTPUT, [])[0] == 'o';
  }

  lemma UnmarkedOutput(path: string)
    requires AfterFirst(Normal(path), "/output/").None?
    ensures RelativePart(path, OUTPUT) == LStripSlash(Normal(path))
  {
    assert Marker(OUTPUT) == "/output/";
    OutputNotUnderOutput();
  }

  lemma UnmarkedSftp(path: string)
    ensures RelativePart(path, SFTP) == LStripSlash(Normal(path))
  {
    assert SFTP[0] == 's' && EXTERNAL[0] == 'e' && OUTPUT[0] == 'o' && Over(OUTPUT, [])[0] == 'o';
  }

  lemma UnmarkedRelativePart(path: string, category: string)
    requires Known(category) && Unmarked(Normal(path), category)
    ensures RelativePart(path, CategoryRoot(category)) == LStripSlash(Normal(path))
  {
    if category == LOGS || category == GENERATED {
      NestedCategory(category);
      UnmarkedNested(path, category);
    } else if category == EXTERNAL {
      ExternalPrefixes();
      UnmarkedExternal(path);
    } else if category == SFTP {
      UnmarkedSftp(path);
    } else {
      UnmarkedOutput(path);
    }
  }

  lemma {:induction false} LStripSlashLead(n: nat, t: string)
    requires t == [] || t[0] != '/'
    ensures LStripSlash(Lead(n) + t) == t
  {
    if n == 0 {
      assert [] + t == t;
    } else {
      LStripSlashLead(n - 1, t);
      ConsRegroups('/', Lead(n - 1), t);
      assert (['/'] + (Lead(n - 1) + t))[1..] == Lead(n - 1) + t;
    }
  }

  /**
    A path without the category's marker goes below the category's root with its whole normal text,
    less leading slashes and dots and one category prefix.
   */
  lemma UnmarkedKeepsItsText(root: string, path: string, category: string)
    requires Known(category) && Slashes(path) > 0 && !IsManaged(path, root) && Unmarked(Normal(path), category)
    ensures var c := CategoryRoot(category);
            RemotePath(root, path, category) == JoinPath(JoinPath(root, c), DropFirst(LStrip(LStripSlash(Normal(path))), Prefixes(c)))
  {
    var c := CategoryRoot(category);
    var n, ms := NormalIsRooted(path);
    PureOfDown(ms);
    LStripSlashLead(n, Join(ms));
    UnmarkedRelativePart(path, category);
    if ms == [] {
      TrimNothing(c);
    } else {
      TrimDown(ms, c);
    }
    AbsoluteLands(root, path, category);
  }

  // ---- the tables, as text ----

  /** The category roots. */
  lemma CategoryRoots(category: string)
    ensures CategoryRoot("work") == "output" && CategoryRoot("output") == "output"
    ensures CategoryRoot("logs") == "output/logs" && CategoryRoot("generated") == "output/generated"
    ensures category !in {"work", "output", "logs", "generated"} ==> CategoryRoot(category) == category
  {
    assert Over(OUTPUT, LOGS) == "output/logs" && Over(OUTPUT, GENERATED) == "output/generated";
  }

  /** The prefixes cut off a path that repeats its category. */
  lemma CategoryPrefixes()
    ensures Prefixes("output") == ["output/"] && Prefixes("sftp") == []
    ensures Prefixes("external") == ["output/test-binaries/", "output/external/", "external/"]
    ensures Prefixes("output/logs") == ["output/logs/", "logs/"]
    ensures Prefixes("output/generated") == ["output/generated/", "generated/"]
  {
    OutputNotUnderOutput();
    ExternalPrefixes();
    NestedCategory(LOGS);
    NestedCategory(GENERATED);
    CategoryRoots([]);
    assert Over(OUTPUT, []) == "output/" && Over(LOGS, []) == "logs/" && Over(GENERATED, []) == "generated/";
    assert Over("output/logs", []) == "output/logs/" && Over("output/generated", []) == "output/generated/";
    assert SFTP[0] == 's';
  }
}
