/**
  From the files a change touches to the test paths that must run: the impact rules, the full-suite
  triggers, and the final list without redundant files.
 */
module ChangeDetection {
  import opened Base
  import opened PosixPath
  import Text

  const FRAMEWORK := "framework"
  const TESTS := "tests"
  const E2E := "e2e"
  const SRC := "src"
  const COMMON := "common"
  const CONFTEST := "conftest.py"
  const CMAKE_BUILD := "_cmake_build.py"
  const TAXONOMY := "framework/markers/taxonomy.py"
  const CRITICAL := ["executors", "builder", "common", "plugins", "nodes"]
  const SOURCES := [".py", ".cpp", ".hip", ".h", ".hpp", ".cu", ".cmake"]
  const CMAKE_DIRS := {
    "tests/e2e/compiler/", "tests/e2e/hipblaslt/", "tests/e2e/hwq_heuristic/", "tests/e2e/rocprim/",
    "tests/e2e/rocm_libs/", "tests/e2e/hpc/quda/", "tests/e2e/recovery/criu/"}

  // ---- one changed file ----

  function LStripSpace(s: string): string {
    if s != [] && Text.IsSpace(s[0]) then LStripSpace(s[1..]) else s
  }

  function Strip(s: string): string {
    if s != [] && Text.IsSpace(s[|s| - 1]) then Strip(s[..|s| - 1]) else LStripSpace(s)
  }

  /** PurePosixPath.parts: an absolute path has its root as first part. */
  function Parts(p: Path): seq<string> {
    (if p.slashes > 0 then [Lead(p.slashes)] else []) + p.comps
  }

  function FileName(p: Path): string {
    if p.comps == [] then [] else p.comps[|p.comps| - 1]
  }

  function LastDot(s: string): (i: int)
    ensures -1 <= i < |s|
  {
    if s == [] then -1 else if s[|s| - 1] == '.' then |s| - 1 else LastDot(s[..|s| - 1])
  }

  function Suffix(name: string): string {
    var i := LastDot(name);
    if 0 < i < |name| - 1 then name[i..] else []
  }

  predicate IsTestFile(name: string) {
    "test_" <= name && Suffix(name) == ".py"
  }

  predicate IsGlobalConftest(p: Path) {
    var parts := Parts(p);
    FileName(p) == CONFTEST
    && (|parts| == 1 || (|parts| == 2 && parts[0] == TESTS) || (|parts| == 3 && parts[0] == TESTS && parts[1] == E2E))
  }

  /** The area directory of a file under tests/e2e. */
  function Area(parts: seq<string>): Option<string> {
    if |parts| < 3 || parts[0] != TESTS || parts[1] != E2E || parts[2..|parts| - 1] == [] then None
    else Some(Over(Over(TESTS, E2E), Join(parts[2..|parts| - 1])))
  }

  predicate RunsWholeArea(p: Path) {
    var name := FileName(p);
    name == CONFTEST || ['_'] <= name || SRC in Parts(p) || Suffix(name) in SOURCES || name == "CMakeLists.txt"
  }

  function ClassifyE2e(p: Path, file: string): Option<string> {
    var area := Area(Parts(p));
    if area.None? then None
    else if IsTestFile(FileName(p)) then Some(file)
    else if RunsWholeArea(p) then Some(Over(area.value, []))
    else None
  }

  datatype Effect = Nothing | FullSuite | CriticalFramework | OtherFramework(file: string) | Impact(paths: set<string>)

  function Classify(raw: string): Effect {
    ClassifyPath(Pure(Strip(raw)), Strip(raw))
  }

  function ClassifyPath(p: Path, file: string): Effect {
    var parts := Parts(p);
    if parts == [] then Nothing
    else if parts[0] == FRAMEWORK then
      if |parts| > 1 && parts[1] in CRITICAL then CriticalFramework else OtherFramework(file)
    else if IsGlobalConftest(p) then FullSuite
    else if |parts| >= 2 && parts[0] == TESTS && parts[1] == COMMON then
      if FileName(p) == CMAKE_BUILD then Impact(CMAKE_DIRS) else FullSuite
    else if parts[0] != TESTS || (|parts| > 1 && parts[1] != E2E) then Nothing
    else
      var r := ClassifyE2e(p, file);
      if r.None? then Nothing else Impact({r.value})
  }

  // ---- the rules on the text of a path ----

  /** The name has the suffix and something before it. */
  predicate EndsWith(name: string, suffix: string) {
    |name| > |suffix| && name[|name| - |suffix|..] == suffix
  }

  lemma {:induction false} LastDotIsLast(s: string)
    ensures var i := LastDot(s); (i >= 0 ==> s[i] == '.') && forall j :: i < j < |s| ==> s[j] != '.'
  {
    if s != [] && s[|s| - 1] != '.' {
      LastDotIsLast(s[..|s| - 1]);
    }
  }

  lemma SuffixExactly(name: string, suffix: string)
    requires |suffix| > 1 && suffix[0] == '.' && '.' !in suffix[1..]
    ensures Suffix(name) == suffix <==> EndsWith(name, suffix)
  {
    LastDotIsLast(name);
    var k := |name| - |suffix|;
    if EndsWith(name, suffix) {
      assert name[k..][0] == name[k];
      assert forall j :: k < j < |name| ==> name[j] == suffix[1..][j - k - 1];
      assert LastDot(name) == k;
    }
  }

  /** The suffixes for which a whole directory runs. */
  predicate IsSource(name: string) {
    || EndsWith(name, ".py") || EndsWith(name, ".cpp") || EndsWith(name, ".hip") || EndsWith(name, ".h")
    || EndsWith(name, ".hpp") || EndsWith(name, ".cu") || EndsWith(name, ".cmake")
  }

  lemma SourcesExactly(name: string)
    ensures Suffix(name) in SOURCES <==> IsSource(name)
    ensures Suffix(name) == ".py" <==> EndsWith(name, ".py")
  {
    SuffixExactly(name, ".py");
    SuffixExactly(name, ".cpp");
    SuffixExactly(name, ".hip");
    SuffixExactly(name, ".h");
    SuffixExactly(name, ".hpp");
    SuffixExactly(name, ".cu");
    SuffixExactly(name, ".cmake");
    OneOfSources(Suffix(name));
  }

  lemma OneOfSources(x: string)
    ensures x in SOURCES <==>
              x == ".py" || x == ".cpp" || x == ".hip" || x == ".h" || x == ".hpp" || x == ".cu" || x == ".cmake"
  {
    assert SOURCES[0] == ".py" && SOURCES[1] == ".cpp" && SOURCES[2] == ".hip" && SOURCES[3] == ".h";
    assert SOURCES[4] == ".hpp" && SOURCES[5] == ".cu" && SOURCES[6] == ".cmake";
  }

  /** A test file's name. */
  predicate TestName(name: string) {
    "test_" <= name && EndsWith(name, ".py")
  }

  /** A file whose change makes its whole directory run. */
  predicate HelperName(dirs: seq<string>, name: string) {
    || name == "conftest.py" || "_" <= name || name == "src" || "src" in dirs || IsSource(name) || name == "CMakeLists.txt"
  }

  /** A relative path is classified by its components. */
  lemma ClassifyOf(cs: seq<string>)
    requires cs != [] && Names(cs) && Strip(Join(cs)) == Join(cs)
    ensures Classify(Join(cs)) == ClassifyPath(Path(0, cs), Join(cs)) && Pure(Join(cs)) == Path(0, cs)
  {
    PureJoin(cs);
  }

  lemma PartsOf(cs: seq<string>)
    requires cs != []
    ensures Parts(Path(0, cs)) == cs && FileName(Path(0, cs)) == cs[|cs| - 1]
  {
    assert [] + cs == cs;
  }

  lemma E2ePath(cs: seq<string>, f: string)
    requires |cs| >= 4 && cs[0] == TESTS && cs[1] == E2E
    ensures ClassifyPath(Path(0, cs), f) ==
              var r := ClassifyE2e(Path(0, cs), f); if r.None? then Nothing else Impact({r.value})
  {
    PartsOf(cs);
  }

  lemma E2eRules(dirs: seq<string>, name: string, f: string)
    requires dirs != []
    ensures ClassifyE2e(Path(0, [TESTS, E2E] + dirs + [name]), f) ==
              if TestName(name) then Some(f)
              else if HelperName(dirs, name) then Some("tests/e2e/" + Join(dirs) + "/")
              else None
  {
    var cs := [TESTS, E2E] + dirs + [name];
    PartsOf(cs);
    AreaOfDirs(dirs, name);
    SourcesExactly(name);
    AreaAsText(dirs);
    SrcInParts(dirs, name);
  }

  /** Rules 1 and 2: what a changed file tests/e2e/<dirs>/<name> asks for. */
  lemma E2eFileExactly(dirs: seq<string>, name: string)
    requires dirs != [] && Names(dirs) && Name(name)
    requires var f := Join(["tests", "e2e"] + dirs + [name]); Strip(f) == f
    ensures var f := Join(["tests", "e2e"] + dirs + [name]);
            Classify(f) ==
              if TestName(name) then Impact({f})
              else if HelperName(dirs, name) then Impact({"tests/e2e/" + Join(dirs) + "/"})
              else Nothing
  {
    var cs := ["tests", "e2e"] + dirs + [name];
    var f := Join(cs);
    E2eNames(dirs, name);
    ClassifyOf(cs);
    assert cs[0] == "tests" && cs[1] == "e2e";
    E2ePath(cs, f);
    E2eRules(dirs, name, f);
  }

  lemma E2eNames(dirs: seq<string>, name: string)
    requires Names(dirs) && Name(name)
    ensures Names(["tests", "e2e"] + dirs + [name])
  {
  }

  lemma AreaAsText(dirs: seq<string>)
    ensures Over(Over(Over(TESTS, E2E), Join(dirs)), []) == "tests/e2e/" + Join(dirs) + "/"
  {
    assert Over(TESTS, E2E) == "tests/e2e";
    var d := Join(dirs);
    assert Over("tests/e2e", d) == "tests/e2e/" + d;
    assert Over("tests/e2e/" + d, []) == "tests/e2e/" + d + "/";
  }

  lemma SrcInParts(dirs: seq<string>, name: string)
    ensures SRC in ["tests", "e2e"] + dirs + [name] <==> name == "src" || "src" in dirs
  {
    var cs := ["tests", "e2e"] + dirs + [name];
    if "src" in dirs {
      var i :| 0 <= i < |dirs| && dirs[i] == "src";
      assert cs[2 + i] == "src";
    }
    if name == "src" {
      assert cs[|cs| - 1] == "src";
    }
    if SRC in cs {
      var i :| 0 <= i < |cs| && cs[i] == SRC;
      assert cs[0] == "tests" && cs[1] == "e2e";
      assert i >= 2;
      assert i < |cs| - 1 ==> dirs[i - 2] == SRC;
    }
  }

  /** Rules 3 and 4: shared test code. */
  lemma CommonFileExactly(rest: seq<string>, name: string)
    requires Names(rest) && Name(name)
    requires var f := Join(["tests", "common"] + rest + [name]); Strip(f) == f
    ensures var f := Join(["tests", "common"] + rest + [name]);
            Classify(f) ==
              if name == "_cmake_build.py" then
                Impact({"tests/e2e/compiler/", "tests/e2e/hipblaslt/", "tests/e2e/hwq_heuristic/", "tests/e2e/rocprim/",
                        "tests/e2e/rocm_libs/", "tests/e2e/hpc/quda/", "tests/e2e/recovery/criu/"})
              else FullSuite
  {
    var cs := ["tests", "common"] + rest + [name];
    assert Names(cs);
    ClassifyOf(cs);
    CommonPath(rest, name, Join(cs));
  }

  lemma CommonPath(rest: seq<string>, name: string, f: string)
    ensures ClassifyPath(Path(0, [TESTS, COMMON] + rest + [name]), f) ==
              if name == CMAKE_BUILD then Impact(CMAKE_DIRS) else FullSuite
  {
    var cs := [TESTS, COMMON] + rest + [name];
    PartsOf(cs);
    assert cs[0] == TESTS && cs[1] == COMMON && cs[|cs| - 1] == name;
  }

  lemma FrameworkPath(rest: seq<string>, f: string)
    ensures ClassifyPath(Path(0, [FRAMEWORK] + rest), f) ==
              if rest != [] && rest[0] in CRITICAL then CriticalFramework else OtherFramework(f)
  {
    var cs := [FRAMEWORK] + rest;
    PartsOf(cs);
    assert cs[0] == FRAMEWORK && (rest != [] ==> cs[1] == rest[0]);
  }

  /** Rule 6: framework code. */
  lemma FrameworkFileExactly(rest: seq<string>)
    requires Names(rest)
    requires var f := Join(["framework"] + rest); Strip(f) == f
    ensures var f := Join(["framework"] + rest);
            Classify(f) ==
              if rest != [] && rest[0] in {"executors", "builder", "common", "plugins", "nodes"}
              then CriticalFramework else OtherFramework(f)
  {
    var cs := ["framework"] + rest;
    assert Names(cs);
    ClassifyOf(cs);
    FrameworkPath(rest, Join(cs));
    if rest != [] {
      OneOfCritical(rest[0]);
    }
  }

  lemma OneOfCritical(x: string)
    ensures x in CRITICAL <==> x in {"executors", "builder", "common", "plugins", "nodes"}
  {
    assert CRITICAL[0] == "executors" && CRITICAL[1] == "builder" && CRITICAL[2] == "common";
    assert CRITICAL[3] == "plugins" && CRITICAL[4] == "nodes";
  }

  /** A path that is neither framework code, nor shared test code, nor inside an area. */
  predicate Elsewhere(cs: seq<string>) {
    && cs != [] && cs[0] != FRAMEWORK
    && (|cs| < 2 || cs[0] != TESTS || (cs[1] != COMMON && cs[1] != E2E) || (cs[1] == E2E && |cs| <= 3))
  }

  /** conftest.py of the repository, of tests, or of tests/e2e. */
  predicate TopConftest(cs: seq<string>) {
    cs == ["conftest.py"] || cs == ["tests", "conftest.py"] || cs == ["tests", "e2e", "conftest.py"]
  }

  lemma ElsewherePath(cs: seq<string>, f: string)
    requires Elsewhere(cs)
    ensures ClassifyPath(Path(0, cs), f) == if IsGlobalConftest(Path(0, cs)) then FullSuite else Nothing
  {
    PartsOf(cs);
    if |cs| == 3 && cs[0] == TESTS && cs[1] == E2E {
      assert cs[2..2] == [];
    }
  }

  /** Rules 5 and 7: everything else asks for the full suite if it is a conftest.py at the top, and for nothing otherwise. */
  lemma OtherFileExactly(cs: seq<string>)
    requires Elsewhere(cs) && Names(cs) && Strip(Join(cs)) == Join(cs)
    ensures Classify(Join(cs)) == if TopConftest(cs) then FullSuite else Nothing
  {
    ClassifyOf(cs);
    ElsewherePath(cs, Join(cs));
    TopConftests(cs);
  }

  lemma TopConftests(cs: seq<string>)
    requires cs != []
    ensures IsGlobalConftest(Path(0, cs)) <==> TopConftest(cs)
  {
    PartsOf(cs);
    var n := |cs|;
    assert n == 1 ==> cs == [cs[0]];
    assert n == 2 ==> cs == [cs[0], cs[1]];
    assert n == 3 ==> cs == [cs[0], cs[1], cs[2]];
  }

  /** An absolute path is none of the repository's. */
  lemma AbsolutePathAsksNothing(raw: string)
    requires Slashes(Strip(raw)) > 0
    ensures Classify(raw) == Nothing
  {
    var p := Pure(Strip(raw));
    assert Lead(p.slashes)[0] == '/';
    assert Parts(p)[0] == Lead(p.slashes);
  }

  // ---- surrounding blanks ----

  predicate Blank(s: string) {
    forall i :: 0 <= i < |s| ==> Text.IsSpace(s[i])
  }

  lemma {:induction false} LStripBlank(a: string, s: string)
    requires Blank(a) && (s == [] || !Text.IsSpace(s[0]))
    ensures LStripSpace(a + s) == s
  {
    if a == [] {
      assert a + s == s;
    } else {
      assert (a + s)[0] == a[0] && (a + s)[1..] == a[1..] + s;
      LStripBlank(a[1..], s);
    }
  }

  /** strip() takes off the blanks at both ends and nothing else. */
  lemma {:induction false} StripExactly(a: string, s: string, b: string)
    requires Blank(a) && Blank(b) && (s == [] || (!Text.IsSpace(s[0]) && !Text.IsSpace(s[|s| - 1])))
    ensures Strip(a + s + b) == s
    decreases |a| + |b|
  {
    var t := a + s + b;
    if b != [] {
      assert t[|t| - 1] == b[|b| - 1];
      assert t[..|t| - 1] == a + s + b[..|b| - 1];
      StripExactly(a, s, b[..|b| - 1]);
    } else if s == [] && a != [] {
      assert t[|t| - 1] == a[|a| - 1];
      assert t[..|t| - 1] == a[..|a| - 1] + s + b;
      StripExactly(a[..|a| - 1], s, b);
    } else {
      assert t == a + s;
      LStripBlank(a, s);
      assert t != [] ==> t[|t| - 1] == s[|s| - 1];
    }
  }

  // ---- what a set of changed files asks for ----

  /** The files that make everything run: core framework code, shared conftests, shared test code. */
  lemma DemandsExactlyWhen(raw: string)
    ensures var p := Pure(Strip(raw)); var parts := Parts(p);
            Demands(raw) <==>
              || (|parts| > 1 && parts[0] == FRAMEWORK && parts[1] in CRITICAL)
              || IsGlobalConftest(p)
              || (|parts| > 1 && parts[0] == TESTS && parts[1] == COMMON && FileName(p) != CMAKE_BUILD)
  {
    var p := Pure(Strip(raw));
    if Parts(p) == [] || Parts(p)[0] == FRAMEWORK {
      NoConftestInFramework(p);
    }
    DemandsOfPath(p, Strip(raw));
  }

  lemma NoConftestInFramework(p: Path)
    requires Parts(p) == [] || Parts(p)[0] == FRAMEWORK
    ensures !IsGlobalConftest(p)
  {
    assert |Parts(p)| == 1 && Parts(p)[0] == FRAMEWORK ==> FileName(p) == FRAMEWORK || FileName(p) == [];
  }

  lemma DemandsOfPath(p: Path, file: string)
    requires Parts(p) == [] || Parts(p)[0] == FRAMEWORK ==> !IsGlobalConftest(p)
    ensures var parts := Parts(p);
            ClassifyPath(p, file).FullSuite? || ClassifyPath(p, file).CriticalFramework? <==>
              || (|parts| > 1 && parts[0] == FRAMEWORK && parts[1] in CRITICAL)
              || IsGlobalConftest(p)
              || (|parts| > 1 && parts[0] == TESTS && parts[1] == COMMON && FileName(p) != CMAKE_BUILD)
  {
  }

  predicate Demands(raw: string) {
    Classify(raw).FullSuite? || Classify(raw).CriticalFramework?
  }

  ghost predicate FullSuiteDemanded(files: set<string>) {
    exists f :: f in files && Demands(f)
  }

  ghost function FrameworkFiles(files: set<string>): set<string> {
    set f | f in files && Classify(f).OtherFramework? :: Classify(f).file
  }

  ghost function Impacts(files: set<string>): set<string> {
    set f, p | f in files && Classify(f).Impact? && p in Classify(f).paths :: p
  }

  ghost function Files(s: seq<string>): set<string> {
    set f | f in s
  }

  /** New area directories replace the smoke run only when the taxonomy is the one framework file touched. */
  ghost function FrameworkImpacts(other: set<string>, newDirs: Option<seq<string>>, smoke: set<string>): set<string> {
    (if TAXONOMY in other && newDirs.Some? then Files(newDirs.value) else {})
    + if other == {} || (other == {TAXONOMY} && newDirs.Some? && newDirs.value != []) then {} else smoke
  }

  predicate IsDir(p: string) {
    p != [] && p[|p| - 1] == '/'
  }

  /** Directories, and the files under none of them. */
  function Deduplicated(impacted: set<string>): set<string> {
    set p | p in impacted && (IsDir(p) || forall d :: d in impacted && IsDir(d) ==> !(d <= p))
  }

  /** Everything that must run. */
  ghost function Answer(files: set<string>, newDirs: Option<seq<string>>, smoke: set<string>, areas: set<string>): set<string> {
    if FullSuiteDemanded(files) then areas
    else Deduplicated(Impacts(files) + FrameworkImpacts(FrameworkFiles(files), newDirs, smoke))
  }

  // ---- the final list keeps what matters ----

  ghost predicate Covered(p: string, paths: set<string>) {
    p in paths || exists d :: d in paths && IsDir(d) && d <= p
  }

  /** The list runs everything impacted, nothing else, keeps the directories, and no file under one of them. */
  ghost predicate IsReduction(paths: set<string>, impacted: set<string>) {
    && paths <= impacted
    && (forall p :: p in impacted ==> Covered(p, paths))
    && (forall p :: p in impacted && IsDir(p) ==> p in paths)
    && (forall p, d :: p in paths && !IsDir(p) && d in paths && IsDir(d) ==> !(d <= p))
  }

  lemma DeduplicatedIsReduction(impacted: set<string>)
    ensures IsReduction(Deduplicated(impacted), impacted)
  {
    var paths := Deduplicated(impacted);
    forall p | p in impacted ensures Covered(p, paths) {
      if p !in paths {
        var d :| d in impacted && IsDir(d) && d <= p;
        assert d in paths;
      }
    }
  }

  /** Those four demands leave no choice. */
  lemma ReductionIsUnique(paths: set<string>, impacted: set<string>)
    requires IsReduction(paths, impacted)
    ensures paths == Deduplicated(impacted)
  {
    forall p ensures p in paths <==> p in Deduplicated(impacted) {
      if p in impacted && !IsDir(p) {
        assert Covered(p, paths);
      }
    }
  }

  // ---- a changed file is run ----

  /** A path as git prints it: no surrounding blanks, no redundant slashes or dots. */
  predicate IsGitPath(f: string) {
    Strip(f) == f && AsPosix(f) == f
  }

  lemma AreaText(area: seq<string>, last: string)
    requires area != []
    ensures Join([TESTS, E2E] + area + [last]) == Over(Over(Over(TESTS, E2E), Join(area)), last)
  {
    var head := [TESTS, E2E];
    JoinAppend(head + area, [last]);
    JoinAppend(head, area);
    assert head[1..] == [E2E];
    assert Join(head) == Over(TESTS, E2E);
  }

  lemma OverPrefix(a: string, b: string)
    ensures Over(a, []) <= Over(a, b)
  {
    assert Over(a, b) == Over(a, []) + b;
  }

  lemma AreaOfComps(cs: seq<string>)
    requires Area(cs).Some?
    ensures Over(Area(cs).value, []) <= Join(cs)
  {
    var area, last := cs[2..|cs| - 1], cs[|cs| - 1];
    assert [TESTS, E2E] + area + [last] == cs;
    AreaText(area, last);
    OverPrefix(Over(Over(TESTS, E2E), Join(area)), last);
  }

  lemma LeadIsNoName(n: nat)
    requires n > 0
    ensures Lead(n) != TESTS
  {
    assert Lead(n)[0] == '/';
  }

  lemma RelativeParts(p: Path)
    requires Parts(p) != [] && Parts(p)[0] == TESTS
    ensures p.slashes == 0 && Parts(p) == p.comps && p.comps != [] && Show(p) == Join(p.comps)
  {
    if p.slashes > 0 {
      LeadIsNoName(p.slashes);
    } else {
      assert Lead(0) + Join(p.comps) == Join(p.comps);
    }
  }

  lemma AreaIsPrefix(f: string)
    requires IsGitPath(f) && Area(Parts(Pure(f))).Some?
    ensures Over(Area(Parts(Pure(f))).value, []) <= f
  {
    RelativeParts(Pure(f));
    AreaOfComps(Pure(f).comps);
  }

  /**
    The directory listed for a file below an area is the area's own only for files directly in it;
    a file in a subdirectory, such as src, brings in that subdirectory alone.
   */
  lemma ListedDirectoryIsArea(area: seq<string>, sub: seq<string>, name: string)
    requires area != []
    ensures Area([TESTS, E2E] + (area + sub) + [name]) == Area([TESTS, E2E] + area + [name]) <==> sub == []
    ensures sub != [] ==>
              Area([TESTS, E2E] + (area + sub) + [name]) == Some(Over(Over(Over(TESTS, E2E), Join(area)), Join(sub)))
  {
    AreaOfDirs(area, name);
    AreaOfDirs(area + sub, name);
    if sub == [] {
      assert area + sub == area;
    } else {
      JoinAppend(area, sub);
      OverAssociates(Over(TESTS, E2E), Join(area), Join(sub));
    }
  }

  lemma AreaOfDirs(dirs: seq<string>, name: string)
    requires dirs != []
    ensures Area([TESTS, E2E] + dirs + [name]) == Some(Over(Over(TESTS, E2E), Join(dirs)))
  {
    var parts := [TESTS, E2E] + dirs + [name];
    assert parts[0] == TESTS && parts[1] == E2E && parts[2..|parts| - 1] == dirs;
  }

  lemma OverAssociates(a: string, b: string, c: string)
    ensures Over(a, Over(b, c)) == Over(Over(a, b), c) && |Over(a, Over(b, c))| > |Over(a, b)|
  {
  }

  /** So a changed source below src leaves every test file of its area unlisted: the directory holds none of them. */
  lemma SourceChangeMissesTests(area: seq<string>, name: string, test: string)
    requires area != [] && '/' !in test
    ensures var listed := Area([TESTS, E2E] + (area + [SRC]) + [name]);
            listed.Some? && !(Over(listed.value, []) <= Over(Over(Over(TESTS, E2E), Join(area)), test))
  {
    ListedDirectoryIsArea(area, [SRC], name);
    assert Join([SRC]) == SRC;
    var base := Over(Over(TESTS, E2E), Join(area));
    var dir, file := Over(Over(base, SRC), []), Over(base, test);
    var k := |base| + 1 + |SRC|;
    assert dir[k] == '/';
    assert forall i :: |base| < i < |file| ==> file[i] == test[i - |base| - 1];
  }

  /** What a changed file under tests/e2e contributes is the file itself or a directory that contains it. */
  lemma ImpactContainsFile(f: string, p: string)
    requires IsGitPath(f) && Area(Parts(Pure(f))).Some?
    requires Classify(f).Impact? && p in Classify(f).paths
    ensures p == f || (IsDir(p) && p <= f)
  {
    AreaIsPrefix(f);
  }

  /** Unless everything runs anyway, every such file is run, alone or with its directory. */
  lemma ChangedFileIsRun(files: set<string>, newDirs: Option<seq<string>>, smoke: set<string>, areas: set<string>, f: string)
    requires f in files && IsGitPath(f) && Area(Parts(Pure(f))).Some? && Classify(f).Impact?
    requires !FullSuiteDemanded(files)
    ensures Covered(f, Answer(files, newDirs, smoke, areas))
  {
    var r := ClassifyE2e(Pure(f), f);
    var p := r.value;
    assert Classify(f).paths == {p};
    var impacted := Impacts(files) + FrameworkImpacts(FrameworkFiles(files), newDirs, smoke);
    assert p in impacted;
    ImpactContainsFile(f, p);
    DeduplicatedIsReduction(impacted);
    assert Covered(p, Deduplicated(impacted));
    CoveredThrough(f, p, Deduplicated(impacted));
  }

  /**
    What framework code other than the core adds: the smoke run, unless the taxonomy is the one such file
    and brought new areas; the new areas run whenever the taxonomy is among the files.
   */
  lemma FrameworkChangeRuns(files: set<string>, newDirs: Option<seq<string>>, smoke: set<string>, areas: set<string>, p: string)
    requires !FullSuiteDemanded(files) && FrameworkFiles(files) != {}
    ensures p in smoke && (FrameworkFiles(files) != {"framework/markers/taxonomy.py"} || newDirs.None? || newDirs == Some([])) ==>
              Covered(p, Answer(files, newDirs, smoke, areas))
    ensures "framework/markers/taxonomy.py" in FrameworkFiles(files) && newDirs.Some? && p in newDirs.value ==>
              Covered(p, Answer(files, newDirs, smoke, areas))
  {
    DeduplicatedIsReduction(Impacts(files) + FrameworkImpacts(FrameworkFiles(files), newDirs, smoke));
  }

  /** Whatever else changed, a changed test file tests/e2e/<dirs>/test_<x>.py is run. */
  lemma ChangedTestIsRun(files: set<string>, newDirs: Option<seq<string>>, smoke: set<string>, areas: set<string>,
                         dirs: seq<string>, name: string)
    requires dirs != [] && Names(dirs) && Name(name) && (TestName(name) || HelperName(dirs, name))
    requires var f := Join(["tests", "e2e"] + dirs + [name]); f in files && Strip(f) == f
    requires !FullSuiteDemanded(files)
    ensures Covered(Join(["tests", "e2e"] + dirs + [name]), Answer(files, newDirs, smoke, areas))
  {
    E2eFileExactly(dirs, name);
    IsE2ePath(dirs, name);
    ChangedFileIsRun(files, newDirs, smoke, areas, Join(["tests", "e2e"] + dirs + [name]));
  }

  lemma IsE2ePath(dirs: seq<string>, name: string)
    requires dirs != [] && Names(dirs) && Name(name)
    requires var f := Join(["tests", "e2e"] + dirs + [name]); Strip(f) == f
    ensures var f := Join(["tests", "e2e"] + dirs + [name]); IsGitPath(f) && Area(Parts(Pure(f))).Some?
  {
    var cs := ["tests", "e2e"] + dirs + [name];
    E2eNames(dirs, name);
    JoinIsPosix(cs);
    PartsOf(cs);
    AreaOfDirs(dirs, name);
  }

  lemma JoinIsPosix(cs: seq<string>)
    requires cs != [] && Names(cs)
    ensures Pure(Join(cs)) == Path(0, cs) && AsPosix(Join(cs)) == Join(cs)
  {
    PureJoin(cs);
    assert Lead(0) + Join(cs) == Join(cs);
  }

  lemma CoveredThrough(f: string, p: string, paths: set<string>)
    requires (p == f || (IsDir(p) && p <= f)) && Covered(p, paths)
    ensures Covered(f, paths)
  {
    if p !in paths {
      var d :| d in paths && IsDir(d) && d <= p;
      assert d <= f;
    }
  }

  // ---- sorted lists ----

  predicate LexLess(a: string, b: string) {
    b != [] && (a == [] || a[0] < b[0] || (a[0] == b[0] && LexLess(a[1..], b[1..])))
  }

  lemma {:induction false} LexTotal(a: string, b: string)
    ensures a == b || LexLess(a, b) || LexLess(b, a)
    ensures !(LexLess(a, b) && LexLess(b, a)) && !LexLess(a, a)
  {
    if a != [] {
      LexTotal(a[1..], a[1..]);
    }
    if a != [] && b != [] && a[0] == b[0] {
      LexTotal(a[1..], b[1..]);
      assert a == [a[0]] + a[1..] && b == [b[0]] + b[1..];
    }
  }

  lemma {:induction false} LexTransitive(a: string, b: string, c: string)
    requires LexLess(a, b) && LexLess(b, c)
    ensures LexLess(a, c)
  {
    if a != [] && a[0] == b[0] && b[0] == c[0] {
      LexTransitive(a[1..], b[1..], c[1..]);
    }
  }

  /** The texts agree up to i and there a is smaller. */
  predicate SmallerAt(a: string, b: string, i: nat) {
    i < |a| && i < |b| && a[..i] == b[..i] && a[i] < b[i]
  }

  lemma SmallerAtLater(a: string, b: string, i: nat)
    requires a != [] && b != [] && a[0] == b[0]
    ensures SmallerAt(a, b, i + 1) <==> SmallerAt(a[1..], b[1..], i)
    ensures !SmallerAt(a, b, 0)
  {
    var x, y := a[1..], b[1..];
    if i < |x| && i < |y| {
      assert a[..i + 1] == [a[0]] + x[..i] && b[..i + 1] == [b[0]] + y[..i];
      assert x[..i] == a[..i + 1][1..] && y[..i] == b[..i + 1][1..];
    }
  }

  lemma SmallerAtStart(a: string, b: string, i: nat)
    requires a != [] && b != [] && a[0] != b[0]
    ensures SmallerAt(a, b, i) <==> i == 0 && a[0] < b[0]
  {
    if 0 < i < |a| && i < |b| {
      assert a[..i][0] == a[0] && b[..i][0] == b[0];
    }
  }

  /** The order of sorted(): a proper prefix comes first, otherwise the first difference decides. */
  lemma {:induction false} LexLessExactly(a: string, b: string)
    ensures LexLess(a, b) <==>
              || (a <= b && a != b)
              || exists i: nat :: SmallerAt(a, b, i)
    decreases |a|
  {
    if a != [] && b != [] && a[0] == b[0] {
      var x, y := a[1..], b[1..];
      LexLessExactly(x, y);
      assert a == [a[0]] + x && b == [a[0]] + y;
      if i: nat :| SmallerAt(x, y, i) {
        SmallerAtLater(a, b, i);
      }
      if i: nat :| SmallerAt(a, b, i) {
        SmallerAtLater(a, b, if i == 0 then 0 else i - 1);
      }
    } else if a != [] && b != [] {
      forall i: nat ensures SmallerAt(a, b, i) <==> i == 0 && a[0] < b[0] {
        SmallerAtStart(a, b, i);
      }
      assert SmallerAt(a, b, 0) <==> a[0] < b[0];
      assert !(a <= b);
    }
  }

  /** Strictly increasing, so without repeats. */
  ghost predicate Increasing(r: seq<string>) {
    forall i, j :: 0 <= i < j < |r| ==> LexLess(r[i], r[j])
  }

  ghost predicate Lists(r: seq<string>, paths: set<string>) {
    Increasing(r) && Files(r) == paths
  }

  lemma NoFiles(r: seq<string>)
    ensures Files(r) == {} <==> r == []
  {
    if r != [] {
      assert r[0] in Files(r);
    }
  }

  lemma FilesCons(x: string, r: seq<string>)
    ensures Files([x] + r) == {x} + Files(r)
  {
  }

  /** A set of paths has only one sorted list. */
  lemma {:induction false} ListIsUnique(r: seq<string>, q: seq<string>, paths: set<string>)
    requires Lists(r, paths) && Lists(q, paths)
    ensures r == q
    decreases |r|
  {
    if r == [] {
      NoFiles(r);
      NoFiles(q);
    } else {
      assert r[0] in Files(q);
      var i :| 0 <= i < |q| && q[i] == r[0];
      assert q[0] in Files(r);
      var j :| 0 <= j < |r| && r[j] == q[0];
      LexTotal(r[0], q[0]);
      assert r[0] == q[0];
      TailLists(r, paths);
      TailLists(q, paths);
      ListIsUnique(r[1..], q[1..], paths - {r[0]});
      assert r == [r[0]] + r[1..] && q == [q[0]] + q[1..];
    }
  }

  lemma TailLists(r: seq<string>, paths: set<string>)
    requires r != [] && Lists(r, paths)
    ensures Lists(r[1..], paths - {r[0]})
  {
    LexTotal(r[0], r[0]);
    assert Files(r[1..]) == paths - {r[0]} by {
      assert r == [r[0]] + r[1..];
    }
  }

  function InsertPath(x: string, r: seq<string>): seq<string> {
    if r == [] || LexLess(x, r[0]) then [x] + r else [r[0]] + InsertPath(x, r[1..])
  }

  lemma {:induction false} InsertFiles(x: string, r: seq<string>)
    ensures Files(InsertPath(x, r)) == Files(r) + {x}
  {
    if r == [] || LexLess(x, r[0]) {
      FilesCons(x, r);
    } else {
      InsertFiles(x, r[1..]);
      FilesCons(r[0], InsertPath(x, r[1..]));
      FilesCons(r[0], r[1..]);
      assert r == [r[0]] + r[1..];
    }
  }

  lemma IncreasingCons(x: string, r: seq<string>)
    requires Increasing(r) && (r == [] || LexLess(x, r[0]))
    ensures Increasing([x] + r)
  {
    forall j | 0 <= j < |r| ensures LexLess(x, r[j]) {
      if j > 0 {
        LexTransitive(x, r[0], r[j]);
      }
    }
  }

  lemma {:induction false} InsertIncreasing(x: string, r: seq<string>)
    requires Increasing(r) && x !in r
    ensures Increasing(InsertPath(x, r))
  {
    if r == [] || LexLess(x, r[0]) {
      IncreasingCons(x, r);
    } else {
      InsertIncreasing(x, r[1..]);
      LexTotal(x, r[0]);
      IncreasingCons(r[0], InsertPath(x, r[1..]));
    }
  }

  /** sorted(paths) */
  method SortedPaths(paths: set<string>) returns (r: seq<string>)
    ensures Lists(r, paths)
  {
    r := [];
    var rest := paths;
    while rest != {}
      invariant rest <= paths && Lists(r, paths - rest)
      decreases |rest|
    {
      var x :| x in rest;
      assert x !in Files(r);
      InsertFiles(x, r);
      InsertIncreasing(x, r);
      assert paths - (rest - {x}) == (paths - rest) + {x};
      r, rest := InsertPath(x, r), rest - {x};
    }
    assert paths - rest == paths;
  }

  // ---- the detector ----

  /** One changed file updates the collected sets; triggered tells the caller to stop. */
  method ClassifySingleFile(raw: string, critical: bool, other: set<string>, impacted: set<string>)
    returns (triggered: bool, critical': bool, other': set<string>, impacted': set<string>)
    ensures triggered == Classify(raw).FullSuite? && critical' == (critical || Classify(raw).CriticalFramework?)
    ensures other' == other + FrameworkFiles({raw}) && impacted' == impacted + Impacts({raw})
  {
    triggered, critical', other', impacted' := false, critical, other, impacted;
    match Classify(raw) {
      case Nothing =>
      case FullSuite =>
        triggered := true;
      case CriticalFramework =>
        critical' := true;
      case OtherFramework(file) =>
        other' := other + {file};
      case Impact(paths) =>
        impacted' := impacted + paths;
    }
  }

  method ResolveFrameworkImpacted(other: set<string>, newDirs: Option<seq<string>>, smoke: set<string>)
    returns (impacted: set<string>)
    ensures impacted == FrameworkImpacts(other, newDirs, smoke)
  {
    impacted := {};
    var remaining := other;
    if TAXONOMY in other && newDirs.Some? {
      impacted := impacted + set d | d in newDirs.value;
      if newDirs.value != [] {
        remaining := other - {TAXONOMY};
        assert remaining == {} <==> other == {TAXONOMY};
      }
    }
    if remaining != {} {
      impacted := impacted + smoke;
    }
  }

  lemma FrameworkFilesPlus(files: set<string>, f: string)
    ensures FrameworkFiles(files + {f}) == FrameworkFiles(files) + FrameworkFiles({f})
  {
  }

  lemma ImpactsPlus(files: set<string>, f: string)
    ensures Impacts(files + {f}) == Impacts(files) + Impacts({f})
  {
  }

  /** What has been collected after reading some of the files without meeting a trigger. */
  ghost predicate Collected(files: set<string>, critical: bool, other: set<string>, impacted: set<string>) {
    && other == FrameworkFiles(files) && impacted == Impacts(files)
    && (critical <==> exists f :: f in files && Classify(f).CriticalFramework?)
    && forall f :: f in files ==> !Classify(f).FullSuite?
  }

  lemma CollectedPlus(files: set<string>, f: string, critical: bool, other: set<string>, impacted: set<string>)
    requires Collected(files, critical, other, impacted) && !Classify(f).FullSuite?
    ensures Collected(files + {f}, critical || Classify(f).CriticalFramework?, other + FrameworkFiles({f}), impacted + Impacts({f}))
  {
    FrameworkFilesPlus(files, f);
    ImpactsPlus(files, f);
    assert critical ==> exists g :: g in files + {f} && Classify(g).CriticalFramework? by {
      if critical {
        var g :| g in files && Classify(g).CriticalFramework?;
        assert g in files + {f};
      }
    }
    assert f in files + {f};
  }

  lemma FilesSnoc(s: seq<string>, i: nat)
    requires i < |s|
    ensures Files(s[..i + 1]) == Files(s[..i]) + {s[i]} && s[i] in Files(s)
  {
    assert s[..i + 1] == s[..i] + [s[i]];
  }

  /** Reads the files until one triggers the full suite. */
  method Collect(changed: seq<string>) returns (full: bool, critical: bool, other: set<string>, impacted: set<string>)
    ensures full ==> FullSuiteDemanded(Files(changed))
    ensures !full ==> Collected(Files(changed), critical, other, impacted)
  {
    full, critical, other, impacted := false, false, {}, {};
    var i := 0;
    while i < |changed|
      invariant i <= |changed| && Collected(Files(changed[..i]), critical, other, impacted)
    {
      ghost var seen := Files(changed[..i]);
      FilesSnoc(changed, i);
      ghost var c, o, p := critical, other, impacted;
      full, critical, other, impacted := ClassifySingleFile(changed[i], critical, other, impacted);
      if full {
        assert Demands(changed[i]);
        return;
      }
      CollectedPlus(seen, changed[i], c, o, p);
      i := i + 1;
    }
    assert changed[..i] == changed;
  }

  /** The answer depends only on which files changed, not on their order or repetition. */
  method DetectImpactedPaths(changed: seq<string>, newDirs: Option<seq<string>>, smoke: set<string>, areas: set<string>)
    returns (paths: seq<string>)
    ensures Lists(paths, Answer(Files(changed), newDirs, smoke, areas))
  {
    var full, critical, other, impacted := Collect(changed);
    if critical {
      full := true;
    } else if other != {} && !full {
      var more := ResolveFrameworkImpacted(other, newDirs, smoke);
      impacted := impacted + more;
    }
    if full {
      paths := SortedPaths(areas);
    } else {
      paths := SortedPaths(Deduplicated(impacted));
    }
  }
}
