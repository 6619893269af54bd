/**
  POSIX path text as the standard library reads it: PurePosixPath.as_posix (collapse slashes, drop ".")
  and posixpath.normpath (also resolve ".."), with the laws that tie text to path components.
 */
module PosixPath {
  const DOT := "."
  const UP := ".."

  /** A path is zero, one or two leading slashes and its components. */
  datatype Path = Path(slashes: nat, comps: seq<string>)

  /** a/b */
  function Over(a: string, b: string): string {
    a + (['/'] + b)
  }

  function Split(s: string): (r: seq<string>)
    ensures r != []
  {
    if s == [] then [[]]
    else if s[0] == '/' then [[]] + Split(s[1..])
    else var r := Split(s[1..]); [[s[0]] + r[0]] + r[1..]
  }

  function Join(cs: seq<string>): string {
    if cs == [] then [] else if |cs| == 1 then cs[0] else Over(cs[0], Join(cs[1..]))
  }

  /** The components that mean something: not empty and not ".". */
  function Clean(cs: seq<string>): seq<string> {
    if cs == [] then []
    else (if cs[0] == [] || cs[0] == DOT then [] else [cs[0]]) + Clean(cs[1..])
  }

  /** Exactly two leading slashes are kept; three or more count as one. */
  function Slashes(s: string): nat {
    if |s| == 0 || s[0] != '/' then 0
    else if |s| >= 2 && s[1] == '/' && (|s| == 2 || s[2] != '/') then 2
    else 1
  }

  function Lead(n: nat): string {
    if n == 0 then [] else ['/'] + Lead(n - 1)
  }

  function Show(p: Path): string {
    if p.slashes == 0 && p.comps == [] then DOT else Lead(p.slashes) + Join(p.comps)
  }

  function Pure(s: string): Path {
    Path(Slashes(s), Clean(Split(s)))
  }

  /** Components with ".." resolved against those already kept in acc. */
  function Resolve(rooted: bool, acc: seq<string>, cs: seq<string>): seq<string>
    decreases |cs|
  {
    if cs == [] then acc
    else if cs[0] != UP || (!rooted && acc == []) || (acc != [] && acc[|acc| - 1] == UP) then
      Resolve(rooted, acc + [cs[0]], cs[1..])
    else Resolve(rooted, if acc == [] then [] else acc[..|acc| - 1], cs[1..])
  }

  function Norm(s: string): Path {
    var p := Pure(s);
    Path(p.slashes, Resolve(p.slashes > 0, [], p.comps))
  }

  /** PurePosixPath(s).as_posix() */
  function AsPosix(s: string): string {
    Show(Pure(s))
  }

  /** posixpath.normpath(s) */
  function NormPath(s: string): string {
    Show(Norm(s))
  }

  /** posixpath.join of two parts */
  function JoinPath(a: string, b: string): string {
    if b != [] && b[0] == '/' then b
    else if a == [] || a[|a| - 1] == '/' then a + b
    else Over(a, b)
  }

  /** Components a path keeps, and those among them that only go down. */
  predicate Name(c: string) {
    c != [] && c != DOT && '/' !in c
  }

  predicate Names(cs: seq<string>) {
    forall i :: 0 <= i < |cs| ==> Name(cs[i])
  }

  predicate Down(cs: seq<string>) {
    forall i :: 0 <= i < |cs| ==> Name(cs[i]) && cs[i] != UP
  }

  // ---- splitting and joining ----

  lemma {:induction false} SplitOver(a: string, b: string)
    ensures Split(Over(a, b)) == Split(a) + Split(b)
  {
    if a == [] {
      assert Over(a, b)[1..] == b;
    } else {
      assert Over(a, b)[0] == a[0] && Over(a, b)[1..] == Over(a[1..], b);
      SplitOver(a[1..], b);
    }
  }

  lemma {:induction false} SplitPlain(c: string)
    requires '/' !in c
    ensures Split(c) == [c]
  {
    if c != [] {
      SplitPlain(c[1..]);
      assert c == [c[0]] + c[1..];
    }
  }

  lemma {:induction false} SplitJoin(cs: seq<string>)
    requires cs != [] && Names(cs)
    ensures Split(Join(cs)) == cs
  {
    assert Name(cs[0]);
    SplitPlain(cs[0]);
    if |cs| > 1 {
      SplitJoin(cs[1..]);
      SplitOver(cs[0], Join(cs[1..]));
      assert [cs[0]] + cs[1..] == cs;
    } else {
      assert cs == [cs[0]];
    }
  }

  lemma {:induction false} JoinSplit(s: string)
    ensures Join(Split(s)) == s
  {
    if s != [] {
      JoinSplit(s[1..]);
      var r := Split(s[1..]);
      if s[0] == '/' {
        assert ([[]] + r)[1..] == r;
      } else {
        assert |r| > 1 ==> ([[s[0]] + r[0]] + r[1..])[1..] == r[1..];
      }
    }
  }

  lemma {:induction false} SplitHasNoSlash(s: string, i: nat)
    requires i < |Split(s)|
    ensures '/' !in Split(s)[i]
  {
    if s != [] {
      if s[0] == '/' {
        if i > 0 {
          SplitHasNoSlash(s[1..], i - 1);
        }
      } else {
        SplitHasNoSlash(s[1..], i);
      }
    }
  }

  lemma {:induction false} JoinAppend(a: seq<string>, b: seq<string>)
    requires a != [] && b != []
    ensures Join(a + b) == Over(Join(a), Join(b))
  {
    if |a| == 1 {
      assert (a + b)[1..] == b;
    } else {
      assert (a + b)[1..] == a[1..] + b;
      JoinAppend(a[1..], b);
    }
  }

  lemma {:induction false} CleanAppend(a: seq<string>, b: seq<string>)
    ensures Clean(a + b) == Clean(a) + Clean(b)
  {
    if a == [] {
      assert a + b == b;
    } else {
      assert (a + b)[1..] == a[1..] + b;
      CleanAppend(a[1..], b);
    }
  }

  lemma {:induction false} CleanKeepsNames(cs: seq<string>)
    requires Names(cs)
    ensures Clean(cs) == cs
  {
    if cs != [] {
      assert Name(cs[0]);
      CleanKeepsNames(cs[1..]);
    }
  }

  lemma {:induction false} CleanIsNames(cs: seq<string>)
    requires forall i :: 0 <= i < |cs| ==> '/' !in cs[i]
    ensures Names(Clean(cs))
  {
    if cs != [] {
      CleanIsNames(cs[1..]);
    }
  }

  lemma PureIsNames(s: string)
    ensures Names(Pure(s).comps) && Pure(s).slashes <= 2
  {
    forall i | 0 <= i < |Split(s)| ensures '/' !in Split(s)[i] {
      SplitHasNoSlash(s, i);
    }
    CleanIsNames(Split(s));
  }

  // ---- text and components ----

  lemma SlashesOver(a: string, b: string)
    requires a != [] && a[|a| - 1] != '/'
    ensures Slashes(Over(a, b)) == Slashes(a)
  {
    assert forall i :: 0 <= i < |a| ==> Over(a, b)[i] == a[i];
  }

  /** Putting more text after a slash adds components and nothing else. */
  lemma PureOver(a: string, b: string)
    requires a != [] && a[|a| - 1] != '/'
    ensures Pure(Over(a, b)) == Path(Pure(a).slashes, Pure(a).comps + Clean(Split(b)))
  {
    SplitOver(a, b);
    CleanAppend(Split(a), Split(b));
    SlashesOver(a, b);
  }

  /** The components of q/b are those of q/ and of b. */
  lemma CleanAfterSlash(q: string, b: string)
    ensures Clean(Split(Over(q, b))) == Clean(Split(Over(q, []))) + Clean(Split(b))
  {
    SplitOver(q, b);
    SplitOver(q, []);
    CleanAppend(Split(q), Split(b));
    CleanAppend(Split(q), [[]]);
    assert Clean([[]]) == [];
  }

  lemma SlashesAfterSlash(a: string, b: string)
    requires a != [] && a[|a| - 1] == '/' && (b == [] || b[0] != '/')
    ensures Slashes(a + b) == Slashes(a)
  {
  }

  lemma PureAfterSlash(a: string, b: string)
    requires a != [] && a[|a| - 1] == '/' && (b == [] || b[0] != '/')
    ensures Pure(a + b) == Path(Pure(a).slashes, Pure(a).comps + Clean(Split(b)))
  {
    var q := a[..|a| - 1];
    assert a == Over(q, []);
    assert a + b == Over(q, b);
    CleanAfterSlash(q, b);
    SlashesAfterSlash(a, b);
  }

  /** Joining a relative part appends its components. */
  lemma JoinPathIsAppend(a: string, b: string)
    requires a != [] && (b == [] || b[0] != '/')
    ensures Pure(JoinPath(a, b)) == Path(Pure(a).slashes, Pure(a).comps + Pure(b).comps)
    ensures JoinPath(a, b) != []
  {
    if a[|a| - 1] == '/' {
      PureAfterSlash(a, b);
    } else {
      PureOver(a, b);
    }
  }

  lemma {:induction false} JoinEnds(cs: seq<string>)
    requires cs != [] && Names(cs)
    ensures var j := Join(cs); j != [] && j[0] != '/' && j[|j| - 1] != '/'
  {
    assert Name(cs[0]);
    if |cs| > 1 {
      JoinEnds(cs[1..]);
    }
  }

  lemma PureJoin(cs: seq<string>)
    requires cs != [] && Names(cs)
    ensures Pure(Join(cs)) == Path(0, cs)
  {
    JoinEnds(cs);
    SplitJoin(cs);
    CleanKeepsNames(cs);
  }

  lemma PureLead(n: nat)
    requires 1 <= n <= 2
    ensures Pure(Lead(n)) == Path(n, []) && Lead(n) != [] && Lead(n)[|Lead(n)| - 1] == '/'
  {
    assert Lead(1) == ['/'] && Lead(2) == ['/', '/'];
    assert Split([]) == [[]];
    SplitOver([], []);
    SplitOver(['/'], []);
    assert Over([], []) == ['/'] && Over(['/'], []) == ['/', '/'];
    assert Clean([[]]) == [];
    CleanAppend([[]], [[]]);
    CleanAppend([[]] + [[]], [[]]);
  }

  lemma PureDot()
    ensures Pure(DOT) == Path(0, [])
  {
    SplitPlain(DOT);
    assert Clean([DOT]) == [] + Clean([]);
  }

  /** Printing a path and reading it back gives the path. */
  lemma PureShow(p: Path)
    requires p.slashes <= 2 && Names(p.comps)
    ensures Pure(Show(p)) == p
  {
    if p.slashes == 0 {
      if p.comps == [] {
        PureDot();
      } else {
        PureJoin(p.comps);
        assert Lead(0) + Join(p.comps) == Join(p.comps);
      }
    } else {
      PureLead(p.slashes);
      if p.comps == [] {
        assert Lead(p.slashes) + Join(p.comps) == Lead(p.slashes);
      } else {
        JoinEnds(p.comps);
        PureAfterSlash(Lead(p.slashes), Join(p.comps));
        PureJoin(p.comps);
      }
    }
  }

  lemma AsPosixIsIdempotent(s: string)
    ensures Pure(AsPosix(s)) == Pure(s) && AsPosix(AsPosix(s)) == AsPosix(s) && Norm(AsPosix(s)) == Norm(s)
  {
    PureIsNames(s);
    PureShow(Pure(s));
  }

  /** How many leading slashes count: none, one, or exactly two. */
  lemma SlashesExactly(t: string)
    requires t == [] || t[0] != '/'
    ensures Slashes(t) == 0 && Slashes("/" + t) == 1 && Slashes("//" + t) == 2 && Slashes("///" + t) == 1
  {
  }

  // ---- resolving ".." ----

  /** What ".." does: it takes back a name, stays at the root, and is kept at the start of a relative path. */
  lemma UpExactly(rooted: bool, cs: seq<string>, c: string)
    requires c != UP
    ensures Resolve(rooted, cs + [c], [UP]) == cs
    ensures Resolve(true, [], [UP]) == [] && Resolve(false, [], [UP]) == [UP]
    ensures Resolve(false, cs + [UP], [UP]) == cs + [UP, UP]
  {
    assert [UP][1..] == [];
    assert (cs + [c])[..|cs|] == cs;
    assert [] + [UP] == [UP];
    assert cs + [UP] + [UP] == cs + [UP, UP];
  }

  /** What normpath can return: some ".." (none in a rooted path), then components that only go down. */
  ghost predicate Resolved(rooted: bool, cs: seq<string>, ups: nat) {
    && ups <= |cs| && Names(cs) && (rooted ==> ups == 0)
    && (forall i :: 0 <= i < ups ==> cs[i] == UP)
    && (forall i :: ups <= i < |cs| ==> cs[i] != UP)
  }

  lemma {:induction false} ResolveIsResolved(rooted: bool, acc: seq<string>, cs: seq<string>, ups: nat) returns (u: nat)
    requires Resolved(rooted, acc, ups) && Names(cs)
    ensures Resolved(rooted, Resolve(rooted, acc, cs), u)
    decreases |cs|
  {
    if cs == [] {
      return ups;
    }
    assert Name(cs[0]);
    var rest := cs[1..];
    if cs[0] != UP {
      u := ResolveIsResolved(rooted, acc + [cs[0]], rest, ups);
    } else if (!rooted && acc == []) || (acc != [] && acc[|acc| - 1] == UP) {
      u := ResolveIsResolved(rooted, acc + [cs[0]], rest, ups + 1);
    } else {
      u := ResolveIsResolved(rooted, if acc == [] then [] else acc[..|acc| - 1], rest, ups);
    }
  }

  lemma {:induction false} ResolveDown(rooted: bool, acc: seq<string>, cs: seq<string>)
    requires Down(cs)
    ensures Resolve(rooted, acc, cs) == acc + cs
    decreases |cs|
  {
    if cs == [] {
      assert acc + cs == acc;
    } else {
      assert Name(cs[0]) && cs[0] != UP;
      ResolveDown(rooted, acc + [cs[0]], cs[1..]);
      assert acc + [cs[0]] + cs[1..] == acc + cs;
    }
  }

  lemma {:induction false} ResolveUps(acc: seq<string>, cs: seq<string>)
    requires forall i :: 0 <= i < |cs| ==> cs[i] == UP
    requires acc == [] || acc[|acc| - 1] == UP
    ensures Resolve(false, acc, cs) == acc + cs
    decreases |cs|
  {
    if cs == [] {
      assert acc + cs == acc;
    } else {
      ResolveUps(acc + [cs[0]], cs[1..]);
      assert acc + [cs[0]] + cs[1..] == acc + cs;
    }
  }

  lemma {:induction false} ResolveAppend(rooted: bool, acc: seq<string>, a: seq<string>, b: seq<string>)
    ensures Resolve(rooted, acc, a + b) == Resolve(rooted, Resolve(rooted, acc, a), b)
    decreases |a|
  {
    if a == [] {
      assert a + b == b;
    } else {
      assert (a + b)[0] == a[0] && (a + b)[1..] == a[1..] + b;
      ResolveAppend(rooted, acc + [a[0]], a[1..], b);
      ResolveAppend(rooted, if acc == [] then [] else acc[..|acc| - 1], a[1..], b);
    }
  }

  lemma ResolvedIsFixed(rooted: bool, cs: seq<string>, ups: nat)
    requires Resolved(rooted, cs, ups)
    ensures Resolve(rooted, [], cs) == cs
  {
    var a, b := cs[..ups], cs[ups..];
    assert a + b == cs;
    ResolveAppend(rooted, [], a, b);
    if rooted {
      assert a == [];
    } else {
      ResolveUps([], a);
    }
    assert [] + a == a;
    ResolveDown(rooted, a, b);
  }

  lemma NormIsResolved(s: string) returns (ups: nat)
    ensures Norm(s).slashes <= 2 && Resolved(Norm(s).slashes > 0, Norm(s).comps, ups)
  {
    PureIsNames(s);
    ups := ResolveIsResolved(Slashes(s) > 0, [], Pure(s).comps, 0);
  }

  /** normpath's result reads back as the resolved path, so normpath is idempotent. */
  lemma NormPathIsIdempotent(s: string)
    ensures Pure(NormPath(s)) == Norm(s) && Norm(NormPath(s)) == Norm(s) && NormPath(NormPath(s)) == NormPath(s)
  {
    var ups := NormIsResolved(s);
    PureShow(Norm(s));
    ResolvedIsFixed(Norm(s).slashes > 0, Norm(s).comps, ups);
  }
}
