/**
  The length-prefixed format in which one remote command reports the new output of many capture
  files, and the parser of its reply. One character stands for one byte.
 */
module PollFormat {
  import opened Base
  import opened Text
  import Orbits

  datatype Segment = Segment(marker: string, size: int, data: string)

  /** What the shell fragment for one capture file prints: a header line, then the new bytes. */
  function Print(s: Segment): string {
    ['\n', '@', '@'] + HeaderText(s) + ['\n'] + s.data
  }

  function HeaderText(s: Segment): string {
    s.marker + [' '] + Str(s.size) + [' '] + Str(|s.data|)
  }

  function PrintAll(segs: seq<Segment>): string {
    if segs == [] then [] else Print(segs[0]) + PrintAll(segs[1..])
  }

  // ---- parsing ----

  /** Where blob.find(..., pos) starts to look: a negative position counts from the end. */
  function StartOf(blob: string, pos: int): nat {
    if pos >= 0 then pos else if |blob| + pos < 0 then 0 else |blob| + pos
  }

  /** blob.find("@@", pos) for a nonnegative position */
  function FindMark(blob: string, pos: nat): (r: Option<nat>)
    ensures r.Some? ==> pos <= r.value && IsMark(blob, r.value)
    decreases |blob| - pos
  {
    if pos + 1 >= |blob| then None
    else if IsMark(blob, pos) then Some(pos)
    else FindMark(blob, pos + 1)
  }

  /** blob.find("\n", pos) */
  function FindNewline(blob: string, pos: nat): (r: Option<nat>)
    ensures r.Some? ==> pos <= r.value < |blob| && blob[r.value] == '\n'
    decreases |blob| - pos
  {
    if pos >= |blob| then None
    else if blob[pos] == '\n' then Some(pos)
    else FindNewline(blob, pos + 1)
  }

  /** blob[from : to] for a nonnegative from; a negative to counts from the end. */
  function Slice(blob: string, from: nat, to: int): string {
    var end := if to < 0 then |blob| + to else if to > |blob| then |blob| else to;
    if from < end then blob[from..end] else []
  }

  /** One turn of the parser's loop: stop, skip a line that is no header, or yield a segment. */
  datatype Turn = Stop | Skip(next: int) | Yield(segment: Segment, next: int)

  datatype Header = Header(marker: string, size: int, n: int)

  /** A header line: three words, the last two of them numbers. */
  function ReadHeader(text: string): Option<Header> {
    var parts := Words(text);
    if |parts| != 3 then None
    else
      var size, n := ParseInt(parts[1]), ParseInt(parts[2]);
      if size.None? || n.None? then None else Some(Header(parts[0], size.value, n.value))
  }

  predicate IsMark(blob: string, i: nat) {
    i + 1 < |blob| && blob[i] == '@' && blob[i + 1] == '@'
  }

  function TurnFrom(blob: string, mark: Option<nat>): (t: Turn)
    requires mark.Some? ==> IsMark(blob, mark.value)
  {
    if mark.None? then Stop
    else
      var nl := FindNewline(blob, mark.value);
      if nl.None? then Stop
      else
        assert nl.value != mark.value && nl.value != mark.value + 1;
        var h := ReadHeader(blob[mark.value + 2..nl.value]);
        var start := nl.value + 1;
        if h.None? then Skip(start)
        else Yield(Segment(h.value.marker, h.value.size, Slice(blob, start, start + h.value.n)), start + h.value.n)
  }

  /** The mark a turn from pos finds. */
  function MarkAt(blob: string, pos: int): (m: Option<nat>)
    ensures m.Some? ==> IsMark(blob, m.value)
  {
    FindMark(blob, StartOf(blob, pos))
  }

  function TurnAt(blob: string, pos: int): Turn {
    TurnFrom(blob, MarkAt(blob, pos))
  }

  function Yields(t: Turn): seq<Segment> {
    if t.Yield? then [t.segment] else []
  }

  /** What k turns from pos yield, and whether the loop has ended by then. */
  datatype Parsed = Parsed(segments: seq<Segment>, ended: bool)

  function Turns(blob: string, pos: int, k: nat): Parsed
    decreases k
  {
    if k == 0 then Parsed([], false)
    else
      var t := TurnAt(blob, pos);
      if t.Stop? then Parsed([], true)
      else
        var rest := Turns(blob, t.next, k - 1);
        Parsed(Yields(t) + rest.segments, rest.ended)
  }

  /** The loop from pos ends, having yielded segs. */
  ghost predicate Parses(blob: string, pos: int, segs: seq<Segment>) {
    exists k: nat :: Turns(blob, pos, k) == Parsed(segs, true)
  }

  /** The loop from pos never ends. */
  ghost predicate Loops(blob: string, pos: int) {
    forall k: nat :: !Turns(blob, pos, k).ended
  }

  /** Once the loop has ended, more turns change nothing. */
  lemma {:induction false} EndedStays(blob: string, pos: int, k: nat, m: nat)
    requires k <= m && Turns(blob, pos, k).ended
    ensures Turns(blob, pos, m) == Turns(blob, pos, k)
    decreases k
  {
    var t := TurnAt(blob, pos);
    if !t.Stop? {
      EndedStays(blob, t.next, k - 1, m - 1);
    }
  }

  // ---- when the loop never ends ----

  /** The mark that the turn after the one at mark m finds. */
  function NextMark(blob: string, m: nat): Option<nat> {
    if !IsMark(blob, m) then None
    else
      var t := TurnFrom(blob, Some(m));
      if t.Stop? then None else MarkAt(blob, t.next)
  }

  function Stepper(blob: string): nat -> Option<nat> {
    m => NextMark(blob, m)
  }

  /** The mark that turn k finds, counting from 0. */
  function MarkAfter(blob: string, pos: int, k: nat): Option<nat> {
    Orbits.At(Stepper(blob), MarkAt(blob, pos), k)
  }

  lemma MarksStayInside(blob: string)
    ensures Orbits.Stays(Stepper(blob), |blob|)
  {
    forall m: nat ensures Stepper(blob)(m).Some? ==> Stepper(blob)(m).value < |blob| {
      var n := NextMark(blob, m);
      assert n.Some? ==> IsMark(blob, n.value);
    }
  }

  /** A turn and the next mark. */
  lemma TurnAndMark(blob: string, pos: int)
    ensures var x, t := MarkAt(blob, pos), TurnAt(blob, pos);
            && (x.None? ==> t.Stop?)
            && (x.Some? ==> NextMark(blob, x.value) == if t.Stop? then None else MarkAt(blob, t.next))
  {
  }

  /** The loop ends once there is no next mark, and not before the marks run out. */
  lemma {:induction false} EndsWithMarks(blob: string, pos: int, k: nat)
    ensures Turns(blob, pos, k).ended ==> MarkAfter(blob, pos, k).None?
    ensures MarkAfter(blob, pos, k).None? ==> Turns(blob, pos, k + 1).ended
    decreases k
  {
    TurnAndMark(blob, pos);
    var t := TurnAt(blob, pos);
    if t.Stop? {
      Orbits.AtNone(Stepper(blob), if k == 0 then 0 else k - 1);
    } else if k > 0 {
      EndsWithMarks(blob, t.next, k - 1);
    }
  }

  lemma SameMarkSameTurns(blob: string, p: int, q: int, k: nat)
    requires MarkAt(blob, p) == MarkAt(blob, q)
    ensures Turns(blob, p, k) == Turns(blob, q, k)
  {
    assert TurnAt(blob, p) == TurnAt(blob, q);
  }

  /** Turns a and b of the loop find the same mark. */
  ghost predicate Repeats(blob: string, pos: int, a: nat, b: nat) {
    a < b && MarkAfter(blob, pos, a).Some? && MarkAfter(blob, pos, a) == MarkAfter(blob, pos, b)
  }

  lemma RepeatLoops(blob: string, pos: int, a: nat, b: nat)
    requires Repeats(blob, pos, a, b)
    ensures Loops(blob, pos)
  {
    forall k: nat ensures !Turns(blob, pos, k).ended {
      Orbits.RepeatGoesOn(Stepper(blob), MarkAt(blob, pos), a, b, k);
      EndsWithMarks(blob, pos, k);
    }
  }

  /** A loop that has not ended after one turn more than the reply has characters has repeated a mark. */
  lemma LongRunRepeats(blob: string, pos: int) returns (a: nat, b: nat)
    requires !Turns(blob, pos, |blob| + 1).ended
    ensures b <= |blob| && Repeats(blob, pos, a, b)
  {
    EndsWithMarks(blob, pos, |blob|);
    MarksStayInside(blob);
    a, b := Orbits.LongRunRepeats(Stepper(blob), MarkAt(blob, pos), |blob|);
  }

  /**
    The loop runs for ever if and only if two of its turns find the same mark; it is enough to look
    at one turn more than the reply has characters.
   */
  lemma LoopsExactlyWhen(blob: string, pos: int)
    ensures Loops(blob, pos) <==> exists a: nat, b: nat :: Repeats(blob, pos, a, b)
    ensures Loops(blob, pos) <==> !Turns(blob, pos, |blob| + 1).ended
  {
    if !Turns(blob, pos, |blob| + 1).ended {
      var a, b := LongRunRepeats(blob, pos);
      RepeatLoops(blob, pos, a, b);
    }
    if a: nat, b: nat :| Repeats(blob, pos, a, b) {
      RepeatLoops(blob, pos, a, b);
    }
  }

  lemma {:induction false} FindMarkExactly(blob: string, from: nat, i: nat)
    requires from <= |blob|
    ensures FindMark(blob, from) == Some(i) <==> from <= i && IsMark(blob, i) && forall j: nat :: from <= j < i ==> !IsMark(blob, j)
    decreases |blob| - from
  {
    if from + 1 < |blob| && !IsMark(blob, from) {
      FindMarkExactly(blob, from + 1, i);
    }
  }

  lemma FindMarkBeyond(blob: string, from: nat, i: nat)
    requires from > |blob|
    ensures FindMark(blob, from) == None && !(from <= i && IsMark(blob, i))
  {
  }

  /**
    When a single turn comes back to its own mark i, whose header ends at nl and announces n bytes:
    the next position must lie at or before i, with no other mark in between.
   */
  lemma ReturnsToOwnMarkExactlyWhen(blob: string, pos: int, i: nat, nl: nat, h: Header)
    requires MarkAt(blob, pos) == Some(i) && FindNewline(blob, i) == Some(nl) && i + 2 <= nl
    requires ReadHeader(blob[i + 2..nl]) == Some(h)
    ensures var next := StartOf(blob, nl + 1 + h.n);
            Repeats(blob, pos, 0, 1) <==> next <= i && forall j: nat :: next <= j < i ==> !IsMark(blob, j)
    ensures Repeats(blob, pos, 0, 1) ==> h.n < 0
  {
    var next := nl + 1 + h.n;
    TurnFromParts(blob, i, nl, h);
    assert TurnAt(blob, pos).Yield? && TurnAt(blob, pos).next == next;
    TurnAndMark(blob, pos);
    assert MarkAfter(blob, pos, 1) == Orbits.At(Stepper(blob), MarkAt(blob, next), 0) == MarkAt(blob, next);
    if StartOf(blob, next) <= |blob| {
      FindMarkExactly(blob, StartOf(blob, next), i);
    } else {
      FindMarkBeyond(blob, StartOf(blob, next), i);
    }
  }

  // ---- marks that are no headers ----

  lemma SkipFromParts(blob: string, i: nat, nl: nat)
    requires IsMark(blob, i) && FindNewline(blob, i) == Some(nl) && i + 2 <= nl
    requires ReadHeader(blob[i + 2..nl]).None?
    ensures TurnFrom(blob, Some(i)) == Skip(nl + 1)
  {
  }

  lemma SkipTurn(blob: string, pos: int, next: int, k: nat)
    requires TurnAt(blob, pos) == Skip(next)
    ensures Turns(blob, pos, k + 1) == Turns(blob, next, k)
  {
    var rest := Turns(blob, next, k);
    assert Yields(Skip(next)) + rest.segments == rest.segments;
  }

  /** A line with a mark but no header is passed over to its end, and nothing is yielded for it. */
  lemma UnreadableLineIsSkipped(blob: string, pos: int, i: nat, nl: nat, k: nat)
    requires MarkAt(blob, pos) == Some(i) && FindNewline(blob, i) == Some(nl) && i + 2 <= nl
    requires ReadHeader(blob[i + 2..nl]).None?
    ensures Turns(blob, pos, k + 1) == Turns(blob, nl + 1, k)
  {
    SkipFromParts(blob, i, nl);
    SkipTurn(blob, pos, nl + 1, k);
  }

  /** What makes a header: three words, of which the second and third are integers. */
  lemma HeaderExactly(text: string)
    ensures ReadHeader(text).Some? <==>
              |Words(text)| == 3 && ParseInt(Words(text)[1]).Some? && ParseInt(Words(text)[2]).Some?
    ensures ReadHeader(text).Some? ==>
              var h := ReadHeader(text).value;
              h.marker == Words(text)[0] && Some(h.size) == ParseInt(Words(text)[1]) && Some(h.n) == ParseInt(Words(text)[2])
  {
  }

  lemma TurnFromParts(blob: string, i: nat, nl: nat, h: Header)
    requires IsMark(blob, i) && FindNewline(blob, i) == Some(nl) && i + 2 <= nl
    requires ReadHeader(blob[i + 2..nl]) == Some(h)
    ensures TurnFrom(blob, Some(i)) ==
            Yield(Segment(h.marker, h.size, Slice(blob, nl + 1, nl + 1 + h.n)), nl + 1 + h.n)
  {
  }

  lemma SliceBack(blob: string, from: nat, to: int)
    requires to < from
    ensures Slice(blob, from, to) == if to < 0 && from < |blob| + to then blob[from..|blob| + to] else ""
  {
  }

  /**
    A negative length: the next position is that far before the data, and the data is empty unless that
    position is before the reply, where it counts back from the end.
   */
  lemma NegativeLength(blob: string, pos: int, i: nat, nl: nat, h: Header)
    requires MarkAt(blob, pos) == Some(i) && FindNewline(blob, i) == Some(nl) && i + 2 <= nl
    requires ReadHeader(blob[i + 2..nl]) == Some(h) && h.n < 0
    ensures var next := nl + 1 + h.n;
            TurnAt(blob, pos) ==
              Yield(Segment(h.marker, h.size, if next < 0 && nl + 1 < |blob| + next then blob[nl + 1..|blob| + next] else ""), next)
  {
    TurnFromParts(blob, i, nl, h);
    SliceBack(blob, nl + 1, nl + 1 + h.n);
  }

  // ---- a reply that is one header ----

  /** "@@marker size n" and a newline, with a mark nowhere else. */
  function OneHeader(marker: string, size: int, n: int): string {
    ['@', '@'] + HeaderLine(marker, size, n) + ['\n']
  }

  function HeaderLine(marker: string, size: int, n: int): string {
    marker + [' '] + Str(size) + [' '] + Str(n)
  }

  lemma LineReads(marker: string, size: int, n: int)
    requires IsWord(marker)
    ensures ReadHeader(HeaderLine(marker, size, n)) == Some(Header(marker, size, n))
  {
    StrIsWord(size);
    StrIsWord(n);
    ThreeWords(marker, Str(size), Str(n));
    ParseStr(size);
    ParseStr(n);
  }

  lemma LineIsPlain(marker: string, size: int, n: int)
    requires IsWord(marker) && '@' !in marker
    ensures forall i :: 0 <= i < |HeaderLine(marker, size, n)| ==>
              HeaderLine(marker, size, n)[i] != '@' && HeaderLine(marker, size, n)[i] != '\n'
  {
    assert forall i :: 0 <= i < |marker| ==> !IsSpace(marker[i]) && marker[i] != '@';
  }

  lemma OneHeaderMarks(marker: string, size: int, n: int)
    requires IsWord(marker) && '@' !in marker
    ensures var blob := OneHeader(marker, size, n);
            && FindNewline(blob, 0) == Some(|blob| - 1) && blob[2..|blob| - 1] == HeaderLine(marker, size, n)
            && forall i: nat :: IsMark(blob, i) <==> i == 0
  {
    var blob, line := OneHeader(marker, size, n), HeaderLine(marker, size, n);
    LineIsPlain(marker, size, n);
    assert blob[0] == '@' && blob[1] == '@' && blob[|blob| - 1] == '\n';
    assert forall i :: 2 <= i < |blob| - 1 ==> blob[i] == line[i - 2];
    FindNewlineAt(blob, 0, |blob| - 1);
    assert blob[2..|blob| - 1] == line;
  }

  /**
    Such a reply makes the parser loop exactly when its length field points back to its start: by the
    whole length of the reply, or far enough below zero to count from the end twice over. Any other
    length, negative or not, is passed over and the parser stops.
   */
  lemma OneHeaderLoopsExactlyWhen(marker: string, size: int, n: int)
    requires IsWord(marker) && '@' !in marker
    ensures var blob := OneHeader(marker, size, n); Loops(blob, 0) <==> n == -|blob| || n <= -2 * |blob|
  {
    var blob := OneHeader(marker, size, n);
    OneHeaderMarks(marker, size, n);
    LineReads(marker, size, n);
    FindMarkExactly(blob, 0, 0);
    ReturnsToOwnMarkExactlyWhen(blob, 0, 0, |blob| - 1, Header(marker, size, n));
    if Repeats(blob, 0, 0, 1) {
      LoopsExactlyWhen(blob, 0);
    } else {
      OnlyMarkPassed(blob, |blob| + n);
      assert Turns(blob, 0, 2) == Parsed(Yields(TurnAt(blob, 0)) + Turns(blob, |blob| + n, 1).segments, Turns(blob, |blob| + n, 1).ended);
    }
  }

  lemma OnlyMarkPassed(blob: string, pos: int)
    requires (forall i: nat :: IsMark(blob, i) <==> i == 0) && StartOf(blob, pos) > 0
    ensures Turns(blob, pos, 1).ended
  {
    var from := StartOf(blob, pos);
    if from <= |blob| && FindMark(blob, from).Some? {
      FindMarkExactly(blob, from, FindMark(blob, from).value);
    }
  }

  /** For example "@@a 0 -9": its reader yields the same empty segment for ever. */
  lemma ShortLoop()
    ensures Loops("@@a 0 -9\n", 0)
  {
    assert Str(0) == ['0'] && StrNat(9) == ['9'] && Str(-9) == ['-', '9'];
    assert IsWord(['a']);
    assert OneHeader(['a'], 0, -9) == "@@a 0 -9\n";
    OneHeaderLoopsExactlyWhen(['a'], 0, -9);
  }

  // ---- the loop ----

  lemma Regroup(a: seq<Segment>, b: seq<Segment>, c: seq<Segment>)
    ensures a + (b + c) == a + b + c
  {
  }

  /** Some turns are done: what the whole loop does is what they yielded and what the rest does. */
  ghost predicate SoFar(blob: string, done: nat, segments: seq<Segment>, pos: int) {
    forall m: nat ::
      var rest := Turns(blob, pos, m);
      Turns(blob, 0, done + m) == Parsed(segments + rest.segments, rest.ended)
  }

  lemma OneMoreTurn(blob: string, done: nat, segments: seq<Segment>, pos: int)
    requires SoFar(blob, done, segments, pos) && !TurnAt(blob, pos).Stop?
    ensures SoFar(blob, done + 1, segments + Yields(TurnAt(blob, pos)), TurnAt(blob, pos).next)
  {
    var t := TurnAt(blob, pos);
    forall m: nat
      ensures Turns(blob, 0, done + 1 + m) ==
              Parsed(segments + Yields(t) + Turns(blob, t.next, m).segments, Turns(blob, t.next, m).ended)
    {
      var rest := Turns(blob, pos, m + 1);
      assert Turns(blob, 0, done + (m + 1)) == Parsed(segments + rest.segments, rest.ended);
      Regroup(segments, Yields(t), Turns(blob, t.next, m).segments);
    }
  }

  /**
    The parser's loop over a position. The source sets no bound on it; a loop that has not ended
    after one turn more than the reply has characters never will, and is reported as such.
   */
  method Parse(blob: string) returns (segments: seq<Segment>, loops: bool)
    ensures loops == Loops(blob, 0)
    ensures !loops ==> Parses(blob, 0, segments)
  {
    var pos, turns := 0, 0;
    segments := [];
    NothingSoFar(blob);
    while turns <= |blob|
      invariant turns <= |blob| + 1 && SoFar(blob, turns, segments, pos)
    {
      var t := TurnAt(blob, pos);
      if t.Stop? {
        StopsHere(blob, turns, segments, pos);
        return segments, false;
      }
      OneMoreTurn(blob, turns, segments, pos);
      segments, pos, turns := segments + Yields(t), t.next, turns + 1;
    }
    NeverStops(blob, segments, pos);
    return segments, true;
  }

  lemma StopsHere(blob: string, done: nat, segments: seq<Segment>, pos: int)
    requires SoFar(blob, done, segments, pos) && TurnAt(blob, pos).Stop?
    ensures Parses(blob, 0, segments) && !Loops(blob, 0)
  {
    assert Turns(blob, pos, 1) == Parsed([], true);
    assert Turns(blob, 0, done + 1) == Parsed(segments + [], true);
    assert segments + [] == segments;
  }

  lemma NothingSoFar(blob: string)
    ensures SoFar(blob, 0, [], 0)
  {
    forall m: nat ensures Turns(blob, 0, 0 + m) == Parsed([] + Turns(blob, 0, m).segments, Turns(blob, 0, m).ended) {
      assert [] + Turns(blob, 0, m).segments == Turns(blob, 0, m).segments;
    }
  }

  lemma NeverStops(blob: string, segments: seq<Segment>, pos: int)
    requires SoFar(blob, |blob| + 1, segments, pos)
    ensures Loops(blob, 0)
  {
    assert Turns(blob, pos, 0) == Parsed([], false);
    assert !Turns(blob, 0, |blob| + 1 + 0).ended;
    LoopsExactlyWhen(blob, 0);
  }

  /** What a loop yields is determined. */
  lemma ParsesOnce(blob: string, pos: int, a: seq<Segment>, b: seq<Segment>)
    requires Parses(blob, pos, a) && Parses(blob, pos, b)
    ensures a == b && !Loops(blob, pos)
  {
    var i: nat :| Turns(blob, pos, i) == Parsed(a, true);
    var j: nat :| Turns(blob, pos, j) == Parsed(b, true);
    if i <= j {
      EndedStays(blob, pos, i, j);
    } else {
      EndedStays(blob, pos, j, i);
    }
  }

  // ---- round trip ----

  predicate ValidMarker(m: string) {
    IsWord(m)
  }

  lemma {:induction false} FindNewlineAt(blob: string, from: nat, to: nat)
    requires from <= to < |blob| && blob[to] == '\n'
    requires forall i :: from <= i < to ==> blob[i] != '\n'
    ensures FindNewline(blob, from) == Some(to)
    decreases |blob| - from
  {
    if from < to {
      FindNewlineAt(blob, from + 1, to);
    }
  }

  lemma HeaderHasNoNewline(s: Segment)
    requires ValidMarker(s.marker)
    ensures forall i :: 0 <= i < |HeaderText(s)| ==> HeaderText(s)[i] != '\n'
  {
    assert forall i :: 0 <= i < |s.marker| ==> !IsSpace(s.marker[i]);
  }

  lemma StrIsWord(n: int)
    ensures IsWord(Str(n))
  {
  }

  /** Where the header of a printed segment is found. */
  lemma HeaderFound(pre: string, s: Segment, post: string)
    requires ValidMarker(s.marker)
    ensures var blob, nl := pre + Print(s) + post, |pre| + 3 + |HeaderText(s)|;
            && FindMark(blob, |pre|) == Some(|pre| + 1)
            && FindNewline(blob, |pre| + 1) == Some(nl)
            && nl + 1 + |s.data| <= |blob|
            && blob[|pre| + 3..nl] == HeaderText(s) && blob[nl + 1..nl + 1 + |s.data|] == s.data
  {
    var blob, pos, h := pre + Print(s) + post, |pre|, HeaderText(s);
    var nl := pos + 3 + |h|;
    assert blob == pre + (['\n', '@', '@'] + h + ['\n'] + s.data) + post;
    assert blob[pos] == '\n' && blob[pos + 1] == '@' && blob[pos + 2] == '@';
    assert FindMark(blob, pos) == FindMark(blob, pos + 1) == Some(pos + 1);
    assert blob[pos + 3..nl] == h;
    HeaderHasNoNewline(s);
    forall i | pos + 1 <= i < nl
      ensures blob[i] != '\n'
    {
      if i >= pos + 3 {
        assert blob[i] == h[i - (pos + 3)];
      }
    }
    FindNewlineAt(blob, pos + 1, nl);
  }

  /** The header text reads back as marker, size and length. */
  lemma HeaderReads(s: Segment)
    requires ValidMarker(s.marker)
    ensures ReadHeader(HeaderText(s)) == Some(Header(s.marker, s.size, |s.data|))
  {
    StrIsWord(s.size);
    StrIsWord(|s.data|);
    ThreeWords(s.marker, Str(s.size), Str(|s.data|));
    ParseStr(s.size);
    ParseStr(|s.data|);
  }

  lemma SliceInside(blob: string, from: nat, to: nat)
    requires from <= to <= |blob|
    ensures Slice(blob, from, to) == blob[from..to]
  {
  }

  lemma TurnByParts(blob: string, pos: nat, i: nat, nl: nat, h: Header, data: string)
    requires MarkAt(blob, pos) == Some(i) && FindNewline(blob, i) == Some(nl) && i + 2 <= nl
    requires ReadHeader(blob[i + 2..nl]) == Some(h)
    requires 0 <= h.n && nl + 1 + h.n <= |blob| && blob[nl + 1..nl + 1 + h.n] == data
    ensures TurnAt(blob, pos) == Yield(Segment(h.marker, h.size, data), nl + 1 + h.n)
  {
    TurnFromParts(blob, i, nl, h);
    SliceInside(blob, nl + 1, nl + 1 + h.n);
  }

  lemma SplitAt(blob: string, pos: nat, middle: string, post: string)
    requires pos <= |blob| && blob[pos..] == middle + post
    ensures blob == blob[..pos] + middle + post && pos + |middle| <= |blob| && blob[pos + |middle|..] == post
  {
    assert blob[pos..][|middle|..] == post;
  }

  /** Where the parts of a printed segment are. */
  lemma PrintedFound(blob: string, pos: nat, s: Segment, post: string)
    requires ValidMarker(s.marker) && pos <= |blob| && blob[pos..] == Print(s) + post
    ensures var nl := pos + 3 + |HeaderText(s)|;
            && MarkAt(blob, pos) == Some(pos + 1) && FindNewline(blob, pos + 1) == Some(nl)
            && nl + 1 + |s.data| <= |blob| && blob[nl + 1 + |s.data|..] == post
            && blob[pos + 3..nl] == HeaderText(s) && blob[nl + 1..nl + 1 + |s.data|] == s.data
  {
    SplitAt(blob, pos, Print(s), post);
    HeaderFound(blob[..pos], s, post);
  }

  /** A printed segment at the position is yielded as it was, and the parser lands right behind it. */
  lemma TurnAtPrinted(blob: string, pos: nat, s: Segment, post: string) returns (next: nat)
    requires ValidMarker(s.marker) && pos <= |blob| && blob[pos..] == Print(s) + post
    ensures pos < next <= |blob| && blob[next..] == post
    ensures TurnAt(blob, pos) == Yield(s, next)
  {
    var nl := pos + 3 + |HeaderText(s)|;
    next := nl + 1 + |s.data|;
    PrintedFound(blob, pos, s, post);
    HeaderReads(s);
    TurnByParts(blob, pos, pos + 1, nl, Header(s.marker, s.size, |s.data|), s.data);
  }

  /**
    Parsing the printed segments yields exactly those segments and ends, whatever the data contains:
    marks, newlines, or text that looks like a header.
   */
  lemma {:induction false} ParseInvertsPrint(blob: string, pos: nat, segs: seq<Segment>)
    requires forall s :: s in segs ==> ValidMarker(s.marker)
    requires pos <= |blob| && blob[pos..] == PrintAll(segs)
    ensures Turns(blob, pos, |segs| + 1) == Parsed(segs, true)
    decreases |segs|
  {
    if segs == [] {
      assert pos == |blob|;
    } else {
      var next := TurnAtPrinted(blob, pos, segs[0], PrintAll(segs[1..]));
      ParseInvertsPrint(blob, next, segs[1..]);
      assert Turns(blob, pos, |segs| + 1).segments == [segs[0]] + segs[1..] == segs;
    }
  }

  /** Text ahead of the first segment, such as a banner, is skipped as long as it contains no mark. */
  lemma {:induction false} BannerSkipped(banner: string, from: nat, s: Segment, post: string)
    requires from <= |banner| && forall i :: from <= i < |banner| - 1 ==> !(banner[i] == '@' && banner[i + 1] == '@')
    ensures FindMark(banner + Print(s) + post, from) == FindMark(banner + Print(s) + post, |banner|)
    decreases |banner| - from
  {
    var blob := banner + Print(s) + post;
    if from < |banner| {
      assert blob[from] == banner[from];
      assert blob[|banner|] == '\n';
      assert from + 1 < |banner| ==> blob[from + 1] == banner[from + 1];
      BannerSkipped(banner, from + 1, s, post);
    }
  }

  /** The whole reply, with a mark-free banner in front. */
  lemma ParseReply(banner: string, segs: seq<Segment>)
    requires forall s :: s in segs ==> ValidMarker(s.marker)
    requires forall i :: 0 <= i < |banner| - 1 ==> !(banner[i] == '@' && banner[i + 1] == '@')
    ensures segs != [] ==> Turns(banner + PrintAll(segs), 0, |segs| + 1) == Parsed(segs, true)
  {
    if segs != [] {
      var rest := PrintAll(segs[1..]);
      var blob := banner + PrintAll(segs);
      assert blob == banner + Print(segs[0]) + rest;
      BannerSkipped(banner, 0, segs[0], rest);
      assert blob[|banner|..] == PrintAll(segs);
      SameMarkSameTurns(blob, 0, |banner|, |segs| + 1);
      ParseInvertsPrint(blob, |banner|, segs);
    }
  }

  /** A line whose first mark, at i, begins no header. */
  ghost predicate IsNoise(noise: string, i: nat) {
    && '\n' !in noise && IsMark(noise, i) && (forall j: nat :: j < i ==> !IsMark(noise, j))
    && ReadHeader(noise[i + 2..]).None?
  }

  /** Where the mark of a line of noise is found, and its end. */
  lemma NoiseFound(noise: string, rest: string, i: nat)
    requires IsNoise(noise, i)
    ensures var blob := noise + ['\n'] + rest;
            && MarkAt(blob, 0) == Some(i) && FindNewline(blob, i) == Some(|noise|)
            && ReadHeader(blob[i + 2..|noise|]).None? && blob[|noise| + 1..] == rest
  {
    var blob := noise + ['\n'] + rest;
    assert forall j :: 0 <= j < |noise| ==> blob[j] == noise[j];
    forall j: nat | j < i ensures !IsMark(blob, j) {
      assert !IsMark(noise, j);
    }
    FindMarkExactly(blob, 0, i);
    FindNewlineAt(blob, i, |noise|);
    assert blob[i + 2..|noise|] == noise[i + 2..];
  }

  lemma NoiseThenRest(noise: string, rest: string, blob: string, i: nat, k: nat, segs: seq<Segment>)
    requires IsNoise(noise, i) && blob == noise + ['\n'] + rest
    requires Turns(blob, |noise| + 1, k) == Parsed(segs, true)
    ensures Parses(blob, 0, segs)
  {
    NoiseFound(noise, rest, i);
    UnreadableLineIsSkipped(blob, 0, i, |noise|, k);
  }

  lemma AfterLine(noise: string, rest: string, blob: string)
    requires blob == noise + ['\n'] + rest
    ensures |noise| + 1 <= |blob| && blob[|noise| + 1..] == rest
  {
  }

  /** A line of noise, even one with a mark in it, ahead of the segments does not disturb them. */
  lemma NoiseIsSkipped(noise: string, i: nat, segs: seq<Segment>, blob: string)
    requires IsNoise(noise, i) && forall s :: s in segs ==> ValidMarker(s.marker)
    requires blob == noise + ['\n'] + PrintAll(segs)
    ensures Parses(blob, 0, segs)
  {
    AfterLine(noise, PrintAll(segs), blob);
    ParseInvertsPrint(blob, |noise| + 1, segs);
    NoiseThenRest(noise, PrintAll(segs), blob, i, |segs| + 1, segs);
  }
}
