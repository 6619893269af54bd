/**
  Streaming of remote background output: each handle follows two capture files by byte offset and
  emits complete lines; one poll reads the new bytes of all handles in a single reply.
 */
module Streaming {
  import opened Base
  import opened Text
  import opened PollFormat

  /** What is known of one capture file: bytes consumed, the unfinished line, the lines emitted. */
  datatype Stream = Stream(off: nat, buf: string, lines: seq<string>)

  /** The stream has consumed exactly text, cut at its newlines. */
  ghost predicate Consumed(s: Stream, text: string) {
    s.off == |text| && s.lines + [s.buf] == SplitLines(text)
  }

  /** The bytes beyond the offset; none when the file is not longer. */
  function NewBytes(file: string, off: nat): string {
    if |file| > off then file[off..] else []
  }

  /** A stream after one poll of a file: the offset jumps to the file's size, the new bytes are cut into lines. */
  ghost function Polled(s: Stream, file: string): Stream {
    FeedSpec(s.(off := |file|), NewBytes(file, s.off))
  }

  ghost function FeedSpec(s: Stream, data: string): Stream {
    var parts := SplitLines(s.buf + data);
    if data == [] then s else s.(buf := parts[|parts| - 1], lines := s.lines + parts[..|parts| - 1])
  }

  /** Feeding keeps the lines and the remainder an exact split of everything fed. */
  lemma FeedIsExact(s: Stream, text: string, data: string)
    requires s.lines + [s.buf] == SplitLines(text)
    ensures var t := FeedSpec(s, data); t.lines + [t.buf] == SplitLines(text + data)
  {
    if data == [] {
      assert text + data == text;
    } else {
      var p, parts := SplitLines(text), SplitLines(s.buf + data);
      FrontAndLast(s.lines, s.buf);
      SplitLinesConcat(text, data);
      assert SplitLines(text + data) == s.lines + parts;
      Reassembled(s.lines, parts);
    }
  }

  lemma FrontAndLast(front: seq<string>, last: string)
    ensures var p := front + [last]; p[..|p| - 1] == front && p[|p| - 1] == last
  {
  }

  lemma Reassembled(lines: seq<string>, parts: seq<string>)
    requires parts != []
    ensures lines + parts[..|parts| - 1] + [parts[|parts| - 1]] == lines + parts
  {
    assert parts == parts[..|parts| - 1] + [parts[|parts| - 1]];
  }

  /** One poll of a file that only grew brings the stream up to the whole file. */
  lemma PollCatchesUp(s: Stream, was: string, file: string)
    requires Consumed(s, was) && was <= file
    ensures Consumed(Polled(s, file), file)
  {
    FeedIsExact(s, was, NewBytes(file, s.off));
    assert was + NewBytes(file, s.off) == file;
  }

  /** The stream after polling a sequence of snapshots of a file. */
  ghost function PollRun(s: Stream, snapshots: seq<string>): Stream {
    if snapshots == [] then s else Polled(PollRun(s, snapshots[..|snapshots| - 1]), snapshots[|snapshots| - 1])
  }

  ghost predicate OnlyGrows(snapshots: seq<string>) {
    forall i, j :: 0 <= i < j < |snapshots| ==> snapshots[i] <= snapshots[j]
  }

  /**
    Chunking independence: whatever the poll times, after any number of polls of a growing file
    the lines emitted and the remainder are exactly the last snapshot split at its newlines.
   */
  lemma {:induction false} StreamingIsExact(snapshots: seq<string>)
    requires snapshots != [] && OnlyGrows(snapshots)
    ensures Consumed(PollRun(Stream(0, [], []), snapshots), snapshots[|snapshots| - 1])
    decreases |snapshots|
  {
    var n := |snapshots| - 1;
    var init := snapshots[..n];
    if n == 0 {
      assert Consumed(Stream(0, [], []), []);
      assert PollRun(Stream(0, [], []), init) == Stream(0, [], []);
      PollCatchesUp(Stream(0, [], []), [], snapshots[0]);
    } else {
      StreamingIsExact(init);
      PollCatchesUp(PollRun(Stream(0, [], []), init), init[n - 1], snapshots[n]);
    }
  }

  /** Lines and remainder give back the file; the remainder is empty unless the file ends inside a line. */
  lemma ConsumedIsWhole(s: Stream, text: string)
    requires Consumed(s, text)
    ensures JoinLines(s.lines + [s.buf]) == text
    ensures s.buf == [] <==> text == [] || text[|text| - 1] == '\n'
  {
    SplitLinesIsExact(text);
    LastPart(text);
  }

  lemma {:induction false} LastPart(text: string)
    ensures var p := SplitLines(text); p[|p| - 1] == [] <==> text == [] || text[|text| - 1] == '\n'
  {
    if text != [] {
      LastPart(text[1..]);
      if text[1..] == [] {
        assert text == [text[0]];
      } else {
        assert text[|text| - 1] == text[1..][|text| - 2];
      }
    }
  }

  /** A background process as the poller sees it. */
  class Handle {
    const id: string
    var out: Stream
    var err: Stream

    constructor (id: string)
      ensures this.id == id && out == Stream(0, [], []) && err == Stream(0, [], [])
    {
      this.id := id;
      out, err := Stream(0, [], []), Stream(0, [], []);
    }

    /** Buffers new output of one stream and emits its complete lines. */
    method Feed(isOut: bool, data: string)
      modifies this
      ensures out == if isOut then FeedSpec(old(out), data) else old(out)
      ensures err == if isOut then old(err) else FeedSpec(old(err), data)
    {
      if data == [] {
        return;
      }
      if isOut {
        var parts := SplitLines(out.buf + data);
        out := out.(buf := parts[|parts| - 1], lines := out.lines + parts[..|parts| - 1]);
      } else {
        var parts := SplitLines(err.buf + data);
        err := err.(buf := parts[|parts| - 1], lines := err.lines + parts[..|parts| - 1]);
      }
    }

    /** Emits the unfinished lines at the end. */
    method FlushPartial()
      modifies this
      ensures out == Flushed(old(out)) && err == Flushed(old(err))
    {
      if out.buf != [] {
        out := out.(lines := out.lines + [out.buf], buf := []);
      }
      if err.buf != [] {
        err := err.(lines := err.lines + [err.buf], buf := []);
      }
    }
  }

  ghost function Flushed(s: Stream): Stream {
    if s.buf == [] then s else s.(lines := s.lines + [s.buf], buf := [])
  }

  /** The text of whole lines: each is followed by a newline. */
  function Written(lines: seq<string>): string {
    if lines == [] then [] else lines[0] + (['\n'] + Written(lines[1..]))
  }

  predicate NoNewlines(lines: seq<string>) {
    forall i :: 0 <= i < |lines| ==> '\n' !in lines[i]
  }

  predicate EndsInLine(text: string) {
    text != [] && text[|text| - 1] != '\n'
  }

  lemma {:induction false} WrittenThenRest(lines: seq<string>, rest: string)
    ensures JoinLines(lines + [rest]) == Written(lines) + rest
  {
    if lines == [] {
      assert lines + [rest] == [rest];
    } else {
      var first, tail := lines[0], Written(lines[1..]);
      WrittenThenRest(lines[1..], rest);
      assert (lines + [rest])[1..] == lines[1..] + [rest];
      assert first + (['\n'] + tail) + rest == first + (['\n'] + (tail + rest));
    }
  }

  lemma {:induction false} WrittenMore(lines: seq<string>, last: string)
    ensures Written(lines + [last]) == Written(lines) + (last + ['\n'])
  {
    if lines == [] {
      assert lines + [last] == [last];
      assert last + (['\n'] + []) == [] + (last + ['\n']);
    } else {
      var first, tail := lines[0], Written(lines[1..]);
      WrittenMore(lines[1..], last);
      assert (lines + [last])[1..] == lines[1..] + [last];
      assert first + (['\n'] + tail) + (last + ['\n']) == first + (['\n'] + (tail + (last + ['\n'])));
    }
  }

  /**
    After the final flush nothing is held back, and the emitted lines are exactly the lines of the
    file: written out they give the file, with the newline its last line may lack.
   */
  lemma FlushEmitsWholeFile(s: Stream, text: string)
    requires Consumed(s, text)
    ensures var t := Flushed(s);
            && t.buf == [] && t.off == |text| && NoNewlines(t.lines)
            && Written(t.lines) == (if EndsInLine(text) then text + ['\n'] else text)
            && |t.lines| == |SplitLines(text)| - (if EndsInLine(text) then 0 else 1)
  {
    ConsumedIsWhole(s, text);
    WrittenThenRest(s.lines, s.buf);
    SplitLinesIsExact(text);
    WrittenMore(s.lines, s.buf);
    assert forall i :: 0 <= i < |s.lines| ==> (s.lines + [s.buf])[i] == s.lines[i] && s.lines[i] in SplitLines(text);
    assert s.buf in s.lines + [s.buf];
    assert Written(s.lines) + (s.buf + ['\n']) == Written(s.lines) + s.buf + ['\n'];
  }

  lemma FirstLines(x: string, y: string, rest: string, tail: string)
    requires '\n' !in x && '\n' !in y && x + (['\n'] + rest) == y + (['\n'] + tail)
    ensures x == y && rest == tail
  {
    var s, t := x + (['\n'] + rest), y + (['\n'] + tail);
    assert s[|x|] == '\n' && t[|y|] == '\n';
    assert forall i :: 0 <= i < |x| ==> s[i] == x[i];
    assert forall i :: 0 <= i < |y| ==> t[i] == y[i];
    assert x == s[..|x|] && y == t[..|y|] && rest == s[|x| + 1..] && tail == t[|y| + 1..];
  }

  /** A text is written by only one list of lines. */
  lemma {:induction false} LinesAreDetermined(a: seq<string>, b: seq<string>)
    requires NoNewlines(a) && NoNewlines(b) && Written(a) == Written(b)
    ensures a == b
  {
    if a != [] && b != [] {
      FirstLines(a[0], b[0], Written(a[1..]), Written(b[1..]));
      LinesAreDetermined(a[1..], b[1..]);
      assert a == [a[0]] + a[1..] && b == [b[0]] + b[1..];
    }
  }

  // ---- one poll of all handles ----

  /** The remote files of one handle. */
  datatype Files = Files(out: string, err: string)

  function OutSegment(id: string, off: nat, f: Files): Segment {
    Segment(['O', ':'] + id, |f.out|, NewBytes(f.out, off))
  }

  function ErrSegment(id: string, off: nat, f: Files): Segment {
    Segment(['E', ':'] + id, |f.err|, NewBytes(f.err, off))
  }

  /** marker.partition(":")[2] for a marker that starts with a one-letter kind. */
  function HandleId(marker: string): (id: string)
    ensures |marker| >= 2 && marker[1] == ':' && marker[0] != ':' ==> id == marker[2..]
  {
    if |marker| == 0 then [] else if marker[0] == ':' then marker[1..] else HandleId(marker[1..])
  }

  /** A handle's streams at some moment. */
  datatype Snapshot = Snapshot(id: string, out: Stream, err: Stream)

  function SegmentAt(was: seq<Snapshot>, files: string -> Files, j: nat): Segment
    requires j < 2 * |was|
  {
    var h := was[j / 2];
    if j % 2 == 0 then OutSegment(h.id, h.out.off, files(h.id)) else ErrSegment(h.id, h.err.off, files(h.id))
  }

  /** The segments of one poll: stdout and stderr of each handle in turn. */
  function Segments(was: seq<Snapshot>, files: string -> Files): seq<Segment> {
    seq(2 * |was|, j requires 0 <= j < 2 * |was| => SegmentAt(was, files, j))
  }

  /** Handles are distinct and carry distinct ids without whitespace. */
  ghost predicate WellFormed(handles: seq<Handle>) {
    && (forall i, j :: 0 <= i < j < |handles| ==> handles[i] != handles[j] && handles[i].id != handles[j].id)
    && (forall i :: 0 <= i < |handles| ==> IsWord(handles[i].id))
  }

  /** Hands one segment of the reply to the handle it names; unknown names are ignored. */
  method Deliver(handles: seq<Handle>, s: Segment, ghost k: nat)
    requires WellFormed(handles) && k < |handles| && s.size >= 0
    requires s.marker == ['O', ':'] + handles[k].id || s.marker == ['E', ':'] + handles[k].id
    modifies handles
    ensures forall i :: 0 <= i < |handles| && i != k ==> unchanged(handles[i])
    ensures var h := handles[k];
            if s.marker[0] == 'O'
            then h.out == FeedSpec(old(h.out).(off := s.size), s.data) && h.err == old(h.err)
            else h.err == FeedSpec(old(h.err).(off := s.size), s.data) && h.out == old(h.out)
  {
    var id := HandleId(s.marker);
    for i := 0 to |handles|
      invariant i <= k
      invariant forall j :: 0 <= j < |handles| ==> unchanged(handles[j])
    {
      if handles[i].id == id {
        var h := handles[i];
        if s.marker[0] == 'O' {
          h.out := h.out.(off := s.size);
          h.Feed(true, s.data);
        } else {
          h.err := h.err.(off := s.size);
          h.Feed(false, s.data);
        }
        return;
      }
      assert i != k;
    }
  }

  function TakeSnapshot(h: Handle): Snapshot
    reads h
  {
    Snapshot(h.id, h.out, h.err)
  }

  /** After the first j segments, exactly the streams they belong to have been brought up to date. */
  ghost predicate DeliveredUpTo(handles: seq<Handle>, was: seq<Snapshot>, files: string -> Files, j: nat)
    requires |was| == |handles|
    reads handles
  {
    forall k :: 0 <= k < |handles| ==>
      && handles[k].out == (if 2 * k < j then Polled(was[k].out, files(was[k].id).out) else was[k].out)
      && handles[k].err == (if 2 * k + 1 < j then Polled(was[k].err, files(was[k].id).err) else was[k].err)
  }

  method DeliverOne(handles: seq<Handle>, ghost was: seq<Snapshot>, ghost files: string -> Files, s: Segment, ghost j: nat)
    requires WellFormed(handles) && |was| == |handles| && forall k :: 0 <= k < |was| ==> was[k].id == handles[k].id
    requires j < 2 * |was| && s == SegmentAt(was, files, j) && DeliveredUpTo(handles, was, files, j)
    modifies handles
    ensures DeliveredUpTo(handles, was, files, j + 1)
  {
    Deliver(handles, s, j / 2);
  }

  /** The remote command and the parser together: the reply reads back as the segments that were due. */
  method Exchange(was: seq<Snapshot>, files: string -> Files, reached: bool) returns (segments: seq<Segment>)
    requires forall i :: 0 <= i < |was| ==> IsWord(was[i].id)
    ensures segments == if reached then Segments(was, files) else []
  {
    var due := Segments(was, files);
    var reply := if reached then PrintAll(due) else [];
    var loops;
    segments, loops := Parse(reply);
    if reached {
      MarkersValid(was, files);
      ParseInvertsPrint(reply, 0, due);
      assert Parses(reply, 0, due);
      ParsesOnce(reply, 0, due, if loops then due else segments);
    } else {
      assert Turns(reply, 0, 1) == Parsed([], true);
      assert Parses(reply, 0, []);
      ParsesOnce(reply, 0, [], if loops then [] else segments);
    }
  }

  lemma MarkersValid(was: seq<Snapshot>, files: string -> Files)
    requires forall i :: 0 <= i < |was| ==> IsWord(was[i].id)
    ensures forall s :: s in Segments(was, files) ==> ValidMarker(s.marker)
  {
    forall s | s in Segments(was, files)
      ensures ValidMarker(s.marker)
    {
      var j :| 0 <= j < 2 * |was| && SegmentAt(was, files, j) == s;
      assert IsWord(was[j / 2].id);
    }
  }

  method DeliverAll(handles: seq<Handle>, was: seq<Snapshot>, ghost files: string -> Files, segments: seq<Segment>)
    requires WellFormed(handles) && |was| == |handles|
    requires forall k :: 0 <= k < |was| ==> was[k] == TakeSnapshot(handles[k])
    requires segments == Segments(was, files)
    modifies handles
    ensures DeliveredUpTo(handles, was, files, 2 * |was|)
  {
    for j := 0 to |segments|
      invariant DeliveredUpTo(handles, was, files, j)
    {
      DeliverOne(handles, was, files, segments[j], j);
    }
  }

  /**
    One poll. When the reply arrives, every handle's two streams are polled; when the control
    channel fails, nothing changes and the next poll catches up.
   */
  method PollOnce(handles: seq<Handle>, files: string -> Files, reached: bool)
    requires WellFormed(handles)
    modifies handles
    ensures forall k :: 0 <= k < |handles| ==>
              && handles[k].out == (if reached then Polled(old(handles[k].out), files(handles[k].id).out) else old(handles[k].out))
              && handles[k].err == (if reached then Polled(old(handles[k].err), files(handles[k].id).err) else old(handles[k].err))
  {
    var was := seq(|handles|, i requires 0 <= i < |handles| reads handles => TakeSnapshot(handles[i]));
    var segments := Exchange(was, files, reached);
    if reached {
      DeliverAll(handles, was, files, segments);
    }
  }
}
