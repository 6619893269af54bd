/**
  Creating many remote directories with few commands: names are quoted for the shell and packed
  greedily into commands of bounded length.
 */
module RemoteMkdir {
  import opened Base

  const LIMIT := 24000

  // ---- quoting ----

  predicate IsSafe(c: char) {
    || 'a' <= c <= 'z' || 'A' <= c <= 'Z' || '0' <= c <= '9'
    || c in ['@', '%', '+', '=', ':', ',', '.', '/', '-', '_']
  }

  /** A single quote inside single quotes: close, quote it in double quotes, reopen. */
  function Escape(s: string): string {
    if s == [] then [] else (if s[0] == '\'' then ['\'', '"', '\'', '"', '\''] else [s[0]]) + Escape(s[1..])
  }

  predicate AllSafe(s: string) {
    forall i :: 0 <= i < |s| ==> IsSafe(s[i])
  }

  /** shlex.quote */
  function Quote(s: string): string {
    if s == [] then ['\'', '\'']
    else if AllSafe(s) then s
    else ['\''] + Escape(s) + ['\'']
  }

  // ---- what a shell makes of a command line ----

  datatype Mode = Plain | Single | Double

  /** Characters that mean something to a shell outside quotes, and inside double quotes. */
  predicate IsMeta(c: char) {
    || c == '$' || c == '`' || c == '\\' || c == ';' || c == '&' || c == '|' || c == '<' || c == '>' || c == '(' || c == ')'
    || c == '*' || c == '?' || c == '[' || c == ']' || c == '{' || c == '}' || c == '~' || c == '#' || c == '!'
    || c == '\t' || c == '\n'
  }

  predicate IsMetaInDouble(c: char) {
    c == '$' || c == '`' || c == '\\'
  }

  /**
    The words of a command line, read from left to right; word is the one being collected, if any.
    Reading stops at a character that has a special meaning where it stands.
   */
  function ShellWords(cmd: string, mode: Mode, word: Option<string>): seq<string>
    decreases |cmd|
  {
    var sofar := if word.Some? then word.value else [];
    if cmd == [] then (if word.Some? then [sofar] else [])
    else
      var c, rest := cmd[0], cmd[1..];
      match mode
      case Single => if c == '\'' then ShellWords(rest, Plain, word) else ShellWords(rest, Single, Some(sofar + [c]))
      case Double =>
        if c == '"' then ShellWords(rest, Plain, word)
        else if IsMetaInDouble(c) then []
        else ShellWords(rest, Double, Some(sofar + [c]))
      case Plain =>
        if c == ' ' then (if word.Some? then [sofar] else []) + ShellWords(rest, Plain, None)
        else if c == '\'' then ShellWords(rest, Single, Some(sofar))
        else if c == '"' then ShellWords(rest, Double, Some(sofar))
        else if IsMeta(c) then []
        else ShellWords(rest, Plain, Some(sofar + [c]))
  }

  lemma ReadOne(c: char, rest: string)
    ensures ([c] + rest)[0] == c && ([c] + rest)[1..] == rest
  {
  }

  /** The characters left alone are the printable ones without any meaning to a shell, except the caret. */
  lemma SafeExactlyWhen(c: char)
    ensures IsSafe(c) <==> '!' <= c <= '~' && !IsMeta(c) && c != '\'' && c != '"' && c != '^'
  {
  }

  lemma {:induction false} ReadSafe(t: string, rest: string, sofar: string)
    requires AllSafe(t)
    ensures ShellWords(t + rest, Plain, Some(sofar)) == ShellWords(rest, Plain, Some(sofar + t))
    decreases |t|
  {
    if t == [] {
      assert t + rest == rest && sofar + t == sofar;
    } else {
      assert (t + rest)[0] == t[0] && (t + rest)[1..] == t[1..] + rest;
      SafeExactlyWhen(t[0]);
      ReadSafe(t[1..], rest, sofar + [t[0]]);
      assert sofar + [t[0]] + t[1..] == sofar + t;
    }
  }

  /** The five-character escape leaves one quote in the word and the reader back inside single quotes. */
  lemma ReadEscapedQuote(rest: string, sofar: string)
    ensures ShellWords(['\'', '"', '\'', '"', '\''] + rest, Single, Some(sofar))
         == ShellWords(rest, Single, Some(sofar + ['\'']))
  {
    var a := ['\''] + rest;
    var b := ['"'] + a;
    var c := ['\''] + b;
    var d := ['"'] + c;
    var e := ['\''] + d;
    assert e == ['\'', '"', '\'', '"', '\''] + rest;
    assert e[1..] == d && d[1..] == c && c[1..] == b && b[1..] == a && a[1..] == rest;
    assert ShellWords(e, Single, Some(sofar)) == ShellWords(d, Plain, Some(sofar));
    assert ShellWords(d, Plain, Some(sofar)) == ShellWords(c, Double, Some(sofar));
    assert ShellWords(c, Double, Some(sofar)) == ShellWords(b, Double, Some(sofar + ['\'']));
    assert ShellWords(b, Double, Some(sofar + ['\''])) == ShellWords(a, Plain, Some(sofar + ['\'']));
    assert ShellWords(a, Plain, Some(sofar + ['\''])) == ShellWords(rest, Single, Some(sofar + ['\'']));
  }

  lemma {:induction false} ReadEscaped(s: string, rest: string, sofar: string)
    ensures ShellWords(Escape(s) + rest, Single, Some(sofar)) == ShellWords(rest, Single, Some(sofar + s))
    decreases |s|
  {
    if s == [] {
      assert Escape(s) + rest == rest && sofar + s == sofar;
    } else {
      var tail := Escape(s[1..]) + rest;
      assert s == [s[0]] + s[1..];
      assert sofar + [s[0]] + s[1..] == sofar + s;
      if s[0] == '\'' {
        assert Escape(s) + rest == ['\'', '"', '\'', '"', '\''] + tail;
        ReadEscapedQuote(tail, sofar);
      } else {
        assert Escape(s) + rest == [s[0]] + tail;
        ReadOne(s[0], tail);
      }
      ReadEscaped(s[1..], rest, sofar + [s[0]]);
    }
  }

  /** What follows a word: nothing, or a blank and more. */
  function After(rest: string): string {
    if rest == [] then [] else rest[1..]
  }

  lemma EndOfWord(rest: string, w: string)
    requires rest == [] || rest[0] == ' '
    ensures ShellWords(rest, Plain, Some(w)) == [w] + ShellWords(After(rest), Plain, None)
  {
  }

  lemma SafeReadsBack(s: string, rest: string)
    requires s != [] && AllSafe(s) && (rest == [] || rest[0] == ' ')
    ensures ShellWords(s + rest, Plain, None) == [s] + ShellWords(After(rest), Plain, None)
  {
    assert (s + rest)[0] == s[0] && (s + rest)[1..] == s[1..] + rest;
    SafeExactlyWhen(s[0]);
    ReadSafe(s[1..], rest, [s[0]]);
    assert [] + [s[0]] == [s[0]] && [s[0]] + s[1..] == s;
    EndOfWord(rest, s);
  }

  lemma EscapedReadsBack(s: string, rest: string)
    requires rest == [] || rest[0] == ' '
    ensures ShellWords(['\''] + Escape(s) + ['\''] + rest, Plain, None) == [s] + ShellWords(After(rest), Plain, None)
  {
    var tail := ['\''] + rest;
    var cmd := ['\''] + (Escape(s) + tail);
    assert ['\''] + Escape(s) + ['\''] + rest == cmd;
    ReadOne('\'', Escape(s) + tail);
    ReadEscaped(s, tail, []);
    assert [] + s == s;
    ReadOne('\'', rest);
    EndOfWord(rest, s);
  }

  /** A quoted name reads back as that name, whatever characters it has. */
  lemma QuoteReadsBack(s: string, rest: string)
    requires rest == [] || rest[0] == ' '
    ensures ShellWords(Quote(s) + rest, Plain, None) == [s] + ShellWords(After(rest), Plain, None)
  {
    if s != [] && AllSafe(s) {
      SafeReadsBack(s, rest);
    } else {
      EscapedReadsBack(s, rest);
      assert s == [] ==> ['\''] + Escape(s) + ['\''] == ['\'', '\''];
    }
  }

  /** A name is left as it is exactly when it has characters and all of them are harmless. */
  lemma QuoteOnlyWhereNeeded(s: string)
    ensures Quote(s) == s <==> s != [] && forall i :: 0 <= i < |s| ==> IsSafe(s[i])
  {
    EscapeIsLonger(s);
  }

  lemma {:induction false} EscapeIsLonger(s: string)
    ensures |Escape(s)| >= |s|
  {
    if s != [] {
      EscapeIsLonger(s[1..]);
    }
  }

  // ---- commands ----

  const MKDIR := "mkdir"
  const OPTION := "-p"

  function Quoted(dirs: seq<string>): (r: seq<string>)
    ensures |r| == |dirs|
  {
    if dirs == [] then [] else [Quote(dirs[0])] + Quoted(dirs[1..])
  }

  /** A command word, an option, and the batch, separated by blanks. */
  function CommandLine(command: string, option: string, batch: seq<string>): string {
    command + ([' '] + (option + Args(batch)))
  }

  function Args(batch: seq<string>): string {
    if batch == [] then [] else [' '] + (batch[0] + Args(batch[1..]))
  }

  /** "mkdir -p" and the quoted names of a batch. */
  function Command(batch: seq<string>): string {
    CommandLine(MKDIR, OPTION, batch)
  }

  /** The length the source keeps in its running counter, starting at that of "mkdir -p". */
  function Size(batch: seq<string>): nat {
    8 + ArgsSize(batch)
  }

  function ArgsSize(batch: seq<string>): nat {
    if batch == [] then 0 else 1 + |batch[0]| + ArgsSize(batch[1..])
  }

  /** The counter is exactly the length of the command. */
  lemma {:induction false} SizeIsExact(batch: seq<string>)
    ensures |Args(batch)| == ArgsSize(batch) && |Command(batch)| == Size(batch)
  {
    if batch != [] {
      SizeIsExact(batch[1..]);
    }
  }

  lemma {:induction false} SizeAppend(batch: seq<string>, q: string)
    ensures ArgsSize(batch + [q]) == ArgsSize(batch) + 1 + |q|
  {
    if batch == [] {
      assert batch + [q] == [q];
    } else {
      assert (batch + [q])[1..] == batch[1..] + [q];
      SizeAppend(batch[1..], q);
    }
  }

  lemma ArgsStart(batch: seq<string>)
    ensures Args(batch) == [] <==> batch == []
    ensures batch != [] ==> Args(batch)[0] == ' ' && After(Args(batch)) == batch[0] + Args(batch[1..])
  {
    if batch != [] {
      ReadOne(' ', batch[0] + Args(batch[1..]));
    }
  }

  lemma {:induction false} ArgsReadBack(dirs: seq<string>)
    requires dirs != []
    ensures ShellWords(After(Args(Quoted(dirs))), Plain, None) == dirs
    decreases |dirs|
  {
    var q := Quoted(dirs);
    ArgsStart(q);
    ArgsStart(q[1..]);
    assert q[0] == Quote(dirs[0]) && q[1..] == Quoted(dirs[1..]);
    QuoteReadsBack(dirs[0], Args(q[1..]));
    if dirs[1..] != [] {
      ArgsReadBack(dirs[1..]);
    } else {
      assert After(Args(q[1..])) == [];
    }
    assert dirs == [dirs[0]] + dirs[1..];
  }

  lemma TwoSafeWords(a: string, b: string, args: string)
    requires a != [] && b != [] && AllSafe(a) && AllSafe(b) && (args == [] || args[0] == ' ')
    ensures ShellWords(a + ([' '] + (b + args)), Plain, None) == [a] + ([b] + ShellWords(After(args), Plain, None))
  {
    var second := [' '] + (b + args);
    SafeReadsBack(a, second);
    assert After(second) == b + args;
    SafeReadsBack(b, args);
  }

  /** The shell sees the command word, the option, and exactly the directories, whatever their names. */
  lemma CommandReadsBack(command: string, option: string, dirs: seq<string>)
    requires dirs != [] && command != [] && option != [] && AllSafe(command) && AllSafe(option)
    ensures ShellWords(CommandLine(command, option, Quoted(dirs)), Plain, None) == [command] + ([option] + dirs)
  {
    ArgsReadBack(dirs);
    TwoSafeWords(command, option, Args(Quoted(dirs)));
  }

  lemma MkdirWordsAreSafe()
    ensures AllSafe(MKDIR) && AllSafe(OPTION)
  {
  }

  // ---- packing ----

  /** The batches for the quoted names still to come, after those already in batch. */
  function Plan(batch: seq<string>, names: seq<string>): seq<seq<string>>
    decreases |names|
  {
    if names == [] then (if batch == [] then [] else [batch])
    else if batch != [] && Size(batch) + |names[0]| + 1 > LIMIT then [batch] + Plan([names[0]], names[1..])
    else Plan(batch + [names[0]], names[1..])
  }

  function Flatten(batches: seq<seq<string>>): seq<string> {
    if batches == [] then [] else batches[0] + Flatten(batches[1..])
  }

  ghost predicate Fits(batch: seq<string>) {
    batch != [] && (Size(batch) <= LIMIT || |batch| == 1)
  }

  lemma FlattenCons(batch: seq<string>, later: seq<seq<string>>)
    ensures Flatten([batch] + later) == batch + Flatten(later)
  {
    assert ([batch] + later)[1..] == later;
  }

  /** Every name is in exactly one batch, in the given order. */
  lemma {:induction false} PlanIsComplete(batch: seq<string>, names: seq<string>)
    ensures Flatten(Plan(batch, names)) == batch + names
    decreases |names|
  {
    if names == [] {
      FlattenCons(batch, []);
      assert [batch] + [] == [batch] && batch + names == batch;
    } else {
      var d, rest := names[0], names[1..];
      assert batch + ([d] + rest) == batch + names == batch + [d] + rest;
      PlanIsComplete([d], rest);
      PlanIsComplete(batch + [d], rest);
      FlattenCons(batch, Plan([d], rest));
    }
  }

  /** No command is empty, and only a single overlong name makes one longer than the limit. */
  lemma {:induction false} PlanFits(batch: seq<string>, names: seq<string>, i: nat)
    requires batch == [] || Fits(batch)
    requires i < |Plan(batch, names)|
    ensures Fits(Plan(batch, names)[i])
    ensures |Command(Plan(batch, names)[i])| <= 24000 || |Plan(batch, names)[i]| == 1
    decreases |names|
  {
    SizeIsExact(Plan(batch, names)[i]);
    if names != [] {
      var d, rest := names[0], names[1..];
      SizeAppend(batch, d);
      if batch != [] && Size(batch) + |d| + 1 > LIMIT {
        if i > 0 {
          PlanFits([d], rest, i - 1);
        }
      } else {
        PlanFits(batch + [d], rest, i);
      }
    }
  }

  lemma {:induction false} PlanStarts(batch: seq<string>, names: seq<string>)
    requires batch != []
    ensures Plan(batch, names) != [] && batch <= Plan(batch, names)[0]
    decreases |names|
  {
    if names != [] && Size(batch) + |names[0]| + 1 <= LIMIT {
      PlanStarts(batch + [names[0]], names[1..]);
    }
  }

  /** No batch could have taken the first name of the next one. */
  lemma {:induction false} PlanIsGreedy(batch: seq<string>, names: seq<string>, i: nat)
    requires (batch == [] || Fits(batch)) && i + 1 < |Plan(batch, names)|
    ensures var p := Plan(batch, names); p[i + 1] != [] && Size(p[i]) + 1 + |p[i + 1][0]| > LIMIT
    ensures var p := Plan(batch, names); |Command(p[i])| + 1 + |p[i + 1][0]| > 24000
    decreases |names|
  {
    PlanFits(batch, names, i + 1);
    SizeIsExact(Plan(batch, names)[i]);
    var d, rest := names[0], names[1..];
    SizeAppend(batch, d);
    if batch != [] && Size(batch) + |d| + 1 > LIMIT {
      PlanStarts([d], rest);
      if i > 0 {
        PlanIsGreedy([d], rest, i - 1);
      }
    } else {
      PlanIsGreedy(batch + [d], rest, i);
    }
  }

  /** The commands that get sent: the plan's, up to and including the first that fails. */
  function Sent(plan: seq<seq<string>>, ok: string -> bool): seq<string> {
    if plan == [] then []
    else [Command(plan[0])] + if ok(Command(plan[0])) then Sent(plan[1..], ok) else []
  }

  function AllOk(plan: seq<seq<string>>, ok: string -> bool): bool {
    plan == [] || (ok(Command(plan[0])) && AllOk(plan[1..], ok))
  }

  lemma SentCons(batch: seq<string>, later: seq<seq<string>>, ok: string -> bool)
    ensures Sent([batch] + later, ok) == [Command(batch)] + if ok(Command(batch)) then Sent(later, ok) else []
    ensures AllOk([batch] + later, ok) == (ok(Command(batch)) && AllOk(later, ok))
  {
    assert ([batch] + later)[1..] == later;
  }

  /** What is still owed: after sent, the rest of the plan goes on from the batch being filled. */
  ghost predicate Owed(plan: seq<seq<string>>, sent: seq<string>, batch: seq<string>, names: seq<string>, ok: string -> bool) {
    && Sent(plan, ok) == sent + Sent(Plan(batch, names), ok)
    && AllOk(plan, ok) == AllOk(Plan(batch, names), ok)
  }

  lemma PlanWhenFull(batch: seq<string>, q: string, rest: seq<string>)
    requires batch != [] && Size(batch) + |q| + 1 > LIMIT
    ensures Plan(batch, [q] + rest) == [batch] + Plan([], [q] + rest)
  {
    assert ([q] + rest)[1..] == rest;
    assert [] + [q] == [q];
  }

  /** Sending a full batch moves its command from what is owed to what is sent. */
  lemma OwedAfterSend(plan: seq<seq<string>>, sent: seq<string>, batch: seq<string>, q: string, rest: seq<string>, ok: string -> bool)
    requires batch != [] && Size(batch) + |q| + 1 > LIMIT && Owed(plan, sent, batch, [q] + rest, ok)
    ensures ok(Command(batch)) ==> Owed(plan, sent + [Command(batch)], [], [q] + rest, ok)
    ensures !ok(Command(batch)) ==> Sent(plan, ok) == sent + [Command(batch)] && !AllOk(plan, ok)
  {
    PlanWhenFull(batch, q, rest);
    var later := Plan([], [q] + rest);
    SentCons(batch, later, ok);
    MovedOver(sent, Command(batch), Sent(later, ok));
  }

  lemma MovedOver(sent: seq<string>, cmd: string, later: seq<string>)
    ensures sent + ([cmd] + later) == sent + [cmd] + later && [cmd] + [] == [cmd]
  {
  }

  lemma OwedAfterAdd(plan: seq<seq<string>>, sent: seq<string>, batch: seq<string>, q: string, rest: seq<string>, ok: string -> bool)
    requires batch == [] || Size(batch) + |q| + 1 <= LIMIT
    requires Owed(plan, sent, batch, [q] + rest, ok)
    ensures Owed(plan, sent, batch + [q], rest, ok)
  {
    assert ([q] + rest)[1..] == rest;
  }

  lemma OwedAtEnd(plan: seq<seq<string>>, sent: seq<string>, batch: seq<string>, ok: string -> bool)
    requires batch != [] && Owed(plan, sent, batch, [], ok)
    ensures Sent(plan, ok) == sent + [Command(batch)] && AllOk(plan, ok) == ok(Command(batch))
  {
    SentCons(batch, [], ok);
    assert [batch] + [] == [batch];
  }

  // ---- from the names to the directories a shell creates ----

  /** The directories a command asks for, as a shell reads it. */
  function Asked(cmd: string): seq<string> {
    var words := ShellWords(cmd, Plain, None);
    if |words| < 2 then [] else words[2..]
  }

  function AllAsked(cmds: seq<string>): seq<string> {
    if cmds == [] then [] else Asked(cmds[0]) + AllAsked(cmds[1..])
  }

  lemma CommandText(dirs: seq<string>)
    requires dirs != []
    ensures "mkdir -p " <= Command(Quoted(dirs))
  {
    var args := Args(Quoted(dirs));
    ArgsStart(Quoted(dirs));
    assert args == [' '] + After(args);
    assert Command(Quoted(dirs)) == "mkdir -p " + After(args);
  }

  /** "mkdir -p" and quoted names ask for exactly those directories. */
  lemma CommandAsks(dirs: seq<string>)
    requires dirs != []
    ensures Asked(Command(Quoted(dirs))) == dirs
    ensures ShellWords(Command(Quoted(dirs)), Plain, None)[..2] == ["mkdir", "-p"]
    ensures "mkdir -p " <= Command(Quoted(dirs))
  {
    CommandText(dirs);
    MkdirWordsAreSafe();
    CommandReadsBack(MKDIR, OPTION, dirs);
    var words := [MKDIR] + ([OPTION] + dirs);
    assert words[2..] == dirs && words[..2] == [MKDIR, OPTION];
  }

  lemma {:induction false} QuotedAppend(dirs: seq<string>, d: string)
    ensures Quoted(dirs + [d]) == Quoted(dirs) + [Quote(d)]
  {
    if dirs == [] {
      assert dirs + [d] == [d];
      assert [d][1..] == [];
    } else {
      QuotedAppend(dirs[1..], d);
      assert (dirs + [d])[1..] == dirs[1..] + [d];
    }
  }

  function Commands(plan: seq<seq<string>>): seq<string> {
    if plan == [] then [] else [Command(plan[0])] + Commands(plan[1..])
  }

  lemma AskedCons(batch: seq<string>, later: seq<seq<string>>)
    ensures AllAsked(Commands([batch] + later)) == Asked(Command(batch)) + AllAsked(Commands(later))
  {
    assert ([batch] + later)[1..] == later;
    var cmds := [Command(batch)] + Commands(later);
    assert cmds[1..] == Commands(later);
  }

  lemma QuotedOne(d: string)
    ensures Quoted([d]) == [Quote(d)]
  {
    assert [d][1..] == [];
  }

  lemma PlanStep(batch: seq<string>, q: string, later: seq<string>)
    ensures Plan(batch, [q] + later) ==
            if batch != [] && Size(batch) + |q| + 1 > LIMIT then [batch] + Plan([q], later) else Plan(batch + [q], later)
  {
    assert ([q] + later)[1..] == later;
  }

  lemma PlanEnd(pre: seq<string>)
    ensures AllAsked(Commands(Plan(Quoted(pre), []))) == pre
  {
    if pre != [] {
      CommandAsks(pre);
      AskedCons(Quoted(pre), []);
      assert [Quoted(pre)] + [] == [Quoted(pre)];
    }
  }

  /** What the commands ask for that send the quoted names of pre first and those of rest after them. */
  function PlanAsked(pre: seq<string>, rest: seq<string>): seq<string> {
    AllAsked(Commands(Plan(Quoted(pre), Quoted(rest))))
  }

  lemma PlanAskedFull(pre: seq<string>, d: string, later: seq<string>)
    requires pre != [] && Size(Quoted(pre)) + |Quote(d)| + 1 > LIMIT
    ensures PlanAsked(pre, [d] + later) == pre + PlanAsked([d], later)
  {
    assert ([d] + later)[1..] == later;
    PlanStep(Quoted(pre), Quote(d), Quoted(later));
    CommandAsks(pre);
    QuotedOne(d);
    AskedCons(Quoted(pre), Plan([Quote(d)], Quoted(later)));
  }

  lemma PlanAskedAdd(pre: seq<string>, d: string, later: seq<string>)
    requires pre == [] || Size(Quoted(pre)) + |Quote(d)| + 1 <= LIMIT
    ensures PlanAsked(pre, [d] + later) == PlanAsked(pre + [d], later)
  {
    assert ([d] + later)[1..] == later;
    PlanStep(Quoted(pre), Quote(d), Quoted(later));
    QuotedAppend(pre, d);
  }

  /** The commands of a plan ask for every directory, in order. */
  lemma {:induction false} PlanAsks(pre: seq<string>, rest: seq<string>)
    ensures PlanAsked(pre, rest) == pre + rest
    decreases |rest|
  {
    if rest == [] {
      PlanEnd(pre);
      assert pre + rest == pre;
    } else {
      var d, later := rest[0], rest[1..];
      assert rest == [d] + later;
      if pre != [] && Size(Quoted(pre)) + |Quote(d)| + 1 > LIMIT {
        PlanAskedFull(pre, d, later);
        PlanAsks([d], later);
      } else {
        PlanAskedAdd(pre, d, later);
        PlanAsks(pre + [d], later);
        assert pre + [d] + later == pre + rest;
      }
    }
  }

  lemma {:induction false} AllSent(plan: seq<seq<string>>, ok: string -> bool)
    requires AllOk(plan, ok)
    ensures Sent(plan, ok) == Commands(plan)
  {
    if plan != [] {
      AllSent(plan[1..], ok);
    }
  }

  /** When every command succeeds, the shells were asked for exactly the given directories, in order. */
  lemma EverythingAsked(dirs: seq<string>, ok: string -> bool)
    ensures var plan := Plan([], Quoted(dirs)); AllOk(plan, ok) ==> AllAsked(Sent(plan, ok)) == dirs
  {
    var plan := Plan([], Quoted(dirs));
    assert Quoted([]) == [];
    PlanAsks([], dirs);
    assert [] + dirs == dirs;
    if AllOk(plan, ok) {
      AllSent(plan, ok);
    }
  }

  /**
    The commands are sent in the order of the plan. Either all succeed, and then all have been sent, or
    the last one sent is the first that fails.
   */
  lemma {:induction false} SentExactly(plan: seq<seq<string>>, ok: string -> bool)
    ensures var sent, all := Sent(plan, ok), Commands(plan);
            && sent <= all
            && (AllOk(plan, ok) ==> sent == all && forall i :: 0 <= i < |all| ==> ok(all[i]))
            && (!AllOk(plan, ok) ==>
                  sent != [] && !ok(sent[|sent| - 1]) && forall i :: 0 <= i < |sent| - 1 ==> ok(sent[i]))
  {
    if plan != [] {
      var first := Command(plan[0]);
      SentExactly(plan[1..], ok);
      if !ok(first) {
        assert Sent(plan, ok) == [first];
      }
    }
  }

  /** Sends the batches as they fill up; ok tells which remote commands succeed. */
  method MkdirRemoteDirs(dirs: seq<string>, ok: string -> bool) returns (sent: seq<string>, success: bool)
    ensures sent == Sent(Plan([], Quoted(dirs)), ok)
    ensures success == AllOk(Plan([], Quoted(dirs)), ok)
    ensures success ==> AllAsked(sent) == dirs
  {
    EverythingAsked(dirs, ok);
    sent := [];
    var batch: seq<string> := [];
    var size := 8;
    ghost var plan := Plan([], Quoted(dirs));
    var rest := dirs;
    while rest != []
      invariant size == Size(batch)
      invariant Owed(plan, sent, batch, Quoted(rest), ok)
    {
      var q := Quote(rest[0]);
      ghost var later := Quoted(rest[1..]);
      if batch != [] && size + |q| + 1 > LIMIT {
        OwedAfterSend(plan, sent, batch, q, later, ok);
        sent := sent + [Command(batch)];
        if !ok(Command(batch)) {
          return sent, false;
        }
        batch, size := [], 8;
      }
      OwedAfterAdd(plan, sent, batch, q, later, ok);
      SizeAppend(batch, q);
      batch, size, rest := batch + [q], size + |q| + 1, rest[1..];
    }
    if batch != [] {
      OwedAtEnd(plan, sent, batch, ok);
      return sent + [Command(batch)], ok(Command(batch));
    }
    return sent, true;
  }
}
