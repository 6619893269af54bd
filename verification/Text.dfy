/** Strings: decimal numerals as Python prints and reads them, splitting at whitespace and newlines. */
module Text {
  import opened Base

  // ---- decimal numerals ----

  predicate IsDigit(c: char) {
    '0' <= c <= '9'
  }

  function DigitChar(d: nat): (c: char)
    requires d < 10
    ensures IsDigit(c) && c as int - '0' as int == d
  {
    ('0' as int + d) as char
  }

  function DigitValue(c: char): (d: nat)
    requires IsDigit(c)
    ensures d < 10
  {
    c as int - '0' as int
  }

  /** str(n) for a natural number. */
  function StrNat(n: nat): (s: string)
    ensures s != "" && forall i :: 0 <= i < |s| ==> IsDigit(s[i])
  {
    if n < 10 then [DigitChar(n)] else StrNat(n / 10) + [DigitChar(n % 10)]
  }

  /** str(n). */
  function Str(n: int): (s: string)
    ensures s != "" && forall i :: 0 <= i < |s| ==> IsDigit(s[i]) || s[i] == '-'
  {
    if n < 0 then "-" + StrNat(-n) else StrNat(n)
  }

  /** Digits with single underscores between them. */
  function ParseDigits(s: string): Option<int> {
    if s == "" || !IsDigit(s[|s| - 1]) then None
    else
      var d, init := DigitValue(s[|s| - 1]), s[..|s| - 1];
      if init == "" then Some(d)
      else
        var rest := ParseDigits(if init[|init| - 1] == '_' then init[..|init| - 1] else init);
        if rest.None? then None else Some(10 * rest.value + d)
  }

  /** int(s) for a string without whitespace: an optional sign and digits. */
  function ParseInt(s: string): Option<int> {
    if s != "" && s[0] == '-' then
      var r := ParseDigits(s[1..]);
      if r.None? then None else Some(-r.value)
    else if s != "" && s[0] == '+' then ParseDigits(s[1..])
    else ParseDigits(s)
  }

  lemma {:induction false} ParseStrNat(n: nat)
    ensures ParseDigits(StrNat(n)) == Some(n)
    decreases n
  {
    var s := StrNat(n);
    if n >= 10 {
      ParseStrNat(n / 10);
      var init := StrNat(n / 10);
      assert s[..|s| - 1] == init && s[|s| - 1] == DigitChar(n % 10);
      assert IsDigit(init[|init| - 1]);
    } else {
      assert s[..|s| - 1] == "";
    }
  }

  /** int(str(n)) == n. */
  lemma ParseStr(n: int)
    ensures ParseInt(Str(n)) == Some(n)
  {
    if n < 0 {
      ParseStrNat(-n);
      assert Str(n)[1..] == StrNat(-n);
    } else {
      ParseStrNat(n);
      assert IsDigit(StrNat(n)[0]);
    }
  }

  /** A numeral as int() reads it: digits, with single underscores between them. */
  predicate IsNumeral(s: string) {
    && s != "" && IsDigit(s[0]) && IsDigit(s[|s| - 1])
    && (forall i :: 0 <= i < |s| ==> IsDigit(s[i]) || s[i] == '_')
    && (forall i :: 0 < i < |s| ==> IsDigit(s[i - 1]) || IsDigit(s[i]))
  }

  lemma {:induction false} DigitsExactly(s: string)
    ensures ParseDigits(s).Some? <==> IsNumeral(s)
    decreases |s|
  {
    if |s| > 1 && IsDigit(s[|s| - 1]) {
      var n := |s| - 1;
      var head := if s[n - 1] == '_' then s[..n - 1] else s[..n];
      assert s[..n][..n - 1] == s[..n - 1];
      DigitsExactly(head);
      assert forall i :: 0 <= i < |head| ==> head[i] == s[i];
      assert IsNumeral(s) ==> IsNumeral(head);
    }
  }

  /** What int() accepts: a numeral, or one behind a single sign. */
  lemma ParsesExactlyWhen(s: string)
    ensures ParseInt(s).Some? <==> IsNumeral(s) || (s != "" && (s[0] == '+' || s[0] == '-') && IsNumeral(s[1..]))
  {
    DigitsExactly(s);
    if s != "" {
      DigitsExactly(s[1..]);
    }
  }

  /** A plus sign changes nothing, a minus sign negates. */
  lemma SignsExactly(s: string)
    requires IsNumeral(s)
    ensures ParseInt(s).Some? && ParseInt("+" + s) == ParseInt(s) && ParseInt("-" + s) == Some(-ParseInt(s).value)
  {
    DigitsExactly(s);
    assert ("+" + s)[1..] == s && ("-" + s)[1..] == s;
  }

  /** A text without one underscore at its end. */
  function Stripped(s: string): string
    requires s != ""
  {
    if s[|s| - 1] == '_' then s[..|s| - 1] else s
  }

  lemma DigitsStep(init: string, c: char)
    requires init != "" && IsDigit(c)
    ensures var rest := ParseDigits(Stripped(init));
            ParseDigits(init + [c]) == if rest.None? then None else Some(10 * rest.value + DigitValue(c))
  {
    var s := init + [c];
    assert s[|s| - 1] == c && s[..|s| - 1] == init;
  }

  lemma StrippedAppend(a: string, s: string)
    requires s != ""
    ensures Stripped(a + s) == a + Stripped(s)
  {
    assert (a + s)[..|a + s| - 1] == a + s[..|s| - 1];
  }

  lemma NumeralHead(init: string, c: char)
    requires init != "" && IsNumeral(init + [c])
    ensures IsNumeral(Stripped(init)) && IsDigit(c)
  {
    var s, head := init + [c], Stripped(init);
    assert s[|s| - 1] == c && s[|s| - 2] == init[|init| - 1];
    assert forall i :: 0 <= i < |head| ==> head[i] == s[i];
  }

  /** Adding the same to two texts that read alike up to their last underscore keeps them alike. */
  lemma SameStep(s: string, t: string, c: char)
    requires s != "" && t != "" && IsDigit(c) && ParseDigits(Stripped(s)) == ParseDigits(Stripped(t))
    ensures ParseDigits(s + [c]) == ParseDigits(t + [c])
  {
    DigitsStep(s, c);
    DigitsStep(t, c);
  }

  /** An underscore between two numerals means nothing. */
  lemma {:induction false} UnderscoreIsIgnored(a: string, b: string)
    requires IsNumeral(a) && IsNumeral(b)
    ensures ParseDigits(a + "_" + b) == ParseDigits(a + b)
    decreases |b|
  {
    var init, c := b[..|b| - 1], b[|b| - 1];
    var s, t := a + "_" + init, a + init;
    assert a + "_" + b == s + [c] && a + b == t + [c];
    if init == "" {
      assert s == a + "_" && Stripped(s) == a && t == a;
    } else {
      assert b == init + [c];
      NumeralHead(init, c);
      UnderscoreIsIgnored(a, Stripped(init));
      StrippedAppend(a + "_", init);
      StrippedAppend(a, init);
    }
    SameStep(s, t, c);
  }

  lemma StrInjective(m: int, n: int)
    requires Str(m) == Str(n)
    ensures m == n
  {
    ParseStr(m);
    ParseStr(n);
  }

  lemma StrHasNoUnderscore(n: int)
    ensures '_' !in Str(n)
  {
  }

  /** Two texts that agree agree on what follows their last underscore. */
  lemma LastUnderscore(a: string, s: string, b: string, t: string)
    requires a + (['_'] + s) == b + (['_'] + t) && '_' !in s && '_' !in t
    ensures s == t && a == b
  {
    var x, y := a + (['_'] + s), b + (['_'] + t);
    assert x[|a|] == '_' && y[|b|] == '_';
    assert forall i :: |a| < i < |x| ==> x[i] == s[i - |a| - 1];
    assert forall i :: |b| < i < |y| ==> y[i] == t[i - |b| - 1];
    assert s == x[|a| + 1..] && t == y[|b| + 1..];
    assert a == x[..|a|] && b == y[..|b|];
  }

  // ---- whitespace ----

  /** What str.split() and str.strip() treat as whitespace among one-byte characters. */
  predicate IsSpace(c: char) {
    '\t' <= c <= '\r' || '\U{1c}' <= c <= ' ' || c == '\U{85}' || c == '\U{a0}'
  }

  /** The whitespace: tab to carriage return, the four separators, the blank, next line, and the hard blank. */
  lemma SpacesExactly(c: char)
    ensures IsSpace(c) <==>
              c as int in {0x09, 0x0a, 0x0b, 0x0c, 0x0d, 0x1c, 0x1d, 0x1e, 0x1f, 0x20, 0x85, 0xa0}
  {
  }

  /** A nonempty string without whitespace. */
  predicate IsWord(s: string) {
    s != "" && forall i :: 0 <= i < |s| ==> !IsSpace(s[i])
  }

  function WordEnd(s: string): (k: nat)
    ensures k <= |s|
  {
    if s == [] || IsSpace(s[0]) then 0 else 1 + WordEnd(s[1..])
  }

  lemma {:induction false} WordEndAt(a: string, rest: string)
    requires (forall i :: 0 <= i < |a| ==> !IsSpace(a[i])) && (rest == [] || IsSpace(rest[0]))
    ensures WordEnd(a + rest) == |a|
  {
    if a == [] {
      assert a + rest == rest;
    } else {
      assert (a + rest)[1..] == a[1..] + rest;
      WordEndAt(a[1..], rest);
    }
  }

  /** s.split() */
  function Words(s: string): seq<string> {
    if s == [] then []
    else if IsSpace(s[0]) then Words(s[1..])
    else [s[..WordEnd(s)]] + Words(s[WordEnd(s)..])
  }

  lemma WordFirst(a: string, rest: string)
    requires IsWord(a) && (rest == "" || IsSpace(rest[0]))
    ensures Words(a + rest) == [a] + Words(rest)
  {
    var s := a + rest;
    var k := WordEnd(s);
    WordEndAt(a, rest);
    assert s[..k] == a && s[k..] == rest;
  }

  lemma WordThenSpace(a: string, rest: string)
    requires IsWord(a)
    ensures Words(a + [' '] + rest) == [a] + Words(rest)
  {
    var tail := [' '] + rest;
    assert a + [' '] + rest == a + tail;
    WordFirst(a, tail);
    assert tail[1..] == rest;
  }

  lemma ThreeWords(a: string, b: string, c: string)
    requires IsWord(a) && IsWord(b) && IsWord(c)
    ensures Words(a + [' '] + b + [' '] + c) == [a, b, c]
  {
    assert a + [' '] + b + [' '] + c == a + [' '] + (b + [' '] + c);
    WordThenSpace(a, b + [' '] + c);
    WordThenSpace(b, c);
    assert c + [] == c;
    WordFirst(c, []);
  }

  // ---- newlines ----

  /** s.split("\n") */
  function SplitLines(s: string): (r: seq<string>)
    ensures r != []
  {
    if s == [] then [[]] else Prepend(s[0], SplitLines(s[1..]))
  }

  /** The split of a string from the split of its tail. */
  function Prepend(c: char, parts: seq<string>): (r: seq<string>)
    requires parts != []
    ensures r != []
  {
    if c == '\n' then [[]] + parts else [[c] + parts[0]] + parts[1..]
  }

  function JoinLines(parts: seq<string>): string
    requires parts != []
  {
    if |parts| == 1 then parts[0] else parts[0] + (['\n'] + JoinLines(parts[1..]))
  }

  lemma JoinPrepend(c: char, parts: seq<string>)
    requires parts != []
    ensures JoinLines(Prepend(c, parts)) == [c] + JoinLines(parts)
  {
    if c == '\n' {
      assert ([[]] + parts)[1..] == parts;
      assert [] + (['\n'] + JoinLines(parts)) == ['\n'] + JoinLines(parts);
    } else {
      var first, rest := [c] + parts[0], parts[1..];
      assert ([first] + rest)[1..] == rest;
      if rest != [] {
        var tail := ['\n'] + JoinLines(rest);
        assert first + tail == [c] + (parts[0] + tail);
      }
    }
  }

  lemma PrependHasNoNewline(c: char, parts: seq<string>, p: string)
    requires parts != [] && (forall q :: q in parts ==> '\n' !in q) && p in Prepend(c, parts)
    ensures '\n' !in p
  {
    assert parts[0] in parts;
  }

  /** The parts are the stretches between newlines: joined they give the string, and none has one inside. */
  lemma {:induction false} SplitLinesIsExact(s: string)
    ensures JoinLines(SplitLines(s)) == s
    ensures forall p :: p in SplitLines(s) ==> '\n' !in p
  {
    if s != [] {
      var rest := SplitLines(s[1..]);
      SplitLinesIsExact(s[1..]);
      JoinPrepend(s[0], rest);
      forall p | p in SplitLines(s) ensures '\n' !in p {
        PrependHasNoNewline(s[0], rest, p);
      }
    }
  }

  /** The split of a longer string: the last, incomplete part of p is carried over into b. */
  function Carry(p: seq<string>, b: string): seq<string>
    requires p != []
  {
    p[..|p| - 1] + SplitLines(p[|p| - 1] + b)
  }

  /** Splitting may stop anywhere and go on later. */
  lemma {:induction false} SplitLinesConcat(a: string, b: string)
    ensures SplitLines(a + b) == Carry(SplitLines(a), b)
  {
    if a == [] {
      CarryNothing(b);
      assert a + b == b;
    } else {
      SplitLinesConcat(a[1..], b);
      SplitTail(a, b);
      PrependCarry(a[0], SplitLines(a[1..]), b);
    }
  }

  lemma SplitTail(a: string, b: string)
    requires a != []
    ensures SplitLines(a + b) == Prepend(a[0], SplitLines(a[1..] + b))
  {
    assert (a + b)[0] == a[0] && (a + b)[1..] == a[1..] + b;
  }

  lemma CarryNothing(b: string)
    ensures Carry([[]], b) == SplitLines(b)
  {
    assert [] + b == b;
  }

  lemma PrependCarry(c: char, p: seq<string>, b: string)
    requires p != []
    ensures Prepend(c, Carry(p, b)) == Carry(Prepend(c, p), b)
  {
    var front, last := p[..|p| - 1], p[|p| - 1];
    assert p == front + [last];
    if front != [] {
      PrependFront(c, front, SplitLines(last + b));
      PrependFront(c, front, [last]);
      assert (Prepend(c, front) + [last])[..|p| - (if c == '\n' then 0 else 1)] == Prepend(c, front);
    } else {
      assert front + SplitLines(last + b) == SplitLines(last + b);
      PrependOnly(c, last, b);
    }
  }

  lemma PrependFront(c: char, front: seq<string>, back: seq<string>)
    requires front != []
    ensures Prepend(c, front + back) == Prepend(c, front) + back
  {
    assert (front + back)[1..] == front[1..] + back;
  }

  lemma PrependOnly(c: char, last: string, b: string)
    ensures Prepend(c, SplitLines(last + b)) == Carry(Prepend(c, [last]), b)
  {
    var p := Prepend(c, [last]);
    if c == '\n' {
      assert p == [[], last] && p[..1] == [[]];
    } else {
      var longer := [c] + last;
      SplitTail(longer, b);
      assert longer[1..] == last;
      assert p == [longer] && p[..0] == [];
    }
  }
}
