/** The few Python `str` operations the application relies on, over `seq<char>`. */
module Strings {

  /** Python's `str.isspace` for one character. */
  predicate IsSpace(c: char) {
    || c == ' '
    || ('\t' <= c <= '\r')
    || ('\U{1C}' <= c <= '\U{1F}')
    || c == '\U{85}' || c == '\U{A0}' || c == '\U{1680}'
    || ('\U{2000}' <= c <= '\U{200A}')
    || c == '\U{2028}' || c == '\U{2029}' || c == '\U{202F}' || c == '\U{205F}' || c == '\U{3000}'
  }

  /** The characters at which Python's `str.splitlines` breaks a string. */
  predicate IsLineBreak(c: char) {
    || c == '\n' || c == '\r' || c == '\U{0B}' || c == '\U{0C}'
    || ('\U{1C}' <= c <= '\U{1E}')
    || c == '\U{85}' || c == '\U{2028}' || c == '\U{2029}'
  }

  predicate NoLineBreak(s: string) {
    forall i :: 0 <= i < |s| ==> !IsLineBreak(s[i])
  }

  predicate NoSpace(s: string) {
    forall i :: 0 <= i < |s| ==> !IsSpace(s[i])
  }

  lemma AppendAssoc(a: string, b: string, c: string)
    ensures a + (b + c) == (a + b) + c
  {
  }

  /** Python's `s.startswith(prefix)`. */
  predicate StartsWith(s: string, prefix: string) {
    |prefix| <= |s| && s[..|prefix|] == prefix
  }

  /** Python's `s.endswith(suffix)`. */
  predicate EndsWith(s: string, suffix: string) {
    |suffix| <= |s| && s[|s| - |suffix|..] == suffix
  }

  /** Python's `sub in s`. */
  predicate Contains(s: string, sub: string)
    decreases |s|
  {
    StartsWith(s, sub) || (s != [] && Contains(s[1..], sub))
  }

  /** Python's `s.lstrip()`: drops the leading white space. */
  function LStrip(s: string): (r: string)
    ensures |r| <= |s| && r == s[|s| - |r|..]
    ensures forall i :: 0 <= i < |s| - |r| ==> IsSpace(s[i])
    ensures r == [] || !IsSpace(r[0])
    decreases |s|
  {
    if s != [] && IsSpace(s[0]) then LStrip(s[1..]) else s
  }

  /** Python's `s.rstrip()`: drops the trailing white space. */
  function RStrip(s: string): (r: string)
    ensures |r| <= |s| && r == s[..|r|]
    ensures forall i :: |r| <= i < |s| ==> IsSpace(s[i])
    ensures r == [] || !IsSpace(r[|r| - 1])
    decreases |s|
  {
    if s != [] && IsSpace(s[|s| - 1]) then RStrip(s[..|s| - 1]) else s
  }

  /** Python's `s.strip()`. */
  function Strip(s: string): string {
    RStrip(LStrip(s))
  }

  /** Length of the run of non-white-space characters that starts `s`. */
  function WordLength(s: string): (n: nat)
    ensures n <= |s|
    ensures forall i :: 0 <= i < n ==> !IsSpace(s[i])
    ensures n == |s| || IsSpace(s[n])
  {
    if s == [] || IsSpace(s[0]) then 0 else 1 + WordLength(s[1..])
  }

  /** Python's `s.split()` with no separator: the maximal runs of non-white-space. */
  function SplitWhitespace(s: string): (words: seq<string>)
    ensures forall i :: 0 <= i < |words| ==> words[i] != [] && NoSpace(words[i])
    decreases |s|
  {
    if s == [] then []
    else if IsSpace(s[0]) then SplitWhitespace(s[1..])
    else
      var n := WordLength(s);
      [s[..n]] + SplitWhitespace(s[n..])
  }

  /** All the characters of `s` that are not white space, in order. */
  function DropSpaces(s: string): string {
    if s == [] then []
    else (if IsSpace(s[0]) then [] else [s[0]]) + DropSpaces(s[1..])
  }

  function Concat(words: seq<string>): string {
    if words == [] then [] else words[0] + Concat(words[1..])
  }

  lemma {:induction false} DropSpacesAppend(a: string, b: string)
    ensures DropSpaces(a + b) == DropSpaces(a) + DropSpaces(b)
    decreases |a|
  {
    if a == [] {
      assert a + b == b;
    } else {
      assert (a + b)[1..] == a[1..] + b;
      DropSpacesAppend(a[1..], b);
    }
  }

  lemma {:induction false} DropSpacesOfWord(w: string)
    requires NoSpace(w)
    ensures DropSpaces(w) == w
    decreases |w|
  {
    if w != [] {
      DropSpacesOfWord(w[1..]);
    }
  }

  /** `s.split()` loses exactly the white space: gluing the words back together
      gives the non-white-space characters of `s`, in order. */
  lemma {:induction false} SplitWhitespaceKeepsText(s: string)
    ensures Concat(SplitWhitespace(s)) == DropSpaces(s)
    decreases |s|
  {
    if s == [] {
    } else if IsSpace(s[0]) {
      SplitWhitespaceKeepsText(s[1..]);
    } else {
      var n := WordLength(s);
      SplitWhitespaceKeepsText(s[n..]);
      assert s == s[..n] + s[n..];
      DropSpacesAppend(s[..n], s[n..]);
      DropSpacesOfWord(s[..n]);
      assert SplitWhitespace(s)[1..] == SplitWhitespace(s[n..]);
    }
  }

  predicate AllSpace(s: string) {
    forall i :: 0 <= i < |s| ==> IsSpace(s[i])
  }

  /** `gaps[0] + words[0] + gaps[1] + ... + words[n - 1] + gaps[n]`. */
  function Interleave(gaps: seq<string>, words: seq<string>): string
    requires |gaps| == |words| + 1
    decreases |words|
  {
    if words == [] then gaps[0] else gaps[0] + words[0] + Interleave(gaps[1..], words[1..])
  }

  /** The white space around and between the words of `s.split()`. */
  function Gaps(s: string): (gaps: seq<string>)
    ensures |gaps| == |SplitWhitespace(s)| + 1
    decreases |s|
  {
    if s == [] then [[]]
    else if IsSpace(s[0]) then
      var rest := Gaps(s[1..]);
      [[s[0]] + rest[0]] + rest[1..]
    else
      [[]] + Gaps(s[WordLength(s)..])
  }

  /** Gaps that are white space only, and not empty between two words. */
  predicate Separating(gaps: seq<string>) {
    && (forall i :: 0 <= i < |gaps| ==> AllSpace(gaps[i]))
    && (forall i :: 0 < i < |gaps| - 1 ==> gaps[i] != [])
  }

  /** The words of `s.split()` are the maximal runs of non-white-space: `s`
      is the words with only white space around them, and at least one
      white-space character between any two of them. */
  lemma {:induction false} SplitWhitespaceIsMaximalRuns(s: string)
    ensures Interleave(Gaps(s), SplitWhitespace(s)) == s
    ensures Separating(Gaps(s))
    ensures s != [] && IsSpace(s[0]) ==> Gaps(s)[0] != []
    decreases |s|
  {
    if s == [] {
    } else if IsSpace(s[0]) {
      var rest := Gaps(s[1..]);
      SplitWhitespaceIsMaximalRuns(s[1..]);
      SpaceStep(s);
      InterleaveWiderGap(s[0], rest, SplitWhitespace(s[1..]));
      WiderGapSeparates(s[0], rest);
    } else {
      var n := WordLength(s);
      var rest := Gaps(s[n..]);
      SplitWhitespaceIsMaximalRuns(s[n..]);
      WordStep(s, n);
      InterleaveWord(s[..n], rest, SplitWhitespace(s[n..]));
      WordGapSeparates(rest);
    }
  }

  lemma SpaceStep(s: string)
    requires s != [] && IsSpace(s[0])
    ensures Gaps(s) == [[s[0]] + Gaps(s[1..])[0]] + Gaps(s[1..])[1..]
    ensures SplitWhitespace(s) == SplitWhitespace(s[1..])
    ensures s == [s[0]] + s[1..]
  {
    assert s == [s[0]] + s[1..];
    assert SplitWhitespace(s) == SplitWhitespace(s[1..]);
    var rest := Gaps(s[1..]);
    assert Gaps(s) == [[s[0]] + rest[0]] + rest[1..];
  }

  lemma WordStep(s: string, n: nat)
    requires s != [] && !IsSpace(s[0]) && n == WordLength(s)
    ensures Gaps(s) == [[]] + Gaps(s[n..])
    ensures SplitWhitespace(s) == [s[..n]] + SplitWhitespace(s[n..])
    ensures s == s[..n] + s[n..]
    ensures SplitWhitespace(s[n..]) != [] ==> s[n..] != [] && IsSpace(s[n..][0])
  {
  }

  /** Widening the first gap by a leading character widens the text. */
  lemma InterleaveWiderGap(c: char, gaps: seq<string>, words: seq<string>)
    requires |gaps| == |words| + 1
    ensures Interleave([[c] + gaps[0]] + gaps[1..], words) == [c] + Interleave(gaps, words)
  {
    var g, wider := gaps[0], [[c] + gaps[0]] + gaps[1..];
    assert wider[0] == [c] + g;
    if words != [] {
      assert wider[1..] == gaps[1..];
      var w, tail := words[0], Interleave(gaps[1..], words[1..]);
      assert Interleave(wider, words) == ([c] + g) + w + tail;
      assert Interleave(gaps, words) == g + w + tail;
      AppendAssoc([c], g, w);
      AppendAssoc([c], g + w, tail);
    }
  }

  /** A word in front, with an empty gap before it. */
  lemma InterleaveWord(w: string, gaps: seq<string>, words: seq<string>)
    requires |gaps| == |words| + 1
    ensures Interleave([[]] + gaps, [w] + words) == w + Interleave(gaps, words)
  {
    assert ([[]] + gaps)[1..] == gaps;
    assert ([w] + words)[1..] == words;
  }

  lemma WiderGapSeparates(c: char, gaps: seq<string>)
    requires IsSpace(c) && |gaps| >= 1 && Separating(gaps)
    ensures Separating([[c] + gaps[0]] + gaps[1..]) && ([c] + gaps[0]) != []
  {
    var wider := [[c] + gaps[0]] + gaps[1..];
    assert AllSpace(gaps[0]);
    forall i | 0 < i < |wider| ensures wider[i] == gaps[i] {}
  }

  lemma WordGapSeparates(gaps: seq<string>)
    requires Separating(gaps) && (|gaps| > 1 ==> gaps[0] != [])
    ensures Separating([[]] + gaps)
  {
    forall i | 0 < i < |gaps| + 1 ensures ([[]] + gaps)[i] == gaps[i - 1] {}
  }

  /** Length of the line that starts `s` (up to the first line break). */
  function LineLength(s: string): (n: nat)
    ensures n <= |s|
    ensures forall i :: 0 <= i < n ==> !IsLineBreak(s[i])
    ensures n == |s| || IsLineBreak(s[n])
  {
    if s == [] || IsLineBreak(s[0]) then 0 else 1 + LineLength(s[1..])
  }

  /** Python's `s.splitlines()`: "\r\n" is one break, and a final break does
      not open an empty last line. */
  function SplitLines(s: string): (lines: seq<string>)
    ensures forall i :: 0 <= i < |lines| ==> NoLineBreak(lines[i])
    ensures s == [] <==> lines == []
    decreases |s|
  {
    if s == [] then []
    else
      var n := LineLength(s);
      if n == |s| then [s]
      else
        var next := if s[n] == '\r' && n + 1 < |s| && s[n + 1] == '\n' then n + 2 else n + 1;
        [s[..n]] + SplitLines(s[next..])
  }

  /** One line break as `splitlines` consumes it: "\r\n", or a single break character. */
  predicate IsBreak(b: string) {
    (|b| == 2 && b[0] == '\r' && b[1] == '\n') || (|b| == 1 && IsLineBreak(b[0]))
  }

  /** The line breaks `splitlines` drops, one after each line; the last
      line has none when the text does not end in a break. */
  function Breaks(s: string): (breaks: seq<string>)
    decreases |s|
  {
    if s == [] then []
    else
      var n := LineLength(s);
      if n == |s| then []
      else
        var next := if s[n] == '\r' && n + 1 < |s| && s[n + 1] == '\n' then n + 2 else n + 1;
        [s[n..next]] + Breaks(s[next..])
  }

  /** The lines with their breaks put back: `lines[0] + breaks[0] + lines[1] + ...`. */
  function Rejoin(lines: seq<string>, breaks: seq<string>): string
    requires |breaks| <= |lines| <= |breaks| + 1
    decreases |lines|
  {
    if lines == [] then []
    else if breaks == [] then lines[0]
    else lines[0] + breaks[0] + Rejoin(lines[1..], breaks[1..])
  }

  /** Every break is one `splitlines` consumes whole: a "\r" is never followed
      directly by a "\n" break, and a last line without a break is not empty. */
  predicate BreaksWellFormed(lines: seq<string>, breaks: seq<string>)
    requires |breaks| <= |lines| <= |breaks| + 1
  {
    && (forall i :: 0 <= i < |breaks| ==> IsBreak(breaks[i]))
    && (forall i :: 0 <= i < |breaks| - 1 ==> !(breaks[i] == "\r" && lines[i + 1] == [] && breaks[i + 1] == "\n"))
    && (|lines| == |breaks| + 1 ==> lines[|lines| - 1] != [])
  }

  /** The lines of `splitlines` are exactly the text between the breaks:
      putting each line's break back after it gives the text again. */
  lemma {:induction false} SplitLinesBetweenBreaks(s: string)
    ensures |Breaks(s)| <= |SplitLines(s)| <= |Breaks(s)| + 1
    ensures Rejoin(SplitLines(s), Breaks(s)) == s
    ensures BreaksWellFormed(SplitLines(s), Breaks(s))
    decreases |s|
  {
    if s != [] {
      var n := LineLength(s);
      if n < |s| {
        var next := if s[n] == '\r' && n + 1 < |s| && s[n + 1] == '\n' then n + 2 else n + 1;
        var rest := s[next..];
        SplitLinesBetweenBreaks(rest);
        BreakAfterLine(s, n, next);
        RejoinCons(s[..n], s[n..next], SplitLines(rest), Breaks(rest));
        ThreeParts(s, n, next);
        BreaksWellFormedCons(s[..n], s[n..next], SplitLines(rest), Breaks(rest), rest);
      }
    }
  }

  /** The first line of `s`, when a break follows it, and that break. */
  lemma BreakAfterLine(s: string, n: nat, next: nat)
    requires n == LineLength(s) < |s|
    requires next == if s[n] == '\r' && n + 1 < |s| && s[n + 1] == '\n' then n + 2 else n + 1
    ensures IsBreak(s[n..next])
    ensures s[n..next] == "\r" ==> s[next..] == [] || s[next..][0] != '\n'
    ensures SplitLines(s) == [s[..n]] + SplitLines(s[next..])
    ensures Breaks(s) == [s[n..next]] + Breaks(s[next..])
  {
    BreakIsWhole(s, n, next);
  }

  lemma BreakIsWhole(s: string, n: nat, next: nat)
    requires n < |s| && IsLineBreak(s[n])
    requires next == if s[n] == '\r' && n + 1 < |s| && s[n + 1] == '\n' then n + 2 else n + 1
    ensures IsBreak(s[n..next])
    ensures s[n..next] == "\r" ==> s[next..] == [] || s[next..][0] != '\n'
  {
    var b := s[n..next];
    if next == n + 2 {
      assert b == [s[n], s[n + 1]];
    } else {
      assert b == [s[n]];
    }
  }

  lemma ThreeParts(s: string, i: nat, j: nat)
    requires i <= j <= |s|
    ensures s == s[..i] + s[i..j] + s[j..]
  {
    assert s[..i] + s[i..j] == s[..j];
  }

  lemma RejoinCons(line: string, b: string, lines: seq<string>, breaks: seq<string>)
    requires |breaks| <= |lines| <= |breaks| + 1
    ensures Rejoin([line] + lines, [b] + breaks) == line + b + Rejoin(lines, breaks)
  {
    assert ([line] + lines)[1..] == lines;
    assert ([b] + breaks)[1..] == breaks;
  }

  lemma BreaksWellFormedCons(line: string, b: string, lines: seq<string>, breaks: seq<string>, rest: string)
    requires |breaks| <= |lines| <= |breaks| + 1 && BreaksWellFormed(lines, breaks)
    requires IsBreak(b) && Rejoin(lines, breaks) == rest
    requires b == "\r" ==> rest == [] || rest[0] != '\n'
    ensures BreaksWellFormed([line] + lines, [b] + breaks)
  {
    var ls, bs := [line] + lines, [b] + breaks;
    forall i | 0 < i < |bs| ensures bs[i] == breaks[i - 1] && ls[i] == lines[i - 1] {}
    if |ls| == |bs| + 1 {
      assert ls[|ls| - 1] == lines[|lines| - 1];
    }
  }

  /** Python's `str.lower` restricted to ASCII letters. */
  function LowerChar(c: char): (d: char)
    ensures 'A' <= c <= 'Z' ==> 'a' <= d <= 'z' && d as int - c as int == 32
    ensures !('A' <= c <= 'Z') ==> d == c
  {
    if 'A' <= c <= 'Z' then (c as int + 32) as char else c
  }

  function Lower(s: string): (r: string)
    ensures |r| == |s|
    ensures forall i :: 0 <= i < |s| ==> r[i] == LowerChar(s[i])
  {
    if s == [] then [] else [LowerChar(s[0])] + Lower(s[1..])
  }

  /** Python's `a <= b` on strings: code-point lexicographic order. */
  predicate LexLe(a: string, b: string)
    decreases |a|
  {
    a == [] || (b != [] && (a[0] < b[0] || (a[0] == b[0] && LexLe(a[1..], b[1..]))))
  }

  lemma {:induction false} LexLeTotal(a: string, b: string)
    ensures LexLe(a, b) || LexLe(b, a)
    decreases |a|
  {
    if a != [] && b != [] && a[0] == b[0] {
      LexLeTotal(a[1..], b[1..]);
    }
  }

  lemma {:induction false} LexLeTransitive(a: string, b: string, c: string)
    requires LexLe(a, b) && LexLe(b, c)
    ensures LexLe(a, c)
    decreases |a|
  {
    if a != [] && a[0] == b[0] && b[0] == c[0] {
      LexLeTransitive(a[1..], b[1..], c[1..]);
    }
  }
}
