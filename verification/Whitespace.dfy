/** The text transformation of the whitespace cleaner, on the text as read. */
module Whitespace {
  /** The characters at which `str.splitlines` ends a line. */
  predicate IsBreak(c: char) {
    || c == '\n' || c == '\r' || '\U{0b}' <= c <= '\U{0c}' || '\U{1c}' <= c <= '\U{1e}'
    || c == '\U{85}' || c == '\U{2028}' || c == '\U{2029}'
  }

  /** The characters that `str.rstrip` removes. */
  predicate IsSpace(c: char) {
    || IsBreak(c) || c == ' ' || c == '\t' || c == '\U{1f}' || c == '\U{a0}' || c == '\U{1680}'
    || '\U{2000}' <= c <= '\U{200a}' || c == '\U{202f}' || c == '\U{205f}' || c == '\U{3000}'
  }

  /** The same by their codes. */
  lemma SpaceCodes(c: char)
    ensures IsBreak(c) <==> c as int in {10, 11, 12, 13, 28, 29, 30, 133, 8232, 8233}
    ensures IsSpace(c) <==>
            || c as int in {9, 10, 11, 12, 13, 28, 29, 30, 31, 32, 133, 160, 5760, 8232, 8233, 8239, 8287, 12288}
            || 8192 <= c as int <= 8202
  {
  }

  /** Where the line that starts at `i` ends. */
  function LineEnd(s: string, i: nat): (k: nat)
    requires i <= |s|
    ensures i <= k <= |s|
    ensures forall j :: i <= j < k ==> !IsBreak(s[j])
    ensures k < |s| ==> IsBreak(s[k])
    decreases |s| - i
  {
    if i == |s| || IsBreak(s[i]) then i else LineEnd(s, i + 1)
  }

  /** Where the line after a break at `k` starts: a carriage return and the newline after it are one break. */
  function LineAfter(s: string, k: nat): (i: nat)
    requires k <= |s|
    ensures k <= i <= |s| && (k < |s| ==> k < i)
  {
    if k == |s| then k
    else if s[k] == '\r' && k + 1 < |s| && s[k + 1] == '\n' then k + 2
    else k + 1
  }

  /** `s.splitlines()`, from the line that starts at `i` on */
  function SplitLines(s: string, i: nat := 0): seq<string>
    requires i <= |s|
    decreases |s| - i
  {
    if i == |s| then []
    else
      var k := LineEnd(s, i);
      [s[i..k]] + SplitLines(s, LineAfter(s, k))
  }

  /** `line.rstrip()` */
  function RStrip(line: string): (r: string)
    ensures r <= line && forall i :: |r| <= i < |line| ==> IsSpace(line[i])
    ensures r != "" ==> !IsSpace(r[|r| - 1])
  {
    if line == "" || !IsSpace(line[|line| - 1]) then line else RStrip(line[..|line| - 1])
  }

  function StripAll(lines: seq<string>): seq<string> {
    if lines == [] then [] else [RStrip(lines[0])] + StripAll(lines[1..])
  }

  /** `"\n".join(lines)` */
  function Join(lines: seq<string>): string {
    if lines == [] then ""
    else if |lines| == 1 then lines[0]
    else lines[0] + "\n" + Join(lines[1..])
  }

  /** One pass of the cleaner. */
  function Clean(content: string): string {
    var cleaned := StripAll(SplitLines(content));
    Join(if cleaned != [] && cleaned[|cleaned| - 1] != "" then cleaned + [""] else cleaned)
  }

  // ----- Cleaning in terms of lines -----

  /** The lines of a text without their trailing whitespace. */
  function Lines(s: string): seq<string> {
    StripAll(SplitLines(s))
  }

  function TrailingBlanks(lines: seq<string>): (n: nat)
    ensures n <= |lines|
  {
    if lines == [] || lines[|lines| - 1] != "" then 0 else 1 + TrailingBlanks(lines[..|lines| - 1])
  }

  function DropBlank(lines: seq<string>): seq<string> {
    if lines == [] || lines[|lines| - 1] != "" then lines else lines[..|lines| - 1]
  }

  /** The text in which every line is ended by a newline. */
  function Text(lines: seq<string>): string {
    if lines == [] then "" else lines[0] + "\n" + Text(lines[1..])
  }

  predicate Unbroken(line: string) {
    forall i :: 0 <= i < |line| ==> !IsBreak(line[i])
  }

  /** A line as the cleaner leaves it. */
  predicate CleanLine(line: string) {
    Unbroken(line) && (line != "" ==> !IsSpace(line[|line| - 1]))
  }

  predicate CleanLines(lines: seq<string>) {
    forall i :: 0 <= i < |lines| ==> CleanLine(lines[i])
  }

  lemma {:induction false} SplitUnbroken(s: string, i: nat)
    requires i <= |s|
    ensures forall n :: 0 <= n < |SplitLines(s, i)| ==> Unbroken(SplitLines(s, i)[n])
    decreases |s| - i
  {
    if i < |s| {
      SplitUnbroken(s, LineAfter(s, LineEnd(s, i)));
    }
  }

  lemma {:induction false} StripAllClean(lines: seq<string>)
    requires forall i :: 0 <= i < |lines| ==> Unbroken(lines[i])
    ensures CleanLines(StripAll(lines))
    decreases |lines|
  {
    if lines != [] {
      StripAllClean(lines[1..]);
      assert CleanLine(RStrip(lines[0]));
    }
  }

  lemma LinesAreClean(s: string)
    ensures CleanLines(Lines(s))
  {
    SplitUnbroken(s, 0);
    StripAllClean(SplitLines(s));
  }

  lemma {:induction false} StripClean(lines: seq<string>)
    requires CleanLines(lines)
    ensures StripAll(lines) == lines
    decreases |lines|
  {
    if lines != [] {
      assert CleanLine(lines[0]);
      StripClean(lines[1..]);
    }
  }

  lemma {:induction false} JoinIsText(lines: seq<string>)
    ensures Join(lines + [""]) == Text(lines)
    decreases |lines|
  {
    if lines != [] {
      assert (lines + [""])[1..] == lines[1..] + [""];
      JoinIsText(lines[1..]);
    }
  }

  lemma {:induction false} LineEndIs(s: string, i: nat, k: nat)
    requires i <= k <= |s| && (forall j :: i <= j < k ==> !IsBreak(s[j])) && (k < |s| ==> IsBreak(s[k]))
    ensures LineEnd(s, i) == k
    decreases k - i
  {
    if i < k {
      LineEndIs(s, i + 1, k);
    }
  }

  /** Where a line and its newline stand in a text, and what follows. */
  lemma TextHead(pre: string, line: string, rest: string)
    requires Unbroken(line)
    ensures var s, i := pre + (line + "\n" + rest), |pre|;
            LineEnd(s, i) == i + |line| && LineAfter(s, i + |line|) == i + |line| + 1 && s[i..i + |line|] == line
  {
    var s, i := pre + (line + "\n" + rest), |pre|;
    assert s[i + |line|] == '\n';
    assert forall j :: i <= j < i + |line| ==> s[j] == line[j - i];
    LineEndIs(s, i, i + |line|);
  }

  lemma Regroup(pre: string, line: string, rest: string)
    ensures pre + (line + "\n" + rest) == pre + (line + "\n") + rest
  {
  }

  lemma SplitHead(pre: string, line: string, rest: string)
    requires Unbroken(line)
    ensures var pre' := pre + (line + "\n");
            SplitLines(pre + (line + "\n" + rest), |pre|) == [line] + SplitLines(pre' + rest, |pre'|)
  {
    Regroup(pre, line, rest);
    TextHead(pre, line, rest);
  }

  lemma {:induction false} SplitText(pre: string, lines: seq<string>)
    requires CleanLines(lines)
    ensures SplitLines(pre + Text(lines), |pre|) == lines
    decreases |lines|
  {
    if lines != [] {
      assert CleanLine(lines[0]);
      SplitHead(pre, lines[0], Text(lines[1..]));
      SplitText(pre + (lines[0] + "\n"), lines[1..]);
    } else {
      assert pre + "" == pre;
    }
  }

  lemma SplitWholeText(lines: seq<string>)
    requires CleanLines(lines)
    ensures SplitLines(Text(lines)) == lines
  {
    SplitText("", lines);
    assert "" + Text(lines) == Text(lines);
  }

  /** A pass strips the lines, takes one blank line off the end if there is one, and ends every line left
      with a newline. */
  lemma CleanIsText(s: string)
    ensures Clean(s) == Text(DropBlank(Lines(s)))
    ensures Lines(Clean(s)) == DropBlank(Lines(s))
  {
    var l := Lines(s);
    LinesAreClean(s);
    if l != [] && l[|l| - 1] == "" {
      assert l == l[..|l| - 1] + [""];
    } else {
      assert DropBlank(l) == l;
      assert l == [] ==> Join([""]) == Text(l);
    }
    JoinIsText(DropBlank(l));
    SplitWholeText(DropBlank(l));
    StripClean(DropBlank(l));
  }

  // ----- What a pass keeps -----

  /** The characters that are not whitespace, in order. */
  function Visible(s: string): string {
    if s == "" then "" else (if IsSpace(s[0]) then "" else [s[0]]) + Visible(s[1..])
  }

  lemma {:induction false} VisibleConcat(a: string, b: string)
    ensures Visible(a + b) == Visible(a) + Visible(b)
    decreases |a|
  {
    if a == "" {
      assert a + b == b;
    } else {
      assert (a + b)[0] == a[0] && (a + b)[1..] == a[1..] + b;
      VisibleConcat(a[1..], b);
    }
  }

  lemma {:induction false} VisibleSpace(s: string)
    requires forall i :: 0 <= i < |s| ==> IsSpace(s[i])
    ensures Visible(s) == ""
    decreases |s|
  {
    if s != "" {
      VisibleSpace(s[1..]);
    }
  }

  lemma VisibleStripped(line: string)
    ensures Visible(RStrip(line)) == Visible(line)
  {
    var r := RStrip(line);
    assert line == r + line[|r|..];
    VisibleConcat(r, line[|r|..]);
    VisibleSpace(line[|r|..]);
  }

  lemma VisibleFrom(s: string, i: nat, k: nat)
    requires i <= k <= |s|
    ensures Visible(s[i..]) == Visible(s[i..k]) + Visible(s[k..])
  {
    assert s[i..] == s[i..k] + s[k..];
    VisibleConcat(s[i..k], s[k..]);
  }

  /** Whitespace may be skipped. */
  lemma VisibleSkip(s: string, k: nat, next: nat)
    requires k <= next <= |s| && forall j :: k <= j < next ==> IsSpace(s[j])
    ensures Visible(s[k..]) == Visible(s[next..])
  {
    VisibleFrom(s, k, next);
    VisibleSpace(s[k..next]);
  }

  /** The lines hold all that is visible. */
  lemma {:induction false} VisibleLines(s: string, i: nat)
    requires i <= |s|
    ensures Visible(Text(StripAll(SplitLines(s, i)))) == Visible(s[i..])
    decreases |s| - i
  {
    if i == |s| {
      assert s[i..] == "";
    } else {
      var k := LineEnd(s, i);
      var next := LineAfter(s, k);
      VisibleLines(s, next);
      VisibleFirst(s, i, k, next);
    }
  }

  lemma VisibleFirst(s: string, i: nat, k: nat, next: nat)
    requires i < |s| && k == LineEnd(s, i) && next == LineAfter(s, k)
    requires Visible(Text(StripAll(SplitLines(s, next)))) == Visible(s[next..])
    ensures Visible(Text(StripAll(SplitLines(s, i)))) == Visible(s[i..])
  {
    var line, rest := RStrip(s[i..k]), StripAll(SplitLines(s, next));
    FirstLineText(s, i, k, next);
    VisibleTextCons(line, rest);
    VisibleStripped(s[i..k]);
    BreakIsSpace(s, k, next);
    VisibleSkip(s, k, next);
    VisibleFrom(s, i, k);
  }

  lemma FirstLineText(s: string, i: nat, k: nat, next: nat)
    requires i < |s| && k == LineEnd(s, i) && next == LineAfter(s, k)
    ensures StripAll(SplitLines(s, i)) == [RStrip(s[i..k])] + StripAll(SplitLines(s, next))
  {
    FirstBreak(s, i);
    StripCons(s[i..k], SplitLines(s, next));
  }

  lemma BreakIsSpace(s: string, k: nat, next: nat)
    requires k <= |s| && next == LineAfter(s, k) && (k < |s| ==> IsBreak(s[k]))
    ensures forall j :: k <= j < next ==> IsSpace(s[j])
  {
  }

  /** A line and its newline before the rest of a text. */
  lemma VisiblePart(a: string, b: string)
    ensures Visible(a + ("\n" + b)) == Visible(a) + Visible(b)
  {
    VisibleConcat(a, "\n" + b);
    VisibleNewline(b);
  }

  lemma VisibleNewline(b: string)
    ensures Visible("\n" + b) == Visible(b)
  {
    assert ("\n" + b)[1..] == b;
  }

  lemma VisibleTextCons(line: string, lines: seq<string>)
    ensures Visible(Text([line] + lines)) == Visible(line) + Visible(Text(lines))
  {
    TextCons(line, lines);
    assert line + "\n" + Text(lines) == line + ("\n" + Text(lines));
    VisiblePart(line, Text(lines));
  }

  /** The last blank line has nothing visible. */
  lemma {:induction false} VisibleDrop(lines: seq<string>)
    ensures Visible(Text(DropBlank(lines))) == Visible(Text(lines))
    decreases |lines|
  {
    if |lines| > 1 {
      var rest := lines[1..];
      VisibleDrop(rest);
      assert lines == [lines[0]] + rest && DropBlank(lines) == [lines[0]] + DropBlank(rest);
      VisibleTextCons(lines[0], rest);
      VisibleTextCons(lines[0], DropBlank(rest));
    } else if |lines| == 1 && lines[0] == "" {
      assert DropBlank(lines) == [] && lines == [""] + [];
      VisibleTextCons("", []);
    }
  }

  /** A pass loses and reorders nothing that is visible. */
  lemma CleanKeepsVisible(s: string)
    ensures Visible(Clean(s)) == Visible(s)
  {
    CleanIsText(s);
    VisibleDrop(Lines(s));
    VisibleLines(s, 0);
    assert s[0..] == s;
  }

  // ----- How a text is cut into lines -----

  /** A line break: one of the break characters, or a carriage return and a newline together. */
  predicate IsLineBreak(b: string) {
    b == "\r\n" || (|b| == 1 && IsBreak(b[0]))
  }

  /** The breaks after the lines from position `i` on; the last line may have none. */
  function Breaks(s: string, i: nat := 0): seq<string>
    requires i <= |s|
    decreases |s| - i
  {
    if i == |s| then []
    else
      var k := LineEnd(s, i);
      [s[k..LineAfter(s, k)]] + Breaks(s, LineAfter(s, k))
  }

  function Interleave(lines: seq<string>, breaks: seq<string>): string
    requires |lines| == |breaks|
  {
    if lines == [] then "" else lines[0] + breaks[0] + Interleave(lines[1..], breaks[1..])
  }

  /** The lines and their breaks make up the text. */
  lemma {:induction false} LinesMakeText(s: string, i: nat)
    requires i <= |s|
    ensures |SplitLines(s, i)| == |Breaks(s, i)| && Interleave(SplitLines(s, i), Breaks(s, i)) == s[i..]
    decreases |s| - i
  {
    if i == |s| {
      assert s[i..] == "";
    } else {
      var k := LineEnd(s, i);
      var next := LineAfter(s, k);
      LinesMakeText(s, next);
      FirstBreak(s, i);
      InterleaveCons(s[i..k], s[k..next], SplitLines(s, next), Breaks(s, next));
      Cuts(s, i, k, next);
    }
  }

  lemma InterleaveCons(line: string, gap: string, lines: seq<string>, breaks: seq<string>)
    requires |lines| == |breaks|
    ensures Interleave([line] + lines, [gap] + breaks) == line + gap + Interleave(lines, breaks)
  {
    assert ([line] + lines)[1..] == lines && ([gap] + breaks)[1..] == breaks;
  }

  lemma Cuts(s: string, i: nat, k: nat, next: nat)
    requires i <= k <= next <= |s|
    ensures s[i..] == s[i..k] + s[k..next] + s[next..]
  {
  }

  /** No line holds a break, and every line ends in one, but for a last line that is not empty. */
  lemma {:induction false} BreaksEndLines(s: string, i: nat)
    requires i <= |s|
    ensures var lines, breaks := SplitLines(s, i), Breaks(s, i);
            && |lines| == |breaks|
            && (forall n :: 0 <= n < |lines| ==> Unbroken(lines[n]))
            && (forall n :: 0 <= n < |breaks| ==>
                  IsLineBreak(breaks[n]) || (n == |breaks| - 1 && breaks[n] == "" && lines[n] != ""))
    decreases |s| - i
  {
    SplitUnbroken(s, i);
    if i < |s| {
      var k := LineEnd(s, i);
      BreaksEndLines(s, LineAfter(s, k));
      BreakAt(s, k);
      FirstBreak(s, i);
    }
  }

  /** A carriage return is a break of its own only if no newline follows it. */
  lemma {:induction false} BreaksAreWhole(s: string, i: nat)
    requires i <= |s|
    ensures var lines, breaks := SplitLines(s, i), Breaks(s, i);
            && |lines| == |breaks|
            && (forall n :: 0 <= n < |lines| - 1 && breaks[n] == "\r" ==> !("\n" <= lines[n + 1] + breaks[n + 1]))
    decreases |s| - i
  {
    if i < |s| {
      var k := LineEnd(s, i);
      var next := LineAfter(s, k);
      BreaksAreWhole(s, next);
      BreakAt(s, k);
      FirstBreak(s, i);
      if next < |s| {
        FirstLineStarts(s, next);
      }
    }
  }

  lemma BreakAt(s: string, k: nat)
    requires k <= |s| && (k < |s| ==> IsBreak(s[k]))
    ensures var b := s[k..LineAfter(s, k)];
            && (if k < |s| then IsLineBreak(b) else b == "")
            && (b == "\r" && LineAfter(s, k) < |s| ==> s[LineAfter(s, k)] != '\n')
  {
  }

  lemma FirstBreak(s: string, i: nat)
    requires i < |s|
    ensures var k := LineEnd(s, i);
            var next := LineAfter(s, k);
            && SplitLines(s, i) == [s[i..k]] + SplitLines(s, next)
            && Breaks(s, i) == [s[k..next]] + Breaks(s, next)
            && (s[i..k] != "" || s[k..next] != "")
  {
  }

  /** The text of the first line and its break starts where the line does. */
  lemma FirstLineStarts(s: string, i: nat)
    requires i < |s|
    ensures var lines, breaks := SplitLines(s, i), Breaks(s, i);
            && |lines| > 0 && |breaks| > 0 && |lines[0] + breaks[0]| > 0
            && (lines[0] + breaks[0])[0] == s[i]
  {
    var k := LineEnd(s, i);
    assert s[i..k] + s[k..LineAfter(s, k)] == s[i..LineAfter(s, k)];
  }

  // ----- Convergence -----

  function Iterate(k: nat, s: string): string {
    if k == 0 then s else Clean(Iterate(k - 1, s))
  }

  function Drop(k: nat, lines: seq<string>): seq<string> {
    if k == 0 then lines else DropBlank(Drop(k - 1, lines))
  }

  lemma CleanDrops(s: string, l: seq<string>)
    requires Lines(s) == l
    ensures Lines(Clean(s)) == DropBlank(l)
  {
    CleanIsText(s);
  }

  lemma {:induction false} IterateLines(k: nat, s: string)
    ensures Lines(Iterate(k, s)) == Drop(k, Lines(s))
    decreases k
  {
    if k > 0 {
      IterateLines(k - 1, s);
      CleanDrops(Iterate(k - 1, s), Drop(k - 1, Lines(s)));
    }
  }

  /** What a pass makes is the text of its lines. */
  lemma CleanIsOwnText(before: string, s: string)
    requires s == Clean(before)
    ensures s == Text(Lines(s))
  {
    CleanIsText(before);
  }

  lemma IterateStep(k: nat, s: string)
    requires k > 0
    ensures Iterate(k, s) == Clean(Iterate(k - 1, s))
  {
  }

  lemma IterateText(k: nat, s: string)
    requires k > 0
    ensures Iterate(k, s) == Text(Lines(Iterate(k, s)))
  {
    IterateStep(k, s);
    CleanIsOwnText(Iterate(k - 1, s), Iterate(k, s));
  }

  lemma {:induction false} DropBlanks(k: nat, lines: seq<string>)
    ensures TrailingBlanks(Drop(k, lines)) == if k <= TrailingBlanks(lines) then TrailingBlanks(lines) - k else 0
    decreases k
  {
    if k > 0 {
      DropBlanks(k - 1, lines);
    }
  }

  /** After one pass or more the text is settled exactly when every trailing blank line has had its pass. */
  lemma SettledIff(k: nat, s: string)
    requires k >= 1
    ensures Clean(Iterate(k, s)) == Iterate(k, s) <==> TrailingBlanks(Lines(s)) <= k
  {
    var l := Drop(k, Lines(s));
    IterateLines(k, s);
    IterateText(k, s);
    CleanIsText(Iterate(k, s));
    DropBlanks(k, Lines(s));
    assert TrailingBlanks(l) == 0 <==> DropBlank(l) == l;
    LinesAreClean(Iterate(k, s));
    SplitWholeText(l);
    SplitWholeText(DropBlank(l));
  }

  /** Cleaning twice is cleaning once exactly for texts with at most one trailing blank line. */
  lemma IdempotentIff(s: string)
    ensures Clean(Clean(s)) == Clean(s) <==> TrailingBlanks(Lines(s)) <= 1
  {
    assert Iterate(0, s) == s && Iterate(1, s) == Clean(s);
    SettledIff(1, s);
  }

  // ----- Fixed points -----

  /** What stands before a newline is not whitespace that a line could lose. */
  predicate NothingTrails(s: string, i: nat)
    requires 0 < i < |s|
  {
    s[i] == '\n' ==> s[i - 1] == '\n' || !IsSpace(s[i - 1])
  }

  /** No line break but the newline, no whitespace before one, and a newline at the end of any text. */
  predicate Neat(s: string) {
    && (forall i :: 0 <= i < |s| ==> IsBreak(s[i]) ==> s[i] == '\n')
    && (forall i :: 0 < i < |s| ==> NothingTrails(s, i))
    && (s != "" ==> s[|s| - 1] == '\n')
  }

  /** Neat, and the last line is not blank. */
  predicate Tidy(s: string) {
    s == "" || (Neat(s) && |s| >= 2 && s[|s| - 2] != '\n')
  }

  /** The line that starts at `i` in a neat text is clean and ended by a newline. */
  lemma NeatLine(s: string, i: nat)
    requires Neat(s) && i < |s|
    ensures var k := LineEnd(s, i); k < |s| && s[k] == '\n' && LineAfter(s, k) == k + 1 && RStrip(s[i..k]) == s[i..k]
  {
    var k := LineEnd(s, i);
    if k > i {
      assert s[k - 1] == s[i..k][k - 1 - i];
      assert k < |s| ==> NothingTrails(s, k);
    }
  }

  lemma {:induction false} NeatText(s: string, i: nat)
    requires Neat(s) && i <= |s|
    ensures Text(SplitLines(s, i)) == s[i..]
    decreases |s| - i
  {
    if i < |s| {
      var k := LineEnd(s, i);
      NeatBreak(s, i, k);
      NeatText(s, k + 1);
      FirstLine(s, i, k);
      TextFrom(SplitLines(s, i), SplitLines(s, k + 1), s, i, k);
    } else {
      assert s[i..] == "";
    }
  }

  lemma NeatBreak(s: string, i: nat, k: nat)
    requires Neat(s) && i < |s| && k == LineEnd(s, i)
    ensures i <= k < |s| && s[k] == '\n' && LineAfter(s, k) == k + 1
  {
    NeatLine(s, i);
  }

  /** The text of lines of which the first ends at `k` and the others make up what follows. */
  lemma TextFrom(lines: seq<string>, rest: seq<string>, s: string, i: nat, k: nat)
    requires i <= k < |s| && s[k] == '\n' && lines == [s[i..k]] + rest && Text(rest) == s[k + 1..]
    ensures Text(lines) == s[i..]
  {
    TextCons(s[i..k], rest);
    CutAt(s, i, k);
  }

  lemma TextCons(line: string, lines: seq<string>)
    ensures Text([line] + lines) == line + "\n" + Text(lines)
  {
    assert ([line] + lines)[1..] == lines;
  }

  lemma CutAt(s: string, i: nat, k: nat)
    requires i <= k < |s| && s[k] == '\n'
    ensures s[i..] == s[i..k] + "\n" + s[k + 1..]
  {
    assert s[k..] == [s[k]] + s[k + 1..];
    assert s[i..] == s[i..k] + s[k..];
  }

  lemma {:induction false} NeatLines(s: string, i: nat)
    requires Neat(s) && i <= |s|
    ensures StripAll(SplitLines(s, i)) == SplitLines(s, i)
    decreases |s| - i
  {
    if i < |s| {
      var k := LineEnd(s, i);
      NeatLine(s, i);
      NeatLines(s, k + 1);
      FirstLine(s, i, k);
      StripCons(s[i..k], SplitLines(s, k + 1));
    }
  }

  lemma StripCons(line: string, lines: seq<string>)
    ensures StripAll([line] + lines) == [RStrip(line)] + StripAll(lines)
  {
  }

  lemma {:induction false} LastLine(s: string, i: nat)
    requires Neat(s) && i < |s| && |s| >= 2 && s[|s| - 2] != '\n' && (i == |s| - 1 ==> i == 0)
    ensures var lines := SplitLines(s, i); lines != [] && lines[|lines| - 1] != ""
    decreases |s| - i
  {
    var k := LineEnd(s, i);
    NeatLine(s, i);
    FirstLine(s, i, k);
    if k + 1 < |s| {
      LastLine(s, k + 1);
      LastOfCons(s[i..k], SplitLines(s, k + 1));
    } else {
      NoLines(s);
      assert |s[i..k]| > 0;
    }
  }

  lemma FirstLine(s: string, i: nat, k: nat)
    requires i < |s| && k == LineEnd(s, i) && LineAfter(s, k) == k + 1
    ensures SplitLines(s, i) == [s[i..k]] + SplitLines(s, k + 1)
  {
  }

  lemma NoLines(s: string)
    ensures SplitLines(s, |s|) == []
  {
  }

  lemma LastOfCons(line: string, lines: seq<string>)
    requires lines != []
    ensures var all := [line] + lines; all[|all| - 1] == lines[|lines| - 1]
  {
  }

  lemma {:induction false} TextNeat(lines: seq<string>)
    requires CleanLines(lines)
    ensures Neat(Text(lines))
    ensures lines != [] ==> |Text(lines)| >= 1
    ensures lines != [] && lines[|lines| - 1] != "" ==> |Text(lines)| >= 2 && Text(lines)[|Text(lines)| - 2] != '\n'
    decreases |lines|
  {
    if lines != [] {
      var line, rest := lines[0], Text(lines[1..]);
      TextNeat(lines[1..]);
      assert CleanLine(line);
      var s := line + "\n" + rest;
      assert Text(lines) == s;
      var n := |line|;
      assert s[n] == '\n';
      assert forall i :: 0 <= i < n ==> s[i] == line[i];
      assert forall i :: n < i < |s| ==> s[i] == rest[i - n - 1];
      forall i | 0 < i < |s| ensures NothingTrails(s, i) {
        if i > n + 1 {
          assert NothingTrails(rest, i - n - 1);
        }
      }
      if |lines| == 1 {
        assert rest == "";
      } else if lines[|lines| - 1] != "" {
        assert s[|s| - 2] == rest[|rest| - 2];
      }
    }
  }

  /** The texts that cleaning leaves as they are. */
  lemma FixedPointsAreTidy(s: string)
    ensures Clean(s) == s <==> Tidy(s)
  {
    CleanIsText(s);
    var l := DropBlank(Lines(s));
    if Clean(s) == s {
      LinesAreClean(s);
      assert DropBlank(l) == l by { assert Lines(s) == l; }
      TextNeat(l);
      if l != [] {
        assert l[|l| - 1] != "";
      }
    } else if Tidy(s) && s != "" {
      NeatLines(s, 0);
      NeatText(s, 0);
      assert s[0..] == s;
      LastLine(s, 0);
      assert false;
    }
  }
}
