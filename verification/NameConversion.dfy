/** Conversion of names between CamelCase and snake_case.

    The snake form is computed by two regular-expression substitutions, each scanning left to right
    for non-overlapping matches.  The first can miss a place because a match before it has used up the
    character on its left; the second makes up for exactly those places.
 */
module NameConversion {
  import opened Ascii

  predicate AllLower(s: string) {
    forall i :: 0 <= i < |s| ==> IsLower(s[i])
  }

  // ----- The two substitutions -----

  /** Where the run of lower-case letters from `i` ends. */
  function LowerEnd(s: string, i: nat): (e: nat)
    requires i <= |s|
    ensures i <= e <= |s|
    ensures forall k :: i <= k < e ==> IsLower(s[k])
    ensures e < |s| ==> !IsLower(s[e])
    decreases |s| - i
  {
    if i == |s| || !IsLower(s[i]) then i else LowerEnd(s, i + 1)
  }

  /** Whether `(.)([A-Z][a-z]+)` matches at `i`. */
  predicate WordAt(s: string, i: nat) {
    i + 2 < |s| && s[i] != '\n' && IsUpper(s[i + 1]) && IsLower(s[i + 2])
  }

  /** `re.sub("(.)([A-Z][a-z]+)", r"\1_\2", s)`, scanning from `i` */
  function SplitWords(s: string, i: nat := 0): string
    requires i <= |s|
    decreases |s| - i
  {
    if i == |s| then ""
    else if WordAt(s, i) then
      var e := LowerEnd(s, i + 2);
      [s[i]] + ("_" + s[i + 1..e] + SplitWords(s, e))
    else [s[i]] + SplitWords(s, i + 1)
  }

  /** Whether `([a-z0-9])([A-Z])` matches at the start. */
  predicate CaseMatch(s: string) {
    |s| >= 2 && (IsLower(s[0]) || IsDigit(s[0])) && IsUpper(s[1])
  }

  /** `re.sub("([a-z0-9])([A-Z])", r"\1_\2", s)` */
  function SplitCases(s: string): string
    decreases |s|
  {
    if s == "" then ""
    else if CaseMatch(s) then [s[0]] + "_" + [s[1]] + SplitCases(s[2..])
    else [s[0]] + SplitCases(s[1..])
  }

  function CamelToSnake(name: string): string {
    Lower(SplitCases(SplitWords(name)))
  }

  // ----- The positional rule -----

  /** An underscore belongs before position `i`: an upper-case letter that follows a lower-case letter
      or digit, or that starts a capitalised word (and does not start a line). */
  predicate Breaks(s: string, i: nat)
    requires i < |s|
  {
    && i > 0
    && IsUpper(s[i])
    && (IsLower(s[i - 1]) || IsDigit(s[i - 1]) || (s[i - 1] != '\n' && i + 1 < |s| && IsLower(s[i + 1])))
  }

  /** The character at `i`, preceded by an underscore where the rule asks for one. */
  function Marked(s: string, i: nat): string
    requires i < |s|
  {
    if Breaks(s, i) then ['_', s[i]] else [s[i]]
  }

  function Broken(s: string, i: nat): string
    requires i <= |s|
    decreases |s| - i
  {
    if i == |s| then "" else Marked(s, i) + Broken(s, i + 1)
  }

  function Snake(s: string): string {
    Lower(Broken(s, 0))
  }

  // ----- The second substitution works character by character -----

  /** `x` as the second substitution leaves it when `c` is the character before it. */
  function Joint(c: char, x: char): string {
    if (IsLower(c) || IsDigit(c)) && IsUpper(x) then ['_', x] else [x]
  }

  /** The second substitution on `s` when `c` is the character before it. */
  function CasesAfter(c: char, s: string): string
    decreases |s|
  {
    if s == "" then "" else Joint(c, s[0]) + CasesAfter(s[0], s[1..])
  }

  lemma {:induction false} SplitCasesIsLocal(s: string)
    requires s != ""
    ensures SplitCases(s) == [s[0]] + CasesAfter(s[0], s[1..])
    decreases |s|
  {
    if CaseMatch(s) {
      var x, rest := s[1], s[2..];
      assert s[1..] == [x] + rest;
      CasesAfterCons(s[0], x, rest);
      assert CasesAfter(x, rest) == SplitCases(rest) by {
        if rest != "" {
          SplitCasesIsLocal(rest);
          assert rest == [rest[0]] + rest[1..];
          CasesAfterCons(x, rest[0], rest[1..]);
        }
      }
      assert [s[0]] + (['_', x] + SplitCases(rest)) == [s[0]] + "_" + [x] + SplitCases(rest);
    } else if |s| > 1 {
      SplitCasesIsLocal(s[1..]);
      assert s[1..] == [s[1]] + s[2..];
      CasesAfterCons(s[0], s[1], s[2..]);
    } else {
      assert SplitCases("") == "" && CasesAfter(s[0], "") == "";
    }
  }

  function LastOr(c: char, s: string): char {
    if s == "" then c else s[|s| - 1]
  }

  lemma CasesAfterCons(c: char, x: char, s: string)
    ensures CasesAfter(c, [x] + s) == Joint(c, x) + CasesAfter(x, s)
  {
    assert ([x] + s)[1..] == s;
  }

  lemma {:induction false} CasesAfterConcat(c: char, a: string, b: string)
    ensures CasesAfter(c, a + b) == CasesAfter(c, a) + CasesAfter(LastOr(c, a), b)
    decreases |a|
  {
    if a == "" {
      assert a + b == b;
    } else {
      var x, a' := a[0], a[1..];
      var last := CasesAfter(LastOr(c, a), b);
      calc {
        CasesAfter(c, a + b);
        { assert a + b == [x] + (a' + b); CasesAfterCons(c, x, a' + b); }
        Joint(c, x) + CasesAfter(x, a' + b);
        { CasesAfterConcat(x, a', b); }
        Joint(c, x) + (CasesAfter(x, a') + last);
        (Joint(c, x) + CasesAfter(x, a')) + last;
        { assert a == [x] + a'; CasesAfterCons(c, x, a'); }
        CasesAfter(c, a) + last;
      }
    }
  }

  lemma {:induction false} CasesAfterLower(c: char, a: string)
    requires AllLower(a)
    ensures CasesAfter(c, a) == a
    decreases |a|
  {
    if a != "" {
      assert a == [a[0]] + a[1..];
      CasesAfterCons(c, a[0], a[1..]);
      CasesAfterLower(a[0], a[1..]);
    }
  }

  lemma {:induction false} BrokenLower(s: string, i: nat, j: nat)
    requires i <= j <= |s| && forall k :: i <= k < j ==> IsLower(s[k])
    ensures Broken(s, i) == s[i..j] + Broken(s, j)
    decreases j - i
  {
    if i < j {
      BrokenLower(s, i + 1, j);
      assert IsLower(s[i]) && !Breaks(s, i);
      var tail := Broken(s, j);
      calc {
        Broken(s, i);
        [s[i]] + Broken(s, i + 1);
        [s[i]] + (s[i + 1..j] + tail);
        ([s[i]] + s[i + 1..j]) + tail;
        { assert s[i..j] == [s[i]] + s[i + 1..j]; }
        s[i..j] + tail;
      }
    } else {
      assert s[i..j] == "";
    }
  }

  // ----- Both substitutions against the rule -----

  /** The first scan stands at `i` having just matched a word, or having found no word start there. */
  predicate ScanAt(s: string, i: nat)
    requires i <= |s|
  {
    0 < i && (IsLower(s[i - 1]) || !WordAt(s, i - 1))
  }

  /** The scan misses nothing that the second substitution does not make up for. */
  lemma {:induction false} ScanAgrees(s: string, i: nat)
    requires i <= |s| && ScanAt(s, i)
    ensures CasesAfter(s[i - 1], SplitWords(s, i)) == Broken(s, i)
    decreases |s| - i
  {
    if i < |s| {
      var rest := Rest(s, i);
      assert Joint(s[i - 1], s[i]) == if Breaks(s, i) then ['_', s[i]] else [s[i]];
      CasesAfterCons(s[i - 1], s[i], rest);
      RestAgrees(s, i);
    }
  }

  /** What the first substitution puts after the character at `i` when its scan stands there. */
  function Rest(s: string, i: nat): (r: string)
    requires i < |s|
    ensures SplitWords(s, i) == [s[i]] + r
  {
    if WordAt(s, i) then
      var e := LowerEnd(s, i + 2);
      "_" + s[i + 1..e] + SplitWords(s, e)
    else SplitWords(s, i + 1)
  }

  lemma {:induction false} RestAgrees(s: string, i: nat)
    requires i < |s|
    ensures CasesAfter(s[i], Rest(s, i)) == Broken(s, i + 1)
    decreases |s| - i, 0
  {
    if WordAt(s, i) {
      var e := RestAfterWord(s, i);
      ScanAgrees(s, e);
      WordAgrees(s, i, e, SplitWords(s, e));
    } else {
      ScanAgrees(s, i + 1);
    }
  }

  lemma RestAfterWord(s: string, i: nat) returns (e: nat)
    requires WordAt(s, i)
    ensures i + 2 < e <= |s| && ScanAt(s, e) && forall k :: i + 2 <= k < e ==> IsLower(s[k])
    ensures Rest(s, i) == "_" + s[i + 1..e] + SplitWords(s, e)
  {
    e := LowerEnd(s, i + 2);
  }

  /** The second substitution leaves a word that the first has separated as it is. */
  lemma WordCases(c: char, x: char, word: string, tail: string)
    requires AllLower(word)
    ensures CasesAfter(c, "_" + ([x] + word) + tail) == ['_', x] + (word + CasesAfter(LastOr(x, word), tail))
  {
    assert "_" + ([x] + word) + tail == ['_'] + ([x] + (word + tail));
    CasesAfterCons(c, '_', [x] + (word + tail));
    CasesAfterCons('_', x, word + tail);
    CasesAfterConcat(x, word, tail);
    CasesAfterLower(x, word);
  }

  /** A word found by the first scan: the underscore before it is the rule's, and it has no other. */
  lemma WordAgrees(s: string, i: nat, e: nat, tail: string)
    requires WordAt(s, i) && i + 2 < e <= |s| && forall k :: i + 2 <= k < e ==> IsLower(s[k])
    requires CasesAfter(s[e - 1], tail) == Broken(s, e)
    ensures CasesAfter(s[i], "_" + s[i + 1..e] + tail) == Broken(s, i + 1)
  {
    var x, word := s[i + 1], s[i + 2..e];
    assert s[i + 1..e] == [x] + word;
    assert AllLower(word) by {
      forall k | 0 <= k < |word| ensures IsLower(word[k]) { assert word[k] == s[i + 2 + k]; }
    }
    assert Breaks(s, i + 1);
    WordCases(s[i], x, word, tail);
    assert LastOr(x, word) == s[e - 1];
    BrokenLower(s, i + 2, e);
    assert Broken(s, i + 1) == ['_', x] + Broken(s, i + 2);
  }

  /** The two substitutions together insert an underscore exactly where the positional rule does. */
  lemma CamelToSnakeIsPositional(name: string)
    ensures CamelToSnake(name) == Snake(name)
  {
    if name != "" {
      var s1, rest := SplitWords(name), Rest(name, 0);
      RestAgrees(name, 0);
      assert s1[0] == name[0] && s1[1..] == rest;
      SplitCasesIsLocal(s1);
    }
  }

  // ----- What the rule produces -----

  /** How many of the positions before `i` get an underscore. */
  function BreaksBefore(s: string, i: nat): nat
    requires i <= |s|
  {
    if i == 0 then 0 else BreaksBefore(s, i - 1) + if Breaks(s, i - 1) then 1 else 0
  }

  /** Where the character at `i` ends up. */
  function Target(s: string, i: nat): nat
    requires i < |s|
  {
    i + BreaksBefore(s, i + 1)
  }

  lemma DropConcat(a: string, b: string, c: string, n: nat)
    requires n <= |a| && a[n..] == b + c
    ensures n + |b| <= |a| && a[n + |b|..] == c
  {
    assert a[n..][|b|..] == a[n + |b|..];
  }

  lemma {:induction false} BrokenTail(s: string, i: nat)
    requires i <= |s|
    ensures i + BreaksBefore(s, i) <= |Broken(s, 0)|
    ensures Broken(s, 0)[i + BreaksBefore(s, i)..] == Broken(s, i)
    decreases i
  {
    if i > 0 {
      BrokenTail(s, i - 1);
      DropConcat(Broken(s, 0), Marked(s, i - 1), Broken(s, i), i - 1 + BreaksBefore(s, i - 1));
    }
  }

  lemma BrokenAt(s: string, i: nat)
    requires i < |s|
    ensures Target(s, i) < |Broken(s, 0)| && Broken(s, 0)[Target(s, i)] == s[i]
    ensures Breaks(s, i) ==> Target(s, i) > 0 && Broken(s, 0)[Target(s, i) - 1] == '_'
  {
    BrokenTail(s, i);
    var n, tail := i + BreaksBefore(s, i), Broken(s, i);
    assert Broken(s, 0)[n..] == tail == Marked(s, i) + Broken(s, i + 1);
    assert Target(s, i) == n + if Breaks(s, i) then 1 else 0;
    assert Broken(s, 0)[n] == tail[0] && (Breaks(s, i) ==> Broken(s, 0)[n + 1] == tail[1]);
  }

  /** The snake form keeps every character, lowered and in order, with one underscore before each broken
      position and nowhere else: not at either end, and never two in a row. */
  lemma SnakeLayout(name: string, i: nat)
    requires i < |name|
    ensures |CamelToSnake(name)| == |name| + BreaksBefore(name, |name|)
    ensures Target(name, i) < |CamelToSnake(name)| && CamelToSnake(name)[Target(name, i)] == LowerChar(name[i])
    ensures Breaks(name, i) ==> Target(name, i) > 0 && CamelToSnake(name)[Target(name, i) - 1] == '_'
    ensures i == 0 ==> Target(name, i) == 0
    ensures i == |name| - 1 ==> Target(name, i) == |CamelToSnake(name)| - 1
    ensures i > 0 ==> Target(name, i) == Target(name, i - 1) + if Breaks(name, i) then 2 else 1
  {
    BrokenAt(name, i);
    BrokenLength(name);
    Targets(name, i);
    SnakeChar(name, Target(name, i));
    if Breaks(name, i) {
      SnakeChar(name, Target(name, i) - 1);
    }
  }

  lemma BrokenLength(s: string)
    ensures |Broken(s, 0)| == |s| + BreaksBefore(s, |s|)
  {
    BrokenTail(s, |s|);
    assert |Broken(s, 0)[|s| + BreaksBefore(s, |s|)..]| == 0;
  }

  lemma Targets(s: string, i: nat)
    requires i < |s|
    ensures i == 0 ==> Target(s, i) == 0
    ensures i == |s| - 1 ==> Target(s, i) == |s| + BreaksBefore(s, |s|) - 1
    ensures i > 0 ==> Target(s, i) == Target(s, i - 1) + if Breaks(s, i) then 2 else 1
  {
    assert BreaksBefore(s, i + 1) == BreaksBefore(s, i) + if Breaks(s, i) then 1 else 0;
  }

  lemma SnakeChar(name: string, k: nat)
    requires k < |Broken(name, 0)|
    ensures |CamelToSnake(name)| == |Broken(name, 0)| && CamelToSnake(name)[k] == LowerChar(Broken(name, 0)[k])
  {
    CamelToSnakeIsPositional(name);
  }

  // ----- From snake_case to camelCase -----

  /** `s.split("_")` */
  function Split(s: string): (parts: seq<string>)
    ensures parts != []
    decreases |s|
  {
    if s == "" then [""]
    else if s[0] == '_' then [""] + Split(s[1..])
    else
      var rest := Split(s[1..]);
      [[s[0]] + rest[0]] + rest[1..]
  }

  /** `s.title()` on ASCII: the first letter of every run of letters is a capital, the others are not. */
  function Title(s: string, inWord: bool := false): string
    decreases |s|
  {
    if s == "" then ""
    else [if inWord then LowerChar(s[0]) else UpperChar(s[0])] + Title(s[1..], IsLower(s[0]) || IsUpper(s[0]))
  }

  predicate IsLetter(c: char) { IsLower(c) || IsUpper(c) }

  /** A character after a letter is in lower case, and any other in upper case. */
  lemma {:induction false} TitleAt(s: string, inWord: bool, i: nat)
    requires i < |s|
    ensures |Title(s, inWord)| == |s|
    ensures Title(s, inWord)[i] ==
            if (if i == 0 then inWord else IsLetter(s[i - 1])) then LowerChar(s[i]) else UpperChar(s[i])
    decreases |s|
  {
    var rest := IsLower(s[0]) || IsUpper(s[0]);
    if |s| > 1 {
      TitleAt(s[1..], rest, if i > 0 then i - 1 else 0);
    } else {
      assert Title(s[1..], rest) == "";
    }
  }

  /** The parts hold no underscore. */
  lemma {:induction false} SplitsAtUnderscores(s: string)
    ensures forall p <- Split(s) :: '_' !in p
    decreases |s|
  {
    if s != "" {
      SplitsAtUnderscores(s[1..]);
    }
  }

  function Titles(parts: seq<string>): string {
    if parts == [] then "" else Title(parts[0]) + Titles(parts[1..])
  }

  function ToCamel(s: string): string {
    Split(s)[0] + Titles(Split(s)[1..])
  }

  /** A field name: components of lower-case letters joined by single underscores. */
  predicate IsWord(c: string) {
    c != "" && AllLower(c)
  }

  predicate IsSnakeName(s: string) {
    forall c <- Split(s) :: IsWord(c)
  }

  /** Two one-letter components in a row, not counting the first component. */
  predicate HasInitials(parts: seq<string>) {
    exists i :: 1 <= i < |parts| - 1 && |parts[i]| == 1 && |parts[i + 1]| == 1
  }

  function Underscored(parts: seq<string>): string {
    if parts == [] then "" else "_" + parts[0] + Underscored(parts[1..])
  }

  lemma {:induction false} SplitJoins(s: string)
    ensures s == Split(s)[0] + Underscored(Split(s)[1..])
    decreases |s|
  {
    if s != "" {
      SplitJoins(s[1..]);
      var rest := Split(s[1..]);
      if s[0] == '_' {
        assert Underscored(rest) == "_" + rest[0] + Underscored(rest[1..]);
        assert Split(s)[1..] == rest;
      } else {
        assert Split(s)[1..] == rest[1..];
      }
    }
  }

  lemma {:induction false} TitleInside(c: string)
    requires AllLower(c)
    ensures Title(c, true) == c
    decreases |c|
  {
    if c != "" {
      TitleInside(c[1..]);
    }
  }

  lemma TitleWord(c: string)
    requires IsWord(c)
    ensures Title(c) == [UpperChar(c[0])] + c[1..]
    ensures LowerChar(UpperChar(c[0])) == c[0] && IsUpper(UpperChar(c[0]))
  {
    TitleInside(c[1..]);
  }

  lemma LowerConcat(a: string, b: string)
    ensures Lower(a + b) == Lower(a) + Lower(b)
  {
  }

  lemma LowerWord(a: string)
    requires AllLower(a)
    ensures Lower(a) == a
  {
  }

  /** An underscore or nothing. */
  function Bar(wanted: bool): string {
    if wanted then "_" else ""
  }

  /** What the snake form makes of title-cased components: the underscore is lost between initials. */
  function Rejoined(afterInitial: bool, parts: seq<string>): string
    decreases |parts|
  {
    if parts == [] then ""
    else Bar(!(afterInitial && |parts[0]| == 1)) + parts[0] + Rejoined(|parts[0]| == 1, parts[1..])
  }

  lemma LowerTitle(c: string)
    requires IsWord(c)
    ensures Lower(Title(c)) == c
  {
    TitleWord(c);
    LowerWord(c[1..]);
    LowerConcat([UpperChar(c[0])], c[1..]);
  }

  lemma TitleStands(w: string, i: nat, c: string)
    requires IsWord(c) && i + |c| <= |w| && w[i..i + |c|] == Title(c)
    ensures w[i] == UpperChar(c[0]) && w[i + 1..i + |c|] == c[1..]
    ensures forall k :: i + 1 <= k < i + |c| ==> IsLower(w[k])
  {
    TitleWord(c);
    var t := w[i..i + |c|];
    assert w[i] == t[0] && w[i + 1..i + |c|] == t[1..];
    forall k | i + 1 <= k < i + |c| ensures IsLower(w[k]) {
      assert w[k] == t[k - i] == c[k - i];
    }
  }

  /** A capitalised component standing at `i` gets the underscore that position `i` asks for, and no other. */
  lemma BrokenWord(w: string, i: nat, c: string)
    requires IsWord(c) && i + |c| <= |w| && w[i..i + |c|] == Title(c)
    ensures Broken(w, i) == Bar(Breaks(w, i)) + (Title(c) + Broken(w, i + |c|))
  {
    TitleStands(w, i, c);
    TitleWord(c);
    MarkedStep(w, i);
    BrokenLower(w, i + 1, i + |c|);
    Attach(Breaks(w, i), w[i], c[1..], Broken(w, i + |c|));
  }

  lemma MarkedStep(w: string, i: nat)
    requires i < |w|
    ensures Broken(w, i) == (if Breaks(w, i) then ['_', w[i]] else [w[i]]) + Broken(w, i + 1)
  {
  }

  lemma Attach(breaks: bool, x: char, c: string, tail: string)
    ensures (if breaks then ['_', x] else [x]) + (c + tail) == Bar(breaks) + (([x] + c) + tail)
  {
  }

  lemma LowerBrokenWord(w: string, i: nat, c: string, bar: bool)
    requires IsWord(c) && i + |c| <= |w| && w[i..i + |c|] == Title(c) && Breaks(w, i) == bar
    ensures Lower(Broken(w, i)) == Bar(bar) + c + Lower(Broken(w, i + |c|))
  {
    var u, tail := Bar(bar), Broken(w, i + |c|);
    BrokenWord(w, i, c);
    LowerThree(u, Title(c), tail);
    LowerBar(bar);
    LowerTitle(c);
  }

  lemma LowerThree(a: string, b: string, c: string)
    ensures Lower(a + (b + c)) == Lower(a) + Lower(b) + Lower(c)
  {
  }

  lemma LowerBar(bar: bool)
    ensures Lower(Bar(bar)) == Bar(bar)
  {
  }

  lemma TitleEnd(c: string)
    requires IsWord(c)
    ensures |Title(c)| == |c|
    ensures if |c| == 1 then IsUpper(Title(c)[|c| - 1]) else IsLower(Title(c)[|c| - 1])
  {
    TitleWord(c);
    if |c| > 1 {
      assert Title(c)[|c| - 1] == c[1..][|c| - 2] == c[|c| - 1];
    }
  }

  /** Where a part of `n` characters stands in a word, and what it ends in. */
  lemma StandsAt(w: string, i: nat, t: string, tail: string, n: nat, initial: bool)
    requires i <= |w| && w[i..] == t + tail && |t| == n > 0
    requires if initial then IsUpper(t[n - 1]) else IsLower(t[n - 1])
    ensures i + n <= |w| && w[i..i + n] == t && w[i + n..] == tail
    ensures if initial then IsUpper(w[i + n - 1]) else IsLower(w[i + n - 1])
  {
    var s := w[i..];
    assert w[i..i + n] == s[..n] && w[i + n..] == s[n..];
    assert w[i + n - 1] == s[n - 1];
  }

  /** A capital standing after a letter gets its underscore unless it and that letter are both initials. */
  lemma BreaksAtTitle(w: string, i: nat, c: string, rest: seq<string>)
    requires IsWord(c) && (forall d <- rest :: IsWord(d)) && 0 < i <= |w| && w[i..] == Title(c) + Titles(rest)
    requires IsLower(w[i - 1]) || IsUpper(w[i - 1])
    ensures i < |w| && (Breaks(w, i) <==> !(IsUpper(w[i - 1]) && |c| == 1))
  {
    TitleWord(c);
    assert w[i] == w[i..][0] == UpperChar(c[0]);
    if |c| > 1 {
      assert w[i + 1] == w[i..][1] == c[1];
    } else if rest != [] {
      TitleWord(rest[0]);
      assert w[i + 1] == w[i..][1] == Titles(rest)[0] == UpperChar(rest[0][0]);
    }
  }

  /** What the rule makes of title-cased components up to the end, after a letter. */
  lemma {:induction false} BrokenTitles(w: string, i: nat, parts: seq<string>, afterInitial: bool)
    requires (forall c <- parts :: IsWord(c)) && 0 < i <= |w| && w[i..] == Titles(parts)
    requires if afterInitial then IsUpper(w[i - 1]) else IsLower(w[i - 1])
    ensures Lower(Broken(w, i)) == Rejoined(afterInitial, parts)
    decreases |parts|
  {
    if parts == [] {
      assert i == |w|;
    } else {
      var c, rest := parts[0], parts[1..];
      assert IsWord(c) && forall d <- rest :: IsWord(d);
      BrokenTitle(w, i, c, rest, afterInitial);
      var tail := Lower(Broken(w, i + |c|));
      assert tail == Rejoined(|c| == 1, rest) by {
        BrokenTitles(w, i + |c|, rest, |c| == 1);
      }
      RejoinedStep(afterInitial, parts, tail);
    }
  }

  /** What it makes of the first of them. */
  lemma BrokenTitle(w: string, i: nat, c: string, rest: seq<string>, afterInitial: bool)
    requires IsWord(c) && (forall d <- rest :: IsWord(d)) && 0 < i <= |w| && w[i..] == Title(c) + Titles(rest)
    requires if afterInitial then IsUpper(w[i - 1]) else IsLower(w[i - 1])
    ensures i + |c| <= |w| && w[i + |c|..] == Titles(rest)
    ensures if |c| == 1 then IsUpper(w[i + |c| - 1]) else IsLower(w[i + |c| - 1])
    ensures Lower(Broken(w, i)) == Bar(!(afterInitial && |c| == 1)) + c + Lower(Broken(w, i + |c|))
  {
    TitleEnd(c);
    StandsAt(w, i, Title(c), Titles(rest), |c|, |c| == 1);
    BreaksAtTitle(w, i, c, rest);
    LowerBrokenWord(w, i, c, !(afterInitial && |c| == 1));
  }

  lemma RejoinedStep(afterInitial: bool, parts: seq<string>, tail: string)
    requires parts != [] && tail == Rejoined(|parts[0]| == 1, parts[1..])
    ensures var c := parts[0]; Bar(!(afterInitial && |c| == 1)) + c + tail == Rejoined(afterInitial, parts)
  {
  }

  lemma {:induction false} RejoinedLength(afterInitial: bool, parts: seq<string>)
    ensures |Rejoined(afterInitial, parts)| <= |Underscored(parts)|
    ensures Rejoined(afterInitial, parts) == Underscored(parts) <==>
            !(afterInitial && parts != [] && |parts[0]| == 1) &&
            forall i :: 0 <= i < |parts| - 1 ==> !(|parts[i]| == 1 && |parts[i + 1]| == 1)
    ensures Rejoined(afterInitial, parts) != Underscored(parts) ==>
              |Rejoined(afterInitial, parts)| < |Underscored(parts)|
    decreases |parts|
  {
    if parts != [] {
      var rest := parts[1..];
      RejoinedLength(|parts[0]| == 1, rest);
      assert forall i :: 1 <= i < |parts| - 1 ==> parts[i] == rest[i - 1] && parts[i + 1] == rest[i];
      if !(afterInitial && |parts[0]| == 1) {
        var l, r := "_" + parts[0] + Rejoined(|parts[0]| == 1, rest), "_" + parts[0] + Underscored(rest);
        assert l == r ==> l[1 + |parts[0]|..] == r[1 + |parts[0]|..];
      }
    }
  }

  /** Converting a field name to its alias and back gives the name exactly when no two one-letter
      components follow each other after the first. */
  lemma RoundTripIff(s: string)
    requires IsSnakeName(s)
    ensures CamelToSnake(ToCamel(s)) == s <==> !HasInitials(Split(s))
  {
    var parts := Split(s);
    var first, rest := parts[0], parts[1..];
    assert IsWord(first) && forall c <- rest :: IsWord(c);
    SplitJoins(s);
    SnakeOfCamel(first, rest);
    RejoinedLength(false, rest);
    assert forall i :: 1 <= i < |parts| ==> parts[i] == rest[i - 1];
    SamePrefix(first, Rejoined(false, rest), Underscored(rest));
  }

  lemma SamePrefix(a: string, b: string, c: string)
    ensures a + b == a + c <==> b == c
  {
    assert (a + b)[|a|..] == b && (a + c)[|a|..] == c;
  }

  lemma SnakeOfCamel(first: string, rest: seq<string>)
    requires IsWord(first) && forall c <- rest :: IsWord(c)
    ensures CamelToSnake(first + Titles(rest)) == first + Rejoined(false, rest)
  {
    var w := first + Titles(rest);
    assert forall k :: 0 <= k < |first| ==> w[k] == first[k];
    CamelToSnakeIsPositional(w);
    BrokenLower(w, 0, |first|);
    assert w[0..|first|] == first;
    assert w[|first|..] == Titles(rest);
    BrokenTitles(w, |first|, rest, false);
    LowerConcat(first, Broken(w, |first|));
    LowerWord(first);
  }

  // ----- Aliases do not clash -----

  /** Reading an alias back by its capitals alone. */
  function FromCamel(w: string): string {
    if w == "" then "" else (if IsUpper(w[0]) then "_" else "") + [LowerChar(w[0])] + FromCamel(w[1..])
  }

  lemma {:induction false} FromCamelConcat(a: string, b: string)
    ensures FromCamel(a + b) == FromCamel(a) + FromCamel(b)
    decreases |a|
  {
    if a == "" {
      assert a + b == b;
    } else {
      assert (a + b)[1..] == a[1..] + b;
      FromCamelConcat(a[1..], b);
    }
  }

  lemma {:induction false} FromCamelLower(a: string)
    requires AllLower(a)
    ensures FromCamel(a) == a
    decreases |a|
  {
    if a != "" {
      FromCamelLower(a[1..]);
    }
  }

  lemma FromCamelTitle(c: string)
    requires IsWord(c)
    ensures FromCamel(Title(c)) == "_" + c
  {
    TitleWord(c);
    FromCamelLower(c[1..]);
    assert Title(c)[1..] == c[1..];
    assert "_" + [c[0]] + c[1..] == "_" + c;
  }

  lemma {:induction false} FromCamelTitles(parts: seq<string>)
    requires forall c <- parts :: IsWord(c)
    ensures FromCamel(Titles(parts)) == Underscored(parts)
    decreases |parts|
  {
    if parts != [] {
      FromCamelTitle(parts[0]);
      FromCamelTitles(parts[1..]);
      FromCamelConcat(Title(parts[0]), Titles(parts[1..]));
    }
  }

  lemma CapitalsRecoverName(s: string)
    requires IsSnakeName(s)
    ensures FromCamel(ToCamel(s)) == s
  {
    var parts := Split(s);
    assert forall c <- parts[1..] :: c in parts;
    SplitJoins(s);
    FromCamelConcat(parts[0], Titles(parts[1..]));
    assert IsWord(parts[0]);
    FromCamelLower(parts[0]);
    FromCamelTitles(parts[1..]);
  }

  /** No two field names share an alias, even where the round trip fails. */
  lemma AliasesInjective(s: string, t: string)
    requires IsSnakeName(s) && IsSnakeName(t) && ToCamel(s) == ToCamel(t)
    ensures s == t
  {
    CapitalsRecoverName(s);
    CapitalsRecoverName(t);
  }

  /** The failing family is inhabited. */
  lemma RoundTripFails()
    ensures exists s :: IsSnakeName(s) && CamelToSnake(ToCamel(s)) != s
  {
    var s := "a_b_c";
    SplitInitials();
    RoundTripIff(s);
    var parts := ["a", "b", "c"];
    assert |parts[1]| == 1 && |parts[1 + 1]| == 1;
    assert HasInitials(parts);
    assert forall c <- parts :: IsWord(c);
  }

  lemma SplitInitials()
    ensures Split("a_b_c") == ["a", "b", "c"]
  {
    assert Split("") == [""];
    SplitLetter('c', "");
    assert ['c'] + "" == "c";
    assert Split("c") == ["c"];
    SplitBar("c");
    assert Split("_c") == ["", "c"];
    SplitLetter('b', "_c");
    assert ['b'] + "_c" == "b_c" && ['b'] + "" == "b";
    assert Split("b_c") == ["b", "c"];
    SplitBar("b_c");
    assert Split("_b_c") == ["", "b", "c"];
    SplitLetter('a', "_b_c");
    assert ['a'] + "_b_c" == "a_b_c" && ['a'] + "" == "a";
  }

  lemma SplitBar(s: string)
    ensures Split("_" + s) == [""] + Split(s)
  {
    assert ("_" + s)[1..] == s;
  }

  lemma SplitLetter(c: char, s: string)
    requires c != '_'
    ensures Split([c] + s) == [[c] + Split(s)[0]] + Split(s)[1..]
  {
    assert ([c] + s)[1..] == s;
  }
}
