/** The paths that the names of legacy variables spell. */
module LegacyNames {
  import opened Ascii

  /** `str.split("__")`: the parts between successive, non-overlapping double underscores. */
  function SplitDouble(s: string): (parts: seq<string>)
    ensures parts != []
    ensures forall p <- parts, c <- p :: c in s
  {
    if s == "" then [""]
    else if "__" <= s then [""] + SplitDouble(s[2..])
    else
      var rest := SplitDouble(s[1..]);
      [[s[0]] + rest[0]] + rest[1..]
  }

  /** `"__".join(parts)` */
  function JoinDouble(parts: seq<string>): string
    requires parts != []
  {
    if |parts| == 1 then parts[0] else parts[0] + "__" + JoinDouble(parts[1..])
  }

  predicate NoDouble(s: string) {
    forall i :: 0 <= i < |s| - 1 ==> !(s[i] == '_' && s[i + 1] == '_')
  }

  /** The parts make up the text, with a double underscore between any two of them, and each is cut at the
      first one: no part holds a double underscore, and none but the last ends in an underscore. */
  predicate IsSplit(parts: seq<string>, s: string) {
    && parts != [] && JoinDouble(parts) == s
    && (forall k :: 0 <= k < |parts| ==> NoDouble(parts[k]))
    && (forall k :: 0 <= k < |parts| - 1 && parts[k] != "" ==> parts[k][|parts[k]| - 1] != '_')
  }

  lemma JoinCons(p: string, parts: seq<string>)
    requires parts != []
    ensures JoinDouble([p] + parts) == p + "__" + JoinDouble(parts)
  {
    assert ([p] + parts)[1..] == parts;
  }

  /** Joining parts of which the first has one more character. */
  lemma JoinLonger(c: char, parts: seq<string>)
    requires parts != []
    ensures JoinDouble([[c] + parts[0]] + parts[1..]) == [c] + JoinDouble(parts)
  {
    var longer := [[c] + parts[0]] + parts[1..];
    if |parts| > 1 {
      assert longer[1..] == parts[1..];
      assert [c] + parts[0] + "__" + JoinDouble(parts[1..]) == [c] + (parts[0] + "__" + JoinDouble(parts[1..]));
    }
  }

  /** Where the first part starts. */
  lemma JoinStart(parts: seq<string>)
    requires parts != []
    ensures parts[0] != "" ==> JoinDouble(parts) != "" && JoinDouble(parts)[0] == parts[0][0]
    ensures |parts[0]| > 1 ==> |JoinDouble(parts)| > 1 && JoinDouble(parts)[1] == parts[0][1]
    ensures |parts| > 1 && |parts[0]| == 1 ==> |JoinDouble(parts)| > 1 && JoinDouble(parts)[1] == '_'
    ensures |parts| > 1 && parts[0] == "" ==>
              "__" <= JoinDouble(parts) && JoinDouble(parts)[2..] == JoinDouble(parts[1..])
    ensures |parts| == 1 ==> JoinDouble(parts) == parts[0]
  {
  }

  lemma {:induction false} SplitDoubleIs(s: string)
    ensures IsSplit(SplitDouble(s), s)
    decreases |s|
  {
    if s == "" {
    } else if "__" <= s {
      SplitDoubleIs(s[2..]);
      JoinCons("", SplitDouble(s[2..]));
      assert s == "__" + s[2..];
      assert s == "" + "__" + s[2..];
    } else {
      var rest := SplitDouble(s[1..]);
      SplitDoubleIs(s[1..]);
      JoinLonger(s[0], rest);
      JoinStart(rest);
      assert s == [s[0]] + s[1..];
      LongerFits(s, rest);
    }
  }

  lemma LongerFits(s: string, rest: seq<string>)
    requires s != "" && !("__" <= s) && IsSplit(rest, s[1..])
    ensures var parts := [[s[0]] + rest[0]] + rest[1..];
            && (forall k :: 0 <= k < |parts| ==> NoDouble(parts[k]))
            && (forall k :: 0 <= k < |parts| - 1 && parts[k] != "" ==> parts[k][|parts[k]| - 1] != '_')
  {
    var parts := [[s[0]] + rest[0]] + rest[1..];
    JoinStart(rest);
    if |s| > 1 {
      NotDouble(s);
    }
    assert forall k :: 1 <= k < |parts| ==> parts[k] == rest[k];
    var first := [s[0]] + rest[0];
    assert rest[0] != "" ==> first[1] == s[1];
    assert forall i :: 1 <= i < |first| ==> first[i] == rest[0][i - 1];
    assert |rest| > 1 && rest[0] == "" ==> s[1] == '_';
  }

  lemma NotDouble(s: string)
    requires |s| > 1
    ensures "__" <= s <==> s[0] == '_' && s[1] == '_'
  {
  }

  /** There is one such way only to cut a text. */
  lemma {:induction false} SplitDoubleIsTheOnly(parts: seq<string>, s: string)
    requires IsSplit(parts, s)
    ensures parts == SplitDouble(s)
    decreases |s|
  {
    JoinStart(parts);
    if s == "" {
      assert |parts| == 1;
    } else if "__" <= s {
      FirstIsEmpty(parts, s);
      SplitDoubleIsTheOnly(parts[1..], s[2..]);
      assert parts == [""] + parts[1..];
    } else {
      assert parts[0] != "";
      var shorter := [parts[0][1..]] + parts[1..];
      ShorterFits(parts, s);
      SplitDoubleIsTheOnly(shorter, s[1..]);
      assert [parts[0][0]] + parts[0][1..] == parts[0];
      assert parts == [parts[0]] + parts[1..];
    }
  }

  lemma FirstIsEmpty(parts: seq<string>, s: string)
    requires IsSplit(parts, s) && "__" <= s
    ensures parts[0] == "" && |parts| > 1 && IsSplit(parts[1..], s[2..])
  {
    JoinStart(parts);
    NotDouble(s);
    assert NoDouble(parts[0]);
    assert |parts[0]| <= 1;
    assert |parts[0]| != 1;
    assert forall k :: 0 <= k < |parts| - 1 ==> parts[1..][k] == parts[k + 1];
  }

  lemma ShorterFits(parts: seq<string>, s: string)
    requires IsSplit(parts, s) && s != "" && parts[0] != ""
    ensures IsSplit([parts[0][1..]] + parts[1..], s[1..]) && parts[0][0] == s[0]
  {
    var shorter := [parts[0][1..]] + parts[1..];
    JoinStart(parts);
    JoinLonger(s[0], shorter);
    assert [s[0]] + parts[0][1..] == parts[0];
    assert [[s[0]] + shorter[0]] + shorter[1..] == parts;
    assert ([s[0]] + JoinDouble(shorter))[1..] == JoinDouble(shorter);
    assert forall k :: 1 <= k < |parts| ==> shorter[k] == parts[k];
    forall i | 0 <= i < |shorter[0]| - 1 ensures !(shorter[0][i] == '_' && shorter[0][i + 1] == '_') {
      assert shorter[0][i] == parts[0][i + 1] && shorter[0][i + 1] == parts[0][i + 2];
    }
    if |parts| > 1 && shorter[0] != "" {
      assert shorter[0][|shorter[0]| - 1] == parts[0][|parts[0]| - 1];
    }
  }
}
