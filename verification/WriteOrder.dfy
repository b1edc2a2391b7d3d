/** When the order of two assignments along key paths matters. */
module WriteOrder {
  import opened Wrappers
  import opened ConfigTrees
  import opened PathWrites

  /** Assigning below a value just assigned is assigning the value changed there. */
  lemma {:induction false} WriteThenBelow(t: Tree, p: Path, v: Tree, s: Path, w: Tree)
    requires p != [] && s != [] && Write(t, p, v).Some?
    ensures Write(Write(t, p, v).value, p + s, w) ==
            match Write(v, s, w) case None => None case Some(x) => Write(t, p, x)
    decreases p
  {
    var k, t' := p[0], Write(t, p, v).value;
    assert (p + s)[1..] == p[1..] + s;
    if |p| == 1 {
      assert p[1..] + s == s;
      if Write(v, s, w).Some? {
        StoredTwice(t.entries, k, v, Write(v, s, w).value);
      }
    } else {
      WriteThenBelow(Child(t, k), p[1..], v, s, w);
      if Write(v, s, w).Some? {
        WriteAtPath(Child(t, k), p[1..], v);
        WriteAtPath(Child(t, k), p[1..], Write(v, s, w).value);
        StoredTwice(t.entries, k, Child(t', k), Write(Child(t, k), p[1..], Write(v, s, w).value).value);
      }
    }
  }

  /** Assigning at a path forgets what was assigned below it. */
  lemma {:induction false} BelowThenWrite(t: Tree, p: Path, v: Tree, s: Path, w: Tree)
    requires p != [] && s != [] && Write(t, p + s, w).Some?
    ensures Write(Write(t, p + s, w).value, p, v) == Write(t, p, v) != None
    decreases p
  {
    var k, t' := p[0], Write(t, p + s, w).value;
    assert (p + s)[1..] == p[1..] + s;
    if |p| == 1 {
      StoredTwice(t.entries, k, Child(t', k), v);
    } else {
      BelowThenWrite(Child(t, k), p[1..], v, s, w);
      StoredTwice(t.entries, k, Child(t', k), Write(Child(t, k), p[1..], v).value);
    }
  }

  lemma StoredTwice(m: map<string, Tree>, k: string, x: Tree, y: Tree)
    ensures m[k := x][k := y] == m[k := y]
  {
  }

  lemma {:induction false} WriteAgain(t: Tree, p: Path, v: Tree, w: Tree)
    requires p != [] && Write(t, p, v).Some?
    ensures Write(Write(t, p, v).value, p, w) == Write(t, p, w) != None
    decreases p
  {
    var k, t' := p[0], Write(t, p, v).value;
    if |p| == 1 {
      StoredTwice(t.entries, k, v, w);
    } else {
      WriteAgain(Child(t, k), p[1..], v, w);
      StoredTwice(t.entries, k, Child(t', k), Write(Child(t, k), p[1..], w).value);
    }
  }

  predicate Commute(t: Tree, u: Setting, w: Setting)
    requires u.path != [] && w.path != []
  {
    WriteSetting(WriteSetting(Some(t), u), w) == WriteSetting(WriteSetting(Some(t), w), u)
  }

  /** Two assignments to one path commute exactly when the path is blocked or the values agree. */
  lemma SamePathCommuteIff(t: Tree, p: Path, v: Tree, w: Tree)
    requires p != []
    ensures Commute(t, Setting(p, v), Setting(p, w)) <==> Resolve(t, p) == Blocked || v == w
  {
    WriteAtPath(t, p, v);
    WriteAtPath(t, p, w);
    if Write(t, p, v).Some? {
      WriteAgain(t, p, v, w);
      WriteAgain(t, p, w, v);
    }
  }

  /** An assignment and one below it commute exactly when both raise in either order, or the lower one
      changes nothing in the value of the upper one. */
  lemma NestedCommuteIff(t: Tree, p: Path, v: Tree, s: Path, w: Tree)
    requires p != [] && s != []
    ensures Commute(t, Setting(p, v), Setting(p + s, w)) <==>
            || Resolve(t, p) == Blocked
            || Write(v, s, w) == if Resolve(t, p + s) == Blocked then None else Some(v)
  {
    WriteAtPath(t, p, v);
    WriteAtPath(t, p + s, w);
    BlockedBelow(t, p, s);
    if Write(t, p, v).Some? {
      WriteThenBelow(t, p, v, s, w);
      if Write(v, s, w).Some? {
        var x := Write(v, s, w).value;
        WriteAtPath(t, p, x);
      }
      if Write(t, p + s, w).Some? {
        BelowThenWrite(t, p, v, s, w);
      }
    }
  }

  lemma {:induction false} BlockedBelow(t: Tree, p: Path, s: Path)
    requires s != []
    ensures Resolve(t, p) == Blocked ==> Resolve(t, p + s) == Blocked
    decreases p
  {
    if p != [] {
      assert (p + s)[0] == p[0] && (p + s)[1..] == p[1..] + s;
      if t.Dict? && p[0] in t.entries {
        BlockedBelow(t.entries[p[0]], p[1..], s);
      }
    }
  }
}
