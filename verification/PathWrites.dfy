/** Assignments along key paths, the way the environment overlay makes them.

    An assignment descends with "set default to an empty dictionary" and stores its value under the
    last key.  It raises, and then changes nothing, when it meets a value that is not a dictionary.
 */
module PathWrites {
  import opened Wrappers
  import opened ConfigTrees

  function Child(t: Tree, k: string): Tree
    requires t.Dict?
  {
    if k in t.entries then t.entries[k] else EMPTY
  }

  function Write(t: Tree, p: Path, v: Tree): (r: Option<Tree>)
    requires p != []
    ensures r.Some? ==> r.value.Dict?
    decreases p
  {
    if !t.Dict? then None
    else if |p| == 1 then Some(Dict(t.entries[p[0] := v]))
    else
      match Write(Child(t, p[0]), p[1..], v)
      case None => None
      case Some(c) => Some(Dict(t.entries[p[0] := c]))
  }

  /** Neither path is a prefix of the other. */
  predicate Apart(p: Path, q: Path) {
    p != [] && q != [] && (p[0] != q[0] || Apart(p[1..], q[1..]))
  }

  lemma {:induction false} ApartIffNoPrefix(p: Path, q: Path)
    ensures Apart(p, q) <==> !(p <= q) && !(q <= p)
  {
    if p != [] && q != [] && p[0] == q[0] {
      ApartIffNoPrefix(p[1..], q[1..]);
      assert p == [p[0]] + p[1..] && q == [q[0]] + q[1..];
    }
  }

  lemma {:induction false} ApartSymmetric(p: Path, q: Path)
    ensures Apart(p, q) <==> Apart(q, p)
  {
    if p != [] && q != [] {
      ApartSymmetric(p[1..], q[1..]);
    }
  }

  lemma {:induction false} NotApartFromItself(p: Path)
    ensures !Apart(p, p)
    decreases |p|
  {
    if p != [] {
      NotApartFromItself(p[1..]);
    }
  }

  /** An assignment raises exactly when its path is blocked, and otherwise stores its value at the path. */
  lemma {:induction false} WriteAtPath(t: Tree, p: Path, v: Tree)
    requires p != []
    ensures Write(t, p, v).None? <==> Resolve(t, p) == Blocked
    ensures Write(t, p, v).Some? ==> Resolve(Write(t, p, v).value, p) == At(v)
    decreases p
  {
    if t.Dict? && |p| > 1 {
      WriteAtPath(Child(t, p[0]), p[1..], v);
      if p[0] !in t.entries {
        assert Resolve(EMPTY, p[1..]) == Missing;
      }
    }
  }

  /** What is read on any other branch is untouched. */
  lemma {:induction false} WriteElsewhere(t: Tree, p: Path, v: Tree, q: Path)
    requires Apart(p, q)
    ensures Write(t, p, v).Some? ==> Resolve(Write(t, p, v).value, q) == Resolve(t, q)
    decreases p
  {
    if t.Dict? && |p| > 1 && p[0] == q[0] {
      WriteElsewhere(Child(t, p[0]), p[1..], v, q[1..]);
      if p[0] !in t.entries && Write(t, p, v).Some? {
        assert q[1..] != [] && Resolve(EMPTY, q[1..]) == Missing;
      }
    }
  }

  datatype Setting = Setting(path: Path, value: Tree)

  function WriteSetting(t: Option<Tree>, w: Setting): Option<Tree>
    requires w.path != []
  {
    if t.None? then None else Write(t.value, w.path, w.value)
  }

  /** Two assignments on different branches commute, failures included. */
  lemma {:induction false} WritesCommute(t: Tree, u: Setting, w: Setting)
    requires Apart(u.path, w.path)
    ensures WriteSetting(WriteSetting(Some(t), u), w) == WriteSetting(WriteSetting(Some(t), w), u)
    decreases u.path
  {
    var p, q := u.path, w.path;
    if t.Dict? {
      if p[0] == q[0] {
        var u', w' := Setting(p[1..], u.value), Setting(q[1..], w.value);
        WritesCommute(Child(t, p[0]), u', w');
        WriteTwice(t, u, w);
        WriteTwice(t, w, u);
      } else if Write(t, p, u.value).Some? && Write(t, q, w.value).Some? {
        var x, y := Write(t, p, u.value).value.entries[p[0]], Write(t, q, w.value).value.entries[q[0]];
        assert t.entries[p[0] := x][q[0] := y] == t.entries[q[0] := y][p[0] := x];
      }
    }
  }

  lemma WriteTwice(t: Tree, u: Setting, w: Setting)
    requires t.Dict? && |u.path| > 1 && |w.path| > 1 && u.path[0] == w.path[0]
    ensures WriteSetting(WriteSetting(Some(t), u), w) ==
            var first := WriteSetting(Some(Child(t, u.path[0])), Setting(u.path[1..], u.value));
            match WriteSetting(first, Setting(w.path[1..], w.value))
            case None => None
            case Some(x) => Some(Dict(t.entries[u.path[0] := x]))
  {
    var k := u.path[0];
    var first := WriteSetting(Some(Child(t, k)), Setting(u.path[1..], u.value));
    if first.Some? {
      var second := WriteSetting(first, Setting(w.path[1..], w.value));
      if second.Some? {
        assert t.entries[k := first.value][k := second.value] == t.entries[k := second.value];
      }
    }
  }

  function WriteAll(t: Tree, ws: seq<Setting>): Option<Tree>
    requires forall w <- ws :: w.path != []
    decreases |ws|
  {
    if ws == [] then Some(t)
    else
      match Write(t, ws[0].path, ws[0].value)
      case None => None
      case Some(t') => WriteAll(t', ws[1..])
  }

  // ----- Sequences of assignments -----

  ghost predicate PairwiseApart(ws: seq<Setting>) {
    && (forall w <- ws :: w.path != [])
    && forall i, j :: 0 <= i < j < |ws| ==> Apart(ws[i].path, ws[j].path)
  }

  lemma {:induction false} WriteAllSplit(t: Tree, a: seq<Setting>, b: seq<Setting>)
    requires forall w <- a + b :: w.path != []
    ensures (forall w <- a :: w.path != []) && (forall w <- b :: w.path != [])
    ensures WriteAll(t, a + b) == if WriteAll(t, a).None? then None else WriteAll(WriteAll(t, a).value, b)
    decreases |a|
  {
    assert forall w <- a :: w in a + b;
    assert forall w <- b :: w in a + b;
    if a == [] {
      assert a + b == b;
    } else {
      assert (a + b)[1..] == a[1..] + b;
      var first := Write(t, a[0].path, a[0].value);
      if first.Some? {
        WriteAllSplit(first.value, a[1..], b);
      }
    }
  }

  /** An assignment apart from a whole run of others may be made before them. */
  lemma {:induction false} WriteFirst(t: Tree, a: seq<Setting>, w: Setting)
    requires forall x <- a :: x.path != [] && Apart(w.path, x.path)
    requires w.path != []
    ensures WriteAll(t, a + [w]) == WriteAll(t, [w] + a)
    decreases |a|
  {
    if a == [] {
      assert a + [w] == [w] + a;
    } else {
      var first := Write(t, a[0].path, a[0].value);
      assert (a + [w])[1..] == a[1..] + [w];
      WritesCommute(t, w, a[0]);
      assert ([w] + a)[1..] == a;
      if first.Some? {
        WriteFirst(first.value, a[1..], w);
        assert ([w] + a[1..])[1..] == a[1..];
      }
    }
  }

  lemma WriteToFront(t: Tree, pre: seq<Setting>, w: Setting, post: seq<Setting>)
    requires w.path != [] && forall x <- pre + post :: x.path != [] && Apart(w.path, x.path)
    ensures forall x <- pre + [w] + post :: x.path != []
    ensures WriteAll(t, pre + [w] + post) ==
            match Write(t, w.path, w.value) case None => None case Some(t') => WriteAll(t', pre + post)
  {
    assert forall x <- pre :: x in pre + post;
    assert forall x <- pre + [w] + post :: x == w || x in pre + post;
    WriteAllSplit(t, pre + [w], post);
    WriteFirst(t, pre, w);
    assert forall x <- [w] + pre + post :: x == w || x in pre + post;
    WriteAllSplit(t, [w] + pre, post);
    assert ([w] + pre + post)[1..] == pre + post;
  }

  lemma Extract<T>(ws: seq<T>, vs: seq<T>) returns (i: nat)
    requires multiset(ws) == multiset(vs) && ws != []
    ensures i < |vs| && vs[i] == ws[0]
    ensures multiset(vs[..i] + vs[i + 1..]) == multiset(ws[1..])
  {
    assert ws[0] in multiset(vs);
    i :| 0 <= i < |vs| && vs[i] == ws[0];
    assert ws == [ws[0]] + ws[1..];
    var pre, post := vs[..i], vs[i + 1..];
    assert vs == pre + [vs[i]] + post;
    assert multiset(vs) == multiset(pre) + multiset{vs[i]} + multiset(post);
    assert multiset(ws) == multiset{ws[0]} + multiset(ws[1..]);
    assert multiset(pre + post) == multiset(pre) + multiset(post) == multiset(vs) - multiset{vs[i]};
    assert multiset(ws[1..]) == multiset(ws) - multiset{ws[0]};
  }

  /** The order of assignments on pairwise different branches does not matter, failures included. */
  lemma {:induction false} WriteOrderIrrelevant(t: Tree, ws: seq<Setting>, vs: seq<Setting>)
    requires PairwiseApart(ws) && multiset(ws) == multiset(vs)
    ensures forall v <- vs :: v.path != []
    ensures WriteAll(t, ws) == WriteAll(t, vs)
    decreases |ws|
  {
    if ws == [] {
      assert |vs| == |multiset(vs)| == 0;
    } else {
      var w := ws[0];
      var i := Extract(ws, vs);
      var pre, post := vs[..i], vs[i + 1..];
      assert vs == pre + [w] + post;
      forall x: Setting | x in pre + post
        ensures Apart(w.path, x.path)
      {
        assert x in multiset(pre + post) && x in ws[1..];
      }
      WriteToFront(t, pre, w, post);
      var first := Write(t, w.path, w.value);
      if first.Some? {
        WriteOrderIrrelevant(first.value, ws[1..], pre + post);
      }
    }
  }

  /** A run of assignments raises exactly when one of its paths was blocked to begin with. */
  lemma {:induction false} WriteAllFailsIff(t: Tree, ws: seq<Setting>)
    requires PairwiseApart(ws)
    ensures WriteAll(t, ws).None? <==> exists w <- ws :: Resolve(t, w.path) == Blocked
    decreases |ws|
  {
    if ws != [] {
      var w := ws[0];
      WriteAtPath(t, w.path, w.value);
      if Write(t, w.path, w.value).Some? {
        var t' := Write(t, w.path, w.value).value;
        forall x | x in ws[1..]
          ensures Resolve(t', x.path) == Resolve(t, x.path)
        {
          WriteElsewhere(t, w.path, w.value, x.path);
        }
        WriteAllFailsIff(t', ws[1..]);
        assert forall x <- ws :: x == w || x in ws[1..];
      }
    }
  }

  /** After a run of assignments each path holds its value, and branches apart from all of them are untouched. */
  lemma {:induction false} WriteAllReads(t: Tree, ws: seq<Setting>)
    requires PairwiseApart(ws) && WriteAll(t, ws).Some?
    ensures forall w <- ws :: Resolve(WriteAll(t, ws).value, w.path) == At(w.value)
    ensures forall q :: (forall w <- ws :: Apart(w.path, q)) ==> Resolve(WriteAll(t, ws).value, q) == Resolve(t, q)
    decreases |ws|
  {
    if ws != [] {
      var w := ws[0];
      var t' := Write(t, w.path, w.value).value;
      WriteAtPath(t, w.path, w.value);
      WriteAllReads(t', ws[1..]);
      forall x | x in ws[1..] ensures Apart(x.path, w.path) {
        ApartSymmetric(w.path, x.path);
      }
      assert forall x <- ws :: x == w || x in ws[1..];
      forall q | forall x <- ws :: Apart(x.path, q)
        ensures Resolve(WriteAll(t, ws).value, q) == Resolve(t, q)
      {
        WriteElsewhere(t, w.path, w.value, q);
      }
    }
  }

  // ----- Assigning and merging -----

  /** Storing a value under a key of a merge is merging in the stored value, when it absorbs the base's. */
  lemma StoreIntoMerge(c: Tree, b: Tree, k: string, v: Tree, x: Tree)
    requires c.Dict? && b.Dict?
    requires x == if k in c.entries then MergeTree(c.entries[k], v) else v
    ensures Dict(MergeTree(c, b).entries[k := x]) == MergeTree(c, Dict(b.entries[k := v]))
  {
    assert MergeTree(c, b).entries[k := x] == MergeTree(c, Dict(b.entries[k := v])).entries;
  }

  /** Assigning into a merge is merging the assignment, when the value absorbs what the base holds there. */
  lemma {:induction false} WriteIntoMerge(c: Tree, b: Tree, p: Path, v: Tree)
    requires c.Dict? && b.Dict? && p != []
    requires Resolve(b, p) == Missing && Resolve(c, p) != Blocked
    requires Resolve(c, p).At? ==> Covers(v, Resolve(c, p).tree)
    ensures Write(b, p, v).Some?
    ensures Write(MergeTree(c, b), p, v) == Some(MergeTree(c, Write(b, p, v).value))
    decreases p
  {
    WriteAtPath(b, p, v);
    var k := p[0];
    if |p| == 1 {
      if k in c.entries {
        AbsorbsIffCovers(c.entries[k], v);
      }
      StoreIntoMerge(c, b, k, v, v);
    } else {
      var v' := Write(Child(b, k), p[1..], v).value;
      if k in c.entries {
        if k !in b.entries {
          MissingInEmpty(p[1..]);
          MergeEmpty(c.entries[k]);
        }
        WriteIntoMerge(c.entries[k], Child(b, k), p[1..], v);
        StoreIntoMerge(c, b, k, v', MergeTree(c.entries[k], v'));
      } else {
        StoreIntoMerge(c, b, k, v', v');
      }
    }
  }

  lemma MissingInEmpty(p: Path)
    requires p != []
    ensures Resolve(EMPTY, p) == Missing
  {
  }

  /** The tree that a run of assignments builds on its own. */
  function Built(ws: seq<Setting>): Tree
    requires forall w <- ws :: w.path != []
  {
    WriteAll(EMPTY, ws).GetOr(EMPTY)
  }

  /** A value may be assigned as if merged: it replaces whatever the base holds at the path. */
  predicate Absorbs(base: Tree, w: Setting) {
    var r := Resolve(base, w.path);
    r.At? ==> Covers(w.value, r.tree)
  }

  lemma BuiltExists(ws: seq<Setting>)
    requires PairwiseApart(ws)
    ensures WriteAll(EMPTY, ws) == Some(Built(ws)) && Built(ws).Dict?
  {
    WriteAllFailsIff(EMPTY, ws);
    forall w | w in ws ensures Resolve(EMPTY, w.path) != Blocked { MissingInEmpty(w.path); }
    WriteAllDict(EMPTY, ws);
  }

  lemma {:induction false} WriteAllDict(t: Tree, ws: seq<Setting>)
    requires t.Dict? && forall w <- ws :: w.path != []
    ensures WriteAll(t, ws).Some? ==> WriteAll(t, ws).value.Dict?
    decreases |ws|
  {
    if ws != [] && Write(t, ws[0].path, ws[0].value).Some? {
      WriteAllDict(Write(t, ws[0].path, ws[0].value).value, ws[1..]);
    }
  }

  /** The overlay equals one deep merge exactly when no assigned dictionary leaves part of the base's behind. */
  lemma {:induction false} OverlayIsMergeIff(base: Tree, ws: seq<Setting>)
    requires base.Dict? && PairwiseApart(ws) && WriteAll(base, ws).Some?
    ensures WriteAll(base, ws).value == MergeTree(base, Built(ws)) <==> forall w <- ws :: Absorbs(base, w)
  {
    BuiltExists(ws);
    if forall w <- ws :: Absorbs(base, w) {
      OverlayIsMerge(base, ws);
    } else {
      var w :| w in ws && !Absorbs(base, w);
      WriteAllReads(base, ws);
      WriteAllReads(EMPTY, ws);
      ResolveMerged(base, Built(ws), w.path);
      AbsorbsIffCovers(Resolve(base, w.path).tree, w.value);
    }
  }

  lemma InitApart(init: seq<Setting>, w: Setting)
    requires PairwiseApart(init + [w])
    ensures PairwiseApart(init) && forall x <- init :: Apart(x.path, w.path)
  {
    var ws := init + [w];
    forall i, j | 0 <= i < j < |init| ensures Apart(init[i].path, init[j].path) {
      assert init[i] == ws[i] && init[j] == ws[j];
    }
    forall x | x in init ensures Apart(x.path, w.path) {
      var i :| 0 <= i < |init| && init[i] == x;
      assert ws[i] == x && ws[|init|] == w;
    }
    assert forall x <- init :: x in ws;
  }

  /** One more assignment on top of a run that already equals a merge. */
  lemma MergeOneMore(base: Tree, init: seq<Setting>, w: Setting)
    requires base.Dict? && PairwiseApart(init + [w]) && PairwiseApart(init)
    requires WriteAll(base, init) == Some(MergeTree(base, Built(init)))
    requires Resolve(base, w.path) != Blocked && Absorbs(base, w)
    ensures WriteAll(base, init + [w]) == Some(MergeTree(base, Built(init + [w])))
  {
    InitApart(init, w);
    WriteAllSplit(base, init, [w]);
    WriteAllSplit(EMPTY, init, [w]);
    BuiltExists(init);
    WriteAllReads(EMPTY, init);
    MissingInEmpty(w.path);
    WriteIntoMerge(base, Built(init), w.path, w.value);
    WriteOne(MergeTree(base, Built(init)), w);
    WriteOne(Built(init), w);
  }

  lemma WriteOne(t: Tree, w: Setting)
    requires w.path != []
    ensures WriteAll(t, [w]) == Write(t, w.path, w.value)
  {
    assert [w][1..] == [];
  }

  lemma {:induction false} OverlayIsMerge(base: Tree, ws: seq<Setting>)
    requires base.Dict? && PairwiseApart(ws) && WriteAll(base, ws).Some?
    requires forall w <- ws :: Absorbs(base, w)
    ensures WriteAll(base, ws).value == MergeTree(base, Built(ws))
    decreases |ws|
  {
    if ws == [] {
      MergeEmpty(base);
    } else {
      var n := |ws| - 1;
      var init, w := ws[..n], ws[n];
      assert ws == init + [w];
      InitApart(init, w);
      WriteAllSplit(base, init, [w]);
      OverlayIsMerge(base, init);
      WriteAllFailsIff(base, ws);
      MergeOneMore(base, init, w);
    }
  }
}
