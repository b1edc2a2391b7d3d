/** Parsed configuration values and the deep merge of two of them.

    A configuration file parses to nested dictionaries.  Merging an update into a base replaces
    whatever the update mentions, except that two dictionaries under the same key are merged in turn.
 */
module ConfigTrees {
  import opened Wrappers

  datatype Tree =
    | Null
    | Bool(b: bool)
    | Number(n: real)
    | Text(s: string)
    | List(items: seq<Tree>)
    | Dict(entries: map<string, Tree>)

  type Path = seq<string>

  const EMPTY := Dict(map[])

  /** The value stored under a key after `u` has been merged into `b`. */
  function MergeTree(b: Tree, u: Tree): (r: Tree)
    ensures r.Dict? <==> u.Dict?
    decreases u
  {
    if b.Dict? && u.Dict? then
      Dict(map k | k in b.entries.Keys + u.entries.Keys ::
             if k !in u.entries then b.entries[k]
             else if k !in b.entries then u.entries[k]
             else MergeTree(b.entries[k], u.entries[k]))
    else
      u
  }

  /** Every key of the dictionary `a` is overridden by `c`: merging `c` into `a` leaves nothing of `a`. */
  predicate Covers(c: Tree, a: Tree)
    decreases a
  {
    a.Dict? && c.Dict? ==>
      forall k <- a.entries :: k in c.entries && Covers(c.entries[k], a.entries[k])
  }

  // ----- Algebra of the merge -----

  lemma {:induction false} MergeIdempotent(a: Tree)
    ensures MergeTree(a, a) == a
    decreases a
  {
    if a.Dict? {
      forall k | k in a.entries
        ensures MergeTree(a.entries[k], a.entries[k]) == a.entries[k]
      {
        MergeIdempotent(a.entries[k]);
      }
    }
  }

  lemma MergeEmpty(a: Tree)
    requires a.Dict?
    ensures MergeTree(a, EMPTY) == a
    ensures MergeTree(EMPTY, a) == a
  {
    assert MergeTree(a, EMPTY).entries == a.entries;
    assert MergeTree(EMPTY, a).entries == a.entries;
  }

  /** Merging a layer a second time changes nothing. */
  lemma {:induction false} MergeReapply(a: Tree, b: Tree)
    ensures MergeTree(MergeTree(a, b), b) == MergeTree(a, b)
    decreases b
  {
    if b.Dict? {
      if a.Dict? {
        var ab := MergeTree(a, b);
        forall k | k in b.entries
          ensures MergeTree(ab.entries[k], b.entries[k]) == ab.entries[k]
        {
          if k in a.entries {
            MergeReapply(a.entries[k], b.entries[k]);
          } else {
            MergeIdempotent(b.entries[k]);
          }
        }
        assert MergeTree(ab, b).entries == ab.entries;
      } else {
        MergeIdempotent(b);
      }
    }
  }

  /** An update absorbs its base exactly when it covers it. */
  lemma {:induction false} AbsorbsIffCovers(a: Tree, c: Tree)
    ensures MergeTree(a, c) == c <==> Covers(c, a)
    decreases a
  {
    if a.Dict? && c.Dict? {
      var m := MergeTree(a, c);
      forall k | k in a.entries && k in c.entries
        ensures MergeTree(a.entries[k], c.entries[k]) == c.entries[k] <==> Covers(c.entries[k], a.entries[k])
      {
        AbsorbsIffCovers(a.entries[k], c.entries[k]);
      }
      if Covers(c, a) {
        assert m.entries == c.entries;
      } else {
        var k :| k in a.entries && !(k in c.entries && Covers(c.entries[k], a.entries[k]));
        assert k in m.entries;
        assert k !in c.entries || m.entries[k] != c.entries[k];
      }
    }
  }

  /** Where the middle layer cuts a dictionary off that the outer two layers both hold. */
  predicate Cuts(a: Tree, b: Tree, c: Tree) {
    a.Dict? && c.Dict? && !b.Dict? && !Covers(c, a)
  }

  predicate Associates(a: Tree, b: Tree, c: Tree) {
    MergeTree(MergeTree(a, b), c) == MergeTree(a, MergeTree(b, c))
  }

  // ----- Reading along a path -----

  /** What a reader finds when following `p`: a value, a non-dictionary met before the end, or a missing key. */
  datatype Found = At(tree: Tree) | Blocked | Missing

  function Resolve(t: Tree, p: Path): Found
    decreases p
  {
    if p == [] then At(t)
    else if !t.Dict? then Blocked
    else if p[0] !in t.entries then Missing
    else Resolve(t.entries[p[0]], p[1..])
  }

  /** Some path at which the middle layer cuts off a dictionary held by the outer two. */
  ghost predicate CutsAt(a: Tree, b: Tree, c: Tree, p: Path) {
    var ra, rb, rc := Resolve(a, p), Resolve(b, p), Resolve(c, p);
    ra.At? && rb.At? && rc.At? && Cuts(ra.tree, rb.tree, rc.tree)
  }

  /** The merge is associative on three layers exactly when the middle one cuts nowhere. */
  lemma {:induction false} MergeAssociativeIff(a: Tree, b: Tree, c: Tree)
    ensures Associates(a, b, c) <==> forall p :: !CutsAt(a, b, c, p)
    decreases b
  {
    if a.Dict? && b.Dict? && c.Dict? {
      forall k | k in a.entries && k in b.entries && k in c.entries
        ensures Associates(a.entries[k], b.entries[k], c.entries[k]) <==>
                forall p :: !CutsAt(a.entries[k], b.entries[k], c.entries[k], p)
      {
        MergeAssociativeIff(a.entries[k], b.entries[k], c.entries[k]);
      }
      AssociatesByKey(a, b, c);
      CutsByKey(a, b, c);
    } else {
      AbsorbsIffCovers(a, c);
      assert CutsAt(a, b, c, []) <==> Cuts(a, b, c);
      forall p | p != [] ensures !CutsAt(a, b, c, p) {}
    }
  }

  lemma AssociatesByKey(a: Tree, b: Tree, c: Tree)
    requires a.Dict? && b.Dict? && c.Dict?
    ensures Associates(a, b, c) <==>
            forall k :: k in a.entries && k in b.entries && k in c.entries ==>
                          Associates(a.entries[k], b.entries[k], c.entries[k])
  {
    var l, r := MergeTree(MergeTree(a, b), c), MergeTree(a, MergeTree(b, c));
    assert l.entries.Keys == r.entries.Keys;
    forall k | k in l.entries
      ensures l.entries[k] == r.entries[k] <==>
              (k in a.entries && k in b.entries && k in c.entries ==>
                 Associates(a.entries[k], b.entries[k], c.entries[k]))
    {}
    if forall k :: k in l.entries ==> l.entries[k] == r.entries[k] {
      assert l.entries == r.entries;
    } else {
      assert l.entries != r.entries;
    }
  }

  lemma CutsByKey(a: Tree, b: Tree, c: Tree)
    requires a.Dict? && b.Dict? && c.Dict?
    ensures (forall p :: !CutsAt(a, b, c, p)) <==>
            forall k, p :: k in a.entries && k in b.entries && k in c.entries ==>
                             !CutsAt(a.entries[k], b.entries[k], c.entries[k], p)
  {
    if k, p :| k in a.entries && k in b.entries && k in c.entries &&
               CutsAt(a.entries[k], b.entries[k], c.entries[k], p)
    {
      assert ([k] + p)[1..] == p;
      assert CutsAt(a, b, c, [k] + p);
    }
    if p :| CutsAt(a, b, c, p) {
      assert p != [];
      assert CutsAt(a.entries[p[0]], b.entries[p[0]], c.entries[p[0]], p[1..]);
    }
  }

  /** The failing family is inhabited: the two groupings of these three layers differ. */
  lemma MergeNotAssociative() returns (a: Tree, b: Tree, c: Tree)
    ensures !Associates(a, b, c)
  {
    var x, y := Dict(map["x" := Number(1.0)]), Dict(map["y" := Number(2.0)]);
    assert "x" in x.entries && "x" !in y.entries;
    assert Cuts(x, Number(5.0), y);
    a, b, c := Dict(map["k" := x]), Dict(map["k" := Number(5.0)]), Dict(map["k" := y]);
    assert CutsAt(a.entries["k"], b.entries["k"], c.entries["k"], []);
    CutsByKey(a, b, c);
    MergeAssociativeIff(a, b, c);
  }

  // ----- Precedence path by path -----

  /** What the merged tree holds at a path, from what the two layers hold there. */
  lemma {:induction false} ResolveMerged(b: Tree, u: Tree, p: Path)
    requires b.Dict? && u.Dict?
    ensures var m := Resolve(MergeTree(b, u), p);
            match Resolve(u, p)
            case At(x) => m == At(match Resolve(b, p) case At(y) => MergeTree(y, x) case _ => x)
            case Blocked => m == Blocked
            case Missing => match Resolve(b, p) case At(y) => m == At(y) case _ => !m.At?
    decreases p
  {
    if p != [] && p[0] in u.entries {
      var k := p[0];
      if k in b.entries {
        if b.entries[k].Dict? && u.entries[k].Dict? {
          ResolveMerged(b.entries[k], u.entries[k], p[1..]);
        }
      }
    }
  }

  /** The three file layers in increasing precedence. */
  function Layered(defaults: Tree, main: Tree, explicit: Tree): Tree {
    MergeTree(MergeTree(defaults, main), explicit)
  }

  /** What a reader sees at a path, if anything. */
  function Seen(f: Found): Option<Tree> {
    if f.At? then Some(f.tree) else None
  }

  /** What is seen through one more layer, which holds `above` at the path. */
  function Through(below: Option<Tree>, above: Found): Option<Tree> {
    match above
    case At(x) => Some(if below.Some? then MergeTree(below.value, x) else x)
    case Blocked => None
    case Missing => below
  }

  /** The setting a reader sees at a path is the one of the highest layer that decides it; where that is a
      dictionary, it is merged over what is seen through the layers below. */
  lemma LayeredPrecedence(defaults: Tree, main: Tree, explicit: Tree, p: Path)
    requires defaults.Dict? && main.Dict? && explicit.Dict?
    ensures var r := Resolve(Layered(defaults, main, explicit), p);
            Seen(r) == Through(Through(Seen(Resolve(defaults, p)), Resolve(main, p)), Resolve(explicit, p))
    ensures var r := Resolve(Layered(defaults, main, explicit), p);
            match Resolve(explicit, p)
            case At(x) => r.At? && (if x.Dict? then r.tree.Dict? else r == At(x))
            case Blocked => r == Blocked
            case Missing =>
              match Resolve(main, p)
              case At(y) => r.At? && (if y.Dict? then r.tree.Dict? else r == At(y))
              case Blocked => !r.At?
              case Missing => match Resolve(defaults, p) case At(z) => r == At(z) case _ => !r.At?
  {
    ResolveMerged(defaults, main, p);
    ResolveMerged(MergeTree(defaults, main), explicit, p);
  }
}
