/** Assignments along key paths that may depend on a neighbouring value, and runs of them. */
module Assignments {
  import opened Wrappers
  import opened ConfigTrees
  import opened PathWrites

  /** When an assignment is made: always, or only if a neighbouring key is absent or has the expected value. */
  datatype Guard = Always | IfDefault(key: string, expected: Tree)

  datatype Step = Step(path: Path, guard: Guard, value: Tree)

  /** The form of every assignment the overlay makes. */
  predicate WellFormed(s: Step) {
    s.path != [] && (s.guard.IfDefault? ==> !s.guard.expected.Dict?)
  }

  type Op = s: Step | WellFormed(s) witness Step(["key"], Always, Null)

  predicate Fires(g: Guard, t: Tree)
    requires t.Dict?
  {
    g.IfDefault? ==> g.key in t.entries ==> t.entries[g.key] == g.expected
  }

  /** One assignment; the dictionaries on the way exist afterwards even if the guard holds it back. */
  function Apply(t: Tree, p: Path, g: Guard, v: Tree): (r: Option<Tree>)
    requires p != []
    ensures r.Some? ==> r.value.Dict?
    decreases p
  {
    if !t.Dict? then None
    else if |p| == 1 then Some(if Fires(g, t) then Dict(t.entries[p[0] := v]) else t)
    else
      match Apply(Child(t, p[0]), p[1..], g, v)
      case None => None
      case Some(c) => Some(Dict(t.entries[p[0] := c]))
  }

  function ApplyAll(t: Tree, ops: seq<Op>): Option<Tree>
    decreases |ops|
  {
    if ops == [] then Some(t)
    else
      match Apply(t, ops[0].path, ops[0].guard, ops[0].value)
      case None => None
      case Some(t') => ApplyAll(t', ops[1..])
  }

  lemma {:induction false} ApplyElsewhere(t: Tree, p: Path, g: Guard, v: Tree, q: Path)
    requires Apart(p, q)
    ensures Apply(t, p, g, v).Some? ==> Resolve(Apply(t, p, g, v).value, q) == Resolve(t, q)
    decreases p
  {
    if t.Dict? && |p| > 1 && p[0] == q[0] {
      ApplyElsewhere(Child(t, p[0]), p[1..], g, v, q[1..]);
      if p[0] !in t.entries {
        MissingInEmpty(q[1..]);
      }
    }
  }

  lemma {:induction false} ApplyAllElsewhere(t: Tree, ops: seq<Op>, q: Path)
    requires forall o <- ops :: Apart(o.path, q)
    ensures ApplyAll(t, ops).Some? ==> Resolve(ApplyAll(t, ops).value, q) == Resolve(t, q)
    decreases |ops|
  {
    if ops != [] {
      var o := ops[0];
      ApplyElsewhere(t, o.path, o.guard, o.value, q);
      if Apply(t, o.path, o.guard, o.value).Some? {
        ApplyAllElsewhere(Apply(t, o.path, o.guard, o.value).value, ops[1..], q);
      }
    }
  }

  /** An assignment raises exactly when its path is blocked, and never leaves it blocked. */
  lemma {:induction false} ApplyFailsIff(t: Tree, p: Path, g: Guard, v: Tree)
    requires p != []
    ensures Apply(t, p, g, v).None? <==> Resolve(t, p) == Blocked
    ensures Apply(t, p, g, v).Some? ==> Resolve(Apply(t, p, g, v).value, p) != Blocked
    decreases p
  {
    if t.Dict? && |p| > 1 {
      ApplyFailsIff(Child(t, p[0]), p[1..], g, v);
      if p[0] !in t.entries {
        MissingInEmpty(p[1..]);
      }
    }
  }

  /** No path of a run is a proper prefix of another. */
  predicate NoneNested(ops: seq<Op>) {
    forall o <- ops, x <- ops :: o.path == x.path || Apart(o.path, x.path)
  }

  /** A run of assignments raises exactly when one of its paths was blocked to begin with. */
  lemma {:induction false} ApplyAllFailsIff(t: Tree, ops: seq<Op>)
    requires NoneNested(ops)
    ensures ApplyAll(t, ops).None? <==> exists o <- ops :: Resolve(t, o.path) == Blocked
    decreases |ops|
  {
    if ops != [] {
      var o := ops[0];
      ApplyFailsIff(t, o.path, o.guard, o.value);
      if Apply(t, o.path, o.guard, o.value).Some? {
        var t' := Apply(t, o.path, o.guard, o.value).value;
        forall x | x in ops[1..]
          ensures Resolve(t', x.path) == Blocked <==> Resolve(t, x.path) == Blocked
        {
          if x.path != o.path {
            ApplyElsewhere(t, o.path, o.guard, o.value, x.path);
          }
        }
        ApplyAllFailsIff(t', ops[1..]);
        assert forall x <- ops :: x == o || x in ops[1..];
      }
    }
  }

  lemma {:induction false} ApplyAlways(t: Tree, p: Path, v: Tree)
    requires p != []
    ensures Apply(t, p, Always, v) == Write(t, p, v)
    decreases p
  {
    if t.Dict? && |p| > 1 {
      ApplyAlways(Child(t, p[0]), p[1..], v);
    }
  }

  function AsOps(ws: seq<Setting>): (ops: seq<Op>)
    requires forall w <- ws :: w.path != []
    ensures |ops| == |ws|
    ensures forall i :: 0 <= i < |ws| ==> ops[i] == Step(ws[i].path, Always, ws[i].value)
  {
    seq(|ws|, i requires 0 <= i < |ws| => Step(ws[i].path, Always, ws[i].value))
  }

  lemma {:induction false} ApplyAllAlways(t: Tree, ws: seq<Setting>)
    requires forall w <- ws :: w.path != []
    ensures ApplyAll(t, AsOps(ws)) == WriteAll(t, ws)
    decreases |ws|
  {
    if ws != [] {
      ApplyAlways(t, ws[0].path, ws[0].value);
      assert AsOps(ws)[1..] == AsOps(ws[1..]);
      if Write(t, ws[0].path, ws[0].value).Some? {
        ApplyAllAlways(Write(t, ws[0].path, ws[0].value).value, ws[1..]);
      }
    }
  }

  lemma {:induction false} ApplyAllSplit(t: Tree, a: seq<Op>, b: seq<Op>)
    ensures ApplyAll(t, a + b) == if ApplyAll(t, a).None? then None else ApplyAll(ApplyAll(t, a).value, b)
    decreases |a|
  {
    if a == [] {
      assert a + b == b;
    } else {
      assert (a + b)[1..] == a[1..] + b;
      var first := Apply(t, a[0].path, a[0].guard, a[0].value);
      if first.Some? {
        ApplyAllSplit(first.value, a[1..], b);
      }
    }
  }

  /** The value of the last assignment to a path. */
  function ValueFor(ops: seq<Op>, p: Path): Option<Tree>
    decreases |ops|
  {
    if ops == [] then None
    else
      var later := ValueFor(ops[1..], p);
      if later.Some? then later else if ops[0].path == p then Some(ops[0].value) else None
  }

  lemma {:induction false} ValueForConcat(a: seq<Op>, b: seq<Op>, p: Path)
    ensures ValueFor(a + b, p) == if ValueFor(b, p).Some? then ValueFor(b, p) else ValueFor(a, p)
    decreases |a|
  {
    if a == [] {
      assert a + b == b;
    } else {
      assert (a + b)[0] == a[0] && (a + b)[1..] == a[1..] + b;
      ValueForConcat(a[1..], b, p);
    }
  }

  /** What is found after a value, if there is one, has been assigned. */
  function Assigned(value: Option<Tree>, before: Found): Found {
    if value.Some? then At(value.value) else before
  }

  /** A path that other assignments stay clear of holds the last value assigned to it. */
  lemma {:induction false} ApplyAllReads(t: Tree, ops: seq<Op>, p: Path)
    requires forall o <- ops :: if o.path == p then o.guard == Always else Apart(o.path, p)
    ensures ApplyAll(t, ops).Some? ==>
              Resolve(ApplyAll(t, ops).value, p) == Assigned(ValueFor(ops, p), Resolve(t, p))
    decreases |ops|
  {
    if ops != [] {
      var o := ops[0];
      var first := Apply(t, o.path, o.guard, o.value);
      if first.Some? {
        ApplyAllReads(first.value, ops[1..], p);
        if o.path == p {
          ApplyAlways(t, p, o.value);
          WriteAtPath(t, p, o.value);
        } else {
          ApplyElsewhere(t, o.path, o.guard, o.value, p);
        }
      }
    }
  }

  /** A guarded assignment is made exactly when the key beside it is absent or has the expected value. */
  lemma {:induction false} ApplyGuarded(t: Tree, p: Path, key: string, expected: Tree, v: Tree)
    requires p != [] && key != p[|p| - 1]
    ensures var r, beside := Apply(t, p, IfDefault(key, expected), v), Resolve(t, p[..|p| - 1] + [key]);
            r.Some? ==>
              Resolve(r.value, p) == if beside in {Missing, At(expected)} then At(v) else Resolve(t, p)
    decreases p
  {
    var g, beside := IfDefault(key, expected), p[..|p| - 1] + [key];
    if t.Dict? {
      if |p| == 1 {
        assert beside == [key];
      } else {
        assert beside[1..] == p[1..][..|p| - 2] + [key] && beside[0] == p[0];
        ApplyGuarded(Child(t, p[0]), p[1..], key, expected, v);
        if p[0] !in t.entries {
          MissingInEmpty(p[1..]);
          MissingInEmpty(beside[1..]);
        }
      }
    }
  }
}
