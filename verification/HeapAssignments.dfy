/** The overlay's assignments carried out on configuration objects. */
module HeapAssignments {
  import opened Wrappers
  import opened ConfigTrees
  import opened PathWrites
  import opened Assignments
  import opened ConfigHeap

  /** The value an assignment's guard looks at. */
  method Permits(d: ConfigDict, g: Guard) returns (b: bool)
    requires d.Valid() && (g.IfDefault? ==> !g.expected.Dict?)
    ensures b <==> Fires(g, Dict(d.model))
  {
    b := g.Always? || g.key !in d.entries || d.entries[g.key] == Leaf(g.expected);
  }

  /** `d.setdefault(key, {})` */
  method SetDefault(d: ConfigDict, key: string)
    requires d.Valid()
    modifies d
    ensures d.Valid() && fresh(d.repr - old(d.repr)) && key in d.entries
    ensures d.model == if key in old(d.model) then old(d.model) else old(d.model)[key := EMPTY]
  {
    if key !in d.entries {
      var e := new ConfigDict();
      d.Store(key, Sub(e));
    }
  }

  /** Walk to the last key, creating missing dictionaries, and assign there unless the guard forbids it.
      Meeting a value that is not a dictionary raises, and then nothing has been changed. */
  method Assign(d: ConfigDict, p: Path, g: Guard, value: Slot) returns (ok: bool)
    requires d.Valid() && ValidSlot(value) && SlotRepr(value) !! d.repr
    requires p != [] && (g.IfDefault? ==> !g.expected.Dict?)
    modifies d.repr
    ensures d.Valid()
    ensures fresh(d.repr - old(d.repr) - old(SlotRepr(value)))
    ensures var r := Apply(old(Dict(d.model)), p, g, old(SlotTree(value)));
            if ok then r == Some(Dict(d.model)) else r == None && d.model == old(d.model)
    decreases p
  {
    if |p| == 1 {
      var fires := Permits(d, g);
      if fires {
        d.Store(p[0], value);
      }
      return true;
    }
    if p[0] !in d.entries {
      ApplyAfterSetDefault(d.model, p, g, SlotTree(value));
    }
    SetDefault(d, p[0]);
    match d.entries[p[0]]
    case Leaf(_) => ok := false;
    case Sub(child) => ok := AssignBelow(d, p, g, value);
  }

  lemma {:induction false} ApplyToEmpty(p: Path, g: Guard, v: Tree)
    requires p != []
    ensures Apply(EMPTY, p, g, v).Some?
    decreases p
  {
    if |p| > 1 {
      ApplyToEmpty(p[1..], g, v);
    }
  }

  /** Creating the missing dictionary first makes no difference to an assignment through it. */
  lemma ApplyAfterSetDefault(m: map<string, Tree>, p: Path, g: Guard, v: Tree)
    requires |p| > 1 && p[0] !in m
    ensures Apply(Dict(m[p[0] := EMPTY]), p, g, v) == Apply(Dict(m), p, g, v) != None
  {
    ApplyToEmpty(p[1..], g, v);
    var c := Apply(EMPTY, p[1..], g, v).value;
    assert m[p[0] := EMPTY][p[0] := c] == m[p[0] := c];
  }

  method AssignBelow(d: ConfigDict, p: Path, g: Guard, value: Slot) returns (ok: bool)
    requires d.Valid() && ValidSlot(value) && SlotRepr(value) !! d.repr
    requires |p| > 1 && p[0] in d.entries && d.entries[p[0]].Sub? && (g.IfDefault? ==> !g.expected.Dict?)
    modifies d.repr
    ensures d.Valid()
    ensures fresh(d.repr - old(d.repr) - old(SlotRepr(value)))
    ensures var r := Apply(Dict(old(d.model)), p, g, old(SlotTree(value)));
            if ok then r == Some(Dict(d.model)) else r == None && d.model == old(d.model)
    decreases p, 0
  {
    var key := p[0];
    var child := d.entries[key].dict;
    ok := Assign(child, p[1..], g, value);
    forall k | k in d.entries && k != key && d.entries[k].Sub?
      ensures var e := d.entries[k].dict;
              e.Valid() && e.repr == old(e.repr) && e.model == old(e.model) && e.repr !! child.repr
    {
      var e := d.entries[k].dict;
      assert e in old(e.repr) && old(e.repr) !! old(child.repr);
    }
    StoredAgain(d.model, key);
    d.Adopt(key);
  }

  lemma StoredAgain(m: map<string, Tree>, key: string)
    requires key in m
    ensures m[key := m[key]] == m
  {
  }

  /** Run a list of assignments in order; `ok` is false when one of them raised. */
  method AssignAll(d: ConfigDict, ops: seq<Op>) returns (ok: bool)
    requires d.Valid()
    modifies d.repr
    ensures d.Valid() && fresh(d.repr - old(d.repr))
    ensures var r := ApplyAll(old(Dict(d.model)), ops);
            if ok then r == Some(Dict(d.model)) else r == None
  {
    ghost var start := Dict(d.model);
    for i := 0 to |ops|
      invariant d.Valid() && fresh(d.repr - old(d.repr))
      invariant ApplyAll(start, ops) == ApplyAll(Dict(d.model), ops[i..])
    {
      var o := ops[i];
      assert ops[i..][0] == o && ops[i..][1..] == ops[i + 1..];
      var v := Parse(o.value);
      var done := Assign(d, o.path, o.guard, v);
      if !done {
        return false;
      }
    }
    return true;
  }
}
