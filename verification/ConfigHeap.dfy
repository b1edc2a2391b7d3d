/** Configuration dictionaries as mutable objects, and the merge that updates one in place.

    The merge stores the update's sub-dictionaries in the base by reference, so afterwards the two
    share objects.  A dictionary's `model` is the tree it stands for, `repr` the objects it is made
    of, and `parts` the objects of that set used under each key.
 */
module ConfigHeap {
  import opened ConfigTrees

  datatype Slot = Leaf(value: Tree) | Sub(dict: ConfigDict)

  class ConfigDict {
    var entries: map<string, Slot>
    ghost var model: map<string, Tree>
    ghost var repr: set<ConfigDict>

    /** The objects below form a tree, and `model` is what it stands for. */
    ghost predicate Valid()
      reads this, repr
      decreases repr
      ensures Valid() ==> this in repr
    {
      && this in repr
      && (forall k :: k in entries <==> k in model)
      && (forall k <- entries ::
            match entries[k]
            case Leaf(v) => !v.Dict? && model[k] == v
            case Sub(d) => d in repr && d.repr <= repr && this !in d.repr && d.Valid() && model[k] == Dict(d.model))
      && (forall j, k :: j in entries && k in entries && j != k && entries[j].Sub? && entries[k].Sub? ==>
            entries[j].dict.repr !! entries[k].dict.repr)
    }

    /** As `Valid`, except that nothing is said of the value under `key`. */
    ghost predicate ValidExcept(key: string)
      reads this, repr
    {
      && this in repr
      && (forall k :: k in entries <==> k in model)
      && (forall k <- entries :: k != key ==>
            match entries[k]
            case Leaf(v) => !v.Dict? && model[k] == v
            case Sub(d) => d in repr && d.repr <= repr && this !in d.repr && d.Valid() && model[k] == Dict(d.model))
      && (forall j, k ::
            j in entries && k in entries && j != k && j != key && k != key && entries[j].Sub? && entries[k].Sub? ==>
              entries[j].dict.repr !! entries[k].dict.repr)
    }

    /** Account for a change below the dictionary stored under `key`. */
    ghost method Adopt(key: string)
      requires ValidExcept(key) && key in entries && entries[key].Sub?
      requires entries[key].dict.Valid() && this !in entries[key].dict.repr
      requires forall k <- entries :: k != key && entries[k].Sub? ==> entries[k].dict.repr !! entries[key].dict.repr
      modifies this`model, this`repr
      ensures Valid() && entries[key].dict.Valid()
      ensures model == old(model)[key := Dict(entries[key].dict.model)]
      ensures repr == old(repr) + entries[key].dict.repr
    {
      model := model[key := Dict(entries[key].dict.model)];
      repr := repr + entries[key].dict.repr;
    }

    constructor ()
      ensures Valid() && repr == {this} && model == map[] && entries == map[]
    {
      entries, model := map[], map[];
      repr := {this};
    }

    /** `self[k] = s` */
    method Store(k: string, s: Slot)
      requires Valid() && ValidSlot(s) && SlotRepr(s) !! repr
      modifies this
      ensures Valid() && ValidSlot(s)
      ensures model == old(model)[k := SlotTree(s)]
      ensures repr == old(repr) + SlotRepr(s)
      ensures entries == old(entries)[k := s]
    {
      entries := entries[k := s];
      model := model[k := SlotTree(s)];
      repr := repr + SlotRepr(s);
    }
  }

  ghost function SlotRepr(s: Slot): set<ConfigDict>
    reads if s.Sub? then {s.dict} else {}
  {
    if s.Sub? then s.dict.repr else {}
  }

  ghost predicate ValidSlot(s: Slot)
    reads if s.Sub? then {s.dict} + s.dict.repr else {}
  {
    match s
    case Leaf(v) => !v.Dict?
    case Sub(d) => d.Valid()
  }

  ghost function SlotTree(s: Slot): Tree
    reads if s.Sub? then {s.dict} else {}
  {
    match s
    case Leaf(v) => v
    case Sub(d) => Dict(d.model)
  }

  /** One round of the merge loop when both sides hold a dictionary under the key. */
  method MergeChild(base: ConfigDict, key: string, update: ConfigDict)
    requires base.Valid() && update.Valid() && update.repr !! base.repr
    requires key in base.entries && base.entries[key].Sub?
    modifies {base} + base.entries[key].dict.repr
    ensures base.Valid() && update.Valid()
    ensures base.model == old(base.model)[key := MergeTree(old(base.model)[key], Dict(update.model))]
    ensures base.repr <= old(base.repr) + update.repr
    ensures base.entries == old(base.entries)
    ensures forall k <- base.entries :: k != key && base.entries[k].Sub? ==>
              base.entries[k].dict.repr == old(base.entries[k].dict.repr)
    decreases update.repr, 2
  {
    var child := base.entries[key].dict;
    MergeConfig(child, update);
    forall k | k in base.entries && k != key && base.entries[k].Sub?
      ensures var d := base.entries[k].dict;
              d.Valid() && d.repr == old(d.repr) && d.model == old(d.model) && d.repr !! child.repr
    {
      var d := base.entries[k].dict;
      assert d in old(d.repr) && old(d.repr) !! old(child.repr);
    }
    base.Adopt(key);
  }

  /** The keys still to be merged: the values they bring are not yet part of the base, and what the base
      holds under them is still its own. */
  ghost predicate Pending(base: ConfigDict, update: ConfigDict, todo: set<string>, own: set<ConfigDict>)
    reads base, base.repr, update, update.repr
    requires base.Valid() && update.Valid()
  {
    && todo <= update.entries.Keys
    && (forall k <- todo :: update.entries[k].Sub? ==> update.entries[k].dict.repr !! base.repr)
    && (forall k <- todo :: k in base.entries && base.entries[k].Sub? ==> base.entries[k].dict.repr <= own)
  }

  /** One round of the merge loop. */
  method MergeKey(base: ConfigDict, update: ConfigDict, key: string,
                  ghost todo: set<string>, ghost own: set<ConfigDict>)
    requires base.Valid() && update.Valid() && Pending(base, update, todo, own) && key in todo
    requires base in own && own !! update.repr
    modifies own
    ensures base.Valid() && update.Valid() && Pending(base, update, todo - {key}, own)
    ensures base.model == MergedAt(old(base.model), key, update.model[key])
    ensures base.repr <= old(base.repr) + update.repr
    decreases update.repr, 0
  {
    var value := update.entries[key];
    if key in base.entries && base.entries[key].Sub? && value.Sub? {
      MergeChild(base, key, value.dict);
    } else {
      ReplaceKey(base, update, key, todo, own);
    }
  }

  /** The round that replaces: the base now holds the update's own objects. */
  method ReplaceKey(base: ConfigDict, update: ConfigDict, key: string,
                    ghost todo: set<string>, ghost own: set<ConfigDict>)
    requires base.Valid() && update.Valid() && Pending(base, update, todo, own) && key in todo
    requires base in own && own !! update.repr
    requires !(key in base.entries && base.entries[key].Sub? && update.entries[key].Sub?)
    modifies base
    ensures base.Valid() && update.Valid() && Pending(base, update, todo - {key}, own)
    ensures base.model == MergedAt(old(base.model), key, update.model[key]) && base.entries[key] == update.entries[key]
    ensures base.repr <= old(base.repr) + update.repr
  {
    base.Store(key, update.entries[key]);
  }

  /** The dictionary after one round of the merge loop. */
  ghost function MergedAt(m: map<string, Tree>, k: string, value: Tree): map<string, Tree> {
    m[k := if k in m then MergeTree(m[k], value) else value]
  }

  /** `base` after the keys of `update` outside `todo` have been merged. */
  ghost function MergedSoFar(base: map<string, Tree>, update: map<string, Tree>, todo: set<string>): map<string, Tree> {
    MergeTree(Dict(base), Dict(update - todo)).entries
  }

  lemma MergedOneMore(base: map<string, Tree>, update: map<string, Tree>, todo: set<string>, k: string)
    requires k in todo && k in update
    ensures MergedSoFar(base, update, todo - {k}) == MergedAt(MergedSoFar(base, update, todo), k, update[k])
  {
  }

  lemma NothingMerged(base: map<string, Tree>, update: map<string, Tree>, todo: set<string>)
    requires todo == update.Keys
    ensures MergedSoFar(base, update, todo) == base
  {
    assert update - todo == map[];
    MergeEmpty(Dict(base));
  }

  lemma AllMerged(base: map<string, Tree>, update: map<string, Tree>)
    ensures Dict(MergedSoFar(base, update, {})) == MergeTree(Dict(base), Dict(update))
  {
    assert update - {} == update;
  }

  method MergeConfig(base: ConfigDict, update: ConfigDict)
    requires base.Valid() && update.Valid() && base.repr !! update.repr
    modifies base.repr
    ensures base.Valid() && update.Valid()
    ensures Dict(base.model) == MergeTree(old(Dict(base.model)), Dict(update.model))
    ensures base.repr <= old(base.repr) + update.repr
    decreases update.repr, 1
  {
    var todo := update.entries.Keys;
    ghost var own, before, layer := base.repr, base.model, update.model;
    NothingMerged(before, layer, todo);
    while todo != {}
      invariant base.Valid() && update.Valid() && Pending(base, update, todo, own)
      invariant base.repr <= own + update.repr
      invariant base.model == MergedSoFar(before, layer, todo)
      decreases |todo|
    {
      var key :| key in todo;
      MergedOneMore(before, layer, todo, key);
      MergeKey(base, update, key, todo, own);
      todo := todo - {key};
    }
    AllMerged(before, layer);
  }

  /** Fresh objects for a parsed value, as the JSON parser returns them. */
  method Parse(t: Tree) returns (s: Slot)
    ensures ValidSlot(s) && SlotTree(s) == t && fresh(SlotRepr(s))
    ensures t.Dict? <==> s.Sub?
    decreases t, 1
  {
    if !t.Dict? {
      return Leaf(t);
    }
    var d := new ConfigDict();
    var todo := t.entries.Keys;
    while todo != {}
      invariant todo <= t.entries.Keys
      invariant d.Valid() && fresh(d.repr)
      invariant forall k :: k in d.model <==> k in t.entries && k !in todo
      invariant forall k <- d.model :: d.model[k] == t.entries[k]
      decreases |todo|
    {
      var k :| k in todo;
      ParseEntry(d, t, k);
      todo := todo - {k};
    }
    assert d.model == t.entries;
    return Sub(d);
  }

  method ParseEntry(d: ConfigDict, t: Tree, k: string)
    requires d.Valid() && t.Dict? && k in t.entries
    modifies d
    ensures d.Valid() && fresh(d.repr - old(d.repr)) && d.model == old(d.model)[k := t.entries[k]]
    decreases t, 0
  {
    var v := Parse(t.entries[k]);
    d.Store(k, v);
  }
}
