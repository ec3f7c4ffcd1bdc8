/** Backbone.Collection: an ordered list of models and an index from ids and cids to them. */
module BackboneCollection {
  import opened Wrappers

  /** A model is known by its cid, which is never reused. */
  type Model = nat

  /** A key of _byId: ids and cids do not collide. */
  datatype Key = Cid(m: Model) | Id(id: string)

  /** What may be passed to the operations: a model, or attributes with or without an id. */
  datatype Item = Existing(m: Model) | Attrs(id: Option<string>)

  type Ids = map<Model, Option<string>>

  ghost predicate Distinct(ms: seq<Model>) {
    forall i, j :: 0 <= i < j < |ms| ==> ms[i] != ms[j]
  }

  /** The index holds the cid and the id, if any, of every model of the list, and nothing else. */
  ghost predicate Indexed(byId: map<Key, Model>, ids: Ids, ms: seq<Model>) {
    && (forall m :: m in ms ==> m in ids && Cid(m) in byId && byId[Cid(m)] == m)
    && (forall m :: m in ms && ids[m].Some? ==> Id(ids[m].value) in byId && byId[Id(ids[m].value)] == m)
    && (forall k :: k in byId ==> byId[k] in ms && OwnKey(ids, byId[k], k))
  }

  ghost predicate OwnKey(ids: Ids, m: Model, k: Key) {
    k == Cid(m) || (m in ids && ids[m].Some? && k == Id(ids[m].value))
  }

  /** The key an item is looked up by: its id, or else its cid, if it has either. */
  function KeyOf(ids: Ids, item: Item): Option<Key> {
    match item
    case Existing(m) => Some(if m in ids && ids[m].Some? then Id(ids[m].value) else Cid(m))
    case Attrs(id) => if id.Some? then Some(Id(id.value)) else None
  }

  function Find(byId: map<Key, Model>, ids: Ids, item: Item): Option<Model> {
    var k := KeyOf(ids, item);
    if k.Some? && k.value in byId then Some(byId[k.value]) else None
  }

  /** m is the model the item stands for: itself, or one with the same id. */
  ghost predicate Corresponds(ids: Ids, item: Item, m: Model) {
    m in ids &&
    match item
    case Existing(x) => x == m || (x in ids && ids[x].Some? && ids[m] == ids[x])
    case Attrs(id) => ids[m] == id
  }

  /** The models of the list in their order, without those in gone. */
  function Without(ms: seq<Model>, gone: set<Model>): seq<Model> {
    if ms == [] then [] else (if ms[0] in gone then [] else [ms[0]]) + Without(ms[1..], gone)
  }

  lemma {:induction false} WithoutMembers(ms: seq<Model>, gone: set<Model>)
    ensures forall m :: m in Without(ms, gone) <==> m in ms && m !in gone
  {
    if ms != [] {
      WithoutMembers(ms[1..], gone);
      assert ms == [ms[0]] + ms[1..];
    }
  }

  lemma {:induction false} WithoutDistinct(ms: seq<Model>, gone: set<Model>)
    requires Distinct(ms)
    ensures Distinct(Without(ms, gone))
  {
    if ms != [] {
      assert forall i, j :: 0 <= i < j < |ms[1..]| ==> ms[1..][i] == ms[i + 1] && ms[1..][j] == ms[j + 1];
      WithoutDistinct(ms[1..], gone);
      WithoutMembers(ms[1..], gone);
      var rest := Without(ms[1..], gone);
      assert forall i :: 0 <= i < |rest| ==> rest[i] in ms[1..];
    }
  }

  lemma {:induction false} WithoutAbsent(ms: seq<Model>, gone: set<Model>)
    requires forall m :: m in gone ==> m !in ms
    ensures Without(ms, gone) == ms
  {
    if ms != [] {
      assert ms == [ms[0]] + ms[1..];
      WithoutAbsent(ms[1..], gone);
    }
  }

  lemma {:induction false} WithoutAppend(a: seq<Model>, b: seq<Model>, gone: set<Model>)
    ensures Without(a + b, gone) == Without(a, gone) + Without(b, gone)
  {
    if a == [] {
      assert a + b == b;
    } else {
      assert (a + b)[1..] == a[1..] + b;
      WithoutAppend(a[1..], b, gone);
    }
  }

  lemma {:induction false} WithoutTwice(ms: seq<Model>, gone: set<Model>, more: set<Model>)
    ensures Without(Without(ms, gone), more) == Without(ms, gone + more)
  {
    if ms != [] {
      var rest := Without(ms[1..], gone);
      WithoutTwice(ms[1..], gone, more);
      if ms[0] in gone {
        assert Without(ms, gone) == rest;
      } else {
        assert Without(ms, gone) == [ms[0]] + rest;
        assert ([ms[0]] + rest)[1..] == rest;
      }
    }
  }

  /** Splicing one model out. */
  lemma Cut(ms: seq<Model>, i: nat)
    requires Distinct(ms) && i < |ms|
    ensures Without(ms, {ms[i]}) == ms[..i] + ms[i + 1..]
  {
    var x, a, b := ms[i], ms[..i], ms[i + 1..];
    OnlyOnce(ms, i);
    WithoutAbsent(a, {x});
    WithoutAbsent(b, {x});
    CutParts(a, x, b);
  }

  lemma OnlyOnce(ms: seq<Model>, i: nat)
    requires Distinct(ms) && i < |ms|
    ensures ms[i] !in ms[..i] && ms[i] !in ms[i + 1..] && ms == ms[..i] + ([ms[i]] + ms[i + 1..])
  {
  }

  lemma CutParts(a: seq<Model>, x: Model, b: seq<Model>)
    ensures Without(a + ([x] + b), {x}) == Without(a, {x}) + Without(b, {x})
  {
    WithoutAppend(a, [x] + b, {x});
    assert ([x] + b)[1..] == b;
    assert Without([x] + b, {x}) == Without(b, {x});
  }

  class Collection {
    var models: seq<Model>
    var length: int
    var byId: map<Key, Model>
    /** model.id of every model made so far, in the collection or not. */
    var ids: Ids
    var nextCid: nat

    ghost predicate Valid()
      reads this
    {
      length == |models| && Books(models)
    }

    /** ms is without repetition and the index is about exactly ms. */
    ghost predicate Books(ms: seq<Model>)
      reads this
    {
      Distinct(ms) && Indexed(byId, ids, ms) && (forall m :: m in ids ==> m < nextCid)
    }

    constructor ()
      ensures Valid() && models == []
    {
      models, length, byId, ids, nextCid := [], 0, map[], map[], 0;
    }

    /** get */
    method Get(item: Item) returns (m: Option<Model>)
      ensures m == Find(byId, ids, item)
    {
      var k := KeyOf(ids, item);
      m := if k.Some? && k.value in byId then Some(byId[k.value]) else None;
    }

    method IndexOf(m: Model) returns (i: nat)
      requires m in models
      ensures i < |models| && models[i] == m
    {
      i := 0;
      while models[i] != m
        invariant i < |models| && m !in models[..i]
        decreases |models| - i
      {
        assert m !in models[..i + 1] by { assert models[..i + 1] == models[..i] + [models[i]]; }
        assert models[..|models|] == models;
        i := i + 1;
      }
    }

    /** One turn of remove's loop. */
    method RemoveOne(item: Item)
      requires Valid()
      modifies `models, `length, `byId
      ensures Valid()
      ensures models == Without(old(models), Gone(old(byId), ids, item))
      ensures Pruned(old(byId), byId, ids, Gone(old(byId), ids, item))
    {
      var g := Get(item);
      if g.Some? {
        FindMeaning(byId, ids, models, item);
        Drop(g.value);
      } else {
        WithoutAbsent(models, {});
      }
    }

    /** Delete a model's keys and splice it out. */
    method Drop(g: Model)
      requires Valid() && g in models
      modifies `models, `length, `byId
      ensures Valid()
      ensures models == Without(old(models), {g})
      ensures Pruned(old(byId), byId, ids, {g})
    {
      ghost var keys, was := byId, models;
      DropKeys(keys, ids, was, g);
      if ids[g].Some? {
        byId := byId - {Id(ids[g].value)};
      }
      byId := byId - {Cid(g)};
      var i := IndexOf(g);
      Cut(was, i);
      models := models[..i] + models[i + 1..];
      length := length - 1;
      PrunedIndexed(keys, byId, ids, was, {g});
      WithoutDistinct(was, {g});
    }

    /** remove: each model found by some item goes; the rest keeps its order. */
    method Remove(items: seq<Item>)
      requires Valid()
      modifies `models, `length, `byId
      ensures Valid()
      ensures models == Without(old(models), GoneAll(old(byId), ids, items))
      ensures Pruned(old(byId), byId, ids, GoneAll(old(byId), ids, items))
    {
      var c := 0;
      WithoutAbsent(models, {});
      while c < |items|
        invariant 0 <= c <= |items| && Valid()
        invariant models == Without(old(models), GoneAll(old(byId), ids, items[..c]))
        invariant Pruned(old(byId), byId, ids, GoneAll(old(byId), ids, items[..c]))
      {
        ghost var gone, more := GoneAll(old(byId), ids, items[..c]), Gone(byId, ids, items[c]);
        assert items[..c + 1] == items[..c] + [items[c]];
        WithoutTwice(old(models), gone, more);
        GoneOneMore(old(byId), byId, ids, items, c);
        RemoveOne(items[c]);
        c := c + 1;
      }
      assert items[..c] == items;
    }

    /** _prepareModel: an existing model, or a new one from valid attributes. */
    method PrepareModel(item: Item, valid: bool, ghost ms: seq<Model>) returns (e: Option<Model>)
      requires Books(ms) && (item.Existing? ==> item.m in ids)
      modifies `ids, `nextCid
      ensures Books(ms)
      ensures item.Existing? ==> e == Some(item.m) && ids == old(ids)
      ensures item.Attrs? ==> if valid then e == Some(old(nextCid)) && old(nextCid) !in old(ids)
                                            && ids == old(ids)[old(nextCid) := item.id]
                              else e.None? && ids == old(ids)
    {
      if item.Existing? { return Some(item.m); }
      if !valid { return None; }
      e := Some(nextCid);
      assert nextCid !in ids && nextCid !in ms;
      ids := ids[nextCid := item.id];
      nextCid := nextCid + 1;
    }

    /** One turn of add's loop; news is the list of models taken in so far. */
    method AddOne(item: Item, valid: bool, news: seq<Model>) returns (news': seq<Model>)
      requires Books(models + news) && (item.Existing? ==> item.m in ids)
      modifies `byId, `ids, `nextCid
      ensures Books(models + news')
      ensures news' == news || (|news'| == |news| + 1 && news' == news + [news'[|news|]]
                                  && Corresponds(ids, item, news'[|news|]))
      ensures news' != news <==> Wanted(item, valid) && Find(old(byId), old(ids), item).None?
      ensures news' != news ==> MadeFrom(old(ids), ids, item, news'[|news|])
      ensures Wanted(item, valid) ==> Represented(ids, item, models + news')
      ensures forall m :: m in old(ids) ==> m in ids && ids[m] == old(ids)[m]
    {
      news' := news;
      ghost var ms := models + news;
      var e := PrepareModel(item, valid, ms);
      if e.Some? {
        var p := Get(Existing(e.value));
        FindMeaning(byId, ids, ms, Existing(e.value));
        if p.None? {
          ghost var keys := byId;
          byId := byId[Cid(e.value) := e.value];
          if ids[e.value].Some? {
            byId := byId[Id(ids[e.value].value) := e.value];
          }
          AddKeys(keys, ids, ms, e.value);
          news' := news + [e.value];
          assert models + news' == ms + [e.value];
          assert e.value in models + news';
        }
      }
    }

    /** How far the loop of add has come after c items; byId0 and ids0 are what there was before it. */
    ghost predicate Taken(byId0: map<Key, Model>, ids0: Ids, items: seq<Item>, valid: seq<bool>, c: nat,
                          from: seq<nat>, added: seq<Model>)
      reads this
    {
      && c <= |items| == |valid| && Books(models + added) && Extends(ids0, ids)
      && Sources(ids, items, valid, c, from, added)
      && Exact(byId0, ids0, ids, items, valid, c, from, added)
      && TakenIn(ids, items, valid, c, models + added)
    }

    /** One turn of that loop, with what it means for the whole. */
    method TakeOne(items: seq<Item>, valid: seq<bool>, c: nat, added: seq<Model>, ghost from: seq<nat>,
                   ghost byId0: map<Key, Model>, ghost ids0: Ids)
      returns (added': seq<Model>, ghost from': seq<nat>)
      requires c < |items| && Taken(byId0, ids0, items, valid, c, from, added) && Indexed(byId0, ids0, models)
      requires forall i :: 0 <= i < |items| && items[i].Existing? ==> items[i].m in ids0
      modifies `byId, `ids, `nextCid
      ensures Taken(byId0, ids0, items, valid, c + 1, from', added')
    {
      ghost var byId1, ids1 := byId, ids;
      added' := AddOne(items[c], valid[c], added);
      assert Extends(ids1, ids) && models + added <= models + added';
      assert forall i :: 0 <= i < |items| && items[i].Existing? ==> items[i].m in ids1;
      StillSources(ids1, ids, items, valid, c, from, added, added');
      StillTakenIn(ids1, ids, items, valid, c, models + added, models + added');
      StillExact(byId0, ids0, models, byId1, ids1, ids, items, valid, c, from, added, added');
      from' := if added' == added then from else from + [c];
    }

    /** The loop of add: collect the new models, with their keys, before they are put in place. */
    method TakeAll(items: seq<Item>, valid: seq<bool>) returns (added: seq<Model>, ghost from: seq<nat>)
      requires Books(models) && |valid| == |items|
      requires forall i :: 0 <= i < |items| && items[i].Existing? ==> items[i].m in ids
      modifies `byId, `ids, `nextCid
      ensures Books(models + added)
      ensures Sources(ids, items, valid, |items|, from, added)
      ensures Exact(old(byId), old(ids), ids, items, valid, |items|, from, added)
      ensures TakenIn(ids, items, valid, |items|, models + added)
      ensures forall m :: m in old(ids) ==> m in ids && ids[m] == old(ids)[m]
    {
      added, from := [], [];
      var c := 0;
      assert models + [] == models;
      while c < |items|
        invariant 0 <= c <= |items| && Taken(old(byId), old(ids), items, valid, c, from, added)
      {
        added, from := TakeOne(items, valid, c, added, from, old(byId), old(ids));
        c := c + 1;
      }
    }

    /** add: the new models are inserted at the given place, or at the end. from says which item each comes from. */
    method Add(items: seq<Item>, valid: seq<bool>, at: Option<int>) returns (added: seq<Model>, ghost from: seq<nat>)
      requires Valid() && |valid| == |items|
      requires forall i :: 0 <= i < |items| && items[i].Existing? ==> items[i].m in ids
      modifies this
      ensures Valid()
      ensures at.None? ==> models == old(models) + added
      ensures at.Some? ==> var k := SpliceStart(at.value, |old(models)|);
                           models == old(models)[..k] + added + old(models)[k..]
      ensures Sources(ids, items, valid, |items|, from, added)
      ensures Exact(old(byId), old(ids), ids, items, valid, |items|, from, added)
      ensures TakenIn(ids, items, valid, |items|, models)
      ensures forall m :: m in old(ids) ==> m in ids && ids[m] == old(ids)[m]
    {
      added, from := TakeAll(items, valid);
      length := length + |added|;
      var k := if at.Some? then SpliceStart(at.value, |models|) else |models|;
      Inserted(byId, ids, models, added, k);
      SameRepresented(ids, items, valid, models + added, models[..k] + added + models[k..]);
      assert models[..|models|] == models && models[|models|..] == [];
      models := models[..k] + added + models[k..];
    }

    /** The first loop of update: the models that the items name. */
    method Named(items: seq<Item>) returns (keep: set<Model>)
      ensures keep == GoneAll(byId, ids, items)
    {
      keep := {};
      var d := 0;
      while d < |items|
        invariant 0 <= d <= |items|
        invariant keep == GoneAll(byId, ids, items[..d])
      {
        assert items[..d + 1] == items[..d] + [items[d]];
        var g := Get(items[d]);
        if g.Some? { keep := keep + {g.value}; }
        d := d + 1;
      }
      assert items[..d] == items;
    }

    /** The second: the models of the collection that are not among them. */
    method NotKept(keep: set<Model>) returns (drop: seq<Item>)
      ensures forall k :: 0 <= k < |drop| ==> drop[k].Existing? && drop[k].m in models && drop[k].m !in keep
      ensures forall k :: 0 <= k < |models| && models[k] !in keep ==> Existing(models[k]) in drop
    {
      drop := [];
      var d := 0;
      while d < |models|
        invariant 0 <= d <= |models|
        invariant forall k :: 0 <= k < |drop| ==> drop[k].Existing? && drop[k].m in models && drop[k].m !in keep
        invariant forall k :: 0 <= k < d && models[k] !in keep ==> Existing(models[k]) in drop
      {
        if models[d] !in keep { drop := drop + [Existing(models[d])]; }
        d := d + 1;
      }
    }

    /** Removing what no item names. */
    method DropUnnamed(items: seq<Item>)
      requires Valid() && forall i :: 0 <= i < |items| && items[i].Existing? ==> items[i].m in ids
      modifies `models, `length, `byId
      ensures Valid() && models == Without(old(models), Unnamed(old(byId), ids, old(models), items))
      ensures Pruned(old(byId), byId, ids, Unnamed(old(byId), ids, old(models), items))
      ensures forall m :: m in models ==> exists i :: 0 <= i < |items| && Corresponds(ids, items[i], m)
    {
      ghost var before, byId0 := models, byId;
      var keep := Named(items);
      var drop := NotKept(keep);
      Remove(drop);
      Survivors(byId0, ids, before, items, drop, keep);
      WithoutMembers(before, Unnamed(byId0, ids, before, items));
    }

    /** update with its default options: drop what no item names, then add. */
    method Update(items: seq<Item>, valid: seq<bool>) returns (ghost added: seq<Model>, ghost from: seq<nat>)
      requires Valid() && |valid| == |items|
      requires forall i :: 0 <= i < |items| && items[i].Existing? ==> items[i].m in ids
      modifies this
      ensures Valid()
      ensures models == Without(old(models), Unnamed(old(byId), old(ids), old(models), items)) + added
      ensures Sources(ids, items, valid, |items|, from, added)
      ensures Exact(old(byId), old(ids), ids, items, valid, |items|, from, added)
      ensures forall m :: m in models ==> exists i :: 0 <= i < |items| && Corresponds(ids, items[i], m)
      ensures TakenIn(ids, items, valid, |items|, models)
    {
      ghost var byId0, ids0, before := byId, ids, models;
      DropUnnamed(items);
      ghost var kept, byId1 := models, byId;
      added, from := Add(items, valid, None);
      StillFound(byId0, byId1, ids0, before, items);
      ExactSame(byId0, byId1, ids0, ids, items, valid, from, added);
      KeptOrAdded(ids0, ids, items, valid, kept, from, added);
    }

    /** reset: forget everything, then add. */
    method Reset(items: seq<Item>, valid: seq<bool>) returns (ghost from: seq<nat>)
      requires Valid() && |valid| == |items|
      requires forall i :: 0 <= i < |items| && items[i].Existing? ==> items[i].m in ids
      modifies this
      ensures Valid()
      ensures Sources(ids, items, valid, |items|, from, models)
      ensures Exact(map[], old(ids), ids, items, valid, |items|, from, models)
      ensures TakenIn(ids, items, valid, |items|, models)
    {
      models, length, byId := [], 0, map[];
      var added;
      added, from := Add(items, valid, None);
      assert models == added;
    }

    /** A model's id changes to one not in use; the collection hears of it if it holds the model. */
    method ChangeId(m: Model, id: Option<string>)
      requires Valid() && m in ids && (id.Some? ==> Id(id.value) !in byId)
      modifies `ids, `byId
      ensures Valid() && ids == old(ids)[m := id]
      ensures m in models ==> Find(byId, ids, Attrs(id)) == (if id.Some? then Some(m) else None)
    {
      var previous := ids[m];
      ids := ids[m := id];
      if m in models {
        IndexFollows(byId, old(ids), models, m, id);
        if previous.Some? { byId := byId - {Id(previous.value)}; }
        if id.Some? { byId := byId[Id(id.value) := m]; }
      } else {
        IndexIgnores(byId, old(ids), models, m, id);
      }
    }
  }

  /** Dropping a model's old id and entering its new one keeps the index right. */
  lemma IndexFollows(byId: map<Key, Model>, ids: Ids, ms: seq<Model>, m: Model, id: Option<string>)
    requires Indexed(byId, ids, ms) && m in ms && (id.Some? ==> Id(id.value) !in byId)
    ensures var dropped := if ids[m].Some? then byId - {Id(ids[m].value)} else byId;
            Indexed(if id.Some? then dropped[Id(id.value) := m] else dropped, ids[m := id], ms)
  {
  }

  lemma IndexIgnores(byId: map<Key, Model>, ids: Ids, ms: seq<Model>, m: Model, id: Option<string>)
    requires Indexed(byId, ids, ms) && m !in ms
    ensures Indexed(byId, ids[m := id], ms)
  {
  }

  /** Where splice starts: a negative index counts from the end, and both ends are limits. */
  function SpliceStart(index: int, length: nat): (k: nat)
    ensures k <= length
    ensures 0 <= index <= length ==> k == index
    ensures index > length ==> k == length
    ensures index < 0 <= length + index ==> k == length + index
    ensures length + index < 0 ==> k == 0
  {
    if index > length then length else if index >= 0 then index else if length + index > 0 then length + index else 0
  }

  /** An item that add must take in: a model, or attributes that pass validation. */
  predicate Wanted(item: Item, valid: bool) {
    item.Existing? || valid
  }

  /** The k-th new model comes from item from[k], one of the first c that must be taken in; the order is theirs. */
  ghost predicate Sources(ids: Ids, items: seq<Item>, valid: seq<bool>, c: nat, from: seq<nat>, added: seq<Model>)
    requires |valid| == |items|
  {
    && |from| == |added| && c <= |items|
    && (forall k :: 0 <= k < |from| ==>
          from[k] < c && Wanted(items[from[k]], valid[from[k]]) && Corresponds(ids, items[from[k]], added[k]))
    && (forall j, k :: 0 <= j < k < |from| ==> from[j] < from[k])
  }

  /** Looking the item up finds m, if m is registered. */
  ghost predicate Meets(ids: Ids, item: Item, m: Model) {
    var k := KeyOf(ids, item);
    k.Some? && OwnKey(ids, m, k.value)
  }

  /** The item meets a new model that came from an item before the c-th. */
  ghost predicate MetEarlier(ids: Ids, item: Item, from: seq<nat>, added: seq<Model>, c: nat)
    requires |from| == |added|
  {
    exists j :: 0 <= j < |from| && from[j] < c && Meets(ids, item, added[j])
  }

  /** The model made from the item: itself, or one that was not there before, with the id given. */
  ghost predicate MadeFrom(before: Ids, ids: Ids, item: Item, m: Model) {
    match item
    case Existing(x) => m == x
    case Attrs(id) => m !in before && m in ids && ids[m] == id
  }

  /** Of the first c items, just those are taken in that must be, that the collection did not hold (byId0), and that
      do not repeat an earlier one; an item without an id never repeats another. */
  ghost predicate Exact(byId0: map<Key, Model>, ids0: Ids, ids: Ids, items: seq<Item>, valid: seq<bool>, c: nat,
                        from: seq<nat>, added: seq<Model>)
  {
    && c <= |items| == |valid| && |from| == |added|
    && (forall k :: 0 <= k < |from| ==> from[k] < |items| && MadeFrom(ids0, ids, items[from[k]], added[k]))
    && (forall i: nat :: i < c ==> (i in from <==> MustTake(byId0, ids0, ids, items[i], valid[i], i, from, added)))
  }

  ghost predicate MustTake(byId0: map<Key, Model>, ids0: Ids, ids: Ids, item: Item, valid: bool, i: nat,
                           from: seq<nat>, added: seq<Model>)
    requires |from| == |added|
  {
    Wanted(item, valid) && Find(byId0, ids0, item).None? && !MetEarlier(ids, item, from, added, i)
  }

  /** So every new model without an id that passes validation is taken in, however many there are. */
  lemma UnsavedTaken(byId0: map<Key, Model>, ids0: Ids, ids: Ids, items: seq<Item>, valid: seq<bool>,
                     from: seq<nat>, added: seq<Model>)
    requires Exact(byId0, ids0, ids, items, valid, |items|, from, added)
    ensures forall c: nat :: c < |items| && valid[c] && items[c] == Attrs(None) ==> c in from
    ensures forall k :: 0 <= k < |from| && items[from[k]].Attrs? ==> added[k] !in ids0
  {
    forall k | 0 <= k < |from| && items[from[k]].Attrs? ensures added[k] !in ids0 {
      assert MadeFrom(ids0, ids, items[from[k]], added[k]);
    }
  }

  lemma FoundIff(byId: map<Key, Model>, ids: Ids, ms: seq<Model>, item: Item)
    requires Indexed(byId, ids, ms)
    ensures Find(byId, ids, item).Some? <==> exists m :: m in ms && Meets(ids, item, m)
  {
    var k := KeyOf(ids, item);
    if k.Some? && k.value in byId { assert Meets(ids, item, byId[k.value]); }
  }

  ghost predicate Extends(ids: Ids, ids': Ids) {
    forall m :: m in ids ==> m in ids' && ids'[m] == ids[m]
  }

  lemma MeetsSame(ids: Ids, ids': Ids, item: Item, m: Model)
    requires Extends(ids, ids') && m in ids && (item.Existing? ==> item.m in ids)
    ensures Meets(ids', item, m) <==> Meets(ids, item, m)
  {
  }

  lemma MetSame(ids: Ids, ids': Ids, item: Item, from: seq<nat>, added: seq<Model>, c: nat)
    requires |from| == |added| && Extends(ids, ids') && (item.Existing? ==> item.m in ids)
    requires forall k :: 0 <= k < |added| ==> added[k] in ids
    ensures MetEarlier(ids', item, from, added, c) <==> MetEarlier(ids, item, from, added, c)
  {
    forall k | 0 <= k < |added| ensures Meets(ids', item, added[k]) <==> Meets(ids, item, added[k]) {
      MeetsSame(ids, ids', item, added[k]);
    }
  }

  /** What the c-th turn does not find is what the collection did not hold and what repeats no earlier item. */
  lemma NotFoundNow(byId0: map<Key, Model>, ids0: Ids, ms0: seq<Model>, byId: map<Key, Model>, ids: Ids, item: Item,
                    from: seq<nat>, added: seq<Model>, c: nat)
    requires Indexed(byId0, ids0, ms0) && Indexed(byId, ids, ms0 + added) && Extends(ids0, ids)
    requires |from| == |added| && (item.Existing? ==> item.m in ids0) && forall k :: 0 <= k < |from| ==> from[k] < c
    ensures Find(byId, ids, item).None? <==> Find(byId0, ids0, item).None? && !MetEarlier(ids, item, from, added, c)
  {
    FoundIff(byId0, ids0, ms0, item);
    FoundIff(byId, ids, ms0 + added, item);
    forall m | m in ms0 ensures Meets(ids, item, m) <==> Meets(ids0, item, m) { MeetsSame(ids0, ids, item, m); }
    if m :| m in ms0 + added && Meets(ids, item, m) {
      if m !in ms0 {
        var j :| 0 <= j < |added| && added[j] == m;
        assert MetEarlier(ids, item, from, added, c);
      }
    }
    forall j | 0 <= j < |added| && Meets(ids, item, added[j])
      ensures exists m :: m in ms0 + added && Meets(ids, item, m)
    {
      assert added[j] in ms0 + added;
    }
    forall m | m in ms0 && Meets(ids0, item, m) ensures exists m :: m in ms0 + added && Meets(ids, item, m) {
      assert m in ms0 + added;
    }
  }

  /** One more turn: a model more, for this item, or none. */
  lemma StillExact(byId0: map<Key, Model>, ids0: Ids, ms0: seq<Model>, byId: map<Key, Model>, ids: Ids, ids': Ids,
                   items: seq<Item>, valid: seq<bool>, c: nat, from: seq<nat>, added: seq<Model>, added': seq<Model>)
    requires Indexed(byId0, ids0, ms0) && Indexed(byId, ids, ms0 + added) && Extends(ids0, ids) && Extends(ids, ids')
    requires c < |items| == |valid| && forall i :: 0 <= i < |items| && items[i].Existing? ==> items[i].m in ids0
    requires Exact(byId0, ids0, ids, items, valid, c, from, added) && forall k :: 0 <= k < |from| ==> from[k] < c
    requires added' == added || (|added'| == |added| + 1 && added' == added + [added'[|added|]]
                                 && MadeFrom(ids, ids', items[c], added'[|added|]))
    requires added' != added <==> Wanted(items[c], valid[c]) && Find(byId, ids, items[c]).None?
    ensures Exact(byId0, ids0, ids', items, valid, c + 1, if added' == added then from else from + [c], added')
  {
    forall k | 0 <= k < |added| ensures added[k] in ids { assert added[k] in ms0 + added; }
    NotFoundNow(byId0, ids0, ms0, byId, ids, items[c], from, added, c);
    if added' == added {
      NoneMore(byId0, ids0, ids, ids', items, valid, c, from, added);
    } else {
      OneMore(byId0, ids0, ids, ids', items, valid, c, from, added, added'[|added|]);
    }
  }

  lemma NoneMore(byId0: map<Key, Model>, ids0: Ids, ids: Ids, ids': Ids, items: seq<Item>, valid: seq<bool>, c: nat,
                 from: seq<nat>, added: seq<Model>)
    requires c < |items| == |valid| && Extends(ids0, ids) && Extends(ids, ids')
    requires forall i :: 0 <= i < |items| && items[i].Existing? ==> items[i].m in ids0
    requires Exact(byId0, ids0, ids, items, valid, c, from, added) && forall k :: 0 <= k < |from| ==> from[k] < c
    requires forall k :: 0 <= k < |added| ==> added[k] in ids
    requires !MustTake(byId0, ids0, ids, items[c], valid[c], c, from, added)
    ensures Exact(byId0, ids0, ids', items, valid, c + 1, from, added)
  {
    forall i: nat | i <= c
      ensures i in from <==> MustTake(byId0, ids0, ids', items[i], valid[i], i, from, added)
    {
      MetSame(ids, ids', items[i], from, added, i);
    }
  }

  lemma OneMore(byId0: map<Key, Model>, ids0: Ids, ids: Ids, ids': Ids, items: seq<Item>, valid: seq<bool>, c: nat,
                from: seq<nat>, added: seq<Model>, m: Model)
    requires c < |items| == |valid| && Extends(ids0, ids) && Extends(ids, ids')
    requires forall i :: 0 <= i < |items| && items[i].Existing? ==> items[i].m in ids0
    requires Exact(byId0, ids0, ids, items, valid, c, from, added) && forall k :: 0 <= k < |from| ==> from[k] < c
    requires forall k :: 0 <= k < |added| ==> added[k] in ids
    requires MustTake(byId0, ids0, ids, items[c], valid[c], c, from, added) && MadeFrom(ids, ids', items[c], m)
    ensures Exact(byId0, ids0, ids', items, valid, c + 1, from + [c], added + [m])
  {
    var from', added' := from + [c], added + [m];
    forall i: nat | i <= c
      ensures i in from' <==> MustTake(byId0, ids0, ids', items[i], valid[i], i, from', added')
    {
      MetSame(ids, ids', items[i], from, added, i);
      NoEarlier(ids', items[i], from, added, from', added', c, i);
      assert i in from' <==> i in from || i == c;
    }
    forall k | 0 <= k < |from'| ensures MadeFrom(ids0, ids', items[from'[k]], added'[k]) {
      assert k < |from| ==> from'[k] == from[k] && added'[k] == added[k];
    }
  }

  /** A model for the c-th item is none for an earlier one. */
  lemma NoEarlier(ids: Ids, item: Item, from: seq<nat>, added: seq<Model>, from': seq<nat>, added': seq<Model>,
                  c: nat, i: nat)
    requires i <= c && |from| == |added| && |from'| == |added'|
    requires (from' == from && added' == added) || (from' == from + [c] && from' != from && added <= added')
    ensures MetEarlier(ids, item, from', added', i) <==> MetEarlier(ids, item, from, added, i)
  {
    if j :| 0 <= j < |from| && from[j] < i && Meets(ids, item, added[j]) {
      assert from'[j] < i && Meets(ids, item, added'[j]);
    }
  }

  /** Dropping what no item names loses nothing that an item finds. */
  lemma StillFound(byId: map<Key, Model>, byId': map<Key, Model>, ids: Ids, ms: seq<Model>, items: seq<Item>)
    requires Indexed(byId, ids, ms) && Pruned(byId, byId', ids, Unnamed(byId, ids, ms, items))
    ensures forall i :: 0 <= i < |items| ==> Find(byId', ids, items[i]) == Find(byId, ids, items[i])
  {
    forall i | 0 <= i < |items| ensures Find(byId', ids, items[i]) == Find(byId, ids, items[i]) {
      var g := Find(byId, ids, items[i]);
      if g.Some? { GoneAllMembers(byId, ids, items, g.value); }
    }
  }

  lemma ExactSame(byId: map<Key, Model>, byId': map<Key, Model>, ids0: Ids, ids: Ids, items: seq<Item>,
                  valid: seq<bool>, from: seq<nat>, added: seq<Model>)
    requires Exact(byId', ids0, ids, items, valid, |items|, from, added)
    requires forall i :: 0 <= i < |items| ==> Find(byId', ids0, items[i]) == Find(byId, ids0, items[i])
    ensures Exact(byId, ids0, ids, items, valid, |items|, from, added)
  {
  }

  lemma FromSources(ids: Ids, items: seq<Item>, valid: seq<bool>, from: seq<nat>, added: seq<Model>, m: Model)
    requires |valid| == |items| && Sources(ids, items, valid, |items|, from, added) && m in added
    ensures exists i :: 0 <= i < |items| && Corresponds(ids, items[i], m)
  {
    var k :| 0 <= k < |added| && added[k] == m;
    assert Corresponds(ids, items[from[k]], m);
  }

  lemma KeptOrAdded(ids: Ids, ids': Ids, items: seq<Item>, valid: seq<bool>, kept: seq<Model>, from: seq<nat>,
                    added: seq<Model>)
    requires |valid| == |items| && Sources(ids', items, valid, |items|, from, added)
    requires forall i :: 0 <= i < |items| && items[i].Existing? ==> items[i].m in ids
    requires forall m :: m in ids ==> m in ids' && ids'[m] == ids[m]
    requires forall m :: m in kept ==> exists i :: 0 <= i < |items| && Corresponds(ids, items[i], m)
    ensures forall m :: m in kept + added ==> exists i :: 0 <= i < |items| && Corresponds(ids', items[i], m)
  {
    forall m | m in kept + added ensures exists i :: 0 <= i < |items| && Corresponds(ids', items[i], m) {
      if m in added {
        FromSources(ids', items, valid, from, added, m);
      } else {
        var i :| 0 <= i < |items| && Corresponds(ids, items[i], m);
        assert Corresponds(ids', items[i], m);
      }
    }
  }

  /** The models of the list that no item finds. */
  ghost function Unnamed(byId: map<Key, Model>, ids: Ids, ms: seq<Model>, items: seq<Item>): set<Model> {
    set m | m in ms && m !in GoneAll(byId, ids, items)
  }

  ghost predicate Represented(ids: Ids, item: Item, ms: seq<Model>) {
    exists m :: m in ms && Corresponds(ids, item, m)
  }

  /** The item names m: by the id it has, or for want of an id by being m. */
  ghost predicate Names(ids: Ids, item: Item, m: Model) {
    match item
    case Existing(x) => if x in ids && ids[x].Some? then m in ids && ids[m] == ids[x] else m == x
    case Attrs(id) => id.Some? && m in ids && ids[m] == id
  }

  /** Looking an item up finds a model exactly when the model is in the list and the item names it. */
  lemma FindExact(byId: map<Key, Model>, ids: Ids, ms: seq<Model>, item: Item, m: Model)
    requires Indexed(byId, ids, ms)
    ensures Find(byId, ids, item) == Some(m) <==> m in ms && Names(ids, item, m)
  {
  }

  lemma FindMeaning(byId: map<Key, Model>, ids: Ids, ms: seq<Model>, item: Item)
    requires Indexed(byId, ids, ms) && (item.Existing? ==> item.m in ids)
    ensures var g := Find(byId, ids, item);
            g.Some? ==> g.value in ms && Corresponds(ids, item, g.value)
    ensures item.Existing? && item.m in ms ==> Find(byId, ids, item) == Some(item.m)
  {
  }

  /** Registering a model that neither its id nor its cid finds. */
  lemma AddKeys(byId: map<Key, Model>, ids: Ids, ms: seq<Model>, e: Model)
    requires Indexed(byId, ids, ms) && Distinct(ms) && e in ids && Find(byId, ids, Existing(e)).None?
    ensures var byId1 := byId[Cid(e) := e];
            var byId' := if ids[e].Some? then byId1[Id(ids[e].value) := e] else byId1;
            Indexed(byId', ids, ms + [e]) && Distinct(ms + [e])
  {
    assert e !in ms;
  }

  /** What an item stands for does not depend on models made later. */
  lemma StillCorresponds(ids: Ids, ids': Ids, item: Item, m: Model)
    requires item.Existing? ==> item.m in ids
    requires forall m :: m in ids ==> m in ids' && ids'[m] == ids[m]
    requires Corresponds(ids, item, m)
    ensures Corresponds(ids', item, m)
  {
  }

  lemma StillSources(ids: Ids, ids': Ids, items: seq<Item>, valid: seq<bool>, c: nat, from: seq<nat>,
                     added: seq<Model>, added': seq<Model>)
    requires c < |items| == |valid| && Sources(ids, items, valid, c, from, added) && Extends(ids, ids')
    requires forall i :: 0 <= i < |items| && items[i].Existing? ==> items[i].m in ids
    requires added' == added || (|added'| == |added| + 1 && added' == added + [added'[|added|]]
                                 && Wanted(items[c], valid[c]) && Corresponds(ids', items[c], added'[|added|]))
    ensures Sources(ids', items, valid, c + 1, if added' == added then from else from + [c], added')
  {
    forall k | 0 <= k < |from| ensures Corresponds(ids', items[from[k]], added[k]) {
      StillCorresponds(ids, ids', items[from[k]], added[k]);
    }
    if added' != added { OneMoreSource(ids', items, valid, c, from, added, added'[|added|]); }
  }

  lemma OneMoreSource(ids: Ids, items: seq<Item>, valid: seq<bool>, c: nat, from: seq<nat>, added: seq<Model>, m: Model)
    requires c < |items| == |valid| && Sources(ids, items, valid, c + 1, from, added)
    requires forall k :: 0 <= k < |from| ==> from[k] < c
    requires Wanted(items[c], valid[c]) && Corresponds(ids, items[c], m)
    ensures Sources(ids, items, valid, c + 1, from + [c], added + [m])
  {
  }

  /** The first c items that must be taken in are represented. */
  ghost predicate TakenIn(ids: Ids, items: seq<Item>, valid: seq<bool>, c: nat, ms: seq<Model>)
    requires c <= |items| == |valid|
  {
    forall i :: 0 <= i < c && Wanted(items[i], valid[i]) ==> Represented(ids, items[i], ms)
  }

  lemma StillTakenIn(ids: Ids, ids': Ids, items: seq<Item>, valid: seq<bool>, c: nat, ms: seq<Model>, ms': seq<Model>)
    requires c < |items| == |valid| && TakenIn(ids, items, valid, c, ms)
    requires forall i :: 0 <= i < |items| && items[i].Existing? ==> items[i].m in ids
    requires forall m :: m in ids ==> m in ids' && ids'[m] == ids[m]
    requires ms <= ms' && (Wanted(items[c], valid[c]) ==> Represented(ids', items[c], ms'))
    ensures TakenIn(ids', items, valid, c + 1, ms')
  {
    forall i | 0 <= i < c && Wanted(items[i], valid[i]) ensures Represented(ids', items[i], ms') {
      var m :| m in ms && Corresponds(ids, items[i], m);
      StillCorresponds(ids, ids', items[i], m);
      assert m in ms';
    }
  }

  lemma SameRepresented(ids: Ids, items: seq<Item>, valid: seq<bool>, ms: seq<Model>, ms': seq<Model>)
    requires |items| == |valid| && TakenIn(ids, items, valid, |items|, ms) && forall m :: m in ms ==> m in ms'
    ensures TakenIn(ids, items, valid, |items|, ms')
  {
    forall i | 0 <= i < |items| && Wanted(items[i], valid[i]) ensures Represented(ids, items[i], ms') {
      var m :| m in ms && Corresponds(ids, items[i], m);
      assert m in ms';
    }
  }

  lemma Inserted(byId: map<Key, Model>, ids: Ids, ms: seq<Model>, added: seq<Model>, k: nat)
    requires k <= |ms| && Indexed(byId, ids, ms + added) && Distinct(ms + added)
    ensures Indexed(byId, ids, ms[..k] + added + ms[k..]) && Distinct(ms[..k] + added + ms[k..])
    ensures forall m :: m in ms[..k] + added + ms[k..] <==> m in ms + added
  {
    var r := ms[..k] + added + ms[k..];
    assert ms == ms[..k] + ms[k..];
    forall m ensures m in r <==> m in ms + added {
    }
    forall i, j | 0 <= i < j < |r| ensures r[i] != r[j] {
      var all := ms + added;
      var i' := if i < k then i else if i < k + |added| then |ms| + i - k else i - |added|;
      var j' := if j < k then j else if j < k + |added| then |ms| + j - k else j - |added|;
      assert r[i] == all[i'] && r[j] == all[j'] && i' != j';
    }
  }

  /** Removing the models outside keep leaves those that some item finds. */
  lemma Survivors(byId: map<Key, Model>, ids: Ids, ms: seq<Model>, items: seq<Item>, drop: seq<Item>, keep: set<Model>)
    requires Indexed(byId, ids, ms) && keep == GoneAll(byId, ids, items)
    requires forall i :: 0 <= i < |items| && items[i].Existing? ==> items[i].m in ids
    requires forall k :: 0 <= k < |drop| ==> drop[k].Existing? && drop[k].m in ms && drop[k].m !in keep
    requires forall k :: 0 <= k < |ms| && ms[k] !in keep ==> Existing(ms[k]) in drop
    ensures GoneAll(byId, ids, drop) == Unnamed(byId, ids, ms, items)
    ensures forall m :: m in ms && m in keep ==> exists i :: 0 <= i < |items| && Corresponds(ids, items[i], m)
  {
    forall m ensures m in GoneAll(byId, ids, drop) <==> m in ms && m !in keep {
      GoneAllMembers(byId, ids, drop, m);
      if m in ms {
        FindMeaning(byId, ids, ms, Existing(m));
      }
      forall k | 0 <= k < |drop| && Find(byId, ids, drop[k]) == Some(m) ensures drop[k].m == m {
        FindMeaning(byId, ids, ms, drop[k]);
      }
    }
    forall m | m in ms && m in keep ensures exists i :: 0 <= i < |items| && Corresponds(ids, items[i], m) {
      GoneAllMembers(byId, ids, items, m);
      var i :| 0 <= i < |items| && Find(byId, ids, items[i]) == Some(m);
      FindMeaning(byId, ids, ms, items[i]);
    }
  }

  /** The models that some of the items find. */
  ghost function GoneAll(byId: map<Key, Model>, ids: Ids, items: seq<Item>): set<Model> {
    if items == [] then {} else GoneAll(byId, ids, items[..|items| - 1]) + Gone(byId, ids, items[|items| - 1])
  }

  /** After earlier removals an item finds what it found before, unless that is gone already. */
  lemma GoneOneMore(byId: map<Key, Model>, byId': map<Key, Model>, ids: Ids, items: seq<Item>, c: nat)
    requires c < |items| && Pruned(byId, byId', ids, GoneAll(byId, ids, items[..c]))
    ensures GoneAll(byId, ids, items[..c + 1]) == GoneAll(byId, ids, items[..c]) + Gone(byId', ids, items[c])
  {
    assert items[..c + 1][..c] == items[..c];
  }

  lemma {:induction false} GoneAllMembers(byId: map<Key, Model>, ids: Ids, items: seq<Item>, m: Model)
    ensures m in GoneAll(byId, ids, items) <==> exists i :: 0 <= i < |items| && Find(byId, ids, items[i]) == Some(m)
  {
    if items != [] {
      var n := |items| - 1;
      GoneAllMembers(byId, ids, items[..n], m);
      assert forall i :: 0 <= i < n ==> items[..n][i] == items[i];
    }
  }

  lemma DropKeys(byId: map<Key, Model>, ids: Ids, ms: seq<Model>, g: Model)
    requires Indexed(byId, ids, ms) && g in ms
    ensures Pruned(byId, (if ids[g].Some? then byId - {Id(ids[g].value)} else byId) - {Cid(g)}, ids, {g})
  {
    assert forall k :: k in byId && byId[k] == g ==> OwnKey(ids, g, k);
  }

  /** The model an item finds, as a set. */
  ghost function Gone(byId: map<Key, Model>, ids: Ids, item: Item): set<Model> {
    var g := Find(byId, ids, item);
    if g.Some? then {g.value} else {}
  }

  /** The keys of the models in gone have left the index, and nothing else changed in it. */
  ghost predicate Pruned(byId: map<Key, Model>, byId': map<Key, Model>, ids: Ids, gone: set<Model>) {
    && (forall k :: k in byId' <==> k in byId && byId[k] !in gone)
    && (forall k :: k in byId' ==> byId'[k] == byId[k])
  }

  lemma PrunedIndexed(byId: map<Key, Model>, byId': map<Key, Model>, ids: Ids, ms: seq<Model>, gone: set<Model>)
    requires Indexed(byId, ids, ms) && Pruned(byId, byId', ids, gone)
    ensures Indexed(byId', ids, Without(ms, gone))
  {
    WithoutMembers(ms, gone);
  }
}
