/**
 * The order reconciler: how one fetched batch is folded into the persisted
 * order list (src/cli.ts:60-69), as functions on values.
 *
 * The batch arrives newest-first and is reversed before the fold. Each order
 * of the reversed batch is looked up by `id` with `find`; a hit has the new
 * order's top-level properties copied onto it (`Object.assign`, which is map
 * union with the right operand winning), a miss appends the order.
 */
module Reconciler {
  import opened Json
  import opened Orders

  /** `orders.find(o => o.id === id)`: the first position holding that id. */
  function IndexOf(orders: seq<Order>, id: Json): (r: Option<nat>)
    ensures r.Some? ==> r.value < |orders| && Id(orders[r.value]) == id
    ensures r.Some? ==> forall j | 0 <= j < r.value :: Id(orders[j]) != id
    ensures r.None? ==> forall j | 0 <= j < |orders| :: Id(orders[j]) != id
  {
    if orders == [] then None
    else if Id(orders[0]) == id then Some(0)
    else match IndexOf(orders[1..], id)
      case Some(k) => Some(k + 1)
      case None => None
  }

  function Ids(orders: seq<Order>): (r: set<Json>)
  {
    set o | o in orders :: Id(o)
  }

  /** No two entries of the list share an id. */
  predicate UniqueIds(orders: seq<Order>)
  {
    forall i, j | 0 <= i < j < |orders| :: Id(orders[i]) != Id(orders[j])
  }

  /** One turn of the loop (src/cli.ts:61-68): at most one order is added. */
  function MergeOne(orders: seq<Order>, o: Order): (r: seq<Order>)
    ensures |orders| <= |r| <= |orders| + 1
  {
    match IndexOf(orders, Id(o))
    case Some(k) => orders[k := orders[k] + o]
    case None => orders + [o]
  }

  /** The loop over a batch, in the order given: at most one order is added per batch order. */
  function MergeAll(orders: seq<Order>, batch: seq<Order>): (r: seq<Order>)
    ensures |orders| <= |r| <= |orders| + |batch|
    decreases |batch|
  {
    if batch == [] then orders
    else MergeOne(MergeAll(orders, batch[..|batch| - 1]), batch[|batch| - 1])
  }

  /** One profile's update: the fetched list is reversed, then folded in. */
  function Reconcile(orders: seq<Order>, fetched: seq<Order>): (r: seq<Order>)
    ensures |orders| <= |r| <= |orders| + |fetched|
  {
    MergeAll(orders, Reversed(fetched))
  }

  /** Every profile's batch, folded in the order the profiles are visited. */
  function ReconcileAll(orders: seq<Order>, batches: seq<seq<Order>>): (r: seq<Order>)
    ensures |orders| <= |r|
    decreases |batches|
  {
    if batches == [] then orders
    else Reconcile(ReconcileAll(orders, batches[..|batches| - 1]), batches[|batches| - 1])
  }

  /**
   * The orders of a batch whose id is not among `known`, in batch order:
   * the ones a fold over the batch appends rather than overlays.
   */
  function Fresh(known: set<Json>, batch: seq<Order>): (r: seq<Order>)
    ensures |r| <= |batch|
    decreases |batch|
  {
    if batch == [] then []
    else
      var o := batch[|batch| - 1];
      var init := Fresh(known, batch[..|batch| - 1]);
      if Id(o) in known then init else init + [o]
  }

  /**
   * The properties a batch copies onto the entry with this id: the union of
   * every batch order carrying the id, later ones winning.
   */
  function Updates(batch: seq<Order>, id: Json): (u: map<string, Json>)
    ensures u == map[] <==> id !in Ids(batch)
    ensures id in Ids(batch) ==> "id" in u && u["id"] == id
    decreases |batch|
  {
    if batch == [] then map[]
    else
      var o := batch[|batch| - 1];
      var u := Updates(batch[..|batch| - 1], id);
      assert Ids(batch) == Ids(batch[..|batch| - 1]) + {Id(o)} by {
        assert batch == batch[..|batch| - 1] + [o];
      }
      if Id(o) == id then u + o else u
  }

  lemma IdsSnoc(s: seq<Order>, o: Order)
    ensures Ids(s + [o]) == Ids(s) + {Id(o)}
  {
  }

  lemma IdsIndex(s: seq<Order>, id: Json)
    ensures id in Ids(s) <==> exists i | 0 <= i < |s| :: Id(s[i]) == id
  {
    if id in Ids(s) {
      var o :| o in s && Id(o) == id;
      var i :| 0 <= i < |s| && s[i] == o;
    }
  }

  /** One step keeps ids unique and grows the list only for an unseen id. */
  lemma MergeOneIds(orders: seq<Order>, o: Order)
    requires UniqueIds(orders)
    ensures var r := MergeOne(orders, o);
      && UniqueIds(r)
      && Ids(r) == Ids(orders) + {Id(o)}
      && |r| == if Id(o) in Ids(orders) then |orders| else |orders| + 1
  {
    MergeOneSpec(orders, o);
  }

  /** One step: an existing id is overlaid in place, an unseen one appended. */
  lemma {:induction false} MergeOneSpec(orders: seq<Order>, o: Order)
    requires UniqueIds(orders)
    ensures var r := MergeOne(orders, o);
      && UniqueIds(r)
      && Ids(r) == Ids(orders) + {Id(o)}
      && (Id(o) in Ids(orders) ==>
            |r| == |orders|
            && forall i | 0 <= i < |orders| ::
                 r[i] == if Id(orders[i]) == Id(o) then orders[i] + o else orders[i])
      && (Id(o) !in Ids(orders) ==> r == orders + [o])
  {
    IdsIndex(orders, Id(o));
    var r := MergeOne(orders, o);
    match IndexOf(orders, Id(o))
    case Some(k) =>
      assert Id(orders[k] + o) == Id(orders[k]);
      forall i | 0 <= i < |r|
        ensures Id(r[i]) == Id(orders[i])
      {
      }
      assert Ids(r) == Ids(orders) by {
        IdsIndex(r, Id(o));
        forall x | x in Ids(r)
          ensures x in Ids(orders)
        {
          IdsIndex(r, x);
          IdsIndex(orders, x);
        }
        forall x | x in Ids(orders)
          ensures x in Ids(r)
        {
          IdsIndex(r, x);
          IdsIndex(orders, x);
        }
      }
    case None =>
      IdsSnoc(orders, o);
  }

  /** A fold keeps ids unique and collects exactly the old ids and the batch's. */
  lemma {:induction false} MergeAllIds(orders: seq<Order>, batch: seq<Order>)
    requires UniqueIds(orders)
    ensures UniqueIds(MergeAll(orders, batch))
    ensures Ids(MergeAll(orders, batch)) == Ids(orders) + Ids(batch)
    decreases |batch|
  {
    if batch != [] {
      var init, o := batch[..|batch| - 1], batch[|batch| - 1];
      assert batch == init + [o];
      MergeAllIds(orders, init);
      MergeOneSpec(MergeAll(orders, init), o);
      IdsSnoc(init, o);
    }
  }

  /**
   * A fold grows the list by exactly the number of distinct ids of the batch
   * that were not there before.
   */
  lemma {:induction false} MergeAllGrowth(orders: seq<Order>, batch: seq<Order>)
    requires UniqueIds(orders)
    ensures |MergeAll(orders, batch)| == |orders| + |Ids(batch) - Ids(orders)|
    decreases |batch|
  {
    if batch != [] {
      var init, o := batch[..|batch| - 1], batch[|batch| - 1];
      assert batch == init + [o];
      IdsSnoc(init, o);
      var m := MergeAll(orders, init);
      MergeAllGrowth(orders, init);
      MergeAllIds(orders, init);
      MergeOneIds(m, o);
      NewIdsSnoc(Ids(orders), Ids(init), Id(o));
    }
  }

  lemma NewIdsSnoc(known: set<Json>, seen: set<Json>, x: Json)
    ensures |(seen + {x}) - known| == |seen - known| + (if x in known + seen then 0 else 1)
  {
    if x in known + seen {
      assert (seen + {x}) - known == seen - known;
    } else {
      assert (seen + {x}) - known == (seen - known) + {x};
    }
  }

  lemma UnionAssoc(a: map<string, Json>, b: map<string, Json>, c: map<string, Json>)
    ensures a + b + c == a + (b + c)
  {
  }

  /**
   * Every entry that was there keeps its position and receives the union of
   * the batch orders with its id, later ones winning; an entry whose id the
   * batch does not mention is left exactly as it was.
   */
  lemma {:induction false} MergeAllExisting(orders: seq<Order>, batch: seq<Order>)
    requires UniqueIds(orders)
    ensures |orders| <= |MergeAll(orders, batch)|
    ensures forall i | 0 <= i < |orders| ::
      MergeAll(orders, batch)[i] == orders[i] + Updates(batch, Id(orders[i]))
    decreases |batch|
  {
    if batch != [] {
      var init, o := batch[..|batch| - 1], batch[|batch| - 1];
      assert batch == init + [o];
      var m := MergeAll(orders, init);
      MergeAllExisting(orders, init);
      MergeAllIds(orders, init);
      MergeOneSpec(m, o);
      IdsSnoc(init, o);
      forall i | 0 <= i < |orders|
        ensures MergeAll(orders, batch)[i] == orders[i] + Updates(batch, Id(orders[i]))
      {
        var id := Id(orders[i]);
        var u := Updates(init, id);
        assert Id(m[i]) == id;
        if Id(o) == id {
          UnionAssoc(orders[i], u, o);
        }
      }
    }
  }

  /** An entry absorbs an update it already carries, even after a further overlay. */
  lemma AbsorbStep(m: map<string, Json>, u: map<string, Json>, x: map<string, Json>)
    requires m + u == m
    ensures (m + x) + (u + x) == m + x
  {
    forall k | k in m + x
      ensures k in (m + x) + (u + x) && ((m + x) + (u + x))[k] == (m + x)[k]
    {
      if k !in x && k in u {
        assert (m + u)[k] == u[k];
      }
    }
  }

  /** Every entry after a fold already carries every update of that batch. */
  lemma {:induction false} MergeAllAbsorbs(orders: seq<Order>, batch: seq<Order>)
    requires UniqueIds(orders)
    ensures var r := MergeAll(orders, batch);
      forall i | 0 <= i < |r| :: r[i] + Updates(batch, Id(r[i])) == r[i]
    decreases |batch|
  {
    var r := MergeAll(orders, batch);
    if batch == [] {
      forall i | 0 <= i < |r|
        ensures r[i] + Updates(batch, Id(r[i])) == r[i]
      {
        assert Updates(batch, Id(r[i])) == map[];
      }
    } else {
      var init, o := batch[..|batch| - 1], batch[|batch| - 1];
      assert batch == init + [o];
      MergeAllAbsorbs(orders, init);
      MergeAllIds(orders, init);
      AbsorbsSnoc(MergeAll(orders, init), init, o);
    }
  }

  /** One further step keeps every entry carrying every update of the batch so far. */
  lemma AbsorbsSnoc(m: seq<Order>, init: seq<Order>, o: Order)
    requires UniqueIds(m) && Ids(init) <= Ids(m)
    requires forall i | 0 <= i < |m| :: m[i] + Updates(init, Id(m[i])) == m[i]
    ensures var r := MergeOne(m, o);
      forall i | 0 <= i < |r| :: r[i] + Updates(init + [o], Id(r[i])) == r[i]
  {
    var r := MergeOne(m, o);
    MergeOneSpec(m, o);
    assert (init + [o])[..|init|] == init;
    forall i | 0 <= i < |r|
      ensures r[i] + Updates(init + [o], Id(r[i])) == r[i]
    {
      if i < |m| {
        var id := Id(m[i]);
        if Id(o) == id {
          AbsorbStep(m[i], Updates(init, id), o);
        } else {
          assert r[i] == m[i];
        }
      } else {
        assert Id(o) !in Ids(init);
        assert r[i] == o;
        assert Updates(init + [o], Id(o)) == o;
      }
    }
  }

  /** Folding the same batch a second time changes nothing. */
  lemma {:induction false} MergeAllIdempotent(orders: seq<Order>, batch: seq<Order>)
    requires UniqueIds(orders)
    ensures MergeAll(MergeAll(orders, batch), batch) == MergeAll(orders, batch)
  {
    var r := MergeAll(orders, batch);
    MergeAllIds(orders, batch);
    MergeAllAbsorbs(orders, batch);
    MergeAllExisting(r, batch);
    MergeAllGrowth(r, batch);
    assert Ids(batch) - Ids(r) == {};
  }

  /** Reconciling one fetched list twice gives the list reconciling it once gives. */
  lemma ReconcileIdempotent(orders: seq<Order>, fetched: seq<Order>)
    requires UniqueIds(orders)
    ensures Reconcile(Reconcile(orders, fetched), fetched) == Reconcile(orders, fetched)
  {
    MergeAllIdempotent(orders, Reversed(fetched));
  }

  /** Reconciling keeps ids unique: each id of the fetched list lands in one entry. */
  lemma ReconcileUnique(orders: seq<Order>, fetched: seq<Order>)
    requires UniqueIds(orders)
    ensures UniqueIds(Reconcile(orders, fetched))
    ensures Ids(Reconcile(orders, fetched)) == Ids(orders) + Ids(fetched)
  {
    MergeAllIds(orders, Reversed(fetched));
    IdsReversed(fetched);
  }

  /** The profile's list holds the same ids read in either direction. */
  lemma IdsReversed(fetched: seq<Order>)
    ensures Ids(Reversed(fetched)) == Ids(fetched)
  {
    forall x | x in Ids(fetched)
      ensures x in Ids(Reversed(fetched))
    {
      IdsIndex(fetched, x);
      var i :| 0 <= i < |fetched| && Id(fetched[i]) == x;
      assert Reversed(fetched)[|fetched| - 1 - i] == fetched[i];
      IdsIndex(Reversed(fetched), x);
    }
  }

  /** One profile's update grows the list by the number of distinct ids it had not seen. */
  lemma ReconcileGrowth(orders: seq<Order>, fetched: seq<Order>)
    requires UniqueIds(orders)
    ensures |Reconcile(orders, fetched)| == |orders| + |Ids(fetched) - Ids(orders)|
  {
    IdsReversed(fetched);
    MergeAllGrowth(orders, Reversed(fetched));
  }

  /** Ids stay unique however many profiles are reconciled. */
  lemma {:induction false} ReconcileAllUnique(orders: seq<Order>, batches: seq<seq<Order>>)
    requires UniqueIds(orders)
    ensures UniqueIds(ReconcileAll(orders, batches))
    decreases |batches|
  {
    if batches != [] {
      ReconcileAllUnique(orders, batches[..|batches| - 1]);
      ReconcileUnique(ReconcileAll(orders, batches[..|batches| - 1]), batches[|batches| - 1]);
    }
  }

  lemma UniquePrefix(s: seq<Order>, n: nat)
    requires UniqueIds(s) && n <= |s|
    ensures UniqueIds(s[..n])
  {
  }

  /** A batch whose ids are all new and distinct is appended as it stands. */
  lemma {:induction false} MergeAllFresh(orders: seq<Order>, batch: seq<Order>)
    requires UniqueIds(orders + batch)
    ensures MergeAll(orders, batch) == orders + batch
    decreases |batch|
  {
    if batch != [] {
      var init, o := batch[..|batch| - 1], batch[|batch| - 1];
      assert batch == init + [o];
      assert orders + batch == (orders + init) + [o];
      UniquePrefix(orders + batch, |orders + init|);
      assert (orders + batch)[..|orders + init|] == orders + init;
      MergeAllFresh(orders, init);
      IdsIndex(orders + init, Id(o));
      assert IndexOf(orders + init, Id(o)) == None;
    }
  }

  /**
   * Orders never seen before are appended oldest-first: the fetched list,
   * newest-first, lands at the end of the list reversed.
   */
  lemma ReconcileFresh(orders: seq<Order>, fetched: seq<Order>)
    requires UniqueIds(orders + fetched)
    ensures Reconcile(orders, fetched) == orders + Reversed(fetched)
  {
    var s, t := orders + fetched, orders + Reversed(fetched);
    forall i, j | 0 <= i < j < |t|
      ensures Id(t[i]) != Id(t[j])
    {
      var i' := if i < |orders| then i else |orders| + |fetched| - 1 - (i - |orders|);
      var j' := if j < |orders| then j else |orders| + |fetched| - 1 - (j - |orders|);
      assert t[i] == s[i'] && t[j] == s[j'] && i' != j';
    }
    MergeAllFresh(orders, Reversed(fetched));
  }

  /** Fetched [o3, o2, o1] with new ids, merged into an empty list, gives [o1, o2, o3]. */
  lemma ExampleAppendOrder(o1: Order, o2: Order, o3: Order)
    requires Id(o1) != Id(o2) && Id(o2) != Id(o3) && Id(o1) != Id(o3)
    ensures Reconcile([], [o3, o2, o1]) == [o1, o2, o3]
  {
    ReconcileFresh([], [o3, o2, o1]);
    assert Reversed([o3, o2, o1]) == [o1, o2, o3];
  }

  /**
   * {id: 1, a: 1, b: {x: 1}} and then {id: 1, b: {y: 2}} give
   * {id: 1, a: 1, b: {y: 2}}: `b` is replaced whole, `a` survives.
   */
  lemma ExampleShallowOverlay()
    ensures
      var first := map["id" := Num(1), "a" := Num(1), "b" := Obj(map["x" := Num(1)])];
      var second := map["id" := Num(1), "b" := Obj(map["y" := Num(2)])];
      Reconcile(Reconcile([], [first]), [second])
        == [map["id" := Num(1), "a" := Num(1), "b" := Obj(map["y" := Num(2)])]]
  {
    var first: Order := map["id" := Num(1), "a" := Num(1), "b" := Obj(map["x" := Num(1)])];
    var second: Order := map["id" := Num(1), "b" := Obj(map["y" := Num(2)])];
    ReconcileSingle([], first);
    ReconcileSingle([first], second);
    assert MergeOne([], first) == [first];
    assert MergeOne([first], second) == [first + second] by {
      assert IndexOf([first], Id(second)) == Some(0);
    }
    assert first + second == map["id" := Num(1), "a" := Num(1), "b" := Obj(map["y" := Num(2)])];
  }

  /** Reconciling a fetched list of one order is a single merge step. */
  lemma ReconcileSingle(orders: seq<Order>, o: Order)
    ensures Reconcile(orders, [o]) == MergeOne(orders, o)
  {
    assert Reversed([o]) == [o];
    assert [o][..0] == [];
    assert MergeAll(orders, [o]) == MergeOne(MergeAll(orders, []), o);
  }

  /** Reconciling keeps every existing entry at its index with its id; entries the batch does not mention are untouched. */
  lemma ReconcileKeepsPositions(orders: seq<Order>, fetched: seq<Order>)
    requires UniqueIds(orders)
    ensures var r := Reconcile(orders, fetched);
      && |r| == |orders| + |Ids(fetched) - Ids(orders)|
      && (forall i | 0 <= i < |orders| :: Id(r[i]) == Id(orders[i]))
      && (forall i | 0 <= i < |orders| && Id(orders[i]) !in Ids(fetched) :: r[i] == orders[i])
  {
    ReconcileGrowth(orders, fetched);
    MergeAllKeepsIds(orders, Reversed(fetched));
    forall i | 0 <= i < |orders| && Id(orders[i]) !in Ids(fetched)
      ensures Reconcile(orders, fetched)[i] == orders[i]
    {
      ReconcileUntouched(orders, fetched, i);
    }
  }

  /** An entry whose id the fetched list does not carry is left exactly as it was. */
  lemma ReconcileUntouched(orders: seq<Order>, fetched: seq<Order>, i: nat)
    requires UniqueIds(orders)
    requires i < |orders| && Id(orders[i]) !in Ids(fetched)
    ensures Reconcile(orders, fetched)[i] == orders[i]
  {
    var b := Reversed(fetched);
    IdsReversed(fetched);
    MergeAllExisting(orders, b);
    assert Updates(b, Id(orders[i])) == map[];
    assert orders[i] + map[] == orders[i];
  }

  /** The updates of a batch in which exactly one order carries the id are that order. */
  lemma {:induction false} UpdatesSingle(batch: seq<Order>, j: nat)
    requires j < |batch|
    requires forall k | 0 <= k < |batch| && k != j :: Id(batch[k]) != Id(batch[j])
    ensures Updates(batch, Id(batch[j])) == batch[j]
    decreases |batch|
  {
    var init, o := batch[..|batch| - 1], batch[|batch| - 1];
    assert batch == init + [o];
    if j == |batch| - 1 {
      IdsIndex(init, Id(o));
      assert Updates(init, Id(o)) == map[];
      assert map[] + o == o;
    } else {
      UpdatesSingle(init, j);
    }
  }

  /**
   * The overlay is shallow and right-biased: when one fetched order carries
   * the id of entry i, every property it has replaces the old value (a nested
   * `cart` included, whole), every property it lacks keeps its old value, and
   * no property is added or lost otherwise.
   */
  lemma ReconcileOverlay(orders: seq<Order>, fetched: seq<Order>, i: nat, j: nat)
    requires UniqueIds(orders)
    requires i < |orders| && j < |fetched| && Id(fetched[j]) == Id(orders[i])
    requires forall k | 0 <= k < |fetched| && k != j :: Id(fetched[k]) != Id(fetched[j])
    ensures i < |Reconcile(orders, fetched)|
    ensures var e, o, n := orders[i], fetched[j], Reconcile(orders, fetched)[i];
      && n.Keys == e.Keys + o.Keys
      && (forall key | key in o :: n[key] == o[key])
      && (forall key | key in e && key !in o :: n[key] == e[key])
  {
    var b := Reversed(fetched);
    var j' := |fetched| - 1 - j;
    assert b[j'] == fetched[j];
    forall k | 0 <= k < |b| && k != j'
      ensures Id(b[k]) != Id(b[j'])
    {
      assert b[k] == fetched[|fetched| - 1 - k];
    }
    UpdatesSingle(b, j');
    MergeAllExisting(orders, b);
  }

  /** `find` over a joined list looks through the first part before the second. */
  lemma IndexOfConcat(a: seq<Order>, b: seq<Order>, id: Json)
    ensures id in Ids(a) ==> IndexOf(a + b, id) == IndexOf(a, id)
    ensures id !in Ids(a) ==>
      IndexOf(a + b, id) == (match IndexOf(b, id) case Some(k) => Some(|a| + k) case None => None)
  {
    IdsIndex(a, id);
    var r, ra, rb := IndexOf(a + b, id), IndexOf(a, id), IndexOf(b, id);
    if id in Ids(a) {
      assert (a + b)[ra.value] == a[ra.value];
    } else {
      if r.Some? {
        assert (a + b)[r.value] == b[r.value - |a|];
      }
      if rb.Some? {
        assert (a + b)[|a| + rb.value] == b[rb.value];
      }
    }
  }

  /**
   * A step that overlays an entry of the first part leaves the second part
   * alone; a step for an id the first part lacks acts on the second part only.
   */
  lemma MergeOneConcat(p: seq<Order>, s: seq<Order>, o: Order)
    ensures Id(o) in Ids(p) ==> MergeOne(p + s, o)[|p|..] == s
    ensures Id(o) !in Ids(p) ==> MergeOne(p + s, o) == p + MergeOne(s, o)
  {
    IndexOfConcat(p, s, Id(o));
    if Id(o) in Ids(p) {
      var k := IndexOf(p, Id(o)).value;
      assert MergeOne(p + s, o) == (p + s)[k := (p + s)[k] + o];
    } else {
      match IndexOf(s, Id(o))
      case Some(k) =>
        assert (p + s)[|p| + k := (p + s)[|p| + k] + o] == p + s[k := s[k] + o];
      case None =>
        assert (p + s) + [o] == p + (s + [o]);
    }
  }

  /** Entries already there keep their position and their id through a fold. */
  lemma {:induction false} MergeAllKeepsIds(orders: seq<Order>, batch: seq<Order>)
    ensures forall i | 0 <= i < |orders| :: Id(MergeAll(orders, batch)[i]) == Id(orders[i])
    decreases |batch|
  {
    if batch != [] {
      var m := MergeAll(orders, batch[..|batch| - 1]);
      MergeAllKeepsIds(orders, batch[..|batch| - 1]);
      var o := batch[|batch| - 1];
      match IndexOf(m, Id(o))
      case Some(k) =>
        assert Id(m[k] + o) == Id(m[k]);
      case None =>
    }
  }

  /** Lists whose entries carry the same ids position by position hold the same ids. */
  lemma IdsSamePositions(a: seq<Order>, b: seq<Order>)
    requires |a| == |b|
    requires forall i | 0 <= i < |a| :: Id(a[i]) == Id(b[i])
    ensures Ids(a) == Ids(b)
  {
    forall x | x in Ids(a) + Ids(b)
      ensures x in Ids(a) && x in Ids(b)
    {
      IdsIndex(a, x);
      IdsIndex(b, x);
    }
  }

  /**
   * What a fold appends: the batch orders with an id not stored before,
   * folded into an empty list, so in the order of their first appearance
   * and each overlaid with the later orders of the batch with its id.
   */
  lemma {:induction false} MergeAllSuffix(orders: seq<Order>, batch: seq<Order>)
    ensures MergeAll(orders, batch)[|orders|..] == MergeAll([], Fresh(Ids(orders), batch))
    decreases |batch|
  {
    if batch != [] {
      var init, o := batch[..|batch| - 1], batch[|batch| - 1];
      var m := MergeAll(orders, init);
      MergeAllSuffix(orders, init);
      MergeAllKeepsIds(orders, init);
      var p, s := m[..|orders|], m[|orders|..];
      assert m == p + s;
      IdsSamePositions(p, orders);
      MergeOneConcat(p, s, o);
      var f := Fresh(Ids(orders), init);
      if Id(o) !in Ids(orders) {
        assert Fresh(Ids(orders), batch) == f + [o];
        assert (f + [o])[..|f|] == f;
        assert MergeAll([], f + [o]) == MergeOne(MergeAll([], f), o);
      }
    }
  }

  /** The fresh orders of a batch carry exactly the batch ids not known before. */
  lemma {:induction false} FreshIds(known: set<Json>, batch: seq<Order>)
    ensures Ids(Fresh(known, batch)) == Ids(batch) - known
    decreases |batch|
  {
    if batch != [] {
      var init, o := batch[..|batch| - 1], batch[|batch| - 1];
      assert batch == init + [o];
      IdsSnoc(init, o);
      FreshIds(known, init);
      if Id(o) !in known {
        IdsSnoc(Fresh(known, init), o);
      }
    } else {
      assert Ids(batch) == {};
    }
  }

  lemma {:induction false} FreshConcat(known: set<Json>, a: seq<Order>, b: seq<Order>)
    ensures Fresh(known, a + b) == Fresh(known, a) + Fresh(known, b)
    decreases |b|
  {
    if b != [] {
      assert (a + b)[..|a + b| - 1] == a + b[..|b| - 1];
      FreshConcat(known, a, b[..|b| - 1]);
    } else {
      assert a + b == a;
    }
  }

  /** Picking the fresh orders commutes with reversing the list. */
  lemma {:induction false} FreshReversed(known: set<Json>, s: seq<Order>)
    ensures Fresh(known, Reversed(s)) == Reversed(Fresh(known, s))
    decreases |s|
  {
    if s != [] {
      var init, x := s[..|s| - 1], s[|s| - 1];
      assert s == init + [x];
      ReversedSnoc(init, x);
      FreshReversed(known, init);
      FreshConcat(known, [x], Reversed(init));
      assert [x][..0] == [];
      var f := Fresh(known, init);
      if Id(x) !in known {
        ReversedSnoc(f, x);
      }
    }
  }

  /**
   * One profile's update appends, after the stored entries, the fetched
   * orders with unseen ids, oldest first, each overlaid with any other
   * fetched order with its id.
   */
  lemma ReconcileSuffix(orders: seq<Order>, fetched: seq<Order>)
    ensures Reconcile(orders, fetched)[|orders|..] == MergeAll([], Reversed(Fresh(Ids(orders), fetched)))
  {
    MergeAllSuffix(orders, Reversed(fetched));
    FreshReversed(Ids(orders), fetched);
  }

  lemma UniqueReversed(s: seq<Order>)
    requires UniqueIds(s)
    ensures UniqueIds(Reversed(s))
  {
    var r := Reversed(s);
    forall i, j | 0 <= i < j < |r|
      ensures Id(r[i]) != Id(r[j])
    {
      assert r[i] == s[|s| - 1 - i] && r[j] == s[|s| - 1 - j];
    }
  }

  /**
   * When the new orders of a fetched list have distinct ids, an update
   * appends exactly them, in reverse of the fetched order: oldest first
   * when the service lists newest first. Stored entries need not be absent
   * from the fetched list.
   */
  lemma ReconcileAppended(orders: seq<Order>, fetched: seq<Order>)
    requires UniqueIds(Fresh(Ids(orders), fetched))
    ensures var r := Reconcile(orders, fetched);
      && |r| == |orders| + |Fresh(Ids(orders), fetched)|
      && r[|orders|..] == Reversed(Fresh(Ids(orders), fetched))
  {
    var f := Reversed(Fresh(Ids(orders), fetched));
    ReconcileSuffix(orders, fetched);
    UniqueReversed(Fresh(Ids(orders), fetched));
    assert [] + f == f;
    MergeAllFresh([], f);
  }
}
