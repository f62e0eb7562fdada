/**
 * The persisted document and the three commands that work on it, written
 * the way the command-line program performs them: the `update` loop that
 * reverses each fetched list in place and merges it into the stored orders,
 * and the two statistics loops. Each method is proved to compute the
 * function of the same name in `Reconciler` or `Analytics`.
 */
module Cli {
  import opened Json
  import opened Orders
  import opened ShelfLife
  import opened Reconciler
  import opened Analytics

  /** `Array.prototype.reverse`: the array is reversed where it lies. */
  method ReverseInPlace<T>(a: array<T>)
    modifies a
    ensures a[..] == Reversed(old(a[..]))
  {
    var n := a.Length;
    var i := 0;
    while i < n / 2
      invariant 0 <= i <= n / 2
      invariant forall k | 0 <= k < i :: a[k] == old(a[n - 1 - k]) && a[n - 1 - k] == old(a[k])
      invariant forall k | i <= k < n - i :: a[k] == old(a[k])
    {
      a[i], a[n - 1 - i] := a[n - 1 - i], a[i];
      i := i + 1;
    }
  }

  /**
   * The body of the per-item callback of `statsExpiration`: the templates
   * are tried in order and the first that matches gives the line; failing
   * that, a description mentioning the marker phrase gives the "unknown"
   * line; otherwise the item adds nothing.
   */
  method DescribeItem(item: Item) returns (line: Option<string>)
    ensures line == ItemLine(item)
  {
    line := None;
    var p := 0;
    while p < |Patterns|
      invariant 0 <= p <= |Patterns|
      invariant line.None? ==> FirstHit(Patterns, item.description) == FirstHit(Patterns[p..], item.description)
      invariant line.Some? ==> exists d :: FirstHit(Patterns, item.description) == Some(d)
                                        && line == Some(item.name + " - " + d.count + " " + d.unit)
    {
      var m := Exec(Patterns[p].regex, item.description);
      if m.Some? {
        var d := Patterns[p].Map(m.value.groups);
        line := Some(item.name + " - " + d.count + " " + d.unit);
        break;
      }
      p := p + 1;
    }
    if line.None? && Contains(Lower(item.description), Marker) {
      line := Some("unknown expiration pattern: " + item.description);
    }
  }

  /** `order.cart.items.forEach(...)` in `statsExpiration`: the lines of one order, in item order. */
  method CollectLines(items: seq<Item>) returns (lines: seq<string>)
    ensures lines == OrderLines(items)
  {
    lines := [];
    var k := 0;
    while k < |items|
      invariant 0 <= k <= |items|
      invariant lines == OrderLines(items[..k])
    {
      var line := DescribeItem(items[k]);
      if line.Some? {
        lines := lines + [line.value];
      }
      assert items[..k + 1][..k] == items[..k];
      k := k + 1;
    }
    assert items[..k] == items;
  }

  /** The document read from `data.json`, `{ orders: [] }` when there is none. */
  class PersistedData {
    var orders: seq<Order>

    constructor (loaded: Option<seq<Order>>)
      ensures orders == (if loaded.Some? then loaded.value else [])
    {
      orders := if loaded.Some? then loaded.value else [];
    }

    /** `orders.find(o => o.id === id)`, as the position of the entry found. */
    method Find(id: Json) returns (r: Option<nat>)
      ensures r.Some? ==> r.value < |orders| && Id(orders[r.value]) == id
      ensures r.Some? ==> forall j | 0 <= j < r.value :: Id(orders[j]) != id
      ensures r.None? ==> forall j | 0 <= j < |orders| :: Id(orders[j]) != id
      ensures r == IndexOf(orders, id)
    {
      var i := 0;
      while i < |orders|
        invariant 0 <= i <= |orders|
        invariant forall j | 0 <= j < i :: Id(orders[j]) != id
      {
        if Id(orders[i]) == id {
          return Some(i);
        }
        i := i + 1;
      }
      return None;
    }

    /**
     * One profile's pass of `update`: the fetched array is reversed in
     * place, then each order in it overlays the stored entry with its id or
     * is appended.
     */
    method MergeFetched(fetched: array<Order>)
      modifies this, fetched
      ensures fetched[..] == Reversed(old(fetched[..]))
      ensures orders == Reconcile(old(orders), old(fetched[..]))
      ensures old(UniqueIds(orders)) ==> UniqueIds(orders) && Ids(orders) == old(Ids(orders)) + Ids(old(fetched[..]))
      ensures old(UniqueIds(orders)) ==> |orders| == old(|orders|) + |Ids(old(fetched[..])) - old(Ids(orders))|
    {
      ReverseInPlace(fetched);
      var i := 0;
      while i < fetched.Length
        invariant 0 <= i <= fetched.Length
        invariant fetched[..] == Reversed(old(fetched[..]))
        invariant orders == MergeAll(old(orders), fetched[..i])
      {
        var order := fetched[i];
        var existed := Find(Id(order));
        if existed.Some? {
          orders := orders[existed.value := orders[existed.value] + order];
        } else {
          orders := orders + [order];
        }
        assert fetched[..i + 1] == fetched[..i] + [order];
        i := i + 1;
      }
      assert fetched[..fetched.Length] == fetched[..];
      if old(UniqueIds(orders)) {
        ReconcileUnique(old(orders), old(fetched[..]));
        ReconcileGrowth(old(orders), old(fetched[..]));
      }
    }

    /** `update`: every profile's fetched list, in the order the profiles are listed. */
    method Update(fetchedByProfile: seq<seq<Order>>)
      modifies this
      ensures orders == ReconcileAll(old(orders), fetchedByProfile)
      ensures old(UniqueIds(orders)) ==> UniqueIds(orders)
    {
      var p := 0;
      while p < |fetchedByProfile|
        invariant 0 <= p <= |fetchedByProfile|
        invariant orders == ReconcileAll(old(orders), fetchedByProfile[..p])
      {
        var list := fetchedByProfile[p];
        var fetched := new Order[|list|](i requires 0 <= i < |list| => list[i]);
        assert fetched[..] == list;
        MergeFetched(fetched);
        assert fetchedByProfile[..p + 1][..p] == fetchedByProfile[..p];
        p := p + 1;
      }
      assert fetchedByProfile[..p] == fetchedByProfile;
      if old(UniqueIds(orders)) {
        ReconcileAllUnique(old(orders), fetchedByProfile);
      }
    }

    /** `stats`: the expiration report first, then the spend summary. */
    method Stats() returns (blocks: seq<Block>, summary: Option<SpendSummary>)
      requires AllReportShaped(orders) && AllSpendShaped(orders)
      ensures blocks == ExpirationReport(orders)
      ensures summary == Summary(orders)
    {
      blocks := StatsExpiration();
      summary := StatsTotalSum();
    }

    /** `statsTotalSum`: the prices of every item of every order, added up. */
    method StatsTotalSum() returns (s: Option<SpendSummary>)
      requires AllSpendShaped(orders)
      ensures s == Summary(orders)
    {
      var total := 0;
      var i := 0;
      while i < |orders|
        invariant 0 <= i <= |orders|
        invariant AllSpendShaped(orders[..i])
        invariant total == TotalSpend(orders[..i])
      {
        var prices := Prices(orders[i]);
        var k := 0;
        while k < |prices|
          invariant 0 <= k <= |prices|
          invariant total == TotalSpend(orders[..i]) + PriceSum(prices[..k])
        {
          total := total + prices[k];
          assert prices[..k + 1][..k] == prices[..k];
          k := k + 1;
        }
        assert prices[..k] == prices;
        assert orders[..i + 1][..i] == orders[..i];
        i := i + 1;
      }
      assert orders[..i] == orders;
      if |orders| == 0 {
        return None;
      }
      return Some(SpendSummary(total, |orders|, CreatedAt(orders[0]), CreatedAt(orders[|orders| - 1])));
    }

    /** `statsExpiration`: one block per order whose items give at least one line. */
    method StatsExpiration() returns (blocks: seq<Block>)
      requires AllReportShaped(orders)
      ensures blocks == ExpirationReport(orders)
    {
      blocks := [];
      var i := 0;
      while i < |orders|
        invariant 0 <= i <= |orders|
        invariant AllReportShaped(orders[..i])
        invariant blocks == ExpirationReport(orders[..i])
      {
        var lines := CollectLines(Items(orders[i]));
        if |lines| > 0 {
          blocks := blocks + [Block(UpdatedAt(orders[i]), lines)];
        }
        assert orders[..i + 1][..i] == orders[..i];
        i := i + 1;
      }
      assert orders[..i] == orders;
    }
  }
}
