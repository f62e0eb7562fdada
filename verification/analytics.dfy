/**
 * The two statistics over the persisted list, as functions on values: the
 * spend summary (src/cli.ts:81-96) and the expiration report
 * (src/cli.ts:98-137).
 */
module Analytics {
  import opened Json
  import opened Orders
  import opened ShelfLife
  import Reconciler

  // ---------------------------------------------------------------------
  // Spend summary

  /** The sum of the prices of one order's items; never negative when no price is. */
  function PriceSum(prices: seq<int>): (r: int)
    ensures (forall k | 0 <= k < |prices| :: prices[k] >= 0) ==> r >= 0
    decreases |prices|
  {
    if prices == [] then 0 else PriceSum(prices[..|prices| - 1]) + prices[|prices| - 1]
  }

  /** The sum of the price of every item of every order; never negative when no price is. */
  function TotalSpend(orders: seq<Order>): (r: int)
    requires AllSpendShaped(orders)
    ensures (forall i, k | 0 <= i < |orders| && 0 <= k < |Prices(orders[i])| :: Prices(orders[i])[k] >= 0) ==> r >= 0
    decreases |orders|
  {
    if orders == [] then 0
    else TotalSpend(orders[..|orders| - 1]) + PriceSum(Prices(orders[|orders| - 1]))
  }

  /** What the summary line reports: total, count, first and last `created_at`. */
  datatype SpendSummary = SpendSummary(total: int, count: nat, first: Option<Json>, last: Option<Json>)

  /**
   * The summary line, or `None` for an empty list: there the source reads
   * `orders[0].created_at` from `undefined` and fails before printing.
   */
  function Summary(orders: seq<Order>): (r: Option<SpendSummary>)
    requires AllSpendShaped(orders)
    ensures r.None? <==> orders == []
    ensures r.Some? ==> r.value.count == |orders|
  {
    if orders == [] then None
    else Some(SpendSummary(TotalSpend(orders), |orders|, CreatedAt(orders[0]), CreatedAt(orders[|orders| - 1])))
  }

  lemma {:induction false} PriceSumConcat(a: seq<int>, b: seq<int>)
    ensures PriceSum(a + b) == PriceSum(a) + PriceSum(b)
    decreases |b|
  {
    if b != [] {
      assert (a + b)[..|a + b| - 1] == a + b[..|b| - 1];
      PriceSumConcat(a, b[..|b| - 1]);
    } else {
      assert a + b == a;
    }
  }

  /** Spend adds up over a split of the list. */
  lemma {:induction false} TotalSpendConcat(a: seq<Order>, b: seq<Order>)
    requires AllSpendShaped(a) && AllSpendShaped(b)
    ensures AllSpendShaped(a + b)
    ensures TotalSpend(a + b) == TotalSpend(a) + TotalSpend(b)
    decreases |b|
  {
    if b != [] {
      assert (a + b)[..|a + b| - 1] == a + b[..|b| - 1];
      TotalSpendConcat(a, b[..|b| - 1]);
    } else {
      assert a + b == a;
    }
  }

  /** Spend does not depend on the order of the list. */
  lemma {:induction false} TotalSpendReversed(orders: seq<Order>)
    requires AllSpendShaped(orders)
    ensures AllSpendShaped(Reversed(orders))
    ensures TotalSpend(Reversed(orders)) == TotalSpend(orders)
    decreases |orders|
  {
    if orders != [] {
      var init, o := orders[..|orders| - 1], orders[|orders| - 1];
      assert orders == init + [o];
      ReversedSnoc(init, o);
      TotalSpendReversed(init);
      assert TotalSpend([o]) == PriceSum(Prices(o)) by {
        assert [o][..0] == [];
      }
      TotalSpendConcat([o], Reversed(init));
    }
  }

  /**
   * An overlay takes `cart` from the fetched order, so merging orders that
   * have the shape a statistic reads gives a list with that shape.
   */
  lemma {:induction false} MergeAllShaped(orders: seq<Order>, batch: seq<Order>)
    ensures AllSpendShaped(orders) && AllSpendShaped(batch) ==>
      AllSpendShaped(Reconciler.MergeAll(orders, batch))
    ensures AllReportShaped(orders) && AllReportShaped(batch) ==>
      AllReportShaped(Reconciler.MergeAll(orders, batch))
    decreases |batch|
  {
    if batch != [] {
      var init, o := batch[..|batch| - 1], batch[|batch| - 1];
      var m := Reconciler.MergeAll(orders, init);
      MergeAllShaped(orders, init);
      match Reconciler.IndexOf(m, Id(o))
      case Some(k) =>
        if "cart" in o {
          assert (m[k] + o)["cart"] == o["cart"];
        }
      case None =>
    }
  }

  /** One profile's update keeps the shapes the statistics read. */
  lemma ReconcileShaped(orders: seq<Order>, fetched: seq<Order>)
    ensures AllSpendShaped(orders) && AllSpendShaped(fetched) ==>
      AllSpendShaped(Reconciler.Reconcile(orders, fetched))
    ensures AllReportShaped(orders) && AllReportShaped(fetched) ==>
      AllReportShaped(Reconciler.Reconcile(orders, fetched))
  {
    var b := Reversed(fetched);
    forall i | 0 <= i < |b|
      ensures b[i] == fetched[|fetched| - 1 - i]
    {
    }
    MergeAllShaped(orders, b);
  }

  /**
   * After an update whose new orders have distinct ids, whether or not the
   * fetched list also repeats stored orders, the summary counts the new
   * orders and its last `created_at` is that of the newest new order (the
   * first of them in the fetched list).
   */
  lemma ReconcileLast(orders: seq<Order>, fetched: seq<Order>)
    requires AllSpendShaped(orders) && AllSpendShaped(fetched)
    requires Reconciler.UniqueIds(Reconciler.Fresh(Reconciler.Ids(orders), fetched))
    requires Reconciler.Fresh(Reconciler.Ids(orders), fetched) != []
    ensures AllSpendShaped(Reconciler.Reconcile(orders, fetched))
    ensures var s := Summary(Reconciler.Reconcile(orders, fetched));
      && s.Some?
      && s.value.count == |orders| + |Reconciler.Fresh(Reconciler.Ids(orders), fetched)|
      && s.value.last == CreatedAt(Reconciler.Fresh(Reconciler.Ids(orders), fetched)[0])
  {
    var f := Reconciler.Fresh(Reconciler.Ids(orders), fetched);
    var r := Reconciler.Reconcile(orders, fetched);
    assert AllSpendShaped(r) by {
      ReconcileShaped(orders, fetched);
    }
    assert |r| == |orders| + |f| && r[|r| - 1] == f[0] by {
      Reconciler.ReconcileAppended(orders, fetched);
      assert r[|r| - 1] == r[|orders|..][|f| - 1];
      assert Reversed(f)[|f| - 1] == f[0];
    }
    SummaryNonEmpty(r);
  }

  /**
   * Reconciling orders never seen before adds exactly their spend and their
   * count; the last entry afterwards is the first order of the fetched list.
   */
  lemma ReconcileFreshSpend(orders: seq<Order>, fetched: seq<Order>)
    requires Reconciler.UniqueIds(orders + fetched)
    requires AllSpendShaped(orders) && AllSpendShaped(fetched) && fetched != []
    ensures AllSpendShaped(Reconciler.Reconcile(orders, fetched))
    ensures Summary(Reconciler.Reconcile(orders, fetched)).Some?
    ensures Summary(Reconciler.Reconcile(orders, fetched)).value.total == TotalSpend(orders) + TotalSpend(fetched)
    ensures Summary(Reconciler.Reconcile(orders, fetched)).value.count == |orders| + |fetched|
    ensures Summary(Reconciler.Reconcile(orders, fetched)).value.last == CreatedAt(fetched[0])
  {
    Reconciler.ReconcileFresh(orders, fetched);
    AppendReversedSpend(orders, fetched);
  }

  /** The summary of a list with a reversed list appended. */
  lemma AppendReversedSpend(orders: seq<Order>, fetched: seq<Order>)
    requires AllSpendShaped(orders) && AllSpendShaped(fetched) && fetched != []
    ensures AllSpendShaped(orders + Reversed(fetched))
    ensures Summary(orders + Reversed(fetched)).Some?
    ensures Summary(orders + Reversed(fetched)).value.total == TotalSpend(orders) + TotalSpend(fetched)
    ensures Summary(orders + Reversed(fetched)).value.count == |orders| + |fetched|
    ensures Summary(orders + Reversed(fetched)).value.last == CreatedAt(fetched[0])
  {
    TotalSpendReversed(fetched);
    TotalSpendConcat(orders, Reversed(fetched));
    AppendReversedLast(orders, fetched);
    SummaryNonEmpty(orders + Reversed(fetched));
  }

  /** The last order of `orders + Reversed(fetched)` is the first fetched one. */
  lemma AppendReversedLast(orders: seq<Order>, fetched: seq<Order>)
    requires fetched != []
    ensures (orders + Reversed(fetched))[|orders| + |fetched| - 1] == fetched[0]
  {
  }

  /** A non-empty list's summary, field by field. */
  lemma SummaryNonEmpty(orders: seq<Order>)
    requires AllSpendShaped(orders) && orders != []
    ensures Summary(orders) == Some(SpendSummary(TotalSpend(orders), |orders|, CreatedAt(orders[0]), CreatedAt(orders[|orders| - 1])))
  {
  }

  /** Orders with items priced [100, 250] and [50] give 400 over 2 orders. */
  lemma ExampleSpend(a: Order, b: Order)
    requires SpendShaped(a) && SpendShaped(b)
    requires Prices(a) == [100, 250] && Prices(b) == [50]
    ensures Summary([a, b]) == Some(SpendSummary(400, 2, CreatedAt(a), CreatedAt(b)))
  {
    var ia, ib := Prices(a), Prices(b);
    assert ia[..1][..0] == [] && ia[..1][0] == ia[0];
    assert PriceSum(ia[..1]) == 100;
    assert PriceSum(ia) == 350;
    assert ib[..0] == [];
    assert PriceSum(ib) == 50;
    assert [a, b][..1] == [a];
    assert [a][..0] == [];
    assert TotalSpend([a]) == 350;
  }

  // ---------------------------------------------------------------------
  // Expiration report

  /** A report block: the raw `cart.updated_at` and the lines of that order. */
  datatype Block = Block(updatedAt: Option<Json>, lines: seq<string>)

  /** The line an item contributes: there is one exactly when its lower-cased description has the marker phrase. */
  function ItemLine(item: Item): (r: Option<string>)
    ensures r.Some? <==> Contains(Lower(item.description), Marker)
  {
    NoMatchIffNoMarker(item.description);
    match Extract(item.description)
    case Found(d) => Some(item.name + " - " + d.count + " " + d.unit)
    case Unknown => Some("unknown expiration pattern: " + item.description)
    case NoMatch => None
  }

  /** The lines of one order, in item order: at most one per item. */
  function OrderLines(items: seq<Item>): (r: seq<string>)
    ensures |r| <= |items|
    decreases |items|
  {
    if items == [] then []
    else
      var init := OrderLines(items[..|items| - 1]);
      match ItemLine(items[|items| - 1])
      case Some(line) => init + [line]
      case None => init
  }

  /**
   * The block of one order: present exactly when one of its items mentions
   * the marker phrase, and then with at least one line.
   */
  function OrderBlock(o: Order): (r: Option<Block>)
    requires ReportShaped(o)
    ensures r.Some? <==> exists k | 0 <= k < |Items(o)| :: Contains(Lower(Items(o)[k].description), Marker)
    ensures r.Some? ==> r.value.lines != []
  {
    OrderLinesEmpty(Items(o));
    var lines := OrderLines(Items(o));
    if lines == [] then None else Some(Block(UpdatedAt(o), lines))
  }

  /**
   * The report: one block per order that has lines, in list order; so at
   * most one block per order, and no block without a line.
   */
  function ExpirationReport(orders: seq<Order>): (r: seq<Block>)
    requires AllReportShaped(orders)
    ensures |r| <= |orders|
    ensures forall k | 0 <= k < |r| :: r[k].lines != []
    decreases |orders|
  {
    if orders == [] then []
    else
      var init := ExpirationReport(orders[..|orders| - 1]);
      match OrderBlock(orders[|orders| - 1])
      case Some(b) => init + [b]
      case None => init
  }

  /** When template A matches, the line shows its second group then its first: `name - count unit`. */
  lemma ItemLineTemplateA(item: Item, m: Match)
    requires IsLeftmost(PatternA.regex, item.description, m)
    ensures ItemLine(item) == Some(item.name + " - " + m.groups.second + " " + m.groups.first)
  {
    ExtractTemplateA(item.description, m);
  }

  /** When only template B matches, the line shows its groups in their own order. */
  lemma ItemLineTemplateB(item: Item, m: Match)
    requires forall p: nat, g: Groups :: !MatchesAt(PatternA.regex, item.description, p, g)
    requires IsLeftmost(PatternB.regex, item.description, m)
    ensures ItemLine(item) == Some(item.name + " - " + m.groups.first + " " + m.groups.second)
  {
    ExtractTemplateB(item.description, m);
  }

  /** With no template matching but the marker phrase present, the line quotes the description. */
  lemma ItemLineUnknown(item: Item)
    requires forall p: nat, g: Groups :: !MatchesAt(PatternA.regex, item.description, p, g)
    requires forall p: nat, g: Groups :: !MatchesAt(PatternB.regex, item.description, p, g)
    requires Contains(Lower(item.description), Marker)
    ensures ItemLine(item) == Some("unknown expiration pattern: " + item.description)
  {
    ExtractUnknown(item.description);
  }

  /** Lines follow item order: the lines of a split list are the lines of the parts. */
  lemma {:induction false} OrderLinesConcat(a: seq<Item>, b: seq<Item>)
    ensures OrderLines(a + b) == OrderLines(a) + OrderLines(b)
    decreases |b|
  {
    if b != [] {
      assert (a + b)[..|a + b| - 1] == a + b[..|b| - 1];
      OrderLinesConcat(a, b[..|b| - 1]);
    } else {
      assert a + b == a;
    }
  }

  /** An order has no block exactly when none of its items mentions the marker phrase. */
  lemma {:induction false} OrderLinesEmpty(items: seq<Item>)
    ensures OrderLines(items) == [] <==>
      forall k | 0 <= k < |items| :: !Contains(Lower(items[k].description), Marker)
    decreases |items|
  {
    if items != [] {
      OrderLinesEmpty(items[..|items| - 1]);
    }
  }

  /** The report of a split list is the reports of the parts, one after the other. */
  lemma {:induction false} ReportConcat(a: seq<Order>, b: seq<Order>)
    requires AllReportShaped(a) && AllReportShaped(b)
    ensures AllReportShaped(a + b)
    ensures ExpirationReport(a + b) == ExpirationReport(a) + ExpirationReport(b)
    decreases |b|
  {
    if b != [] {
      assert (a + b)[..|a + b| - 1] == a + b[..|b| - 1];
      ReportConcat(a, b[..|b| - 1]);
    } else {
      assert a + b == a;
    }
  }
}
