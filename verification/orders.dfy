/**
 * The shape of an order record as the reconciler and the statistics read it.
 *
 * An order is kept as the JSON object the service sent, so that a merge can
 * overlay its top-level properties exactly as `Object.assign` does. Only the
 * `id` property is required of every order. The two statistics each read
 * their own part of `cart.items`: the spend summary reads `price`, the
 * expiration report reads `name` and `description`.
 */
module Orders {
  import opened Json

  /** A JSON object that carries an `id` property. */
  type Order = o: map<string, Json> | "id" in o witness map["id" := Null]

  /** `order.id`: never `undefined` for an order. */
  function Id(o: Order): (r: Json)
    ensures Get(o, "id") == Some(r)
  {
    o["id"]
  }

  /** `order.cart.items` is an array: both statistics walk it with `forEach`. */
  predicate HasItems(o: Order)
  {
    && "cart" in o && o["cart"].Obj?
    && "items" in o["cart"].fields && o["cart"].fields["items"].Arr?
  }

  function CartItems(o: Order): (r: seq<Json>)
    requires HasItems(o)
  {
    o["cart"].fields["items"].elems
  }

  /** An item as `statsTotalSum` reads it: an object with a numeric `price`. */
  predicate IsPriced(j: Json)
  {
    j.Obj? && "price" in j.fields && j.fields["price"].Num?
  }

  function Price(j: Json): (r: int)
    requires IsPriced(j)
  {
    j.fields["price"].n
  }

  /** Everything `statsTotalSum` dereferences in an order is there. */
  predicate SpendShaped(o: Order)
  {
    HasItems(o) && forall j | j in CartItems(o) :: IsPriced(j)
  }

  predicate AllSpendShaped(orders: seq<Order>)
  {
    forall i | 0 <= i < |orders| :: SpendShaped(orders[i])
  }

  /** `item.price` of every item, in item order. */
  function Prices(o: Order): (r: seq<int>)
    requires SpendShaped(o)
    ensures |r| == |CartItems(o)|
  {
    var elems := CartItems(o);
    seq(|elems|, i requires 0 <= i < |elems| => Price(elems[i]))
  }

  /** Price i is the number stored as item i's `price`. */
  lemma PricesRead(o: Order)
    requires SpendShaped(o)
    ensures forall i | 0 <= i < |Prices(o)| ::
      IsPriced(CartItems(o)[i]) && CartItems(o)[i].fields["price"] == Num(Prices(o)[i])
  {
  }

  /**
   * One item as `statsExpiration` reads it: `name` as the template literal
   * writes it (any value, `undefined` included) and the `description`.
   */
  datatype Item = Item(name: string, description: string)

  /** An item as `statsExpiration` reads it: an object with a string `description`. */
  predicate IsDescribed(j: Json)
  {
    j.Obj? && "description" in j.fields && j.fields["description"].Str?
  }

  /** Everything `statsExpiration` dereferences in an order is there. */
  predicate ReportShaped(o: Order)
  {
    HasItems(o) && forall j | j in CartItems(o) :: IsDescribed(j)
  }

  predicate AllReportShaped(orders: seq<Order>)
  {
    forall i | 0 <= i < |orders| :: ReportShaped(orders[i])
  }

  /** `item.name` as written by the template literal, and `item.description`. */
  function ToItem(j: Json): (r: Item)
    requires IsDescribed(j)
    ensures r.description == j.fields["description"].s
    ensures "name" !in j.fields ==> r.name == "undefined"
    ensures "name" in j.fields && j.fields["name"].Str? ==> r.name == j.fields["name"].s
  {
    Item(Text(Get(j.fields, "name")), j.fields["description"].s)
  }

  /** The items as `statsExpiration` reads them, in item order. */
  function Items(o: Order): (r: seq<Item>)
    requires ReportShaped(o)
    ensures |r| == |CartItems(o)|
  {
    var elems := CartItems(o);
    seq(|elems|, i requires 0 <= i < |elems| => ToItem(elems[i]))
  }

  /** Item i carries the description and the written name of the i-th element of `cart.items`. */
  lemma ItemsRead(o: Order)
    requires ReportShaped(o)
    ensures forall i | 0 <= i < |Items(o)| ::
      && IsDescribed(CartItems(o)[i])
      && Items(o)[i].description == CartItems(o)[i].fields["description"].s
      && Items(o)[i].name == Text(Get(CartItems(o)[i].fields, "name"))
  {
  }

  /** `order.created_at`, `undefined` when absent. */
  function CreatedAt(o: Order): (r: Option<Json>)
    ensures r.None? <==> "created_at" !in o
    ensures r.Some? ==> r.value == o["created_at"]
  {
    Get(o, "created_at")
  }

  /** `order.cart.updated_at`, `undefined` when absent. */
  function UpdatedAt(o: Order): (r: Option<Json>)
    requires HasItems(o)
    ensures r.None? <==> "updated_at" !in o["cart"].fields
    ensures r.Some? ==> r.value == o["cart"].fields["updated_at"]
  {
    Get(o["cart"].fields, "updated_at")
  }

  /** The sequence read back to front, as `Array.prototype.reverse` leaves it. */
  function Reversed<T>(s: seq<T>): (r: seq<T>)
    ensures |r| == |s|
  {
    seq(|s|, i requires 0 <= i < |s| => s[|s| - 1 - i])
  }

  /** Reversal turns the last element into the first. */
  lemma ReversedSnoc<T>(s: seq<T>, x: T)
    ensures Reversed(s + [x]) == [x] + Reversed(s)
  {
    var l, r := Reversed(s + [x]), [x] + Reversed(s);
    assert |l| == |r|;
    forall i | 0 <= i < |l|
      ensures l[i] == r[i]
    {
      if i > 0 {
        assert r[i] == Reversed(s)[i - 1];
      }
    }
  }
}
