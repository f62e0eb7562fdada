# foodie order store and statistics, in Dafny

foodie is a small command-line program (`src/cli.ts`) for one person's
food-delivery order history. `update` fetches the order list of every
logged-in browser profile and merges it into the document `data.json`.
`stats` prints two reports over the stored orders:

- the shelf life of every item whose description states one;
- the total spend, with the number of orders and the first and last
  `created_at`.

This project models those parts and proves their properties.

| file | module | what it holds |
|---|---|---|
| `json.dfy` | `Json` | JSON values; `Option` for a property that may be `undefined`; how a template literal writes a value |
| `orders.dfy` | `Orders` | an order as a JSON object with an `id`; the part of `cart.items` each statistic reads; `Reversed` |
| `reconciler.dfy` | `Reconciler` | the merge of fetched orders into the stored list, as functions, with its properties |
| `shelf_life.dfy` | `ShelfLife` | the two shelf-life regular expressions, a matcher proved against their meaning, the choice between them and the "unknown" fallback |
| `analytics.dfy` | `Analytics` | the spend summary and the expiration report, as functions, with their properties |
| `cli.dfy` | `Cli` | the persisted document as a class whose methods run the same loops as the program, each proved to compute the matching function |

### The merge

`update` reverses each fetched list in place with `Array.prototype.reverse`. It then walks the reversed list:

- an order whose `id` is already stored is copied onto the stored entry with `Object.assign`;
- any other order is appended.

An order is therefore a `map<string, Json>` that must hold `"id"`. `Object.assign` is Dafny's right-biased map union `stored + fetched`.

`Cli.PersistedData.MergeFetched` runs this loop on an `array<Order>`. It is proved equal to `Reconciler.Reconcile`, and the reconciler lemmas hold for that function:

- ids stay unique;
- stored entries keep their positions;
- the list grows by the number of distinct unseen ids;
- the new orders are appended oldest first, also when the fetched list repeats stored orders (`Reconciler.ReconcileAppended`);
- the overlay is shallow and right-biased;
- merging the same batch twice changes nothing.

Several merge lemmas require `UniqueIds` of the stored list. That property is an invariant: it holds for the empty `{ orders: [] }` document and `Update` keeps it (`Cli.PersistedData.Update`).

### The shelf-life extractor

Each regular expression has the shape `<marker>(<class>+)<separator>(<class>+)(\.|$)`. The model states this shape once, as `ShelfLife.Template`.

- `MatchesAt` says what a match at a position is, as a split of the text.
- `IsLeftmost` says what `RegExp.prototype.exec` returns: the match at the smallest position.
- `Exec` is a matcher built from maximal character runs. `ShelfLife.ExecCorrect` and `ShelfLife.ExecNone` prove that it returns exactly the leftmost match, or nothing when no match exists.
- The runs may be taken maximal because the separator never starts with a character of the class before it (`Deterministic`). So backtracking could not find another split.

## Model

| member | source | states |
|---|---|---|
| Cli.PersistedData.constructor | src/cli.ts:5-7 | the stored list is the loaded document's `orders`, or empty when there is no document |
| Cli.ReverseInPlace | src/cli.ts:60 | the array afterwards holds its old contents back to front |
| Cli.PersistedData.Find | src/cli.ts:61-63 | the result is the first position whose id equals the searched id, or none when no entry has it; it agrees with `Reconciler.IndexOf` |
| Cli.PersistedData.MergeFetched | src/cli.ts:60-69 | the fetched array is left reversed. The new list is `Reconcile(old list, fetched)`. From unique ids it keeps them unique, its ids become old ids plus fetched ids, and it grows by the number of fetched ids not stored before |
| Cli.PersistedData.Update | src/cli.ts:43-74 | the new list is every profile's list reconciled in profile order; unique ids stay unique |
| Cli.PersistedData.Stats | src/cli.ts:76-79 | `stats` yields the expiration report of the stored list and then its spend summary |
| Cli.PersistedData.StatsTotalSum | src/cli.ts:81-96 | the nested loops produce `Analytics.Summary`: the sum of all item prices, the order count, and the first and last `created_at`; none for an empty list |
| Cli.PersistedData.StatsExpiration | src/cli.ts:98-137 | the nested loops produce `Analytics.ExpirationReport`: one block per order with at least one line, lines in item order |
| Cli.DescribeItem | src/cli.ts:115-131 | the pattern loop with its `break`, then the lower-cased `includes` fallback, produces `Analytics.ItemLine` |
| Orders.Reversed | src/cli.ts:60 | `orders.reverse()` as a value: the same number of orders, read back to front |
| Json.JsonText | src/cli.ts:122 | how `${item.name}` writes a value: a string as itself; a number as a `-` exactly when it is negative, followed by decimal digits without leading zeros (just `0` for zero) whose `Json.Value` is the number's magnitude |
| Json.JoinText | src/cli.ts:122 | how `${item.name}` writes an array, `join(",")`: nothing past the end, the text of a non-`null` element at the head of the rest, a `,` whenever another element follows, and the last element's text (`null` as nothing) alone at the end |
| Orders.Id | src/cli.ts:62 | the `anOrder.id` and `order.id` that `find` compares: always present on an order |
| Orders.CreatedAt | src/cli.ts:93-94 | `created_at` of an order: absent exactly when the order has no such key, otherwise its value |
| Orders.UpdatedAt | src/cli.ts:135 | `order.cart.updated_at`: absent exactly when the cart has no such key, otherwise its value |
| Json.DigitsValue | src/cli.ts:122 | the decimal digits written for a number read back as that number |
| Json.Text | src/cli.ts:122 | how `${item.name}` writes a property read: an absent property as `undefined`, a string as itself |
| Orders.Prices | src/cli.ts:86-88 | the `item.price` values `forEach` visits in one order, one per item |
| Orders.PricesRead | src/cli.ts:86-88 | price number i is the numeric `price` of item i of `cart.items` |
| Orders.ToItem | src/cli.ts:118-130 | the two properties the callback reads from an item: the `description` string itself, and `name` as the template literal writes it (`undefined` when absent, a string as itself) |
| Orders.Items | src/cli.ts:103-132 | the items `forEach` visits in one order, one per element of `cart.items` |
| Orders.ItemsRead | src/cli.ts:103-132 | item i carries the `description` and the written `name` of element i of `cart.items` |
| ShelfLife.Contains | src/cli.ts:129 | `includes`: true when the phrase starts at some position of the text; never true for a phrase longer than the text; always true for the empty phrase |
| Cli.CollectLines | src/cli.ts:103-132 | the `forEach` over one order's items produces `Analytics.OrderLines`: one line per item that `DescribeItem` describes, in item order |
| Reconciler.MergeOne | src/cli.ts:61-68 | one turn of the loop: `find` by id, then `Object.assign` onto the entry found or `push`; it adds at most one entry (its full effect: `MergeOneSpec`) |
| Reconciler.MergeAll | src/cli.ts:60-69 | the loop over the reversed list, one turn per order in order; it adds at most one entry per order |
| Reconciler.Reconcile | src/cli.ts:60-69 | one profile's update: the fetched list reversed, then folded in; the list never shrinks and grows by at most the fetched length |
| Reconciler.ReconcileAll | src/cli.ts:46-69 | every profile's update in the order the profiles are listed; the list never shrinks |
| Reconciler.Fresh | src/cli.ts:61-67 | the batch orders that `find` misses among the stored entries, in batch order; never more than the batch |
| Reconciler.FreshIds | src/cli.ts:61-67 | the fresh orders carry exactly the batch ids that were not stored before |
| Reconciler.IndexOfConcat | src/cli.ts:61-63 | `find` over a list with entries appended finds an id of the first part there, and an id of the second part only after the first |
| Reconciler.MergeOneConcat | src/cli.ts:61-68 | a turn for a stored id leaves the appended part alone; a turn for any other id acts on the appended part only |
| Reconciler.MergeAllKeepsIds | src/cli.ts:60-69 | every stored entry keeps its position and its id through the loop |
| Reconciler.MergeAllSuffix | src/cli.ts:60-69 | the loop appends exactly the batch orders with unseen ids, folded as into an empty list: in order of first appearance, each overlaid with the later orders with its id |
| Reconciler.FreshReversed | src/cli.ts:60 | picking the fresh orders and reversing the list can be done in either order |
| Reconciler.ReconcileSuffix | src/cli.ts:60-69 | an update, whatever stored ids the fetched list repeats, appends its fresh orders reversed, each overlaid with any other fetched order with its id |
| Reconciler.ReconcileAppended | src/cli.ts:60-69 | when the fresh orders have distinct ids, an update appends exactly them, oldest first, and the length grows by their number |
| Reconciler.ReconcileUntouched | src/cli.ts:60-69 | an entry whose id is not fetched is left exactly as it was |
| Reconciler.IndexOf | src/cli.ts:61-63 | the position found holds the id and no earlier position does; none means no position holds it |
| Reconciler.Updates | src/cli.ts:64-65 | what a batch overlays onto an id is empty exactly when no batch order carries the id, and otherwise carries that id |
| Reconciler.MergeOneSpec | src/cli.ts:61-68 | one step overlays the entry with the same id in place and leaves every other entry alone, or appends an unseen order; ids stay unique |
| Reconciler.MergeOneIds | src/cli.ts:61-68 | one step keeps ids unique, adds the order's id, and grows the list by one exactly when the id was unseen |
| Reconciler.MergeAllIds | src/cli.ts:60-69 | after the loop, ids are unique and are the stored ids plus the batch ids |
| Reconciler.MergeAllGrowth | src/cli.ts:60-69 | the list grows by the number of distinct batch ids not already stored |
| Reconciler.MergeAllExisting | src/cli.ts:60-69 | each stored entry stays at its index, overlaid with the union of the batch orders with its id, later ones winning |
| Reconciler.MergeAllAbsorbs | src/cli.ts:60-69 | after the loop, every entry already carries every property the batch would copy onto it |
| Reconciler.AbsorbsSnoc | src/cli.ts:61-68 | one more step keeps every entry carrying all the updates of the batch so far |
| Reconciler.MergeAllIdempotent | src/cli.ts:60-69 | folding the same batch a second time changes nothing |
| Reconciler.ReconcileIdempotent | src/cli.ts:60-69 | re-running `update` with an unchanged fetched list leaves the store unchanged |
| Reconciler.ReconcileUnique | src/cli.ts:60-69 | ids stay unique and become the stored ids plus the fetched ids |
| Reconciler.IdsReversed | src/cli.ts:60 | reversing a list leaves its set of ids unchanged |
| Reconciler.ReconcileGrowth | src/cli.ts:60-69 | one profile's update grows the list by the number of distinct fetched ids not already stored |
| Reconciler.ReconcileAllUnique | src/cli.ts:46-69 | ids stay unique across every profile's update |
| Reconciler.MergeAllFresh | src/cli.ts:60-69 | a batch of unseen, distinct ids is appended as is |
| Reconciler.ReconcileFresh | src/cli.ts:60-69 | a fresh fetched list is appended reversed, so oldest first when the service lists newest first |
| Reconciler.ExampleAppendOrder | src/cli.ts:60-69 | fetched [o3, o2, o1] merged into an empty store gives [o1, o2, o3] |
| Reconciler.ReconcileSingle | src/cli.ts:60-69 | reconciling a fetched list of one order is a single step of the loop |
| Reconciler.ExampleShallowOverlay | src/cli.ts:65 | {id 1, a 1, b {x 1}} overlaid by {id 1, b {y 2}} gives {id 1, a 1, b {y 2}} |
| Reconciler.ReconcileKeepsPositions | src/cli.ts:60-69 | existing entries keep their index and id; entries whose id is not fetched are untouched; the length grows by the unseen ids |
| Reconciler.UpdatesSingle | src/cli.ts:64-65 | when one batch order alone carries an id, it is exactly what is copied onto that id |
| Reconciler.ReconcileOverlay | src/cli.ts:64-65 | `Object.assign` is shallow and right-biased: the new entry has the union of the keys; fetched values win (a nested `cart` is replaced whole); keys the fetched order lacks keep their value |
| ShelfLife.MatchAt | src/cli.ts:118 | one attempt of the expression at a position, taking maximal runs; both captured groups are non-empty |
| ShelfLife.Search | src/cli.ts:118 | positions tried from the start onwards; a position returned lies at or after the start, and both groups are non-empty |
| ShelfLife.Exec | src/cli.ts:118 | `regex.exec(item.description)`: a match lies within the text and has non-empty groups (its exactness: `ExecCorrect`, `ExecNone`) |
| ShelfLife.Pattern.Map | src/cli.ts:107-111 | an entry's `map` uses each capture group once, as count or as unit |
| ShelfLife.FirstHit | src/cli.ts:117-125 | the pattern loop with `break`: nothing exactly when no entry's expression matches; a found count and unit are non-empty |
| ShelfLife.Lower | src/cli.ts:129 | `toLowerCase` character by character, keeping the length |
| ShelfLife.Extract | src/cli.ts:104-131 | the outcome for a description: a found count and unit are non-empty, and Unknown only when the lower-cased text contains "срок хранения" |
| ShelfLife.PatternsDeterministic | src/cli.ts:106-110 | in both expressions the separator cannot continue the first run and `.` cannot continue the second, so `ExecCorrect` applies to them |
| ShelfLife.RunMaximal | src/cli.ts:106 | a `+` character class consumes a maximal run: every character in the class, the next one not |
| ShelfLife.RunExact | src/cli.ts:106 | a stretch of the class that the class does not continue is exactly the run the matcher takes |
| ShelfLife.RunAllIn | src/cli.ts:106 | the run taken is a word of its class, as a capture group must be |
| ShelfLife.MatchAtSound | src/cli.ts:118 | a match the matcher returns at a position is a match by the template's meaning |
| ShelfLife.MatchAtComplete | src/cli.ts:118 | every match at a position is the one the matcher returns there |
| ShelfLife.MatchAtCorrect | src/cli.ts:118 | the matcher returns a match at a position exactly when it is a match there |
| ShelfLife.SearchFirst | src/cli.ts:118 | the search returns the first position from its start where a match exists, or reports that none exists |
| ShelfLife.SearchFound | src/cli.ts:118 | a position the search returns is one at or after its start where the matcher succeeds |
| ShelfLife.SearchSkips | src/cli.ts:118 | every position the search passes over is one where the matcher fails |
| ShelfLife.ExecCorrect | src/cli.ts:118 | `exec` returns a match exactly when it is the leftmost match |
| ShelfLife.ExecNone | src/cli.ts:118-120 | `exec` returns nothing exactly when no position and no groups match |
| ShelfLife.TableOrder | src/cli.ts:117-125 | template A is tried first and template B only when A does not match |
| ShelfLife.ExtractTemplateA | src/cli.ts:106-107 | when template A matches, count is group 2 and unit is group 1 of its leftmost match |
| ShelfLife.ExtractTemplateB | src/cli.ts:110-111 | when A does not match and B does, count is group 1 and unit is group 2 of B's leftmost match |
| ShelfLife.ExtractUnknown | src/cli.ts:127-131 | the outcome is Unknown exactly when neither template matches and the lower-cased text contains "срок хранения" |
| ShelfLife.FoundWellFormed | src/cli.ts:104-113 | a found count is a non-empty run of digits and a found unit a non-empty word of Cyrillic letters |
| ShelfLife.MatchHasMarker | src/cli.ts:127-129 | a text either template matches contains the lower-case marker phrase once lower-cased |
| ShelfLife.NoMatchIffNoMarker | src/cli.ts:127-131 | an item contributes nothing exactly when its lower-cased description lacks the marker phrase |
| ShelfLife.MarkerMismatch | src/cli.ts:106 | no match at a position where the marker is misspelt |
| ShelfLife.MatchesShift | src/cli.ts:118 | whether a match starts where a prefix ends does not depend on the prefix |
| ShelfLife.ExampleTemplateA | src/cli.ts:106-107 | "Состав: вода. Срок хранения, дней: 10." gives count "10", unit "дней" |
| ShelfLife.ExampleTemplateB | src/cli.ts:110-111 | "Срок хранения: 5 суток." gives count "5", unit "суток" |
| ShelfLife.ExampleUnknown | src/cli.ts:129-130 | "Срок хранения не указан" gives Unknown |
| ShelfLife.ExampleNoMatch | src/cli.ts:127-131 | "Вода питьевая" gives nothing |
| Analytics.PriceSum | src/cli.ts:86-88 | the `forEach` over one order's items adds up their prices; never negative when no price is |
| Analytics.TotalSpend | src/cli.ts:84-89 | the outer loop adds up every order's item prices; never negative when no price is |
| Analytics.Summary | src/cli.ts:81-96 | the summary line: none exactly for an empty list, otherwise it counts every order |
| Analytics.PriceSumConcat | src/cli.ts:86-88 | the price sum of joined price lists is the sum of their sums |
| Analytics.TotalSpendConcat | src/cli.ts:84-89 | the spend of joined order lists is the sum of their spends |
| Analytics.TotalSpendReversed | src/cli.ts:84-89 | the spend does not depend on the order of the list |
| Analytics.MergeAllShaped | src/cli.ts:60-69 | `Object.assign` takes `cart` from the fetched order, so merging orders of the shape a statistic reads gives a list of that shape |
| Analytics.ReconcileShaped | src/cli.ts:60-69 | one profile's update keeps the shapes both statistics read |
| Analytics.ReconcileLast | src/cli.ts:60-95 | after any update whose new orders have distinct ids, the count grows by their number and the last `created_at` is that of the newest new order |
| Analytics.ReconcileFreshSpend | src/cli.ts:60-96 | merging unseen orders adds exactly their spend and their count, and the last `created_at` becomes that of the first order in the fetched list |
| Analytics.AppendReversedSpend | src/cli.ts:84-95 | appending a reversed list adds its spend and its length, and its first element becomes the last entry |
| Analytics.ExampleSpend | src/cli.ts:81-96 | items priced [100, 250] and [50] give total 400 over 2 orders |
| Analytics.ItemLine | src/cli.ts:115-131 | an item gives a line exactly when its lower-cased description contains "срок хранения" |
| Analytics.OrderLines | src/cli.ts:102-133 | the lines of one order, in item order, at most one per item |
| Analytics.OrderBlock | src/cli.ts:134-136 | an order prints a block exactly when one of its items mentions the marker phrase, and a block has a line |
| Analytics.ExpirationReport | src/cli.ts:98-137 | one block per order with lines, in list order: at most one block per order, none without a line |
| Analytics.ItemLineTemplateA | src/cli.ts:106-107 | a template A match gives "name - group2 group1" |
| Analytics.ItemLineTemplateB | src/cli.ts:110-111 | with no A match, a template B match gives "name - group1 group2" |
| Analytics.ItemLineUnknown | src/cli.ts:129-130 | no match but the marker present gives "unknown expiration pattern: " followed by the description |
| Analytics.OrderLinesConcat | src/cli.ts:103-132 | lines follow item order: the lines of joined item lists are the lines of each part in turn |
| Analytics.OrderLinesEmpty | src/cli.ts:134 | an order has no lines, hence no block, exactly when none of its items mentions the marker phrase |
| Analytics.ReportConcat | src/cli.ts:101-137 | blocks follow list order: the report of joined lists is the report of each part in turn |

## Left out

- Browser automation is not modelled, so each profile's fetched order list is a parameter of `Update`. This covers `login`, launching the browser, `fetch('/api/v1/orders')` and `browser.close()`.
- Files are not modelled. Reading `data.json` becomes the constructor's parameter. Writing `data.json` and `data-<profile>.json` is left out; after each profile the written document is the state that `MergeFetched` leaves.
- Command dispatch (`main`, `process.argv`, the usage message and `process.exit`) is left out.
- The two statistics return their values instead of printing them. `console.log`, the formatting of numbers, and `new Date(...)` applied to `cart.updated_at` are left out; a block keeps the raw `updated_at`.
- `async`/`await` is left out. The program runs the profiles one after another and nothing runs concurrently.
- JSON numbers and prices are integers. The program adds prices as floating-point numbers, so rounding is not modelled.
- Json.JsonText: writes a number in plain decimal. JavaScript writes numbers from 10^21 upwards in exponent notation.
- Ids are compared by value. JavaScript `===` compares numbers and strings by value, as here, but object or array ids by reference. Under `===`, two such ids that print the same would count as different orders.
- Aliasing is not modelled. `push` stores the fetched object itself, so a later `Object.assign` onto it also changes the element of the fetched array; nothing reads that array afterwards.
- Every order must carry `id` (the type `Orders.Order`). The program has no guard for a missing `id`: such orders would all share the id `undefined`. The model does not represent orders without an id.
- Cli.PersistedData.StatsTotalSum: requires every order to have the shape `statsTotalSum` reads (`Orders.SpendShaped`): `cart.items` is an array of objects, each with a number `price`. Other shapes are not modelled. Without `cart` or an array `items` the program throws a `TypeError`. A `null` item throws too. For other prices, `+=` coerces: `true`, `false` and `null` add as 1, 0 and 0; a string, array or object price turns the total into a string; a missing price or a non-object item makes it `NaN`.
- Cli.PersistedData.StatsExpiration: requires every order to have the shape `statsExpiration` reads (`Orders.ReportShaped`): `cart.items` is an array of objects, each with a string `description`. `name` may be any value or absent; it is written as the template literal writes it (`Json.Text`). Other shapes are not modelled. Without `cart` or an array `items` the program throws a `TypeError`. A `null` item throws a `TypeError` at `item.description`. For any other non-object item or a non-string description, `exec` matches the value's string form; if no expression matches, `toLowerCase` throws a `TypeError`.
- Cli.PersistedData.Stats: requires both shapes, since `stats` runs both statistics.
- Cli.PersistedData.StatsTotalSum: for an empty list the program throws a `TypeError` on `orders[0].created_at` after adding the prices. The model returns `None` and does not model the exception.
- ShelfLife.LowerChar: lower-cases only ASCII `A`–`Z` and the Cyrillic capitals U+0400–U+042F. `String.prototype.toLowerCase` covers all of Unicode. Only these Cyrillic capitals lower-case to letters of "срок хранения", so the restriction does not change whether the phrase is found.
- Regular expressions in general are not modelled, only the one shape both expressions share. `[\d]` is ASCII digits. `[а-яА-Я]` is the range U+0410–U+044F, which leaves out `ё` and `Ё`, as the program does.
- Strings are sequences of Unicode characters rather than UTF-16 code units. All text the expressions match lies in the Basic Multilingual Plane, so this does not change the results.
