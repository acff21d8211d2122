/**
 * The pricing algorithms both repositories run, stated once over the
 * inventory lines in storage order: the first-match lookup, the stocking
 * upsert, the cheapest-offer scan, the total cost of a purchase, the
 * cheapest market for a batch, the affordability query and the effect of a
 * completed purchase. Each algorithm is written as the left fold its loop
 * computes; the lemmas say what the fold means.
 */
module Pricing {
  import opened Wrappers
  import opened Entities

  // ---------------------------------------------------------------------
  // Keys and lookups
  // ---------------------------------------------------------------------

  predicate IsLine(l: ProductInMarket, marketId: Guid, productName: string) {
    l.marketId == marketId && l.productName == productName
  }

  /** The composite key (MarketId, ProductName): at most one line per pair. */
  ghost predicate UniqueKeys(lines: seq<ProductInMarket>) {
    forall i, j {:trigger IsLine(lines[j], lines[i].marketId, lines[i].productName)} :: 0 <= i < j < |lines| ==> !IsLine(lines[j], lines[i].marketId, lines[i].productName)
  }

  /** Both sequences hold the same keys at the same positions. */
  ghost predicate SameKeys(a: seq<ProductInMarket>, b: seq<ProductInMarket>) {
    |a| == |b| &&
    forall j :: 0 <= j < |a| ==> a[j].marketId == b[j].marketId && a[j].productName == b[j].productName
  }

  /** `FirstOrDefault(i => i.MarketId == marketId && i.ProductName == productName)`, as an index. */
  function FindLine(lines: seq<ProductInMarket>, marketId: Guid, productName: string): (r: Option<nat>)
    ensures r.Some? ==> r.value < |lines| && IsLine(lines[r.value], marketId, productName)
    ensures r.Some? ==> forall j :: 0 <= j < r.value ==> !IsLine(lines[j], marketId, productName)
    ensures r.None? ==> forall j :: 0 <= j < |lines| ==> !IsLine(lines[j], marketId, productName)
  {
    if |lines| == 0 then None
    else if IsLine(lines[0], marketId, productName) then Some(0)
    else
      match FindLine(lines[1..], marketId, productName)
      case None => None
      case Some(i) => Some(i + 1)
  }

  /** Under the composite key, the line with that key is the one found. */
  lemma {:induction false} FindLineUnique(lines: seq<ProductInMarket>, j: nat)
    requires UniqueKeys(lines) && j < |lines|
    ensures FindLine(lines, lines[j].marketId, lines[j].productName) == Some(j)
  {
    var r := FindLine(lines, lines[j].marketId, lines[j].productName);
    if r.Some? && r.value < j {
      assert false;
    }
  }

  /** Sequences with the same keys in the same positions find every key at the same index. */
  lemma {:induction false} SameKeysFindLine(a: seq<ProductInMarket>, b: seq<ProductInMarket>, marketId: Guid, productName: string)
    requires SameKeys(a, b)
    ensures FindLine(a, marketId, productName) == FindLine(b, marketId, productName)
  {
    var fa, fb := FindLine(a, marketId, productName), FindLine(b, marketId, productName);
    if fa.Some? {
      assert IsLine(b[fa.value], marketId, productName);
    }
    if fb.Some? {
      assert IsLine(a[fb.value], marketId, productName);
    }
  }

  /** The line stored under a key, if any. */
  function LineAt(lines: seq<ProductInMarket>, marketId: Guid, productName: string): (r: Option<ProductInMarket>)
    ensures r.Some? ==> IsLine(r.value, marketId, productName) && r.value in lines
    ensures r.None? <==> forall j :: 0 <= j < |lines| ==> !IsLine(lines[j], marketId, productName)
  {
    match FindLine(lines, marketId, productName)
    case Some(i) => Some(lines[i])
    case None => None
  }

  /** `Markets.FindAsync(id)` / the first market row with that id, as an index. */
  function FindMarket(markets: seq<Market>, id: Guid): (r: Option<nat>)
    ensures r.Some? ==> r.value < |markets| && markets[r.value].id == id
    ensures r.Some? ==> forall j :: 0 <= j < r.value ==> markets[j].id != id
    ensures r.None? ==> forall j :: 0 <= j < |markets| ==> markets[j].id != id
  {
    if |markets| == 0 then None
    else if markets[0].id == id then Some(0)
    else
      match FindMarket(markets[1..], id)
      case None => None
      case Some(i) => Some(i + 1)
  }

  /** Appending a market leaves earlier ids where they were and makes a new id findable at the end. */
  lemma {:induction false} FindMarketAppend(markets: seq<Market>, m: Market, id: Guid)
    ensures FindMarket(markets + [m], id) ==
      if FindMarket(markets, id).Some? then FindMarket(markets, id)
      else if m.id == id then Some(|markets|) else None
  {
    var all := markets + [m];
    var r := FindMarket(all, id);
    var found := FindMarket(markets, id);
    assert forall j :: 0 <= j < |markets| ==> all[j] == markets[j];
    if found.Some? {
      assert all[found.value].id == id;
      assert r.Some? && r.value <= found.value;
      assert !(r.value < found.value);
    } else if m.id == id {
      assert all[|markets|].id == id;
      assert r.Some?;
    } else {
      assert forall j :: 0 <= j < |all| ==> all[j].id != id;
    }
  }

  ghost predicate UniqueIds(markets: seq<Market>) {
    forall i, j :: 0 <= i < j < |markets| ==> markets[i].id != markets[j].id
  }

  function Names(products: seq<Product>): seq<string>
  {
    seq(|products|, k requires 0 <= k < |products| => products[k].name)
  }

  ghost predicate UniqueNames(products: seq<Product>) {
    forall i, j :: 0 <= i < j < |products| ==> products[i].name != products[j].name
  }

  // ---------------------------------------------------------------------
  // Stocking: the upsert of AddProductInMarketAsync
  // ---------------------------------------------------------------------

  /**
   * Stock `amount` more units of `productName` at `marketId`: an existing line
   * gets `Amount += amount` (32-bit) and the price only when `price > 0`; an
   * absent key gets a new line at the end.
   */
  function Upsert(lines: seq<ProductInMarket>, marketId: Guid, productName: string, amount: Int32, price: Money)
    : seq<ProductInMarket>
  {
    match FindLine(lines, marketId, productName)
    case Some(i) => lines[i := Restock(lines[i], amount, price)]
    case None => lines + [ProductInMarket(marketId, productName, amount, price)]
  }

  /** An existing line after stocking: `Amount += amount`, and the price replaced only when positive. */
  function Restock(l: ProductInMarket, amount: Int32, price: Money): ProductInMarket {
    l.(amount := Wrap32(l.amount + amount), price := if price > 0 then price else l.price)
  }

  /** On a key that is present, the upsert rewrites that one line in place. */
  lemma {:induction false} UpsertExistingIsUpdate(lines: seq<ProductInMarket>, i: nat, amount: Int32, price: Money)
    requires i < |lines|
    requires FindLine(lines, lines[i].marketId, lines[i].productName) == Some(i)
    ensures Upsert(lines, lines[i].marketId, lines[i].productName, amount, price) ==
            lines[i := Restock(lines[i], amount, price)]
  {
  }

  /** The upsert keeps the composite key unique. */
  lemma {:induction false} UpsertKeepsUniqueKeys(lines: seq<ProductInMarket>, marketId: Guid, productName: string, amount: Int32,
                              price: Money)
    requires UniqueKeys(lines)
    ensures UniqueKeys(Upsert(lines, marketId, productName, amount, price))
  {
    var r := Upsert(lines, marketId, productName, amount, price);
    if FindLine(lines, marketId, productName).Some? {
      assert SameKeys(r, lines);
    } else {
      assert r[..|lines|] == lines;
    }
  }

  /** Every line after the upsert carries either the stocked name or the name it had before. */
  lemma {:induction false} UpsertProductNames(lines: seq<ProductInMarket>, marketId: Guid, productName: string, amount: Int32,
                           price: Money)
    ensures var r := Upsert(lines, marketId, productName, amount, price);
      forall k :: 0 <= k < |r| ==> r[k].productName == productName || (k < |lines| && r[k].productName == lines[k].productName)
  {
  }

  /** On keys, the upsert behaves like a dictionary update of one entry. */
  lemma {:induction false} UpsertLineAt(lines: seq<ProductInMarket>, marketId: Guid, productName: string, amount: Int32, price: Money,
                     otherMarket: Guid, otherProduct: string)
    ensures LineAt(Upsert(lines, marketId, productName, amount, price), otherMarket, otherProduct) ==
      if otherMarket == marketId && otherProduct == productName then
        if LineAt(lines, marketId, productName).Some? then
          var old_ := LineAt(lines, marketId, productName).value;
          Some(ProductInMarket(marketId, productName, Wrap32(old_.amount + amount),
                               if price > 0 then price else old_.price))
        else Some(ProductInMarket(marketId, productName, amount, price))
      else LineAt(lines, otherMarket, otherProduct)
  {
    var found := FindLine(lines, marketId, productName);
    if found.Some? {
      var i := found.value;
      UpsertExistingIsUpdate(lines, i, amount, price);
      UpsertExistingFind(lines, marketId, productName, amount, price, otherMarket, otherProduct);
      var r := lines[i := Restock(lines[i], amount, price)];
      var j := FindLine(lines, otherMarket, otherProduct);
      if otherMarket == marketId && otherProduct == productName {
        assert r[i] == ProductInMarket(marketId, productName, Wrap32(lines[i].amount + amount),
                                       if price > 0 then price else lines[i].price);
      } else if j.Some? {
        assert j.value != i && r[j.value] == lines[j.value];
      }
    } else {
      UpsertAbsentFind(lines, marketId, productName, amount, price, otherMarket, otherProduct);
    }
  }

  lemma {:induction false} UpsertExistingFind(lines: seq<ProductInMarket>, marketId: Guid, productName: string, amount: Int32,
                           price: Money, otherMarket: Guid, otherProduct: string)
    requires FindLine(lines, marketId, productName).Some?
    ensures FindLine(Upsert(lines, marketId, productName, amount, price), otherMarket, otherProduct)
         == FindLine(lines, otherMarket, otherProduct)
  {
    var r := Upsert(lines, marketId, productName, amount, price);
    assert SameKeys(r, lines);
    var a, b := FindLine(r, otherMarket, otherProduct), FindLine(lines, otherMarket, otherProduct);
    if a.Some? && b.Some? && b.value < a.value {
      assert IsLine(r[b.value], otherMarket, otherProduct);
    } else if b.Some? {
      assert IsLine(r[b.value], otherMarket, otherProduct);
    }
  }

  lemma {:induction false} UpsertAbsentFind(lines: seq<ProductInMarket>, marketId: Guid, productName: string, amount: Int32,
                         price: Money, otherMarket: Guid, otherProduct: string)
    requires FindLine(lines, marketId, productName).None?
    ensures FindLine(Upsert(lines, marketId, productName, amount, price), otherMarket, otherProduct)
         == if otherMarket == marketId && otherProduct == productName then Some(|lines|)
            else FindLine(lines, otherMarket, otherProduct)
  {
    var r := Upsert(lines, marketId, productName, amount, price);
    assert r == lines + [ProductInMarket(marketId, productName, amount, price)];
    assert forall j :: 0 <= j < |lines| ==> r[j] == lines[j];
    var a, b := FindLine(r, otherMarket, otherProduct), FindLine(lines, otherMarket, otherProduct);
    if otherMarket == marketId && otherProduct == productName {
      assert IsLine(r[|lines|], otherMarket, otherProduct);
    } else if b.Some? {
      assert IsLine(r[b.value], otherMarket, otherProduct);
    }
  }

  /**
   * Stocking a new pair twice, first at a positive price: the amounts add up
   * and the second price wins only when it is positive.
   */
  lemma {:induction false} StockTwice(lines: seq<ProductInMarket>, marketId: Guid, productName: string,
                   a1: Int32, p1: Money, a2: Int32, p2: Money)
    requires UniqueKeys(lines)
    requires LineAt(lines, marketId, productName).None?
    requires p1 > 0
    ensures LineAt(Upsert(Upsert(lines, marketId, productName, a1, p1), marketId, productName, a2, p2),
                   marketId, productName)
         == Some(ProductInMarket(marketId, productName, Wrap32(a1 + a2), if p2 > 0 then p2 else p1))
  {
    UpsertLineAt(lines, marketId, productName, a1, p1, marketId, productName);
    UpsertKeepsUniqueKeys(lines, marketId, productName, a1, p1);
    var once := Upsert(lines, marketId, productName, a1, p1);
    UpsertLineAt(once, marketId, productName, a2, p2, marketId, productName);
  }

  // ---------------------------------------------------------------------
  // The first strict minimum: both "cheapest" scans
  // ---------------------------------------------------------------------

  /**
   * The scan `if (best is set && value >= best) continue; best := value`,
   * over candidates that are either absent or carry a value.
   */
  function FirstMin(costs: seq<Option<int>>): (r: Option<nat>)
    ensures r.Some? ==> r.value < |costs| && costs[r.value].Some?
  {
    if |costs| == 0 then None
    else
      var k := |costs| - 1;
      var best := FirstMin(costs[..k]);
      if costs[k].Some? && (best.None? || costs[k].value < costs[best.value].value) then Some(k) else best
  }

  /** One more candidate: it becomes the best exactly when it is strictly below the best so far. */
  lemma {:induction false} FirstMinStep(costs: seq<Option<int>>, k: nat)
    requires k < |costs|
    ensures FirstMin(costs[..k + 1]) ==
      var best := FirstMin(costs[..k]);
      if costs[k].Some? && (best.None? || costs[k].value < costs[best.value].value) then Some(k) else best
  {
    assert costs[..k + 1][..k] == costs[..k];
  }

  /** Position `i` holds a least value, and no earlier position holds that value. */
  ghost predicate IsFirstMin(costs: seq<Option<int>>, i: nat) {
    i < |costs| && costs[i].Some? &&
    (forall j :: 0 <= j < |costs| && costs[j].Some? ==> costs[i].value <= costs[j].value) &&
    (forall j :: 0 <= j < i && costs[j].Some? ==> costs[i].value < costs[j].value)
  }

  /** The scan finds the earliest least candidate, and nothing exactly when there is no candidate. */
  lemma {:induction false} FirstMinMeaning(costs: seq<Option<int>>)
    ensures FirstMin(costs).None? <==> forall j :: 0 <= j < |costs| ==> costs[j].None?
    ensures FirstMin(costs).Some? ==> IsFirstMin(costs, FirstMin(costs).value)
  {
    if |costs| > 0 {
      var k := |costs| - 1;
      var prefix := costs[..k];
      FirstMinMeaning(prefix);
      assert forall j :: 0 <= j < k ==> prefix[j] == costs[j];
    }
  }

  // ---------------------------------------------------------------------
  // Cheapest market for one product
  // ---------------------------------------------------------------------

  /** A line that sells the product and has stock left. */
  predicate InStock(l: ProductInMarket, productName: string) {
    l.productName == productName && l.amount > 0
  }

  /** The price each line offers for the product, or nothing. */
  function Offers(lines: seq<ProductInMarket>, productName: string): seq<Option<int>>
  {
    seq(|lines|, j requires 0 <= j < |lines| => if InStock(lines[j], productName) then Some(lines[j].price) else None)
  }

  /** The line of the cheapest offer: the first of the least-priced lines in stock. */
  function Cheapest(lines: seq<ProductInMarket>, productName: string): Option<nat> {
    FirstMin(Offers(lines, productName))
  }

  lemma {:induction false} CheapestMeaning(lines: seq<ProductInMarket>, productName: string)
    ensures Cheapest(lines, productName).None? <==>
      forall j :: 0 <= j < |lines| ==> !InStock(lines[j], productName)
    ensures Cheapest(lines, productName).Some? ==>
      var i := Cheapest(lines, productName).value;
      i < |lines| && InStock(lines[i], productName) &&
      (forall j :: 0 <= j < |lines| && InStock(lines[j], productName) ==> lines[i].price <= lines[j].price) &&
      (forall j :: 0 <= j < i && InStock(lines[j], productName) ==> lines[i].price < lines[j].price)
  {
    var offers := Offers(lines, productName);
    assert |offers| == |lines|;
    assert forall j :: 0 <= j < |lines| ==> offers[j] == if InStock(lines[j], productName) then Some(lines[j].price) else None;
    FirstMinMeaning(offers);
    if Cheapest(lines, productName).None? {
      forall j | 0 <= j < |lines| ensures !InStock(lines[j], productName) {
        assert offers[j].None?;
      }
    }
  }

  // ---------------------------------------------------------------------
  // Total cost of a purchase at one market
  // ---------------------------------------------------------------------

  /** The market holds a line for the item with at least the requested amount. */
  predicate Covers(lines: seq<ProductInMarket>, marketId: Guid, item: Item) {
    match FindLine(lines, marketId, item.productName)
    case None => false
    case Some(i) => lines[i].amount >= item.amount
  }

  /** `CalculateTotalPriceAsync`: null on the first missing or short line, else the running sum. */
  function TotalCost(lines: seq<ProductInMarket>, marketId: Guid, items: seq<Item>): Option<Money>
    decreases |items|
  {
    if |items| == 0 then Some(0)
    else
      var k := |items| - 1;
      match TotalCost(lines, marketId, items[..k])
      case None => None
      case Some(t) =>
        match FindLine(lines, marketId, items[k].productName)
        case None => None
        case Some(i) => if lines[i].amount < items[k].amount then None else Some(t + lines[i].price * items[k].amount)
  }

  /** Once the running total is null on a prefix, the remaining items do not change it. */
  lemma {:induction false} TotalCostStaysNone(lines: seq<ProductInMarket>, marketId: Guid, items: seq<Item>, n: nat)
    requires n <= |items|
    requires TotalCost(lines, marketId, items[..n]).None?
    ensures TotalCost(lines, marketId, items).None?
    decreases |items|
  {
    if n == |items| {
      assert items[..n] == items;
    } else {
      var k := |items| - 1;
      assert items[..k][..n] == items[..n];
      TotalCostStaysNone(lines, marketId, items[..k], n);
    }
  }

  /** A covered next item adds its price times amount to the running total. */
  lemma {:induction false} TotalCostExtend(lines: seq<ProductInMarket>, marketId: Guid, items: seq<Item>, k: nat,
                                           t: Money, i: nat)
    requires k < |items| && TotalCost(lines, marketId, items[..k]) == Some(t)
    requires FindLine(lines, marketId, items[k].productName) == Some(i) && lines[i].amount >= items[k].amount
    ensures TotalCost(lines, marketId, items[..k + 1]) == Some(t + lines[i].price * items[k].amount)
  {
    assert items[..k + 1][..k] == items[..k];
  }

  /** A next item without a line, or with too little stock, makes the running total null. */
  lemma {:induction false} TotalCostShort(lines: seq<ProductInMarket>, marketId: Guid, items: seq<Item>, k: nat)
    requires k < |items|
    requires !Covers(lines, marketId, items[k])
    ensures TotalCost(lines, marketId, items[..k + 1]).None?
  {
    assert items[..k + 1][..k] == items[..k];
  }

  ghost predicate CanFulfil(lines: seq<ProductInMarket>, marketId: Guid, items: seq<Item>) {
    forall k :: 0 <= k < |items| ==> Covers(lines, marketId, items[k])
  }

  /** Price times requested amount for one covered item. */
  function ItemCost(lines: seq<ProductInMarket>, marketId: Guid, item: Item): Money
    requires Covers(lines, marketId, item)
  {
    lines[FindLine(lines, marketId, item.productName).value].price * item.amount
  }

  /** The sum of the item costs, taken from the front. */
  ghost function BatchSum(lines: seq<ProductInMarket>, marketId: Guid, items: seq<Item>): Money
    requires CanFulfil(lines, marketId, items)
    decreases |items|
  {
    if |items| == 0 then 0
    else ItemCost(lines, marketId, items[0]) + BatchSum(lines, marketId, items[1..])
  }

  lemma {:induction false} BatchSumSnoc(lines: seq<ProductInMarket>, marketId: Guid, items: seq<Item>)
    requires |items| > 0 && CanFulfil(lines, marketId, items)
    ensures CanFulfil(lines, marketId, items[..|items| - 1])
    ensures BatchSum(lines, marketId, items) ==
      BatchSum(lines, marketId, items[..|items| - 1]) + ItemCost(lines, marketId, items[|items| - 1])
    decreases |items|
  {
    var k := |items| - 1;
    assert forall j :: 0 <= j < k ==> items[..k][j] == items[j];
    if k > 0 {
      var tail := items[1..];
      assert forall j :: 0 <= j < |tail| ==> tail[j] == items[j + 1];
      BatchSumSnoc(lines, marketId, tail);
      assert tail[..|tail| - 1] == items[..k][1..];
    }
  }

  /** When every item is covered, the running total is the sum of price times requested amount. */
  lemma {:induction false} TotalCostSum(lines: seq<ProductInMarket>, marketId: Guid, items: seq<Item>)
    requires CanFulfil(lines, marketId, items)
    ensures TotalCost(lines, marketId, items) == Some(BatchSum(lines, marketId, items))
    decreases |items|
  {
    if |items| > 0 {
      var k := |items| - 1;
      var prefix := items[..k];
      BatchSumSnoc(lines, marketId, items);
      TotalCostSum(lines, marketId, prefix);
      var i := FindLine(lines, marketId, items[k].productName).value;
      TotalCostExtend(lines, marketId, items, k, BatchSum(lines, marketId, prefix), i);
      assert items[..k + 1] == items;
    }
  }

  /** A defined total means every item was covered. */
  lemma {:induction false} TotalCostCovers(lines: seq<ProductInMarket>, marketId: Guid, items: seq<Item>)
    requires TotalCost(lines, marketId, items).Some?
    ensures CanFulfil(lines, marketId, items)
    decreases |items|
  {
    if |items| > 0 {
      var k := |items| - 1;
      var prefix := items[..k];
      TotalCostCovers(lines, marketId, prefix);
      assert Covers(lines, marketId, items[k]);
      assert forall j :: 0 <= j < k ==> prefix[j] == items[j];
    }
  }

  /**
   * The total is defined exactly when every item is covered at the market,
   * and then it is the sum of price times requested amount.
   */
  lemma {:induction false} TotalCostMeaning(lines: seq<ProductInMarket>, marketId: Guid, items: seq<Item>)
    ensures TotalCost(lines, marketId, items).Some? <==> CanFulfil(lines, marketId, items)
    ensures CanFulfil(lines, marketId, items) ==>
      TotalCost(lines, marketId, items) == Some(BatchSum(lines, marketId, items))
  {
    if CanFulfil(lines, marketId, items) {
      TotalCostSum(lines, marketId, items);
    }
    if TotalCost(lines, marketId, items).Some? {
      TotalCostCovers(lines, marketId, items);
    }
  }

  // ---------------------------------------------------------------------
  // Cheapest market for a batch
  // ---------------------------------------------------------------------

  /** The total cost of the batch at each market, in enumeration order. */
  function Costs(markets: seq<Market>, lines: seq<ProductInMarket>, items: seq<Item>): seq<Option<int>>
  {
    seq(|markets|, k requires 0 <= k < |markets| => TotalCost(lines, markets[k].id, items))
  }

  /** `FindMarketWithCheapestBatchPriceAsync`: the first market with the strictly lowest defined total. */
  function BestMarket(markets: seq<Market>, lines: seq<ProductInMarket>, items: seq<Item>): Option<nat> {
    FirstMin(Costs(markets, lines, items))
  }

  lemma {:induction false} BestMarketMeaning(markets: seq<Market>, lines: seq<ProductInMarket>, items: seq<Item>)
    ensures BestMarket(markets, lines, items).None? <==>
      forall k :: 0 <= k < |markets| ==> !CanFulfil(lines, markets[k].id, items)
    ensures BestMarket(markets, lines, items).Some? ==>
      var i := BestMarket(markets, lines, items).value;
      i < |markets| && CanFulfil(lines, markets[i].id, items) &&
      (forall k :: 0 <= k < |markets| && CanFulfil(lines, markets[k].id, items) ==>
         BatchSum(lines, markets[i].id, items) <= BatchSum(lines, markets[k].id, items)) &&
      (forall k :: 0 <= k < i && CanFulfil(lines, markets[k].id, items) ==>
         BatchSum(lines, markets[i].id, items) < BatchSum(lines, markets[k].id, items))
  {
    var costs := Costs(markets, lines, items);
    FirstMinMeaning(costs);
    forall k | 0 <= k < |markets|
      ensures costs[k].Some? <==> CanFulfil(lines, markets[k].id, items)
      ensures costs[k].Some? ==> costs[k].value == BatchSum(lines, markets[k].id, items)
    {
      TotalCostMeaning(lines, markets[k].id, items);
    }
  }

  // ---------------------------------------------------------------------
  // Affordability
  // ---------------------------------------------------------------------

  /**
   * A line the affordability query evaluates: at the market, with stock, and
   * (when `budgetFilter` holds, as in the database store) priced within budget.
   */
  predicate Affordable(l: ProductInMarket, marketId: Guid, money: Money, budgetFilter: bool) {
    l.marketId == marketId && l.amount > 0 && (budgetFilter ==> l.price <= money)
  }

  /** `min((int)(money / price), amount)`. */
  function MaxAffordable(l: ProductInMarket, money: Money): int
    requires l.price != 0
  {
    var q := TruncDiv(money, l.price);
    if l.amount < q then l.amount else q
  }

  /** `GetAvailableProductsAsync`: one dictionary entry per evaluated line; a zero price divides by zero. */
  function AvailableProducts(lines: seq<ProductInMarket>, marketId: Guid, money: Money, budgetFilter: bool)
    : Outcome<map<string, int>>
    decreases |lines|
  {
    if |lines| == 0 then Ok(map[])
    else
      var k := |lines| - 1;
      var l := lines[k];
      match AvailableProducts(lines[..k], marketId, money, budgetFilter)
      case Raised(e) => Raised(e)
      case Ok(m) =>
        if !Affordable(l, marketId, money, budgetFilter) then Ok(m)
        else if l.price == 0 then Raised(DivideByZero(DivideByZeroMessage))
        else Ok(m[l.productName := MaxAffordable(l, money)])
  }

  /** One more line leaves the query as it was, raises on a zero price, or records the line's affordable amount. */
  lemma {:induction false} AvailableProductsStep(lines: seq<ProductInMarket>, marketId: Guid, money: Money, budgetFilter: bool, k: nat)
    requires k < |lines|
    ensures AvailableProducts(lines[..k + 1], marketId, money, budgetFilter) ==
      match AvailableProducts(lines[..k], marketId, money, budgetFilter)
      case Raised(e) => Raised(e)
      case Ok(m) =>
        if !Affordable(lines[k], marketId, money, budgetFilter) then Ok(m)
        else if lines[k].price == 0 then Raised(DivideByZero(DivideByZeroMessage))
        else Ok(m[lines[k].productName := MaxAffordable(lines[k], money)])
  {
    assert lines[..k + 1][..k] == lines[..k];
  }

  /** Once the query has raised on a prefix, the later lines do not change the outcome. */
  lemma {:induction false} AvailableProductsStaysRaised(lines: seq<ProductInMarket>, marketId: Guid, money: Money,
                                                       budgetFilter: bool, n: nat)
    requires n <= |lines|
    requires AvailableProducts(lines[..n], marketId, money, budgetFilter).Raised?
    ensures AvailableProducts(lines, marketId, money, budgetFilter) ==
            AvailableProducts(lines[..n], marketId, money, budgetFilter)
    decreases |lines|
  {
    if n == |lines| {
      assert lines[..n] == lines;
    } else {
      var k := |lines| - 1;
      assert lines[..k][..n] == lines[..n];
      AvailableProductsStaysRaised(lines[..k], marketId, money, budgetFilter, n);
    }
  }

  /** The query fails exactly when an evaluated line has price zero. */
  lemma {:induction false} AvailableProductsRaises(lines: seq<ProductInMarket>, marketId: Guid, money: Money,
                                                  budgetFilter: bool)
    ensures AvailableProducts(lines, marketId, money, budgetFilter).Raised? <==>
      exists j :: 0 <= j < |lines| && Affordable(lines[j], marketId, money, budgetFilter) && lines[j].price == 0
    decreases |lines|
  {
    if |lines| > 0 {
      var k := |lines| - 1;
      var prefix := lines[..k];
      assert lines[..k + 1] == lines;
      assert forall j :: 0 <= j < k ==> prefix[j] == lines[j];
      AvailableProductsStep(lines, marketId, money, budgetFilter, k);
      AvailableProductsRaises(prefix, marketId, money, budgetFilter);
    }
  }

  /**
   * When the query succeeds, its keys are the names of the evaluated lines and
   * each value is that line's `min(trunc(money / price), amount)`.
   */
  lemma {:induction false} AvailableProductsMap(lines: seq<ProductInMarket>, marketId: Guid, money: Money,
                                               budgetFilter: bool)
    requires UniqueKeys(lines)
    ensures AvailableProducts(lines, marketId, money, budgetFilter).Ok? ==>
      var m := AvailableProducts(lines, marketId, money, budgetFilter).value;
      (forall name :: name in m <==>
         exists j :: 0 <= j < |lines| && Affordable(lines[j], marketId, money, budgetFilter) &&
                     lines[j].productName == name) &&
      (forall j :: 0 <= j < |lines| && Affordable(lines[j], marketId, money, budgetFilter) ==>
         lines[j].price != 0 && lines[j].productName in m &&
         m[lines[j].productName] == MaxAffordable(lines[j], money))
    decreases |lines|
  {
    if |lines| > 0 {
      var k := |lines| - 1;
      var prefix := lines[..k];
      assert lines[..k + 1] == lines;
      assert forall j :: 0 <= j < k ==> prefix[j] == lines[j];
      assert UniqueKeys(prefix);
      AvailableProductsStep(lines, marketId, money, budgetFilter, k);
      AvailableProductsMap(prefix, marketId, money, budgetFilter);
      var l := lines[k];
      if AvailableProducts(prefix, marketId, money, budgetFilter).Ok? &&
         Affordable(l, marketId, money, budgetFilter) && l.price != 0 {
        forall j | 0 <= j < k && Affordable(lines[j], marketId, money, budgetFilter)
          ensures lines[j].productName != l.productName
        {
          assert !IsLine(lines[k], lines[j].marketId, lines[j].productName);
        }
      }
    }
  }

  /** Both halves together: when the query fails, and what it returns otherwise. */
  lemma {:induction false} AvailableProductsMeaning(lines: seq<ProductInMarket>, marketId: Guid, money: Money,
                                                   budgetFilter: bool)
    requires UniqueKeys(lines)
    ensures AvailableProducts(lines, marketId, money, budgetFilter).Raised? <==>
      exists j :: 0 <= j < |lines| && Affordable(lines[j], marketId, money, budgetFilter) && lines[j].price == 0
    ensures AvailableProducts(lines, marketId, money, budgetFilter).Ok? ==>
      var m := AvailableProducts(lines, marketId, money, budgetFilter).value;
      (forall name :: name in m <==>
         exists j :: 0 <= j < |lines| && Affordable(lines[j], marketId, money, budgetFilter) &&
                     lines[j].productName == name) &&
      (forall j :: 0 <= j < |lines| && Affordable(lines[j], marketId, money, budgetFilter) ==>
         lines[j].price != 0 && lines[j].productName in m &&
         m[lines[j].productName] == MaxAffordable(lines[j], money))
  {
    AvailableProductsRaises(lines, marketId, money, budgetFilter);
    AvailableProductsMap(lines, marketId, money, budgetFilter);
  }

  /**
   * The database store (budget filter): each value lies between one and the
   * line's amount, because the price is within budget and positive.
   */
  lemma {:induction false} DbAffordableBounds(lines: seq<ProductInMarket>, marketId: Guid, money: Money)
    requires UniqueKeys(lines)
    requires AvailableProducts(lines, marketId, money, true).Ok?
    ensures forall j :: 0 <= j < |lines| && Affordable(lines[j], marketId, money, true) && lines[j].price > 0 ==>
      lines[j].productName in AvailableProducts(lines, marketId, money, true).value &&
      1 <= AvailableProducts(lines, marketId, money, true).value[lines[j].productName] <= lines[j].amount
  {
    AvailableProductsMeaning(lines, marketId, money, true);
    var m := AvailableProducts(lines, marketId, money, true).value;
    forall j | 0 <= j < |lines| && Affordable(lines[j], marketId, money, true) && lines[j].price > 0
      ensures 1 <= m[lines[j].productName] <= lines[j].amount
    {
      var p := lines[j].price;
      assert money >= p;
      assert TruncDiv(money, p) == money / p;
      DivAtLeastOne(money, p);
    }
  }

  lemma {:induction false} DivBelowDivisor(a: int, b: int)
    requires 0 <= a < b
    ensures a / b == 0
  {
  }

  lemma {:induction false} DivAtLeastOne(a: int, b: int)
    requires 0 < b <= a
    ensures a / b >= 1
  {
    assert a == (a / b) * b + a % b;
  }

  /**
   * The flat-file store (no budget filter) reports every stocked product at
   * the market; the ones priced above a non-negative budget get the value 0.
   */
  lemma {:induction false} FileAffordableOverBudget(lines: seq<ProductInMarket>, marketId: Guid, money: Money)
    requires UniqueKeys(lines)
    requires money >= 0
    requires AvailableProducts(lines, marketId, money, false).Ok?
    ensures forall j :: 0 <= j < |lines| && Affordable(lines[j], marketId, money, false) && lines[j].price > money ==>
      lines[j].productName in AvailableProducts(lines, marketId, money, false).value &&
      AvailableProducts(lines, marketId, money, false).value[lines[j].productName] == 0
  {
    AvailableProductsMeaning(lines, marketId, money, false);
    var file := AvailableProducts(lines, marketId, money, false).value;
    forall j | 0 <= j < |lines| && Affordable(lines[j], marketId, money, false) && lines[j].price > money
      ensures lines[j].productName in file && file[lines[j].productName] == 0
    {
      DivBelowDivisor(money, lines[j].price);
    }
  }

  /**
   * When the flat-file store answers, the database store answers too, and on
   * every product the database store reports the two agree.
   */
  lemma {:induction false} DbAffordableAgreesWithFile(lines: seq<ProductInMarket>, marketId: Guid, money: Money)
    requires UniqueKeys(lines)
    requires AvailableProducts(lines, marketId, money, false).Ok?
    ensures AvailableProducts(lines, marketId, money, true).Ok?
    ensures var file := AvailableProducts(lines, marketId, money, false).value;
      var db := AvailableProducts(lines, marketId, money, true).value;
      forall name :: name in db ==> name in file && db[name] == file[name]
  {
    AvailableProductsMeaning(lines, marketId, money, false);
    AvailableProductsMeaning(lines, marketId, money, true);
    var file := AvailableProducts(lines, marketId, money, false).value;
    var db := AvailableProducts(lines, marketId, money, true).value;
    forall name | name in db ensures name in file && db[name] == file[name] {
      var j :| 0 <= j < |lines| && Affordable(lines[j], marketId, money, true) && lines[j].productName == name;
      assert Affordable(lines[j], marketId, money, false);
    }
  }

  // ---------------------------------------------------------------------
  // The effect of a completed purchase
  // ---------------------------------------------------------------------

  /** The amount requested for a product (the last entry naming it; under distinct names, the only one). */
  function Requested(items: seq<Item>, productName: string): int
    decreases |items|
  {
    if |items| == 0 then 0
    else
      var k := |items| - 1;
      if items[k].productName == productName then items[k].amount else Requested(items[..k], productName)
  }

  /** A non-zero requested amount is the amount of an entry naming the product. */
  lemma {:induction false} RequestedFound(items: seq<Item>, productName: string)
    requires Requested(items, productName) != 0
    ensures exists k :: 0 <= k < |items| && items[k].productName == productName && items[k].amount == Requested(items, productName)
    decreases |items|
  {
    var k := |items| - 1;
    if items[k].productName != productName {
      RequestedFound(items[..k], productName);
      var j :| 0 <= j < k && items[..k][j].productName == productName && items[..k][j].amount == Requested(items[..k], productName);
      assert items[j] == items[..k][j];
    }
  }

  /** The buy path's decrement loop: `AddProductInMarketAsync(market, product, -amount, 0)` per item. */
  function ApplyPurchase(lines: seq<ProductInMarket>, marketId: Guid, items: seq<Item>): seq<ProductInMarket>
    decreases |items|
  {
    if |items| == 0 then lines
    else
      var k := |items| - 1;
      Upsert(ApplyPurchase(lines, marketId, items[..k]), marketId, items[k].productName, Wrap32(-(items[k].amount as int)), 0)
  }

  /** The last entry of a purchase is one more upsert after the entries before it. */
  lemma {:induction false} ApplyPurchaseLast(lines: seq<ProductInMarket>, marketId: Guid, items: seq<Item>, k: nat)
    requires k < |items|
    ensures ApplyPurchase(lines, marketId, items[..k + 1]) ==
      Upsert(ApplyPurchase(lines, marketId, items[..k]), marketId, items[k].productName, Wrap32(-(items[k].amount as int)), 0)
  {
    assert items[..k + 1][..k] == items[..k];
  }

  /** A non-empty purchase is its last entry's upsert after the others. */
  lemma {:induction false} ApplyPurchaseSnoc(lines: seq<ProductInMarket>, marketId: Guid, items: seq<Item>)
    requires |items| > 0
    ensures ApplyPurchase(lines, marketId, items) ==
      Upsert(ApplyPurchase(lines, marketId, items[..|items| - 1]), marketId, items[|items| - 1].productName,
             Wrap32(-(items[|items| - 1].amount as int)), 0)
  {
  }

  /** `after` is `lines` with every line at the market lowered by its requested amount and nothing else changed. */
  ghost predicate Purchased(lines: seq<ProductInMarket>, after: seq<ProductInMarket>, marketId: Guid, items: seq<Item>) {
    SameKeys(after, lines) &&
    forall j :: 0 <= j < |lines| ==>
      after[j].price == lines[j].price &&
      after[j].amount == lines[j].amount - (if lines[j].marketId == marketId then Requested(items, lines[j].productName) else 0)
  }

  /** One iteration of the decrement loop keeps `Purchased`. */
  lemma {:induction false} PurchaseStep(lines: seq<ProductInMarket>, before: seq<ProductInMarket>, marketId: Guid, items: seq<Item>)
    requires UniqueKeys(lines)
    requires |items| > 0
    requires Purchased(lines, before, marketId, items[..|items| - 1])
    requires Requested(items[..|items| - 1], items[|items| - 1].productName) == 0
    requires Covers(lines, marketId, items[|items| - 1]) && items[|items| - 1].amount >= 0
    ensures Purchased(lines, Upsert(before, marketId, items[|items| - 1].productName,
                                    Wrap32(-(items[|items| - 1].amount as int)), 0), marketId, items)
  {
    var k := |items| - 1;
    var last := items[k];
    var i := FindLine(lines, marketId, last.productName).value;
    assert FindLine(before, marketId, last.productName) == Some(i);
    assert before[i].amount == lines[i].amount;
    forall j | 0 <= j < |lines| && j != i ensures !IsLine(lines[j], marketId, last.productName) {
      FindLineUnique(lines, j);
    }
    assert IsLine(before[i], marketId, last.productName);
    UpsertExistingIsUpdate(before, i, Wrap32(-(last.amount as int)), 0);
    assert Restock(before[i], Wrap32(-(last.amount as int)), 0) == before[i].(amount := lines[i].amount - last.amount);
  }

  /**
   * Entry `k` of a purchase the market can fulfil still finds its line after
   * the entries before it were applied, and applying it is one more upsert
   * of the negated amount at price 0.
   */
  lemma {:induction false} PurchaseNext(lines: seq<ProductInMarket>, marketId: Guid, items: seq<Item>, k: nat)
    requires UniqueKeys(lines)
    requires DistinctNames(items)
    requires CanFulfil(lines, marketId, items)
    requires forall j :: 0 <= j < |items| ==> items[j].amount >= 0
    requires k < |items|
    ensures FindLine(ApplyPurchase(lines, marketId, items[..k]), marketId, items[k].productName).Some?
    ensures ApplyPurchase(lines, marketId, items[..k + 1]) ==
      Upsert(ApplyPurchase(lines, marketId, items[..k]), marketId, items[k].productName, -items[k].amount, 0)
  {
    var prefix := items[..k];
    var before := ApplyPurchase(lines, marketId, prefix);
    PurchasePrefix(lines, marketId, items, k);
    ApplyPurchaseIsPurchased(lines, marketId, prefix);
    SameKeysFindLine(before, lines, marketId, items[k].productName);
    ApplyPurchaseLast(lines, marketId, items, k);
    assert Wrap32(-(items[k].amount as int)) == -items[k].amount;
  }

  /** The entries before `k` of a valid purchase form a valid purchase, and do not name entry `k`'s product. */
  lemma {:induction false} PurchasePrefix(lines: seq<ProductInMarket>, marketId: Guid, items: seq<Item>, k: nat)
    requires DistinctNames(items)
    requires CanFulfil(lines, marketId, items)
    requires forall j :: 0 <= j < |items| ==> items[j].amount >= 0
    requires k < |items|
    ensures DistinctNames(items[..k]) && CanFulfil(lines, marketId, items[..k])
    ensures forall j :: 0 <= j < |items[..k]| ==> items[..k][j].amount >= 0
    ensures Requested(items[..k], items[k].productName) == 0
    ensures Covers(lines, marketId, items[k])
  {
    assert forall j :: 0 <= j < k ==> items[..k][j] == items[j];
    if Requested(items[..k], items[k].productName) != 0 {
      RequestedFound(items[..k], items[k].productName);
    }
  }

  /** Applying the entries one by one leaves every line lowered by its requested amount. */
  lemma {:induction false} ApplyPurchaseIsPurchased(lines: seq<ProductInMarket>, marketId: Guid, items: seq<Item>)
    requires UniqueKeys(lines)
    requires DistinctNames(items)
    requires CanFulfil(lines, marketId, items)
    requires forall k :: 0 <= k < |items| ==> items[k].amount >= 0
    ensures Purchased(lines, ApplyPurchase(lines, marketId, items), marketId, items)
    decreases |items|
  {
    if |items| > 0 {
      var k := |items| - 1;
      var prefix := items[..k];
      PurchasePrefix(lines, marketId, items, k);
      ApplyPurchaseIsPurchased(lines, marketId, prefix);
      var before := ApplyPurchase(lines, marketId, prefix);
      PurchaseStep(lines, before, marketId, items);
      ApplyPurchaseSnoc(lines, marketId, items);
    } else {
      assert ApplyPurchase(lines, marketId, items) == lines;
    }
  }

  /** Lines with the same keys in the same places keep the composite key unique. */
  lemma {:induction false} SameKeysUnique(a: seq<ProductInMarket>, b: seq<ProductInMarket>)
    requires SameKeys(a, b) && UniqueKeys(b)
    ensures UniqueKeys(a)
  {
    forall i, j | 0 <= i < j < |a| ensures !IsLine(a[j], a[i].marketId, a[i].productName) {
      assert !IsLine(b[j], b[i].marketId, b[i].productName);
    }
  }

  /** A purchase the market can fulfil turns no non-negative stock negative. */
  lemma {:induction false} PurchasedNonNegative(lines: seq<ProductInMarket>, after: seq<ProductInMarket>, marketId: Guid,
                                                items: seq<Item>)
    requires UniqueKeys(lines)
    requires CanFulfil(lines, marketId, items)
    requires Purchased(lines, after, marketId, items)
    ensures forall j :: 0 <= j < |lines| && lines[j].amount >= 0 ==> after[j].amount >= 0
  {
    forall j | 0 <= j < |lines| && lines[j].amount >= 0 ensures after[j].amount >= 0 {
      var n := lines[j].productName;
      if lines[j].marketId == marketId && Requested(items, n) != 0 {
        RequestedFound(items, n);
        var q :| 0 <= q < |items| && items[q].productName == n && items[q].amount == Requested(items, n);
        assert Covers(lines, marketId, items[q]);
        FindLineUnique(lines, j);
      }
    }
  }

  /**
   * A purchase the market can fulfil lowers each purchased line by exactly the
   * requested amount, keeps every price and every other line, and leaves no
   * non-negative amount negative.
   */
  lemma {:induction false} PurchaseMeaning(lines: seq<ProductInMarket>, marketId: Guid, items: seq<Item>)
    requires UniqueKeys(lines)
    requires DistinctNames(items)
    requires CanFulfil(lines, marketId, items)
    requires forall k :: 0 <= k < |items| ==> items[k].amount >= 0
    ensures Purchased(lines, ApplyPurchase(lines, marketId, items), marketId, items)
    ensures UniqueKeys(ApplyPurchase(lines, marketId, items))
    ensures forall j :: 0 <= j < |lines| && lines[j].amount >= 0 ==> ApplyPurchase(lines, marketId, items)[j].amount >= 0
  {
    var r := ApplyPurchase(lines, marketId, items);
    ApplyPurchaseIsPurchased(lines, marketId, items);
    SameKeysUnique(r, lines);
    PurchasedNonNegative(lines, r, marketId, items);
  }
}
