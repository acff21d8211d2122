/**
 * The database-backed repository: the three EF tables as sequences in their
 * enumeration order, with the keys the context declares (Market.Id,
 * Product.Name, and the composite (MarketId, ProductName)) as the object
 * invariant. Each mutating call commits before returning; a call that the
 * database refuses raises and changes nothing.
 */
module DbRepository {
  import opened Wrappers
  import opened Entities
  import opened Pricing

  class DbMarketPlaceRepository {
    var markets: seq<Market>
    var products: seq<Product>
    var productsInMarkets: seq<ProductInMarket>

    ghost predicate Valid()
      reads this
    {
      UniqueIds(markets) && UniqueNames(products) && UniqueKeys(productsInMarkets)
    }

    constructor ()
      ensures Valid()
      ensures markets == [] && products == [] && productsInMarkets == []
    {
      markets, products, productsInMarkets := [], [], [];
    }

    /** `Markets.Add` and `SaveChanges`: a second market with the same key is refused. */
    method AddMarket(market: Market) returns (o: Outcome<()>)
      requires Valid()
      modifies this
      ensures Valid()
      ensures products == old(products) && productsInMarkets == old(productsInMarkets)
      ensures o.Ok? <==> FindMarket(old(markets), market.id).None?
      ensures o.Ok? ==> markets == old(markets) + [market]
      ensures o.Raised? ==> o.ex == DbUpdate(DbUpdateMessage) && markets == old(markets)
    {
      if FindMarket(markets, market.id).Some? {
        return Raised(DbUpdate(DbUpdateMessage));
      }
      markets := markets + [market];
      o := Ok(());
    }

    /** `Products.Add` and `SaveChanges`: a second product with the same name is refused. */
    method AddProduct(product: Product) returns (o: Outcome<()>)
      requires Valid()
      modifies this
      ensures Valid()
      ensures markets == old(markets) && productsInMarkets == old(productsInMarkets)
      ensures o.Ok? <==> old(FindProductByName(product.name)).None?
      ensures o.Ok? ==> products == old(products) + [product]
      ensures o.Raised? ==> o.ex == DbUpdate(DbUpdateMessage) && products == old(products)
    {
      if FindProductByName(product.name).Some? {
        return Raised(DbUpdate(DbUpdateMessage));
      }
      products := products + [product];
      o := Ok(());
    }

    /** `Markets.FindAsync(marketId)`: the market with that key, or null. */
    function FindMarketById(marketId: Guid): (r: Option<Market>)
      reads this`markets
      ensures r.Some? ==> r.value in markets && r.value.id == marketId
      ensures r.None? <==> forall k :: 0 <= k < |markets| ==> markets[k].id != marketId
    {
      match FindMarket(markets, marketId)
      case Some(i) => Some(markets[i])
      case None => None
    }

    /** `Products.FirstOrDefaultAsync(p => p.Name == productName)`: absence gives null, never an exception. */
    function FindProductByName(productName: string): (r: Option<Product>)
      reads this`products
      ensures r.Some? ==> r.value in products && r.value.name == productName
      ensures r.None? <==> forall k :: 0 <= k < |products| ==> products[k].name != productName
    {
      if |products| == 0 then None else FindProductIn(products, productName)
    }

    static function FindProductIn(table: seq<Product>, productName: string): (r: Option<Product>)
      ensures r.Some? ==> r.value in table && r.value.name == productName
      ensures r.None? <==> forall k :: 0 <= k < |table| ==> table[k].name != productName
    {
      if |table| == 0 then None
      else if table[0].name == productName then Some(table[0])
      else FindProductIn(table[1..], productName)
    }

    /**
     * The stocking upsert. A null product raises when the query reads
     * `product.Name`; EF Core wraps that failure while it evaluates the
     * query's parameters. An existing line gets the amount added and, when
     * `price > 0`, the new price; an absent key gets a new row, which the
     * foreign keys refuse unless both the market and the product exist.
     */
    method AddProductInMarket(market: Market, product: Option<Product>, amount: Int32, price: Money)
      returns (o: Outcome<()>)
      requires Valid()
      modifies this
      ensures Valid()
      ensures markets == old(markets) && products == old(products)
      ensures product.None? ==> o == Raised(InvalidOperation(QueryParameterMessage))
      ensures product.Some? && FindLine(old(productsInMarkets), market.id, product.value.name).Some? ==> o.Ok?
      ensures product.Some? && FindLine(old(productsInMarkets), market.id, product.value.name).None? ==>
        (o.Ok? <==> FindMarketById(market.id).Some? && FindProductByName(product.value.name).Some?)
      ensures o.Raised? ==> productsInMarkets == old(productsInMarkets)
      ensures o.Ok? ==> productsInMarkets == Upsert(old(productsInMarkets), market.id, product.value.name, amount, price)
    {
      if product.None? {
        return Raised(InvalidOperation(QueryParameterMessage));
      }
      var name := product.value.name;
      UpsertKeepsUniqueKeys(productsInMarkets, market.id, name, amount, price);
      match FindLine(productsInMarkets, market.id, name) {
        case None =>
          if FindMarketById(market.id).None? || FindProductByName(name).None? {
            return Raised(DbUpdate(DbUpdateMessage));
          }
          productsInMarkets := productsInMarkets + [ProductInMarket(market.id, name, amount, price)];
        case Some(i) =>
          var line := productsInMarkets[i];
          line := line.(amount := Wrap32(line.amount + amount));
          if price > 0 {
            line := line.(price := price);
          }
          productsInMarkets := productsInMarkets[i := line];
      }
      o := Ok(());
    }

    /**
     * The cheapest in-stock line's market, looked up with `FindAsync`; when no
     * line qualifies the query yields `Guid.Empty` and that id is looked up.
     */
    function FindCheapestMarketWithProduct(productName: string): (r: Option<Market>)
      reads this
      ensures r.Some? ==> r.value in markets
      ensures (forall j :: 0 <= j < |productsInMarkets| ==> !InStock(productsInMarkets[j], productName)) ==>
        r == FindMarketById(EmptyGuid)
      ensures (exists j :: 0 <= j < |productsInMarkets| && InStock(productsInMarkets[j], productName)) ==>
        exists i :: 0 <= i < |productsInMarkets| && InStock(productsInMarkets[i], productName) &&
          (forall j :: 0 <= j < |productsInMarkets| && InStock(productsInMarkets[j], productName) ==>
             productsInMarkets[i].price <= productsInMarkets[j].price) &&
          (forall j :: 0 <= j < i && InStock(productsInMarkets[j], productName) ==>
             productsInMarkets[i].price < productsInMarkets[j].price) &&
          r == FindMarketById(productsInMarkets[i].marketId)
    {
      CheapestMeaning(productsInMarkets, productName);
      match Cheapest(productsInMarkets, productName)
      case Some(i) => FindMarketById(productsInMarkets[i].marketId)
      case None => FindMarketById(EmptyGuid)
    }

    /** The rows the affordability query selects: at the market, in stock, priced within budget. */
    static function SelectAffordable(lines: seq<ProductInMarket>, marketId: Guid, money: Money)
      : (r: seq<ProductInMarket>)
      ensures forall l :: l in r ==> Affordable(l, marketId, money, true)
      ensures AvailableProducts(r, marketId, money, true) == AvailableProducts(lines, marketId, money, true)
      decreases |lines|
    {
      if |lines| == 0 then []
      else
        var k := |lines| - 1;
        var front := SelectAffordable(lines[..k], marketId, money);
        if Affordable(lines[k], marketId, money, true) then
          var r := front + [lines[k]];
          assert r[..|front|] == front;
          r
        else front
    }

    /**
     * `GetAvailableProductsAsync`: for every selected row, the product's entry
     * is `min((int)(money / price), amount)`.
     */
    method GetAvailableProducts(market: Market, money: Money) returns (r: Outcome<map<string, int>>)
      ensures r == AvailableProducts(productsInMarkets, market.id, money, true)
    {
      var available := SelectAffordable(productsInMarkets, market.id, money);
      var result: map<string, int> := map[];
      var k := 0;
      while k < |available|
        invariant 0 <= k <= |available|
        invariant AvailableProducts(available[..k], market.id, money, true) == Ok(result)
      {
        var item := available[k];
        assert available[..k + 1][..k] == available[..k];
        if item.price == 0 {
          AvailableProductsStaysRaised(available, market.id, money, true, k + 1);
          return Raised(DivideByZero(DivideByZeroMessage));
        }
        var maxAmount := TruncDiv(money, item.price);
        if item.amount < maxAmount {
          maxAmount := item.amount;
        }
        result := result[item.productName := maxAmount];
        k := k + 1;
      }
      assert available[..k] == available;
      r := Ok(result);
    }

    /** `CalculateTotalPriceAsync`: null on a missing or short line, else the sum of price times amount. */
    method CalculateTotalPrice(market: Market, items: seq<Item>) returns (r: Option<Money>)
      ensures r == TotalCost(productsInMarkets, market.id, items)
    {
      var totalCost: Money := 0;
      var k := 0;
      while k < |items|
        invariant 0 <= k <= |items|
        invariant TotalCost(productsInMarkets, market.id, items[..k]) == Some(totalCost)
      {
        var item := items[k];
        var found := FindLine(productsInMarkets, market.id, item.productName);
        if found.None? || productsInMarkets[found.value].amount < item.amount {
          TotalCostShort(productsInMarkets, market.id, items, k);
          TotalCostStaysNone(productsInMarkets, market.id, items, k + 1);
          return None;
        }
        TotalCostExtend(productsInMarkets, market.id, items, k, totalCost, found.value);
        totalCost := totalCost + productsInMarkets[found.value].price * item.amount;
        k := k + 1;
      }
      assert items[..k] == items;
      r := Some(totalCost);
    }

    /** `FindMarketWithCheapestBatchPriceAsync`: the first market with the strictly lowest defined total. */
    method FindMarketWithCheapestBatchPrice(items: seq<Item>) returns (r: Option<Market>)
      ensures r == match BestMarket(markets, productsInMarkets, items)
                   case Some(i) => Some(markets[i])
                   case None => None
    {
      var table := markets;
      ghost var costs := Costs(table, productsInMarkets, items);
      assert |costs| == |table|;
      var bestMarket: Option<Market> := None;
      var lowestTotalCost: Option<Money> := None;
      ghost var best: Option<nat> := None;
      var k := 0;
      while k < |table|
        invariant 0 <= k <= |table|
        invariant best == FirstMin(costs[..k])
        invariant best.None? <==> bestMarket.None?
        invariant best.None? <==> lowestTotalCost.None?
        invariant best.Some? ==> best.value < k && bestMarket == Some(table[best.value]) &&
                                 costs[best.value] == lowestTotalCost
      {
        var market := table[k];
        FirstMinStep(costs, k);
        var cost := CalculateTotalPrice(market, items);
        assert costs[k] == cost;
        if cost.Some? && (lowestTotalCost.None? || cost.value < lowestTotalCost.value) {
          bestMarket := Some(market);
          lowestTotalCost := cost;
          best := Some(k);
        }
        k := k + 1;
      }
      assert costs[..k] == costs;
      r := bestMarket;
    }
  }
}
