/**
 * The flat-file repository. Each of the three files is mirrored in memory as
 * a list of text rows whose first row is the header; every change rewrites
 * the affected cache and then all three files. Rows are read back with
 * `Split(',')`, so a comma inside a stored name moves the later fields.
 *
 * The ghost fields `markets` and `lines` are the entities the rows encode;
 * `Valid()` ties each cache to them row by row.
 */
module FileRepository {
  import opened Wrappers
  import opened Entities
  import opened Text
  import opened Pricing

  const ProductHeader := "Name"
  const MarketHeader := "MarketId,MarketName,Address"
  const ProductInMarketHeader := "MarketId,ProductName,Amount,Price"

  // ---------------------------------------------------------------------
  // Row formats
  // ---------------------------------------------------------------------

  /** The row written for a market: id, name and address joined by commas. */
  function MarketRow(m: Market): string {
    Join([m.id, m.name, m.address])
  }

  /** The row written for an inventory line: id, name, amount and price joined by commas. */
  function LineRow(l: ProductInMarket): string {
    Join([l.marketId, l.productName, FormatInt(l.amount), FormatInt(l.price)])
  }

  function MarketRows(ms: seq<Market>): seq<string>
  {
    seq(|ms|, k requires 0 <= k < |ms| => MarketRow(ms[k]))
  }

  function LineRows(ls: seq<ProductInMarket>): seq<string>
  {
    seq(|ls|, k requires 0 <= k < |ls| => LineRow(ls[k]))
  }

  /** A market row splits into the id, the pieces of the name and the pieces of the address. */
  lemma {:induction false} MarketRowFields(m: Market)
    ensures Split(MarketRow(m)) == [m.id] + Split(m.name) + Split(m.address)
    ensures |Split(MarketRow(m))| >= 3
  {
    GuidHasNoComma(m.id);
    SplitThree(m.id, m.name, m.address);
  }

  /** A line row with a comma-free product name reads back field by field. */
  lemma {:induction false} LineRowFields(l: ProductInMarket)
    requires ',' !in l.productName
    ensures Split(LineRow(l)) == [l.marketId, l.productName, FormatInt(l.amount), FormatInt(l.price)]
    ensures ParseGuid(l.marketId) == Some(l.marketId)
    ensures ParseInt(FormatInt(l.amount)) == l.amount && ParseInt(FormatInt(l.price)) == l.price
  {
    var fields := [l.marketId, l.productName, FormatInt(l.amount), FormatInt(l.price)];
    GuidHasNoComma(l.marketId);
    SplitJoin(fields);
    ParseGuidOfGuid(l.marketId);
    ParseFormatInt(l.amount);
    ParseFormatInt(l.price);
  }

  /**
   * The market the repository rebuilds from a stored row: the stored id, then
   * the second and the third comma-separated fields as name and address.
   */
  function ReadBack(m: Market): Market
  {
    MarketRowFields(m);
    var data := Split(MarketRow(m));
    Market(m.id, data[1], data[2])
  }

  /** A market whose name and address hold no comma reads back unchanged. */
  lemma {:induction false} ReadBackPlain(m: Market)
    requires ',' !in m.name && ',' !in m.address
    ensures ReadBack(m) == m
  {
    MarketRowFields(m);
    SplitNoComma(m.name);
    SplitNoComma(m.address);
  }

  /** A comma in a market's name truncates the name read back to the text before the first comma. */
  lemma {:induction false} ReadBackTruncatesName(m: Market)
    requires ',' in m.name
    ensures ReadBack(m).name != m.name
    ensures ',' !in ReadBack(m).name
    ensures ReadBack(m).name <= m.name
  {
    MarketRowFields(m);
    var pieces := Split(m.name);
    assert ReadBack(m).name == pieces[0];
    JoinCons(pieces[0], pieces[1..]);
    assert pieces == [pieces[0]] + pieces[1..];
  }

  /** Market rows, split, have at least the three fields the readers index. */
  predicate MarketShaped(rows: seq<string>) {
    forall k :: 0 <= k < |rows| ==> |Split(rows[k])| >= 3
  }

  /** Line rows, split, have at least the four fields the readers index. */
  predicate LineShaped(rows: seq<string>) {
    forall k :: 0 <= k < |rows| ==> |Split(rows[k])| >= 4
  }

  lemma {:induction false} MarketRowsShaped(ms: seq<Market>)
    ensures MarketShaped(MarketRows(ms))
  {
    forall k | 0 <= k < |ms| ensures |Split(MarketRows(ms)[k])| >= 3 {
      MarketRowFields(ms[k]);
    }
  }

  lemma {:induction false} LineRowsShaped(ls: seq<ProductInMarket>)
    requires forall k :: 0 <= k < |ls| ==> ',' !in ls[k].productName
    ensures LineShaped(LineRows(ls))
  {
    forall k | 0 <= k < |ls| ensures |Split(LineRows(ls)[k])| >= 4 {
      LineRowFields(ls[k]);
    }
  }

  // ---------------------------------------------------------------------
  // Row queries (the LINQ lookups over the caches)
  // ---------------------------------------------------------------------

  /** `FirstOrDefault(data => Guid.Parse(data[0]) == marketId)` over the market rows, rebuilt as a market. */
  function FirstMarketRow(rows: seq<string>, marketId: Guid): Option<Market>
    requires MarketShaped(rows)
  {
    if |rows| == 0 then None
    else
      var data := Split(rows[0]);
      if ParseGuid(data[0]) == Some(marketId) then Some(Market(marketId, data[1], data[2]))
      else FirstMarketRow(rows[1..], marketId)
  }

  /** `FindIndex(data[0] == market.Id.ToString() && data[1] == product.Name)` over the line rows. */
  function FindIndex(rows: seq<string>, marketId: Guid, productName: string): Option<nat>
    requires LineShaped(rows)
  {
    if |rows| == 0 then None
    else
      var data := Split(rows[0]);
      if data[0] == marketId && data[1] == productName then Some(0)
      else
        match FindIndex(rows[1..], marketId, productName)
        case None => None
        case Some(i) => Some(i + 1)
  }

  /** `FirstOrDefault(data => Guid.Parse(data[0]) == market.Id && data[1] == product.Name)`, as an index. */
  function FirstLineRow(rows: seq<string>, marketId: Guid, productName: string): Option<nat>
    requires LineShaped(rows)
  {
    if |rows| == 0 then None
    else
      var data := Split(rows[0]);
      if ParseGuid(data[0]) == Some(marketId) && data[1] == productName then Some(0)
      else
        match FirstLineRow(rows[1..], marketId, productName)
        case None => None
        case Some(i) => Some(i + 1)
  }

  /** `FirstOrDefault(data => data[0] == productName)` over the product rows. */
  function FirstProductRow(rows: seq<string>, productName: string): (r: Outcome<Product>)
    ensures r.Ok? <==> exists k :: 0 <= k < |rows| && Split(rows[k])[0] == productName
    ensures r.Ok? ==> r.value == Product(productName)
    ensures r.Raised? ==> r.ex == NullReference(NullReferenceMessage)
  {
    if |rows| == 0 then Raised(NullReference(NullReferenceMessage))
    else if Split(rows[0])[0] == productName then Ok(Product(Split(rows[0])[0]))
    else
      var r := FirstProductRow(rows[1..], productName);
      assert forall k :: 0 <= k < |rows| - 1 ==> rows[1..][k] == rows[k + 1];
      r
  }

  /** Over the rows of well-formed markets, the row lookup finds the first market with the id. */
  lemma {:induction false} FirstMarketRowModel(ms: seq<Market>, marketId: Guid)
    ensures MarketShaped(MarketRows(ms))
    ensures FirstMarketRow(MarketRows(ms), marketId) ==
      match FindMarket(ms, marketId)
      case Some(i) => Some(ReadBack(ms[i]))
      case None => None
  {
    MarketRowsShaped(ms);
    if |ms| > 0 {
      var rows := MarketRows(ms);
      assert rows[1..] == MarketRows(ms[1..]);
      MarketRowFields(ms[0]);
      ParseGuidOfGuid(ms[0].id);
      FirstMarketRowModel(ms[1..], marketId);
    }
  }

  /** Over well-formed line rows, the index lookup finds the line `FindLine` finds. */
  lemma {:induction false} FindIndexModel(ls: seq<ProductInMarket>, marketId: Guid, productName: string)
    requires forall k :: 0 <= k < |ls| ==> ',' !in ls[k].productName
    ensures LineShaped(LineRows(ls))
    ensures FindIndex(LineRows(ls), marketId, productName) == FindLine(ls, marketId, productName)
  {
    LineRowsShaped(ls);
    if |ls| > 0 {
      assert LineRows(ls)[1..] == LineRows(ls[1..]);
      LineRowFields(ls[0]);
      FindIndexModel(ls[1..], marketId, productName);
    }
  }

  /** Over well-formed line rows, the parsing lookup finds the line `FindLine` finds. */
  lemma {:induction false} FirstLineRowModel(ls: seq<ProductInMarket>, marketId: Guid, productName: string)
    requires forall k :: 0 <= k < |ls| ==> ',' !in ls[k].productName
    ensures LineShaped(LineRows(ls))
    ensures FirstLineRow(LineRows(ls), marketId, productName) == FindLine(ls, marketId, productName)
  {
    LineRowsShaped(ls);
    if |ls| > 0 {
      assert LineRows(ls)[1..] == LineRows(ls[1..]);
      LineRowFields(ls[0]);
      FirstLineRowModel(ls[1..], marketId, productName);
    }
  }

  lemma {:induction false} LineRowsUpdate(ls: seq<ProductInMarket>, i: nat, l: ProductInMarket)
    requires i < |ls|
    ensures LineRows(ls[i := l]) == LineRows(ls)[i := LineRow(l)]
  {
  }

  lemma {:induction false} MarketRowsAppend(ms: seq<Market>, m: Market)
    ensures MarketRows(ms + [m]) == MarketRows(ms) + [MarketRow(m)]
  {
  }

  lemma {:induction false} LineRowsAppend(ls: seq<ProductInMarket>, l: ProductInMarket)
    ensures LineRows(ls + [l]) == LineRows(ls) + [LineRow(l)]
  {
  }

  /** The stored amount and price of an existing line read back from its row. */
  lemma {:induction false} ExistingRowFields(ls: seq<ProductInMarket>, i: nat)
    requires i < |ls| && ',' !in ls[i].productName
    ensures |Split(LineRows(ls)[i])| == 4
    ensures ParseInt(Split(LineRows(ls)[i])[2]) == ls[i].amount
    ensures ParseInt(Split(LineRows(ls)[i])[3]) == ls[i].price
  {
    LineRowFields(ls[i]);
  }

  /** Appending a row is the upsert of an absent key, in row form. */
  lemma {:induction false} UpsertAbsentRows(ls: seq<ProductInMarket>, marketId: Guid, productName: string, amount: Int32, price: Money)
    requires FindLine(ls, marketId, productName).None?
    ensures LineRows(Upsert(ls, marketId, productName, amount, price)) ==
            LineRows(ls) + [LineRow(ProductInMarket(marketId, productName, amount, price))]
  {
    LineRowsAppend(ls, ProductInMarket(marketId, productName, amount, price));
  }

  // ---------------------------------------------------------------------
  // The repository
  // ---------------------------------------------------------------------

  class FileMarketPlaceRepository {
    var productCache: seq<string>
    var marketCache: seq<string>
    var productInMarketCache: seq<string>
    ghost var markets: seq<Market>
    ghost var lines: seq<ProductInMarket>

    ghost predicate Valid()
      reads this
    {
      |productCache| >= 1 && productCache[0] == ProductHeader &&
      marketCache == [MarketHeader] + MarketRows(markets) &&
      productInMarketCache == [ProductInMarketHeader] + LineRows(lines) &&
      UniqueKeys(lines) &&
      (forall k :: 0 <= k < |lines| ==> ',' !in lines[k].productName)
    }

    /** A store whose three files were just created: each cache holds only its header. */
    constructor ()
      ensures Valid()
      ensures productCache == [ProductHeader] && markets == [] && lines == []
    {
      productCache := [ProductHeader];
      marketCache := [MarketHeader];
      productInMarketCache := [ProductInMarketHeader];
      markets, lines := [], [];
    }

    /** Appends the market row; nothing stops a second row with the same id. */
    method AddMarket(market: Market)
      requires Valid()
      modifies this
      ensures Valid()
      ensures marketCache == old(marketCache) + [MarketRow(market)]
      ensures markets == old(markets) + [market]
      ensures productCache == old(productCache) && productInMarketCache == old(productInMarketCache)
      ensures lines == old(lines)
      ensures FindMarket(old(markets), market.id).None? ==> FindMarketById(market.id) == Some(ReadBack(market))
    {
      ghost var ms := markets + [market];
      MarketRowsAppend(markets, market);
      FindMarketAppend(markets, market, market.id);
      FirstMarketRowModel(ms, market.id);
      marketCache := marketCache + [MarketRow(market)];
      markets := ms;
    }

    /** Appends the product's name as a row; nothing stops a second row with the same name. */
    method AddProduct(product: Product)
      requires Valid()
      modifies this
      ensures Valid()
      ensures productCache == old(productCache) + [product.name]
      ensures marketCache == old(marketCache) && productInMarketCache == old(productInMarketCache)
      ensures markets == old(markets) && lines == old(lines)
      ensures ',' !in product.name ==> FindProductByName(product.name) == Ok(product)
    {
      productCache := productCache + [product.name];
      if ',' !in product.name {
        SplitNoComma(product.name);
        assert productCache[1..][|productCache| - 2] == product.name;
      }
    }

    /**
     * The product whose row starts with `productName`. When there is none the
     * source dereferences a null row, so the lookup raises instead of yielding null.
     */
    function FindProductByName(productName: string): (r: Outcome<Product>)
      reads this
      requires Valid()
      ensures r.Ok? <==> exists k :: 1 <= k < |productCache| && Split(productCache[k])[0] == productName
      ensures r.Ok? ==> r.value == Product(productName) && ',' !in productName
      ensures r.Raised? ==> r.ex == NullReference(NullReferenceMessage)
    {
      var r := FirstProductRow(productCache[1..], productName);
      assert forall k :: 1 <= k < |productCache| ==> productCache[1..][k - 1] == productCache[k];
      r
    }

    /** The first market row with the id, rebuilt from its fields. */
    function FindMarketById(marketId: Guid): (r: Option<Market>)
      reads this
      requires Valid()
      ensures r == match FindMarket(markets, marketId)
                   case Some(i) => Some(ReadBack(markets[i]))
                   case None => None
    {
      FirstMarketRowModel(markets, marketId);
      FirstMarketRow(marketCache[1..], marketId)
    }

    /**
     * The row work of the upsert: find the row of the pair, rewrite it with the
     * summed amount and the new or kept price, or append a new row.
     */
    static method UpsertRows(rows: seq<string>, ghost ls: seq<ProductInMarket>, marketId: Guid, productName: string,
                             amount: Int32, price: Money) returns (productInMarketLines: seq<string>)
      requires rows == LineRows(ls)
      requires forall k :: 0 <= k < |ls| ==> ',' !in ls[k].productName
      ensures productInMarketLines == LineRows(Upsert(ls, marketId, productName, amount, price))
    {
      productInMarketLines := rows;
      FindIndexModel(ls, marketId, productName);
      var existingLineIndex := FindIndex(productInMarketLines, marketId, productName);
      if existingLineIndex.Some? {
        var i := existingLineIndex.value;
        var data := Split(productInMarketLines[i]);
        ExistingRowFields(ls, i);
        var currentAmount := ParseInt(data[2]);
        var currentPrice := ParseInt(data[3]);
        var newAmount := Wrap32(currentAmount + amount);
        var newPrice := if price > 0 then price else currentPrice;
        var updated := ProductInMarket(marketId, productName, newAmount, newPrice);
        assert IsLine(ls[i], marketId, productName);
        assert updated == Restock(ls[i], amount, price);
        UpsertExistingIsUpdate(ls, i, amount, price);
        LineRowsUpdate(ls, i, updated);
        productInMarketLines := productInMarketLines[i := LineRow(updated)];
      } else {
        UpsertAbsentRows(ls, marketId, productName, amount, price);
        productInMarketLines := productInMarketLines + [LineRow(ProductInMarket(marketId, productName, amount, price))];
      }
    }

    /**
     * The stocking upsert on the line rows. A null product raises when its name
     * is read. The product's name must hold no comma, so that the row keeps
     * four fields.
     */
    method AddProductInMarket(market: Market, product: Option<Product>, amount: Int32, price: Money)
      returns (o: Outcome<()>)
      requires Valid()
      requires product.Some? ==> ',' !in product.value.name
      modifies this
      ensures Valid()
      ensures productCache == old(productCache) && marketCache == old(marketCache) && markets == old(markets)
      ensures product.None? ==> o == Raised(NullReference(NullReferenceMessage)) && lines == old(lines)
      ensures product.Some? ==> o.Ok? && lines == Upsert(old(lines), market.id, product.value.name, amount, price)
    {
      if product.None? {
        return Raised(NullReference(NullReferenceMessage));
      }
      var name := product.value.name;
      var productInMarketLines := UpsertRows(productInMarketCache[1..], lines, market.id, name, amount, price);
      UpsertKeepsUniqueKeys(lines, market.id, name, amount, price);
      UpsertProductNames(lines, market.id, name, amount, price);
      productInMarketCache := [ProductInMarketHeader] + productInMarketLines;
      lines := Upsert(lines, market.id, name, amount, price);
      o := Ok(());
    }

    /**
     * The scan over the line rows for the cheapest in-stock offer; the market
     * of the row it keeps is looked up by id. No offer gives null.
     */
    method FindCheapestMarketWithProduct(productName: string) returns (r: Option<Market>)
      requires Valid()
      ensures r == match Cheapest(lines, productName)
                   case Some(i) => FindMarketById(lines[i].marketId)
                   case None => None
    {
      var marketId := CheapestRow(productInMarketCache[1..], lines, productName);
      if marketId.None? {
        return None;
      }
      ghost var i := Cheapest(lines, productName).value;
      ParseGuidOfGuid(lines[i].marketId);
      r := FindMarketById(ParseGuid(marketId.value).value);
    }

    /** The loop of `FindCheapestMarketWithProductAsync`: the market id of the first cheapest in-stock row. */
    static method CheapestRow(rows: seq<string>, ghost ls: seq<ProductInMarket>, productName: string)
      returns (marketId: Option<string>)
      requires rows == LineRows(ls)
      requires forall k :: 0 <= k < |ls| ==> ',' !in ls[k].productName
      ensures marketId == match Cheapest(ls, productName)
                          case Some(i) => Some(ls[i].marketId)
                          case None => None
    {
      ghost var offers := Offers(ls, productName);
      var lowestPrice: Option<Money> := None;
      marketId := None;
      ghost var best: Option<nat> := None;
      for k := 0 to |rows|
        invariant best == FirstMin(offers[..k])
        invariant best.None? <==> lowestPrice.None?
        invariant best.None? <==> marketId.None?
        invariant best.Some? ==> best.value < k && lowestPrice == Some(ls[best.value].price) &&
                                 marketId == Some(ls[best.value].marketId)
      {
        LineRowFields(ls[k]);
        assert offers[..k + 1][..k] == offers[..k];
        var data := Split(rows[k]);
        if data[1] != productName || ParseInt(data[2]) <= 0 {
          continue;
        }
        var price := ParseInt(data[3]);
        if lowestPrice.Some? && price >= lowestPrice.value {
          continue;
        }
        lowestPrice := Some(price);
        marketId := Some(data[0]);
        best := Some(k);
      }
      assert offers[..|rows|] == offers;
    }

    /**
     * The affordability query over the line rows: every row of the market with
     * stock, whatever its price, gets `min((int)(money / price), amount)`.
     */
    method GetAvailableProducts(market: Market, money: Money) returns (r: Outcome<map<string, int>>)
      requires Valid()
      ensures r == AvailableProducts(lines, market.id, money, false)
    {
      r := AvailableOverRows(productInMarketCache[1..], lines, market.id, money);
    }

    /** The loop of `GetAvailableProductsAsync` over the line rows. */
    static method AvailableOverRows(rows: seq<string>, ghost ls: seq<ProductInMarket>, marketId: Guid, money: Money)
      returns (r: Outcome<map<string, int>>)
      requires rows == LineRows(ls)
      requires forall k :: 0 <= k < |ls| ==> ',' !in ls[k].productName
      ensures r == AvailableProducts(ls, marketId, money, false)
    {
      var result: map<string, int> := map[];
      for k := 0 to |rows|
        invariant AvailableProducts(ls[..k], marketId, money, false) == Ok(result)
      {
        LineRowFields(ls[k]);
        AvailableProductsStep(ls, marketId, money, false, k);
        var item := Split(rows[k]);
        if !(ParseGuid(item[0]) == Some(marketId) && ParseInt(item[2]) > 0) {
          continue;
        }
        var productName := item[1];
        var amount := ParseInt(item[2]);
        var price := ParseInt(item[3]);
        if price == 0 {
          AvailableProductsStaysRaised(ls, marketId, money, false, k + 1);
          return Raised(DivideByZero(DivideByZeroMessage));
        }
        var maxAmount := TruncDiv(money, price);
        if amount < maxAmount {
          maxAmount := amount;
        }
        result := result[productName := maxAmount];
      }
      assert ls[..|rows|] == ls;
      r := Ok(result);
    }

    /** The total of price times amount over the items at the market, or null on a missing or short line. */
    method CalculateTotalPrice(market: Market, items: seq<Item>) returns (r: Option<Money>)
      requires Valid()
      ensures r == TotalCost(lines, market.id, items)
    {
      r := TotalOverRows(productInMarketCache[1..], lines, market.id, items);
    }

    /** The loop of `CalculateTotalPriceAsync` over the line rows (the cache without its header). */
    static method TotalOverRows(rows: seq<string>, ghost ls: seq<ProductInMarket>, marketId: Guid, items: seq<Item>)
      returns (r: Option<Money>)
      requires rows == LineRows(ls)
      requires forall k :: 0 <= k < |ls| ==> ',' !in ls[k].productName
      ensures r == TotalCost(ls, marketId, items)
    {
      var totalCost: Money := 0;
      for k := 0 to |items|
        invariant TotalCost(ls, marketId, items[..k]) == Some(totalCost)
      {
        var item := items[k];
        var found, amount, price := ReadLineRow(rows, ls, marketId, item.productName);
        if found.None? || amount < item.amount {
          TotalCostShort(ls, marketId, items, k);
          TotalCostStaysNone(ls, marketId, items, k + 1);
          return None;
        }
        TotalCostExtend(ls, marketId, items, k, totalCost, found.value);
        totalCost := totalCost + price * item.amount;
      }
      assert items[..|items|] == items;
      r := Some(totalCost);
    }

    /** The first row of the market and product, with its amount and price parsed back. */
    static method ReadLineRow(rows: seq<string>, ghost ls: seq<ProductInMarket>, marketId: Guid, productName: string)
      returns (found: Option<nat>, amount: int, price: Money)
      requires rows == LineRows(ls)
      requires forall k :: 0 <= k < |ls| ==> ',' !in ls[k].productName
      ensures found == FindLine(ls, marketId, productName)
      ensures found.Some? ==> amount == ls[found.value].amount && price == ls[found.value].price
    {
      FirstLineRowModel(ls, marketId, productName);
      found := FirstLineRow(rows, marketId, productName);
      amount, price := 0, 0;
      if found.Some? {
        ExistingRowFields(ls, found.value);
        var data := Split(rows[found.value]);
        amount, price := ParseInt(data[2]), ParseInt(data[3]);
      }
    }

    /**
     * The scan over the market rows for the strictly lowest defined total; each
     * market is rebuilt from its row before its total is computed.
     */
    method FindMarketWithCheapestBatchPrice(items: seq<Item>) returns (r: Option<Market>)
      requires Valid()
      ensures r == match BestMarket(markets, lines, items)
                   case Some(i) => Some(ReadBack(markets[i]))
                   case None => None
    {
      r := BestOverRows(marketCache[1..], markets, productInMarketCache[1..], lines, items);
    }

    /** A market rebuilt from its row: the parsed id, then the name and address fields. */
    static method ReadMarketRow(row: string, ghost m: Market) returns (market: Market)
      requires row == MarketRow(m)
      ensures market == ReadBack(m)
    {
      MarketRowFields(m);
      ParseGuidOfGuid(m.id);
      var data := Split(row);
      market := Market(ParseGuid(data[0]).value, data[1], data[2]);
    }

    /**
     * The loop of `FindMarketWithCheapestBatchPriceAsync`: each market is rebuilt
     * from its row, its total is computed over the line rows, and a strictly
     * lower total replaces the best so far.
     */
    static method BestOverRows(marketRows: seq<string>, ghost ms: seq<Market>, lineRows: seq<string>,
                               ghost ls: seq<ProductInMarket>, items: seq<Item>) returns (bestMarket: Option<Market>)
      requires marketRows == MarketRows(ms)
      requires lineRows == LineRows(ls)
      requires forall k :: 0 <= k < |ls| ==> ',' !in ls[k].productName
      ensures bestMarket == match BestMarket(ms, ls, items)
                            case Some(i) => Some(ReadBack(ms[i]))
                            case None => None
    {
      ghost var costs := Costs(ms, ls, items);
      bestMarket := None;
      var lowestTotalCost: Option<Money> := None;
      ghost var best: Option<nat> := None;
      for k := 0 to |marketRows|
        invariant best == FirstMin(costs[..k])
        invariant best.None? <==> bestMarket.None?
        invariant best.None? <==> lowestTotalCost.None?
        invariant best.Some? ==> best.value < k && bestMarket == Some(ReadBack(ms[best.value])) &&
                                 costs[best.value] == lowestTotalCost
      {
        FirstMinStep(costs, k);
        var market := ReadMarketRow(marketRows[k], ms[k]);
        var cost := TotalOverRows(lineRows, ls, market.id, items);
        if cost.None? || (lowestTotalCost.Some? && cost.value >= lowestTotalCost.value) {
          continue;
        }
        bestMarket := Some(market);
        lowestTotalCost := cost;
        best := Some(k);
      }
      assert costs[..|marketRows|] == costs;
    }
  }
}
