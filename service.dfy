/**
 * The marketplace service: it validates each request, calls the repository,
 * and turns every outcome, including every exception, into an `ApiResponse`.
 * Nothing escapes as an exception; `HandleException` decides the code.
 */
module Service {
  import opened Wrappers
  import opened Entities
  import opened Text
  import opened Pricing
  import opened Repository

  // ---------------------------------------------------------------------
  // The messages the service writes into its exceptions
  // ---------------------------------------------------------------------

  function ProductWithNameNotFoundMessage(productName: string): string {
    "Product with name '" + productName + "' was not found."
  }

  function ProductAlreadyExistsMessage(productName: string): string {
    "Product with name '" + productName + "' already exists."
  }

  function MarketNotFoundMessage(marketId: string): string {
    "Market with ID " + marketId + " was not found."
  }

  function NegativeAmountMessage(amount: int): string {
    "Amount can't be less than zero (" + FormatInt(amount) + ")."
  }

  function NonPositivePriceMessage(price: Money): string {
    "Price can't be zero or less (" + FormatInt(price) + ")."
  }

  function NegativeBalanceMessage(money: Money): string {
    "Balance can't be less than zero (" + FormatInt(money) + ")."
  }

  function NegativePurchaseMessage(amount: int): string {
    "Can't buy less than zero products (" + FormatInt(amount) + ")."
  }

  function ProductNotFoundMessage(productName: string): string {
    "Product '" + productName + "' was not found."
  }

  function NoMarketSellsMessage(productName: string): string {
    "No market sells the product '" + productName + "'."
  }

  const NotEnoughStockMessage := "Not enough stock to complete the purchase."
  const NoBatchMarketMessage := "No market can fulfill the batch purchase requirements."

  /**
   * The exception-to-response mapping: business exceptions get their own
   * codes, anything else (a malformed Guid, a null dereference, a refused
   * database write) is an internal error. The message is always kept and
   * no payload is returned.
   */
  function HandleException<T>(ex: Exception): (r: ApiResponse<T>)
    ensures r.message == ex.message && r.data.None?
    ensures r.code != Success
    ensures r.code == Conflict <==> ex.ProductAlreadyExist?
    ensures r.code == NotFound <==> ex.MarketNotFound? || ex.ProductNotFound?
    ensures r.code == BadRequest <==> ex.InsufficientStock? || ex.InvalidNumber?
    ensures r.code == InternalError <==> !IsDomainException(ex)
  {
    match ex
    case ProductAlreadyExist(message) => ApiResponse(Conflict, message, None)
    case MarketNotFound(message) => ApiResponse(NotFound, message, None)
    case ProductNotFound(message) => ApiResponse(NotFound, message, None)
    case InsufficientStock(message) => ApiResponse(BadRequest, message, None)
    case InvalidNumber(message) => ApiResponse(BadRequest, message, None)
    case _ => ApiResponse(InternalError, ex.message, None)
  }

  /**
   * The result of a validated purchase: when the market can fulfil it, the
   * total is the sum of price times amount and every purchased line drops by
   * exactly its requested amount, with every price and every other line kept
   * and no non-negative amount turned negative; otherwise the purchase is
   * refused as insufficient stock and nothing changes.
   */
  ghost predicate CheckedOut(before: seq<ProductInMarket>, marketId: Guid, items: seq<Item>, r: ApiResponse<Money>,
                             after: seq<ProductInMarket>)
  {
    if CanFulfil(before, marketId, items) then
      r == ApiResponse(Success, PurchaseCompleted, Some(BatchSum(before, marketId, items))) &&
      after == ApplyPurchase(before, marketId, items) &&
      Purchased(before, after, marketId, items) &&
      forall j :: 0 <= j < |before| && before[j].amount >= 0 ==> after[j].amount >= 0
    else
      r == ApiResponse(BadRequest, NotEnoughStockMessage, None) && after == before
  }

  class MarketPlaceService {
    const repository: Repository

    constructor (repository: Repository)
      ensures this.repository == repository
    {
      this.repository := repository;
    }

    /**
     * `Guid.Parse(marketId)` followed by `FindMarketByIdAsync`: a malformed
     * id raises a format error, an unknown one a market-not-found error.
     */
    function MarketOf(marketId: string): (o: Outcome<Market>)
      reads repository.Repr()
      requires repository.Valid()
      ensures ParseGuid(marketId).None? ==> o == Raised(Format(GuidFormatMessage))
      ensures ParseGuid(marketId).Some? && FindMarket(repository.Markets(), ParseGuid(marketId).value).None? ==>
        o == Raised(MarketNotFound(MarketNotFoundMessage(marketId)))
      ensures o.Ok? ==> ParseGuid(marketId).Some? && o.value.id == ParseGuid(marketId).value
      ensures ParseGuid(marketId).Some? && FindMarket(repository.Markets(), ParseGuid(marketId).value).Some? ==>
        o == Ok(repository.AsRead(repository.Markets()[FindMarket(repository.Markets(), ParseGuid(marketId).value).value]))
    {
      match ParseGuid(marketId)
      case None => Raised(Format(GuidFormatMessage))
      case Some(id) =>
        match repository.FindMarketById(id)
        case None => Raised(MarketNotFound(MarketNotFoundMessage(marketId)))
        case Some(market) => Ok(market)
    }

    /**
     * The check made on one entry of a purchase or batch request: a negative
     * amount (only when amounts are checked), a lookup that raises, or an
     * unknown product.
     */
    function CheckItem(item: Item, checkAmount: bool): (e: Option<Exception>)
      reads repository.Repr()
      requires repository.Valid()
      ensures e.None? <==>
        (checkAmount ==> item.amount >= 0) && repository.FindProductByName(item.productName).Ok? &&
        repository.FindProductByName(item.productName).value.Some?
      ensures checkAmount && item.amount < 0 ==> e == Some(InvalidNumber(NegativePurchaseMessage(item.amount)))
      ensures e.Some? ==> e.value.InvalidNumber? || e.value.ProductNotFound? ||
                          (repository.FileRepo? && e.value == NullReference(NullReferenceMessage))
    {
      if checkAmount && item.amount < 0 then Some(InvalidNumber(NegativePurchaseMessage(item.amount)))
      else
        match repository.FindProductByName(item.productName)
        case Raised(ex) => Some(ex)
        case Ok(None) => Some(ProductNotFound(ProductNotFoundMessage(item.productName)))
        case Ok(Some(_)) => None
    }

    /** The error of the first entry, in request order, that fails its check; none when all pass. */
    function ItemError(items: seq<Item>, checkAmounts: bool): (e: Option<Exception>)
      reads repository.Repr()
      requires repository.Valid()
      ensures e.None? <==> forall k :: 0 <= k < |items| ==> CheckItem(items[k], checkAmounts).None?
      decreases |items|
    {
      if |items| == 0 then None
      else
        var e := CheckItem(items[0], checkAmounts);
        if e.Some? then e
        else
          var rest := ItemError(items[1..], checkAmounts);
          assert forall k :: 0 <= k < |items| - 1 ==> items[1..][k] == items[k + 1];
          if rest.Some? then rest
          else
            assert forall k :: 0 <= k < |items| ==> CheckItem(items[k], checkAmounts).None? by {
              forall k | 0 <= k < |items| ensures CheckItem(items[k], checkAmounts).None? {
                if k > 0 {
                  assert items[k] == items[1..][k - 1];
                }
              }
            }
            None
    }

    /** When every entry before `k` passes and entry `k` fails, the request's error is entry `k`'s. */
    lemma {:induction false} FirstFailingItem(items: seq<Item>, checkAmounts: bool, k: nat)
      requires repository.Valid()
      requires k < |items|
      requires forall j :: 0 <= j < k ==> CheckItem(items[j], checkAmounts).None?
      requires CheckItem(items[k], checkAmounts).Some?
      ensures ItemError(items, checkAmounts) == CheckItem(items[k], checkAmounts)
      decreases k
    {
      if k > 0 {
        var rest := items[1..];
        assert forall j :: 0 <= j < k - 1 ==> rest[j] == items[j + 1];
        FirstFailingItem(rest, checkAmounts, k - 1);
        assert rest[k - 1] == items[k];
      }
    }

    /** `AddMarketAsync`: `freshId` stands for `Guid.NewGuid()`. */
    method AddMarketAsync(name: string, address: string, freshId: Guid) returns (r: ApiResponse<string>)
      requires repository.Valid()
      modifies repository.Repr()
      ensures repository.Valid()
      ensures repository.ProductNames() == old(repository.ProductNames()) && repository.Lines() == old(repository.Lines())
      ensures r.code == Success <==> repository.FileRepo? || FindMarket(old(repository.Markets()), freshId).None?
      ensures r.code == Success ==>
        r == ApiResponse(Success, MarketAdded, Some(freshId)) &&
        repository.Markets() == old(repository.Markets()) + [Market(freshId, name, address)]
      ensures r.code != Success ==>
        r == ApiResponse(InternalError, DbUpdateMessage, None) && repository.Markets() == old(repository.Markets())
      ensures FindMarket(old(repository.Markets()), freshId).None? ==>
        repository.FindMarketById(freshId) == Some(repository.AsRead(Market(freshId, name, address)))
    {
      var market := Market(freshId, name, address);
      ghost var before := repository.Markets();
      var o := repository.AddMarket(market);
      if o.Raised? {
        return HandleException(o.ex);
      }
      FindMarketAppend(before, market, freshId);
      r := ApiResponse(Success, MarketAdded, Some(market.id));
    }

    /** `GetProductByName`: a null lookup is reported as not found. */
    method GetProductByName(productName: string) returns (r: ApiResponse<Product>)
      requires repository.Valid()
      ensures match repository.FindProductByName(productName)
              case Raised(ex) => r == HandleException(ex)
              case Ok(None) => r == ApiResponse(NotFound, ProductWithNameNotFoundMessage(productName), None)
              case Ok(Some(product)) => r == ApiResponse(Success, ProductFound, Some(product))
      ensures r.code == Success <==> r.data.Some?
      ensures r.data.Some? ==> r.data.value == Product(productName)
      ensures repository.FileRepo? ==> r.code != NotFound
      ensures repository.DbRepo? ==> (r.code == NotFound <==> productName !in repository.ProductNames())
    {
      var product := repository.FindProductByName(productName);
      if product.Raised? {
        return HandleException(product.ex);
      }
      if product.value.None? {
        return HandleException(ProductNotFound(ProductWithNameNotFoundMessage(productName)));
      }
      r := ApiResponse(Success, ProductFound, product.value);
    }

    /**
     * `AddProductAsync`: an existing name is a conflict and nothing is
     * written; otherwise the product is added. On the flat-file store the
     * lookup of a new name raises, so only the database store can succeed.
     */
    method AddProductAsync(productName: string) returns (r: ApiResponse<string>)
      requires repository.Valid()
      modifies repository.Repr()
      ensures repository.Valid()
      ensures repository.Markets() == old(repository.Markets()) && repository.Lines() == old(repository.Lines())
      ensures r.code == Success <==> repository.DbRepo? && productName !in old(repository.ProductNames())
      ensures r.code == Success ==>
        r == ApiResponse(Success, ProductAdded, Some(productName)) &&
        repository.ProductNames() == old(repository.ProductNames()) + [productName]
      ensures r.code != Success ==> repository.ProductNames() == old(repository.ProductNames())
      ensures old(repository.FindProductByName(productName)).Ok? && old(repository.FindProductByName(productName)).value.Some? ==>
        r == ApiResponse(Conflict, ProductAlreadyExistsMessage(productName), None)
      ensures old(repository.FindProductByName(productName)).Raised? ==>
        r == HandleException(old(repository.FindProductByName(productName)).ex)
    {
      var found := repository.FindProductByName(productName);
      if found.Raised? {
        return HandleException(found.ex);
      }
      if found.value.Some? {
        return HandleException(ProductAlreadyExist(ProductAlreadyExistsMessage(productName)));
      }
      var product := Product(productName);
      var o := repository.AddProduct(product);
      assert o.Ok?;
      r := ApiResponse(Success, ProductAdded, Some(product.name));
    }

    /** `GetMarketById`: a malformed id is an internal error, an unknown one not found. */
    method GetMarketById(marketId: string) returns (r: ApiResponse<Market>)
      requires repository.Valid()
      ensures MarketOf(marketId).Raised? ==> r == HandleException(MarketOf(marketId).ex)
      ensures MarketOf(marketId).Ok? ==> r == ApiResponse(Success, MarketFound, Some(MarketOf(marketId).value))
      ensures ParseGuid(marketId).None? ==> r.code == InternalError && r.message == GuidFormatMessage
      ensures r.code == Success <==>
        ParseGuid(marketId).Some? && FindMarket(repository.Markets(), ParseGuid(marketId).value).Some?
      ensures r.code != Success ==> r.data.None?
    {
      var marketGuid := ParseGuid(marketId);
      if marketGuid.None? {
        return HandleException(Format(GuidFormatMessage));
      }
      var market := repository.FindMarketById(marketGuid.value);
      if market.None? {
        return HandleException(MarketNotFound(MarketNotFoundMessage(marketId)));
      }
      r := ApiResponse(Success, MarketFound, market);
    }

    /**
     * `AddProductToMarketAsync`: the amount is checked first, then the
     * price, then the id and the market; the product lookup's null reaches
     * the upsert, which raises. Nothing is written unless the call succeeds.
     */
    method AddProductToMarketAsync(marketId: string, productName: string, amount: Int32, price: Money)
      returns (r: ApiResponse<string>)
      requires repository.Valid()
      modifies repository.Repr()
      ensures repository.Valid()
      ensures repository.Markets() == old(repository.Markets()) &&
              repository.ProductNames() == old(repository.ProductNames())
      ensures amount < 0 ==> r == ApiResponse(BadRequest, NegativeAmountMessage(amount), None)
      ensures amount >= 0 && price <= 0 ==> r == ApiResponse(BadRequest, NonPositivePriceMessage(price), None)
      ensures amount >= 0 && price > 0 && old(MarketOf(marketId)).Raised? ==>
        r == HandleException(old(MarketOf(marketId)).ex)
      ensures amount >= 0 && price > 0 && old(MarketOf(marketId)).Ok? ==>
        match old(repository.FindProductByName(productName))
        case Raised(ex) => r == HandleException(ex)
        case Ok(None) => r == HandleException(InvalidOperation(QueryParameterMessage))
        case Ok(Some(_)) => r == ApiResponse(Success, ProductAddedToProductInMarket, None)
      ensures r.code == Success ==>
        ParseGuid(marketId).Some? &&
        repository.Lines() == Upsert(old(repository.Lines()), ParseGuid(marketId).value, productName, amount, price)
      ensures r.code != Success ==> repository.Lines() == old(repository.Lines())
    {
      if amount < 0 {
        return HandleException(InvalidNumber(NegativeAmountMessage(amount)));
      }
      if price <= 0 {
        return HandleException(InvalidNumber(NonPositivePriceMessage(price)));
      }
      var marketGuid := ParseGuid(marketId);
      if marketGuid.None? {
        return HandleException(Format(GuidFormatMessage));
      }
      var market := repository.FindMarketById(marketGuid.value);
      if market.None? {
        return HandleException(MarketNotFound(MarketNotFoundMessage(marketId)));
      }
      var product := repository.FindProductByName(productName);
      if product.Raised? {
        return HandleException(product.ex);
      }
      var o := repository.AddProductInMarket(market.value, product.value, amount, price);
      if o.Raised? {
        return HandleException(o.ex);
      }
      r := ApiResponse(Success, ProductAddedToProductInMarket, None);
    }

    /** `GetMarketWithCheapestProductAsync`: a null market is reported as not found. */
    method GetMarketWithCheapestProductAsync(productName: string) returns (r: ApiResponse<Market>)
      requires repository.Valid()
      ensures r.data == match Cheapest(repository.Lines(), productName)
                        case Some(i) => repository.FindMarketById(repository.Lines()[i].marketId)
                        case None => if repository.FileRepo? then None else repository.FindMarketById(EmptyGuid)
      ensures r.code == Success <==> r.data.Some?
      ensures r.code == Success ==> r.message == CheapestMarketFound
      ensures r.code != Success ==> r == ApiResponse(NotFound, NoMarketSellsMessage(productName), None)
    {
      var market := repository.FindCheapestMarketWithProduct(productName);
      if market.None? {
        return HandleException(ProductNotFound(NoMarketSellsMessage(productName)));
      }
      r := ApiResponse(Success, CheapestMarketFound, market);
    }

    /**
     * `GetAvailableProductsAsync`: a negative budget is refused before the
     * market is looked up; a zero price raises inside the repository.
     */
    method GetAvailableProductsAsync(marketId: string, moneyToBuy: Money) returns (r: ApiResponse<map<string, int>>)
      requires repository.Valid()
      ensures moneyToBuy < 0 ==> r == ApiResponse(BadRequest, NegativeBalanceMessage(moneyToBuy), None)
      ensures moneyToBuy >= 0 && MarketOf(marketId).Raised? ==> r == HandleException(MarketOf(marketId).ex)
      ensures moneyToBuy >= 0 && MarketOf(marketId).Ok? ==>
        match AvailableProducts(repository.Lines(), MarketOf(marketId).value.id, moneyToBuy, repository.BudgetFilter())
        case Raised(ex) => r == HandleException(ex)
        case Ok(products) => r == ApiResponse(Success, AvailableProductsRetrieved, Some(products))
    {
      if moneyToBuy < 0 {
        return HandleException(InvalidNumber(NegativeBalanceMessage(moneyToBuy)));
      }
      var marketGuid := ParseGuid(marketId);
      if marketGuid.None? {
        return HandleException(Format(GuidFormatMessage));
      }
      var market := repository.FindMarketById(marketGuid.value);
      if market.None? {
        return HandleException(MarketNotFound(MarketNotFoundMessage(marketId)));
      }
      var products := repository.GetAvailableProducts(market.value, moneyToBuy);
      if products.Raised? {
        return HandleException(products.ex);
      }
      r := ApiResponse(Success, AvailableProductsRetrieved, Some(products.value));
    }

    /**
     * The lookup loop shared by the buy and batch paths: every entry is
     * checked in request order and the product found is recorded with its
     * amount. Fails on the first entry that does not pass.
     */
    method CollectProducts(productsToBuy: seq<Item>, checkAmounts: bool) returns (o: Outcome<seq<Item>>)
      requires repository.Valid()
      ensures o.Raised? <==> old(ItemError(productsToBuy, checkAmounts)).Some?
      ensures o.Raised? ==> o.ex == old(ItemError(productsToBuy, checkAmounts)).value
      ensures o.Ok? ==> o.value == productsToBuy
    {
      var productAmounts: seq<Item> := [];
      var k := 0;
      while k < |productsToBuy|
        invariant 0 <= k <= |productsToBuy|
        invariant productAmounts == productsToBuy[..k]
        invariant forall j :: 0 <= j < k ==> CheckItem(productsToBuy[j], checkAmounts).None?
      {
        var item := productsToBuy[k];
        var error := CheckItem(item, checkAmounts);
        if error.Some? {
          FirstFailingItem(productsToBuy, checkAmounts, k);
          return Raised(error.value);
        }
        var product := repository.FindProductByName(item.productName).value.value;
        productAmounts := productAmounts + [Item(product.name, item.amount)];
        k := k + 1;
      }
      assert productsToBuy[..k] == productsToBuy;
      o := Ok(productAmounts);
    }

    /**
     * `BuyProductsAsync`: market, then the entries in order, then the total;
     * only a purchase the market can fulfil decrements anything.
     */
    method BuyProductsAsync(marketId: string, productsToBuy: seq<Item>) returns (r: ApiResponse<Money>)
      requires repository.Valid()
      requires DistinctNames(productsToBuy)
      modifies repository.Repr()
      ensures repository.Valid()
      ensures repository.Markets() == old(repository.Markets()) &&
              repository.ProductNames() == old(repository.ProductNames())
      ensures old(MarketOf(marketId)).Raised? ==>
        r == HandleException(old(MarketOf(marketId)).ex) && repository.Lines() == old(repository.Lines())
      ensures old(MarketOf(marketId)).Ok? && old(ItemError(productsToBuy, true)).Some? ==>
        r == HandleException(old(ItemError(productsToBuy, true)).value) && repository.Lines() == old(repository.Lines())
      ensures old(MarketOf(marketId)).Ok? && old(ItemError(productsToBuy, true)).None? ==>
        CheckedOut(old(repository.Lines()), old(MarketOf(marketId)).value.id, productsToBuy, r, repository.Lines())
    {
      var market := MarketOf(marketId);
      if market.Raised? {
        return HandleException(market.ex);
      }
      var collected := CollectProducts(productsToBuy, true);
      if collected.Raised? {
        return HandleException(collected.ex);
      }
      r := Checkout(market.value, productsToBuy);
    }

    /**
     * The buy path after validation: the total is computed first, and only
     * when it is defined is every entry decremented.
     */
    method Checkout(market: Market, productAmounts: seq<Item>) returns (r: ApiResponse<Money>)
      requires repository.Valid()
      requires DistinctNames(productAmounts)
      requires forall k :: 0 <= k < |productAmounts| ==> CheckItem(productAmounts[k], true).None?
      modifies repository.Repr()
      ensures repository.Valid()
      ensures repository.Markets() == old(repository.Markets()) &&
              repository.ProductNames() == old(repository.ProductNames())
      ensures CheckedOut(old(repository.Lines()), market.id, productAmounts, r, repository.Lines())
    {
      assert forall k :: 0 <= k < |productAmounts| ==>
        productAmounts[k].amount >= 0 && (repository.FileRepo? ==> ',' !in productAmounts[k].productName);
      ghost var lines := repository.Lines();
      repository.ValidKeys();
      var totalCost := repository.CalculateTotalPrice(market, productAmounts);
      TotalCostMeaning(lines, market.id, productAmounts);
      if totalCost.None? {
        return HandleException(InsufficientStock(NotEnoughStockMessage));
      }
      Decrement(market, productAmounts);
      PurchaseMeaning(lines, market.id, productAmounts);
      r := ApiResponse(Success, PurchaseCompleted, totalCost);
    }

    /** The buy path's decrement loop: `AddProductInMarketAsync(market, product, -amount, 0)` per entry. */
    method Decrement(market: Market, productAmounts: seq<Item>)
      requires repository.Valid()
      requires DistinctNames(productAmounts)
      requires CanFulfil(repository.Lines(), market.id, productAmounts)
      requires forall k :: 0 <= k < |productAmounts| ==> productAmounts[k].amount >= 0
      requires repository.FileRepo? ==> forall k :: 0 <= k < |productAmounts| ==> ',' !in productAmounts[k].productName
      modifies repository.Repr()
      ensures repository.Valid()
      ensures repository.Markets() == old(repository.Markets()) &&
              repository.ProductNames() == old(repository.ProductNames())
      ensures repository.Lines() == ApplyPurchase(old(repository.Lines()), market.id, productAmounts)
    {
      ghost var lines := repository.Lines();
      ghost var markets := repository.Markets();
      ghost var names := repository.ProductNames();
      repository.ValidKeys();
      for k := 0 to |productAmounts|
        invariant repository.Valid()
        invariant repository.Markets() == markets && repository.ProductNames() == names
        invariant repository.Lines() == ApplyPurchase(lines, market.id, productAmounts[..k])
      {
        PurchaseNext(lines, market.id, productAmounts, k);
        TakeStock(market, productAmounts[k]);
      }
      assert productAmounts[..|productAmounts|] == productAmounts;
    }

    /** One step of the decrement loop: the line is known to exist, so the upsert cannot fail. */
    method TakeStock(market: Market, item: Item)
      requires repository.Valid()
      requires FindLine(repository.Lines(), market.id, item.productName).Some?
      requires item.amount >= 0
      requires repository.FileRepo? ==> ',' !in item.productName
      modifies repository.Repr()
      ensures repository.Valid()
      ensures repository.Markets() == old(repository.Markets()) &&
              repository.ProductNames() == old(repository.ProductNames())
      ensures repository.Lines() == Upsert(old(repository.Lines()), market.id, item.productName, -item.amount, 0)
    {
      var o := repository.AddProductInMarket(market, Some(Product(item.productName)), -item.amount, 0);
      assert o.Ok?;
    }

    /**
     * `GetMarketWithBestPriceForBatch`: every entry must name a known product
     * (amounts are not checked); a null market is reported as not found.
     */
    method GetMarketWithBestPriceForBatch(productsToBuy: seq<Item>) returns (r: ApiResponse<Market>)
      requires repository.Valid()
      requires DistinctNames(productsToBuy)
      ensures old(ItemError(productsToBuy, false)).Some? ==> r == HandleException(old(ItemError(productsToBuy, false)).value)
      ensures old(ItemError(productsToBuy, false)).None? ==>
        match BestMarket(repository.Markets(), repository.Lines(), productsToBuy)
        case None => r == ApiResponse(NotFound, NoBatchMarketMessage, None)
        case Some(i) => r == ApiResponse(Success, BestMarketFoundForBatchPurchase,
                                         Some(repository.AsRead(repository.Markets()[i])))
      ensures r.code == Success <==> r.data.Some?
    {
      var collected := CollectProducts(productsToBuy, false);
      if collected.Raised? {
        return HandleException(collected.ex);
      }
      var market := repository.FindMarketWithCheapestBatchPrice(collected.value);
      if market.None? {
        return HandleException(MarketNotFound(NoBatchMarketMessage));
      }
      r := ApiResponse(Success, BestMarketFoundForBatchPurchase, market);
    }
  }
}
