/**
 * The repository interface the service is written against, with its two
 * implementations. Each operation dispatches to the store at hand; the
 * contracts say what both stores share and where they part ways.
 */
module Repository {
  import opened Wrappers
  import opened Entities
  import opened Pricing
  import opened FileRepository
  import opened DbRepository

  datatype Repository = FileRepo(file: FileMarketPlaceRepository) | DbRepo(db: DbMarketPlaceRepository)
  {
    ghost function Repr(): set<object> {
      match this
      case FileRepo(f) => {f}
      case DbRepo(d) => {d}
    }

    ghost predicate Valid()
      reads Repr()
    {
      match this
      case FileRepo(f) => f.Valid()
      case DbRepo(d) => d.Valid()
    }

    /** The markets, in storage order. */
    ghost function Markets(): seq<Market>
      reads Repr()
    {
      match this
      case FileRepo(f) => f.markets
      case DbRepo(d) => d.markets
    }

    /** The names of the stored products, in storage order. */
    ghost function ProductNames(): seq<string>
      reads Repr()
    {
      match this
      case FileRepo(f) => if |f.productCache| == 0 then [] else f.productCache[1..]
      case DbRepo(d) => Names(d.products)
    }

    /** The inventory lines, in storage order. */
    ghost function Lines(): seq<ProductInMarket>
      reads Repr()
    {
      match this
      case FileRepo(f) => f.lines
      case DbRepo(d) => d.productsInMarkets
    }

    /** Only the database store leaves rows priced above the budget out of the affordability query. */
    predicate BudgetFilter() {
      DbRepo?
    }

    /** A stored market as the store hands it back: the flat file re-reads the row's fields. */
    function AsRead(m: Market): (r: Market)
      ensures r.id == m.id
      ensures DbRepo? ==> r == m
      ensures ',' !in m.name && ',' !in m.address ==> r == m
    {
      if FileRepo? then
        if ',' !in m.name && ',' !in m.address then ReadBackPlain(m); ReadBack(m) else ReadBack(m)
      else m
    }

    lemma {:induction false} ValidKeys()
      requires Valid()
      ensures UniqueKeys(Lines())
    {
    }

    /**
     * The product lookup: the database store yields null for an unknown name,
     * the flat file raises; a product found always carries the name asked for.
     */
    function FindProductByName(productName: string): (r: Outcome<Option<Product>>)
      reads Repr()
      requires Valid()
      ensures r.Ok? && r.value.Some? ==> r.value.value == Product(productName)
      ensures DbRepo? ==> r.Ok?
      ensures FileRepo? ==> (r.Ok? ==> r.value.Some? && ',' !in productName)
      ensures FileRepo? && r.Raised? ==> r.ex == NullReference(NullReferenceMessage)
      ensures r == Ok(None) <==> DbRepo? && productName !in ProductNames()
    {
      match this
      case FileRepo(f) =>
        var found := f.FindProductByName(productName);
        if found.Ok? then Ok(Some(found.value)) else Raised(found.ex)
      case DbRepo(d) =>
        Ok(d.FindProductByName(productName))
    }

    /** The first market with the id, as the store hands it back, or null. */
    function FindMarketById(marketId: Guid): (r: Option<Market>)
      reads Repr()
      requires Valid()
      ensures r == match FindMarket(Markets(), marketId)
                   case Some(i) => Some(AsRead(Markets()[i]))
                   case None => None
    {
      match this
      case FileRepo(f) => f.FindMarketById(marketId)
      case DbRepo(d) => d.FindMarketById(marketId)
    }

    /** The flat file appends without checking; the database refuses a second market with the same id. */
    method AddMarket(market: Market) returns (o: Outcome<()>)
      requires Valid()
      modifies Repr()
      ensures Valid()
      ensures o.Ok? <==> FileRepo? || FindMarket(old(Markets()), market.id).None?
      ensures o.Ok? ==> Markets() == old(Markets()) + [market]
      ensures o.Raised? ==> o.ex == DbUpdate(DbUpdateMessage) && Markets() == old(Markets())
      ensures ProductNames() == old(ProductNames()) && Lines() == old(Lines())
    {
      match this {
        case FileRepo(f) =>
          f.AddMarket(market);
          o := Ok(());
        case DbRepo(d) =>
          o := d.AddMarket(market);
      }
    }

    /** The flat file appends without checking; the database refuses a second product with the same name. */
    method AddProduct(product: Product) returns (o: Outcome<()>)
      requires Valid()
      modifies Repr()
      ensures Valid()
      ensures o.Ok? <==> FileRepo? || product.name !in old(ProductNames())
      ensures o.Ok? ==> ProductNames() == old(ProductNames()) + [product.name]
      ensures o.Raised? ==> o.ex == DbUpdate(DbUpdateMessage) && ProductNames() == old(ProductNames())
      ensures Markets() == old(Markets()) && Lines() == old(Lines())
    {
      match this {
        case FileRepo(f) =>
          f.AddProduct(product);
          o := Ok(());
        case DbRepo(d) =>
          ghost var before := d.products;
          assert forall k :: 0 <= k < |before| ==> Names(before)[k] == before[k].name;
          o := d.AddProduct(product);
          assert o.Ok? ==> Names(d.products) == Names(old(d.products)) + [product.name];
      }
    }

    /**
     * The stocking upsert. A null product raises; a key already present is
     * always updated; the flat file also always inserts, while the database
     * refuses a new row whose market or product it does not hold.
     */
    method AddProductInMarket(market: Market, product: Option<Product>, amount: Int32, price: Money)
      returns (o: Outcome<()>)
      requires Valid()
      requires FileRepo? && product.Some? ==> ',' !in product.value.name
      modifies Repr()
      ensures Valid()
      ensures Markets() == old(Markets()) && ProductNames() == old(ProductNames())
      ensures product.None? ==>
        o == Raised(if FileRepo? then NullReference(NullReferenceMessage) else InvalidOperation(QueryParameterMessage))
      ensures product.Some? && (FileRepo? || FindLine(old(Lines()), market.id, product.value.name).Some?) ==> o.Ok?
      ensures product.Some? && FindMarket(old(Markets()), market.id).Some? && product.value.name in old(ProductNames()) ==>
        o.Ok?
      ensures o.Ok? ==> Lines() == Upsert(old(Lines()), market.id, product.value.name, amount, price)
      ensures o.Raised? ==> Lines() == old(Lines())
    {
      match this {
        case FileRepo(f) =>
          o := f.AddProductInMarket(market, product, amount, price);
        case DbRepo(d) =>
          if product.Some? && FindMarket(old(d.markets), market.id).Some? && product.value.name in old(Names(d.products)) {
            var k :| 0 <= k < |d.products| && Names(d.products)[k] == product.value.name;
            assert d.products[k].name == product.value.name;
          }
          o := d.AddProductInMarket(market, product, amount, price);
      }
    }

    /**
     * The market of the cheapest in-stock line. With no such line the flat
     * file yields null and the database looks up the empty Guid.
     */
    method FindCheapestMarketWithProduct(productName: string) returns (r: Option<Market>)
      requires Valid()
      ensures r == match Cheapest(Lines(), productName)
                   case Some(i) => FindMarketById(Lines()[i].marketId)
                   case None => if FileRepo? then None else FindMarketById(EmptyGuid)
    {
      match this {
        case FileRepo(f) =>
          r := f.FindCheapestMarketWithProduct(productName);
        case DbRepo(d) =>
          r := d.FindCheapestMarketWithProduct(productName);
      }
    }

    method GetAvailableProducts(market: Market, money: Money) returns (r: Outcome<map<string, int>>)
      requires Valid()
      ensures r == AvailableProducts(Lines(), market.id, money, BudgetFilter())
    {
      match this {
        case FileRepo(f) =>
          r := f.GetAvailableProducts(market, money);
        case DbRepo(d) =>
          r := d.GetAvailableProducts(market, money);
      }
    }

    method CalculateTotalPrice(market: Market, items: seq<Item>) returns (r: Option<Money>)
      requires Valid()
      ensures r == TotalCost(Lines(), market.id, items)
    {
      match this {
        case FileRepo(f) =>
          r := f.CalculateTotalPrice(market, items);
        case DbRepo(d) =>
          r := d.CalculateTotalPrice(market, items);
      }
    }

    method FindMarketWithCheapestBatchPrice(items: seq<Item>) returns (r: Option<Market>)
      requires Valid()
      ensures r == match BestMarket(Markets(), Lines(), items)
                   case Some(i) => Some(AsRead(Markets()[i]))
                   case None => None
    {
      match this {
        case FileRepo(f) =>
          r := f.FindMarketWithCheapestBatchPrice(items);
        case DbRepo(d) =>
          r := d.FindMarketWithCheapestBatchPrice(items);
      }
    }
  }
}
