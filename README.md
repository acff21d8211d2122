# MarketPlace inventory and pricing, modelled in Dafny

MarketPlace is a small web service. It manages:

- **markets:** a Guid id, a name and an address;
- **products:** identified by name;
- **inventory lines:** how many units of a product a market holds and at what price.

The model covers the business layer, `MarketPlaceService`, and both storage back ends behind `IMarketPlaceRepository`:

- the flat-file store keeps three comma-separated files, each behind an in-memory list of rows that starts with a header row;
- the database store keeps three tables under the keys `Market.Id`, `Product.Name` and `(MarketId, ProductName)`.

Every service operation answers with an `ApiResponse`: a response code, a message and optional data. `HandleException` turns each exception into a code.

Files:

- `entities.dfy`: entities and the types around them.
  - The entities: `Market`, `Product`, `ProductInMarket`, `Item`.
  - `Int32` and its wrap-around, and truncating division.
  - Lower-case hyphenated Guid text and `Guid.Parse` on it.
  - The exceptions, `Outcome` (a value or the exception raised), `ResponseCode` and `ApiResponse`.
- `text.dfy`: `string.Split(',')` and joining with commas, plus the integer text written to and read from the inventory file.
- `pricing.dfy`: the pure meaning of the queries and updates, shared by both stores:
  - the `FirstOrDefault` lookups;
  - the stocking upsert;
  - the cheapest offer;
  - the batch total;
  - the market with the cheapest batch;
  - the affordability map;
  - the stock decrement of a purchase.

  Each has a lemma saying in plain quantifiers what it computes.
- `db_repository.dfy`: the database store as a class whose three tables are sequences, keys enforced.
- `file_repository.dfy`: the flat-file store as a class.
  - The row lists are its real state; the parsed sequences are ghost fields tied to the rows by `Valid()`.
  - Every lookup splits rows exactly as the source does.
- `repository.dfy`: the repository interface as a datatype over the two stores. Its contracts say what the stores share and where they differ.
- `service.dfy`: `MarketPlaceService` and `HandleException`.
- `scenarios.dfy`: worked examples on a two-line inventory.

Money is an integer count of minor units, e.g. hundredths.

The model follows the code where it differs from what its names and messages promise:

- the flat-file store lists products priced above the budget, with an affordable amount of 0;
- its product lookup raises a null-reference failure for an unknown name instead of yielding null;
- a purchase the stock cannot cover is answered `BadRequest`;
- stocking with a null product raises; for an unknown product this happens in the database store only, where EF Core wraps the null dereference in an `InvalidOperationException` while evaluating the query's parameters, so the answer is InternalError with EF Core's text.

## Model

| member | source | states |
|---|---|---|
| Entities.Wrap32 | MarketPlace.DAL/Repositories/FileMarketPlaceRepository.cs:80 | the result differs from the mathematical sum by a multiple of 2^32 and lies in the 32-bit range, so it is C#'s unchecked `int` sum; a sum in range is unchanged |
| Entities.TruncDiv | MarketPlace.DAL/Repositories/FileMarketPlaceRepository.cs:129 | `(int)(money / price)` truncates toward zero: the remainder is zero or has the sign of the dividend, and is smaller than the divisor in magnitude, for either sign of the divisor |
| Entities.GuidHasNoComma | MarketPlace.DAL/Repositories/FileMarketPlaceRepository.cs:53 | a Guid's text holds no comma, so it is always a whole field of a row |
| Entities.ParseGuid | MarketPlace.BLL/MarketPlaceService.cs:73 | `Guid.Parse` succeeds only on 36 characters whose lower-cased form is a Guid, and yields that form; anything else fails |
| Entities.ParseGuidOfGuid | MarketPlace.BLL/MarketPlaceService.cs:73 | parsing a Guid's own text gives the same Guid back |
| Text.Split | MarketPlace.DAL/Repositories/FileMarketPlaceRepository.cs:70 | splitting yields at least one field, no field holds a comma, and joining the fields gives the text back |
| Text.Join | MarketPlace.DAL/Repositories/FileMarketPlaceRepository.cs:53 | the C# interpolation of fields with a comma between each two (defined here; Split, JoinCons and SplitJoin state its laws) |
| Text.JoinCons | MarketPlace.DAL/Repositories/FileMarketPlaceRepository.cs:53 | joining a leading field adds it and a comma in front of the rest |
| Text.JoinThree | MarketPlace.DAL/Repositories/FileMarketPlaceRepository.cs:53 | joining three fields puts one comma between each pair |
| Text.SplitNoComma | MarketPlace.DAL/Repositories/FileMarketPlaceRepository.cs:204 | text without commas splits into itself alone |
| Text.SplitAppend | MarketPlace.DAL/Repositories/FileMarketPlaceRepository.cs:70 | splitting two texts joined by a comma concatenates their fields |
| Text.SplitThree | MarketPlace.DAL/Repositories/FileMarketPlaceRepository.cs:167 | a row whose first field holds no comma splits into that field followed by the fields of the other two |
| Text.SplitJoin | MarketPlace.DAL/Repositories/FileMarketPlaceRepository.cs:83 | splitting the row joined from comma-free fields gives those fields back |
| Text.DigitChar | MarketPlace.DAL/Repositories/FileMarketPlaceRepository.cs:87 | the character written for a digit is a digit and stands for it |
| Text.FormatNat | MarketPlace.DAL/Repositories/FileMarketPlaceRepository.cs:87 | a natural number is written as a non-empty run of digits |
| Text.FormatInt | MarketPlace.DAL/Repositories/FileMarketPlaceRepository.cs:83 | written numbers hold no comma, so they stay one field |
| Text.ParseInt | MarketPlace.DAL/Repositories/FileMarketPlaceRepository.cs:77 | `int.Parse` on an optional minus sign followed by digits (defined here; ParseFormatInt states that it reads back what FormatInt writes) |
| Text.ParseFormatNat | MarketPlace.DAL/Repositories/FileMarketPlaceRepository.cs:77 | reading back the digits written for a natural number gives it back |
| Text.ParseFormatInt | MarketPlace.DAL/Repositories/FileMarketPlaceRepository.cs:77-78 | `int.Parse` of a written amount or price gives the number back |
| Pricing.FindLine | MarketPlace.DAL/Repositories/DbMarketPlaceRepository.cs:25-26 | the index of the first line with the market and product; none exactly when no line has that key |
| Pricing.FindLineUnique | MarketPlace.DAL/Repositories/MarketPlaceDbContext.cs:20 | under the composite key every line is found at its own position |
| Pricing.SameKeysFindLine | MarketPlace.DAL/Repositories/FileMarketPlaceRepository.cs:67-72 | lookups only see the keys, so changing amounts and prices changes no lookup |
| Pricing.LineAt | MarketPlace.DAL/Repositories/DbMarketPlaceRepository.cs:25-26 | the first line with the key, which is one of the lines; none exactly when no line has the key |
| Pricing.FindMarket | MarketPlace.DAL/Repositories/DbMarketPlaceRepository.cs:122-125 | the index of the first market with the id; none exactly when no market has it |
| Pricing.FindMarketAppend | MarketPlace.DAL/Repositories/DbMarketPlaceRepository.cs:11-15 | after appending a market, an earlier match still wins and the new market is found only when the id was absent |
| Pricing.Upsert | MarketPlace.DAL/Repositories/DbMarketPlaceRepository.cs:23-46 | the stocking upsert: the first line with the key is restocked in place, or a new line is appended (defined here; UpsertLineAt states it as a keyed update; the flat file does the same at MarketPlace.DAL/Repositories/FileMarketPlaceRepository.cs lines 67-89) |
| Pricing.Restock | MarketPlace.DAL/Repositories/DbMarketPlaceRepository.cs:41-42 | `Amount += amount` with 32-bit wrap-around, and the price replaced only when the new one is positive (defined here; UpsertExistingIsUpdate and StockTwice use it) |
| Pricing.UpsertExistingIsUpdate | MarketPlace.DAL/Repositories/DbMarketPlaceRepository.cs:39-43 | stocking a present key rewrites only that line: amount added with 32-bit wrap, price replaced only when positive |
| Pricing.UpsertKeepsUniqueKeys | MarketPlace.DAL/Repositories/MarketPlaceDbContext.cs:20 | stocking never creates a second line with the same (market, product) key |
| Pricing.UpsertProductNames | MarketPlace.DAL/Repositories/FileMarketPlaceRepository.cs:74-89 | after stocking, each line keeps its old product name or carries the stocked one |
| Pricing.UpsertLineAt | MarketPlace.DAL/Repositories/DbMarketPlaceRepository.cs:23-46 | after stocking, the stocked key's line is the old one restocked or the new line; every other key's line is unchanged |
| Pricing.UpsertExistingFind | MarketPlace.DAL/Repositories/FileMarketPlaceRepository.cs:74-84 | restocking a present key moves no line |
| Pricing.UpsertAbsentFind | MarketPlace.DAL/Repositories/FileMarketPlaceRepository.cs:85-89 | stocking an absent key appends its line at the end and moves no other |
| Pricing.StockTwice | MarketPlace.DAL/Repositories/DbMarketPlaceRepository.cs:28-43 | stocking a new key twice adds the amounts and keeps the later positive price |
| Pricing.FirstMin | MarketPlace.DAL/Repositories/FileMarketPlaceRepository.cs:101-109 | the chosen position holds a candidate |
| Pricing.FirstMinStep | MarketPlace.DAL/Repositories/FileMarketPlaceRepository.cs:176-178 | one more candidate becomes the best exactly when it is defined and strictly below the best so far |
| Pricing.FirstMinMeaning | MarketPlace.DAL/Repositories/FileMarketPlaceRepository.cs:176-178 | the strict-less scan picks the earliest least candidate, and nothing exactly when there is no candidate |
| Pricing.InStock | MarketPlace.DAL/Repositories/DbMarketPlaceRepository.cs:51 | a line offers the product when it names it and holds a positive amount (defined here) |
| Pricing.Cheapest | MarketPlace.DAL/Repositories/DbMarketPlaceRepository.cs:48-57 | the index of the first least-priced in-stock line, or none (defined here; CheapestMeaning states it in quantifiers) |
| Pricing.CheapestMeaning | MarketPlace.DAL/Repositories/DbMarketPlaceRepository.cs:50-54 | the chosen line is in stock, no in-stock line is cheaper and every earlier one is dearer; nothing exactly when none is in stock |
| Pricing.Covers | MarketPlace.DAL/Repositories/DbMarketPlaceRepository.cs:91-97 | the market has a line for the item holding at least the requested amount (defined here) |
| Pricing.TotalCost | MarketPlace.DAL/Repositories/DbMarketPlaceRepository.cs:85-103 | the running sum over the items, null at the first item without a covering line (defined here; TotalCostMeaning relates it to BatchSum) |
| Pricing.ItemCost | MarketPlace.DAL/Repositories/DbMarketPlaceRepository.cs:99 | price times requested amount for a covered item (defined here) |
| Pricing.BatchSum | MarketPlace.DAL/Repositories/DbMarketPlaceRepository.cs:85-103 | the independent reference total: the item costs summed from the front (defined here; TotalCostSum proves the loop total equal to it) |
| Pricing.TotalCostStaysNone | MarketPlace.DAL/Repositories/DbMarketPlaceRepository.cs:94-97 | once the total is null for a prefix of the items it is null for all of them |
| Pricing.TotalCostExtend | MarketPlace.DAL/Repositories/FileMarketPlaceRepository.cs:149-153 | a next item with enough stock adds its price times amount to the running total |
| Pricing.TotalCostShort | MarketPlace.DAL/Repositories/FileMarketPlaceRepository.cs:149-150 | a next item without a line, or with less stock than requested, makes the total null |
| Pricing.TotalCostSum | MarketPlace.DAL/Repositories/DbMarketPlaceRepository.cs:85-103 | when every item is covered the total is the sum of price times requested amount |
| Pricing.TotalCostCovers | MarketPlace.DAL/Repositories/DbMarketPlaceRepository.cs:94-97 | a defined total means every item has a line with enough stock |
| Pricing.BatchSumSnoc | MarketPlace.DAL/Repositories/DbMarketPlaceRepository.cs:99 | a batch's sum is the sum of its prefix plus price times amount of the last item |
| Pricing.TotalCostMeaning | MarketPlace.DAL/Repositories/DbMarketPlaceRepository.cs:85-103 | the total exists exactly when every item has a line with enough stock, and then equals the sum of price times amount |
| Pricing.BestMarket | MarketPlace.DAL/Repositories/DbMarketPlaceRepository.cs:105-120 | the first market whose defined total is strictly below every earlier one (defined here; BestMarketMeaning states it in quantifiers) |
| Pricing.BestMarketMeaning | MarketPlace.DAL/Repositories/DbMarketPlaceRepository.cs:105-120 | the chosen market can fulfil the batch at a total no greater than any other and below every earlier one; nothing exactly when no market can fulfil it |
| Pricing.Affordable | MarketPlace.DAL/Repositories/DbMarketPlaceRepository.cs:62 | a line the query evaluates: at the market, in stock and, in the database only, priced within budget (defined here) |
| Pricing.MaxAffordable | MarketPlace.DAL/Repositories/DbMarketPlaceRepository.cs:76-77 | `min((int)(money / price), amount)` (defined here; DbAffordableBounds bounds it) |
| Pricing.AvailableProducts | MarketPlace.DAL/Repositories/DbMarketPlaceRepository.cs:59-83 | the dictionary loop over the evaluated lines, later lines overwriting earlier entries, raising on a zero price (defined here; AvailableProductsMeaning states the whole map) |
| Pricing.AvailableProductsStaysRaised | MarketPlace.DAL/Repositories/DbMarketPlaceRepository.cs:76 | a division by a zero price aborts the whole query |
| Pricing.AvailableProductsStep | MarketPlace.DAL/Repositories/FileMarketPlaceRepository.cs:124-133 | one more line keeps a raised query raised, skips a line that does not qualify, raises on a zero price, and otherwise writes the product's affordable amount |
| Pricing.AvailableProductsRaises | MarketPlace.DAL/Repositories/DbMarketPlaceRepository.cs:76 | the query raises exactly when some qualifying line has price zero |
| Pricing.AvailableProductsMap | MarketPlace.DAL/Repositories/DbMarketPlaceRepository.cs:59-83 | under unique keys a successful query maps exactly the qualifying products, each to `min(money / price, amount)` |
| Pricing.AvailableProductsMeaning | MarketPlace.DAL/Repositories/DbMarketPlaceRepository.cs:59-83 | the map's keys are exactly the qualifying in-stock products, each mapped to `min(money / price, amount)`; a qualifying zero price raises |
| Pricing.DbAffordableBounds | MarketPlace.DAL/Repositories/DbMarketPlaceRepository.cs:62-77 | with the budget filter every listed amount is between 1 and the stock |
| Pricing.DivBelowDivisor | MarketPlace.DAL/Repositories/FileMarketPlaceRepository.cs:129 | a budget below the price affords none |
| Pricing.DivAtLeastOne | MarketPlace.DAL/Repositories/DbMarketPlaceRepository.cs:76 | a budget at or above the price affords at least one |
| Pricing.FileAffordableOverBudget | MarketPlace.DAL/Repositories/FileMarketPlaceRepository.cs:119-132 | the flat-file query lists in-stock products priced above the budget with amount 0 |
| Pricing.DbAffordableAgreesWithFile | MarketPlace.DAL/Repositories/DbMarketPlaceRepository.cs:59-83 | every entry the database query lists is listed by the flat-file query with the same amount |
| Pricing.Requested | MarketPlace.BLL/MarketPlaceService.cs:174-188 | the amount a purchase requests for a product, zero when none of its entries names it (defined here) |
| Pricing.RequestedFound | MarketPlace.BLL/MarketPlaceService.cs:196-199 | a non-zero requested amount is the amount of an entry naming the product |
| Pricing.ApplyPurchase | MarketPlace.BLL/MarketPlaceService.cs:196-199 | the decrement loop: one upsert of `-amount` at price 0 per entry, in order (defined here; ApplyPurchaseIsPurchased relates it to Purchased) |
| Pricing.Purchased | MarketPlace.BLL/MarketPlaceService.cs:190-199 | the independent statement of a purchase: same keys, same prices, and each line at the market lowered by its requested amount (defined here) |
| Pricing.PurchaseStep | MarketPlace.BLL/MarketPlaceService.cs:196-199 | one decrement of the purchase loop keeps every price and lowers only the bought line by its amount |
| Pricing.PurchaseNext | MarketPlace.BLL/MarketPlaceService.cs:196-199 | each decrement finds an existing line and is exactly a restock by the negated amount with price 0 |
| Pricing.ApplyPurchaseLast | MarketPlace.BLL/MarketPlaceService.cs:196-199 | the entry at any position is applied as one more upsert of its negated amount at price 0 |
| Pricing.PurchasePrefix | MarketPlace.BLL/MarketPlaceService.cs:174-188 | the entries before any entry of a valid purchase form a valid purchase that does not name that entry's product |
| Pricing.ApplyPurchaseIsPurchased | MarketPlace.BLL/MarketPlaceService.cs:196-199 | applying the entries one by one lowers each bought line by its requested amount and keeps every price, key and other line |
| Pricing.SameKeysUnique | MarketPlace.DAL/Repositories/MarketPlaceDbContext.cs:20 | lines with the same keys in the same places keep the composite key unique |
| Pricing.PurchasedNonNegative | MarketPlace.BLL/MarketPlaceService.cs:190-199 | a purchase the market can cover turns no non-negative stock negative |
| Pricing.PurchaseMeaning | MarketPlace.BLL/MarketPlaceService.cs:190-199 | after a covered purchase every bought line lost exactly its requested amount, prices and other lines are unchanged, keys stay unique and no stock turns negative |
| DbRepository.DbMarketPlaceRepository.constructor | MarketPlace.DAL/Repositories/DbMarketPlaceRepository.cs:9 | a store starts with empty tables |
| DbRepository.DbMarketPlaceRepository.AddMarket | MarketPlace.DAL/Repositories/DbMarketPlaceRepository.cs:11-15 | appends the market exactly when its id is new; a duplicate key raises the update failure and changes nothing |
| DbRepository.DbMarketPlaceRepository.AddProduct | MarketPlace.DAL/Repositories/DbMarketPlaceRepository.cs:17-21 | appends the product exactly when its name is new; a duplicate raises and changes nothing |
| DbRepository.DbMarketPlaceRepository.FindMarketById | MarketPlace.DAL/Repositories/DbMarketPlaceRepository.cs:122-125 | a stored market with the id, or null exactly when there is none |
| DbRepository.DbMarketPlaceRepository.FindProductByName | MarketPlace.DAL/Repositories/DbMarketPlaceRepository.cs:127-130 | a stored product with the name, or null exactly when there is none |
| DbRepository.DbMarketPlaceRepository.FindProductIn | MarketPlace.DAL/Repositories/DbMarketPlaceRepository.cs:129 | the first product of the table with the name, or null exactly when there is none |
| DbRepository.DbMarketPlaceRepository.AddProductInMarket | MarketPlace.DAL/Repositories/DbMarketPlaceRepository.cs:23-46 | a null product raises EF Core's query-parameter `InvalidOperationException`; a present key is restocked; a new line is added exactly when its market and product exist; the table is the upsert on success and unchanged otherwise |
| DbRepository.DbMarketPlaceRepository.FindCheapestMarketWithProduct | MarketPlace.DAL/Repositories/DbMarketPlaceRepository.cs:48-57 | the market of the cheapest in-stock line, the first among equals; with none in stock, the lookup of the empty Guid |
| DbRepository.DbMarketPlaceRepository.SelectAffordable | MarketPlace.DAL/Repositories/DbMarketPlaceRepository.cs:61-70 | the selected rows all pass the filter, and selecting first changes no answer of the query |
| DbRepository.DbMarketPlaceRepository.GetAvailableProducts | MarketPlace.DAL/Repositories/DbMarketPlaceRepository.cs:59-83 | the loop builds the filtered affordability map |
| DbRepository.DbMarketPlaceRepository.CalculateTotalPrice | MarketPlace.DAL/Repositories/DbMarketPlaceRepository.cs:85-103 | the loop yields the batch total, or null at the first missing or short line |
| DbRepository.DbMarketPlaceRepository.FindMarketWithCheapestBatchPrice | MarketPlace.DAL/Repositories/DbMarketPlaceRepository.cs:105-120 | the loop yields the first market with the least batch total, or null |
| FileRepository.MarketRow | MarketPlace.DAL/Repositories/FileMarketPlaceRepository.cs:53 | `$"{market.Id},{market.Name},{market.Address}"` (defined here; MarketRowFields states how it splits) |
| FileRepository.LineRow | MarketPlace.DAL/Repositories/FileMarketPlaceRepository.cs:83-87 | `$"{Id},{Name},{amount},{price}"` (defined here; LineRowFields states that each field reads back) |
| FileRepository.MarketRowFields | MarketPlace.DAL/Repositories/FileMarketPlaceRepository.cs:53 | a market row splits into the id followed by the fields of the name and of the address, so at least three fields |
| FileRepository.LineRowFields | MarketPlace.DAL/Repositories/FileMarketPlaceRepository.cs:76-78 | an inventory row with a comma-free name splits into its four fields, and each parses back to its value |
| FileRepository.ReadBack | MarketPlace.DAL/Repositories/FileMarketPlaceRepository.cs:192-197 | the market rebuilt from fields 1 and 2 of its row (defined here; ReadBackPlain and ReadBackTruncatesName state its laws) |
| FileRepository.ReadBackPlain | MarketPlace.DAL/Repositories/FileMarketPlaceRepository.cs:184-198 | a market without commas in name and address is read back unchanged |
| FileRepository.ReadBackTruncatesName | MarketPlace.DAL/Repositories/FileMarketPlaceRepository.cs:195 | a name holding a comma is read back as its strict, comma-free prefix |
| FileRepository.MarketRowsShaped | MarketPlace.DAL/Repositories/FileMarketPlaceRepository.cs:167-172 | every market row has the three fields the readers index |
| FileRepository.LineRowsShaped | MarketPlace.DAL/Repositories/FileMarketPlaceRepository.cs:103-105 | every inventory row of comma-free names has the four fields the readers index |
| FileRepository.FirstProductRow | MarketPlace.DAL/Repositories/FileMarketPlaceRepository.cs:200-210 | a product row with the name yields that product; none raises the null-reference failure |
| FileRepository.FirstMarketRow | MarketPlace.DAL/Repositories/FileMarketPlaceRepository.cs:186-197 | the first market row whose parsed id matches, rebuilt from fields 1 and 2 (defined here; FirstMarketRowModel relates it to FindMarket) |
| FileRepository.FirstMarketRowModel | MarketPlace.DAL/Repositories/FileMarketPlaceRepository.cs:184-198 | the row scan finds the re-read first market with the id, or null exactly when none has it |
| FileRepository.FindIndex | MarketPlace.DAL/Repositories/FileMarketPlaceRepository.cs:67-72 | the index of the first line row whose id text and name match (defined here; FindIndexModel relates it to FindLine) |
| FileRepository.FirstLineRow | MarketPlace.DAL/Repositories/FileMarketPlaceRepository.cs:145-147 | the index of the first line row whose parsed id and name match (defined here; FirstLineRowModel relates it to FindLine) |
| FileRepository.FindIndexModel | MarketPlace.DAL/Repositories/FileMarketPlaceRepository.cs:68-72 | the index scan by market text and product finds the same line as the key lookup |
| FileRepository.FirstLineRowModel | MarketPlace.DAL/Repositories/FileMarketPlaceRepository.cs:145-147 | the scan parsing the market id finds the same line as the key lookup |
| FileRepository.LineRowsUpdate | MarketPlace.DAL/Repositories/FileMarketPlaceRepository.cs:83 | rewriting one line rewrites only its row |
| FileRepository.LineRowsAppend | MarketPlace.DAL/Repositories/FileMarketPlaceRepository.cs:87-88 | appending a line appends its row |
| FileRepository.MarketRowsAppend | MarketPlace.DAL/Repositories/FileMarketPlaceRepository.cs:51-56 | appending a market appends its row |
| FileRepository.ExistingRowFields | MarketPlace.DAL/Repositories/FileMarketPlaceRepository.cs:76-78 | the stored amount and price are read back from an existing row |
| FileRepository.UpsertAbsentRows | MarketPlace.DAL/Repositories/FileMarketPlaceRepository.cs:85-89 | stocking an absent key appends exactly the new line's row |
| FileRepository.FileMarketPlaceRepository.constructor | MarketPlace.DAL/Repositories/FileMarketPlaceRepository.cs:17-28 | fresh files hold only their header rows |
| FileRepository.FileMarketPlaceRepository.AddMarket | MarketPlace.DAL/Repositories/FileMarketPlaceRepository.cs:51-56 | appends the market's row without any check; a new id is then found as the re-read market |
| FileRepository.FileMarketPlaceRepository.AddProduct | MarketPlace.DAL/Repositories/FileMarketPlaceRepository.cs:58-63 | appends the product's row without any check; a comma-free name is then found |
| FileRepository.FileMarketPlaceRepository.FindProductByName | MarketPlace.DAL/Repositories/FileMarketPlaceRepository.cs:200-210 | the product with the name when a row's first field is it, else the null-reference failure |
| FileRepository.FileMarketPlaceRepository.FindMarketById | MarketPlace.DAL/Repositories/FileMarketPlaceRepository.cs:184-198 | the first market with the id as re-read from its row, or null |
| FileRepository.FileMarketPlaceRepository.UpsertRows | MarketPlace.DAL/Repositories/FileMarketPlaceRepository.cs:67-89 | the row-level update produces the rows of the upserted lines |
| FileRepository.FileMarketPlaceRepository.AddProductInMarket | MarketPlace.DAL/Repositories/FileMarketPlaceRepository.cs:65-93 | a null product raises; otherwise the lines become the upsert, inserting without any key check |
| FileRepository.FileMarketPlaceRepository.FindCheapestMarketWithProduct | MarketPlace.DAL/Repositories/FileMarketPlaceRepository.cs:95-112 | the market of the first cheapest in-stock line, or null when none is in stock |
| FileRepository.FileMarketPlaceRepository.CheapestRow | MarketPlace.DAL/Repositories/FileMarketPlaceRepository.cs:97-109 | the scan keeps the market id of the first cheapest in-stock row, or none when no row is in stock |
| FileRepository.FileMarketPlaceRepository.GetAvailableProducts | MarketPlace.DAL/Repositories/FileMarketPlaceRepository.cs:114-136 | the loop builds the unfiltered affordability map |
| FileRepository.FileMarketPlaceRepository.AvailableOverRows | MarketPlace.DAL/Repositories/FileMarketPlaceRepository.cs:116-135 | the loop over the rows builds the unfiltered affordability map of the lines they hold |
| FileRepository.FileMarketPlaceRepository.CalculateTotalPrice | MarketPlace.DAL/Repositories/FileMarketPlaceRepository.cs:138-157 | the loop yields the batch total, or null at the first missing or short line |
| FileRepository.FileMarketPlaceRepository.TotalOverRows | MarketPlace.DAL/Repositories/FileMarketPlaceRepository.cs:140-156 | the loop over the rows yields the batch total of the lines they hold, or null |
| FileRepository.FileMarketPlaceRepository.ReadLineRow | MarketPlace.DAL/Repositories/FileMarketPlaceRepository.cs:145-152 | the first row of the market and product is the key lookup's line, read back with its stored amount and price |
| FileRepository.FileMarketPlaceRepository.FindMarketWithCheapestBatchPrice | MarketPlace.DAL/Repositories/FileMarketPlaceRepository.cs:159-182 | the loop yields the first re-read market with the least batch total, or null |
| FileRepository.FileMarketPlaceRepository.ReadMarketRow | MarketPlace.DAL/Repositories/FileMarketPlaceRepository.cs:167-173 | the market rebuilt from a stored row is the stored market as re-read |
| FileRepository.FileMarketPlaceRepository.BestOverRows | MarketPlace.DAL/Repositories/FileMarketPlaceRepository.cs:161-181 | the loop over the market rows yields the first re-read market with the least batch total, or null |
| Repository.Repository.AsRead | MarketPlace.DAL/Repositories/FileMarketPlaceRepository.cs:192-197 | a market as handed back keeps its id; it is unchanged from the database, and from the file when comma-free |
| Repository.Repository.ValidKeys | MarketPlace.DAL/Repositories/MarketPlaceDbContext.cs:20 | both stores hold at most one line per (market, product) key |
| Repository.Repository.FindProductByName | MarketPlace.DAL/Repositories/Interfaces/IMarketPlaceRepository.cs:10 | a found product carries the name; only the database yields null, exactly for an unknown name; the flat file raises instead |
| Repository.Repository.FindMarketById | MarketPlace.DAL/Repositories/Interfaces/IMarketPlaceRepository.cs:8 | the first market with the id as the store hands it back, or null |
| Repository.Repository.AddMarket | MarketPlace.DAL/Repositories/Interfaces/IMarketPlaceRepository.cs:7 | succeeds for the flat file or a new id, then appends; otherwise raises and changes nothing |
| Repository.Repository.AddProduct | MarketPlace.DAL/Repositories/Interfaces/IMarketPlaceRepository.cs:9 | succeeds for the flat file or a new name, then appends; otherwise raises and changes nothing |
| Repository.Repository.AddProductInMarket | MarketPlace.DAL/Repositories/Interfaces/IMarketPlaceRepository.cs:11 | null raises, a null-reference failure in the flat file and EF Core's query-parameter failure in the database; present keys and the flat file always succeed, as does a stored market and product; success is the upsert, failure changes nothing |
| Repository.Repository.FindCheapestMarketWithProduct | MarketPlace.DAL/Repositories/Interfaces/IMarketPlaceRepository.cs:12 | the market of the cheapest in-stock line; with none, null from the flat file and the empty-Guid lookup from the database |
| Repository.Repository.GetAvailableProducts | MarketPlace.DAL/Repositories/Interfaces/IMarketPlaceRepository.cs:13 | the affordability map, with the budget filter only in the database |
| Repository.Repository.CalculateTotalPrice | MarketPlace.DAL/Repositories/Interfaces/IMarketPlaceRepository.cs:14 | the batch total of the market, or null |
| Repository.Repository.FindMarketWithCheapestBatchPrice | MarketPlace.DAL/Repositories/Interfaces/IMarketPlaceRepository.cs:15 | the first market with the least batch total as handed back, or null |
| Service.ProductWithNameNotFoundMessage | MarketPlace.BLL/MarketPlaceService.cs:38 | the product lookup's not-found message (defined here) |
| Service.ProductAlreadyExistsMessage | MarketPlace.BLL/MarketPlaceService.cs:55 | the duplicate-product message (defined here) |
| Service.MarketNotFoundMessage | MarketPlace.BLL/MarketPlaceService.cs:77 | the unknown-market message, also written at lines 104, 149 and 171 (defined here) |
| Service.NegativeAmountMessage | MarketPlace.BLL/MarketPlaceService.cs:94 | the negative stocking amount message (defined here) |
| Service.NonPositivePriceMessage | MarketPlace.BLL/MarketPlaceService.cs:98 | the non-positive price message, with the price in minor units (defined here) |
| Service.NegativeBalanceMessage | MarketPlace.BLL/MarketPlaceService.cs:143 | the negative budget message, with the budget in minor units (defined here) |
| Service.NoMarketSellsMessage | MarketPlace.BLL/MarketPlaceService.cs:126 | the no-offer message of the cheapest-market query (defined here) |
| Service.NegativePurchaseMessage | MarketPlace.BLL/MarketPlaceService.cs:179 | the negative purchase amount message (defined here) |
| Service.ProductNotFoundMessage | MarketPlace.BLL/MarketPlaceService.cs:184 | the unknown product message of the buy and batch paths, also written at line 220 (defined here) |
| Service.HandleException | MarketPlace.BLL/MarketPlaceService.cs:241-251 | keeps the message and no data; Conflict, NotFound, BadRequest each exactly for their exceptions, InternalError exactly for the rest |
| Service.MarketPlaceService.constructor | MarketPlace.BLL/MarketPlaceService.cs:8 | the service keeps the repository it is given |
| Service.MarketPlaceService.MarketOf | MarketPlace.BLL/MarketPlaceService.cs:100-105 | a malformed id raises the format failure, an unknown one the not-found failure; a found market has the parsed id |
| Service.MarketPlaceService.CheckItem | MarketPlace.BLL/MarketPlaceService.cs:177-185 | an item passes exactly when its amount is allowed and its product is found; a negative amount raises the invalid-number failure |
| Service.MarketPlaceService.ItemError | MarketPlace.BLL/MarketPlaceService.cs:175-188 | the collection fails exactly when some item fails its check |
| Service.MarketPlaceService.FirstFailingItem | MarketPlace.BLL/MarketPlaceService.cs:175-188 | the collection raises the failure of the first failing item |
| Service.MarketPlaceService.AddMarketAsync | MarketPlace.BLL/MarketPlaceService.cs:10-29 | success returns the new id and appends the market, after which it is found; a refused id answers InternalError and adds nothing |
| Service.MarketPlaceService.GetProductByName | MarketPlace.BLL/MarketPlaceService.cs:31-47 | success returns the named product; NotFound exactly for an unknown name in the database, the flat file answering InternalError instead |
| Service.MarketPlaceService.AddProductAsync | MarketPlace.BLL/MarketPlaceService.cs:49-66 | an existing name answers Conflict; the product is added exactly in the database for a new name; markets and lines never change |
| Service.MarketPlaceService.GetMarketById | MarketPlace.BLL/MarketPlaceService.cs:69-86 | success exactly when the id parses and a market has it, returning that market; otherwise the mapped failure |
| Service.MarketPlaceService.AddProductToMarketAsync | MarketPlace.BLL/MarketPlaceService.cs:88-117 | checks amount, price, id and market in order; an unknown product (a null only the database yields) answers InternalError with EF Core's query-parameter message; on success the lines are the upsert, otherwise they are unchanged |
| Service.MarketPlaceService.GetMarketWithCheapestProductAsync | MarketPlace.BLL/MarketPlaceService.cs:119-135 | returns the market of the cheapest in-stock offer, or NotFound |
| Service.MarketPlaceService.GetAvailableProductsAsync | MarketPlace.BLL/MarketPlaceService.cs:137-160 | a negative budget answers BadRequest, a bad market its failure; otherwise the store's affordability map |
| Service.MarketPlaceService.CollectProducts | MarketPlace.BLL/MarketPlaceService.cs:174-188 | the loop raises the first item failure, or collects every requested item in order |
| Service.MarketPlaceService.BuyProductsAsync | MarketPlace.BLL/MarketPlaceService.cs:162-207 | market and item failures change nothing; a covered purchase returns its total and decrements each line exactly; a short one answers BadRequest and changes nothing |
| Service.MarketPlaceService.Checkout | MarketPlace.BLL/MarketPlaceService.cs:190-201 | the total and the decrement, or BadRequest with nothing changed |
| Service.MarketPlaceService.Decrement | MarketPlace.BLL/MarketPlaceService.cs:196-199 | the loop leaves the lines as the purchase applied to them |
| Service.MarketPlaceService.TakeStock | MarketPlace.BLL/MarketPlaceService.cs:198 | one decrement is the restock by the negated amount at price 0 |
| Service.MarketPlaceService.GetMarketWithBestPriceForBatch | MarketPlace.BLL/MarketPlaceService.cs:209-239 | an unknown product answers its failure; otherwise the market with the cheapest batch, or NotFound |
| Scenarios.Stock | MarketPlace.DAL/Repositories/MarketPlaceDbContext.cs:20 | the example inventory has unique keys |
| Scenarios.AffordableWithNine | MarketPlace.DAL/Repositories/DbMarketPlaceRepository.cs:59-83 | with 9.00 both stores offer 4 apples and 5 bananas |
| Scenarios.AffordableWithOneFifty | MarketPlace.DAL/Repositories/FileMarketPlaceRepository.cs:114-136 | with 1.50 the database offers 1 banana, the flat file also apples with amount 0 |
| Scenarios.BuyThreeApples | MarketPlace.BLL/MarketPlaceService.cs:190-199 | 3 apples cost 6.00 and leave 7 |
| Scenarios.BuyElevenApples | MarketPlace.DAL/Repositories/DbMarketPlaceRepository.cs:94-97 | asking for more apples than are stocked gives no total |
| Scenarios.CheapestBanana | MarketPlace.DAL/Repositories/DbMarketPlaceRepository.cs:48-57 | the only banana line is the cheapest offer |

## Left out

- Files, the database connection and asynchrony. Each store starts empty, with header rows only for the flat file. Loading existing files and writing the caches back to disk are external I/O. `await` is sequential composition.
- Concurrency: requests are modelled one at a time.
- `Guid.NewGuid` is a parameter, `freshId`, of `AddMarketAsync`.
- `Guid.Parse`: only the hyphenated 36-character form is accepted (in either case). The braced, parenthesised and 32-digit forms, and the exact `FormatException` texts, are not modelled.
- Decimal arithmetic: money is integers in minor units, with no 28-digit overflow and no rounding. Messages print integer minor units and not the decimal text. The file store writes prices as integer text.
- The `(int)` cast of `money / price` throwing `OverflowException` above the 32-bit range is not modelled; `TruncDiv` is unbounded.
- `decimal.MaxValue` as the starting lowest batch total: a missing total is `None`, so the model differs only for a batch costing exactly `decimal.MaxValue`.
- `OrderBy(i => (double)i.Price)` in the affordability queries (DbMarketPlaceRepository.cs:63, FileMarketPlaceRepository.cs:122): the map is built in stored order. With unique keys every product is written once, so the map is the same.
- The cast to `double` in the ordering of the cheapest query (DbMarketPlaceRepository.cs:52) could make two prices that differ as decimals compare equal. Prices here are integers in minor units; below 2^53 each converts to `double` exactly, so the cast changes no comparison. `Cheapest` compares the integers.
- The SQL order of rows read without `ORDER BY`: among equally cheap rows `FindCheapestMarketWithProduct` takes the first in stored order, and `FindMarketWithCheapestBatchPrice` scans the markets (`_context.Markets.ToListAsync()`, DbMarketPlaceRepository.cs:107) in stored order, so among markets with equal batch totals the first stored one wins. The database may return rows in another order.
- The text of EF Core's query-parameter `InvalidOperationException` is the one it gives with sensitive data logging off; with it on, or in other EF Core versions, the text differs. The model keeps one fixed text, `QueryParameterMessage`.
- EF change tracking and `SaveChanges`: a duplicate key or a row whose market or product is missing raises one `DbUpdate` failure and changes nothing.
- Dictionary iteration order: the items to buy are a sequence in insertion order with distinct names, the guarantee `Dictionary<string, int>` gives.
- Entities.Wrap32: requires its argument to lie within two 32-bit ranges, which every sum of two `Int32` values meets.
- FileRepository.FileMarketPlaceRepository.AddProductInMarket: requires a comma-free product name, so that rows keep four fields. A name with commas makes the source's row parsing misread the row.
- Repository.Repository.AddProductInMarket: the same comma-free requirement for the flat file.
- Service.MarketPlaceService.Decrement and Service.MarketPlaceService.TakeStock: they require what the purchase's validation and total already established (covered stock, non-negative amounts).
- Service.MarketPlaceService.BuyProductsAsync and Service.MarketPlaceService.GetMarketWithBestPriceForBatch: require distinct product names, as the dictionary key guarantees.
- Null strings and null request bodies: every string argument is a value.
- The HTTP controllers, `Program.cs`, the DTOs and the DbContext configuration other than its keys are not part of this model.
