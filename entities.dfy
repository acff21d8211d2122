/** Optional values: the model of a C# reference or nullable that may be null. */
module Wrappers {
  datatype Option<+T> = None | Some(value: T)
}

/**
 * The entity model shared by the service and both repositories: markets,
 * products, inventory lines, the service's response envelope and the
 * exceptions that flow into it.
 */
module Entities {
  import opened Wrappers

  // ---------------------------------------------------------------------
  // 32-bit integers (C# `int`, used for amounts)
  // ---------------------------------------------------------------------

  const INT32_MIN: int := -0x8000_0000
  const INT32_MAX: int := 0x7FFF_FFFF

  type Int32 = x: int | INT32_MIN <= x <= INT32_MAX

  const TWO_TO_THE_32: int := 0x1_0000_0000

  /**
   * C#'s unchecked `int` arithmetic on a sum or difference of two 32-bit
   * values: the mathematical result, moved into the 32-bit range by one
   * multiple of 2^32 when it overflows.
   */
  function Wrap32(x: int): (r: Int32)
    requires INT32_MIN + INT32_MIN <= x <= INT32_MAX - INT32_MIN
    ensures (r - x) % TWO_TO_THE_32 == 0
    ensures INT32_MIN <= x <= INT32_MAX ==> r == x
  {
    if x > INT32_MAX then x - TWO_TO_THE_32
    else if x < INT32_MIN then x + TWO_TO_THE_32
    else x
  }

  // ---------------------------------------------------------------------
  // Money (C# `decimal`), as a whole number of a fixed minor unit
  // ---------------------------------------------------------------------

  type Money = int

  function Abs(x: int): nat { if x < 0 then -x else x }

  /** `(int)(a / b)`: exact quotient truncated toward zero. */
  function TruncDiv(a: int, b: int): (q: int)
    requires b != 0
    ensures var rem := a - q * b; rem == 0 || (rem < 0 <==> a < 0)
    ensures Abs(a - q * b) < Abs(b)
  {
    if b > 0 then
      (if a >= 0 then a / b else -((-a) / b))
    else
      (if a <= 0 then (-a) / (-b) else -(a / (-b)))
  }

  // ---------------------------------------------------------------------
  // Guids
  // ---------------------------------------------------------------------

  predicate IsLowerHex(c: char) { '0' <= c <= '9' || 'a' <= c <= 'f' }

  predicate IsHyphenPosition(i: int) { i == 8 || i == 13 || i == 18 || i == 23 }

  /** The text `Guid.ToString()` produces: 8-4-4-4-12 lower-case hex digits. */
  predicate IsGuidText(s: string) {
    |s| == 36 &&
    forall i :: 0 <= i < |s| ==> if IsHyphenPosition(i) then s[i] == '-' else IsLowerHex(s[i])
  }

  type Guid = s: string | IsGuidText(s) witness "00000000-0000-0000-0000-000000000000"

  /** `Guid.Empty`, the value `FirstOrDefault` yields for a Guid column when nothing matches. */
  const EmptyGuid: Guid := "00000000-0000-0000-0000-000000000000"

  lemma {:induction false} GuidHasNoComma(g: Guid)
    ensures ',' !in g
  {
  }

  function LowerHexChar(c: char): char {
    if 'A' <= c <= 'F' then (c as int - 'A' as int + 'a' as int) as char else c
  }

  function LowerHex(s: string): string
  {
    seq(|s|, i requires 0 <= i < |s| => LowerHexChar(s[i]))
  }

  /**
   * `Guid.Parse` on the hyphenated 36-character form, in either case; any other text
   * is refused (the source then raises a FormatException).
   */
  function ParseGuid(text: string): (r: Option<Guid>)
    ensures r.Some? ==> |text| == 36 && LowerHex(text) == r.value
    ensures r.None? ==> !IsGuidText(LowerHex(text))
  {
    var lowered := LowerHex(text);
    if IsGuidText(lowered) then Some(lowered) else None
  }

  /** A Guid printed with `ToString()` parses back to itself. */
  lemma {:induction false} ParseGuidOfGuid(g: Guid)
    ensures ParseGuid(g) == Some(g)
  {
    forall i | 0 <= i < |g| ensures LowerHexChar(g[i]) == g[i] {
      assert IsHyphenPosition(i) || IsLowerHex(g[i]);
    }
    assert LowerHex(g) == g;
  }

  // ---------------------------------------------------------------------
  // Entities
  // ---------------------------------------------------------------------

  datatype Market = Market(id: Guid, name: string, address: string)

  datatype Product = Product(name: string)

  /** One inventory line: `MarketId, ProductName, Amount, Price`. */
  datatype ProductInMarket = ProductInMarket(marketId: Guid, productName: string, amount: Int32, price: Money)

  /** One entry of a purchase or batch request (a `Dictionary<string, int>` / `Dictionary<Product, int>` pair). */
  datatype Item = Item(productName: string, amount: Int32)

  /** Dictionary keys are distinct. */
  ghost predicate DistinctNames(items: seq<Item>) {
    forall i, j :: 0 <= i < j < |items| ==> items[i].productName != items[j].productName
  }

  // ---------------------------------------------------------------------
  // Exceptions and responses
  // ---------------------------------------------------------------------

  /** The exceptions the core raises or lets escape from the repositories. */
  datatype Exception =
    | ProductAlreadyExist(message: string)
    | MarketNotFound(message: string)
    | ProductNotFound(message: string)
    | InsufficientStock(message: string)
    | InvalidNumber(message: string)
    | Format(message: string)        // Guid.Parse on a malformed id
    | NullReference(message: string) // dereferencing a null product
    | DivideByZero(message: string)  // decimal division by a zero price
    | DbUpdate(message: string)      // a key or foreign-key constraint refused by the database
    | InvalidOperation(message: string) // EF Core's wrapper for a failure while evaluating a query parameter

  /** The business exceptions of the service, as opposed to runtime and storage failures. */
  predicate IsDomainException(ex: Exception) {
    ex.ProductAlreadyExist? || ex.MarketNotFound? || ex.ProductNotFound? ||
    ex.InsufficientStock? || ex.InvalidNumber?
  }

  const NullReferenceMessage := "Object reference not set to an instance of an object."
  const DivideByZeroMessage := "Attempted to divide by zero."
  const GuidFormatMessage := "Unrecognized Guid format."
  /** The text EF Core gives the wrapper when a captured value of a LINQ query throws (sensitive logging off). */
  const QueryParameterMessage := "An exception was thrown while attempting to evaluate a LINQ query parameter expression. See the inner exception for more information. To show additional information call 'DbContextOptionsBuilder.EnableSensitiveDataLogging'."
  const DbUpdateMessage := "An error occurred while saving the entity changes. See the inner exception for details."

  /** What a repository call yields: a value, or the exception it raised. */
  datatype Outcome<+T> = Ok(value: T) | Raised(ex: Exception)

  /** The response codes; the C# enum gives them the HTTP values 200, 404, 400, 409 and 500. */
  datatype ResponseCode = Success | NotFound | BadRequest | Conflict | InternalError

  datatype ApiResponse<+T> = ApiResponse(code: ResponseCode, message: string, data: Option<T>)

  const MarketAdded := "Market successfully added."
  const ProductAddedToProductInMarket := "Product successfully added to the market."
  const CheapestMarketFound := "Cheapest market found for the product."
  const AvailableProductsRetrieved := "Available products retrieved successfully."
  const PurchaseCompleted := "Purchase completed successfully."
  const BestMarketFoundForBatchPurchase := "Best market found for batch purchase."
  const ProductAdded := "Product successfully added."
  const ProductFound := "Product successfully found."
  const MarketFound := "Market successfully found."
}
