/**
 * Worked examples at one market holding apples (10 at 2.00) and bananas
 * (5 at 1.00); money is in hundredths, so 2.00 is 200.
 */
module Scenarios {
  import opened Wrappers
  import opened Entities
  import opened Pricing

  function Stock(marketId: Guid): (lines: seq<ProductInMarket>)
    ensures UniqueKeys(lines)
  {
    [ProductInMarket(marketId, "apple", 10, 200), ProductInMarket(marketId, "banana", 5, 100)]
  }

  /** With 9.00 both stores offer 4 apples (900 / 200, below the stock of 10) and all 5 bananas. */
  lemma {:induction false} AffordableWithNine(marketId: Guid)
    ensures AvailableProducts(Stock(marketId), marketId, 900, true) == Ok(map["apple" := 4, "banana" := 5])
    ensures AvailableProducts(Stock(marketId), marketId, 900, false) == Ok(map["apple" := 4, "banana" := 5])
  {
    var lines := Stock(marketId);
    assert lines[..1][..0] == [] && lines[..1] == [lines[0]];
    assert TruncDiv(900, 200) == 4 && TruncDiv(900, 100) == 9;
    assert AvailableProducts(lines[..1], marketId, 900, true) == Ok(map["apple" := 4]);
    assert AvailableProducts(lines[..1], marketId, 900, false) == Ok(map["apple" := 4]);
  }

  /** With 1.50 the database leaves the apples out, while the flat file lists them with 0. */
  lemma {:induction false} AffordableWithOneFifty(marketId: Guid)
    ensures AvailableProducts(Stock(marketId), marketId, 150, true) == Ok(map["banana" := 1])
    ensures AvailableProducts(Stock(marketId), marketId, 150, false) == Ok(map["apple" := 0, "banana" := 1])
  {
    var lines := Stock(marketId);
    assert lines[..1][..0] == [] && lines[..1] == [lines[0]];
    assert TruncDiv(150, 200) == 0 && TruncDiv(150, 100) == 1;
    assert AvailableProducts(lines[..1], marketId, 150, true) == Ok(map[]);
    assert AvailableProducts(lines[..1], marketId, 150, false) == Ok(map["apple" := 0]);
  }

  /** Buying 3 apples costs 6.00 and leaves 7 apples; the bananas are untouched. */
  lemma {:induction false} BuyThreeApples(marketId: Guid)
    ensures TotalCost(Stock(marketId), marketId, [Item("apple", 3)]) == Some(600)
    ensures ApplyPurchase(Stock(marketId), marketId, [Item("apple", 3)]) ==
      [ProductInMarket(marketId, "apple", 7, 200), ProductInMarket(marketId, "banana", 5, 100)]
  {
    var items := [Item("apple", 3)];
    assert items[..0] == [];
    assert FindLine(Stock(marketId), marketId, "apple") == Some(0);
  }

  /** Asking for 11 apples exceeds the stock: the total is null. */
  lemma {:induction false} BuyElevenApples(marketId: Guid)
    ensures TotalCost(Stock(marketId), marketId, [Item("apple", 11)]).None?
  {
    var items := [Item("apple", 11)];
    assert items[..0] == [];
    assert FindLine(Stock(marketId), marketId, "apple") == Some(0);
  }

  /** The cheapest in-stock offer of bananas is the only one. */
  lemma {:induction false} CheapestBanana(marketId: Guid)
    ensures Cheapest(Stock(marketId), "banana") == Some(1)
  {
    var lines := Stock(marketId);
    CheapestMeaning(lines, "banana");
    assert InStock(lines[1], "banana") && !InStock(lines[0], "banana");
  }
}
