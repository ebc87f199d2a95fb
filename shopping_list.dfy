/** The POST `/` handler of the shopping-list router (the TypeScript file and
    its compiled twin do the same): for each requested item, in request
    order, look up the cheapest in-stock listing of the product in the city,
    append a priced line on a hit and a zero-priced placeholder on a miss,
    then add up the subtotals. Money is in integer cents, so the two-decimal
    rounding of the source leaves every value as it is. */
module ShoppingList {
  import opened Entities
  import opened Listings

  /** One requested item of the body's `shoppingItems`. */
  datatype Item = Item(productId: string, quantity: int)

  /** One line of the response's `shoppingItems`. */
  datatype Line = Line(
    productName: string,
    supermarketName: string,
    quantity: int,
    lowestPrice: int,
    subtotal: int)

  /** The 201 response body. */
  datatype Receipt = Receipt(
    userEmail: string,
    currentDate: int,
    city: string,
    shoppingItems: seq<Line>,
    total: int)

  /** The supermarket name a placeholder line carries. */
  const NotAvailable: string := "N/A"

  /** The line for a request whose product has no in-stock listing in the city. */
  function Placeholder(item: Item, city: string): Line {
    Line("Product with ID " + item.productId + " not found in " + city, NotAvailable, item.quantity, 0, 0)
  }

  /** The line for a request served by listing `l`. */
  function Priced(l: Listing, item: Item): Line {
    Line(l.productName, l.supermarketName, item.quantity, l.price, l.price * item.quantity)
  }

  /** The line one request yields. */
  function LineFor(table: seq<Listing>, city: string, item: Item): Line {
    match CheapestListing(table, item.productId, city)
    case Some(l) => Priced(l, item)
    case None => Placeholder(item, city)
  }

  /** The lines of a whole request, one per item, in request order. */
  function Lines(table: seq<Listing>, city: string, items: seq<Item>): seq<Line> {
    if items == [] then []
    else Lines(table, city, items[..|items| - 1]) + [LineFor(table, city, items[|items| - 1])]
  }

  /** `reduce((acc, line) => acc + line.subtotal, 0)`, a left fold. */
  function Total(lines: seq<Line>): int {
    if lines == [] then 0 else Total(lines[..|lines| - 1]) + lines[|lines| - 1].subtotal
  }

  /** The handler's loop and total. `now` stands for `new Date()`. */
  method CreateShoppingList(user: Principal, now: int, city: string, items: seq<Item>, table: seq<Listing>)
    returns (receipt: Receipt)
    ensures receipt.userEmail == user.email && receipt.currentDate == now && receipt.city == city
    ensures receipt.shoppingItems == Lines(table, city, items)
    ensures |receipt.shoppingItems| == |items|
    ensures forall i :: 0 <= i < |items| ==> receipt.shoppingItems[i] == LineFor(table, city, items[i])
    ensures receipt.total == Total(receipt.shoppingItems)
  {
    var withPrices: seq<Line> := [];
    for i := 0 to |items|
      invariant withPrices == Lines(table, city, items[..i])
    {
      var item := items[i];
      var inventoryItem := CheapestListing(table, item.productId, city);
      if inventoryItem.Some? {
        var l := inventoryItem.value;
        withPrices := withPrices + [Line(l.productName, l.supermarketName, item.quantity, l.price, l.price * item.quantity)];
      } else {
        withPrices := withPrices + [Placeholder(item, city)];
      }
      assert items[..i + 1][..i] == items[..i];
    }
    assert items[..|items|] == items;
    LinesAt(table, city, items);
    var total := Total(withPrices);
    receipt := Receipt(user.email, now, city, withPrices, total);
  }

  /** One output line per requested item, and line i belongs to item i. */
  lemma {:induction false} LinesAt(table: seq<Listing>, city: string, items: seq<Item>)
    ensures |Lines(table, city, items)| == |items|
    ensures forall i :: 0 <= i < |items| ==> Lines(table, city, items)[i] == LineFor(table, city, items[i])
  {
    if items != [] {
      var init := items[..|items| - 1];
      LinesAt(table, city, init);
      assert forall i :: 0 <= i < |init| ==> items[i] == init[i];
    }
  }

  /** A hit: the line is priced from a cheapest matching listing (right
      product, in stock, in the city, least price), echoes the quantity, and
      its subtotal is price times quantity. */
  lemma HitLine(table: seq<Listing>, city: string, item: Item)
    requires HasMatch(table, item.productId, city)
    ensures exists l :: IsCheapest(table, l, item.productId, city) && LineFor(table, city, item) == Priced(l, item)
    ensures LineFor(table, city, item).quantity == item.quantity
    ensures LineFor(table, city, item).subtotal == LineFor(table, city, item).lowestPrice * item.quantity
  {
    var l := CheapestListing(table, item.productId, city).value;
    assert IsCheapest(table, l, item.productId, city);
  }

  /** A miss: the line names the product and the city, has supermarket
      "N/A", price 0 and subtotal 0, and echoes the quantity. */
  lemma MissLine(table: seq<Listing>, city: string, item: Item)
    requires !HasMatch(table, item.productId, city)
    ensures LineFor(table, city, item) == Placeholder(item, city)
    ensures LineFor(table, city, item).supermarketName == "N/A"
    ensures LineFor(table, city, item).lowestPrice == 0 && LineFor(table, city, item).subtotal == 0
    ensures LineFor(table, city, item).quantity == item.quantity
  {
  }

  /** The total of a concatenation is the sum of the totals. */
  lemma {:induction false} TotalAppend(a: seq<Line>, b: seq<Line>)
    ensures Total(a + b) == Total(a) + Total(b)
    decreases |b|
  {
    if b != [] {
      var b' := b[..|b| - 1];
      assert (a + b)[..|a + b| - 1] == a + b';
      TotalAppend(a, b');
    } else {
      assert a + b == a;
    }
  }

  /** The requests that some in-stock listing in the city can serve. */
  function Resolvable(table: seq<Listing>, city: string, items: seq<Item>): (r: seq<Item>)
    ensures forall it :: it in r <==> it in items && HasMatch(table, it.productId, city)
  {
    if items == [] then []
    else
      var init := Resolvable(table, city, items[..|items| - 1]);
      var last := items[|items| - 1];
      assert forall it :: it in items <==> it in items[..|items| - 1] || it == last;
      if HasMatch(table, last.productId, city) then init + [last] else init
  }

  /** Placeholder lines add nothing: the total of a request is the total of
      the lines of its resolvable items alone. */
  lemma {:induction false} TotalCountsOnlyResolvedItems(table: seq<Listing>, city: string, items: seq<Item>)
    ensures Total(Lines(table, city, items)) == Total(Lines(table, city, Resolvable(table, city, items)))
  {
    if items != [] {
      var init := items[..|items| - 1];
      var last := items[|items| - 1];
      TotalCountsOnlyResolvedItems(table, city, init);
      TotalAppend(Lines(table, city, init), [LineFor(table, city, last)]);
      assert Total([LineFor(table, city, last)]) == LineFor(table, city, last).subtotal by {
        assert [LineFor(table, city, last)][..0] == [];
      }
      var r := Resolvable(table, city, init);
      if HasMatch(table, last.productId, city) {
        assert Resolvable(table, city, items) == r + [last];
        assert (r + [last])[..|r + [last]| - 1] == r;
        TotalAppend(Lines(table, city, r), [LineFor(table, city, last)]);
      } else {
        MissLine(table, city, last);
      }
    }
  }
}
