/** The inventory router as compiled (dist/controllers/inventoryController.js):
    the category-name check, the cheapest-listing and per-category price
    queries, the two listing reads, and the role-gated create, update and
    delete. It differs from the TypeScript router: it has the three price
    queries, its update also writes `inStock`, and its create answers with
    the product and supermarket names. */
module InventoryControllerDist {
  import opened Entities
  import opened Listings
  import Access

  // ---------------------------------------------------------------------
  // Category names

  /** `toProductCategory`: the argument itself when it is one of the values
      of the category enumeration, otherwise null. */
  function ToProductCategory(categories: seq<string>, category: string): (r: Option<string>)
    ensures r.Some? <==> category in categories
    ensures r.Some? ==> r.value == category
  {
    if category in categories then Some(category) else None
  }

  /** The handler goes on past `if (!categoryEnum)` only for a non-empty
      value returned by `toProductCategory`. */
  predicate CategoryAccepted(categories: seq<string>, category: string) {
    match ToProductCategory(categories, category)
    case None => false
    case Some(c) => c != ""
  }

  // ---------------------------------------------------------------------
  // GET /cheapest/:productId/:city

  /** The fields the cheapest-listing query selects; `updatedAt` and
      `updatedBy` only for an ADMIN caller. */
  datatype CheapestView = CheapestView(
    price: int,
    inStock: bool,
    updatedAt: Option<int>,
    updatedBy: Option<string>,
    supermarketName: string,
    productName: string)

  function View(l: Listing, role: Role): CheapestView {
    CheapestView(
      l.price, l.inStock,
      if role == ADMIN then Some(l.updatedAt) else None,
      if role == ADMIN then Some(l.updatedBy) else None,
      l.supermarketName, l.productName)
  }

  /** The cheapest route: every role passes its check; it answers with a
      cheapest in-stock listing of the product in the city, or 404. */
  function Cheapest(caller: Principal, table: seq<Listing>, productId: string, city: string): (r: Reply<CheapestView>)
    ensures r.status != Forbidden
    ensures r.status == NotFound <==> !HasMatch(table, productId, city)
    ensures r.status == Ok <==> HasMatch(table, productId, city)
    ensures r.status == Ok ==>
      && r.body.Some?
      && (exists l :: IsCheapest(table, l, productId, city) && r.body.value == View(l, caller.role))
      && (r.body.value.updatedAt.Some? <==> caller.role == ADMIN)
      && (r.body.value.updatedBy.Some? <==> caller.role == ADMIN)
    ensures r.status == NotFound ==> r.body.None?
  {
    assert caller.role.BASIC? || caller.role.VERIFIED? || caller.role.ADMIN?;
    if !Access.Permits(Access.DistGate(Access.InventoryCheapest), caller.role) then
      Reply(Forbidden, None)
    else
      match CheapestListing(table, productId, city)
      case None => Reply(NotFound, None)
      case Some(l) => Reply(Ok, Some(View(l, caller.role)))
  }

  // ---------------------------------------------------------------------
  // GET /category/:city/:productCategory

  /** One element of a product's `inventory` in the category answer. */
  datatype Offer = Offer(price: int, supermarketName: string)

  /** One product of the category answer: its name and at most one offer. */
  datatype CategoryEntry = CategoryEntry(productName: string, inventory: seq<Offer>)

  /** The products the `findMany` selects: those of the category with some
      in-stock listing in the city, in table order. The product table is a
      sequence here, not a map by id, because the answer lists the products
      in that order. */
  function InCategory(products: seq<Product>, table: seq<Listing>, city: string, category: string): (r: seq<Product>)
    ensures forall p :: p in r <==>
      p in products && p.productCategory == category && HasMatch(table, p.productId, city)
    ensures |r| <= |products|
  {
    if products == [] then []
    else
      var rest := InCategory(products[1..], table, city, category);
      var p := products[0];
      assert forall q :: q in products <==> q == p || q in products[1..];
      if p.productCategory == category && HasMatch(table, p.productId, city) then [p] + rest else rest
  }

  /** The nested `inventory` query with `take: 1`. */
  function Entry(p: Product, table: seq<Listing>, city: string): CategoryEntry {
    CategoryEntry(
      p.productName,
      match CheapestListing(table, p.productId, city)
      case Some(l) => [Offer(l.price, l.supermarketName)]
      case None => [])
  }

  /** The category route: VERIFIED or ADMIN; 400 for a name outside the
      enumeration, before any lookup; otherwise one entry per selected
      product, each carrying exactly one offer, the cheapest in the city. */
  function ByCategory(caller: Principal, categories: seq<string>, products: seq<Product>, table: seq<Listing>,
                      city: string, productCategory: string): (r: Reply<seq<CategoryEntry>>)
    ensures r.status == Forbidden <==> caller.role !in {VERIFIED, ADMIN}
    ensures r.status == BadRequest <==>
      caller.role in {VERIFIED, ADMIN} && !(productCategory in categories && productCategory != "")
    ensures r.status in {Forbidden, BadRequest, Ok}
    ensures r.status == Ok <==> r.body.Some?
    ensures r.status == Ok ==>
      var chosen := InCategory(products, table, city, productCategory);
      && |r.body.value| == |chosen|
      && forall i :: 0 <= i < |chosen| ==>
           && r.body.value[i].productName == chosen[i].productName
           && |r.body.value[i].inventory| == 1
           && exists l :: IsCheapest(table, l, chosen[i].productId, city)
                       && r.body.value[i].inventory[0] == Offer(l.price, l.supermarketName)
  {
    if !Access.Permits(Access.DistGate(Access.InventoryByCategory), caller.role) then
      Reply(Forbidden, None)
    else if !CategoryAccepted(categories, productCategory) then
      Reply(BadRequest, None)
    else
      var chosen := InCategory(products, table, city, productCategory);
      var entries := seq(|chosen|, i requires 0 <= i < |chosen| => Entry(chosen[i], table, city));
      assert forall i :: 0 <= i < |chosen| ==> chosen[i] in chosen;
      Reply(Ok, Some(entries))
  }

  // ---------------------------------------------------------------------
  // GET / and GET /supermarket/:supermarketId

  /** One element of the answer to GET `/`. */
  datatype Summary = Summary(productName: string, supermarketName: string, price: int, inStock: bool, updatedAt: int)

  /** GET `/`: every row, reshaped by the `.map`, in table order. */
  function ListAll(table: seq<Listing>): (r: seq<Summary>)
    ensures |r| == |table|
    ensures forall i :: 0 <= i < |table| ==>
      r[i] == Summary(table[i].productName, table[i].supermarketName, table[i].price, table[i].inStock, table[i].updatedAt)
  {
    seq(|table|, i requires 0 <= i < |table| =>
      Summary(table[i].productName, table[i].supermarketName, table[i].price, table[i].inStock, table[i].updatedAt))
  }

  /** The rows of one supermarket. */
  function OfSupermarket(table: seq<Listing>, supermarketId: string): (r: seq<Listing>)
    ensures forall l :: l in r <==> l in table && l.supermarketId == supermarketId
  {
    if table == [] then []
    else
      var rest := OfSupermarket(table[1..], supermarketId);
      assert forall l :: l in table <==> l == table[0] || l in table[1..];
      if table[0].supermarketId == supermarketId then [table[0]] + rest else rest
  }

  /** GET `/supermarket/:supermarketId` (no guard): the supermarket's rows,
      or 404 when it has none. */
  function BySupermarket(table: seq<Listing>, supermarketId: string): (r: Reply<seq<Listing>>)
    ensures r.status == NotFound <==> forall l :: l in table ==> l.supermarketId != supermarketId
    ensures r.status == Ok <==> !(r.status == NotFound)
    ensures r.status == Ok ==> r.body.Some? && forall l :: l in r.body.value <==> l in table && l.supermarketId == supermarketId
  {
    var rows := OfSupermarket(table, supermarketId);
    if |rows| == 0 then Reply(NotFound, None) else
      assert rows[0] in rows;
      Reply(Ok, Some(rows))
  }

  // ---------------------------------------------------------------------
  // POST /, PATCH /:supermarketId/:productId, DELETE /:supermarketId/:productId

  /** The row a create inserts: linked to the product and supermarket, and
      attributed to the caller as creator and last updater. `inStock` and
      `updatedAt` take the store's defaults. */
  function NewListing(caller: Principal, productId: string, product: Product, supermarketId: string,
                      supermarket: Supermarket, price: int, inStockDefault: bool, now: int): Listing {
    Listing(productId, product.productName, supermarketId, supermarket.supermarketName,
            supermarket.city, price, inStockDefault, caller.userId, caller.userId, now)
  }

  /** POST `/`: VERIFIED or ADMIN. The store refuses (500) when the product or
      the supermarket does not exist or the pair already has a row. */
  function Create(caller: Principal, table: seq<Listing>, products: map<string, Product>,
                  supermarkets: map<string, Supermarket>, price: int, productId: string, supermarketId: string,
                  inStockDefault: bool, now: int): (r: Write<seq<Listing>>)
    ensures r.status == Forbidden <==> caller.role !in {VERIFIED, ADMIN}
    ensures r.status == Created <==>
      && caller.role in {VERIFIED, ADMIN}
      && productId in products && supermarketId in supermarkets
      && !KeyPresent(table, supermarketId, productId)
    ensures r.status in {Forbidden, Created, ServerError}
    ensures r.status != Created ==> r.table == table
    ensures r.status == Created ==>
      && |r.table| == |table| + 1
      && r.table[..|table|] == table
      && r.table[|table|] == Listing(productId, products[productId].productName, supermarketId,
                                     supermarkets[supermarketId].supermarketName, supermarkets[supermarketId].city,
                                     price, inStockDefault, caller.userId, caller.userId, now)
  {
    if !Access.Permits(Access.DistGate(Access.InventoryCreate), caller.role) then
      Write(Forbidden, table)
    else if productId !in products || supermarketId !in supermarkets then
      Write(ServerError, table)
    else if KeyPresent(table, supermarketId, productId) then
      Write(ServerError, table)
    else
      var l := NewListing(caller, productId, products[productId], supermarketId, supermarkets[supermarketId],
                          price, inStockDefault, now);
      Write(Created, table + [l])
  }

  /** The row after the compiled update: `price` and `inStock` when the body
      has them, `updatedAt`, and `updatedBy` set to the caller. */
  function Patched(l: Listing, caller: Principal, price: Option<int>, inStock: Option<bool>, now: int): Listing {
    l.(price := if price.Some? then price.value else l.price,
       inStock := if inStock.Some? then inStock.value else l.inStock,
       updatedAt := now,
       updatedBy := caller.userId)
  }

  /** PATCH `/:supermarketId/:productId`: VERIFIED or ADMIN; the row of the
      pair gets the body's price and stock flag, the time and the caller;
      every other row and field is kept; an absent pair is a store error. */
  function Update(caller: Principal, table: seq<Listing>, supermarketId: string, productId: string,
                  price: Option<int>, inStock: Option<bool>, now: int): (r: Write<seq<Listing>>)
    ensures r.status == Forbidden <==> caller.role !in {VERIFIED, ADMIN}
    ensures r.status == Ok <==> caller.role in {VERIFIED, ADMIN} && KeyPresent(table, supermarketId, productId)
    ensures r.status in {Forbidden, Ok, ServerError}
    ensures r.status != Ok ==> r.table == table
    ensures r.status == Ok ==>
      && |r.table| == |table|
      && forall i :: 0 <= i < |table| ==>
           if HasKey(table[i], supermarketId, productId)
           then r.table[i] == Patched(table[i], caller, price, inStock, now)
           else r.table[i] == table[i]
  {
    if !Access.Permits(Access.DistGate(Access.InventoryUpdate), caller.role) then
      Write(Forbidden, table)
    else if !KeyPresent(table, supermarketId, productId) then
      Write(ServerError, table)
    else
      Write(Ok, seq(|table|, i requires 0 <= i < |table| =>
        if HasKey(table[i], supermarketId, productId) then Patched(table[i], caller, price, inStock, now) else table[i]))
  }

  /** DELETE `/:supermarketId/:productId`: ADMIN only; 204 and the pair's row
      gone, or a store error when the pair has no row. */
  function Delete(caller: Principal, table: seq<Listing>, supermarketId: string, productId: string): (r: Write<seq<Listing>>)
    ensures r.status == Forbidden <==> caller.role != ADMIN
    ensures r.status == NoContent <==> caller.role == ADMIN && KeyPresent(table, supermarketId, productId)
    ensures r.status in {Forbidden, NoContent, ServerError}
    ensures r.status != NoContent ==> r.table == table
    ensures r.status == NoContent ==>
      forall l :: l in r.table <==> l in table && !HasKey(l, supermarketId, productId)
  {
    if !Access.Permits(Access.DistGate(Access.InventoryDelete), caller.role) then
      Write(Forbidden, table)
    else if !KeyPresent(table, supermarketId, productId) then
      Write(ServerError, table)
    else
      Write(NoContent, RemoveKey(table, supermarketId, productId))
  }

  /** The compiled update may change `inStock`: a listing that was out of
      stock and is patched with `inStock: true` becomes visible to the price
      queries, and one patched with `false` disappears from them. */
  lemma UpdateStockFlagReachesQueries(caller: Principal, table: seq<Listing>, i: nat, flag: bool, now: int)
    requires i < |table| && caller.role in {VERIFIED, ADMIN}
    ensures var l := table[i];
      var r := Update(caller, table, l.supermarketId, l.productId, None, Some(flag), now);
      && r.status == Ok
      && r.table[i].inStock == flag
      && r.table[i].price == l.price
      && (Matches(r.table[i], l.productId, l.city) <==> flag)
  {
    assert HasKey(table[i], table[i].supermarketId, table[i].productId);
  }

  /** A create never gives two rows the same (supermarketId, productId) key. */
  lemma CreateKeepsPairsUnique(caller: Principal, table: seq<Listing>, products: map<string, Product>,
                               supermarkets: map<string, Supermarket>, price: int, productId: string,
                               supermarketId: string, inStockDefault: bool, now: int)
    requires PairsUnique(table)
    ensures PairsUnique(Create(caller, table, products, supermarkets, price, productId, supermarketId,
                               inStockDefault, now).table)
  {
    var r := Create(caller, table, products, supermarkets, price, productId, supermarketId, inStockDefault, now);
    if r.status == Created {
      AppendNewPairKeepsUnique(table, r.table[|table|]);
      assert r.table == table + [r.table[|table|]];
    }
  }

  /** With unique keys, a successful delete removes exactly one row. */
  lemma DeleteRemovesOneRow(caller: Principal, table: seq<Listing>, supermarketId: string, productId: string)
    requires PairsUnique(table)
    ensures var r := Delete(caller, table, supermarketId, productId);
      r.status == NoContent ==> |r.table| == |table| - 1 && PairsUnique(r.table)
  {
    if Delete(caller, table, supermarketId, productId).status == NoContent {
      RemoveKeyDropsOneRow(table, supermarketId, productId);
      RemoveKeyKeepsUnique(table, supermarketId, productId);
    }
  }
}
