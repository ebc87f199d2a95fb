/** The inventory router in TypeScript (controllers/inventoryController.ts):
    the role-gated create, update and delete of listing rows. Its update
    writes the price but never the stock flag. */
module InventoryController {
  import opened Entities
  import opened Listings
  import Access

  /** POST `/`: VERIFIED or ADMIN, checked before any store access. The new
      row is linked to the product and supermarket and attributed to the
      caller as creator and as last updater. The store refuses (500) a
      missing product or supermarket and a pair that already has a row. */
  function Create(caller: Principal, table: seq<Listing>, products: map<string, Product>,
                  supermarkets: map<string, Supermarket>, price: int, productId: string, supermarketId: string,
                  inStockDefault: bool, now: int): (r: Write<seq<Listing>>)
    ensures r.status == Forbidden <==> caller.role !in {VERIFIED, ADMIN}
    ensures r.status == Created <==>
      && caller.role in {VERIFIED, ADMIN}
      && productId in products && supermarketId in supermarkets
      && !KeyPresent(table, supermarketId, productId)
    ensures r.status in {Forbidden, Created, ServerError}
    ensures r.status != Created ==> r.table == table
    ensures r.status == Created ==>
      && |r.table| == |table| + 1
      && r.table[..|table|] == table
      && r.table[|table|] == Listing(productId, products[productId].productName, supermarketId,
                                     supermarkets[supermarketId].supermarketName, supermarkets[supermarketId].city,
                                     price, inStockDefault, caller.userId, caller.userId, now)
  {
    if !Access.Permits(Access.TsGate(Access.InventoryCreate), caller.role) then
      Write(Forbidden, table)
    else if productId !in products || supermarketId !in supermarkets then
      Write(ServerError, table)
    else if KeyPresent(table, supermarketId, productId) then
      Write(ServerError, table)
    else
      var product := products[productId];
      var supermarket := supermarkets[supermarketId];
      var l := Listing(productId, product.productName, supermarketId, supermarket.supermarketName,
                       supermarket.city, price, inStockDefault, caller.userId, caller.userId, now);
      Write(Created, table + [l])
  }

  /** The row after the TypeScript update: the body's price when it has one,
      the time, and the caller as last updater. */
  function Repriced(l: Listing, caller: Principal, price: Option<int>, now: int): Listing {
    l.(price := if price.Some? then price.value else l.price, updatedAt := now, updatedBy := caller.userId)
  }

  /** PATCH `/:supermarketId/:productId`: VERIFIED or ADMIN; addresses the row
      by the (supermarketId, productId) pair and writes only its price, time
      and updater; an absent pair is a store error. */
  function Update(caller: Principal, table: seq<Listing>, supermarketId: string, productId: string,
                  price: Option<int>, now: int): (r: Write<seq<Listing>>)
    ensures r.status == Forbidden <==> caller.role !in {VERIFIED, ADMIN}
    ensures r.status == Ok <==> caller.role in {VERIFIED, ADMIN} && KeyPresent(table, supermarketId, productId)
    ensures r.status in {Forbidden, Ok, ServerError}
    ensures r.status != Ok ==> r.table == table
    ensures r.status == Ok ==>
      && |r.table| == |table|
      && forall i :: 0 <= i < |table| ==>
           && r.table[i].inStock == table[i].inStock
           && (HasKey(table[i], supermarketId, productId) ==>
                 r.table[i] == table[i].(price := r.table[i].price, updatedAt := now, updatedBy := caller.userId))
           && (price.Some? && HasKey(table[i], supermarketId, productId) ==> r.table[i].price == price.value)
           && (price.None? ==> r.table[i].price == table[i].price)
           && (!HasKey(table[i], supermarketId, productId) ==> r.table[i] == table[i])
  {
    if !Access.Permits(Access.TsGate(Access.InventoryUpdate), caller.role) then
      Write(Forbidden, table)
    else if !KeyPresent(table, supermarketId, productId) then
      Write(ServerError, table)
    else
      Write(Ok, seq(|table|, i requires 0 <= i < |table| =>
        if HasKey(table[i], supermarketId, productId) then Repriced(table[i], caller, price, now) else table[i]))
  }

  /** DELETE `/:supermarketId/:productId`: ADMIN only; 204 and the pair's row
      gone, or a store error when the pair has no row. */
  function Delete(caller: Principal, table: seq<Listing>, supermarketId: string, productId: string): (r: Write<seq<Listing>>)
    ensures r.status == Forbidden <==> caller.role != ADMIN
    ensures r.status == NoContent <==> caller.role == ADMIN && KeyPresent(table, supermarketId, productId)
    ensures r.status in {Forbidden, NoContent, ServerError}
    ensures r.status != NoContent ==> r.table == table
    ensures r.status == NoContent ==>
      forall l :: l in r.table <==> l in table && !HasKey(l, supermarketId, productId)
  {
    if !Access.Permits(Access.TsGate(Access.InventoryDelete), caller.role) then
      Write(Forbidden, table)
    else if !KeyPresent(table, supermarketId, productId) then
      Write(ServerError, table)
    else
      Write(NoContent, RemoveKey(table, supermarketId, productId))
  }

  /** No TypeScript update changes which listings the price queries see: the
      stock flag, product and city of every row are kept. */
  lemma UpdateKeepsQueryMatches(caller: Principal, table: seq<Listing>, supermarketId: string, productId: string,
                                price: Option<int>, now: int, pid: string, city: string)
    requires Update(caller, table, supermarketId, productId, price, now).status == Ok
    ensures var r := Update(caller, table, supermarketId, productId, price, now);
      forall i :: 0 <= i < |table| ==> (Matches(r.table[i], pid, city) <==> Matches(table[i], pid, city))
  {
  }

  /** A create never gives two rows the same (supermarketId, productId) key. */
  lemma CreateKeepsPairsUnique(caller: Principal, table: seq<Listing>, products: map<string, Product>,
                               supermarkets: map<string, Supermarket>, price: int, productId: string,
                               supermarketId: string, inStockDefault: bool, now: int)
    requires PairsUnique(table)
    ensures PairsUnique(Create(caller, table, products, supermarkets, price, productId, supermarketId,
                               inStockDefault, now).table)
  {
    var r := Create(caller, table, products, supermarkets, price, productId, supermarketId, inStockDefault, now);
    if r.status == Created {
      AppendNewPairKeepsUnique(table, r.table[|table|]);
      assert r.table == table + [r.table[|table|]];
    }
  }

  /** With unique keys, a successful delete removes exactly one row. */
  lemma DeleteRemovesOneRow(caller: Principal, table: seq<Listing>, supermarketId: string, productId: string)
    requires PairsUnique(table)
    ensures var r := Delete(caller, table, supermarketId, productId);
      r.status == NoContent ==> |r.table| == |table| - 1 && PairsUnique(r.table)
  {
    if Delete(caller, table, supermarketId, productId).status == NoContent {
      RemoveKeyDropsOneRow(table, supermarketId, productId);
      RemoveKeyKeepsUnique(table, supermarketId, productId);
    }
  }
}
