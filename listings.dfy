/** The inventory table as the price queries see it: a sequence of listing
    rows in store order. The shopping list, the cheapest-listing route and the
    per-category route all filter it with the same predicate and keep the
    lowest price, which is what `findFirst`/`take: 1` with `orderBy: { price:
    'asc' }` returns. */
module Listings {
  import opened Entities

  /** The `where` clause of every price query: the listing is for the
      product, is in stock, and its supermarket is in the city. */
  predicate Matches(l: Listing, productId: string, city: string) {
    l.productId == productId && l.inStock && l.city == city
  }

  /** Some row of the table passes the filter. */
  predicate HasMatch(table: seq<Listing>, productId: string, city: string) {
    exists m :: m in table && Matches(m, productId, city)
  }

  /** `l` is a row of the table that passes the filter and no passing row is cheaper. */
  ghost predicate IsCheapest(table: seq<Listing>, l: Listing, productId: string, city: string) {
    && l in table
    && Matches(l, productId, city)
    && forall m :: m in table && Matches(m, productId, city) ==> l.price <= m.price
  }

  /** The row the ordered query returns: a passing row of least price, or None
      when no row passes. Among rows of equal price this picks the first in
      table order; the contract promises only some row of least price. */
  function CheapestListing(table: seq<Listing>, productId: string, city: string): (r: Option<Listing>)
    ensures r.None? <==> !HasMatch(table, productId, city)
    ensures r.Some? ==> IsCheapest(table, r.value, productId, city)
  {
    if table == [] then None
    else
      var rest := CheapestListing(table[1..], productId, city);
      if !Matches(table[0], productId, city) then
        assert forall m :: m in table && m != table[0] ==> m in table[1..];
        rest
      else if rest.Some? && rest.value.price < table[0].price then
        rest
      else
        assert forall m :: m in table && m != table[0] ==> m in table[1..];
        Some(table[0])
  }

  /** Any two rows of least price cost the same, so whatever the tie-break,
      the price a query reports is determined by the table. */
  lemma CheapestPriceIsDetermined(table: seq<Listing>, a: Listing, b: Listing, productId: string, city: string)
    requires IsCheapest(table, a, productId, city) && IsCheapest(table, b, productId, city)
    ensures a.price == b.price
  {
  }

  /** The composite key `supermarketId_productId` addresses this row. */
  predicate HasKey(l: Listing, supermarketId: string, productId: string) {
    l.supermarketId == supermarketId && l.productId == productId
  }

  /** Some row has the key. */
  predicate KeyPresent(table: seq<Listing>, supermarketId: string, productId: string) {
    exists i :: 0 <= i < |table| && HasKey(table[i], supermarketId, productId)
  }

  /** The table with every row of the key removed (the store's delete by key). */
  function RemoveKey(table: seq<Listing>, supermarketId: string, productId: string): (r: seq<Listing>)
    ensures forall l :: l in r <==> l in table && !HasKey(l, supermarketId, productId)
    ensures |r| <= |table|
  {
    if table == [] then []
    else
      var rest := RemoveKey(table[1..], supermarketId, productId);
      assert forall l :: l in table <==> l == table[0] || l in table[1..];
      if HasKey(table[0], supermarketId, productId) then rest else [table[0]] + rest
  }

  /** No two rows share a (supermarketId, productId) key: the compound
      primary key of the inventory table. */
  predicate PairsUnique(table: seq<Listing>) {
    forall i, j :: 0 <= i < j < |table| ==>
      !HasKey(table[j], table[i].supermarketId, table[i].productId)
  }

  /** Removing a key no row has leaves the table as it is. */
  lemma {:induction false} RemoveKeyAbsent(table: seq<Listing>, supermarketId: string, productId: string)
    requires !KeyPresent(table, supermarketId, productId)
    ensures RemoveKey(table, supermarketId, productId) == table
  {
    if table != [] {
      assert !HasKey(table[0], supermarketId, productId);
      assert !KeyPresent(table[1..], supermarketId, productId) by {
        forall i | 0 <= i < |table[1..]| ensures !HasKey(table[1..][i], supermarketId, productId) {
          assert table[1..][i] == table[i + 1];
        }
      }
      RemoveKeyAbsent(table[1..], supermarketId, productId);
      assert [table[0]] + table[1..] == table;
    }
  }

  /** With unique keys, removing a present key drops exactly one row. */
  lemma {:induction false} RemoveKeyDropsOneRow(table: seq<Listing>, supermarketId: string, productId: string)
    requires PairsUnique(table) && KeyPresent(table, supermarketId, productId)
    ensures |RemoveKey(table, supermarketId, productId)| == |table| - 1
  {
    var rest := table[1..];
    assert PairsUnique(rest) by {
      forall i, j | 0 <= i < j < |rest| ensures !HasKey(rest[j], rest[i].supermarketId, rest[i].productId) {
        assert rest[i] == table[i + 1] && rest[j] == table[j + 1];
      }
    }
    if HasKey(table[0], supermarketId, productId) {
      assert !KeyPresent(rest, supermarketId, productId) by {
        forall i | 0 <= i < |rest| ensures !HasKey(rest[i], supermarketId, productId) {
          assert rest[i] == table[i + 1];
        }
      }
      RemoveKeyAbsent(rest, supermarketId, productId);
    } else {
      var k :| 0 <= k < |table| && HasKey(table[k], supermarketId, productId);
      assert HasKey(rest[k - 1], supermarketId, productId);
      RemoveKeyDropsOneRow(rest, supermarketId, productId);
    }
  }

  /** Removing a key keeps the remaining keys unique. */
  lemma {:induction false} RemoveKeyKeepsUnique(table: seq<Listing>, supermarketId: string, productId: string)
    requires PairsUnique(table)
    ensures PairsUnique(RemoveKey(table, supermarketId, productId))
  {
    if table != [] {
      var tail := table[1..];
      assert PairsUnique(tail) by {
        forall i, j | 0 <= i < j < |tail| ensures !HasKey(tail[j], tail[i].supermarketId, tail[i].productId) {
          assert tail[i] == table[i + 1] && tail[j] == table[j + 1];
        }
      }
      RemoveKeyKeepsUnique(tail, supermarketId, productId);
      var rest := RemoveKey(tail, supermarketId, productId);
      if !HasKey(table[0], supermarketId, productId) {
        var t := [table[0]] + rest;
        forall i, j | 0 <= i < j < |t| ensures !HasKey(t[j], t[i].supermarketId, t[i].productId) {
          assert t[j] == rest[j - 1];
          if i == 0 {
            assert rest[j - 1] in tail;
            var m :| 0 <= m < |tail| && tail[m] == rest[j - 1];
            assert tail[m] == table[m + 1];
          } else {
            assert t[i] == rest[i - 1];
          }
        }
      }
    }
  }

  /** Appending a row whose key is absent keeps the keys unique. */
  lemma AppendNewPairKeepsUnique(table: seq<Listing>, l: Listing)
    requires PairsUnique(table) && !KeyPresent(table, l.supermarketId, l.productId)
    ensures PairsUnique(table + [l])
  {
    var t := table + [l];
    forall i, j | 0 <= i < j < |t| ensures !HasKey(t[j], t[i].supermarketId, t[i].productId) {
      if j == |table| {
        assert t[i] == table[i];
      } else {
        assert t[i] == table[i] && t[j] == table[j];
      }
    }
  }
}
