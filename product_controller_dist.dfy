/** The product router as compiled (dist/controllers/productController.js):
    create refuses a name already in the table, PATCH lets only ADMIN change
    the product's fields, and delete is for ADMIN alone. */
module ProductControllerDist {
  import opened Entities
  import Access

  /** JavaScript truthiness of an optional string body field. */
  predicate Truthy(s: Option<string>) {
    s.Some? && s.value != ""
  }

  /** Some product already carries the name (the `findUnique` by name). */
  predicate NameTaken(products: map<string, Product>, name: string) {
    exists k :: k in products && products[k].productName == name
  }

  /** POST `/`: VERIFIED or ADMIN; 400 when the name is taken; otherwise the
      new product, attributed to the caller as creator and last updater. */
  function Create(caller: Principal, products: map<string, Product>, newId: string, name: string,
                  category: string, comments: Option<string>, now: int): (r: Write<map<string, Product>>)
    requires newId !in products
    ensures r.status == Forbidden <==> caller.role !in {VERIFIED, ADMIN}
    ensures r.status == BadRequest <==> caller.role in {VERIFIED, ADMIN} && NameTaken(products, name)
    ensures r.status == Created <==> caller.role in {VERIFIED, ADMIN} && !NameTaken(products, name)
    ensures r.status != Created ==> r.table == products
    ensures r.status == Created ==>
      && r.table.Keys == products.Keys + {newId}
      && r.table[newId] == Product(newId, name, category, comments, caller.userId, caller.userId, now)
      && forall k :: k in products ==> r.table[k] == products[k]
  {
    if !Access.Permits(Access.DistGate(Access.ProductCreate), caller.role) then
      Write(Forbidden, products)
    else if NameTaken(products, name) then
      Write(BadRequest, products)
    else
      Write(Created, products[newId := Product(newId, name, category, comments, caller.userId, caller.userId, now)])
  }

  /** A create never leaves two products with the same name, provided the
      table had none before. */
  lemma CreateKeepsNamesUnique(caller: Principal, products: map<string, Product>, newId: string, name: string,
                               category: string, comments: Option<string>, now: int)
    requires forall a, b :: a in products && b in products && a != b ==> products[a].productName != products[b].productName
    requires newId !in products
    ensures var r := Create(caller, products, newId, name, category, comments, now).table;
      forall a, b :: a in r && b in r && a != b ==> r[a].productName != r[b].productName
  {
  }

  /** GET `/:id` (no guard): the product, or 404. */
  function Get(products: map<string, Product>, id: string): (r: Reply<Product>)
    ensures r.status == NotFound <==> id !in products
    ensures r.status == Ok <==> id in products
    ensures r.status == Ok ==> r.body == Some(products[id])
    ensures r.status == NotFound ==> r.body.None?
  {
    if id in products then Reply(Ok, Some(products[id])) else Reply(NotFound, None)
  }

  /** The row after PATCH: the caller as last updater, and for an ADMIN the
      truthy ones among name, category and comments. */
  function Patched(p: Product, caller: Principal, name: Option<string>, category: Option<string>,
                   comments: Option<string>): Product {
    var admin := caller.role == ADMIN;
    p.(productName := if admin && Truthy(name) then name.value else p.productName,
       productCategory := if admin && Truthy(category) then category.value else p.productCategory,
       productComments := if admin && Truthy(comments) then comments else p.productComments,
       updatedBy := caller.userId)
  }

  /** PATCH `/:id`: VERIFIED or ADMIN. The body's price is read and never
      written; an absent id is a store error; only that row changes. */
  function Patch(caller: Principal, products: map<string, Product>, id: string, name: Option<string>,
                 category: Option<string>, comments: Option<string>, price: Option<int>): (r: Write<map<string, Product>>)
    ensures r.status == Forbidden <==> caller.role !in {VERIFIED, ADMIN}
    ensures r.status == Ok <==> caller.role in {VERIFIED, ADMIN} && id in products
    ensures r.status in {Forbidden, Ok, ServerError}
    ensures r.status != Ok ==> r.table == products
    ensures r.status == Ok ==>
      && r.table.Keys == products.Keys
      && r.table[id] == Patched(products[id], caller, name, category, comments)
      && forall k :: k in products && k != id ==> r.table[k] == products[k]
  {
    if !Access.Permits(Access.DistGate(Access.ProductPatch), caller.role) then
      Write(Forbidden, products)
    else if id !in products then
      Write(ServerError, products)
    else
      Write(Ok, products[id := Patched(products[id], caller, name, category, comments)])
  }

  /** A VERIFIED caller's PATCH changes nothing but the updater. */
  lemma VerifiedPatchOnlyAttributes(caller: Principal, products: map<string, Product>, id: string,
                                    name: Option<string>, category: Option<string>, comments: Option<string>,
                                    price: Option<int>)
    requires caller.role == VERIFIED && id in products
    ensures Patch(caller, products, id, name, category, comments, price).table
         == products[id := products[id].(updatedBy := caller.userId)]
  {
  }

  /** An ADMIN's PATCH copies exactly the truthy fields: an empty or absent
      field keeps the stored value. */
  lemma AdminPatchCopiesTruthyFields(caller: Principal, products: map<string, Product>, id: string,
                                     name: Option<string>, category: Option<string>, comments: Option<string>,
                                     price: Option<int>)
    requires caller.role == ADMIN && id in products
    ensures var p := Patch(caller, products, id, name, category, comments, price).table[id];
      && (p.productName == if Truthy(name) then name.value else products[id].productName)
      && (p.productCategory == if Truthy(category) then category.value else products[id].productCategory)
      && (p.productComments == if Truthy(comments) then comments else products[id].productComments)
      && p.createdBy == products[id].createdBy && p.updatedBy == caller.userId
  {
  }

  /** The price in a PATCH body has no effect on the answer or the table. */
  lemma PatchIgnoresPrice(caller: Principal, products: map<string, Product>, id: string, name: Option<string>,
                          category: Option<string>, comments: Option<string>, p1: Option<int>, p2: Option<int>)
    ensures Patch(caller, products, id, name, category, comments, p1)
         == Patch(caller, products, id, name, category, comments, p2)
  {
  }

  /** DELETE `/:id`: ADMIN only in this file; the row goes, or an absent id
      is a store error. */
  function Delete(caller: Principal, products: map<string, Product>, id: string): (r: Write<map<string, Product>>)
    ensures r.status == Forbidden <==> caller.role != ADMIN
    ensures r.status == Ok <==> caller.role == ADMIN && id in products
    ensures r.status in {Forbidden, Ok, ServerError}
    ensures r.status != Ok ==> r.table == products
    ensures r.status == Ok ==>
      && r.table.Keys == products.Keys - {id}
      && forall k :: k in r.table ==> r.table[k] == products[k]
  {
    if !Access.Permits(Access.DistGate(Access.ProductDelete), caller.role) then
      Write(Forbidden, products)
    else if id !in products then
      Write(ServerError, products)
    else
      Write(Ok, products - {id})
  }
}
