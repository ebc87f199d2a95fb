/** The product router in TypeScript (controllers/productController.ts): the
    product table keyed by productId, with role-gated create, replace and
    delete, and two unguarded reads. */
module ProductController {
  import opened Entities
  import Access

  /** The row a create inserts under the store-generated id `newId`. */
  function Fresh(caller: Principal, newId: string, name: string, category: string,
                 comments: Option<string>, now: int): Product {
    Product(newId, name, category, comments, caller.userId, caller.userId, now)
  }

  /** POST `/`: VERIFIED or ADMIN, before any store access; the new product
      is attributed to the caller as creator and last updater. */
  function Create(caller: Principal, products: map<string, Product>, newId: string, name: string,
                  category: string, comments: Option<string>, now: int): (r: Write<map<string, Product>>)
    requires newId !in products
    ensures r.status == Forbidden <==> caller.role !in {VERIFIED, ADMIN}
    ensures r.status == Created <==> caller.role in {VERIFIED, ADMIN}
    ensures r.status == Forbidden ==> r.table == products
    ensures r.status == Created ==>
      && r.table.Keys == products.Keys + {newId}
      && r.table[newId] == Product(newId, name, category, comments, caller.userId, caller.userId, now)
      && forall k :: k in products ==> r.table[k] == products[k]
  {
    if !Access.Permits(Access.TsGate(Access.ProductCreate), caller.role) then
      Write(Forbidden, products)
    else
      Write(Created, products[newId := Fresh(caller, newId, name, category, comments, now)])
  }

  /** GET `/:id` (no guard, no role check): the product, or 404. */
  function Get(products: map<string, Product>, id: string): (r: Reply<Product>)
    ensures r.status == NotFound <==> id !in products
    ensures r.status == Ok <==> id in products
    ensures r.status == Ok ==> r.body == Some(products[id])
    ensures r.status == NotFound ==> r.body.None?
  {
    if id in products then Reply(Ok, Some(products[id])) else Reply(NotFound, None)
  }

  /** The row after PUT: the fields the body carries, the time, and the
      caller as last updater. */
  function Replaced(p: Product, caller: Principal, name: Option<string>, category: Option<string>,
                    comments: Option<string>, now: int): Product {
    p.(productName := if name.Some? then name.value else p.productName,
       productCategory := if category.Some? then category.value else p.productCategory,
       productComments := if comments.Some? then comments else p.productComments,
       updatedAt := now,
       updatedBy := caller.userId)
  }

  /** PUT `/:id`: VERIFIED or ADMIN; writes the supplied fields, sets
      `updatedAt` and attributes the update to the caller; an absent id is a
      store error. Only that row changes. */
  function Replace(caller: Principal, products: map<string, Product>, id: string, name: Option<string>,
                   category: Option<string>, comments: Option<string>, now: int): (r: Write<map<string, Product>>)
    ensures r.status == Forbidden <==> caller.role !in {VERIFIED, ADMIN}
    ensures r.status == Ok <==> caller.role in {VERIFIED, ADMIN} && id in products
    ensures r.status in {Forbidden, Ok, ServerError}
    ensures r.status != Ok ==> r.table == products
    ensures r.status == Ok ==>
      && r.table.Keys == products.Keys
      && r.table[id].productId == products[id].productId
      && r.table[id].updatedAt == now && r.table[id].updatedBy == caller.userId
      && r.table[id].createdBy == products[id].createdBy
      && (name.Some? ==> r.table[id].productName == name.value)
      && (name.None? ==> r.table[id].productName == products[id].productName)
      && (category.Some? ==> r.table[id].productCategory == category.value)
      && (category.None? ==> r.table[id].productCategory == products[id].productCategory)
      && (comments.Some? ==> r.table[id].productComments == comments)
      && (comments.None? ==> r.table[id].productComments == products[id].productComments)
      && forall k :: k in products && k != id ==> r.table[k] == products[k]
  {
    if !Access.Permits(Access.TsGate(Access.ProductReplace), caller.role) then
      Write(Forbidden, products)
    else if id !in products then
      Write(ServerError, products)
    else
      Write(Ok, products[id := Replaced(products[id], caller, name, category, comments, now)])
  }

  /** DELETE `/:id`: VERIFIED or ADMIN in this file; the row goes, or an
      absent id is a store error. */
  function Delete(caller: Principal, products: map<string, Product>, id: string): (r: Write<map<string, Product>>)
    ensures r.status == Forbidden <==> caller.role !in {VERIFIED, ADMIN}
    ensures r.status == Ok <==> caller.role in {VERIFIED, ADMIN} && id in products
    ensures r.status in {Forbidden, Ok, ServerError}
    ensures r.status != Ok ==> r.table == products
    ensures r.status == Ok ==>
      && r.table.Keys == products.Keys - {id}
      && forall k :: k in r.table ==> r.table[k] == products[k]
  {
    if !Access.Permits(Access.TsGate(Access.ProductDelete), caller.role) then
      Write(Forbidden, products)
    else if id !in products then
      Write(ServerError, products)
    else
      Write(Ok, products - {id})
  }
}
