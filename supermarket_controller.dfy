/** The supermarket router (controllers/supermarketController.ts; its
    compiled twin dist/controllers/supermarketController.js has the same
    branches): ADMIN writes, signed-in reads, the table keyed by
    supermarketId. */
module SupermarketController {
  import opened Entities
  import Access

  /** The projection the two reads return. */
  datatype Summary = Summary(supermarketId: string, supermarketName: string, city: string)

  function SummaryOf(s: Supermarket): Summary {
    Summary(s.supermarketId, s.supermarketName, s.city)
  }

  /** POST `/`: ADMIN only; the new supermarket, attributed to the caller as
      creator and last updater. */
  function Create(caller: Principal, supermarkets: map<string, Supermarket>, newId: string, name: string,
                  comments: Option<string>, city: string): (r: Write<map<string, Supermarket>>)
    requires newId !in supermarkets
    ensures r.status == Forbidden <==> caller.role != ADMIN
    ensures r.status == Created <==> caller.role == ADMIN
    ensures r.status == Forbidden ==> r.table == supermarkets
    ensures r.status == Created ==>
      && r.table.Keys == supermarkets.Keys + {newId}
      && r.table[newId] == Supermarket(newId, name, comments, city, caller.userId, caller.userId)
      && forall k :: k in supermarkets ==> r.table[k] == supermarkets[k]
  {
    if !Access.Permits(Access.TsGate(Access.SupermarketCreate), caller.role) then
      Write(Forbidden, supermarkets)
    else
      Write(Created, supermarkets[newId := Supermarket(newId, name, comments, city, caller.userId, caller.userId)])
  }

  /** GET `/`: any of the three roles; the id, name and city of every
      supermarket, and nothing else. */
  function List(caller: Principal, supermarkets: map<string, Supermarket>): (r: Reply<set<Summary>>)
    ensures r.status == Ok && r.body.Some?
    ensures forall s :: s in r.body.value <==> exists k :: k in supermarkets && s == SummaryOf(supermarkets[k])
  {
    assert caller.role.BASIC? || caller.role.VERIFIED? || caller.role.ADMIN?;
    if !Access.Permits(Access.TsGate(Access.SupermarketList), caller.role) then
      Reply(Forbidden, None)
    else
      Reply(Ok, Some(set k | k in supermarkets :: SummaryOf(supermarkets[k])))
  }

  /** GET `/:id`: any of the three roles; the projection, or 404. */
  function Get(caller: Principal, supermarkets: map<string, Supermarket>, id: string): (r: Reply<Summary>)
    ensures r.status == NotFound <==> id !in supermarkets
    ensures r.status == Ok <==> id in supermarkets
    ensures r.status == Ok ==> r.body == Some(SummaryOf(supermarkets[id]))
    ensures r.status == NotFound ==> r.body.None?
  {
    assert caller.role.BASIC? || caller.role.VERIFIED? || caller.role.ADMIN?;
    if !Access.Permits(Access.TsGate(Access.SupermarketGet), caller.role) then
      Reply(Forbidden, None)
    else if id !in supermarkets then
      Reply(NotFound, None)
    else
      Reply(Ok, Some(SummaryOf(supermarkets[id])))
  }

  /** The row after PATCH: each field the body carries (an absent one is
      left as it is) and the caller as last updater. */
  function Updated(s: Supermarket, caller: Principal, name: Option<string>, comments: Option<string>,
                   city: Option<string>): Supermarket {
    s.(supermarketName := if name.Some? then name.value else s.supermarketName,
       supermarketComments := if comments.Some? then comments else s.supermarketComments,
       city := if city.Some? then city.value else s.city,
       updatedBy := caller.userId)
  }

  /** PATCH `/:id`: ADMIN only; an absent id is a store error; only that row
      changes, its creator stays. */
  function Update(caller: Principal, supermarkets: map<string, Supermarket>, id: string, name: Option<string>,
                  comments: Option<string>, city: Option<string>): (r: Write<map<string, Supermarket>>)
    ensures r.status == Forbidden <==> caller.role != ADMIN
    ensures r.status == Ok <==> caller.role == ADMIN && id in supermarkets
    ensures r.status in {Forbidden, Ok, ServerError}
    ensures r.status != Ok ==> r.table == supermarkets
    ensures r.status == Ok ==>
      && r.table.Keys == supermarkets.Keys
      && r.table[id].supermarketId == supermarkets[id].supermarketId
      && r.table[id].createdBy == supermarkets[id].createdBy
      && r.table[id].updatedBy == caller.userId
      && (name.Some? ==> r.table[id].supermarketName == name.value)
      && (name.None? ==> r.table[id].supermarketName == supermarkets[id].supermarketName)
      && (city.Some? ==> r.table[id].city == city.value)
      && (city.None? ==> r.table[id].city == supermarkets[id].city)
      && (comments.Some? ==> r.table[id].supermarketComments == comments)
      && (comments.None? ==> r.table[id].supermarketComments == supermarkets[id].supermarketComments)
      && forall k :: k in supermarkets && k != id ==> r.table[k] == supermarkets[k]
  {
    if !Access.Permits(Access.TsGate(Access.SupermarketUpdate), caller.role) then
      Write(Forbidden, supermarkets)
    else if id !in supermarkets then
      Write(ServerError, supermarkets)
    else
      Write(Ok, supermarkets[id := Updated(supermarkets[id], caller, name, comments, city)])
  }

  /** DELETE `/:id`: ADMIN only; the row goes, or an absent id is a store
      error. */
  function Delete(caller: Principal, supermarkets: map<string, Supermarket>, id: string): (r: Write<map<string, Supermarket>>)
    ensures r.status == Forbidden <==> caller.role != ADMIN
    ensures r.status == Ok <==> caller.role == ADMIN && id in supermarkets
    ensures r.status in {Forbidden, Ok, ServerError}
    ensures r.status != Ok ==> r.table == supermarkets
    ensures r.status == Ok ==>
      && r.table.Keys == supermarkets.Keys - {id}
      && forall k :: k in r.table ==> r.table[k] == supermarkets[k]
  {
    if !Access.Permits(Access.TsGate(Access.SupermarketDelete), caller.role) then
      Write(Forbidden, supermarkets)
    else if id !in supermarkets then
      Write(ServerError, supermarkets)
    else
      Write(Ok, supermarkets - {id})
  }

  /** Only an ADMIN changes the supermarket table: for any other caller every
      write answers 403 and leaves the table as it was. */
  lemma OnlyAdminWrites(caller: Principal, supermarkets: map<string, Supermarket>, newId: string, id: string,
                        name: string, comments: Option<string>, city: string, nameOpt: Option<string>,
                        cityOpt: Option<string>)
    requires caller.role != ADMIN && newId !in supermarkets
    ensures Create(caller, supermarkets, newId, name, comments, city) == Write(Forbidden, supermarkets)
    ensures Update(caller, supermarkets, id, nameOpt, comments, cityOpt) == Write(Forbidden, supermarkets)
    ensures Delete(caller, supermarkets, id) == Write(Forbidden, supermarkets)
  {
  }
}
