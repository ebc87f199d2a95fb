/** The access-control matrix: for every route of the product, supermarket,
    inventory, shopping-list and user routers, the check each source file
    applies before touching a table. The TypeScript controllers and their
    compiled JavaScript twins under dist/ are kept apart; where a route exists
    in only one of them, the other's gate is None. Each route names its roles
    explicitly; nothing here derives one role's rights from another's. */
module Access {
  import opened Entities

  datatype Route =
    | ProductCreate | ProductList | ProductGet | ProductReplace | ProductPatch | ProductDelete
    | SupermarketCreate | SupermarketList | SupermarketGet | SupermarketUpdate | SupermarketDelete
    | InventoryCreate | InventoryList | InventoryCheapest | InventoryBySupermarket
    | InventoryByCategory | InventoryUpdate | InventoryDelete
    | ShoppingListCreate
    | UserRegister | UserProfileCreate | UserProfilePatch | UserList | UserGet
    | UserPasswordUpdate | UserDelete | UserPromote | UserDemote

  /** What a route demands: nothing, a bearer token, or a token whose role is
      one of a listed set. */
  datatype Gate = Public | SignedIn | RolesIn(roles: set<Role>)

  /** The gates of the controllers/ TypeScript files (None: the route is not in that file). */
  function TsGate(r: Route): Option<Gate> {
    match r
    case ProductCreate => Some(RolesIn({VERIFIED, ADMIN}))
    case ProductList => Some(Public)
    case ProductGet => Some(Public)
    case ProductReplace => Some(RolesIn({VERIFIED, ADMIN}))
    case ProductPatch => None
    case ProductDelete => Some(RolesIn({VERIFIED, ADMIN}))
    case SupermarketCreate => Some(RolesIn({ADMIN}))
    case SupermarketList => Some(RolesIn({BASIC, VERIFIED, ADMIN}))
    case SupermarketGet => Some(RolesIn({BASIC, VERIFIED, ADMIN}))
    case SupermarketUpdate => Some(RolesIn({ADMIN}))
    case SupermarketDelete => Some(RolesIn({ADMIN}))
    case InventoryCreate => Some(RolesIn({VERIFIED, ADMIN}))
    case InventoryList => Some(SignedIn)
    case InventoryCheapest => None
    case InventoryBySupermarket => None
    case InventoryByCategory => None
    case InventoryUpdate => Some(RolesIn({VERIFIED, ADMIN}))
    case InventoryDelete => Some(RolesIn({ADMIN}))
    case ShoppingListCreate => Some(SignedIn)
    case UserRegister => Some(Public)
    case UserProfileCreate => Some(SignedIn)
    case UserProfilePatch => Some(SignedIn)
    case UserList => Some(SignedIn)
    case UserGet => Some(SignedIn)
    case UserPasswordUpdate => Some(SignedIn)
    case UserDelete => Some(SignedIn)
    case UserPromote => None
    case UserDemote => None
  }

  /** The gates of the dist/controllers/ JavaScript files (None: the route is not in that file). */
  function DistGate(r: Route): Option<Gate> {
    match r
    case ProductCreate => Some(RolesIn({VERIFIED, ADMIN}))
    case ProductList => Some(Public)
    case ProductGet => Some(Public)
    case ProductReplace => None
    case ProductPatch => Some(RolesIn({VERIFIED, ADMIN}))
    case ProductDelete => Some(RolesIn({ADMIN}))
    case SupermarketCreate => Some(RolesIn({ADMIN}))
    case SupermarketList => Some(RolesIn({BASIC, VERIFIED, ADMIN}))
    case SupermarketGet => Some(RolesIn({BASIC, VERIFIED, ADMIN}))
    case SupermarketUpdate => Some(RolesIn({ADMIN}))
    case SupermarketDelete => Some(RolesIn({ADMIN}))
    case InventoryCreate => Some(RolesIn({VERIFIED, ADMIN}))
    case InventoryList => Some(SignedIn)
    case InventoryCheapest => Some(RolesIn({BASIC, VERIFIED, ADMIN}))
    case InventoryBySupermarket => Some(Public)
    case InventoryByCategory => Some(RolesIn({VERIFIED, ADMIN}))
    case InventoryUpdate => Some(RolesIn({VERIFIED, ADMIN}))
    case InventoryDelete => Some(RolesIn({ADMIN}))
    case ShoppingListCreate => Some(SignedIn)
    case UserRegister => Some(Public)
    case UserProfileCreate => Some(SignedIn)
    case UserProfilePatch => Some(SignedIn)
    case UserList => Some(SignedIn)
    case UserGet => Some(SignedIn)
    case UserPasswordUpdate => Some(SignedIn)
    case UserDelete => Some(SignedIn)
    case UserPromote => Some(RolesIn({ADMIN}))
    case UserDemote => Some(RolesIn({ADMIN}))
  }

  /** The role check a handler runs on the principal the guard attached.
      Public and SignedIn routes run no role check. */
  predicate RolePasses(g: Gate, role: Role) {
    match g
    case Public => true
    case SignedIn => true
    case RolesIn(roles) => role in roles
  }

  /** A route of a file lets `role` through: the route exists and its check passes. */
  predicate Permits(g: Option<Gate>, role: Role) {
    g.Some? && RolePasses(g.value, role)
  }

  /** Order used only to ask whether the matrix happens to respect a hierarchy. */
  function Rank(role: Role): int {
    match role
    case BASIC => 0
    case VERIFIED => 1
    case ADMIN => 2
  }

  /** Product DELETE is the one route both files have whose gates differ:
      VERIFIED or ADMIN in the TypeScript, ADMIN alone in the compiled file. */
  lemma FilesDisagreeOnlyOnProductDelete(r: Route)
    ensures (TsGate(r).Some? && DistGate(r).Some? && TsGate(r) != DistGate(r)) <==> r == ProductDelete
    ensures Permits(TsGate(ProductDelete), VERIFIED) && !Permits(DistGate(ProductDelete), VERIFIED)
  {
  }

  /** Every route that exists admits ADMIN, in both files. */
  lemma AdminPassesEveryRoute(r: Route)
    ensures TsGate(r).Some? ==> Permits(TsGate(r), ADMIN)
    ensures DistGate(r).Some? ==> Permits(DistGate(r), ADMIN)
  {
  }

  /** Although no hierarchy is written down, every gate of both files is
      closed upwards: a role that passes implies every higher role passes. */
  lemma GatesAreUpwardClosed(r: Route, lo: Role, hi: Role)
    requires Rank(lo) <= Rank(hi)
    ensures Permits(TsGate(r), lo) ==> Permits(TsGate(r), hi)
    ensures Permits(DistGate(r), lo) ==> Permits(DistGate(r), hi)
  {
  }

  /** Among the compiled routes that check a role, BASIC passes only the
      three read routes that list it. */
  lemma BasicIsReadOnly(r: Route)
    requires DistGate(r).Some? && DistGate(r).value.RolesIn?
    ensures Permits(DistGate(r), BASIC) <==> r in {SupermarketList, SupermarketGet, InventoryCheapest}
  {
  }
}
