/** The records the controllers read and write: roles, the principal carried
    by a token, HTTP outcomes, and the rows of the product, supermarket and
    inventory tables. Timestamps are integers supplied by the caller. */
module Entities {

  datatype Option<T> = None | Some(value: T)

  /** The `Role` enumeration of the user table. */
  datatype Role = BASIC | VERIFIED | ADMIN

  /** The payload `{ userId, email, role }` signed into both tokens and
      attached to the request as `req.user`. */
  datatype Principal = Principal(userId: string, email: string, role: Role)

  /** The status a handler answers with. */
  datatype Status =
    | Ok | Created | NoContent | BadRequest | Unauthorized | Forbidden | NotFound | ServerError
  {
    function Code(): int {
      match this
      case Ok => 200
      case Created => 201
      case NoContent => 204
      case BadRequest => 400
      case Unauthorized => 401
      case Forbidden => 403
      case NotFound => 404
      case ServerError => 500
    }
  }

  /** A handler that writes a table answers with a status and the table as it
      is afterwards. */
  datatype Write<T> = Write(status: Status, table: T)

  /** A handler that reads answers with a status and, on success, a body. */
  datatype Reply<T> = Reply(status: Status, body: Option<T>)

  /** A calendar date as `getFullYear`, `getMonth` (0 to 11) and `getDate`
      read it. */
  datatype Date = Date(year: int, month: int, day: int)

  /** A row of the product table. */
  datatype Product = Product(
    productId: string,
    productName: string,
    productCategory: string,
    productComments: Option<string>,
    createdBy: string,
    updatedBy: string,
    updatedAt: int)

  /** A row of the supermarket table. */
  datatype Supermarket = Supermarket(
    supermarketId: string,
    supermarketName: string,
    supermarketComments: Option<string>,
    city: string,
    createdBy: string,
    updatedBy: string)

  /** A row of the inventory table, together with the product name and the
      supermarket name and city that the queries join in. Prices are in
      integer cents. */
  datatype Listing = Listing(
    productId: string,
    productName: string,
    supermarketId: string,
    supermarketName: string,
    city: string,
    price: int,
    inStock: bool,
    createdBy: string,
    updatedBy: string,
    updatedAt: int)
}
