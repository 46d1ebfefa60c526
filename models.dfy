/**
 * The persistent entities of the order app: products (as far as the order
 * code uses them), orders with their status, and order line items.
 * Money is kept in integer cents (the decimal fields have two places).
 */
module Models {

  datatype Option<T> = None | Some(value: T)

  type ProductId = nat
  type OrderId = nat
  type ItemId = nat
  type UserId = nat

  /** The four states of an order; the column is a string with these choices. */
  datatype Status = Pending | Paid | Refunded | Cancelled

  const StatusChoices: seq<string> := ["pending", "paid", "refunded", "cancelled"]

  /** The stored string of a status. */
  function StatusName(s: Status): (n: string)
    ensures n in StatusChoices
  {
    match s
    case Pending => "pending"
    case Paid => "paid"
    case Refunded => "refunded"
    case Cancelled => "cancelled"
  }

  /** Distinct statuses are stored as distinct strings. */
  lemma StatusNameInjective(s: Status, t: Status)
    ensures StatusName(s) == StatusName(t) <==> s == t
  {
  }

  /**
   * A product row as the order code sees it. Nothing in the order code
   * bounds `stock` or `sold` below, so they are plain integers.
   */
  datatype Product = Product(name: string, price: int, stock: int, sold: int)

  type Catalog = map<ProductId, Product>

  /** A line item: a product, a quantity and the unit price captured when it was written. */
  datatype Item = Item(id: ItemId, product: ProductId, quantity: nat, unitPrice: int)

  datatype Order = Order(user: UserId, status: Status, note: string, total: int, items: seq<Item>)

  /** A fresh order row: pending, no items, total zero. */
  function NewOrder(user: UserId, note: string): (o: Order)
    ensures o.status == Pending && o.items == [] && o.total == 0
    ensures o.user == user && o.note == note
  {
    Order(user, Pending, note, 0, [])
  }

  /** One line's amount: its quantity at the captured unit price. */
  function Subtotal(it: Item): (r: int)
    ensures it.unitPrice >= 0 ==> r >= 0
    ensures it.quantity == 0 ==> r == 0
  {
    it.quantity * it.unitPrice
  }

  /**
   * The sum of the subtotals of `items`; it is not negative when no
   * captured unit price is.
   */
  function Total(items: seq<Item>): (r: int)
    ensures (forall i | 0 <= i < |items| :: items[i].unitPrice >= 0) ==> r >= 0
  {
    if items == [] then 0 else Subtotal(items[0]) + Total(items[1..])
  }

  /** The products named by `items`. */
  function ProductsOf(items: seq<Item>): set<ProductId> {
    set i | 0 <= i < |items| :: items[i].product
  }

  /** The (order, product) uniqueness constraint on the items of one order. */
  predicate DistinctProducts(items: seq<Item>) {
    forall i, j | 0 <= i < j < |items| :: items[i].product != items[j].product
  }

  predicate DistinctIds(items: seq<Item>) {
    forall i, j | 0 <= i < j < |items| :: items[i].id != items[j].id
  }

  /** Why an operation refused to change anything. */
  datatype Shortage = Shortage(name: string, available: int, required: int)

  datatype Error =
    | InsufficientStock(shortage: Shortage)
    | ProductNotFound(product: ProductId)
    | InvalidQuantity(value: int)
    | DuplicateProduct(product: ProductId)
    | ItemNotFound(item: ItemId)
    | ProductProtected(product: ProductId)
    | OrderNotFound(order: OrderId)
    | Forbidden
    | IllegalTransition(current: Status)

  datatype Result<T> = Ok(value: T) | Err(error: Error)
}
