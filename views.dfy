/**
 * The order API endpoints: the object lookup with its permissions, and the
 * pay, cancel, refund and reopen actions. Each action is one transaction;
 * one that is refused changes nothing.
 */
module Views {
  import opened Models
  import opened Ledger
  import opened Store
  import opened Serializers

  /** The requesting user; requests are authenticated. */
  datatype User = User(id: UserId, isStaff: bool)

  /** The object permission of the viewset: staff pass, anyone else only on an order they own. */
  predicate HasObjectPermission(u: User, o: Order)
    ensures u.isStaff ==> HasObjectPermission(u, o)
    ensures !u.isStaff ==> (HasObjectPermission(u, o) <==> o.user == u.id)
  {
    u.isStaff || o.user == u.id
  }

  /** The orders a user may address: all of them for staff, otherwise the user's own. */
  function Queryset(orders: map<OrderId, Order>, u: User): (r: map<OrderId, Order>)
    ensures forall id :: id in r <==> id in orders && (u.isStaff || orders[id].user == u.id)
    ensures forall id | id in r :: r[id] == orders[id] && HasObjectPermission(u, r[id])
  {
    map id | id in orders && (u.isStaff || orders[id].user == u.id) :: orders[id]
  }

  /** The detail lookup: not found outside the user's queryset, then the object permission. */
  function GetObject(orders: map<OrderId, Order>, u: User, id: OrderId): (r: Result<Order>)
    ensures r.Ok? ==> id in orders && r.value == orders[id] && HasObjectPermission(u, r.value)
    ensures r.Err? ==> r.error == OrderNotFound(id)
  {
    var qs := Queryset(orders, u);
    if id !in qs then Err(OrderNotFound(id))
    else if !HasObjectPermission(u, qs[id]) then Err(Forbidden)
    else Ok(qs[id])
  }

  /**
   * The lookup finds exactly the stored orders the user is staff for or
   * owns; an order of someone else is reported as not found, so the object
   * permission never refuses.
   */
  lemma GetObjectOk(orders: map<OrderId, Order>, u: User, id: OrderId)
    ensures GetObject(orders, u, id).Ok? <==> id in orders && HasObjectPermission(u, orders[id])
    ensures GetObject(orders, u, id).Ok? ==> GetObject(orders, u, id).value == orders[id]
    ensures GetObject(orders, u, id).Err? ==> GetObject(orders, u, id).error == OrderNotFound(id)
  {
  }

  datatype Action = PayAction | CancelAction | RefundAction | ReopenAction

  /** The status each action moves an order to. */
  function Target(a: Action): Status {
    match a
    case PayAction => Paid
    case CancelAction => Cancelled
    case RefundAction => Refunded
    case ReopenAction => Pending
  }

  /**
   * Each action's guard on the stored status string. No guard accepts an
   * order already in the action's target status, and cancel's "draft" never
   * matches, so cancel accepts exactly pending orders.
   */
  predicate ViewAccepts(a: Action, s: Status)
    ensures ViewAccepts(a, s) ==> s != Target(a)
    ensures a == CancelAction ==> (ViewAccepts(a, s) <==> s == Pending)
  {
    match a
    case PayAction => StatusName(s) == "pending"
    case CancelAction => StatusName(s) in {"draft", "pending"}
    case RefundAction => StatusName(s) == "paid"
    case ReopenAction => StatusName(s) in {"cancelled", "refunded"}
  }

  /** The guards of the actions accept exactly the moves the transition table lists. */
  lemma ViewGuardsTable(a: Action, s: Status)
    ensures ViewAccepts(a, s) <==> StatusName(Target(a)) in AllowedTransitionsTable[StatusName(s)]
  {
  }

  /** The same, stated for the sorted lists the serializer reports. */
  lemma ViewGuardsAgree(a: Action, s: Status)
    ensures ViewAccepts(a, s) <==> StatusName(Target(a)) in AllowedTransitions(StatusName(s))
  {
    var target, from := StatusName(Target(a)), StatusName(s);
    ViewGuardsTable(a, s);
    assert target in AllowedTransitions(from) <==> target in AllowedTransitionsTable[from];
  }

  /** The response of one action and the product and order tables after it. */
  datatype Outcome = Outcome(response: Result<Order>, products: Catalog, orders: map<OrderId, Order>)

  /**
   * One action. Reopen is for staff only, refused before the lookup; cancel
   * and refund give the stock back without flooring `sold`; reopen checks
   * and then reserves the stock again.
   */
  function Act(m: Catalog, orders: map<OrderId, Order>, u: User, id: OrderId, a: Action): (r: Outcome)
    requires id in orders ==> ProductsExist(m, orders[id].items)
    ensures r.response.Err? ==> r.products == m && r.orders == orders
    ensures r.response.Ok? ==> id in orders && r.response.value == orders[id].(status := Target(a))
    ensures r.response.Ok? ==> r.orders == orders[id := r.response.value] && r.products.Keys == m.Keys
  {
    if a == ReopenAction && !u.isStaff then Outcome(Err(Forbidden), m, orders)
    else match GetObject(orders, u, id)
      case Err(e) => Outcome(Err(e), m, orders)
      case Ok(o) =>
        if !ViewAccepts(a, o.status) then Outcome(Err(IllegalTransition(o.status)), m, orders)
        else
          var o' := o.(status := Target(a));
          match a
          case PayAction => Outcome(Ok(o'), m, orders[id := o'])
          case CancelAction => Outcome(Ok(o'), ReleaseItems(m, o.items, false), orders[id := o'])
          case RefundAction => Outcome(Ok(o'), ReleaseItems(m, o.items, false), orders[id := o'])
          case ReopenAction =>
            match CheckStock(m, o.items)
            case Some(short) => Outcome(Err(InsufficientStock(short)), m, orders)
            case None => Outcome(Ok(o'), ReserveItems(m, o.items), orders[id := o'])
  }

  /** How many units of `pid` an accepted action moves into stock: minus for a reservation. */
  function Restocked(a: Action, items: seq<Item>, pid: ProductId): int {
    match a
    case PayAction => 0
    case CancelAction => QtyOf(items, pid)
    case RefundAction => QtyOf(items, pid)
    case ReopenAction => -(QtyOf(items, pid) as int)
  }

  /**
   * An accepted action moves the order to its target status, changes no
   * other order and no other field, and moves each product's units between
   * `stock` and `sold` by the units the order holds, with no floor on
   * `sold`; a refused action changes nothing. An order is
   * refused exactly when the user may not address it, its status is not
   * one the action starts from, or, for reopen, some item is short.
   */
  lemma {:induction false} ActEffect(m: Catalog, orders: map<OrderId, Order>, u: User, id: OrderId, a: Action, pid: ProductId)
    requires id in orders ==> ProductsExist(m, orders[id].items)
    requires pid in m
    ensures var out := Act(m, orders, u, id, a);
      && (out.response.Ok? <==>
            && (a == ReopenAction ==> u.isStaff)
            && id in orders && HasObjectPermission(u, orders[id])
            && ViewAccepts(a, orders[id].status)
            && (a == ReopenAction ==> CheckStock(m, orders[id].items).None?))
      && (out.response.Err? ==> out.products == m && out.orders == orders)
      && (out.response.Ok? ==>
            && out.response.value == orders[id].(status := Target(a))
            && out.orders == orders[id := out.response.value]
            && out.products[pid].stock == m[pid].stock + Restocked(a, orders[id].items, pid)
            && out.products[pid].sold == m[pid].sold - Restocked(a, orders[id].items, pid))
  {
    GetObjectOk(orders, u, id);
    if id in orders {
      var items := orders[id].items;
      ReserveItemsEffect(m, items, pid);
      ReleaseItemsEffect(m, items, false, pid);
    }
  }

  /** A reopen that passed its check never leaves a product of the order with negative stock. */
  lemma ReopenNoOversell(m: Catalog, orders: map<OrderId, Order>, u: User, id: OrderId)
    requires id in orders && ProductsExist(m, orders[id].items) && DistinctProducts(orders[id].items)
    requires Act(m, orders, u, id, ReopenAction).response.Ok?
    ensures var items := orders[id].items;
      forall i | 0 <= i < |items| :: Act(m, orders, u, id, ReopenAction).products[items[i].product].stock >= 0
  {
    ReserveNoOversell(m, orders[id].items);
  }

  /**
   * Reopening an order and cancelling it again through the API gives every
   * product back its stock and `sold` exactly, since cancel does not floor.
   */
  lemma ReopenThenCancelRestores(m: Catalog, orders: map<OrderId, Order>, u: User, id: OrderId)
    requires id in orders && ProductsExist(m, orders[id].items)
    requires Act(m, orders, u, id, ReopenAction).response.Ok?
    ensures var t := Act(m, orders, u, id, ReopenAction);
      && ProductsExist(t.products, t.orders[id].items)
      && Act(t.products, t.orders, u, id, CancelAction).response.Ok?
      && Act(t.products, t.orders, u, id, CancelAction).products == m
  {
    var items := orders[id].items;
    var t := Act(m, orders, u, id, ReopenAction);
    GetObjectOk(orders, u, id);
    assert t.orders[id] == orders[id].(status := Pending);
    GetObjectOk(t.orders, u, id);
    UnclampedReleaseUndoesReserve(m, items);
  }

  // ---------- the actions, on the database ----------

  /** POST pay: pending to paid; the stock was already reserved. */
  method PayOrder(db: Database, u: User, id: OrderId) returns (r: Result<Order>)
    requires db.Valid()
    modifies db`orders
    ensures db.Valid()
    ensures id in old(db.orders) ==> ProductsExist(old(db.products), old(db.orders)[id].items)
    ensures Outcome(r, db.products, db.orders) == Act(old(db.products), old(db.orders), u, id, PayAction)
  {
    var got := GetObject(db.orders, u, id);
    if got.Err? {
      return Err(got.error);
    }
    var o := got.value;
    if StatusName(o.status) != "pending" {
      return Err(IllegalTransition(o.status));
    }
    db.SetStatus(id, Paid);
    r := Ok(db.orders[id]);
  }

  /** POST cancel: give the stock back, then save the cancelled status. */
  method CancelOrder(db: Database, u: User, id: OrderId) returns (r: Result<Order>)
    requires db.Valid()
    modifies db`products, db`orders
    ensures db.Valid()
    ensures id in old(db.orders) ==> ProductsExist(old(db.products), old(db.orders)[id].items)
    ensures Outcome(r, db.products, db.orders) == Act(old(db.products), old(db.orders), u, id, CancelAction)
  {
    var got := GetObject(db.orders, u, id);
    if got.Err? {
      return Err(got.error);
    }
    var o := got.value;
    if StatusName(o.status) !in {"draft", "pending"} {
      return Err(IllegalTransition(o.status));
    }
    db.ReleaseOrder(id, false);
    db.SetStatus(id, Cancelled);
    r := Ok(db.orders[id]);
  }

  /** POST refund: give the stock back, then save the refunded status. */
  method RefundOrder(db: Database, u: User, id: OrderId) returns (r: Result<Order>)
    requires db.Valid()
    modifies db`products, db`orders
    ensures db.Valid()
    ensures id in old(db.orders) ==> ProductsExist(old(db.products), old(db.orders)[id].items)
    ensures Outcome(r, db.products, db.orders) == Act(old(db.products), old(db.orders), u, id, RefundAction)
  {
    var got := GetObject(db.orders, u, id);
    if got.Err? {
      return Err(got.error);
    }
    var o := got.value;
    if StatusName(o.status) != "paid" {
      return Err(IllegalTransition(o.status));
    }
    db.ReleaseOrder(id, false);
    db.SetStatus(id, Refunded);
    r := Ok(db.orders[id]);
  }

  /** POST reopen (staff only): reserve the stock again, all or nothing, then save the pending status. */
  method ReopenOrder(db: Database, u: User, id: OrderId) returns (r: Result<Order>)
    requires db.Valid()
    modifies db`products, db`orders
    ensures db.Valid()
    ensures id in old(db.orders) ==> ProductsExist(old(db.products), old(db.orders)[id].items)
    ensures Outcome(r, db.products, db.orders) == Act(old(db.products), old(db.orders), u, id, ReopenAction)
  {
    if !u.isStaff {
      return Err(Forbidden);
    }
    var got := GetObject(db.orders, u, id);
    if got.Err? {
      return Err(got.error);
    }
    var o := got.value;
    if StatusName(o.status) !in {"cancelled", "refunded"} {
      return Err(IllegalTransition(o.status));
    }
    var short := db.ReserveOrder(id);
    if short.Some? {
      return Err(InsufficientStock(short.value));
    }
    db.SetStatus(id, Pending);
    r := Ok(db.orders[id]);
  }
}
