/**
 * The admin site: the four bulk status actions, order deletion with
 * restocking, and the inline item editor with its stock diffing.
 *
 * Each bulk action walks the selected orders in turn and acts only on
 * those in the action's source status. The releasing helper clamps `sold`
 * at zero.
 */
module Admin {
  import opened Models
  import opened Ledger
  import opened Store

  /** The two tables a bulk action changes, as plain values. */
  datatype Tables = Tables(products: Catalog, orders: map<OrderId, Order>)

  predicate InOrders(orders: map<OrderId, Order>, ids: seq<OrderId>) {
    forall id | id in ids :: id in orders
  }

  /** A queryset lists each order once. */
  predicate Distinct(ids: seq<OrderId>) {
    forall i, j | 0 <= i < j < |ids| :: ids[i] != ids[j]
  }

  lemma DistinctTail(ids: seq<OrderId>)
    requires ids != [] && Distinct(ids)
    ensures Distinct(ids[1..]) && ids[0] !in ids[1..]
  {
    var rest := ids[1..];
    forall i, j | 0 <= i < j < |rest| ensures rest[i] != rest[j] {
      assert rest[i] == ids[i + 1] && rest[j] == ids[j + 1];
    }
    forall j | 0 <= j < |rest| ensures rest[j] != ids[0] {
      assert rest[j] == ids[j + 1];
    }
  }

  /**
   * The selected orders that are in status `from`, in selection order: it
   * keeps exactly those, and each once when the selection lists each once.
   */
  function Selected(orders: map<OrderId, Order>, ids: seq<OrderId>, from: Status): (r: seq<OrderId>)
    requires InOrders(orders, ids)
    ensures forall id | id in r :: id in ids && orders[id].status == from
    ensures forall id | id in ids && orders[id].status == from :: id in r
    ensures Distinct(ids) ==> Distinct(r)
  {
    if ids == [] then []
    else (if orders[ids[0]].status == from then [ids[0]] else []) + Selected(orders, ids[1..], from)
  }

  /** The items of the listed orders, one order after the other. */
  function ItemsOf(orders: map<OrderId, Order>, ids: seq<OrderId>): seq<Item>
    requires InOrders(orders, ids)
  {
    if ids == [] then [] else orders[ids[0]].items + ItemsOf(orders, ids[1..])
  }

  // ---------- mark paid / cancel / refund ----------

  /** One order of a bulk action: if it is in `from`, give its stock back when `release` and move it to `to`. */
  function MoveOne(t: Tables, id: OrderId, from: Status, to: Status, release: bool): (r: Tables)
    requires id in t.orders
    ensures r.orders.Keys == t.orders.Keys
    ensures forall other | other in t.orders && other != id :: r.orders[other] == t.orders[other]
    ensures r.orders[id].items == t.orders[id].items
    ensures t.orders[id].status != from ==> r == t
    ensures !release ==> r.products == t.products
  {
    var o := t.orders[id];
    if o.status != from then t
    else Tables(if release then ReleaseItems(t.products, o.items, true) else t.products, t.orders[id := o.(status := to)])
  }

  /** A bulk action over the selected orders, in order. */
  function Move(t: Tables, ids: seq<OrderId>, from: Status, to: Status, release: bool): (r: Tables)
    requires InOrders(t.orders, ids)
    ensures r.orders.Keys == t.orders.Keys && r.products.Keys == t.products.Keys
    decreases ids
  {
    if ids == [] then t else Move(MoveOne(t, ids[0], from, to, release), ids[1..], from, to, release)
  }

  /** An order that was not selected is left as it was. */
  lemma {:induction false} MoveUntouched(t: Tables, ids: seq<OrderId>, from: Status, to: Status, release: bool, id: OrderId)
    requires InOrders(t.orders, ids) && id in t.orders && id !in ids
    ensures Move(t, ids, from, to, release).orders[id] == t.orders[id]
    decreases ids
  {
    if ids != [] {
      MoveUntouched(MoveOne(t, ids[0], from, to, release), ids[1..], from, to, release, id);
    }
  }

  /** A selected order moves to `to` exactly when it was in `from`; nothing but its status changes. */
  lemma {:induction false} MoveSelected(t: Tables, ids: seq<OrderId>, from: Status, to: Status, release: bool, id: OrderId)
    requires InOrders(t.orders, ids) && Distinct(ids) && id in ids
    ensures var o := t.orders[id];
      Move(t, ids, from, to, release).orders[id] == if o.status == from then o.(status := to) else o
    decreases ids
  {
    var t1 := MoveOne(t, ids[0], from, to, release);
    DistinctTail(ids);
    if ids[0] == id {
      MoveUntouched(t1, ids[1..], from, to, release, id);
    } else {
      assert id in ids[1..];
      MoveSelected(t1, ids[1..], from, to, release, id);
    }
  }

  /** Two order tables that agree on the status and items of the listed orders. */
  predicate Agree(a: map<OrderId, Order>, b: map<OrderId, Order>, ids: seq<OrderId>)
    requires InOrders(a, ids) && InOrders(b, ids)
  {
    forall id | id in ids :: a[id].status == b[id].status && a[id].items == b[id].items
  }

  /** `Selected` and `ItemsOf` only look at the status and items of the listed orders. */
  lemma {:induction false} SelectedFrame(a: map<OrderId, Order>, b: map<OrderId, Order>, ids: seq<OrderId>, from: Status)
    requires InOrders(a, ids) && InOrders(b, ids) && Agree(a, b, ids)
    ensures Selected(a, ids, from) == Selected(b, ids, from)
    ensures ItemsOf(a, Selected(a, ids, from)) == ItemsOf(b, Selected(b, ids, from))
  {
    if ids != [] {
      SelectedFrame(a, b, ids[1..], from);
    }
    ItemsOfFrame(a, b, Selected(a, ids, from));
  }

  lemma {:induction false} ItemsOfFrame(a: map<OrderId, Order>, b: map<OrderId, Order>, ids: seq<OrderId>)
    requires InOrders(a, ids) && InOrders(b, ids)
    requires forall id | id in ids :: a[id].items == b[id].items
    ensures ItemsOf(a, ids) == ItemsOf(b, ids)
  {
    if ids != [] {
      ItemsOfFrame(a, b, ids[1..]);
    }
  }

  /** Mark paid releases nothing: a non-releasing action leaves the product table as it was. */
  lemma {:induction false} MoveKeepsStock(t: Tables, ids: seq<OrderId>, from: Status, to: Status)
    requires InOrders(t.orders, ids)
    ensures Move(t, ids, from, to, false).products == t.products
    decreases ids
  {
    if ids != [] {
      MoveKeepsStock(MoveOne(t, ids[0], from, to, false), ids[1..], from, to);
    }
  }

  /** The stock a releasing action moves: the items of the selected orders that were in `from`, released in turn. */
  lemma {:induction false} MoveStock(t: Tables, ids: seq<OrderId>, from: Status, to: Status)
    requires InOrders(t.orders, ids) && Distinct(ids)
    ensures Move(t, ids, from, to, true).products ==
      ReleaseItems(t.products, ItemsOf(t.orders, Selected(t.orders, ids, from)), true)
    decreases ids
  {
    if ids != [] {
      var t1 := MoveOne(t, ids[0], from, to, true);
      var rest := ids[1..];
      DistinctTail(ids);
      MoveStock(t1, rest, from, to);
      assert Agree(t1.orders, t.orders, rest);
      SelectedFrame(t1.orders, t.orders, rest, from);
      var sel := Selected(t.orders, rest, from);
      if t.orders[ids[0]].status == from {
        assert Selected(t.orders, ids, from) == [ids[0]] + sel;
        assert ([ids[0]] + sel)[1..] == sel;
        ReleaseItemsAppend(t.products, t.orders[ids[0]].items, ItemsOf(t.orders, sel), true);
      } else {
        assert Selected(t.orders, ids, from) == sel;
      }
    }
  }

  /**
   * What the releasing actions do to the counters: every product gets back
   * the units the moved orders held, and no product they name is left with
   * a negative `sold`.
   */
  lemma MoveReleaseEffect(t: Tables, ids: seq<OrderId>, from: Status, to: Status, pid: ProductId)
    requires InOrders(t.orders, ids) && Distinct(ids) && pid in t.products
    ensures var moved := ItemsOf(t.orders, Selected(t.orders, ids, from));
      var p, p' := t.products[pid], Move(t, ids, from, to, true).products[pid];
      && p'.stock == p.stock + QtyOf(moved, pid)
      && (p.sold >= 0 || pid in ProductsOf(moved) ==> p'.sold >= 0)
  {
    var moved := ItemsOf(t.orders, Selected(t.orders, ids, from));
    MoveStock(t, ids, from, to);
    assert Move(t, ids, from, to, true).products == ReleaseItems(t.products, moved, true);
    ReleaseItemsEffect(t.products, moved, true, pid);
    if t.products[pid].sold >= 0 || pid in ProductsOf(moved) {
      ClampedReleaseSoldNonNegative(t.products, moved, pid);
    }
  }

  /** The loop shared by the three status actions. */
  method MoveOrders(db: Database, ids: seq<OrderId>, from: Status, to: Status, release: bool)
    requires db.Valid() && InOrders(db.orders, ids)
    modifies db`products, db`orders
    ensures db.Valid()
    ensures Tables(db.products, db.orders) == Move(Tables(old(db.products), old(db.orders)), ids, from, to, release)
  {
    ghost var t0 := Tables(db.products, db.orders);
    var i := 0;
    assert ids[0..] == ids;
    while i < |ids|
      invariant 0 <= i <= |ids|
      invariant db.Valid() && InOrders(db.orders, ids[i..])
      invariant Move(t0, ids, from, to, release) == Move(Tables(db.products, db.orders), ids[i..], from, to, release)
    {
      var id := ids[i];
      assert ids[i..][0] == id && ids[i..][1..] == ids[i + 1..];
      ghost var before := Tables(db.products, db.orders);
      if db.orders[id].status == from {
        if release {
          db.ReleaseOrder(id, true);
        }
        db.SetStatus(id, to);
      }
      assert Tables(db.products, db.orders) == MoveOne(before, id, from, to, release);
      assert Move(before, ids[i..], from, to, release) == Move(MoveOne(before, id, from, to, release), ids[i + 1..], from, to, release);
      i := i + 1;
    }
    assert ids[i..] == [];
  }

  /** Mark the selected pending orders paid; stock is not touched. */
  method MarkPaid(db: Database, ids: seq<OrderId>)
    requires db.Valid() && InOrders(db.orders, ids)
    modifies db`products, db`orders
    ensures db.Valid()
    ensures Tables(db.products, db.orders) == Move(Tables(old(db.products), old(db.orders)), ids, Pending, Paid, false)
  {
    MoveOrders(db, ids, Pending, Paid, false);
  }

  /** Cancel the selected pending orders, giving their stock back. */
  method Cancel(db: Database, ids: seq<OrderId>)
    requires db.Valid() && InOrders(db.orders, ids)
    modifies db`products, db`orders
    ensures db.Valid()
    ensures Tables(db.products, db.orders) == Move(Tables(old(db.products), old(db.orders)), ids, Pending, Cancelled, true)
  {
    MoveOrders(db, ids, Pending, Cancelled, true);
  }

  /** Refund the selected paid orders, giving their stock back. */
  method Refund(db: Database, ids: seq<OrderId>)
    requires db.Valid() && InOrders(db.orders, ids)
    modifies db`products, db`orders
    ensures db.Valid()
    ensures Tables(db.products, db.orders) == Move(Tables(old(db.products), old(db.orders)), ids, Paid, Refunded, true)
  {
    MoveOrders(db, ids, Paid, Refunded, true);
  }

  // ---------- reopen ----------

  /** An order the reopen action skipped, and why. */
  datatype Skip = Skip(order: OrderId, shortage: Shortage)

  predicate Reopenable(s: Status) {
    s == Cancelled || s == Refunded
  }

  /** Every item of every order names an existing product. */
  ghost predicate Stocked(t: Tables) {
    forall id | id in t.orders :: ProductsExist(t.products, t.orders[id].items)
  }

  /** One order of the reopen action: reserve its items and make it pending, or report the shortage. */
  function ReopenOne(t: Tables, id: OrderId): (r: (Tables, Option<Shortage>))
    requires id in t.orders && ProductsExist(t.products, t.orders[id].items)
    ensures r.0.orders.Keys == t.orders.Keys && r.0.products.Keys == t.products.Keys
    ensures forall x | x in t.orders :: r.0.orders[x].items == t.orders[x].items
  {
    var o := t.orders[id];
    if !Reopenable(o.status) then (t, None)
    else match CheckStock(t.products, o.items)
      case Some(short) => (t, Some(short))
      case None => (Tables(ReserveItems(t.products, o.items), t.orders[id := o.(status := Pending)]), None)
  }

  /** The reopen action over the selected orders, in order, with the skipped ones. */
  function Reopening(t: Tables, ids: seq<OrderId>): (r: (Tables, seq<Skip>))
    requires InOrders(t.orders, ids) && Stocked(t)
    ensures r.0.orders.Keys == t.orders.Keys && r.0.products.Keys == t.products.Keys
    ensures forall x | x in t.orders :: r.0.orders[x].items == t.orders[x].items
    decreases ids
  {
    if ids == [] then (t, [])
    else
      var (t1, short) := ReopenOne(t, ids[0]);
      var (t2, rest) := Reopening(t1, ids[1..]);
      (t2, SkipOf(ids[0], short) + rest)
  }

  /** The skip entry one order contributes, if any. */
  function SkipOf(id: OrderId, short: Option<Shortage>): (r: seq<Skip>)
    ensures |r| <= 1 && (r != [] <==> short.Some?)
    ensures forall k | 0 <= k < |r| :: r[k] == Skip(id, short.value)
  {
    if short.Some? then [Skip(id, short.value)] else []
  }

  /** Reopening one order and then the rest. */
  lemma ReopeningStep(t: Tables, ids: seq<OrderId>)
    requires ids != [] && InOrders(t.orders, ids) && Stocked(t)
    ensures var step := ReopenOne(t, ids[0]);
      && InOrders(step.0.orders, ids[1..]) && Stocked(step.0)
      && Reopening(t, ids).0 == Reopening(step.0, ids[1..]).0
      && Reopening(t, ids).1 == SkipOf(ids[0], step.1) + Reopening(step.0, ids[1..]).1
  {
  }

  /** The selected orders the reopen action actually reopens, in selection order. */
  function ReopenedIds(t: Tables, ids: seq<OrderId>): (r: seq<OrderId>)
    requires InOrders(t.orders, ids) && Stocked(t)
    ensures forall x | x in r :: x in ids
    decreases ids
  {
    if ids == [] then []
    else
      var (t1, short) := ReopenOne(t, ids[0]);
      (if Reopenable(t.orders[ids[0]].status) && short.None? then [ids[0]] else []) + ReopenedIds(t1, ids[1..])
  }

  /**
   * The stock the reopen action moves: the commit pass over the items of the
   * orders it reopened, one after the other.
   */
  lemma {:induction false} ReopenStock(t: Tables, ids: seq<OrderId>)
    requires InOrders(t.orders, ids) && Stocked(t)
    ensures Reopening(t, ids).0.products == ReserveItems(t.products, ItemsOf(t.orders, ReopenedIds(t, ids)))
    decreases ids
  {
    if ids != [] {
      var step := ReopenOne(t, ids[0]);
      var rest := ReopenedIds(step.0, ids[1..]);
      ReopeningStep(t, ids);
      ReopenStock(step.0, ids[1..]);
      assert InOrders(t.orders, rest);
      ItemsOfFrame(step.0.orders, t.orders, rest);
      var o := t.orders[ids[0]];
      if Reopenable(o.status) && step.1.None? {
        assert ReopenedIds(t, ids) == [ids[0]] + rest;
        assert ([ids[0]] + rest)[1..] == rest;
        ReserveItemsAppend(t.products, o.items, ItemsOf(t.orders, rest));
      } else {
        assert ReopenedIds(t, ids) == rest;
      }
    }
  }

  /** An order that was not selected is left as it was. */
  lemma {:induction false} ReopenUntouched(t: Tables, ids: seq<OrderId>, id: OrderId)
    requires InOrders(t.orders, ids) && Stocked(t) && id in t.orders && id !in ids
    ensures Reopening(t, ids).0.orders[id] == t.orders[id]
    ensures id !in SkippedOrders(Reopening(t, ids).1)
    decreases ids
  {
    if ids != [] {
      var step := ReopenOne(t, ids[0]);
      var r1 := Reopening(step.0, ids[1..]);
      ReopenUntouched(step.0, ids[1..], id);
      SkippedOrdersAppend(SkipOf(ids[0], step.1), r1.1);
    }
  }

  /** The orders a skip list names. */
  function SkippedOrders(skips: seq<Skip>): set<OrderId> {
    set k | 0 <= k < |skips| :: skips[k].order
  }

  lemma SkippedOrdersAppend(a: seq<Skip>, b: seq<Skip>)
    ensures SkippedOrders(a + b) == SkippedOrders(a) + SkippedOrders(b)
  {
    forall x ensures x in SkippedOrders(a + b) <==> x in SkippedOrders(a) + SkippedOrders(b) {
      if x in SkippedOrders(a + b) {
        var k :| 0 <= k < |a + b| && (a + b)[k].order == x;
        if k >= |a| {
          assert b[k - |a|] == (a + b)[k];
        }
      }
      if x in SkippedOrders(a) {
        var k :| 0 <= k < |a| && a[k].order == x;
        assert (a + b)[k] == a[k];
      }
      if x in SkippedOrders(b) {
        var k :| 0 <= k < |b| && b[k].order == x;
        assert (a + b)[|a| + k] == b[k];
      }
    }
  }

  lemma SkipsAssoc(a: seq<Skip>, b: seq<Skip>, c: seq<Skip>)
    ensures a + (b + c) == (a + b) + c
  {
  }

  /**
   * A selected order either stays as it was or, if it was cancelled or
   * refunded, becomes pending with nothing else changed; it is reported as
   * skipped exactly when it was cancelled or refunded and stayed as it was.
   */
  lemma {:induction false} ReopenSelected(t: Tables, ids: seq<OrderId>, id: OrderId)
    requires InOrders(t.orders, ids) && Stocked(t) && Distinct(ids) && id in ids
    ensures var r := Reopening(t, ids);
      var o, o' := t.orders[id], r.0.orders[id];
      && (o' == o || (Reopenable(o.status) && o' == o.(status := Pending)))
      && (Reopenable(o.status) && o' == o <==> id in SkippedOrders(r.1))
    decreases ids
  {
    var step := ReopenOne(t, ids[0]);
    var rest := ids[1..];
    var r1 := Reopening(step.0, rest);
    var head := SkipOf(ids[0], step.1);
    ReopeningStep(t, ids);
    SkippedOrdersAppend(head, r1.1);
    DistinctTail(ids);
    if ids[0] == id {
      ReopenUntouched(step.0, rest, id);
      if step.1.Some? {
        assert head[0].order == id;
      } else {
        assert head == [];
      }
    } else {
      assert id in rest;
      ReopenSelected(step.0, rest, id);
    }
  }

  /**
   * With each order selected once, the reopened orders are exactly the
   * selected cancelled or refunded ones the action did not report as
   * skipped.
   */
  lemma {:induction false} ReopenedIdsExactly(t: Tables, ids: seq<OrderId>, x: OrderId)
    requires InOrders(t.orders, ids) && Stocked(t) && Distinct(ids)
    ensures x in ReopenedIds(t, ids) <==>
      x in ids && Reopenable(t.orders[x].status) && x !in SkippedOrders(Reopening(t, ids).1)
    decreases ids
  {
    if ids != [] {
      var step := ReopenOne(t, ids[0]);
      var head := SkipOf(ids[0], step.1);
      var mine := if Reopenable(t.orders[ids[0]].status) && step.1.None? then [ids[0]] else [];
      var rest := ReopenedIds(step.0, ids[1..]);
      var r1 := Reopening(step.0, ids[1..]);
      ReopeningStep(t, ids);
      assert ReopenedIds(t, ids) == mine + rest;
      SkippedOrdersAppend(head, r1.1);
      DistinctTail(ids);
      if x == ids[0] {
        ReopenUntouched(step.0, ids[1..], x);
        assert x !in rest;
        if step.1.Some? {
          assert head[0].order == x;
        } else {
          assert head == [];
        }
      } else {
        ReopenedIdsExactly(step.0, ids[1..], x);
        assert x !in SkippedOrders(head) && x !in mine;
        assert x in ids ==> x in ids[1..] && step.0.orders[x] == t.orders[x];
      }
    }
  }

  /** Stock that is not negative and orders with one item per product: reopening never oversells. */
  ghost predicate NoOversold(t: Tables) {
    forall pid | pid in t.products :: t.products[pid].stock >= 0
  }

  ghost predicate OnePerProduct(t: Tables) {
    forall id | id in t.orders :: DistinctProducts(t.orders[id].items)
  }

  lemma ReopenOneNoOversell(t: Tables, id: OrderId)
    requires id in t.orders && ProductsExist(t.products, t.orders[id].items)
    requires NoOversold(t) && OnePerProduct(t)
    ensures NoOversold(ReopenOne(t, id).0) && OnePerProduct(ReopenOne(t, id).0)
  {
    var o := t.orders[id];
    if Reopenable(o.status) && CheckStock(t.products, o.items).None? {
      ReserveNoOversell(t.products, o.items);
      forall pid | pid in t.products ensures ReserveItems(t.products, o.items)[pid].stock >= 0 {
        if pid in ProductsOf(o.items) {
          var i :| 0 <= i < |o.items| && o.items[i].product == pid;
        } else {
          ReserveItemsEffect(t.products, o.items, pid);
          QtyOfAbsent(o.items, pid);
        }
      }
    }
  }

  lemma {:induction false} ReopenNoOversell(t: Tables, ids: seq<OrderId>)
    requires InOrders(t.orders, ids) && Stocked(t) && NoOversold(t) && OnePerProduct(t)
    ensures NoOversold(Reopening(t, ids).0)
    decreases ids
  {
    if ids != [] {
      ReopenOneNoOversell(t, ids[0]);
      ReopenNoOversell(ReopenOne(t, ids[0]).0, ids[1..]);
    }
  }

  /** One order of the reopen action, on the database. */
  method ReopenOrder(db: Database, id: OrderId) returns (short: Option<Shortage>)
    requires db.Valid() && id in db.orders
    modifies db`products, db`orders
    ensures db.Valid() && Stocked(Tables(db.products, db.orders))
    ensures ProductsExist(old(db.products), old(db.orders)[id].items)
    ensures (Tables(db.products, db.orders), short) == ReopenOne(Tables(old(db.products), old(db.orders)), id)
  {
    short := None;
    if Reopenable(db.orders[id].status) {
      short := db.ReserveOrder(id);
      if short.None? {
        db.SetStatus(id, Pending);
      }
    }
  }

  /** Reopen the selected cancelled or refunded orders; an order short of stock is skipped and reported. */
  method Reopen(db: Database, ids: seq<OrderId>) returns (skipped: seq<Skip>)
    requires db.Valid() && InOrders(db.orders, ids)
    modifies db`products, db`orders
    ensures db.Valid()
    ensures Stocked(Tables(old(db.products), old(db.orders)))
    ensures (Tables(db.products, db.orders), skipped) == Reopening(Tables(old(db.products), old(db.orders)), ids)
  {
    ghost var t0 := Tables(db.products, db.orders);
    skipped := [];
    var i := 0;
    assert ids[0..] == ids;
    assert [] + Reopening(t0, ids).1 == Reopening(t0, ids).1;
    while i < |ids|
      invariant 0 <= i <= |ids|
      invariant db.Valid() && InOrders(db.orders, ids[i..])
      invariant Stocked(Tables(db.products, db.orders))
      invariant Reopening(t0, ids).0 == Reopening(Tables(db.products, db.orders), ids[i..]).0
      invariant Reopening(t0, ids).1 == skipped + Reopening(Tables(db.products, db.orders), ids[i..]).1
    {
      var id := ids[i];
      assert ids[i..][0] == id && ids[i..][1..] == ids[i + 1..];
      ghost var before := Tables(db.products, db.orders);
      ReopeningStep(before, ids[i..]);
      ghost var after := Reopening(ReopenOne(before, id).0, ids[i + 1..]);
      var short := ReopenOrder(db, id);
      var head := SkipOf(id, short);
      SkipsAssoc(skipped, head, after.1);
      skipped := skipped + head;
      i := i + 1;
    }
    assert ids[i..] == [];
    assert skipped + [] == skipped;
  }

  // ---------- deleting orders ----------

  /** Delete one order, giving its stock back first. */
  method DeleteModel(db: Database, id: OrderId)
    requires db.Valid() && id in db.orders
    modifies db`products, db`orders
    ensures db.Valid()
    ensures db.products == ReleaseItems(old(db.products), old(db.orders)[id].items, true)
    ensures db.orders == old(db.orders) - {id}
  {
    db.ReleaseOrder(id, true);
    db.RemoveOrders({id});
  }

  /** Delete the selected orders, giving the stock of each back first. */
  method DeleteQueryset(db: Database, ids: seq<OrderId>)
    requires db.Valid() && InOrders(db.orders, ids)
    modifies db`products, db`orders
    ensures db.Valid()
    ensures db.products == ReleaseItems(old(db.products), ItemsOf(old(db.orders), ids), true)
    ensures db.orders == old(db.orders) - (set id | id in ids)
  {
    var i := 0;
    assert ids[0..] == ids;
    while i < |ids|
      invariant 0 <= i <= |ids|
      invariant db.Valid() && db.orders == old(db.orders)
      invariant ReleaseItems(old(db.products), ItemsOf(db.orders, ids), true)
             == ReleaseItems(db.products, ItemsOf(db.orders, ids[i..]), true)
    {
      var id := ids[i];
      assert ids[i..][0] == id && ids[i..][1..] == ids[i + 1..];
      ReleaseItemsAppend(db.products, db.orders[id].items, ItemsOf(db.orders, ids[i + 1..]), true);
      db.ReleaseOrder(id, true);
      i := i + 1;
    }
    assert ids[i..] == [];
    db.RemoveOrders(set id | id in ids);
  }

  /** Deleting orders gives each product back the units they held; `sold` stays non-negative where it was. */
  lemma DeleteRestocks(m: Catalog, orders: map<OrderId, Order>, ids: seq<OrderId>, pid: ProductId)
    requires InOrders(orders, ids) && pid in m && m[pid].sold >= 0
    ensures var p' := ReleaseItems(m, ItemsOf(orders, ids), true)[pid];
      p'.stock == m[pid].stock + QtyOf(ItemsOf(orders, ids), pid) && p'.sold >= 0
  {
    ReleaseItemsEffect(m, ItemsOf(orders, ids), true, pid);
  }

  /**
   * Deletion gives stock back whatever the order's status: deleting an order
   * the cancel action already restocked gives its units back a second time.
   * Two units held by a pending order over a stock of 10 come back once on
   * cancelling and once more on deleting, leaving a stock of 14.
   */
  lemma CancelThenDeleteRestocksTwice()
    ensures var t := Tables(map[1 := Product("widget", 100, 10, 2)],
                            map[7 := Order(3, Pending, "", 200, [Item(0, 1, 2, 100)])]);
      var c := Move(t, [7], Pending, Cancelled, true);
      c.orders[7].status == Cancelled && c.products[1].stock == 12
      && ReleaseItems(c.products, ItemsOf(c.orders, [7]), true)[1].stock == 14
  {
    var t := Tables(map[1 := Product("widget", 100, 10, 2)],
                    map[7 := Order(3, Pending, "", 200, [Item(0, 1, 2, 100)])]);
    var items := [Item(0, 1, 2, 100)];
    ReleaseItemsEffect(t.products, items, true, 1);
    assert QtyOf(items, 1) == 2 by { QtyOfDistinct(items, 0); }
    var c := MoveOne(t, 7, Pending, Cancelled, true);
    assert [7][1..] == [];
    assert Move(t, [7], Pending, Cancelled, true) == Move(c, [], Pending, Cancelled, true);
    assert ItemsOf(c.orders, [7]) == items + ItemsOf(c.orders, []);
    assert items + [] == items;
    ReleaseItemsEffect(c.products, items, true, 1);
  }

  // ---------- the inline item editor ----------

  /**
   * Whether the inline may add, change or delete items: the framework's own
   * permission `base`, and, on an existing order, only while it is pending.
   */
  predicate ItemEditAllowed(base: bool, parent: Option<Status>)
    ensures ItemEditAllowed(base, parent) ==> base
    ensures parent.None? ==> (ItemEditAllowed(base, parent) <==> base)
  {
    base && (parent.None? || StatusName(parent.value) == "pending")
  }

  lemma ItemEditOnlyPending(base: bool, s: Status)
    ensures ItemEditAllowed(base, Some(s)) <==> base && s == Pending
  {
    StatusNameInjective(s, Pending);
  }

  /** A saved inline form: the row's key if the row already exists, and the edited fields. */
  datatype Form = Form(pk: Option<ItemId>, product: ProductId, quantity: nat, unitPrice: int)

  /** What the formset works on: the product table, the order's rows and the next row key. */
  datatype Sheet = Sheet(catalog: Catalog, items: seq<Item>, next: nat)

  /** The position of the row with key `pk`. */
  function IndexOf(items: seq<Item>, pk: ItemId): (r: Option<nat>)
    ensures r.Some? ==> r.value < |items| && items[r.value].id == pk
    ensures r.None? ==> forall i | 0 <= i < |items| :: items[i].id != pk
  {
    if items == [] then None
    else if items[0].id == pk then Some(0)
    else match IndexOf(items[1..], pk)
      case None => None
      case Some(k) => Some(k + 1)
  }

  /** The rows without the one at `k`. */
  function RemoveAt(items: seq<Item>, k: nat): (r: seq<Item>)
    requires k < |items|
    ensures |r| == |items| - 1
    ensures forall i | 0 <= i < |r| :: r[i] == items[if i < k then i else i + 1]
  {
    items[..k] + items[k + 1..]
  }

  /** A deleted form: give its units back, then delete its row (a row already gone deletes nothing). */
  function DeleteForm(s: Sheet, obj: Item): (r: Sheet)
    ensures r.catalog.Keys == s.catalog.Keys && r.next == s.next
    ensures forall i | 0 <= i < |r.items| :: r.items[i] in s.items
    ensures DistinctIds(s.items) ==> forall i | 0 <= i < |r.items| :: r.items[i].id != obj.id
  {
    var c := DiffAt(s.catalog, obj.product, -(obj.quantity as int));
    match IndexOf(s.items, obj.id)
    case None => s.(catalog := c)
    case Some(k) => Sheet(c, RemoveAt(s.items, k), s.next)
  }

  function DeleteForms(s: Sheet, deleted: seq<Item>): (r: Sheet)
    ensures r.catalog.Keys == s.catalog.Keys && r.next == s.next
    ensures forall i | 0 <= i < |r.items| :: r.items[i] in s.items
    decreases deleted
  {
    if deleted == [] then s else DeleteForms(DeleteForm(s, deleted[0]), deleted[1..])
  }

  /** Some row other than the one at `k` holds product `pid`. */
  predicate HeldElsewhere(items: seq<Item>, k: nat, pid: ProductId) {
    exists j | 0 <= j < |items| && j != k :: items[j].product == pid
  }

  /**
   * A saved form. A new row takes the next key and reserves its quantity;
   * an edited row is looked up by key, and either gives the old product's
   * units back and reserves the new product's, or applies the signed
   * difference of the quantities. There is no stock check. A second row for
   * the same product breaks the (order, product) constraint.
   */
  function SaveForm(s: Sheet, f: Form): (r: Result<Sheet>)
    ensures r.Ok? ==> r.value.catalog.Keys == s.catalog.Keys && r.value.next >= s.next
    ensures r.Ok? ==> |r.value.items| == |s.items| + (if f.pk.None? then 1 else 0)
    ensures r.Err? ==> r.error == DuplicateProduct(f.product) || (f.pk.Some? && r.error == ItemNotFound(f.pk.value))
  {
    match f.pk
    case None =>
      if f.product in ProductsOf(s.items) then Err(DuplicateProduct(f.product))
      else Ok(Sheet(DiffAt(s.catalog, f.product, f.quantity),
                    s.items + [Item(s.next, f.product, f.quantity, f.unitPrice)], s.next + 1))
    case Some(pk) =>
      match IndexOf(s.items, pk)
      case None => Err(ItemNotFound(pk))
      case Some(k) =>
        var prev := s.items[k];
        if HeldElsewhere(s.items, k, f.product) then Err(DuplicateProduct(f.product))
        else
          var c := if f.product != prev.product
            then DiffAt(DiffAt(s.catalog, prev.product, -(prev.quantity as int)), f.product, f.quantity)
            else DiffAt(s.catalog, f.product, f.quantity - prev.quantity);
          Ok(Sheet(c, s.items[k := Item(pk, f.product, f.quantity, f.unitPrice)], s.next))
  }

  function SaveForms(s: Sheet, forms: seq<Form>): (r: Result<Sheet>)
    ensures r.Ok? ==> r.value.catalog.Keys == s.catalog.Keys && r.value.next >= s.next
    ensures r.Err? ==> r.error.DuplicateProduct? || r.error.ItemNotFound?
    decreases forms
  {
    if forms == [] then Ok(s)
    else match SaveForm(s, forms[0])
      case Err(e) => Err(e)
      case Ok(s1) => SaveForms(s1, forms[1..])
  }

  /**
   * The whole formset save: deletions first, then the saved forms in order.
   * No product row appears or disappears, the key counter only grows, and a
   * refusal is a repeated product or a missing row.
   */
  function Formset(s: Sheet, deleted: seq<Item>, forms: seq<Form>): (r: Result<Sheet>)
    ensures r.Ok? ==> r.value.catalog.Keys == s.catalog.Keys && r.value.next >= s.next
    ensures r.Err? ==> r.error.DuplicateProduct? || r.error.ItemNotFound?
  {
    SaveForms(DeleteForms(s, deleted), forms)
  }

  /** What the schema guarantees of the rows the formset works on. */
  ghost predicate SheetValid(s: Sheet) {
    && (forall i | 0 <= i < |s.items| :: s.items[i].product in s.catalog && s.items[i].id < s.next)
    && DistinctProducts(s.items)
    && DistinctIds(s.items)
  }

  lemma DeleteFormValid(s: Sheet, obj: Item)
    requires SheetValid(s)
    ensures SheetValid(DeleteForm(s, obj))
  {
    match IndexOf(s.items, obj.id)
    case None =>
    case Some(k) =>
      var r := RemoveAt(s.items, k);
      forall i, j | 0 <= i < j < |r|
        ensures r[i].id != r[j].id && r[i].product != r[j].product
      {
        var i', j' := if i < k then i else i + 1, if j < k then j else j + 1;
        assert r[i] == s.items[i'] && r[j] == s.items[j'];
      }
  }

  lemma {:induction false} DeleteFormsValid(s: Sheet, deleted: seq<Item>)
    requires SheetValid(s)
    ensures SheetValid(DeleteForms(s, deleted))
    decreases deleted
  {
    if deleted != [] {
      DeleteFormValid(s, deleted[0]);
      DeleteFormsValid(DeleteForm(s, deleted[0]), deleted[1..]);
    }
  }

  lemma SaveFormValid(s: Sheet, f: Form)
    requires SheetValid(s) && f.product in s.catalog && SaveForm(s, f).Ok?
    ensures SheetValid(SaveForm(s, f).value)
  {
    var r := SaveForm(s, f).value;
    match f.pk
    case None =>
      forall i | 0 <= i < |s.items| ensures s.items[i].product != f.product {
        assert s.items[i].product in ProductsOf(s.items);
      }
    case Some(pk) =>
      var k := IndexOf(s.items, pk).value;
      forall i, j | 0 <= i < j < |r.items|
        ensures r.items[i].id != r.items[j].id && r.items[i].product != r.items[j].product
      {
        if i != k && j != k {
          assert r.items[i] == s.items[i] && r.items[j] == s.items[j];
        }
      }
  }

  lemma {:induction false} SaveFormsValid(s: Sheet, forms: seq<Form>)
    requires SheetValid(s) && forall k | 0 <= k < |forms| :: forms[k].product in s.catalog
    requires SaveForms(s, forms).Ok?
    ensures SheetValid(SaveForms(s, forms).value)
    decreases forms
  {
    if forms != [] {
      SaveFormValid(s, forms[0]);
      SaveFormsValid(SaveForm(s, forms[0]).value, forms[1..]);
    }
  }

  /** A successful formset save leaves the order's rows as the schema requires. */
  lemma FormsetValid(s: Sheet, deleted: seq<Item>, forms: seq<Form>)
    requires SheetValid(s) && forall k | 0 <= k < |forms| :: forms[k].product in s.catalog
    requires Formset(s, deleted, forms).Ok?
    ensures SheetValid(Formset(s, deleted, forms).value)
  {
    DeleteFormsValid(s, deleted);
    SaveFormsValid(DeleteForms(s, deleted), forms);
  }

  // ---------- conservation of units in the formset ----------

  /** The units of `pid` one row holds. */
  function Held(x: Item, pid: ProductId): nat {
    if x.product == pid then x.quantity else 0
  }

  /** The units of `pid` in stock plus the units the order's rows hold. */
  function Units(s: Sheet, pid: ProductId): int
    requires pid in s.catalog
  {
    s.catalog[pid].stock + QtyOf(s.items, pid)
  }

  lemma QtyOfSplit(items: seq<Item>, k: nat, pid: ProductId)
    requires k < |items|
    ensures QtyOf(items, pid) == QtyOf(RemoveAt(items, k), pid) + Held(items[k], pid)
  {
    var tail := [items[k]] + items[k + 1..];
    assert items == items[..k] + tail;
    assert tail[1..] == items[k + 1..];
    QtyOfAppend(items[..k], tail, pid);
    QtyOfAppend(items[..k], items[k + 1..], pid);
  }

  lemma QtyOfUpdate(items: seq<Item>, k: nat, x: Item, pid: ProductId)
    requires k < |items|
    ensures QtyOf(items[k := x], pid) == QtyOf(items, pid) - Held(items[k], pid) + Held(x, pid)
  {
    QtyOfSplit(items, k, pid);
    QtyOfSplit(items[k := x], k, pid);
    assert RemoveAt(items[k := x], k) == RemoveAt(items, k);
  }

  lemma QtyOfPush(items: seq<Item>, x: Item, pid: ProductId)
    ensures QtyOf(items + [x], pid) == QtyOf(items, pid) + Held(x, pid)
  {
    QtyOfAppend(items, [x], pid);
    assert [x][1..] == [];
  }

  lemma DiffAtStock(m: Catalog, p: ProductId, d: int, pid: ProductId)
    requires p in m && pid in m
    ensures DiffAt(m, p, d)[pid].stock == m[pid].stock - (if pid == p then d else 0)
  {
    DiffAtEffect(m, p, d);
  }

  /** A deleted row gives back exactly the units it held. */
  lemma DeleteFormKeeps(s: Sheet, obj: Item, pid: ProductId)
    requires SheetValid(s) && obj in s.items && pid in s.catalog
    ensures Units(DeleteForm(s, obj), pid) == Units(s, pid)
  {
    var j :| 0 <= j < |s.items| && s.items[j] == obj;
    var k := IndexOf(s.items, obj.id).value;
    assert k == j;
    QtyOfSplit(s.items, k, pid);
    DiffAtStock(s.catalog, obj.product, -(obj.quantity as int), pid);
  }

  /** The deleted objects are stored rows of the order, each listed once. */
  predicate StoredRows(items: seq<Item>, deleted: seq<Item>) {
    DistinctIds(deleted) && forall k | 0 <= k < |deleted| :: deleted[k] in items
  }

  lemma DeleteFormStored(s: Sheet, deleted: seq<Item>)
    requires SheetValid(s) && deleted != [] && StoredRows(s.items, deleted)
    ensures StoredRows(DeleteForm(s, deleted[0]).items, deleted[1..])
  {
    var obj := deleted[0];
    var k := IndexOf(s.items, obj.id).value;
    var r := DeleteForm(s, obj).items;
    assert r == RemoveAt(s.items, k);
    var rest := deleted[1..];
    forall m | 0 <= m < |rest| ensures rest[m] in r {
      assert rest[m] == deleted[m + 1];
      var j :| 0 <= j < |s.items| && s.items[j] == rest[m];
      assert j != k;
      assert r[if j < k then j else j - 1] == rest[m];
    }
    forall a, b | 0 <= a < b < |rest| ensures rest[a].id != rest[b].id {
      assert rest[a] == deleted[a + 1] && rest[b] == deleted[b + 1];
    }
  }

  lemma {:induction false} DeleteFormsKeep(s: Sheet, deleted: seq<Item>, pid: ProductId)
    requires SheetValid(s) && StoredRows(s.items, deleted) && pid in s.catalog
    ensures Units(DeleteForms(s, deleted), pid) == Units(s, pid)
    decreases deleted
  {
    if deleted != [] {
      assert deleted[0] in s.items;
      DeleteFormKeeps(s, deleted[0], pid);
      DeleteFormValid(s, deleted[0]);
      DeleteFormStored(s, deleted);
      DeleteFormsKeep(DeleteForm(s, deleted[0]), deleted[1..], pid);
    }
  }

  /** A saved form moves units between the stock and the order, never creating or losing any. */
  lemma SaveFormKeeps(s: Sheet, f: Form, pid: ProductId)
    requires SheetValid(s) && f.product in s.catalog && pid in s.catalog && SaveForm(s, f).Ok?
    ensures Units(SaveForm(s, f).value, pid) == Units(s, pid)
  {
    var x := Item(if f.pk.Some? then f.pk.value else s.next, f.product, f.quantity, f.unitPrice);
    match f.pk
    case None =>
      QtyOfPush(s.items, x, pid);
      DiffAtStock(s.catalog, f.product, f.quantity, pid);
    case Some(pk) =>
      var k := IndexOf(s.items, pk).value;
      var prev := s.items[k];
      QtyOfUpdate(s.items, k, x, pid);
      if f.product != prev.product {
        var c1 := DiffAt(s.catalog, prev.product, -(prev.quantity as int));
        DiffAtStock(s.catalog, prev.product, -(prev.quantity as int), pid);
        DiffAtStock(c1, f.product, f.quantity, pid);
      } else {
        DiffAtStock(s.catalog, f.product, f.quantity - prev.quantity, pid);
      }
  }

  lemma {:induction false} SaveFormsKeep(s: Sheet, forms: seq<Form>, pid: ProductId)
    requires SheetValid(s) && forall k | 0 <= k < |forms| :: forms[k].product in s.catalog
    requires pid in s.catalog && SaveForms(s, forms).Ok?
    ensures Units(SaveForms(s, forms).value, pid) == Units(s, pid)
    decreases forms
  {
    if forms != [] {
      SaveFormKeeps(s, forms[0], pid);
      SaveFormValid(s, forms[0]);
      SaveFormsKeep(SaveForm(s, forms[0]).value, forms[1..], pid);
    }
  }

  /**
   * The formset keeps, for every product, the units in stock plus the
   * units the order holds: every row deleted, added or edited moves units
   * between the two and no more.
   */
  lemma FormsetKeepsUnits(s: Sheet, deleted: seq<Item>, forms: seq<Form>, pid: ProductId)
    requires SheetValid(s) && StoredRows(s.items, deleted)
    requires forall k | 0 <= k < |forms| :: forms[k].product in s.catalog
    requires pid in s.catalog && Formset(s, deleted, forms).Ok?
    ensures Units(Formset(s, deleted, forms).value, pid) == Units(s, pid)
  {
    DeleteFormsKeep(s, deleted, pid);
    DeleteFormsValid(s, deleted);
    SaveFormsKeep(DeleteForms(s, deleted), forms, pid);
  }

  /**
   * A form ticked for deletion gives back the quantity its instance carries,
   * which is the edited value rather than the stored one: a row stored with
   * 2 units, edited to 5 and deleted returns 5 units, so stock plus held
   * units grows by 3.
   */
  lemma EditedThenDeletedInflates()
    ensures var s := Sheet(map[1 := Product("widget", 100, 10, 2)], [Item(0, 1, 2, 100)], 1);
      var r := Formset(s, [Item(0, 1, 5, 100)], []);
      Units(s, 1) == 12 && r.Ok? && r.value.items == [] && Units(r.value, 1) == 15
  {
    var s := Sheet(map[1 := Product("widget", 100, 10, 2)], [Item(0, 1, 2, 100)], 1);
    var obj := Item(0, 1, 5, 100);
    DiffAtEffect(s.catalog, 1, -5);
    assert IndexOf(s.items, 0) == Some(0);
    var d := DeleteForm(s, obj);
    assert d.items == [] && d.catalog[1].stock == 15;
    assert [obj][1..] == [];
    assert DeleteForms(s, [obj]) == DeleteForms(d, []);
  }

  /** There is no stock check: a new row may take a product's stock below zero. */
  lemma SaveFormMayOversell(s: Sheet, f: Form)
    requires f.pk.None? && f.product in s.catalog && f.product !in ProductsOf(s.items)
    ensures SaveForm(s, f).Ok?
    ensures SaveForm(s, f).value.catalog[f.product].stock == s.catalog[f.product].stock - f.quantity
  {
    DiffAtStock(s.catalog, f.product, f.quantity, f.product);
  }

  // ---------- the formset save, on the database ----------

  /** The signed stock adjustment, as one update of the product row (none when `diff` is 0). */
  method ApplyStockDiff(db: Database, pid: ProductId, diff: int)
    modifies db`products
    ensures db.products == DiffAt(old(db.products), pid, diff)
  {
    if diff > 0 {
      db.ReserveAtRow(pid, diff);
    } else if diff < 0 {
      db.ReleaseAtRow(pid, -diff, true);
    }
  }

  /** The deletion pass of the inline save, on a working copy of the order's rows. */
  method DeleteRows(db: Database, items: seq<Item>, deleted: seq<Item>) returns (rows: seq<Item>)
    modifies db`products
    ensures Sheet(db.products, rows, db.nextItemId) == DeleteForms(Sheet(old(db.products), items, db.nextItemId), deleted)
  {
    rows := items;
    ghost var s0 := Sheet(db.products, items, db.nextItemId);
    var i := 0;
    assert deleted[0..] == deleted;
    while i < |deleted|
      invariant 0 <= i <= |deleted|
      invariant DeleteForms(s0, deleted) == DeleteForms(Sheet(db.products, rows, db.nextItemId), deleted[i..])
    {
      var obj := deleted[i];
      assert deleted[i..][0] == obj && deleted[i..][1..] == deleted[i + 1..];
      ApplyStockDiff(db, obj.product, -(obj.quantity as int));
      var k := IndexOf(rows, obj.id);
      if k.Some? {
        rows := RemoveAt(rows, k.value);
      }
      i := i + 1;
    }
    assert deleted[i..] == [];
  }

  /** One saved form, on a working copy of the order's rows; a refused write changes nothing. */
  method SaveRow(db: Database, items: seq<Item>, f: Form) returns (r: Result<seq<Item>>)
    modifies db`products, db`nextItemId
    ensures var spec := SaveForm(Sheet(old(db.products), items, old(db.nextItemId)), f);
      && (r.Err? <==> spec.Err?)
      && (r.Err? ==> r.error == spec.error && db.products == old(db.products) && db.nextItemId == old(db.nextItemId))
      && (r.Ok? ==> Sheet(db.products, r.value, db.nextItemId) == spec.value)
  {
    if f.pk.None? {
      if f.product in ProductsOf(items) {
        return Err(DuplicateProduct(f.product));
      }
      var rows := items + [Item(db.nextItemId, f.product, f.quantity, f.unitPrice)];
      db.nextItemId := db.nextItemId + 1;
      ApplyStockDiff(db, f.product, f.quantity);
      return Ok(rows);
    }
    var pk := f.pk.value;
    var k := IndexOf(items, pk);
    if k.None? {
      return Err(ItemNotFound(pk));
    }
    var prev := items[k.value];
    if exists x | 0 <= x < |items| && x != k.value :: items[x].product == f.product {
      return Err(DuplicateProduct(f.product));
    }
    if f.product != prev.product {
      ApplyStockDiff(db, prev.product, -(prev.quantity as int));
      ApplyStockDiff(db, f.product, f.quantity);
    } else {
      ApplyStockDiff(db, f.product, f.quantity - prev.quantity);
    }
    r := Ok(items[k.value := Item(pk, f.product, f.quantity, f.unitPrice)]);
  }

  /** The saving pass of the inline save; it stops at the first refused write. */
  method SaveRows(db: Database, items: seq<Item>, forms: seq<Form>) returns (r: Result<seq<Item>>)
    modifies db`products, db`nextItemId
    ensures db.products.Keys == old(db.products).Keys && db.nextItemId >= old(db.nextItemId)
    ensures var spec := SaveForms(Sheet(old(db.products), items, old(db.nextItemId)), forms);
      && (r.Err? <==> spec.Err?)
      && (r.Err? ==> r.error == spec.error)
      && (r.Ok? ==> Sheet(db.products, r.value, db.nextItemId) == spec.value)
  {
    var rows := items;
    ghost var s1 := Sheet(db.products, items, db.nextItemId);
    var j := 0;
    assert forms[0..] == forms;
    while j < |forms|
      invariant 0 <= j <= |forms|
      invariant db.products.Keys == old(db.products).Keys && db.nextItemId >= old(db.nextItemId)
      invariant SaveForms(s1, forms) == SaveForms(Sheet(db.products, rows, db.nextItemId), forms[j..])
    {
      var f := forms[j];
      assert forms[j..][0] == f && forms[j..][1..] == forms[j + 1..];
      var step := SaveRow(db, rows, f);
      if step.Err? {
        return Err(step.error);
      }
      rows := step.value;
      j := j + 1;
    }
    assert forms[j..] == [];
    r := Ok(rows);
  }

  /**
   * Save the order's item inline in one transaction: deleted rows first,
   * then each saved form, then the recomputed total. A refused row write
   * rolls the whole save back (allocated row keys stay allocated).
   */
  method SaveFormset(db: Database, id: OrderId, deleted: seq<Item>, forms: seq<Form>) returns (r: Result<()>)
    requires db.Valid() && id in db.orders
    requires forall k | 0 <= k < |forms| :: forms[k].product in db.products
    modifies db`products, db`orders, db`nextItemId
    ensures db.Valid() && db.nextItemId >= old(db.nextItemId)
    ensures var o := old(db.orders)[id];
      var spec := Formset(Sheet(old(db.products), o.items, old(db.nextItemId)), deleted, forms);
      && (r.Err? <==> spec.Err?)
      && (r.Err? ==> r.error == spec.error && db.products == old(db.products) && db.orders == old(db.orders))
      && (r.Ok? ==> db.products == spec.value.catalog && db.nextItemId == spec.value.next
                    && db.orders == old(db.orders)[id := o.(items := spec.value.items, total := Total(spec.value.items))])
  {
    var savedProducts := db.products;
    var o := db.orders[id];
    var rows := DeleteRows(db, o.items, deleted);
    var saved := SaveRows(db, rows, forms);
    if saved.Err? {
      db.products := savedProducts;
      TablesValidGrow(savedProducts, db.orders, db.nextOrderId, old(db.nextItemId), db.nextItemId);
      return Err(saved.error);
    }
    rows := saved.value;
    assert OrderValid(o, savedProducts.Keys, old(db.nextItemId));
    FormsetValid(Sheet(savedProducts, o.items, old(db.nextItemId)), deleted, forms);
    db.orders := db.orders[id := o.(items := rows, total := Total(rows))];
    TablesValidPut(savedProducts, old(db.orders), db.nextOrderId, old(db.nextItemId),
                   db.products, db.nextOrderId, db.nextItemId, id, db.orders[id]);
    r := Ok(());
  }
}
