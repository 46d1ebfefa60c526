/**
 * The database the order code works on: the product and order tables, the
 * primary-key counters, and the per-order stock loops shared by the admin
 * site and the API views. Each method is one sequential step; row locking
 * is not modelled.
 */
module Store {
  import opened Models
  import opened Ledger

  /**
   * What the schema guarantees of a stored order: its items reference
   * existing products (the product key is PROTECTed), there is at most one
   * item per product, item keys are distinct and already allocated, and the
   * stored total is the sum of the item subtotals.
   */
  ghost predicate OrderValid(o: Order, catalog: set<ProductId>, nextItem: nat) {
    && (forall i | 0 <= i < |o.items| :: o.items[i].product in catalog && o.items[i].id < nextItem)
    && DistinctProducts(o.items)
    && DistinctIds(o.items)
    && o.total == Total(o.items)
  }

  /** Every stored order is valid and its key is already allocated. */
  ghost predicate TablesValid(products: Catalog, orders: map<OrderId, Order>, nextOrderId: nat, nextItemId: nat) {
    forall id | id in orders :: id < nextOrderId && OrderValid(orders[id], products.Keys, nextItemId)
  }

  /**
   * Writing one valid order row keeps the tables valid, as long as no
   * product row disappears and the key counters only grow.
   */
  lemma TablesValidPut(products: Catalog, orders: map<OrderId, Order>, nextOrderId: nat, nextItemId: nat,
                       products': Catalog, nextOrderId': nat, nextItemId': nat, id: OrderId, o: Order)
    requires TablesValid(products, orders, nextOrderId, nextItemId)
    requires products'.Keys == products.Keys && nextOrderId' >= nextOrderId && nextItemId' >= nextItemId
    requires id < nextOrderId' && OrderValid(o, products.Keys, nextItemId')
    ensures TablesValid(products', orders[id := o], nextOrderId', nextItemId')
  {
  }

  /** Allocating item keys without writing rows keeps the tables valid. */
  lemma TablesValidGrow(products: Catalog, orders: map<OrderId, Order>, nextOrderId: nat, nextItemId: nat, nextItemId': nat)
    requires TablesValid(products, orders, nextOrderId, nextItemId) && nextItemId' >= nextItemId
    ensures TablesValid(products, orders, nextOrderId, nextItemId')
  {
  }

  /** Rewriting product rows without adding or removing any keeps the tables valid. */
  lemma TablesValidKeys(products: Catalog, orders: map<OrderId, Order>, nextOrderId: nat, nextItemId: nat, products': Catalog)
    requires TablesValid(products, orders, nextOrderId, nextItemId) && products'.Keys == products.Keys
    ensures TablesValid(products', orders, nextOrderId, nextItemId)
  {
  }

  /** Writing a row twice leaves only the second write. */
  lemma PutTwice(orders: map<OrderId, Order>, id: OrderId, a: Order, b: Order)
    ensures orders[id := a][id := b] == orders[id := b]
  {
  }

  class Database {
    var products: Catalog
    var orders: map<OrderId, Order>
    var nextOrderId: nat
    var nextItemId: nat

    /** Every stored order is valid; in particular its items name existing products. */
    ghost predicate Valid()
      reads this
      ensures Valid() ==> forall id | id in orders :: ProductsExist(products, orders[id].items)
    {
      TablesValid(products, orders, nextOrderId, nextItemId)
    }

    constructor (catalog: Catalog)
      ensures Valid()
      ensures products == catalog && orders == map[]
    {
      products := catalog;
      orders := map[];
      nextOrderId := 0;
      nextItemId := 0;
    }

    /** One reserving update: stock -= q, sold += q. */
    method ReserveAtRow(pid: ProductId, q: int)
      modifies this`products
      ensures products == ReserveAt(old(products), pid, q)
    {
      if pid in products {
        products := products[pid := Reserve(products[pid], q)];
      }
    }

    /** One releasing update: stock += q, sold -= q (optionally floored at 0). */
    method ReleaseAtRow(pid: ProductId, q: int, clamp: bool)
      modifies this`products
      ensures products == ReleaseAt(old(products), pid, q, clamp)
    {
      if pid in products {
        products := products[pid := Release(products[pid], q, clamp)];
      }
    }

    /**
     * Reserve every item of an order, all or nothing: the check pass reads
     * each product and stops at the first short one; only if none is short
     * does the commit pass update each product.
     */
    method ReserveOrder(id: OrderId) returns (short: Option<Shortage>)
      requires Valid() && id in orders
      modifies this`products
      ensures Valid()
      ensures short == CheckStock(old(products), orders[id].items)
      ensures products == if short.None? then ReserveItems(old(products), orders[id].items) else old(products)
    {
      var items := orders[id].items;
      assert ProductsExist(products, items);
      var i := 0;
      while i < |items|
        invariant 0 <= i <= |items|
        invariant CheckStock(products, items) == CheckStock(products, items[i..])
      {
        var p := products[items[i].product];
        assert items[i..][1..] == items[i + 1..];
        if p.stock < items[i].quantity {
          return Some(Shortage(p.name, p.stock, items[i].quantity));
        }
        i := i + 1;
      }
      ghost var before := products;
      i := 0;
      while i < |items|
        invariant 0 <= i <= |items|
        invariant products.Keys == before.Keys
        invariant ReserveItems(before, items) == ReserveItems(products, items[i..])
      {
        assert items[i..][1..] == items[i + 1..];
        ReserveAtRow(items[i].product, items[i].quantity);
        i := i + 1;
      }
      short := None;
    }

    /** Release every item of an order; `clamp` floors `sold` at zero. */
    method ReleaseOrder(id: OrderId, clamp: bool)
      requires Valid() && id in orders
      modifies this`products
      ensures Valid()
      ensures products == ReleaseItems(old(products), orders[id].items, clamp)
    {
      var items := orders[id].items;
      var i := 0;
      while i < |items|
        invariant 0 <= i <= |items|
        invariant products.Keys == old(products).Keys
        invariant ReleaseItems(old(products), items, clamp) == ReleaseItems(products, items[i..], clamp)
      {
        assert items[i..][1..] == items[i + 1..];
        ReleaseAtRow(items[i].product, items[i].quantity, clamp);
        i := i + 1;
      }
      TablesValidKeys(old(products), orders, nextOrderId, nextItemId, products);
    }

    /** Save only the status column of an order. */
    method SetStatus(id: OrderId, s: Status)
      requires Valid() && id in orders
      modifies this`orders
      ensures Valid()
      ensures orders == old(orders)[id := old(orders)[id].(status := s)]
    {
      orders := orders[id := orders[id].(status := s)];
    }

    /** Save only the note column of an order. */
    method SetNote(id: OrderId, note: string)
      requires Valid() && id in orders
      modifies this`orders
      ensures Valid()
      ensures orders == old(orders)[id := old(orders)[id].(note := note)]
    {
      orders := orders[id := orders[id].(note := note)];
    }

    /** Delete order rows (their items go with them). */
    method RemoveOrders(ids: set<OrderId>)
      requires Valid()
      modifies this`orders
      ensures Valid()
      ensures orders == old(orders) - ids
    {
      orders := orders - ids;
    }

    /**
     * Delete a product row. Items reference products with PROTECT, so a
     * product named by any item of any order cannot be deleted.
     */
    method DeleteProduct(pid: ProductId) returns (r: Result<()>)
      requires Valid()
      modifies this`products
      ensures Valid()
      ensures pid !in old(products) ==> r == Err(ProductNotFound(pid))
      ensures pid in old(products) ==>
        (r.Err? <==> exists id | id in orders :: pid in ProductsOf(orders[id].items))
      ensures pid in old(products) && r.Err? ==> r.error == ProductProtected(pid)
      ensures r.Err? ==> products == old(products)
      ensures r.Ok? ==> products == old(products) - {pid}
    {
      if pid !in products {
        return Err(ProductNotFound(pid));
      }
      if exists id | id in orders :: pid in ProductsOf(orders[id].items) {
        return Err(ProductProtected(pid));
      }
      products := products - {pid};
      r := Ok(());
    }
  }
}
