/**
 * The stock ledger: the counter updates a product's `stock` / `sold` pair
 * goes through, and their effect over all items of an order.
 *
 * Reserving q units moves q from `stock` to `sold`; releasing moves them
 * back. The admin site and the serializer clamp `sold` at zero when
 * releasing; the API views do not, hence the `clamp` flag.
 */
module Ledger {
  import opened Models

  function Max(a: int, b: int): int {
    if a < b then b else a
  }

  /**
   * Selling q units: the units move from `stock` to `sold`, so their sum is
   * kept, and giving them back unclamped restores the row.
   */
  function Reserve(p: Product, q: int): (r: Product)
    ensures r.name == p.name && r.price == p.price
    ensures r.stock + r.sold == p.stock + p.sold
    ensures Release(r, q, false) == p
  {
    p.(stock := p.stock - q, sold := p.sold + q)
  }

  /**
   * Giving q units back: unclamped the sum of `stock` and `sold` is kept;
   * clamped, `sold` is never left negative.
   */
  function Release(p: Product, q: int, clamp: bool): (r: Product)
    ensures r.name == p.name && r.price == p.price
    ensures !clamp ==> r.stock + r.sold == p.stock + p.sold
    ensures clamp ==> r.sold >= 0
  {
    p.(stock := p.stock + q, sold := if clamp then Max(p.sold - q, 0) else p.sold - q)
  }

  /**
   * The update filtered on one primary key: only that row changes, and a
   * missing key changes no row.
   */
  function ReserveAt(m: Catalog, pid: ProductId, q: int): (r: Catalog)
    ensures r.Keys == m.Keys
    ensures forall other | other in m && other != pid :: r[other] == m[other]
    ensures pid !in m ==> r == m
  {
    if pid in m then m[pid := Reserve(m[pid], q)] else m
  }

  /** The releasing update filtered on one primary key: only that row changes. */
  function ReleaseAt(m: Catalog, pid: ProductId, q: int, clamp: bool): (r: Catalog)
    ensures r.Keys == m.Keys
    ensures forall other | other in m && other != pid :: r[other] == m[other]
    ensures pid !in m ==> r == m
    ensures clamp && pid in m ==> r[pid].sold >= 0
  {
    if pid in m then m[pid := Release(m[pid], q, clamp)] else m
  }

  /** A signed stock adjustment: positive sells more, negative gives back (clamped). */
  function DiffAt(m: Catalog, pid: ProductId, diff: int): (r: Catalog)
    ensures r.Keys == m.Keys
  {
    if diff == 0 then m
    else if diff > 0 then ReserveAt(m, pid, diff)
    else ReleaseAt(m, pid, -diff, true)
  }

  /** The three cases of a signed adjustment, and that no other product moves. */
  lemma DiffAtEffect(m: Catalog, pid: ProductId, diff: int)
    requires pid in m
    ensures forall other | other in m && other != pid :: DiffAt(m, pid, diff)[other] == m[other]
    ensures var p, p' := m[pid], DiffAt(m, pid, diff)[pid];
      && p'.name == p.name && p'.price == p.price
      && (diff == 0 ==> p' == p)
      && (diff > 0 ==> p'.stock == p.stock - diff && p'.sold == p.sold + diff)
      && (diff < 0 ==> p'.stock == p.stock + (-diff) && p'.sold == Max(p.sold - (-diff), 0))
  {
  }

  /**
   * Editing one line from `before` to `after` units of the same product by the
   * signed difference has the same effect as releasing the old quantity and
   * reserving the new one, as long as the clamp does not bite.
   */
  lemma DiffIsReleaseThenReserve(m: Catalog, pid: ProductId, before: nat, after: nat)
    requires pid in m && m[pid].sold >= before
    ensures DiffAt(m, pid, after - before) == ReserveAt(ReleaseAt(m, pid, before, true), pid, after)
  {
    var p := m[pid];
    var lhs := DiffAt(m, pid, after - before);
    var rhs := ReserveAt(ReleaseAt(m, pid, before, true), pid, after);
    assert lhs[pid] == rhs[pid];
  }

  /** Units of `pid` across `items`. */
  function QtyOf(items: seq<Item>, pid: ProductId): nat {
    if items == [] then 0
    else (if items[0].product == pid then items[0].quantity else 0) + QtyOf(items[1..], pid)
  }

  lemma {:induction false} QtyOfAbsent(items: seq<Item>, pid: ProductId)
    requires pid !in ProductsOf(items)
    ensures QtyOf(items, pid) == 0
  {
    if items != [] {
      QtyOfAbsent(items[1..], pid);
    }
  }

  /** With one item per product, the units of an item's product are that item's quantity. */
  lemma {:induction false} QtyOfDistinct(items: seq<Item>, k: nat)
    requires DistinctProducts(items) && k < |items|
    ensures QtyOf(items, items[k].product) == items[k].quantity
  {
    var pid := items[k].product;
    if k == 0 {
      assert pid !in ProductsOf(items[1..]) by {
        forall i | 0 <= i < |items[1..]| ensures items[1..][i].product != pid {
          assert items[1..][i] == items[i + 1];
        }
      }
      QtyOfAbsent(items[1..], pid);
    } else {
      assert items[1..][k - 1] == items[k];
      QtyOfDistinct(items[1..], k - 1);
    }
  }

  /**
   * The commit pass of a reservation: every item, in order. No product row
   * appears or disappears, names and prices stay, and each product's
   * `stock + sold` is kept.
   */
  function ReserveItems(m: Catalog, items: seq<Item>): (r: Catalog)
    ensures r.Keys == m.Keys
    ensures forall pid | pid in m :: r[pid].name == m[pid].name && r[pid].price == m[pid].price
    ensures forall pid | pid in m :: r[pid].stock + r[pid].sold == m[pid].stock + m[pid].sold
  {
    if items == [] then m
    else ReserveItems(ReserveAt(m, items[0].product, items[0].quantity), items[1..])
  }

  /**
   * Releasing every item, in order. No product row appears or disappears and
   * names and prices stay; unclamped, each product's `stock + sold` is
   * kept; clamped, no `sold` that was not negative becomes negative.
   */
  function ReleaseItems(m: Catalog, items: seq<Item>, clamp: bool): (r: Catalog)
    ensures r.Keys == m.Keys
    ensures forall pid | pid in m :: r[pid].name == m[pid].name && r[pid].price == m[pid].price
    ensures !clamp ==> forall pid | pid in m :: r[pid].stock + r[pid].sold == m[pid].stock + m[pid].sold
    ensures clamp ==> forall pid | pid in m && m[pid].sold >= 0 :: r[pid].sold >= 0
  {
    if items == [] then m
    else ReleaseItems(ReleaseAt(m, items[0].product, items[0].quantity, clamp), items[1..], clamp)
  }

  /** Releasing two item lists one after the other is releasing their concatenation. */
  lemma {:induction false} ReleaseItemsAppend(m: Catalog, a: seq<Item>, b: seq<Item>, clamp: bool)
    ensures ReleaseItems(m, a + b, clamp) == ReleaseItems(ReleaseItems(m, a, clamp), b, clamp)
  {
    if a == [] {
      assert a + b == b;
    } else {
      assert (a + b)[1..] == a[1..] + b;
      ReleaseItemsAppend(ReleaseAt(m, a[0].product, a[0].quantity, clamp), a[1..], b, clamp);
    }
  }

  /** Reserving two item lists one after the other is reserving their concatenation. */
  lemma {:induction false} ReserveItemsAppend(m: Catalog, a: seq<Item>, b: seq<Item>)
    ensures ReserveItems(m, a + b) == ReserveItems(ReserveItems(m, a), b)
  {
    if a == [] {
      assert a + b == b;
    } else {
      assert (a + b)[1..] == a[1..] + b;
      ReserveItemsAppend(ReserveAt(m, a[0].product, a[0].quantity), a[1..], b);
    }
  }

  lemma {:induction false} QtyOfAppend(a: seq<Item>, b: seq<Item>, pid: ProductId)
    ensures QtyOf(a + b, pid) == QtyOf(a, pid) + QtyOf(b, pid)
  {
    if a == [] {
      assert a + b == b;
    } else {
      assert (a + b)[1..] == a[1..] + b;
      QtyOfAppend(a[1..], b, pid);
    }
  }

  /** Reserving all items takes exactly each product's units from stock and adds them to sold. */
  lemma {:induction false} ReserveItemsEffect(m: Catalog, items: seq<Item>, pid: ProductId)
    requires pid in m
    ensures var p, p' := m[pid], ReserveItems(m, items)[pid];
      && p'.name == p.name && p'.price == p.price
      && p'.stock == p.stock - QtyOf(items, pid)
      && p'.sold == p.sold + QtyOf(items, pid)
  {
    if items != [] {
      ReserveItemsEffect(ReserveAt(m, items[0].product, items[0].quantity), items[1..], pid);
    }
  }

  /**
   * Releasing all items gives back exactly each product's units to stock.
   * Clamped, `sold` ends at max(sold - units, 0) for every product the items
   * name, so it is never negative afterwards; unclamped it drops by the units.
   */
  lemma {:induction false} ReleaseItemsEffect(m: Catalog, items: seq<Item>, clamp: bool, pid: ProductId)
    requires pid in m
    ensures var p, p' := m[pid], ReleaseItems(m, items, clamp)[pid];
      && p'.name == p.name && p'.price == p.price
      && p'.stock == p.stock + QtyOf(items, pid)
      && p'.sold == (if !clamp then p.sold - QtyOf(items, pid)
                     else if pid in ProductsOf(items) then Max(p.sold - QtyOf(items, pid), 0)
                     else p.sold)
  {
    if items != [] {
      var m1 := ReleaseAt(m, items[0].product, items[0].quantity, clamp);
      ReleaseItemsEffect(m1, items[1..], clamp, pid);
      if clamp && pid !in ProductsOf(items[1..]) {
        QtyOfAbsent(items[1..], pid);
      }
    }
  }

  /** A clamped release never leaves a product it touches with a negative `sold`. */
  lemma ClampedReleaseSoldNonNegative(m: Catalog, items: seq<Item>, pid: ProductId)
    requires pid in m && (m[pid].sold >= 0 || pid in ProductsOf(items))
    ensures ReleaseItems(m, items, true)[pid].sold >= 0
  {
    ReleaseItemsEffect(m, items, true, pid);
  }

  /** Giving the same items back after reserving them restores every product exactly. */
  lemma ReleaseUndoesReserve(m: Catalog, items: seq<Item>)
    requires forall pid | pid in m :: m[pid].sold >= 0
    ensures ReleaseItems(ReserveItems(m, items), items, true) == m
  {
    var r := ReleaseItems(ReserveItems(m, items), items, true);
    assert r.Keys == m.Keys;
    forall pid | pid in m ensures r[pid] == m[pid] {
      ReleaseUndoesReserveAt(m, items, pid);
    }
  }

  /** The clamped round trip on one product whose `sold` does not start negative. */
  lemma ReleaseUndoesReserveAt(m: Catalog, items: seq<Item>, pid: ProductId)
    requires pid in m && m[pid].sold >= 0
    ensures ReleaseItems(ReserveItems(m, items), items, true)[pid] == m[pid]
  {
    var m1 := ReserveItems(m, items);
    var q := QtyOf(items, pid);
    ReserveItemsEffect(m, items, pid);
    ReleaseItemsEffect(m1, items, true, pid);
    var p, p1, p' := m[pid], m1[pid], ReleaseItems(m1, items, true)[pid];
    assert p1.sold == p.sold + q;
    if pid in ProductsOf(items) {
      assert p'.sold == Max(p1.sold - q, 0);
      assert p1.sold - q == p.sold;
    } else {
      QtyOfAbsent(items, pid);
      assert p'.sold == p1.sold;
    }
    assert p'.stock == p.stock && p'.sold == p.sold;
  }

  /** The unclamped round trip on one product. */
  lemma UnclampedReleaseUndoesReserveAt(m: Catalog, items: seq<Item>, pid: ProductId)
    requires pid in m
    ensures ReleaseItems(ReserveItems(m, items), items, false)[pid] == m[pid]
  {
    var m1 := ReserveItems(m, items);
    ReserveItemsEffect(m, items, pid);
    ReleaseItemsEffect(m1, items, false, pid);
  }

  /** Without the clamp the round trip is exact for any starting counters. */
  lemma UnclampedReleaseUndoesReserve(m: Catalog, items: seq<Item>)
    ensures ReleaseItems(ReserveItems(m, items), items, false) == m
  {
    var r := ReleaseItems(ReserveItems(m, items), items, false);
    assert r.Keys == m.Keys;
    forall pid | pid in m ensures r[pid] == m[pid] {
      UnclampedReleaseUndoesReserveAt(m, items, pid);
    }
  }

  /** Reserving and unclamped releasing both keep stock + sold of every product. */
  lemma StockPlusSoldKept(m: Catalog, items: seq<Item>, pid: ProductId)
    requires pid in m
    ensures ReserveItems(m, items)[pid].stock + ReserveItems(m, items)[pid].sold == m[pid].stock + m[pid].sold
    ensures ReleaseItems(m, items, false)[pid].stock + ReleaseItems(m, items, false)[pid].sold
            == m[pid].stock + m[pid].sold
  {
    ReserveItemsEffect(m, items, pid);
    ReleaseItemsEffect(m, items, false, pid);
  }

  predicate ProductsExist(m: Catalog, items: seq<Item>) {
    forall i | 0 <= i < |items| :: items[i].product in m
  }

  predicate Short(m: Catalog, it: Item)
    requires it.product in m
  {
    m[it.product].stock < it.quantity
  }

  function ShortageOf(m: Catalog, it: Item): Shortage
    requires it.product in m
  {
    Shortage(m[it.product].name, m[it.product].stock, it.quantity)
  }

  /**
   * The check pass of a reservation: the first item whose product has too
   * little stock. A reported shortage is real: it asks for more than is
   * available.
   */
  function CheckStock(m: Catalog, items: seq<Item>): (r: Option<Shortage>)
    requires ProductsExist(m, items)
    ensures r.Some? ==> r.value.required > r.value.available
  {
    if items == [] then None
    else if Short(m, items[0]) then Some(ShortageOf(m, items[0]))
    else CheckStock(m, items[1..])
  }

  /** The check pass succeeds iff no item is short. */
  lemma {:induction false} CheckStockNone(m: Catalog, items: seq<Item>)
    requires ProductsExist(m, items)
    ensures CheckStock(m, items).None? <==> forall i | 0 <= i < |items| :: !Short(m, items[i])
  {
    if items != [] {
      CheckStockNone(m, items[1..]);
      assert forall i | 1 <= i < |items| :: items[i] == items[1..][i - 1];
    }
  }

  /** A failing check pass reports the first short item: its product's name, stock and the quantity. */
  lemma {:induction false} CheckStockFirst(m: Catalog, items: seq<Item>) returns (k: nat)
    requires ProductsExist(m, items) && CheckStock(m, items).Some?
    ensures k < |items| && Short(m, items[k])
    ensures forall j | 0 <= j < k :: !Short(m, items[j])
    ensures CheckStock(m, items) == Some(ShortageOf(m, items[k]))
  {
    if Short(m, items[0]) {
      k := 0;
    } else {
      var k' := CheckStockFirst(m, items[1..]);
      k := k' + 1;
      assert items[k] == items[1..][k'];
      assert forall j | 1 <= j < k :: items[j] == items[1..][j - 1];
    }
  }

  /**
   * A reservation over items with distinct products that passed its check
   * leaves none of those products with negative stock.
   */
  lemma ReserveNoOversell(m: Catalog, items: seq<Item>)
    requires ProductsExist(m, items) && DistinctProducts(items) && CheckStock(m, items).None?
    ensures forall i | 0 <= i < |items| :: ReserveItems(m, items)[items[i].product].stock >= 0
  {
    CheckStockNone(m, items);
    forall i | 0 <= i < |items| ensures ReserveItems(m, items)[items[i].product].stock >= 0 {
      ReserveItemsEffect(m, items, items[i].product);
      QtyOfDistinct(items, i);
    }
  }
}
