/**
 * The order serializer: the transition table it exposes, quantity
 * validation, and order creation / item replacement with stock bookkeeping.
 *
 * Creation and replacement run in one transaction: every requested item is
 * validated and reserved in turn (the first failure aborts), then one row
 * per item is written with the product's current price; a second row for
 * the same product violates the (order, product) constraint. Any failure
 * rolls the whole step back.
 */
module Serializers {
  import opened Models
  import opened Ledger
  import opened Text
  import opened Store

  /** The serializer's transition table, keyed by the stored status string. */
  const AllowedTransitionsTable: map<string, set<string>> := map[
    "pending" := {"paid", "cancelled"},
    "paid" := {"refunded"},
    "refunded" := {"pending"},
    "cancelled" := {"pending"}
  ]

  /** The targets reachable from `status`, sorted; a status without an entry has none. */
  ghost function AllowedTransitions(status: string): (r: seq<string>)
    ensures StrictlySorted(r)
    ensures forall t :: t in r <==> status in AllowedTransitionsTable && t in AllowedTransitionsTable[status]
  {
    SortedList(if status in AllowedTransitionsTable then AllowedTransitionsTable[status] else {})
  }

  lemma AllowedTransitionsFromPending()
    ensures AllowedTransitions("pending") == ["cancelled", "paid"]
  {
    var r := AllowedTransitions("pending");
    assert |r| == 2;
    assert r[0] in r && r[1] in r;
    assert Less("cancelled", "paid") && !Less("paid", "cancelled");
    LessIrreflexive("paid");
    LessIrreflexive("cancelled");
  }

  lemma AllowedTransitionsFromOthers()
    ensures AllowedTransitions("paid") == ["refunded"]
    ensures AllowedTransitions("refunded") == ["pending"]
    ensures AllowedTransitions("cancelled") == ["pending"]
  {
    assert |AllowedTransitions("paid")| == 1;
    assert AllowedTransitions("paid")[0] in AllowedTransitions("paid");
    assert |AllowedTransitions("refunded")| == 1;
    assert AllowedTransitions("refunded")[0] in AllowedTransitions("refunded");
    assert |AllowedTransitions("cancelled")| == 1;
    assert AllowedTransitions("cancelled")[0] in AllowedTransitions("cancelled");
  }

  /** A status string without an entry in the table gets the empty list. */
  lemma AllowedTransitionsUnknown(status: string)
    requires status !in StatusChoices
    ensures AllowedTransitions(status) == []
  {
    assert status !in AllowedTransitionsTable;
  }

  /** A requested quantity: missing means 1; anything not positive is refused. */
  function Qty(raw: Option<int>): (r: Result<nat>)
    ensures r.Ok? <==> raw.None? || raw.value > 0
    ensures r.Ok? ==> r.value >= 1 && (raw.None? ==> r.value == 1) && (raw.Some? ==> r.value == raw.value)
    ensures r.Err? ==> r.error == InvalidQuantity(raw.value)
  {
    match raw
    case None => Ok(1)
    case Some(q) => if q <= 0 then Err(InvalidQuantity(q)) else Ok(q)
  }

  /** One requested item: a product key and an optional quantity. */
  datatype ItemInput = ItemInput(product: ProductId, quantity: Option<int>)

  /** A validated request line. */
  datatype Line = Line(product: ProductId, quantity: nat)

  /**
   * Look the product up, validate the quantity and reserve it, for one
   * requested item. It succeeds exactly for an existing product with a
   * valid quantity in stock, and then is one reserving row update that
   * leaves that product's stock non-negative.
   */
  function ReserveInput(m: Catalog, input: ItemInput): (r: Result<(Catalog, Line)>)
    ensures r.Ok? <==> input.product in m && Qty(input.quantity).Ok? && m[input.product].stock >= Qty(input.quantity).value
    ensures r.Ok? ==> r.value.1 == Line(input.product, Qty(input.quantity).value)
    ensures r.Ok? ==> r.value.0 == ReserveAt(m, input.product, r.value.1.quantity) && r.value.0[input.product].stock >= 0
    ensures r.Err? && input.product !in m ==> r.error == ProductNotFound(input.product)
    ensures r.Err? ==> r.error.ProductNotFound? || r.error.InvalidQuantity? || r.error.InsufficientStock?
  {
    if input.product !in m then Err(ProductNotFound(input.product))
    else match Qty(input.quantity)
      case Err(e) => Err(e)
      case Ok(q) =>
        var p := m[input.product];
        if p.stock < q then Err(InsufficientStock(Shortage(p.name, p.stock, q)))
        else Ok((m[input.product := Reserve(p, q)], Line(input.product, q)))
  }

  datatype Reservation = Reservation(catalog: Catalog, lines: seq<Line>)

  /** The reserving loop: each item in turn, stopping at the first error. */
  function ReserveInputs(m: Catalog, inputs: seq<ItemInput>): (r: Result<Reservation>)
    ensures r.Ok? ==> r.value.catalog.Keys == m.Keys && |r.value.lines| == |inputs|
    ensures r.Ok? ==> forall i | 0 <= i < |inputs| ::
      && inputs[i].product in m
      && Qty(inputs[i].quantity) == Ok(r.value.lines[i].quantity)
      && r.value.lines[i].product == inputs[i].product
    ensures r.Err? ==> r.error.ProductNotFound? || r.error.InvalidQuantity? || r.error.InsufficientStock?
  {
    if inputs == [] then Ok(Reservation(m, []))
    else match ReserveInput(m, inputs[0])
      case Err(e) => Err(e)
      case Ok(step) =>
        match ReserveInputs(step.0, inputs[1..])
        case Err(e) => Err(e)
        case Ok(res) =>
          assert forall i | 1 <= i < |inputs| :: inputs[i] == inputs[1..][i - 1];
          Ok(Reservation(res.catalog, [step.1] + res.lines))
  }

  /** `lines` put in front of the lines of a successful reservation. */
  function Prefixed(lines: seq<Line>, r: Result<Reservation>): Result<Reservation> {
    match r
    case Err(e) => Err(e)
    case Ok(res) => Ok(Reservation(res.catalog, lines + res.lines))
  }

  lemma PrefixedNothing(r: Result<Reservation>)
    ensures Prefixed([], r) == r
  {
    if r.Ok? {
      assert [] + r.value.lines == r.value.lines;
    }
  }

  lemma PrefixedAppend(lines: seq<Line>, line: Line, r: Result<Reservation>)
    ensures Prefixed(lines, Prefixed([line], r)) == Prefixed(lines + [line], r)
  {
    if r.Ok? {
      assert lines + ([line] + r.value.lines) == (lines + [line]) + r.value.lines;
    }
  }

  predicate LinesIn(c: Catalog, lines: seq<Line>) {
    forall i | 0 <= i < |lines| :: lines[i].product in c
  }

  /**
   * The row-writing loop: one item row per line, keys from `next` on, the
   * product's current price as unit price; a product that already has a
   * row breaks the (order, product) constraint.
   */
  function AddRows(c: Catalog, lines: seq<Line>, rows: seq<Item>, next: nat): (r: Result<seq<Item>>)
    requires LinesIn(c, lines)
    ensures r.Ok? ==> |r.value| == |rows| + |lines| && r.value[..|rows|] == rows
    ensures r.Err? ==> r.error.DuplicateProduct?
  {
    if lines == [] then Ok(rows)
    else if lines[0].product in ProductsOf(rows) then Err(DuplicateProduct(lines[0].product))
    else AddRows(c, lines[1..], rows + [Item(next, lines[0].product, lines[0].quantity, c[lines[0].product].price)], next + 1)
  }

  datatype Created = Created(catalog: Catalog, rows: seq<Item>)

  /**
   * Both loops of order creation, from the catalog `m` and first item key
   * `next`: one row per requested item, no product row added or removed,
   * and a refusal is an unknown product, a bad quantity, a shortage or a
   * repeated product.
   */
  function CreateItems(m: Catalog, inputs: seq<ItemInput>, next: nat): (r: Result<Created>)
    ensures r.Ok? ==> |r.value.rows| == |inputs| && r.value.catalog.Keys == m.Keys
    ensures r.Err? ==> r.error.ProductNotFound? || r.error.InvalidQuantity? || r.error.InsufficientStock? || r.error.DuplicateProduct?
  {
    match ReserveInputs(m, inputs)
    case Err(e) => Err(e)
    case Ok(res) =>
      match AddRows(res.catalog, res.lines, [], next)
      case Err(e) => Err(e)
      case Ok(rows) => Ok(Created(res.catalog, rows))
  }

  /**
   * Item replacement: give back every old item (clamped), then create the
   * new ones. It succeeds exactly when the new items name distinct products
   * and each is satisfiable from the stock after the old items came back.
   */
  function UpdateItems(m: Catalog, old_items: seq<Item>, inputs: seq<ItemInput>, next: nat): (r: Result<Created>)
    ensures r.Ok? ==> |r.value.rows| == |inputs| && r.value.catalog.Keys == m.Keys
    ensures r.Ok? <==> DistinctInputs(inputs) && Satisfiable(ReleaseItems(m, old_items, true), inputs)
  {
    var released := ReleaseItems(m, old_items, true);
    CreateItemsOkIff(released, inputs, next);
    CreateItems(released, inputs, next)
  }

  // ---------- properties of creation ----------

  lemma {:induction false} AddRowsOk(c: Catalog, lines: seq<Line>, rows: seq<Item>, next: nat, out: seq<Item>)
    requires LinesIn(c, lines) && AddRows(c, lines, rows, next) == Ok(out)
    ensures |out| == |rows| + |lines| && out[..|rows|] == rows
    ensures forall i | 0 <= i < |lines| ::
      out[|rows| + i] == Item(next + i, lines[i].product, lines[i].quantity, c[lines[i].product].price)
    ensures DistinctProducts(rows) ==> DistinctProducts(out)
  {
    if lines != [] {
      var row := Item(next, lines[0].product, lines[0].quantity, c[lines[0].product].price);
      var rows' := rows + [row];
      AddRowsOk(c, lines[1..], rows', next + 1, out);
      assert out[..|rows|] == rows' [..|rows|];
      forall i | 0 <= i < |lines|
        ensures out[|rows| + i] == Item(next + i, lines[i].product, lines[i].quantity, c[lines[i].product].price)
      {
        if i > 0 {
          assert lines[1..][i - 1] == lines[i];
        }
      }
      if DistinctProducts(rows) {
        assert DistinctProducts(rows');
      }
    }
  }

  predicate DistinctLines(lines: seq<Line>) {
    forall i, j | 0 <= i < j < |lines| :: lines[i].product != lines[j].product
  }

  lemma {:induction false} AddRowsSucceeds(c: Catalog, lines: seq<Line>, rows: seq<Item>, next: nat)
    requires LinesIn(c, lines) && DistinctLines(lines)
    requires forall i | 0 <= i < |lines| :: lines[i].product !in ProductsOf(rows)
    ensures AddRows(c, lines, rows, next).Ok?
  {
    if lines != [] {
      var row := Item(next, lines[0].product, lines[0].quantity, c[lines[0].product].price);
      forall i | 0 <= i < |lines[1..]| ensures lines[1..][i].product !in ProductsOf(rows + [row]) {
        assert lines[1..][i] == lines[i + 1];
        assert lines[i + 1].product != lines[0].product;
        ProductsOfAppend(rows, row);
      }
      AddRowsSucceeds(c, lines[1..], rows + [row], next + 1);
    }
  }

  lemma ProductsOfAppend(rows: seq<Item>, row: Item)
    ensures ProductsOf(rows + [row]) == ProductsOf(rows) + {row.product}
  {
    var s := rows + [row];
    forall x ensures x in ProductsOf(s) <==> x in ProductsOf(rows) + {row.product} {
      if x in ProductsOf(s) {
        var i :| 0 <= i < |s| && s[i].product == x;
        if i < |rows| {
          assert rows[i] == s[i];
        }
      }
      if x in ProductsOf(rows) {
        var i :| 0 <= i < |rows| && rows[i].product == x;
        assert s[i] == rows[i];
      }
      if x == row.product {
        assert s[|rows|] == row;
      }
    }
  }

  /** The catalog a successful reservation leaves is the ledger's commit pass over rows with the same lines. */
  lemma {:induction false} ReserveInputsIsReserveItems(m: Catalog, inputs: seq<ItemInput>, res: Reservation, rows: seq<Item>)
    requires ReserveInputs(m, inputs) == Ok(res)
    requires |rows| == |res.lines|
    requires forall i | 0 <= i < |rows| :: rows[i].product == res.lines[i].product && rows[i].quantity == res.lines[i].quantity
    ensures res.catalog == ReserveItems(m, rows)
  {
    if inputs != [] {
      var step := ReserveInput(m, inputs[0]).value;
      var res' := ReserveInputs(step.0, inputs[1..]).value;
      var lines, rest := res.lines, res'.lines;
      assert lines == [step.1] + rest;
      forall i | 0 <= i < |rows[1..]|
        ensures rows[1..][i].product == rest[i].product && rows[1..][i].quantity == rest[i].quantity
      {
        assert rows[1..][i] == rows[i + 1] && rest[i] == lines[i + 1];
      }
      ReserveInputsIsReserveItems(step.0, inputs[1..], res', rows[1..]);
      assert rows[0].product == step.1.product && rows[0].quantity == step.1.quantity;
    }
  }

  /** A successful sequential reservation never leaves a product it checked below zero. */
  lemma {:induction false} ReserveInputsKeepsNonNegative(m: Catalog, inputs: seq<ItemInput>, pid: ProductId)
    requires ReserveInputs(m, inputs).Ok? && pid in m && m[pid].stock >= 0
    ensures ReserveInputs(m, inputs).value.catalog[pid].stock >= 0
  {
    if inputs != [] {
      var step := ReserveInput(m, inputs[0]).value;
      ReserveInputsKeepsNonNegative(step.0, inputs[1..], pid);
    }
  }

  lemma {:induction false} ReserveInputsNoOversell(m: Catalog, inputs: seq<ItemInput>)
    requires ReserveInputs(m, inputs).Ok?
    ensures forall i | 0 <= i < |inputs| :: ReserveInputs(m, inputs).value.catalog[inputs[i].product].stock >= 0
  {
    if inputs != [] {
      var step := ReserveInput(m, inputs[0]).value;
      ReserveInputsNoOversell(step.0, inputs[1..]);
      ReserveInputsKeepsNonNegative(step.0, inputs[1..], inputs[0].product);
      assert forall i | 1 <= i < |inputs| :: inputs[i] == inputs[1..][i - 1];
    }
  }

  /**
   * What a successful creation produces: one row per requested item, in
   * order, with fresh keys, the requested product and validated quantity,
   * the product's price as unit price, at most one row per product; the
   * catalog is the commit pass over those rows, and no product it names
   * has negative stock.
   */
  lemma CreateItemsOk(m: Catalog, inputs: seq<ItemInput>, next: nat)
    requires CreateItems(m, inputs, next).Ok?
    ensures var c := CreateItems(m, inputs, next).value;
      && |c.rows| == |inputs|
      && (forall i | 0 <= i < |inputs| ::
            && inputs[i].product in m
            && Qty(inputs[i].quantity) == Ok(c.rows[i].quantity)
            && c.rows[i] == Item(next + i, inputs[i].product, c.rows[i].quantity, m[inputs[i].product].price)
            && c.catalog[inputs[i].product].stock >= 0)
      && DistinctProducts(c.rows)
      && c.catalog == ReserveItems(m, c.rows)
  {
    var res := ReserveInputs(m, inputs).value;
    var c := CreateItems(m, inputs, next).value;
    CreatedRows(res.catalog, res.lines, next, c.rows);
    ReserveInputsIsReserveItems(m, inputs, res, c.rows);
    ReserveInputsNoOversell(m, inputs);
    forall i | 0 <= i < |inputs|
      ensures && inputs[i].product in m
              && Qty(inputs[i].quantity) == Ok(c.rows[i].quantity)
              && c.rows[i] == Item(next + i, inputs[i].product, c.rows[i].quantity, m[inputs[i].product].price)
              && c.catalog[inputs[i].product].stock >= 0
    {
      ReserveItemsEffect(m, c.rows, inputs[i].product);
    }
  }

  /** The rows the row loop writes into an empty order. */
  lemma CreatedRows(c: Catalog, lines: seq<Line>, next: nat, out: seq<Item>)
    requires LinesIn(c, lines) && AddRows(c, lines, [], next) == Ok(out)
    ensures |out| == |lines| && DistinctProducts(out)
    ensures forall i | 0 <= i < |lines| ::
      out[i] == Item(next + i, lines[i].product, lines[i].quantity, c[lines[i].product].price)
  {
    AddRowsOk(c, lines, [], next, out);
    forall i | 0 <= i < |lines|
      ensures out[i] == Item(next + i, lines[i].product, lines[i].quantity, c[lines[i].product].price)
    {
      assert out[i] == out[0 + i];
    }
  }

  predicate DistinctInputs(inputs: seq<ItemInput>) {
    forall i, j | 0 <= i < j < |inputs| :: inputs[i].product != inputs[j].product
  }

  /** Every requested item names a product, has a valid quantity and is in stock. */
  predicate Satisfiable(m: Catalog, inputs: seq<ItemInput>) {
    forall i | 0 <= i < |inputs| ::
      && inputs[i].product in m
      && Qty(inputs[i].quantity).Ok?
      && m[inputs[i].product].stock >= Qty(inputs[i].quantity).value
  }

  lemma {:induction false} ReserveInputsSucceeds(m: Catalog, inputs: seq<ItemInput>)
    requires DistinctInputs(inputs) && Satisfiable(m, inputs)
    ensures ReserveInputs(m, inputs).Ok?
  {
    if inputs != [] {
      var step := ReserveInput(m, inputs[0]).value;
      assert forall i | 0 <= i < |inputs[1..]| :: inputs[1..][i] == inputs[i + 1];
      assert forall i | 0 <= i < |inputs[1..]| :: inputs[1..][i].product != inputs[0].product;
      ReserveInputsSucceeds(step.0, inputs[1..]);
    }
  }

  /** Creation succeeds exactly when the items are satisfiable and name distinct products. */
  lemma CreateItemsOkIff(m: Catalog, inputs: seq<ItemInput>, next: nat)
    ensures CreateItems(m, inputs, next).Ok? <==> DistinctInputs(inputs) && Satisfiable(m, inputs)
  {
    if DistinctInputs(inputs) && Satisfiable(m, inputs) {
      ReserveInputsSucceeds(m, inputs);
      var res := ReserveInputs(m, inputs).value;
      AddRowsSucceeds(res.catalog, res.lines, [], next);
    }
    if CreateItems(m, inputs, next).Ok? {
      CreateItemsOk(m, inputs, next);
      var c := CreateItems(m, inputs, next).value;
      forall i | 0 <= i < |inputs| ensures m[inputs[i].product].stock >= c.rows[i].quantity {
        ReserveItemsEffect(m, c.rows, inputs[i].product);
        QtyOfDistinct(c.rows, i);
      }
    }
  }

  /**
   * The net stock change of a successful item replacement, per product:
   * the old units come back and the new units go out.
   */
  lemma UpdateItemsNet(m: Catalog, old_items: seq<Item>, inputs: seq<ItemInput>, next: nat, pid: ProductId)
    requires UpdateItems(m, old_items, inputs, next).Ok? && pid in m
    ensures var c := UpdateItems(m, old_items, inputs, next).value;
      c.catalog[pid].stock == m[pid].stock + QtyOf(old_items, pid) - QtyOf(c.rows, pid)
  {
    var released := ReleaseItems(m, old_items, true);
    CreateItemsOk(released, inputs, next);
    var c := UpdateItems(m, old_items, inputs, next).value;
    ReleaseItemsEffect(m, old_items, true, pid);
    ReserveItemsEffect(released, c.rows, pid);
  }

  // ---------- the serializer's methods ----------

  /** Check one product's stock and reserve q units of it, or report the shortage. */
  method ReserveStock(db: Database, pid: ProductId, q: nat) returns (short: Option<Shortage>)
    requires pid in db.products
    modifies db`products
    ensures var p := old(db.products)[pid];
      && short == (if p.stock < q then Some(Shortage(p.name, p.stock, q)) else None)
      && db.products == (if short.None? then old(db.products)[pid := Reserve(p, q)] else old(db.products))
  {
    var p := db.products[pid];
    if p.stock < q {
      return Some(Shortage(p.name, p.stock, q));
    }
    db.ReserveAtRow(pid, q);
    short := None;
  }

  /** Give q units of one product back, flooring `sold` at zero. */
  method ReleaseStock(db: Database, pid: ProductId, q: nat)
    modifies db`products
    ensures db.products == ReleaseAt(old(db.products), pid, q, true)
  {
    db.ReleaseAtRow(pid, q, true);
  }

  /** Give back every item of a list, one `ReleaseStock` each. */
  method ReleaseEach(db: Database, items: seq<Item>)
    modifies db`products
    ensures db.products == ReleaseItems(old(db.products), items, true)
  {
    var i := 0;
    while i < |items|
      invariant 0 <= i <= |items|
      invariant ReleaseItems(old(db.products), items, true) == ReleaseItems(db.products, items[i..], true)
    {
      assert items[i..][1..] == items[i + 1..];
      ReleaseStock(db, items[i].product, items[i].quantity);
      i := i + 1;
    }
    assert items[i..] == [];
  }

  /** Store the sum of the item subtotals as the order's total. */
  method RecalcTotal(db: Database, id: OrderId)
    requires id in db.orders
    modifies db`orders
    ensures db.orders == old(db.orders)[id := old(db.orders)[id].(total := Total(old(db.orders)[id].items))]
  {
    var o := db.orders[id];
    db.orders := db.orders[id := o.(total := Total(o.items))];
  }

  /** The reserving loop: validate and reserve each requested item in turn; stop at the first error. */
  method ReserveEach(db: Database, inputs: seq<ItemInput>) returns (r: Result<seq<Line>>)
    modifies db`products
    ensures var spec := ReserveInputs(old(db.products), inputs);
      && (r.Err? <==> spec.Err?)
      && (r.Err? ==> r.error == spec.error && db.products.Keys == old(db.products).Keys)
      && (r.Ok? ==> r.value == spec.value.lines && db.products == spec.value.catalog)
  {
    ghost var m := db.products;
    var lines: seq<Line> := [];
    var i := 0;
    assert inputs[0..] == inputs;
    PrefixedNothing(ReserveInputs(m, inputs));
    while i < |inputs|
      invariant 0 <= i <= |inputs|
      invariant db.products.Keys == m.Keys
      invariant ReserveInputs(m, inputs) == Prefixed(lines, ReserveInputs(db.products, inputs[i..]))
    {
      var input := inputs[i];
      assert inputs[i..][0] == input && inputs[i..][1..] == inputs[i + 1..];
      if input.product !in db.products {
        return Err(ProductNotFound(input.product));
      }
      var q := Qty(input.quantity);
      if q.Err? {
        return Err(q.error);
      }
      ghost var before := db.products;
      var short := ReserveStock(db, input.product, q.value);
      if short.Some? {
        return Err(InsufficientStock(short.value));
      }
      var line := Line(input.product, q.value);
      assert ReserveInput(before, input) == Ok((db.products, line));
      assert ReserveInputs(before, inputs[i..]) == Prefixed([line], ReserveInputs(db.products, inputs[i + 1..]));
      PrefixedAppend(lines, line, ReserveInputs(db.products, inputs[i + 1..]));
      lines := lines + [line];
      i := i + 1;
    }
    assert inputs[i..] == [];
    assert lines + [] == lines;
    r := Ok(lines);
  }

  /** The row-writing loop: one row per line with a fresh key and the current price. */
  method BuildRows(db: Database, lines: seq<Line>) returns (r: Result<seq<Item>>)
    requires LinesIn(db.products, lines)
    modifies db`nextItemId
    ensures r == AddRows(db.products, lines, [], old(db.nextItemId))
    ensures r.Ok? ==> db.nextItemId == old(db.nextItemId) + |lines|
    ensures db.nextItemId >= old(db.nextItemId)
  {
    var rows: seq<Item> := [];
    ghost var first := db.nextItemId;
    var j := 0;
    assert lines[0..] == lines;
    while j < |lines|
      invariant 0 <= j <= |lines|
      invariant db.nextItemId == first + j
      invariant AddRows(db.products, lines, [], first) == AddRows(db.products, lines[j..], rows, first + j)
    {
      var line := lines[j];
      assert lines[j..][0] == line && lines[j..][1..] == lines[j + 1..];
      if line.product in ProductsOf(rows) {
        return Err(DuplicateProduct(line.product));
      }
      rows := rows + [Item(db.nextItemId, line.product, line.quantity, db.products[line.product].price)];
      db.nextItemId := db.nextItemId + 1;
      j := j + 1;
    }
    assert lines[j..] == [];
    r := Ok(rows);
  }

  /**
   * The two loops shared by create and update: reserve every requested item,
   * then build its row. On failure the caller rolls back.
   */
  method ReserveAndBuildRows(db: Database, inputs: seq<ItemInput>) returns (r: Result<seq<Item>>)
    modifies db`products, db`nextItemId
    ensures db.products.Keys == old(db.products).Keys
    ensures db.nextItemId >= old(db.nextItemId)
    ensures var spec := CreateItems(old(db.products), inputs, old(db.nextItemId));
      && (r.Err? <==> spec.Err?)
      && (r.Err? ==> r.error == spec.error)
      && (r.Ok? ==> r.value == spec.value.rows && db.products == spec.value.catalog
                    && db.nextItemId == old(db.nextItemId) + |inputs|)
  {
    var lines := ReserveEach(db, inputs);
    if lines.Err? {
      return Err(lines.error);
    }
    ghost var res := ReserveInputs(old(db.products), inputs).value;
    assert LinesIn(db.products, lines.value);
    r := BuildRows(db, lines.value);
  }

  /** The new order's row is valid: fresh keys, existing products, one row per product, right total. */
  lemma NewRowsValid(m: Catalog, inputs: seq<ItemInput>, next: nat, o: Order, nextItem: nat)
    requires CreateItems(m, inputs, next).Ok?
    requires o.items == CreateItems(m, inputs, next).value.rows && o.total == Total(o.items)
    requires nextItem == next + |inputs|
    ensures OrderValid(o, m.Keys, nextItem)
  {
    CreateItemsOk(m, inputs, next);
  }

  /** Create an order owned by `user` with the requested items, or change nothing. */
  method Create(db: Database, user: UserId, note: string, inputs: seq<ItemInput>) returns (r: Result<OrderId>)
    requires db.Valid()
    modifies db
    ensures db.Valid()
    ensures var spec := CreateItems(old(db.products), inputs, old(db.nextItemId));
      && (r.Err? <==> spec.Err?)
      && (r.Err? ==> r.error == spec.error && db.products == old(db.products) && db.orders == old(db.orders))
      && (r.Ok? ==> r.value !in old(db.orders)
                    && db.products == spec.value.catalog
                    && db.orders == old(db.orders)[r.value := Order(user, Pending, note, Total(spec.value.rows), spec.value.rows)])
  {
    var savedProducts, savedOrders := db.products, db.orders;
    var oid := db.nextOrderId;
    db.orders := db.orders[oid := NewOrder(user, note)];
    db.nextOrderId := oid + 1;
    var rows := ReserveAndBuildRows(db, inputs);
    if rows.Err? {
      db.products, db.orders := savedProducts, savedOrders;
      return Err(rows.error);
    }
    ghost var created := NewOrder(user, note);
    ghost var filled := created.(items := rows.value);
    db.orders := db.orders[oid := db.orders[oid].(items := rows.value)];
    PutTwice(savedOrders, oid, created, filled);
    RecalcTotal(db, oid);
    ghost var o := filled.(total := Total(rows.value));
    PutTwice(savedOrders, oid, filled, o);
    NewRowsValid(savedProducts, inputs, old(db.nextItemId), o, db.nextItemId);
    TablesValidPut(savedProducts, savedOrders, old(db.nextOrderId), old(db.nextItemId),
                   db.products, db.nextOrderId, db.nextItemId, oid, o);
    r := Ok(oid);
  }

  /** The order with its note set, when one is given. */
  function Noted(o: Order, note: Option<string>): (o': Order)
    ensures o'.note == (if note.Some? then note.value else o.note)
    ensures o'.user == o.user && o'.status == o.status && o'.total == o.total && o'.items == o.items
  {
    if note.Some? then o.(note := note.value) else o
  }

  /** Update without items: set the note if given and recompute the total. */
  method UpdateFields(db: Database, id: OrderId, note: Option<string>)
    requires db.Valid() && id in db.orders
    modifies db`orders
    ensures db.Valid()
    ensures db.orders == old(db.orders)[id := Noted(old(db.orders)[id], note)]
  {
    if note.Some? {
      db.SetNote(id, note.value);
    }
    RecalcTotal(db, id);
  }

  /**
   * Replace the items of an order: give back every old item, drop the old
   * rows and create the new ones, all or nothing.
   */
  method ReplaceItems(db: Database, id: OrderId, inputs: seq<ItemInput>) returns (r: Result<()>)
    requires db.Valid() && id in db.orders
    modifies db`products, db`orders, db`nextItemId
    ensures db.Valid() && db.nextItemId >= old(db.nextItemId)
    ensures var o := old(db.orders)[id];
      var spec := UpdateItems(old(db.products), o.items, inputs, old(db.nextItemId));
      && (r.Err? <==> spec.Err?)
      && (r.Err? ==> r.error == spec.error && db.products == old(db.products) && db.orders == old(db.orders))
      && (r.Ok? ==> db.products == spec.value.catalog
                    && db.orders == old(db.orders)[id := o.(items := spec.value.rows, total := Total(spec.value.rows))])
  {
    var savedProducts, savedOrders := db.products, db.orders;
    ghost var o := savedOrders[id];
    var items := db.orders[id].items;
    ReleaseEach(db, items);
    ghost var cleared := o.(items := []);
    db.orders := db.orders[id := db.orders[id].(items := [])];
    var rows := ReserveAndBuildRows(db, inputs);
    if rows.Err? {
      db.products, db.orders := savedProducts, savedOrders;
      return Err(rows.error);
    }
    ghost var filled := cleared.(items := rows.value);
    db.orders := db.orders[id := db.orders[id].(items := rows.value)];
    PutTwice(savedOrders, id, cleared, filled);
    RecalcTotal(db, id);
    ghost var o' := filled.(total := Total(rows.value));
    PutTwice(savedOrders, id, filled, o');
    NewRowsValid(ReleaseItems(savedProducts, items, true), inputs, old(db.nextItemId), o', db.nextItemId);
    TablesValidPut(savedProducts, savedOrders, db.nextOrderId, old(db.nextItemId),
                   db.products, db.nextOrderId, db.nextItemId, id, o');
    r := Ok(());
  }

  /** Update with items: set the note if given, then replace the items; on failure nothing changes. */
  method UpdateWithItems(db: Database, id: OrderId, note: Option<string>, inputs: seq<ItemInput>) returns (r: Result<()>)
    requires db.Valid() && id in db.orders
    modifies db`products, db`orders, db`nextItemId
    ensures db.Valid()
    ensures var o := old(db.orders)[id];
      var spec := UpdateItems(old(db.products), o.items, inputs, old(db.nextItemId));
      && (r.Err? <==> spec.Err?)
      && (r.Err? ==> r.error == spec.error && db.products == old(db.products) && db.orders == old(db.orders))
      && (r.Ok? ==> db.products == spec.value.catalog
                    && db.orders == old(db.orders)[id := Noted(o, note).(items := spec.value.rows, total := Total(spec.value.rows))])
  {
    var savedOrders := db.orders;
    ghost var o := savedOrders[id];
    if note.Some? {
      db.SetNote(id, note.value);
    }
    assert db.orders == savedOrders[id := Noted(o, note)];
    ghost var next := db.nextItemId;
    ghost var spec := UpdateItems(db.products, o.items, inputs, next);
    r := ReplaceItems(db, id, inputs);
    if r.Err? {
      db.orders := savedOrders;
      TablesValidGrow(db.products, db.orders, db.nextOrderId, next, db.nextItemId);
    } else {
      PutTwice(savedOrders, id, Noted(o, note), Noted(o, note).(items := spec.value.rows, total := Total(spec.value.rows)));
    }
  }

  /**
   * Update an order: set the note if given; if items are given, replace
   * them. No status is checked. The total is recomputed either way. On
   * failure nothing changes.
   */
  method Update(db: Database, id: OrderId, note: Option<string>, inputs: Option<seq<ItemInput>>) returns (r: Result<()>)
    requires db.Valid() && id in db.orders
    modifies db`products, db`orders, db`nextItemId
    ensures db.Valid()
    ensures var o := old(db.orders)[id];
      && (inputs.None? ==> r.Ok? && db.products == old(db.products) && db.orders == old(db.orders)[id := Noted(o, note)])
      && (inputs.Some? ==>
            var spec := UpdateItems(old(db.products), o.items, inputs.value, old(db.nextItemId));
            && (r.Err? <==> spec.Err?)
            && (r.Err? ==> r.error == spec.error && db.products == old(db.products) && db.orders == old(db.orders))
            && (r.Ok? ==> db.products == spec.value.catalog
                          && db.orders == old(db.orders)[id := Noted(o, note).(items := spec.value.rows, total := Total(spec.value.rows))]))
  {
    if inputs.None? {
      UpdateFields(db, id, note);
      r := Ok(());
    } else {
      r := UpdateWithItems(db, id, note, inputs.value);
    }
  }
}
