/** What the repository loops of PedidoRepository::createPedido, VentaRepository::createVenta
    and VentaRepository::createVentaPedido do to the product table and to a line table,
    stated as folds over the requested items, with the lemmas the controllers rely on. */
module LineEffects {
  import opened Domain

  /** One pass of a repository loop over the product table: `$producto->stock -= cantidad`
      when the item's product exists. */
  function DecrementOne(products: map<Id, Producto>, it: Item): (r: map<Id, Producto>)
    ensures r.Keys == products.Keys
    ensures it.id in products ==> r[it.id] == products[it.id].(stock := products[it.id].stock - it.cantidad)
    ensures forall k :: k in products && k != it.id ==> r[k] == products[k]
  {
    if it.id in products then products[it.id := products[it.id].(stock := products[it.id].stock - it.cantidad)]
    else products
  }

  /** The line one pass inserts for `owner`: the item's quantity at the product's
      `precio_venta`, or nothing when the product does not exist. */
  function LineFor(products: map<Id, Producto>, it: Item, owner: Id): (rows: seq<LineRow>)
    ensures it.id in products <==> |rows| == 1
    ensures it.id !in products <==> rows == []
    ensures it.id in products ==> rows[0] == LineRow(owner, it.id, it.cantidad, products[it.id].precioVenta)
  {
    if it.id in products then [LineRow(owner, it.id, it.cantidad, products[it.id].precioVenta)] else []
  }

  /** The product table after every pass, in order; a product named twice is decremented twice. */
  function Decremented(products: map<Id, Producto>, items: seq<Item>): (r: map<Id, Producto>)
    ensures r.Keys == products.Keys
    decreases |items|
  {
    if items == [] then products
    else DecrementOne(Decremented(products, items[..|items| - 1]), items[|items| - 1])
  }

  /** The rows inserted for `owner` by every pass, in order: one per item whose product
      exists; items naming unknown products are skipped. */
  function PricedLines(products: map<Id, Producto>, items: seq<Item>, owner: Id): (rows: seq<LineRow>)
    ensures |rows| <= |items|
    ensures forall i :: 0 <= i < |rows| ==>
              rows[i].ownerId == owner && rows[i].productosId in products
              && rows[i].costo == products[rows[i].productosId].precioVenta
    decreases |items|
  {
    if items == [] then []
    else PricedLines(products, items[..|items| - 1], owner) + LineFor(products, items[|items| - 1], owner)
  }

  /** Total quantity the items request for product `k`. */
  function Quantity(items: seq<Item>, k: Id): int
    decreases |items|
  {
    if items == [] then 0
    else Quantity(items[..|items| - 1], k) + (if items[|items| - 1].id == k then items[|items| - 1].cantidad else 0)
  }

  predicate DistinctIds(items: seq<Item>) {
    forall i, j :: 0 <= i < j < |items| ==> items[i].id != items[j].id
  }

  /** One more item extends `Decremented` and `PricedLines` by one pass; the pass may read
      the product from the table the previous passes left, whose prices and keys are the
      original ones. `table` is the line table the first item's line is appended to. */
  lemma PrefixStep(products: map<Id, Producto>, items: seq<Item>, i: int, owner: Id, table: seq<LineRow>)
    requires 0 <= i < |items|
    ensures Decremented(products, items[..i + 1]) == DecrementOne(Decremented(products, items[..i]), items[i])
    ensures table + PricedLines(products, items[..i + 1], owner)
            == (table + PricedLines(products, items[..i], owner)) + LineFor(Decremented(products, items[..i]), items[i], owner)
    ensures LineFor(Decremented(products, items[..i]), items[i], owner) == LineFor(products, items[i], owner)
  {
    assert items[..i + 1][..i] == items[..i];
    DecrementedKeepsCatalog(products, items[..i]);
    var done, next := PricedLines(products, items[..i], owner), LineFor(products, items[i], owner);
    assert PricedLines(products, items[..i + 1], owner) == done + next;
    assert (table + done) + next == table + (done + next);
  }

  /** Decrementing changes no column but `stock`. */
  lemma {:induction false} DecrementedKeepsCatalog(products: map<Id, Producto>, items: seq<Item>)
    ensures forall k :: k in products ==>
              Decremented(products, items)[k] == products[k].(stock := Decremented(products, items)[k].stock)
    decreases |items|
  {
    if items != [] {
      DecrementedKeepsCatalog(products, items[..|items| - 1]);
    }
  }

  /** Each product's stock drops by exactly the total quantity requested for it. */
  lemma {:induction false} DecrementedStock(products: map<Id, Producto>, items: seq<Item>)
    ensures forall k :: k in products ==>
              k in Decremented(products, items)
              && Decremented(products, items)[k].stock == products[k].stock - Quantity(items, k)
    decreases |items|
  {
    if items != [] {
      DecrementedStock(products, items[..|items| - 1]);
      DecrementedKeepsCatalog(products, items[..|items| - 1]);
    }
  }

  /** With distinct ids, the quantity for an item's product is that item's quantity... */
  lemma {:induction false} QuantityOfDistinct(items: seq<Item>, i: int)
    requires DistinctIds(items) && 0 <= i < |items|
    ensures Quantity(items, items[i].id) == items[i].cantidad
    decreases |items|
  {
    var n := |items| - 1;
    assert DistinctIds(items[..n]);
    if i < n {
      assert items[..n][i] == items[i];
      QuantityOfDistinct(items[..n], i);
    } else {
      QuantityOfAbsent(items[..n], items[i].id);
    }
  }

  /** ... and a product no item names has quantity 0. */
  lemma {:induction false} QuantityOfAbsent(items: seq<Item>, k: Id)
    requires forall i :: 0 <= i < |items| ==> items[i].id != k
    ensures Quantity(items, k) == 0
    decreases |items|
  {
    if items != [] {
      QuantityOfAbsent(items[..|items| - 1], k);
    }
  }

  /** When every product exists, there is exactly one row per item, in order. */
  lemma {:induction false} PricedLinesExact(products: map<Id, Producto>, items: seq<Item>, owner: Id)
    requires forall i :: 0 <= i < |items| ==> items[i].id in products
    ensures |PricedLines(products, items, owner)| == |items|
    ensures forall i :: 0 <= i < |items| ==>
              PricedLines(products, items, owner)[i]
              == LineRow(owner, items[i].id, items[i].cantidad, products[items[i].id].precioVenta)
    decreases |items|
  {
    if items != [] {
      PricedLinesExact(products, items[..|items| - 1], owner);
    }
  }

  /** Stock stays non-negative when every item names a distinct existing product with at
      least the requested stock: the condition the controllers check before calling the
      repositories. */
  lemma DecrementedStaysNonNegative(products: map<Id, Producto>, items: seq<Item>)
    requires forall k :: k in products ==> products[k].stock >= 0
    requires DistinctIds(items)
    requires forall i :: 0 <= i < |items| ==> items[i].id in products && items[i].cantidad <= products[items[i].id].stock
    ensures forall k :: k in Decremented(products, items) ==> Decremented(products, items)[k].stock >= 0
  {
    DecrementedStock(products, items);
    DecrementedKeepsCatalog(products, items);
    forall k | k in products ensures Decremented(products, items)[k].stock >= 0 {
      if i :| 0 <= i < |items| && items[i].id == k {
        QuantityOfDistinct(items, i);
      } else {
        QuantityOfAbsent(items, k);
      }
    }
  }

  /** Stock of a product that no item names is unchanged; with distinct ids a named
      product loses exactly its item's quantity. */
  lemma DecrementedDistinct(products: map<Id, Producto>, items: seq<Item>)
    requires DistinctIds(items)
    ensures forall i :: 0 <= i < |items| && items[i].id in products ==>
              Decremented(products, items)[items[i].id].stock == products[items[i].id].stock - items[i].cantidad
    ensures forall k :: k in products && (forall i :: 0 <= i < |items| ==> items[i].id != k) ==>
              Decremented(products, items)[k] == products[k]
  {
    DecrementedStock(products, items);
    DecrementedKeepsCatalog(products, items);
    forall i | 0 <= i < |items| && items[i].id in products
      ensures Decremented(products, items)[items[i].id].stock == products[items[i].id].stock - items[i].cantidad
    {
      QuantityOfDistinct(items, i);
    }
    forall k | k in products && (forall i :: 0 <= i < |items| ==> items[i].id != k)
      ensures Decremented(products, items)[k] == products[k]
    {
      QuantityOfAbsent(items, k);
    }
  }
}
