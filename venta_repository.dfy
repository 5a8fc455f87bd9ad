/** VentaRepository: inserting a sale with its lines, either from a direct request (stock
    is lowered) or from a delivered order (stock was already lowered when the order was taken). */
module VentaRepository {
  import opened Wrappers
  import opened Domain
  import opened LineEffects

  /** The sale row inserted under `id`: always ACTIVO. */
  function NewVenta(id: Id, clientesId: Id, userId: Id): (v: Venta)
    ensures v.id == id && v.estado == Activo && v.clientesId == clientesId && v.administradoresId == userId
  {
    Venta(id, Activo, clientesId, userId)
  }

  /** Inserts the sale header and returns it. */
  method InsertVenta(db: Database, clientesId: Id, userId: Id) returns (venta: Venta)
    requires db.Valid()
    modifies db
    ensures db.Valid()
    ensures venta == NewVenta(old(db.nextVentaId), clientesId, userId) && venta.id !in old(db.ventas)
    ensures db.ventas == old(db.ventas)[venta.id := venta] && db.nextVentaId == old(db.nextVentaId) + 1
    ensures db.ventasProductos == old(db.ventasProductos)
    ensures db.ProductosUnchanged() && db.PedidosUnchanged() && db.AccountsUnchanged()
  {
    venta := NewVenta(db.nextVentaId, clientesId, userId);
    db.ventas := db.ventas[venta.id := venta];
    db.nextVentaId := db.nextVentaId + 1;
  }

  /** `createVenta`: inserts the sale, then for every item whose product exists attaches a
      line priced at the product's `precio_venta` and lowers its stock; unknown products are
      skipped. */
  method CreateVenta(db: Database, clientesId: Id, userId: Id, items: seq<Item>) returns (venta: Venta)
    requires db.Valid()
    modifies db
    ensures db.Valid()
    ensures venta == NewVenta(old(db.nextVentaId), clientesId, userId) && venta.id !in old(db.ventas)
    ensures db.ventas == old(db.ventas)[venta.id := venta] && db.nextVentaId == old(db.nextVentaId) + 1
    ensures db.ventasProductos == old(db.ventasProductos) + PricedLines(old(db.productos), items, venta.id)
    ensures db.productos == Decremented(old(db.productos), items)
    ensures db.nextProductoId == old(db.nextProductoId)
    ensures db.PedidosUnchanged() && db.AccountsUnchanged()
  {
    venta := InsertVenta(db, clientesId, userId);
    AddVentaLines(db, venta.id, items);
  }

  /** `createVentaPedido`: as `createVenta`, but the stock is left alone. */
  method CreateVentaPedido(db: Database, clientesId: Id, userId: Id, items: seq<Item>) returns (venta: Venta)
    requires db.Valid()
    modifies db
    ensures db.Valid()
    ensures venta == NewVenta(old(db.nextVentaId), clientesId, userId) && venta.id !in old(db.ventas)
    ensures db.ventas == old(db.ventas)[venta.id := venta] && db.nextVentaId == old(db.nextVentaId) + 1
    ensures db.ventasProductos == old(db.ventasProductos) + PricedLines(old(db.productos), items, venta.id)
    ensures db.ProductosUnchanged() && db.PedidosUnchanged() && db.AccountsUnchanged()
  {
    venta := InsertVenta(db, clientesId, userId);
    AttachVentaLines(db, venta.id, items);
  }

  /** The `createVenta` loop for sale `owner`: attaches the lines and lowers the stock. */
  method AddVentaLines(db: Database, owner: Id, items: seq<Item>)
    requires db.Valid() && owner in db.ventas
    modifies db
    ensures db.Valid()
    ensures db.ventasProductos == old(db.ventasProductos) + PricedLines(old(db.productos), items, owner)
    ensures db.productos == Decremented(old(db.productos), items)
    ensures db.ventas == old(db.ventas) && db.nextVentaId == old(db.nextVentaId)
    ensures db.nextProductoId == old(db.nextProductoId)
    ensures db.PedidosUnchanged() && db.AccountsUnchanged()
  {
    ghost var products0 := db.productos;
    ghost var lines0 := db.ventasProductos;
    for i := 0 to |items|
      invariant db.Valid()
      invariant db.productos == Decremented(products0, items[..i])
      invariant db.ventasProductos == lines0 + PricedLines(products0, items[..i], owner)
      invariant db.ventas == old(db.ventas) && db.nextVentaId == old(db.nextVentaId)
      invariant db.nextProductoId == old(db.nextProductoId)
      invariant db.PedidosUnchanged() && db.AccountsUnchanged()
    {
      PrefixStep(products0, items, i, owner, lines0);
      AddVentaLine(db, owner, items[i], true);
    }
    assert items[..|items|] == items;
  }

  /** The `createVentaPedido` loop for sale `owner`: attaches the lines only. */
  method AttachVentaLines(db: Database, owner: Id, items: seq<Item>)
    requires db.Valid() && owner in db.ventas
    modifies db
    ensures db.Valid()
    ensures db.ventasProductos == old(db.ventasProductos) + PricedLines(old(db.productos), items, owner)
    ensures db.ventas == old(db.ventas) && db.nextVentaId == old(db.nextVentaId)
    ensures db.ProductosUnchanged() && db.PedidosUnchanged() && db.AccountsUnchanged()
  {
    ghost var lines0 := db.ventasProductos;
    for i := 0 to |items|
      invariant db.Valid()
      invariant db.ventasProductos == lines0 + PricedLines(db.productos, items[..i], owner)
      invariant db.ventas == old(db.ventas) && db.nextVentaId == old(db.nextVentaId)
      invariant db.ProductosUnchanged() && db.PedidosUnchanged() && db.AccountsUnchanged()
    {
      assert items[..i + 1][..i] == items[..i];
      AddVentaLine(db, owner, items[i], false);
    }
    assert items[..|items|] == items;
  }

  /** One pass: when the item's product exists, attach its line to sale `owner` and, if
      `decrement`, lower its stock. */
  method AddVentaLine(db: Database, owner: Id, it: Item, decrement: bool)
    requires db.Valid() && owner in db.ventas
    modifies db
    ensures db.Valid()
    ensures db.ventasProductos == old(db.ventasProductos) + LineFor(old(db.productos), it, owner)
    ensures db.productos == if decrement then DecrementOne(old(db.productos), it) else old(db.productos)
    ensures db.ventas == old(db.ventas) && db.nextVentaId == old(db.nextVentaId)
    ensures db.nextProductoId == old(db.nextProductoId)
    ensures db.PedidosUnchanged() && db.AccountsUnchanged()
  {
    if it.id in db.productos {
      var p := db.productos[it.id];
      db.ventasProductos := db.ventasProductos + [LineRow(owner, p.id, it.cantidad, p.precioVenta)];
      if decrement {
        db.productos := db.productos[it.id := p.(stock := p.stock - it.cantidad)];
      }
    }
  }
}
