/** PedidoRepository: inserting an order with its lines (decrementing stock) and marking an
    order delivered. */
module PedidoRepository {
  import opened Wrappers
  import opened Domain
  import opened LineEffects

  /** The validated request data `createPedido` reads: `fecha_entrega` is validated by the
      controller but never passed on to the insert. */
  datatype PedidoData = PedidoData(clientesId: Id, cobrado: int, direccion: string, productos: seq<Item>)

  /** The order row inserted under `id` by the administrator `userId`: PENDIENTE, no
      delivery date and no sale yet. */
  function NewPedido(id: Id, data: PedidoData, userId: Id): (p: Pedido)
    ensures p.id == id && p.estado == Pendiente && p.fechaEntrega.None? && p.ventasId.None?
    ensures p.clientesId == data.clientesId && p.administradoresId == userId
    ensures p.cobrado == data.cobrado && p.direccion == data.direccion
  {
    Pedido(id, Pendiente, data.clientesId, userId, data.cobrado, data.direccion, None, None)
  }

  /** `createPedido`: inserts the order, then for every requested item whose product exists
      inserts a line priced at the product's current `precio_venta` and lowers its stock by
      the item's quantity; items naming unknown products are skipped. */
  method CreatePedido(db: Database, data: PedidoData, userId: Id) returns (pedido: Pedido)
    requires db.Valid()
    modifies db
    ensures db.Valid()
    ensures pedido == NewPedido(old(db.nextPedidoId), data, userId)
    ensures pedido.id !in old(db.pedidos)
    ensures db.pedidos == old(db.pedidos)[pedido.id := pedido] && db.nextPedidoId == old(db.nextPedidoId) + 1
    ensures db.pedidoProductos == old(db.pedidoProductos) + PricedLines(old(db.productos), data.productos, pedido.id)
    ensures db.productos == Decremented(old(db.productos), data.productos)
    ensures db.nextProductoId == old(db.nextProductoId)
    ensures db.VentasUnchanged() && db.AccountsUnchanged()
  {
    pedido := NewPedido(db.nextPedidoId, data, userId);
    db.pedidos := db.pedidos[pedido.id := pedido];
    db.nextPedidoId := db.nextPedidoId + 1;
    AddPedidoLines(db, pedido.id, data.productos);
  }

  /** The `createPedido` loop over the requested items, for order `owner`. */
  method AddPedidoLines(db: Database, owner: Id, items: seq<Item>)
    requires db.Valid() && owner in db.pedidos
    modifies db
    ensures db.Valid()
    ensures db.pedidoProductos == old(db.pedidoProductos) + PricedLines(old(db.productos), items, owner)
    ensures db.productos == Decremented(old(db.productos), items)
    ensures db.pedidos == old(db.pedidos) && db.nextPedidoId == old(db.nextPedidoId)
    ensures db.nextProductoId == old(db.nextProductoId)
    ensures db.VentasUnchanged() && db.AccountsUnchanged()
  {
    ghost var products0 := db.productos;
    ghost var lines0 := db.pedidoProductos;
    for i := 0 to |items|
      invariant db.Valid()
      invariant db.productos == Decremented(products0, items[..i])
      invariant db.pedidoProductos == lines0 + PricedLines(products0, items[..i], owner)
      invariant db.pedidos == old(db.pedidos) && db.nextPedidoId == old(db.nextPedidoId)
      invariant db.nextProductoId == old(db.nextProductoId)
      invariant db.VentasUnchanged() && db.AccountsUnchanged()
    {
      PrefixStep(products0, items, i, owner, lines0);
      AddPedidoLine(db, owner, items[i]);
    }
    assert items[..|items|] == items;
  }

  /** One pass of the `createPedido` loop: when the item's product exists, insert its line
      for order `owner` and lower its stock. */
  method AddPedidoLine(db: Database, owner: Id, it: Item)
    requires db.Valid() && owner in db.pedidos
    modifies db
    ensures db.Valid()
    ensures db.pedidoProductos == old(db.pedidoProductos) + LineFor(old(db.productos), it, owner)
    ensures db.productos == DecrementOne(old(db.productos), it)
    ensures db.pedidos == old(db.pedidos) && db.nextPedidoId == old(db.nextPedidoId)
    ensures db.nextProductoId == old(db.nextProductoId)
    ensures db.VentasUnchanged() && db.AccountsUnchanged()
  {
    if it.id in db.productos {
      var p := db.productos[it.id];
      db.pedidoProductos := db.pedidoProductos + [LineRow(owner, p.id, it.cantidad, p.precioVenta)];
      db.productos := db.productos[it.id := p.(stock := p.stock - it.cantidad)];
    }
  }

  /** `deliverPedido`: the order becomes ENTREGADO with `now` as its delivery date. The
      order must exist: the repository dereferences the row it looks up. */
  method DeliverPedido(db: Database, id: Id, now: Timestamp) returns (pedido: Pedido)
    requires db.Valid() && id in db.pedidos
    modifies db
    ensures db.Valid()
    ensures pedido == old(db.pedidos[id]).(estado := Entregado, fechaEntrega := Some(now))
    ensures db.pedidos == old(db.pedidos)[id := pedido]
    ensures db.nextPedidoId == old(db.nextPedidoId) && db.pedidoProductos == old(db.pedidoProductos)
    ensures db.ProductosUnchanged() && db.VentasUnchanged() && db.AccountsUnchanged()
  {
    pedido := db.pedidos[id].(estado := Entregado, fechaEntrega := Some(now));
    db.pedidos := db.pedidos[id := pedido];
  }
}
