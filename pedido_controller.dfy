/** PedidoController: taking an order (validator, line loop, then the repository), looking
    orders up, and delivering an order, which turns it into a sale. */
module PedidoController {
  import opened Wrappers
  import opened Domain
  import opened LineEffects
  import opened LineValidation
  import opened PedidoRepository
  import opened VentaRepository

  /** `fecha_entrega` as sent: absent or null, a parseable date, or anything else. */
  datatype DateInput = NoDate | ValidDate(t: Timestamp) | InvalidDate

  /** The fields of the order request; `productos` is None when absent or not an array. */
  datatype PedidoRequest = PedidoRequest(
    clientesId: Option<Id>,
    cobrado: Option<int>,
    direccion: Option<string>,
    fechaEntrega: DateInput,
    productos: Option<seq<LineRequest>>)

  /** The lines of the request, or none. */
  function Lines(req: PedidoRequest): seq<LineRequest> {
    if req.productos.Some? then req.productos.value else []
  }

  /** Whether one top-level field passes its rules. */
  predicate FieldPasses(clientes: set<Id>, req: PedidoRequest, f: string) {
    if f == "clientes_id" then req.clientesId.Some? && req.clientesId.value in clientes
    else if f == "cobrado" then req.cobrado.Some?
    else if f == "direccion" then req.direccion.Some? && 0 < |req.direccion.value| <= 255
    else if f == "fecha_entrega" then !req.fechaEntrega.InvalidDate?
    else if f == "productos" then req.productos.Some? && req.productos.value != []
    else true
  }

  const PedidoFields: set<string> := {"clientes_id", "cobrado", "direccion", "fecha_entrega", "productos"}

  /** The validator's error map for `store`: `clientes_id` required and registered, `cobrado`
      required, `direccion` required with at most 255 characters, `fecha_entrega` a date
      when given, `productos` a non-empty array, and each line's `cantidad` at least 1. */
  function PedidoRules(clientes: set<Id>, req: PedidoRequest): (errors: Errors)
    ensures FieldKey("clientes_id") in errors <==> !(req.clientesId.Some? && req.clientesId.value in clientes)
    ensures FieldKey("cobrado") in errors <==> req.cobrado.None?
    ensures FieldKey("direccion") in errors <==> !(req.direccion.Some? && 0 < |req.direccion.value| <= 255)
    ensures FieldKey("fecha_entrega") in errors <==> req.fechaEntrega.InvalidDate?
    ensures FieldKey("productos") in errors <==> Lines(req) == []
    ensures forall i :: LineFieldKey(i, "cantidad") in errors <==> 0 <= i < |Lines(req)| && !CantidadPasses(Lines(req)[i])
    ensures forall k :: k in errors ==>
              && errors[k] == RuleFailed
              && ((k.FieldKey? && k.name in PedidoFields) || (k.LineFieldKey? && k.name == "cantidad"))
  {
    RuleErrors(FieldKeys(clientes, req) + CantidadKeys(Lines(req)))
  }

  /** The failing top-level fields. */
  function FieldKeys(clientes: set<Id>, req: PedidoRequest): (keys: set<ErrorKey>)
    ensures forall k :: k in keys <==> k.FieldKey? && k.name in PedidoFields && !FieldPasses(clientes, req, k.name)
  {
    set f | f in PedidoFields && !FieldPasses(clientes, req, f) :: FieldKey(f)
  }

  /** The full error map `store` answers 422 with: the validator's map, then the line loop
      when `productos` is an array, or the `productos` key overwritten otherwise. */
  function PedidoErrors(products: map<Id, Producto>, clientes: set<Id>, req: PedidoRequest): Errors {
    if req.productos.Some? then ScanLines(products, req.productos.value, PedidoRules(clientes, req)).errors
    else PedidoRules(clientes, req)[FieldKey("productos") := NoProducts]
  }

  /** The conditions under which an order is taken, stated without the error map. */
  ghost predicate PedidoAccepted(products: map<Id, Producto>, clientes: set<Id>, req: PedidoRequest) {
    && req.clientesId.Some? && req.clientesId.value in clientes
    && req.cobrado.Some?
    && req.direccion.Some? && 0 < |req.direccion.value| <= 255
    && !req.fechaEntrega.InvalidDate?
    && req.productos.Some? && req.productos.value != []
    && (forall i :: 0 <= i < |req.productos.value| ==> CantidadPasses(req.productos.value[i]))
    && AllLinesValid(products, req.productos.value)
  }

  /** The error map is empty exactly when the order is acceptable. */
  lemma PedidoErrorsEmptyIff(products: map<Id, Producto>, clientes: set<Id>, req: PedidoRequest)
    ensures PedidoErrors(products, clientes, req) == map[] <==> PedidoAccepted(products, clientes, req)
  {
    var rules := PedidoRules(clientes, req);
    if req.productos.Some? {
      NoErrorsIff(products, req.productos.value, rules);
      if rules == map[] {
        forall i | 0 <= i < |req.productos.value| ensures CantidadPasses(req.productos.value[i]) {
          assert LineFieldKey(i, "cantidad") !in rules;
        }
      }
      if PedidoAccepted(products, clientes, req) {
        forall k ensures k !in rules {
          if k.LineFieldKey? && k.name == "cantidad" {
            assert k == LineFieldKey(k.index, "cantidad");
          }
        }
        assert rules == map[];
      }
    } else {
      assert FieldKey("productos") in PedidoErrors(products, clientes, req);
    }
  }

  /** The request data an accepted order hands to `createPedido`. */
  function DataOf(req: PedidoRequest): (data: PedidoData)
    requires req.clientesId.Some? && req.cobrado.Some? && req.direccion.Some? && req.productos.Some?
    requires forall i :: 0 <= i < |req.productos.value| ==> Complete(req.productos.value[i])
    ensures data.productos == Items(req.productos.value) && data.clientesId == req.clientesId.value
  {
    PedidoData(req.clientesId.value, req.cobrado.value, req.direccion.value, Items(req.productos.value))
  }

  /** `store`: 422 with the error map, changing nothing, unless the order is acceptable; then
      201 with the new order, its lines priced at the current sell prices and the stock of
      each ordered product lowered by its quantity, which keeps every stock non-negative. */
  method Store(db: Database, req: PedidoRequest, userId: Id) returns (resp: Response)
    requires db.Valid()
    modifies db
    ensures db.Valid()
    ensures old(db.StockNonNegative()) ==> db.StockNonNegative()
    ensures resp.status == 422 <==> !PedidoAccepted(old(db.productos), old(db.clientes), req)
    ensures !PedidoAccepted(old(db.productos), old(db.clientes), req) ==>
              resp == Response(422, ErrorsBody(PedidoErrors(old(db.productos), old(db.clientes), req))) && unchanged(db)
    ensures PedidoAccepted(old(db.productos), old(db.clientes), req) ==>
              && resp == Response(201, PedidoBody(NewPedido(old(db.nextPedidoId), DataOf(req), userId)))
              && db.pedidos == old(db.pedidos)[old(db.nextPedidoId) := resp.body.pedido]
              && db.pedidoProductos == old(db.pedidoProductos) + PricedLines(old(db.productos), Items(req.productos.value), old(db.nextPedidoId))
              && |db.pedidoProductos| == |old(db.pedidoProductos)| + |req.productos.value|
              && db.productos == Decremented(old(db.productos), Items(req.productos.value))
              && db.nextPedidoId == old(db.nextPedidoId) + 1 && db.nextProductoId == old(db.nextProductoId)
              && (forall i :: 0 <= i < |req.productos.value| ==>
                    db.productos[req.productos.value[i].id.value].stock
                    == old(db.productos[req.productos.value[i].id.value].stock) - req.productos.value[i].cantidad.value)
              && db.VentasUnchanged() && db.AccountsUnchanged()
  {
    var errors := PedidoRules(db.clientes, req);
    if req.productos.Some? {
      var seen;
      errors, seen := CheckLines(db.productos, req.productos.value, errors);
    } else {
      errors := errors[FieldKey("productos") := NoProducts];
    }
    PedidoErrorsEmptyIff(db.productos, db.clientes, req);
    if errors != map[] {
      return Response(422, ErrorsBody(errors));
    }
    resp := TakeOrder(db, req, userId);
  }

  /** The accepted branch of `store`. */
  method TakeOrder(db: Database, req: PedidoRequest, userId: Id) returns (resp: Response)
    requires db.Valid() && PedidoAccepted(db.productos, db.clientes, req)
    modifies db
    ensures db.Valid()
    ensures old(db.StockNonNegative()) ==> db.StockNonNegative()
    ensures && resp == Response(201, PedidoBody(NewPedido(old(db.nextPedidoId), DataOf(req), userId)))
            && db.pedidos == old(db.pedidos)[old(db.nextPedidoId) := resp.body.pedido]
            && db.pedidoProductos == old(db.pedidoProductos) + PricedLines(old(db.productos), Items(req.productos.value), old(db.nextPedidoId))
            && |db.pedidoProductos| == |old(db.pedidoProductos)| + |req.productos.value|
            && db.productos == Decremented(old(db.productos), Items(req.productos.value))
            && db.nextPedidoId == old(db.nextPedidoId) + 1 && db.nextProductoId == old(db.nextProductoId)
            && (forall i :: 0 <= i < |req.productos.value| ==>
                  db.productos[req.productos.value[i].id.value].stock
                  == old(db.productos[req.productos.value[i].id.value].stock) - req.productos.value[i].cantidad.value)
            && db.VentasUnchanged() && db.AccountsUnchanged()
  {
    var lines := req.productos.value;
    if db.StockNonNegative() {
      AcceptedItemsSafe(db.productos, lines);
    }
    DecrementedDistinctFor(db.productos, lines);
    PricedLinesExact(db.productos, Items(lines), db.nextPedidoId);
    var pedido := CreatePedido(db, DataOf(req), userId);
    resp := Response(201, PedidoBody(pedido));
  }

  /** Accepted lines have distinct ids, so each ordered product loses exactly its line's quantity. */
  lemma DecrementedDistinctFor(products: map<Id, Producto>, lines: seq<LineRequest>)
    requires AllLinesValid(products, lines)
    ensures forall i :: 0 <= i < |lines| ==>
              Decremented(products, Items(lines))[lines[i].id.value].stock
              == products[lines[i].id.value].stock - lines[i].cantidad.value
  {
    var items := Items(lines);
    forall i, j | 0 <= i < j < |items| ensures items[i].id != items[j].id {
      assert lines[i].id != lines[j].id;
    }
    DecrementedDistinct(products, items);
  }

  /** `index`: every order. */
  function Index(db: Database): (resp: Response)
    reads db
    requires db.Valid()
    ensures resp.status == 200 && resp.body.PedidosBody?
    ensures forall k :: k in db.pedidos ==> db.pedidos[k] in resp.body.pedidos
    ensures forall p :: p in resp.body.pedidos ==> p.id in db.pedidos && db.pedidos[p.id] == p
  {
    Response(200, PedidosBody(RowsInKeyOrder(db.pedidos, 1, db.nextPedidoId)))
  }

  /** `show`: 404 for an unknown id, otherwise 200 with the order. */
  function Show(pedidos: map<Id, Pedido>, id: Id): (resp: Response)
    ensures resp.status == 404 <==> id !in pedidos
    ensures id !in pedidos ==> resp.body == Note("Pedido no encontrado")
    ensures id in pedidos ==> resp == Response(200, PedidoBody(pedidos[id]))
  {
    if id in pedidos then Response(200, PedidoBody(pedidos[id])) else Response(404, Note("Pedido no encontrado"))
  }

  /** `PedidoProducto::where('pedidos_id', pid)->get(['productos_id as id', 'cantidad'])`:
      the order's lines as items, in table order. */
  function OrderItems(rows: seq<LineRow>, pid: Id): (items: seq<Item>)
    ensures |items| <= |rows|
    ensures forall it :: it in items ==>
              exists i :: 0 <= i < |rows| && rows[i].ownerId == pid && it == Item(rows[i].productosId, rows[i].cantidad)
    ensures forall i :: 0 <= i < |rows| && rows[i].ownerId == pid ==> Item(rows[i].productosId, rows[i].cantidad) in items
    decreases |rows|
  {
    if rows == [] then []
    else
      var n := |rows| - 1;
      var front := OrderItems(rows[..n], pid);
      assert forall i :: 0 <= i < n ==> rows[..n][i] == rows[i];
      front + (if rows[n].ownerId == pid then [Item(rows[n].productosId, rows[n].cantidad)] else [])
  }

  /** Every product an order line names still exists, so the sale built from the order has
      exactly one line per order line, with the same product and quantity and the product's
      price at delivery time. */
  lemma SaleMirrorsOrder(products: map<Id, Producto>, rows: seq<LineRow>, pid: Id, vid: Id)
    requires forall i :: 0 <= i < |rows| ==> rows[i].productosId in products
    ensures var items := OrderItems(rows, pid);
            && (forall i :: 0 <= i < |items| ==> items[i].id in products)
            && |PricedLines(products, items, vid)| == |items|
            && forall i :: 0 <= i < |items| ==>
                 PricedLines(products, items, vid)[i] == LineRow(vid, items[i].id, items[i].cantidad, products[items[i].id].precioVenta)
  {
    var items := OrderItems(rows, pid);
    forall i | 0 <= i < |items| ensures items[i].id in products {
      assert items[i] in items;
    }
    PricedLinesExact(products, items, vid);
  }

  /** Where a storage failure interrupts `deliver` once the order is ENTREGADO, if it does:
      at `Venta::create`, at attaching the order line at position `n` (from 0) to the sale,
      or at the `save()` that stores `ventas_id` on the order. The exception handler
      answers 500, and nothing written before the failure is rolled back. */
  datatype DeliveryFault = NoFault | AtSaleHeader | AtSaleLine(n: nat) | AtLink

  /** The order lines attached to the sale before the attach of line `n` fails; a position
      past the last line means the loop finished, which leaves the same tables as `AtLink`. */
  function AttachedBefore(items: seq<Item>, n: nat): (done: seq<Item>)
    ensures done <= items
    ensures |done| == if n < |items| then n else |items|
  {
    if n < |items| then items[..n] else items
  }

  /** `deliver`: 400 for an unknown order or one that is not PENDIENTE, changing nothing.
      Otherwise the order becomes ENTREGADO at `now`; a sale for the order's client, by
      `userId`, is built from the order's lines without touching stock, and its id is stored
      on the order. With a `fault` the answer is 500 and the tables keep what was written
      before it: the ENTREGADO order, and from `AtSaleLine` on the sale header with the lines
      attached so far, but no `ventas_id` on the order. */
  method Deliver(db: Database, id: Id, userId: Id, now: Timestamp, fault: DeliveryFault) returns (resp: Response)
    requires db.Valid()
    modifies db
    ensures db.Valid()
    ensures db.ProductosUnchanged() && db.AccountsUnchanged()
    ensures db.pedidoProductos == old(db.pedidoProductos) && db.nextPedidoId == old(db.nextPedidoId)
    ensures id !in old(db.pedidos) ==> resp == Response(400, Note("El pedido no se encuentra registrado.")) && unchanged(db)
    ensures id in old(db.pedidos) && old(db.pedidos[id].estado) != Pendiente ==>
              resp == Response(400, Note("El pedido no puede ser entregado porque no está en estado PENDIENTE.")) && unchanged(db)
    ensures id in old(db.pedidos) && old(db.pedidos[id].estado) == Pendiente && !fault.NoFault? ==>
              && resp == Response(500, Note("Error al entregar el pedido"))
              && db.pedidos == old(db.pedidos)[id := old(db.pedidos[id]).(estado := Entregado, fechaEntrega := Some(now))]
    ensures id in old(db.pedidos) && old(db.pedidos[id].estado) == Pendiente && fault.AtSaleHeader? ==>
              db.VentasUnchanged()
    ensures id in old(db.pedidos) && old(db.pedidos[id].estado) == Pendiente && !fault.AtSaleHeader? ==>
              && db.ventas == old(db.ventas)[old(db.nextVentaId) := NewVenta(old(db.nextVentaId), old(db.pedidos[id].clientesId), userId)]
              && db.nextVentaId == old(db.nextVentaId) + 1
    ensures id in old(db.pedidos) && old(db.pedidos[id].estado) == Pendiente && fault.AtSaleLine? ==>
              db.ventasProductos == old(db.ventasProductos)
                                    + PricedLines(old(db.productos), AttachedBefore(OrderItems(old(db.pedidoProductos), id), fault.n), old(db.nextVentaId))
    ensures id in old(db.pedidos) && old(db.pedidos[id].estado) == Pendiente && (fault.AtLink? || fault.NoFault?) ==>
              db.ventasProductos == old(db.ventasProductos) + PricedLines(old(db.productos), OrderItems(old(db.pedidoProductos), id), old(db.nextVentaId))
    ensures id in old(db.pedidos) && old(db.pedidos[id].estado) == Pendiente && fault.NoFault? ==>
              && resp == Response(200, Note("Se entregó el pedido y se generó la venta exitosamente."))
              && db.pedidos == old(db.pedidos)[id := old(db.pedidos[id]).(estado := Entregado, fechaEntrega := Some(now), ventasId := Some(old(db.nextVentaId)))]
              && |db.ventasProductos| == |old(db.ventasProductos)| + |OrderItems(old(db.pedidoProductos), id)|
  {
    if id !in db.pedidos {
      return Response(400, Note("El pedido no se encuentra registrado."));
    }
    if db.pedidos[id].estado != Pendiente {
      return Response(400, Note("El pedido no puede ser entregado porque no está en estado PENDIENTE."));
    }
    if fault.NoFault? {
      resp := DeliverAndLink(db, id, userId, now);
    } else {
      resp := DeliverInterrupted(db, id, userId, now, fault);
    }
  }

  /** A `deliver` of a PENDIENTE order that runs to the end: `deliverPedido`, then the sale
      built from the order's lines and linked to the order. */
  method DeliverAndLink(db: Database, id: Id, userId: Id, now: Timestamp) returns (resp: Response)
    requires db.Valid() && id in db.pedidos
    modifies db
    ensures db.Valid()
    ensures db.ProductosUnchanged() && db.AccountsUnchanged()
    ensures db.pedidoProductos == old(db.pedidoProductos) && db.nextPedidoId == old(db.nextPedidoId)
    ensures && resp == Response(200, Note("Se entregó el pedido y se generó la venta exitosamente."))
            && db.pedidos == old(db.pedidos)[id := old(db.pedidos[id]).(estado := Entregado, fechaEntrega := Some(now), ventasId := Some(old(db.nextVentaId)))]
            && db.ventas == old(db.ventas)[old(db.nextVentaId) := NewVenta(old(db.nextVentaId), old(db.pedidos[id].clientesId), userId)]
            && db.nextVentaId == old(db.nextVentaId) + 1
            && db.ventasProductos == old(db.ventasProductos) + PricedLines(old(db.productos), OrderItems(old(db.pedidoProductos), id), old(db.nextVentaId))
            && |db.ventasProductos| == |old(db.ventasProductos)| + |OrderItems(old(db.pedidoProductos), id)|
  {
    var pedido := DeliverPedido(db, id, now);
    LinkSale(db, id, userId);
    resp := Response(200, Note("Se entregó el pedido y se generó la venta exitosamente."));
  }

  /** A `deliver` of a PENDIENTE order interrupted by a `fault` after `deliverPedido`: 500,
      with the ENTREGADO order and whatever part of the sale was written before the fault. */
  method DeliverInterrupted(db: Database, id: Id, userId: Id, now: Timestamp, fault: DeliveryFault) returns (resp: Response)
    requires db.Valid() && id in db.pedidos && !fault.NoFault?
    modifies db
    ensures db.Valid()
    ensures db.ProductosUnchanged() && db.AccountsUnchanged()
    ensures db.pedidoProductos == old(db.pedidoProductos) && db.nextPedidoId == old(db.nextPedidoId)
    ensures && resp == Response(500, Note("Error al entregar el pedido"))
            && db.pedidos == old(db.pedidos)[id := old(db.pedidos[id]).(estado := Entregado, fechaEntrega := Some(now))]
    ensures fault.AtSaleHeader? ==> db.VentasUnchanged()
    ensures !fault.AtSaleHeader? ==>
              && db.ventas == old(db.ventas)[old(db.nextVentaId) := NewVenta(old(db.nextVentaId), old(db.pedidos[id].clientesId), userId)]
              && db.nextVentaId == old(db.nextVentaId) + 1
    ensures fault.AtSaleLine? ==>
              db.ventasProductos == old(db.ventasProductos)
                                    + PricedLines(old(db.productos), AttachedBefore(OrderItems(old(db.pedidoProductos), id), fault.n), old(db.nextVentaId))
    ensures fault.AtLink? ==>
              db.ventasProductos == old(db.ventasProductos) + PricedLines(old(db.productos), OrderItems(old(db.pedidoProductos), id), old(db.nextVentaId))
  {
    var pedido := DeliverPedido(db, id, now);
    var items := OrderItems(db.pedidoProductos, id);
    match fault {
      case AtSaleHeader =>
      case AtSaleLine(n) =>
        var venta := CreateVentaPedido(db, pedido.clientesId, userId, AttachedBefore(items, n));
      case AtLink =>
        var venta := CreateVentaPedido(db, pedido.clientesId, userId, items);
    }
    resp := Response(500, Note("Error al entregar el pedido"));
  }

  /** The rest of a successful `deliver`: the sale built from the order's lines, and its id
      stored on the order. */
  method LinkSale(db: Database, id: Id, userId: Id)
    requires db.Valid() && id in db.pedidos
    modifies db
    ensures db.Valid()
    ensures db.ProductosUnchanged() && db.AccountsUnchanged()
    ensures db.pedidoProductos == old(db.pedidoProductos) && db.nextPedidoId == old(db.nextPedidoId)
    ensures && db.pedidos == old(db.pedidos)[id := old(db.pedidos[id]).(ventasId := Some(old(db.nextVentaId)))]
            && db.ventas == old(db.ventas)[old(db.nextVentaId) := NewVenta(old(db.nextVentaId), old(db.pedidos[id].clientesId), userId)]
            && db.nextVentaId == old(db.nextVentaId) + 1
            && db.ventasProductos == old(db.ventasProductos) + PricedLines(old(db.productos), OrderItems(old(db.pedidoProductos), id), old(db.nextVentaId))
            && |db.ventasProductos| == |old(db.ventasProductos)| + |OrderItems(old(db.pedidoProductos), id)|
  {
    var pedido := db.pedidos[id];
    var items := OrderItems(db.pedidoProductos, id);
    SaleMirrorsOrder(db.productos, db.pedidoProductos, id, db.nextVentaId);
    var venta := CreateVentaPedido(db, pedido.clientesId, userId, items);
    db.pedidos := db.pedidos[id := pedido.(ventasId := Some(venta.id))];
  }

  /** Delivering the same order twice: whatever the first call did, the second is rejected
      with 400 and changes nothing. */
  method DeliverTwice(db: Database, id: Id, userId: Id, now: Timestamp, later: Timestamp, fault: DeliveryFault)
    returns (first: Response, second: Response)
    requires db.Valid()
    modifies db
    ensures db.Valid()
    ensures second.status == 400
    ensures id in old(db.pedidos) && old(db.pedidos[id].estado) == Pendiente ==>
              second == Response(400, Note("El pedido no puede ser entregado porque no está en estado PENDIENTE."))
  {
    first := Deliver(db, id, userId, now, fault);
    second := Deliver(db, id, userId, later, NoFault);
  }
}
