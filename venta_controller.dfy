/** VentaController: recording a direct sale (validator, the shared line loop, then the
    repository) and looking sales up. */
module VentaController {
  import opened Wrappers
  import opened Domain
  import opened LineEffects
  import opened LineValidation
  import opened VentaRepository

  /** The fields of the sale request; `productos` is None when absent or not an array. */
  datatype VentaRequest = VentaRequest(clientesId: Option<Id>, productos: Option<seq<LineRequest>>)

  function Lines(req: VentaRequest): seq<LineRequest> {
    if req.productos.Some? then req.productos.value else []
  }

  /** The validator rule `productos.*.id => required|exists:productos,id` for one line. */
  predicate IdPasses(products: map<Id, Producto>, l: LineRequest) {
    l.id.Some? && l.id.value in products
  }

  /** The validator's error map for `store`: `clientes_id` required and registered,
      `productos` a non-empty array, each line's `id` required and registered and its
      `cantidad` at least 1. */
  function VentaRules(products: map<Id, Producto>, clientes: set<Id>, req: VentaRequest): (errors: Errors)
    ensures FieldKey("clientes_id") in errors <==> !(req.clientesId.Some? && req.clientesId.value in clientes)
    ensures FieldKey("productos") in errors <==> Lines(req) == []
    ensures forall i :: LineFieldKey(i, "id") in errors <==> 0 <= i < |Lines(req)| && !IdPasses(products, Lines(req)[i])
    ensures forall i :: LineFieldKey(i, "cantidad") in errors <==> 0 <= i < |Lines(req)| && !CantidadPasses(Lines(req)[i])
    ensures forall k :: k in errors ==>
              && errors[k] == RuleFailed
              && ((k.FieldKey? && k.name in {"clientes_id", "productos"}) || (k.LineFieldKey? && k.name in {"id", "cantidad"}))
  {
    var lines := Lines(req);
    var fields := (if req.clientesId.Some? && req.clientesId.value in clientes then {} else {FieldKey("clientes_id")})
                  + (if lines != [] then {} else {FieldKey("productos")});
    RuleErrors(fields + IdKeys(products, lines) + CantidadKeys(lines))
  }

  /** The validator's failing `productos.<i>.id` keys. */
  function IdKeys(products: map<Id, Producto>, lines: seq<LineRequest>): (keys: set<ErrorKey>)
    ensures forall k :: k in keys <==>
              k.LineFieldKey? && k.name == "id" && 0 <= k.index < |lines| && !IdPasses(products, lines[k.index])
  {
    set i | 0 <= i < |lines| && !IdPasses(products, lines[i]) :: LineFieldKey(i, "id")
  }

  /** The error map `store` answers 422 with. */
  function VentaErrors(products: map<Id, Producto>, clientes: set<Id>, req: VentaRequest): Errors {
    if req.productos.Some? then ScanLines(products, req.productos.value, VentaRules(products, clientes, req)).errors
    else VentaRules(products, clientes, req)[FieldKey("productos") := NoProducts]
  }

  /** The conditions under which a sale is recorded, stated without the error map. */
  ghost predicate VentaAccepted(products: map<Id, Producto>, clientes: set<Id>, req: VentaRequest) {
    && req.clientesId.Some? && req.clientesId.value in clientes
    && req.productos.Some? && req.productos.value != []
    && (forall i :: 0 <= i < |req.productos.value| ==> CantidadPasses(req.productos.value[i]))
    && AllLinesValid(products, req.productos.value)
  }

  /** The error map is empty exactly when the sale is acceptable. */
  lemma VentaErrorsEmptyIff(products: map<Id, Producto>, clientes: set<Id>, req: VentaRequest)
    ensures VentaErrors(products, clientes, req) == map[] <==> VentaAccepted(products, clientes, req)
  {
    var rules := VentaRules(products, clientes, req);
    if req.productos.Some? {
      NoErrorsIff(products, req.productos.value, rules);
      if rules == map[] {
        forall i | 0 <= i < |req.productos.value| ensures CantidadPasses(req.productos.value[i]) {
          assert LineFieldKey(i, "cantidad") !in rules;
        }
      }
      if VentaAccepted(products, clientes, req) {
        forall k ensures k !in rules {
          if k.LineFieldKey? {
            assert k == LineFieldKey(k.index, k.name);
          }
        }
        assert rules == map[];
      }
    } else {
      assert FieldKey("productos") in VentaErrors(products, clientes, req);
    }
  }

  /** An unknown product id in a complete line is reported twice: by the validator under
      `productos.<i>.id` and by the loop under `producto_<id>`. */
  lemma UnknownReportedTwice(products: map<Id, Producto>, clientes: set<Id>, req: VentaRequest, i: int)
    requires req.productos.Some? && 0 <= i < |req.productos.value|
    requires Complete(req.productos.value[i]) && req.productos.value[i].id.value !in products
    ensures LineFieldKey(i, "id") in VentaErrors(products, clientes, req)
    ensures ProductoKey(req.productos.value[i].id.value) in VentaErrors(products, clientes, req)
  {
    var lines := req.productos.value;
    var rules := VentaRules(products, clientes, req);
    VerdictReported(products, lines, rules, i);
    FinalErrors(products, lines, rules);
  }

  /** `store`: 422 with the error map, changing nothing, unless the sale is acceptable; then
      201 with the ACTIVO sale, its lines priced at the current sell prices and the stock of each
      sold product lowered by its quantity, which keeps every stock non-negative. */
  method Store(db: Database, req: VentaRequest, userId: Id) returns (resp: Response)
    requires db.Valid()
    modifies db
    ensures db.Valid()
    ensures old(db.StockNonNegative()) ==> db.StockNonNegative()
    ensures resp.status == 422 <==> !VentaAccepted(old(db.productos), old(db.clientes), req)
    ensures !VentaAccepted(old(db.productos), old(db.clientes), req) ==>
              resp == Response(422, ErrorsBody(VentaErrors(old(db.productos), old(db.clientes), req))) && unchanged(db)
    ensures VentaAccepted(old(db.productos), old(db.clientes), req) ==>
              && resp == Response(201, VentaBody(NewVenta(old(db.nextVentaId), req.clientesId.value, userId)))
              && db.ventas == old(db.ventas)[old(db.nextVentaId) := resp.body.venta]
              && db.ventasProductos == old(db.ventasProductos) + PricedLines(old(db.productos), Items(req.productos.value), old(db.nextVentaId))
              && |db.ventasProductos| == |old(db.ventasProductos)| + |req.productos.value|
              && db.productos == Decremented(old(db.productos), Items(req.productos.value))
              && db.nextVentaId == old(db.nextVentaId) + 1 && db.nextProductoId == old(db.nextProductoId)
              && db.PedidosUnchanged() && db.AccountsUnchanged()
  {
    var errors := VentaRules(db.productos, db.clientes, req);
    if req.productos.Some? {
      var seen;
      errors, seen := CheckLines(db.productos, req.productos.value, errors);
    } else {
      errors := errors[FieldKey("productos") := NoProducts];
    }
    VentaErrorsEmptyIff(db.productos, db.clientes, req);
    if errors != map[] {
      return Response(422, ErrorsBody(errors));
    }
    resp := RecordSale(db, req, userId);
  }

  /** The accepted branch of `store`. */
  method RecordSale(db: Database, req: VentaRequest, userId: Id) returns (resp: Response)
    requires db.Valid() && VentaAccepted(db.productos, db.clientes, req)
    modifies db
    ensures db.Valid()
    ensures old(db.StockNonNegative()) ==> db.StockNonNegative()
    ensures && resp == Response(201, VentaBody(NewVenta(old(db.nextVentaId), req.clientesId.value, userId)))
            && db.ventas == old(db.ventas)[old(db.nextVentaId) := resp.body.venta]
            && db.ventasProductos == old(db.ventasProductos) + PricedLines(old(db.productos), Items(req.productos.value), old(db.nextVentaId))
            && |db.ventasProductos| == |old(db.ventasProductos)| + |req.productos.value|
            && db.productos == Decremented(old(db.productos), Items(req.productos.value))
            && db.nextVentaId == old(db.nextVentaId) + 1 && db.nextProductoId == old(db.nextProductoId)
            && db.PedidosUnchanged() && db.AccountsUnchanged()
  {
    var lines := req.productos.value;
    if db.StockNonNegative() {
      AcceptedItemsSafe(db.productos, lines);
    }
    PricedLinesExact(db.productos, Items(lines), db.nextVentaId);
    var venta := CreateVenta(db, req.clientesId.value, userId, Items(lines));
    resp := Response(201, VentaBody(venta));
  }

  /** `index`: every sale. */
  function Index(db: Database): (resp: Response)
    reads db
    requires db.Valid()
    ensures resp.status == 200 && resp.body.VentasBody?
    ensures forall k :: k in db.ventas ==> db.ventas[k] in resp.body.ventas
    ensures forall v :: v in resp.body.ventas ==> v.id in db.ventas && db.ventas[v.id] == v
  {
    Response(200, VentasBody(RowsInKeyOrder(db.ventas, 1, db.nextVentaId)))
  }

  /** `show`: 404 for an unknown id, otherwise 200 with the sale. */
  function Show(ventas: map<Id, Venta>, id: Id): (resp: Response)
    ensures resp.status == 404 <==> id !in ventas
    ensures id !in ventas ==> resp.body == Note("Venta no encontrada")
    ensures id in ventas ==> resp == Response(200, VentaBody(ventas[id]))
  {
    if id in ventas then Response(200, VentaBody(ventas[id])) else Response(404, Note("Venta no encontrada"))
  }
}
