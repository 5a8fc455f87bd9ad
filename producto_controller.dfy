/** ProductoController: request validation, the HTTP status of every branch, and the stock
    ledger operations `addStock` and `removeStock`. */
module ProductoController {
  import opened Wrappers
  import opened Domain
  import opened ProductoRepository

  /** The fields `store` and `update` validate. */
  const ProductoFields: set<string> := {"nombre", "descripcion", "precio_venta", "precio_base", "medida"}

  /** Whether one validated field passes its rules: `nombre` required (non-empty) and at most
      100 characters, `descripcion` nullable and at most 1200, both prices required, `medida`
      required and one of the enum spellings. Prices are numbers by their type here. */
  predicate FieldPasses(input: ProductoInput, f: string) {
    if f == "nombre" then input.nombre.Some? && 0 < |input.nombre.value| <= 100
    else if f == "descripcion" then input.descripcion.Given? ==> |input.descripcion.value| <= 1200
    else if f == "precio_venta" then input.precioVenta.Some?
    else if f == "precio_base" then input.precioBase.Some?
    else if f == "medida" then input.medida.Some? && MedidaOf(input.medida.value).Some?
    else true
  }

  /** The validator's error map: one entry per failing field. */
  function ProductoRules(input: ProductoInput): (errors: Errors)
    ensures forall k :: k in errors ==> k.FieldKey? && k.name in ProductoFields && errors[k] == RuleFailed
    ensures forall f :: f in ProductoFields ==> (FieldKey(f) in errors <==> !FieldPasses(input, f))
  {
    map f | f in ProductoFields && !FieldPasses(input, f) :: FieldKey(f) := RuleFailed
  }

  /** Input that passes validation is insertable exactly when its (unvalidated) `estado` is
      one of the enum values: `estado` is the only way an accepted create can still fail. */
  lemma AcceptedInsertable(input: ProductoInput)
    requires ProductoRules(input) == map[]
    ensures Insertable(input) <==> (input.estado.Some? ==> EstadoOf(input.estado.value).Some?)
  {
    assert FieldKey("nombre") !in ProductoRules(input);
    assert FieldKey("precio_venta") !in ProductoRules(input);
    assert FieldKey("precio_base") !in ProductoRules(input);
    assert FieldKey("medida") !in ProductoRules(input);
  }

  /** The body of a validation failure for `cantidad` (`required|numeric|min:1`). */
  function CantidadErrors(cantidad: Option<int>): (errors: Errors)
    ensures errors == map[] <==> cantidad.Some? && cantidad.value >= 1
    ensures errors != map[] ==> errors.Keys == {FieldKey("cantidad")}
  {
    if cantidad.Some? && cantidad.value >= 1 then map[]
    else
      var errors := map[FieldKey("cantidad") := RuleFailed];
      assert FieldKey("cantidad") in errors;
      errors
  }

  /** `store`: 422 with the validator's errors, 500 when the insert is rejected, otherwise
      201 with the new row, which starts with zero stock. */
  method Store(db: Database, input: ProductoInput) returns (resp: Response)
    requires db.Valid()
    modifies db
    ensures db.Valid()
    ensures old(db.StockNonNegative()) ==> db.StockNonNegative()
    ensures ProductoRules(input) != map[] ==> resp == Response(422, ErrorsBody(ProductoRules(input))) && unchanged(db)
    ensures ProductoRules(input) == map[] && !Insertable(input) ==>
              resp == Response(500, Note("Error en la base de datos")) && unchanged(db)
    ensures ProductoRules(input) == map[] && Insertable(input) ==>
              && resp.status == 201 && resp.body.ProductoBody?
              && resp.body.producto == NewProducto(old(db.nextProductoId), input)
              && resp.body.producto.stock == 0
              && db.productos == old(db.productos)[resp.body.producto.id := resp.body.producto]
              && db.nextProductoId == old(db.nextProductoId) + 1
              && db.PedidosUnchanged() && db.VentasUnchanged() && db.AccountsUnchanged()
  {
    var errors := ProductoRules(input);
    if errors != map[] {
      return Response(422, ErrorsBody(errors));
    }
    var r := CreateProducto(db, input);
    match r
    case Failed =>
      resp := Response(500, Note("Error en la base de datos"));
    case Done(p) =>
      resp := Response(201, ProductoBody(p));
  }

  /** `index`: always 200 with every product, since an empty collection is still truthy. */
  function Index(db: Database): (resp: Response)
    reads db
    requires db.Valid()
    ensures resp.status == 200 && resp.body.ProductosBody?
    ensures forall k :: k in db.productos ==> db.productos[k] in resp.body.productos
    ensures forall p :: p in resp.body.productos ==> p.id in db.productos && db.productos[p.id] == p
  {
    Response(200, ProductosBody(GetAllProductos(db)))
  }

  /** `show`: 404 for an unknown id, otherwise 200 with the row. */
  function Show(products: map<Id, Producto>, id: Id): (resp: Response)
    ensures resp.status == 404 <==> id !in products
    ensures id !in products ==> resp.body == Note("Producto no encontrado")
    ensures id in products ==> resp == Response(200, ProductoBody(products[id]))
  {
    match GetProductoById(products, id)
    case None => Response(404, Note("Producto no encontrado"))
    case Some(p) => Response(200, ProductoBody(p))
  }

  /** `update`: validation first (422), then 404 for an unknown id, 500 when an enum column
      rejects `estado`, otherwise 200 with the overwritten row; the stock never changes. */
  method Update(db: Database, id: Id, input: ProductoInput) returns (resp: Response)
    requires db.Valid()
    modifies db
    ensures db.Valid()
    ensures old(db.StockNonNegative()) ==> db.StockNonNegative()
    ensures ProductoRules(input) != map[] ==> resp == Response(422, ErrorsBody(ProductoRules(input))) && unchanged(db)
    ensures ProductoRules(input) == map[] && id !in old(db.productos) ==>
              resp == Response(404, Note("Producto no encontrado o error al actualizar")) && unchanged(db)
    ensures ProductoRules(input) == map[] && id in old(db.productos) && !EnumsAccept(input) ==>
              resp == Response(500, Note("Error al actualizar el producto")) && unchanged(db)
    ensures ProductoRules(input) == map[] && id in old(db.productos) && EnumsAccept(input) ==>
              && resp == Response(200, ProductoBody(Filled(old(db.productos[id]), input)))
              && db.productos == old(db.productos)[id := Filled(old(db.productos[id]), input)]
              && db.productos[id].stock == old(db.productos[id].stock)
              && db.nextProductoId == old(db.nextProductoId)
              && db.PedidosUnchanged() && db.VentasUnchanged() && db.AccountsUnchanged()
  {
    var errors := ProductoRules(input);
    if errors != map[] {
      return Response(422, ErrorsBody(errors));
    }
    var r := UpdateProducto(db, id, input);
    match r
    case Failed =>
      resp := Response(500, Note("Error al actualizar el producto"));
    case Done(None) =>
      resp := Response(404, Note("Producto no encontrado o error al actualizar"));
    case Done(Some(p)) =>
      resp := Response(200, ProductoBody(p));
  }

  /** `destroy`: 404 for an unknown id, 500 while order or sale lines reference the product,
      otherwise 200 and the row is gone. */
  method Destroy(db: Database, id: Id) returns (resp: Response)
    requires db.Valid()
    modifies db
    ensures db.Valid()
    ensures old(db.StockNonNegative()) ==> db.StockNonNegative()
    ensures id !in old(db.productos) ==>
              resp == Response(404, Note("Producto no encontrado o error al eliminar")) && unchanged(db)
    ensures id in old(db.productos) && (ReferencedBy(old(db.pedidoProductos), id) || ReferencedBy(old(db.ventasProductos), id))
            ==> resp == Response(500, Note("Error al eliminar el producto")) && unchanged(db)
    ensures id in old(db.productos) && !ReferencedBy(old(db.pedidoProductos), id) && !ReferencedBy(old(db.ventasProductos), id)
            ==> && resp == Response(200, Note("Producto eliminado"))
                && db.productos == old(db.productos) - {id}
                && db.nextProductoId == old(db.nextProductoId)
                && db.PedidosUnchanged() && db.VentasUnchanged() && db.AccountsUnchanged()
  {
    var r := DeleteProducto(db, id);
    match r
    case Failed =>
      resp := Response(500, Note("Error al eliminar el producto"));
    case Done(false) =>
      resp := Response(404, Note("Producto no encontrado o error al eliminar"));
    case Done(true) =>
      resp := Response(200, Note("Producto eliminado"));
  }

  /** `addStock`: 422 unless `cantidad` is at least 1, 404 for an unknown id, otherwise the
      stock grows by `cantidad` and nothing else changes. */
  method AddStock(db: Database, id: Id, cantidad: Option<int>) returns (resp: Response)
    requires db.Valid()
    modifies db
    ensures db.Valid()
    ensures old(db.StockNonNegative()) ==> db.StockNonNegative()
    ensures CantidadErrors(cantidad) != map[] ==> resp == Response(422, ErrorsBody(CantidadErrors(cantidad))) && unchanged(db)
    ensures CantidadErrors(cantidad) == map[] && id !in old(db.productos) ==>
              resp == Response(404, Note("Producto no encontrado")) && unchanged(db)
    ensures CantidadErrors(cantidad) == map[] && id in old(db.productos) ==>
              && db.productos == old(db.productos)[id := old(db.productos[id]).(stock := old(db.productos[id].stock) + cantidad.value)]
              && resp == Response(200, ProductoNote("Stock añadido exitosamente", db.productos[id]))
              && db.nextProductoId == old(db.nextProductoId)
              && db.PedidosUnchanged() && db.VentasUnchanged() && db.AccountsUnchanged()
  {
    var errors := CantidadErrors(cantidad);
    if errors != map[] {
      return Response(422, ErrorsBody(errors));
    }
    match GetProductoById(db.productos, id)
    case None =>
      resp := Response(404, Note("Producto no encontrado"));
    case Some(p) =>
      var q := p.(stock := p.stock + cantidad.value);
      db.productos := db.productos[id := q];
      resp := Response(200, ProductoNote("Stock añadido exitosamente", q));
  }

  /** `removeStock`: as `addStock`, plus 400 with the current stock when it is below
      `cantidad`; so a successful removal never leaves the stock negative. */
  method RemoveStock(db: Database, id: Id, cantidad: Option<int>) returns (resp: Response)
    requires db.Valid()
    modifies db
    ensures db.Valid()
    ensures old(db.StockNonNegative()) ==> db.StockNonNegative()
    ensures CantidadErrors(cantidad) != map[] ==> resp == Response(422, ErrorsBody(CantidadErrors(cantidad))) && unchanged(db)
    ensures CantidadErrors(cantidad) == map[] && id !in old(db.productos) ==>
              resp == Response(404, Note("Producto no encontrado")) && unchanged(db)
    ensures CantidadErrors(cantidad) == map[] && id in old(db.productos) && old(db.productos[id].stock) < cantidad.value ==>
              resp == Response(400, StockNote("No hay suficiente stock para quitar", old(db.productos[id].stock))) && unchanged(db)
    ensures CantidadErrors(cantidad) == map[] && id in old(db.productos) && old(db.productos[id].stock) >= cantidad.value ==>
              && db.productos == old(db.productos)[id := old(db.productos[id]).(stock := old(db.productos[id].stock) - cantidad.value)]
              && db.productos[id].stock >= 0
              && resp == Response(200, ProductoNote("Stock quitado exitosamente", db.productos[id]))
              && db.nextProductoId == old(db.nextProductoId)
              && db.PedidosUnchanged() && db.VentasUnchanged() && db.AccountsUnchanged()
  {
    var errors := CantidadErrors(cantidad);
    if errors != map[] {
      return Response(422, ErrorsBody(errors));
    }
    match GetProductoById(db.productos, id)
    case None =>
      resp := Response(404, Note("Producto no encontrado"));
    case Some(p) =>
      if p.stock < cantidad.value {
        return Response(400, StockNote("No hay suficiente stock para quitar", p.stock));
      }
      var q := p.(stock := p.stock - cantidad.value);
      db.productos := db.productos[id := q];
      resp := Response(200, ProductoNote("Stock quitado exitosamente", q));
  }

  /** Starting from non-negative stock, adding and then removing the same quantity of an
      existing product restores every table exactly; both calls answer 200. */
  method AddThenRemove(db: Database, id: Id, cantidad: int) returns (added: Response, removed: Response)
    requires db.Valid() && db.StockNonNegative() && id in db.productos && cantidad >= 1
    modifies db
    ensures db.Valid()
    ensures added.status == 200 && removed.status == 200
    ensures removed.body == ProductoNote("Stock quitado exitosamente", old(db.productos[id]))
    ensures db.ProductosUnchanged() && db.PedidosUnchanged() && db.VentasUnchanged() && db.AccountsUnchanged()
  {
    ghost var p := db.productos[id];
    added := AddStock(db, id, Some(cantidad));
    assert db.productos[id].stock == p.stock + cantidad;
    assert CantidadErrors(Some(cantidad)) == map[];
    ghost var mid := db.productos[id];
    removed := RemoveStock(db, id, Some(cantidad));
    assert db.productos[id] == mid.(stock := mid.stock - cantidad);
    assert db.productos[id] == p;
  }
}
