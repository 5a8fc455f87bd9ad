/** ProductoRepository: create, list, find, update and delete over the `productos` table,
    through Eloquent mass assignment (only the model's fillable columns are written). */
module ProductoRepository {
  import opened Wrappers
  import opened Domain

  /** A request key that is absent, present as null, or present with a value. */
  datatype Input<T> = Absent | Null | Given(value: T)

  /** `$request->all()` for product create and update. `stock` may be sent but is not
      fillable, and neither is `id`. */
  datatype ProductoInput = ProductoInput(
    nombre: Option<string>,
    descripcion: Input<string>,
    precioVenta: Option<real>,
    precioBase: Option<real>,
    medida: Option<string>,
    estado: Option<string>,
    stock: Option<int>)

  /** The `medida` enum column's accepted spellings. */
  function MedidaOf(s: string): (m: Option<Medida>)
    ensures m.Some? <==> s in {"unidades", "metros", "kilos", "litros"}
  {
    if s == "unidades" then Some(Unidades)
    else if s == "metros" then Some(Metros)
    else if s == "kilos" then Some(Kilos)
    else if s == "litros" then Some(Litros)
    else None
  }

  /** The `estado` enum column's accepted spellings. */
  function EstadoOf(s: string): (e: Option<Estado>)
    ensures e.Some? <==> s in {"ACTIVO", "INACTIVO"}
  {
    if s == "ACTIVO" then Some(Activo) else if s == "INACTIVO" then Some(Inactivo) else None
  }

  /** The enum columns accept whatever values the input gives them. */
  predicate EnumsAccept(input: ProductoInput) {
    && (input.medida.Some? ==> MedidaOf(input.medida.value).Some?)
    && (input.estado.Some? ==> EstadoOf(input.estado.value).Some?)
  }

  /** An INSERT succeeds: the NOT NULL columns without default are given and the enums accept. */
  predicate Insertable(input: ProductoInput) {
    input.nombre.Some? && input.precioVenta.Some? && input.precioBase.Some? && input.medida.Some? && EnumsAccept(input)
  }

  /** The row `Producto::create($data)` inserts under `id`: the fillable columns from the
      input, `estado` defaulting to ACTIVO, and `stock` at its column default whatever
      the input says. */
  function NewProducto(id: Id, input: ProductoInput): (p: Producto)
    requires Insertable(input)
    ensures p.id == id && p.stock == 0
    ensures p.estado == (if input.estado.Some? then EstadoOf(input.estado.value).value else Activo)
  {
    Producto(
      id,
      if input.estado.Some? then EstadoOf(input.estado.value).value else Activo,
      input.nombre.value,
      if input.descripcion.Given? then Some(input.descripcion.value) else None,
      input.precioVenta.value,
      input.precioBase.value,
      0,
      MedidaOf(input.medida.value).value)
  }

  /** `$producto->update($data)`: every fillable column present in the input is
      overwritten; `id` and `stock` keep their values. */
  function Filled(p: Producto, input: ProductoInput): (q: Producto)
    requires EnumsAccept(input)
    ensures q.id == p.id && q.stock == p.stock
  {
    p.(
      estado := if input.estado.Some? then EstadoOf(input.estado.value).value else p.estado,
      nombre := if input.nombre.Some? then input.nombre.value else p.nombre,
      descripcion := match input.descripcion
                     case Absent => p.descripcion
                     case Null => None
                     case Given(d) => Some(d),
      precioVenta := if input.precioVenta.Some? then input.precioVenta.value else p.precioVenta,
      precioBase := if input.precioBase.Some? then input.precioBase.value else p.precioBase,
      medida := if input.medida.Some? then MedidaOf(input.medida.value).value else p.medida)
  }

  /** Filling a row with no fillable field given leaves it as it was. */
  lemma FilledNothing(p: Producto, stock: Option<int>)
    ensures Filled(p, ProductoInput(None, Absent, None, None, None, None, stock)) == p
  {
  }

  /** `createProducto`: inserts one row under the next id, or fails in storage when the
      input lacks a required column or names an enum value the column rejects. */
  method CreateProducto(db: Database, input: ProductoInput) returns (r: DbResult<Producto>)
    requires db.Valid()
    modifies db
    ensures db.Valid()
    ensures !Insertable(input) ==> r == Failed && unchanged(db)
    ensures Insertable(input) ==>
              && r == Done(NewProducto(old(db.nextProductoId), input))
              && old(db.nextProductoId) !in old(db.productos)
              && db.productos == old(db.productos)[r.value.id := r.value]
              && db.nextProductoId == old(db.nextProductoId) + 1
              && db.PedidosUnchanged() && db.VentasUnchanged() && db.AccountsUnchanged()
  {
    if !Insertable(input) {
      return Failed;
    }
    var p := NewProducto(db.nextProductoId, input);
    db.productos := db.productos[p.id := p];
    db.nextProductoId := db.nextProductoId + 1;
    r := Done(p);
  }

  /** `getAllProductos`: every product row. */
  function GetAllProductos(db: Database): (rows: seq<Producto>)
    reads db
    requires db.Valid()
    ensures forall k :: k in db.productos ==> db.productos[k] in rows
    ensures forall p :: p in rows ==> p.id in db.productos && db.productos[p.id] == p
  {
    RowsInKeyOrder(db.productos, 1, db.nextProductoId)
  }

  /** `getProductoById`: the row with that id, or null. */
  function GetProductoById(products: map<Id, Producto>, id: Id): (r: Option<Producto>)
    ensures r.None? <==> id !in products
    ensures r.Some? ==> id in products && r.value == products[id]
  {
    if id in products then Some(products[id]) else None
  }

  /** `updateProducto`: null for an unknown id; otherwise the row with its fillable columns
      overwritten, or a storage failure when an enum column rejects the value. */
  method UpdateProducto(db: Database, id: Id, input: ProductoInput) returns (r: DbResult<Option<Producto>>)
    requires db.Valid()
    modifies db
    ensures db.Valid()
    ensures id !in old(db.productos) ==> r == Done(None) && unchanged(db)
    ensures id in old(db.productos) && !EnumsAccept(input) ==> r == Failed && unchanged(db)
    ensures id in old(db.productos) && EnumsAccept(input) ==>
              && r == Done(Some(Filled(old(db.productos[id]), input)))
              && db.productos == old(db.productos)[id := r.value.value]
              && db.nextProductoId == old(db.nextProductoId)
              && db.PedidosUnchanged() && db.VentasUnchanged() && db.AccountsUnchanged()
  {
    if id !in db.productos {
      return Done(None);
    }
    if !EnumsAccept(input) {
      return Failed;
    }
    var p := Filled(db.productos[id], input);
    db.productos := db.productos[id := p];
    r := Done(Some(p));
  }

  /** `deleteProducto`: false for an unknown id; a storage failure when an order line or a
      sale line still references the product (the foreign keys restrict deletion);
      otherwise the row is removed and the result is true. */
  method DeleteProducto(db: Database, id: Id) returns (r: DbResult<bool>)
    requires db.Valid()
    modifies db
    ensures db.Valid()
    ensures id !in old(db.productos) ==> r == Done(false) && unchanged(db)
    ensures id in old(db.productos) && (ReferencedBy(old(db.pedidoProductos), id) || ReferencedBy(old(db.ventasProductos), id))
            ==> r == Failed && unchanged(db)
    ensures id in old(db.productos) && !ReferencedBy(old(db.pedidoProductos), id) && !ReferencedBy(old(db.ventasProductos), id)
            ==> && r == Done(true)
                && db.productos == old(db.productos) - {id}
                && db.nextProductoId == old(db.nextProductoId)
                && db.PedidosUnchanged() && db.VentasUnchanged() && db.AccountsUnchanged()
  {
    if id !in db.productos {
      return Done(false);
    }
    if ReferencedBy(db.pedidoProductos, id) || ReferencedBy(db.ventasProductos, id) {
      return Failed;
    }
    db.productos := db.productos - {id};
    r := Done(true);
  }
}
