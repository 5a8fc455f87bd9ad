/** Rows of the database tables the core works on, the error-map keys and messages the
    controllers produce, the HTTP response shape, and the in-memory database itself. */
module Domain {
  import opened Wrappers

  type Id = int
  type Timestamp = int

  /** `estado` enum of products and sales (ACTIVO / INACTIVO). */
  datatype Estado = Activo | Inactivo

  /** `medida` enum of products. */
  datatype Medida = Unidades | Metros | Kilos | Litros

  /** `estado` enum of orders: PENDIENTE (the column default) and ENTREGADO. */
  datatype EstadoPedido = Pendiente | Entregado

  /** A row of `productos`. Stock and prices are float columns in storage; stock is modelled
      as an integer and prices as reals, without rounding. */
  datatype Producto = Producto(
    id: Id,
    estado: Estado,
    nombre: string,
    descripcion: Option<string>,
    precioVenta: real,
    precioBase: real,
    stock: int,
    medida: Medida)

  /** A row of `pedidos`. */
  datatype Pedido = Pedido(
    id: Id,
    estado: EstadoPedido,
    clientesId: Id,
    administradoresId: Id,
    cobrado: int,
    direccion: string,
    fechaEntrega: Option<Timestamp>,
    ventasId: Option<Id>)

  /** A row of `ventas`. */
  datatype Venta = Venta(id: Id, estado: Estado, clientesId: Id, administradoresId: Id)

  /** A row of `pedido_productos` (ownerId is `pedidos_id`) or of `ventas_productos`
      (ownerId is `ventas_id`): the two tables have the same columns. */
  datatype LineRow = LineRow(ownerId: Id, productosId: Id, cantidad: int, costo: real)

  /** A row of `sesiones_administradores` (ownerId is `administradores_id`) or of
      `sesiones_clientes` (ownerId is `clientes_id`); the token column is nullable. */
  datatype SessionRow = SessionRow(id: Id, ownerId: Id, token: Option<string>)

  /** A validated `(id, cantidad)` request line as the repositories receive it. */
  datatype Item = Item(id: Id, cantidad: int)

  /** Keys of the validation error map: a request field (`clientes_id`, `productos`, ...),
      a field of one request line (`productos.<index>.cantidad`), or `producto_<n>`, where the
      number is a 1-based line position or a product id: the two share the key space. */
  datatype ErrorKey =
    | FieldKey(name: string)
    | LineFieldKey(index: int, name: string)
    | ProductoKey(n: int)

  /** Values of the validation error map. */
  datatype Message =
    | RuleFailed                          // a validator rule (required, min, exists, ...) failed
    | MissingData                         // "Faltan datos (ID o cantidad) en el producto."
    | Duplicate(id: Id)                   // "El producto con ID <id> está duplicado."
    | NotRegistered                       // "No se encuentra registrado."
    | InsufficientStock(stockActual: int) // "No hay suficiente stock disponible. Stock actual: <n>"
    | NoProducts                          // "Se debe añadir al menos un producto ..."

  type Errors = map<ErrorKey, Message>

  /** JSON bodies the core answers with. */
  datatype Body =
    | ErrorsBody(errors: Errors)
    | Note(message: string)
    | StockNote(message: string, stockActual: int)
    | ProductoBody(producto: Producto)
    | ProductoNote(message: string, producto: Producto)
    | ProductosBody(productos: seq<Producto>)
    | PedidoBody(pedido: Pedido)
    | PedidosBody(pedidos: seq<Pedido>)
    | VentaBody(venta: Venta)
    | VentasBody(ventas: seq<Venta>)

  datatype Response = Response(status: int, body: Body)

  /** Rows whose product column is `id`: the foreign keys `productos_id` of both line tables
      are declared without ON DELETE, so such a product cannot be deleted. */
  predicate ReferencedBy(rows: seq<LineRow>, id: Id) {
    exists i :: 0 <= i < |rows| && rows[i].productosId == id
  }

  /** The rows of a table whose keys lie in `[lo, hi)`, in ascending key order, as an
      unordered `Model::all()` returns them from an auto-increment table. */
  function RowsInKeyOrder<T(!new)>(table: map<Id, T>, lo: Id, hi: Id): (rows: seq<T>)
    ensures forall x :: x in rows <==> exists k :: lo <= k < hi && k in table && table[k] == x
    decreases hi - lo
  {
    if lo >= hi then []
    else (if lo in table then [table[lo]] else []) + RowsInKeyOrder(table, lo + 1, hi)
  }

  /** The database: every table the core reads or writes, plus the auto-increment counters. */
  class Database {
    var productos: map<Id, Producto>
    var nextProductoId: Id
    var clientes: set<Id>
    var pedidos: map<Id, Pedido>
    var nextPedidoId: Id
    var pedidoProductos: seq<LineRow>
    var ventas: map<Id, Venta>
    var nextVentaId: Id
    var ventasProductos: seq<LineRow>
    var sesionesAdministradores: seq<SessionRow>
    var nextSesionAdministradorId: Id
    var sesionesClientes: seq<SessionRow>
    var nextSesionClienteId: Id

    /** Primary keys agree with the row ids and lie below the counters; the foreign keys
        of the line tables and of `pedidos.ventas_id` point at existing rows. */
    ghost predicate Valid()
      reads this
    {
      && 1 <= nextProductoId && 1 <= nextPedidoId && 1 <= nextVentaId
      && 1 <= nextSesionAdministradorId && 1 <= nextSesionClienteId
      && (forall k :: k in productos ==> productos[k].id == k && 1 <= k < nextProductoId)
      && (forall k :: k in pedidos ==> pedidos[k].id == k && 1 <= k < nextPedidoId)
      && (forall k :: k in ventas ==> ventas[k].id == k && 1 <= k < nextVentaId)
      && (forall i :: 0 <= i < |pedidoProductos| ==>
            pedidoProductos[i].ownerId in pedidos && pedidoProductos[i].productosId in productos)
      && (forall i :: 0 <= i < |ventasProductos| ==>
            ventasProductos[i].ownerId in ventas && ventasProductos[i].productosId in productos)
      && (forall k :: k in pedidos && pedidos[k].ventasId.Some? ==> pedidos[k].ventasId.value in ventas)
      && (forall i :: 0 <= i < |sesionesAdministradores| ==>
            1 <= sesionesAdministradores[i].id < nextSesionAdministradorId)
      && (forall i :: 0 <= i < |sesionesClientes| ==> 1 <= sesionesClientes[i].id < nextSesionClienteId)
    }

    /** The stock invariant: no product has negative stock. */
    ghost predicate StockNonNegative()
      reads this
    {
      forall k :: k in productos ==> productos[k].stock >= 0
    }

    /** Frame conditions, table group by table group, between a method's entry and exit. */
    twostate predicate ProductosUnchanged()
      reads this
    {
      productos == old(productos) && nextProductoId == old(nextProductoId)
    }

    twostate predicate PedidosUnchanged()
      reads this
    {
      pedidos == old(pedidos) && nextPedidoId == old(nextPedidoId) && pedidoProductos == old(pedidoProductos)
    }

    twostate predicate VentasUnchanged()
      reads this
    {
      ventas == old(ventas) && nextVentaId == old(nextVentaId) && ventasProductos == old(ventasProductos)
    }

    /** Clients and both session tables. */
    twostate predicate AccountsUnchanged()
      reads this
    {
      && clientes == old(clientes)
      && sesionesAdministradores == old(sesionesAdministradores)
      && nextSesionAdministradorId == old(nextSesionAdministradorId)
      && sesionesClientes == old(sesionesClientes)
      && nextSesionClienteId == old(nextSesionClienteId)
    }

    /** An empty database over a given set of registered clients. */
    constructor (clientIds: set<Id>)
      ensures Valid() && StockNonNegative()
      ensures productos == map[] && pedidos == map[] && ventas == map[]
      ensures pedidoProductos == [] && ventasProductos == []
      ensures sesionesAdministradores == [] && sesionesClientes == []
      ensures clientes == clientIds
    {
      productos, nextProductoId := map[], 1;
      clientes := clientIds;
      pedidos, nextPedidoId, pedidoProductos := map[], 1, [];
      ventas, nextVentaId, ventasProductos := map[], 1, [];
      sesionesAdministradores, nextSesionAdministradorId := [], 1;
      sesionesClientes, nextSesionClienteId := [], 1;
    }
  }
}
