# sistema_ventas_pedidos — inventory, order, sale and session core in Dafny

This project models the stateful core of the Laravel back end of *sistema_ventas_pedidos*,
a sales and orders system. The core covers:

- the **product stock ledger** (`ProductoController`, `ProductoRepository`): creating,
  updating and deleting products, and adding and removing stock;
- the **line validation loop** shared by `PedidoController::store` and
  `VentaController::store`: a `foreach` over the requested lines that keeps a
  `seenProducts` list and writes `producto_<...>` keys into the error map, after the
  framework validator has filled in its own keys;
- **orders** (`PedidoController`, `PedidoRepository`): taking an order inserts a PENDIENTE
  order plus one line per existing product at its current `precio_venta`, and lowers stock.
  Delivering moves an order from PENDIENTE to ENTREGADO, builds a sale from its lines
  without touching stock, and links the sale to the order;
- **sales** (`VentaController`, `VentaRepository`): `createVenta` lowers stock and
  `createVentaPedido` does not;
- the **session tables** and the **Auth / Guest middlewares** for administrators and
  clients.

The database is one `Domain.Database` object. Each table is a field: `map`s keyed by id for
products, orders and sales, and `seq`s for the two line tables and the two session tables.
Auto-increment counters are fields too. `Valid()` holds the key/id agreement, the counters
and the foreign keys. Controllers and repositories are methods over that object, and each
method states its whole new state. The line loops are `for` loops, proved against
specification functions:

- `LineEffects.Decremented` and `LineEffects.PricedLines` state what the repository loops
  do to the stock and to the line tables;
- `LineValidation.ScanLines` follows the validation loop, and `LineValidation.Verdict` says
  independently what each line writes.

Lemmas connect the two descriptions.

Responses are `Domain.Response(status, body)`. An error-map entry carries a message
*kind* (`MissingData`, `Duplicate(id)`, `NotRegistered`, `InsufficientStock(stock)`,
`RuleFailed`, `NoProducts`) instead of the Spanish sentence. Other response messages are
kept verbatim. `now()` is a `Timestamp` parameter. A storage failure inside `deliver` is a
`DeliveryFault` parameter that names the write it interrupts: the sale header, the attach
of one order line, or the save of `ventas_id`.

The code behaves as follows in places where one might expect otherwise:

- **Product `estado` is taken from the input.** `estado` is mass-assignable
  (`api/app/Models/Producto.php:15-22`), so create and update use the given value. A value
  outside the enum makes the insert fail, and the answer is 500. The database default is
  ACTIVO; it applies only when `estado` is absent.
- **Deleting a product can fail.** If any order or sale line references the product, the
  foreign key rejects the delete and the answer is 500.
- **`productos: []` gives 422.** Laravel's `required` fails on an empty array.
- **`ProductoController::index` always answers 200.** `!$productos` on a collection is
  never true, so there is no 404.
- **A delivered order's sale uses current prices.** Its lines are priced at `precio_venta`
  at delivery time, not at the order line's `costo`.

## Model

| member | source | states |
|---|---|---|
| LineEffects.DecrementOne | api/app/repositories/PedidoRepository.php:37-38 | one pass lowers only the named product's stock, by the item's quantity; every other product and every key are unchanged |
| LineEffects.LineFor | api/app/repositories/PedidoRepository.php:27-35 | one pass inserts exactly one line (owner, product, quantity, current `precio_venta`) iff the product exists, otherwise none |
| LineEffects.Decremented | api/app/repositories/PedidoRepository.php:26-40 | the loop never adds or removes a product |
| LineEffects.PricedLines | api/app/repositories/PedidoRepository.php:26-35 | at most one line per item; every line belongs to the owner, names an existing product and costs that product's `precio_venta` |
| LineEffects.DecrementedKeepsCatalog | api/app/repositories/PedidoRepository.php:37-38 | the loop changes no product column other than `stock` |
| LineEffects.DecrementedStock | api/app/repositories/PedidoRepository.php:26-40 | each product's stock drops by exactly the total quantity requested for it |
| LineEffects.PricedLinesExact | api/app/repositories/PedidoRepository.php:26-35 | when every product exists there is exactly one line per item, in request order, with its quantity and current price |
| LineEffects.DecrementedStaysNonNegative | api/app/Http/Controllers/PedidoController.php:128-143 | distinct, existing products with enough stock keep every stock non-negative after the loop |
| LineEffects.DecrementedDistinct | api/app/repositories/PedidoRepository.php:37-38 | with distinct ids, a named product loses exactly its item's quantity and an unnamed one keeps its stock |
| LineValidation.StepIsVerdict | api/app/Http/Controllers/PedidoController.php:122-143 | one loop pass writes exactly the line's `Verdict` and appends to the seen list exactly the ids `SeenBefore` describes |
| LineValidation.SeenInvariant | api/app/Http/Controllers/PedidoController.php:120-143 | after `n` lines the seen list holds exactly the ids of earlier complete lines whose product exists |
| LineValidation.ErrorsInvariant | api/app/Http/Controllers/PedidoController.php:119-147 | after `n` lines a key is present iff the validator or some line wrote it, and it holds the last writer's message |
| LineValidation.NoVerdictIffValid | api/app/Http/Controllers/PedidoController.php:122-143 | no line writes anything iff every line is complete, exists, has enough stock and no id repeats |
| LineValidation.NoErrorsIff | api/app/Http/Controllers/PedidoController.php:119-149 | the final error map is empty iff the validator reported nothing and every line is valid |
| LineValidation.FinalErrors | api/app/Http/Controllers/PedidoController.php:119-147 | the final map's keys and last-writer values, over all the lines |
| LineValidation.MissingDataReported | api/app/Http/Controllers/PedidoController.php:123-126 | a line without `id` or `cantidad` leaves key `producto_<index+1>` in the final map |
| LineValidation.VerdictReported | api/app/Http/Controllers/PedidoController.php:133-137 | every key a line writes is in the final map, and a complete line with an unknown id writes "not registered" under `producto_<id>` |
| LineValidation.RepeatVerdicts | api/app/Http/Controllers/PedidoController.php:128-137 | a repeated existing id is reported as duplicate; a repeated unknown id is reported as not registered, never as duplicate |
| LineValidation.ShortStockStillSeen | api/app/Http/Controllers/PedidoController.php:139-143 | a line short of stock is still added to `seenProducts` |
| LineValidation.KeyCollision | api/app/Http/Controllers/PedidoController.php:123-129 | `producto_<index+1>` and `producto_<id>` share one key space: a later line can overwrite an earlier line's missing-data entry |
| LineValidation.CantidadKeys | api/app/Http/Controllers/PedidoController.php:112 | the validator flags `productos.<i>.cantidad` exactly for lines whose `cantidad` is missing or below 1 |
| LineValidation.Items | api/app/repositories/PedidoRepository.php:26-33 | the repository reads one `(id, cantidad)` item per line, in order, with the line's values |
| LineValidation.AcceptedItemsSafe | api/app/Http/Controllers/PedidoController.php:119-158 | accepted lines have distinct ids, each named product loses exactly its quantity, and no stock goes negative |
| LineValidation.CheckLines | api/app/Http/Controllers/PedidoController.php:119-147 | the loop computes `ScanLines` and leaves the map empty iff the validator reported nothing and every line is valid |
| ProductoRepository.MedidaOf | api/database/migrations/2024_11_27_024649_create_productos_table.php:27 | a `medida` is accepted iff it is one of unidades, metros, kilos, litros |
| ProductoRepository.EstadoOf | api/database/migrations/2024_11_27_024649_create_productos_table.php:19 | an `estado` is accepted iff it is ACTIVO or INACTIVO |
| ProductoRepository.NewProducto | api/app/repositories/ProductoRepository.php:10-13 | a new product has stock 0 (not fillable), and `estado` is ACTIVO when not given |
| ProductoRepository.Filled | api/app/repositories/ProductoRepository.php:28-36 | an update keeps `id` and `stock` |
| ProductoRepository.FilledNothing | api/app/repositories/ProductoRepository.php:32 | an update that gives no fillable field leaves the row as it was; a given `stock` is ignored |
| ProductoRepository.CreateProducto | api/app/repositories/ProductoRepository.php:10-13 | inserts the new product under the next id, or fails and changes nothing when a column rejects the input |
| ProductoRepository.GetAllProductos | api/app/repositories/ProductoRepository.php:16-19 | returns every product row, and only product rows |
| ProductoRepository.GetProductoById | api/app/repositories/ProductoRepository.php:22-25 | null iff no product has the id, otherwise that product |
| ProductoRepository.UpdateProducto | api/app/repositories/ProductoRepository.php:28-36 | null with the table unchanged for a missing id; otherwise only that row changes, to the filled product |
| ProductoRepository.DeleteProducto | api/app/repositories/ProductoRepository.php:39-47 | false and unchanged when absent; removes the row and returns true; fails when a line references the product |
| ProductoController.ProductoRules | api/app/Http/Controllers/ProductoController.php:72-78 | a field key is in the error map iff that field breaks its rule |
| ProductoController.AcceptedInsertable | api/app/Http/Controllers/ProductoController.php:72-88 | after validation passes, the insert can fail only on an out-of-enum `estado` |
| ProductoController.CantidadErrors | api/app/Http/Controllers/ProductoController.php:325-327 | no error iff `cantidad` is given and at least 1; otherwise only `cantidad` is flagged |
| ProductoController.Store | api/app/Http/Controllers/ProductoController.php:68-98 | 422 with the rule map and no change; 500 "Error en la base de datos" when the insert fails; 201 with the stock-0 product |
| ProductoController.Index | api/app/Http/Controllers/ProductoController.php:119-133 | 200 with exactly the products in the table |
| ProductoController.Show | api/app/Http/Controllers/ProductoController.php:162-175 | 404 "Producto no encontrado" iff the id is unknown, otherwise 200 with the product |
| ProductoController.Update | api/app/Http/Controllers/ProductoController.php:215-243 | 422, 404 for a missing product, 500 on an insert failure, or 200 with only that row changed and `stock` kept |
| ProductoController.Destroy | api/app/Http/Controllers/ProductoController.php:271-284 | 404 for a missing product, 500 when referenced, or 200 "Producto eliminado" with the row removed |
| ProductoController.AddStock | api/app/Http/Controllers/ProductoController.php:322-353 | 422 unless `cantidad` ≥ 1, 404 for an unknown id (no change), else stock + cantidad on that product only |
| ProductoController.RemoveStock | api/app/Http/Controllers/ProductoController.php:391-430 | 422, 404, 400 with the current stock when it is short (no change), else stock − cantidad, never negative |
| ProductoController.AddThenRemove | api/app/Http/Controllers/ProductoController.php:343-421 | adding then removing the same amount answers 200 twice and leaves every table as it was |
| PedidoRepository.NewPedido | api/app/repositories/PedidoRepository.php:18-23 | the new order is PENDIENTE with no delivery date and no sale, with the request's client, `cobrado` and `direccion` and the user as administrator |
| PedidoRepository.CreatePedido | api/app/repositories/PedidoRepository.php:14-46 | exactly one order inserted under the next id; its priced lines appended; stock decremented; sales and accounts unchanged |
| PedidoRepository.AddPedidoLines | api/app/repositories/PedidoRepository.php:26-40 | the loop appends `PricedLines` and leaves the stock as `Decremented` |
| PedidoRepository.AddPedidoLine | api/app/repositories/PedidoRepository.php:27-39 | one pass inserts the line and lowers the stock iff the product exists |
| PedidoRepository.DeliverPedido | api/app/repositories/PedidoRepository.php:48-58 | the order becomes ENTREGADO with `fecha_entrega` now, with every other field and table unchanged |
| PedidoController.PedidoRules | api/app/Http/Controllers/PedidoController.php:106-116 | each field key, and each line's `cantidad` key, is in the rule map iff its rule fails |
| PedidoController.FieldKeys | api/app/Http/Controllers/PedidoController.php:106-111 | the failing top-level fields |
| PedidoController.PedidoErrorsEmptyIff | api/app/Http/Controllers/PedidoController.php:104-149 | the full error map is empty iff every field rule holds and every line is valid |
| PedidoController.DataOf | api/app/Http/Controllers/PedidoController.php:157 | the repository gets the request's client and items; `fecha_entrega` is not passed on |
| PedidoController.Store | api/app/Http/Controllers/PedidoController.php:100-164 | 422 iff the order is not acceptable, and then nothing changes; else 201 with the new order, one line per requested line, and each product's stock lowered by its quantity |
| PedidoController.TakeOrder | api/app/Http/Controllers/PedidoController.php:156-158 | the accepted branch: the order, its lines and the stock drop, with stock kept non-negative |
| PedidoController.DecrementedDistinctFor | api/app/repositories/PedidoRepository.php:37-38 | after accepted lines, each ordered product's stock is its old stock minus its line's quantity |
| PedidoController.Index | api/app/Http/Controllers/PedidoController.php:183-187 | 200 with exactly the orders in the table |
| PedidoController.Show | api/app/Http/Controllers/PedidoController.php:213-222 | 404 "Pedido no encontrado" iff unknown, otherwise 200 with the order |
| PedidoController.OrderItems | api/app/Http/Controllers/PedidoController.php:273-274 | the items are exactly the order's lines as `(productos_id, cantidad)` pairs |
| PedidoController.SaleMirrorsOrder | api/app/Http/Controllers/PedidoController.php:273-278 | the sale gets one line per order line, with the same product and quantity at the product's price at delivery time |
| PedidoController.Deliver | api/app/Http/Controllers/PedidoController.php:258-293 | 400 and no change for an unknown or non-PENDIENTE order; on a storage failure, 500 with the order left ENTREGADO and the sale as far as it was written (no header, a prefix of its lines, or complete but unlinked); else 200, with the sale built from the order lines without a stock change and linked by `ventas_id` |
| PedidoController.AttachedBefore | api/app/repositories/VentaRepository.php:56-66 | the lines attached before the attach at position `n` fails are a prefix of the order's lines, of length `n` when there is such a line |
| PedidoController.DeliverAndLink | api/app/Http/Controllers/PedidoController.php:271-283 | ENTREGADO at `now`, one ACTIVO sale for the order's client and the delivering user with one line per order line, `ventas_id` set to it, product rows unchanged |
| PedidoController.DeliverInterrupted | api/app/Http/Controllers/PedidoController.php:271-291 | 500 with the order ENTREGADO and no `ventas_id`; nothing of the sale before the header, the header and the lines attached so far after it; product rows unchanged |
| PedidoController.LinkSale | api/app/Http/Controllers/PedidoController.php:273-283 | the sale for the order's client and the delivering user, its mirrored lines, and `ventas_id` set to the new sale |
| PedidoController.DeliverTwice | api/app/Http/Controllers/PedidoController.php:261-269 | a second delivery of the same order is always rejected with 400 |
| VentaRepository.NewVenta | api/app/repositories/VentaRepository.php:16-20 | the new sale is ACTIVO, with the given client and the user as administrator |
| VentaRepository.InsertVenta | api/app/repositories/VentaRepository.php:16-20 | one sale header inserted under the next id; nothing else changes |
| VentaRepository.CreateVenta | api/app/repositories/VentaRepository.php:12-42 | header inserted, priced lines appended, stock decremented, orders and accounts unchanged |
| VentaRepository.CreateVentaPedido | api/app/repositories/VentaRepository.php:45-72 | the same header and priced lines, with the product table unchanged |
| VentaRepository.AddVentaLines | api/app/repositories/VentaRepository.php:23-36 | the loop appends `PricedLines` and leaves the stock as `Decremented` |
| VentaRepository.AttachVentaLines | api/app/repositories/VentaRepository.php:56-66 | the loop appends `PricedLines` at the current prices and changes no product |
| VentaRepository.AddVentaLine | api/app/repositories/VentaRepository.php:24-35 | one pass attaches the line iff the product exists, and lowers the stock only when asked to |
| VentaController.VentaRules | api/app/Http/Controllers/VentaController.php:91-96 | `clientes_id`, `productos`, and each line's `id` (`exists`) and `cantidad` key are flagged iff the rule fails |
| VentaController.IdKeys | api/app/Http/Controllers/VentaController.php:94 | `productos.<i>.id` is flagged exactly for lines without an id or with an unknown id |
| VentaController.VentaErrorsEmptyIff | api/app/Http/Controllers/VentaController.php:89-143 | the full error map is empty iff the client exists, every `cantidad` passes and every line is valid |
| VentaController.UnknownReportedTwice | api/app/Http/Controllers/VentaController.php:91-127 | an unknown product id is reported by the `exists` rule and under `producto_<id>` |
| VentaController.Store | api/app/Http/Controllers/VentaController.php:85-161 | 422 iff the sale is not acceptable, with no change; else 201 with the sale, one line per requested line, and the stock decremented |
| VentaController.RecordSale | api/app/Http/Controllers/VentaController.php:150-154 | the accepted branch: sale, lines and stock drop, with stock kept non-negative |
| VentaController.Index | api/app/Http/Controllers/VentaController.php:178-182 | 200 with exactly the sales in the table |
| VentaController.Show | api/app/Http/Controllers/VentaController.php:207-216 | 404 "Venta no encontrada" iff unknown, otherwise 200 with the sale |
| SessionTable.FirstWithToken | api/app/repositories/SesionAdministradorRepository.php:19-22 | null iff no row has the token, otherwise the first row (in table order) with it |
| SessionTable.WithoutToken | api/app/repositories/SesionAdministradorRepository.php:25-28 | the rows kept are exactly those whose token differs |
| SessionTable.OwnedBy | api/app/repositories/SesionAdministradorRepository.php:31-34 | exactly the rows of the given owner |
| SessionTable.DeletedTokenUnregistered | api/app/repositories/SesionAdministradorRepository.php:25-28 | after the delete, no row carries the token |
| SessionTable.DeleteKeepsOtherTokens | api/app/repositories/SesionAdministradorRepository.php:25-28 | deleting one token leaves every other token's registration as it was |
| SesionAdministradorRepository.CreateSesion | api/app/repositories/SesionAdministradorRepository.php:10-16 | appends the session row; afterwards the lookup of the token finds a session, and tokens already registered stay registered |
| SesionAdministradorRepository.GetSesionByToken | api/app/repositories/SesionAdministradorRepository.php:19-22 | null iff no administrator session has the token, otherwise a row with it |
| SesionAdministradorRepository.DeleteSesionByToken | api/app/repositories/SesionAdministradorRepository.php:25-28 | removes all and only the rows with the token, returns their count, and unregisters the token |
| SesionAdministradorRepository.GetAllSesionesByAdministrador | api/app/repositories/SesionAdministradorRepository.php:31-34 | exactly the administrator's session rows |
| SesionClienteRepository.CreateSesion | api/app/repositories/SesionClienteRepository.php:10-16 | appends the session row; afterwards the lookup of the token finds a session |
| SesionClienteRepository.GetSesionByToken | api/app/repositories/SesionClienteRepository.php:19-22 | null iff no client session has the token, otherwise a row with it |
| SesionClienteRepository.DeleteSesionByToken | api/app/repositories/SesionClienteRepository.php:25-28 | removes all and only the rows with the token and unregisters the token |
| SesionClienteRepository.GetAllSesionesByCliente | api/app/repositories/SesionClienteRepository.php:31-34 | exactly the client's session rows |
| Middleware.AuthGate | api/app/Http/Middleware/VerifyAdministradorAuth.php:11-33 | admits iff a token is given and registered, with the first matching session's owner as user; otherwise 401 "Token no proporcionado" or "Token inválido o expirado" |
| Middleware.GuestGate | api/app/Http/Middleware/VerifyAdministradorGuest.php:12-28 | 400 "Ya estás autenticado" iff a token is given and registered, otherwise passes through |
| Middleware.GuestComplementsAuth | api/app/Http/Middleware/VerifyAdministradorGuest.php:16-23 | for a given token, Guest rejects exactly the tokens Auth admits |
| Middleware.Apply | api/app/Http/Middleware/VerifyAdministradorAuth.php:25-28 | an admitted request gets `user` merged in and goes on; a rejected one is answered and left unmodified |
| Middleware.HandleAdministradorAuth | api/app/Http/Middleware/VerifyAdministradorAuth.php:11-33 | `next` is reached iff an administrator session has the token, and then the request carries that session's owner |
| Middleware.HandleClienteAuth | api/app/Http/Middleware/VerifyClienteAuth.php:11-29 | `next` is reached iff a client session has the token, and then the request carries that session's owner |
| Middleware.HandleAdministradorGuest | api/app/Http/Middleware/VerifyAdministradorGuest.php:12-28 | 400 iff the token is given and registered; the request is only read |
| Middleware.HandleClienteGuest | api/app/Http/Middleware/VerifyClienteGuest.php:12-28 | 400 iff the token is given and registered; the request is only read |
| Middleware.AdministradorLogoutThenAuth | api/app/Http/Controllers/AdministradorController.php:156-162 | after logout deletes the token, the Auth middleware that admitted it now answers 401 "Token inválido o expirado" |
| Middleware.ClienteLogoutThenAuth | api/app/Http/Controllers/ClienteController.php:455-461 | after logout deletes the token, the client Auth middleware answers 401 |

## Left out

- JSON serialisation, routing, OpenAPI annotations and the validator's message texts. Responses are a status plus a body datatype. Error-map entries carry a message kind, and the `message`/`error` detail fields of the 422 and 500 bodies are left out.
- Login (`Hash::check`, random token generation), password hashing, and client and administrator CRUD. These are foreign crypto calls and thin wrappers. Tokens are given strings, and clients are a set of ids for the `exists:clientes,id` rule.
- Laravel validator internals. Requests are typed: a field is missing/null or holds a value of its type. A non-numeric `cantidad` or a non-string `direccion` cannot be written, and `numeric` is modelled on integers.
- Float columns: `stock` and `cantidad` are `int`, and the prices and `costo` are `real`, with no rounding.
- The `if (!$producto)` → 500 "Error al crear el producto" branch of `ProductoController::store`, and the "Error al generar la venta." and "Error al entregar el pedido." branches of `deliver`. A created model is always truthy, so these branches cannot be reached.
- Other `QueryException` paths. Only enum rejection on product insert/update, the foreign-key on product delete, and the storage failures of `deliver` (`DeliveryFault`) are modelled. The storage errors → 500 of `PedidoController::store` and `VentaController::store` are left out.
- Repository-level foreign keys on `clientes_id`/`administradores_id`. The controllers validate `clientes_id`; the user id comes from the Auth middleware.
- Concurrency between requests (there are no transactions). Timestamps other than `fecha_entrega` are left out too.
- PHP's loose `in_array` comparison. Ids are integers and compared exactly.
- The token comparison's database collation. Tokens are compared as exact strings.
- The Auth middleware attaches the session's administrador or cliente model. The model attaches its id, and a dangling owner is not modelled.
- `ProductoController.Store`: the 201 body is the inserted product with stock 0. The framework's response would omit columns not refreshed from the database.
- `PedidoController.Store`: the 201 body is the inserted order with `estado` PENDIENTE and no `fecha_entrega` or `ventas_id`. The framework's response would omit these columns, because `Pedido::create` does not set them and the model is not refreshed.
- `ProductoController.Index`, `PedidoController.Index`, `VentaController.Index`, `ProductoRepository.GetAllProductos`: state the rows returned as a set of rows, not their order.
- Logout itself (`AdministradorController::logout`, `ClienteController::logout`) is only modelled through `AdministradorLogoutThenAuth` and `ClienteLogoutThenAuth`, which call the session repository's delete.
