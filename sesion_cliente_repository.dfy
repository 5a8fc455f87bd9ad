/** SesionClienteRepository: the `sesiones_clientes` table, where a login stores a token for
    its owner (`clientes_id`) and a logout deletes it. */
module SesionClienteRepository {
  import opened Wrappers
  import opened Domain
  import opened SessionTable

  /** `createSesion`: appends a row for `clienteId` holding `token`, under the next id;
      afterwards the token is registered. */
  method CreateSesion(db: Database, clienteId: Id, token: string) returns (row: SessionRow)
    requires db.Valid()
    modifies db
    ensures db.Valid()
    ensures row == SessionRow(old(db.nextSesionClienteId), clienteId, Some(token))
    ensures db.sesionesClientes == old(db.sesionesClientes) + [row] && db.nextSesionClienteId == old(db.nextSesionClienteId) + 1
    ensures Registered(db.sesionesClientes, token) && FirstWithToken(db.sesionesClientes, token).Some?
    ensures forall u :: Registered(old(db.sesionesClientes), u) ==> Registered(db.sesionesClientes, u)
    ensures db.ProductosUnchanged() && db.PedidosUnchanged() && db.VentasUnchanged()
    ensures db.clientes == old(db.clientes) && db.sesionesAdministradores == old(db.sesionesAdministradores) && db.nextSesionAdministradorId == old(db.nextSesionAdministradorId)
  {
    row := SessionRow(db.nextSesionClienteId, clienteId, Some(token));
    db.sesionesClientes := db.sesionesClientes + [row];
    db.nextSesionClienteId := db.nextSesionClienteId + 1;
    assert HasToken(db.sesionesClientes, |db.sesionesClientes| - 1, token);
    forall u | Registered(old(db.sesionesClientes), u) ensures Registered(db.sesionesClientes, u) {
      var i :| 0 <= i < |old(db.sesionesClientes)| && HasToken(old(db.sesionesClientes), i, u);
      assert HasToken(db.sesionesClientes, i, u);
    }
  }

  /** `getSesionByToken`: the first row holding `token`, or null. */
  function GetSesionByToken(db: Database, token: string): (r: Option<SessionRow>)
    reads db
    ensures r.None? <==> !Registered(db.sesionesClientes, token)
    ensures r.Some? ==> r.value in db.sesionesClientes && r.value.token == Some(token)
  {
    FirstWithToken(db.sesionesClientes, token)
  }

  /** `deleteSesionByToken`: removes every row holding `token` and no other, and
      answers how many rows went; afterwards the token is not registered, and every other
      token is registered exactly as before. */
  method DeleteSesionByToken(db: Database, token: string) returns (deleted: nat)
    requires db.Valid()
    modifies db
    ensures db.Valid()
    ensures db.sesionesClientes == WithoutToken(old(db.sesionesClientes), token)
    ensures deleted == |old(db.sesionesClientes)| - |db.sesionesClientes|
    ensures !Registered(db.sesionesClientes, token)
    ensures forall u :: u != token ==> (Registered(db.sesionesClientes, u) <==> Registered(old(db.sesionesClientes), u))
    ensures db.nextSesionClienteId == old(db.nextSesionClienteId)
    ensures db.ProductosUnchanged() && db.PedidosUnchanged() && db.VentasUnchanged()
    ensures db.clientes == old(db.clientes) && db.sesionesAdministradores == old(db.sesionesAdministradores) && db.nextSesionAdministradorId == old(db.nextSesionAdministradorId)
  {
    var before := db.sesionesClientes;
    db.sesionesClientes := WithoutToken(before, token);
    deleted := |before| - |db.sesionesClientes|;
    DeletedTokenUnregistered(before, token);
    forall u | u != token ensures Registered(db.sesionesClientes, u) <==> Registered(before, u) {
      DeleteKeepsOtherTokens(before, token, u);
    }
    forall i | 0 <= i < |db.sesionesClientes| ensures 1 <= db.sesionesClientes[i].id < db.nextSesionClienteId {
      assert db.sesionesClientes[i] in db.sesionesClientes;
    }
  }

  /** `getAllSesionesByCliente`: exactly the rows of that owner. */
  function GetAllSesionesByCliente(db: Database, clienteId: Id): (rows: seq<SessionRow>)
    reads db
    ensures forall x :: x in rows <==> x in db.sesionesClientes && x.ownerId == clienteId
  {
    OwnedBy(db.sesionesClientes, clienteId)
  }
}
