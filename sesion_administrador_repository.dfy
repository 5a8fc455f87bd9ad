/** SesionAdministradorRepository: the `sesiones_administradores` table, where a login stores a token for
    its owner (`administradores_id`) and a logout deletes it. */
module SesionAdministradorRepository {
  import opened Wrappers
  import opened Domain
  import opened SessionTable

  /** `createSesion`: appends a row for `administradorId` holding `token`, under the next id;
      afterwards the token is registered. */
  method CreateSesion(db: Database, administradorId: Id, token: string) returns (row: SessionRow)
    requires db.Valid()
    modifies db
    ensures db.Valid()
    ensures row == SessionRow(old(db.nextSesionAdministradorId), administradorId, Some(token))
    ensures db.sesionesAdministradores == old(db.sesionesAdministradores) + [row] && db.nextSesionAdministradorId == old(db.nextSesionAdministradorId) + 1
    ensures Registered(db.sesionesAdministradores, token) && FirstWithToken(db.sesionesAdministradores, token).Some?
    ensures forall u :: Registered(old(db.sesionesAdministradores), u) ==> Registered(db.sesionesAdministradores, u)
    ensures db.ProductosUnchanged() && db.PedidosUnchanged() && db.VentasUnchanged()
    ensures db.clientes == old(db.clientes) && db.sesionesClientes == old(db.sesionesClientes) && db.nextSesionClienteId == old(db.nextSesionClienteId)
  {
    row := SessionRow(db.nextSesionAdministradorId, administradorId, Some(token));
    db.sesionesAdministradores := db.sesionesAdministradores + [row];
    db.nextSesionAdministradorId := db.nextSesionAdministradorId + 1;
    assert HasToken(db.sesionesAdministradores, |db.sesionesAdministradores| - 1, token);
    forall u | Registered(old(db.sesionesAdministradores), u) ensures Registered(db.sesionesAdministradores, u) {
      var i :| 0 <= i < |old(db.sesionesAdministradores)| && HasToken(old(db.sesionesAdministradores), i, u);
      assert HasToken(db.sesionesAdministradores, i, u);
    }
  }

  /** `getSesionByToken`: the first row holding `token`, or null. */
  function GetSesionByToken(db: Database, token: string): (r: Option<SessionRow>)
    reads db
    ensures r.None? <==> !Registered(db.sesionesAdministradores, token)
    ensures r.Some? ==> r.value in db.sesionesAdministradores && r.value.token == Some(token)
  {
    FirstWithToken(db.sesionesAdministradores, token)
  }

  /** `deleteSesionByToken`: removes every row holding `token` and no other, and
      answers how many rows went; afterwards the token is not registered, and every other
      token is registered exactly as before. */
  method DeleteSesionByToken(db: Database, token: string) returns (deleted: nat)
    requires db.Valid()
    modifies db
    ensures db.Valid()
    ensures db.sesionesAdministradores == WithoutToken(old(db.sesionesAdministradores), token)
    ensures deleted == |old(db.sesionesAdministradores)| - |db.sesionesAdministradores|
    ensures !Registered(db.sesionesAdministradores, token)
    ensures forall u :: u != token ==> (Registered(db.sesionesAdministradores, u) <==> Registered(old(db.sesionesAdministradores), u))
    ensures db.nextSesionAdministradorId == old(db.nextSesionAdministradorId)
    ensures db.ProductosUnchanged() && db.PedidosUnchanged() && db.VentasUnchanged()
    ensures db.clientes == old(db.clientes) && db.sesionesClientes == old(db.sesionesClientes) && db.nextSesionClienteId == old(db.nextSesionClienteId)
  {
    var before := db.sesionesAdministradores;
    db.sesionesAdministradores := WithoutToken(before, token);
    deleted := |before| - |db.sesionesAdministradores|;
    DeletedTokenUnregistered(before, token);
    forall u | u != token ensures Registered(db.sesionesAdministradores, u) <==> Registered(before, u) {
      DeleteKeepsOtherTokens(before, token, u);
    }
    forall i | 0 <= i < |db.sesionesAdministradores| ensures 1 <= db.sesionesAdministradores[i].id < db.nextSesionAdministradorId {
      assert db.sesionesAdministradores[i] in db.sesionesAdministradores;
    }
  }

  /** `getAllSesionesByAdministrador`: exactly the rows of that owner. */
  function GetAllSesionesByAdministrador(db: Database, administradorId: Id): (rows: seq<SessionRow>)
    reads db
    ensures forall x :: x in rows <==> x in db.sesionesAdministradores && x.ownerId == administradorId
  {
    OwnedBy(db.sesionesAdministradores, administradorId)
  }
}
