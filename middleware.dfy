/** The Auth and Guest middlewares of both roles, in front of the protected and the login
    routes: they read the `Authorization` header and look it up in a session table. */
module Middleware {
  import opened Wrappers
  import opened Domain
  import opened SessionTable
  import SesionAdministradorRepository
  import SesionClienteRepository

  /** The incoming request: its `Authorization` header (None when absent) and the `user`
      input key that an Auth middleware merges in. */
  class Request {
    const authorization: Option<string>
    var user: Option<Id>

    constructor (authorization: Option<string>)
      ensures this.authorization == authorization && user.None?
    {
      this.authorization := authorization;
      user := None;
    }
  }

  /** PHP truthiness of the header value: null, "" and "0" count as no token. */
  predicate TokenGiven(header: Option<string>) {
    header.Some? && header.value != "" && header.value != "0"
  }

  /** What an Auth middleware decides: answer with a response, or pass the request on to
      `next` with `user` set to the session's owner. */
  datatype Gate = Reject(response: Response) | Admit(user: Id)

  /** The Auth decision over one session table: 401 "Token no proporcionado" without a token,
      401 "Token inválido o expirado" for an unregistered one, otherwise admission of the
      owner of the first session holding the token. */
  function AuthGate(sessions: seq<SessionRow>, header: Option<string>): (g: Gate)
    ensures g.Admit? <==> TokenGiven(header) && Registered(sessions, header.value)
    ensures !TokenGiven(header) ==> g == Reject(Response(401, Note("Token no proporcionado")))
    ensures TokenGiven(header) && !Registered(sessions, header.value) ==>
              g == Reject(Response(401, Note("Token inválido o expirado")))
    ensures g.Admit? ==> exists i :: 0 <= i < |sessions| && HasToken(sessions, i, header.value) && sessions[i].ownerId == g.user
                                    && forall j :: 0 <= j < i ==> !HasToken(sessions, j, header.value)
  {
    if !TokenGiven(header) then Reject(Response(401, Note("Token no proporcionado")))
    else match FirstWithToken(sessions, header.value)
         case Some(s) => Admit(s.ownerId)
         case None => Reject(Response(401, Note("Token inválido o expirado")))
  }

  /** The Guest decision over one session table: 400 "Ya estás autenticado" for a given,
      registered token; otherwise the request passes on untouched (None). */
  function GuestGate(sessions: seq<SessionRow>, header: Option<string>): (r: Option<Response>)
    ensures r.Some? <==> TokenGiven(header) && Registered(sessions, header.value)
    ensures r.Some? ==> r.value == Response(400, Note("Ya estás autenticado"))
  {
    if TokenGiven(header) && FirstWithToken(sessions, header.value).Some? then Some(Response(400, Note("Ya estás autenticado")))
    else None
  }

  /** For a given token, Guest lets through exactly the requests Auth turns away. */
  lemma GuestComplementsAuth(sessions: seq<SessionRow>, header: Option<string>)
    requires TokenGiven(header)
    ensures GuestGate(sessions, header).None? <==> AuthGate(sessions, header).Reject?
    ensures GuestGate(sessions, header).Some? <==> AuthGate(sessions, header).Admit?
  {
  }

  /** Runs an Auth decision on the request: on admission `user` is merged in and None means
      `next` is called; on rejection the request is left alone and the response returned. */
  method Apply(g: Gate, req: Request) returns (resp: Option<Response>)
    modifies req
    ensures g.Reject? ==> resp == Some(g.response) && req.user == old(req.user)
    ensures g.Admit? ==> resp.None? && req.user == Some(g.user)
  {
    match g
    case Reject(r) =>
      resp := Some(r);
    case Admit(u) =>
      req.user := Some(u);
      resp := None;
  }

  /** VerifyAdministradorAuth::handle. */
  method HandleAdministradorAuth(db: Database, req: Request) returns (resp: Option<Response>)
    modifies req
    ensures resp.None? <==> TokenGiven(req.authorization) && Registered(db.sesionesAdministradores, req.authorization.value)
    ensures resp.Some? ==> resp == Some(AuthGate(db.sesionesAdministradores, req.authorization).response) && req.user == old(req.user)
    ensures resp.None? ==> req.user == Some(AuthGate(db.sesionesAdministradores, req.authorization).user)
  {
    resp := Apply(AuthGate(db.sesionesAdministradores, req.authorization), req);
  }

  /** VerifyClienteAuth::handle. */
  method HandleClienteAuth(db: Database, req: Request) returns (resp: Option<Response>)
    modifies req
    ensures resp.None? <==> TokenGiven(req.authorization) && Registered(db.sesionesClientes, req.authorization.value)
    ensures resp.Some? ==> resp == Some(AuthGate(db.sesionesClientes, req.authorization).response) && req.user == old(req.user)
    ensures resp.None? ==> req.user == Some(AuthGate(db.sesionesClientes, req.authorization).user)
  {
    resp := Apply(AuthGate(db.sesionesClientes, req.authorization), req);
  }

  /** VerifyAdministradorGuest::handle; the request is never modified. */
  function HandleAdministradorGuest(db: Database, req: Request): (r: Option<Response>)
    reads db
    ensures r.Some? <==> TokenGiven(req.authorization) && Registered(db.sesionesAdministradores, req.authorization.value)
    ensures r.Some? ==> r.value.status == 400
  {
    GuestGate(db.sesionesAdministradores, req.authorization)
  }

  /** VerifyClienteGuest::handle; the request is never modified. */
  function HandleClienteGuest(db: Database, req: Request): (r: Option<Response>)
    reads db
    ensures r.Some? <==> TokenGiven(req.authorization) && Registered(db.sesionesClientes, req.authorization.value)
    ensures r.Some? ==> r.value.status == 400
  {
    GuestGate(db.sesionesClientes, req.authorization)
  }

  /** An administrator logs in (a session with `token`), then logs out (the logout action
      deletes the header's token), and then presents the same token: the Auth middleware
      let the first request through and rejects the last one with 401. */
  method AdministradorLogoutThenAuth(db: Database, administradorId: Id, token: string, req: Request)
    returns (before: Option<Response>, after: Option<Response>)
    requires db.Valid() && req.authorization == Some(token) && TokenGiven(req.authorization)
    modifies db, req
    ensures db.Valid()
    ensures before.None?
    ensures after == Some(Response(401, Note("Token inválido o expirado")))
  {
    var row := SesionAdministradorRepository.CreateSesion(db, administradorId, token);
    before := HandleAdministradorAuth(db, req);
    var deleted := SesionAdministradorRepository.DeleteSesionByToken(db, token);
    after := HandleAdministradorAuth(db, req);
  }

  /** The same for a client. */
  method ClienteLogoutThenAuth(db: Database, clienteId: Id, token: string, req: Request)
    returns (before: Option<Response>, after: Option<Response>)
    requires db.Valid() && req.authorization == Some(token) && TokenGiven(req.authorization)
    modifies db, req
    ensures db.Valid()
    ensures before.None?
    ensures after == Some(Response(401, Note("Token inválido o expirado")))
  {
    var row := SesionClienteRepository.CreateSesion(db, clienteId, token);
    before := HandleClienteAuth(db, req);
    var deleted := SesionClienteRepository.DeleteSesionByToken(db, token);
    after := HandleClienteAuth(db, req);
  }
}
