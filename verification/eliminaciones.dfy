/** The bulk deletion routes for users and places. For each selected id the
    route skips rows that are absent or protected; an `admin_maestro`
    session deletes the row at once and records it, any other admin files
    a pending approval request instead. Everything happens on one
    connection, committed once at the end. */
module Eliminaciones {
  import opened Values
  import opened Text
  import opened Seguridad
  import opened Tablas
  import opened Auditoria
  import opened Aprobaciones
  import opened App

  /** The tables the two routes read and write. */
  datatype Estado = Estado(usuarios: map<int, Fila>, lugares: map<int, Fila>,
                           solicitudes: map<int, Solicitud>, ultima: int,
                           auditoria: seq<EntradaAuditoria>)

  /** What the request supplies besides the selected ids: the session, the
      `justificacion` form field (empty when absent), the client address,
      the clock and the hash primitive behind the audit checksum. */
  datatype Contexto = Contexto(sesion: Sesion, justificacion: string, ip: Option<string>,
                               ahora: int, sha: Registro -> Digest)

  function EstadoDe(db: Db): Estado
    reads db
  {
    Estado(db.usuarios, db.lugares, db.solicitudes, db.ultimaSolicitud, db.auditoria)
  }

  /** The session role as the text `es_admin_maestro` compares. */
  function RolTexto(rol: Value): (o: Option<string>)
    ensures o.Some? <==> rol.Str?
    ensures o.Some? ==> o.value == rol.s
  {
    if rol.Str? then Some(rol.s) else None
  }

  /** The route guard: only `admin` and `admin_maestro` sessions get past it. */
  predicate Autorizado(rol: Value)
  {
    rol == Str(ADMIN) || rol == Str(ADMIN_MAESTRO)
  }

  predicate Maestra(c: Contexto)
  {
    EsAdminMaestro(RolTexto(c.sesion.rol))
  }

  // ---------------------------------------------------------------------
  // eliminar_usuarios
  // ---------------------------------------------------------------------

  /** `SELECT COUNT(*) FROM usuarios WHERE rol IN ('admin', 'admin_maestro')`. */
  function Administradores(usuarios: map<int, Fila>): set<int>
  {
    set id | id in usuarios && (Get(usuarios[id], "rol") == Str(ADMIN) || Get(usuarios[id], "rol") == Str(ADMIN_MAESTRO))
  }

  /** A template user or an `admin_maestro`: never deleted by this route. */
  predicate UsuarioProtegido(f: Fila)
  {
    Truthy(Get(f, "es_plantilla")) || Get(f, "rol") == Str(ADMIN_MAESTRO)
  }

  /** The row is skipped: protected, or the only administrator left. */
  predicate UsuarioOmitido(usuarios: map<int, Fila>, f: Fila)
  {
    UsuarioProtegido(f) || (Get(f, "rol") == Str(ADMIN) && |Administradores(usuarios)| <= 1)
  }

  function EventoUsuarioEliminado(c: Contexto, uid: string, f: Fila): Evento
  {
    Evento(c.sesion.userId, c.sesion.nombre, c.sesion.rol, "usuario_eliminado", "usuarios", "exito",
           Some("Usuario " + PyStr(Get(f, "nombre")) + " eliminado por Admin Maestro"),
           Some("usuario"), Some(uid), Some([("nombre", Get(f, "nombre")), ("rol", Get(f, "rol"))]),
           None, c.ip, None)
  }

  function EventoSolicitudUsuario(c: Contexto, sid: string, f: Fila): Evento
  {
    Evento(c.sesion.userId, c.sesion.nombre, c.sesion.rol, "solicitud_eliminacion_usuario", "usuarios",
           "pendiente", Some("Solicitud para eliminar usuario " + PyStr(Get(f, "nombre"))),
           Some("solicitud"), Some(sid), None, None, c.ip, None)
  }

  /** The request an admin files for a user: the snapshot holds the name,
      the role and the masked national id. */
  function OriginalesUsuario(f: Fila): Registro
  {
    var rut := Get(f, "rut");
    [("nombre", Get(f, "nombre")), ("rol", Get(f, "rol")),
     ("rut_masked", Str(EnmascararRut(if rut.Str? then rut.s else "")))]
  }

  function SolicitudUsuario(c: Contexto, uid: string, f: Fila): (s: Solicitud)
    ensures s.estado == PENDIENTE && s.tipoAccion == ELIMINAR_USUARIO && s.entidadId == uid
    ensures s.solicitanteId == c.sesion.userId && EstadoCoherente(s)
  {
    NuevaSolicitud(ELIMINAR_USUARIO, "usuario", uid, c.sesion.userId, c.sesion.nombre, c.sesion.rol,
                   Some(OriginalesUsuario(f)), None, Some(c.justificacion), c.ahora)
  }

  /** An `admin_maestro` deletes the row and records it. */
  function BorradoUsuario(c: Contexto, e: Estado, uid: string, f: Fila): Estado
  {
    e.(usuarios := Borrar(e.usuarios, uid),
       auditoria := Registrar(e.auditoria, EventoUsuarioEliminado(c, uid, f), c.ahora, c.sha))
  }

  /** Any other administrator files a request and records it; a session
      missing a requester column makes the INSERT fail and nothing is filed. */
  function SolicitudBorradoUsuario(c: Contexto, e: Estado, uid: string, f: Fila): Estado
    requires e.ultima >= 0
  {
    if SolicitanteCompleto(c.sesion.userId, c.sesion.nombre, c.sesion.rol) then
      var ins := Insertar(e.solicitudes, e.ultima, SolicitudUsuario(c, uid, f));
      e.(solicitudes := ins.0, ultima := ins.1,
         auditoria := Registrar(e.auditoria, EventoSolicitudUsuario(c, NatToString(ins.1), f), c.ahora, c.sha))
    else e
  }

  /** One iteration of the loop of `eliminar_usuarios` over the id `uid`. */
  function PasoUsuario(c: Contexto, e: Estado, uid: string): Estado
    requires e.ultima >= 0
  {
    match FilaPorId(e.usuarios, uid)
    case None => e
    case Some(f) =>
      if UsuarioOmitido(e.usuarios, f) then e
      else if Maestra(c) then BorradoUsuario(c, e, uid, f)
      else SolicitudBorradoUsuario(c, e, uid, f)
  }

  /** The loop over the selected ids, in the order the form sent them. */
  function EliminacionUsuarios(c: Contexto, e: Estado, ids: seq<string>): (r: Estado)
    requires e.ultima >= 0
    ensures r.ultima >= e.ultima
    decreases |ids|
  {
    if ids == [] then e
    else PasoUsuario(c, EliminacionUsuarios(c, e, ids[..|ids| - 1]), ids[|ids| - 1])
  }

  /** One pass of the loop body on the database. */
  method EliminarUsuario(db: Db, c: Contexto, uid: string)
    requires db.Valid()
    modifies db`usuarios, db`solicitudes, db`ultimaSolicitud, db`auditoria
    ensures db.Valid()
    ensures EstadoDe(db) == PasoUsuario(c, old(EstadoDe(db)), uid)
  {
    var usuario := FilaPorId(db.usuarios, uid);
    if usuario.None? {
      return;
    }
    var f := usuario.value;
    if Truthy(Get(f, "es_plantilla")) {
      return;
    }
    if Get(f, "rol") == Str(ADMIN_MAESTRO) {
      return;
    }
    if Get(f, "rol") == Str(ADMIN) || Get(f, "rol") == Str(ADMIN_MAESTRO) {
      var totalAdmins := |Administradores(db.usuarios)|;
      if totalAdmins <= 1 {
        return;
      }
    }
    if EsAdminMaestro(RolTexto(c.sesion.rol)) {
      EjecutarBorradoUsuario(db, c, uid, f);
    } else {
      SolicitarBorradoUsuario(db, c, uid, f);
    }
  }

  method EjecutarBorradoUsuario(db: Db, c: Contexto, uid: string, f: Fila)
    modifies db`usuarios, db`auditoria
    ensures EstadoDe(db) == BorradoUsuario(c, old(EstadoDe(db)), uid, f)
  {
    db.usuarios := Borrar(db.usuarios, uid);
    RegistrarAuditoria(db, EventoUsuarioEliminado(c, uid, f), c.ahora, c.sha);
  }

  method SolicitarBorradoUsuario(db: Db, c: Contexto, uid: string, f: Fila)
    requires db.Valid()
    modifies db`solicitudes, db`ultimaSolicitud, db`auditoria
    ensures db.Valid()
    ensures EstadoDe(db) == SolicitudBorradoUsuario(c, old(EstadoDe(db)), uid, f)
  {
    var solicitudId := CrearSolicitud(db, ELIMINAR_USUARIO, "usuario", uid, c.sesion.userId,
                                      c.sesion.nombre, c.sesion.rol,
                                      Some(OriginalesUsuario(f)), None,
                                      Some(c.justificacion), c.ahora);
    if solicitudId.Some? {
      RegistrarAuditoria(db, EventoSolicitudUsuario(c, NatToString(solicitudId.value), f), c.ahora, c.sha);
    }
  }

  /** `eliminar_usuarios`: nothing happens unless an administrator selected
      at least one id; then each id is handled in turn. */
  method EliminarUsuarios(db: Db, c: Contexto, ids: seq<string>)
    requires db.Valid()
    modifies db`usuarios, db`solicitudes, db`ultimaSolicitud, db`auditoria
    ensures db.Valid()
    ensures EstadoDe(db) == if Autorizado(c.sesion.rol) && ids != [] then EliminacionUsuarios(c, old(EstadoDe(db)), ids)
                            else old(EstadoDe(db))
  {
    if !Autorizado(c.sesion.rol) || ids == [] {
      return;
    }
    ghost var e0 := EstadoDe(db);
    var i := 0;
    while i < |ids|
      invariant 0 <= i <= |ids|
      invariant db.Valid()
      invariant EstadoDe(db) == EliminacionUsuarios(c, e0, ids[..i])
    {
      EliminarUsuario(db, c, ids[i]);
      assert ids[..i + 1][..i] == ids[..i];
      i := i + 1;
    }
    assert ids[..|ids|] == ids;
  }
  // ---------------------------------------------------------------------
  // eliminar_lugares
  // ---------------------------------------------------------------------

  /** A template place: never deleted by this route. */
  predicate LugarProtegido(f: Fila)
  {
    Truthy(Get(f, "es_plantilla"))
  }

  function EventoLugarEliminado(c: Contexto, lid: string, f: Fila): Evento
  {
    Evento(c.sesion.userId, c.sesion.nombre, c.sesion.rol, "lugar_eliminado", "lugares", "exito",
           Some("Lugar " + PyStr(Get(f, "nombre_posta")) + " eliminado por Admin Maestro"),
           Some("lugar"), Some(lid), Some([("nombre", Get(f, "nombre_posta"))]),
           None, c.ip, None)
  }

  /** The snapshot an admin's request for a place holds: its name and address. */
  function OriginalesLugar(f: Fila): Registro
  {
    [("nombre", Get(f, "nombre_posta")), ("direccion", Get(f, "direccion"))]
  }

  function SolicitudLugar(c: Contexto, lid: string, f: Fila): (s: Solicitud)
    ensures s.estado == PENDIENTE && s.tipoAccion == ELIMINAR_LUGAR && s.entidadId == lid
    ensures s.solicitanteId == c.sesion.userId && EstadoCoherente(s)
  {
    NuevaSolicitud(ELIMINAR_LUGAR, "lugar", lid, c.sesion.userId, c.sesion.nombre, c.sesion.rol,
                   Some(OriginalesLugar(f)), None, Some(c.justificacion), c.ahora)
  }

  /** An `admin_maestro` deletes the place and records it. */
  function BorradoLugar(c: Contexto, e: Estado, lid: string, f: Fila): Estado
  {
    e.(lugares := Borrar(e.lugares, lid),
       auditoria := Registrar(e.auditoria, EventoLugarEliminado(c, lid, f), c.ahora, c.sha))
  }

  /** Any other administrator files a request; unlike the user route, this
      one writes no audit row for it. */
  function SolicitudBorradoLugar(c: Contexto, e: Estado, lid: string, f: Fila): Estado
    requires e.ultima >= 0
  {
    if SolicitanteCompleto(c.sesion.userId, c.sesion.nombre, c.sesion.rol) then
      var ins := Insertar(e.solicitudes, e.ultima, SolicitudLugar(c, lid, f));
      e.(solicitudes := ins.0, ultima := ins.1)
    else e
  }

  /** One iteration of the loop of `eliminar_lugares` over the id `lid`. */
  function PasoLugar(c: Contexto, e: Estado, lid: string): Estado
    requires e.ultima >= 0
  {
    match FilaPorId(e.lugares, lid)
    case None => e
    case Some(f) =>
      if LugarProtegido(f) then e
      else if Maestra(c) then BorradoLugar(c, e, lid, f)
      else SolicitudBorradoLugar(c, e, lid, f)
  }

  function EliminacionLugares(c: Contexto, e: Estado, ids: seq<string>): (r: Estado)
    requires e.ultima >= 0
    ensures r.ultima >= e.ultima
    decreases |ids|
  {
    if ids == [] then e
    else PasoLugar(c, EliminacionLugares(c, e, ids[..|ids| - 1]), ids[|ids| - 1])
  }

  method EliminarLugar(db: Db, c: Contexto, lid: string)
    requires db.Valid()
    modifies db`lugares, db`solicitudes, db`ultimaSolicitud, db`auditoria
    ensures db.Valid()
    ensures EstadoDe(db) == PasoLugar(c, old(EstadoDe(db)), lid)
  {
    var lugar := FilaPorId(db.lugares, lid);
    if lugar.None? {
      return;
    }
    var f := lugar.value;
    if Truthy(Get(f, "es_plantilla")) {
      return;
    }
    if EsAdminMaestro(RolTexto(c.sesion.rol)) {
      EjecutarBorradoLugar(db, c, lid, f);
    } else {
      var solicitudId := CrearSolicitud(db, ELIMINAR_LUGAR, "lugar", lid, c.sesion.userId,
                                        c.sesion.nombre, c.sesion.rol,
                                        Some(OriginalesLugar(f)), None,
                                        Some(c.justificacion), c.ahora);
    }
  }

  method EjecutarBorradoLugar(db: Db, c: Contexto, lid: string, f: Fila)
    modifies db`lugares, db`auditoria
    ensures EstadoDe(db) == BorradoLugar(c, old(EstadoDe(db)), lid, f)
  {
    db.lugares := Borrar(db.lugares, lid);
    RegistrarAuditoria(db, EventoLugarEliminado(c, lid, f), c.ahora, c.sha);
  }

  /** `eliminar_lugares`: nothing happens unless an administrator selected
      at least one id; then each id is handled in turn. */
  method EliminarLugares(db: Db, c: Contexto, ids: seq<string>)
    requires db.Valid()
    modifies db`lugares, db`solicitudes, db`ultimaSolicitud, db`auditoria
    ensures db.Valid()
    ensures EstadoDe(db) == if Autorizado(c.sesion.rol) && ids != [] then EliminacionLugares(c, old(EstadoDe(db)), ids)
                            else old(EstadoDe(db))
  {
    if !Autorizado(c.sesion.rol) || ids == [] {
      return;
    }
    ghost var e0 := EstadoDe(db);
    var i := 0;
    while i < |ids|
      invariant 0 <= i <= |ids|
      invariant db.Valid()
      invariant EstadoDe(db) == EliminacionLugares(c, e0, ids[..i])
    {
      EliminarLugar(db, c, ids[i]);
      assert ids[..i + 1][..i] == ids[..i];
      i := i + 1;
    }
    assert ids[..|ids|] == ids;
  }
  // ---------------------------------------------------------------------
  // What both routes guarantee
  // ---------------------------------------------------------------------

  /** The request table as AUTOINCREMENT keeps it: every id at most the last
      one handed out. */
  ghost predicate EstadoValido(e: Estado)
  {
    e.ultima >= 0 && forall k :: k in e.solicitudes ==> 1 <= k <= e.ultima
  }

  /** No row appears in `a` that `b` lacks, and the rows kept are unchanged. */
  ghost predicate SoloQuita(a: map<int, Fila>, b: map<int, Fila>)
  {
    forall k :: k in a ==> k in b && a[k] == b[k]
  }

  /** What a run of either route may do: users and places are only removed,
      requests are only added (each pending, with an id above every earlier
      one), and the audit trail only grows at its end. */
  ghost predicate Avance(e: Estado, r: Estado)
  {
    SoloQuita(r.usuarios, e.usuarios) && SoloQuita(r.lugares, e.lugares)
    && e.ultima <= r.ultima
    && (forall k :: k in e.solicitudes ==> k in r.solicitudes && r.solicitudes[k] == e.solicitudes[k])
    && (forall k :: k in r.solicitudes && k !in e.solicitudes ==> e.ultima < k <= r.ultima && r.solicitudes[k].estado == PENDIENTE)
    && e.auditoria <= r.auditoria
  }

  lemma AvanceTransitivo(a: Estado, b: Estado, c: Estado)
    requires Avance(a, b) && Avance(b, c)
    ensures Avance(a, c)
  {
  }

  lemma BorradoUsuarioAvanza(c: Contexto, e: Estado, uid: string, f: Fila)
    requires EstadoValido(e)
    ensures Avance(e, BorradoUsuario(c, e, uid, f)) && EstadoValido(BorradoUsuario(c, e, uid, f))
  {
  }

  /** Filing one pending request under the next id is an advance. */
  lemma AvanceInsercion(e: Estado, r: Estado, s: Solicitud)
    requires EstadoValido(e) && s.estado == PENDIENTE
    requires r.usuarios == e.usuarios && r.lugares == e.lugares && e.auditoria <= r.auditoria
    requires r.ultima == e.ultima + 1 && r.solicitudes == e.solicitudes[e.ultima + 1 := s]
    ensures Avance(e, r) && EstadoValido(r)
  {
  }

  lemma SolicitudBorradoUsuarioAvanza(c: Contexto, e: Estado, uid: string, f: Fila)
    requires EstadoValido(e)
    ensures Avance(e, SolicitudBorradoUsuario(c, e, uid, f)) && EstadoValido(SolicitudBorradoUsuario(c, e, uid, f))
  {
    if SolicitanteCompleto(c.sesion.userId, c.sesion.nombre, c.sesion.rol) {
      AvanceInsercion(e, SolicitudBorradoUsuario(c, e, uid, f), SolicitudUsuario(c, uid, f));
    }
  }

  /** The request an administrator files for a user the loop does not skip. */
  lemma PasoUsuarioSolicita(c: Contexto, e: Estado, uid: string)
    requires e.ultima >= 0 && !Maestra(c) && UsuarioElegible(e.usuarios, uid)
    requires SolicitanteCompleto(c.sesion.userId, c.sesion.nombre, c.sesion.rol)
    ensures e.ultima + 1 in PasoUsuario(c, e, uid).solicitudes
    ensures PasoUsuario(c, e, uid).solicitudes[e.ultima + 1].tipoAccion == ELIMINAR_USUARIO
    ensures PasoUsuario(c, e, uid).solicitudes[e.ultima + 1].entidadId == uid
  {
    var f := FilaPorId(e.usuarios, uid).value;
    assert PasoUsuario(c, e, uid) == SolicitudBorradoUsuario(c, e, uid, f);
  }

  lemma PasoUsuarioAvanza(c: Contexto, e: Estado, uid: string)
    requires EstadoValido(e)
    ensures Avance(e, PasoUsuario(c, e, uid)) && EstadoValido(PasoUsuario(c, e, uid))
  {
    match FilaPorId(e.usuarios, uid)
    case None =>
    case Some(f) =>
      if !UsuarioOmitido(e.usuarios, f) {
        if Maestra(c) {
          BorradoUsuarioAvanza(c, e, uid, f);
        } else {
          SolicitudBorradoUsuarioAvanza(c, e, uid, f);
        }
      }
  }

  lemma PasoLugarAvanza(c: Contexto, e: Estado, lid: string)
    requires EstadoValido(e)
    ensures Avance(e, PasoLugar(c, e, lid)) && EstadoValido(PasoLugar(c, e, lid))
  {
    match FilaPorId(e.lugares, lid)
    case None =>
    case Some(f) =>
      if !LugarProtegido(f) && !Maestra(c)
         && SolicitanteCompleto(c.sesion.userId, c.sesion.nombre, c.sesion.rol) {
        AvanceInsercion(e, PasoLugar(c, e, lid), SolicitudLugar(c, lid, f));
      }
  }

  /** `eliminar_usuarios` only removes users, only adds pending requests and
      only appends to the audit trail; it leaves the places alone. */
  lemma {:induction false} EliminacionUsuariosAvanza(c: Contexto, e: Estado, ids: seq<string>)
    requires EstadoValido(e)
    ensures Avance(e, EliminacionUsuarios(c, e, ids)) && EstadoValido(EliminacionUsuarios(c, e, ids))
    ensures EliminacionUsuarios(c, e, ids).lugares == e.lugares
    decreases |ids|
  {
    if ids != [] {
      var p := EliminacionUsuarios(c, e, ids[..|ids| - 1]);
      EliminacionUsuariosAvanza(c, e, ids[..|ids| - 1]);
      PasoUsuarioAvanza(c, p, ids[|ids| - 1]);
      AvanceTransitivo(e, p, EliminacionUsuarios(c, e, ids));
    }
  }

  /** `eliminar_lugares` only removes places, only adds pending requests and
      only appends to the audit trail; it leaves the users alone. */
  lemma {:induction false} EliminacionLugaresAvanza(c: Contexto, e: Estado, ids: seq<string>)
    requires EstadoValido(e)
    ensures Avance(e, EliminacionLugares(c, e, ids)) && EstadoValido(EliminacionLugares(c, e, ids))
    ensures EliminacionLugares(c, e, ids).usuarios == e.usuarios
    decreases |ids|
  {
    if ids != [] {
      var p := EliminacionLugares(c, e, ids[..|ids| - 1]);
      EliminacionLugaresAvanza(c, e, ids[..|ids| - 1]);
      PasoLugarAvanza(c, p, ids[|ids| - 1]);
      AvanceTransitivo(e, p, EliminacionLugares(c, e, ids));
    }
  }

  /** An `admin_maestro` deletes and files no request; any other
      administrator files requests and deletes nothing. */
  lemma {:induction false} EliminacionUsuariosReparto(c: Contexto, e: Estado, ids: seq<string>)
    requires e.ultima >= 0
    ensures Maestra(c) ==> EliminacionUsuarios(c, e, ids).solicitudes == e.solicitudes
                           && EliminacionUsuarios(c, e, ids).ultima == e.ultima
    ensures !Maestra(c) ==> EliminacionUsuarios(c, e, ids).usuarios == e.usuarios
    decreases |ids|
  {
    if ids != [] {
      EliminacionUsuariosReparto(c, e, ids[..|ids| - 1]);
    }
  }

  /** The same split for places; a request for a place leaves no audit row. */
  lemma {:induction false} EliminacionLugaresReparto(c: Contexto, e: Estado, ids: seq<string>)
    requires e.ultima >= 0
    ensures Maestra(c) ==> EliminacionLugares(c, e, ids).solicitudes == e.solicitudes
                           && EliminacionLugares(c, e, ids).ultima == e.ultima
    ensures !Maestra(c) ==> EliminacionLugares(c, e, ids).lugares == e.lugares
                            && EliminacionLugares(c, e, ids).auditoria == e.auditoria
    decreases |ids|
  {
    if ids != [] {
      EliminacionLugaresReparto(c, e, ids[..|ids| - 1]);
    }
  }

  /** Template users and `admin_maestro` users survive, unchanged. */
  lemma {:induction false} UsuariosProtegidosSobreviven(c: Contexto, e: Estado, ids: seq<string>)
    requires e.ultima >= 0
    ensures forall k :: k in e.usuarios && UsuarioProtegido(e.usuarios[k]) ==>
              k in EliminacionUsuarios(c, e, ids).usuarios
              && EliminacionUsuarios(c, e, ids).usuarios[k] == e.usuarios[k]
    decreases |ids|
  {
    if ids != [] {
      UsuariosProtegidosSobreviven(c, e, ids[..|ids| - 1]);
    }
  }

  /** Template places survive, unchanged. */
  lemma {:induction false} LugaresPlantillaSobreviven(c: Contexto, e: Estado, ids: seq<string>)
    requires e.ultima >= 0
    ensures forall k :: k in e.lugares && LugarProtegido(e.lugares[k]) ==>
              k in EliminacionLugares(c, e, ids).lugares
              && EliminacionLugares(c, e, ids).lugares[k] == e.lugares[k]
    decreases |ids|
  {
    if ids != [] {
      LugaresPlantillaSobreviven(c, e, ids[..|ids| - 1]);
    }
  }

  /** Deleting one user who is not the only administrator leaves one. */
  lemma BorrarAdministrador(usuarios: map<int, Fila>, uid: string)
    requires FilaPorId(usuarios, uid).Some?
    requires !UsuarioOmitido(usuarios, FilaPorId(usuarios, uid).value)
    ensures Administradores(usuarios) != {} ==> Administradores(Borrar(usuarios, uid)) != {}
  {
    var k := TextoAId(uid).value;
    assert Borrar(usuarios, uid) == usuarios - {k};
    assert Administradores(usuarios - {k}) == Administradores(usuarios) - {k};
    if k in Administradores(usuarios) {
      assert |Administradores(usuarios)| > 1;
      assert |Administradores(usuarios) - {k}| == |Administradores(usuarios)| - 1;
    }
  }

  /** One iteration never removes the last administrator. */
  lemma PasoUsuarioAdministradores(c: Contexto, e: Estado, uid: string)
    requires e.ultima >= 0
    ensures Administradores(e.usuarios) != {} ==> Administradores(PasoUsuario(c, e, uid).usuarios) != {}
  {
    match FilaPorId(e.usuarios, uid)
    case None =>
    case Some(f) =>
      if !UsuarioOmitido(e.usuarios, f) && Maestra(c) {
        BorrarAdministrador(e.usuarios, uid);
      }
  }

  /** If there is an administrator before `eliminar_usuarios`, there is one
      after it. */
  lemma {:induction false} QuedaUnAdministrador(c: Contexto, e: Estado, ids: seq<string>)
    requires e.ultima >= 0
    ensures Administradores(e.usuarios) != {} ==> Administradores(EliminacionUsuarios(c, e, ids).usuarios) != {}
    decreases |ids|
  {
    if ids != [] {
      QuedaUnAdministrador(c, e, ids[..|ids| - 1]);
      PasoUsuarioAdministradores(c, EliminacionUsuarios(c, e, ids[..|ids| - 1]), ids[|ids| - 1]);
    }
  }

  /** One iteration of `eliminar_usuarios` keeps an intact trail intact. */
  lemma PasoUsuarioIntegra(c: Contexto, e: Estado, uid: string)
    requires e.ultima >= 0
    ensures BitacoraIntegra(e.auditoria, c.sha) ==> BitacoraIntegra(PasoUsuario(c, e, uid).auditoria, c.sha)
  {
    match FilaPorId(e.usuarios, uid)
    case None =>
    case Some(f) =>
      if !UsuarioOmitido(e.usuarios, f) {
        if Maestra(c) {
          RegistrarIntegra(e.auditoria, EventoUsuarioEliminado(c, uid, f), c.ahora, c.sha);
        } else if SolicitanteCompleto(c.sesion.userId, c.sesion.nombre, c.sesion.rol) {
          RegistrarIntegra(e.auditoria, EventoSolicitudUsuario(c, NatToString(e.ultima + 1), f), c.ahora, c.sha);
        }
      }
  }

  /** Both routes keep an intact audit trail intact. */
  lemma {:induction false} EliminacionUsuariosIntegra(c: Contexto, e: Estado, ids: seq<string>)
    requires e.ultima >= 0
    ensures BitacoraIntegra(e.auditoria, c.sha) ==> BitacoraIntegra(EliminacionUsuarios(c, e, ids).auditoria, c.sha)
    decreases |ids|
  {
    if ids != [] {
      EliminacionUsuariosIntegra(c, e, ids[..|ids| - 1]);
      PasoUsuarioIntegra(c, EliminacionUsuarios(c, e, ids[..|ids| - 1]), ids[|ids| - 1]);
    }
  }

  lemma {:induction false} EliminacionLugaresIntegra(c: Contexto, e: Estado, ids: seq<string>)
    requires e.ultima >= 0
    ensures BitacoraIntegra(e.auditoria, c.sha) ==> BitacoraIntegra(EliminacionLugares(c, e, ids).auditoria, c.sha)
    decreases |ids|
  {
    if ids != [] {
      var p := EliminacionLugares(c, e, ids[..|ids| - 1]);
      var lid := ids[|ids| - 1];
      EliminacionLugaresIntegra(c, e, ids[..|ids| - 1]);
      match FilaPorId(p.lugares, lid)
      case None =>
      case Some(f) =>
        RegistrarIntegra(p.auditoria, EventoLugarEliminado(c, lid, f), c.ahora, c.sha);
    }
  }
  /** A user an `admin_maestro` always deletes: present, not protected and
      not an `admin` (whose deletion depends on how many remain). */
  predicate UsuarioBorrable(usuarios: map<int, Fila>, uid: string)
  {
    FilaPorId(usuarios, uid).Some? && !UsuarioProtegido(FilaPorId(usuarios, uid).value)
    && Get(FilaPorId(usuarios, uid).value, "rol") != Str(ADMIN)
  }

  /** A user the loop does not skip. */
  predicate UsuarioElegible(usuarios: map<int, Fila>, uid: string)
  {
    FilaPorId(usuarios, uid).Some? && !UsuarioOmitido(usuarios, FilaPorId(usuarios, uid).value)
  }

  /** A place the loop does not skip: present and not a template. */
  predicate LugarBorrable(lugares: map<int, Fila>, lid: string)
  {
    FilaPorId(lugares, lid).Some? && !LugarProtegido(FilaPorId(lugares, lid).value)
  }

  /** Between `e` and `r` a request of kind `tipo` about `id` was filed. */
  ghost predicate Solicitada(e: Estado, r: Estado, tipo: string, id: string)
  {
    exists k :: k in r.solicitudes && k !in e.solicitudes
                && r.solicitudes[k].tipoAccion == tipo && r.solicitudes[k].entidadId == id
  }

  /** An element of a non-empty sequence that is not in its prefix without
      the last element is that last element. */
  lemma UltimoFueraDelPrefijo(ids: seq<string>, x: string)
    requires x in ids && x !in ids[..|ids| - 1]
    ensures x == ids[|ids| - 1]
  {
    var j :| 0 <= j < |ids| && ids[j] == x;
    if j < |ids| - 1 {
      assert false;
    }
  }

  /** An `admin_maestro` run leaves no selected deletable user behind. */
  lemma {:induction false} MaestraBorraUsuarios(c: Contexto, e: Estado, ids: seq<string>)
    requires EstadoValido(e) && Maestra(c)
    ensures forall uid :: uid in ids && UsuarioBorrable(e.usuarios, uid) ==>
              FilaPorId(EliminacionUsuarios(c, e, ids).usuarios, uid).None?
    decreases |ids|
  {
    if ids != [] {
      var pre := ids[..|ids| - 1];
      var p := EliminacionUsuarios(c, e, pre);
      MaestraBorraUsuarios(c, e, pre);
      EliminacionUsuariosAvanza(c, e, pre);
      PasoUsuarioAvanza(c, p, ids[|ids| - 1]);
      forall uid | uid in ids && UsuarioBorrable(e.usuarios, uid)
        ensures FilaPorId(EliminacionUsuarios(c, e, ids).usuarios, uid).None?
      {
        if uid !in pre {
          UltimoFueraDelPrefijo(ids, uid);
        }
      }
    }
  }

  /** An `admin_maestro` run leaves no selected non-template place behind. */
  lemma {:induction false} MaestraBorraLugares(c: Contexto, e: Estado, ids: seq<string>)
    requires EstadoValido(e) && Maestra(c)
    ensures forall lid :: lid in ids && LugarBorrable(e.lugares, lid) ==>
              FilaPorId(EliminacionLugares(c, e, ids).lugares, lid).None?
    decreases |ids|
  {
    if ids != [] {
      var pre := ids[..|ids| - 1];
      var p := EliminacionLugares(c, e, pre);
      MaestraBorraLugares(c, e, pre);
      EliminacionLugaresAvanza(c, e, pre);
      PasoLugarAvanza(c, p, ids[|ids| - 1]);
      forall lid | lid in ids && LugarBorrable(e.lugares, lid)
        ensures FilaPorId(EliminacionLugares(c, e, ids).lugares, lid).None?
      {
        if lid !in pre {
          UltimoFueraDelPrefijo(ids, lid);
        }
      }
    }
  }

  /** Any other administrator whose session names the requester files one
      request for every selected user the loop does not skip. */
  lemma {:induction false} AdminSolicitaUsuarios(c: Contexto, e: Estado, ids: seq<string>)
    requires EstadoValido(e) && !Maestra(c)
    requires SolicitanteCompleto(c.sesion.userId, c.sesion.nombre, c.sesion.rol)
    ensures forall uid :: uid in ids && UsuarioElegible(e.usuarios, uid) ==>
              Solicitada(e, EliminacionUsuarios(c, e, ids), ELIMINAR_USUARIO, uid)
    decreases |ids|
  {
    if ids != [] {
      var pre := ids[..|ids| - 1];
      var p := EliminacionUsuarios(c, e, pre);
      var r := EliminacionUsuarios(c, e, ids);
      AdminSolicitaUsuarios(c, e, pre);
      EliminacionUsuariosAvanza(c, e, pre);
      EliminacionUsuariosReparto(c, e, pre);
      PasoUsuarioAvanza(c, p, ids[|ids| - 1]);
      forall uid | uid in ids && UsuarioElegible(e.usuarios, uid)
        ensures Solicitada(e, r, ELIMINAR_USUARIO, uid)
      {
        if uid in pre {
          var k :| k in p.solicitudes && k !in e.solicitudes
                   && p.solicitudes[k].tipoAccion == ELIMINAR_USUARIO && p.solicitudes[k].entidadId == uid;
          assert r.solicitudes[k] == p.solicitudes[k];
        } else {
          UltimoFueraDelPrefijo(ids, uid);
          PasoUsuarioSolicita(c, p, uid);
          assert p.ultima + 1 !in e.solicitudes;
        }
      }
    }
  }

  /** Any other administrator whose session names the requester files one
      request for every selected non-template place. */
  lemma {:induction false} AdminSolicitaLugares(c: Contexto, e: Estado, ids: seq<string>)
    requires EstadoValido(e) && !Maestra(c)
    requires SolicitanteCompleto(c.sesion.userId, c.sesion.nombre, c.sesion.rol)
    ensures forall lid :: lid in ids && LugarBorrable(e.lugares, lid) ==>
              Solicitada(e, EliminacionLugares(c, e, ids), ELIMINAR_LUGAR, lid)
    decreases |ids|
  {
    if ids != [] {
      var pre := ids[..|ids| - 1];
      var p := EliminacionLugares(c, e, pre);
      var r := EliminacionLugares(c, e, ids);
      AdminSolicitaLugares(c, e, pre);
      EliminacionLugaresAvanza(c, e, pre);
      EliminacionLugaresReparto(c, e, pre);
      PasoLugarAvanza(c, p, ids[|ids| - 1]);
      forall lid | lid in ids && LugarBorrable(e.lugares, lid)
        ensures Solicitada(e, r, ELIMINAR_LUGAR, lid)
      {
        if lid in pre {
          var k :| k in p.solicitudes && k !in e.solicitudes
                   && p.solicitudes[k].tipoAccion == ELIMINAR_LUGAR && p.solicitudes[k].entidadId == lid;
          assert r.solicitudes[k] == p.solicitudes[k];
        } else {
          UltimoFueraDelPrefijo(ids, lid);
          var k := p.ultima + 1;
          assert k in r.solicitudes && k !in e.solicitudes;
          assert r.solicitudes[k].tipoAccion == ELIMINAR_LUGAR && r.solicitudes[k].entidadId == lid;
        }
      }
    }
  }
}
