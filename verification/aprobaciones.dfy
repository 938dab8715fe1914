/** The approval workflow: sensitive actions requested by an `admin` are
    stored as requests that only the `admin_maestro` resolves. A request goes
    from `pendiente` to `aprobada` (its action ran and succeeded) or to
    `rechazada`, at most once. */
module Aprobaciones {
  import opened Values
  import opened Text
  import opened Listas
  import opened Tablas

  // ---------------------------------------------------------------------
  // The catalogue of sensitive actions and the role gate
  // ---------------------------------------------------------------------

  datatype InfoAccion = InfoAccion(descripcion: string, categoria: string, nivelRiesgo: string)

  const ELIMINAR_USUARIO := "eliminar_usuario"
  const ELIMINAR_LUGAR := "eliminar_lugar"
  const ELIMINAR_RESPALDO := "eliminar_respaldo"
  const MODIFICAR_USUARIO := "modificar_usuario"
  const MODIFICAR_LUGAR := "modificar_lugar"
  const EXPORTAR_HISTORIAL := "exportar_historial"

  /** `ACCIONES_REQUIEREN_APROBACION`. */
  const ACCIONES: map<string, InfoAccion> := map[
    ELIMINAR_USUARIO := InfoAccion("Eliminar usuario", "usuarios", "alto"),
    ELIMINAR_LUGAR := InfoAccion("Eliminar posta/lugar", "lugares", "alto"),
    ELIMINAR_RESPALDO := InfoAccion("Eliminar respaldo", "respaldos", "alto"),
    MODIFICAR_USUARIO := InfoAccion("Modificar datos de usuario", "usuarios", "medio"),
    MODIFICAR_LUGAR := InfoAccion("Modificar datos de posta", "lugares", "medio"),
    EXPORTAR_HISTORIAL := InfoAccion("Exportar historial clinico", "historial", "alto")
  ]

  /** `requiere_aprobacion`: never for the master admin; for an admin exactly
      the catalogued actions; for every other role (or none) always. */
  function RequiereAprobacion(rol: Option<string>, tipoAccion: string): (b: bool)
    ensures rol == Some(ADMIN_MAESTRO) ==> !b
    ensures rol == Some(ADMIN) ==> (b <==> tipoAccion in ACCIONES)
    ensures rol != Some(ADMIN_MAESTRO) && rol != Some(ADMIN) ==> b
  {
    if rol == Some(ADMIN_MAESTRO) then false
    else if rol == Some(ADMIN) then tipoAccion in ACCIONES
    else true
  }

  /** `es_admin_maestro`. */
  function EsAdminMaestro(rol: Option<string>): (b: bool)
    ensures b <==> rol == Some(ADMIN_MAESTRO)
  {
    rol == Some(ADMIN_MAESTRO)
  }

  /** `puede_aprobar`. */
  function PuedeAprobar(rol: Option<string>): (b: bool)
    ensures b <==> rol == Some(ADMIN_MAESTRO)
  {
    rol == Some(ADMIN_MAESTRO)
  }

  /** An admin needs approval for exactly the six catalogued actions, and the
      only role that may approve is the only one that never needs approval. */
  lemma PuertaDeRoles(rol: Option<string>, tipoAccion: string)
    ensures RequiereAprobacion(Some(ADMIN), tipoAccion) <==>
              tipoAccion in {"eliminar_usuario", "eliminar_lugar", "eliminar_respaldo",
                             "modificar_usuario", "modificar_lugar", "exportar_historial"}
    ensures PuedeAprobar(rol) <==> (forall t :: !RequiereAprobacion(rol, t))
    ensures PuedeAprobar(rol) == EsAdminMaestro(rol)
  {
    if !PuedeAprobar(rol) {
      if rol == Some(ADMIN) {
        assert RequiereAprobacion(rol, ELIMINAR_USUARIO);
      } else {
        assert RequiereAprobacion(rol, "");
      }
    }
  }

  /** `obtener_descripcion_accion`: the catalogue's description, or the kind itself. */
  function ObtenerDescripcionAccion(tipoAccion: string): (d: string)
    ensures tipoAccion in ACCIONES ==> d == ACCIONES[tipoAccion].descripcion
    ensures tipoAccion !in ACCIONES ==> d == tipoAccion
  {
    if tipoAccion in ACCIONES then ACCIONES[tipoAccion].descripcion else tipoAccion
  }

  lemma DescripcionesEjemplo()
    ensures ObtenerDescripcionAccion("eliminar_lugar") == "Eliminar posta/lugar"
    ensures ObtenerDescripcionAccion("reiniciar") == "reiniciar"
  {
  }

  // ---------------------------------------------------------------------
  // Creating requests
  // ---------------------------------------------------------------------

  /** `json.dumps(d) if d else None`: an absent or empty snapshot is stored as NULL. */
  function Instantanea(d: Option<Registro>): (r: Option<Registro>)
    ensures r.Some? <==> d.Some? && d.value != []
    ensures r.Some? ==> r.value == d.value
  {
    if d.Some? && d.value != [] then d else None
  }

  /** The INSERT satisfies the NOT NULL columns of the requester. */
  predicate SolicitanteCompleto(solicitanteId: Value, solicitanteNombre: Value, solicitanteRol: Value)
  {
    solicitanteId != Null && solicitanteNombre != Null && solicitanteRol != Null
  }

  /** The row `crear_solicitud` inserts. */
  function NuevaSolicitud(tipoAccion: string, entidadTipo: string, entidadId: string,
                          solicitanteId: Value, solicitanteNombre: Value, solicitanteRol: Value,
                          datosOriginales: Option<Registro>, datosNuevos: Option<Registro>,
                          justificacion: Option<string>, ahora: int): (s: Solicitud)
    ensures s.estado == PENDIENTE && EstadoCoherente(s)
    ensures s.tipoAccion == tipoAccion && s.entidadTipo == entidadTipo && s.entidadId == entidadId
    ensures s.datosOriginales == Instantanea(datosOriginales) && s.datosNuevos == Instantanea(datosNuevos)
    ensures s.solicitanteId == solicitanteId && s.fechaSolicitud == ahora
    ensures s.aprobadorId == Null && s.aprobadorNombre == Null
  {
    Solicitud(tipoAccion, entidadTipo, entidadId,
              Instantanea(datosOriginales), Instantanea(datosNuevos),
              solicitanteId, solicitanteNombre, solicitanteRol, justificacion,
              PENDIENTE, Null, Null, ahora, None, None)
  }

  /** The request table after an INSERT: the new row under the next
      AUTOINCREMENT id, every existing row unchanged. */
  function Insertar(solicitudes: map<int, Solicitud>, ultima: int, s: Solicitud): (r: (map<int, Solicitud>, int))
    ensures r.1 == ultima + 1
    ensures r.0 == solicitudes[ultima + 1 := s]
  {
    (solicitudes[ultima + 1 := s], ultima + 1)
  }

  /** `crear_solicitud`: inserts one pending request and returns its id, or
      returns `None` (changing nothing) when a NOT NULL requester column
      would be NULL. */
  method CrearSolicitud(db: Db, tipoAccion: string, entidadTipo: string, entidadId: string,
                        solicitanteId: Value, solicitanteNombre: Value, solicitanteRol: Value,
                        datosOriginales: Option<Registro>, datosNuevos: Option<Registro>,
                        justificacion: Option<string>, ahora: int)
    returns (id: Option<int>)
    requires db.Valid()
    modifies db`solicitudes, db`ultimaSolicitud
    ensures db.Valid()
    ensures id.Some? <==> SolicitanteCompleto(solicitanteId, solicitanteNombre, solicitanteRol)
    ensures id.None? ==> db.solicitudes == old(db.solicitudes) && db.ultimaSolicitud == old(db.ultimaSolicitud)
    ensures id.Some? ==>
              id.value !in old(db.solicitudes) && id.value == db.ultimaSolicitud
              && (db.solicitudes, db.ultimaSolicitud)
                 == Insertar(old(db.solicitudes), old(db.ultimaSolicitud),
                             NuevaSolicitud(tipoAccion, entidadTipo, entidadId, solicitanteId,
                                            solicitanteNombre, solicitanteRol, datosOriginales,
                                            datosNuevos, justificacion, ahora))
  {
    if !SolicitanteCompleto(solicitanteId, solicitanteNombre, solicitanteRol) {
      return None;
    }
    var s := NuevaSolicitud(tipoAccion, entidadTipo, entidadId, solicitanteId, solicitanteNombre,
                            solicitanteRol, datosOriginales, datosNuevos, justificacion, ahora);
    var nuevoId := db.ultimaSolicitud + 1;
    db.solicitudes := db.solicitudes[nuevoId := s];
    db.ultimaSolicitud := nuevoId;
    id := Some(nuevoId);
  }

  // ---------------------------------------------------------------------
  // Listing and counting
  // ---------------------------------------------------------------------

  /** The rows with ids 1..n, in id order (the order of a table scan), each once. */
  function Enumerar(m: map<int, Solicitud>, n: int): (r: seq<(int, Solicitud)>)
    ensures forall i :: 0 <= i < |r| ==> 1 <= r[i].0 <= n && r[i].0 in m && r[i].1 == m[r[i].0]
    ensures forall i, j :: 0 <= i < j < |r| ==> r[i].0 < r[j].0
    ensures forall id :: 1 <= id <= n && id in m ==> (id, m[id]) in r
    decreases n
  {
    if n <= 0 then []
    else if n in m then
      var r := Enumerar(m, n - 1);
      IdsCrecientes(r, (n, m[n]));
      r + [(n, m[n])]
    else Enumerar(m, n - 1)
  }

  /** Appending a row whose id exceeds every id listed keeps the ids increasing. */
  lemma IdsCrecientes(r: seq<(int, Solicitud)>, x: (int, Solicitud))
    requires forall i, j :: 0 <= i < j < |r| ==> r[i].0 < r[j].0
    requires forall i :: 0 <= i < |r| ==> r[i].0 < x.0
    ensures forall i, j :: 0 <= i < j < |r + [x]| ==> (r + [x])[i].0 < (r + [x])[j].0
  {
  }

  function Filas(db: Db): seq<(int, Solicitud)>
    reads db
  {
    Enumerar(db.solicitudes, db.ultimaSolicitud)
  }

  function EsPendiente(x: (int, Solicitud)): bool { x.1.estado == PENDIENTE }

  function FechaSolicitud(x: (int, Solicitud)): int { x.1.fechaSolicitud }

  /** The ids of the pending requests. */
  function IdsPendientes(m: map<int, Solicitud>): set<int>
  {
    set id | id in m && m[id].estado == PENDIENTE
  }

  /** `contar_solicitudes_pendientes`: `COUNT(*)` over the pending rows. */
  function ContarSolicitudesPendientes(db: Db): (n: nat)
    reads db
    ensures db.Valid() ==> n == |IdsPendientes(db.solicitudes)|
  {
    CuentaFiltro(db.solicitudes, db.ultimaSolicitud, EsPendiente);
    CuentaValida(db.solicitudes, db.ultimaSolicitud);
    |Filter(Filas(db), EsPendiente)|
  }

  /** The ids of the rows with an id in 1..n that `p` accepts. */
  ghost function IdsQue(m: map<int, Solicitud>, n: int, p: ((int, Solicitud)) -> bool): set<int>
  {
    set id | id in m && 1 <= id <= n && p((id, m[id]))
  }

  lemma CuentaValida(m: map<int, Solicitud>, n: int)
    ensures (forall id :: id in m ==> 1 <= id <= n) ==> IdsPendientes(m) == IdsQue(m, n, EsPendiente)
  {
  }

  /** Filtering the table scan counts the ids the filter accepts. */
  lemma {:induction false} CuentaFiltro(m: map<int, Solicitud>, n: int, p: ((int, Solicitud)) -> bool)
    ensures |Filter(Enumerar(m, n), p)| == |IdsQue(m, n, p)|
    decreases n
  {
    if n > 0 {
      var cola := if n in m then [(n, m[n])] else [];
      FilterConcat(Enumerar(m, n - 1), cola, p);
      CuentaFiltro(m, n - 1, p);
      CuentaPaso(m, n, p);
    }
  }

  lemma CuentaPaso(m: map<int, Solicitud>, n: int, p: ((int, Solicitud)) -> bool)
    requires n >= 1
    ensures var cola := if n in m then [(n, m[n])] else [];
            |IdsQue(m, n, p)| == |IdsQue(m, n - 1, p)| + |Filter(cola, p)|
  {
    var s := IdsQue(m, n, p);
    var t := IdsQue(m, n - 1, p);
    if n in m && p((n, m[n])) {
      assert Filter([(n, m[n])], p) == [(n, m[n])];
      assert s == t + {n};
      assert n !in t;
    } else {
      assert s == t;
      if n in m {
        assert Filter([(n, m[n])], p) == [];
      }
    }
  }

  /** The default `limite` of `obtener_solicitudes_pendientes`. */
  const LIMITE_PENDIENTES := 50

  /** `obtener_solicitudes_pendientes`: pending requests only, newest
      `fecha_solicitud` first, as many as exist up to `limite`; a pending
      request is left out only when every returned one is at least as new. */
  function ObtenerSolicitudesPendientes(db: Db, limite: nat): (r: seq<(int, Solicitud)>)
    reads db
    ensures var n := ContarSolicitudesPendientes(db); |r| == if limite < n then limite else n
    ensures forall i :: 0 <= i < |r| ==>
              r[i].0 in db.solicitudes && r[i].1 == db.solicitudes[r[i].0] && r[i].1.estado == PENDIENTE
    ensures multiset(r) <= multiset(Filas(db))
    ensures SortedDesc(r, FechaSolicitud)
    ensures OmitidasNoMasNuevas(db.solicitudes, db.ultimaSolicitud, EsPendiente, r)
  {
    var m := db.solicitudes;
    var n := db.ultimaSolicitud;
    var r := SelectDesc(Enumerar(m, n), EsPendiente, FechaSolicitud, limite);
    Pendientes(m, n, limite, r);
    OmitidasMasAntiguas(m, n, EsPendiente, limite, r);
    r
  }

  lemma Pendientes(m: map<int, Solicitud>, n: int, limite: nat, r: seq<(int, Solicitud)>)
    requires r == SelectDesc(Enumerar(m, n), EsPendiente, FechaSolicitud, limite)
    ensures var k := |Filter(Enumerar(m, n), EsPendiente)|; |r| == if limite < k then limite else k
    ensures forall i :: 0 <= i < |r| ==> r[i].0 in m && r[i].1 == m[r[i].0] && r[i].1.estado == PENDIENTE
  {
    var s := Enumerar(m, n);
    forall i | 0 <= i < |r| ensures r[i].0 in m && r[i].1 == m[r[i].0] && r[i].1.estado == PENDIENTE {
      assert r[i] in s && EsPendiente(r[i]);
    }
  }

  /** Every row with an id in 1..n that `p` selects but `r` leaves out is no
      newer than any row of `r`. */
  ghost predicate OmitidasNoMasNuevas(m: map<int, Solicitud>, n: int, p: ((int, Solicitud)) -> bool,
                                      r: seq<(int, Solicitud)>)
  {
    forall id, y :: id in m && 1 <= id <= n && p((id, m[id])) && (id, m[id]) !in r && y in r
      ==> m[id].fechaSolicitud <= y.1.fechaSolicitud
  }

  /** A row of the table that the query matches but did not return is no
      newer than any row it returned. */
  lemma OmitidasMasAntiguas(m: map<int, Solicitud>, n: int, p: ((int, Solicitud)) -> bool, limite: nat,
                            r: seq<(int, Solicitud)>)
    requires r == SelectDesc(Enumerar(m, n), p, FechaSolicitud, limite)
    ensures OmitidasNoMasNuevas(m, n, p, r)
  {
    forall id, y | id in m && 1 <= id <= n && p((id, m[id])) && (id, m[id]) !in r && y in r
      ensures m[id].fechaSolicitud <= y.1.fechaSolicitud
    {
      Omitida(Enumerar(m, n), p, FechaSolicitud, limite, r, (id, m[id]), y);
    }
  }

  lemma Omitida<T(!new)>(s: seq<T>, p: T -> bool, key: T -> int, limite: nat, r: seq<T>, x: T, y: T)
    requires r == SelectDesc(s, p, key, limite)
    requires x in s && p(x) && x !in r && y in r
    ensures key(x) <= key(y)
  {
    SelectDescOmitidos(s, p, key, limite);
    assert multiset(r)[x] == 0 < multiset(s)[x];
  }

  /** The default `limite` of `obtener_solicitudes_usuario`. */
  const LIMITE_USUARIO := 20

  /** `WHERE solicitante_id = ?`: a NULL parameter matches no row. */
  function DeSolicitante(usuarioId: Value): ((int, Solicitud)) -> bool
  {
    (x: (int, Solicitud)) => usuarioId != Null && x.1.solicitanteId == usuarioId
  }

  /** `obtener_solicitudes_usuario`: that requester's requests in any state,
      each once, newest first, as many as exist up to `limite`. */
  function ObtenerSolicitudesUsuario(db: Db, usuarioId: Value, limite: nat): (r: seq<(int, Solicitud)>)
    reads db
    ensures var k := |IdsQue(db.solicitudes, db.ultimaSolicitud, DeSolicitante(usuarioId))|;
            |r| == if limite < k then limite else k
    ensures multiset(r) <= multiset(Filas(db))
    ensures usuarioId == Null ==> r == []
    ensures forall i :: 0 <= i < |r| ==>
              r[i].0 in db.solicitudes && r[i].1 == db.solicitudes[r[i].0] && r[i].1.solicitanteId == usuarioId
    ensures SortedDesc(r, FechaSolicitud)
    ensures OmitidasNoMasNuevas(db.solicitudes, db.ultimaSolicitud, DeSolicitante(usuarioId), r)
  {
    var m := db.solicitudes;
    var n := db.ultimaSolicitud;
    var r := SelectDesc(Enumerar(m, n), DeSolicitante(usuarioId), FechaSolicitud, limite);
    DelSolicitante(m, n, usuarioId, limite, r);
    OmitidasMasAntiguas(m, n, DeSolicitante(usuarioId), limite, r);
    r
  }

  lemma DelSolicitante(m: map<int, Solicitud>, n: int, usuarioId: Value, limite: nat, r: seq<(int, Solicitud)>)
    requires r == SelectDesc(Enumerar(m, n), DeSolicitante(usuarioId), FechaSolicitud, limite)
    ensures var k := |IdsQue(m, n, DeSolicitante(usuarioId))|; |r| == if limite < k then limite else k
    ensures usuarioId == Null ==> r == []
    ensures forall i :: 0 <= i < |r| ==> r[i].0 in m && r[i].1 == m[r[i].0] && r[i].1.solicitanteId == usuarioId
  {
    var p := DeSolicitante(usuarioId);
    var s := Enumerar(m, n);
    CuentaFiltro(m, n, p);
    forall i | 0 <= i < |r| ensures r[i].0 in m && r[i].1 == m[r[i].0] && r[i].1.solicitanteId == usuarioId {
      assert r[i] in s && p(r[i]);
    }
    if usuarioId == Null {
      assert forall x :: !p(x);
      NadaCoincide(s, p);
    }
  }

  lemma {:induction false} NadaCoincide<T(!new)>(s: seq<T>, p: T -> bool)
    ensures (forall x :: !p(x)) ==> Filter(s, p) == []
  {
    if s != [] {
      NadaCoincide(s[1..], p);
    }
  }

  /** As many pending requests are listed as are counted, when the limit allows. */
  lemma ListadoYCuenta(db: Db, limite: nat)
    requires db.Valid() && limite >= |IdsPendientes(db.solicitudes)|
    ensures |ObtenerSolicitudesPendientes(db, limite)| == |IdsPendientes(db.solicitudes)|
  {
    CuentaFiltro(db.solicitudes, db.ultimaSolicitud, EsPendiente);
    CuentaValida(db.solicitudes, db.ultimaSolicitud);
  }

  // ---------------------------------------------------------------------
  // Executing an approved action
  // ---------------------------------------------------------------------

  /** The parts of the database an approved action may change. */
  datatype Datos = Datos(usuarios: map<int, Fila>, lugares: map<int, Fila>, respaldos: set<string>)

  /** What `ejecutar_accion_aprobada` returns: an `(exito, mensaje)` pair, or
      nothing at all when an `eliminar_usuario` request names an entity that
      is not a `usuario` (every branch of that `if` is skipped). */
  datatype Efecto = Hecho(exito: bool, mensaje: string) | SinResultado

  /** `SELECT … WHERE id = ?` with a text id. */
  function FilaPorId(filas: map<int, Fila>, entidadId: string): (o: Option<Fila>)
    ensures o.Some? <==> TextoAId(entidadId).Some? && TextoAId(entidadId).value in filas
    ensures o.Some? ==> o.value == filas[TextoAId(entidadId).value]
  {
    match TextoAId(entidadId)
    case Some(id) => if id in filas then Some(filas[id]) else None
    case None => None
  }

  /** `DELETE … WHERE id = ?` with a text id: the named row goes, if there is one. */
  function Borrar(filas: map<int, Fila>, entidadId: string): (r: map<int, Fila>)
    ensures forall k :: k in r <==> k in filas && Some(k) != TextoAId(entidadId)
    ensures forall k :: k in r ==> r[k] == filas[k]
  {
    match TextoAId(entidadId)
    case Some(id) => filas - {id}
    case None => filas
  }

  /** The ids of the users whose `rol` is `admin_maestro`. */
  function Maestros(usuarios: map<int, Fila>): set<int>
  {
    set id | id in usuarios && Get(usuarios[id], "rol") == Str(ADMIN_MAESTRO)
  }

  /** The target is an `admin_maestro` and no other one exists. */
  predicate MaestroUnico(usuarios: map<int, Fila>, entidadId: string)
  {
    var f := FilaPorId(usuarios, entidadId);
    f.Some? && Get(f.value, "rol") == Str(ADMIN_MAESTRO) && |Maestros(usuarios)| <= 1
  }

  /** The target place exists and its `es_plantilla` is truthy. */
  predicate LugarPlantilla(lugares: map<int, Fila>, entidadId: string)
  {
    var f := FilaPorId(lugares, entidadId);
    f.Some? && Truthy(Get(f.value, "es_plantilla"))
  }

  /** The keys `modificar_usuario` and `modificar_lugar` refuse to write. */
  const EXCLUIDAS_USUARIO: seq<string> := ["id", "password_hash", "password"]
  const EXCLUIDAS_LUGAR: seq<string> := ["id"]

  /** How a `modificar_*` branch decides that a key of `datos_nuevos` may be
      written. `ComoEscrito` is the test as written: the key itself is
      compared with the excluded names. `PorColumna` is the corrected test:
      the key must spell a bare identifier and the column it names must not
      be excluded. */
  datatype Filtro = ComoEscrito | PorColumna

  function Permitido(f: Filtro, excluidas: seq<string>): ((string, Value)) -> bool
  {
    match f
    case ComoEscrito => (x: (string, Value)) => x.0 !in excluidas
    case PorColumna => (x: (string, Value)) => NombreSimple(ColumnaSql(x.0)) && ColumnaSql(x.0) !in excluidas
  }

  /** The fields of `datos_nuevos` that go into the SET list: exactly those
      the filter lets through. As written, no key spelled like an excluded
      name remains; corrected, every column the list writes is a bare,
      non-excluded name. */
  function CamposPermitidos(f: Filtro, datos: Registro, excluidas: seq<string>): (r: Registro)
    ensures forall i :: 0 <= i < |r| ==> r[i] in datos
    ensures forall x :: x in datos && Permitido(f, excluidas)(x) ==> x in r
    ensures f.ComoEscrito? ==> forall i :: 0 <= i < |r| ==> r[i].0 !in excluidas
    ensures f.PorColumna? ==> forall c :: c in Asignadas(Columnas(r)) ==> NombreSimple(c) && c !in excluidas
  {
    var r := Filter(datos, Permitido(f, excluidas));
    FilterMultiset(datos, Permitido(f, excluidas));
    assert forall x :: x in datos && Permitido(f, excluidas)(x) ==> multiset(r)[x] > 0;
    r
  }

  /** The outcome of a `modificar_*` action on one table. */
  datatype Cambio = SinDatos | Fallo(error: string) | Cambiado(filas: map<int, Fila>)

  /** `modificar_usuario` / `modificar_lugar` on the rows of table `t`: no
      permitted field means nothing to do; otherwise the UPDATE either fails
      or rewrites the target row. */
  function Modificacion(t: Tabla, filas: map<int, Fila>, s: Solicitud, excluidas: seq<string>, f: Filtro): (c: Cambio)
    ensures var campos := CamposPermitidos(f, if s.datosNuevos.Some? then s.datosNuevos.value else [], excluidas);
            && (c.SinDatos? <==> campos == [])
            && (c.Cambiado? ==> Actualizar(t, filas, s.entidadId, campos) == Ok(c.filas))
            && (c.Fallo? ==> Actualizar(t, filas, s.entidadId, campos) == Err(c.error))
  {
    var datos := if s.datosNuevos.Some? then s.datosNuevos.value else [];
    var campos := CamposPermitidos(f, datos, excluidas);
    if campos == [] then SinDatos
    else match Actualizar(t, filas, s.entidadId, campos)
      case Ok(f) => Cambiado(f)
      case Err(m) => Fallo(m)
  }

  /** `ejecutar_accion_aprobada` as a function of the tables it reads, with
      the exclusion test as written. */
  function Despachar(d: Datos, s: Solicitud): (r: (Datos, Efecto))
  {
    if s.tipoAccion == ELIMINAR_USUARIO then
      if s.entidadTipo != "usuario" then (d, SinResultado)
      else if MaestroUnico(d.usuarios, s.entidadId) then
        (d, Hecho(false, "No se puede eliminar al unico Admin Maestro"))
      else (d.(usuarios := Borrar(d.usuarios, s.entidadId)), Hecho(true, "Usuario eliminado exitosamente"))
    else if s.tipoAccion == ELIMINAR_LUGAR then
      if LugarPlantilla(d.lugares, s.entidadId) then (d, Hecho(false, "No se puede eliminar una posta plantilla"))
      else (d.(lugares := Borrar(d.lugares, s.entidadId)), Hecho(true, "Lugar eliminado exitosamente"))
    else if s.tipoAccion == ELIMINAR_RESPALDO then
      if s.entidadId in d.respaldos then
        (d.(respaldos := d.respaldos - {s.entidadId}), Hecho(true, "Respaldo " + s.entidadId + " eliminado"))
      else (d, Hecho(false, "Archivo de respaldo no encontrado"))
    else if s.tipoAccion == MODIFICAR_USUARIO then
      match Modificacion(USUARIOS, d.usuarios, s, EXCLUIDAS_USUARIO, ComoEscrito)
      case SinDatos => (d, Hecho(false, "No hay datos para modificar"))
      case Fallo(m) => (d, Hecho(false, "Error ejecutando accion: " + m))
      case Cambiado(f) => (d.(usuarios := f), Hecho(true, "Usuario modificado exitosamente"))
    else if s.tipoAccion == MODIFICAR_LUGAR then
      match Modificacion(LUGARES, d.lugares, s, EXCLUIDAS_LUGAR, ComoEscrito)
      case SinDatos => (d, Hecho(false, "No hay datos para modificar"))
      case Fallo(m) => (d, Hecho(false, "Error ejecutando accion: " + m))
      case Cambiado(f) => (d.(lugares := f), Hecho(true, "Lugar modificado exitosamente"))
    else (d, Hecho(false, "Tipo de accion no implementado: " + s.tipoAccion))
  }

  function DatosDe(db: Db): Datos
    reads db
  {
    Datos(db.usuarios, db.lugares, db.respaldos)
  }

  /** `ejecutar_accion_aprobada`: deletes or patches rows of `usuarios` or
      `lugares` or removes a backup file, as `Despachar` says. */
  method EjecutarAccionAprobada(db: Db, s: Solicitud) returns (r: Efecto)
    modifies db`usuarios, db`lugares, db`respaldos
    ensures (DatosDe(db), r) == Despachar(old(DatosDe(db)), s)
  {
    if s.tipoAccion == ELIMINAR_USUARIO {
      if s.entidadTipo != "usuario" {
        return SinResultado;
      }
      if MaestroUnico(db.usuarios, s.entidadId) {
        return Hecho(false, "No se puede eliminar al unico Admin Maestro");
      }
      db.usuarios := Borrar(db.usuarios, s.entidadId);
      return Hecho(true, "Usuario eliminado exitosamente");
    } else if s.tipoAccion == ELIMINAR_LUGAR {
      if LugarPlantilla(db.lugares, s.entidadId) {
        return Hecho(false, "No se puede eliminar una posta plantilla");
      }
      db.lugares := Borrar(db.lugares, s.entidadId);
      return Hecho(true, "Lugar eliminado exitosamente");
    } else if s.tipoAccion == ELIMINAR_RESPALDO {
      if s.entidadId in db.respaldos {
        db.respaldos := db.respaldos - {s.entidadId};
        return Hecho(true, "Respaldo " + s.entidadId + " eliminado");
      }
      return Hecho(false, "Archivo de respaldo no encontrado");
    } else if s.tipoAccion == MODIFICAR_USUARIO || s.tipoAccion == MODIFICAR_LUGAR {
      var usuario := s.tipoAccion == MODIFICAR_USUARIO;
      var t := if usuario then USUARIOS else LUGARES;
      var excluidas := if usuario then EXCLUIDAS_USUARIO else EXCLUIDAS_LUGAR;
      var datos := if s.datosNuevos.Some? then s.datosNuevos.value else [];
      var campos := SeleccionarCampos(datos, excluidas);
      if campos == [] {
        return Hecho(false, "No hay datos para modificar");
      }
      var filas := if usuario then db.usuarios else db.lugares;
      match Actualizar(t, filas, s.entidadId, campos)
      case Err(m) =>
        return Hecho(false, "Error ejecutando accion: " + m);
      case Ok(f) =>
        if usuario {
          db.usuarios := f;
          return Hecho(true, "Usuario modificado exitosamente");
        } else {
          db.lugares := f;
          return Hecho(true, "Lugar modificado exitosamente");
        }
    }
    return Hecho(false, "Tipo de accion no implementado: " + s.tipoAccion);
  }

  /** The loop over `datos_nuevos.items()` that collects the SET list,
      keeping each key that is not spelled like an excluded name. */
  method SeleccionarCampos(datos: Registro, excluidas: seq<string>) returns (campos: Registro)
    ensures campos == CamposPermitidos(ComoEscrito, datos, excluidas)
  {
    campos := [];
    var i := 0;
    while i < |datos|
      invariant 0 <= i <= |datos|
      invariant campos == Filter(datos[..i], Permitido(ComoEscrito, excluidas))
    {
      FilterConcat(datos[..i], [datos[i]], Permitido(ComoEscrito, excluidas));
      assert datos[..i + 1] == datos[..i] + [datos[i]];
      if datos[i].0 !in excluidas {
        campos := campos + [datos[i]];
      }
      i := i + 1;
    }
    assert datos[..i] == datos;
  }

  // ---------------------------------------------------------------------
  // What each action may and may not do
  // ---------------------------------------------------------------------

  /** A failing or missing outcome leaves every table as it was; only an
      `eliminar_usuario` request about something other than a `usuario`
      produces no outcome. */
  lemma FalloSinCambios(d: Datos, s: Solicitud)
    ensures var (d2, e) := Despachar(d, s);
            !(e.Hecho? && e.exito) ==> d2 == d
    ensures Despachar(d, s).1.SinResultado? <==> s.tipoAccion == ELIMINAR_USUARIO && s.entidadTipo != "usuario"
  {
  }

  /** `eliminar_usuario` touches only `usuarios`, removes at most the target
      row, reports success for an id that names no row, and never removes
      the last `admin_maestro`. */
  lemma EliminarUsuario(d: Datos, s: Solicitud)
    requires s.tipoAccion == ELIMINAR_USUARIO && s.entidadTipo == "usuario"
    ensures var (d2, e) := Despachar(d, s);
            && d2.lugares == d.lugares && d2.respaldos == d.respaldos
            && (e == Hecho(true, "Usuario eliminado exitosamente") <==> !MaestroUnico(d.usuarios, s.entidadId))
            && (e.exito ==> forall k :: k in d2.usuarios <==> k in d.usuarios && Some(k) != TextoAId(s.entidadId))
            && (FilaPorId(d.usuarios, s.entidadId).None? ==> e.exito && d2 == d)
            && (|Maestros(d.usuarios)| >= 1 ==> |Maestros(d2.usuarios)| >= 1)
  {
    var (d2, e) := Despachar(d, s);
    if e.exito && |Maestros(d.usuarios)| >= 1 {
      MaestrosTrasBorrar(d.usuarios, s.entidadId);
    }
    if FilaPorId(d.usuarios, s.entidadId).None? {
      assert d2.usuarios == d.usuarios;
    }
  }

  lemma MaestrosTrasBorrar(usuarios: map<int, Fila>, entidadId: string)
    requires !MaestroUnico(usuarios, entidadId) && |Maestros(usuarios)| >= 1
    ensures |Maestros(Borrar(usuarios, entidadId))| >= 1
  {
    var antes := Maestros(usuarios);
    var despues := Maestros(Borrar(usuarios, entidadId));
    match TextoAId(entidadId)
    case None =>
      assert despues == antes;
    case Some(id) =>
      assert despues == antes - {id};
      if id in antes {
        assert |antes| >= 2;
      } else {
        assert despues == antes;
      }
  }

  /** `eliminar_lugar` touches only `lugares`, and a template place is never
      removed. */
  lemma EliminarLugar(d: Datos, s: Solicitud)
    requires s.tipoAccion == ELIMINAR_LUGAR
    ensures var (d2, e) := Despachar(d, s);
            && d2.usuarios == d.usuarios && d2.respaldos == d.respaldos
            && e.Hecho? && (e.exito <==> !LugarPlantilla(d.lugares, s.entidadId))
            && (forall k :: k in d2.lugares ==> k in d.lugares && d2.lugares[k] == d.lugares[k])
            && (forall k :: k in d.lugares && Truthy(Get(d.lugares[k], "es_plantilla")) ==> k in d2.lugares)
  {
  }

  /** `eliminar_respaldo` succeeds exactly when the named file exists, and
      then removes that one name. */
  lemma EliminarRespaldo(d: Datos, s: Solicitud)
    requires s.tipoAccion == ELIMINAR_RESPALDO
    ensures var (d2, e) := Despachar(d, s);
            && d2.usuarios == d.usuarios && d2.lugares == d.lugares
            && e.Hecho? && (e.exito <==> s.entidadId in d.respaldos)
            && d2.respaldos == d.respaldos - {s.entidadId}
            && (!e.exito ==> e.mensaje == "Archivo de respaldo no encontrado")
  {
  }

  /** A `modificar_*` change keeps every row but the target, keeps the key
      set unless the `id` column is assigned, and then rewrites the target
      row with the SET list. */
  lemma CambioDeTabla(t: Tabla, filas: map<int, Fila>, s: Solicitud, excluidas: seq<string>, f: Filtro)
    ensures var c := Modificacion(t, filas, s, excluidas, f);
            var campos := CamposPermitidos(f, if s.datosNuevos.Some? then s.datosNuevos.value else [], excluidas);
            c.Cambiado? ==>
              && (forall k :: k in filas && Some(k) != TextoAId(s.entidadId) ==> k in c.filas && c.filas[k] == filas[k])
              && ("id" !in Asignadas(Columnas(campos)) ==> c.filas.Keys == filas.Keys)
              && ("id" !in Asignadas(Columnas(campos)) && TextoAId(s.entidadId).Some? && TextoAId(s.entidadId).value in filas ==>
                    c.filas[TextoAId(s.entidadId).value] == Aplicar(filas[TextoAId(s.entidadId).value], Columnas(campos)))
  {
    var c := Modificacion(t, filas, s, excluidas, f);
    var campos := CamposPermitidos(f, if s.datosNuevos.Some? then s.datosNuevos.value else [], excluidas);
    if c.Cambiado? {
      assert Actualizar(t, filas, s.entidadId, campos) == Ok(c.filas);
      if TextoAId(s.entidadId).Some? && TextoAId(s.entidadId).value in filas {
        assert c.filas == Reescribir(t, filas, TextoAId(s.entidadId).value, Columnas(campos)).value;
      }
    }
  }

  /** `modificar_usuario` as written touches only `usuarios`: it fails when
      no key survives the verbatim test; otherwise every row but the target
      stays, the key set stays unless the `id` column is assigned, and a
      successful UPDATE that keeps the key rewrites the target row with the
      SET list. */
  lemma ModificarUsuario(d: Datos, s: Solicitud)
    requires s.tipoAccion == MODIFICAR_USUARIO
    ensures var (d2, e) := Despachar(d, s);
            var campos := CamposPermitidos(ComoEscrito, if s.datosNuevos.Some? then s.datosNuevos.value else [], EXCLUIDAS_USUARIO);
            && d2.lugares == d.lugares && d2.respaldos == d.respaldos && e.Hecho?
            && (e == Hecho(false, "No hay datos para modificar") <==> campos == [])
            && (forall k :: k in d.usuarios && Some(k) != TextoAId(s.entidadId) ==> k in d2.usuarios && d2.usuarios[k] == d.usuarios[k])
            && ("id" !in Asignadas(Columnas(campos)) ==> d2.usuarios.Keys == d.usuarios.Keys)
            && (e.exito && "id" !in Asignadas(Columnas(campos)) && TextoAId(s.entidadId).Some? && TextoAId(s.entidadId).value in d.usuarios ==>
                  var id := TextoAId(s.entidadId).value;
                  d2.usuarios[id] == Aplicar(d.usuarios[id], Columnas(campos)))
  {
    CambioDeTabla(USUARIOS, d.usuarios, s, EXCLUIDAS_USUARIO, ComoEscrito);
    var (d2, e) := Despachar(d, s);
    match Modificacion(USUARIOS, d.usuarios, s, EXCLUIDAS_USUARIO, ComoEscrito)
    case SinDatos =>
      assert (d2, e) == (d, Hecho(false, "No hay datos para modificar"));
    case Fallo(m) =>
      assert (d2, e) == (d, Hecho(false, "Error ejecutando accion: " + m));
      assert e.mensaje[0] != "No hay datos para modificar"[0];
    case Cambiado(f) =>
      assert (d2, e) == (d.(usuarios := f), Hecho(true, "Usuario modificado exitosamente"));
  }

  /** `modificar_lugar` as written, in the same terms. */
  lemma ModificarLugar(d: Datos, s: Solicitud)
    requires s.tipoAccion == MODIFICAR_LUGAR
    ensures var (d2, e) := Despachar(d, s);
            var campos := CamposPermitidos(ComoEscrito, if s.datosNuevos.Some? then s.datosNuevos.value else [], EXCLUIDAS_LUGAR);
            && d2.usuarios == d.usuarios && d2.respaldos == d.respaldos && e.Hecho?
            && (e == Hecho(false, "No hay datos para modificar") <==> campos == [])
            && (forall k :: k in d.lugares && Some(k) != TextoAId(s.entidadId) ==> k in d2.lugares && d2.lugares[k] == d.lugares[k])
            && ("id" !in Asignadas(Columnas(campos)) ==> d2.lugares.Keys == d.lugares.Keys)
            && (e.exito && "id" !in Asignadas(Columnas(campos)) && TextoAId(s.entidadId).Some? && TextoAId(s.entidadId).value in d.lugares ==>
                  var id := TextoAId(s.entidadId).value;
                  d2.lugares[id] == Aplicar(d.lugares[id], Columnas(campos)))
  {
    CambioDeTabla(LUGARES, d.lugares, s, EXCLUIDAS_LUGAR, ComoEscrito);
    var (d2, e) := Despachar(d, s);
    match Modificacion(LUGARES, d.lugares, s, EXCLUIDAS_LUGAR, ComoEscrito)
    case SinDatos =>
      assert (d2, e) == (d, Hecho(false, "No hay datos para modificar"));
    case Fallo(m) =>
      assert (d2, e) == (d, Hecho(false, "Error ejecutando accion: " + m));
      assert e.mensaje[0] != "No hay datos para modificar"[0];
    case Cambiado(f) =>
      assert (d2, e) == (d.(lugares := f), Hecho(true, "Lugar modificado exitosamente"));
  }

  /** With the corrected test, `modificar_usuario` never changes the set of
      user ids, rewrites at most the target row, and leaves `id`,
      `password_hash` and `password` of every row as they were. */
  lemma ModificarUsuarioCorregido(filas: map<int, Fila>, s: Solicitud)
    ensures var c := Modificacion(USUARIOS, filas, s, EXCLUIDAS_USUARIO, PorColumna);
            c.Cambiado? ==>
              && c.filas.Keys == filas.Keys
              && (forall k :: k in filas && Some(k) != TextoAId(s.entidadId) ==> c.filas[k] == filas[k])
              && (forall k, col :: k in filas && col in EXCLUIDAS_USUARIO ==> Get(c.filas[k], col) == Get(filas[k], col))
  {
    var c := Modificacion(USUARIOS, filas, s, EXCLUIDAS_USUARIO, PorColumna);
    var campos := CamposPermitidos(PorColumna, if s.datosNuevos.Some? then s.datosNuevos.value else [], EXCLUIDAS_USUARIO);
    CambioDeTabla(USUARIOS, filas, s, EXCLUIDAS_USUARIO, PorColumna);
    if c.Cambiado? {
      assert "id" !in Asignadas(Columnas(campos));
      forall k, col | k in filas && col in EXCLUIDAS_USUARIO
        ensures Get(c.filas[k], col) == Get(filas[k], col)
      {
        if Some(k) == TextoAId(s.entidadId) {
          assert col !in Asignadas(Columnas(campos));
        }
      }
    }
  }

  /** With the corrected test, `modificar_lugar` never changes the set of
      place ids and rewrites at most the target row. */
  lemma ModificarLugarCorregido(filas: map<int, Fila>, s: Solicitud)
    ensures var c := Modificacion(LUGARES, filas, s, EXCLUIDAS_LUGAR, PorColumna);
            c.Cambiado? ==>
              && c.filas.Keys == filas.Keys
              && (forall k :: k in filas && Some(k) != TextoAId(s.entidadId) ==> c.filas[k] == filas[k])
  {
    var c := Modificacion(LUGARES, filas, s, EXCLUIDAS_LUGAR, PorColumna);
    var campos := CamposPermitidos(PorColumna, if s.datosNuevos.Some? then s.datosNuevos.value else [], EXCLUIDAS_LUGAR);
    CambioDeTabla(LUGARES, filas, s, EXCLUIDAS_LUGAR, PorColumna);
    if c.Cambiado? {
      assert "id" !in Asignadas(Columnas(campos));
    }
  }

  /** Every kind outside the five implemented ones fails and changes nothing;
      `exportar_historial` is catalogued yet is one of them. */
  lemma AccionNoImplementada(d: Datos, s: Solicitud)
    requires s.tipoAccion !in {ELIMINAR_USUARIO, ELIMINAR_LUGAR, ELIMINAR_RESPALDO, MODIFICAR_USUARIO, MODIFICAR_LUGAR}
    ensures Despachar(d, s) == (d, Hecho(false, "Tipo de accion no implementado: " + s.tipoAccion))
    ensures EXPORTAR_HISTORIAL in ACCIONES
  {
  }

  /** The test as written compares keys verbatim, so a key spelled unlike
      `password` that still names that column (`Password`, `password ` and
      `"password"` do, by `ClaveEnMayusculas`, `ClaveConBlanco` and
      `ClaveEntreComillas`) passes it, and the approved request then
      overwrites the target user's `password`; the corrected test refuses the
      key and the request changes nothing. */
  lemma ClaveDePasswordEscapa(d: Datos, s: Solicitud, clave: string, v: Value, id: int)
    requires clave !in EXCLUIDAS_USUARIO && ColumnaSql(clave) == "password"
    requires s.tipoAccion == MODIFICAR_USUARIO && s.datosNuevos == Some([(clave, v)])
    requires TextoAId(s.entidadId) == Some(id) && id in d.usuarios && v != Null
    ensures Despachar(d, s) ==
              (d.(usuarios := d.usuarios[id := d.usuarios[id]["password" := v]]), Hecho(true, "Usuario modificado exitosamente"))
    ensures Modificacion(USUARIOS, d.usuarios, s, EXCLUIDAS_USUARIO, PorColumna) == SinDatos
  {
    FiltrosDeUnaClave(clave, v, EXCLUIDAS_USUARIO);
    ActualizarUnaColumna(USUARIOS, d.usuarios, s.entidadId, clave, v, id);
    var f := d.usuarios[id := d.usuarios[id]["password" := v]];
    assert Modificacion(USUARIOS, d.usuarios, s, EXCLUIDAS_USUARIO, ComoEscrito) == Cambiado(f);
    assert Despachar(d, s) == (d.(usuarios := f), Hecho(true, "Usuario modificado exitosamente"));
  }

  /** A single key spelled unlike every excluded name, whose column is
      excluded, passes the test as written and fails the corrected one. */
  lemma FiltrosDeUnaClave(clave: string, v: Value, excluidas: seq<string>)
    requires clave !in excluidas && ColumnaSql(clave) in excluidas
    ensures CamposPermitidos(ComoEscrito, [(clave, v)], excluidas) == [(clave, v)]
    ensures CamposPermitidos(PorColumna, [(clave, v)], excluidas) == []
  {
    assert [(clave, v)][1..] == [];
  }

  /** The test as written lets the key `ID` through, and the approved request
      then moves the target place to a new primary key; the corrected test
      refuses the key and the request changes nothing. */
  lemma ClaveIdMueveLugar(d: Datos, s: Solicitud, id: int, n: int)
    requires s.tipoAccion == MODIFICAR_LUGAR && s.datosNuevos == Some([("ID", Int(n))])
    requires TextoAId(s.entidadId) == Some(id) && id in d.lugares && n !in d.lugares
    ensures Despachar(d, s).1 == Hecho(true, "Lugar modificado exitosamente")
    ensures Despachar(d, s).0.lugares.Keys == d.lugares.Keys - {id} + {n}
    ensures Modificacion(LUGARES, d.lugares, s, EXCLUIDAS_LUGAR, PorColumna) == SinDatos
  {
    assert LowerAll("ID") == "id";
    ColumnaDeNombreSimple("ID");
    FiltrosDeUnaClave("ID", Int(n), EXCLUIDAS_LUGAR);
    ActualizarClave(LUGARES, d.lugares, s.entidadId, "ID", n, id);
    var movidas := (d.lugares - {id})[n := d.lugares[id]["id" := Int(n)] - {"id"}];
    assert Modificacion(LUGARES, d.lugares, s, EXCLUIDAS_LUGAR, ComoEscrito) == Cambiado(movidas);
    assert Despachar(d, s) == (d.(lugares := movidas), Hecho(true, "Lugar modificado exitosamente"));
  }

  // ---------------------------------------------------------------------
  // Resolving a request
  // ---------------------------------------------------------------------

  /** The request table after a resolution attempt and the `(exito, mensaje)`
      pair returned. */
  datatype Veredicto = Veredicto(solicitudes: map<int, Solicitud>, exito: bool, mensaje: string)

  /** `motivo or default`. */
  function MotivoO(motivo: Option<string>, omision: string): (m: string)
    ensures motivo.Some? && motivo.value != [] ==> m == motivo.value
    ensures motivo.None? || motivo.value == [] ==> m == omision
  {
    if motivo.Some? && motivo.value != [] then motivo.value else omision
  }

  /** The UPDATE that closes a request: its state, approver, date and reason. */
  function Resuelta(s: Solicitud, estado: string, aprobadorId: Value, aprobadorNombre: Value,
                    ahora: int, motivo: string): (r: Solicitud)
    requires estado == APROBADA || estado == RECHAZADA
    ensures EstadoCoherente(r) && r.estado == estado
    ensures r.aprobadorId == aprobadorId && r.aprobadorNombre == aprobadorNombre
    ensures r.fechaResolucion == Some(ahora) && r.motivoResolucion == Some(motivo)
    ensures r.(estado := s.estado, aprobadorId := s.aprobadorId, aprobadorNombre := s.aprobadorNombre,
               fechaResolucion := s.fechaResolucion, motivoResolucion := s.motivoResolucion) == s
  {
    s.(estado := estado, aprobadorId := aprobadorId, aprobadorNombre := aprobadorNombre,
       fechaResolucion := Some(ahora), motivoResolucion := Some(motivo))
  }

  /** The message of the TypeError raised by unpacking `None`. */
  const ERROR_SIN_RESULTADO := "Error al aprobar: cannot unpack non-iterable NoneType object"

  /** `aprobar_solicitud`: an unknown or already resolved request is refused
      untouched; otherwise the action runs, and only when it succeeds is the
      request marked `aprobada`. */
  function Aprobacion(d: Datos, sols: map<int, Solicitud>, id: int, aprobadorId: Value,
                      aprobadorNombre: Value, motivo: Option<string>, ahora: int): (r: (Datos, Veredicto))
    ensures id !in sols ==> r == (d, Veredicto(sols, false, "Solicitud no encontrada"))
    ensures id in sols && sols[id].estado != PENDIENTE ==>
              r == (d, Veredicto(sols, false, "La solicitud ya fue " + sols[id].estado))
  {
    if id !in sols then (d, Veredicto(sols, false, "Solicitud no encontrada"))
    else if sols[id].estado != PENDIENTE then (d, Veredicto(sols, false, "La solicitud ya fue " + sols[id].estado))
    else
      match Despachar(d, sols[id])
      case (_, SinResultado) => (d, Veredicto(sols, false, ERROR_SIN_RESULTADO))
      case (d2, Hecho(exito, m)) =>
        if exito then
          var s := Resuelta(sols[id], APROBADA, aprobadorId, aprobadorNombre, ahora, MotivoO(motivo, "Aprobada"));
          (d2, Veredicto(sols[id := s], true, m))
        else (d, Veredicto(sols, false, m))
  }

  /** An approval touches no other request; it succeeds exactly when the
      request is pending and its action reports success, and then the
      tables are the action's and the request is marked `aprobada`;
      otherwise nothing changes at all. */
  lemma AprobacionEfecto(d: Datos, sols: map<int, Solicitud>, id: int, aprobadorId: Value,
                         aprobadorNombre: Value, motivo: Option<string>, ahora: int)
    ensures var r := Aprobacion(d, sols, id, aprobadorId, aprobadorNombre, motivo, ahora);
            && r.1.solicitudes.Keys == sols.Keys
            && (forall k :: k in sols && k != id ==> r.1.solicitudes[k] == sols[k])
            && (!r.1.exito ==> r.0 == d && r.1.solicitudes == sols)
            && (r.1.exito <==> id in sols && sols[id].estado == PENDIENTE && Despachar(d, sols[id]).1.Hecho?
                               && Despachar(d, sols[id]).1.exito)
            && (r.1.exito ==>
                  && r.0 == Despachar(d, sols[id]).0
                  && r.1.mensaje == Despachar(d, sols[id]).1.mensaje
                  && r.1.solicitudes[id] == Resuelta(sols[id], APROBADA, aprobadorId, aprobadorNombre, ahora,
                                                     MotivoO(motivo, "Aprobada")))
  {
    if id in sols && sols[id].estado == PENDIENTE {
      FalloSinCambios(d, sols[id]);
    }
  }

  /** `rechazar_solicitud`: an unknown or already resolved request is refused
      untouched; otherwise it is marked `rechazada` with its reason. */
  function Rechazo(sols: map<int, Solicitud>, id: int, aprobadorId: Value, aprobadorNombre: Value,
                   motivo: Option<string>, ahora: int): (r: Veredicto)
    ensures id !in sols ==> r == Veredicto(sols, false, "Solicitud no encontrada")
    ensures id in sols && sols[id].estado != PENDIENTE ==>
              r == Veredicto(sols, false, "La solicitud ya fue " + sols[id].estado)
    ensures r.solicitudes.Keys == sols.Keys
    ensures forall k :: k in sols && k != id ==> r.solicitudes[k] == sols[k]
    ensures r.exito <==> id in sols && sols[id].estado == PENDIENTE
    ensures r.exito ==>
              && r.mensaje == "Solicitud rechazada"
              && r.solicitudes[id] == Resuelta(sols[id], RECHAZADA, aprobadorId, aprobadorNombre, ahora,
                                               MotivoO(motivo, "Rechazada sin motivo especificado"))
  {
    if id !in sols then Veredicto(sols, false, "Solicitud no encontrada")
    else if sols[id].estado != PENDIENTE then Veredicto(sols, false, "La solicitud ya fue " + sols[id].estado)
    else
      var s := Resuelta(sols[id], RECHAZADA, aprobadorId, aprobadorNombre, ahora,
                        MotivoO(motivo, "Rechazada sin motivo especificado"));
      Veredicto(sols[id := s], true, "Solicitud rechazada")
  }

  /** `aprobar_solicitud` on the database. */
  method AprobarSolicitud(db: Db, id: int, aprobadorId: Value, aprobadorNombre: Value,
                          motivo: Option<string>, ahora: int)
    returns (exito: bool, mensaje: string)
    requires db.Valid()
    modifies db`usuarios, db`lugares, db`respaldos, db`solicitudes
    ensures db.Valid()
    ensures (DatosDe(db), Veredicto(db.solicitudes, exito, mensaje))
            == Aprobacion(old(DatosDe(db)), old(db.solicitudes), id, aprobadorId, aprobadorNombre, motivo, ahora)
  {
    if id !in db.solicitudes {
      return false, "Solicitud no encontrada";
    }
    var s := db.solicitudes[id];
    if s.estado != PENDIENTE {
      return false, "La solicitud ya fue " + s.estado;
    }
    exito, mensaje := AprobarPendiente(db, id, aprobadorId, aprobadorNombre, motivo, ahora);
  }

  /** The part of `aprobar_solicitud` after the request was found pending:
      run the action, and mark the request only when it succeeded. */
  method AprobarPendiente(db: Db, id: int, aprobadorId: Value, aprobadorNombre: Value,
                          motivo: Option<string>, ahora: int)
    returns (exito: bool, mensaje: string)
    requires db.Valid() && id in db.solicitudes && db.solicitudes[id].estado == PENDIENTE
    modifies db`usuarios, db`lugares, db`respaldos, db`solicitudes
    ensures db.Valid()
    ensures (DatosDe(db), Veredicto(db.solicitudes, exito, mensaje))
            == Aprobacion(old(DatosDe(db)), old(db.solicitudes), id, aprobadorId, aprobadorNombre, motivo, ahora)
  {
    var s := db.solicitudes[id];
    var efecto := EjecutarAccionAprobada(db, s);
    match efecto
    case SinResultado =>
      FalloSinCambios(old(DatosDe(db)), s);
      return false, ERROR_SIN_RESULTADO;
    case Hecho(ok, m) =>
      if ok {
        db.solicitudes := db.solicitudes[id := Resuelta(s, APROBADA, aprobadorId, aprobadorNombre, ahora,
                                                        MotivoO(motivo, "Aprobada"))];
      } else {
        FalloSinCambios(old(DatosDe(db)), s);
      }
      return ok, m;
  }

  /** `rechazar_solicitud` on the database: only the request table changes. */
  method RechazarSolicitud(db: Db, id: int, aprobadorId: Value, aprobadorNombre: Value,
                           motivo: Option<string>, ahora: int)
    returns (exito: bool, mensaje: string)
    requires db.Valid()
    modifies db`solicitudes
    ensures db.Valid()
    ensures Veredicto(db.solicitudes, exito, mensaje)
            == Rechazo(old(db.solicitudes), id, aprobadorId, aprobadorNombre, motivo, ahora)
  {
    if id !in db.solicitudes {
      return false, "Solicitud no encontrada";
    }
    var s := db.solicitudes[id];
    if s.estado != PENDIENTE {
      return false, "La solicitud ya fue " + s.estado;
    }
    db.solicitudes := db.solicitudes[id := Resuelta(s, RECHAZADA, aprobadorId, aprobadorNombre, ahora,
                                                    MotivoO(motivo, "Rechazada sin motivo especificado"))];
    return true, "Solicitud rechazada";
  }

  /** Once a request is approved, a second approval or a rejection of it is
      refused and changes nothing: its action never runs twice. */
  lemma AprobadaUnaVez(d: Datos, sols: map<int, Solicitud>, id: int, a: Value, n: Value,
                       motivo: Option<string>, ahora: int, a2: Value, n2: Value, motivo2: Option<string>, ahora2: int)
    ensures var (d1, v1) := Aprobacion(d, sols, id, a, n, motivo, ahora);
            v1.exito ==>
              && Aprobacion(d1, v1.solicitudes, id, a2, n2, motivo2, ahora2)
                 == (d1, Veredicto(v1.solicitudes, false, "La solicitud ya fue aprobada"))
              && Rechazo(v1.solicitudes, id, a2, n2, motivo2, ahora2)
                 == Veredicto(v1.solicitudes, false, "La solicitud ya fue aprobada")
  {
    var (d1, v1) := Aprobacion(d, sols, id, a, n, motivo, ahora);
    AprobacionEfecto(d, sols, id, a, n, motivo, ahora);
    if v1.exito {
      assert id in v1.solicitudes && v1.solicitudes[id].estado == APROBADA;
      assert "La solicitud ya fue " + APROBADA == "La solicitud ya fue aprobada";
    }
  }

  /** Once a request is rejected, an approval or a second rejection of it is
      refused and changes nothing. */
  lemma RechazadaUnaVez(d: Datos, sols: map<int, Solicitud>, id: int, a: Value, n: Value,
                        motivo: Option<string>, ahora: int, a2: Value, n2: Value, motivo2: Option<string>, ahora2: int)
    ensures var v1 := Rechazo(sols, id, a, n, motivo, ahora);
            v1.exito ==>
              && Aprobacion(d, v1.solicitudes, id, a2, n2, motivo2, ahora2)
                 == (d, Veredicto(v1.solicitudes, false, "La solicitud ya fue rechazada"))
              && Rechazo(v1.solicitudes, id, a2, n2, motivo2, ahora2)
                 == Veredicto(v1.solicitudes, false, "La solicitud ya fue rechazada")
  {
    var v1 := Rechazo(sols, id, a, n, motivo, ahora);
    if v1.exito {
      assert id in v1.solicitudes && v1.solicitudes[id].estado == RECHAZADA;
      assert "La solicitud ya fue " + RECHAZADA == "La solicitud ya fue rechazada";
    }
  }

  /** A failed approval leaves the request pending, so it can still be
      approved or rejected later. */
  lemma FalloQuedaPendiente(d: Datos, sols: map<int, Solicitud>, id: int, a: Value, n: Value,
                            motivo: Option<string>, ahora: int)
    requires id in sols && sols[id].estado == PENDIENTE
    ensures var (_, v) := Aprobacion(d, sols, id, a, n, motivo, ahora);
            !v.exito ==> v.solicitudes[id].estado == PENDIENTE && Rechazo(v.solicitudes, id, a, n, motivo, ahora).exito
  {
    AprobacionEfecto(d, sols, id, a, n, motivo, ahora);
  }

  /** An `eliminar_usuario` request about something that is not a `usuario`
      can never be approved: every attempt fails with the unpacking error
      and the request stays pending. */
  lemma EliminarSinUsuario(d: Datos, sols: map<int, Solicitud>, id: int, a: Value, n: Value,
                           motivo: Option<string>, ahora: int)
    requires id in sols && sols[id].estado == PENDIENTE
    requires sols[id].tipoAccion == ELIMINAR_USUARIO && sols[id].entidadTipo != "usuario"
    ensures Aprobacion(d, sols, id, a, n, motivo, ahora) == (d, Veredicto(sols, false, ERROR_SIN_RESULTADO))
  {
  }
}
