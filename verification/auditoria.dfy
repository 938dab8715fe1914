/** The audit trail: an append-only table whose rows carry a checksum over a
    fixed subset of their fields, and the filtered, newest-first query over it. */
module Auditoria {
  import opened Values
  import opened Listas
  import opened Seguridad
  import opened Tablas

  function OptTexto(o: Option<string>): (v: Value)
    ensures o.None? <==> v == Null
  {
    OptStr(o)
  }

  /** The ten-field dictionary `registrar_auditoria` hashes, in its key order.
      `datos_antes`, `datos_despues`, `ip_origen` and `user_agent` are not part of it. */
  function CamposChecksum(ev: Evento, fecha: int): (r: Registro)
    ensures |r| == 10 && ClavesDistintas(r)
    ensures Lookup(r, CLAVE_CHECKSUM) == Null
  {
    [("usuario_id", ev.usuarioId),
     ("usuario_nombre", ev.usuarioNombre),
     ("usuario_rol", ev.usuarioRol),
     ("accion", Str(ev.accion)),
     ("categoria", Str(ev.categoria)),
     ("resultado", Str(ev.resultado)),
     ("fecha", Int(fecha)),
     ("mensaje", OptTexto(ev.mensaje)),
     ("entidad_tipo", OptTexto(ev.entidadTipo)),
     ("entidad_id", OptTexto(ev.entidadId))]
  }

  /** The row as `registrar_auditoria` writes it: the call's arguments, the
      date and the checksum of the ten hashed fields. */
  function NuevaEntrada(ev: Evento, fecha: int, sha: Registro -> Digest): (e: EntradaAuditoria)
    ensures e.evento == ev && e.fecha == fecha && |e.checksum| == 32
  {
    EntradaAuditoria(ev, fecha, GenerarChecksumRegistro(CamposChecksum(ev, fecha), sha))
  }

  /** A row whose stored checksum is the one its hashed fields give. */
  predicate Integra(e: EntradaAuditoria, sha: Registro -> Digest)
  {
    e.checksum == GenerarChecksumRegistro(CamposChecksum(e.evento, e.fecha), sha)
  }

  ghost predicate BitacoraIntegra(log: seq<EntradaAuditoria>, sha: Registro -> Digest)
  {
    forall i :: 0 <= i < |log| ==> Integra(log[i], sha)
  }

  const CATEGORIAS := {"autenticacion", "usuarios", "lugares", "consultas", "historial", "respaldos",
                        "sistema", "seguridad"}
  const RESULTADOS := {"exito", "error", "denegado", "pendiente"}

  /** The INSERT satisfies the table's NOT NULL and CHECK constraints. */
  predicate Admisible(ev: Evento)
  {
    ev.usuarioNombre != Null && ev.usuarioRol != Null && ev.categoria in CATEGORIAS && ev.resultado in RESULTADOS
  }

  /** The trail after one `registrar_auditoria` call: one more row, the new
      one last, when the INSERT is admissible; otherwise the failure is
      swallowed and the trail is as it was. */
  function Registrar(log: seq<EntradaAuditoria>, ev: Evento, fecha: int, sha: Registro -> Digest)
    : (r: seq<EntradaAuditoria>)
    ensures log <= r && |r| <= |log| + 1
    ensures |r| == |log| + 1 <==> Admisible(ev)
    ensures |r| == |log| + 1 ==> r[|log|] == NuevaEntrada(ev, fecha, sha)
  {
    if Admisible(ev) then log + [NuevaEntrada(ev, fecha, sha)] else log
  }

  /** `registrar_auditoria`: appends at most one row, never raises, and
      touches nothing else. */
  method RegistrarAuditoria(db: Db, ev: Evento, ahora: int, sha: Registro -> Digest)
    modifies db`auditoria
    ensures db.auditoria == Registrar(old(db.auditoria), ev, ahora, sha)
  {
    if !Admisible(ev) {
      return;
    }
    var datos := CamposChecksum(ev, ahora);
    var checksum := GenerarChecksumRegistro(datos, sha);
    var e := EntradaAuditoria(ev, ahora, checksum);
    db.auditoria := db.auditoria + [e];
  }

  /** `registrar_auditoria` keeps an intact trail intact: the only row it
      may add carries the checksum of its own hashed fields. */
  lemma RegistrarIntegra(log: seq<EntradaAuditoria>, ev: Evento, fecha: int, sha: Registro -> Digest)
    ensures BitacoraIntegra(log, sha) ==> BitacoraIntegra(Registrar(log, ev, fecha, sha), sha)
  {
    if Admisible(ev) {
      AnexarIntegra(log, NuevaEntrada(ev, fecha, sha), sha);
    }
  }

  /** Appending an intact row to an intact trail keeps it intact. */
  lemma AnexarIntegra(log: seq<EntradaAuditoria>, e: EntradaAuditoria, sha: Registro -> Digest)
    requires Integra(e, sha)
    ensures BitacoraIntegra(log, sha) ==> BitacoraIntegra(log + [e], sha)
  {
    if BitacoraIntegra(log, sha) {
      forall i | 0 <= i < |log| + 1 ensures Integra((log + [e])[i], sha) {
        if i < |log| {
          assert (log + [e])[i] == log[i];
        }
      }
    }
  }

  /** Every row written by `registrar_auditoria` is intact, and the ten-field
      dictionary with the stored checksum added passes
      `verificar_integridad_registro`. */
  lemma EntradaVerifica(ev: Evento, fecha: int, sha: Registro -> Digest)
    ensures Integra(NuevaEntrada(ev, fecha, sha), sha)
    ensures ClavesDistintas(ConChecksum(CamposChecksum(ev, fecha), NuevaEntrada(ev, fecha, sha).checksum))
            && VerificarIntegridadRegistro(
                 ConChecksum(CamposChecksum(ev, fecha), NuevaEntrada(ev, fecha, sha).checksum), sha)
  {
    SelladoVerifica(CamposChecksum(ev, fecha), sha);
  }

  /** The checksum does not cover `datos_antes`, `datos_despues`, `ip_origen`
      or `user_agent`: rewriting them leaves an intact row intact. */
  lemma CamposNoCubiertos(e: EntradaAuditoria, sha: Registro -> Digest,
                          antes: Option<Registro>, despues: Option<Registro>,
                          ip: Option<string>, agente: Option<string>)
    requires Integra(e, sha)
    ensures Integra(e.(evento := e.evento.(datosAntes := antes, datosDespues := despues,
                                            ipOrigen := ip, userAgent := agente)), sha)
  {
  }

  /** The WHERE clause of `obtener_auditoria`: a filter is applied only when
      its argument is truthy. */
  predicate Coincide(e: EntradaAuditoria, categoria: Option<string>, usuarioId: Value)
  {
    (categoria.None? || categoria.value == [] || e.evento.categoria == categoria.value)
    && (!Truthy(usuarioId) || e.evento.usuarioId == usuarioId)
  }

  function Criterio(categoria: Option<string>, usuarioId: Value): EntradaAuditoria -> bool
  {
    e => Coincide(e, categoria, usuarioId)
  }

  function Fecha(e: EntradaAuditoria): int { e.fecha }

  /** The default `limite` of `obtener_auditoria`. */
  const LIMITE_AUDITORIA := 100

  /** `obtener_auditoria`: the matching rows, newest first, at most `limite`
      of them; a matching row is left out only when every returned row is at
      least as new. */
  function ObtenerAuditoria(db: Db, limite: nat, categoria: Option<string>, usuarioId: Value)
    : (r: seq<EntradaAuditoria>)
    reads db
    ensures var n := |Filter(db.auditoria, Criterio(categoria, usuarioId))|;
            |r| == if limite < n then limite else n
    ensures forall i :: 0 <= i < |r| ==> r[i] in db.auditoria && Coincide(r[i], categoria, usuarioId)
    ensures multiset(r) <= multiset(db.auditoria)
    ensures SortedDesc(r, Fecha)
    ensures forall x, y ::
              (x in db.auditoria && Coincide(x, categoria, usuarioId)
               && multiset(r)[x] < multiset(db.auditoria)[x] && y in r) ==> x.fecha <= y.fecha
  {
    var p := Criterio(categoria, usuarioId);
    var r := SelectDesc(db.auditoria, p, Fecha, limite);
    SelectDescOmitidos(db.auditoria, p, Fecha, limite);
    assert forall x :: p(x) == Coincide(x, categoria, usuarioId);
    r
  }

  /** With no filters every row is a candidate. */
  lemma SinFiltros(db: Db)
    ensures forall e :: Coincide(e, None, Null)
    ensures Filter(db.auditoria, Criterio(None, Null)) == db.auditoria
  {
    FiltroTotal(db.auditoria, Criterio(None, Null));
  }

  lemma {:induction false} FiltroTotal<T(!new)>(s: seq<T>, p: T -> bool)
    requires forall x :: p(x)
    ensures Filter(s, p) == s
  {
    if s != [] {
      FiltroTotal(s[1..], p);
      assert s == [s[0]] + s[1..];
    }
  }
}
