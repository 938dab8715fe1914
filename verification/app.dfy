/** The state-changing routes of the web application, with the web layer
    removed: the login lockout and password-migration machine, the user and
    place deletion guards that choose between deleting at once and filing an
    approval request, consultation creation with its pseudonym redraw loop,
    and the backup deletion filter. Form fields, session fields, the clock and
    the cryptographic primitives are parameters. */
module App {
  import opened Values
  import opened Text
  import opened Seguridad
  import opened Tablas
  import opened Auditoria
  import opened Aprobaciones

  /** The session fields the routes read (`session.get(...)`). */
  datatype Sesion = Sesion(rol: Value, userId: Value, nombre: Value)

  /** Thirty minutes, in the seconds timestamps are counted in. */
  const BLOQUEO := 1800

  /** Failed attempts that lock the account. */
  const MAX_INTENTOS := 5

  // ---------------------------------------------------------------------
  // login
  // ---------------------------------------------------------------------

  /** `LOWER(correo) = ?` against the stripped, lower-cased form field. */
  predicate CorreoCoincide(f: Fila, correo: string)
  {
    Get(f, "correo").Str? && LowerAll(Get(f, "correo").s) == correo
  }

  ghost function Coincidentes(usuarios: map<int, Fila>, correo: string): set<int>
  {
    set id | id in usuarios && CorreoCoincide(usuarios[id], correo)
  }

  /** A non-empty set has an element to pick, which is what the `:|` in
      `Minimo` needs; it is set reasoning, not a property of the login. */
  lemma Elemento(s: set<int>)
    ensures s == {} || exists x :: x in s
  {
    if forall x :: x !in s {
      assert s == {};
    }
  }

  ghost function Minimo(s: set<int>): (m: int)
    requires s != {}
    ensures m in s && forall x :: x in s ==> m <= x
  {
    Elemento(s);
    var x :| x in s;
    assert forall y :: y in s ==> y == x || y in s - {x};
    if s - {x} == {} then x
    else
      var r := Minimo(s - {x});
      if x <= r then x else r
  }

  /** The row `fetchone()` returns: the first match in table order, which is
      id order. */
  ghost function BuscarPorCorreo(usuarios: map<int, Fila>, correo: string): (o: Option<int>)
    ensures o.None? <==> forall k :: k in usuarios ==> !CorreoCoincide(usuarios[k], correo)
    ensures o.Some? ==> o.value in usuarios && CorreoCoincide(usuarios[o.value], correo)
                        && forall k :: k in usuarios && CorreoCoincide(usuarios[k], correo) ==> o.value <= k
  {
    var s := Coincidentes(usuarios, correo);
    MiembrosCoincidentes(usuarios, correo);
    if s == {} then None
    else Some(Minimo(s))
  }

  lemma MiembrosCoincidentes(usuarios: map<int, Fila>, correo: string)
    ensures forall k :: k in Coincidentes(usuarios, correo) <==> k in usuarios && CorreoCoincide(usuarios[k], correo)
  {
  }

  /** The SELECT itself: the id `fetchone()` returns. */
  method BuscarUsuario(usuarios: map<int, Fila>, correo: string) returns (o: Option<int>)
    ensures o == BuscarPorCorreo(usuarios, correo)
  {
    var candidatos := set id | id in usuarios && CorreoCoincide(usuarios[id], correo);
    assert candidatos == Coincidentes(usuarios, correo);
    if candidatos == {} {
      return None;
    }
    ghost var m := Minimo(candidatos);
    var id :| id in candidatos && forall k :: k in candidatos ==> id <= k;
    assert id == m;
    return Some(id);
  }

  /** `bloqueado_hasta` holds a time still in the future. A cell that does not
      parse as a time (modelled as text) is ignored, as the bare `except`
      does. */
  predicate Bloqueado(f: Fila, ahora: int)
  {
    var b := Get(f, "bloqueado_hasta");
    Truthy(b) && b.Int? && ahora < b.i
  }

  /** The outcome of a login attempt. `Excepcion` is an error the route does
      not catch: the request fails and nothing is committed. */
  datatype Acceso =
    | NoEncontrado
    | Bloqueada
    | Excepcion
    | Exitoso(sesion: Sesion)
    | Fallido(intentos: int, bloqueadoHasta: Option<int>)

  /** `intentos_fallidos or 0`, or `None` when that is text, which cannot be
      added to `1`. */
  function IntentosPrevios(f: Fila): (o: Option<int>)
    ensures !Truthy(Get(f, "intentos_fallidos")) ==> o == Some(0)
    ensures Get(f, "intentos_fallidos").Int? ==> o == Some(Get(f, "intentos_fallidos").i)
    ensures o.None? <==> Truthy(Get(f, "intentos_fallidos")) && !Get(f, "intentos_fallidos").Int?
  {
    var v := Get(f, "intentos_fallidos");
    if !Truthy(v) then Some(0)
    else match v
      case Int(i) => Some(i)
      case _ => None
  }

  /** The row after a failed attempt number `n`. */
  function TrasFallo(f: Fila, n: int, ahora: int): Fila
  {
    f["intentos_fallidos" := Int(n)]["bloqueado_hasta" := if n >= MAX_INTENTOS then Int(ahora + BLOQUEO) else Null]
  }

  /** The row after a successful login. */
  function TrasExito(f: Fila, ahora: int): Fila
  {
    f["ultimo_acceso" := Int(ahora)]["intentos_fallidos" := Int(0)]["bloqueado_hasta" := Null]
  }

  function EventoLogin(id: int, f: Fila, accion: string, resultado: string, mensaje: string,
                       ip: Option<string>): Evento
  {
    Evento(Int(id), Get(f, "nombre"), Get(f, "rol"), accion, "autenticacion", resultado, Some(mensaje),
           None, None, None, None, ip, None)
  }

  /** `login` on the user table: the new table, the outcome and the audit
      event it records. `verificar` stands for `check_password_hash` and
      `nuevoHash` for the fresh `generate_password_hash(password)`. */
  ghost function PasoLogin(usuarios: map<int, Fila>, correoForm: string, password: string,
                           ip: Option<string>, ahora: int, verificar: (string, string) -> bool,
                           nuevoHash: string): (r: (map<int, Fila>, Acceso, Option<Evento>))
    ensures r.0.Keys == usuarios.Keys
    ensures forall k :: k in usuarios && Some(k) != BuscarPorCorreo(usuarios, LowerAll(Strip(correoForm)))
              ==> r.0[k] == usuarios[k]
    ensures r.1.NoEncontrado? <==> BuscarPorCorreo(usuarios, LowerAll(Strip(correoForm))).None?
    ensures r.1.NoEncontrado? || r.1.Bloqueada? || r.1.Excepcion? ==> r.0 == usuarios && r.2.None?
  {
    PasoSobre(usuarios, BuscarPorCorreo(usuarios, LowerAll(Strip(correoForm))), password, ip, ahora, verificar, nuevoHash)
  }

  /** The attempt on the row `encontrado` names, if any. */
  function PasoSobre(usuarios: map<int, Fila>, encontrado: Option<int>, password: string,
                     ip: Option<string>, ahora: int, verificar: (string, string) -> bool,
                     nuevoHash: string): (r: (map<int, Fila>, Acceso, Option<Evento>))
    requires encontrado.Some? ==> encontrado.value in usuarios
    ensures r.0.Keys == usuarios.Keys
    ensures forall k :: k in usuarios && Some(k) != encontrado ==> r.0[k] == usuarios[k]
    ensures r.1.NoEncontrado? <==> encontrado.None?
    ensures r.1.NoEncontrado? || r.1.Bloqueada? || r.1.Excepcion? ==> r.0 == usuarios && r.2.None?
  {
    match encontrado
    case None => (usuarios, NoEncontrado, None)
    case Some(id) =>
      var (f, acceso, ev) := Intento(usuarios[id], id, password, ip, ahora, verificar, nuevoHash);
      (usuarios[id := f], acceso, ev)
  }

  /** A truthy `password_hash` that is not text: `check_password_hash`
      raises on it. */
  predicate HashIlegible(f: Fila)
  {
    var h := Get(f, "password_hash");
    h.Int? && h.i != 0
  }

  /** `verificar_password`: a non-empty stored hash that accepts the password. */
  predicate PorHash(f: Fila, password: string, verificar: (string, string) -> bool)
  {
    var h := Get(f, "password_hash");
    h.Str? && h.s != [] && verificar(password, h.s)
  }

  /** The attempt on the row found: the new row, the outcome and the audit
      event. */
  function Intento(f: Fila, id: int, password: string, ip: Option<string>, ahora: int,
                   verificar: (string, string) -> bool, nuevoHash: string): (r: (Fila, Acceso, Option<Evento>))
    ensures !r.1.NoEncontrado?
    ensures r.1.Bloqueada? || r.1.Excepcion? ==> r.0 == f && r.2.None?
  {
    if Bloqueado(f, ahora) then (f, Bloqueada, None)
    else
      if HashIlegible(f) then (f, Excepcion, None)
      else
        var porHash := PorHash(f, password, verificar);
        var porTexto := !porHash && Get(f, "password") == Str(password);
        if porHash || porTexto then
          var g := if porTexto then f["password_hash" := Str(nuevoHash)] else f;
          var ip' := PyStr(OptStr(ip));
          (TrasExito(g, ahora),
           Exitoso(Sesion(Get(f, "rol"), Int(id), Get(f, "nombre"))),
           Some(EventoLogin(id, f, "login_exitoso", "exito", "Inicio de sesión desde " + ip', ip)))
        else
          match IntentosPrevios(f)
          case None => (f, Excepcion, None)
          case Some(previos) =>
            var n := previos + 1;
            (TrasFallo(f, n, ahora),
             Fallido(n, if n >= MAX_INTENTOS then Some(ahora + BLOQUEO) else None),
             Some(EventoLogin(id, f, "login_fallido", "error",
                              "Contraseña incorrecta. Intento " + IntToString(n) + "/5", ip)))
  }

  /** `login`: looks the address up, refuses a locked account, checks the
      password (hash first, then the legacy plain-text column, migrating it),
      and records the attempt. For an unknown address the audit row is
      written but the connection is closed without a commit, so the trail is
      unchanged. */
  method Login(db: Db, correoForm: string, password: string, ip: Option<string>, ahora: int,
               verificar: (string, string) -> bool, nuevoHash: string, sha: Registro -> Digest)
    returns (r: Acceso)
    modifies db`usuarios, db`auditoria
    ensures var p := PasoLogin(old(db.usuarios), correoForm, password, ip, ahora, verificar, nuevoHash);
            && db.usuarios == p.0 && r == p.1
            && db.auditoria == (if p.2.Some? then Registrar(old(db.auditoria), p.2.value, ahora, sha)
                                else old(db.auditoria))
  {
    var encontrado := BuscarUsuario(db.usuarios, LowerAll(Strip(correoForm)));
    if encontrado.None? {
      return NoEncontrado;
    }
    r := Acceder(db, encontrado.value, password, ip, ahora, verificar, nuevoHash, sha);
  }

  /** The attempt on the row found, applied to the database. */
  method Acceder(db: Db, id: int, password: string, ip: Option<string>, ahora: int,
                 verificar: (string, string) -> bool, nuevoHash: string, sha: Registro -> Digest)
    returns (r: Acceso)
    requires id in db.usuarios
    modifies db`usuarios, db`auditoria
    ensures var p := Intento(old(db.usuarios)[id], id, password, ip, ahora, verificar, nuevoHash);
            && db.usuarios == old(db.usuarios)[id := p.0] && r == p.1
            && db.auditoria == (if p.2.Some? then Registrar(old(db.auditoria), p.2.value, ahora, sha)
                                else old(db.auditoria))
  {
    var f := db.usuarios[id];
    ghost var p := Intento(f, id, password, ip, ahora, verificar, nuevoHash);
    if Bloqueado(f, ahora) {
      return Bloqueada;
    }
    var h := Get(f, "password_hash");
    if HashIlegible(f) {
      return Excepcion;
    }
    var valida := false;
    if h.Str? && h.s != [] {
      valida := verificar(password, h.s);
    }
    if valida || Get(f, "password") == Str(password) {
      var fila := f;
      if !valida {
        fila := fila["password_hash" := Str(nuevoHash)];
        db.usuarios := db.usuarios[id := fila];
      }
      assert p.0 == TrasExito(fila, ahora);
      r := AccesoValido(db, id, f, fila, ip, ahora, sha);
      return;
    }
    assert !valida;
    r := AccesoFallido(db, id, f, ip, ahora, sha);
  }

  method AccesoValido(db: Db, id: int, f: Fila, fila: Fila, ip: Option<string>, ahora: int,
                      sha: Registro -> Digest)
    returns (r: Acceso)
    modifies db`usuarios, db`auditoria
    ensures db.usuarios == old(db.usuarios)[id := TrasExito(fila, ahora)]
    ensures r == Exitoso(Sesion(Get(f, "rol"), Int(id), Get(f, "nombre")))
    ensures db.auditoria == Registrar(old(db.auditoria), EventoLogin(id, f, "login_exitoso", "exito",
                                      "Inicio de sesión desde " + PyStr(OptStr(ip)), ip), ahora, sha)
  {
    db.usuarios := db.usuarios[id := TrasExito(fila, ahora)];
    RegistrarAuditoria(db, EventoLogin(id, f, "login_exitoso", "exito", "Inicio de sesión desde " + PyStr(OptStr(ip)), ip),
                       ahora, sha);
    return Exitoso(Sesion(Get(f, "rol"), Int(id), Get(f, "nombre")));
  }

  method AccesoFallido(db: Db, id: int, f: Fila, ip: Option<string>, ahora: int, sha: Registro -> Digest)
    returns (r: Acceso)
    modifies db`usuarios, db`auditoria
    ensures IntentosPrevios(f).None? ==> r == Excepcion && db.usuarios == old(db.usuarios)
                                         && db.auditoria == old(db.auditoria)
    ensures IntentosPrevios(f).Some? ==>
              var n := IntentosPrevios(f).value + 1;
              && db.usuarios == old(db.usuarios)[id := TrasFallo(f, n, ahora)]
              && r == Fallido(n, if n >= MAX_INTENTOS then Some(ahora + BLOQUEO) else None)
              && db.auditoria == Registrar(old(db.auditoria), EventoLogin(id, f, "login_fallido", "error",
                                 "Contraseña incorrecta. Intento " + IntToString(n) + "/5", ip), ahora, sha)
  {
    var previos := IntentosPrevios(f);
    if previos.None? {
      return Excepcion;
    }
    var n := previos.value + 1;
    db.usuarios := db.usuarios[id := TrasFallo(f, n, ahora)];
    RegistrarAuditoria(db, EventoLogin(id, f, "login_fallido", "error",
                                       "Contraseña incorrecta. Intento " + IntToString(n) + "/5", ip),
                       ahora, sha);
    return Fallido(n, if n >= MAX_INTENTOS then Some(ahora + BLOQUEO) else None);
  }

  /** While `bloqueado_hasta` lies in the future the attempt is refused
      before any password check, whatever the password, and nothing is
      written. */
  lemma CuentaBloqueada(usuarios: map<int, Fila>, correoForm: string, password: string,
                        ip: Option<string>, ahora: int, verificar: (string, string) -> bool,
                        nuevoHash: string, id: int)
    requires BuscarPorCorreo(usuarios, LowerAll(Strip(correoForm))) == Some(id)
    requires Bloqueado(usuarios[id], ahora)
    ensures PasoLogin(usuarios, correoForm, password, ip, ahora, verificar, nuevoHash)
            == (usuarios, Bloqueada, None)
  {
    assert usuarios[id := usuarios[id]] == usuarios;
  }

  /** An address that matches no user changes nothing: the route's audit row
      is written on a connection closed without a commit. */
  lemma CorreoDesconocido(usuarios: map<int, Fila>, correoForm: string, password: string,
                          ip: Option<string>, ahora: int, verificar: (string, string) -> bool,
                          nuevoHash: string)
    requires forall id :: id in usuarios ==> !CorreoCoincide(usuarios[id], LowerAll(Strip(correoForm)))
    ensures PasoLogin(usuarios, correoForm, password, ip, ahora, verificar, nuevoHash)
            == (usuarios, NoEncontrado, None)
  {
    var c := Coincidentes(usuarios, LowerAll(Strip(correoForm)));
    assert forall x :: x !in c;
    assert c == {};
  }

  /** The attempt succeeds exactly when the account is not locked, the hash
      cell is readable, and either the hash or the legacy plain-text column
      accepts the password. A success clears the counter and the lock and
      stamps the access time; of the other columns only `password_hash` may
      change, and only to the fresh hash. */
  lemma AccesoConcedido(f: Fila, id: int, password: string, ip: Option<string>, ahora: int,
                        verificar: (string, string) -> bool, nuevoHash: string)
    ensures var r := Intento(f, id, password, ip, ahora, verificar, nuevoHash);
            r.1.Exitoso? <==> (!Bloqueado(f, ahora) && !HashIlegible(f)
                               && (PorHash(f, password, verificar) || Get(f, "password") == Str(password)))
    ensures var r := Intento(f, id, password, ip, ahora, verificar, nuevoHash);
            r.1.Exitoso? ==>
              && r.1.sesion == Sesion(Get(f, "rol"), Int(id), Get(f, "nombre"))
              && Get(r.0, "intentos_fallidos") == Int(0)
              && Get(r.0, "bloqueado_hasta") == Null
              && Get(r.0, "ultimo_acceso") == Int(ahora)
              && (Get(r.0, "password_hash") == Get(f, "password_hash")
                  || Get(r.0, "password_hash") == Str(nuevoHash))
              && (forall c :: c !in {"intentos_fallidos", "bloqueado_hasta", "ultimo_acceso", "password_hash"}
                    ==> Get(r.0, c) == Get(f, c))
  {
  }

  /** A wrong password on an unlocked account raises the counter by one
      (an empty counter counting as zero), locks the account for thirty
      minutes exactly when the new count reaches five and clears the lock
      otherwise; no other column changes. */
  lemma AccesoDenegado(f: Fila, id: int, password: string, ip: Option<string>, ahora: int,
                       verificar: (string, string) -> bool, nuevoHash: string)
    requires !Bloqueado(f, ahora) && !HashIlegible(f)
    requires !PorHash(f, password, verificar) && Get(f, "password") != Str(password)
    requires IntentosPrevios(f).Some?
    ensures var r := Intento(f, id, password, ip, ahora, verificar, nuevoHash);
            var n := IntentosPrevios(f).value + 1;
            && r.1 == Fallido(n, if n >= MAX_INTENTOS then Some(ahora + BLOQUEO) else None)
            && Get(r.0, "intentos_fallidos") == Int(n)
            && (n >= MAX_INTENTOS ==> Get(r.0, "bloqueado_hasta") == Int(ahora + BLOQUEO))
            && (n < MAX_INTENTOS ==> Get(r.0, "bloqueado_hasta") == Null)
            && (forall c :: c !in {"intentos_fallidos", "bloqueado_hasta"} ==> Get(r.0, c) == Get(f, c))
            && r.2.Some? && r.2.value.accion == "login_fallido"
  {
  }

  /** `password_hash` is rewritten only by a successful plain-text login
      whose hash check failed; a wrong password never changes it. */
  lemma HashSoloPorMigracion(f: Fila, id: int, password: string, ip: Option<string>, ahora: int,
                             verificar: (string, string) -> bool, nuevoHash: string)
    ensures var r := Intento(f, id, password, ip, ahora, verificar, nuevoHash);
            Get(r.0, "password_hash") != Get(f, "password_hash") ==>
              && r.1.Exitoso?
              && !PorHash(f, password, verificar)
              && Get(f, "password") == Str(password)
              && Get(r.0, "password_hash") == Str(nuevoHash)
  {
  }

  /** The counter survives an expired lock: a user already at four or more
      failures whose lock has run out is locked again by the next failure. */
  lemma BloqueoTrasExpirar(f: Fila, id: int, password: string, ip: Option<string>, ahora: int,
                           verificar: (string, string) -> bool, nuevoHash: string, hasta: int, previos: int)
    requires Get(f, "bloqueado_hasta") == Int(hasta) && hasta <= ahora
    requires Get(f, "intentos_fallidos") == Int(previos) && previos >= MAX_INTENTOS - 1
    requires !HashIlegible(f)
    requires !PorHash(f, password, verificar) && Get(f, "password") != Str(password)
    ensures Intento(f, id, password, ip, ahora, verificar, nuevoHash).1
            == Fallido(previos + 1, Some(ahora + BLOQUEO))
  {
  }
}
