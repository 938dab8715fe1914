/** `admin_eliminar_respaldos`: an administrator who re-enters their
    password deletes the selected backup files. Names outside the
    `backup_*.db` pattern and automatic backups are never touched; every
    selected name is counted as deleted, protected or an error. The backup
    directory is the set of file names it holds. */
module Respaldos {
  import opened Values
  import opened Text
  import opened Tablas
  import opened Aprobaciones
  import opened App
  import opened Eliminaciones

  /** The only names the route agrees to delete: `backup_*.db`. */
  predicate NombreSeguro(nombre: string)
  {
    StartsWith(nombre, "backup_") && EndsWith(nombre, ".db")
  }

  /** Automatic backups are protected. */
  predicate EsAutomatico(nombre: string)
  {
    Contains(nombre, "backup_auto_")
  }

  /** How one selected name is handled, given the files present. */
  datatype Clase = Invalido | Protegido | Eliminado | Inexistente

  function Clasificar(presentes: set<string>, nombre: string): Clase
  {
    if !NombreSeguro(nombre) then Invalido
    else if EsAutomatico(nombre) then Protegido
    else if nombre in presentes then Eliminado
    else Inexistente
  }

  /** The counters `eliminados`, `errores` and `protegidos`. */
  datatype Conteo = Conteo(eliminados: nat, errores: nat, protegidos: nat)

  function Contar(k: Conteo, c: Clase): Conteo
  {
    match c
    case Eliminado => k.(eliminados := k.eliminados + 1)
    case Protegido => k.(protegidos := k.protegidos + 1)
    case Invalido => k.(errores := k.errores + 1)
    case Inexistente => k.(errores := k.errores + 1)
  }

  /** The loop over the selected names, in order: the files left and the
      counters. A name selected twice finds its file gone the second time. */
  function Barrido(presentes: set<string>, nombres: seq<string>): (set<string>, Conteo)
    decreases |nombres|
  {
    if nombres == [] then (presentes, Conteo(0, 0, 0))
    else
      var b := Barrido(presentes, nombres[..|nombres| - 1]);
      var n := nombres[|nombres| - 1];
      var c := Clasificar(b.0, n);
      (if c == Eliminado then b.0 - {n} else b.0, Contar(b.1, c))
  }

  /** The selected names the loop deletes when present. */
  function Eliminables(nombres: seq<string>): set<string>
  {
    set n | n in nombres && NombreSeguro(n) && !EsAutomatico(n)
  }

  /** The names of a non-empty selection are those of its prefix and its
      last name. */
  lemma Miembros(nombres: seq<string>)
    requires nombres != []
    ensures forall x :: x in nombres <==> x in nombres[..|nombres| - 1] || x == nombres[|nombres| - 1]
  {
    forall x | x in nombres && x != nombres[|nombres| - 1]
      ensures x in nombres[..|nombres| - 1]
    {
      var j :| 0 <= j < |nombres| && nombres[j] == x;
      assert nombres[..|nombres| - 1][j] == x;
    }
  }

  /** The loop deletes exactly the present files among the eligible
      selected names. */
  lemma {:induction false} BarridoExacto(presentes: set<string>, nombres: seq<string>)
    ensures Barrido(presentes, nombres).0 == presentes - Eliminables(nombres)
    decreases |nombres|
  {
    if nombres != [] {
      var pre := nombres[..|nombres| - 1];
      var n := nombres[|nombres| - 1];
      BarridoExacto(presentes, pre);
      Miembros(nombres);
      if NombreSeguro(n) && !EsAutomatico(n) {
        assert Eliminables(nombres) == Eliminables(pre) + {n};
      } else {
        assert Eliminables(nombres) == Eliminables(pre);
      }
    }
  }

  /** One deletion is counted per file removed, and every selected name is
      counted exactly once. */
  lemma {:induction false} BarridoCuenta(presentes: set<string>, nombres: seq<string>)
    ensures Barrido(presentes, nombres).0 <= presentes
    ensures Barrido(presentes, nombres).1.eliminados == |presentes| - |Barrido(presentes, nombres).0|
    ensures Barrido(presentes, nombres).1.eliminados + Barrido(presentes, nombres).1.errores
            + Barrido(presentes, nombres).1.protegidos == |nombres|
    decreases |nombres|
  {
    if nombres != [] {
      var b := Barrido(presentes, nombres[..|nombres| - 1]);
      var n := nombres[|nombres| - 1];
      BarridoCuenta(presentes, nombres[..|nombres| - 1]);
      if Clasificar(b.0, n) == Eliminado {
        assert |b.0 - {n}| == |b.0| - 1;
      }
    }
  }

  /** A name outside the `backup_*.db` pattern, an automatic backup and a
      file nobody selected all survive the loop. */
  lemma BarridoRespeta(presentes: set<string>, nombres: seq<string>, n: string)
    requires n in presentes
    requires !NombreSeguro(n) || EsAutomatico(n) || n !in nombres
    ensures n in Barrido(presentes, nombres).0
  {
    BarridoExacto(presentes, nombres);
  }

  /** How the request ends. */
  datatype Salida =
    | NoAutorizado            // not an administrator: sent back to the index
    | ClaveIncorrecta         // the confirmation password does not match
    | SinSeleccion            // no name was selected
    | Depurado(conteo: Conteo)

  /** `SELECT password FROM usuarios WHERE id = ?` with the session's
      `user_id`. */
  function FilaDeSesion(usuarios: map<int, Fila>, userId: Value): Option<Fila>
  {
    match userId
    case Null => None
    case Int(i) => if i in usuarios then Some(usuarios[i]) else None
    case Str(t) => FilaPorId(usuarios, t)
  }

  /** `admin and admin['password'] == password`, where a missing form field
      is `None`: the stored plaintext column must equal the submitted text. */
  predicate ClaveConfirmada(usuarios: map<int, Fila>, s: Sesion, password: Option<string>)
  {
    match FilaDeSesion(usuarios, s.userId)
    case None => false
    case Some(f) => if password.None? then Get(f, "password") == Null else Get(f, "password") == Str(password.value)
  }

  /** The outcome of the request and the files left. */
  function Depuracion(usuarios: map<int, Fila>, presentes: set<string>, s: Sesion,
                      password: Option<string>, nombres: seq<string>): (Salida, set<string>)
  {
    if !Autorizado(s.rol) then (NoAutorizado, presentes)
    else if !ClaveConfirmada(usuarios, s, password) then (ClaveIncorrecta, presentes)
    else if nombres == [] then (SinSeleccion, presentes)
    else
      var b := Barrido(presentes, nombres);
      (Depurado(b.1), b.0)
  }

  /** `admin_eliminar_respaldos` on the backup directory. */
  method EliminarRespaldos(db: Db, s: Sesion, password: Option<string>, nombres: seq<string>)
    returns (r: Salida)
    modifies db`respaldos
    ensures (r, db.respaldos) == Depuracion(db.usuarios, old(db.respaldos), s, password, nombres)
  {
    if !Autorizado(s.rol) {
      return NoAutorizado;
    }
    if !ClaveConfirmada(db.usuarios, s, password) {
      return ClaveIncorrecta;
    }
    if nombres == [] {
      return SinSeleccion;
    }
    var eliminados, errores, protegidos := 0, 0, 0;
    var i := 0;
    while i < |nombres|
      invariant 0 <= i <= |nombres|
      invariant (db.respaldos, Conteo(eliminados, errores, protegidos)) == Barrido(old(db.respaldos), nombres[..i])
    {
      var nombre := nombres[i];
      assert nombres[..i + 1][..i] == nombres[..i];
      if !(StartsWith(nombre, "backup_") && EndsWith(nombre, ".db")) {
        errores := errores + 1;
      } else if Contains(nombre, "backup_auto_") {
        protegidos := protegidos + 1;
      } else if nombre in db.respaldos {
        db.respaldos := db.respaldos - {nombre};
        eliminados := eliminados + 1;
      } else {
        errores := errores + 1;
      }
      i := i + 1;
    }
    assert nombres[..|nombres|] == nombres;
    r := Depurado(Conteo(eliminados, errores, protegidos));
  }

  /** Nothing is deleted unless an administrator confirms with the stored
      password and selects at least one name; then exactly the present,
      eligible, selected files go, and the counters add up to the number of
      names selected. */
  lemma DepuracionEfecto(usuarios: map<int, Fila>, presentes: set<string>, s: Sesion,
                         password: Option<string>, nombres: seq<string>)
    ensures var d := Depuracion(usuarios, presentes, s, password, nombres);
            d.0.Depurado? <==> Autorizado(s.rol) && ClaveConfirmada(usuarios, s, password) && nombres != []
    ensures var d := Depuracion(usuarios, presentes, s, password, nombres);
            !d.0.Depurado? ==> d.1 == presentes
    ensures var d := Depuracion(usuarios, presentes, s, password, nombres);
            d.0.Depurado? ==> d.1 == presentes - Eliminables(nombres)
                              && d.0.conteo.eliminados == |presentes| - |d.1|
                              && d.0.conteo.eliminados + d.0.conteo.errores + d.0.conteo.protegidos == |nombres|
  {
    BarridoExacto(presentes, nombres);
    BarridoCuenta(presentes, nombres);
  }

  /** The checks on concrete names: an automatic backup is protected, a
      name outside the pattern is refused, and a manual backup goes. */
  lemma EjemplosClase(presentes: set<string>, auto: string, otro: string, manual: string)
    requires auto == "backup_auto_20260101.db" && otro == "notas.txt" && manual == "backup_20260101.db"
    requires auto in presentes && manual in presentes
    ensures Clasificar(presentes, auto) == Protegido
    ensures Clasificar(presentes, otro) == Invalido
    ensures NombreSeguro(manual)
  {
    assert StartsWith(auto[0..], "backup_auto_");
    assert auto[..7] == "backup_";
    assert auto[|auto| - 3..] == ".db";
    assert manual[..7] == "backup_";
    assert manual[|manual| - 3..] == ".db";
  }
}
