/** The SQLite database the application works on, as values: the rows of the
    user, place, approval-request, patient-mapping, consultation and audit
    tables, and the names of the files in the backup directory. */
module Tablas {
  import opened Values
  import opened Text

  /** A row of `usuarios` or `lugares`: column name to cell. The `id` column is
      the key the row is stored under and is not repeated inside it. */
  type Fila = map<string, Value>

  /** `row[col]`, with a column the row does not carry read as NULL. */
  function Get(f: Fila, col: string): (v: Value)
    ensures col !in f ==> v == Null
  {
    if col in f then f[col] else Null
  }

  // Request states.
  const PENDIENTE := "pendiente"
  const APROBADA := "aprobada"
  const RECHAZADA := "rechazada"

  // Roles.
  const ADMIN := "admin"
  const ADMIN_MAESTRO := "admin_maestro"
  const TENS := "tens"

  /** The columns of a table, in declaration order, with its NOT NULL columns
      and its UNIQUE columns (in the order SQLite creates their indexes). */
  datatype Tabla = Tabla(nombre: string, columnas: seq<string>, noNulas: set<string>, unicas: seq<string>)

  const USUARIOS := Tabla(
    "usuarios",
    ["id", "nombre", "rut", "correo", "rol", "password", "password_hash", "fecha_creacion",
     "ultimo_acceso", "intentos_fallidos", "bloqueado_hasta", "activo", "es_plantilla"],
    {"nombre", "rut", "correo", "rol", "password"},
    ["rut", "correo"])

  const LUGARES := Tabla(
    "lugares",
    ["id", "nombre_posta", "direccion", "fecha_creacion", "activo", "es_plantilla", "codigo_deis"],
    {"nombre_posta", "direccion"},
    [])

  /** How SQLite compares a text parameter with an INTEGER key: text that is a
      plain decimal numeral is converted to that integer; any other text
      matches no row. */
  function TextoAId(s: string): (id: Option<int>)
    ensures id.Some? <==> s != [] && AllDigits(s)
    ensures id.Some? ==> id.value >= 0
  {
    if s != [] && AllDigits(s) then Some(ParseDigits(s)) else None
  }

  /** `str(uid)` of an id read back by `WHERE id = ?` finds that id again. */
  lemma IdIdaVuelta(n: nat)
    ensures TextoAId(NatToString(n)) == Some(n)
  {
    ParseNatToString(n);
  }

  /** Python's `str()` of a cell, as an f-string prints it. */
  function PyStr(v: Value): (s: string)
    ensures v.Str? ==> s == v.s
    ensures v == Null ==> s == "None"
  {
    match v
    case Null => "None"
    case Str(t) => t
    case Int(i) => IntToString(i)
  }

  /** A row of `solicitudes_aprobacion` (the schema of the role migration,
      which has `motivo_resolucion`). The JSON snapshots are kept as the
      dictionaries they encode. */
  datatype Solicitud = Solicitud(
    tipoAccion: string,
    entidadTipo: string,
    entidadId: string,
    datosOriginales: Option<Registro>,
    datosNuevos: Option<Registro>,
    solicitanteId: Value,
    solicitanteNombre: Value,
    solicitanteRol: Value,
    justificacion: Option<string>,
    estado: string,
    aprobadorId: Value,
    aprobadorNombre: Value,
    fechaSolicitud: int,
    fechaResolucion: Option<int>,
    motivoResolucion: Option<string>)

  /** A request is pending with no resolution recorded, or resolved with its
      date and reason recorded. */
  predicate EstadoCoherente(s: Solicitud)
  {
    (s.estado == PENDIENTE && s.fechaResolucion.None? && s.motivoResolucion.None?)
    || ((s.estado == APROBADA || s.estado == RECHAZADA) && s.fechaResolucion.Some? && s.motivoResolucion.Some?)
  }

  /** The arguments of one `registrar_auditoria` call. */
  datatype Evento = Evento(
    usuarioId: Value,
    usuarioNombre: Value,
    usuarioRol: Value,
    accion: string,
    categoria: string,
    resultado: string,
    mensaje: Option<string>,
    entidadTipo: Option<string>,
    entidadId: Option<string>,
    datosAntes: Option<Registro>,
    datosDespues: Option<Registro>,
    ipOrigen: Option<string>,
    userAgent: Option<string>)

  /** A row of `auditoria`: the call's arguments, its date and its checksum. */
  datatype EntradaAuditoria = EntradaAuditoria(evento: Evento, fecha: int, checksum: string)

  /** A row of `mapeo_pacientes`; the table is keyed by its UNIQUE `cip`. */
  datatype MapeoPaciente = MapeoPaciente(rutCifrado: string, rutHash: string, rutEnmascarado: string, creadoPorId: Value)

  /** A row of `consultas` as `crear_consulta` inserts it. */
  datatype Consulta = Consulta(cip: string, rutPacienteHash: string, lugarId: string, tensNombre: string, nombreMedico: string)

  /** The open connection: every table the core reads or writes. */
  class Db {
    var usuarios: map<int, Fila>
    var lugares: map<int, Fila>
    var solicitudes: map<int, Solicitud>
    /** The largest request id ever handed out (AUTOINCREMENT never reuses one). */
    var ultimaSolicitud: int
    /** The file names present in the backup directory. */
    var respaldos: set<string>
    var mapeo: map<string, MapeoPaciente>
    var consultas: seq<Consulta>
    var auditoria: seq<EntradaAuditoria>

    ghost predicate Valid()
      reads this`solicitudes, this`ultimaSolicitud
    {
      ultimaSolicitud >= 0
      && (forall id :: id in solicitudes ==> 1 <= id <= ultimaSolicitud)
      && (forall id :: id in solicitudes ==> EstadoCoherente(solicitudes[id]))
    }

    /** A database with the given users, places and backups and empty
        request, mapping, consultation and audit tables. */
    constructor(usuarios0: map<int, Fila>, lugares0: map<int, Fila>, respaldos0: set<string>)
      ensures Valid()
      ensures usuarios == usuarios0 && lugares == lugares0 && respaldos == respaldos0
      ensures solicitudes == map[] && ultimaSolicitud == 0
      ensures mapeo == map[] && consultas == [] && auditoria == []
    {
      usuarios := usuarios0;
      lugares := lugares0;
      solicitudes := map[];
      ultimaSolicitud := 0;
      respaldos := respaldos0;
      mapeo := map[];
      consultas := [];
      auditoria := [];
    }
  }

  // ---------------------------------------------------------------------
  // `UPDATE <tabla> SET <col> = ?, ... WHERE id = ?`
  // ---------------------------------------------------------------------

  /** SQLite's blanks between tokens: space, tab, line feed, form feed and
      carriage return. */
  predicate BlancoSql(c: char)
  {
    c == ' ' || c as int == 9 || c as int == 10 || c as int == 12 || c as int == 13
  }

  /** The character that closes an identifier opened by `c`: SQLite takes a
      column name in double quotes, single quotes, back-ticks or brackets. */
  function Cierre(c: char): Option<char>
  {
    if c == '"' || c == '\'' || c == '`' then Some(c) else if c == '[' then Some(']') else None
  }

  /** A bare identifier in lower case: a letter or `_`, then letters, digits
      and `_`. */
  predicate NombreSimple(c: string)
  {
    && c != []
    && (IsLower(c[0]) || c[0] == '_')
    && forall i :: 0 <= i < |c| ==> IsLower(c[i]) || IsDigit(c[i]) || c[i] == '_'
  }

  /** `t` without one pair of identifier quotes around it, when it has them
      and no closing quote inside. */
  function SinComillas(t: string): (n: string)
    ensures |n| <= |t|
  {
    if |t| >= 2 && Cierre(t[0]) == Some(t[|t| - 1]) && t[|t| - 1] !in t[1..|t| - 1] then t[1..|t| - 1] else t
  }

  /** The name a key spells once it is spliced into `<campo> = ?`: the
      blanks around it are skipped and one pair of identifier quotes is
      removed. */
  function NombreEscrito(campo: string): (n: string)
    ensures |n| <= |campo|
  {
    SinComillas(Trim(campo, BlancoSql))
  }

  /** The column an assignment `<campo> = ?` names: the spelled name,
      matched without regard to ASCII case. */
  function ColumnaSql(campo: string): (c: string)
    ensures |c| <= |campo|
  {
    LowerAll(NombreEscrito(campo))
  }

  /** A bare key names its own lower-cased self. */
  lemma ColumnaDeNombreSimple(campo: string)
    requires NombreSimple(LowerAll(campo))
    ensures ColumnaSql(campo) == LowerAll(campo)
  {
    assert !BlancoSql(campo[0]) && !BlancoSql(campo[|campo| - 1]);
    assert Trim(campo, BlancoSql) == campo;
    assert Cierre(campo[0]).None?;
  }

  /** A key that differs from `password` only in case names the `password`
      column. */
  lemma ClaveEnMayusculas()
    ensures ColumnaSql("Password") == "password"
  {
    assert LowerAll("Password") == "password";
    ColumnaDeNombreSimple("Password");
  }

  /** So does `password` followed by a blank. */
  lemma ClaveConBlanco()
    ensures ColumnaSql("password ") == "password"
  {
    var k := "password ";
    assert BlancoSql(k[|k| - 1]) && k[..|k| - 1] == "password";
    assert Trim("password", BlancoSql) == "password";
    assert LowerAll("password") == "password";
  }

  /** So does `password` in double quotes. */
  lemma ClaveEntreComillas()
    ensures ColumnaSql("\"password\"") == "password"
  {
    var k := "\"password\"";
    assert Trim(k, BlancoSql) == k;
    assert k[1..|k| - 1] == "password";
    assert SinComillas(k) == "password";
    assert LowerAll("password") == "password";
  }

  /** The SET list as the columns it writes: each key replaced by the column
      it names, in the same order, with the same values. */
  function Columnas(campos: Registro): (a: Registro)
    ensures |a| == |campos|
    ensures forall i :: 0 <= i < |campos| ==> a[i] == (ColumnaSql(campos[i].0), campos[i].1)
  {
    seq(|campos|, i requires 0 <= i < |campos| => (ColumnaSql(campos[i].0), campos[i].1))
  }

  /** The columns a resolved SET list assigns. */
  function Asignadas(a: Registro): set<string>
  {
    set i | 0 <= i < |a| :: a[i].0
  }

  /** The row after a resolved SET list: each assigned column takes the value
      of its rightmost assignment, every other column keeps its value. */
  function Aplicar(f: Fila, a: Registro): (g: Fila)
    ensures forall c :: c !in Asignadas(a) ==> Get(g, c) == Get(f, c)
    ensures forall c :: c in Asignadas(a) ==>
              exists i :: 0 <= i < |a| && a[i].0 == c && Get(g, c) == a[i].1
                && forall j :: i < j < |a| ==> a[j].0 != c
  {
    if a == [] then f
    else
      var n := |a| - 1;
      var previo := Aplicar(f, a[..n]);
      var g := previo[a[n].0 := a[n].1];
      AplicarUltimo(f, a, previo, g);
      g
  }

  lemma AplicarUltimo(f: Fila, a: Registro, previo: Fila, g: Fila)
    requires a != []
    requires var n := |a| - 1;
             (forall c :: c !in Asignadas(a[..n]) ==> Get(previo, c) == Get(f, c))
             && (forall c :: c in Asignadas(a[..n]) ==>
                   exists i :: 0 <= i < n && a[..n][i].0 == c && Get(previo, c) == a[..n][i].1
                     && forall j :: i < j < n ==> a[..n][j].0 != c)
             && g == previo[a[n].0 := a[n].1]
    ensures forall c :: c !in Asignadas(a) ==> Get(g, c) == Get(f, c)
    ensures forall c :: c in Asignadas(a) ==>
              exists i :: 0 <= i < |a| && a[i].0 == c && Get(g, c) == a[i].1
                && forall j :: i < j < |a| ==> a[j].0 != c
  {
    var n := |a| - 1;
    var ultima := a[n].0;
    assert Asignadas(a) == Asignadas(a[..n]) + {ultima} by {
      forall c | c in Asignadas(a) ensures c in Asignadas(a[..n]) + {ultima} {
        var i :| 0 <= i < |a| && a[i].0 == c;
        if i < n { assert a[..n][i] == a[i]; }
      }
      forall c | c in Asignadas(a[..n]) ensures c in Asignadas(a) {
        var i :| 0 <= i < n && a[..n][i].0 == c;
        assert a[..n][i] == a[i];
      }
    }
    forall c | c in Asignadas(a)
      ensures exists i :: 0 <= i < |a| && a[i].0 == c && Get(g, c) == a[i].1
                && forall j :: i < j < |a| ==> a[j].0 != c
    {
      if c == ultima {
        assert a[n].0 == c && Get(g, c) == a[n].1;
      } else {
        var i :| 0 <= i < n && a[..n][i].0 == c && Get(previo, c) == a[..n][i].1
                 && forall j :: i < j < n ==> a[..n][j].0 != c;
        assert a[..n][i] == a[i];
        forall j | i < j < |a| ensures a[j].0 != c {
          if j < n { assert a[..n][j] == a[j]; }
        }
      }
    }
  }

  /** The first element of `s` that satisfies `p`. */
  function PrimeraEn(s: seq<string>, p: string -> bool): (o: Option<string>)
    ensures o.None? <==> forall i :: 0 <= i < |s| ==> !p(s[i])
    ensures o.Some? ==> o.value in s && p(o.value)
  {
    if s == [] then None
    else if p(s[0]) then Some(s[0])
    else
      var r := PrimeraEn(s[1..], p);
      assert forall i :: 1 <= i < |s| ==> s[i] == s[1..][i - 1];
      r
  }

  /** The first assignment, in SET-list order, whose column the table lacks. */
  function PrimeraDesconocida(t: Tabla, campos: Registro): (o: Option<string>)
    ensures o.None? <==> forall i :: 0 <= i < |campos| ==> ColumnaSql(campos[i].0) in t.columnas
    ensures o.Some? ==> ColumnaSql(o.value) !in t.columnas
  {
    if campos == [] then None
    else if ColumnaSql(campos[0].0) !in t.columnas then Some(campos[0].0)
    else
      var r := PrimeraDesconocida(t, campos[1..]);
      assert forall i :: 1 <= i < |campos| ==> campos[i] == campos[1..][i - 1];
      r
  }

  /** Another row already holds `v` in column `c`. */
  predicate Repetido(filas: map<int, Fila>, id: int, c: string, v: Value)
  {
    exists k :: k in filas && k != id && Get(filas[k], c) == v
  }

  /** The key row `id` has after the SET list: its own, unless `id` is
      assigned, in which case SQLite converts the new value to an integer
      (text only when it is a plain numeral) and has none for NULL. */
  function ClaveTras(id: int, a: Registro, g: Fila): Option<int>
  {
    if "id" !in Asignadas(a) then Some(id)
    else match Get(g, "id")
      case Int(n) => Some(n)
      case Str(s) => TextoAId(s)
      case Null => None
  }

  /** The constraint the new row `g` of row `id`, stored under key `nueva`,
      breaks first: a NOT NULL column (in column order) set to NULL, then the
      primary key taken by another row, then a UNIQUE column set to a value
      another row holds (NULLs never collide). */
  function Violacion(t: Tabla, filas: map<int, Fila>, id: int, nueva: int, a: Registro, g: Fila): (o: Option<string>)
    ensures o.None? <==>
              (forall c :: c in t.columnas && c in t.noNulas && c in Asignadas(a) ==> Get(g, c) != Null)
              && (nueva == id || nueva !in filas)
              && (forall c :: c in t.unicas && c in Asignadas(a) && Get(g, c) != Null ==> !Repetido(filas, id, c, Get(g, c)))
  {
    var asignadas := Asignadas(a);
    match PrimeraEn(t.columnas, c => c in t.noNulas && c in asignadas && Get(g, c) == Null)
    case Some(c) => Some("NOT NULL constraint failed: " + t.nombre + "." + c)
    case None =>
      if nueva != id && nueva in filas then Some("UNIQUE constraint failed: " + t.nombre + ".id")
      else
        match PrimeraEn(t.unicas, c => c in asignadas && Get(g, c) != Null && Repetido(filas, id, c, Get(g, c)))
        case Some(c) => Some("UNIQUE constraint failed: " + t.nombre + "." + c)
        case None => None
  }

  /** The UPDATE of the existing row `id` by the resolved SET list `a`: the
      row is rewritten unless its new key cannot be an integer or a
      constraint fails; it moves to its new key when `id` is assigned; every
      other row stays. */
  function Reescribir(t: Tabla, filas: map<int, Fila>, id: int, a: Registro): (r: Result<map<int, Fila>>)
    requires id in filas
    ensures r.Ok? ==> forall k :: k in filas && k != id ==> k in r.value && r.value[k] == filas[k]
    ensures r.Ok? && "id" !in Asignadas(a) ==> r.value.Keys == filas.Keys && r.value[id] == Aplicar(filas[id], a)
    ensures r.Ok? && "id" in Asignadas(a) ==>
              var g := Aplicar(filas[id], a);
              && ClaveTras(id, a, g).Some?
              && var n := ClaveTras(id, a, g).value;
              && (n == id || n !in filas)
              && r.value.Keys == filas.Keys - {id} + {n}
              && r.value[n] == g - {"id"}
  {
    var g := Aplicar(filas[id], a);
    match ClaveTras(id, a, g)
    case None => Err("datatype mismatch")
    case Some(n) =>
      match Violacion(t, filas, id, n, a, g)
      case Some(msg) => Err(msg)
      case None =>
        if "id" in Asignadas(a) then Ok((filas - {id})[n := g - {"id"}])
        else Ok(filas[id := g])
  }

  /** `UPDATE t SET campos WHERE id = entidadId`: an unknown column fails the
      statement; a text id that names no row changes nothing; otherwise the
      named row is rewritten as `Reescribir` says. */
  function Actualizar(t: Tabla, filas: map<int, Fila>, entidadId: string, campos: Registro): (r: Result<map<int, Fila>>)
    ensures PrimeraDesconocida(t, campos).Some? ==> r.Err?
    ensures PrimeraDesconocida(t, campos).None? && !(TextoAId(entidadId).Some? && TextoAId(entidadId).value in filas) ==>
              r == Ok(filas)
    ensures PrimeraDesconocida(t, campos).None? && TextoAId(entidadId).Some? && TextoAId(entidadId).value in filas ==>
              r == Reescribir(t, filas, TextoAId(entidadId).value, Columnas(campos))
  {
    match PrimeraDesconocida(t, campos)
    case Some(c) => Err("no such column: " + NombreEscrito(c))
    case None =>
      match TextoAId(entidadId)
      case None => Ok(filas)
      case Some(id) =>
        if id !in filas then Ok(filas)
        else Reescribir(t, filas, id, Columnas(campos))
  }

  /** A one-assignment UPDATE of an existing row, on a column that is not the
      key, not UNIQUE and, when NOT NULL, given a value, writes that one
      cell. */
  lemma ActualizarUnaColumna(t: Tabla, filas: map<int, Fila>, entidadId: string, clave: string, v: Value, id: int)
    requires ColumnaSql(clave) in t.columnas && ColumnaSql(clave) != "id" && ColumnaSql(clave) !in t.unicas
    requires ColumnaSql(clave) in t.noNulas ==> v != Null
    requires TextoAId(entidadId) == Some(id) && id in filas
    ensures Actualizar(t, filas, entidadId, [(clave, v)]) == Ok(filas[id := filas[id][ColumnaSql(clave) := v]])
  {
    var campos := [(clave, v)];
    var col := ColumnaSql(clave);
    assert PrimeraDesconocida(t, campos).None?;
    var a := Columnas(campos);
    assert a == [(col, v)];
    assert Asignadas(a) == {col};
    var g := Aplicar(filas[id], a);
    assert g == Aplicar(filas[id], a[..0])[col := v];
    assert ClaveTras(id, a, g) == Some(id);
    assert Violacion(t, filas, id, id, a, g).None?;
  }

  /** A one-assignment UPDATE that sets the key of an existing row to an
      integer no other row holds moves the row to that key. */
  lemma ActualizarClave(t: Tabla, filas: map<int, Fila>, entidadId: string, clave: string, n: int, id: int)
    requires ColumnaSql(clave) == "id" && "id" in t.columnas && "id" !in t.noNulas && "id" !in t.unicas
    requires TextoAId(entidadId) == Some(id) && id in filas && n !in filas
    ensures Actualizar(t, filas, entidadId, [(clave, Int(n))]) == Ok((filas - {id})[n := filas[id]["id" := Int(n)] - {"id"}])
  {
    var campos := [(clave, Int(n))];
    assert PrimeraDesconocida(t, campos).None?;
    var a := Columnas(campos);
    assert a == [("id", Int(n))];
    assert Asignadas(a) == {"id"};
    var g := Aplicar(filas[id], a);
    assert g == Aplicar(filas[id], a[..0])["id" := Int(n)];
    assert ClaveTras(id, a, g) == Some(n);
    assert Violacion(t, filas, id, n, a, g).None?;
  }
}
