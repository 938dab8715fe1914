/** `crear_consulta`: a TENS session opens a consultation for a patient who
    is known to the consultation only by a pseudonym, the CIP. The RUT is
    stored encrypted, hashed and masked in `mapeo_pacientes`, keyed by a
    CIP drawn at random until one is free. */
module Consultas {
  import opened Values
  import opened Text
  import opened Seguridad
  import opened Tablas
  import opened Aprobaciones
  import opened App

  /** A draw of `secrets.randbelow(100000)`. */
  type Sufijo = n: nat | n < LIMITE_SUFIJO_CIP

  /** How the request ends; a created consultation carries the two rows it
      inserts. */
  datatype Creacion =
    | NoAutorizado                  // not a TENS session: sent back to the index
    | SinConsentimiento             // the consent box was not `aceptado`
    | RutRechazado(mensaje: string) // `validar_rut_chileno` refused the RUT
    | SinCip                        // every supplied draw gave a CIP already in use
    | ErrorCifrado                  // `cifrar_rut` gave nothing: the connection is closed uncommitted
    | FalloInsercion                // the consultation INSERT raised: nothing is committed
    | Creada(cip: string, paciente: MapeoPaciente, consulta: Consulta)

  /** The name the CIP prefix is taken from: the selected place's
      `nombre_posta`, or `GEN` when the form names no existing place. A NULL
      name (which `NOT NULL` rules out) gives the `GEN` prefix as well. */
  function CodigoPosta(lugares: map<int, Fila>, lugarId: Option<string>): string
  {
    if lugarId.None? then "GEN"
    else match FilaPorId(lugares, lugarId.value)
      case None => "GEN"
      case Some(f) => if Get(f, "nombre_posta").Str? then Get(f, "nombre_posta").s else ""
  }

  /** The CIP the redraw loop settles on: the first draw whose CIP is not in
      `mapeo_pacientes`, or `None` when the draws run out first. */
  function PrimerLibre(mapeo: map<string, MapeoPaciente>, posta: string, sorteos: seq<Sufijo>): Option<string>
  {
    if sorteos == [] then None
    else if GenerarCip(posta, sorteos[0]) !in mapeo then Some(GenerarCip(posta, sorteos[0]))
    else PrimerLibre(mapeo, posta, sorteos[1..])
  }

  /** The loop gives up exactly when every draw hits a CIP in use. */
  lemma {:induction false} PrimerLibreAgotado(mapeo: map<string, MapeoPaciente>, posta: string, sorteos: seq<Sufijo>)
    ensures PrimerLibre(mapeo, posta, sorteos).None? <==>
              forall i :: 0 <= i < |sorteos| ==> GenerarCip(posta, sorteos[i]) in mapeo
  {
    if sorteos != [] {
      var t := sorteos[1..];
      PrimerLibreAgotado(mapeo, posta, t);
      if forall i :: 0 <= i < |t| ==> GenerarCip(posta, t[i]) in mapeo {
        forall i | 1 <= i < |sorteos| ensures GenerarCip(posta, sorteos[i]) in mapeo {
          assert sorteos[i] == t[i - 1];
        }
      } else {
        var i :| 0 <= i < |t| && GenerarCip(posta, t[i]) !in mapeo;
        assert sorteos[i + 1] == t[i];
      }
    }
  }

  /** The loop settles on a draw all of whose predecessors hit a CIP in use. */
  lemma {:induction false} PrimerLibreEsPrimero(mapeo: map<string, MapeoPaciente>, posta: string, sorteos: seq<Sufijo>)
    requires PrimerLibre(mapeo, posta, sorteos).Some?
    ensures exists i :: 0 <= i < |sorteos| && PrimerLibre(mapeo, posta, sorteos).value == GenerarCip(posta, sorteos[i])
                        && forall j :: 0 <= j < i ==> GenerarCip(posta, sorteos[j]) in mapeo
  {
    if GenerarCip(posta, sorteos[0]) in mapeo {
      var t := sorteos[1..];
      PrimerLibreEsPrimero(mapeo, posta, t);
      var i :| 0 <= i < |t| && PrimerLibre(mapeo, posta, t).value == GenerarCip(posta, t[i])
               && forall j :: 0 <= j < i ==> GenerarCip(posta, t[j]) in mapeo;
      assert sorteos[i + 1] == t[i];
      forall j | 1 <= j < i + 1 ensures GenerarCip(posta, sorteos[j]) in mapeo {
        assert sorteos[j] == t[j - 1];
      }
    } else {
      assert PrimerLibre(mapeo, posta, sorteos).value == GenerarCip(posta, sorteos[0]);
    }
  }

  /** The CIP the loop settles on is free, well formed and carries the
      facility's prefix. */
  lemma {:induction false} PrimerLibreFresco(mapeo: map<string, MapeoPaciente>, posta: string, sorteos: seq<Sufijo>)
    requires PrimerLibre(mapeo, posta, sorteos).Some?
    ensures PrimerLibre(mapeo, posta, sorteos).value !in mapeo
    ensures ValidarCip(PrimerLibre(mapeo, posta, sorteos).value)
    ensures PrimerLibre(mapeo, posta, sorteos).value[..3] == PrefijoCip(posta)
  {
    if GenerarCip(posta, sorteos[0]) in mapeo {
      PrimerLibreFresco(mapeo, posta, sorteos[1..]);
    }
  }

  /** The loop `while SELECT … WHERE cip = ?: cip = generar_cip(nombre_posta)`,
      fed with the given draws. */
  method SortearCip(mapeo: map<string, MapeoPaciente>, posta: string, sorteos: seq<Sufijo>)
    returns (cip: Option<string>)
    ensures cip == PrimerLibre(mapeo, posta, sorteos)
  {
    var i := 0;
    while i < |sorteos| && GenerarCip(posta, sorteos[i]) in mapeo
      invariant 0 <= i <= |sorteos|
      invariant PrimerLibre(mapeo, posta, sorteos) == PrimerLibre(mapeo, posta, sorteos[i..])
    {
      assert sorteos[i..][1..] == sorteos[i + 1..];
      i := i + 1;
    }
    if i == |sorteos| {
      return None;
    }
    cip := Some(GenerarCip(posta, sorteos[i]));
  }

  /** The session name as the TEXT column `tens_nombre` stores it. */
  function TextoSesion(v: Value): string
  {
    match v
    case Str(s) => s
    case Int(i) => IntToString(i)
    case Null => ""
  }

  /** The end of the request, once a free CIP is found: abort on an empty
      encryption, raise on a NULL `lugar_id` or a missing session name
      (nothing is committed either way), otherwise the mapping row and the
      consultation row to insert. */
  function Alta(s: Sesion, lugarId: Option<string>, cip: string, cifrado: Option<string>,
                hash: Digest, mascara: string): Creacion
  {
    if cifrado.None? || cifrado.value == [] then ErrorCifrado
    else if lugarId.None? || s.nombre == Null then FalloInsercion
    else Creada(cip, MapeoPaciente(cifrado.value, hash, mascara, s.userId),
                Consulta(cip, hash, lugarId.value, TextoSesion(s.nombre), "Pendiente"))
  }

  /** The outcome of the request. `rutForm` is the `rut_paciente` field
      (empty when absent), `sorteos` the random draws, `aes` the encryption
      of this call and `sha` SHA-256 as hex text. */
  function Consultar(mapeo: map<string, MapeoPaciente>, lugares: map<int, Fila>,
                     s: Sesion, consentimiento: Option<string>, rutForm: string, lugarId: Option<string>,
                     sorteos: seq<Sufijo>, aes: string -> Option<string>, sha: string -> Digest): Creacion
  {
    if s.rol != Str(TENS) then NoAutorizado
    else if consentimiento != Some("aceptado") then SinConsentimiento
    else Paciente(mapeo, CodigoPosta(lugares, lugarId), s, Strip(rutForm), lugarId, sorteos, aes, sha)
  }

  /** The request past its guards, on the stripped RUT and the name the
      CIP prefix is taken from. */
  function Paciente(mapeo: map<string, MapeoPaciente>, posta: string, s: Sesion, rut: string,
                    lugarId: Option<string>, sorteos: seq<Sufijo>, aes: string -> Option<string>,
                    sha: string -> Digest): Creacion
  {
    var v := ValidarRutChileno(rut);
    if v.RutInvalido? then RutRechazado(MensajeRut(v))
    else
      var normal := NormalizarRut(rut).value;
      match PrimerLibre(mapeo, posta, sorteos)
      case None => SinCip
      case Some(cip) =>
        HashFormaNormal(rut, SAL_RUT, sha);
        Alta(s, lugarId, cip, CifrarRut(normal, aes), HashearRut(normal, SAL_RUT, sha).value, EnmascararRut(normal))
  }

  /** The committed tables: both rows inserted for a created consultation,
      nothing for any other outcome. */
  function Aplicar(mapeo: map<string, MapeoPaciente>, consultas: seq<Consulta>, r: Creacion)
    : (t: (map<string, MapeoPaciente>, seq<Consulta>))
    ensures r.Creada? ==> r.cip in t.0 && t.0[r.cip] == r.paciente && |t.1| == |consultas| + 1
                          && t.1[|consultas|] == r.consulta
    ensures !r.Creada? ==> t == (mapeo, consultas)
    ensures consultas <= t.1 && forall c :: c in mapeo && (!r.Creada? || c != r.cip) ==> c in t.0 && t.0[c] == mapeo[c]
  {
    if r.Creada? then (mapeo[r.cip := r.paciente], consultas + [r.consulta]) else (mapeo, consultas)
  }

  /** `crear_consulta` on the database. */
  method CrearConsulta(db: Db, s: Sesion, consentimiento: Option<string>, rutForm: string,
                       lugarId: Option<string>, sorteos: seq<Sufijo>,
                       aes: string -> Option<string>, sha: string -> Digest)
    returns (r: Creacion)
    modifies db`mapeo, db`consultas
    ensures r == Consultar(old(db.mapeo), db.lugares, s, consentimiento, rutForm, lugarId, sorteos, aes, sha)
    ensures (db.mapeo, db.consultas) == Aplicar(old(db.mapeo), old(db.consultas), r)
  {
    if s.rol != Str(TENS) {
      return NoAutorizado;
    }
    if consentimiento != Some("aceptado") {
      return SinConsentimiento;
    }
    var rut := Strip(rutForm);
    var v := ValidarRutChileno(rut);
    if v.RutInvalido? {
      return RutRechazado(MensajeRut(v));
    }
    var normal := NormalizarRut(rut).value;
    var posta := CodigoPosta(db.lugares, lugarId);
    var cip := SortearCip(db.mapeo, posta, sorteos);
    if cip.None? {
      return SinCip;
    }
    HashFormaNormal(rut, SAL_RUT, sha);
    r := GuardarConsulta(db, s, lugarId, cip.value, CifrarRut(normal, aes),
                         HashearRut(normal, SAL_RUT, sha).value, EnmascararRut(normal));
  }

  method GuardarConsulta(db: Db, s: Sesion, lugarId: Option<string>,
                         cip: string, cifrado: Option<string>, hash: Digest, mascara: string)
    returns (r: Creacion)
    modifies db`mapeo, db`consultas
    ensures r == Alta(s, lugarId, cip, cifrado, hash, mascara)
    ensures (db.mapeo, db.consultas) == Aplicar(old(db.mapeo), old(db.consultas), r)
  {
    if cifrado.None? || cifrado.value == [] {
      return ErrorCifrado;
    }
    if lugarId.None? || s.nombre == Null {
      return FalloInsercion;
    }
    var paciente := MapeoPaciente(cifrado.value, hash, mascara, s.userId);
    var consulta := Consulta(cip, hash, lugarId.value, TextoSesion(s.nombre), "Pendiente");
    db.mapeo := db.mapeo[cip := paciente];
    db.consultas := db.consultas + [consulta];
    r := Creada(cip, paciente, consulta);
  }

  lemma PacienteCreado(mapeo: map<string, MapeoPaciente>, posta: string, s: Sesion, rut: string,
                       lugarId: Option<string>, sorteos: seq<Sufijo>, aes: string -> Option<string>,
                       sha: string -> Digest)
    ensures Paciente(mapeo, posta, s, rut, lugarId, sorteos, aes, sha).Creada?
            <==> ValidarRutChileno(rut).RutValido?
                 && (exists i :: 0 <= i < |sorteos| && GenerarCip(posta, sorteos[i]) !in mapeo)
                 && CifrarRut(rut, aes).Some? && CifrarRut(rut, aes).value != []
                 && lugarId.Some? && s.nombre != Null
  {
    PrimerLibreAgotado(mapeo, posta, sorteos);
    CifrarFormaNormal(rut, aes);
    if ValidarRutChileno(rut).RutValido? {
      match PrimerLibre(mapeo, posta, sorteos)
      case None =>
      case Some(cip) =>
        var normal := NormalizarRut(rut).value;
        HashFormaNormal(rut, SAL_RUT, sha);
        assert Paciente(mapeo, posta, s, rut, lugarId, sorteos, aes, sha)
            == Alta(s, lugarId, cip, CifrarRut(normal, aes), HashearRut(normal, SAL_RUT, sha).value,
                    EnmascararRut(normal));
    }
  }

  /** A consultation is created exactly when a TENS session with consent
      submits a valid RUT, some draw gives a free CIP, the encryption yields
      text, and both `lugar_id` and the session name are present. */
  lemma ConsultaCreada(mapeo: map<string, MapeoPaciente>, lugares: map<int, Fila>,
                       s: Sesion, consentimiento: Option<string>, rutForm: string, lugarId: Option<string>,
                       sorteos: seq<Sufijo>, aes: string -> Option<string>, sha: string -> Digest)
    ensures Consultar(mapeo, lugares, s, consentimiento, rutForm, lugarId, sorteos, aes, sha).Creada?
            <==> s.rol == Str(TENS) && consentimiento == Some("aceptado")
                 && ValidarRutChileno(Strip(rutForm)).RutValido?
                 && (exists i :: 0 <= i < |sorteos| && GenerarCip(CodigoPosta(lugares, lugarId), sorteos[i]) !in mapeo)
                 && CifrarRut(Strip(rutForm), aes).Some? && CifrarRut(Strip(rutForm), aes).value != []
                 && lugarId.Some? && s.nombre != Null
  {
    PacienteCreado(mapeo, CodigoPosta(lugares, lugarId), s, Strip(rutForm), lugarId, sorteos, aes, sha);
  }

  /** A created consultation gets a fresh, well-formed CIP with the place's
      prefix; the mapping row holds the encryption, the salted hash and the
      mask of the submitted RUT, however it was written, and the
      consultation row holds the same hash and no RUT. */
  lemma ConsultaNueva(mapeo: map<string, MapeoPaciente>, lugares: map<int, Fila>,
                      s: Sesion, consentimiento: Option<string>, rutForm: string, lugarId: Option<string>,
                      sorteos: seq<Sufijo>, aes: string -> Option<string>, sha: string -> Digest)
    requires Consultar(mapeo, lugares, s, consentimiento, rutForm, lugarId, sorteos, aes, sha).Creada?
    ensures var r := Consultar(mapeo, lugares, s, consentimiento, rutForm, lugarId, sorteos, aes, sha);
            && r.cip !in mapeo && ValidarCip(r.cip) && r.cip[..3] == PrefijoCip(CodigoPosta(lugares, lugarId))
            && HashearRut(Strip(rutForm), SAL_RUT, sha) == Some(r.paciente.rutHash)
            && CifrarRut(Strip(rutForm), aes) == Some(r.paciente.rutCifrado)
            && r.paciente.rutEnmascarado == EnmascararRut(Strip(rutForm))
            && r.paciente.creadoPorId == s.userId
            && r.consulta == Consulta(r.cip, r.paciente.rutHash, lugarId.value, TextoSesion(s.nombre), "Pendiente")
  {
    var rut := Strip(rutForm);
    PrimerLibreFresco(mapeo, CodigoPosta(lugares, lugarId), sorteos);
    CifrarFormaNormal(rut, aes);
    HashFormaNormal(rut, SAL_RUT, sha);
    MascaraFormaNormal(rut);
  }
}
