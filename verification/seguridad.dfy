/** The codec and policy layer of the security module: the Chilean RUT
    (national identity number) with its Modulo-11 check digit, the password
    strength policy, the audit-record checksum and the patient pseudonym (CIP).
    SHA-256 and JSON serialisation are not modelled: they enter as function
    parameters. */
module Seguridad {
  import opened Values
  import opened Text

  // ---------------------------------------------------------------------
  // RUT
  // ---------------------------------------------------------------------

  /** The characters the validator removes: `.`, `-` and whitespace. */
  predicate EsSeparadorRut(c: char) { c == '.' || c == '-' || IsSpace(c) }

  /** `re.sub(r'[.\-\s]', '', rut.upper().strip())`. */
  function LimpiarRut(rut: string): (r: string)
    ensures |r| <= |rut|
    ensures forall i :: 0 <= i < |r| ==> !EsSeparadorRut(r[i]) && !IsLower(r[i])
  {
    if rut == [] then []
    else (if EsSeparadorRut(rut[0]) then [] else [ToUpper(rut[0])]) + LimpiarRut(rut[1..])
  }

  lemma {:induction false} LimpiarConcat(a: string, b: string)
    ensures LimpiarRut(a + b) == LimpiarRut(a) + LimpiarRut(b)
  {
    if a == [] {
      assert a + b == b;
    } else {
      assert (a + b)[0] == a[0];
      assert (a + b)[1..] == a[1..] + b;
      LimpiarConcat(a[1..], b);
    }
  }

  /** Text that is already clean is left as it is. */
  lemma {:induction false} LimpiarFijo(s: string)
    requires forall i :: 0 <= i < |s| ==> !EsSeparadorRut(s[i]) && !IsLower(s[i])
    ensures LimpiarRut(s) == s
  {
    if s != [] {
      LimpiarFijo(s[1..]);
    }
  }

  /** The multiplier of the digit `k` places from the right: 2, 3, …, 7, 2, 3, … */
  function Peso(k: nat): nat { 2 + k % 6 }

  /** The Modulo-11 weighted sum of a digit string, in closed form. */
  function SumaModulo11(numero: string): nat
    requires AllDigits(numero)
  {
    if numero == [] then 0
    else DigitValue(numero[0]) * Peso(|numero| - 1) + SumaModulo11(numero[1..])
  }

  /** The check digit of a RUT body: 11 - (sum mod 11), with 11 written `0`
      and 10 written `K`. */
  function DigitoVerificador(numero: string): (dv: char)
    requires AllDigits(numero)
    ensures dv == 'K' || IsDigit(dv)
    ensures dv == 'K' <==> SumaModulo11(numero) % 11 == 1
    ensures dv == '0' <==> SumaModulo11(numero) % 11 == 0
  {
    var d := 11 - SumaModulo11(numero) % 11;
    if d == 11 then '0' else if d == 10 then 'K' else DigitChar(d)
  }

  /** The loop of `validar_rut_chileno` that walks the body from the right,
      accumulating `suma` and cycling `multiplicador` through 2..7. */
  method CalcularDigitoVerificador(numero: string) returns (dv: char)
    requires AllDigits(numero)
    ensures dv == DigitoVerificador(numero)
  {
    var suma := 0;
    var multiplicador := 2;
    var i := |numero|;
    while i > 0
      invariant 0 <= i <= |numero|
      invariant multiplicador == Peso(|numero| - i)
      invariant suma == SumaModulo11(numero[i..])
    {
      i := i - 1;
      SumaPaso(numero, i);
      PesoSiguiente(|numero| - i - 1);
      suma := suma + DigitValue(numero[i]) * multiplicador;
      multiplicador := if multiplicador < 7 then multiplicador + 1 else 2;
    }
    assert numero[0..] == numero;
    var resto := suma % 11;
    var calculado := 11 - resto;
    if calculado == 11 {
      dv := '0';
    } else if calculado == 10 {
      dv := 'K';
    } else {
      dv := DigitChar(calculado);
    }
  }

  lemma SumaPaso(numero: string, i: nat)
    requires AllDigits(numero) && i < |numero|
    ensures SumaModulo11(numero[i..]) == DigitValue(numero[i]) * Peso(|numero| - i - 1) + SumaModulo11(numero[i + 1..])
  {
    assert numero[i..][1..] == numero[i + 1..];
  }

  /** The multiplier after `k` digits steps up by one, wrapping from 7 to 2. */
  lemma PesoSiguiente(k: nat)
    ensures Peso(k + 1) == if Peso(k) < 7 then Peso(k) + 1 else 2
  {
  }

  datatype RutError =
    | NoProporcionado
    | DemasiadoCorto
    | DemasiadoLargo
    | NoNumerico
    | DvInvalido
    | DvIncorrecto(esperado: char)

  /** `(es_valido, numero, digito_verificador, mensaje)`: the body and check
      digit on success, the reason otherwise. */
  datatype RutCheck = RutValido(numero: string, dv: char) | RutInvalido(error: RutError)

  function MensajeRut(r: RutCheck): string
  {
    match r
    case RutValido(_, _) => "RUT válido"
    case RutInvalido(NoProporcionado) => "RUT no proporcionado"
    case RutInvalido(DemasiadoCorto) => "RUT demasiado corto"
    case RutInvalido(DemasiadoLargo) => "RUT demasiado largo"
    case RutInvalido(NoNumerico) => "El RUT debe contener solo números"
    case RutInvalido(DvInvalido) => "Dígito verificador inválido"
    case RutInvalido(DvIncorrecto(d)) => "Dígito verificador incorrecto. Debería ser " + [d]
  }

  /** The acceptance condition on a cleaned RUT: 2 to 9 characters, a body of
      digits and a last character equal to the body's check digit. */
  predicate RutAceptado(c: string)
  {
    2 <= |c| <= 9 && AllDigits(c[..|c| - 1]) && c[|c| - 1] == DigitoVerificador(c[..|c| - 1])
  }

  /** `validar_rut_chileno`: valid exactly when the cleaned text is accepted,
      and then split into body and check digit. */
  function ValidarRutChileno(rut: string): (r: RutCheck)
    ensures r.RutValido? <==> RutAceptado(LimpiarRut(rut))
    ensures r.RutValido? ==> LimpiarRut(rut) == r.numero + [r.dv] && 1 <= |r.numero| <= 8
    ensures r.RutInvalido? && r.error.DvIncorrecto? ==>
              var c := LimpiarRut(rut);
              2 <= |c| <= 9 && AllDigits(c[..|c| - 1])
              && r.error.esperado == DigitoVerificador(c[..|c| - 1]) != c[|c| - 1]
  {
    if rut == [] then RutInvalido(NoProporcionado)
    else
      var c := LimpiarRut(rut);
      if |c| < 2 then RutInvalido(DemasiadoCorto)
      else if |c| > 9 then RutInvalido(DemasiadoLargo)
      else
        var numero := c[..|c| - 1];
        var dv := c[|c| - 1];
        assert c == numero + [dv];
        if !AllDigits(numero) then RutInvalido(NoNumerico)
        else if !(IsDigit(dv) || dv == 'K') then RutInvalido(DvInvalido)
        else if DigitoVerificador(numero) != dv then RutInvalido(DvIncorrecto(DigitoVerificador(numero)))
        else RutValido(numero, dv)
  }

  /** Each rejection reason of `validar_rut_chileno` holds exactly when the
      cleaned text fails the corresponding check and passes every earlier
      one. */
  lemma MotivosDeRechazo(rut: string)
    ensures var r := ValidarRutChileno(rut);
            var c := LimpiarRut(rut);
            && (r == RutInvalido(NoProporcionado) <==> rut == [])
            && (r == RutInvalido(DemasiadoCorto) <==> rut != [] && |c| < 2)
            && (r == RutInvalido(DemasiadoLargo) <==> rut != [] && |c| > 9)
            && (r == RutInvalido(NoNumerico) <==> rut != [] && 2 <= |c| <= 9 && !AllDigits(c[..|c| - 1]))
            && (r == RutInvalido(DvInvalido) <==>
                  rut != [] && 2 <= |c| <= 9 && AllDigits(c[..|c| - 1]) && !(IsDigit(c[|c| - 1]) || c[|c| - 1] == 'K'))
            && (r.RutInvalido? && r.error.DvIncorrecto? <==>
                  rut != [] && 2 <= |c| <= 9 && AllDigits(c[..|c| - 1]) && (IsDigit(c[|c| - 1]) || c[|c| - 1] == 'K')
                  && c[|c| - 1] != DigitoVerificador(c[..|c| - 1]))
  {
  }

  lemma SumaEjemplo()
    ensures SumaModulo11("12345678") == 138
  {
    assert "12345678"[1..] == "2345678";
    assert "2345678"[1..] == "345678";
    assert "345678"[1..] == "45678";
    assert "45678"[1..] == "5678";
    assert "5678"[1..] == "678";
    assert "678"[1..] == "78";
    assert "78"[1..] == "8";
    assert "8"[1..] == "";
  }

  /** The check digit of `12345678` is `5`. */
  lemma DigitoEjemplo(numero: string)
    requires numero == "12345678"
    ensures AllDigits(numero) && DigitoVerificador(numero) == '5'
  {
    SumaEjemplo();
    assert 11 - SumaModulo11(numero) % 11 == 5;
  }

  lemma LimpiarEjemplo(numero: string, d: char)
    requires numero == "12345678" && IsDigit(d)
    ensures LimpiarRut(numero + "-" + [d]) == numero + [d]
  {
    LimpiarFormaNormal(numero, d);
  }

  /** `12345678-5` is valid; `12345678-9` is rejected naming `5`. The
      arguments stand for the literals so that the proof works on the
      equations rather than by unfolding the literal text. */
  lemma EjemploRut(numero: string, rut: string, d: char)
    requires numero == "12345678" && rut == numero + "-" + [d]
    ensures d == '5' ==> ValidarRutChileno(rut) == RutValido(numero, '5')
    ensures d == '9' ==> ValidarRutChileno(rut) == RutInvalido(DvIncorrecto('5'))
  {
    if d == '5' || d == '9' {
      DigitoEjemplo(numero);
      LimpiarEjemplo(numero, d);
      var c := numero + [d];
      assert |c| == 9 && c[..|c| - 1] == numero && c[|c| - 1] == d;
      assert rut != [];
    }
  }

  /** `normalizar_rut`: `<body>-<dv>` for a valid RUT, `None` otherwise. */
  function NormalizarRut(rut: string): (r: Option<string>)
    ensures r.None? <==> ValidarRutChileno(rut).RutInvalido?
    ensures r.Some? ==> 3 <= |r.value| <= 10 && r.value[|r.value| - 2] == '-'
    ensures r.Some? ==> r.value == ValidarRutChileno(rut).numero + "-" + [ValidarRutChileno(rut).dv]
  {
    match ValidarRutChileno(rut)
    case RutValido(numero, dv) => Some(numero + "-" + [dv])
    case RutInvalido(_) => None
  }

  /** Cleaning the normal form of a valid RUT gives back body and check digit. */
  lemma {:induction false} LimpiarFormaNormal(numero: string, dv: char)
    requires AllDigits(numero) && (IsDigit(dv) || dv == 'K')
    ensures LimpiarRut(numero + "-" + [dv]) == numero + [dv]
  {
    LimpiarFijo(numero);
    LimpiarSeparador(numero, '-');
    LimpiarFijo([dv]);
    LimpiarConcat(numero + ['-'], [dv]);
  }

  /** Normalising is idempotent, and the normal form validates to the same
      body and check digit as the original text. */
  lemma {:induction false} NormalizarIdempotente(rut: string)
    requires NormalizarRut(rut).Some?
    ensures ValidarRutChileno(NormalizarRut(rut).value) == ValidarRutChileno(rut)
    ensures NormalizarRut(NormalizarRut(rut).value) == NormalizarRut(rut)
  {
    var v := ValidarRutChileno(rut);
    LimpiarFormaNormal(v.numero, v.dv);
    var c := v.numero + [v.dv];
    assert c[..|c| - 1] == v.numero;
  }

  /** `enmascarar_rut`: shows at most the last four body digits and the check digit. */
  function EnmascararRut(rut: string): (r: string)
    ensures 6 <= |r| <= 10 && r[..4] == "****" && r[|r| - 2] == '-'
    ensures ValidarRutChileno(rut).RutInvalido? ==> r == "****-*"
    ensures ValidarRutChileno(rut).RutValido? ==>
              var v := ValidarRutChileno(rut);
              r[|r| - 1] == v.dv
              && (|v.numero| > 4 ==> |r| == 10 && r[4..8] == v.numero[|v.numero| - 4..])
              && (|v.numero| <= 4 ==> |r| == 6)
  {
    match ValidarRutChileno(rut)
    case RutInvalido(_) => "****-*"
    case RutValido(numero, dv) =>
      if |numero| > 4 then "****" + numero[|numero| - 4..] + "-" + [dv]
      else "****-" + [dv]
  }

  /** Masking depends only on the normal form: masking the normalised text
      gives what masking the original gives. */
  lemma MascaraFormaNormal(rut: string)
    requires NormalizarRut(rut).Some?
    ensures EnmascararRut(NormalizarRut(rut).value) == EnmascararRut(rut)
  {
    NormalizarIdempotente(rut);
  }

  lemma EjemploMascara(numero: string, rut: string)
    requires numero == "12345678" && rut == numero + "-" + ['5']
    ensures EnmascararRut(rut) == "****5678-5"
  {
    EjemploRut(numero, rut, '5');
    assert numero[|numero| - 4..] == "5678";
  }

  /** The application salt of `hashear_rut`. */
  const SAL_RUT := "telemedicina_utalca_2026"

  /** A SHA-256 hex digest. */
  type Digest = s: string | |s| == 64
    witness "0000000000000000000000000000000000000000000000000000000000000000"

  /** `hashear_rut`: SHA-256 of the normal form followed by the salt; `None`
      for an invalid RUT. `sha` stands for `hashlib.sha256(text).hexdigest()`. */
  function HashearRut(rut: string, sal: string, sha: string -> Digest): (r: Option<Digest>)
    ensures r.None? <==> ValidarRutChileno(rut).RutInvalido?
    ensures r.Some? ==> r.value == sha(NormalizarRut(rut).value + sal)
  {
    match NormalizarRut(rut)
    case None => None
    case Some(n) => Some(sha(n + sal))
  }

  /** Two spellings of the same RUT hash alike; in particular hashing the
      normal form gives the hash of the original. */
  lemma HashFormaNormal(rut: string, sal: string, sha: string -> Digest)
    requires NormalizarRut(rut).Some?
    ensures HashearRut(NormalizarRut(rut).value, sal, sha) == HashearRut(rut, sal, sha)
  {
    NormalizarIdempotente(rut);
  }

  /** `cifrar_rut`: `None` for an invalid RUT; otherwise the AES-256-GCM
      encryption of the normal form, base64-encoded. `aes` stands for that
      encryption under this call's key and nonce, and is `None` where the
      library raises. */
  function CifrarRut(rut: string, aes: string -> Option<string>): (r: Option<string>)
  {
    match NormalizarRut(rut)
    case None => None
    case Some(n) => aes(n)
  }

  /** An invalid RUT is never encrypted, and encrypting the normal form is
      encrypting the original. */
  lemma CifrarFormaNormal(rut: string, aes: string -> Option<string>)
    ensures ValidarRutChileno(rut).RutInvalido? ==> CifrarRut(rut, aes).None?
    ensures NormalizarRut(rut).Some? ==> CifrarRut(NormalizarRut(rut).value, aes) == CifrarRut(rut, aes)
  {
    if NormalizarRut(rut).Some? {
      NormalizarIdempotente(rut);
    }
  }

  /** Two texts that clean to the same characters validate, normalise,
      mask and hash alike. */
  lemma MismaLimpieza(x: string, y: string, sal: string, sha: string -> Digest)
    requires LimpiarRut(x) == LimpiarRut(y) && LimpiarRut(x) != []
    ensures ValidarRutChileno(x) == ValidarRutChileno(y)
    ensures HashearRut(x, sal, sha) == HashearRut(y, sal, sha)
    ensures EnmascararRut(x) == EnmascararRut(y)
  {
    MismaValidacion(x, y);
    assert NormalizarRut(x) == NormalizarRut(y);
  }

  lemma MismaValidacion(x: string, y: string)
    requires LimpiarRut(x) == LimpiarRut(y) && LimpiarRut(x) != []
    ensures ValidarRutChileno(x) == ValidarRutChileno(y)
  {
    assert x != [] && y != [];
  }

  /** A trailing separator is dropped. */
  lemma LimpiarSeparador(x: string, c: char)
    requires EsSeparadorRut(c)
    ensures LimpiarRut(x + [c]) == LimpiarRut(x)
  {
    LimpiarConcat(x, [c]);
    assert LimpiarRut([c]) == [];
  }

  /** A trailing run of digits is kept as it is. */
  lemma LimpiarDigitos(x: string, y: string)
    requires AllDigits(y)
    ensures LimpiarRut(x + y) == LimpiarRut(x) + y
  {
    LimpiarConcat(x, y);
    LimpiarFijo(y);
  }

  lemma LimpiarPuntos(a: string, b: string, c: string, d: char)
    requires AllDigits(a) && AllDigits(b) && AllDigits(c) && IsDigit(d)
    ensures LimpiarRut(a + "." + b + "." + c + "-" + [d]) == a + b + c + [d]
  {
    LimpiarFijo(a);
    var s1 := a + ['.'];
    LimpiarSeparador(a, '.');
    var s2 := s1 + b;
    LimpiarDigitos(s1, b);
    var s3 := s2 + ['.'];
    LimpiarSeparador(s2, '.');
    var s4 := s3 + c;
    LimpiarDigitos(s3, c);
    var s5 := s4 + ['-'];
    LimpiarSeparador(s4, '-');
    LimpiarDigitos(s5, [d]);
    assert a + "." + b + "." + c + "-" + [d] == s5 + [d];
  }

  /** The thousands dots do not change the hash: `12.345.678-5` and
      `12345678-5` hash alike, and validly. */
  lemma EjemploHash(a: string, b: string, c: string, sal: string, sha: string -> Digest)
    requires a == "12" && b == "345" && c == "678"
    ensures HashearRut(a + "." + b + "." + c + "-" + ['5'], sal, sha)
         == HashearRut(a + b + c + "-" + ['5'], sal, sha)
    ensures HashearRut(a + b + c + "-" + ['5'], sal, sha).Some?
  {
    var numero := a + b + c;
    assert numero == "12345678";
    LimpiarPuntos(a, b, c, '5');
    LimpiarFormaNormal(numero, '5');
    MismaLimpieza(a + "." + b + "." + c + "-" + ['5'], numero + "-" + ['5'], sal, sha);
    EjemploRut(numero, numero + "-" + ['5'], '5');
  }

  /** `int(numero)` written back in decimal: leading zeros dropped. */
  function SinCerosIzquierda(s: string): (r: string)
    requires AllDigits(s) && s != []
    ensures AllDigits(r) && r != [] && |r| <= |s|
    ensures r[0] == '0' ==> r == "0"
    ensures s[0] != '0' ==> r == s
  {
    if |s| > 1 && s[0] == '0' then SinCerosIzquierda(s[1..]) else s
  }

  /** `g` is the non-empty digit string `s` written with a dot before every
      group of three digits counted from the right: `(|s| - 1) / 3` dots, at
      the positions 4, 8, ... from the end. */
  predicate Agrupado(g: string, s: string)
  {
    && s != []
    && |g| == |s| + (|s| - 1) / 3
    && (forall i :: 0 <= i < |g| ==> IsDigit(g[i]) || g[i] == '.')
    && (forall i :: 0 <= i < |g| ==> (g[i] == '.' <==> i > 0 && (|g| - i) % 4 == 0))
  }

  /** `'{:,}'.format(n).replace(',', '.')`: a dot between groups of three
      digits counted from the right. */
  function AgruparMiles(s: string): (r: string)
    requires AllDigits(s)
    ensures s == [] ==> r == []
    ensures s != [] ==> Agrupado(r, s)
  {
    if |s| <= 3 then
      GrupoCorto(s);
      s
    else
      var g := AgruparMiles(s[..|s| - 3]);
      GrupoSiguiente(g, s);
      g + "." + s[|s| - 3..]
  }

  /** Up to three digits need no dot. */
  lemma GrupoCorto(s: string)
    requires |s| <= 3 && AllDigits(s)
    ensures s != [] ==> Agrupado(s, s)
  {
    forall i | 0 <= i < |s| ensures s[i] != '.' && !(i > 0 && (|s| - i) % 4 == 0) {
      assert 0 < |s| - i < 4;
    }
  }

  /** Appending the last three digits after a dot to the grouping of the
      digits before them groups the whole body. */
  lemma GrupoSiguiente(g: string, s: string)
    requires |s| > 3 && AllDigits(s) && Agrupado(g, s[..|s| - 3])
    ensures Agrupado(g + "." + s[|s| - 3..], s)
  {
    var a := s[..|s| - 3];
    assert (|s| - 1) / 3 == (|a| - 1) / 3 + 1;
    PuntosTrasGrupo(g, s[|s| - 3..]);
  }

  lemma PuntosTrasGrupo(g: string, t: string)
    requires g != [] && |t| == 3 && AllDigits(t)
    requires forall i :: 0 <= i < |g| ==> IsDigit(g[i]) || g[i] == '.'
    requires forall i :: 0 <= i < |g| ==> (g[i] == '.' <==> i > 0 && (|g| - i) % 4 == 0)
    ensures var r := g + "." + t;
            && (forall i :: 0 <= i < |r| ==> IsDigit(r[i]) || r[i] == '.')
            && (forall i :: 0 <= i < |r| ==> (r[i] == '.' <==> i > 0 && (|r| - i) % 4 == 0))
  {
    var r := g + "." + t;
    forall i | 0 <= i < |r|
      ensures IsDigit(r[i]) || r[i] == '.'
      ensures r[i] == '.' <==> i > 0 && (|r| - i) % 4 == 0
    {
      if i < |g| {
        assert r[i] == g[i];
        assert |r| - i == (|g| - i) + 4;
      } else if i > |g| {
        assert r[i] == t[i - |g| - 1];
      }
    }
  }

  /** Removing the dots undoes the grouping. */
  lemma {:induction false} LimpiarAgrupar(s: string)
    requires AllDigits(s)
    ensures LimpiarRut(AgruparMiles(s)) == s
  {
    if |s| <= 3 {
      LimpiarFijo(s);
    } else {
      var a, b := s[..|s| - 3], s[|s| - 3..];
      assert AllDigits(a) && AllDigits(b);
      var g := AgruparMiles(a);
      assert AgruparMiles(s) == (g + ['.']) + b;
      LimpiarAgrupar(a);
      LimpiarSeparador(g, '.');
      LimpiarDigitos(g + ['.'], b);
      assert s == a + b;
    }
  }

  /** `formatear_rut(numero, dv)`: `Ok(None)` when either part is empty; an
      error (the `ValueError` of `int()`) when `numero` is not an integer;
      otherwise `Formato` of the number read. */
  function FormatearRut(numero: string, dv: string): (r: Result<Option<string>>)
    ensures r == Ok(None) <==> numero == [] || dv == []
    ensures r.Err? <==> numero != [] && dv != [] && LeerEntero(numero).NoEntero?
    ensures r.Ok? && r.value.Some? ==> LeerEntero(numero).Entero? && r.value.value == Formato(LeerEntero(numero), dv)
  {
    if numero == [] || dv == [] then Ok(None)
    else
      var e := LeerEntero(numero);
      if e.NoEntero? then Err("invalid literal for int() with base 10: '" + numero + "'")
      else Ok(Some(Formato(e, dv)))
  }

  /** `'{:,}'.format(int(numero)).replace(',', '.')` followed by `-dv`: the
      minus sign of a negative number, then its digits grouped in thousands
      with dots (`AgruparMiles`, whose result is `Agrupado`), then a hyphen
      and `dv`; removing the dots gives back the digits of the number. */
  function Formato(e: Entero, dv: string): (t: string)
    requires e.Entero? && e.cifras != [] && AllDigits(e.cifras)
    ensures var n := SinCerosIzquierda(e.cifras);
            var signo := if e.negativo && n != "0" then "-" else "";
            && |signo| + |dv| + 1 <= |t| && t[..|signo|] == signo && EndsWith(t, "-" + dv)
            && t[|signo|..|t| - |dv| - 1] == AgruparMiles(n) && LimpiarRut(t[|signo|..|t| - |dv| - 1]) == n
  {
    var n := SinCerosIzquierda(e.cifras);
    var signo := if e.negativo && n != "0" then "-" else "";
    LimpiarAgrupar(n);
    PartesDeFormato(signo, AgruparMiles(n), dv);
    signo + AgruparMiles(n) + "-" + dv
  }

  lemma PartesDeFormato(signo: string, g: string, dv: string)
    ensures var r := signo + g + "-" + dv;
            && r[..|signo|] == signo && r[|signo|..|r| - |dv| - 1] == g && EndsWith(r, "-" + dv)
  {
    var r := signo + g + "-" + dv;
    assert r[|r| - |dv| - 1..] == "-" + dv;
  }

  /** A digit body with no leading zero is formatted without a sign. */
  lemma FormatoSinCeros(numero: string, dv: string)
    requires numero != [] && AllDigits(numero) && numero[0] != '0' && dv != []
    ensures FormatearRut(numero, dv) == Ok(Some(AgruparMiles(numero) + "-" + dv))
  {
    assert "" + AgruparMiles(numero) + "-" + dv == AgruparMiles(numero) + "-" + dv;
  }

  /** Formatting a valid RUT whose body has no leading zero and validating the
      result again gives the same body and check digit. */
  lemma FormatearRevalida(rut: string)
    requires ValidarRutChileno(rut).RutValido?
    requires ValidarRutChileno(rut).numero[0] != '0'
    ensures var v := ValidarRutChileno(rut);
            FormatearRut(v.numero, [v.dv]).Ok? && FormatearRut(v.numero, [v.dv]).value.Some?
            && ValidarRutChileno(FormatearRut(v.numero, [v.dv]).value.value) == v
  {
    var v := ValidarRutChileno(rut);
    var f := AgruparMiles(v.numero) + "-" + [v.dv];
    FormatoSinCeros(v.numero, [v.dv]);
    LimpiezaDeFormato(v.numero, v.dv);
    MismaValidacion(f, rut);
  }

  /** Removing the dots and the hyphen from a formatted RUT leaves its body
      and check digit. */
  lemma LimpiezaDeFormato(numero: string, dv: char)
    requires numero != [] && AllDigits(numero) && (IsDigit(dv) || dv == 'K')
    ensures LimpiarRut(AgruparMiles(numero) + "-" + [dv]) == numero + [dv]
  {
    LimpiarConcat(AgruparMiles(numero) + "-", [dv]);
    LimpiarConcat(AgruparMiles(numero), "-");
    LimpiarAgrupar(numero);
    LimpiarFijo([dv]);
  }

  // ---------------------------------------------------------------------
  // Password policy
  // ---------------------------------------------------------------------

  datatype ClaseCaracter = Mayuscula | Minuscula | Digito

  predicate EnClase(c: char, k: ClaseCaracter)
  {
    match k
    case Mayuscula => IsUpper(c)
    case Minuscula => IsLower(c)
    case Digito => IsDigit(c)
  }

  /** `re.search(<class>, p)`: a left-to-right scan for a character of the class. */
  function Buscar(p: string, k: ClaseCaracter): (b: bool)
    ensures b <==> exists i :: 0 <= i < |p| && EnClase(p[i], k)
  {
    if p == [] then false
    else if EnClase(p[0], k) then true
    else
      assert forall i :: 1 <= i < |p| ==> p[i] == p[1..][i - 1];
      Buscar(p[1..], k)
  }

  ghost predicate Tiene(p: string, k: ClaseCaracter)
  {
    exists i :: 0 <= i < |p| && EnClase(p[i], k)
  }

  const MSG_PASSWORD_CORTA := "La contraseña debe tener al menos 8 caracteres"
  const MSG_PASSWORD_MAYUSCULA := "La contraseña debe contener al menos una mayúscula"
  const MSG_PASSWORD_MINUSCULA := "La contraseña debe contener al menos una minúscula"
  const MSG_PASSWORD_NUMERO := "La contraseña debe contener al menos un número"
  const MSG_PASSWORD_VALIDA := "Contraseña válida"

  /** `validar_politica_password`: at least 8 characters, an upper-case
      letter, a lower-case letter and a digit; the reason is the first rule
      that fails, in that order. */
  function ValidarPoliticaPassword(p: string): (r: (bool, string))
    ensures r.0 <==> |p| >= 8 && Tiene(p, Mayuscula) && Tiene(p, Minuscula) && Tiene(p, Digito)
    ensures r.0 ==> r.1 == MSG_PASSWORD_VALIDA
    ensures |p| < 8 ==> r.1 == MSG_PASSWORD_CORTA
    ensures |p| >= 8 && !Tiene(p, Mayuscula) ==> r.1 == MSG_PASSWORD_MAYUSCULA
    ensures |p| >= 8 && Tiene(p, Mayuscula) && !Tiene(p, Minuscula) ==> r.1 == MSG_PASSWORD_MINUSCULA
    ensures |p| >= 8 && Tiene(p, Mayuscula) && Tiene(p, Minuscula) && !Tiene(p, Digito) ==> r.1 == MSG_PASSWORD_NUMERO
  {
    if |p| < 8 then (false, MSG_PASSWORD_CORTA)
    else if !Buscar(p, Mayuscula) then (false, MSG_PASSWORD_MAYUSCULA)
    else if !Buscar(p, Minuscula) then (false, MSG_PASSWORD_MINUSCULA)
    else if !Buscar(p, Digito) then (false, MSG_PASSWORD_NUMERO)
    else (true, MSG_PASSWORD_VALIDA)
  }

  // ---------------------------------------------------------------------
  // Record checksum
  // ---------------------------------------------------------------------

  const CLAVE_CHECKSUM := "checksum"

  /** `{k: v for k, v in datos.items() if k != 'checksum'}`. */
  function SinChecksum(d: Registro): Registro
  {
    if d == [] then []
    else if d[0].0 == CLAVE_CHECKSUM then SinChecksum(d[1..])
    else [d[0]] + SinChecksum(d[1..])
  }

  /** What is left has no `checksum` key, only items of the input, and keys
      as distinct as the input's. */
  lemma {:induction false} SinChecksumClaves(d: Registro)
    ensures forall i :: 0 <= i < |SinChecksum(d)| ==> SinChecksum(d)[i].0 != CLAVE_CHECKSUM && SinChecksum(d)[i] in d
    ensures ClavesDistintas(d) ==> ClavesDistintas(SinChecksum(d))
  {
    if d != [] {
      SinChecksumClaves(d[1..]);
      var t := SinChecksum(d[1..]);
      forall i | 0 <= i < |t| ensures t[i] in d {
        var k :| 0 <= k < |d[1..]| && d[1..][k] == t[i];
        assert d[k + 1] == t[i];
      }
      if d[0].0 != CLAVE_CHECKSUM {
        assert ClavesDistintas(d) ==> forall i :: 0 <= i < |t| ==> t[i].0 != d[0].0;
        assert ([d[0]] + t)[1..] == t;
      }
    }
  }

  /** Dropping `checksum` keeps every other item, as often as it occurs. */
  lemma {:induction false} SinChecksumItems(d: Registro)
    ensures forall x :: multiset(SinChecksum(d))[x] == if x.0 == CLAVE_CHECKSUM then 0 else multiset(d)[x]
  {
    if d != [] {
      assert d == [d[0]] + d[1..];
      SinChecksumItems(d[1..]);
    }
  }

  /** Items in strictly increasing key order (Python's string order). */
  ghost predicate OrdenadoPorClave(r: Registro)
  {
    forall i, j :: 0 <= i < j < |r| ==> Less(r[i].0, r[j].0)
  }

  /** One step of the insertion sort behind `sorted(datos.items())`. */
  function InsertarPorClave(x: (string, Value), r: Registro): Registro
  {
    if r == [] || Less(x.0, r[0].0) then [x] + r
    else [r[0]] + InsertarPorClave(x, r[1..])
  }

  /** Inserting an item whose key is new into an ordered list keeps it
      ordered and adds exactly that item. */
  lemma {:induction false} InsertarOrdena(x: (string, Value), r: Registro)
    requires OrdenadoPorClave(r)
    requires forall i :: 0 <= i < |r| ==> r[i].0 != x.0
    ensures OrdenadoPorClave(InsertarPorClave(x, r))
    ensures multiset(InsertarPorClave(x, r)) == multiset(r) + multiset{x}
  {
    if r == [] || Less(x.0, r[0].0) {
      CabezaMenor(x, r);
    } else {
      LessTotal(x.0, r[0].0);
      assert r == [r[0]] + r[1..];
      ColaOrdenada(r);
      InsertarOrdena(x, r[1..]);
      var t := InsertarPorClave(x, r[1..]);
      forall j | 0 <= j < |t| ensures Less(r[0].0, t[j].0) {
        assert t[j] in multiset(t);
        if t[j] != x {
          assert t[j] in multiset(r[1..]);
        }
      }
      OrdenadoCons(r[0], t);
    }
  }

  /** A key below the first key of an ordered list is below all of them. */
  lemma CabezaMenor(x: (string, Value), r: Registro)
    requires OrdenadoPorClave(r)
    requires r == [] || Less(x.0, r[0].0)
    ensures OrdenadoPorClave([x] + r)
  {
    forall j | 0 < j < |r| ensures Less(x.0, r[j].0) {
      LessTransitive(x.0, r[0].0, r[j].0);
    }
    OrdenadoCons(x, r);
  }

  lemma OrdenadoCons(h: (string, Value), t: Registro)
    requires OrdenadoPorClave(t)
    requires forall j :: 0 <= j < |t| ==> Less(h.0, t[j].0)
    ensures OrdenadoPorClave([h] + t)
  {
    forall i, j | 0 <= i < j < |[h] + t| ensures Less(([h] + t)[i].0, ([h] + t)[j].0) {
      assert ([h] + t)[j] == t[j - 1];
      if i > 0 {
        assert ([h] + t)[i] == t[i - 1];
      }
    }
  }

  /** `sort_keys=True`: the items ordered by key. */
  function OrdenarPorClave(d: Registro): Registro
  {
    if d == [] then [] else InsertarPorClave(d[0], OrdenarPorClave(d[1..]))
  }

  /** With distinct keys, sorting orders the items and keeps each of them. */
  lemma {:induction false} OrdenarOrdena(d: Registro)
    requires ClavesDistintas(d)
    ensures OrdenadoPorClave(OrdenarPorClave(d))
    ensures multiset(OrdenarPorClave(d)) == multiset(d)
  {
    if d != [] {
      assert d == [d[0]] + d[1..];
      assert ClavesDistintas(d[1..]);
      OrdenarOrdena(d[1..]);
      var t := OrdenarPorClave(d[1..]);
      forall i | 0 <= i < |t| ensures t[i].0 != d[0].0 {
        assert t[i] in multiset(d[1..]);
      }
      InsertarOrdena(d[0], t);
    }
  }

  lemma ColaOrdenada(a: Registro)
    requires OrdenadoPorClave(a) && a != []
    ensures OrdenadoPorClave(a[1..])
    ensures multiset(a[1..]) == multiset(a) - multiset{a[0]}
    ensures forall x :: x in a[1..] ==> Less(a[0].0, x.0)
  {
    assert a == [a[0]] + a[1..];
  }

  /** The head of a key-ordered list is its element with the least key. */
  lemma CabezaMinima(a: Registro, x: (string, Value))
    requires OrdenadoPorClave(a) && x in a && x != a[0]
    ensures Less(a[0].0, x.0)
  {
    ColaOrdenada(a);
  }

  /** Two key-ordered lists with the same items are the same list. */
  lemma {:induction false} OrdenUnico(a: Registro, b: Registro)
    requires OrdenadoPorClave(a) && OrdenadoPorClave(b)
    requires multiset(a) == multiset(b)
    ensures a == b
  {
    if a != [] {
      assert a[0] in multiset(b) && b[0] in multiset(a);
      if a[0] != b[0] {
        CabezaMinima(a, b[0]);
        CabezaMinima(b, a[0]);
        LessAsymmetric(a[0].0, b[0].0);
        assert false;
      }
      ColaOrdenada(a);
      ColaOrdenada(b);
      OrdenUnico(a[1..], b[1..]);
      assert a == [a[0]] + a[1..] && b == [b[0]] + b[1..];
    }
  }

  /** `generar_checksum_registro`: the first 32 hex digits of the digest of the
      key-sorted items without `checksum`. `sha` stands for
      `sha256(json.dumps(items, default=str)).hexdigest()`. */
  function GenerarChecksumRegistro(d: Registro, sha: Registro -> Digest): (c: string)
    ensures |c| == 32
  {
    sha(OrdenarPorClave(SinChecksum(d)))[..32]
  }

  /** The checksum ignores key order: two dictionaries with the same items
      (in any insertion order) have the same checksum. */
  lemma ChecksumIgnoraOrden(a: Registro, b: Registro, sha: Registro -> Digest)
    requires ClavesDistintas(a) && ClavesDistintas(b)
    requires multiset(a) == multiset(b)
    ensures GenerarChecksumRegistro(a, sha) == GenerarChecksumRegistro(b, sha)
  {
    var sa, sb := SinChecksum(a), SinChecksum(b);
    SinChecksumItems(a);
    SinChecksumItems(b);
    assert multiset(sa) == multiset(sb);
    SinChecksumClaves(a);
    SinChecksumClaves(b);
    OrdenarOrdena(sa);
    OrdenarOrdena(sb);
    OrdenUnico(OrdenarPorClave(sa), OrdenarPorClave(sb));
  }

  /** `datos['checksum'] = c`: replace the value in place, or append the key. */
  function ConChecksum(d: Registro, c: string): (r: Registro)
    ensures forall i :: 0 <= i < |r| ==> r[i].0 == CLAVE_CHECKSUM || r[i] in d
    ensures Lookup(r, CLAVE_CHECKSUM) == Str(c)
  {
    if d == [] then [(CLAVE_CHECKSUM, Str(c))]
    else if d[0].0 == CLAVE_CHECKSUM then [(CLAVE_CHECKSUM, Str(c))] + d[1..]
    else
      var t := ConChecksum(d[1..], c);
      assert ([d[0]] + t)[1..] == t;
      [d[0]] + t
  }

  /** Stamping keeps the keys distinct and leaves every other item as it was. */
  lemma {:induction false} ConChecksumConserva(d: Registro, c: string)
    ensures ClavesDistintas(d) ==> ClavesDistintas(ConChecksum(d, c))
    ensures SinChecksum(ConChecksum(d, c)) == SinChecksum(d)
  {
    if d != [] && d[0].0 != CLAVE_CHECKSUM {
      ConChecksumConserva(d[1..], c);
      var t := ConChecksum(d[1..], c);
      assert ([d[0]] + t)[1..] == t;
      assert ClavesDistintas(d) ==> forall i :: 0 <= i < |t| ==> t[i].0 != d[0].0;
    } else if d != [] {
      var r := ConChecksum(d, c);
      assert r[1..] == d[1..];
      assert ClavesDistintas(d) ==> forall i :: 1 <= i < |r| ==> r[i].0 != CLAVE_CHECKSUM;
    }
  }

  /** The checksum does not depend on a `checksum` entry already present. */
  lemma ChecksumIgnoraCampoChecksum(d: Registro, c: string, sha: Registro -> Digest)
    requires ClavesDistintas(d)
    ensures ClavesDistintas(ConChecksum(d, c))
    ensures GenerarChecksumRegistro(ConChecksum(d, c), sha) == GenerarChecksumRegistro(d, sha)
  {
    ConChecksumConserva(d, c);
  }

  /** `verificar_integridad_registro`: false without a (truthy) stored
      checksum, otherwise whether it equals the recomputed one. */
  function VerificarIntegridadRegistro(d: Registro, sha: Registro -> Digest): (ok: bool)
    ensures !Truthy(Lookup(d, CLAVE_CHECKSUM)) ==> !ok
    ensures ok ==> Lookup(d, CLAVE_CHECKSUM) == Str(GenerarChecksumRegistro(d, sha))
  {
    var guardado := Lookup(d, CLAVE_CHECKSUM);
    Truthy(guardado) && guardado == Str(GenerarChecksumRegistro(d, sha))
  }

  /** A dictionary stamped with its own checksum verifies. */
  lemma SelladoVerifica(d: Registro, sha: Registro -> Digest)
    requires ClavesDistintas(d)
    ensures ClavesDistintas(ConChecksum(d, GenerarChecksumRegistro(d, sha)))
            && VerificarIntegridadRegistro(ConChecksum(d, GenerarChecksumRegistro(d, sha)), sha)
  {
    ChecksumIgnoraCampoChecksum(d, GenerarChecksumRegistro(d, sha), sha);
  }

  // ---------------------------------------------------------------------
  // Patient pseudonym (CIP)
  // ---------------------------------------------------------------------

  /** `''.join(c for c in texto if c.isalpha())`. */
  function Letras(s: string): (r: string)
    ensures |r| <= |s|
    ensures forall i :: 0 <= i < |r| ==> IsLetter(r[i])
  {
    if s == [] then []
    else (if IsLetter(s[0]) then [s[0]] else []) + Letras(s[1..])
  }

  /** The three-letter prefix: `GEN` for an empty facility name, otherwise its
      first three letters upper-cased and padded with `X`. */
  function PrefijoCip(codigoPosta: string): (p: string)
    ensures |p| == 3 && forall i :: 0 <= i < 3 ==> IsUpper(p[i])
    ensures codigoPosta == [] ==> p == "GEN"
    ensures codigoPosta != [] ==>
              var l := Letras(codigoPosta);
              forall i :: 0 <= i < 3 ==> p[i] == if i < |l| then ToUpper(l[i]) else 'X'
  {
    if codigoPosta == [] then "GEN"
    else
      var l := Letras(codigoPosta);
      var t := if |l| < 3 then l else l[..3];
      UpperAll(t) + seq(3 - |t|, _ => 'X')
  }

  const LIMITE_SUFIJO_CIP := 100000

  /** `^[A-Z]{3}-\d{5}` as a whole string. */
  predicate FormaCip(s: string)
  {
    |s| == 9 && IsUpper(s[0]) && IsUpper(s[1]) && IsUpper(s[2]) && s[3] == '-' && AllDigits(s[4..])
  }

  /** `validar_cip`: `re.match(r'^[A-Z]{3}-\d{5}$', cip)`, where `$` also
      matches just before one final newline. */
  predicate ValidarCip(cip: string)
  {
    FormaCip(cip) || (|cip| == 10 && cip[9] == '\n' && FormaCip(cip[..9]))
  }

  /** `generar_cip` with the random draw `sufijo` (from `randbelow(100000)`)
      passed in: `<prefix>-<5 digits>`, a valid CIP whose digits read back as
      the draw. */
  function GenerarCip(codigoPosta: string, sufijo: nat): (cip: string)
    requires sufijo < LIMITE_SUFIJO_CIP
    ensures |cip| == 9 && cip[..3] == PrefijoCip(codigoPosta) && cip[3] == '-'
    ensures AllDigits(cip[4..]) && ParseDigits(cip[4..]) == sufijo
    ensures ValidarCip(cip)
  {
    var cip := PrefijoCip(codigoPosta) + "-" + PadDigits(sufijo, 5);
    assert cip[4..] == PadDigits(sufijo, 5);
    ParsePadDigits(sufijo, 5);
    cip
  }

  /** Different draws for the same facility give different CIPs. */
  lemma CipInyectivo(codigoPosta: string, a: nat, b: nat)
    requires a < LIMITE_SUFIJO_CIP && b < LIMITE_SUFIJO_CIP && a != b
    ensures GenerarCip(codigoPosta, a) != GenerarCip(codigoPosta, b)
  {
  }

  /** The pattern's `$` lets one trailing newline through. */
  lemma CipConSaltoFinal()
    ensures ValidarCip("ABC-12345\n") && !FormaCip("ABC-12345\n")
    ensures !ValidarCip("ABC-1234") && !ValidarCip("abc-12345")
  {
    assert "ABC-12345\n"[..9] == "ABC-12345";
  }
}
