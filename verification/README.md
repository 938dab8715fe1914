# Telemedicina: security, approvals and audit core

A Dafny model of the part of the ProgramaTelemedicina web application that
decides who may do what to the clinic's data and what trace it leaves:

- **Patient identifiers** (`utils/seguridad.py`): the Chilean RUT check
  (modulo-11 check digit), its normal form `12345678-9`, the masked form
  `****5678-9`, the salted hash used to look a patient up, the encrypted copy,
  the password policy, the record checksum and the pseudonymous patient code
  (CIP, `AAA-99999`).
- **The audit trail** (`utils/auditoria.py`): `registrar_auditoria` appends one
  row carrying a checksum over ten of its fields and swallows every failure;
  `obtener_auditoria` returns the matching rows newest first.
- **Approval requests** (`utils/aprobaciones.py`): which role needs an approval
  for which action, filing a request, listing and counting pending requests,
  approving (which runs the action: delete a user, a place or a backup file,
  or patch a user or a place) and rejecting.
- **The routes that change state** (`app.py`): `login` with its failed-attempt
  counter and thirty-minute lock, `eliminar_usuarios` and `eliminar_lugares`
  (the master administrator deletes at once, an administrator files a
  request), `crear_consulta` (a TENS registers a patient under a fresh CIP
  and opens a consultation) and `admin_eliminar_respaldos` (deleting backup
  files after re-entering the password).

The SQLite connection is the class `Tablas.Db`: one field per table the core
touches (`usuarios`, `lugares`, `solicitudes_aprobacion`, `mapeo_pacientes`,
`consultas`, `auditoria`) plus the set of file names in the backup directory.
Rows are maps from column name to a `Value` (`Null`, text or integer) with
Python truthiness. An id that arrives as form text matches an integer key when
it is a plain decimal numeral; SQLite converts some other numeric spellings
too, which the model does not (see "Left out"). Each route is a method on
`Db` proved equal to a function of the old tables, and the properties the
application relies on are lemmas about those functions. Examples: protected
rows survive, the last administrator stays, the audit trail stays intact, a
request is resolved once, and the backup sweep deletes exactly the eligible
selected files.

Patching a user or a place splices each key of `datos_nuevos` into an
`UPDATE … SET <key> = ?` statement. The model resolves a key to the column
SQLite reads. The blanks around the key are skipped, one pair of identifier
quotes or brackets is removed, and case does not matter. Assigning `id` moves
the row to its new key. The dispatch follows the code, which checks each key
against the excluded names letter for letter. A corrected check, on the
resolved column, is modelled beside it (see "Findings").

Hashing, encryption, JSON serialisation, the clock and random draws are
parameters: `sha`, `aes` and `verificar` are functions passed in, `ahora` is
an integer timestamp in seconds, and the CIP suffixes are a sequence of draws.

The tables are modelled as the migrations leave them:
- `auditoria` has the NOT NULL and CHECK constraints of `migrations/fase1_seguridad.py:69-95`;
- `solicitudes_aprobacion` has the `motivo_resolucion` column of `migrations/fase2_roles.py:67-87`, which `aprobar_solicitud` and `rechazar_solicitud` write;
- `lugares` has the `codigo_deis` column that `migrations/fase1_seguridad.py:183-193` adds.

`init_db()` runs when `app.py` is imported (app.py:62) and creates both of the first two tables, in another shape, on a database that lacks them (`utils/database.py:94-134`). There the audit columns are nullable and unchecked, and the reason column is called `motivo_rechazo`. The migrations' `CREATE TABLE IF NOT EXISTS` leaves such a table as it is. What the model then does not capture is listed under "Left out".

## Model

| member | source | states |
|---|---|---|
| Values.OptStr | utils/auditoria.py:29-39 | an absent optional argument is stored as NULL, and only then |
| Text.Trim | app.py:116 | `str.strip()` (with `IsSpace` as the blank test) returns a slice of its argument with only blanks outside it, and that slice is empty or starts and ends with a non-blank |
| Text.LowerAll | app.py:116 | `str.lower()` maps each character to its lower-case form, position by position |
| Text.IntToString | app.py:229 | `str(i)`: a minus sign exactly for a negative number, then digits without a leading zero (unless `i` is 0) that read back as `abs(i)` |
| Text.LeerEntero | utils/seguridad.py:170 | `int(text)`: every number read has a non-empty digit string; plain digits are read as themselves; blank text is a `ValueError` |
| Text.IntIdaVuelta | utils/seguridad.py:170 | `int(str(i)) == i` for every integer |
| Text.EnteroConBlanco | utils/seguridad.py:170 | `int(" 12")` is 12: surrounding blanks are ignored |
| Text.EnteroConSigno | utils/seguridad.py:170 | one leading `+` or `-` before digits is read as the sign |
| Text.EnteroConGuion | utils/seguridad.py:170 | `int(a + "_" + b)` for two non-empty digit runs is the integer of `a + b` (so `int("1_000")` is 1000): one underscore between digits is skipped |
| Text.EnterosRechazados | utils/seguridad.py:170 | `1__0`, `_1` and `12a` raise `ValueError` |
| Seguridad.LimpiarRut | utils/seguridad.py:121 | the cleaned RUT has no dot, hyphen, blank or lower-case letter and is no longer than its input |
| Seguridad.LimpiarConcat | utils/seguridad.py:121 | cleaning distributes over concatenation |
| Seguridad.DigitoVerificador | utils/seguridad.py:141-156 | the check digit is `K` exactly when the weighted sum is 1 mod 11, `0` exactly when it is 0 mod 11, a digit otherwise |
| Seguridad.CalcularDigitoVerificador | utils/seguridad.py:141-156 | the loop over the reversed body with weights 2..7 returns the check digit |
| Seguridad.ValidarRutChileno | utils/seguridad.py:106-161 | a RUT is valid exactly when its cleaned form has 2 to 9 characters, a digit body and the correct check digit, and then it splits into that body and digit; on a wrong digit the expected one is reported |
| Seguridad.MotivosDeRechazo | utils/seguridad.py:117-161 | each rejection reason is given exactly when the cleaned RUT fails that check and passes every earlier one: missing text, fewer than 2 characters, more than 9, a body that is not all digits, a last character that is neither a digit nor `K`, a wrong check digit |
| Seguridad.EjemploRut | utils/seguridad.py:106-161 | `12345678-5` is accepted; `12345678-9` is refused with expected digit `5` |
| Seguridad.NormalizarRut | utils/seguridad.py:175-183 | a normal form exists exactly for a valid RUT, and it is the validated body, a hyphen and the check digit |
| Seguridad.NormalizarIdempotente | utils/seguridad.py:175-183 | normalising a normal form changes nothing and keeps the validation result |
| Seguridad.EnmascararRut | utils/seguridad.py:186-197 | an invalid RUT masks to `****-*`; a valid one shows only its last four body digits and its check digit |
| Seguridad.MascaraFormaNormal | utils/seguridad.py:186-197 | masking a RUT and masking its normal form give the same text |
| Seguridad.EjemploMascara | utils/seguridad.py:186-197 | `12345678-5` masks to `****5678-5` |
| Seguridad.HashearRut | utils/seguridad.py:200-210 | there is a hash exactly for a valid RUT, and it is SHA-256 of the normal form plus the salt |
| Seguridad.HashFormaNormal | utils/seguridad.py:200-210 | a RUT and its normal form hash alike |
| Seguridad.MismaLimpieza | utils/seguridad.py:121 | two spellings with the same cleaned form validate, hash and mask alike |
| Seguridad.EjemploHash | utils/seguridad.py:200-210 | `12.345.678-5` and `12345678-5` have the same hash |
| Seguridad.CifrarFormaNormal | utils/seguridad.py:272-303 | an invalid RUT is never encrypted, and a RUT and its normal form encrypt alike |
| Seguridad.SinCerosIzquierda | utils/seguridad.py:171 | `int(numero)` drops leading zeros: the result starts with `0` only when it is `0`, and a body without leading zeros is kept as it is |
| Seguridad.AgruparMiles | utils/seguridad.py:171 | the grouped body has `(n - 1) / 3` dots for `n` digits, a dot exactly at every fourth position counted from the end, and digits everywhere else |
| Seguridad.GrupoSiguiente | utils/seguridad.py:171 | appending a dot and three digits to a grouped body gives the grouping of the longer body |
| Seguridad.LimpiarAgrupar | utils/seguridad.py:171 | cleaning the thousands-grouped body gives the body back |
| Seguridad.FormatearRut | utils/seguridad.py:164-172 | `None` exactly when the body or the digit is empty; the `ValueError` exactly when the body is not an integer to `int()`; otherwise the `Formato` of the number read |
| Seguridad.Formato | utils/seguridad.py:170-172 | the minus sign of a negative number, then its digits (without leading zeros) as `AgruparMiles` groups them, then `-dv`; removing the dots gives those digits back |
| Seguridad.FormatoSinCeros | utils/seguridad.py:164-172 | a digit body with no leading zero is formatted as its grouping and `-dv`, with no sign |
| Seguridad.FormatearRevalida | utils/seguridad.py:164-172 | a formatted valid RUT validates again to the same body and digit |
| Seguridad.Buscar | utils/seguridad.py:90-97 | a character class is found exactly when some character of the password belongs to it |
| Seguridad.ValidarPoliticaPassword | utils/seguridad.py:75-99 | a password passes exactly when it has 8 characters, an upper-case letter, a lower-case letter and a digit; the first failed rule picks the message |
| Seguridad.OrdenUnico | utils/seguridad.py:231 | two key-sorted dictionaries with the same items are equal, so `sort_keys` serialisation does not depend on insertion order |
| Seguridad.GenerarChecksumRegistro | utils/seguridad.py:217-232 | the checksum is 32 characters |
| Seguridad.ChecksumIgnoraOrden | utils/seguridad.py:217-232 | two dictionaries with the same items have the same checksum whatever their order |
| Seguridad.ChecksumIgnoraCampoChecksum | utils/seguridad.py:229 | adding or replacing the `checksum` key does not change the checksum |
| Seguridad.VerificarIntegridadRegistro | utils/seguridad.py:235-246 | a record without a truthy checksum fails; a record that passes stores exactly its own checksum |
| Seguridad.SelladoVerifica | utils/seguridad.py:217-246 | a record sealed with its own checksum passes verification |
| Seguridad.PrefijoCip | utils/seguridad.py:360-367 | the prefix is three upper-case letters: `GEN` for an empty code, otherwise the first three letters upper-cased and padded with `X` |
| Seguridad.GenerarCip | utils/seguridad.py:345-373 | the CIP is `prefix-ddddd`, its digits read back as the draw, and it passes `validar_cip` |
| Seguridad.CipInyectivo | utils/seguridad.py:370-373 | two different draws give two different CIPs for the same place |
| Seguridad.CipConSaltoFinal | utils/seguridad.py:376-388 | `validar_cip` accepts a CIP followed by one newline, and refuses four digits or lower-case letters |
| Tablas.TextoAId | app.py:452-455 | a form id is read as an integer key when it is a non-empty string of digits, and then as a non-negative number |
| Tablas.IdIdaVuelta | app.py:490 | `str(uid)` read back as an id gives the same id |
| Tablas.PyStr | app.py:493 | `f"{x}"` of text is the text and of NULL is `None` |
| Tablas.Db.constructor | utils/database.py:17-140 | a fresh database holds the given users, places and backups and empty request, mapping, consultation and audit tables |
| Tablas.ColumnaDeNombreSimple | utils/aprobaciones.py:300 | a key that is a bare name names the column spelled by its lower-cased self |
| Tablas.ClaveEnMayusculas | utils/aprobaciones.py:300 | the key `Password` names the `password` column |
| Tablas.ClaveConBlanco | utils/aprobaciones.py:300 | the key `password ` names the `password` column |
| Tablas.ClaveEntreComillas | utils/aprobaciones.py:300 | the key `"password"` names the `password` column |
| Tablas.Aplicar | utils/aprobaciones.py:298-308 | the SET list rewrites exactly the columns it names, the last assignment to a column winning, and leaves every other column alone |
| Tablas.PrimeraDesconocida | utils/aprobaciones.py:305-308 | the first key whose column the table lacks is found, and none is found exactly when every key names a column of the table |
| Tablas.Violacion | utils/database.py:17-40 | the new row breaks no constraint exactly when no assigned NOT NULL column is NULL, the new key is the row's own or free, and no assigned UNIQUE column repeats another row's value |
| Tablas.Reescribir | utils/aprobaciones.py:303-308 | an UPDATE of an existing row keeps every other row; without an `id` assignment it keeps the key set and rewrites that row with the SET list; with one it moves the row to a new integer key no other row held |
| Tablas.Actualizar | utils/aprobaciones.py:303-308 | an unknown column fails the UPDATE; an id that names no row changes nothing; otherwise the target row is rewritten as `Reescribir` says |
| Tablas.ActualizarUnaColumna | utils/aprobaciones.py:303-308 | a single assignment to an existing row, on a column that is not the key, not UNIQUE and given a value when NOT NULL, writes exactly that cell |
| Tablas.ActualizarClave | utils/aprobaciones.py:324-328 | a single assignment of a free integer to `id` moves the row to that key |
| Auditoria.CamposChecksum | utils/auditoria.py:14-25 | the hashed dictionary has ten distinct keys and no `checksum` |
| Auditoria.NuevaEntrada | utils/auditoria.py:12-39 | the new row stores the call's arguments, the date and a 32-character checksum |
| Auditoria.Registrar | utils/auditoria.py:5-43 | the trail grows by at most one row, the new one last; it grows exactly when the INSERT meets the table's NOT NULL and CHECK constraints |
| Auditoria.RegistrarAuditoria | utils/auditoria.py:5-43 | the method appends exactly what `Registrar` says and touches no other table |
| Auditoria.RegistrarIntegra | utils/auditoria.py:5-43 | logging keeps an intact trail intact |
| Auditoria.EntradaVerifica | utils/auditoria.py:12-39 | every row written is intact, and its hashed fields plus the stored checksum pass `verificar_integridad_registro` |
| Auditoria.CamposNoCubiertos | utils/auditoria.py:14-38 | rewriting `datos_antes`, `datos_despues`, `ip_origen` or `user_agent` leaves an intact row intact |
| Auditoria.ObtenerAuditoria | utils/auditoria.py:44-67 | as many matching rows as exist, up to `limite`, newest first, each row of the trail returned at most as often as it occurs; a matching row is left out only when every returned row is at least as new |
| Auditoria.SinFiltros | utils/auditoria.py:50-59 | with no category and no user every row is a candidate |
| Aprobaciones.RequiereAprobacion | utils/aprobaciones.py:46-66 | the master never needs approval; an administrator needs it exactly for the catalogued actions; every other role always does |
| Aprobaciones.EsAdminMaestro | utils/aprobaciones.py:350-352 | true exactly for `admin_maestro` |
| Aprobaciones.PuedeAprobar | utils/aprobaciones.py:355-357 | true exactly for `admin_maestro` |
| Aprobaciones.PuertaDeRoles | utils/aprobaciones.py:46-66 | whoever may approve needs no approval for anything, and only they; the two role tests agree |
| Aprobaciones.ObtenerDescripcionAccion | utils/aprobaciones.py:341-347 | a catalogued action gets its description, any other name is returned unchanged |
| Aprobaciones.Instantanea | utils/aprobaciones.py:89-90 | an empty or missing snapshot is stored as NULL, any other as given |
| Aprobaciones.NuevaSolicitud | utils/aprobaciones.py:69-96 | a new request is pending, unresolved and carries the caller's action, entity, requester, snapshots and date |
| Aprobaciones.CrearSolicitud | utils/aprobaciones.py:69-100 | a request is stored exactly when the requester's id, name and role are present, under a fresh id one above the last; otherwise nothing changes |
| Aprobaciones.ContarSolicitudesPendientes | utils/aprobaciones.py:134-145 | the count is the number of pending requests |
| Aprobaciones.ObtenerSolicitudesPendientes | utils/aprobaciones.py:103-117 | as many pending requests as are counted, up to `limite`, each request at most once, newest first, and no older request is returned in place of a newer one |
| Aprobaciones.ObtenerSolicitudesUsuario | utils/aprobaciones.py:120-131 | as many of the requester's requests as exist, up to `limite`, each at most once, newest first, and no older one in place of a newer one; none for a NULL user |
| Aprobaciones.Enumerar | utils/aprobaciones.py:103-131 | the table scan lists each stored request once, in increasing id order |
| Aprobaciones.CuentaFiltro | utils/aprobaciones.py:103-131 | the rows a filter keeps from the scan are as many as the ids it accepts |
| Aprobaciones.ListadoYCuenta | utils/aprobaciones.py:103-145 | with a large enough limit the listing holds as many requests as the count says |
| Aprobaciones.FilaPorId | utils/aprobaciones.py:251-253 | a row is found exactly when the id text names an existing key |
| Aprobaciones.Borrar | utils/aprobaciones.py:263 | the DELETE removes the row the id names and only it |
| Aprobaciones.CamposPermitidos | utils/aprobaciones.py:298-301 | the SET list holds exactly the fields of `datos_nuevos` the test lets through; as written, none has a key spelled like an excluded name; with the corrected test, every column it writes is a bare name that is not excluded |
| Aprobaciones.Modificacion | utils/aprobaciones.py:292-332 | there is nothing to do exactly when no field passes the test; otherwise the result is that of the UPDATE with the fields that pass |
| Aprobaciones.EjecutarAccionAprobada | utils/aprobaciones.py:236-338 | the method's new tables and outcome are those of the dispatch on the request's action, with the test as written |
| Aprobaciones.SeleccionarCampos | utils/aprobaciones.py:296-301 | the loop over `datos_nuevos` keeps, in order, exactly the fields whose key is not spelled like an excluded name |
| Aprobaciones.FalloSinCambios | utils/aprobaciones.py:236-338 | a failed action changes no table; only an `eliminar_usuario` request about a non-user returns no outcome |
| Aprobaciones.EliminarUsuario | utils/aprobaciones.py:248-264 | only `usuarios` changes; success exactly unless the target is the only master; at most the target row goes; at least one master remains |
| Aprobaciones.EliminarLugar | utils/aprobaciones.py:266-276 | only `lugares` changes; success exactly unless the target is a template; templates are never removed |
| Aprobaciones.EliminarRespaldo | utils/aprobaciones.py:278-290 | success exactly when the named file exists, which is then removed |
| Aprobaciones.CambioDeTabla | utils/aprobaciones.py:303-308 | a modification keeps every row but the target, keeps the key set unless `id` is assigned, and then rewrites the target with the SET list |
| Aprobaciones.ModificarUsuario | utils/aprobaciones.py:292-311 | as written, only `usuarios` changes; "No hay datos para modificar" comes exactly when no key passes; every row but the target stays; the user ids stay unless `id` is assigned; a success that keeps the key rewrites the target with the SET list |
| Aprobaciones.ModificarLugar | utils/aprobaciones.py:313-332 | the same for `modificar_lugar` on `lugares` |
| Aprobaciones.ModificarUsuarioCorregido | utils/aprobaciones.py:299 | with the corrected test, the user ids never change, only the target row does, and `id`, `password` and `password_hash` of every row are kept |
| Aprobaciones.ModificarLugarCorregido | utils/aprobaciones.py:320 | with the corrected test, the place ids never change and only the target row does |
| Aprobaciones.AccionNoImplementada | utils/aprobaciones.py:334-335 | any other action fails and changes nothing, `exportar_historial` included |
| Aprobaciones.ClaveDePasswordEscapa | utils/aprobaciones.py:299 | a key spelled unlike `password` that names that column passes the test as written, and the approved request overwrites the target's `password`; the corrected test leaves nothing to do |
| Aprobaciones.ClaveIdMueveLugar | utils/aprobaciones.py:320 | the key `ID` passes the test as written, and the approved request moves the target place to a new id; the corrected test leaves nothing to do |
| Aprobaciones.FiltrosDeUnaClave | utils/aprobaciones.py:299-300 | a lone key spelled unlike the excluded names but naming an excluded column passes the test as written and fails the corrected one |
| Aprobaciones.MotivoO | utils/aprobaciones.py:183-185 | an empty or missing reason is replaced by the default text |
| Aprobaciones.Resuelta | utils/aprobaciones.py:173-185 | resolving sets the state, the approver, the date and the reason and nothing else |
| Aprobaciones.Aprobacion | utils/aprobaciones.py:148-193 | an unknown or already resolved request is refused with the source's message and nothing changes |
| Aprobaciones.AprobacionEfecto | utils/aprobaciones.py:148-193 | approval succeeds exactly when the request is pending and its action succeeds; then the tables are the action's and the request is approved; otherwise nothing changes |
| Aprobaciones.Rechazo | utils/aprobaciones.py:196-233 | rejection succeeds exactly on a pending request, marks it rejected with its reason and touches no other request |
| Aprobaciones.AprobarSolicitud | utils/aprobaciones.py:148-193 | the method's new tables and verdict are those of `Aprobacion` |
| Aprobaciones.AprobarPendiente | utils/aprobaciones.py:166-190 | the method's new tables and verdict on a pending request are those of `Aprobacion` |
| Aprobaciones.RechazarSolicitud | utils/aprobaciones.py:196-233 | the method's new requests and verdict are those of `Rechazo` |
| Aprobaciones.AprobadaUnaVez | utils/aprobaciones.py:164-165 | an approved request can be neither approved nor rejected again, so its action runs once |
| Aprobaciones.RechazadaUnaVez | utils/aprobaciones.py:211-212 | a rejected request can be neither approved nor rejected again |
| Aprobaciones.FalloQuedaPendiente | utils/aprobaciones.py:171-190 | a failed approval leaves the request pending and still rejectable |
| Aprobaciones.EliminarSinUsuario | utils/aprobaciones.py:248-264 | an `eliminar_usuario` request about a non-user always fails to unpack and stays pending |
| App.BuscarPorCorreo | app.py:123 | the user found has the address and exists; none is found exactly when no row has it |
| App.BuscarUsuario | app.py:123 | the scan over the users returns the row `BuscarPorCorreo` names |
| App.IntentosPrevios | app.py:206 | `intentos_fallidos or 0`: an empty counter is zero, an integer counter is itself, and a non-empty text counter is the `TypeError` (`None`), exactly |
| App.PasoLogin | app.py:115-238 | a login changes at most the matching user's row; nothing is found exactly when no row has the address; an unknown address, a lock or an error change nothing |
| App.Intento | app.py:142-238 | a lock or an error leaves the row as it was and logs nothing |
| App.Login | app.py:115-238 | the route's new users, audit trail and outcome are those of `PasoLogin` |
| App.Acceder | app.py:142-238 | the attempt on a found user is that of `Intento` |
| App.AccesoValido | app.py:169-203 | a success stamps the row, opens the session with the user's role, id and name, and logs `login_exitoso` |
| App.AccesoFallido | app.py:204-238 | a failure raises the counter, locks at five and logs `login_fallido`; a text counter is an error that commits nothing |
| App.CuentaBloqueada | app.py:143-149 | a locked account is refused before any password check and nothing is written |
| App.CorreoDesconocido | app.py:125-140 | an unknown address changes nothing, since its audit row is never committed |
| App.AccesoConcedido | app.py:142-203 | a login succeeds exactly when the account is unlocked and the hash or the legacy column accepts the password; success clears the counter and the lock and touches only those columns, the access time and the hash |
| App.AccesoDenegado | app.py:204-232 | a wrong password adds one failure, locks for thirty minutes exactly when the count reaches five, and changes no other column |
| App.HashSoloPorMigracion | app.py:157-168 | `password_hash` changes only on a successful legacy plain-text login, and only to the fresh hash |
| App.BloqueoTrasExpirar | app.py:143-150 | after an expired lock the counter is kept, so the next failure locks again |
| Eliminaciones.RolTexto | app.py:441 | the session role is read as text exactly when it is text |
| Eliminaciones.SolicitudUsuario | app.py:499-509 | the request filed for a user is a pending `eliminar_usuario` about that id by the session's user |
| Eliminaciones.EliminacionUsuarios | app.py:451-527 | the request counter never decreases over the selection |
| Eliminaciones.EliminarUsuario | app.py:452-527 | one pass of the loop gives the state of `PasoUsuario` |
| Eliminaciones.EjecutarBorradoUsuario | app.py:480-496 | the master's branch deletes the row and logs `usuario_eliminado` |
| Eliminaciones.SolicitarBorradoUsuario | app.py:497-527 | the administrator's branch files the request and logs it when it was stored |
| Eliminaciones.EliminarUsuarios | app.py:439-531 | the route's new state is the fold of the loop for an authorised role and a non-empty selection, and unchanged otherwise |
| Eliminaciones.SolicitudLugar | app.py:622-635 | the request filed for a place is a pending `eliminar_lugar` about that id by the session's user |
| Eliminaciones.EliminacionLugares | app.py:590-639 | the request counter never decreases over the selection |
| Eliminaciones.EliminarLugar | app.py:591-639 | one pass of the loop gives the state of `PasoLugar` |
| Eliminaciones.EjecutarBorradoLugar | app.py:605-621 | the master's branch deletes the place and logs `lugar_eliminado` |
| Eliminaciones.EliminarLugares | app.py:578-643 | the route's new state is the fold of the loop for an authorised role and a non-empty selection, and unchanged otherwise |
| Eliminaciones.PasoUsuarioSolicita | app.py:497-509 | an administrator with a complete session files an `eliminar_usuario` request for each eligible user |
| Eliminaciones.EliminacionUsuariosAvanza | app.py:451-527 | deleting users only removes users, keeps places, keeps and only adds pending requests and only appends to the trail |
| Eliminaciones.EliminacionLugaresAvanza | app.py:590-639 | deleting places only removes places, keeps users, keeps and only adds pending requests and only appends to the trail |
| Eliminaciones.EliminacionUsuariosReparto | app.py:480-527 | the master never files a request; an administrator never deletes a user |
| Eliminaciones.EliminacionLugaresReparto | app.py:605-639 | the master never files a request; an administrator never deletes a place, and the route logs nothing for the requests it files |
| Eliminaciones.UsuariosProtegidosSobreviven | app.py:461-468 | a template user or a master is never deleted by the route |
| Eliminaciones.LugaresPlantillaSobreviven | app.py:600-603 | a template place is never deleted by the route |
| Eliminaciones.BorrarAdministrador | app.py:471-477 | deleting an administrator who is not the only one leaves an administrator |
| Eliminaciones.PasoUsuarioAdministradores | app.py:452-496 | one pass of the loop never removes the last administrator |
| Eliminaciones.QuedaUnAdministrador | app.py:451-527 | the route never leaves the system without an administrator |
| Eliminaciones.EliminacionUsuariosIntegra | app.py:451-527 | deleting users keeps an intact audit trail intact |
| Eliminaciones.EliminacionLugaresIntegra | app.py:590-639 | deleting places keeps an intact audit trail intact |
| Eliminaciones.MaestraBorraUsuarios | app.py:479-481 | for the master, every selected, present, unprotected non-administrator user is gone afterwards |
| Eliminaciones.MaestraBorraLugares | app.py:605-606 | for the master, every selected, present, non-template place is gone afterwards |
| Eliminaciones.AdminSolicitaUsuarios | app.py:497-509 | for an administrator with a complete session, every selected eligible user gets a pending `eliminar_usuario` request |
| Eliminaciones.AdminSolicitaLugares | app.py:622-635 | for an administrator with a complete session, every selected non-template place gets a pending `eliminar_lugar` request |
| Consultas.PrimerLibreAgotado | app.py:769-773 | no free CIP is found exactly when every drawn CIP is already mapped |
| Consultas.PrimerLibreEsPrimero | app.py:769-773 | the CIP chosen is one of the draws |
| Consultas.PrimerLibreFresco | app.py:769-773 | the CIP chosen is unmapped, valid and carries the place's prefix |
| Consultas.SortearCip | app.py:769-773 | the redraw loop returns the first free CIP among the draws |
| Consultas.Aplicar | utils/database.py:48-90 | a created consultation adds its mapping under its CIP and appends one consultation, keeping every other row; any other outcome changes nothing |
| Consultas.CrearConsulta | app.py:739-806 | the route's outcome is `Consultar` and its new tables are that outcome applied |
| Consultas.GuardarConsulta | app.py:776-804 | the inserts' outcome is `Alta` and its new tables are that outcome applied |
| Consultas.PacienteCreado | app.py:745-802 | after the role and consent checks, a consultation is created exactly when the RUT is valid, a draw is free, encryption yields text, a `lugar_id` was given and the session has a name |
| Consultas.ConsultaCreada | app.py:739-802 | a consultation is created exactly when the session is a TENS, consent was given, the stripped RUT is valid, some draw is free, encryption yields text, a `lugar_id` was given and the session has a name |
| Consultas.ConsultaNueva | app.py:769-802 | a created consultation uses a fresh valid CIP with the place's prefix and stores the RUT's hash, ciphertext and mask, the creator and a pending doctor |
| Respaldos.BarridoExacto | app.py:1011-1031 | the sweep deletes exactly the present files among the selected names that match `backup_*.db` and are not automatic |
| Respaldos.BarridoCuenta | app.py:1007-1031 | one deletion is counted per file removed, and every selected name is counted once as deleted, error or protected |
| Respaldos.BarridoRespeta | app.py:1013-1020 | a name outside the pattern, an automatic backup or an unselected file survives |
| Respaldos.EliminarRespaldos | app.py:982-1042 | the route's outcome and remaining files are those of `Depuracion` |
| Respaldos.DepuracionEfecto | app.py:984-1031 | files are deleted only for an administrator who confirms the stored password and selects names; then exactly the eligible present ones go and the counters add up |
| Respaldos.EjemplosClase | app.py:1013-1020 | an automatic backup is protected, `notas.txt` is refused and a manual backup is eligible |

## Left out

- Password hashing (PBKDF2), SHA-256, AES-256-GCM, base64 and `json.dumps` are function parameters (`verificar`, `sha`, `aes`). Nothing is proved about the primitives themselves.
- `descifrar_rut`, `_obtener_clave_cifrado` and `generar_clave_cifrado` are not modelled. The encryption key is hidden inside the `aes` parameter, and a missing or malformed key is `aes` returning `None`.
- The clock is an integer timestamp `ahora` in seconds. The thirty-minute lock is 1800 s. The Chile time zone and the date formatting helpers are not modelled.
- `generar_token_jitsi`, templates, `flash` messages and redirects are not modelled. Only each route's effect on the tables and its outcome are.
- Consultas.SortearCip: the route redraws a CIP for as long as the drawn one is taken. The model takes a finite sequence of draws and reports `SinCip` when all of them are taken. It does not capture that the route would loop forever once every code of a place is used.
- Respaldos.EliminarRespaldos: `os.remove` is modelled as never failing. The `except` branch that counts a failed removal as an error is not modelled.
- Aprobaciones.EliminarRespaldo: the backup directory is a set of file names. Path joining, and names with directory separators, are not modelled.
- Respaldos.EliminarRespaldos: a selected name is looked up as a file name in the backup directory. The route joins it to the directory with `os.path.join` (app.py:1022). A name such as `backup_x\..\..\telemedicina.db` passes the prefix, suffix and `backup_auto_` tests and, on Windows, names a file outside the directory, which the route would remove. The model counts such a name as absent.
- Respaldos.BarridoExacto: for the same reason, "exactly the eligible present files go" holds only for names without directory separators. The route can also remove a file outside the backup directory.
- Respaldos.BarridoRespeta: for the same reason, "an unselected file survives" holds only when no selected name reaches it through a separator.
- Respaldos.DepuracionEfecto: for the same reason, its "exactly the eligible present ones go" rests on names without separators.
- Text.LeerEntero: only ASCII digits and blanks are modelled. `int()` also accepts other Unicode decimal digits and blanks.
- Seguridad.FormatearRut: the `ValueError` message quotes the text between `'` without Python's `repr` escaping.
- Text.LowerAll and Text.Trim (and the upper-casing and letter tests used for RUTs and CIPs) cover ASCII only. Python's Unicode case mapping, Unicode blanks and the NFD accent stripping of `generar_cip` are not modelled.
- Concurrency between requests, and SQLite locking, are not modelled. Each route runs alone on the tables.
- `bloqueado_hasta` is an integer time. Text that does not parse as a time is ignored, as the bare `except` in the route does.
- Tablas.TextoAId: only a non-empty string of ASCII digits is read as an integer key. SQLite also reads ` 5`, `5 `, `+5`, `5.0` and `5e0` as the key 5, and `-5` as -5. The model finds no row for these spellings.
- Aprobaciones.FilaPorId: for the same reason, an id spelled as in the line above finds no row, where SQLite would find one.
- Aprobaciones.Borrar: for the same reason, an id spelled that way deletes nothing, where SQLite would delete the row.
- Tablas.Actualizar: for the same reason, an UPDATE addressed with such an id changes nothing. Text assigned to `id` becomes a key only when it is a plain numeral. Any other text is reported as a datatype mismatch.
- Tablas.ColumnaSql: a key is resolved as one identifier, with its surrounding blanks, one pair of quotes or brackets and ASCII case taken into account. SQL comments, doubled quotes inside a quoted name, and keys that carry more SQL (`password = 'x', nombre`) are not parsed. The model reports such a key as an unknown column and fails the UPDATE, whereas SQLite may parse further assignments from it, including one to a credential column.
- Tablas.PrimeraDesconocida: for the same reason, "no such column" is reported for every key that is not a single identifier, even where SQLite would accept the statement.
- Aprobaciones.ModificarUsuario: as written, it states no protection for `id`, `password` or `password_hash`, because the code has none against keys spelled differently (see "Findings"). That protection is proved only for the corrected test.
- Aprobaciones.ModificarLugar: likewise, it states no protection for `id`.
- Auditoria.Registrar: on a database whose `auditoria` table `init_db()` created, `usuario_nombre`, `usuario_rol` and `resultado` may be NULL and `categoria` and `resultado` are unchecked, so that table stores rows the model refuses.
- Auditoria.RegistrarAuditoria: for the same reason, on such a table the row is appended where the model leaves the trail unchanged.
- Aprobaciones.Aprobacion: on a database whose `solicitudes_aprobacion` table `init_db()` created, there is no `motivo_resolucion` column. The resolving UPDATE fails after the action has run, and `aprobar_solicitud` returns "Error al aprobar: no such column: motivo_resolucion". The model follows the migrated table, where it succeeds.
- Aprobaciones.AprobacionEfecto: for the same reason, success on such a table is never reported.
- Aprobaciones.AprobarSolicitud: for the same reason, as for `Aprobacion`.
- Aprobaciones.Rechazo: for the same reason, `rechazar_solicitud` returns "Error al rechazar: no such column: motivo_resolucion" on such a table, and the request stays pending.
- Aprobaciones.RechazarSolicitud: for the same reason, as for `Rechazo`.
- Aprobaciones.ModificarLugar: on a `lugares` table that the migration has not extended, `codigo_deis` is an unknown column. The model follows the migrated table.
- `datos_nuevos` values are NULL, text or integers. The JSON floats, booleans, lists and objects that `json.loads` can also yield (utils/aprobaciones.py:293, :314) are not modelled.
- `crear_consulta` stores `lugar_id` as the form text. The model keeps that text and does not model SQLite's affinity conversion on that insert.
- Every route not listed above (dashboards, history, exports, backup creation and restore, user and place creation) is not part of this model.
- `verificar_sistema.py`, `utils/backups_logic.py` and the migrations are used only for the schema, its NOT NULL and CHECK constraints and column names.

## Findings

In app.py, only lines 499 and 624 call `crear_solicitud`, and both file `eliminar_*` requests. So both rows below need a `modificar_*` request created outside the app's routes, for instance by another script writing to the same database.

| source | as written | input that shows it | evidently intended | confidence | as-written member | corrected member |
|---|---|---|---|---|---|---|
| utils/aprobaciones.py:299 | each key of `datos_nuevos` is compared with `['id', 'password_hash', 'password']` letter for letter and then spliced into the UPDATE, where SQLite resolves the name regardless of case, surrounding blanks and identifier quotes | an approved `modificar_usuario` request whose `datos_nuevos` is `{"Password": "x"}`, `{"password ": "x"}` or `{"\"password\"": "x"}` overwrites the target's `password`. Keys that carry more SQL are a further way in, which is not modelled | a modification request never writes `id`, `password` or `password_hash` | not executed | Aprobaciones.ClaveDePasswordEscapa | Aprobaciones.ModificarUsuarioCorregido |
| utils/aprobaciones.py:320 | each key is compared with `['id']` letter for letter | an approved `modificar_lugar` request whose `datos_nuevos` is `{"ID": 7}` moves the place to id 7 when that id is free | a modification request never changes a place's id | not executed | Aprobaciones.ClaveIdMueveLugar | Aprobaciones.ModificarLugarCorregido |
