# Control interno: a verified model of its core logic

Control interno is a case-management system for a law firm. An Express/MySQL backend
serves cases, documents and staff, and a React front end lists, filters and edits them.
This project models, in Dafny, the parts of the system that carry real logic, and
proves properties of that logic:

- **Authentication and sessions.** The model covers login with failed-attempt counting
  and account lockout, and bearer-token authentication against the `sesiones` table.
  It also covers logout, refresh-token rotation, the permission and role guards, and
  the validation of the create-user endpoint.
  - `AuthModel` states each handler as a function on the tables.
  - `AuthStore.Store` is the class whose methods update the tables in place, each
    proved equal to its function. Each keeps the store's invariant `Valid`: ids,
    usernames and emails are unique and every id is below the AUTO_INCREMENT counter.
  - `AuthProperties` holds the properties that relate several calls.
  - Two variants share one model: the main server (`src/server/routes/auth.js` with
    its middleware) and the deployment variant (`api/index.js`), which skips failure
    counting.
- **Document paths.** The model covers the `normalizePath` copies and `normalizeFilePath`,
  which rewrite Windows absolute paths to `uploads/...`. It also covers the different
  separator-rewriting `normalizePath` of the TypeScript server, and the three repair
  loops that write normalised paths back to `documentos`.
- **Document deletion.** The order of the row lookup, the file removal and the row
  deletion in the delete handler.
- **RUT handling.** The Chilean tax-id cleaning on the server and the dotted display
  format `formatearRut` on the client.
- **Case updates.** The required-field check of `PUT /api/casos/:id`, and the weaker
  falsy check of the TypeScript server.
- **Case list.** Filtering and the lawyer list in `useCasos`. Id generation and
  filtering in `CasosContext`. The per-lawyer count and top-three ranking of the
  dashboard card.
- **User form.** The `validateForm` validator of the user-management screen, and the
  body the screen sends when editing.

The three `normalizePath` copies are the same text:
- `src/server/index.js`;
- `cambios-backend/endpoints-documentos-completos.js`;
- `cambios-backend/documentos.js`.

So they are modelled once, as `UploadPaths.NormalizePath`, and every property proved of
it holds for each copy. `normalizeFilePath` is proved to be that function, with `null`
for the empty input.

External effects are modelled as parameters:
- JWT signing and verification and bcrypt are an `Entorno` of oracle functions.
- The clock is a `nat` number of seconds.
- Each write whose errors the source catches and swallows gets a boolean "this write
  throws".
- The SQL evaluation order of `SET a = a + 1, b = CASE WHEN a >= 4 ...` is an explicit
  parameter. MySQL evaluates it left to right, so the fourth consecutive failure locks
  the account.

Several behaviours are modelled as written:
- **Refresh rotation.** The refresh handler destructures `newRefreshToken` from an
  object whose key is `refreshToken`. So the rotated refresh token is `undefined` in
  the response and NULL in the stored session.
- **Logout.** A second logout is refused by the authentication middleware.
- **Session types.** Authentication never looks at a session's type.

## Model

| member | source | states |
|---|---|---|
| AuthModel.RequirePermission | src/server/middleware/auth.js:71-89 | The request passes exactly when `permisos[recurso]` exists and contains the action. Otherwise the answer is a 403 whose message names the action and the resource. |
| AuthModel.RolesArray | src/server/middleware/auth.js:93 | A single role becomes a one-element list; a list of roles is kept as given. |
| AuthModel.RequireRole | src/server/middleware/auth.js:92-110 | The user passes exactly when their role name is among the required roles, which for one role means equal to it. The refusal message lists the roles joined by " o ". |
| AuthModel.GenerateTokens | src/server/middleware/auth.js:113-127 | The result has exactly the keys `accessToken` and `refreshToken`. The first is signed as `access` with the access secret for 15 minutes, the second as `refresh` with the refresh secret for 7 days. |
| AuthModel.Propiedad | src/server/routes/auth.js:168 | Destructuring a key yields its value exactly when the object has that key, and `undefined` otherwise. |
| AuthModel.Fallar | src/server/middleware/auth.js:177-185 | One failed attempt raises the counter by exactly one. The lock becomes now + 30 minutes when the count the CASE sees reaches the threshold, and is kept otherwise. The CASE sees the new count left to right and the old count simultaneously. No other column changes. |
| AuthModel.RegistrarFallo | src/server/middleware/auth.js:175-189 | Every row with the username fails once. Every other row and every other table stay the same. A thrown UPDATE changes nothing. |
| AuthModel.ResetearFallos | src/server/middleware/auth.js:192-201 | The row with the id gets counter 0 and no lock. Nothing else changes, and a thrown UPDATE changes nothing. |
| AuthModel.ActualizarUltimoAcceso | src/server/middleware/auth.js:163-172 | The row with the id gets last access = now. Nothing else changes, and a thrown UPDATE changes nothing. |
| AuthModel.Auditar | src/server/middleware/auth.js:140-160 | Exactly one audit row is appended, unless the INSERT throws. The other tables are untouched. |
| AuthModel.DesactivarToken | src/server/routes/auth.js:171-174 | Exactly the sessions holding that token become inactive, and every other row is kept. |
| AuthModel.DesactivarSesion | src/server/routes/auth.js:133-136 | Exactly the sessions of that user holding that token become inactive, and every other row is kept. |
| AuthModel.TokenDe | src/server/middleware/auth.js:21-22 | A token is found only when it is non-empty: an empty second word is falsy and counts as missing. |
| AuthModel.Autenticar | src/server/middleware/auth.js:19-68 | The answers come in order: 401 without a token; 401 expired or invalid exactly when verification says so; 401 exactly when no active, unexpired session holds the token; 401 exactly when, past those checks, no active user of the token's id has a joined role. Conversely, a valid token with a live session and such a user always authenticates. Authentication succeeds only for an active user of the table, with the token's id, and that user's role joined. The same checks are in api/index.js:45-94. |
| AuthModel.Login | src/server/routes/auth.js:41-127 | The answer is 400 exactly when the username or the password is empty, and the 400, 423 and inactive answers write nothing. An unknown username is refused with 401 and records one failure for it. For the first row with the username and a joined role, the answers follow the source's order: 423 exactly when it is locked; 401 exactly when it is unlocked and the password does not match, recording one failure; inactive exactly when the password matches and the row is inactive; success exactly when the row is unlocked, matches and is active. A success answers with that row's public user. Roles and the id counter never change. |
| AuthModel.LoginApi | api/index.js:121-196 | The deployment login never changes users, roles or audit rows. Only a successful login writes anything. |
| AuthModel.Logout | src/server/routes/auth.js:130-146 | Logout succeeds exactly when authentication does. A refusal writes nothing and carries the authentication answer. A success deactivates exactly the caller's sessions with the presented token. It appends one LOGOUT audit row for the caller when auditing is on (the main server) and the INSERT does not throw, and no row otherwise (api/index.js:199-212). |
| AuthModel.RefreshTokens | src/server/routes/auth.js:149-194 | The answer is 400 exactly for an empty token. It succeeds exactly when an active, unexpired `refresh` session holds the token. A failure writes nothing. Users, roles and audit are never touched. |
| AuthModel.CrearUsuario | src/server/routes/auth.js:225-295 | Each refusal happens exactly when the earlier checks pass and its own fails, in the source's order: 401 from authentication; 403 for a role other than SUPER_ADMIN or ADMIN; 400 for a missing field; 400 for a password under 8; 400 for an unknown role; 400 for a used username or email. A user is created exactly when every check passes. Exactly one user row is then appended, with the counter's id, the hashed password, `activo`, and `creado_por` = the caller. One CREAR_USUARIO audit row for the caller and the new id is appended, unless that INSERT throws. Any other answer writes nothing. |
| AuthStore.Store.constructor | src/server/routes/auth.js:22-27 | The store starts with the given roles, no users, sessions or audit rows, and is valid. |
| AuthStore.Store.HandleFailedLogin | src/server/middleware/auth.js:175-189 | The new tables are `RegistrarFallo` of the old ones. A valid store stays valid. |
| AuthStore.Store.ResetFailedAttempts | src/server/middleware/auth.js:192-201 | The new tables are `ResetearFallos` of the old ones. A valid store stays valid. |
| AuthStore.Store.UpdateLastAccess | src/server/middleware/auth.js:163-172 | The new tables are `ActualizarUltimoAcceso` of the old ones. A valid store stays valid. |
| AuthStore.Store.LogAuditoria | src/server/middleware/auth.js:140-160 | The new tables are `Auditar` of the old ones. A valid store stays valid. |
| AuthStore.Store.Authenticate | src/server/middleware/auth.js:19-68 | The answer is `Autenticar` of the current tables, and nothing is written. |
| AuthStore.Store.Login | src/server/routes/auth.js:41-127 | The answer and the new tables, written step by step, are `AuthModel.Login` of the old tables. A valid store stays valid. |
| AuthStore.Store.Entrar | src/server/routes/auth.js:84-103 | A successful login's writes, in order: reset of the counter and lock, the two sessions with the tokens of `generateTokens`, the last access and the LOGIN audit row. A valid store stays valid. |
| AuthStore.Store.LoginApi | api/index.js:121-196 | The answer and the new tables are `AuthModel.LoginApi` of the old tables. A valid store stays valid. |
| AuthStore.Store.Logout | src/server/routes/auth.js:130-146 | The answer and the new tables are `AuthModel.Logout` of the old tables. This covers api/index.js:199-212 when there is no audit row. A valid store stays valid. |
| AuthStore.Store.Refresh | src/server/routes/auth.js:149-194 | The answer and the new tables are `RefreshTokens` of the old tables. This covers api/index.js:215-260 as well. A valid store stays valid. |
| AuthStore.Store.CreateUser | src/server/routes/auth.js:225-295 | The answer and the new tables are `CrearUsuario` of the old tables. A valid store stays valid. |
| AuthProperties.FallosConsecutivos | src/server/middleware/auth.js:177-185 | After n failures the counter has grown by n. The lock is the last failure's time + 30 minutes when the final CASE test holds, and is otherwise unchanged. |
| AuthProperties.CuartoFalloBloquea | src/server/middleware/auth.js:180-181 | With threshold 4 and left-to-right SET, a clean account stays unlocked through three failures. The fourth locks it for 30 minutes. |
| AuthProperties.QuintoFalloConSetSimultaneo | src/server/middleware/auth.js:180-181 | Were the CASE to see the old count, the fifth failure, not the fourth, would lock. |
| AuthProperties.FalloDesconocidoNoCambia | src/server/middleware/auth.js:177-185 | Recording a failure for a username no row has changes nothing. |
| AuthProperties.FilaPorNombre | src/server/routes/auth.js:50-55 | With unique usernames, the login query finds the row with that username. |
| AuthProperties.BloqueadaRechazaSinEscribir | src/server/routes/auth.js:65-70 | A locked account is refused with 423 and its unlock time, even with the right password. Nothing is written, in both login variants. |
| AuthProperties.DesactivadaNoCuentaNiResetea | src/server/routes/auth.js:80-82 | An inactive account with the right password is refused. No failure is counted, the counter is not reset, and nothing is written. |
| AuthProperties.UsuarioDesconocidoCuentaFallo | src/server/routes/auth.js:57-60 | An unknown username is refused with 401 and records one failure for that username. When no row has the username, nothing is written. |
| AuthProperties.PasswordErroneaCuentaFallo | src/server/routes/auth.js:73-77 | A wrong password gives the same answer and the same write as an unknown username: 401, and one failure recorded for that user. |
| AuthProperties.LoginExitosoEfectos | src/server/routes/auth.js:85-121 | A success answers with the public user (no password hash) and both tokens. It resets the counter and the lock and updates the last access. It appends exactly an access session for 15 minutes and a refresh session for 7 days, plus one LOGIN audit row. |
| AuthProperties.RespuestaIndependienteDeFallos | src/server/middleware/auth.js:186-188 | Whether the best-effort writes throw never changes the login answer. |
| AuthProperties.LoginApiComoLogin | api/index.js:121-196 | The deployment login gives the same answer and the same sessions as the main login. It never touches a counter or a lock. |
| AuthProperties.TokenDeBearer | src/server/middleware/auth.js:22 | For `Bearer <token>` with a token that has no space, the token is found. |
| AuthProperties.LoginLuegoAutenticar | src/server/routes/auth.js:88-98 | Right after a successful login, its access token authenticates the same user until 15 minutes have passed. |
| AuthProperties.SinControlDeTipo | src/server/middleware/auth.js:28-38 | Authentication ignores session types: retyping every session changes no answer. |
| AuthProperties.LogoutNoRepetible | src/server/middleware/auth.js:31-38 | Provided every session holding the token belongs to the authenticated user, a second logout with the same token is refused with "Token inválido o expirado" and writes nothing. |
| AuthProperties.LogoutSoloEseToken | src/server/routes/auth.js:133-136 | Logout leaves every session of another token as it was, the paired refresh session included. |
| AuthProperties.SinNuevoRefreshToken | src/server/middleware/auth.js:126 | The object `generateTokens` returns has no `newRefreshToken` key. |
| AuthProperties.RefreshDevuelveUndefined | src/server/routes/auth.js:168-188 | A successful refresh answers with no refresh token. It appends a refresh session with a NULL token, which no later refresh can present. |
| AuthProperties.RefreshUnaSolaVez | src/server/routes/auth.js:171-174 | A refresh token is accepted at most once: replaying it is refused and writes nothing. |
| AuthProperties.PermisoMonotono | src/server/middleware/auth.js:76 | Granting more actions never revokes a permission. |
| AuthProperties.CrearPreservaValidas | src/server/routes/auth.js:254-270 | Creating a user keeps ids, usernames and emails unique and below the AUTO_INCREMENT counter. |
| AuthProperties.AnadirPreservaValidas | src/server/routes/auth.js:267-270 | Appending a row with the counter's id and an unused username and email keeps the tables valid. |
| AuthProperties.MismasClavesPreservaValidas | src/server/middleware/auth.js:163-201 | Rewriting only columns other than the id, the username and the email keeps the tables valid. |
| AuthProperties.RegistrarFalloPreservaValidas | src/server/middleware/auth.js:175-189 | Recording a failure keeps every row's id, username and email, so the tables stay valid. |
| AuthProperties.ResetearFallosPreservaValidas | src/server/middleware/auth.js:192-201 | Resetting the counter keeps every row's id, username and email, so the tables stay valid. |
| AuthProperties.ActualizarUltimoAccesoPreservaValidas | src/server/middleware/auth.js:163-172 | Updating the last access keeps every row's id, username and email, so the tables stay valid. |
| AuthProperties.LoginPreservaValidas | src/server/routes/auth.js:41-127 | Every outcome of the login keeps the tables valid. |
| AuthProperties.LoginApiPreservaValidas | api/index.js:121-196 | The deployment login keeps the tables valid. |
| AuthProperties.LogoutPreservaValidas | src/server/routes/auth.js:130-146 | Logout keeps the tables valid. |
| AuthProperties.RefreshPreservaValidas | src/server/routes/auth.js:149-194 | Refresh keeps the tables valid. |
| UploadPaths.NormalizePath | src/server/index.js:19-35 | The result is empty exactly for the empty input; any other result starts with `uploads/`. The copies in cambios-backend/endpoints-documentos-completos.js:4-20 and cambios-backend/documentos.js:21-34 are the same function. |
| UploadPaths.DriveMarkerKeepsLastSegment | src/server/index.js:23-26 | With `C:\` or `C:/` in the input, the result is `uploads/` plus the text after the last backslash. The text after the last `/` is used only when that text is empty. |
| UploadPaths.ForwardSlashDrivePathKeptWhole | src/server/index.js:23-26 | A drive path written with `/` only keeps its whole text: `C:/a/b.pdf` becomes `uploads/C:/a/b.pdf`. |
| UploadPaths.UploadsPathUnchanged | src/server/index.js:29-31 | A path under `uploads/` without a drive marker is returned unchanged. |
| UploadPaths.OtherPathPrefixed | src/server/index.js:34 | Any other non-empty path only gains the `uploads/` prefix. |
| UploadPaths.NormalizePathIdempotent | src/server/index.js:19-35 | Without a drive marker, normalising twice is normalising once. |
| UploadPaths.NormalizePathNotIdempotentOnDrivePath | src/server/index.js:23-34 | With a drive marker and no backslash, normalising twice adds the prefix twice. |
| UploadPaths.NormalizeFilePath | src/server/fix-routes.js:12-29 | The result is `null` exactly for the empty input. Otherwise it is `normalizePath` of the input, so it starts with `uploads/`. |
| UploadPaths.BackslashesToSlashes | src/server/index.ts:33 | Every `\` becomes `/` and every other character is kept in place. |
| UploadPaths.CollapseSlashes | src/server/index.ts:36 | The result has no two consecutive `/`, keeps the first character, and adds no backslash. |
| UploadPaths.CollapseSlashesDropsRepeats | src/server/index.ts:36 | Collapsing equals the reference that drops exactly each `/` directly after a `/` and keeps every other character in order. |
| UploadPaths.CortarEnUploads | src/server/index.ts:39-45 | The cut adds neither a backslash nor a double slash. |
| UploadPaths.NormalizeSeparators | src/server/index.ts:31-48 | The output never contains a backslash or two consecutive `/`. |
| UploadPaths.CortarCasos | src/server/index.ts:39-45 | A path with an upper-case drive letter that contains `uploads/` is cut at its first `uploads/`. Any other path is kept. |
| UploadPaths.NormalizeSeparatorsCases | src/server/index.ts:31-48 | The rewritten path is cut at its first `uploads/` when it starts with an upper-case drive letter. Otherwise it is only rewritten. |
| UploadPaths.RewriteKeepsEverythingButSeparators | src/server/index.ts:33-36 | Apart from the drive-letter cut, the output is the input with each `\\` turned into `/` and then each `/` that follows a `/` dropped. So it keeps every other character, in order. |
| UploadPaths.LowerCaseDriveNotRecognised | src/server/index.ts:39 | `c:\uploads\a.pdf` is only rewritten, to `c:/uploads/a.pdf`. |
| UploadPaths.NormalizeSeparatorsIdempotent | src/server/index.ts:31-48 | Normalising twice is normalising once. |
| UploadPaths.CortarIdempotente | src/server/index.ts:39-45 | A cut path starts with `uploads/`, so it is not cut again. |
| DocumentPathRuns.ActualizarRutas | src/server/index.js:473-520 | The report's total is the number of documents. `actualizados` equals the number of entries and is at most the total. Each entry's normalised path is `normalizePath` of its original. Every document whose UPDATE does not throw gets an entry. The stored paths are those documents' normal forms, in order. The selected documents come from the table, and the set of document rows is unchanged. |
| DocumentPathRuns.ActualizarRutasTs | src/server/index.ts:203-233 | Only documents with a non-empty path whose UPDATE does not throw are reported and stored. `actualizados` is at most the total. No reported path has a backslash. The rows written hold `NormalizeSeparators` results, which have none; rows not written keep their old path. The selected documents come from the table, and the set of document rows is unchanged. |
| DocumentPathRuns.FixDocumentRoutes | src/server/fix-routes.js:38-86 | No document means no update. Each document whose UPDATE does not throw is recorded, so there are at most as many entries as documents. The stored paths are the `normalizeFilePath` results. The selected documents come from the table, and the set of document rows is unchanged. |
| DocumentPathRuns.EntriesJs | src/server/index.js:497-502 | There is one entry per document, and each entry's normalised path is `normalizePath` of its original. |
| DocumentPathRuns.EntriesTsKeepPaths | src/server/index.ts:207-221 | Each entry has a non-empty original path and a normalised path without backslashes. |
| DocumentPathRuns.WriteBackStoresNormalForm | src/server/index.js:492-495 | A processed row ends up holding the normal form of the last processed path with its id. |
| DocumentPathRuns.WriteBackKeepsOthers | src/server/index.js:492-495 | A row that no processed document names keeps its stored path. |
| DocumentDelete.EliminarDocumento | cambios-backend/endpoints-documentos-completos.js:195-232 | A missing id gives 404 and changes nothing. Otherwise the row is deleted and at most the document's own file is removed. The file is removed when the path is non-empty and the unlink succeeds. |
| DocumentDelete.UnlinkFailureSwallowed | cambios-backend/endpoints-documentos-completos.js:209-218 | A failed unlink does not stop the row deletion and leaves the disk as it was. |
| DocumentDelete.SecondDeleteNotFound | cambios-backend/endpoints-documentos-completos.js:200-204 | Deleting the same id again gives 404 and changes nothing. |
| Rut.LimpiarRut | src/server/index.js:369 | A falsy RUT gives `null`. Any other RUT gives at most as many characters, each a digit or `K`. The same line is at src/server/index.js:196 and 1043. |
| Rut.LimpiarRutAppend | src/server/index.js:369 | Cleaning works character by character: cleaning a concatenation cleans each part. |
| Rut.LimpiarRutChar | src/server/index.js:369 | A character survives, upper-cased, exactly when it is a digit, `k` or `K`. |
| Rut.LimpiarRutIdempotent | src/server/index.js:369 | Cleaning a cleaned RUT changes nothing. |
| Rut.LimpiarRutMayBeEmpty | src/server/index.js:369 | A truthy RUT with no digit and no `k` cleans to the empty string. |
| Rut.QuitarSeparadores | src/pages/DocumentosCaso.tsx:72 | The result has no `.` and no `-`. The same cleaning is at src/server/index.ts:130. |
| Rut.QuitarSeparadoresKeepsRest | src/server/index.ts:130 | The two replacements remove every `.` and `-` and keep every other character, in order. |
| Rut.GruposDeTresCorrida | src/pages/DocumentosCaso.tsx:77 | The lookahead `(?=(\d{3})+(?!\d))` holds exactly where the following run of digits is a positive multiple of three. |
| Rut.PuntoAntesEsRegex | src/pages/DocumentosCaso.tsx:77 | A dot is inserted at a position exactly when `\B` and the lookahead both match there. |
| Rut.FormatearRut | src/pages/DocumentosCaso.tsx:69-79 | A falsy RUT gives `''`. Any other RUT gives the dotted body, `-`, and the last character of the cleaned input. |
| Rut.FormatearRutUnGuion | src/pages/DocumentosCaso.tsx:72-78 | The output has exactly one `-`, and it is followed by the check digit. |
| Rut.FormatearRutSoloSeparadores | src/pages/DocumentosCaso.tsx:72-78 | Formatting only inserts separators: removing them again gives the cleaned input. |
| Rut.FormatearRutIdempotente | src/pages/DocumentosCaso.tsx:69-79 | Formatting a formatted RUT changes nothing. |
| Rut.PuntearDigitos | src/pages/DocumentosCaso.tsx:77 | On an all-digit body the replace groups the digits by three from the right, with a leading group of one to three digits and no leading dot. |
| Rut.FormatearRutDigitos | src/pages/DocumentosCaso.tsx:69-79 | An all-digit RUT is shown as its body grouped by three from the right, then `-` and the check digit. |
| CaseUpdate.CamposFaltantes | src/server/index.js:353-358 | The loop collects exactly the labels of the required fields that are missing, falsy or blank after trim, in declaration order. |
| CaseUpdate.FaltantesIff | src/server/index.js:354-357 | Each required label is reported exactly when its field is missing or blank. |
| CaseUpdate.FaltantesEnOrden | src/server/index.js:337-358 | The reported labels keep the declaration order of the required fields. |
| CaseUpdate.FaltantesVacio | src/server/index.js:360-366 | Nothing is reported exactly when every required field is present and non-blank. |
| CaseUpdate.ActualizarCaso | src/server/index.js:337-369 | The answer is 400 with the labels exactly when some field is missing. A non-string `rut` then throws (500). Otherwise the update goes ahead with the cleaned RUT. |
| CaseUpdate.UpdateCasoTs | src/server/index.ts:125-130 | The answer is 400 exactly when one of the five fields is falsy. Otherwise the RUT has its `.` and `-` removed, and a non-string RUT throws. |
| CaseUpdate.ArraysAndObjectsAsFields | src/server/index.js:355 | The arrays `[]` and `[" "]` are truthy but print blank, so the field is reported. The object `{}` prints `[object Object]` and counts as present. |
| CaseUpdate.BlankNameOnlyCaughtByJs | src/server/index.ts:125 | A name of blanks passes the TypeScript check but is reported by the JavaScript one. |
| CasosHook.CasosFiltrados | src/hooks/useCasos.ts:133-153 | No cases means no result. A case is kept exactly when it is in the list and passes the three filters. |
| CasosHook.FiltradosEnOrden | src/hooks/useCasos.ts:136-152 | The filtered list is a subsequence of the cases, in their order. |
| CasosHook.FiltradoIff | src/hooks/useCasos.ts:138-151 | A case is kept exactly when three things hold. First, the trimmed, lower-cased term is empty or occurs in the lower-cased cliente, asunto or id. Second, estado is "Todos" or equal. Third, abogado is "Todos" or equal. |
| CasosHook.SinFiltrosTodos | src/hooks/useCasos.ts:138-151 | With a blank term and both selectors on "Todos", every case is kept. |
| CasosHook.FiltrarDosVeces | src/hooks/useCasos.ts:136-152 | Filtering the filtered list again changes nothing. |
| CasosHook.Distintos | src/hooks/useCasos.ts:128 | `Array.from(new Set(...))` has exactly the same names, each once. |
| CasosHook.OrdenarOrdenada | src/hooks/useCasos.ts:129 | `sort()` on distinct names yields them in strictly increasing code-point order, a prefix first. |
| CasosHook.MenorQueTotal | src/hooks/useCasos.ts:129 | The string order of the default sort is total. |
| CasosHook.MenorQueTransitivo | src/hooks/useCasos.ts:129 | The string order of the default sort is transitive. |
| CasosHook.AbogadosOrdenadosSinRepetir | src/hooks/useCasos.ts:127-130 | The list is "Todos", then every lawyer of the cases exactly once, in increasing order, and nothing else. |
| CasosHook.ActualizarFiltros | src/hooks/useCasos.ts:156-161 | The merge overrides exactly the keys supplied and keeps the others. |
| CasosHook.ActualizarFiltrosIdempotente | src/hooks/useCasos.ts:156-161 | An empty update changes nothing, and applying an update twice equals applying it once. |
| CasosContext.Completar | src/context/CasosContext.tsx:42-45 | The case is the input's fields with the generated id. |
| CasosContext.SufijoId | src/context/CasosContext.tsx:38 | `split('-')[1]` is `undefined` exactly when the id has no `-`. |
| CasosContext.PrimerId | src/context/CasosContext.tsx:37-40 | With no cases the first id is `CAS-001`. |
| CasosContext.NuevoIdSinTruncar | src/context/CasosContext.tsx:40 | After a last number n, the new id is `CAS-` plus the digits of n + 1 with leading zeros to at least three digits. All digits are kept, and the suffix reads back as n + 1. |
| CasosContext.IdSecuencial | src/context/CasosContext.tsx:35-48 | Appending the generated case makes its number the last one: ids count up by one. |
| CasosContext.NaNSePropaga | src/context/CasosContext.tsx:38-40 | Once the last id has no number after its `-`, the new id is `CAS-NaN`, and so is every later one. |
| CasosContext.NumeracionDesdeVacio | src/context/CasosContext.tsx:35-48 | Starting from no cases, the k-th added case gets number k. |
| CasosContext.CasosStore.constructor | src/context/CasosContext.tsx:21-33 | The store holds the initial cases. |
| CasosContext.CasosStore.AgregarCaso | src/context/CasosContext.tsx:35-49 | The returned case is the input with the next id, and it is appended at the end with the earlier cases unchanged. |
| CasosContext.FiltrarCasos | src/context/CasosContext.tsx:51-73 | A case is kept exactly when it is in the list and passes the running conjunction. |
| CasosContext.CumpleIff | src/context/CasosContext.tsx:53-71 | The running conjunction is exactly three conditions. The estado filter is off when absent or "TODOS"; the prioridad filter is off when absent or "TODAS". A non-empty search must occur, untrimmed and lower-cased, in cliente, asunto, abogado or id. |
| CasosContext.FiltrarEnOrden | src/context/CasosContext.tsx:52-72 | The result is a subsequence of the cases, in order. |
| CasosContext.ComodinesIgnorados | src/context/CasosContext.tsx:55-60 | "TODOS" disables the estado filter exactly as an absent estado does, and "TODAS" does the same for prioridad. |
| CasosContext.SinFiltrosTodos | src/context/CasosContext.tsx:51-73 | With no filter given, every case is returned. |
| AbogadoTop.ContarPorAbogado | src/components/dashboard/AbogadoTop.tsx:4-7 | The `forEach` loop builds the case-by-case count. Its keys are the distinct lawyers in first-seen order. |
| AbogadoTop.ContarCaso | src/components/dashboard/AbogadoTop.tsx:6 | One callback adds one to its lawyer's entry, creating it at 1, and records a new key. |
| AbogadoTop.ContadoEsConteo | src/components/dashboard/AbogadoTop.tsx:4-7 | The loop's dictionary maps each lawyer of the cases to their number of cases. |
| AbogadoTop.ConteoPositivo | src/components/dashboard/AbogadoTop.tsx:4-7 | Every entry is at least one. |
| AbogadoTop.ConteoTotal | src/components/dashboard/AbogadoTop.tsx:4-7 | The counts add up to the number of cases. |
| AbogadoTop.OrdenarPorCantidad | src/components/dashboard/AbogadoTop.tsx:11 | The sort is a permutation of the entries, with counts non-increasing. |
| AbogadoTop.TopTres | src/components/dashboard/AbogadoTop.tsx:12 | At most three entries, non-increasing, taken from the front of the sorted list. |
| AbogadoTop.TopAbogados | src/components/dashboard/AbogadoTop.tsx:4-12 | The card's data is the ranking of the counted entries. |
| AbogadoTop.RankingCorrecto | src/components/dashboard/AbogadoTop.tsx:10-12 | The card shows at most three distinct lawyers of the cases, highest count first, each with their true count. Nobody left out has more cases than someone shown. |
| AbogadoTop.RankingCompleto | src/components/dashboard/AbogadoTop.tsx:10-12 | With at most three lawyers, every one of them is shown. |
| AbogadoTop.TopDistintos | src/components/dashboard/AbogadoTop.tsx:10-12 | With distinct keys, no lawyer is ranked twice. |
| AbogadoTop.TopEsMaximo | src/components/dashboard/AbogadoTop.tsx:11-12 | A lawyer left out has no more cases than any ranked one. |
| AbogadoTop.TopCompleto | src/components/dashboard/AbogadoTop.tsx:12 | With at most three keys, every key is ranked. |
| UserForm.EmailCoincideIff | src/components/UserManagement.tsx:106 | The pattern accepts exactly the addresses that meet three conditions: no whitespace; a single `@`, which is not first; and some `.` after the `@`, neither next to it nor last. |
| UserForm.EmailAceptado | src/components/UserManagement.tsx:106 | `ana@estudio.cl` matches. |
| UserForm.EmailSinPunto | src/components/UserManagement.tsx:106 | An address with no `.` does not match. |
| UserForm.EmailDosArrobas | src/components/UserManagement.tsx:106 | An address with two `@` does not match. |
| UserForm.EmailConEspacio | src/components/UserManagement.tsx:106 | An address with a space does not match. |
| UserForm.ErroresPorPasos | src/components/UserManagement.tsx:98-122 | The five assignments, done in order, build the dictionary of failed checks: no field overwrites another. |
| UserForm.Formulario.constructor | src/components/UserManagement.tsx:36-44 | The form starts empty, in create mode, with no errors. |
| UserForm.Formulario.ValidateForm | src/components/UserManagement.tsx:97-126 | The stored errors are the failed checks of the current form. The result is true exactly when there is none. The form data is untouched. |
| UserForm.Validar | src/components/UserManagement.tsx:98-122 | The five checks on an empty dictionary give exactly one message per failed field. |
| UserForm.ComprobarUsername | src/components/UserManagement.tsx:100-102 | The username message is set exactly when the username is blank. |
| UserForm.ComprobarEmail | src/components/UserManagement.tsx:104-108 | The email gets "required" when blank, "not valid" when it fails the pattern, and no message otherwise. |
| UserForm.ComprobarPassword | src/components/UserManagement.tsx:110-114 | "Required" is set when creating with a blank password. "Too short" is set for a non-empty password under 8 characters. |
| UserForm.ComprobarNombre | src/components/UserManagement.tsx:116-118 | The full-name message is set exactly when the name is blank. |
| UserForm.ComprobarRol | src/components/UserManagement.tsx:120-122 | The role message is set exactly when no role is selected. |
| UserForm.ClaveDiccionario | src/components/UserManagement.tsx:97-122 | Only the five fields can carry a message, and each carries one exactly when its check failed. |
| UserForm.CadaCampo | src/components/UserManagement.tsx:97-122 | Each field holds its own message, at most one. |
| UserForm.CampoPassword | src/components/UserManagement.tsx:110-114 | The password key holds the password check's message, if any. |
| UserForm.DiccionarioVacio | src/components/UserManagement.tsx:125 | The dictionary is empty exactly when no check failed. |
| UserForm.ValidoSii | src/components/UserManagement.tsx:97-126 | The form is valid exactly when each field passes its own rule. |
| UserForm.UsernameRequerido | src/components/UserManagement.tsx:100-102 | A username gets a message exactly when it is blank, and the message is "required". |
| UserForm.EmailMensajes | src/components/UserManagement.tsx:104-108 | A blank email is "required". A non-blank, badly formed email is "not valid". |
| UserForm.PasswordRequeridaAlCrear | src/components/UserManagement.tsx:110-111 | Creating with a blank password reports it as required. |
| UserForm.PasswordCortaEnAmbosModos | src/components/UserManagement.tsx:112-113 | A non-blank password under 8 characters is too short in both modes. When editing, "   " is too short as well. |
| UserForm.PasswordVaciaAlEditar | src/components/UserManagement.tsx:110-114 | An empty password is accepted when editing and refused when creating. |
| UserForm.NombreYRolRequeridos | src/components/UserManagement.tsx:116-122 | A blank full name and an empty role selection are each reported, with their messages. |
| UserForm.ComoObjeto | src/components/UserManagement.tsx:36-42 | The form object has exactly the five keys. |
| UserForm.Json | src/components/UserManagement.tsx:152 | `JSON.stringify` keeps exactly the properties whose value is not `undefined`. |
| UserForm.CuerpoSinPasswordAlEditar | src/components/UserManagement.tsx:142-144 | An edit sends the four other fields and no password. A creation sends all five. |
| JsStrings.BlankIffTrimEmpty | src/components/UserManagement.tsx:100 | `!s.trim()` holds exactly for text made only of whitespace. |
| JsStrings.SplitPopIsAfterLast | src/server/index.js:24 | `split(sep).pop()` is the text after the last separator. |
| JsNumbers.ParseIntPadStart | src/context/CasosContext.tsx:38-40 | Zero-padding a number and parsing it back gives the number. |

## Left out

- SQL collation. Usernames and emails are compared with exact string equality, as under a binary collation. The `usuarios` schema is not part of this model. Under MySQL's default case- and trailing-space-insensitive collations, the login and failure-count queries would also find "ana" for "Ana". The create-user duplicate check would also refuse "Ana" next to "ana".
- SQL text, the MySQL pool and Express wiring. Queries are reads and writes on the tables. Responses are datatypes, without HTTP status bodies or JSON formatting.
- The 500 paths of every handler: a thrown query is not modelled. The exceptions are the swallowed best-effort writes and the `rut.replace` on a non-string RUT.
- JWT signing and verification, and bcrypt. These are library code, modelled as the oracle functions of `Entorno`.
- `JSON.parse` of the stored permissions. The role's permissions are a map already.
- IP address and user agent in session and audit rows, and the audit row's old and new values. They are request data that no property reads.
- Rate limiting with `express-rate-limit`: library behaviour.
- Concurrency. Every handler runs alone; interleavings, such as two refreshes of the same token at once, are not modelled.
- The clock, which is a `nat` argument in seconds; time zones and `DATE_ADD` arithmetic are not modelled.
- The document-selecting SQL `LIKE` queries of the path-repair runs. The loops take the selected rows as their input.
- `getServerFilePath` and `path.join` in the delete handler. The file removed is the stored path itself.
- String lengths count Unicode code points, not UTF-16 code units. The two differ only outside the Basic Multilingual Plane.
- `toLowerCase` and `toUpperCase` cover ASCII and the Latin-1 capitals only.
- NaN and `-0` as field values in the falsy checks.
- `parseInt` values beyond 2^53, which the id generator never reaches.
- Object key order where keys look like integers, and `__proto__` keys.
- `useCasos` computes the `abogados` list from its hard-coded sample cases. The model computes it from any given list.
- React state mechanics (`useState`, `useMemo`, stale closures), `loadUsers` and the fetch calls of `handleSubmit` beyond the body they send.
- The second 404 of the delete handler cannot happen when requests are sequential; it is modelled anyway.
- AuthModel.TokenDe: states only that a found token is non-empty. `AuthProperties.TokenDeBearer` states the `Bearer <token>` case. A header whose second word contains further spaces is not characterised.
- CaseUpdate.UpdateCasoTs: the non-string RUT case is stated in one direction only (a thrown error implies a non-string RUT).
- CasosHook.OrdenarOrdenada: proved for the distinct names it is applied to, not for lists with repeats. Names are compared by code point; JavaScript compares UTF-16 code units, which orders differently only against characters outside the Basic Multilingual Plane.
- AbogadoTop.OrdenarPorCantidad: states a non-increasing permutation; the order among lawyers with equal counts, which JavaScript's stable sort keeps, is not stated.
