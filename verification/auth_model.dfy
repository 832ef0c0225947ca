/**
 * The authentication and session lifecycle of src/server/middleware/auth.js,
 * src/server/routes/auth.js and the deployment variant api/index.js, as pure
 * functions from the tables before a request to the tables after it and the answer.
 *
 * The tables `usuarios`, `roles`, `sesiones` and `logs_auditoria` are a `Tablas`
 * value; time is a number of seconds. JWT signing and verification and bcrypt are
 * oracles held in an `Entorno`; so are the failure-lock threshold and the order in
 * which the database evaluates the assignments of one UPDATE. The best-effort
 * writes (failure count, reset, last access, audit) take a flag saying whether
 * that write throws; a thrown error is logged and swallowed.
 */
module AuthModel {
  import opened Wrappers
  import opened JsStrings
  import opened Seqs

  // ----- Constants -----

  /** `expiresIn: '15m'` and `INTERVAL 15 MINUTE`. */
  const AccessTtl: nat := 900
  /** `expiresIn: '7d'` and `INTERVAL 7 DAY`. */
  const RefreshTtl: nat := 604800
  /** `INTERVAL 30 MINUTE` of the failure lock. */
  const LockTtl: nat := 1800
  /** `WHEN intentos_fallidos >= 4`. */
  const UmbralBloqueo: nat := 4
  /** `password.length < 8` in the create-user validation. */
  const LargoMinimoPassword: nat := 8

  // ----- Tables -----

  datatype TipoSesion = Access | Refresh

  /** A `sesiones` row; a `NULL` token (from an `undefined` parameter) is `None`. */
  datatype Sesion = Sesion(usuarioId: nat, token: Option<string>, tipo: TipoSesion, expiraEn: nat, activo: bool)

  /** A `roles` row, with `permisos` already parsed from its JSON text. */
  datatype Rol = Rol(nombre: string, permisos: map<string, seq<string>>)

  /** A `usuarios` row. */
  datatype Usuario = Usuario(
    id: nat, username: string, email: string, passwordHash: string, nombreCompleto: string,
    rolId: nat, activo: bool, intentosFallidos: nat, bloqueadoHasta: Option<nat>,
    ultimoAcceso: Option<nat>, creadoPor: Option<nat>)

  /** A `logs_auditoria` row (the request's IP and user agent are not modelled). */
  datatype Auditoria = Auditoria(usuarioId: nat, accion: string, registroId: nat)

  /** The database: rows in insertion order, and the next AUTO_INCREMENT id of `usuarios`. */
  datatype Tablas = Tablas(
    usuarios: seq<Usuario>, roles: map<nat, Rol>, sesiones: seq<Sesion>,
    auditoria: seq<Auditoria>, proximoId: nat)

  /** The uniqueness constraints of `usuarios` and the AUTO_INCREMENT counter. */
  predicate TablasValidas(t: Tablas) {
    && (forall i, j :: 0 <= i < j < |t.usuarios| ==> t.usuarios[i].id != t.usuarios[j].id)
    && (forall i, j :: 0 <= i < j < |t.usuarios| ==> t.usuarios[i].username != t.usuarios[j].username)
    && (forall i, j :: 0 <= i < j < |t.usuarios| ==> t.usuarios[i].email != t.usuarios[j].email)
    && (forall i :: 0 <= i < |t.usuarios| ==> t.usuarios[i].id < t.proximoId)
  }

  // ----- Oracles -----

  /** What `jwt.verify(token, JWT_SECRET)` does: the decoded `userId`, `TokenExpiredError` or `JsonWebTokenError`. */
  datatype Veredicto = Valido(userId: nat) | Expirado | Invalido

  datatype Secreto = JwtSecret | JwtRefreshSecret

  /** What `jwt.sign` is given: the payload `{ userId, type }`, the secret and the expiry instant. */
  datatype Claims = Claims(userId: nat, tipo: TipoSesion, secreto: Secreto, expira: nat)

  /** How the database evaluates `SET a = a + 1, b = CASE WHEN a >= n ...`: MySQL sees the new `a`. */
  datatype OrdenSet = IzquierdaADerecha | Simultanea

  datatype Entorno = Entorno(
    verificar: string -> Veredicto,
    coincide: (string, string) -> bool,   // bcrypt.compare(password, hash)
    firmar: Claims -> string,             // jwt.sign
    hashear: string -> string,            // bcrypt.hash(password, 12)
    umbral: nat,
    orden: OrdenSet)

  /** Which best-effort writes throw (and are swallowed). */
  datatype Fallos = Fallos(registrarFallo: bool, resetear: bool, ultimoAcceso: bool, auditoria: bool)

  // ----- Pure guards -----

  datatype Guardia = Pasa | Denegado(mensaje: string)

  /** `requirePermission(recurso, accion)`: 403 unless `permisos[recurso]` exists and includes `accion`. */
  function RequirePermission(permisos: map<string, seq<string>>, recurso: string, accion: string): (r: Guardia)
    ensures r.Pasa? <==> recurso in permisos && accion in permisos[recurso]
    ensures r.Denegado? ==> r.mensaje == "No tienes permisos para " + accion + " en " + recurso
  {
    if recurso !in permisos || accion !in permisos[recurso] then
      Denegado("No tienes permisos para " + accion + " en " + recurso)
    else
      Pasa
  }

  /** The argument of `requireRole`: one role or a list. */
  datatype RolesRequeridos = Uno(rol: string) | Varios(roles: seq<string>)

  /** `Array.isArray(roles) ? roles : [roles]`. */
  function RolesArray(roles: RolesRequeridos): (r: seq<string>)
    ensures roles.Uno? ==> r == [roles.rol]
    ensures roles.Varios? ==> r == roles.roles
  {
    match roles
    case Uno(rol) => [rol]
    case Varios(rs) => rs
  }

  /** `parts.join(sep)` with a text separator. */
  function JoinWith(parts: seq<string>, sep: string): string {
    if |parts| == 0 then "" else if |parts| == 1 then parts[0] else parts[0] + sep + JoinWith(parts[1..], sep)
  }

  /** `requireRole(roles)`: 403 unless the user's `rol_nombre` is one of the roles. */
  function RequireRole(roles: RolesRequeridos, rolNombre: string): (r: Guardia)
    ensures r.Pasa? <==> rolNombre in RolesArray(roles)
    ensures roles.Uno? ==> (r.Pasa? <==> rolNombre == roles.rol)
    ensures r.Denegado? ==> r.mensaje == "Rol requerido: " + JoinWith(RolesArray(roles), " o ")
  {
    var rolesArray := RolesArray(roles);
    if rolNombre !in rolesArray then Denegado("Rol requerido: " + JoinWith(rolesArray, " o ")) else Pasa
  }

  // ----- generateTokens -----

  /** `generateTokens(userId)`: the object `{ accessToken, refreshToken }`, as a key-value map. */
  function GenerateTokens(userId: nat, ahora: nat, firmar: Claims -> string): (m: map<string, string>)
    ensures m.Keys == {"accessToken", "refreshToken"}
    ensures m["accessToken"] == firmar(Claims(userId, Access, JwtSecret, ahora + AccessTtl))
    ensures m["refreshToken"] == firmar(Claims(userId, Refresh, JwtRefreshSecret, ahora + RefreshTtl))
  {
    map["accessToken" := firmar(Claims(userId, Access, JwtSecret, ahora + AccessTtl)),
        "refreshToken" := firmar(Claims(userId, Refresh, JwtRefreshSecret, ahora + RefreshTtl))]
  }

  /** Destructuring a property from an object: `undefined` when the key is absent. */
  function Propiedad(m: map<string, string>, clave: string): (r: Option<string>)
    ensures r.Some? <==> clave in m
    ensures r.Some? ==> r.value == m[clave]
  {
    if clave in m then Some(m[clave]) else None
  }

  // ----- Row updates -----

  /** One row of `handleFailedLogin`'s UPDATE: the counter goes up by one; the CASE sets or keeps the lock. */
  function Fallar(u: Usuario, ahora: nat, umbral: nat, orden: OrdenSet): (r: Usuario)
    ensures r.intentosFallidos == u.intentosFallidos + 1
    ensures var visto := if orden == IzquierdaADerecha then r.intentosFallidos else u.intentosFallidos;
            r.bloqueadoHasta == (if visto >= umbral then Some(ahora + LockTtl) else u.bloqueadoHasta)
    ensures r.(intentosFallidos := u.intentosFallidos, bloqueadoHasta := u.bloqueadoHasta) == u
  {
    var nuevo := u.intentosFallidos + 1;
    var visto := if orden == IzquierdaADerecha then nuevo else u.intentosFallidos;
    u.(intentosFallidos := nuevo,
       bloqueadoHasta := if visto >= umbral then Some(ahora + LockTtl) else u.bloqueadoHasta)
  }

  /** `handleFailedLogin(username)`: every row with that username fails once; nothing else changes. */
  function RegistrarFallo(t: Tablas, username: string, ahora: nat, env: Entorno, falla: bool): (r: Tablas)
    ensures r.roles == t.roles && r.sesiones == t.sesiones && r.auditoria == t.auditoria && r.proximoId == t.proximoId
    ensures |r.usuarios| == |t.usuarios|
    ensures forall k :: 0 <= k < |t.usuarios| ==>
      r.usuarios[k] == if !falla && t.usuarios[k].username == username
                       then Fallar(t.usuarios[k], ahora, env.umbral, env.orden) else t.usuarios[k]
  {
    if falla then t
    else
      t.(usuarios := seq(|t.usuarios|, k requires 0 <= k < |t.usuarios| =>
           if t.usuarios[k].username == username then Fallar(t.usuarios[k], ahora, env.umbral, env.orden)
           else t.usuarios[k]))
  }

  /** `resetFailedAttempts(userId)`: counter 0 and no lock for that id; nothing else changes. */
  function ResetearFallos(t: Tablas, userId: nat, falla: bool): (r: Tablas)
    ensures r.roles == t.roles && r.sesiones == t.sesiones && r.auditoria == t.auditoria && r.proximoId == t.proximoId
    ensures |r.usuarios| == |t.usuarios|
    ensures forall k :: 0 <= k < |t.usuarios| ==>
      r.usuarios[k] == if !falla && t.usuarios[k].id == userId
                       then t.usuarios[k].(intentosFallidos := 0, bloqueadoHasta := None) else t.usuarios[k]
  {
    if falla then t
    else
      t.(usuarios := seq(|t.usuarios|, k requires 0 <= k < |t.usuarios| =>
           if t.usuarios[k].id == userId then t.usuarios[k].(intentosFallidos := 0, bloqueadoHasta := None)
           else t.usuarios[k]))
  }

  /** `updateLastAccess(userId)`. */
  function ActualizarUltimoAcceso(t: Tablas, userId: nat, ahora: nat, falla: bool): (r: Tablas)
    ensures r.roles == t.roles && r.sesiones == t.sesiones && r.auditoria == t.auditoria && r.proximoId == t.proximoId
    ensures |r.usuarios| == |t.usuarios|
    ensures forall k :: 0 <= k < |t.usuarios| ==>
      r.usuarios[k] == if !falla && t.usuarios[k].id == userId
                       then t.usuarios[k].(ultimoAcceso := Some(ahora)) else t.usuarios[k]
  {
    if falla then t
    else
      t.(usuarios := seq(|t.usuarios|, k requires 0 <= k < |t.usuarios| =>
           if t.usuarios[k].id == userId then t.usuarios[k].(ultimoAcceso := Some(ahora))
           else t.usuarios[k]))
  }

  /** `logAuditoria(...)`: one more audit row, unless the INSERT throws. */
  function Auditar(t: Tablas, usuarioId: nat, accion: string, registroId: nat, falla: bool): (r: Tablas)
    ensures r.usuarios == t.usuarios && r.roles == t.roles && r.sesiones == t.sesiones && r.proximoId == t.proximoId
    ensures r.auditoria == t.auditoria + (if falla then [] else [Auditoria(usuarioId, accion, registroId)])
  {
    if falla then t else t.(auditoria := t.auditoria + [Auditoria(usuarioId, accion, registroId)])
  }

  /** `UPDATE sesiones SET activo = FALSE WHERE token = ?` (a NULL token matches nothing). */
  function DesactivarToken(ss: seq<Sesion>, token: string): (r: seq<Sesion>)
    ensures |r| == |ss|
    ensures forall k :: 0 <= k < |ss| ==>
      r[k] == if ss[k].token == Some(token) then ss[k].(activo := false) else ss[k]
  {
    seq(|ss|, k requires 0 <= k < |ss| => if ss[k].token == Some(token) then ss[k].(activo := false) else ss[k])
  }

  /** `UPDATE sesiones SET activo = FALSE WHERE usuario_id = ? AND token = ?`. */
  function DesactivarSesion(ss: seq<Sesion>, usuarioId: nat, token: string): (r: seq<Sesion>)
    ensures |r| == |ss|
    ensures forall k :: 0 <= k < |ss| ==>
      r[k] == if ss[k].usuarioId == usuarioId && ss[k].token == Some(token) then ss[k].(activo := false) else ss[k]
  {
    seq(|ss|, k requires 0 <= k < |ss| =>
      if ss[k].usuarioId == usuarioId && ss[k].token == Some(token) then ss[k].(activo := false) else ss[k])
  }

  /** The two rows the login and refresh INSERT: an access session for 15 minutes and a refresh one for 7 days. */
  function ParDeSesiones(usuarioId: nat, access: Option<string>, refresh: Option<string>, ahora: nat): seq<Sesion> {
    [Sesion(usuarioId, access, Access, ahora + AccessTtl, true),
     Sesion(usuarioId, refresh, Refresh, ahora + RefreshTtl, true)]
  }

  // ----- authenticateToken -----

  /** `authHeader && authHeader.split(' ')[1]`, falsy (`undefined` or `''`) as `None`. */
  function TokenDe(header: string): (r: Option<string>)
    ensures r.Some? ==> r.value != ""
  {
    if header == "" then None
    else
      var parts := Split(header, ' ');
      if |parts| < 2 || parts[1] == "" then None else Some(parts[1])
  }

  /** The row the session query accepts: `token = ? AND activo = TRUE AND expira_en > NOW()`; no type test. */
  predicate SesionVigente(s: Sesion, token: string, ahora: nat) {
    s.token == Some(token) && s.activo && s.expiraEn > ahora
  }

  predicate HaySesionVigente(ss: seq<Sesion>, token: string, ahora: nat) {
    exists k | 0 <= k < |ss| :: SesionVigente(ss[k], token, ahora)
  }

  /** The rows of `usuarios u JOIN roles r ON u.rol_id = r.id WHERE u.id = ? AND u.activo = TRUE`. */
  function UsuarioActivo(roles: map<nat, Rol>, userId: nat): Usuario -> bool {
    (u: Usuario) => u.id == userId && u.activo && u.rolId in roles
  }

  datatype RespuestaAuth =
    | SinToken              // 401 'Token de acceso requerido'
    | TokenExpirado         // 401 'Token expirado'
    | TokenInvalido         // 401 'Token inválido'
    | SesionInvalida        // 401 'Token inválido o expirado'
    | UsuarioInvalido       // 401 'Usuario no encontrado o inactivo'
    | Autenticado(usuario: Usuario, rol: Rol, token: string)   // `next()` with `req.user` and `req.token`

  /** `authenticateToken`: the checks in their order; it reads the tables and writes nothing. */
  function Autenticar(t: Tablas, header: string, ahora: nat, verificar: string -> Veredicto): (r: RespuestaAuth)
    ensures r.SinToken? <==> TokenDe(header).None?
    ensures r.TokenExpirado? <==> TokenDe(header).Some? && verificar(TokenDe(header).value).Expirado?
    ensures r.TokenInvalido? <==> TokenDe(header).Some? && verificar(TokenDe(header).value).Invalido?
    ensures r.SesionInvalida? <==>
      TokenDe(header).Some? && verificar(TokenDe(header).value).Valido?
      && !HaySesionVigente(t.sesiones, TokenDe(header).value, ahora)
    ensures r.Autenticado? ==>
      && TokenDe(header) == Some(r.token)
      && verificar(r.token) == Valido(r.usuario.id)
      && HaySesionVigente(t.sesiones, r.token, ahora)
      && r.usuario in t.usuarios && r.usuario.activo
      && r.usuario.rolId in t.roles && r.rol == t.roles[r.usuario.rolId]
    ensures r.UsuarioInvalido? <==>
      TokenDe(header).Some? && verificar(TokenDe(header).value).Valido?
      && HaySesionVigente(t.sesiones, TokenDe(header).value, ahora)
      && forall k :: 0 <= k < |t.usuarios| ==> !UsuarioActivo(t.roles, verificar(TokenDe(header).value).userId)(t.usuarios[k])
    ensures
      (&& TokenDe(header).Some? && verificar(TokenDe(header).value).Valido?
       && HaySesionVigente(t.sesiones, TokenDe(header).value, ahora)
       && exists k | 0 <= k < |t.usuarios| :: UsuarioActivo(t.roles, verificar(TokenDe(header).value).userId)(t.usuarios[k]))
      ==> r.Autenticado?
  {
    match TokenDe(header)
    case None => SinToken
    case Some(token) =>
      match verificar(token)
      case Expirado => TokenExpirado
      case Invalido => TokenInvalido
      case Valido(userId) =>
        if !HaySesionVigente(t.sesiones, token, ahora) then SesionInvalida
        else
          match FirstIndex(t.usuarios, UsuarioActivo(t.roles, userId))
          case None => UsuarioInvalido
          case Some(k) =>
            var u := t.usuarios[k];
            assert UsuarioActivo(t.roles, userId)(u);
            Autenticado(u, t.roles[u.rolId], token)
  }

  // ----- Login -----

  /** The user object of the login answer: no password hash. */
  datatype UsuarioPublico = UsuarioPublico(
    id: nat, username: string, email: string, nombreCompleto: string, rol: string,
    permisos: map<string, seq<string>>)

  datatype RespuestaLogin =
    | FaltanCredenciales                 // 400
    | CredencialesInvalidas              // 401 'Credenciales inválidas'
    | CuentaBloqueada(hasta: nat)        // 423
    | CuentaDesactivada                  // 401 'Cuenta desactivada'
    | LoginExitoso(usuario: UsuarioPublico, accessToken: string, refreshToken: string)

  datatype ResultadoLogin = ResultadoLogin(tablas: Tablas, respuesta: RespuestaLogin)

  /** The rows of `usuarios u JOIN roles r ON u.rol_id = r.id WHERE u.username = ?`. */
  function ConUsername(roles: map<nat, Rol>, username: string): Usuario -> bool {
    (u: Usuario) => u.username == username && u.rolId in roles
  }

  function Publico(u: Usuario, rol: Rol): UsuarioPublico {
    UsuarioPublico(u.id, u.username, u.email, u.nombreCompleto, rol.nombre, rol.permisos)
  }

  /** `new Date() < new Date(usuario.bloqueado_hasta)` with a non-null lock. */
  predicate Bloqueado(u: Usuario, ahora: nat) {
    u.bloqueadoHasta.Some? && ahora < u.bloqueadoHasta.value
  }

  /** `POST /login` of src/server/routes/auth.js. */
  function Login(t: Tablas, username: string, password: string, ahora: nat, env: Entorno, fallos: Fallos): (r: ResultadoLogin)
    ensures r.respuesta.FaltanCredenciales? <==> username == "" || password == ""
    ensures r.respuesta.FaltanCredenciales? || r.respuesta.CuentaBloqueada? || r.respuesta.CuentaDesactivada?
            ==> r.tablas == t
    ensures r.respuesta.CredencialesInvalidas? ==>
            r.tablas == RegistrarFallo(t, username, ahora, env, fallos.registrarFallo)
    ensures r.tablas.roles == t.roles && r.tablas.proximoId == t.proximoId
    ensures username != "" && password != "" && FirstIndex(t.usuarios, ConUsername(t.roles, username)).None? ==>
            r == ResultadoLogin(RegistrarFallo(t, username, ahora, env, fallos.registrarFallo), CredencialesInvalidas)
    ensures username != "" && password != "" && FirstIndex(t.usuarios, ConUsername(t.roles, username)).Some? ==>
            var u := t.usuarios[FirstIndex(t.usuarios, ConUsername(t.roles, username)).value];
            && (r.respuesta.CuentaBloqueada? <==> Bloqueado(u, ahora))
            && (r.respuesta.CredencialesInvalidas? <==> !Bloqueado(u, ahora) && !env.coincide(password, u.passwordHash))
            && (r.respuesta.CuentaDesactivada? <==> !Bloqueado(u, ahora) && env.coincide(password, u.passwordHash) && !u.activo)
            && (r.respuesta.LoginExitoso? <==> !Bloqueado(u, ahora) && env.coincide(password, u.passwordHash) && u.activo)
            && (r.respuesta.LoginExitoso? ==> r.respuesta.usuario == Publico(u, t.roles[u.rolId]))
    ensures r.respuesta.LoginExitoso? ==>
            exists k | 0 <= k < |t.usuarios| ::
              && ConUsername(t.roles, username)(t.usuarios[k]) && !Bloqueado(t.usuarios[k], ahora)
              && env.coincide(password, t.usuarios[k].passwordHash) && t.usuarios[k].activo
              && r.respuesta.usuario == Publico(t.usuarios[k], t.roles[t.usuarios[k].rolId])
  {
    if username == "" || password == "" then ResultadoLogin(t, FaltanCredenciales)
    else
      match FirstIndex(t.usuarios, ConUsername(t.roles, username))
      case None =>
        ResultadoLogin(RegistrarFallo(t, username, ahora, env, fallos.registrarFallo), CredencialesInvalidas)
      case Some(k) =>
        var u := t.usuarios[k];
        assert ConUsername(t.roles, username)(u);
        if Bloqueado(u, ahora) then ResultadoLogin(t, CuentaBloqueada(u.bloqueadoHasta.value))
        else if !env.coincide(password, u.passwordHash) then
          ResultadoLogin(RegistrarFallo(t, username, ahora, env, fallos.registrarFallo), CredencialesInvalidas)
        else if !u.activo then ResultadoLogin(t, CuentaDesactivada)
        else
          var t1 := ResetearFallos(t, u.id, fallos.resetear);
          var tokens := GenerateTokens(u.id, ahora, env.firmar);
          var access, refresh := tokens["accessToken"], tokens["refreshToken"];
          var t2 := t1.(sesiones := t1.sesiones + ParDeSesiones(u.id, Some(access), Some(refresh), ahora));
          var t3 := ActualizarUltimoAcceso(t2, u.id, ahora, fallos.ultimoAcceso);
          var t4 := Auditar(t3, u.id, "LOGIN", u.id, fallos.auditoria);
          ResultadoLogin(t4, LoginExitoso(Publico(u, t.roles[u.rolId]), access, refresh))
  }

  /** `POST /auth/login` of api/index.js: the same checks, without failure counting, reset, last access or audit. */
  function LoginApi(t: Tablas, username: string, password: string, ahora: nat, env: Entorno): (r: ResultadoLogin)
    ensures r.tablas.usuarios == t.usuarios && r.tablas.roles == t.roles && r.tablas.auditoria == t.auditoria
    ensures r.tablas.proximoId == t.proximoId
    ensures !r.respuesta.LoginExitoso? ==> r.tablas == t
  {
    if username == "" || password == "" then ResultadoLogin(t, FaltanCredenciales)
    else
      match FirstIndex(t.usuarios, ConUsername(t.roles, username))
      case None => ResultadoLogin(t, CredencialesInvalidas)
      case Some(k) =>
        var u := t.usuarios[k];
        assert ConUsername(t.roles, username)(u);
        if Bloqueado(u, ahora) then ResultadoLogin(t, CuentaBloqueada(u.bloqueadoHasta.value))
        else if !env.coincide(password, u.passwordHash) then ResultadoLogin(t, CredencialesInvalidas)
        else if !u.activo then ResultadoLogin(t, CuentaDesactivada)
        else
          var tokens := GenerateTokens(u.id, ahora, env.firmar);
          var access, refresh := tokens["accessToken"], tokens["refreshToken"];
          var t1 := t.(sesiones := t.sesiones + ParDeSesiones(u.id, Some(access), Some(refresh), ahora));
          ResultadoLogin(t1, LoginExitoso(Publico(u, t.roles[u.rolId]), access, refresh))
  }

  // ----- Logout -----

  datatype RespuestaLogout = LogoutRechazado(motivo: RespuestaAuth) | LogoutExitoso

  datatype ResultadoLogout = ResultadoLogout(tablas: Tablas, respuesta: RespuestaLogout)

  /** `POST /logout` of src/server/routes/auth.js behind `authenticateToken`; `auditar` is false for api/index.js. */
  function Logout(t: Tablas, header: string, ahora: nat, env: Entorno, auditar: bool, fallos: Fallos): (r: ResultadoLogout)
    ensures r.tablas.usuarios == t.usuarios && r.tablas.roles == t.roles && r.tablas.proximoId == t.proximoId
    ensures r.respuesta.LogoutExitoso? <==> Autenticar(t, header, ahora, env.verificar).Autenticado?
    ensures r.respuesta.LogoutRechazado? ==> r.tablas == t && r.respuesta.motivo == Autenticar(t, header, ahora, env.verificar)
    ensures r.respuesta.LogoutExitoso? ==>
      var a := Autenticar(t, header, ahora, env.verificar);
      r.tablas.sesiones == DesactivarSesion(t.sesiones, a.usuario.id, a.token)
    ensures r.respuesta.LogoutExitoso? ==>
      var a := Autenticar(t, header, ahora, env.verificar);
      r.tablas.auditoria == t.auditoria + (if auditar && !fallos.auditoria then [Auditoria(a.usuario.id, "LOGOUT", a.usuario.id)] else [])
  {
    match Autenticar(t, header, ahora, env.verificar)
    case Autenticado(u, _, token) =>
      var t1 := t.(sesiones := DesactivarSesion(t.sesiones, u.id, token));
      var t2 := if auditar then Auditar(t1, u.id, "LOGOUT", u.id, fallos.auditoria) else t1;
      ResultadoLogout(t2, LogoutExitoso)
    case motivo => ResultadoLogout(t, LogoutRechazado(motivo))
  }

  // ----- Refresh -----

  /** The row the refresh query accepts: `token = ? AND tipo = "refresh" AND activo = TRUE AND expira_en > NOW()`. */
  function RefreshVigente(token: string, ahora: nat): Sesion -> bool {
    (s: Sesion) => s.tipo == Refresh && SesionVigente(s, token, ahora)
  }

  datatype RespuestaRefresh =
    | FaltaRefreshToken                 // 400
    | RefreshInvalido                   // 401
    | RefreshExitoso(accessToken: string, refreshToken: Option<string>)

  datatype ResultadoRefresh = ResultadoRefresh(tablas: Tablas, respuesta: RespuestaRefresh)

  /** `POST /refresh` (identical in src/server/routes/auth.js and api/index.js). */
  function RefreshTokens(t: Tablas, refreshToken: string, ahora: nat, env: Entorno): (r: ResultadoRefresh)
    ensures r.tablas.usuarios == t.usuarios && r.tablas.roles == t.roles
    ensures r.tablas.auditoria == t.auditoria && r.tablas.proximoId == t.proximoId
    ensures r.respuesta.FaltaRefreshToken? <==> refreshToken == ""
    ensures r.respuesta.RefreshExitoso? <==>
      refreshToken != "" && exists k | 0 <= k < |t.sesiones| :: RefreshVigente(refreshToken, ahora)(t.sesiones[k])
    ensures !r.respuesta.RefreshExitoso? ==> r.tablas == t
  {
    if refreshToken == "" then ResultadoRefresh(t, FaltaRefreshToken)
    else
      match FirstIndex(t.sesiones, RefreshVigente(refreshToken, ahora))
      case None => ResultadoRefresh(t, RefreshInvalido)
      case Some(k) =>
        var usuarioId := t.sesiones[k].usuarioId;
        var tokens := GenerateTokens(usuarioId, ahora, env.firmar);
        var accessToken := tokens["accessToken"];
        var newRefreshToken := Propiedad(tokens, "newRefreshToken");
        var ss := DesactivarToken(t.sesiones, refreshToken);
        var t1 := t.(sesiones := ss + ParDeSesiones(usuarioId, Some(accessToken), newRefreshToken, ahora));
        ResultadoRefresh(t1, RefreshExitoso(accessToken, newRefreshToken))
  }

  // ----- Create user -----

  /** The body of `POST /usuarios`; a missing or zero `rol_id` is 0. */
  datatype NuevoUsuario = NuevoUsuario(username: string, email: string, password: string, nombreCompleto: string, rolId: nat)

  datatype RespuestaCrear =
    | CrearNoAutenticado(motivo: RespuestaAuth)   // 401 from `authenticateToken`
    | CrearRolDenegado                            // 403 from `requireRole(['SUPER_ADMIN', 'ADMIN'])`
    | CamposIncompletos                           // 400 'Todos los campos son requeridos'
    | PasswordCorta                               // 400
    | RolNoValido                                 // 400
    | UsuarioExistente                            // 400 'Username o email ya existe'
    | UsuarioCreado(id: nat)                      // 201

  datatype ResultadoCrear = ResultadoCrear(tablas: Tablas, respuesta: RespuestaCrear)

  const RolesAdministrador: RolesRequeridos := Varios(["SUPER_ADMIN", "ADMIN"])

  /** `SELECT id FROM usuarios WHERE username = ? OR email = ?` finds a row. */
  predicate Existe(us: seq<Usuario>, username: string, email: string) {
    exists k | 0 <= k < |us| :: us[k].username == username || us[k].email == email
  }

  /** The caller passes `authenticateToken` and `requireRole(['SUPER_ADMIN', 'ADMIN'])`. */
  predicate EsAdministrador(t: Tablas, header: string, ahora: nat, env: Entorno) {
    var a := Autenticar(t, header, ahora, env.verificar);
    a.Autenticado? && RequireRole(RolesAdministrador, a.rol.nombre).Pasa?
  }

  /** `username && email && password && nombre_completo && rol_id` are all truthy. */
  predicate CamposPresentes(body: NuevoUsuario) {
    body.username != "" && body.email != "" && body.password != "" && body.nombreCompleto != "" && body.rolId != 0
  }

  /** `POST /usuarios` of src/server/routes/auth.js behind `authenticateToken` and `requireRole`. */
  function CrearUsuario(t: Tablas, header: string, ahora: nat, env: Entorno, body: NuevoUsuario, fallos: Fallos): (r: ResultadoCrear)
    ensures r.tablas.roles == t.roles && r.tablas.sesiones == t.sesiones
    ensures r.respuesta.CrearNoAutenticado? <==> !Autenticar(t, header, ahora, env.verificar).Autenticado?
    ensures r.respuesta.CrearNoAutenticado? ==> r.respuesta.motivo == Autenticar(t, header, ahora, env.verificar)
    ensures r.respuesta.CrearRolDenegado? <==>
      Autenticar(t, header, ahora, env.verificar).Autenticado? && !EsAdministrador(t, header, ahora, env)
    ensures r.respuesta.CamposIncompletos? <==> EsAdministrador(t, header, ahora, env) && !CamposPresentes(body)
    ensures r.respuesta.PasswordCorta? <==>
      EsAdministrador(t, header, ahora, env) && CamposPresentes(body) && |body.password| < LargoMinimoPassword
    ensures r.respuesta.RolNoValido? <==>
      EsAdministrador(t, header, ahora, env) && CamposPresentes(body) && |body.password| >= LargoMinimoPassword
      && body.rolId !in t.roles
    ensures r.respuesta.UsuarioExistente? <==>
      EsAdministrador(t, header, ahora, env) && CamposPresentes(body) && |body.password| >= LargoMinimoPassword
      && body.rolId in t.roles && Existe(t.usuarios, body.username, body.email)
    ensures r.respuesta.UsuarioCreado? <==>
      EsAdministrador(t, header, ahora, env) && CamposPresentes(body) && |body.password| >= LargoMinimoPassword
      && body.rolId in t.roles && !Existe(t.usuarios, body.username, body.email)
    ensures !r.respuesta.UsuarioCreado? ==> r.tablas == t
    ensures r.respuesta.UsuarioCreado? ==>
      && Autenticar(t, header, ahora, env.verificar).Autenticado?
      && RequireRole(RolesAdministrador, Autenticar(t, header, ahora, env.verificar).rol.nombre).Pasa?
      && body.username != "" && body.email != "" && body.nombreCompleto != "" && body.rolId in t.roles
      && |body.password| >= LargoMinimoPassword
      && !Existe(t.usuarios, body.username, body.email)
      && r.respuesta.id == t.proximoId && r.tablas.proximoId == t.proximoId + 1
      && r.tablas.usuarios == t.usuarios + [Usuario(t.proximoId, body.username, body.email, env.hashear(body.password),
           body.nombreCompleto, body.rolId, true, 0, None, None, Some(Autenticar(t, header, ahora, env.verificar).usuario.id))]
      && r.tablas.auditoria == t.auditoria + (if fallos.auditoria then []
           else [Auditoria(Autenticar(t, header, ahora, env.verificar).usuario.id, "CREAR_USUARIO", t.proximoId)])
  {
    match Autenticar(t, header, ahora, env.verificar)
    case Autenticado(quien, rol, _) =>
      if !RequireRole(RolesAdministrador, rol.nombre).Pasa? then ResultadoCrear(t, CrearRolDenegado)
      else if body.username == "" || body.email == "" || body.password == "" || body.nombreCompleto == "" || body.rolId == 0 then
        ResultadoCrear(t, CamposIncompletos)
      else if |body.password| < LargoMinimoPassword then ResultadoCrear(t, PasswordCorta)
      else if body.rolId !in t.roles then ResultadoCrear(t, RolNoValido)
      else if Existe(t.usuarios, body.username, body.email) then ResultadoCrear(t, UsuarioExistente)
      else
        var id := t.proximoId;
        var nuevo := Usuario(id, body.username, body.email, env.hashear(body.password), body.nombreCompleto,
                             body.rolId, true, 0, None, None, Some(quien.id));
        var t1 := t.(usuarios := t.usuarios + [nuevo], proximoId := id + 1);
        var t2 := Auditar(t1, quien.id, "CREAR_USUARIO", id, fallos.auditoria);
        ResultadoCrear(t2, UsuarioCreado(id))
    case motivo => ResultadoCrear(t, CrearNoAutenticado(motivo))
  }
}
