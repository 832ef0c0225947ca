/**
 * The account and session store as a mutable object: the tables are fields, and
 * each handler of src/server/routes/auth.js and api/index.js is a method that
 * performs its reads and writes in the handler's order. Every method is proved to
 * leave the store in the state, and give the answer, that the corresponding
 * function of `AuthModel` describes.
 */
module AuthStore {
  import opened Wrappers
  import opened Seqs
  import opened AuthModel
  import opened AuthProperties

  class Store {
    var usuarios: seq<Usuario>
    var roles: map<nat, Rol>
    var sesiones: seq<Sesion>
    var auditoria: seq<Auditoria>
    var proximoId: nat

    /** The tables as a value. */
    function Estado(): Tablas
      reads this
    {
      Tablas(usuarios, roles, sesiones, auditoria, proximoId)
    }

    /** The uniqueness constraints of `usuarios` and the AUTO_INCREMENT counter hold. */
    predicate Valid()
      reads this
    {
      TablasValidas(Estado())
    }

    /** A database with the given roles and no users, sessions or audit rows. */
    constructor (roles: map<nat, Rol>)
      ensures Estado() == Tablas([], roles, [], [], 1)
      ensures Valid()
    {
      this.usuarios := [];
      this.roles := roles;
      this.sesiones := [];
      this.auditoria := [];
      this.proximoId := 1;
    }

    /** `handleFailedLogin(username)`. */
    method HandleFailedLogin(username: string, ahora: nat, env: Entorno, falla: bool)
      requires Valid()
      modifies this
      ensures Valid()
      ensures Estado() == RegistrarFallo(old(Estado()), username, ahora, env, falla)
    {
      RegistrarFalloPreservaValidas(Estado(), username, ahora, env, falla);
      if falla {
        return;   // the UPDATE threw; the error is logged and swallowed
      }
      var us := usuarios;
      usuarios := seq(|us|, k requires 0 <= k < |us| =>
        if us[k].username == username then Fallar(us[k], ahora, env.umbral, env.orden) else us[k]);
    }

    /** `resetFailedAttempts(userId)`. */
    method ResetFailedAttempts(userId: nat, falla: bool)
      requires Valid()
      modifies this
      ensures Valid()
      ensures Estado() == ResetearFallos(old(Estado()), userId, falla)
    {
      ResetearFallosPreservaValidas(Estado(), userId, falla);
      if falla {
        return;
      }
      var us := usuarios;
      usuarios := seq(|us|, k requires 0 <= k < |us| =>
        if us[k].id == userId then us[k].(intentosFallidos := 0, bloqueadoHasta := None) else us[k]);
    }

    /** `updateLastAccess(userId)`. */
    method UpdateLastAccess(userId: nat, ahora: nat, falla: bool)
      requires Valid()
      modifies this
      ensures Valid()
      ensures Estado() == ActualizarUltimoAcceso(old(Estado()), userId, ahora, falla)
    {
      ActualizarUltimoAccesoPreservaValidas(Estado(), userId, ahora, falla);
      if falla {
        return;
      }
      var us := usuarios;
      usuarios := seq(|us|, k requires 0 <= k < |us| =>
        if us[k].id == userId then us[k].(ultimoAcceso := Some(ahora)) else us[k]);
    }

    /** `logAuditoria(usuarioId, accion, 'usuarios', registroId, ...)`. */
    method LogAuditoria(usuarioId: nat, accion: string, registroId: nat, falla: bool)
      requires Valid()
      modifies this
      ensures Valid()
      ensures Estado() == Auditar(old(Estado()), usuarioId, accion, registroId, falla)
    {
      if !falla {
        auditoria := auditoria + [Auditoria(usuarioId, accion, registroId)];
      }
    }

    /** `authenticateToken`: reads only. */
    method Authenticate(header: string, ahora: nat, verificar: string -> Veredicto) returns (r: RespuestaAuth)
      ensures r == Autenticar(Estado(), header, ahora, verificar)
    {
      var token := TokenDe(header);
      if token.None? {
        return SinToken;
      }
      var decoded := verificar(token.value);
      if decoded.Expirado? {
        return TokenExpirado;
      }
      if decoded.Invalido? {
        return TokenInvalido;
      }
      if !HaySesionVigente(sesiones, token.value, ahora) {
        return SesionInvalida;
      }
      var fila := FirstIndex(usuarios, UsuarioActivo(roles, decoded.userId));
      if fila.None? {
        return UsuarioInvalido;
      }
      var usuario := usuarios[fila.value];
      return Autenticado(usuario, roles[usuario.rolId], token.value);
    }

    /** `POST /login` of src/server/routes/auth.js. */
    method Login(username: string, password: string, ahora: nat, env: Entorno, fallos: Fallos)
      returns (respuesta: RespuestaLogin)
      requires Valid()
      modifies this
      ensures Valid()
      ensures ResultadoLogin(Estado(), respuesta) == AuthModel.Login(old(Estado()), username, password, ahora, env, fallos)
    {
      if username == "" || password == "" {
        return FaltanCredenciales;
      }
      var fila := FirstIndex(usuarios, ConUsername(roles, username));
      if fila.None? {
        HandleFailedLogin(username, ahora, env, fallos.registrarFallo);
        return CredencialesInvalidas;
      }
      var usuario := usuarios[fila.value];
      if Bloqueado(usuario, ahora) {
        return CuentaBloqueada(usuario.bloqueadoHasta.value);
      }
      if !env.coincide(password, usuario.passwordHash) {
        HandleFailedLogin(username, ahora, env, fallos.registrarFallo);
        return CredencialesInvalidas;
      }
      if !usuario.activo {
        return CuentaDesactivada;
      }
      var rol := roles[usuario.rolId];
      var accessToken, refreshToken := Entrar(usuario.id, ahora, env, fallos);
      return LoginExitoso(Publico(usuario, rol), accessToken, refreshToken);
    }

    /** The writes of a successful `POST /login`, in order: reset, two sessions, last access, audit. */
    method Entrar(userId: nat, ahora: nat, env: Entorno, fallos: Fallos) returns (accessToken: string, refreshToken: string)
      requires Valid()
      modifies this
      ensures Valid()
      ensures accessToken == GenerateTokens(userId, ahora, env.firmar)["accessToken"]
      ensures refreshToken == GenerateTokens(userId, ahora, env.firmar)["refreshToken"]
      ensures var t1 := ResetearFallos(old(Estado()), userId, fallos.resetear);
              var t2 := t1.(sesiones := t1.sesiones + ParDeSesiones(userId, Some(accessToken), Some(refreshToken), ahora));
              Estado() == Auditar(ActualizarUltimoAcceso(t2, userId, ahora, fallos.ultimoAcceso), userId, "LOGIN", userId, fallos.auditoria)
    {
      ResetFailedAttempts(userId, fallos.resetear);
      var tokens := GenerateTokens(userId, ahora, env.firmar);
      accessToken, refreshToken := tokens["accessToken"], tokens["refreshToken"];
      sesiones := sesiones + ParDeSesiones(userId, Some(accessToken), Some(refreshToken), ahora);
      UpdateLastAccess(userId, ahora, fallos.ultimoAcceso);
      LogAuditoria(userId, "LOGIN", userId, fallos.auditoria);
    }

    /** `POST /auth/login` of api/index.js. */
    method LoginApi(username: string, password: string, ahora: nat, env: Entorno) returns (respuesta: RespuestaLogin)
      requires Valid()
      modifies this
      ensures Valid()
      ensures ResultadoLogin(Estado(), respuesta) == AuthModel.LoginApi(old(Estado()), username, password, ahora, env)
    {
      LoginApiPreservaValidas(Estado(), username, password, ahora, env);
      if username == "" || password == "" {
        return FaltanCredenciales;
      }
      var fila := FirstIndex(usuarios, ConUsername(roles, username));
      if fila.None? {
        return CredencialesInvalidas;
      }
      var usuario := usuarios[fila.value];
      if Bloqueado(usuario, ahora) {
        return CuentaBloqueada(usuario.bloqueadoHasta.value);
      }
      if !env.coincide(password, usuario.passwordHash) {
        return CredencialesInvalidas;
      }
      if !usuario.activo {
        return CuentaDesactivada;
      }
      var tokens := GenerateTokens(usuario.id, ahora, env.firmar);
      var accessToken, refreshToken := tokens["accessToken"], tokens["refreshToken"];
      sesiones := sesiones + ParDeSesiones(usuario.id, Some(accessToken), Some(refreshToken), ahora);
      return LoginExitoso(Publico(usuario, roles[usuario.rolId]), accessToken, refreshToken);
    }

    /** `POST /logout` (with the audit row) and `POST /auth/logout` (without it, `auditar` false). */
    method Logout(header: string, ahora: nat, env: Entorno, auditar: bool, fallos: Fallos)
      returns (respuesta: RespuestaLogout)
      requires Valid()
      modifies this
      ensures Valid()
      ensures ResultadoLogout(Estado(), respuesta) == AuthModel.Logout(old(Estado()), header, ahora, env, auditar, fallos)
    {
      LogoutPreservaValidas(Estado(), header, ahora, env, auditar, fallos);
      var auth := Authenticate(header, ahora, env.verificar);
      if !auth.Autenticado? {
        return LogoutRechazado(auth);
      }
      sesiones := DesactivarSesion(sesiones, auth.usuario.id, auth.token);
      if auditar {
        LogAuditoria(auth.usuario.id, "LOGOUT", auth.usuario.id, fallos.auditoria);
      }
      return LogoutExitoso;
    }

    /** `POST /refresh` and `POST /auth/refresh`. */
    method Refresh(refreshToken: string, ahora: nat, env: Entorno) returns (respuesta: RespuestaRefresh)
      requires Valid()
      modifies this
      ensures Valid()
      ensures ResultadoRefresh(Estado(), respuesta) == RefreshTokens(old(Estado()), refreshToken, ahora, env)
    {
      RefreshPreservaValidas(Estado(), refreshToken, ahora, env);
      if refreshToken == "" {
        return FaltaRefreshToken;
      }
      var fila := FirstIndex(sesiones, RefreshVigente(refreshToken, ahora));
      if fila.None? {
        return RefreshInvalido;
      }
      var usuarioId := sesiones[fila.value].usuarioId;
      var tokens := GenerateTokens(usuarioId, ahora, env.firmar);
      var accessToken := tokens["accessToken"];
      var newRefreshToken := Propiedad(tokens, "newRefreshToken");
      sesiones := DesactivarToken(sesiones, refreshToken);
      sesiones := sesiones + ParDeSesiones(usuarioId, Some(accessToken), newRefreshToken, ahora);
      return RefreshExitoso(accessToken, newRefreshToken);
    }

    /** `POST /usuarios`. */
    method CreateUser(header: string, ahora: nat, env: Entorno, body: NuevoUsuario, fallos: Fallos)
      returns (respuesta: RespuestaCrear)
      requires Valid()
      modifies this
      ensures Valid()
      ensures ResultadoCrear(Estado(), respuesta) == CrearUsuario(old(Estado()), header, ahora, env, body, fallos)
    {
      CrearPreservaValidas(Estado(), header, ahora, env, body, fallos);
      var auth := Authenticate(header, ahora, env.verificar);
      if !auth.Autenticado? {
        return CrearNoAutenticado(auth);
      }
      if !RequireRole(RolesAdministrador, auth.rol.nombre).Pasa? {
        return CrearRolDenegado;
      }
      if body.username == "" || body.email == "" || body.password == "" || body.nombreCompleto == "" || body.rolId == 0 {
        return CamposIncompletos;
      }
      if |body.password| < LargoMinimoPassword {
        return PasswordCorta;
      }
      if body.rolId !in roles {
        return RolNoValido;
      }
      if Existe(usuarios, body.username, body.email) {
        return UsuarioExistente;
      }
      var id := proximoId;
      usuarios := usuarios + [Usuario(id, body.username, body.email, env.hashear(body.password), body.nombreCompleto,
                                      body.rolId, true, 0, None, None, Some(auth.usuario.id))];
      proximoId := id + 1;
      LogAuditoria(auth.usuario.id, "CREAR_USUARIO", id, fallos.auditoria);
      return UsuarioCreado(id);
    }
  }
}
