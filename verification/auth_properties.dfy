/**
 * Properties of the authentication model that relate several requests: the
 * failure lock, the login outcomes, login followed by authentication, logout and
 * refresh replayed, the deployment variant against the main routes, and the
 * table invariants kept by user creation.
 */
module AuthProperties {
  import opened Wrappers
  import opened JsStrings
  import opened Seqs
  import opened AuthModel

  // ----- Failure counting -----

  /** A row after one failed login at each instant of `ts`, in order. */
  function FallarVarios(u: Usuario, ts: seq<nat>, umbral: nat, orden: OrdenSet): Usuario {
    if |ts| == 0 then u
    else Fallar(FallarVarios(u, ts[..|ts| - 1], umbral, orden), ts[|ts| - 1], umbral, orden)
  }

  /**
   * After n failures the counter has grown by n. The lock is set by the last failure
   * whose CASE test held, and the test sees the new count under left-to-right
   * evaluation and the old one otherwise; so the lock is the last failure's time plus
   * 30 minutes when the final test holds, and is untouched while no test has held.
   */
  lemma {:induction false} FallosConsecutivos(u: Usuario, ts: seq<nat>, umbral: nat, orden: OrdenSet)
    ensures FallarVarios(u, ts, umbral, orden).intentosFallidos == u.intentosFallidos + |ts|
    ensures var visto := if orden == IzquierdaADerecha then u.intentosFallidos + |ts| else u.intentosFallidos + |ts| - 1;
            FallarVarios(u, ts, umbral, orden).bloqueadoHasta ==
              if |ts| > 0 && visto >= umbral then Some(ts[|ts| - 1] + LockTtl) else u.bloqueadoHasta
    ensures FallarVarios(u, ts, umbral, orden).(intentosFallidos := u.intentosFallidos, bloqueadoHasta := u.bloqueadoHasta) == u
  {
    if |ts| > 0 {
      FallosConsecutivos(u, ts[..|ts| - 1], umbral, orden);
    }
  }

  /**
   * With the threshold 4 and MySQL's left-to-right SET, a clean account survives three
   * consecutive failures unlocked and the fourth locks it for 30 minutes.
   */
  lemma CuartoFalloBloquea(u: Usuario, ts: seq<nat>)
    requires u.intentosFallidos == 0 && u.bloqueadoHasta == None
    requires 1 <= |ts| <= 4
    ensures FallarVarios(u, ts, UmbralBloqueo, IzquierdaADerecha).bloqueadoHasta.None? <==> |ts| < 4
    ensures |ts| == 4 ==> FallarVarios(u, ts, UmbralBloqueo, IzquierdaADerecha).bloqueadoHasta == Some(ts[3] + LockTtl)
  {
    FallosConsecutivos(u, ts, UmbralBloqueo, IzquierdaADerecha);
  }

  /** Were the CASE to see the old count, the fifth failure, not the fourth, would lock. */
  lemma QuintoFalloConSetSimultaneo(u: Usuario, ts: seq<nat>)
    requires u.intentosFallidos == 0 && u.bloqueadoHasta == None
    requires 1 <= |ts| <= 5
    ensures FallarVarios(u, ts, UmbralBloqueo, Simultanea).bloqueadoHasta.None? <==> |ts| < 5
  {
    FallosConsecutivos(u, ts, UmbralBloqueo, Simultanea);
  }

  /** `handleFailedLogin` with a username no row has changes no row. */
  lemma {:induction false} FalloDesconocidoNoCambia(t: Tablas, username: string, ahora: nat, env: Entorno, falla: bool)
    requires forall k :: 0 <= k < |t.usuarios| ==> t.usuarios[k].username != username
    ensures RegistrarFallo(t, username, ahora, env, falla) == t
  {
    var r := RegistrarFallo(t, username, ahora, env, falla);
    assert r.usuarios == t.usuarios;
  }

  // ----- Login -----

  /** With unique usernames, the login query finds the row that has the username. */
  lemma FilaPorNombre(t: Tablas, username: string, k: nat)
    requires TablasValidas(t)
    requires k < |t.usuarios| && t.usuarios[k].username == username && t.usuarios[k].rolId in t.roles
    ensures FirstIndex(t.usuarios, ConUsername(t.roles, username)) == Some(k)
  {
    var p := ConUsername(t.roles, username);
    assert p(t.usuarios[k]);
  }

  /** A locked account is refused with 423 even with the right password, and nothing is written. */
  lemma BloqueadaRechazaSinEscribir(t: Tablas, username: string, password: string, ahora: nat, env: Entorno, fallos: Fallos, k: nat)
    requires TablasValidas(t) && username != "" && password != ""
    requires k < |t.usuarios| && t.usuarios[k].username == username && t.usuarios[k].rolId in t.roles
    requires Bloqueado(t.usuarios[k], ahora)
    ensures Login(t, username, password, ahora, env, fallos)
         == ResultadoLogin(t, CuentaBloqueada(t.usuarios[k].bloqueadoHasta.value))
    ensures LoginApi(t, username, password, ahora, env)
         == ResultadoLogin(t, CuentaBloqueada(t.usuarios[k].bloqueadoHasta.value))
  {
    FilaPorNombre(t, username, k);
  }

  /** An inactive account with the right password is refused and neither counts a failure nor resets. */
  lemma DesactivadaNoCuentaNiResetea(t: Tablas, username: string, password: string, ahora: nat, env: Entorno, fallos: Fallos, k: nat)
    requires TablasValidas(t) && username != "" && password != ""
    requires k < |t.usuarios| && t.usuarios[k].username == username && t.usuarios[k].rolId in t.roles
    requires !Bloqueado(t.usuarios[k], ahora) && env.coincide(password, t.usuarios[k].passwordHash)
    requires !t.usuarios[k].activo
    ensures Login(t, username, password, ahora, env, fallos) == ResultadoLogin(t, CuentaDesactivada)
  {
    FilaPorNombre(t, username, k);
  }

  /**
   * An unknown username (no row joined with a role has it) is refused with 401 and counts
   * one failure for that username; when no row at all has it, nothing is written.
   */
  lemma UsuarioDesconocidoCuentaFallo(t: Tablas, username: string, password: string, ahora: nat, env: Entorno, fallos: Fallos)
    requires username != "" && password != ""
    requires forall k :: 0 <= k < |t.usuarios| ==> !(t.usuarios[k].username == username && t.usuarios[k].rolId in t.roles)
    ensures Login(t, username, password, ahora, env, fallos)
         == ResultadoLogin(RegistrarFallo(t, username, ahora, env, fallos.registrarFallo), CredencialesInvalidas)
    ensures (forall k :: 0 <= k < |t.usuarios| ==> t.usuarios[k].username != username) ==>
      Login(t, username, password, ahora, env, fallos) == ResultadoLogin(t, CredencialesInvalidas)
  {
    if forall k :: 0 <= k < |t.usuarios| ==> t.usuarios[k].username != username {
      FalloDesconocidoNoCambia(t, username, ahora, env, fallos.registrarFallo);
    }
  }

  /** A wrong password counts one failure for the username, as an unknown username does. */
  lemma PasswordErroneaCuentaFallo(t: Tablas, username: string, password: string, ahora: nat, env: Entorno, fallos: Fallos, k: nat)
    requires TablasValidas(t) && username != "" && password != ""
    requires k < |t.usuarios| && t.usuarios[k].username == username && t.usuarios[k].rolId in t.roles
    requires !Bloqueado(t.usuarios[k], ahora) && !env.coincide(password, t.usuarios[k].passwordHash)
    ensures Login(t, username, password, ahora, env, fallos)
         == ResultadoLogin(RegistrarFallo(t, username, ahora, env, fallos.registrarFallo), CredencialesInvalidas)
    ensures !fallos.registrarFallo ==>
      Login(t, username, password, ahora, env, fallos).tablas.usuarios[k]
        == Fallar(t.usuarios[k], ahora, env.umbral, env.orden)
  {
    FilaPorNombre(t, username, k);
  }

  /**
   * A successful login answers with the public user and both tokens of `generateTokens`,
   * resets the counter and the lock, and appends exactly an access session for 15
   * minutes and a refresh session for 7 days.
   */
  lemma LoginExitosoEfectos(t: Tablas, username: string, password: string, ahora: nat, env: Entorno, fallos: Fallos, k: nat)
    requires TablasValidas(t) && username != "" && password != ""
    requires k < |t.usuarios| && t.usuarios[k].username == username && t.usuarios[k].rolId in t.roles
    requires !Bloqueado(t.usuarios[k], ahora) && env.coincide(password, t.usuarios[k].passwordHash)
    requires t.usuarios[k].activo
    ensures var u := t.usuarios[k];
            var tokens := GenerateTokens(u.id, ahora, env.firmar);
            var r := Login(t, username, password, ahora, env, fallos);
            && r.respuesta == LoginExitoso(Publico(u, t.roles[u.rolId]), tokens["accessToken"], tokens["refreshToken"])
            && r.tablas.sesiones
               == t.sesiones + [Sesion(u.id, Some(tokens["accessToken"]), Access, ahora + AccessTtl, true),
                                Sesion(u.id, Some(tokens["refreshToken"]), Refresh, ahora + RefreshTtl, true)]
            && |r.tablas.usuarios| == |t.usuarios|
            && (!fallos.resetear ==>
                  r.tablas.usuarios[k].intentosFallidos == 0 && r.tablas.usuarios[k].bloqueadoHasta == None)
            && (!fallos.ultimoAcceso ==> r.tablas.usuarios[k].ultimoAcceso == Some(ahora))
            && r.tablas.auditoria == t.auditoria + (if fallos.auditoria then [] else [Auditoria(u.id, "LOGIN", u.id)])
  {
    FilaPorNombre(t, username, k);
  }

  /** The answer of a login does not depend on which best-effort writes fail. */
  lemma RespuestaIndependienteDeFallos(t: Tablas, username: string, password: string, ahora: nat, env: Entorno, f1: Fallos, f2: Fallos)
    ensures Login(t, username, password, ahora, env, f1).respuesta == Login(t, username, password, ahora, env, f2).respuesta
  {
  }

  /**
   * The login of api/index.js answers exactly as the main route does, writes only the
   * two sessions, and never touches a counter or lock.
   */
  lemma LoginApiComoLogin(t: Tablas, username: string, password: string, ahora: nat, env: Entorno, fallos: Fallos)
    ensures LoginApi(t, username, password, ahora, env).respuesta == Login(t, username, password, ahora, env, fallos).respuesta
    ensures LoginApi(t, username, password, ahora, env).tablas.sesiones == Login(t, username, password, ahora, env, fallos).tablas.sesiones
    ensures LoginApi(t, username, password, ahora, env).tablas.usuarios == t.usuarios
  {
  }

  // ----- Authentication -----

  /** `authHeader.split(' ')[1]` of `Bearer <token>` is the token when it has no space. */
  lemma TokenDeBearer(token: string)
    requires token != "" && ' ' !in token
    ensures TokenDe("Bearer " + token) == Some(token)
  {
    SplitAtFirst("Bearer", token, ' ');
    assert "Bearer" + [' '] + token == "Bearer " + token;
    SplitNoSeparator(token, ' ');
    SplitNoSeparator("Bearer", ' ');
  }

  /**
   * Right after a successful login, presenting its access token as a bearer token
   * authenticates the same user for as long as the token and its session are valid.
   */
  lemma LoginLuegoAutenticar(t: Tablas, username: string, password: string, ahora: nat, despues: nat, env: Entorno, fallos: Fallos)
    requires Login(t, username, password, ahora, env, fallos).respuesta.LoginExitoso?
    requires var r := Login(t, username, password, ahora, env, fallos).respuesta;
             r.accessToken != "" && ' ' !in r.accessToken && env.verificar(r.accessToken) == Valido(r.usuario.id)
    requires despues < ahora + AccessTtl
    ensures var r := Login(t, username, password, ahora, env, fallos);
            var a := Autenticar(r.tablas, "Bearer " + r.respuesta.accessToken, despues, env.verificar);
            a.Autenticado? && a.usuario.id == r.respuesta.usuario.id && a.token == r.respuesta.accessToken
  {
    var r := Login(t, username, password, ahora, env, fallos);
    var access := r.respuesta.accessToken;
    TokenDeBearer(access);
    var k := FirstIndex(t.usuarios, ConUsername(t.roles, username)).value;
    var u := t.usuarios[k];
    var tokens := GenerateTokens(u.id, ahora, env.firmar);
    assert access == tokens["accessToken"];
    var t1 := ResetearFallos(t, u.id, fallos.resetear);
    var t2 := t1.(sesiones := t1.sesiones + ParDeSesiones(u.id, Some(access), Some(tokens["refreshToken"]), ahora));
    var t3 := ActualizarUltimoAcceso(t2, u.id, ahora, fallos.ultimoAcceso);
    assert r.tablas.sesiones == t2.sesiones;
    assert r.tablas.usuarios == t3.usuarios;
    assert SesionVigente(r.tablas.sesiones[|t.sesiones|], access, despues);
    var p := UsuarioActivo(r.tablas.roles, u.id);
    assert r.tablas.usuarios[k].id == u.id && r.tablas.usuarios[k].activo && r.tablas.usuarios[k].rolId == u.rolId;
    assert p(r.tablas.usuarios[k]);
    assert FirstIndex(r.tablas.usuarios, p).Some?;
  }

  /** Authentication ignores the kind of a session: retyping every row changes no answer. */
  lemma {:induction false} SinControlDeTipo(t: Tablas, header: string, ahora: nat, verificar: string -> Veredicto, tipo: TipoSesion)
    ensures var ss := seq(|t.sesiones|, k requires 0 <= k < |t.sesiones| => t.sesiones[k].(tipo := tipo));
            Autenticar(t.(sesiones := ss), header, ahora, verificar) == Autenticar(t, header, ahora, verificar)
  {
    var ss := seq(|t.sesiones|, k requires 0 <= k < |t.sesiones| => t.sesiones[k].(tipo := tipo));
    match TokenDe(header)
    case None =>
    case Some(token) =>
      assert HaySesionVigente(ss, token, ahora) <==> HaySesionVigente(t.sesiones, token, ahora) by {
        assert forall k :: 0 <= k < |ss| ==> (SesionVigente(ss[k], token, ahora) <==> SesionVigente(t.sesiones[k], token, ahora));
      }
  }

  // ----- Logout -----

  /**
   * A second logout with the same token is refused with 'Token inválido o expirado'
   * and writes nothing, provided every session row with that token is the caller's.
   */
  lemma LogoutNoRepetible(t: Tablas, header: string, ahora: nat, env: Entorno, auditar: bool, f1: Fallos, f2: Fallos)
    requires Autenticar(t, header, ahora, env.verificar).Autenticado?
    requires var a := Autenticar(t, header, ahora, env.verificar);
             forall k :: 0 <= k < |t.sesiones| && t.sesiones[k].token == Some(a.token) ==> t.sesiones[k].usuarioId == a.usuario.id
    ensures var t1 := Logout(t, header, ahora, env, auditar, f1).tablas;
            Logout(t1, header, ahora, env, auditar, f2) == ResultadoLogout(t1, LogoutRechazado(SesionInvalida))
  {
    var a := Autenticar(t, header, ahora, env.verificar);
    var t1 := Logout(t, header, ahora, env, auditar, f1).tablas;
    assert !HaySesionVigente(t1.sesiones, a.token, ahora) by {
      forall k | 0 <= k < |t1.sesiones|
        ensures !SesionVigente(t1.sesiones[k], a.token, ahora)
      {
        if t.sesiones[k].token == Some(a.token) {
          assert t1.sesiones[k] == t.sesiones[k].(activo := false);
        }
      }
    }
  }

  /** Logout leaves every session of another token, the paired refresh session included, as it was. */
  lemma LogoutSoloEseToken(t: Tablas, header: string, ahora: nat, env: Entorno, auditar: bool, fallos: Fallos, k: nat)
    requires Autenticar(t, header, ahora, env.verificar).Autenticado?
    requires k < |t.sesiones| && t.sesiones[k].token != Some(Autenticar(t, header, ahora, env.verificar).token)
    ensures Logout(t, header, ahora, env, auditar, fallos).tablas.sesiones[k] == t.sesiones[k]
  {
  }

  // ----- Refresh -----

  /** `generateTokens` has no `newRefreshToken` key, so the rotated refresh token is `undefined`. */
  lemma {:induction false} SinNuevoRefreshToken(userId: nat, ahora: nat, firmar: Claims -> string)
    ensures Propiedad(GenerateTokens(userId, ahora, firmar), "newRefreshToken") == None
  {
    assert "newRefreshToken" != "accessToken" && "newRefreshToken" != "refreshToken";
  }

  /**
   * A successful refresh answers with no refresh token and stores the new refresh
   * session with a NULL token, which no later refresh can present.
   */
  lemma RefreshDevuelveUndefined(t: Tablas, refreshToken: string, ahora: nat, env: Entorno, otro: string, despues: nat)
    requires RefreshTokens(t, refreshToken, ahora, env).respuesta.RefreshExitoso?
    ensures RefreshTokens(t, refreshToken, ahora, env).respuesta.refreshToken == None
    ensures var ss := RefreshTokens(t, refreshToken, ahora, env).tablas.sesiones;
            |ss| == |t.sesiones| + 2 && ss[|t.sesiones| + 1].tipo == Refresh && ss[|t.sesiones| + 1].token == None
            && !RefreshVigente(otro, despues)(ss[|t.sesiones| + 1])
  {
    var k := FirstIndex(t.sesiones, RefreshVigente(refreshToken, ahora)).value;
    SinNuevoRefreshToken(t.sesiones[k].usuarioId, ahora, env.firmar);
  }

  /** A refresh token is accepted at most once: replaying it is refused and writes nothing. */
  lemma RefreshUnaSolaVez(t: Tablas, refreshToken: string, ahora: nat, despues: nat, env: Entorno)
    requires RefreshTokens(t, refreshToken, ahora, env).respuesta.RefreshExitoso?
    ensures var t1 := RefreshTokens(t, refreshToken, ahora, env).tablas;
            RefreshTokens(t1, refreshToken, despues, env) == ResultadoRefresh(t1, RefreshInvalido)
  {
    var k := FirstIndex(t.sesiones, RefreshVigente(refreshToken, ahora)).value;
    SinNuevoRefreshToken(t.sesiones[k].usuarioId, ahora, env.firmar);
    var t1 := RefreshTokens(t, refreshToken, ahora, env).tablas;
    var p := RefreshVigente(refreshToken, despues);
    forall j | 0 <= j < |t1.sesiones|
      ensures !p(t1.sesiones[j])
    {
      if j < |t.sesiones| && t.sesiones[j].token == Some(refreshToken) {
        assert !t1.sesiones[j].activo;
      }
    }
  }

  // ----- Guards -----

  /** Granting more actions never revokes a permission. */
  lemma PermisoMonotono(p1: map<string, seq<string>>, p2: map<string, seq<string>>, recurso: string, accion: string)
    requires forall r :: r in p1 ==> r in p2 && forall a :: a in p1[r] ==> a in p2[r]
    requires RequirePermission(p1, recurso, accion).Pasa?
    ensures RequirePermission(p2, recurso, accion).Pasa?
  {
  }

  // ----- Create user -----

  /** Creating a user keeps usernames, emails and ids unique and below the AUTO_INCREMENT counter. */
  lemma CrearPreservaValidas(t: Tablas, header: string, ahora: nat, env: Entorno, body: NuevoUsuario, fallos: Fallos)
    requires TablasValidas(t)
    ensures TablasValidas(CrearUsuario(t, header, ahora, env, body, fallos).tablas)
  {
    var r := CrearUsuario(t, header, ahora, env, body, fallos);
    if r.respuesta.UsuarioCreado? {
      AnadirPreservaValidas(t, r.tablas, r.tablas.usuarios[|t.usuarios|]);
    }
  }

  /** Appending a row with the counter's id and a username and email no row has keeps the tables valid. */
  lemma AnadirPreservaValidas(t: Tablas, t': Tablas, u: Usuario)
    requires TablasValidas(t)
    requires u.id == t.proximoId && !Existe(t.usuarios, u.username, u.email)
    requires t'.usuarios == t.usuarios + [u] && t'.proximoId == t.proximoId + 1
    ensures TablasValidas(t')
  {
    var n := |t.usuarios|;
    forall i | 0 <= i < n
      ensures t'.usuarios[i] == t.usuarios[i]
      ensures t.usuarios[i].username != u.username && t.usuarios[i].email != u.email
    {
    }
  }

  /** Two user tables with the same rows up to the columns that are neither a key nor unique. */
  predicate MismasClaves(a: seq<Usuario>, b: seq<Usuario>) {
    |a| == |b| && forall k :: 0 <= k < |a| ==> a[k].id == b[k].id && a[k].username == b[k].username && a[k].email == b[k].email
  }

  /** Rewriting columns other than the id, the username and the email keeps the tables valid. */
  lemma MismasClavesPreservaValidas(t: Tablas, t': Tablas)
    requires TablasValidas(t)
    requires MismasClaves(t.usuarios, t'.usuarios) && t'.proximoId == t.proximoId
    ensures TablasValidas(t')
  {
    forall i, j | 0 <= i < j < |t'.usuarios|
      ensures t'.usuarios[i].id != t'.usuarios[j].id
      ensures t'.usuarios[i].username != t'.usuarios[j].username
      ensures t'.usuarios[i].email != t'.usuarios[j].email
    {
    }
  }

  /** A failed login changes only the counter and the lock of the rows it touches. */
  lemma RegistrarFalloPreservaValidas(t: Tablas, username: string, ahora: nat, env: Entorno, falla: bool)
    requires TablasValidas(t)
    ensures MismasClaves(t.usuarios, RegistrarFallo(t, username, ahora, env, falla).usuarios)
    ensures TablasValidas(RegistrarFallo(t, username, ahora, env, falla))
  {
    MismasClavesPreservaValidas(t, RegistrarFallo(t, username, ahora, env, falla));
  }

  /** The reset changes only the counter and the lock. */
  lemma ResetearFallosPreservaValidas(t: Tablas, userId: nat, falla: bool)
    requires TablasValidas(t)
    ensures MismasClaves(t.usuarios, ResetearFallos(t, userId, falla).usuarios)
    ensures TablasValidas(ResetearFallos(t, userId, falla))
  {
    MismasClavesPreservaValidas(t, ResetearFallos(t, userId, falla));
  }

  /** Recording the last access changes only that column. */
  lemma ActualizarUltimoAccesoPreservaValidas(t: Tablas, userId: nat, ahora: nat, falla: bool)
    requires TablasValidas(t)
    ensures MismasClaves(t.usuarios, ActualizarUltimoAcceso(t, userId, ahora, falla).usuarios)
    ensures TablasValidas(ActualizarUltimoAcceso(t, userId, ahora, falla))
  {
    MismasClavesPreservaValidas(t, ActualizarUltimoAcceso(t, userId, ahora, falla));
  }

  /** Every outcome of the main login keeps the users' keys, so the tables stay valid. */
  lemma LoginPreservaValidas(t: Tablas, username: string, password: string, ahora: nat, env: Entorno, fallos: Fallos)
    requires TablasValidas(t)
    ensures TablasValidas(Login(t, username, password, ahora, env, fallos).tablas)
  {
    var r := Login(t, username, password, ahora, env, fallos);
    if r.respuesta.CredencialesInvalidas? {
      RegistrarFalloPreservaValidas(t, username, ahora, env, fallos.registrarFallo);
    } else if r.respuesta.LoginExitoso? {
      var k := FirstIndex(t.usuarios, ConUsername(t.roles, username)).value;
      var u := t.usuarios[k];
      var t1 := ResetearFallos(t, u.id, fallos.resetear);
      ResetearFallosPreservaValidas(t, u.id, fallos.resetear);
      var t2 := t1.(sesiones := r.tablas.sesiones);
      ActualizarUltimoAccesoPreservaValidas(t2, u.id, ahora, fallos.ultimoAcceso);
    }
  }

  /** The deployment login writes sessions only. */
  lemma LoginApiPreservaValidas(t: Tablas, username: string, password: string, ahora: nat, env: Entorno)
    requires TablasValidas(t)
    ensures TablasValidas(LoginApi(t, username, password, ahora, env).tablas)
  {
    MismasClavesPreservaValidas(t, LoginApi(t, username, password, ahora, env).tablas);
  }

  /** Logout writes sessions and audit rows only. */
  lemma LogoutPreservaValidas(t: Tablas, header: string, ahora: nat, env: Entorno, auditar: bool, fallos: Fallos)
    requires TablasValidas(t)
    ensures TablasValidas(Logout(t, header, ahora, env, auditar, fallos).tablas)
  {
    MismasClavesPreservaValidas(t, Logout(t, header, ahora, env, auditar, fallos).tablas);
  }

  /** Refresh writes sessions only. */
  lemma RefreshPreservaValidas(t: Tablas, refreshToken: string, ahora: nat, env: Entorno)
    requires TablasValidas(t)
    ensures TablasValidas(RefreshTokens(t, refreshToken, ahora, env).tablas)
  {
    MismasClavesPreservaValidas(t, RefreshTokens(t, refreshToken, ahora, env).tablas);
  }
}
