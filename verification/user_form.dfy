/**
 * The user form of src/components/UserManagement.tsx: `validateForm` checks the
 * five fields one after another, recording at most one message per field, and
 * stores the messages in the component's `formErrors`; `handleSubmit` sends the
 * form as JSON, leaving the password out when an existing user is edited.
 */
module UserForm {
  import opened Wrappers
  import opened JsStrings

  /** The `formData` state: every field is the text of an input. */
  datatype FormData = FormData(username: string, email: string, password: string, nombreCompleto: string, rolId: string)

  const MsgUsername := "El nombre de usuario es requerido"
  const MsgEmailRequerido := "El email es requerido"
  const MsgEmailInvalido := "El email no es v\U{E1}lido"
  const MsgPasswordRequerida := "La contrase\U{F1}a es requerida"
  const MsgPasswordCorta := "La contrase\U{F1}a debe tener al menos 8 caracteres"
  const MsgNombre := "El nombre completo es requerido"
  const MsgRol := "Debe seleccionar un rol"

  const LargoMinimo := 8

  /** The keys of `formData`, which are also the keys of the error dictionary. */
  const Campos: set<string> := {"username", "email", "password", "nombre_completo", "rol_id"}

  // ----- The email pattern -----

  /** The characters `[^\s@]` matches. */
  predicate NiEspacioNiArroba(c: char) {
    !IsWhitespace(c) && c != '@'
  }

  /** `[^\s@]+` matches exactly `s[i..j]`. */
  predicate Tramo(s: string, i: nat, j: nat)
    requires j <= |s|
  {
    i < j && forall k :: i <= k < j ==> NiEspacioNiArroba(s[k])
  }

  /** The pattern's three runs, split by the `@` at `arroba` and the `.` at `punto`. */
  predicate Partes(s: string, arroba: nat, punto: nat) {
    && arroba < punto < |s|
    && s[arroba] == '@' && s[punto] == '.'
    && Tramo(s, 0, arroba) && Tramo(s, arroba + 1, punto) && Tramo(s, punto + 1, |s|)
  }

  /** `/^[^\s@]+@[^\s@]+\.[^\s@]+$/.test(s)`: some `@` and some later `.` split all of `s` into the three runs. */
  predicate EmailCoincide(s: string) {
    exists arroba: nat, punto: nat | arroba < punto < |s| :: Partes(s, arroba, punto)
  }

  /** An address without whitespace, with a single `@` that is not first, and a `.` strictly inside what follows the `@`. */
  predicate EmailBienFormado(s: string) {
    && (forall k :: 0 <= k < |s| ==> !IsWhitespace(s[k]))
    && exists arroba | 0 < arroba < |s| ::
      && s[arroba] == '@'
      && (forall k :: 0 <= k < |s| && s[k] == '@' ==> k == arroba)
      && exists punto | arroba + 1 < punto < |s| - 1 :: s[punto] == '.'
  }

  /** The pattern accepts exactly the well-formed addresses. */
  lemma EmailCoincideIff(s: string)
    ensures EmailCoincide(s) <==> EmailBienFormado(s)
  {
    if EmailCoincide(s) {
      var arroba: nat, punto: nat :| arroba < punto < |s| && Partes(s, arroba, punto);
      forall k | 0 <= k < |s| ensures !IsWhitespace(s[k]) && (s[k] == '@' ==> k == arroba) {
        if k != arroba && k != punto {
          assert NiEspacioNiArroba(s[k]);
        }
      }
      assert arroba + 1 < punto < |s| - 1;
    }
    if EmailBienFormado(s) {
      var arroba :| 0 < arroba < |s| && s[arroba] == '@'
        && (forall k :: 0 <= k < |s| && s[k] == '@' ==> k == arroba)
        && exists punto | arroba + 1 < punto < |s| - 1 :: s[punto] == '.';
      var punto :| arroba + 1 < punto < |s| - 1 && s[punto] == '.';
      assert Partes(s, arroba, punto);
    }
  }

  /** A typical address matches. */
  lemma EmailAceptado()
    ensures EmailCoincide("ana@estudio.cl")
  {
    var s := "ana@estudio.cl";
    assert s[3] == '@' && s[11] == '.';
    assert Partes(s, 3, 11);
  }

  /** An address with no `.` does not match. */
  lemma EmailSinPunto()
    ensures !EmailCoincide("ana@estudio")
  {
    var s := "ana@estudio";
    assert '.' !in s;
    forall arroba: nat, punto: nat | arroba < punto < |s| ensures !Partes(s, arroba, punto) {
      assert s[punto] in s;
    }
  }

  /** An address with two `@` does not match. */
  lemma EmailDosArrobas()
    ensures !EmailCoincide("ana@@estudio.cl")
  {
    var s := "ana@@estudio.cl";
    EmailCoincideIff(s);
    assert s[3] == '@' && s[4] == '@';
  }

  /** An address with a space does not match. */
  lemma EmailConEspacio()
    ensures !EmailCoincide("ana @estudio.cl")
  {
    var s := "ana @estudio.cl";
    EmailCoincideIff(s);
    assert IsWhitespace(s[3]);
  }

  // ----- The validation rules -----

  function ErrorUsername(d: FormData): Option<string> {
    if IsBlank(d.username) then Some(MsgUsername) else None
  }

  function ErrorEmail(d: FormData): Option<string> {
    if IsBlank(d.email) then Some(MsgEmailRequerido)
    else if !EmailCoincide(d.email) then Some(MsgEmailInvalido)
    else None
  }

  /** Create mode requires a non-blank password; in either mode a non-empty one needs 8 characters (untrimmed length). */
  function ErrorPassword(d: FormData, editando: bool): Option<string> {
    if !editando && IsBlank(d.password) then Some(MsgPasswordRequerida)
    else if d.password != "" && |d.password| < LargoMinimo then Some(MsgPasswordCorta)
    else None
  }

  function ErrorNombre(d: FormData): Option<string> {
    if IsBlank(d.nombreCompleto) then Some(MsgNombre) else None
  }

  /** `!formData.rol_id`: only the empty selection is missing. */
  function ErrorRol(d: FormData): Option<string> {
    if d.rolId == "" then Some(MsgRol) else None
  }

  /** The outcome of the five checks: the message each field gets, if any. */
  datatype Revision = Revision(
    username: Option<string>, email: Option<string>, password: Option<string>,
    nombreCompleto: Option<string>, rolId: Option<string>)

  function Revisar(d: FormData, editando: bool): Revision {
    Revision(ErrorUsername(d), ErrorEmail(d), ErrorPassword(d, editando), ErrorNombre(d), ErrorRol(d))
  }

  /** The message a revision holds under a key of the error dictionary. */
  function MensajeDe(v: Revision, campo: string): Option<string> {
    match campo
    case "username" => v.username
    case "email" => v.email
    case "password" => v.password
    case "nombre_completo" => v.nombreCompleto
    case "rol_id" => v.rolId
    case _ => None
  }

  /** The dictionary with one message for each field whose check failed. */
  ghost function Diccionario(v: Revision): map<string, string> {
    map campo | campo in Campos && MensajeDe(v, campo).Some? :: MensajeDe(v, campo).value
  }

  /** The dictionary `validateForm` must build. */
  ghost function Errores(d: FormData, editando: bool): map<string, string> {
    Diccionario(Revisar(d, editando))
  }

  /** `errors[campo] = mensaje` when the check produced a message. */
  function Poner(m: map<string, string>, campo: string, e: Option<string>): map<string, string> {
    if e.Some? then m[campo := e.value] else m
  }

  /** The five assignments in the order `validateForm` runs them. */
  function PorPasos(v: Revision): map<string, string> {
    var m := Poner(map[], "username", v.username);
    var m := Poner(m, "email", v.email);
    var m := Poner(m, "password", v.password);
    var m := Poner(m, "nombre_completo", v.nombreCompleto);
    Poner(m, "rol_id", v.rolId)
  }

  /** Assigning the messages one after another builds the dictionary of failed checks: no field overwrites another. */
  lemma ErroresPorPasos(v: Revision)
    ensures PorPasos(v) == Diccionario(v)
  {
    var e := Diccionario(v);
    var p := PorPasos(v);
    forall campo ensures campo in p <==> campo in e {
    }
    forall campo | campo in p ensures p[campo] == e[campo] {
    }
  }

  /** The component state `validateForm` reads and writes. */
  class Formulario {
    var formData: FormData
    /** `editingUser !== null`. */
    var editando: bool
    var formErrors: map<string, string>

    constructor ()
      ensures formData == FormData("", "", "", "", "") && !editando && formErrors == map[]
    {
      formData := FormData("", "", "", "", "");
      editando := false;
      formErrors := map[];
    }

    /** `validateForm`: runs the five checks in order, stores the dictionary, and answers whether it stayed empty. */
    method ValidateForm() returns (valido: bool)
      modifies this
      ensures formData == old(formData) && editando == old(editando)
      ensures formErrors == Errores(formData, editando)
      ensures valido <==> |formErrors| == 0
    {
      var errors := Validar(formData, editando);
      formErrors := errors;
      valido := |errors| == 0;
    }
  }

  /** The body of `validateForm` up to `setFormErrors`: the five checks, in order, on an empty dictionary. */
  method Validar(d: FormData, editando: bool) returns (errors: map<string, string>)
    ensures errors == Errores(d, editando)
  {
    errors := map[];
    errors := ComprobarUsername(errors, d);
    errors := ComprobarEmail(errors, d);
    errors := ComprobarPassword(errors, d, editando);
    errors := ComprobarNombre(errors, d);
    errors := ComprobarRol(errors, d);
    ErroresPorPasos(Revisar(d, editando));
  }

  /** `if (!formData.username.trim()) errors.username = ...`. */
  method ComprobarUsername(errors: map<string, string>, d: FormData) returns (r: map<string, string>)
    ensures r == Poner(errors, "username", ErrorUsername(d))
  {
    r := errors;
    if IsBlank(d.username) {
      r := r["username" := MsgUsername];
    }
  }

  /** The email is required, then tested against the pattern. */
  method ComprobarEmail(errors: map<string, string>, d: FormData) returns (r: map<string, string>)
    ensures r == Poner(errors, "email", ErrorEmail(d))
  {
    r := errors;
    var vacio, coincide := IsBlank(d.email), EmailCoincide(d.email);
    if vacio {
      r := r["email" := MsgEmailRequerido];
    } else if !coincide {
      r := r["email" := MsgEmailInvalido];
    }
  }

  /** Required when creating; too short when non-empty and under 8 characters. */
  method ComprobarPassword(errors: map<string, string>, d: FormData, editando: bool) returns (r: map<string, string>)
    ensures r == Poner(errors, "password", ErrorPassword(d, editando))
  {
    r := errors;
    if !editando && IsBlank(d.password) {
      assert ErrorPassword(d, editando) == Some(MsgPasswordRequerida);
      r := r["password" := MsgPasswordRequerida];
    } else if d.password != "" && |d.password| < LargoMinimo {
      assert ErrorPassword(d, editando) == Some(MsgPasswordCorta);
      r := r["password" := MsgPasswordCorta];
    } else {
      assert ErrorPassword(d, editando) == None;
    }
  }

  method ComprobarNombre(errors: map<string, string>, d: FormData) returns (r: map<string, string>)
    ensures r == Poner(errors, "nombre_completo", ErrorNombre(d))
  {
    r := errors;
    if IsBlank(d.nombreCompleto) {
      r := r["nombre_completo" := MsgNombre];
    }
  }

  method ComprobarRol(errors: map<string, string>, d: FormData) returns (r: map<string, string>)
    ensures r == Poner(errors, "rol_id", ErrorRol(d))
  {
    r := errors;
    if d.rolId == "" {
      r := r["rol_id" := MsgRol];
    }
  }

  // ----- What the rules promise -----

  /** The password rule, stated per mode. */
  predicate PasswordAceptada(password: string, editando: bool) {
    if editando then password == "" || |password| >= LargoMinimo
    else !IsBlank(password) && |password| >= LargoMinimo
  }

  /** Only the five fields can carry a message, and a field carries one exactly when its check failed. */
  lemma ClaveDiccionario(v: Revision, campo: string)
    ensures campo in Diccionario(v) ==> campo in Campos
    ensures campo in Diccionario(v) <==> campo in Campos && MensajeDe(v, campo).Some?
    ensures campo in Diccionario(v) ==> Diccionario(v)[campo] == MensajeDe(v, campo).value
  {
  }

  /** Each field's key holds that field's message, if any. */
  lemma CadaCampo(v: Revision)
    ensures ("username" in Diccionario(v) <==> v.username.Some?) && (v.username.Some? ==> Diccionario(v)["username"] == v.username.value)
    ensures ("email" in Diccionario(v) <==> v.email.Some?) && (v.email.Some? ==> Diccionario(v)["email"] == v.email.value)
    ensures ("password" in Diccionario(v) <==> v.password.Some?) && (v.password.Some? ==> Diccionario(v)["password"] == v.password.value)
    ensures ("nombre_completo" in Diccionario(v) <==> v.nombreCompleto.Some?)
      && (v.nombreCompleto.Some? ==> Diccionario(v)["nombre_completo"] == v.nombreCompleto.value)
    ensures ("rol_id" in Diccionario(v) <==> v.rolId.Some?) && (v.rolId.Some? ==> Diccionario(v)["rol_id"] == v.rolId.value)
  {
  }

  /** The `password` key holds the password check's message, if any. */
  lemma CampoPassword(d: FormData, editando: bool)
    ensures "password" in Errores(d, editando) <==> ErrorPassword(d, editando).Some?
    ensures ErrorPassword(d, editando).Some? ==> Errores(d, editando)["password"] == ErrorPassword(d, editando).value
  {
    CadaCampo(Revisar(d, editando));
  }

  /** The dictionary is empty exactly when no check failed. */
  lemma DiccionarioVacio(v: Revision)
    ensures |Diccionario(v)| == 0 <==>
      v.username.None? && v.email.None? && v.password.None? && v.nombreCompleto.None? && v.rolId.None?
  {
    var e := Diccionario(v);
    if |e| == 0 {
      assert e == map[];
      assert "username" !in e && "email" !in e && "password" !in e && "nombre_completo" !in e && "rol_id" !in e;
    } else {
      var campo :| campo in e;
      assert MensajeDe(v, campo).Some?;
    }
  }

  /** The form is valid exactly when every field passes its own check. */
  lemma ValidoSii(d: FormData, editando: bool)
    ensures |Errores(d, editando)| == 0 <==>
      && !IsBlank(d.username)
      && !IsBlank(d.email) && EmailBienFormado(d.email)
      && PasswordAceptada(d.password, editando)
      && !IsBlank(d.nombreCompleto)
      && d.rolId != ""
  {
    var v := Revisar(d, editando);
    DiccionarioVacio(v);
    assert v.username.None? <==> !IsBlank(d.username);
    EmailCoincideIff(d.email);
    assert v.email.None? <==> !IsBlank(d.email) && EmailBienFormado(d.email);
    assert IsBlank("");
    assert v.password.None? <==> PasswordAceptada(d.password, editando);
    assert v.nombreCompleto.None? <==> !IsBlank(d.nombreCompleto);
    assert v.rolId.None? <==> d.rolId != "";
  }

  /** A blank username is reported as required. */
  lemma UsernameRequerido(d: FormData, editando: bool)
    ensures "username" in Errores(d, editando) <==> IsBlank(d.username)
    ensures IsBlank(d.username) ==> Errores(d, editando)["username"] == MsgUsername
  {
    CadaCampo(Revisar(d, editando));
  }

  /** A blank email is "required"; a non-blank one that is not well formed is "not valid". */
  lemma EmailMensajes(d: FormData, editando: bool)
    ensures "email" in Errores(d, editando) <==> IsBlank(d.email) || !EmailBienFormado(d.email)
    ensures IsBlank(d.email) ==> Errores(d, editando)["email"] == MsgEmailRequerido
    ensures !IsBlank(d.email) && !EmailBienFormado(d.email) ==> Errores(d, editando)["email"] == MsgEmailInvalido
  {
    CadaCampo(Revisar(d, editando));
    EmailCoincideIff(d.email);
  }

  /** Creating a user with a blank password reports it as required. */
  lemma PasswordRequeridaAlCrear(d: FormData)
    requires IsBlank(d.password)
    ensures "password" in Errores(d, false) && Errores(d, false)["password"] == MsgPasswordRequerida
  {
    CadaCampo(Revisar(d, false));
  }

  /**
   * A non-blank password shorter than 8 characters is too short in either mode; when
   * editing, a password of blanks is measured as typed, so "   " is too short too.
   */
  lemma PasswordCortaEnAmbosModos(d: FormData, editando: bool)
    requires |d.password| < LargoMinimo
    requires !IsBlank(d.password) || (editando && d.password != "")
    ensures "password" in Errores(d, editando) && Errores(d, editando)["password"] == MsgPasswordCorta
  {
    CampoPassword(d, editando);
  }

  /** When editing, an empty password is accepted: the current one is kept. */
  lemma PasswordVaciaAlEditar(d: FormData)
    requires d.password == ""
    ensures "password" !in Errores(d, true)
    ensures "password" in Errores(d, false)
  {
    assert IsBlank(d.password);
    CadaCampo(Revisar(d, true));
    CadaCampo(Revisar(d, false));
  }

  /** A blank full name and an unselected role are reported. */
  lemma NombreYRolRequeridos(d: FormData, editando: bool)
    ensures "nombre_completo" in Errores(d, editando) <==> IsBlank(d.nombreCompleto)
    ensures "rol_id" in Errores(d, editando) <==> d.rolId == ""
    ensures IsBlank(d.nombreCompleto) ==> Errores(d, editando)["nombre_completo"] == MsgNombre
    ensures d.rolId == "" ==> Errores(d, editando)["rol_id"] == MsgRol
  {
    CadaCampo(Revisar(d, editando));
  }

  // ----- The submitted body -----

  /** A JavaScript object's own properties; a property holding `undefined` is `None`. */
  type Objeto = map<string, Option<string>>

  /** `formData` as an object. */
  function ComoObjeto(d: FormData): (o: Objeto)
    ensures o.Keys == Campos
  {
    map["username" := Some(d.username), "email" := Some(d.email), "password" := Some(d.password),
        "nombre_completo" := Some(d.nombreCompleto), "rol_id" := Some(d.rolId)]
  }

  /** `editingUser ? { ...formData, password: undefined } : formData`. */
  function CuerpoEnvio(d: FormData, editando: bool): Objeto {
    if editando then ComoObjeto(d)["password" := None] else ComoObjeto(d)
  }

  /** What `JSON.stringify` writes: the properties whose value is not `undefined`. */
  function Json(o: Objeto): (r: map<string, string>)
    ensures forall k :: k in r <==> k in o && o[k].Some?
  {
    map k | k in o && o[k].Some? :: o[k].value
  }

  /** An edit sends every field but the password; a creation sends all five, the password included. */
  lemma CuerpoSinPasswordAlEditar(d: FormData, editando: bool)
    ensures editando ==> (Json(CuerpoEnvio(d, editando)) ==
      map["username" := d.username, "email" := d.email, "nombre_completo" := d.nombreCompleto, "rol_id" := d.rolId])
    ensures !editando ==> (Json(CuerpoEnvio(d, editando)).Keys == Campos
      && Json(CuerpoEnvio(d, editando))["password"] == d.password)
  {
  }
}
