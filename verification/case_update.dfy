/**
 * The required-field checks that guard a case update: `PUT /api/casos/:id` of
 * src/server/index.js (thirteen fields, blank after trim counts as missing, every
 * missing label reported) and `updateCaso` of src/server/index.ts (five fields,
 * falsiness only, one generic error). The UPDATE statement itself is not modelled:
 * the handlers end in the values they would write.
 */
module CaseUpdate {
  import opened Wrappers
  import opened JsStrings
  import opened Seqs
  import opened Rut

  /** A value of the parsed JSON request body; a key the body lacks reads as `Undefined`. */
  datatype JsValue =
    | Undefined | Null | Bool(b: bool) | Num(n: int) | Str(s: string)
    | Arr(items: seq<JsValue>) | Obj(campos: map<string, JsValue>)

  /** JavaScript falsiness (NaN and -0 are not modelled): arrays and objects, even empty, are truthy. */
  predicate Falsy(v: JsValue) {
    v.Undefined? || v.Null? || v == Bool(false) || v == Num(0) || v == Str("")
  }

  /**
   * `v.toString()` (or, inside an array, `join`'s text for `v`) is blank after trim.
   * Numbers and booleans print digits or a word, an object prints `[object Object]`,
   * `null` and `undefined` print nothing inside `join`, and an array of two or more
   * elements prints at least one comma.
   */
  predicate ImprimeEnBlanco(v: JsValue) {
    match v
    case Undefined => true
    case Null => true
    case Bool(_) => false
    case Num(_) => false
    case Str(s) => IsBlank(s)
    case Obj(_) => false
    case Arr(items) => |items| == 0 || (|items| == 1 && ImprimeEnBlanco(items[0]))
  }

  /** `!v || v.toString().trim() === ''`. */
  predicate Falta(v: JsValue) {
    Falsy(v) || ImprimeEnBlanco(v)
  }

  function Valor(body: map<string, JsValue>, clave: string): JsValue {
    if clave in body then body[clave] else Undefined
  }

  /** A required field: its body key and the label reported when it is missing. */
  datatype Campo = Campo(clave: string, etiqueta: string)

  /** `camposRequeridos`, in declaration order. */
  const CamposRequeridos: seq<Campo> := [
    Campo("nombre_completo", "Nombre completo"),
    Campo("fecha_nacimiento", "Fecha de nacimiento"),
    Campo("rut", "RUT"),
    Campo("correo_electronico", "Correo electrónico"),
    Campo("telefono", "Teléfono"),
    Campo("domicilio", "Domicilio"),
    Campo("tipo_asesoria", "Tipo de asesoría"),
    Campo("motivo_consulta", "Motivo de consulta"),
    Campo("descripcion_asunto", "Descripción del asunto"),
    Campo("abogado", "Abogado"),
    Campo("prioridad", "Prioridad"),
    Campo("estado", "Estado"),
    Campo("rit", "RIT")
  ]

  function FaltaCampo(body: map<string, JsValue>): Campo -> bool {
    (c: Campo) => Falta(Valor(body, c.clave))
  }

  function Etiquetas(cs: seq<Campo>): (r: seq<string>)
    ensures |r| == |cs| && forall k :: 0 <= k < |cs| ==> r[k] == cs[k].etiqueta
  {
    seq(|cs|, k requires 0 <= k < |cs| => cs[k].etiqueta)
  }

  /** The labels of the missing fields among `campos`, in the order of `campos`. */
  function FaltantesDe(body: map<string, JsValue>, campos: seq<Campo>): seq<string> {
    if |campos| == 0 then []
    else
      var c := campos[|campos| - 1];
      FaltantesDe(body, campos[..|campos| - 1]) + (if Falta(Valor(body, c.clave)) then [c.etiqueta] else [])
  }

  /** The missing labels are the labels of `campos.filter(campoFaltante)`. */
  lemma {:induction false} FaltantesDeEsFilter(body: map<string, JsValue>, campos: seq<Campo>)
    ensures FaltantesDe(body, campos) == Etiquetas(Filter(campos, FaltaCampo(body)))
  {
    if |campos| > 0 {
      var init, c := campos[..|campos| - 1], campos[|campos| - 1];
      FaltantesDeEsFilter(body, init);
      var antes := Filter(init, FaltaCampo(body));
      assert FaltaCampo(body)(c) <==> Falta(Valor(body, c.clave));
      assert Etiquetas(antes + [c]) == Etiquetas(antes) + [c.etiqueta];
    }
  }

  /** `camposFaltantes` after the loop. */
  function Faltantes(body: map<string, JsValue>): seq<string> {
    FaltantesDe(body, CamposRequeridos)
  }

  /** Examining one field more appends its label when it is missing. */
  lemma FaltantesDeSnoc(body: map<string, JsValue>, campos: seq<Campo>, i: nat)
    requires i < |campos|
    ensures FaltantesDe(body, campos[..i + 1])
         == FaltantesDe(body, campos[..i]) + (if Falta(Valor(body, campos[i].clave)) then [campos[i].etiqueta] else [])
  {
    assert campos[..i + 1][..i] == campos[..i];
  }

  /** The `for (const [campo, nombre] of Object.entries(camposRequeridos))` loop. */
  method CamposFaltantes(body: map<string, JsValue>) returns (faltantes: seq<string>)
    ensures faltantes == Faltantes(body)
  {
    faltantes := [];
    for i := 0 to |CamposRequeridos|
      invariant faltantes == FaltantesDe(body, CamposRequeridos[..i])
    {
      var campo := CamposRequeridos[i];
      FaltantesDeSnoc(body, CamposRequeridos, i);
      if Falta(Valor(body, campo.clave)) {
        faltantes := faltantes + [campo.etiqueta];
      }
    }
    assert CamposRequeridos[..|CamposRequeridos|] == CamposRequeridos;
  }

  predicate EtiquetasDistintas(campos: seq<Campo>) {
    forall i, j :: 0 <= i < j < |campos| ==> campos[i].etiqueta != campos[j].etiqueta
  }

  lemma CamposRequeridosDistintos()
    ensures EtiquetasDistintas(CamposRequeridos)
  {
  }

  /** With distinct labels, a label is reported exactly when its field is missing or blank. */
  lemma FaltantesDeIff(body: map<string, JsValue>, campos: seq<Campo>, k: nat)
    requires EtiquetasDistintas(campos) && k < |campos|
    ensures campos[k].etiqueta in FaltantesDe(body, campos) <==> Falta(Valor(body, campos[k].clave))
  {
    var kept := Filter(campos, FaltaCampo(body));
    FaltantesDeEsFilter(body, campos);
    if campos[k].etiqueta in FaltantesDe(body, campos) {
      var m :| 0 <= m < |kept| && Etiquetas(kept)[m] == campos[k].etiqueta;
      assert kept[m] in campos;
      var l :| 0 <= l < |campos| && campos[l] == kept[m];
      assert l == k;
    }
    if Falta(Valor(body, campos[k].clave)) {
      assert campos[k] in kept;
      var m :| 0 <= m < |kept| && kept[m] == campos[k];
      assert Etiquetas(kept)[m] == campos[k].etiqueta;
    }
  }

  /** Each required label is reported exactly when its field is missing or blank after trim. */
  lemma FaltantesIff(body: map<string, JsValue>, k: nat)
    requires k < |CamposRequeridos|
    ensures CamposRequeridos[k].etiqueta in Faltantes(body) <==> Falta(Valor(body, CamposRequeridos[k].clave))
  {
    CamposRequeridosDistintos();
    FaltantesDeIff(body, CamposRequeridos, k);
  }

  lemma EtiquetasEmbeds(a: seq<Campo>, b: seq<Campo>, idx: seq<nat>)
    requires EmbedsVia(a, b, idx)
    ensures EmbedsVia(Etiquetas(a), Etiquetas(b), idx)
  {
  }

  /** The reported labels keep the declaration order of the required fields. */
  lemma FaltantesEnOrden(body: map<string, JsValue>)
    ensures IsSubsequence(Faltantes(body), Etiquetas(CamposRequeridos))
  {
    FaltantesDeEsFilter(body, CamposRequeridos);
    FilterEmbedsVia(CamposRequeridos, FaltaCampo(body));
    EtiquetasEmbeds(Filter(CamposRequeridos, FaltaCampo(body)), CamposRequeridos,
                    KeptPositions(CamposRequeridos, FaltaCampo(body)));
  }

  /** Nothing is reported exactly when every required field is present and non-blank. */
  lemma FaltantesVacio(body: map<string, JsValue>)
    ensures Faltantes(body) == [] <==> forall c :: c in CamposRequeridos ==> !Falta(Valor(body, c.clave))
  {
    var kept := Filter(CamposRequeridos, FaltaCampo(body));
    FaltantesDeEsFilter(body, CamposRequeridos);
    if kept != [] {
      assert kept[0] in kept;
    }
  }

  /** The outcomes of `PUT /api/casos/:id` before the SQL runs. */
  datatype RespuestaPut =
    | CamposRequeridosFaltantes(etiquetas: seq<string>)   // 400 with `camposFaltantes`
    | ErrorServidor                                       // 500: `rut.replace` on a non-string
    | Actualizar(rutLimpio: string)                       // the UPDATE runs with this RUT

  /** The validation and RUT cleaning of `PUT /api/casos/:id` in src/server/index.js. */
  method ActualizarCaso(body: map<string, JsValue>) returns (r: RespuestaPut)
    ensures r.CamposRequeridosFaltantes? <==> Faltantes(body) != []
    ensures r.CamposRequeridosFaltantes? ==> r.etiquetas == Faltantes(body)
    ensures r.ErrorServidor? <==> Faltantes(body) == [] && !Valor(body, "rut").Str?
    ensures r.Actualizar? ==> Valor(body, "rut").Str? && LimpiarRut(Valor(body, "rut").s) == Some(r.rutLimpio)
  {
    var faltantes := CamposFaltantes(body);
    if |faltantes| > 0 {
      return CamposRequeridosFaltantes(faltantes);
    }
    var rut := Valor(body, "rut");
    if !rut.Str? {
      return ErrorServidor;
    }
    assert !Falta(rut) by {
      FaltantesIff(body, 2);
      assert CamposRequeridos[2].clave == "rut";
    }
    var limpio := LimpiarRut(rut.s);
    return Actualizar(limpio.value);
  }

  // ----- src/server/index.ts -----

  /** The five fields `updateCaso` insists on. */
  const RequeridosTs: seq<string> := ["nombre_completo", "rut", "tipo_asesoria", "motivo_consulta", "abogado"]

  datatype RespuestaTs =
    | FaltanCampos          // 400 'Faltan campos requeridos'
    | ErrorServidorTs       // 500: `rut.replace` on a non-string
    | ActualizarTs(rutLimpio: string)

  /** `updateCaso` of src/server/index.ts up to the UPDATE. */
  function UpdateCasoTs(body: map<string, JsValue>): (r: RespuestaTs)
    ensures r.FaltanCampos? <==> exists f :: f in RequeridosTs && Falsy(Valor(body, f))
    ensures r.ActualizarTs? ==> Valor(body, "rut").Str? && r.rutLimpio == QuitarSeparadores(Valor(body, "rut").s)
    ensures r.ErrorServidorTs? ==> !Valor(body, "rut").Str?
  {
    if Falsy(Valor(body, "nombre_completo")) || Falsy(Valor(body, "rut")) || Falsy(Valor(body, "tipo_asesoria"))
       || Falsy(Valor(body, "motivo_consulta")) || Falsy(Valor(body, "abogado"))
    then
      FaltanCampos
    else
      match Valor(body, "rut")
      case Str(s) => ActualizarTs(QuitarSeparadores(s))
      case _ => ErrorServidorTs
  }

  /**
   * `[]` and `[" "]` are truthy yet print blank, so the field is reported; `{}` prints
   * `[object Object]` and counts as present.
   */
  lemma ArraysAndObjectsAsFields(body: map<string, JsValue>)
    requires Valor(body, "rit") == Arr([]) || Valor(body, "rit") == Arr([Str(" ")])
    requires Valor(body, "estado") == Obj(map[])
    ensures "RIT" in Faltantes(body) && "Estado" !in Faltantes(body)
    ensures !Falsy(Valor(body, "rit")) && !Falsy(Valor(body, "estado"))
  {
    assert IsBlank(" ");
    assert CamposRequeridos[12] == Campo("rit", "RIT");
    assert CamposRequeridos[11] == Campo("estado", "Estado");
    FaltantesIff(body, 12);
    FaltantesIff(body, 11);
  }

  /** A blank but non-empty name passes src/server/index.ts and is reported by src/server/index.js. */
  lemma BlankNameOnlyCaughtByJs(body: map<string, JsValue>)
    requires Valor(body, "nombre_completo") == Str(" ")
    ensures "Nombre completo" in Faltantes(body)
    ensures !Falsy(Valor(body, "nombre_completo"))
  {
    assert Falta(Valor(body, "nombre_completo")) by {
      assert IsBlank(" ");
    }
    assert CamposRequeridos[0] == Campo("nombre_completo", "Nombre completo");
    FaltantesIff(body, 0);
  }
}
