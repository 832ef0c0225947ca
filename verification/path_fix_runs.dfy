/**
 * The three loops that rewrite the stored paths of the documents a query
 * selected: `GET /api/documentos/actualizar-rutas` of src/server/index.js and of
 * src/server/index.ts, and the `fixDocumentRoutes` script of src/server/fix-routes.js.
 *
 * The SELECT that picks the documents is not modelled: each method receives the
 * selected rows. Which per-document UPDATE throws is an oracle: the set `failing`
 * of document ids whose UPDATE fails. The column `documentos.ruta_archivo` is a
 * map from document id to path, in which SQL NULL is the empty string.
 */
module DocumentPathRuns {
  import opened Wrappers
  import opened Seqs
  import opened UploadPaths

  datatype Documento = Documento(id: nat, nombre: string, rutaArchivo: string)

  /** `documentos.ruta_archivo` by document id. */
  type Rutas = map<nat, string>

  /** The documents whose UPDATE does not throw. */
  function Survives(failing: set<nat>): Documento -> bool {
    (d: Documento) => d.id !in failing
  }

  /** The documents index.ts processes: a truthy path and an UPDATE that does not throw. */
  function SurvivesWithPath(failing: set<nat>): Documento -> bool {
    (d: Documento) => d.rutaArchivo != "" && d.id !in failing
  }

  /** Every document was selected from `documentos`, so its row exists. */
  predicate Seleccionados(rutas: Rutas, docs: seq<Documento>) {
    forall d :: d in docs ==> d.id in rutas
  }

  /**
   * `UPDATE documentos SET ruta_archivo = normalize(d.ruta_archivo) WHERE id = d.id`, for
   * each `d` in turn. The documents come from the table, so no UPDATE creates a row.
   */
  function WriteBack(rutas: Rutas, docs: seq<Documento>, normalize: string -> string): (r: Rutas)
    ensures Seleccionados(rutas, docs) ==> r.Keys == rutas.Keys
  {
    if |docs| == 0 then rutas
    else
      var d := docs[|docs| - 1];
      assert forall x :: x in docs[..|docs| - 1] ==> x in docs;
      WriteBack(rutas, docs[..|docs| - 1], normalize)[d.id := normalize(d.rutaArchivo)]
  }

  /** The stored path is the normal form of the path of the LAST processed document with that id. */
  lemma {:induction false} WriteBackStoresNormalForm(rutas: Rutas, docs: seq<Documento>, normalize: string -> string, k: nat)
    requires k < |docs|
    requires forall l :: k < l < |docs| ==> docs[l].id != docs[k].id
    ensures docs[k].id in WriteBack(rutas, docs, normalize)
    ensures WriteBack(rutas, docs, normalize)[docs[k].id] == normalize(docs[k].rutaArchivo)
  {
    if k < |docs| - 1 {
      WriteBackStoresNormalForm(rutas, docs[..|docs| - 1], normalize, k);
    }
  }

  /** A row that no processed document names keeps its stored path. */
  lemma {:induction false} WriteBackKeepsOthers(rutas: Rutas, docs: seq<Documento>, normalize: string -> string, id: nat)
    requires id in rutas
    requires forall k :: 0 <= k < |docs| ==> docs[k].id != id
    ensures id in WriteBack(rutas, docs, normalize)
    ensures WriteBack(rutas, docs, normalize)[id] == rutas[id]
  {
    if |docs| > 0 {
      WriteBackKeepsOthers(rutas, docs[..|docs| - 1], normalize, id);
    }
  }

  /** One more processed document is one more UPDATE, applied last. */
  lemma WriteBackSnoc(rutas: Rutas, docs: seq<Documento>, d: Documento, normalize: string -> string)
    ensures WriteBack(rutas, docs + [d], normalize) == WriteBack(rutas, docs, normalize)[d.id := normalize(d.rutaArchivo)]
  {
    assert (docs + [d])[..|docs|] == docs;
  }

  // ----- src/server/index.js -----

  /** One element of `actualizaciones` in src/server/index.js and src/server/fix-routes.js. */
  datatype Actualizacion = Actualizacion(id: nat, nombre: string, rutaOriginal: string, rutaNormalizada: string)

  /** The JSON answer of the index.js endpoint. */
  datatype Informe = Informe(actualizaciones: seq<Actualizacion>, total: nat, actualizados: nat)

  function EntryJs(d: Documento): Actualizacion {
    Actualizacion(d.id, d.nombre, d.rutaArchivo, NormalizePath(d.rutaArchivo))
  }

  function EntriesJs(docs: seq<Documento>): (r: seq<Actualizacion>)
    ensures |r| == |docs|
    ensures forall d :: d in docs ==> EntryJs(d) in r
    ensures forall e :: e in r ==> e.rutaNormalizada == NormalizePath(e.rutaOriginal)
  {
    if |docs| == 0 then [] else EntriesJs(docs[..|docs| - 1]) + [EntryJs(docs[|docs| - 1])]
  }

  lemma EntriesJsSnoc(docs: seq<Documento>, d: Documento)
    ensures EntriesJs(docs + [d]) == EntriesJs(docs) + [EntryJs(d)]
  {
    assert (docs + [d])[..|docs|] == docs;
  }

  /** The `for (const doc of documentos)` loop of `actualizar-rutas` in src/server/index.js. */
  method ActualizarRutas(documentos: seq<Documento>, rutas: Rutas, failing: set<nat>)
    returns (informe: Informe, rutas': Rutas)
    requires Seleccionados(rutas, documentos)
    ensures informe.total == |documentos|
    ensures informe.actualizaciones == EntriesJs(Filter(documentos, Survives(failing)))
    ensures informe.actualizados == |informe.actualizaciones| <= informe.total
    ensures forall e :: e in informe.actualizaciones ==> e.rutaNormalizada == NormalizePath(e.rutaOriginal)
    ensures forall d :: d in documentos && d.id !in failing ==> EntryJs(d) in informe.actualizaciones
    ensures rutas' == WriteBack(rutas, Filter(documentos, Survives(failing)), NormalizePath)
    ensures rutas'.Keys == rutas.Keys
  {
    if |documentos| == 0 {
      return Informe([], 0, 0), rutas;
    }
    var actualizaciones: seq<Actualizacion> := [];
    rutas' := rutas;
    for i := 0 to |documentos|
      invariant actualizaciones == EntriesJs(Filter(documentos[..i], Survives(failing)))
      invariant rutas' == WriteBack(rutas, Filter(documentos[..i], Survives(failing)), NormalizePath)
    {
      var doc := documentos[i];
      FilterSnoc(documentos, Survives(failing), i);
      assert Survives(failing)(doc) <==> doc.id !in failing;
      if doc.id !in failing {
        ghost var kept := Filter(documentos[..i], Survives(failing));
        EntriesJsSnoc(kept, doc);
        WriteBackSnoc(rutas, kept, doc, NormalizePath);
        var rutaNormalizada := NormalizePath(doc.rutaArchivo);
        rutas' := rutas'[doc.id := rutaNormalizada];
        actualizaciones := actualizaciones + [Actualizacion(doc.id, doc.nombre, doc.rutaArchivo, rutaNormalizada)];
        assert Filter(documentos[..i + 1], Survives(failing)) == kept + [doc];
      } else {
        assert Filter(documentos[..i + 1], Survives(failing)) == Filter(documentos[..i], Survives(failing));
      }
    }
    assert documentos[..|documentos|] == documentos;
    informe := Informe(actualizaciones, |documentos|, |actualizaciones|);
  }

  // ----- src/server/index.ts -----

  /** One element of `actualizaciones` in src/server/index.ts (no `nombre`). */
  datatype ActualizacionTs = ActualizacionTs(id: nat, rutaOriginal: string, rutaNormalizada: string)

  datatype InformeTs = InformeTs(actualizaciones: seq<ActualizacionTs>, total: nat, actualizados: nat)

  function EntryTs(d: Documento): ActualizacionTs {
    ActualizacionTs(d.id, d.rutaArchivo, NormalizeSeparators(d.rutaArchivo))
  }

  function EntriesTs(docs: seq<Documento>): (r: seq<ActualizacionTs>)
    ensures |r| == |docs|
    ensures forall d :: d in docs ==> EntryTs(d) in r
  {
    if |docs| == 0 then [] else EntriesTs(docs[..|docs| - 1]) + [EntryTs(docs[|docs| - 1])]
  }

  lemma EntriesTsSnoc(docs: seq<Documento>, d: Documento)
    ensures EntriesTs(docs + [d]) == EntriesTs(docs) + [EntryTs(d)]
  {
    assert (docs + [d])[..|docs|] == docs;
  }

  /** The loop of `actualizar-rutas` in src/server/index.ts: only rows with a truthy path are processed. */
  method ActualizarRutasTs(documentos: seq<Documento>, rutas: Rutas, failing: set<nat>)
    returns (informe: InformeTs, rutas': Rutas)
    requires Seleccionados(rutas, documentos)
    ensures informe.total == |documentos|
    ensures informe.actualizaciones == EntriesTs(Filter(documentos, SurvivesWithPath(failing)))
    ensures informe.actualizados == |informe.actualizaciones| <= informe.total
    ensures forall e :: e in informe.actualizaciones ==> e.rutaOriginal != "" && '\\' !in e.rutaNormalizada
    ensures rutas' == WriteBack(rutas, Filter(documentos, SurvivesWithPath(failing)), NormalizeSeparators)
    ensures rutas'.Keys == rutas.Keys
  {
    var actualizaciones: seq<ActualizacionTs> := [];
    rutas' := rutas;
    for i := 0 to |documentos|
      invariant actualizaciones == EntriesTs(Filter(documentos[..i], SurvivesWithPath(failing)))
      invariant rutas' == WriteBack(rutas, Filter(documentos[..i], SurvivesWithPath(failing)), NormalizeSeparators)
    {
      var doc := documentos[i];
      FilterSnoc(documentos, SurvivesWithPath(failing), i);
      assert SurvivesWithPath(failing)(doc) <==> doc.rutaArchivo != "" && doc.id !in failing;
      if doc.id !in failing {
        if doc.rutaArchivo != "" {
          ghost var kept := Filter(documentos[..i], SurvivesWithPath(failing));
          EntriesTsSnoc(kept, doc);
          WriteBackSnoc(rutas, kept, doc, NormalizeSeparators);
          var rutaNormalizada := NormalizeSeparators(doc.rutaArchivo);
          rutas' := rutas'[doc.id := rutaNormalizada];
          actualizaciones := actualizaciones + [ActualizacionTs(doc.id, doc.rutaArchivo, rutaNormalizada)];
          assert Filter(documentos[..i + 1], SurvivesWithPath(failing)) == kept + [doc];
        } else {
          assert Filter(documentos[..i + 1], SurvivesWithPath(failing)) == Filter(documentos[..i], SurvivesWithPath(failing));
        }
      } else {
        assert Filter(documentos[..i + 1], SurvivesWithPath(failing)) == Filter(documentos[..i], SurvivesWithPath(failing));
      }
    }
    assert documentos[..|documentos|] == documentos;
    EntriesTsKeepPaths(Filter(documentos, SurvivesWithPath(failing)));
    informe := InformeTs(actualizaciones, |documentos|, |actualizaciones|);
  }

  lemma {:induction false} EntriesTsKeepPaths(docs: seq<Documento>)
    requires forall d :: d in docs ==> d.rutaArchivo != ""
    ensures forall e :: e in EntriesTs(docs) ==> e.rutaOriginal != "" && '\\' !in e.rutaNormalizada
  {
    if |docs| > 0 {
      EntriesTsKeepPaths(docs[..|docs| - 1]);
      assert docs[|docs| - 1] in docs;
    }
  }

  // ----- src/server/fix-routes.js -----

  /** One element of `actualizaciones` in fix-routes.js, whose normal form may be `null`. */
  datatype ActualizacionFix = ActualizacionFix(id: nat, nombre: string, rutaOriginal: string, rutaNormalizada: Option<string>)

  /** The value the UPDATE stores: `normalizeFilePath`'s result, with `null` as "". */
  function StoredFixPath(p: string): string {
    NormalizeFilePath(p).GetOr("")
  }

  function EntryFix(d: Documento): ActualizacionFix {
    ActualizacionFix(d.id, d.nombre, d.rutaArchivo, NormalizeFilePath(d.rutaArchivo))
  }

  function EntriesFix(docs: seq<Documento>): (r: seq<ActualizacionFix>)
    ensures |r| == |docs|
    ensures forall d :: d in docs ==> EntryFix(d) in r
  {
    if |docs| == 0 then [] else EntriesFix(docs[..|docs| - 1]) + [EntryFix(docs[|docs| - 1])]
  }

  lemma EntriesFixSnoc(docs: seq<Documento>, d: Documento)
    ensures EntriesFix(docs + [d]) == EntriesFix(docs) + [EntryFix(d)]
  {
    assert (docs + [d])[..|docs|] == docs;
  }

  /** `fixDocumentRoutes` of src/server/fix-routes.js: the log it prints is its only output. */
  method FixDocumentRoutes(documentos: seq<Documento>, rutas: Rutas, failing: set<nat>)
    returns (actualizaciones: seq<ActualizacionFix>, rutas': Rutas)
    requires Seleccionados(rutas, documentos)
    ensures |documentos| == 0 ==> actualizaciones == [] && rutas' == rutas
    ensures actualizaciones == EntriesFix(Filter(documentos, Survives(failing)))
    ensures |actualizaciones| <= |documentos|
    ensures forall d :: d in documentos && d.id !in failing ==> EntryFix(d) in actualizaciones
    ensures rutas' == WriteBack(rutas, Filter(documentos, Survives(failing)), StoredFixPath)
    ensures rutas'.Keys == rutas.Keys
  {
    if |documentos| == 0 {
      return [], rutas;
    }
    actualizaciones := [];
    rutas' := rutas;
    for i := 0 to |documentos|
      invariant actualizaciones == EntriesFix(Filter(documentos[..i], Survives(failing)))
      invariant rutas' == WriteBack(rutas, Filter(documentos[..i], Survives(failing)), StoredFixPath)
    {
      var doc := documentos[i];
      FilterSnoc(documentos, Survives(failing), i);
      assert Survives(failing)(doc) <==> doc.id !in failing;
      if doc.id !in failing {
        ghost var kept := Filter(documentos[..i], Survives(failing));
        EntriesFixSnoc(kept, doc);
        WriteBackSnoc(rutas, kept, doc, StoredFixPath);
        var rutaNormalizada := NormalizeFilePath(doc.rutaArchivo);
        rutas' := rutas'[doc.id := rutaNormalizada.GetOr("")];
        actualizaciones := actualizaciones + [ActualizacionFix(doc.id, doc.nombre, doc.rutaArchivo, rutaNormalizada)];
        assert Filter(documentos[..i + 1], Survives(failing)) == kept + [doc];
      } else {
        assert Filter(documentos[..i + 1], Survives(failing)) == Filter(documentos[..i], Survives(failing));
      }
    }
    assert documentos[..|documentos|] == documentos;
  }
}
