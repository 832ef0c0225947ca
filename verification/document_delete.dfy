/**
 * `DELETE /api/documentos/:id` of cambios-backend/endpoints-documentos-completos.js:
 * look the row up, try to remove the physical file, then delete the row.
 *
 * The table `documentos` is a map from id to stored path (SQL NULL as ""); the
 * disk is the set of stored paths whose file exists. Turning a stored path into
 * a server path (`getServerFilePath`) is not part of this model: a file is named
 * by its stored path. `unlinkFalla` says whether `fs.unlink` throws for a
 * reason other than a missing file (permissions, a busy file).
 */
module DocumentDelete {

  /** The answers of the handler: 404 "Documento no encontrado" or the success message. */
  datatype Respuesta = NoEncontrado | Eliminado

  datatype Resultado = Resultado(respuesta: Respuesta, documentos: map<nat, string>, archivos: set<string>)

  /** Whether `fs.unlink` succeeds on the stored path. */
  predicate UnlinkSucceeds(archivos: set<string>, ruta: string, unlinkFalla: bool) {
    ruta in archivos && !unlinkFalla
  }

  /** The handler: SELECT, optional unlink with its error swallowed, DELETE, `affectedRows` check. */
  function EliminarDocumento(documentos: map<nat, string>, archivos: set<string>, id: nat, unlinkFalla: bool): (r: Resultado)
    ensures id !in documentos ==> r == Resultado(NoEncontrado, documentos, archivos)
    ensures id in documentos ==> r.respuesta == Eliminado && r.documentos == documentos - {id}
    ensures id in documentos ==> r.archivos <= archivos && archivos - r.archivos <= {documentos[id]}
    ensures id in documentos && documentos[id] != "" && UnlinkSucceeds(archivos, documentos[id], unlinkFalla)
            ==> documentos[id] !in r.archivos
  {
    if id !in documentos then
      Resultado(NoEncontrado, documentos, archivos)
    else
      var ruta := documentos[id];
      var archivos' :=
        if ruta != "" && UnlinkSucceeds(archivos, ruta, unlinkFalla) then archivos - {ruta} else archivos;
      // `result.affectedRows === 0`: with requests run one at a time the row found by
      // the SELECT is still there, so this 404 cannot fire; it is kept as the handler has it.
      var afectadas := if id in documentos then 1 else 0;
      if afectadas == 0 then Resultado(NoEncontrado, documentos - {id}, archivos')
      else Resultado(Eliminado, documentos - {id}, archivos')
  }

  /** A failed unlink does not stop the row deletion, and leaves the disk as it was. */
  lemma UnlinkFailureSwallowed(documentos: map<nat, string>, archivos: set<string>, id: nat)
    requires id in documentos
    ensures EliminarDocumento(documentos, archivos, id, true)
         == Resultado(Eliminado, documentos - {id}, archivos)
  {
  }

  /** Deleting the same id twice: the second call finds no row and changes nothing. */
  lemma SecondDeleteNotFound(documentos: map<nat, string>, archivos: set<string>, id: nat, f1: bool, f2: bool)
    ensures var r1 := EliminarDocumento(documentos, archivos, id, f1);
            EliminarDocumento(r1.documentos, r1.archivos, id, f2) == Resultado(NoEncontrado, r1.documentos, r1.archivos)
  {
  }
}
