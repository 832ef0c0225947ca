/**
 * The case store of src/context/CasosContext.tsx: `agregarCaso` derives the next
 * id from the last case's id and appends the completed case; `filtrarCasos`
 * filters by estado, prioridad and a case-insensitive search.
 */
module CasosContext {
  import opened Wrappers
  import opened JsStrings
  import opened JsNumbers
  import opened Seqs

  datatype Caso = Caso(
    id: string, cliente: string, asunto: string, abogado: string,
    prioridad: string, estado: string, fechaApertura: string)

  /** `Omit<Caso, 'id'>`. */
  datatype CasoNuevo = CasoNuevo(
    cliente: string, asunto: string, abogado: string, prioridad: string, estado: string, fechaApertura: string)

  /** `{ ...nuevoCaso, id: nuevoId }`. */
  function Completar(n: CasoNuevo, id: string): (c: Caso)
    ensures c.id == id
    ensures CasoNuevo(c.cliente, c.asunto, c.abogado, c.prioridad, c.estado, c.fechaApertura) == n
  {
    Caso(id, n.cliente, n.asunto, n.abogado, n.prioridad, n.estado, n.fechaApertura)
  }

  // ----- Id generation -----

  /** `id.split('-')[1]`; `undefined` (`None`) when the id has no `-`. */
  function SufijoId(id: string): (r: Option<string>)
    ensures r.None? <==> '-' !in id
  {
    var parts := Split(id, '-');
    if |parts| < 2 then None else Some(parts[1])
  }

  /** `ultimoId`: 0 without cases, else `parseInt` of the last id's suffix (`parseInt(undefined)` is NaN). */
  function UltimoId(casos: seq<Caso>): Option<int> {
    if |casos| == 0 then Some(0)
    else
      match SufijoId(casos[|casos| - 1].id)
      case None => None
      case Some(s) => ParseInt(s)
  }

  /** `String(ultimoId + 1)`: NaN stays NaN and prints as "NaN". */
  function Siguiente(ultimo: Option<int>): string {
    match ultimo
    case None => "NaN"
    case Some(n) => IntToString(n + 1)
  }

  /** `` `CAS-${String(ultimoId + 1).padStart(3, '0')}` ``. */
  function NuevoId(casos: seq<Caso>): string {
    "CAS-" + PadStart(Siguiente(UltimoId(casos)), 3, '0')
  }

  /** With no cases the first id is `CAS-001`. */
  lemma PrimerId()
    ensures NuevoId([]) == "CAS-001"
  {
    assert NatToString(1) == "1";
    assert Repetir('0', 2) == "00" by {
      assert Repetir('0', 1) == "0";
    }
  }

  /**
   * When the last id ends in the number n >= 0, the new id is `CAS-` followed by n + 1
   * padded with zeros to at least three digits: all digits of n + 1 are kept.
   */
  lemma NuevoIdSinTruncar(casos: seq<Caso>, n: nat)
    requires UltimoId(casos) == Some(n)
    ensures var digitos := NatToString(n + 1);
            var sufijo := PadStart(digitos, 3, '0');
            && NuevoId(casos) == "CAS-" + sufijo
            && |sufijo| == (if |digitos| >= 3 then |digitos| else 3)
            && sufijo[|sufijo| - |digitos|..] == digitos
            && (forall i :: 0 <= i < |sufijo| - |digitos| ==> sufijo[i] == '0')
            && ParseInt(sufijo) == Some(n + 1)
  {
    SiguienteDe(casos, n);
    ParseIntPadStart(n + 1, 3);
  }

  /** After a last id numbered n >= 0, the new id is built from the digits of n + 1. */
  lemma SiguienteDe(casos: seq<Caso>, n: nat)
    requires UltimoId(casos) == Some(n)
    ensures NuevoId(casos) == "CAS-" + PadStart(NatToString(n + 1), 3, '0')
  {
    assert Siguiente(Some(n)) == NatToString(n + 1);
  }

  /** A generated id reads back as the number it was generated from. */
  lemma {:induction false} SufijoDeNuevoId(p: string)
    requires '-' !in p
    ensures SufijoId("CAS-" + p) == Some(p)
  {
    SplitAtFirst("CAS", p, '-');
    assert "CAS" + ['-'] + p == "CAS-" + p;
    SplitNoSeparator(p, '-');
  }

  /** The padded number has no `-`. */
  lemma SinGuion(n: nat)
    ensures '-' !in PadStart(NatToString(n), 3, '0')
  {
    var d := NatToString(n);
    var ceros := if |d| >= 3 then 0 else 3 - |d|;
    var p := PadStart(d, 3, '0');
    assert p == Repetir('0', ceros) + d;
    ValorCeros(ceros, 10);
    ValorConcat(Repetir('0', ceros), d, 10);
    assert !EsDigitoEn('-', 10);
    assert forall i :: 0 <= i < |p| ==> EsDigitoEn(p[i], 10);
  }

  /** Appending the case `agregarCaso` builds makes its number the new last one: ids count up by one. */
  lemma IdSecuencial(casos: seq<Caso>, nuevo: CasoNuevo, n: nat)
    requires UltimoId(casos) == Some(n)
    ensures UltimoId(casos + [Completar(nuevo, NuevoId(casos))]) == Some(n + 1)
  {
    var p := PadStart(NatToString(n + 1), 3, '0');
    assert NuevoId(casos) == "CAS-" + p;
    SinGuion(n + 1);
    SufijoDeNuevoId(p);
    ParseIntPadStart(n + 1, 3);
  }

  /** Once a last id has no number after its `-`, every later id is `CAS-NaN`. */
  lemma NaNSePropaga(casos: seq<Caso>, nuevo: CasoNuevo)
    requires UltimoId(casos) == None
    ensures NuevoId(casos) == "CAS-NaN"
    ensures UltimoId(casos + [Completar(nuevo, NuevoId(casos))]) == None
  {
    assert PadStart("NaN", 3, '0') == "NaN";
    var c := Completar(nuevo, NuevoId(casos));
    assert c.id == "CAS-NaN";
    assert '-' !in "NaN";
    SufijoDeNuevoId("NaN");
    ParseIntNaN();
    assert (casos + [c])[|casos|] == c;
  }

  /** The cases after adding each of `nuevos` in turn. */
  function AgregarTodos(casos: seq<Caso>, nuevos: seq<CasoNuevo>): seq<Caso> {
    if |nuevos| == 0 then casos
    else
      var antes := AgregarTodos(casos, nuevos[..|nuevos| - 1]);
      antes + [Completar(nuevos[|nuevos| - 1], NuevoId(antes))]
  }

  /** Starting from no cases, the k-th added case gets number k: `CAS-001`, `CAS-002`, ... */
  lemma {:induction false} NumeracionDesdeVacio(nuevos: seq<CasoNuevo>)
    ensures UltimoId(AgregarTodos([], nuevos)) == Some(|nuevos|)
  {
    if |nuevos| > 0 {
      var init := nuevos[..|nuevos| - 1];
      NumeracionDesdeVacio(init);
      IdSecuencial(AgregarTodos([], init), nuevos[|nuevos| - 1], |init|);
    }
  }

  /** The store behind the context. */
  class CasosStore {
    var casos: seq<Caso>

    constructor (iniciales: seq<Caso>)
      ensures casos == iniciales
    {
      casos := iniciales;
    }

    /** `agregarCaso`: builds the case with the next id and appends it. */
    method AgregarCaso(nuevo: CasoNuevo) returns (caso: Caso)
      modifies this
      ensures caso == Completar(nuevo, NuevoId(old(casos)))
      ensures casos == old(casos) + [caso]
    {
      var ultimoId: Option<int>;
      if |casos| > 0 {
        var sufijo := SufijoId(casos[|casos| - 1].id);
        ultimoId := if sufijo.None? then None else ParseInt(sufijo.value);
      } else {
        ultimoId := Some(0);
      }
      var nuevoId := "CAS-" + PadStart(Siguiente(ultimoId), 3, '0');
      caso := Completar(nuevo, nuevoId);
      casos := casos + [caso];
    }
  }

  // ----- filtrarCasos -----

  /** The `filtros` object; an absent or falsy key is `""`. */
  datatype FiltrosCtx = FiltrosCtx(estado: string, prioridad: string, busqueda: string)

  /** The search: the lower-cased term, untrimmed, inside one of four lower-cased fields. */
  predicate CoincideTermino(c: Caso, termino: string) {
    Includes(ToLower(c.cliente), termino) || Includes(ToLower(c.asunto), termino)
    || Includes(ToLower(c.abogado), termino) || Includes(ToLower(c.id), termino)
  }

  /** `cumpleFiltros`, accumulated through the three `if`s. */
  function CumpleFiltros(f: FiltrosCtx): Caso -> bool {
    (c: Caso) =>
      var cumple := true;
      var cumple := if f.estado != "" && f.estado != "TODOS" then cumple && c.estado == f.estado else cumple;
      var cumple := if f.prioridad != "" && f.prioridad != "TODAS" then cumple && c.prioridad == f.prioridad else cumple;
      var cumple := if f.busqueda != "" then cumple && CoincideTermino(c, ToLower(f.busqueda)) else cumple;
      cumple
  }

  /** `filtrarCasos`. */
  function FiltrarCasos(casos: seq<Caso>, f: FiltrosCtx): (r: seq<Caso>)
    ensures forall c :: c in r <==> c in casos && CumpleFiltros(f)(c)
  {
    Filter(casos, CumpleFiltros(f))
  }

  /** The running conjunction is the conjunction of the active filters. */
  lemma CumpleIff(f: FiltrosCtx, c: Caso)
    ensures CumpleFiltros(f)(c) <==>
      && (f.estado == "" || f.estado == "TODOS" || c.estado == f.estado)
      && (f.prioridad == "" || f.prioridad == "TODAS" || c.prioridad == f.prioridad)
      && (f.busqueda == "" || CoincideTermino(c, ToLower(f.busqueda)))
  {
  }

  /** `filtrarCasos` returns a subsequence of the cases, in order. */
  lemma FiltrarEnOrden(casos: seq<Caso>, f: FiltrosCtx)
    ensures IsSubsequence(FiltrarCasos(casos, f), casos)
  {
    FilterIsSubsequence(casos, CumpleFiltros(f));
  }

  /** "TODOS" disables the estado filter exactly as an absent estado does, and "TODAS" the prioridad filter. */
  lemma {:induction false} ComodinesIgnorados(casos: seq<Caso>, f: FiltrosCtx)
    ensures f.estado == "TODOS" ==> FiltrarCasos(casos, f) == FiltrarCasos(casos, f.(estado := ""))
    ensures f.prioridad == "TODAS" ==> FiltrarCasos(casos, f) == FiltrarCasos(casos, f.(prioridad := ""))
  {
    if f.estado == "TODOS" {
      forall c | c in casos ensures CumpleFiltros(f)(c) == CumpleFiltros(f.(estado := ""))(c) {
        CumpleIff(f, c);
        CumpleIff(f.(estado := ""), c);
      }
      FilterCongruent(casos, CumpleFiltros(f), CumpleFiltros(f.(estado := "")));
    }
    if f.prioridad == "TODAS" {
      forall c | c in casos ensures CumpleFiltros(f)(c) == CumpleFiltros(f.(prioridad := ""))(c) {
        CumpleIff(f, c);
        CumpleIff(f.(prioridad := ""), c);
      }
      FilterCongruent(casos, CumpleFiltros(f), CumpleFiltros(f.(prioridad := "")));
    }
  }

  /** With no filter given every case is returned. */
  lemma SinFiltrosTodos(casos: seq<Caso>)
    ensures FiltrarCasos(casos, FiltrosCtx("", "", "")) == casos
  {
    FilterKeepsAll(casos, CumpleFiltros(FiltrosCtx("", "", "")));
  }
}
