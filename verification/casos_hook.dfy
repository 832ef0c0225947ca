/**
 * The case-list logic of the `useCasos` hook (src/hooks/useCasos.ts): the filtered
 * list, the sorted list of distinct lawyers offered by the lawyer filter, and the
 * partial update of the filter state.
 */
module CasosHook {
  import opened Wrappers
  import opened JsStrings
  import opened Seqs

  /** The `Caso` record of the hook. */
  datatype Caso = Caso(
    id: string, cliente: string, asunto: string, abogado: string,
    prioridad: string, estado: string, fechaApertura: string, ultimaActualizacion: string)

  /** `FiltrosCasos`. */
  datatype Filtros = Filtros(busqueda: string, estado: string, abogado: string)

  /** The value of the estado and abogado filters that disables them. */
  const Todos: string := "Todos"

  /** The filter state the hook starts with. */
  const FiltrosIniciales: Filtros := Filtros("", Todos, Todos)

  /** `filtros.busqueda.toLowerCase().trim()`. */
  function Termino(f: Filtros): string {
    Trim(ToLower(f.busqueda))
  }

  /** `matchBusqueda`: an empty term matches; otherwise it must occur in the lower-cased cliente, asunto or id. */
  predicate CoincideBusqueda(c: Caso, termino: string) {
    termino == "" || Includes(ToLower(c.cliente), termino) || Includes(ToLower(c.asunto), termino)
    || Includes(ToLower(c.id), termino)
  }

  /** The predicate given to `casos.filter`. */
  function PasaFiltros(f: Filtros): Caso -> bool {
    (c: Caso) =>
      && CoincideBusqueda(c, Termino(f))
      && (f.estado == Todos || c.estado == f.estado)
      && (f.abogado == Todos || c.abogado == f.abogado)
  }

  /** `casosFiltrados`. */
  function CasosFiltrados(casos: seq<Caso>, f: Filtros): (r: seq<Caso>)
    ensures |casos| == 0 ==> r == []
    ensures forall c :: c in r <==> c in casos && PasaFiltros(f)(c)
  {
    if |casos| == 0 then [] else Filter(casos, PasaFiltros(f))
  }

  /** The filtered list is a subsequence of the cases, in their order. */
  lemma FiltradosEnOrden(casos: seq<Caso>, f: Filtros)
    ensures IsSubsequence(CasosFiltrados(casos, f), casos)
  {
    if |casos| == 0 {
      assert EmbedsVia([], casos, []);
    } else {
      FilterIsSubsequence(casos, PasaFiltros(f));
    }
  }

  /** A kept case satisfies each active filter; a case is kept iff it passes all three. */
  lemma FiltradoIff(casos: seq<Caso>, f: Filtros, c: Caso)
    requires c in casos
    ensures c in CasosFiltrados(casos, f) <==>
      CoincideBusqueda(c, Termino(f)) && (f.estado == Todos || c.estado == f.estado)
      && (f.abogado == Todos || c.abogado == f.abogado)
  {
    assert PasaFiltros(f)(c) <==>
      CoincideBusqueda(c, Termino(f)) && (f.estado == Todos || c.estado == f.estado)
      && (f.abogado == Todos || c.abogado == f.abogado);
  }

  /** With a blank search and both selectors on "Todos", every case is listed. */
  lemma SinFiltrosTodos(casos: seq<Caso>, f: Filtros)
    requires IsBlank(f.busqueda) && f.estado == Todos && f.abogado == Todos
    ensures CasosFiltrados(casos, f) == casos
  {
    assert Termino(f) == "" by {
      var lower := ToLower(f.busqueda);
      forall i | 0 <= i < |lower| ensures IsWhitespace(lower[i]) {
        assert lower[i] == LowerChar(f.busqueda[i]);
      }
      BlankIffTrimEmpty(lower);
    }
    if |casos| > 0 {
      forall c | c in casos ensures PasaFiltros(f)(c) {
        assert CoincideBusqueda(c, "");
      }
      FilterKeepsAll(casos, PasaFiltros(f));
    }
  }

  /** Filtering the filtered list again with the same filters changes nothing. */
  lemma FiltrarDosVeces(casos: seq<Caso>, f: Filtros)
    ensures CasosFiltrados(CasosFiltrados(casos, f), f) == CasosFiltrados(casos, f)
  {
    if |casos| > 0 && |CasosFiltrados(casos, f)| > 0 {
      FilterIdempotent(casos, PasaFiltros(f));
    }
  }

  // ----- The lawyer list -----

  /**
   * JavaScript's default `sort` order on strings, a prefix first. It compares code points,
   * which agrees with JavaScript's UTF-16 code-unit order inside the Basic Multilingual Plane.
   */
  predicate MenorQue(a: string, b: string) {
    (|a| < |b| && a == b[..|a|])
    || (exists k | 0 <= k < |a| && k < |b| :: a[..k] == b[..k] && a[k] < b[k])
  }

  /** The comparison is a strict total order; this is its trichotomy. */
  lemma {:induction false} MenorQueTotal(a: string, b: string)
    ensures a == b || MenorQue(a, b) || MenorQue(b, a)
  {
    if |a| > 0 && |b| > 0 && a[0] == b[0] {
      MenorQueTotal(a[1..], b[1..]);
      if a[1..] == b[1..] {
        assert a == [a[0]] + a[1..] && b == [b[0]] + b[1..];
      } else if MenorQue(a[1..], b[1..]) {
        MenorQuePrefijo(a, b);
      } else {
        MenorQuePrefijo(b, a);
      }
    } else if |a| > 0 && |b| > 0 {
      assert a[..0] == b[..0];
      if a[0] < b[0] {
        assert MenorQue(a, b);
      } else {
        assert MenorQue(b, a);
      }
    }
  }

  /** A common first character does not change the comparison. */
  lemma MenorQuePrefijo(a: string, b: string)
    requires |a| > 0 && |b| > 0 && a[0] == b[0] && MenorQue(a[1..], b[1..])
    ensures MenorQue(a, b)
  {
    if |a[1..]| < |b[1..]| && a[1..] == b[1..][..|a[1..]|] {
      assert a == b[..|a|];
    } else {
      var k :| 0 <= k < |a[1..]| && k < |b[1..]| && a[1..][..k] == b[1..][..k] && a[1..][k] < b[1..][k];
      assert a[..k + 1] == b[..k + 1];
      assert a[k + 1] < b[k + 1];
    }
  }

  /** `Array.from(new Set(xs))`: first occurrences, in order. */
  function Distintos(xs: seq<string>): (r: seq<string>)
    ensures forall x :: x in r <==> x in xs
    ensures forall i, j :: 0 <= i < j < |r| ==> r[i] != r[j]
  {
    if |xs| == 0 then []
    else
      var init := Distintos(xs[..|xs| - 1]);
      if xs[|xs| - 1] in init then init else init + [xs[|xs| - 1]]
  }

  predicate Ordenada(xs: seq<string>) {
    forall i, j :: 0 <= i < j < |xs| ==> MenorQue(xs[i], xs[j])
  }

  /** Inserts `x` before the first element it precedes. */
  function Insertar(x: string, xs: seq<string>): (r: seq<string>)
    ensures multiset(r) == multiset(xs) + multiset{x}
    ensures |r| == |xs| + 1
  {
    if |xs| == 0 || !MenorQue(xs[0], x) then [x] + xs
    else
      assert xs == [xs[0]] + xs[1..];
      [xs[0]] + Insertar(x, xs[1..])
  }

  lemma {:induction false} InsertarOrdenada(x: string, xs: seq<string>)
    requires Ordenada(xs) && x !in xs
    ensures Ordenada(Insertar(x, xs))
  {
    if |xs| > 0 {
      MenorQueTotal(xs[0], x);
      if MenorQue(xs[0], x) {
        InsertarOrdenada(x, xs[1..]);
        var r := Insertar(x, xs[1..]);
        forall j | 0 <= j < |r| ensures MenorQue(xs[0], r[j]) {
          assert r[j] in multiset(r);
          assert r[j] == x || r[j] in xs[1..];
        }
      } else {
        forall j | 1 <= j < |xs| ensures MenorQue(x, xs[j]) {
          MenorQueTransitivo(x, xs[0], xs[j]);
        }
      }
    }
  }

  lemma MenorQueTransitivo(a: string, b: string, c: string)
    requires MenorQue(a, b) && MenorQue(b, c)
    ensures MenorQue(a, c)
  {
    var ka := if |a| < |b| && a == b[..|a|] then |a| else
      var k :| 0 <= k < |a| && k < |b| && a[..k] == b[..k] && a[k] < b[k]; k;
    var kb := if |b| < |c| && b == c[..|b|] then |b| else
      var k :| 0 <= k < |b| && k < |c| && b[..k] == c[..k] && b[k] < c[k]; k;
    if ka < kb {
      assert a[..ka] == c[..ka] by {
        assert b[..kb][..ka] == b[..ka];
      }
      if ka < |a| {
        assert a[ka] < b[ka] == c[ka];
      } else {
        assert a == c[..|a|];
      }
    } else if kb < ka {
      assert a[..kb] == c[..kb] by {
        assert a[..ka][..kb] == a[..kb];
        assert b[..ka][..kb] == b[..kb];
      }
      assert kb < |b|;
      assert a[kb] == b[kb] < c[kb];
    } else if ka == |a| {
      assert kb < |b|;
      assert a == c[..|a|] by {
        assert a == b[..ka];
        assert b[..kb] == c[..kb];
      }
    } else {
      assert ka < |b| && kb < |b|;
      assert a[..ka] == c[..ka];
      assert a[ka] < c[ka];
    }
  }

  /** `xs.sort()` on distinct strings. */
  function Ordenar(xs: seq<string>): (r: seq<string>)
    ensures multiset(r) == multiset(xs)
  {
    if |xs| == 0 then []
    else
      assert xs == xs[..|xs| - 1] + [xs[|xs| - 1]];
      Insertar(xs[|xs| - 1], Ordenar(xs[..|xs| - 1]))
  }

  lemma {:induction false} OrdenarOrdenada(xs: seq<string>)
    requires forall i, j :: 0 <= i < j < |xs| ==> xs[i] != xs[j]
    ensures Ordenada(Ordenar(xs))
  {
    if |xs| > 0 {
      var init := xs[..|xs| - 1];
      OrdenarOrdenada(init);
      assert xs[|xs| - 1] !in multiset(Ordenar(init));
      InsertarOrdenada(xs[|xs| - 1], Ordenar(init));
    }
  }

  /** `abogados`: "Todos" and then the distinct lawyers of the given cases, sorted. */
  function Abogados(casos: seq<Caso>): seq<string> {
    [Todos] + Ordenar(Distintos(seq(|casos|, k requires 0 <= k < |casos| => casos[k].abogado)))
  }

  /**
   * The lawyer list starts with "Todos" and then names every lawyer of the cases
   * exactly once, in increasing order, and nothing else.
   */
  lemma AbogadosOrdenadosSinRepetir(casos: seq<Caso>)
    ensures var r := Abogados(casos);
            && r[0] == Todos
            && Ordenada(r[1..])
            && (forall a :: a in r[1..] <==> exists c :: c in casos && c.abogado == a)
  {
    var nombres := seq(|casos|, k requires 0 <= k < |casos| => casos[k].abogado);
    var d := Distintos(nombres);
    OrdenarOrdenada(d);
    var r := Abogados(casos);
    assert r[1..] == Ordenar(d);
    forall a ensures a in r[1..] <==> exists c :: c in casos && c.abogado == a {
      assert a in r[1..] <==> a in multiset(Ordenar(d));
      NombresDeCasos(casos, a);
    }
  }

  lemma NombresDeCasos(casos: seq<Caso>, a: string)
    ensures a in seq(|casos|, k requires 0 <= k < |casos| => casos[k].abogado) <==> exists c :: c in casos && c.abogado == a
  {
    var nombres := seq(|casos|, k requires 0 <= k < |casos| => casos[k].abogado);
    if a in nombres {
      var k :| 0 <= k < |nombres| && nombres[k] == a;
      assert casos[k] in casos;
    }
    if exists c :: c in casos && c.abogado == a {
      var c :| c in casos && c.abogado == a;
      var k :| 0 <= k < |casos| && casos[k] == c;
      assert nombres[k] == a;
    }
  }

  // ----- actualizarFiltros -----

  /** A `Partial<FiltrosCasos>`: an absent key is `None`. */
  datatype FiltrosParciales = FiltrosParciales(busqueda: Option<string>, estado: Option<string>, abogado: Option<string>)

  /** `{ ...prevFiltros, ...nuevosFiltros }`. */
  function ActualizarFiltros(prev: Filtros, nuevos: FiltrosParciales): (r: Filtros)
    ensures r.busqueda == (if nuevos.busqueda.Some? then nuevos.busqueda.value else prev.busqueda)
    ensures r.estado == (if nuevos.estado.Some? then nuevos.estado.value else prev.estado)
    ensures r.abogado == (if nuevos.abogado.Some? then nuevos.abogado.value else prev.abogado)
  {
    Filtros(nuevos.busqueda.GetOr(prev.busqueda), nuevos.estado.GetOr(prev.estado), nuevos.abogado.GetOr(prev.abogado))
  }

  /** An empty update changes nothing, and applying the same update twice is applying it once. */
  lemma ActualizarFiltrosIdempotente(prev: Filtros, nuevos: FiltrosParciales)
    ensures ActualizarFiltros(prev, FiltrosParciales(None, None, None)) == prev
    ensures ActualizarFiltros(ActualizarFiltros(prev, nuevos), nuevos) == ActualizarFiltros(prev, nuevos)
  {
  }
}
