/**
 * The "Top Abogados por Asignaciones" card (src/components/dashboard/AbogadoTop.tsx):
 * a loop counts the cases of each lawyer into a dictionary, then the dictionary's
 * entries are sorted by count, highest first, and the first three are shown.
 */
module AbogadoTop {
  import H = CasosHook

  /** `casos.map(caso => caso.abogado)`. */
  function Nombres(casos: seq<H.Caso>): (r: seq<string>)
    ensures |r| == |casos| && forall k :: 0 <= k < |casos| ==> r[k] == casos[k].abogado
  {
    seq(|casos|, k requires 0 <= k < |casos| => casos[k].abogado)
  }

  /** The number of cases assigned to `a`. */
  function Cuenta(casos: seq<H.Caso>, a: string): nat {
    if |casos| == 0 then 0
    else Cuenta(casos[..|casos| - 1], a) + (if casos[|casos| - 1].abogado == a then 1 else 0)
  }

  /** The sum of the counts stored under `claves`. */
  function Suma(claves: seq<string>, conteo: map<string, nat>): nat
    requires forall k :: k in claves ==> k in conteo
  {
    if |claves| == 0 then 0 else Suma(claves[..|claves| - 1], conteo) + conteo[claves[|claves| - 1]]
  }

  /** Storing under a key outside `claves` does not change their sum. */
  lemma {:induction false} SumaOtraClave(claves: seq<string>, conteo: map<string, nat>, a: string, v: nat)
    requires forall k :: k in claves ==> k in conteo
    requires a !in claves
    ensures Suma(claves, conteo[a := v]) == Suma(claves, conteo)
  {
    if |claves| > 0 {
      SumaOtraClave(claves[..|claves| - 1], conteo, a, v);
    }
  }

  /** Adding one to the count of a key that occurs once in `claves` adds one to their sum. */
  lemma {:induction false} SumaIncrementa(claves: seq<string>, conteo: map<string, nat>, a: string)
    requires forall k :: k in claves ==> k in conteo
    requires forall i, j :: 0 <= i < j < |claves| ==> claves[i] != claves[j]
    requires a in claves
    ensures Suma(claves, conteo[a := conteo[a] + 1]) == Suma(claves, conteo) + 1
  {
    var init, ultima := claves[..|claves| - 1], claves[|claves| - 1];
    if ultima == a {
      assert a !in init;
      SumaOtraClave(init, conteo, a, conteo[a] + 1);
    } else {
      assert a in init;
      SumaIncrementa(init, conteo, a);
    }
  }

  lemma CuentaSnoc(casos: seq<H.Caso>, i: nat, a: string)
    requires i < |casos|
    ensures Cuenta(casos[..i + 1], a) == Cuenta(casos[..i], a) + (if casos[i].abogado == a then 1 else 0)
  {
    assert casos[..i + 1][..i] == casos[..i];
  }

  lemma DistintosSnoc(casos: seq<H.Caso>, i: nat)
    requires i < |casos|
    ensures var d := H.Distintos(Nombres(casos[..i]));
            H.Distintos(Nombres(casos[..i + 1])) == if casos[i].abogado in d then d else d + [casos[i].abogado]
  {
    assert Nombres(casos[..i + 1])[..i] == Nombres(casos[..i]);
  }

  /** The dictionary the count must produce: each lawyer of the cases, with their number of cases. */
  ghost function Conteo(casos: seq<H.Caso>): map<string, nat> {
    map a | a in Nombres(casos) :: Cuenta(casos, a)
  }

  /** A lawyer without cases counts zero. */
  lemma {:induction false} CuentaCero(casos: seq<H.Caso>, a: string)
    requires a !in Nombres(casos)
    ensures Cuenta(casos, a) == 0
  {
    if |casos| > 0 {
      assert Nombres(casos[..|casos| - 1]) == Nombres(casos)[..|casos| - 1];
      CuentaCero(casos[..|casos| - 1], a);
    }
  }

  /** A lawyer with cases counts at least one. */
  lemma {:induction false} CuentaPositiva(casos: seq<H.Caso>, a: string)
    requires a in Nombres(casos)
    ensures Cuenta(casos, a) >= 1
  {
    var n := |casos|;
    if casos[n - 1].abogado != a {
      assert Nombres(casos[..n - 1]) == Nombres(casos)[..n - 1];
      var k :| 0 <= k < n && Nombres(casos)[k] == a;
      assert Nombres(casos[..n - 1])[k] == a;
      CuentaPositiva(casos[..n - 1], a);
    }
  }

  /** One more case adds one to its lawyer's entry, creating it at 1. */
  lemma ConteoSnoc(casos: seq<H.Caso>, i: nat)
    requires i < |casos|
    ensures var m, a := Conteo(casos[..i]), casos[i].abogado;
            Conteo(casos[..i + 1]) == m[a := (if a in m then m[a] else 0) + 1]
  {
    var m, a := Conteo(casos[..i]), casos[i].abogado;
    var m' := m[a := (if a in m then m[a] else 0) + 1];
    assert Nombres(casos[..i + 1]) == Nombres(casos[..i]) + [a];
    forall b | b in m' ensures b in Conteo(casos[..i + 1]) && Conteo(casos[..i + 1])[b] == m'[b] {
      CuentaSnoc(casos, i, b);
      if b == a && a !in m {
        CuentaCero(casos[..i], a);
      }
    }
  }

  /** The dictionary after the loop has seen `casos`, one case at a time. */
  function Contado(casos: seq<H.Caso>): map<string, nat> {
    if |casos| == 0 then map[]
    else
      var m, a := Contado(casos[..|casos| - 1]), casos[|casos| - 1].abogado;
      m[a := (if a in m then m[a] else 0) + 1]
  }

  /** Counting case by case builds the dictionary of counts. */
  lemma {:induction false} ContadoEsConteo(casos: seq<H.Caso>)
    ensures Contado(casos) == Conteo(casos)
  {
    if |casos| > 0 {
      var i := |casos| - 1;
      assert casos[..i + 1] == casos;
      ContadoEsConteo(casos[..i]);
      ConteoSnoc(casos, i);
    }
  }

  /** The loop's dictionary has an entry for exactly the lawyers seen so far. */
  lemma EnContado(casos: seq<H.Caso>, a: string)
    ensures (a in Contado(casos)) == (a in H.Distintos(Nombres(casos)))
  {
    ContadoEsConteo(casos);
  }

  /** The `casos.forEach` loop; `claves` is the order in which the keys were first stored. */
  method ContarPorAbogado(casos: seq<H.Caso>) returns (conteo: map<string, nat>, claves: seq<string>)
    ensures conteo == Contado(casos)
    ensures claves == H.Distintos(Nombres(casos))
  {
    conteo, claves := map[], [];
    for i := 0 to |casos|
      invariant conteo == Contado(casos[..i])
      invariant claves == H.Distintos(Nombres(casos[..i]))
    {
      conteo, claves := ContarCaso(casos, i, conteo, claves);
    }
    assert casos[..|casos|] == casos;
  }

  /** The callback for `casos[i]`: `conteo[caso.abogado] = (conteo[caso.abogado] || 0) + 1`. */
  method ContarCaso(casos: seq<H.Caso>, i: nat, conteo: map<string, nat>, claves: seq<string>)
    returns (conteo': map<string, nat>, claves': seq<string>)
    requires i < |casos|
    requires conteo == Contado(casos[..i]) && claves == H.Distintos(Nombres(casos[..i]))
    ensures conteo' == Contado(casos[..i + 1]) && claves' == H.Distintos(Nombres(casos[..i + 1]))
  {
    var a := casos[i].abogado;
    assert casos[..i + 1][..i] == casos[..i];
    DistintosSnoc(casos, i);
    EnContado(casos[..i], a);
    var previo := if a in conteo then conteo[a] else 0;
    claves' := claves;
    if a !in conteo {
      claves' := claves + [a];
    }
    conteo' := conteo[a := previo + 1];
  }

  /** Each lawyer of the cases has an entry of at least one. */
  lemma ConteoPositivo(casos: seq<H.Caso>)
    ensures forall a :: a in Conteo(casos) ==> Conteo(casos)[a] >= 1
  {
    forall a | a in Conteo(casos) ensures Conteo(casos)[a] >= 1 {
      CuentaPositiva(casos, a);
    }
  }

  /** Every case is counted once: the entries add up to the number of cases. */
  lemma {:induction false} ConteoTotal(casos: seq<H.Caso>)
    ensures Suma(H.Distintos(Nombres(casos)), Conteo(casos)) == |casos|
  {
    if |casos| > 0 {
      var i := |casos| - 1;
      var init := casos[..i];
      assert init == casos[..i];
      ConteoTotal(init);
      ConteoSnoc(casos, i);
      DistintosSnoc(casos, i);
      assert casos[..i + 1] == casos;
      var m, a, d := Conteo(init), casos[i].abogado, H.Distintos(Nombres(init));
      if a in m {
        SumaIncrementa(d, m, a);
      } else {
        SumaOtraClave(d, m, a, 1);
        assert (d + [a])[..|d|] == d;
      }
    }
  }

  // ----- The ranking -----

  /** An entry `[abogado, cantidad]` of `Object.entries(conteo)`. */
  datatype Entrada = Entrada(abogado: string, cantidad: nat)

  predicate NoCreciente(es: seq<Entrada>) {
    forall i, j :: 0 <= i < j < |es| ==> es[i].cantidad >= es[j].cantidad
  }

  /** Inserts `e` after every entry whose count is at least its own (the comparator returns <= 0 for them). */
  function InsertarDesc(e: Entrada, es: seq<Entrada>): (r: seq<Entrada>)
    ensures multiset(r) == multiset(es) + multiset{e}
    ensures |r| == |es| + 1
  {
    if |es| == 0 || es[0].cantidad < e.cantidad then [e] + es
    else
      assert es == [es[0]] + es[1..];
      [es[0]] + InsertarDesc(e, es[1..])
  }

  lemma {:induction false} InsertarDescOrdena(e: Entrada, es: seq<Entrada>)
    requires NoCreciente(es)
    ensures NoCreciente(InsertarDesc(e, es))
  {
    if |es| > 0 && es[0].cantidad >= e.cantidad {
      InsertarDescOrdena(e, es[1..]);
      var r := InsertarDesc(e, es[1..]);
      forall j | 0 <= j < |r| ensures es[0].cantidad >= r[j].cantidad {
        assert r[j] in multiset(r);
        assert r[j] == e || r[j] in es[1..];
      }
    }
  }

  /** `.sort((a, b) => b[1] - a[1])`: highest count first. */
  function OrdenarPorCantidad(es: seq<Entrada>): (r: seq<Entrada>)
    ensures multiset(r) == multiset(es) && |r| == |es|
    ensures NoCreciente(r)
  {
    if |es| == 0 then []
    else
      assert es == es[..|es| - 1] + [es[|es| - 1]];
      InsertarDescOrdena(es[|es| - 1], OrdenarPorCantidad(es[..|es| - 1]));
      InsertarDesc(es[|es| - 1], OrdenarPorCantidad(es[..|es| - 1]))
  }

  /** `Object.entries(conteo)`, in the keys' insertion order. */
  function Entradas(claves: seq<string>, conteo: map<string, nat>): (r: seq<Entrada>)
    requires forall k :: k in claves ==> k in conteo
    ensures |r| == |claves| && forall k :: 0 <= k < |r| ==> r[k] == Entrada(claves[k], conteo[claves[k]])
  {
    seq(|claves|, k requires 0 <= k < |claves| => Entrada(claves[k], conteo[claves[k]]))
  }

  /** `.slice(0, 3)` of the sorted entries. */
  function TopTres(es: seq<Entrada>): (r: seq<Entrada>)
    ensures |r| <= 3 && |r| <= |es|
    ensures NoCreciente(r)
    ensures r == OrdenarPorCantidad(es)[..|r|]
  {
    var orden := OrdenarPorCantidad(es);
    if |orden| <= 3 then orden else orden[..3]
  }

  /** The lawyers and counts the card shows for `casos`. */
  ghost function Ranking(casos: seq<H.Caso>): seq<Entrada> {
    TopTres(Entradas(H.Distintos(Nombres(casos)), Conteo(casos)))
  }

  /** The card's data: the counting loop, then the ranking. */
  method TopAbogados(casos: seq<H.Caso>) returns (top: seq<Entrada>)
    ensures top == Ranking(casos)
  {
    var conteo, claves := ContarPorAbogado(casos);
    ContadoEsConteo(casos);
    top := TopTres(Entradas(claves, conteo));
  }

  /** Two equal elements at different positions occur twice in the multiset. */
  lemma DosVeces<T>(s: seq<T>, i: nat, j: nat)
    requires i < j < |s| && s[i] == s[j]
    ensures multiset(s)[s[i]] >= 2
  {
    assert s == s[..j] + [s[j]] + s[j + 1..];
    assert s[i] in s[..j];
  }

  /** An element occurring twice in the multiset sits at two positions. */
  lemma DosPosiciones<T>(s: seq<T>, x: T) returns (p: nat, q: nat)
    requires multiset(s)[x] >= 2
    ensures p < |s| && q < |s| && p != q && s[p] == x && s[q] == x
  {
    assert x in multiset(s);
    p :| 0 <= p < |s| && s[p] == x;
    assert s == s[..p] + [s[p]] + s[p + 1..];
    var resto := s[..p] + s[p + 1..];
    assert multiset(resto)[x] >= 1;
    assert x in resto;
    var r :| 0 <= r < |resto| && resto[r] == x;
    q := if r < p then r else r + 1;
  }

  /** Sorting keeps exactly the entries it is given. */
  lemma MiembrosOrden(es: seq<Entrada>, e: Entrada)
    ensures e in OrdenarPorCantidad(es) <==> e in es
  {
    assert e in OrdenarPorCantidad(es) <==> e in multiset(OrdenarPorCantidad(es));
  }

  /** A ranked entry is one of the dictionary's entries. */
  lemma TopEntrada(claves: seq<string>, conteo: map<string, nat>, i: nat) returns (p: nat)
    requires forall k :: k in claves ==> k in conteo
    requires i < |TopTres(Entradas(claves, conteo))|
    ensures p < |claves| && TopTres(Entradas(claves, conteo))[i] == Entrada(claves[p], conteo[claves[p]])
  {
    var es := Entradas(claves, conteo);
    var e := OrdenarPorCantidad(es)[i];
    MiembrosOrden(es, e);
    p :| 0 <= p < |es| && es[p] == e;
  }

  /** Every dictionary entry has a position in the sorted entries. */
  lemma PosicionEnOrden(claves: seq<string>, conteo: map<string, nat>, p: nat) returns (q: nat)
    requires forall k :: k in claves ==> k in conteo
    requires p < |claves|
    ensures q < |claves| && OrdenarPorCantidad(Entradas(claves, conteo))[q] == Entrada(claves[p], conteo[claves[p]])
    ensures q < |TopTres(Entradas(claves, conteo))| ==> TopTres(Entradas(claves, conteo))[q] == Entrada(claves[p], conteo[claves[p]])
  {
    var es := Entradas(claves, conteo);
    MiembrosOrden(es, es[p]);
    var orden := OrdenarPorCantidad(es);
    q :| 0 <= q < |orden| && orden[q] == es[p];
  }

  /** Entries built from distinct keys occur once each. */
  lemma {:induction false} EntradasUnicas(claves: seq<string>, conteo: map<string, nat>, e: Entrada)
    requires forall k :: k in claves ==> k in conteo
    requires forall x, y :: 0 <= x < y < |claves| ==> claves[x] != claves[y]
    ensures multiset(Entradas(claves, conteo))[e] <= 1
  {
    if |claves| > 0 {
      var n := |claves| - 1;
      var init := claves[..n];
      EntradasUnicas(init, conteo, e);
      assert Entradas(claves, conteo) == Entradas(init, conteo) + [Entradas(claves, conteo)[n]];
      assert claves[n] !in init;
      assert Entradas(claves, conteo)[n] !in Entradas(init, conteo);
    }
  }

  /** In a sequence whose elements occur once each, different positions hold different elements. */
  lemma PosicionesDistintas<T>(s: seq<T>, i: nat, j: nat)
    requires forall x :: multiset(s)[x] <= 1
    requires i < j < |s|
    ensures s[i] != s[j]
  {
    if s[i] == s[j] {
      DosVeces(s, i, j);
    }
  }

  /** With distinct keys, no lawyer is ranked twice. */
  lemma TopDistintos(claves: seq<string>, conteo: map<string, nat>, i: nat, j: nat)
    requires forall k :: k in claves ==> k in conteo
    requires forall x, y :: 0 <= x < y < |claves| ==> claves[x] != claves[y]
    requires i < j < |TopTres(Entradas(claves, conteo))|
    ensures TopTres(Entradas(claves, conteo))[i].abogado != TopTres(Entradas(claves, conteo))[j].abogado
  {
    var es := Entradas(claves, conteo);
    var orden := OrdenarPorCantidad(es);
    var pi := TopEntrada(claves, conteo, i);
    var pj := TopEntrada(claves, conteo, j);
    forall x ensures multiset(orden)[x] <= 1 {
      EntradasUnicas(claves, conteo, x);
    }
    PosicionesDistintas(orden, i, j);
    assert pi != pj;
  }

  /** A lawyer left out of the ranking has no more cases than any ranked one. */
  lemma TopEsMaximo(claves: seq<string>, conteo: map<string, nat>, a: string, i: nat)
    requires forall k :: k in claves ==> k in conteo
    requires a in claves && i < |TopTres(Entradas(claves, conteo))|
    requires forall j :: 0 <= j < |TopTres(Entradas(claves, conteo))| ==> TopTres(Entradas(claves, conteo))[j].abogado != a
    ensures conteo[a] <= TopTres(Entradas(claves, conteo))[i].cantidad
  {
    var top := TopTres(Entradas(claves, conteo));
    var p :| 0 <= p < |claves| && claves[p] == a;
    var q := PosicionEnOrden(claves, conteo, p);
    assert q >= |top|;
  }

  /** With at most three lawyers, every lawyer is ranked. */
  lemma TopCompleto(claves: seq<string>, conteo: map<string, nat>, a: string) returns (j: nat)
    requires forall k :: k in claves ==> k in conteo
    requires |claves| <= 3 && a in claves
    ensures j < |TopTres(Entradas(claves, conteo))| && TopTres(Entradas(claves, conteo))[j].abogado == a
  {
    var p :| 0 <= p < |claves| && claves[p] == a;
    j := PosicionEnOrden(claves, conteo, p);
  }

  /**
   * What the card shows: at most three distinct lawyers of the cases, each with its
   * true number of cases, highest first; nobody left out has more cases than someone
   * shown; with at most three lawyers, all of them are shown.
   */
  lemma {:induction false} RankingCorrecto(casos: seq<H.Caso>)
    ensures var r := Ranking(casos);
            && |r| <= 3 && NoCreciente(r)
            && (forall i :: 0 <= i < |r| ==> r[i].abogado in Nombres(casos) && r[i].cantidad == Cuenta(casos, r[i].abogado))
            && (forall i, j :: 0 <= i < j < |r| ==> r[i].abogado != r[j].abogado)
    ensures var r := Ranking(casos);
            forall a, i :: a in Nombres(casos) && 0 <= i < |r| && (forall j :: 0 <= j < |r| ==> r[j].abogado != a)
              ==> Cuenta(casos, a) <= r[i].cantidad
  {
    var claves, conteo := H.Distintos(Nombres(casos)), Conteo(casos);
    var r := Ranking(casos);
    forall i | 0 <= i < |r| ensures r[i].abogado in Nombres(casos) && r[i].cantidad == Cuenta(casos, r[i].abogado) {
      var p := TopEntrada(claves, conteo, i);
    }
    forall i, j | 0 <= i < j < |r| ensures r[i].abogado != r[j].abogado {
      TopDistintos(claves, conteo, i, j);
    }
    forall a, i | a in Nombres(casos) && 0 <= i < |r| && (forall j :: 0 <= j < |r| ==> r[j].abogado != a)
      ensures Cuenta(casos, a) <= r[i].cantidad
    {
      TopEsMaximo(claves, conteo, a, i);
    }
  }

  /** When the cases have at most three lawyers, the card shows every one of them. */
  lemma RankingCompleto(casos: seq<H.Caso>, a: string)
    requires |H.Distintos(Nombres(casos))| <= 3 && a in Nombres(casos)
    ensures exists j :: 0 <= j < |Ranking(casos)| && Ranking(casos)[j].abogado == a
  {
    var j := TopCompleto(H.Distintos(Nombres(casos)), Conteo(casos), a);
    assert Ranking(casos)[j].abogado == a;
  }
}
