/**
 * Chilean RUT (tax id) handling: the server-side cleaning of src/server/index.js
 * and src/server/index.ts, and the dotted display `formatearRut` of
 * src/pages/DocumentosCaso.tsx.
 */
module Rut {
  import opened Wrappers
  import opened JsStrings

  // ----- Server-side cleaning -----

  /** The class `[0-9kK]`. */
  predicate IsRutChar(c: char) {
    IsDigit(c) || c == 'k' || c == 'K'
  }

  /** `rut ? rut.replace(/[^0-9kK]/g, '').toUpperCase() : null`: a falsy RUT is `null`. */
  function LimpiarRut(rut: string): (r: Option<string>)
    ensures rut == "" <==> r == None
    ensures r.Some? ==> |r.value| <= |rut|
    ensures r.Some? ==> forall k :: 0 <= k < |r.value| ==> IsDigit(r.value[k]) || r.value[k] == 'K'
  {
    if rut == "" then None else Some(ToUpper(KeepChars(rut, IsRutChar)))
  }

  /** The cleaning works character by character: cleaning a concatenation cleans each part. */
  lemma LimpiarRutAppend(a: string, b: string)
    requires a != "" && b != ""
    ensures LimpiarRut(a + b) == Some(LimpiarRut(a).value + LimpiarRut(b).value)
  {
    KeepCharsAppend(a, b, IsRutChar);
    var ka, kb := KeepChars(a, IsRutChar), KeepChars(b, IsRutChar);
    assert ToUpper(ka + kb) == ToUpper(ka) + ToUpper(kb);
  }

  /** A single character survives, upper-cased, exactly when it is a digit, `k` or `K`. */
  lemma LimpiarRutChar(c: char)
    ensures LimpiarRut([c]) == Some(if IsRutChar(c) then [UpperChar(c)] else "")
  {
    assert [c][1..] == "";
    var kept := KeepChars([c], IsRutChar);
    assert kept == if IsRutChar(c) then [c] else "";
    if IsRutChar(c) {
      assert ToUpper(kept) == [UpperChar(c)];
    } else {
      assert ToUpper(kept) == "";
    }
  }

  /** A cleaned, non-empty RUT is a fixed point of the cleaning. */
  lemma LimpiarRutIdempotent(rut: string)
    requires LimpiarRut(rut).Some? && LimpiarRut(rut).value != ""
    ensures LimpiarRut(LimpiarRut(rut).value) == LimpiarRut(rut)
  {
    var c := LimpiarRut(rut).value;
    assert forall k :: 0 <= k < |c| ==> IsRutChar(c[k]) && UpperChar(c[k]) == c[k];
    KeepCharsAll(c, IsRutChar);
    assert ToUpper(c) == c;
  }

  /** A RUT with no digit and no `k` is truthy but cleans to `''`, which the SQL then stores. */
  lemma LimpiarRutMayBeEmpty(rut: string)
    requires rut != "" && forall k :: 0 <= k < |rut| ==> !IsRutChar(rut[k])
    ensures LimpiarRut(rut) == Some("")
  {
    NothingKept(rut);
  }

  lemma {:induction false} NothingKept(s: string)
    requires forall k :: 0 <= k < |s| ==> !IsRutChar(s[k])
    ensures KeepChars(s, IsRutChar) == ""
  {
    if |s| > 0 {
      NothingKept(s[1..]);
    }
  }

  /** Neither `.` nor `-`. */
  predicate NoEsSeparador(c: char) {
    c != '.' && c != '-'
  }

  /** `rut.replace(/\./g, '').replace(/-/g, '')` (src/server/index.ts and `formatearRut`). */
  function QuitarSeparadores(rut: string): (r: string)
    ensures '.' !in r && '-' !in r
  {
    QuitarSeparadoresKeepsRest(rut);
    RemoveChar(RemoveChar(rut, '.'), '-')
  }

  /** The two replacements remove every `.` and `-` and keep every other character, in order. */
  lemma {:induction false} QuitarSeparadoresKeepsRest(s: string)
    ensures RemoveChar(RemoveChar(s, '.'), '-') == KeepChars(s, NoEsSeparador)
  {
    if |s| > 0 {
      QuitarSeparadoresKeepsRest(s[1..]);
      var head := if s[0] == '.' then "" else [s[0]];
      assert RemoveChar(s, '.') == head + RemoveChar(s[1..], '.');
      RemoveCharAppend(head, RemoveChar(s[1..], '.'), '-');
      if head != "" {
        assert head[1..] == "";
      }
    }
  }

  // ----- formatearRut -----

  /** `[A-Za-z0-9_]`, the characters `\b` and `\B` treat as word characters. */
  predicate EsCaracterPalabra(c: char) {
    'a' <= c <= 'z' || 'A' <= c <= 'Z' || IsDigit(c) || c == '_'
  }

  /** Index `i` holds a word character; outside the string there is none. */
  predicate PalabraEn(s: string, i: int) {
    0 <= i < |s| && EsCaracterPalabra(s[i])
  }

  /** `\B` at position `i`: both sides are word characters, or neither is. */
  predicate NoEsLimite(s: string, i: nat) {
    PalabraEn(s, i - 1) == PalabraEn(s, i)
  }

  predicate TodoDigitos(s: string) {
    forall k :: 0 <= k < |s| ==> IsDigit(s[k])
  }

  /** `(?=(\d{3})+(?!\d))` at position `i`: some positive multiple of three digits, then no digit. */
  predicate GruposDeTres(s: string, i: nat)
    requires i <= |s|
  {
    exists k | 1 <= k <= (|s| - i) / 3 ::
      TodoDigitos(s[i..i + 3 * k]) && (i + 3 * k == |s| || !IsDigit(s[i + 3 * k]))
  }

  /** The length of the run of digits that starts at `i`. */
  function CorridaDigitos(s: string, i: nat): (n: nat)
    requires i <= |s|
    ensures i + n <= |s|
    ensures forall k :: i <= k < i + n ==> IsDigit(s[k])
    ensures i + n == |s| || !IsDigit(s[i + n])
    decreases |s| - i
  {
    if i == |s| || !IsDigit(s[i]) then 0 else 1 + CorridaDigitos(s, i + 1)
  }

  /** Where the global replace inserts a `.`: no word boundary, and a positive multiple of three digits follows. */
  predicate PuntoAntes(s: string, i: nat)
    requires i <= |s|
  {
    NoEsLimite(s, i) && CorridaDigitos(s, i) > 0 && CorridaDigitos(s, i) % 3 == 0
  }

  /** The lookahead `(?=(\d{3})+(?!\d))` holds exactly where the digit run is a positive multiple of three. */
  lemma GruposDeTresCorrida(s: string, i: nat)
    requires i <= |s|
    ensures GruposDeTres(s, i) <==> CorridaDigitos(s, i) > 0 && CorridaDigitos(s, i) % 3 == 0
  {
    var n := CorridaDigitos(s, i);
    if GruposDeTres(s, i) {
      var k :| 1 <= k <= (|s| - i) / 3
        && TodoDigitos(s[i..i + 3 * k]) && (i + 3 * k == |s| || !IsDigit(s[i + 3 * k]));
      CorridaDeGrupos(s, i, k);
    }
    if n > 0 && n % 3 == 0 {
      GruposDeCorrida(s, i);
    }
  }

  /** A digit run of positive length `3 * k` at `i` satisfies the lookahead with that `k`. */
  lemma GruposDeCorrida(s: string, i: nat)
    requires i <= |s| && CorridaDigitos(s, i) > 0 && CorridaDigitos(s, i) % 3 == 0
    ensures GruposDeTres(s, i)
  {
    var k := CorridaDigitos(s, i) / 3;
    assert TodoDigitos(s[i..i + 3 * k]);
  }

  /** A run of `3 * k` digits ended by a non-digit or the end is the whole digit run at `i`. */
  lemma CorridaDeGrupos(s: string, i: nat, k: nat)
    requires i + 3 * k <= |s|
    requires TodoDigitos(s[i..i + 3 * k]) && (i + 3 * k == |s| || !IsDigit(s[i + 3 * k]))
    ensures CorridaDigitos(s, i) == 3 * k
  {
    forall j | i <= j < i + 3 * k ensures IsDigit(s[j]) {
      assert s[j] == s[i..i + 3 * k][j - i];
    }
  }

  /** `PuntoAntes` is the empty match of `\B(?=(\d{3})+(?!\d))` at position `i`. */
  lemma PuntoAntesEsRegex(s: string, i: nat)
    requires i <= |s|
    ensures PuntoAntes(s, i) <==> NoEsLimite(s, i) && GruposDeTres(s, i)
  {
    GruposDeTresCorrida(s, i);
  }

  /** `s[..j].replace(/\B(?=(\d{3})+(?!\d))/g, '.')`, the lookahead seeing all of `s`. */
  function Puntear(s: string, j: nat): string
    requires j <= |s|
  {
    if j == 0 then ""
    else Puntear(s, j - 1) + (if PuntoAntes(s, j - 1) then "." else "") + [s[j - 1]]
  }

  /** `rutLimpio.slice(0, -1)`. */
  function Cuerpo(limpio: string): string {
    if |limpio| == 0 then "" else limpio[..|limpio| - 1]
  }

  /** `rutLimpio.slice(-1)`. */
  function DigitoVerificador(limpio: string): (dv: string)
    ensures |dv| <= 1
  {
    if |limpio| == 0 then "" else limpio[|limpio| - 1..]
  }

  /** `formatearRut`: a falsy RUT is `''`; otherwise the dotted body, `-`, and the check digit. */
  function FormatearRut(rut: string): (r: string)
    ensures rut == "" <==> r == ""
    ensures rut != "" ==>
      var dv := DigitoVerificador(QuitarSeparadores(rut));
      |r| > |dv| && r[|r| - |dv| - 1..] == "-" + dv
  {
    if rut == "" then ""
    else
      var limpio := QuitarSeparadores(rut);
      var numero := Cuerpo(limpio);
      Puntear(numero, |numero|) + "-" + DigitoVerificador(limpio)
  }

  /** Every character of the punctuated text is a `.` or a character of the input. */
  lemma {:induction false} PuntearChars(s: string, j: nat)
    requires j <= |s|
    ensures forall k :: 0 <= k < |Puntear(s, j)| ==> Puntear(s, j)[k] == '.' || Puntear(s, j)[k] in s
  {
    if j > 0 {
      PuntearChars(s, j - 1);
    }
  }

  /** Removing the separators from the punctuated text gives back the input without separators. */
  lemma {:induction false} PuntearQuitar(s: string, j: nat)
    requires j <= |s|
    ensures KeepChars(Puntear(s, j), NoEsSeparador) == KeepChars(s[..j], NoEsSeparador)
  {
    if j > 0 {
      PuntearQuitar(s, j - 1);
      PuntearPaso(s, j - 1);
      QuitarPaso(Puntear(s, j - 1), if PuntoAntes(s, j - 1) then "." else "", s[j - 1]);
      assert s[..j] == s[..j - 1] + [s[j - 1]];
      KeepCharsAppend(s[..j - 1], [s[j - 1]], NoEsSeparador);
    }
  }

  /** Removing the separators from one step of `Puntear` drops the optional dot. */
  lemma QuitarPaso(p: string, dot: string, c: char)
    requires dot == "" || dot == "."
    ensures KeepChars(p + dot + [c], NoEsSeparador) == KeepChars(p, NoEsSeparador) + KeepChars([c], NoEsSeparador)
  {
    KeepCharsAppend(p + dot, [c], NoEsSeparador);
    KeepCharsAppend(p, dot, NoEsSeparador);
    assert KeepChars(dot, NoEsSeparador) == "" by {
      if dot != "" {
        assert dot[1..] == "";
      }
    }
  }

  lemma CuerpoMasDigito(limpio: string)
    ensures Cuerpo(limpio) + DigitoVerificador(limpio) == limpio
  {
  }

  /** The output has exactly one `-`: the one before the check digit. */
  lemma FormatearRutUnGuion(rut: string)
    requires rut != ""
    ensures var r, dv := FormatearRut(rut), DigitoVerificador(QuitarSeparadores(rut));
            forall k :: 0 <= k < |r| ==> (r[k] == '-' <==> k == |r| - |dv| - 1)
  {
    var limpio := QuitarSeparadores(rut);
    var numero := Cuerpo(limpio);
    var dv := DigitoVerificador(limpio);
    var p := Puntear(numero, |numero|);
    PuntearChars(numero, |numero|);
    assert '-' !in numero by {
      CuerpoMasDigito(limpio);
      assert forall k :: 0 <= k < |numero| ==> numero[k] == limpio[k];
    }
    assert '-' !in p;
    assert '-' !in dv by {
      CuerpoMasDigito(limpio);
    }
    var r := FormatearRut(rut);
    assert r == p + "-" + dv;
    forall k | 0 <= k < |r|
      ensures r[k] == '-' <==> k == |r| - |dv| - 1
    {
      if k < |p| {
        assert r[k] == p[k];
      } else if k > |p| {
        assert r[k] == dv[k - |p| - 1];
      }
    }
  }

  /** Removing the separators around a `-` and a separator-free tail keeps the tail. */
  lemma QuitarConGuion(p: string, dv: string)
    requires '.' !in dv && '-' !in dv
    ensures KeepChars(p + "-" + dv, NoEsSeparador) == KeepChars(p, NoEsSeparador) + dv
  {
    var t := "-" + dv;
    assert p + "-" + dv == p + t;
    KeepCharsAppend(p, t, NoEsSeparador);
    assert KeepChars(t, NoEsSeparador) == KeepChars(dv, NoEsSeparador) by {
      assert t[0] == '-' && t[1..] == dv;
    }
    SinSeparadores(dv);
  }

  /** Removing the separators from the output of `FormatearRut` leaves the body and the check digit. */
  lemma QuitarDeFormato(numero: string, dv: string)
    requires '.' !in numero && '-' !in numero && '.' !in dv && '-' !in dv
    ensures KeepChars(Puntear(numero, |numero|) + "-" + dv, NoEsSeparador) == numero + dv
  {
    PuntearQuitar(numero, |numero|);
    assert numero[..|numero|] == numero;
    SinSeparadores(numero);
    QuitarSeparadoresYGuion(Puntear(numero, |numero|), numero, dv);
  }

  /** A text without `.` or `-` loses nothing when the separators are removed. */
  lemma SinSeparadores(s: string)
    requires '.' !in s && '-' !in s
    ensures KeepChars(s, NoEsSeparador) == s
  {
    assert forall k :: 0 <= k < |s| ==> NoEsSeparador(s[k]);
    KeepCharsAll(s, NoEsSeparador);
  }

  /** A text whose separators hide `numero`, then `-` and a check digit without separators. */
  lemma QuitarSeparadoresYGuion(p: string, numero: string, dv: string)
    requires KeepChars(p, NoEsSeparador) == numero
    requires '.' !in dv && '-' !in dv
    ensures KeepChars(p + "-" + dv, NoEsSeparador) == numero + dv
  {
    QuitarConGuion(p, dv);
  }

  /** Formatting only inserts separators: removing them again gives the cleaned input. */
  lemma FormatearRutSoloSeparadores(rut: string)
    requires rut != ""
    ensures QuitarSeparadores(FormatearRut(rut)) == QuitarSeparadores(rut)
  {
    var limpio := QuitarSeparadores(rut);
    var numero := Cuerpo(limpio);
    var dv := DigitoVerificador(limpio);
    CuerpoMasDigito(limpio);
    assert '.' !in numero && '-' !in numero && '.' !in dv && '-' !in dv by {
      assert forall k :: 0 <= k < |numero| ==> numero[k] == limpio[k];
      assert forall k :: 0 <= k < |dv| ==> dv[k] == limpio[|numero| + k];
    }
    QuitarDeFormato(numero, dv);
    QuitarSeparadoresKeepsRest(FormatearRut(rut));
  }

  /** `formatearRut(formatearRut(x)) == formatearRut(x)`. */
  lemma FormatearRutIdempotente(rut: string)
    ensures FormatearRut(FormatearRut(rut)) == FormatearRut(rut)
  {
    if rut != "" {
      FormatearRutSoloSeparadores(rut);
    }
  }

  // ----- Digit grouping -----

  /** Groups of three digits from the right, separated by dots, with a leading group of one to three. */
  function AgruparDerecha(s: string): (r: string)
    ensures |s| > 0 ==> |r| > 0 && r[0] == s[0]
    decreases |s|
  {
    if |s| <= 3 then s else AgruparDerecha(s[..|s| - 3]) + "." + s[|s| - 3..]
  }

  /** On an all-digit text a dot goes before position `i` exactly when `0 < i` and a multiple of three digits follow. */
  lemma PuntoAntesDigitos(s: string, i: nat)
    requires TodoDigitos(s) && i <= |s|
    ensures PuntoAntes(s, i) <==> 0 < i < |s| && (|s| - i) % 3 == 0
  {
    assert CorridaDigitos(s, i) == |s| - i;
  }

  /** `Puntear` depends only on the characters before `j` and the dot decisions there. */
  lemma {:induction false} PuntearCongruente(s: string, t: string, j: nat)
    requires j <= |s| && j <= |t| && s[..j] == t[..j]
    requires forall i :: 0 <= i < j ==> PuntoAntes(s, i) == PuntoAntes(t, i)
    ensures Puntear(s, j) == Puntear(t, j)
  {
    if j > 0 {
      assert s[..j - 1] == t[..j - 1] && s[j - 1] == t[j - 1] by {
        assert s[..j - 1] == s[..j][..j - 1];
        assert t[..j - 1] == t[..j][..j - 1];
        assert s[j - 1] == s[..j][j - 1];
      }
      PuntearCongruente(s, t, j - 1);
    }
  }

  /** Without dot decisions below `j`, `Puntear` copies the prefix. */
  lemma {:induction false} PuntearSinPuntos(s: string, j: nat)
    requires j <= |s|
    requires forall i :: 0 <= i < j ==> !PuntoAntes(s, i)
    ensures Puntear(s, j) == s[..j]
  {
    if j > 0 {
      PuntearSinPuntos(s, j - 1);
      assert s[..j] == s[..j - 1] + [s[j - 1]];
    }
  }

  /** The last three positions of an all-digit text longer than three: one dot, before the last group. */
  lemma PuntearUltimosTres(s: string)
    requires TodoDigitos(s) && |s| > 3
    ensures Puntear(s, |s|) == Puntear(s, |s| - 3) + "." + s[|s| - 3..]
  {
    var n := |s|;
    PuntosUltimosTres(s);
    PuntearPaso(s, n - 3);
    PuntearPaso(s, n - 2);
    PuntearPaso(s, n - 1);
    TresPasos(Puntear(s, n - 3), Puntear(s, n - 2), Puntear(s, n - 1), Puntear(s, n), s[n - 3], s[n - 2], s[n - 1]);
    assert s[n - 3..] == [s[n - 3], s[n - 2], s[n - 1]];
  }

  /** A dot and a character, then two more characters, append the dot and the three characters. */
  lemma TresPasos(p0: string, p1: string, p2: string, p3: string, a: char, b: char, c: char)
    requires p1 == p0 + "." + [a] && p2 == p1 + [b] && p3 == p2 + [c]
    ensures p3 == p0 + "." + [a, b, c]
  {
  }

  /** One step of `Puntear`: the dot decision at `j`, then the character. */
  lemma PuntearPaso(s: string, j: nat)
    requires j < |s|
    ensures Puntear(s, j + 1) == Puntear(s, j) + (if PuntoAntes(s, j) then "." else "") + [s[j]]
  {
  }

  /** In an all-digit text longer than three, a dot goes before the last group of three and not inside it. */
  lemma PuntosUltimosTres(s: string)
    requires TodoDigitos(s) && |s| > 3
    ensures PuntoAntes(s, |s| - 3) && !PuntoAntes(s, |s| - 2) && !PuntoAntes(s, |s| - 1)
  {
    PuntoAntesDigitos(s, |s| - 3);
    PuntoAntesDigitos(s, |s| - 2);
    PuntoAntesDigitos(s, |s| - 1);
  }

  /** Dropping the last group of three digits keeps every earlier dot decision. */
  lemma PuntoAntesPrefijo(s: string, i: nat)
    requires TodoDigitos(s) && |s| > 3 && i < |s| - 3
    ensures PuntoAntes(s, i) == PuntoAntes(s[..|s| - 3], i)
  {
    var t := s[..|s| - 3];
    assert TodoDigitos(t);
    PuntoAntesDigitos(s, i);
    PuntoAntesDigitos(t, i);
  }

  /** For an all-digit body the regex replace is the right-to-left grouping by three. */
  lemma {:induction false} PuntearDigitos(s: string)
    requires TodoDigitos(s)
    ensures Puntear(s, |s|) == AgruparDerecha(s)
    decreases |s|
  {
    if |s| <= 3 {
      PuntearCorto(s);
    } else {
      var t := s[..|s| - 3];
      assert TodoDigitos(t);
      PuntearDigitos(t);
      PuntearLargo(s);
    }
  }

  /** Up to three digits get no dot. */
  lemma PuntearCorto(s: string)
    requires TodoDigitos(s) && |s| <= 3
    ensures Puntear(s, |s|) == s
  {
    forall i | 0 <= i < |s|
      ensures !PuntoAntes(s, i)
    {
      PuntoAntesDigitos(s, i);
    }
    PuntearSinPuntos(s, |s|);
    assert s[..|s|] == s;
  }

  /** Past three digits, the text without its last group is grouped first, then `.` and the last group. */
  lemma PuntearLargo(s: string)
    requires TodoDigitos(s) && |s| > 3
    requires Puntear(s[..|s| - 3], |s| - 3) == AgruparDerecha(s[..|s| - 3])
    ensures Puntear(s, |s|) == AgruparDerecha(s)
  {
    PuntearPrefijo(s);
    PuntearUltimosTres(s);
  }

  /** Up to the last group of three, an all-digit text is punctuated as if that group were absent. */
  lemma PuntearPrefijo(s: string)
    requires TodoDigitos(s) && |s| > 3
    ensures Puntear(s, |s| - 3) == Puntear(s[..|s| - 3], |s| - 3)
  {
    var n := |s|;
    var t := s[..n - 3];
    forall i | 0 <= i < n - 3
      ensures PuntoAntes(s, i) == PuntoAntes(t, i)
    {
      PuntoAntesPrefijo(s, i);
    }
    assert s[..n - 3] == t[..n - 3];
    PuntearCongruente(s, t, n - 3);
  }

  /** For an all-digit RUT the display is the body grouped by three from the right, `-`, and the check digit. */
  lemma FormatearRutDigitos(rut: string)
    requires rut != "" && TodoDigitos(rut)
    ensures FormatearRut(rut) == AgruparDerecha(rut[..|rut| - 1]) + "-" + [rut[|rut| - 1]]
  {
    assert '.' !in rut && '-' !in rut;
    RemoveCharAbsent(rut, '.');
    RemoveCharAbsent(rut, '-');
    assert QuitarSeparadores(rut) == rut;
    PuntearDigitos(rut[..|rut| - 1]);
  }
}
