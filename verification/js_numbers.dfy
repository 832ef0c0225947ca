/**
 * The JavaScript number conversions the case-id generator relies on: `parseInt`
 * without a radix, `String(n)` for integers, and `padStart`. NaN is `None`.
 */
module JsNumbers {
  import opened Wrappers
  import opened JsStrings

  /** The value of a digit in radix 16 or below: `0-9`, `a-f` and `A-F`. */
  function ValorDigito(c: char): (r: Option<nat>)
    ensures r.Some? ==> r.value < 16
    ensures '0' <= c <= '9' ==> r == Some(c as nat - '0' as nat)
  {
    if '0' <= c <= '9' then Some(c as nat - '0' as nat)
    else if 'a' <= c <= 'f' then Some(c as nat - 'a' as nat + 10)
    else if 'A' <= c <= 'F' then Some(c as nat - 'A' as nat + 10)
    else None
  }

  predicate EsDigitoEn(c: char, base: nat) {
    ValorDigito(c).Some? && ValorDigito(c).value < base
  }

  predicate TodoDigitosEn(s: string, base: nat) {
    forall i :: 0 <= i < |s| ==> EsDigitoEn(s[i], base)
  }

  /** The longest prefix of `s` made of digits of the base. */
  function PrefijoDigitos(s: string, base: nat): (r: string)
    ensures r <= s && TodoDigitosEn(r, base)
    ensures |r| < |s| ==> !EsDigitoEn(s[|r|], base)
  {
    if |s| == 0 || !EsDigitoEn(s[0], base) then ""
    else [s[0]] + PrefijoDigitos(s[1..], base)
  }

  /** The number a digit string denotes in a base. */
  function Valor(s: string, base: nat): nat
    requires TodoDigitosEn(s, base)
  {
    if |s| == 0 then 0
    else Valor(s[..|s| - 1], base) * base + ValorDigito(s[|s| - 1]).value
  }

  function Potencia(b: nat, e: nat): nat {
    if e == 0 then 1 else b * Potencia(b, e - 1)
  }

  /** `parseInt(s)`: leading whitespace, an optional sign, `0x` for hexadecimal, then the longest run of digits. */
  function ParseInt(s: string): (r: Option<int>)
    ensures r.Some? ==> exists i | 0 <= i < |s| :: EsDigitoEn(s[i], 16)
  {
    var t := TrimStart(s);
    var negativo := |t| > 0 && t[0] == '-';
    var u := if |t| > 0 && (t[0] == '-' || t[0] == '+') then t[1..] else t;
    var hex := |u| >= 2 && u[0] == '0' && (u[1] == 'x' || u[1] == 'X');
    var base := if hex then 16 else 10;
    var v := if hex then u[2..] else u;
    var z := PrefijoDigitos(v, base);
    if z == "" then None
    else
      assert z[0] == v[0] && EsDigitoEn(v[0], 16);
      assert v[0] in s by {
        assert v == t[|t| - |v|..] && t == s[|s| - |t|..];
        assert v[0] == s[|s| - |v|];
      }
      Some(if negativo then -(Valor(z, base) as int) else Valor(z, base))
  }

  /** `parseInt("NaN")` is NaN: no digit follows. */
  lemma ParseIntNaN()
    ensures ParseInt("NaN") == None
  {
    var s := "NaN";
    assert s[0] == 'N';
    ParseIntSinDigitos(s);
  }

  /** A text that starts with neither whitespace, a sign nor a digit has no number: `parseInt` gives NaN. */
  lemma ParseIntSinDigitos(s: string)
    requires |s| > 0 && !IsWhitespace(s[0]) && s[0] != '-' && s[0] != '+' && !('0' <= s[0] <= '9')
    ensures ParseInt(s) == None
  {
    assert TrimStart(s) == s;
    assert !EsDigitoEn(s[0], 10);
    assert PrefijoDigitos(s, 10) == "";
  }

  function Digito(d: nat): char
    requires d < 10
  {
    ('0' as int + d) as char
  }

  /** `String(n)` for a non-negative integer: its decimal digits, no leading zero. */
  function NatToString(n: nat): (r: string)
    ensures |r| > 0 && TodoDigitosEn(r, 10)
    ensures |r| > 1 ==> r[0] != '0'
    decreases n
  {
    if n < 10 then [Digito(n)] else NatToString(n / 10) + [Digito(n % 10)]
  }

  /** `String(n)` for an integer. */
  function IntToString(n: int): string {
    if n < 0 then "-" + NatToString(-n) else NatToString(n)
  }

  function Repetir(c: char, n: nat): (r: string)
    ensures |r| == n && forall i :: 0 <= i < n ==> r[i] == c
  {
    if n == 0 then "" else [c] + Repetir(c, n - 1)
  }

  /** `s.padStart(n, c)`: pads on the left up to length `n`, and never cuts. */
  function PadStart(s: string, n: nat, c: char): (r: string)
    ensures |r| == if |s| >= n then |s| else n
    ensures r[|r| - |s|..] == s
    ensures forall i :: 0 <= i < |r| - |s| ==> r[i] == c
  {
    if |s| >= n then s else Repetir(c, n - |s|) + s
  }

  lemma Reagrupar(x: int, p: int, y: int, b: int, d: int)
    ensures (x * p + y) * b + d == x * (b * p) + (y * b + d)
  {
  }

  /** Reading digits is positional: the value of `a + b` is `a` shifted by `|b|` places plus `b`. */
  lemma {:induction false} ValorConcat(a: string, b: string, base: nat)
    requires TodoDigitosEn(a, base) && TodoDigitosEn(b, base)
    ensures TodoDigitosEn(a + b, base)
    ensures Valor(a + b, base) == Valor(a, base) * Potencia(base, |b|) + Valor(b, base)
  {
    if |b| > 0 {
      var b' := b[..|b| - 1];
      var d := ValorDigito(b[|b| - 1]).value;
      assert (a + b)[..|a + b| - 1] == a + b';
      assert (a + b)[|a + b| - 1] == b[|b| - 1];
      ValorConcat(a, b', base);
      var va, p, vb := Valor(a, base), Potencia(base, |b'|), Valor(b', base);
      assert Valor(a + b, base) == Valor(a + b', base) * base + d;
      assert Valor(a + b', base) == va * p + vb;
      assert Valor(b, base) == vb * base + d;
      assert Potencia(base, |b|) == base * p;
      Reagrupar(va, p, vb, base, d);
    } else {
      assert a + b == a;
    }
  }

  /** Leading zeros add nothing. */
  lemma {:induction false} ValorCeros(n: nat, base: nat)
    requires base > 0
    ensures TodoDigitosEn(Repetir('0', n), base)
    ensures Valor(Repetir('0', n), base) == 0
  {
    if n > 0 {
      var z := Repetir('0', n);
      assert z[..n - 1] == Repetir('0', n - 1);
      ValorCeros(n - 1, base);
    }
  }

  /** Reading back the decimal digits of `n` gives `n`. */
  lemma {:induction false} ValorNatToString(n: nat)
    ensures Valor(NatToString(n), 10) == n
    decreases n
  {
    if n >= 10 {
      var s := NatToString(n);
      assert s[..|s| - 1] == NatToString(n / 10);
      ValorNatToString(n / 10);
    }
  }

  /** `parseInt` of a string of decimal digits (no `0x` prefix) is its value. */
  lemma ParseIntDigitos(s: string)
    requires |s| > 0 && TodoDigitosEn(s, 10)
    requires !(|s| >= 2 && s[0] == '0' && (s[1] == 'x' || s[1] == 'X'))
    ensures ParseInt(s) == Some(Valor(s, 10))
  {
    DigitoNoSigno(s[0]);
    ParseIntDecimal(s);
    PrefijoDigitosTodo(s, 10);
  }

  lemma DigitoNoSigno(c: char)
    requires EsDigitoEn(c, 10)
    ensures !IsWhitespace(c) && c != '-' && c != '+'
  {
  }

  /** Without leading whitespace, sign or `0x`, `parseInt` reads the leading decimal digits. */
  lemma ParseIntDecimal(s: string)
    requires |s| > 0 && !IsWhitespace(s[0]) && s[0] != '-' && s[0] != '+'
    requires !(|s| >= 2 && s[0] == '0' && (s[1] == 'x' || s[1] == 'X'))
    ensures var z := PrefijoDigitos(s, 10);
      ParseInt(s) == if z == "" then None else Some(Valor(z, 10))
  {
    assert TrimStart(s) == s;
  }

  lemma {:induction false} PrefijoDigitosTodo(s: string, base: nat)
    requires TodoDigitosEn(s, base)
    ensures PrefijoDigitos(s, base) == s
  {
    if |s| > 0 {
      PrefijoDigitosTodo(s[1..], base);
    }
  }

  /** Leading zeros before a string of decimal digits do not change what `parseInt` reads. */
  lemma ParseIntCeros(ceros: nat, d: string)
    requires |d| > 0 && TodoDigitosEn(d, 10)
    ensures ParseInt(Repetir('0', ceros) + d) == Some(Valor(d, 10))
  {
    var p := Repetir('0', ceros) + d;
    CerosDigitos(ceros, d);
    ParseIntDigitos(p);
  }

  /** Zeros followed by decimal digits are decimal digits with the same value, and no `0x` prefix. */
  lemma CerosDigitos(ceros: nat, d: string)
    requires |d| > 0 && TodoDigitosEn(d, 10)
    ensures var p := Repetir('0', ceros) + d;
      && |p| > 0 && TodoDigitosEn(p, 10) && Valor(p, 10) == Valor(d, 10)
      && !(|p| >= 2 && p[0] == '0' && (p[1] == 'x' || p[1] == 'X'))
  {
    var p := Repetir('0', ceros) + d;
    ValorCeros(ceros, 10);
    ValorConcat(Repetir('0', ceros), d, 10);
    if |p| >= 2 {
      assert EsDigitoEn(p[1], 10);
      assert !EsDigitoEn('x', 10) && !EsDigitoEn('X', 10);
    }
  }

  /** Zero-padding a decimal number and parsing it back gives the number: the padding never truncates. */
  lemma ParseIntPadStart(n: nat, ancho: nat)
    ensures ParseInt(PadStart(NatToString(n), ancho, '0')) == Some(n)
  {
    var d := NatToString(n);
    var ceros := if |d| >= ancho then 0 else ancho - |d|;
    assert PadStart(d, ancho, '0') == Repetir('0', ceros) + d;
    ParseIntCeros(ceros, d);
    ValorNatToString(n);
  }
}
