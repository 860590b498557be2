/**
 * The parts of java.lang.String and java.lang.Integer that the catalogue's
 * rules rely on: ASCII case mapping (toLowerCase, toUpperCase,
 * equalsIgnoreCase), trim, substring search, Integer.parseInt,
 * Integer.toString, String.hashCode and the lexicographic order of strings.
 */
module Texto {
  import opened Comum

  const MIN_INT: int := -0x8000_0000
  const MAX_INT: int := 0x7FFF_FFFF
  const DOIS_32: int := 0x1_0000_0000

  // ---------------------------------------------------------------------
  // Case mapping (ASCII letters only)
  // ---------------------------------------------------------------------

  function Minuscula(c: char): char {
    if 'A' <= c <= 'Z' then (c as int + 32) as char else c
  }

  function Maiuscula(c: char): char {
    if 'a' <= c <= 'z' then (c as int - 32) as char else c
  }

  /** String.toLowerCase */
  function ParaMinusculas(s: string): (r: string)
    ensures |r| == |s|
  {
    seq(|s|, i requires 0 <= i < |s| => Minuscula(s[i]))
  }

  /** String.toUpperCase */
  function ParaMaiusculas(s: string): (r: string)
    ensures |r| == |s|
  {
    seq(|s|, i requires 0 <= i < |s| => Maiuscula(s[i]))
  }

  /** The per-character test of String.equalsIgnoreCase (regionMatches). */
  predicate CaracteresIguaisIgnorandoCaixa(c1: char, c2: char) {
    c1 == c2
    || Maiuscula(c1) == Maiuscula(c2)
    || Minuscula(Maiuscula(c1)) == Minuscula(Maiuscula(c2))
  }

  /** String.equalsIgnoreCase on non-null strings. */
  predicate IgualIgnorandoCaixa(a: string, b: string) {
    |a| == |b| && forall i :: 0 <= i < |a| ==> CaracteresIguaisIgnorandoCaixa(a[i], b[i])
  }

  /** equalsIgnoreCase holds exactly when both strings lower-case to the same string. */
  lemma IgualIgnorandoCaixaSse(a: string, b: string)
    ensures IgualIgnorandoCaixa(a, b) <==> ParaMinusculas(a) == ParaMinusculas(b)
  {
    if ParaMinusculas(a) == ParaMinusculas(b) {
      forall i | 0 <= i < |a|
        ensures CaracteresIguaisIgnorandoCaixa(a[i], b[i])
      {
        assert ParaMinusculas(a)[i] == ParaMinusculas(b)[i];
      }
    }
  }

  lemma IgualIgnorandoCaixaReflexiva(a: string)
    ensures IgualIgnorandoCaixa(a, a)
  {
  }

  lemma IgualIgnorandoCaixaSimetrica(a: string, b: string)
    requires IgualIgnorandoCaixa(a, b)
    ensures IgualIgnorandoCaixa(b, a)
  {
    IgualIgnorandoCaixaSse(a, b);
    IgualIgnorandoCaixaSse(b, a);
  }

  lemma IgualIgnorandoCaixaTransitiva(a: string, b: string, c: string)
    requires IgualIgnorandoCaixa(a, b) && IgualIgnorandoCaixa(b, c)
    ensures IgualIgnorandoCaixa(a, c)
  {
    IgualIgnorandoCaixaSse(a, b);
    IgualIgnorandoCaixaSse(b, c);
    IgualIgnorandoCaixaSse(a, c);
  }

  /** Lower-casing twice is lower-casing once. */
  lemma ParaMinusculasIdempotente(s: string)
    ensures ParaMinusculas(ParaMinusculas(s)) == ParaMinusculas(s)
  {
  }

  /** Strings that agree ignoring case also agree once upper-cased. */
  lemma MaiusculasIguaisSeIgualIgnorandoCaixa(a: string, b: string)
    requires IgualIgnorandoCaixa(a, b)
    ensures ParaMaiusculas(a) == ParaMaiusculas(b)
  {
    forall i | 0 <= i < |a|
      ensures ParaMaiusculas(a)[i] == ParaMaiusculas(b)[i]
    {
      assert CaracteresIguaisIgnorandoCaixa(a[i], b[i]);
    }
  }

  /** A string and its lower-cased form are equal ignoring case. */
  lemma IgualIgnorandoCaixaMinusculas(s: string)
    ensures IgualIgnorandoCaixa(s, ParaMinusculas(s))
  {
    IgualIgnorandoCaixaSse(s, ParaMinusculas(s));
    ParaMinusculasIdempotente(s);
  }

  // ---------------------------------------------------------------------
  // String.trim: drops leading and trailing characters up to U+0020
  // ---------------------------------------------------------------------

  predicate Invisivel(c: char) {
    c <= ' '
  }

  /** Index of the first character above U+0020, or |s| when there is none. */
  function InicioVisivel(s: string): (k: nat)
    ensures k <= |s|
    ensures forall i :: 0 <= i < k ==> Invisivel(s[i])
    ensures k < |s| ==> !Invisivel(s[k])
  {
    if s == [] || !Invisivel(s[0]) then 0 else 1 + InicioVisivel(s[1..])
  }

  /** One past the index of the last character above U+0020, or 0 when there is none. */
  function FimVisivel(s: string): (k: nat)
    ensures k <= |s|
    ensures forall i :: k <= i < |s| ==> Invisivel(s[i])
    ensures k > 0 ==> !Invisivel(s[k - 1])
  {
    if s == [] || !Invisivel(s[|s| - 1]) then |s| else FimVisivel(s[..|s| - 1])
  }

  /**
   * String.trim: the characters from the first one above U+0020 through
   * the last one, in order; nothing when there is none.
   */
  function Trim(s: string): (r: string)
    ensures |r| <= |s|
    ensures r == [] <==> forall i :: 0 <= i < |s| ==> Invisivel(s[i])
    ensures r != [] ==> !Invisivel(r[0]) && !Invisivel(r[|r| - 1])
    ensures r != [] ==> InicioVisivel(s) + |r| <= |s| && r == s[InicioVisivel(s)..InicioVisivel(s) + |r|]
    ensures forall k :: InicioVisivel(s) + |r| <= k < |s| ==> Invisivel(s[k])
  {
    var i := InicioVisivel(s);
    var j := FimVisivel(s);
    if j <= i then [] else s[i..j]
  }

  /** A string whose ends are visible is its own trim. */
  lemma TrimSemBordas(s: string)
    requires s == [] || (!Invisivel(s[0]) && !Invisivel(s[|s| - 1]))
    ensures Trim(s) == s
  {
  }

  lemma TrimIdempotente(s: string)
    ensures Trim(Trim(s)) == Trim(s)
  {
    TrimSemBordas(Trim(s));
  }

  lemma InvisivelMinusculas(s: string)
    ensures forall k :: 0 <= k < |s| ==> (Invisivel(ParaMinusculas(s)[k]) <==> Invisivel(s[k]))
  {
  }

  lemma InicioFimVisivelMinusculas(s: string)
    ensures InicioVisivel(ParaMinusculas(s)) == InicioVisivel(s)
    ensures FimVisivel(ParaMinusculas(s)) == FimVisivel(s)
  {
    InvisivelMinusculas(s);
  }

  /** Lower-casing and trimming commute: case mapping never turns a visible character invisible. */
  lemma MinusculasDoTrim(s: string)
    ensures ParaMinusculas(Trim(s)) == Trim(ParaMinusculas(s))
  {
    InicioFimVisivelMinusculas(s);
    var i, j := InicioVisivel(s), FimVisivel(s);
    if i < j {
      MinusculasDaFatia(s, i, j);
    }
  }

  /** Lower-casing a slice is slicing the lower-cased string. */
  lemma MinusculasDaFatia(s: string, i: nat, j: nat)
    requires i <= j <= |s|
    ensures ParaMinusculas(s[i..j]) == ParaMinusculas(s)[i..j]
  {
  }

  // ---------------------------------------------------------------------
  // Substring search (String.contains, SQL LIKE '%x%')
  // ---------------------------------------------------------------------

  predicate ComecaCom(texto: string, prefixo: string) {
    |prefixo| <= |texto| && texto[..|prefixo|] == prefixo
  }

  predicate ContemTrecho(texto: string, trecho: string)
    decreases |texto|
  {
    ComecaCom(texto, trecho) || (texto != [] && ContemTrecho(texto[1..], trecho))
  }

  /** The search finds exactly the positions where the fragment occurs. */
  lemma {:induction false} ContemTrechoSse(texto: string, trecho: string)
    ensures ContemTrecho(texto, trecho) <==>
            exists i :: 0 <= i <= |texto| - |trecho| && ComecaCom(texto[i..], trecho)
    decreases |texto|
  {
    assert texto[0..] == texto;
    if texto != [] {
      ContemTrechoSse(texto[1..], trecho);
      if ContemTrecho(texto[1..], trecho) {
        var i :| 0 <= i <= |texto[1..]| - |trecho| && ComecaCom(texto[1..][i..], trecho);
        assert texto[1..][i..] == texto[i + 1..];
      }
      if exists i :: 0 <= i <= |texto| - |trecho| && ComecaCom(texto[i..], trecho) {
        var i :| 0 <= i <= |texto| - |trecho| && ComecaCom(texto[i..], trecho);
        if i > 0 {
          assert texto[1..][i - 1..] == texto[i..];
        }
      }
    } else {
      if exists i :: 0 <= i <= |texto| - |trecho| && ComecaCom(texto[i..], trecho) {
        var i :| 0 <= i <= |texto| - |trecho| && ComecaCom(texto[i..], trecho);
        assert i == 0;
      }
    }
  }

  // ---------------------------------------------------------------------
  // Integer.parseInt and Integer.toString (ASCII digits, 32-bit range)
  // ---------------------------------------------------------------------

  predicate EhDigito(c: char) {
    '0' <= c <= '9'
  }

  predicate SoDigitos(s: string) {
    forall i :: 0 <= i < |s| ==> EhDigito(s[i])
  }

  /** The value of a string of decimal digits, most significant first. */
  function ValorDigitos(ds: string): nat
    requires SoDigitos(ds)
  {
    if ds == [] then 0
    else ValorDigitos(ds[..|ds| - 1]) * 10 + (ds[|ds| - 1] as int - '0' as int)
  }

  predicate Sinal(c: char) {
    c == '-' || c == '+'
  }

  /** Text Integer.parseInt reads: a sign only in front, then one or more digits. */
  predicate TextoInteiro(s: string) {
    |s| > 0 && (Sinal(s[0]) ==> |s| > 1) && forall i :: 0 <= i < |s| ==> EhDigito(s[i]) || (i == 0 && Sinal(s[i]))
  }

  /** The value that text denotes, negated under a leading '-'. */
  function ValorTexto(s: string): int
    requires TextoInteiro(s)
  {
    if s[0] == '-' then -(ValorDigitos(s[1..]) as int)
    else if s[0] == '+' then ValorDigitos(s[1..])
    else ValorDigitos(s)
  }

  /**
   * Integer.parseInt: an optional '-' or '+', then one or more digits, with
   * a value in the 32-bit range; None stands for NumberFormatException.
   */
  function ParseInt(s: string): (r: Option<int>)
    ensures r.Some? <==> TextoInteiro(s) && MIN_INT <= ValorTexto(s) <= MAX_INT
    ensures r.Some? ==> r.value == ValorTexto(s)
  {
    if s == [] then None
    else
      var ds := if s[0] == '-' || s[0] == '+' then s[1..] else s;
      if ds == [] || !SoDigitos(ds) then None
      else
        var v: int := if s[0] == '-' then -(ValorDigitos(ds) as int) else ValorDigitos(ds);
        if MIN_INT <= v <= MAX_INT then Some(v) else None
  }

  /** A leading zero does not change the value of a digit string. */
  lemma {:induction false} ValorDigitosZeroAEsquerda(ds: string)
    requires SoDigitos(ds)
    ensures SoDigitos("0" + ds) && ValorDigitos("0" + ds) == ValorDigitos(ds)
  {
    var z := "0" + ds;
    if ds != [] {
      assert z[..|z| - 1] == "0" + ds[..|ds| - 1];
      ValorDigitosZeroAEsquerda(ds[..|ds| - 1]);
    }
  }

  /** Leading zeros and a '+' sign are accepted and change nothing: "007" and "+7" read as "7". */
  lemma ParseIntZerosEMais(ds: string)
    requires ds != [] && SoDigitos(ds)
    ensures ParseInt("0" + ds) == ParseInt(ds)
    ensures ParseInt("+" + ds) == ParseInt(ds)
  {
    ValorDigitosZeroAEsquerda(ds);
    assert ("+" + ds)[1..] == ds;
  }

  /** What Integer.parseInt accepts and rejects at the edges of its syntax. */
  lemma ParseIntFronteiras()
    ensures ParseInt("-0") == Some(0)
    ensures ParseInt("") == None && ParseInt("-") == None && ParseInt("+") == None
    ensures ParseInt("12a") == None && ParseInt(" 1") == None
  {
    assert "-0"[1..] == "0";
    assert !EhDigito("12a"[2]);
    assert !EhDigito(" 1"[0]);
  }

  /** The first five digits of one past the largest int. */
  lemma ValorDe21474()
    ensures SoDigitos("21474") && ValorDigitos("21474") == 21474
  {
    assert ValorDigitos("2") == 2;
    assert "21"[..1] == "2";
    assert ValorDigitos("21") == 21;
    assert "214"[..2] == "21";
    assert ValorDigitos("214") == 214;
    assert "2147"[..3] == "214";
    assert ValorDigitos("2147") == 2147;
    assert "21474"[..4] == "2147";
  }

  /** The digits of one past the largest int denote that number. */
  lemma ValorDe2147483648()
    ensures SoDigitos("2147483648") && ValorDigitos("2147483648") == 2147483648
  {
    ValorDe21474();
    assert "214748"[..5] == "21474";
    assert ValorDigitos("214748") == 214748;
    assert "2147483"[..6] == "214748";
    assert ValorDigitos("2147483") == 2147483;
    assert "21474836"[..7] == "2147483";
    assert ValorDigitos("21474836") == 21474836;
    assert "214748364"[..8] == "21474836";
    assert ValorDigitos("214748364") == 214748364;
    assert "2147483648"[..9] == "214748364";
  }

  /** One past the largest int is rejected. */
  lemma ParseIntTransbordo()
    ensures ParseInt("2147483648") == None
  {
    ValorDe2147483648();
  }

  function Digito(d: nat): (c: char)
    requires d < 10
    ensures EhDigito(c)
  {
    ('0' as int + d) as char
  }

  /** The decimal digits of n, without leading zeros. */
  function NatParaTexto(n: nat): (r: string)
    ensures r != [] && SoDigitos(r)
    ensures ValorDigitos(r) == n
    ensures |r| > 1 ==> r[0] != '0'
  {
    if n < 10 then [Digito(n)]
    else
      var prefixo := NatParaTexto(n / 10);
      var r := prefixo + [Digito(n % 10)];
      assert r[..|r| - 1] == prefixo;
      r
  }

  /** Integer.toString */
  function IntParaTexto(n: int): (r: string)
    ensures r != []
  {
    if n < 0 then "-" + NatParaTexto(-n) else NatParaTexto(n)
  }

  /** Integer.parseInt undoes Integer.toString on the whole 32-bit range. */
  lemma ParseIntDeIntParaTexto(n: int)
    requires MIN_INT <= n <= MAX_INT
    ensures ParseInt(IntParaTexto(n)) == Some(n)
  {
    var s := IntParaTexto(n);
    if n < 0 {
      assert s[1..] == NatParaTexto(-n);
    }
  }

  // ---------------------------------------------------------------------
  // String.hashCode: h = 31 * h + c over the characters, in 32-bit arithmetic
  // ---------------------------------------------------------------------

  function HashSemSinal(s: string): (h: nat)
    ensures h < DOIS_32
  {
    if s == [] then 0 else (31 * HashSemSinal(s[..|s| - 1]) + s[|s| - 1] as int) % DOIS_32
  }

  /** Reads the low 32 bits of an unsigned value as a two's-complement int. */
  function ComSinal32(u: nat): (r: int)
    requires u < DOIS_32
    ensures MIN_INT <= r <= MAX_INT
    ensures r % DOIS_32 == u
  {
    if u <= MAX_INT then u else u - DOIS_32
  }

  /** A value reduced to Java's int: the int congruent to it modulo 2^32. */
  function Int32(v: int): (r: int)
    ensures MIN_INT <= r <= MAX_INT
    ensures (r - v) % DOIS_32 == 0
    ensures MIN_INT <= v <= MAX_INT ==> r == v
  {
    ComSinal32(v % DOIS_32)
  }

  function HashString(s: string): (h: int)
    ensures MIN_INT <= h <= MAX_INT
  {
    ComSinal32(HashSemSinal(s))
  }

  // ---------------------------------------------------------------------
  // Lexicographic order of strings (String.compareTo <= 0)
  // ---------------------------------------------------------------------

  predicate MenorOuIgual(a: string, b: string) {
    if a == [] then true
    else if b == [] then false
    else if a[0] != b[0] then a[0] < b[0]
    else MenorOuIgual(a[1..], b[1..])
  }

  lemma {:induction false} MenorOuIgualReflexiva(a: string)
    ensures MenorOuIgual(a, a)
  {
    if a != [] {
      MenorOuIgualReflexiva(a[1..]);
    }
  }

  lemma {:induction false} MenorOuIgualTotal(a: string, b: string)
    ensures MenorOuIgual(a, b) || MenorOuIgual(b, a)
  {
    if a != [] && b != [] && a[0] == b[0] {
      MenorOuIgualTotal(a[1..], b[1..]);
    }
  }

  lemma {:induction false} MenorOuIgualTransitiva(a: string, b: string, c: string)
    requires MenorOuIgual(a, b) && MenorOuIgual(b, c)
    ensures MenorOuIgual(a, c)
  {
    if a != [] && b != [] && c != [] && a[0] == b[0] && b[0] == c[0] {
      MenorOuIgualTransitiva(a[1..], b[1..], c[1..]);
    }
  }

  lemma {:induction false} MenorOuIgualAntissimetrica(a: string, b: string)
    requires MenorOuIgual(a, b) && MenorOuIgual(b, a)
    ensures a == b
  {
    if a != [] && b != [] {
      MenorOuIgualAntissimetrica(a[1..], b[1..]);
      assert a == [a[0]] + a[1..];
      assert b == [b[0]] + b[1..];
    }
  }
}
