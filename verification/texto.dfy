/**
 Decimal spelling and reading of integers, as Python's `format(n, '0<width>d')`
 and `int(s)` do it. The report and export code build every time, date and
 duration string from these.
 */
module Texto {
  import opened Wrappers

  predicate EsDigito(c: char) {
    '0' <= c <= '9'
  }

  predicate SoloDigitos(s: string) {
    forall i :: 0 <= i < |s| ==> EsDigito(s[i])
  }

  function ValorDigito(c: char): (d: int)
    requires EsDigito(c)
    ensures 0 <= d < 10
  {
    c as int - '0' as int
  }

  function Digito(d: int): (c: char)
    requires 0 <= d < 10
    ensures EsDigito(c) && ValorDigito(c) == d
  {
    ('0' as int + d) as char
  }

  function Pot10(k: nat): (p: nat)
    ensures p >= 1
  {
    if k == 0 then 1 else 10 * Pot10(k - 1)
  }

  /** The shortest decimal spelling of `n`: what `str(n)` gives for `n >= 0`. */
  function Decimal(n: nat): (s: string)
    ensures |s| >= 1 && SoloDigitos(s)
    ensures |s| == 1 <==> n < 10
    decreases n
  {
    if n < 10 then [Digito(n)] else Decimal(n / 10) + [Digito(n % 10)]
  }

  /** `k` zero characters. */
  function Ceros(k: nat): (s: string)
    ensures |s| == k
  {
    seq(k, i => '0')
  }

  /** `s` left-padded with zeros to at least `ancho` characters. */
  function RellenarCeros(s: string, ancho: int): (r: string)
    ensures |r| == if |s| >= ancho then |s| else ancho
    ensures r[|r| - |s|..] == s
  {
    if |s| >= ancho then s else Ceros(ancho - |s|) + s
  }

  /**
   Python's `format(n, '0<ancho>d')`: a minus sign for negative `n`, then the
   digits of `|n|`, zero-padded so that sign and digits together take at
   least `ancho` characters.
   */
  function FormatoEntero(n: int, ancho: nat): (r: string)
    ensures |r| >= ancho && |r| >= 1
    ensures r[0] == '-' <==> n < 0
    ensures |r| == ancho || r == (if n < 0 then "-" + Decimal(-n) else Decimal(n))
  {
    if n < 0 then "-" + RellenarCeros(Decimal(-n), ancho - 1)
    else RellenarCeros(Decimal(n), ancho)
  }

  /** `int(s)` for an unsigned string of decimal digits; None for anything else. */
  function LeerNatural(s: string): Option<nat>
    decreases |s|
  {
    if |s| == 0 || !EsDigito(s[|s| - 1]) then None
    else if |s| == 1 then Some(ValorDigito(s[0]))
    else
      match LeerNatural(s[..|s| - 1])
      case None => None
      case Some(p) => Some(p * 10 + ValorDigito(s[|s| - 1]))
  }

  /** `int(s)` for an optionally minus-signed string of decimal digits. */
  function LeerEntero(s: string): Option<int> {
    if |s| > 0 && s[0] == '-' then
      match LeerNatural(s[1..])
      case None => None
      case Some(n) => Some(-(n as int))
    else
      match LeerNatural(s)
      case None => None
      case Some(n) => Some(n)
  }

  /** Reading back the decimal spelling of a number gives the number. */
  lemma {:induction false} LeerDecimal(n: nat)
    ensures LeerNatural(Decimal(n)) == Some(n)
    decreases n
  {
    if n >= 10 {
      var s := Decimal(n);
      assert s[..|s| - 1] == Decimal(n / 10);
      LeerDecimal(n / 10);
    }
  }

  lemma {:induction false} LeerCeros(k: nat)
    requires k >= 1
    ensures LeerNatural(Ceros(k)) == Some(0)
  {
    if k > 1 {
      assert Ceros(k)[..k - 1] == Ceros(k - 1);
      LeerCeros(k - 1);
    }
  }

  /** Leading zeros do not change the value read. */
  lemma {:induction false} LeerConCeros(k: nat, s: string)
    requires |s| > 0 && SoloDigitos(s)
    ensures LeerNatural(Ceros(k) + s) == LeerNatural(s)
    decreases |s|
  {
    var t := Ceros(k) + s;
    if k == 0 {
      assert t == s;
    } else if |s| == 1 {
      assert t[..|t| - 1] == Ceros(k);
      LeerCeros(k);
    } else {
      assert t[..|t| - 1] == Ceros(k) + s[..|s| - 1];
      LeerConCeros(k, s[..|s| - 1]);
    }
  }

  /** Reading back a zero-padded decimal spelling gives the number. */
  lemma LeerRelleno(m: nat, w: int)
    ensures LeerNatural(RellenarCeros(Decimal(m), w)) == Some(m)
  {
    var d := Decimal(m);
    LeerDecimal(m);
    if |d| < w {
      assert RellenarCeros(d, w) == Ceros(w - |d|) + d;
      LeerConCeros(w - |d|, d);
    } else {
      assert RellenarCeros(d, w) == d;
    }
  }

  /** What `format(n, '0<ancho>d')` writes, `int()` reads back. */
  lemma LeerFormatoEntero(n: int, ancho: nat)
    ensures LeerEntero(FormatoEntero(n, ancho)) == Some(n)
  {
    if n < 0 {
      LeerFormatoNegativo(n, ancho);
    } else {
      LeerRelleno(n, ancho);
      assert EsDigito(FormatoEntero(n, ancho)[0]);
    }
  }

  lemma LeerFormatoNegativo(n: int, ancho: nat)
    requires n < 0
    ensures LeerEntero(FormatoEntero(n, ancho)) == Some(n)
  {
    var m: nat := -n;
    var p := RellenarCeros(Decimal(m), ancho - 1);
    LeerRelleno(m, ancho - 1);
    var r := "-" + p;
    assert r[1..] == p;
    assert LeerEntero(r) == Some(-(m as int));
  }

  /** A number below 10^k has at most k digits. */
  lemma {:induction false} LongitudDecimal(n: nat, k: nat)
    requires k >= 1 && n < Pot10(k)
    ensures |Decimal(n)| <= k
    decreases k
  {
    if n >= 10 {
      assert k >= 2;
      assert n / 10 < Pot10(k - 1);
      LongitudDecimal(n / 10, k - 1);
    }
  }

  /** A non-negative number below 10^ancho is written in exactly `ancho` characters. */
  lemma AnchoExacto(n: int, ancho: nat)
    requires ancho >= 1 && 0 <= n < Pot10(ancho)
    ensures |FormatoEntero(n, ancho)| == ancho
  {
    LongitudDecimal(n, ancho);
  }

  lemma Pot10Valores()
    ensures Pot10(2) == 100 && Pot10(4) == 10000
  {
    assert Pot10(1) == 10;
    assert Pot10(3) == 1000;
  }

  /** `format(n, '0<ancho>d')` for a number that fits the width: exactly `ancho` digits. */
  function FormatoFijo(n: int, ancho: nat): (r: string)
    requires 1 <= ancho && 0 <= n < Pot10(ancho)
    ensures |r| == ancho
  {
    AnchoExacto(n, ancho);
    FormatoEntero(n, ancho)
  }

  /** A fixed-width field reads back as the number written. */
  lemma LeerFormatoFijo(n: int, ancho: nat)
    requires 1 <= ancho && 0 <= n < Pot10(ancho)
    ensures LeerNatural(FormatoFijo(n, ancho)) == Some(n)
  {
    LeerRelleno(n, ancho);
  }

  /** A field cut out of a longer string reads as the field does. */
  lemma LeerTrozo(s: string, i: nat, j: nat, t: string)
    requires i <= j <= |s| && s[i..j] == t
    ensures LeerNatural(s[i..j]) == LeerNatural(t)
  {
  }

  /** `format(n, '02d')` of a number below 100 is its tens digit then its units digit. */
  lemma DosCifras(n: int)
    requires 0 <= n < 100
    ensures FormatoEntero(n, 2) == [Digito(n / 10), Digito(n % 10)]
  {
    var d := Decimal(n);
    if n < 10 {
      assert d == [Digito(n)];
      assert Ceros(1) == [Digito(0)];
      assert RellenarCeros(d, 2) == Ceros(1) + d;
    } else {
      assert Decimal(n / 10) == [Digito(n / 10)];
      assert d == [Digito(n / 10), Digito(n % 10)];
      assert RellenarCeros(d, 2) == d;
    }
  }
}
