/**
 The record orderings the database queries ask for with `order_by`: a
 lexicographic order on integer keys and an insertion sort by such a key.
 */
module Orden {

  /** Lexicographic order on integer sequences; a proper prefix comes first. */
  predicate LexLe(a: seq<int>, b: seq<int>)
    decreases |a|
  {
    |a| == 0 || (|b| > 0 && (a[0] < b[0] || (a[0] == b[0] && LexLe(a[1..], b[1..]))))
  }

  lemma {:induction false} LexLeTotal(a: seq<int>, b: seq<int>)
    ensures LexLe(a, b) || LexLe(b, a)
    decreases |a|
  {
    if |a| > 0 && |b| > 0 && a[0] == b[0] {
      LexLeTotal(a[1..], b[1..]);
    }
  }

  lemma {:induction false} LexLeTrans(a: seq<int>, b: seq<int>, c: seq<int>)
    requires LexLe(a, b) && LexLe(b, c)
    ensures LexLe(a, c)
    decreases |a|
  {
    if |a| > 0 && a[0] == b[0] && b[0] == c[0] {
      LexLeTrans(a[1..], b[1..], c[1..]);
    }
  }

  /** Keys that agree up to their last position are ordered by that position. */
  lemma {:induction false} LexLeUltimo(p: seq<int>, x: int, y: int)
    ensures LexLe(p + [x], p + [y]) <==> x <= y
    decreases |p|
  {
    if |p| > 0 {
      assert (p + [x])[1..] == p[1..] + [x];
      assert (p + [y])[1..] == p[1..] + [y];
      LexLeUltimo(p[1..], x, y);
    }
  }

  /** Ordering by negated keys is ordering by the keys, descending. */
  lemma {:induction false} LexLeNegado(a: seq<int>, b: seq<int>)
    requires |a| == |b|
    ensures LexLe(Negar(a), Negar(b)) <==> LexLe(b, a)
    decreases |a|
  {
    if |a| > 0 {
      assert Negar(a)[1..] == Negar(a[1..]);
      assert Negar(b)[1..] == Negar(b[1..]);
      LexLeNegado(a[1..], b[1..]);
    }
  }

  function Negar(a: seq<int>): (r: seq<int>)
    ensures |r| == |a| && forall i :: 0 <= i < |a| ==> r[i] == -a[i]
  {
    seq(|a|, i requires 0 <= i < |a| => -a[i])
  }

  /** `s` is in ascending key order. */
  predicate Ordenado<T>(s: seq<T>, clave: T -> seq<int>) {
    forall i, j :: 0 <= i < j < |s| ==> LexLe(clave(s[i]), clave(s[j]))
  }

  /** Inserts `x` into the sorted `s` ahead of the first element whose key is not below its own. */
  function Insertar<T>(x: T, s: seq<T>, clave: T -> seq<int>): (r: seq<T>)
    requires Ordenado(s, clave)
    ensures Ordenado(r, clave)
    ensures multiset(r) == multiset(s) + multiset{x}
    decreases |s|
  {
    if |s| == 0 then [x]
    else if LexLe(clave(x), clave(s[0])) then
      assert Ordenado([x] + s, clave) by {
        var r := [x] + s;
        forall i, j | 0 <= i < j < |r|
          ensures LexLe(clave(r[i]), clave(r[j]))
        {
          if i == 0 && j > 1 {
            LexLeTrans(clave(x), clave(s[0]), clave(s[j - 1]));
          }
        }
      }
      [x] + s
    else
      var resto := Insertar(x, s[1..], clave);
      assert s == [s[0]] + s[1..];
      assert Ordenado([s[0]] + resto, clave) by {
        LexLeTotal(clave(x), clave(s[0]));
        forall j | 0 <= j < |resto|
          ensures LexLe(clave(s[0]), clave(resto[j]))
        {
          assert resto[j] in multiset(resto);
          if resto[j] != x {
            assert resto[j] in multiset(s[1..]);
            var k :| 0 <= k < |s[1..]| && s[1..][k] == resto[j];
          }
        }
      }
      [s[0]] + resto
  }

  /**
   `order_by` on the key `clave`: the result is a permutation of `s` in
   ascending key order. (How the database breaks ties is not specified; this
   model keeps one fixed choice.)
   */
  function Ordenar<T>(s: seq<T>, clave: T -> seq<int>): (r: seq<T>)
    ensures Ordenado(r, clave)
    ensures multiset(r) == multiset(s)
    ensures |r| == |s|
    decreases |s|
  {
    if |s| == 0 then []
    else
      assert s == s[..|s| - 1] + [s[|s| - 1]];
      Insertar(s[|s| - 1], Ordenar(s[..|s| - 1], clave), clave)
  }
}
