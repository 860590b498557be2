/**
 * Generic operations on sequences that the store's queries are built from:
 * filtering (WHERE), counting (COUNT), the first match (a single-result
 * finder), sorting (ORDER BY), removing repeated values (DISTINCT) and
 * taking a prefix (LIMIT).
 */
module Colecoes {
  import opened Comum

  ghost predicate Total<T(!new)>(le: (T, T) -> bool) {
    forall x, y :: le(x, y) || le(y, x)
  }

  ghost predicate Transitiva<T(!new)>(le: (T, T) -> bool) {
    forall x, y, z :: le(x, y) && le(y, z) ==> le(x, z)
  }

  ghost predicate Antissimetrica<T(!new)>(le: (T, T) -> bool) {
    forall x, y :: le(x, y) && le(y, x) ==> x == y
  }

  ghost predicate Ordenada<T>(s: seq<T>, le: (T, T) -> bool) {
    forall i, j :: 0 <= i < j < |s| ==> le(s[i], s[j])
  }

  ghost predicate SemRepeticao<T>(s: seq<T>) {
    forall i, j :: 0 <= i < j < |s| ==> s[i] != s[j]
  }

  /** The elements of s that satisfy p, in their original order. */
  function Filtrar<T>(s: seq<T>, p: T -> bool): (r: seq<T>)
    ensures forall i :: 0 <= i < |r| ==> r[i] in s && p(r[i])
    ensures forall i :: 0 <= i < |s| && p(s[i]) ==> s[i] in r
    ensures multiset(r) <= multiset(s)
    ensures |r| <= |s|
  {
    if s == [] then []
    else
      var resto := Filtrar(s[1..], p);
      assert s == [s[0]] + s[1..];
      if p(s[0]) then [s[0]] + resto else resto
  }

  /** The number of elements of s that satisfy p. */
  function Contar<T>(s: seq<T>, p: T -> bool): (n: nat)
    ensures n == |Filtrar(s, p)|
  {
    if s == [] then 0 else (if p(s[0]) then 1 else 0) + Contar(s[1..], p)
  }

  /** The first element of s that satisfies p, if any. */
  function Primeiro<T>(s: seq<T>, p: T -> bool): (r: Option<T>)
    ensures r.Some? ==> r.value in s && p(r.value)
    ensures r.None? <==> forall i :: 0 <= i < |s| ==> !p(s[i])
  {
    if s == [] then None
    else if p(s[0]) then Some(s[0])
    else
      var r := Primeiro(s[1..], p);
      assert forall i :: 1 <= i < |s| ==> s[i] == s[1..][i - 1];
      r
  }

  /** Inserts x into s before the first element that x does not exceed. */
  function Inserir<T>(x: T, s: seq<T>, le: (T, T) -> bool): (r: seq<T>)
    ensures multiset(r) == multiset(s) + multiset{x}
  {
    if s == [] then [x]
    else if le(x, s[0]) then [x] + s
    else
      var r := [s[0]] + Inserir(x, s[1..], le);
      assert s == [s[0]] + s[1..];
      r
  }

  lemma {:induction false} InserirPreservaOrdem<T(!new)>(x: T, s: seq<T>, le: (T, T) -> bool)
    requires Total(le) && Transitiva(le) && Ordenada(s, le)
    ensures Ordenada(Inserir(x, s, le), le)
  {
    if s != [] && !le(x, s[0]) {
      var t := Inserir(x, s[1..], le);
      InserirPreservaOrdem(x, s[1..], le);
      assert Inserir(x, s, le) == [s[0]] + t;
      forall k | 0 <= k < |t|
        ensures le(s[0], t[k])
      {
        assert t[k] in multiset(t);
        if t[k] != x {
          assert t[k] in multiset(s[1..]);
          var j :| 0 <= j < |s[1..]| && s[1..][j] == t[k];
          assert s[j + 1] == t[k];
        }
      }
    }
  }

  /** Insertion sort: a sorted permutation of s. */
  function Ordenar<T(!new)>(s: seq<T>, le: (T, T) -> bool): (r: seq<T>)
    requires Total(le) && Transitiva(le)
    ensures multiset(r) == multiset(s)
    ensures Ordenada(r, le)
  {
    if s == [] then []
    else
      var resto := Ordenar(s[1..], le);
      InserirPreservaOrdem(s[0], resto, le);
      assert s == [s[0]] + s[1..];
      Inserir(s[0], resto, le)
  }

  /** Drops each element that equals its predecessor. */
  function RemoverRepetidos<T(==)>(s: seq<T>): (r: seq<T>)
    ensures forall i :: 0 <= i < |r| ==> r[i] in s
    ensures forall i :: 0 <= i < |s| ==> s[i] in r
    ensures |r| <= |s|
    ensures r != [] ==> s != [] && r[0] == s[0]
  {
    if |s| <= 1 then s
    else if s[0] == s[1] then RemoverRepetidos(s[1..])
    else [s[0]] + RemoverRepetidos(s[1..])
  }

  /** On a sorted sequence, removing repeats leaves a strictly ascending one. */
  lemma {:induction false} RemoverRepetidosOrdenada<T(!new)>(s: seq<T>, le: (T, T) -> bool)
    requires Transitiva(le) && Antissimetrica(le) && Ordenada(s, le)
    ensures Ordenada(RemoverRepetidos(s), le)
    ensures SemRepeticao(RemoverRepetidos(s))
  {
    if |s| > 1 {
      var t := RemoverRepetidos(s[1..]);
      RemoverRepetidosOrdenada(s[1..], le);
      if s[0] != s[1] {
        forall k | 0 <= k < |t|
          ensures le(s[0], t[k]) && s[0] != t[k]
        {
          assert t[k] in s[1..];
          var j :| 0 <= j < |s[1..]| && s[1..][j] == t[k];
          assert s[j + 1] == t[k];
          if j > 0 {
            assert le(s[0], s[1]) && le(s[1], s[j + 1]);
            assert !le(s[1], s[0]);
          }
        }
      }
    }
  }

  /** The first n elements of s, or all of s when it is shorter (SQL LIMIT). */
  function Tomar<T>(s: seq<T>, n: nat): (r: seq<T>)
    ensures |r| == if n < |s| then n else |s|
    ensures r == s[..|r|]
  {
    if n < |s| then s[..n] else s
  }
}
