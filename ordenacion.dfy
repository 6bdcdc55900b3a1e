/**
 * `Array.prototype.sort` with a comparator, as the domain uses it: the result is the
 * input reordered so that the comparator never reports a later element as smaller, and
 * elements the comparator calls equal keep their input order (the sort is stable).
 * `Ordenar` is one stable sort (insertion from the front); the lemmas state the three
 * properties for any comparator that orders consistently.
 */
module Ordenacion {

  /** The comparator is total: when `a` is reported greater than `b`, `b` is not reported greater than `a`. */
  ghost predicate Total<T(!new)>(cmp: (T, T) -> int) {
    forall a, b :: cmp(a, b) > 0 ==> cmp(b, a) <= 0
  }

  /** "Not greater than" is transitive. */
  ghost predicate Transitiva<T(!new)>(cmp: (T, T) -> int) {
    forall a, b, c :: cmp(a, b) <= 0 && cmp(b, c) <= 0 ==> cmp(a, c) <= 0
  }

  /** "Equal under the comparator" is symmetric and transitive. */
  ghost predicate EmpateEquivalencia<T(!new)>(cmp: (T, T) -> int) {
    (forall a, b :: cmp(a, b) == 0 ==> cmp(b, a) == 0)
    && (forall a, b, c :: cmp(a, b) == 0 && cmp(b, c) == 0 ==> cmp(a, c) == 0)
  }

  /** No element is reported greater than one after it. */
  ghost predicate Ordenada<T>(r: seq<T>, cmp: (T, T) -> int) {
    forall i, j :: 0 <= i < j < |r| ==> cmp(r[i], r[j]) <= 0
  }

  /** `x` placed before the first element of `r` that it is not greater than. */
  function Insertar<T>(x: T, r: seq<T>, cmp: (T, T) -> int): seq<T> {
    if r == [] || cmp(x, r[0]) <= 0 then [x] + r else [r[0]] + Insertar(x, r[1..], cmp)
  }

  /** A stable sort of `s` under `cmp`. */
  function Ordenar<T>(s: seq<T>, cmp: (T, T) -> int): seq<T> {
    if s == [] then [] else Insertar(s[0], Ordenar(s[1..], cmp), cmp)
  }

  /** The elements of `s` that `cmp` calls equal to `y`, in their order in `s`. */
  function Empates<T>(s: seq<T>, y: T, cmp: (T, T) -> int): seq<T> {
    if s == [] then [] else (if cmp(s[0], y) == 0 then [s[0]] else []) + Empates(s[1..], y, cmp)
  }

  lemma {:induction false} EmpatesConcat<T>(a: seq<T>, b: seq<T>, y: T, cmp: (T, T) -> int)
    ensures Empates(a + b, y, cmp) == Empates(a, y, cmp) + Empates(b, y, cmp)
  {
    if a == [] {
      assert a + b == b;
    } else {
      var h := if cmp(a[0], y) == 0 then [a[0]] else [];
      assert (a + b)[0] == a[0];
      assert (a + b)[1..] == a[1..] + b;
      EmpatesConcat(a[1..], b, y, cmp);
      calc {
        Empates(a + b, y, cmp);
        h + Empates(a[1..] + b, y, cmp);
        h + (Empates(a[1..], y, cmp) + Empates(b, y, cmp));
        (h + Empates(a[1..], y, cmp)) + Empates(b, y, cmp);
        Empates(a, y, cmp) + Empates(b, y, cmp);
      }
    }
  }

  lemma {:induction false} InsertarPermutacion<T>(x: T, r: seq<T>, cmp: (T, T) -> int)
    ensures multiset(Insertar(x, r, cmp)) == multiset([x] + r)
  {
    if r != [] && cmp(x, r[0]) > 0 {
      InsertarPermutacion(x, r[1..], cmp);
      assert r == [r[0]] + r[1..];
    }
  }

  /** The sort only reorders: same elements, same multiplicities. */
  lemma {:induction false} OrdenarPermutacion<T>(s: seq<T>, cmp: (T, T) -> int)
    ensures multiset(Ordenar(s, cmp)) == multiset(s)
  {
    if s != [] {
      OrdenarPermutacion(s[1..], cmp);
      InsertarPermutacion(s[0], Ordenar(s[1..], cmp), cmp);
      assert s == [s[0]] + s[1..];
    }
  }

  lemma AlFrenteOrdenada<T(!new)>(x: T, r: seq<T>, cmp: (T, T) -> int)
    requires Transitiva(cmp)
    requires Ordenada(r, cmp) && r != [] && cmp(x, r[0]) <= 0
    ensures Ordenada([x] + r, cmp)
  {
    var q := [x] + r;
    forall i, j | 0 <= i < j < |q|
      ensures cmp(q[i], q[j]) <= 0
    {
      if i == 0 && j > 1 {
        assert cmp(r[0], r[j - 1]) <= 0;
      }
    }
  }

  lemma DetrasOrdenada<T(!new)>(y: T, t: seq<T>, x: T, rest: seq<T>, cmp: (T, T) -> int)
    requires Ordenada(t, cmp) && multiset(t) == multiset([x] + rest)
    requires cmp(y, x) <= 0 && forall k :: 0 <= k < |rest| ==> cmp(y, rest[k]) <= 0
    ensures Ordenada([y] + t, cmp)
  {
    var q := [y] + t;
    forall i, j | 0 <= i < j < |q|
      ensures cmp(q[i], q[j]) <= 0
    {
      if i == 0 {
        var z := t[j - 1];
        assert z in multiset([x] + rest);
        if z != x {
          assert z in rest;
          var k :| 0 <= k < |rest| && rest[k] == z;
        }
      }
    }
  }

  lemma {:induction false} InsertarOrdenada<T(!new)>(x: T, r: seq<T>, cmp: (T, T) -> int)
    requires Total(cmp) && Transitiva(cmp)
    requires Ordenada(r, cmp)
    ensures Ordenada(Insertar(x, r, cmp), cmp)
  {
    if r == [] {
    } else if cmp(x, r[0]) <= 0 {
      AlFrenteOrdenada(x, r, cmp);
    } else {
      InsertarOrdenada(x, r[1..], cmp);
      InsertarPermutacion(x, r[1..], cmp);
      DetrasOrdenada(r[0], Insertar(x, r[1..], cmp), x, r[1..], cmp);
    }
  }

  /** The result is ordered under any total, transitive comparator. */
  lemma {:induction false} OrdenarOrdena<T(!new)>(s: seq<T>, cmp: (T, T) -> int)
    requires Total(cmp) && Transitiva(cmp)
    ensures Ordenada(Ordenar(s, cmp), cmp)
  {
    if s != [] {
      OrdenarOrdena(s[1..], cmp);
      InsertarOrdenada(s[0], Ordenar(s[1..], cmp), cmp);
    }
  }

  lemma {:induction false} InsertarEmpates<T(!new)>(x: T, r: seq<T>, y: T, cmp: (T, T) -> int)
    requires EmpateEquivalencia(cmp)
    ensures Empates(Insertar(x, r, cmp), y, cmp) == Empates([x] + r, y, cmp)
  {
    if r != [] && cmp(x, r[0]) > 0 {
      var t := r[1..];
      InsertarEmpates(x, t, y, cmp);
      NoAmbosEmpatan(x, r[0], y, cmp);
      assert r == [r[0]] + t;
      PasaDelante(x, r[0], t, Insertar(x, t, cmp), y, cmp);
    }
  }

  lemma NoAmbosEmpatan<T(!new)>(x: T, z: T, y: T, cmp: (T, T) -> int)
    requires EmpateEquivalencia(cmp) && cmp(x, z) > 0
    ensures !(cmp(z, y) == 0 && cmp(x, y) == 0)
  {
  }

  /** Moving `x` past `z` keeps the ties with `y` in order when not both of them tie with `y`. */
  lemma PasaDelante<T>(x: T, z: T, t: seq<T>, u: seq<T>, y: T, cmp: (T, T) -> int)
    requires !(cmp(z, y) == 0 && cmp(x, y) == 0)
    requires Empates(u, y, cmp) == Empates([x] + t, y, cmp)
    ensures Empates([z] + u, y, cmp) == Empates([x] + ([z] + t), y, cmp)
  {
    if cmp(x, y) != 0 {
      SinEmpate(x, t, y, cmp);
      SinEmpate(x, [z] + t, y, cmp);
      ConEmpate(z, u, y, cmp);
      ConEmpate(z, t, y, cmp);
    } else {
      SinEmpate(z, u, y, cmp);
      SinEmpate(z, t, y, cmp);
      ConEmpate(x, t, y, cmp);
      ConEmpate(x, [z] + t, y, cmp);
    }
  }

  lemma SinEmpate<T>(z: T, s: seq<T>, y: T, cmp: (T, T) -> int)
    requires cmp(z, y) != 0
    ensures Empates([z] + s, y, cmp) == Empates(s, y, cmp)
  {
    assert ([z] + s)[1..] == s;
    assert [] + Empates(s, y, cmp) == Empates(s, y, cmp);
  }

  lemma ConEmpate<T>(z: T, s: seq<T>, y: T, cmp: (T, T) -> int)
    ensures Empates([z] + s, y, cmp) == Empates([z], y, cmp) + Empates(s, y, cmp)
  {
    EmpatesConcat([z], s, y, cmp);
  }

  /** Stability: the elements equal to any `y` come out in the order they went in. */
  lemma {:induction false} OrdenarEstable<T(!new)>(s: seq<T>, y: T, cmp: (T, T) -> int)
    requires EmpateEquivalencia(cmp)
    ensures Empates(Ordenar(s, cmp), y, cmp) == Empates(s, y, cmp)
  {
    if s != [] {
      OrdenarEstable(s[1..], y, cmp);
      InsertarEmpates(s[0], Ordenar(s[1..], cmp), y, cmp);
      EmpatesConcat([s[0]], Ordenar(s[1..], cmp), y, cmp);
      EmpatesConcat([s[0]], s[1..], y, cmp);
      assert s == [s[0]] + s[1..];
    }
  }
}
