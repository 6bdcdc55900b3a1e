/** `Array.prototype.filter` and `[...new Set(xs)]` on sequences. */
module Listas {

  /** The elements of `s` that satisfy `p`, in their order in `s`. */
  function Filtrar<T(!new)>(s: seq<T>, p: T -> bool): (r: seq<T>)
    ensures |r| <= |s|
    ensures |r| == |s| <==> forall i :: 0 <= i < |s| ==> p(s[i])
    ensures forall x :: x in r <==> x in s && p(x)
  {
    if s == [] then [] else (if p(s[0]) then [s[0]] else []) + Filtrar(s[1..], p)
  }

  /** Filtering keeps order: it distributes over concatenation. */
  lemma {:induction false} FiltrarConcat<T(!new)>(a: seq<T>, b: seq<T>, p: T -> bool)
    ensures Filtrar(a + b, p) == Filtrar(a, p) + Filtrar(b, p)
  {
    if a == [] {
      assert a + b == b;
    } else {
      assert (a + b)[1..] == a[1..] + b;
      FiltrarConcat(a[1..], b, p);
    }
  }

  /** A filter that every element passes returns the sequence unchanged. */
  lemma {:induction false} FiltrarTodos<T(!new)>(s: seq<T>, p: T -> bool)
    requires forall i :: 0 <= i < |s| ==> p(s[i])
    ensures Filtrar(s, p) == s
  {
    if s != [] {
      FiltrarTodos(s[1..], p);
    }
  }

  /** Filtering out exactly one element in the middle leaves what surrounds it. */
  lemma FiltrarAlrededor<T(!new)>(a: seq<T>, x: T, b: seq<T>, p: T -> bool)
    requires forall i :: 0 <= i < |a| ==> p(a[i])
    requires forall i :: 0 <= i < |b| ==> p(b[i])
    requires !p(x)
    ensures Filtrar(a + [x] + b, p) == a + b
  {
    assert [x][1..] == [];
    assert Filtrar([x], p) == [];
    FiltrarTodos(a, p);
    FiltrarConcat(a, [x], p);
    assert a + [] == a;
    FiltrarTodos(b, p);
    FiltrarConcat(a + [x], b, p);
  }

  /** Elements in the order of their first occurrence, each once (`[...new Set(xs)]`). */
  function SinRepetir<T(==,!new)>(xs: seq<T>): (r: seq<T>)
    ensures forall x :: x in r <==> x in xs
    ensures forall x :: multiset(r)[x] <= 1
  {
    if xs == [] then []
    else
      var d := SinRepetir(xs[..|xs| - 1]);
      var u := xs[|xs| - 1];
      assert xs == xs[..|xs| - 1] + [u];
      if u in d then d else d + [u]
  }

  /** Two equal elements at different positions give a multiplicity of at least two. */
  lemma RepetidoCuentaDos<T>(s: seq<T>, i: nat, j: nat)
    requires i < j < |s| && s[i] == s[j]
    ensures multiset(s)[s[i]] >= 2
  {
    assert s == s[..i] + [s[i]] + s[i + 1..j] + [s[j]] + s[j + 1..];
  }
}
