/** The byte-lexicographic order of strings and the stable sort by a text key that `sort` and `sort_by` perform. */
module Orden {

  predicate MenorIgual(a: string, b: string)
  {
    a == "" || (b != "" && (a[0] < b[0] || (a[0] == b[0] && MenorIgual(a[1..], b[1..]))))
  }

  /** The order of byte strings: a beginning comes first, and else the first byte that differs decides. */
  lemma {:induction false} MenorIgualEs(a: string, b: string)
    ensures MenorIgual(a, b) <==>
            a <= b || exists i | 0 <= i < |a| && i < |b| :: a[..i] == b[..i] && a[i] < b[i]
  {
    if a != "" && b != "" {
      MenorIgualEs(a[1..], b[1..]);
      if a[0] < b[0] { assert a[..0] == b[..0]; }
      if a[0] == b[0] {
        assert a == [a[0]] + a[1..] && b == [b[0]] + b[1..];
        if i :| 0 <= i < |a[1..]| && i < |b[1..]| && a[1..][..i] == b[1..][..i] && a[1..][i] < b[1..][i] {
          assert a[..i + 1] == [a[0]] + a[1..][..i] && b[..i + 1] == [b[0]] + b[1..][..i];
          assert a[i + 1] < b[i + 1];
        }
      }
      if i :| 0 <= i < |a| && i < |b| && a[..i] == b[..i] && a[i] < b[i] {
        if i > 0 {
          assert a[..i][0] == b[..i][0];
          assert a[1..][..i - 1] == a[..i][1..] && b[1..][..i - 1] == b[..i][1..];
          assert a[1..][i - 1] < b[1..][i - 1];
        }
      }
    }
  }

  lemma {:induction false} Total(a: string, b: string)
    ensures MenorIgual(a, b) || MenorIgual(b, a)
  {
    if a != "" && b != "" { Total(a[1..], b[1..]); }
  }

  lemma {:induction false} Antisimetrico(a: string, b: string)
    requires MenorIgual(a, b) && MenorIgual(b, a)
    ensures a == b
  {
    if a != "" {
      Antisimetrico(a[1..], b[1..]);
      assert a == [a[0]] + a[1..] && b == [b[0]] + b[1..];
    }
  }

  lemma {:induction false} Transitivo(a: string, b: string, c: string)
    requires MenorIgual(a, b) && MenorIgual(b, c)
    ensures MenorIgual(a, c)
  {
    if a != "" && a[0] == b[0] && b[0] == c[0] { Transitivo(a[1..], b[1..], c[1..]); }
  }

  ghost predicate Ordenada<T>(xs: seq<T>, clave: T -> string)
  {
    forall i, j | 0 <= i < j < |xs| :: MenorIgual(clave(xs[i]), clave(xs[j]))
  }

  /** The elements of `xs` with key `w`, in their order. */
  function ConClave<T>(xs: seq<T>, clave: T -> string, w: string): (r: seq<T>)
    ensures forall x | x in r :: x in xs && clave(x) == w
  {
    if xs == [] then []
    else (if clave(xs[0]) == w then [xs[0]] else []) + ConClave(xs[1..], clave, w)
  }

  function Insertar<T>(x: T, xs: seq<T>, clave: T -> string): seq<T>
  {
    if xs == [] || MenorIgual(clave(x), clave(xs[0])) then [x] + xs
    else [xs[0]] + Insertar(x, xs[1..], clave)
  }

  function OrdenarPor<T>(xs: seq<T>, clave: T -> string): seq<T>
  {
    if xs == [] then [] else Insertar(xs[0], OrdenarPor(xs[1..], clave), clave)
  }

  lemma {:induction false} InsertarConserva<T>(x: T, xs: seq<T>, clave: T -> string)
    ensures multiset(Insertar(x, xs, clave)) == multiset([x] + xs)
  {
    if !(xs == [] || MenorIgual(clave(x), clave(xs[0]))) {
      InsertarConserva(x, xs[1..], clave);
      assert xs == [xs[0]] + xs[1..];
    }
  }

  lemma {:induction false} InsertarOrdenada<T>(x: T, xs: seq<T>, clave: T -> string)
    requires Ordenada(xs, clave)
    ensures Ordenada(Insertar(x, xs, clave), clave)
  {
    var r := Insertar(x, xs, clave);
    if xs == [] {
    } else if MenorIgual(clave(x), clave(xs[0])) {
      forall j | 0 < j < |r| ensures MenorIgual(clave(x), clave(r[j])) {
        if j > 1 { Transitivo(clave(x), clave(xs[0]), clave(xs[j - 1])); }
      }
    } else {
      InsertarOrdenada(x, xs[1..], clave);
      InsertarConserva(x, xs[1..], clave);
      Total(clave(x), clave(xs[0]));
      forall j | 0 < j < |r| ensures MenorIgual(clave(xs[0]), clave(r[j])) {
        assert r[j] in multiset(r[1..]);
        assert r[j] == x || r[j] in xs[1..];
      }
    }
  }

  lemma ConClaveDe<T>(x: T, xs: seq<T>, clave: T -> string, w: string)
    ensures ConClave([x] + xs, clave, w) == (if clave(x) == w then [x] else []) + ConClave(xs, clave, w)
  {
    assert ([x] + xs)[1..] == xs;
  }

  lemma {:induction false} InsertarEstable<T>(x: T, xs: seq<T>, clave: T -> string, w: string)
    requires Ordenada(xs, clave)
    ensures ConClave(Insertar(x, xs, clave), clave, w) == (if clave(x) == w then [x] else []) + ConClave(xs, clave, w)
  {
    if xs == [] || MenorIgual(clave(x), clave(xs[0])) {
      ConClaveDe(x, xs, clave, w);
    } else {
      InsertarEstable(x, xs[1..], clave, w);
      ConClaveDe(xs[0], Insertar(x, xs[1..], clave), clave, w);
      Total(clave(x), clave(xs[0]));
      assert clave(x) != clave(xs[0]);
    }
  }

  lemma {:induction false} OrdenarOrdenada<T>(xs: seq<T>, clave: T -> string)
    ensures Ordenada(OrdenarPor(xs, clave), clave)
  {
    if xs != [] {
      OrdenarOrdenada(xs[1..], clave);
      InsertarOrdenada(xs[0], OrdenarPor(xs[1..], clave), clave);
    }
  }

  lemma {:induction false} OrdenarConserva<T>(xs: seq<T>, clave: T -> string)
    ensures multiset(OrdenarPor(xs, clave)) == multiset(xs)
    ensures |OrdenarPor(xs, clave)| == |xs|
  {
    if xs != [] {
      OrdenarConserva(xs[1..], clave);
      InsertarConserva(xs[0], OrdenarPor(xs[1..], clave), clave);
      assert xs == [xs[0]] + xs[1..];
    }
    assert |multiset(OrdenarPor(xs, clave))| == |multiset(xs)|;
  }

  /** Elements with equal keys keep their original order. */
  lemma {:induction false} OrdenarEstable<T>(xs: seq<T>, clave: T -> string, w: string)
    ensures ConClave(OrdenarPor(xs, clave), clave, w) == ConClave(xs, clave, w)
  {
    if xs != [] {
      OrdenarEstable(xs[1..], clave, w);
      OrdenarOrdenada(xs[1..], clave);
      InsertarEstable(xs[0], OrdenarPor(xs[1..], clave), clave, w);
    }
  }

  ghost predicate MismosPorClave<T>(xs: seq<T>, ys: seq<T>, clave: T -> string)
  {
    forall w: string :: ConClave(xs, clave, w) == ConClave(ys, clave, w)
  }

  lemma {:induction false} EnConClave<T>(x: T, xs: seq<T>, clave: T -> string)
    requires x in xs
    ensures x in ConClave(xs, clave, clave(x))
  {
    if x != xs[0] { EnConClave(x, xs[1..], clave); }
  }

  lemma CabezaMinima<T>(xs: seq<T>, ys: seq<T>, clave: T -> string)
    requires xs != [] && Ordenada(ys, clave) && MismosPorClave(xs, ys, clave)
    ensures ys != [] && MenorIgual(clave(ys[0]), clave(xs[0]))
  {
    var w := clave(xs[0]);
    EnConClave(xs[0], xs, clave);
    assert ConClave(xs, clave, w) == ConClave(ys, clave, w);
    assert xs[0] in ys;
    Total(w, w);
  }

  /** A stable sort has only one possible result, so nothing here depends on which algorithm the library uses. */
  lemma {:induction false} EstableEsUnica<T>(xs: seq<T>, ys: seq<T>, clave: T -> string)
    requires Ordenada(xs, clave) && Ordenada(ys, clave) && MismosPorClave(xs, ys, clave)
    ensures xs == ys
  {
    if xs == [] && ys == [] {
    } else if xs == [] {
      CabezaMinima(ys, xs, clave);
    } else {
      CabezaMinima(xs, ys, clave);
      CabezaMinima(ys, xs, clave);
      Antisimetrico(clave(xs[0]), clave(ys[0]));
      var w0 := clave(xs[0]);
      assert ConClave(xs, clave, w0)[0] == xs[0];
      assert ConClave(ys, clave, w0)[0] == ys[0];
      assert ConClave(xs, clave, w0) == ConClave(ys, clave, w0);
      forall w: string ensures ConClave(xs[1..], clave, w) == ConClave(ys[1..], clave, w) {
        var c := if w == w0 then [xs[0]] else [];
        assert ConClave(xs, clave, w) == c + ConClave(xs[1..], clave, w);
        assert ConClave(ys, clave, w) == c + ConClave(ys[1..], clave, w);
        assert ConClave(xs[1..], clave, w) == ConClave(xs, clave, w)[|c|..];
        assert ConClave(ys[1..], clave, w) == ConClave(ys, clave, w)[|c|..];
      }
      EstableEsUnica(xs[1..], ys[1..], clave);
      assert xs == [xs[0]] + xs[1..] && ys == [ys[0]] + ys[1..];
    }
  }

  function Identidad(s: string): string { s }

  /** `Vec<String>::sort`. */
  function OrdenarTextos(xs: seq<string>): seq<string> { OrdenarPor(xs, Identidad) }

  function Repetido(w: string, n: nat): seq<string> { seq(n, _ => w) }

  lemma UnaVezMas(w: string, n: nat)
    ensures [w] + Repetido(w, n) == Repetido(w, n + 1)
  {
  }

  lemma CuentaDelResto(xs: seq<string>, w: string)
    requires xs != []
    ensures multiset(xs)[w] == multiset(xs[1..])[w] + if xs[0] == w then 1 else 0
  {
    assert xs == [xs[0]] + xs[1..];
  }

  lemma {:induction false} ConClaveCuenta(xs: seq<string>, w: string)
    ensures ConClave(xs, Identidad, w) == Repetido(w, multiset(xs)[w])
  {
    if xs != [] {
      ConClaveCuenta(xs[1..], w);
      CuentaDelResto(xs, w);
      UnaVezMas(w, multiset(xs[1..])[w]);
    }
  }

  /** For plain texts the sorted permutation is unique, whatever order the elements came in. */
  lemma OrdenarTextosNoDependeDelOrden(xs: seq<string>, ys: seq<string>)
    requires multiset(xs) == multiset(ys) && Ordenada(ys, Identidad)
    ensures OrdenarTextos(xs) == ys
  {
    OrdenarOrdenada(xs, Identidad);
    OrdenarConserva(xs, Identidad);
    forall w: string ensures ConClave(OrdenarTextos(xs), Identidad, w) == ConClave(ys, Identidad, w) {
      ConClaveCuenta(OrdenarTextos(xs), w);
      ConClaveCuenta(ys, w);
    }
    EstableEsUnica(OrdenarTextos(xs), ys, Identidad);
  }

  // ---- In-place reversal of a vector ----

  function Invertir<T>(s: seq<T>): (r: seq<T>)
    ensures |r| == |s|
    ensures forall i | 0 <= i < |s| :: r[i] == s[|s| - 1 - i]
  {
    if s == [] then [] else Invertir(s[1..]) + [s[0]]
  }

  lemma InvertirDosVeces<T>(s: seq<T>)
    ensures Invertir(Invertir(s)) == s
  {
  }

  lemma {:induction false} InvertirConcat<T>(a: seq<T>, b: seq<T>)
    ensures Invertir(a + b) == Invertir(b) + Invertir(a)
  {
    if a == [] {
      assert a + b == b;
    } else {
      assert (a + b)[1..] == a[1..] + b;
      InvertirConcat(a[1..], b);
    }
  }

  lemma InvertirInvertidas<T>(a: seq<T>, b: seq<T>)
    ensures Invertir(Invertir(b) + Invertir(a)) == a + b
  {
  }

  lemma {:induction false} InvertirConserva<T>(s: seq<T>)
    ensures multiset(Invertir(s)) == multiset(s)
  {
    if s != [] {
      InvertirConserva(s[1..]);
      assert s == [s[0]] + s[1..];
    }
  }
}
