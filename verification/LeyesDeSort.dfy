/** What SORT promises: the window of the sorted permutation, and the join on external weights. */
module LeyesDeSort {
  import opened Basicos
  import opened Cadenas
  import opened Decimal
  import opened Orden
  import opened Valores
  import opened BaseDeDatos
  import opened Efectos
  import opened Persistencia
  import opened Sort

  // ---- LIMIT ----

  /** The window that LIMIT documents: `count` elements from `offset`, all of them when the count is negative. */
  function Ventana(valores: seq<string>, offset: int, count: int): seq<string>
  {
    var desde := if offset < 0 then 0 else offset;
    var hasta := if count < 0 || desde + count > |valores| then |valores| else desde + count;
    if desde < hasta then valores[desde..hasta] else []
  }

  /** The limits for which the code gives the documented window. */
  predicate LimitesBuenos(offset: int, count: int, n: nat)
  {
    count == 0 || 0 <= offset < n || (offset < 0 && (count < 0 || n - offset <= count))
  }

  /** An offset behind the last element yields everything, and a negative one with a count that ends inside panics;
      for all other 32-bit limits the result is the documented window. */
  lemma RangoEsVentana(valores: seq<string>, offset: i32, count: i32)
    requires 0 < |valores| <= MAX_I32
    ensures Rango(valores, offset as int, count as int) == Responde(Ventana(valores, offset as int, count as int))
      <==> LimitesBuenos(offset as int, count as int, |valores|)
    ensures |valores| <= offset as int && count != 0 ==> Rango(valores, offset as int, count as int) == Responde(valores)
    ensures offset < 0 && 0 < count && (count as int) < |valores| - offset as int ==>
              Rango(valores, offset as int, count as int) == Panico
  {
    var n, o, c := |valores|, offset as int, count as int;
    assert valores[0..n] == valores[0..] == valores;
    if 0 <= o < n {
      assert valores[o..n] == valores[o..];
    } else if n <= o && c != 0 {
      assert Rango(valores, o, c) == Responde(valores[0..]) && Ventana(valores, o, c) == [];
    }
  }

  // ---- Without BY ----

  /** The command as it is written, for a live list or set. */
  predicate Ordenable(t: Tabla, ahora: nat, p: seq<string>)
  {
    p != [] && match Obtener(t, p[0], ahora) case Some(v) => v.Lista? || v.Conjunto? case None => false
  }

  /** The part of the sorted elements that LIMIT selects, when both of its numbers are the only ones. */
  predicate Limitado(p: seq<string>, ys: seq<string>, elegidos: seq<string>)
  {
    if "LIMIT" !in p then elegidos == ys
    else
      var numeros := Numeros(p);
      && |numeros| == 2 && LimitesBuenos(numeros[0] as int, numeros[1] as int, |ys|)
      && elegidos == Ventana(ys, numeros[0] as int, numeros[1] as int)
  }

  /** The reply carries the elements, or STORE saves them under its key, replies how many, and touches no other key. */
  ghost predicate Entrega(t: Tabla, ahora: nat, p: seq<string>, elegidos: seq<string>, e: Efecto)
  {
    if "STORE" !in p then e == Efecto(t, Responde(Vector(Simples(elegidos))))
    else
      var ultima := UltimaParte(p, "STORE");
      ultima != [] ==>
        && e.r == Responde(StrSimple(NatATexto(|elegidos|)))
        && ultima[0] in e.tabla && e.tabla[ultima[0]] == EntradaNoExpirable(Lista(elegidos), ahora)
        && forall k | k != ultima[0] :: (k in e.tabla <==> k in t) && (k in t ==> e.tabla[k] == t[k])
  }

  lemma ConfigurarEntrega(t: Tabla, ahora: nat, p: seq<string>, ys: seq<string>, elegidos: seq<string>)
    requires 0 < |ys| <= MAX_I32
    requires Limitado(p, if "DESC" in p then Invertir(ys) else ys, elegidos)
    ensures Entrega(t, ahora, p, elegidos, Configurar(t, ahora, p, ys))
  {
    ConfigurarElige(t, ahora, p, ys, if "DESC" in p then Invertir(ys) else ys, elegidos);
    EntregarEntrega(t, ahora, p, elegidos);
  }

  lemma ConfigurarElige(t: Tabla, ahora: nat, p: seq<string>, ys: seq<string>, orden: seq<string>, elegidos: seq<string>)
    requires 0 < |ys| <= MAX_I32 && orden == (if "DESC" in p then Invertir(ys) else ys)
    requires Limitado(p, orden, elegidos)
    ensures Configurar(t, ahora, p, ys) == Entregar(t, ahora, p, elegidos)
  {
    if "LIMIT" in p { LimitElige(p, orden, elegidos); }
  }

  lemma LimitElige(p: seq<string>, orden: seq<string>, elegidos: seq<string>)
    requires "LIMIT" in p && 0 < |orden| <= MAX_I32 && Limitado(p, orden, elegidos)
    ensures EfectoDeLimit(p, orden) == Responde(elegidos)
  {
    var numeros := Numeros(p);
    RangoEsVentana(orden, numeros[0], numeros[1]);
  }

  lemma EntregarEntrega(t: Tabla, ahora: nat, p: seq<string>, elegidos: seq<string>)
    ensures Entrega(t, ahora, p, elegidos, Entregar(t, ahora, p, elegidos))
  {
  }

  /** For any ordered permutation `ys` of the elements (there is only one), in whatever order a set delivered them:
      the result is the window of it, or of its reverse for DESC. */
  lemma SortSinBy(t: Tabla, ahora: nat, p: seq<string>, valores: seq<string>, ys: seq<string>, elegidos: seq<string>)
    requires Ordenable(t, ahora, p) && 0 < |valores| <= MAX_I32 && "BY" !in p
    requires "ALPHA" in p || forall v | v in valores :: ParseI32(v).Some?
    requires multiset(ys) == multiset(valores) && Ordenada(ys, Identidad)
    requires Limitado(p, if "DESC" in p then Invertir(ys) else ys, elegidos)
    ensures Entrega(t, ahora, p, elegidos, EfectoSort(t, ahora, p, valores, [], []))
  {
    OrdenarTextosNoDependeDelOrden(valores, ys);
    assert |multiset(ys)| == |multiset(valores)|;
    ConfigurarEntrega(t, ahora, p, ys, elegidos);
  }

  /** LIMIT takes the first two parameters that read as numbers, in their order, whatever stands around them. */
  lemma NumerosDe(antes: seq<string>, offset: i32, medio: seq<string>, count: i32, despues: seq<string>)
    requires forall x | x in antes + medio + despues :: ParseI32(x) == None
    ensures Numeros(antes + [IntATexto(offset as int)] + medio + [IntATexto(count as int)] + despues) == [offset, count]
  {
    ParseI32DeTexto(offset as int);
    ParseI32DeTexto(count as int);
    SinNumeros(antes);
    SinNumeros(medio);
    SinNumeros(despues);
    var o, c := [IntATexto(offset as int)], [IntATexto(count as int)];
    assert o[1..] == [] && c[1..] == [];
    NumerosConcat(antes + o + medio + c, despues);
    NumerosConcat(antes + o + medio, c);
    NumerosConcat(antes + o, medio);
    NumerosConcat(antes, o);
  }

  lemma {:induction false} SinNumeros(p: seq<string>)
    requires forall x | x in p :: ParseI32(x) == None
    ensures Numeros(p) == []
  {
    if p != [] { SinNumeros(p[1..]); }
  }

  lemma {:induction false} NumerosConcat(a: seq<string>, b: seq<string>)
    ensures Numeros(a + b) == Numeros(a) + Numeros(b)
  {
    if a == [] {
      assert a + b == b;
    } else {
      assert (a + b)[1..] == a[1..] + b;
      NumerosConcat(a[1..], b);
    }
  }

  /** LIMIT without two numbers, or with nothing to select from, and STORE without a key are out of range. */
  lemma ConfigurarFalla(t: Tabla, ahora: nat, p: seq<string>, valores: seq<string>)
    requires ("LIMIT" in p && (|Numeros(p)| < 2 || valores == [])) || ("LIMIT" !in p && "STORE" in p && UltimaParte(p, "STORE") == [])
    ensures Configurar(t, ahora, p, valores) == Efecto(t, Panico)
  {
  }

  /** The other outcomes of SORT: nothing to sort, the wrong type, texts that are no numbers, keywords with nothing behind
      them, as many weights as values or not, and weights that are no live strings. */
  lemma SortCasos(t: Tabla, ahora: nat, p: seq<string>, valores: seq<string>, pesos: seq<string>, objetos: seq<string>)
    requires p != []
    ensures var e := EfectoSort(t, ahora, p, valores, pesos, objetos);
            && (Falta(t, p[0], ahora) ==> e == Efecto(t, Responde(Vector([]))))
            && (!Falta(t, p[0], ahora) && !t[p[0]].valor.Lista? && !t[p[0]].valor.Conjunto? ==> e == Falla(t, WRONGTYPE))
            && (Ordenable(t, ahora, p) && valores == [] ==> e == Efecto(t, Responde(Vector([]))))
    ensures var e := EfectoSort(t, ahora, p, valores, pesos, objetos);
            Ordenable(t, ahora, p) && valores != [] ==>
              if "BY" !in p then
                "ALPHA" !in p && (exists v | v in valores :: ParseI32(v) == None) ==> e == Falla(t, NO_DOUBLE)
              else if UltimaParte(p, "BY") == [] then e == Efecto(t, Panico)
              else if |pesos| != |valores| then e == Efecto(t, Responde(Vector(Simples(valores))))
              else if Tuplas(t, ahora, valores, pesos) == None then e == Falla(t, SINTAXIS)
              else "GET" in p && UltimaParte(p, "GET") == [] ==> e == Efecto(t, Panico)
  {
  }

  lemma ConfigurarAvisa(t: Tabla, ahora: nat, p: seq<string>, valores: seq<string>)
    ensures CambioAvisado(t, Configurar(t, ahora, p, valores))
  {
  }

  lemma ExternoAvisa(t: Tabla, ahora: nat, p: seq<string>, valores: seq<string>, pesos: seq<string>, objetos: seq<string>)
    ensures CambioAvisado(t, Externo(t, ahora, p, valores, pesos, objetos))
  {
    if Tuplas(t, ahora, valores, pesos).Some? {
      ConfigurarAvisa(t, ahora, p, Primeros(OrdenarPor(Tuplas(t, ahora, valores, pesos).value, Peso)));
    }
  }

  lemma SortDeAvisa(t: Tabla, ahora: nat, p: seq<string>, valores: seq<string>, pesos: seq<string>, objetos: seq<string>)
    ensures CambioAvisado(t, EfectoSortDe(t, ahora, p, valores, pesos, objetos))
  {
    if "BY" in p {
      ExternoAvisa(t, ahora, p, valores, pesos, objetos);
    } else {
      ConfigurarAvisa(t, ahora, p, OrdenarTextos(valores));
    }
  }

  /** STORE sends the snapshot of what it saved, and nothing else is sent. */
  lemma SortAvisa(t: Tabla, ahora: nat, p: seq<string>, valores: seq<string>, pesos: seq<string>, objetos: seq<string>)
    ensures CambioAvisado(t, EfectoSort(t, ahora, p, valores, pesos, objetos))
  {
    SortDeAvisa(t, ahora, p, valores, pesos, objetos);
  }

  // ---- With BY: the join ----

  /** The segment that ties a value to its weight is what stands after the last underscore, or the whole text. */
  lemma {:induction false} IndiceTrasElUltimo(antes: string, segmento: string)
    requires '_' !in segmento
    ensures Indice(antes + "_" + segmento) == segmento && Indice(segmento) == segmento
  {
    var s := antes + "_" + segmento;
    if segmento == "" {
      assert s[|s| - 1] == '_';
    } else {
      var n := |segmento| - 1;
      assert s[..|s| - 1] == antes + "_" + segmento[..n];
      IndiceTrasElUltimo(antes, segmento[..n]);
    }
  }

  /** The pattern and the destination are what follows the last BY and the last STORE among the parameters. */
  lemma {:induction false} TrasElUltimo(antes: seq<string>, x: string, despues: seq<string>)
    requires x !in despues
    ensures UltimaParte(antes + [x] + despues, x) == despues
  {
    var e := antes + [x] + despues;
    if despues == [] {
      assert e[|e| - 1] == x;
    } else {
      var n := |despues| - 1;
      assert e[..|e| - 1] == antes + [x] + despues[..n];
      TrasElUltimo(antes, x, despues[..n]);
    }
  }

  /** The last of the segments that underscores separate. */
  function Segmento(s: string): string
  {
    var segmentos := Partir(s, "_");
    segmentos[|segmentos| - 1]
  }

  lemma IndiceEsSegmento(s: string)
    ensures Indice(s) == Segmento(s)
  {
    var segmentos := Partir(s, "_");
    var n := |segmentos| - 1;
    UnirPartir(s, "_");
    PartirSinCaracter(s, '_', '_');
    assert segmentos == segmentos[..n] + [segmentos[n]];
    assert '_' !in segmentos[n];
    if n > 0 { UnirAlFinal(segmentos[..n], segmentos[n], "_"); }
    IndiceTrasElUltimo(Unir(segmentos[..n], "_"), segmentos[n]);
  }

  lemma CoincidenSegmentos(valor: string, peso: string)
    ensures Coincide(valor, peso) <==> Segmento(valor) == Segmento(peso)
  {
    IndiceEsSegmento(valor);
    IndiceEsSegmento(peso);
  }

  /** The weight is the live text under the key. */
  lemma PesoEsElTexto(t: Tabla, ahora: nat, peso: string)
    ensures match PesoDe(t, ahora, peso)
            case Some(texto) => Vive(t, peso, Str(texto), ahora)
            case None => !(peso in t && !t[peso].Expiro(ahora) && t[peso].valor.Str?)
  {
  }

  /** How many weight keys end as the value does. */
  function Coincidencias(valor: string, pesos: seq<string>): nat
  {
    if pesos == [] then 0
    else Coincidencias(valor, pesos[..|pesos| - 1]) + if Segmento(valor) == Segmento(pesos[|pesos| - 1]) then 1 else 0
  }

  /** The tuple pairs a value with the live text of a weight key that ends as it does. */
  ghost predicate EsTupla(t: Tabla, ahora: nat, valores: seq<string>, pesos: seq<string>, tupla: (string, string))
  {
    && tupla.0 in valores
    && exists peso :: peso in pesos && Segmento(tupla.0) == Segmento(peso) && Vive(t, peso, Str(tupla.1), ahora)
  }

  lemma {:induction false} TuplasDeUno(t: Tabla, ahora: nat, valor: string, pesos: seq<string>)
    requires TuplasDe(t, ahora, valor, pesos).Some?
    ensures var ts := TuplasDe(t, ahora, valor, pesos).value;
            && |ts| == Coincidencias(valor, pesos)
            && forall x | x in ts :: EsTupla(t, ahora, [valor], pesos, x)
  {
    if pesos != [] {
      var n := |pesos| - 1;
      TuplasDeUno(t, ahora, valor, pesos[..n]);
      CoincidenSegmentos(valor, pesos[n]);
      PesoEsElTexto(t, ahora, pesos[n]);
      var antes, ts := TuplasDe(t, ahora, valor, pesos[..n]).value, TuplasDe(t, ahora, valor, pesos).value;
      forall x | x in ts ensures EsTupla(t, ahora, [valor], pesos, x) {
        if x in antes {
          var peso :| peso in pesos[..n] && Segmento(x.0) == Segmento(peso) && Vive(t, peso, Str(x.1), ahora);
          assert peso in pesos;
        } else {
          assert pesos[n] in pesos;
        }
      }
    }
  }

  lemma {:induction false} TodasSonTuplas(t: Tabla, ahora: nat, valores: seq<string>, pesos: seq<string>)
    requires Tuplas(t, ahora, valores, pesos).Some?
    ensures forall x | x in Tuplas(t, ahora, valores, pesos).value :: EsTupla(t, ahora, valores, pesos, x)
  {
    if valores != [] {
      var n := |valores| - 1;
      TodasSonTuplas(t, ahora, valores[..n], pesos);
      TuplasDeUno(t, ahora, valores[n], pesos);
      var antes, nuevas := Tuplas(t, ahora, valores[..n], pesos).value, TuplasDe(t, ahora, valores[n], pesos).value;
      forall x | x in antes + nuevas ensures EsTupla(t, ahora, valores, pesos, x) {
        if x in nuevas {
          assert EsTupla(t, ahora, [valores[n]], pesos, x);
        } else {
          assert EsTupla(t, ahora, valores[..n], pesos, x);
        }
      }
    }
  }

  lemma PrimerosConcat(a: seq<(string, string)>, b: seq<(string, string)>)
    ensures Primeros(a + b) == Primeros(a) + Primeros(b)
  {
  }

  /** When each value matches one weight key the join keeps the values in their order. */
  lemma {:induction false} UnionEnOrden(t: Tabla, ahora: nat, valores: seq<string>, pesos: seq<string>)
    requires Tuplas(t, ahora, valores, pesos).Some? && forall v | v in valores :: Coincidencias(v, pesos) == 1
    ensures Primeros(Tuplas(t, ahora, valores, pesos).value) == valores
  {
    if valores != [] {
      var n := |valores| - 1;
      assert valores == valores[..n] + [valores[n]];
      UnionEnOrden(t, ahora, valores[..n], pesos);
      TuplasDeUno(t, ahora, valores[n], pesos);
      var antes, nuevas := Tuplas(t, ahora, valores[..n], pesos).value, TuplasDe(t, ahora, valores[n], pesos).value;
      PrimerosConcat(antes, nuevas);
      assert nuevas[0] in nuevas;
      assert EsTupla(t, ahora, [valores[n]], pesos, nuevas[0]);
      assert Primeros(nuevas) == [valores[n]];
    }
  }

  lemma {:induction false} TodosIguales(s: seq<string>, v: string, x: string)
    requires forall i | 0 <= i < |s| :: s[i] == v
    ensures multiset(s)[x] == if x == v then |s| else 0
  {
    if s != [] {
      var n := |s| - 1;
      assert s == s[..n] + [s[n]];
      TodosIguales(s[..n], v, x);
    }
  }

  /** Each value appears once for each time it was there and each weight key that it matches. */
  lemma {:induction false} CuentaDeLaUnion(t: Tabla, ahora: nat, valores: seq<string>, pesos: seq<string>, x: string)
    requires Tuplas(t, ahora, valores, pesos).Some?
    ensures multiset(Primeros(Tuplas(t, ahora, valores, pesos).value))[x]
         == multiset(valores)[x] * Coincidencias(x, pesos)
  {
    if valores != [] {
      var n := |valores| - 1;
      var v := valores[n];
      CuentaDeLaUnion(t, ahora, valores[..n], pesos, x);
      TuplasDeUno(t, ahora, v, pesos);
      var antes, nuevas := Tuplas(t, ahora, valores[..n], pesos).value, TuplasDe(t, ahora, v, pesos).value;
      PrimerosConcat(antes, nuevas);
      forall i | 0 <= i < |nuevas| ensures Primeros(nuevas)[i] == v {
        assert nuevas[i] in nuevas;
        assert EsTupla(t, ahora, [v], pesos, nuevas[i]);
      }
      TodosIguales(Primeros(nuevas), v, x);
      UnaMas(valores[..n], v, x, Coincidencias(x, pesos));
      assert valores == valores[..n] + [v];
    }
  }

  lemma UnaMas(s: seq<string>, v: string, x: string, c: nat)
    ensures multiset(s + [v])[x] * c == multiset(s)[x] * c + if x == v then c else 0
  {
  }

  lemma VecesUno(m: nat, c: nat)
    requires m > 0
    ensures m * c == m <==> c == 1
  {
    if c > 1 { assert m * c == m + m * (c - 1); }
  }

  /** The values come out of the join as they went in, each once, if and only if each matches exactly one weight key. */
  lemma UnionConserva(t: Tabla, ahora: nat, valores: seq<string>, pesos: seq<string>)
    requires Tuplas(t, ahora, valores, pesos).Some?
    ensures multiset(Primeros(Tuplas(t, ahora, valores, pesos).value)) == multiset(valores)
      <==> forall v | v in valores :: Coincidencias(v, pesos) == 1
  {
    var salen := Primeros(Tuplas(t, ahora, valores, pesos).value);
    forall x ensures multiset(salen)[x] == multiset(valores)[x] <==> x !in valores || Coincidencias(x, pesos) == 1 {
      CuentaDeLaUnion(t, ahora, valores, pesos, x);
      assert x in valores <==> x in multiset(valores);
      if x in valores { VecesUno(multiset(valores)[x], Coincidencias(x, pesos)); }
    }
    if forall v | v in valores :: Coincidencias(v, pesos) == 1 {
      assert multiset(salen) == multiset(valores);
    } else {
      var v :| v in valores && Coincidencias(v, pesos) != 1;
      assert multiset(salen)[v] != multiset(valores)[v];
    }
  }

  lemma SinUno<T>(x: T, a: seq<T>, b: seq<T>, c: seq<T>)
    requires multiset([x] + a) == multiset(b + [x] + c)
    ensures multiset(a) == multiset(b + c)
  {
    assert multiset([x] + a) == multiset{x} + multiset(a);
    assert multiset(b + [x] + c) == multiset{x} + multiset(b + c);
    forall y ensures multiset(a)[y] == multiset(b + c)[y] {
      assert multiset([x] + a)[y] == multiset{x}[y] + multiset(a)[y];
    }
  }

  lemma {:induction false} PrimerosConserva(a: seq<(string, string)>, b: seq<(string, string)>)
    requires multiset(a) == multiset(b)
    ensures multiset(Primeros(a)) == multiset(Primeros(b))
  {
    if a == [] {
      assert |multiset(b)| == 0;
    } else {
      var x := a[0];
      assert a == [x] + a[1..];
      assert x in multiset(b);
      var i :| 0 <= i < |b| && b[i] == x;
      assert b == b[..i] + [x] + b[i + 1..];
      var b' := b[..i] + b[i + 1..];
      SinUno(x, a[1..], b[..i], b[i + 1..]);
      PrimerosConserva(a[1..], b');
      PrimerosConcat([x], a[1..]);
      PrimerosConcat(b[..i], [x]);
      PrimerosConcat(b[..i] + [x], b[i + 1..]);
      PrimerosConcat(b[..i], b[i + 1..]);
    }
  }

  /** SORT BY with as many weight keys as values, all of them live strings, and no GET, DESC, LIMIT or STORE: the reply
      is the values of the joined tuples, non-decreasing in weight text, ties in the order of the join. It is a
      permutation of the values exactly when each of them matches one weight key, and then the join has their order. */
  lemma SortPorPesos(t: Tabla, ahora: nat, p: seq<string>, valores: seq<string>, pesos: seq<string>, objetos: seq<string>)
    returns (tuplas: seq<(string, string)>)
    requires Ordenable(t, ahora, p) && valores != [] && |pesos| == |valores|
    requires "BY" in p && UltimaParte(p, "BY") != [] && "GET" !in p && "DESC" !in p && "LIMIT" !in p && "STORE" !in p
    requires Tuplas(t, ahora, valores, pesos).Some?
    ensures EfectoSort(t, ahora, p, valores, pesos, objetos) == Efecto(t, Responde(Vector(Simples(Primeros(tuplas)))))
    ensures Ordenada(tuplas, Peso) && MismosPorClave(tuplas, Tuplas(t, ahora, valores, pesos).value, Peso)
    ensures forall x | x in tuplas :: EsTupla(t, ahora, valores, pesos, x)
    ensures multiset(Primeros(tuplas)) == multiset(valores) <==> forall v | v in valores :: Coincidencias(v, pesos) == 1
    ensures multiset(Primeros(tuplas)) == multiset(valores) ==>
              Primeros(Tuplas(t, ahora, valores, pesos).value) == valores
  {
    var union := Tuplas(t, ahora, valores, pesos).value;
    tuplas := OrdenarPor(union, Peso);
    OrdenarOrdenada(union, Peso);
    OrdenarConserva(union, Peso);
    forall w: string ensures ConClave(tuplas, Peso, w) == ConClave(union, Peso, w) {
      OrdenarEstable(union, Peso, w);
    }
    TodasSonTuplas(t, ahora, valores, pesos);
    forall x | x in tuplas ensures EsTupla(t, ahora, valores, pesos, x) {
      assert x in multiset(tuplas);
      assert x in multiset(union);
    }
    PrimerosConserva(tuplas, union);
    UnionConserva(t, ahora, valores, pesos);
    if multiset(Primeros(tuplas)) == multiset(valores) { UnionEnOrden(t, ahora, valores, pesos); }
  }

  /** The join succeeds exactly when every weight key that some value matches holds a live string. */
  lemma {:induction false} UnionCompleta(t: Tabla, ahora: nat, valores: seq<string>, pesos: seq<string>)
    ensures Tuplas(t, ahora, valores, pesos).Some? <==>
            forall v, w | v in valores && w in pesos && Segmento(v) == Segmento(w) ::
              w in t && !t[w].Expiro(ahora) && t[w].valor.Str?
  {
    if valores != [] {
      var n := |valores| - 1;
      assert valores == valores[..n] + [valores[n]];
      UnionCompleta(t, ahora, valores[..n], pesos);
      UnaCompleta(t, ahora, valores[n], pesos);
    }
  }

  lemma {:induction false} UnaCompleta(t: Tabla, ahora: nat, valor: string, pesos: seq<string>)
    ensures TuplasDe(t, ahora, valor, pesos).Some? <==>
            forall w | w in pesos && Segmento(valor) == Segmento(w) :: w in t && !t[w].Expiro(ahora) && t[w].valor.Str?
  {
    if pesos != [] {
      var n := |pesos| - 1;
      assert pesos == pesos[..n] + [pesos[n]];
      UnaCompleta(t, ahora, valor, pesos[..n]);
      CoincidenSegmentos(valor, pesos[n]);
      PesoEsElTexto(t, ahora, pesos[n]);
    }
  }

  /** With DESC, LIMIT or STORE: the same for the window of those values, or of their reverse. */
  lemma SortPorPesosConfigurado(t: Tabla, ahora: nat, p: seq<string>, valores: seq<string>, pesos: seq<string>,
                                objetos: seq<string>, tuplas: seq<(string, string)>, elegidos: seq<string>)
    requires Ordenable(t, ahora, p) && valores != [] && |pesos| == |valores|
    requires "BY" in p && UltimaParte(p, "BY") != [] && "GET" !in p && Tuplas(t, ahora, valores, pesos).Some?
    requires Ordenada(tuplas, Peso) && MismosPorClave(tuplas, Tuplas(t, ahora, valores, pesos).value, Peso)
    requires 0 < |tuplas| <= MAX_I32
    requires Limitado(p, if "DESC" in p then Invertir(Primeros(tuplas)) else Primeros(tuplas), elegidos)
    ensures Entrega(t, ahora, p, elegidos, EfectoSort(t, ahora, p, valores, pesos, objetos))
  {
    UnicasTuplas(Tuplas(t, ahora, valores, pesos).value, tuplas);
    ConfigurarEntrega(t, ahora, p, Primeros(tuplas), elegidos);
  }

  /** Any stable order of the tuples is the one that the command takes. */
  lemma UnicasTuplas(union: seq<(string, string)>, tuplas: seq<(string, string)>)
    requires Ordenada(tuplas, Peso) && MismosPorClave(tuplas, union, Peso)
    ensures OrdenarPor(union, Peso) == tuplas
  {
    OrdenarOrdenada(union, Peso);
    forall w: string ensures ConClave(OrdenarPor(union, Peso), Peso, w) == ConClave(tuplas, Peso, w) {
      OrdenarEstable(union, Peso, w);
      assert ConClave(tuplas, Peso, w) == ConClave(union, Peso, w);
    }
    EstableEsUnica(OrdenarPor(union, Peso), tuplas, Peso);
  }

  // ---- GET ----

  /** The live texts under the keys that hold the value somewhere in their name, in the order of the keys. */
  function Hallados(t: Tabla, ahora: nat, valor: string, objetos: seq<string>): seq<string>
  {
    if objetos == [] then []
    else
      var k := objetos[0];
      (if (exists i | 0 <= i <= |k| :: valor <= k[i..]) && k in t && !t[k].Expiro(ahora) && t[k].valor.Str?
       then [t[k].valor.texto] else []) + Hallados(t, ahora, valor, objetos[1..])
  }

  lemma {:induction false} ContieneAlguna(s: string, parte: string)
    ensures Contiene(s, parte) <==> exists i | 0 <= i <= |s| :: parte <= s[i..]
  {
    if parte <= s {
      assert parte <= s[0..];
    } else if s != "" {
      ContieneAlguna(s[1..], parte);
      if Contiene(s[1..], parte) {
        var i :| 0 <= i <= |s| - 1 && parte <= s[1..][i..];
        assert s[1..][i..] == s[i + 1..];
      }
      if i :| 0 <= i <= |s| && parte <= s[i..] {
        assert s[0..] == s;
        assert s[1..][i - 1..] == s[i..];
      }
    } else {
      assert forall i | 0 <= i <= |s| :: s[i..] == s;
    }
  }

  lemma {:induction false} HalladosAlFinal(t: Tabla, ahora: nat, valor: string, objetos: seq<string>, k: string)
    ensures Hallados(t, ahora, valor, objetos + [k])
         == Hallados(t, ahora, valor, objetos) + Hallados(t, ahora, valor, [k])
  {
    if objetos == [] {
      assert objetos + [k] == [k];
    } else {
      assert (objetos + [k])[1..] == objetos[1..] + [k];
      HalladosAlFinal(t, ahora, valor, objetos[1..], k);
    }
  }

  lemma {:induction false} TextosSonHallados(t: Tabla, ahora: nat, valor: string, objetos: seq<string>)
    ensures TextosDe(t, ahora, valor, objetos) == Hallados(t, ahora, valor, objetos)
  {
    if objetos != [] {
      var n := |objetos| - 1;
      assert objetos == objetos[..n] + [objetos[n]];
      TextosSonHallados(t, ahora, valor, objetos[..n]);
      HalladosAlFinal(t, ahora, valor, objetos[..n], objetos[n]);
      ContieneAlguna(objetos[n], valor);
      PesoEsElTexto(t, ahora, objetos[n]);
    }
  }

  /** The objects of all the values, in the order of the values. */
  function TodosHallados(t: Tabla, ahora: nat, valores: seq<string>, objetos: seq<string>): seq<string>
  {
    if valores == [] then []
    else Hallados(t, ahora, valores[0], objetos) + TodosHallados(t, ahora, valores[1..], objetos)
  }

  /** How many values before the first with an object. */
  function Primeras(t: Tabla, ahora: nat, valores: seq<string>, objetos: seq<string>): nat
  {
    if valores == [] || Hallados(t, ahora, valores[0], objetos) != [] then 0
    else 1 + Primeras(t, ahora, valores[1..], objetos)
  }

  lemma {:induction false} UnoMasConObjetos(t: Tabla, ahora: nat, valores: seq<string>, x: string, objetos: seq<string>)
    ensures TodosHallados(t, ahora, valores + [x], objetos)
         == TodosHallados(t, ahora, valores, objetos) + Hallados(t, ahora, x, objetos)
    ensures Primeras(t, ahora, valores, objetos) <= |valores|
    ensures Primeras(t, ahora, valores, objetos) == |valores| <==> TodosHallados(t, ahora, valores, objetos) == []
    ensures Primeras(t, ahora, valores + [x], objetos) == Primeras(t, ahora, valores, objetos) +
            if TodosHallados(t, ahora, valores, objetos) == [] && Hallados(t, ahora, x, objetos) == [] then 1 else 0
  {
    if valores == [] {
      assert valores + [x] == [x] && [x][1..] == [];
    } else {
      assert (valores + [x])[1..] == valores[1..] + [x];
      UnoMasConObjetos(t, ahora, valores[1..], x, objetos);
    }
  }

  function Nulos(n: nat): seq<ResultadoRedis> { seq(n, _ => Nil) }

  /** The reply and the flag as they should be after some values. */
  predicate SonBuscados(r: seq<ResultadoRedis>, pusheado: bool, n: nat, todos: seq<string>)
  {
    pusheado == (todos != []) && r == Nulos(n) + Simples(todos)
  }

  lemma UnaVueltaMas(r: seq<ResultadoRedis>, pusheado: bool, n: nat, todos: seq<string>, mas: seq<string>)
    requires SonBuscados(r, pusheado, n, todos)
    ensures var p := pusheado || mas != [];
            SonBuscados(r + Simples(mas) + (if p then [] else [Nil]), p,
                        n + (if todos == [] && mas == [] then 1 else 0), todos + mas)
  {
    if mas != [] || pusheado {
      ConHallados(n, todos, mas);
    } else {
      SinHallados(n);
      assert todos + mas == [];
    }
  }

  lemma ConHallados(n: nat, todos: seq<string>, mas: seq<string>)
    ensures Nulos(n) + Simples(todos) + Simples(mas) + [] == Nulos(n) + Simples(todos + mas)
  {
    assert Simples(todos + mas) == Simples(todos) + Simples(mas);
  }

  lemma SinHallados(n: nat)
    ensures Nulos(n) + Simples([]) + Simples([]) + [Nil] == Nulos(n + 1) + Simples([])
  {
  }

  /** One turn of the loop of GET. */
  lemma UnaVuelta(t: Tabla, ahora: nat, antes: seq<string>, x: string, objetos: seq<string>)
    ensures var (r, pusheado), mas := Buscados(t, ahora, antes, objetos), Hallados(t, ahora, x, objetos);
            var p := pusheado || mas != [];
            Buscados(t, ahora, antes + [x], objetos) == (r + Simples(mas) + (if p then [] else [Nil]), p)
  {
    var valores := antes + [x];
    assert valores[..|antes|] == antes && valores[|antes|] == x;
    TextosSonHallados(t, ahora, x, objetos);
  }

  lemma {:induction false} BuscadosSon(t: Tabla, ahora: nat, valores: seq<string>, objetos: seq<string>)
    ensures var (r, pusheado) := Buscados(t, ahora, valores, objetos);
            SonBuscados(r, pusheado, Primeras(t, ahora, valores, objetos), TodosHallados(t, ahora, valores, objetos))
  {
    if valores == [] {
      assert Nulos(0) + Simples([]) == [];
    } else {
      var antes, x := valores[..|valores| - 1], valores[|valores| - 1];
      BuscadosSon(t, ahora, antes, objetos);
      UnoMasSon(t, ahora, antes, x, objetos);
      assert valores == antes + [x];
    }
  }

  lemma UnoMasSon(t: Tabla, ahora: nat, antes: seq<string>, x: string, objetos: seq<string>)
    requires var (r, pusheado) := Buscados(t, ahora, antes, objetos);
             SonBuscados(r, pusheado, Primeras(t, ahora, antes, objetos), TodosHallados(t, ahora, antes, objetos))
    ensures var valores := antes + [x];
            var (r, pusheado) := Buscados(t, ahora, valores, objetos);
            SonBuscados(r, pusheado, Primeras(t, ahora, valores, objetos), TodosHallados(t, ahora, valores, objetos))
  {
    var (r, pusheado) := Buscados(t, ahora, antes, objetos);
    UnoMasConObjetos(t, ahora, antes, x, objetos);
    UnaVuelta(t, ahora, antes, x, objetos);
    UnaVueltaMas(r, pusheado, Primeras(t, ahora, antes, objetos), TodosHallados(t, ahora, antes, objetos),
                 Hallados(t, ahora, x, objetos));
  }

  /** SORT BY with GET: one Nil for each value before the first with an object, and then every object of every value, in
      their order; nothing for later values without any. DESC, LIMIT and STORE change nothing about it. */
  lemma SortConGet(t: Tabla, ahora: nat, p: seq<string>, valores: seq<string>, pesos: seq<string>, objetos: seq<string>,
                   tuplas: seq<(string, string)>)
    requires Ordenable(t, ahora, p) && valores != [] && |pesos| == |valores|
    requires "BY" in p && UltimaParte(p, "BY") != [] && "GET" in p && UltimaParte(p, "GET") != []
    requires Tuplas(t, ahora, valores, pesos).Some?
    requires Ordenada(tuplas, Peso) && MismosPorClave(tuplas, Tuplas(t, ahora, valores, pesos).value, Peso)
    ensures var ordenados := Primeros(tuplas);
            EfectoSort(t, ahora, p, valores, pesos, objetos)
              == Efecto(t, Responde(Vector(Nulos(Primeras(t, ahora, ordenados, objetos))
                                           + Simples(TodosHallados(t, ahora, ordenados, objetos)))))
  {
    UnicasTuplas(Tuplas(t, ahora, valores, pesos).value, tuplas);
    BuscadosSon(t, ahora, Primeros(tuplas), objetos);
  }

  /** What a reader of the code may expect: a value without any object answers Nil. */
  function BuscadosPorValor(t: Tabla, ahora: nat, valores: seq<string>, objetos: seq<string>): seq<ResultadoRedis>
  {
    if valores == [] then []
    else
      var n := |valores| - 1;
      var hallados := Hallados(t, ahora, valores[n], objetos);
      BuscadosPorValor(t, ahora, valores[..n], objetos) + if hallados == [] then [Nil] else Simples(hallados)
  }

  predicate AlgunoHallado(t: Tabla, ahora: nat, valores: seq<string>, objetos: seq<string>)
  {
    exists i | 0 <= i < |valores| :: Hallados(t, ahora, valores[i], objetos) != []
  }

  /** No value without an object stands behind one that has some. */
  predicate FaltanPrimero(t: Tabla, ahora: nat, valores: seq<string>, objetos: seq<string>)
  {
    forall i, j | 0 <= i < j < |valores| ::
      Hallados(t, ahora, valores[i], objetos) != [] ==> Hallados(t, ahora, valores[j], objetos) != []
  }

  lemma AlgunoMas(t: Tabla, ahora: nat, antes: seq<string>, x: string, objetos: seq<string>)
    ensures AlgunoHallado(t, ahora, antes + [x], objetos)
      <==> AlgunoHallado(t, ahora, antes, objetos) || Hallados(t, ahora, x, objetos) != []
  {
    var valores, n := antes + [x], |antes|;
    assert valores[n] == x;
    if i :| 0 <= i < n && Hallados(t, ahora, antes[i], objetos) != [] {
      assert Hallados(t, ahora, valores[i], objetos) != [];
    }
  }

  lemma FaltanMas(t: Tabla, ahora: nat, antes: seq<string>, x: string, objetos: seq<string>)
    ensures FaltanPrimero(t, ahora, antes + [x], objetos)
      <==> FaltanPrimero(t, ahora, antes, objetos)
           && (AlgunoHallado(t, ahora, antes, objetos) ==> Hallados(t, ahora, x, objetos) != [])
  {
    var valores, n := antes + [x], |antes|;
    assert valores[n] == x && forall i | 0 <= i < n :: valores[i] == antes[i];
    if FaltanPrimero(t, ahora, valores, objetos) {
      forall i, j | 0 <= i < j < n && Hallados(t, ahora, antes[i], objetos) != []
        ensures Hallados(t, ahora, antes[j], objetos) != []
      {
        assert Hallados(t, ahora, valores[i], objetos) != [] ==> Hallados(t, ahora, valores[j], objetos) != [];
      }
      if i :| 0 <= i < n && Hallados(t, ahora, antes[i], objetos) != [] {
        assert Hallados(t, ahora, valores[i], objetos) != [] ==> Hallados(t, ahora, valores[n], objetos) != [];
      }
    }
  }

  /** Nil stands for a missing object of each value exactly when the values without objects come first. */
  lemma {:induction false} NilPorValor(t: Tabla, ahora: nat, valores: seq<string>, objetos: seq<string>)
    ensures var (r, pusheado) := Buscados(t, ahora, valores, objetos);
            var d := BuscadosPorValor(t, ahora, valores, objetos);
            && pusheado == AlgunoHallado(t, ahora, valores, objetos) && |r| <= |d|
            && (r == d <==> FaltanPrimero(t, ahora, valores, objetos))
  {
    if valores != [] {
      var n := |valores| - 1;
      NilPorValor(t, ahora, valores[..n], objetos);
      assert valores == valores[..n] + [valores[n]];
      UnaVuelta(t, ahora, valores[..n], valores[n], objetos);
      AlgunoMas(t, ahora, valores[..n], valores[n], objetos);
      FaltanMas(t, ahora, valores[..n], valores[n], objetos);
      var hallados := Hallados(t, ahora, valores[n], objetos);
      var (antes, habia) := Buscados(t, ahora, valores[..n], objetos);
      var d := BuscadosPorValor(t, ahora, valores[..n], objetos);
      if hallados != [] {
        MismoFinal(antes, d, Simples(hallados));
      } else if !habia {
        MismoFinal(antes, d, [Nil]);
      }
    }
  }

  lemma MismoFinal<T>(a: seq<T>, b: seq<T>, c: seq<T>)
    ensures a + c == b + c <==> a == b
  {
    if a + c == b + c {
      assert a == (a + c)[..|a|] && b == (b + c)[..|b|];
    }
  }
}
