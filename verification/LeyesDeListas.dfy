/** What the list commands promise: LRANGE by index, LREM by cut, push and pop as inverses, and the invariant that no
    stored list is empty. */
module LeyesDeListas {
  import opened Basicos
  import opened Cadenas
  import opened Decimal
  import opened Orden
  import opened Valores
  import opened BaseDeDatos
  import opened Efectos
  import opened Listas
  import opened Sort
  import opened LeyesDeSort
  import opened Claves

  /** The live list under a key, or none of it. */
  function ListaDe(t: Tabla, clave: string, ahora: nat): seq<string>
  {
    match Obtener(t, clave, ahora)
    case Some(Lista(lista)) => lista
    case _ => []
  }

  // ---- LRANGE ----

  /** The elements whose index lies between two bounds, in order. */
  function Entre(lista: seq<string>, desde: int, hasta: int): seq<string>
  {
    if lista == [] then []
    else
      var n := |lista| - 1;
      Entre(lista[..n], desde, hasta) + (if desde <= n <= hasta then [lista[n]] else [])
  }

  function Normalizado(i: int, n: nat): int { if i < 0 then i + n else i }

  function Max(a: int, b: int): int { if a < b then b else a }

  function Min(a: int, b: int): int { if a < b then a else b }

  function Tramo(lista: seq<string>, desde: nat, hasta: int): seq<string>
  {
    var fin := Min(hasta + 1, |lista|);
    if desde < fin then lista[desde..fin] else []
  }

  lemma UnoMasDelTramo(antes: seq<string>, x: string, desde: nat, hasta: int)
    ensures Tramo(antes + [x], desde, hasta) == Tramo(antes, desde, hasta) + if desde <= |antes| <= hasta then [x] else []
  {
  }

  lemma {:induction false} EntreEsTramo(lista: seq<string>, desde: nat, hasta: int)
    ensures Entre(lista, desde, hasta) == Tramo(lista, desde, hasta)
  {
    if lista != [] {
      var n := |lista| - 1;
      EntreEsTramo(lista[..n], desde, hasta);
      UnoMasDelTramo(lista[..n], lista[n], desde, hasta);
      assert lista == lista[..n] + [lista[n]];
    }
  }

  lemma IndiceInferior(inicio: i32, limite: i32)
    requires 0 <= limite
    ensures var r := ObtenerIndiceInferior(inicio, limite);
            if limite <= inicio then r == None
            else r.Some? && r.value as int == Max(0, Normalizado(inicio as int, limite as nat))
  {
  }

  lemma IndiceSuperior(fin: i32, limite: i32)
    requires 0 <= limite
    ensures var r := ObtenerIndiceSuperior(fin, limite);
            var f := Normalizado(fin as int, limite as nat);
            if f < 0 then r == None else r.Some? && r.value as int == Min(limite as int - 1, f)
  {
  }

  /** For every pair of 32-bit bounds the reply is the elements between the normalised ones; no addition overflows
      and no slice leaves the list. */
  lemma RecortarPorIndice(lista: seq<string>, inicio: i32, fin: i32)
    requires 0 < |lista| <= MAX_I32
    ensures var n := |lista|;
            var desde, hasta := Max(0, Normalizado(inicio as int, n)), Min(n - 1, Normalizado(fin as int, n));
            Recortar(lista, inicio, fin) == Responde(Entre(lista, desde, hasta))
  {
    var n := |lista|;
    var desde, hasta := Max(0, Normalizado(inicio as int, n)), Min(n - 1, Normalizado(fin as int, n));
    IndiceInferior(inicio, n as i32);
    IndiceSuperior(fin, n as i32);
    if desde <= hasta {
      RecortarEnRango(lista, desde, hasta);
    } else {
      EntreVacio(lista, desde, hasta);
    }
  }

  lemma RecortarEnRango(lista: seq<string>, desde: u64, hasta: u64)
    requires desde <= hasta < |lista| <= MAX_I32
    ensures RecortarEntre(lista, desde, hasta) == Responde(Entre(lista, desde, hasta))
  {
    EntreEsTramo(lista, desde, hasta);
  }

  lemma EntreVacio(lista: seq<string>, desde: nat, hasta: int)
    requires hasta < desde
    ensures Entre(lista, desde, hasta) == []
  {
    EntreEsTramo(lista, desde, hasta);
  }

  /** On a stored empty list it panics exactly when the start counts from the end and the stop does not. */
  lemma RecortarVacia(inicio: i32, fin: i32)
    ensures Recortar([], inicio, fin) == if inicio < 0 && 0 <= fin then Panico else Responde([])
  {
  }

  // ---- LREM ----

  function Sin(s: seq<string>, x: string): seq<string>
  {
    if s == [] then [] else Sin(s[..|s| - 1], x) + (if s[|s| - 1] == x then [] else [s[|s| - 1]])
  }

  function Cuenta(s: seq<string>, x: string): nat { multiset(s)[x] }

  lemma {:induction false} SinConcat(a: seq<string>, b: seq<string>, x: string)
    ensures Sin(a + b, x) == Sin(a, x) + Sin(b, x)
  {
    if b == [] {
      assert a + b == a;
    } else {
      var n := |b| - 1;
      assert (a + b)[..|a| + n] == a + b[..n];
      SinConcat(a, b[..n], x);
    }
  }

  lemma {:induction false} SinInvertir(s: seq<string>, x: string)
    ensures Sin(Invertir(s), x) == Invertir(Sin(s, x))
  {
    if s != [] {
      var n := |s| - 1;
      var a, u := s[..n], [s[n]];
      assert s == a + u;
      InvertirConcat(a, u);
      SinConcat(u, Invertir(a), x);
      SinInvertir(a, x);
      var w := if s[n] == x then [] else u;
      assert Sin(u, x) == w && Invertir(u) == u && Invertir(w) == w;
      InvertirConcat(Sin(a, x), w);
    }
  }

  lemma CuentaPartes(a: seq<string>, b: seq<string>, x: string)
    ensures Cuenta(a + b, x) == Cuenta(a, x) + Cuenta(b, x)
  {
  }

  /** The loop removes every `x` before some cut, and nothing after it; the cut is the end unless the limit was met. */
  lemma {:induction false} FiltrarCorta(lista: seq<string>, x: string, i: nat) returns (k: nat)
    ensures var (f, e) := Filtrar(lista, x, i);
            && k <= |lista| && f == Sin(lista[..k], x) + lista[k..]
            && e == Cuenta(lista[..k], x) <= i && (e < i ==> k == |lista|)
  {
    if lista == [] {
      k := 0;
    } else {
      var n := |lista| - 1;
      var antes := lista[..n];
      k := FiltrarCorta(antes, x, i);
      var y := lista[n];
      assert lista == antes + [y];
      var (f, e) := Filtrar(antes, x, i);
      if e < i {
        assert antes[..k] == antes && antes[k..] == [];
        SinConcat(antes, [y], x);
        CuentaPartes(antes, [y], x);
        k := n + 1;
        assert lista[..k] == lista && lista[k..] == [];
      } else {
        assert lista[..k] == antes[..k] && lista[k..] == antes[k..] + [y];
        Asociar(Sin(antes[..k], x), antes[k..], [y]);
      }
    }
  }

  /** `f` is the list without the `x` on one side of the cut `k`, and `e` is how many there were. */
  ghost predicate Cortada(lista: seq<string>, x: string, c: int, f: seq<string>, e: nat, k: nat)
  {
    && k <= |lista|
    && (if c < 0 then f == lista[..k] + Sin(lista[k..], x) && e == Cuenta(lista[k..], x)
        else f == Sin(lista[..k], x) + lista[k..] && e == Cuenta(lista[..k], x))
  }

  lemma QuitarDerecha(lista: seq<string>, x: string, c: int) returns (k: nat)
    requires c < 0
    ensures var (f, e) := Quitar(lista, x, c); Cortada(lista, x, c, f, e, k) && e <= -c && (e < -c ==> k == 0)
  {
    var inv := Invertir(lista);
    var j := FiltrarCorta(inv, x, -c);
    k := |lista| - j;
    var (f, e) := Filtrar(inv, x, -c);
    assert Quitar(lista, x, c) == (Invertir(f), e);
    FiltradaAlReves(lista, x, k, f, e);
  }

  /** What the loop leaves of the reversed list, with its cut at `j`, is the list cut at the mirror position. */
  lemma FiltradaAlReves(lista: seq<string>, x: string, k: nat, f: seq<string>, e: nat)
    requires var inv, j := Invertir(lista), |lista| - k;
             k <= |lista| && f == Sin(inv[..j], x) + inv[j..] && e == Cuenta(inv[..j], x)
    ensures Invertir(f) == lista[..k] + Sin(lista[k..], x) && e == Cuenta(lista[k..], x)
  {
    CorteInvertido(lista, k);
    CorteDerecho(lista, x, k, f);
    InvertirConserva(lista[k..]);
  }

  lemma CorteDerecho(lista: seq<string>, x: string, k: nat, f: seq<string>)
    requires k <= |lista| && f == Sin(Invertir(lista[k..]), x) + Invertir(lista[..k])
    ensures Invertir(f) == lista[..k] + Sin(lista[k..], x)
  {
    SinInvertir(lista[k..], x);
    InvertirInvertidas(lista[..k], Sin(lista[k..], x));
  }

  /** LREM with a non-zero count removes exactly min(|c|, occurrences) copies: those before a cut from the left, or
      those after a cut from the right; the rest stays in order. */
  lemma QuitarCorta(lista: seq<string>, x: string, c: int) returns (k: nat)
    ensures var (f, e) := Quitar(lista, x, c);
            e == Min(Max(c, -c), Cuenta(lista, x)) && Cortada(lista, x, c, f, e, k)
  {
    if c < 0 {
      k := QuitarDerecha(lista, x, c);
    } else {
      k := FiltrarCorta(lista, x, c);
    }
    assert lista == lista[..k] + lista[k..];
    CuentaPartes(lista[..k], lista[k..], x);
  }

  lemma CorteInvertido(lista: seq<string>, k: nat)
    requires k <= |lista|
    ensures Invertir(lista)[..|lista| - k] == Invertir(lista[k..])
    ensures Invertir(lista)[|lista| - k..] == Invertir(lista[..k])
  {
    assert lista == lista[..k] + lista[k..];
    InvertirConcat(lista[..k], lista[k..]);
  }

  lemma {:induction false} LargoSin(s: seq<string>, x: string)
    ensures |Sin(s, x)| + Cuenta(s, x) == |s|
  {
    if s != [] {
      LargoSin(s[..|s| - 1], x);
      assert s == s[..|s| - 1] + [s[|s| - 1]];
    }
  }

  /** The length goes down by the number replied, so a non-empty list loses its key exactly when it held nothing but
      the element and the count reaches its length. */
  lemma QuedaVacia(lista: seq<string>, x: string, c: int)
    ensures var (f, e) := Quitar(lista, x, c);
            && |f| + e == |lista|
            && (f == [] <==> Cuenta(lista, x) == |lista| <= Max(c, -c))
  {
    var k := QuitarCorta(lista, x, c);
    LargoSin(lista[..k], x);
    LargoSin(lista[k..], x);
    assert |multiset(lista)| == |lista|;
    LargoSin(lista, x);
  }

  /** A count of zero is documented as "remove all"; the code removes none, so it does what is documented exactly when
      the element does not occur. */
  lemma CeroNoQuita(lista: seq<string>, x: string)
    ensures Quitar(lista, x, 0) == (lista, 0)
    ensures Quitar(lista, x, 0) == (Sin(lista, x), Cuenta(lista, x)) <==> x !in lista
  {
    FiltrarCero(lista, x);
    LargoSin(lista, x);
    SinAusente(lista, x);
    assert x in multiset(lista) <==> x in lista;
  }

  lemma {:induction false} FiltrarCero(lista: seq<string>, x: string)
    ensures Filtrar(lista, x, 0) == (lista, 0)
  {
    if lista != [] {
      FiltrarCero(lista[..|lista| - 1], x);
      assert lista == lista[..|lista| - 1] + [lista[|lista| - 1]];
    }
  }

  lemma {:induction false} SinAusente(s: seq<string>, x: string)
    ensures Cuenta(s, x) == 0 ==> Sin(s, x) == s
  {
    if s != [] {
      SinAusente(s[..|s| - 1], x);
      assert s == s[..|s| - 1] + [s[|s| - 1]];
    }
  }

  // ---- Push and pop ----

  /** Popped and remaining parts reassemble the list. */
  lemma PopReune(lista: seq<string>, n: nat, reversed: bool)
    requires n <= |lista|
    ensures var (popped, resto) := PopDe(lista, n, reversed);
            |popped| == n && lista == if reversed then resto + popped else popped + resto
  {
  }

  lemma EmpujadaSale(lista: seq<string>, valores: seq<string>, alFinal: bool)
    ensures PopDe(Empujada(lista, valores, alFinal), |valores|, alFinal)
         == (if alFinal then valores else Invertir(valores), lista)
  {
  }

  /** The key admits a push: it holds a live list, or nothing and the command may create one. */
  predicate Empujable(t: Tabla, clave: string, ahora: nat, tipo: TipoPush)
  {
    match Obtener(t, clave, ahora)
    case None => !tipo.soloSiExiste
    case Some(v) => v.Lista?
  }

  lemma EfectoDePush(t: Tabla, ahora: nat, clave: string, valores: seq<string>, tipo: TipoPush)
    requires Empujable(t, clave, ahora, tipo)
    ensures var lista := ListaDe(t, clave, ahora);
            EfectoPush(t, ahora, [clave] + valores, tipo)
              == Guarda(t[clave := EntradaNoExpirable(Lista(Empujada(lista, valores, tipo.alFinal)), ahora)],
                        Int(|lista| + |valores|))
  {
    assert ([clave] + valores)[1..] == valores;
  }

  lemma EfectoDePop(t: Tabla, ahora: nat, clave: string, lista: seq<string>, n: u64, reversed: bool)
    requires Obtener(t, clave, ahora) == Some(Lista(lista)) && n <= |lista|
    ensures var (popped, resto) := PopDe(lista, n, reversed);
            EfectoPop(t, ahora, [clave, NatATexto(n)], reversed)
              == Guarda(GuardarLista(t, clave, resto, ahora), RespuestaPop(popped))
  {
    ParseSinSignoDeTexto(n, MAX_U64);
  }

  /** A pop of as many elements as were just pushed, at the same end and at any later time, returns them (reversed when
      they went in on the left) and leaves the list as it was before, or no key if there was none. */
  lemma PopDeshacePush(t: Tabla, t1: nat, t2: nat, clave: string, valores: seq<string>, tipo: TipoPush)
    requires 1 <= |valores| <= MAX_U64 && Empujable(t, clave, t1, tipo)
    ensures var lista := ListaDe(t, clave, t1);
            var empujado := EfectoPush(t, t1, [clave] + valores, tipo);
            var e := EfectoPop(empujado.tabla, t2, [clave, NatATexto(|valores|)], tipo.alFinal);
            && empujado.r == Responde(Int(|lista| + |valores|))
            && e.r == Responde(if |valores| == 1 then BulkStr(valores[0])
                               else Vector(Bulks(if tipo.alFinal then valores else Invertir(valores))))
            && e.tabla == if lista == [] then t - {clave} else t[clave := EntradaNoExpirable(Lista(lista), t2)]
  {
    var lista := ListaDe(t, clave, t1);
    EfectoDePush(t, t1, clave, valores, tipo);
    EmpujadaSale(lista, valores, tipo.alFinal);
    PopDeRecienEmpujada(t, t1, t2, clave, lista, valores, tipo.alFinal);
  }

  lemma PopDeRecienEmpujada(t: Tabla, t1: nat, t2: nat, clave: string, lista: seq<string>, valores: seq<string>, alFinal: bool)
    requires |valores| <= MAX_U64
    ensures var e := EntradaNoExpirable(Lista(Empujada(lista, valores, alFinal)), t1);
            EfectoPop(t[clave := e], t2, [clave, NatATexto(|valores|)], alFinal)
              == Guarda(if lista == [] then t - {clave} else t[clave := EntradaNoExpirable(Lista(lista), t2)],
                        RespuestaPop(if alFinal then valores else Invertir(valores)))
  {
    var e := EntradaNoExpirable(Lista(Empujada(lista, valores, alFinal)), t1);
    EmpujadaSale(lista, valores, alFinal);
    EfectoDePop(t[clave := e], t2, clave, Empujada(lista, valores, alFinal), |valores|, alFinal);
    Repuesta(t, clave, e, EntradaNoExpirable(Lista(lista), t2));
  }

  lemma Repuesta(t: Tabla, clave: string, e1: Entrada, e2: Entrada)
    ensures t[clave := e1] - {clave} == t - {clave}
    ensures t[clave := e1][clave := e2] == t[clave := e2]
  {
  }

  // ---- No stored list is empty ----

  /** The commands that store lists. SORT comes with the values and keys it finds, in any order. */
  datatype OrdenDeLista =
    | EmpujaLista(p: seq<string>, tipo: TipoPush)
    | SacaLista(p: seq<string>, reversed: bool)
    | QuitaLista(p: seq<string>)
    | PoneLista(p: seq<string>)
    | OrdenaLista(p: seq<string>, valores: seq<string>, pesos: seq<string>, objetos: seq<string>)
    | CopiaLista(p: seq<string>)

  function EfectoDe(t: Tabla, ahora: nat, orden: OrdenDeLista): Efecto
  {
    match orden
    case EmpujaLista(p, tipo) => EfectoPush(t, ahora, p, tipo)
    case SacaLista(p, reversed) => EfectoPop(t, ahora, p, reversed)
    case QuitaLista(p) => EfectoLrem(t, ahora, p)
    case PoneLista(p) => EfectoLset(t, ahora, p)
    case OrdenaLista(p, valores, pesos, objetos) => EfectoSort(t, ahora, p, valores, pesos, objetos)
    case CopiaLista(p) => EfectoCopiar(t, ahora, p)
  }

  predicate SinVacias(t: Tabla) { forall k | k in t :: t[k].valor != Lista([]) }

  /** STORE with nothing to store: LIMIT with a count of zero, or a join without tuples. */
  predicate GuardaVacia(p: seq<string>, n: nat)
  {
    && "STORE" in p && UltimaParte(p, "STORE") != []
    && if "LIMIT" in p then n > 0 && |Numeros(p)| > 1 && Numeros(p)[1] == 0 else n == 0
  }

  predicate SortGuardaVacia(t: Tabla, ahora: nat, p: seq<string>, valores: seq<string>, pesos: seq<string>)
  {
    && Ordenable(t, ahora, p) && valores != []
    && if "BY" in p then
         && UltimaParte(p, "BY") != [] && |pesos| == |valores| && "GET" !in p
         && Tuplas(t, ahora, valores, pesos).Some? && GuardaVacia(p, |Tuplas(t, ahora, valores, pesos).value|)
       else ("ALPHA" in p || TieneSoloValoresNumericos(valores)) && GuardaVacia(p, |valores|)
  }

  /** The commands that store an empty list: LPUSH or RPUSH with no value to push on a key that holds nothing, and SORT
      with nothing to store. */
  predicate CreaVacia(t: Tabla, ahora: nat, orden: OrdenDeLista)
  {
    match orden
    case EmpujaLista(p, tipo) => |p| == 1 && !tipo.soloSiExiste && Obtener(t, p[0], ahora) == None
    case OrdenaLista(p, valores, pesos, _) => SortGuardaVacia(t, ahora, p, valores, pesos)
    case _ => false
  }

  lemma GuardarNoVacia(t: Tabla, clave: string, lista: seq<string>, ahora: nat)
    requires SinVacias(t)
    ensures SinVacias(GuardarLista(t, clave, lista, ahora))
    ensures SinVacias(t[clave := EntradaNoExpirable(Lista(lista), ahora)]) <==> lista != []
  {
    assert clave in t[clave := EntradaNoExpirable(Lista(lista), ahora)];
  }

  lemma PushConserva(t: Tabla, ahora: nat, p: seq<string>, tipo: TipoPush)
    requires SinVacias(t)
    ensures SinVacias(EfectoPush(t, ahora, p, tipo).tabla) <==> !CreaVacia(t, ahora, EmpujaLista(p, tipo))
  {
    if p != [] {
      var nueva := Empujada(ListaDe(t, p[0], ahora), p[1..], tipo.alFinal);
      GuardarNoVacia(t, p[0], nueva, ahora);
    }
  }

  lemma PopConserva(t: Tabla, ahora: nat, p: seq<string>, reversed: bool)
    requires SinVacias(t)
    ensures SinVacias(EfectoPop(t, ahora, p, reversed).tabla)
  {
  }

  lemma LremConserva(t: Tabla, ahora: nat, p: seq<string>)
    requires SinVacias(t)
    ensures SinVacias(EfectoLrem(t, ahora, p).tabla)
  {
  }

  lemma LsetConserva(t: Tabla, ahora: nat, p: seq<string>)
    requires SinVacias(t)
    ensures SinVacias(EfectoLset(t, ahora, p).tabla)
  {
  }

  lemma CopiarConserva(t: Tabla, ahora: nat, p: seq<string>)
    requires SinVacias(t)
    ensures SinVacias(EfectoCopiar(t, ahora, p).tabla)
  {
  }

  /** LIMIT selects nothing from something only with a count of zero. */
  lemma RangoVacio(valores: seq<string>, offset: i32, count: i32)
    requires valores != []
    ensures Rango(valores, offset as int, count as int) == Responde([]) <==> count == 0
  {
  }

  lemma EntregarConserva(t: Tabla, ahora: nat, p: seq<string>, elegidos: seq<string>)
    requires SinVacias(t)
    ensures SinVacias(Entregar(t, ahora, p, elegidos).tabla)
      <==> !("STORE" in p && UltimaParte(p, "STORE") != [] && elegidos == [])
  {
    var ultima := UltimaParte(p, "STORE");
    if ultima != [] { GuardarNoVacia(t, ultima[0], elegidos, ahora); }
  }

  lemma ConfigurarConserva(t: Tabla, ahora: nat, p: seq<string>, valores: seq<string>)
    requires SinVacias(t)
    ensures SinVacias(Configurar(t, ahora, p, valores).tabla) <==> !GuardaVacia(p, |valores|)
  {
    var orden := if "DESC" in p then Invertir(valores) else valores;
    var numeros := Numeros(p);
    if "LIMIT" !in p {
      EntregarConserva(t, ahora, p, orden);
    } else if |numeros| > 1 && orden != [] {
      RangoVacio(orden, numeros[0], numeros[1]);
      match Rango(orden, numeros[0] as int, numeros[1] as int)
      case Responde(elegidos) => EntregarConserva(t, ahora, p, elegidos);
      case Panico =>
    }
  }

  lemma ExternoConserva(t: Tabla, ahora: nat, p: seq<string>, valores: seq<string>, pesos: seq<string>, objetos: seq<string>)
    requires SinVacias(t)
    ensures SinVacias(Externo(t, ahora, p, valores, pesos, objetos).tabla) <==>
            !(UltimaParte(p, "BY") != [] && |pesos| == |valores| && "GET" !in p && Tuplas(t, ahora, valores, pesos).Some?
              && GuardaVacia(p, |Tuplas(t, ahora, valores, pesos).value|))
  {
    if Tuplas(t, ahora, valores, pesos).Some? {
      var tuplas := Tuplas(t, ahora, valores, pesos).value;
      OrdenarConserva(tuplas, Peso);
      ConfigurarConserva(t, ahora, p, Primeros(OrdenarPor(tuplas, Peso)));
    }
  }

  lemma InternoConserva(t: Tabla, ahora: nat, p: seq<string>, valores: seq<string>)
    requires SinVacias(t)
    ensures SinVacias(Interno(t, ahora, p, valores).tabla) <==>
            !(("ALPHA" in p || TieneSoloValoresNumericos(valores)) && GuardaVacia(p, |valores|))
  {
    OrdenarConserva(valores, Identidad);
    ConfigurarConserva(t, ahora, p, OrdenarTextos(valores));
  }

  lemma SortDeConserva(t: Tabla, ahora: nat, p: seq<string>, valores: seq<string>, pesos: seq<string>, objetos: seq<string>)
    requires SinVacias(t) && Ordenable(t, ahora, p)
    ensures SinVacias(EfectoSortDe(t, ahora, p, valores, pesos, objetos).tabla)
      <==> !SortGuardaVacia(t, ahora, p, valores, pesos)
  {
    if "BY" in p {
      ExternoConserva(t, ahora, p, valores, pesos, objetos);
    } else {
      InternoConserva(t, ahora, p, valores);
    }
  }

  lemma SortConserva(t: Tabla, ahora: nat, p: seq<string>, valores: seq<string>, pesos: seq<string>, objetos: seq<string>)
    requires SinVacias(t)
    ensures SinVacias(EfectoSort(t, ahora, p, valores, pesos, objetos).tabla) <==> !SortGuardaVacia(t, ahora, p, valores, pesos)
  {
    if Ordenable(t, ahora, p) { SortDeConserva(t, ahora, p, valores, pesos, objetos); }
  }

  /** One command keeps the invariant, whatever it answers and even if it panics, exactly when it does not create an
      empty list itself. */
  lemma OrdenConserva(t: Tabla, ahora: nat, orden: OrdenDeLista)
    requires SinVacias(t)
    ensures SinVacias(EfectoDe(t, ahora, orden).tabla) <==> !CreaVacia(t, ahora, orden)
  {
    match orden
    case EmpujaLista(p, tipo) => PushConserva(t, ahora, p, tipo);
    case SacaLista(p, reversed) => PopConserva(t, ahora, p, reversed);
    case QuitaLista(p) => LremConserva(t, ahora, p);
    case PoneLista(p) => LsetConserva(t, ahora, p);
    case OrdenaLista(p, valores, pesos, objetos) => SortConserva(t, ahora, p, valores, pesos, objetos);
    case CopiaLista(p) => CopiarConserva(t, ahora, p);
  }

  lemma PushAvisa(t: Tabla, ahora: nat, p: seq<string>, tipo: TipoPush)
    ensures CambioAvisado(t, EfectoPush(t, ahora, p, tipo))
  {
  }

  lemma LremAvisa(t: Tabla, ahora: nat, p: seq<string>)
    ensures CambioAvisado(t, EfectoLrem(t, ahora, p))
  {
  }

  lemma LsetAvisa(t: Tabla, ahora: nat, p: seq<string>)
    ensures CambioAvisado(t, EfectoLset(t, ahora, p))
  {
  }

  /** No command changes the table without sending the new one to the observers. */
  lemma OrdenAvisa(t: Tabla, ahora: nat, orden: OrdenDeLista)
    ensures CambioAvisado(t, EfectoDe(t, ahora, orden))
  {
    match orden
    case EmpujaLista(p, tipo) => PushAvisa(t, ahora, p, tipo);
    case SacaLista(p, reversed) =>
    case QuitaLista(p) => LremAvisa(t, ahora, p);
    case PoneLista(p) => LsetAvisa(t, ahora, p);
    case OrdenaLista(p, valores, pesos, objetos) => SortAvisa(t, ahora, p, valores, pesos, objetos);
    case CopiaLista(p) =>
  }

  /** A sequential run, each command at its instant. */
  function Correr(t: Tabla, ordenes: seq<(nat, OrdenDeLista)>): Tabla
    decreases |ordenes|
  {
    if ordenes == [] then t else Correr(EfectoDe(t, ordenes[0].0, ordenes[0].1).tabla, ordenes[1..])
  }

  predicate NingunaCreaVacia(t: Tabla, ordenes: seq<(nat, OrdenDeLista)>)
    decreases |ordenes|
  {
    ordenes == [] || (!CreaVacia(t, ordenes[0].0, ordenes[0].1)
                      && NingunaCreaVacia(EfectoDe(t, ordenes[0].0, ordenes[0].1).tabla, ordenes[1..]))
  }

  /** No list is empty at the beginning, after any of the commands, or at the end. */
  predicate SiempreSinVacias(t: Tabla, ordenes: seq<(nat, OrdenDeLista)>)
    decreases |ordenes|
  {
    SinVacias(t) && (ordenes == [] || SiempreSinVacias(EfectoDe(t, ordenes[0].0, ordenes[0].1).tabla, ordenes[1..]))
  }

  predicate Indexables(t: Tabla) { forall k | k in t && t[k].valor.Lista? :: |t[k].valor.elementos| <= MAX_I32 }

  /** Over a run no list is ever empty if and only if no command creates one. */
  lemma {:induction false} NuncaHayVacias(t: Tabla, ordenes: seq<(nat, OrdenDeLista)>)
    requires SinVacias(t)
    ensures SiempreSinVacias(t, ordenes) <==> NingunaCreaVacia(t, ordenes)
    decreases |ordenes|
  {
    if ordenes != [] {
      var t' := EfectoDe(t, ordenes[0].0, ordenes[0].1).tabla;
      OrdenConserva(t, ordenes[0].0, ordenes[0].1);
      if SinVacias(t') { NuncaHayVacias(t', ordenes[1..]); }
    }
  }

  /** After such a run no LRANGE can panic. */
  lemma {:induction false} LrangeTrasLaCorrida(t: Tabla, ordenes: seq<(nat, OrdenDeLista)>, ahora: nat, p: seq<string>)
    requires SinVacias(t) && NingunaCreaVacia(t, ordenes) && Indexables(Correr(t, ordenes))
    ensures EfectoLrange(Correr(t, ordenes), ahora, p) != Panico
    decreases |ordenes|
  {
    if ordenes == [] {
      LrangeNoFalla(t, ahora, p);
    } else {
      OrdenConserva(t, ordenes[0].0, ordenes[0].1);
      LrangeTrasLaCorrida(EfectoDe(t, ordenes[0].0, ordenes[0].1).tabla, ordenes[1..], ahora, p);
    }
  }

  lemma LrangeNoFalla(t: Tabla, ahora: nat, p: seq<string>)
    requires SinVacias(t) && Indexables(t)
    ensures EfectoLrange(t, ahora, p) != Panico
  {
  }

  /** LPUSH k with no value, then LRANGE k -1 0: the empty list is stored, and the slice panics. */
  lemma VaciaHaceFallar(ahora: nat)
    ensures var t := EfectoPush(map[], ahora, ["k"], LPUSH).tabla;
            t == map["k" := EntradaNoExpirable(Lista([]), ahora)] && EfectoLrange(t, ahora, ["k", "-1", "0"]) == Panico
  {
  }

  // ---- LSET ----

  /** The index as a position, when it is one: a negative one counts from the end. */
  predicate EsPosicion(indice: int, n: nat) { 0 <= Normalizado(indice, n) < n }

  /** What is documented: the element at the index is replaced, and an index out of range is an error. */
  function EfectoLsetDocumentado(t: Tabla, ahora: nat, clave: string, indice: int, x: string): Efecto
  {
    if Falta(t, clave, ahora) then Falla(t, NO_ENTERO)
    else
      match t[clave].valor
      case Lista(lista) =>
        if !EsPosicion(indice, |lista|) then Falla(t, NO_ENTERO)
        else
          var nueva := lista[Normalizado(indice, |lista|) := x];
          Guarda(t[clave := EntradaNoExpirable(Lista(nueva), ahora)], StrSimple("OK"))
      case _ => Falla(t, WRONGTYPE)
  }

  /** LSET does what is documented if and only if the index names no position of a live list: the errors are right, and
      every successful call inserts. */
  lemma LsetEsElDocumentado(t: Tabla, ahora: nat, clave: string, indice: i32, x: string)
    ensures EfectoLset(t, ahora, [clave, IntATexto(indice as int), x])
              == EfectoLsetDocumentado(t, ahora, clave, indice as int, x)
      <==> !EsPosicion(indice as int, |ListaDe(t, clave, ahora)|)
  {
    var lista := ListaDe(t, clave, ahora);
    if EsPosicion(indice as int, |lista|) {
      LsetHace(t, ahora, clave, indice, x, lista, Lista(lista));
      var e, d := EfectoLset(t, ahora, [clave, IntATexto(indice as int), x]), EfectoLsetDocumentado(t, ahora, clave, indice as int, x);
      assert |ListaDe(e.tabla, clave, ahora)| == |lista| + 1 && |ListaDe(d.tabla, clave, ahora)| == |lista|;
    } else {
      LeerTres(clave, indice, x, "lset");
    }
  }

  /** The arguments in their places: the key, the index in decimal and the element. */
  lemma LeerTres(clave: string, indice: i32, x: string, nombre: string)
    ensures LeerArgumentos([clave, IntATexto(indice as int), x], nombre) == Bien(clave, indice, x)
  {
    ParseI32DeTexto(indice as int);
  }

  /** The whole effect of LSET: the new element stands at the position, all the old ones are still there in order, and no
      other key changes. */
  lemma LsetHace(t: Tabla, ahora: nat, clave: string, indice: i32, x: string, l: seq<string>, v: TipoRedis)
    ensures var e := EfectoLset(t, ahora, [clave, IntATexto(indice as int), x]);
            var i := Normalizado(indice as int, |l|);
            && (Falta(t, clave, ahora) ==> e == Falla(t, NO_ENTERO))
            && (Vive(t, clave, v, ahora) && !v.Lista? ==> e == Falla(t, WRONGTYPE))
            && (Vive(t, clave, Lista(l), ahora) ==>
                  e == if 0 <= i < |l|
                       then Guarda(t[clave := EntradaNoExpirable(Lista(l[..i] + [x] + l[i..]), ahora)], StrSimple("OK"))
                       else Falla(t, NO_ENTERO))
  {
    LeerTres(clave, indice, x, "lset");
  }

  // ---- The commands by their effects ----

  lemma EmpujadaEs(l: seq<string>, valores: seq<string>, alFinal: bool)
    ensures Empujada(l, valores, alFinal) == (if alFinal then l + valores else Invertir(valores) + l)
    ensures |Empujada(l, valores, alFinal)| == |l| + |valores|
  {
  }

  lemma EmpujarHace(t: Tabla, ahora: nat, clave: string, l: seq<string>, valores: seq<string>, alFinal: bool, nueva: seq<string>)
    requires nueva == Empujada(l, valores, alFinal)
    ensures EfectoEmpujar(t, ahora, clave, l, valores, alFinal)
         == Guarda(t[clave := EntradaNoExpirable(Lista(nueva), ahora)], Int(|nueva|))
  {
  }

  lemma PushLee(t: Tabla, ahora: nat, clave: string, valores: seq<string>, tipo: TipoPush)
    ensures var e := EfectoPush(t, ahora, [clave] + valores, tipo);
            e == match Obtener(t, clave, ahora)
                 case Some(Lista(l)) => EfectoEmpujar(t, ahora, clave, l, valores, tipo.alFinal)
                 case None =>
                   if tipo.soloSiExiste then Efecto(t, Responde(Int(0)))
                   else EfectoEmpujar(t, ahora, clave, [], valores, tipo.alFinal)
                 case Some(_) => Falla(t, WRONGTYPE)
  {
    assert ([clave] + valores)[1..] == valores;
  }

  /** Each of the four push commands on a key that holds a live list: the values go behind it in order, or before it
      reversed, and the reply is the new length. */
  lemma PushEnLista(t: Tabla, ahora: nat, clave: string, valores: seq<string>, tipo: TipoPush, l: seq<string>, nueva: seq<string>)
    requires Vive(t, clave, Lista(l), ahora)
    requires nueva == if tipo.alFinal then l + valores else Invertir(valores) + l
    ensures EfectoPush(t, ahora, [clave] + valores, tipo)
         == Guarda(t[clave := EntradaNoExpirable(Lista(nueva), ahora)], Int(|nueva|))
  {
    PushLee(t, ahora, clave, valores, tipo);
    EmpujadaEs(l, valores, tipo.alFinal);
    EmpujarHace(t, ahora, clave, l, valores, tipo.alFinal, nueva);
  }

  /** On a key that holds nothing live, it starts a list, or does nothing in the X forms. */
  lemma PushEnAusente(t: Tabla, ahora: nat, clave: string, valores: seq<string>, tipo: TipoPush, nueva: seq<string>)
    requires Falta(t, clave, ahora)
    requires nueva == if tipo.alFinal then valores else Invertir(valores)
    ensures EfectoPush(t, ahora, [clave] + valores, tipo)
         == if tipo.soloSiExiste then Efecto(t, Responde(Int(0)))
            else Guarda(t[clave := EntradaNoExpirable(Lista(nueva), ahora)], Int(|nueva|))
  {
    PushLee(t, ahora, clave, valores, tipo);
    EmpujadaEs([], valores, tipo.alFinal);
    assert [] + valores == valores && Invertir(valores) + [] == Invertir(valores);
    EmpujarHace(t, ahora, clave, [], valores, tipo.alFinal, nueva);
  }

  lemma PushEnOtro(t: Tabla, ahora: nat, clave: string, valores: seq<string>, tipo: TipoPush, v: TipoRedis)
    requires Vive(t, clave, v, ahora) && !v.Lista?
    ensures EfectoPush(t, ahora, [clave] + valores, tipo) == Falla(t, WRONGTYPE)
  {
    PushLee(t, ahora, clave, valores, tipo);
  }

  lemma CuatroPush()
    ensures LPUSH.alFinal == LPUSHX.alFinal == false && RPUSH.alFinal == RPUSHX.alFinal == true
    ensures LPUSH.soloSiExiste == RPUSH.soloSiExiste == false && LPUSHX.soloSiExiste == RPUSHX.soloSiExiste == true
  {
  }

  lemma PopLee(t: Tabla, ahora: nat, clave: string, n: u64, reversed: bool)
    ensures EfectoPop(t, ahora, [clave, NatATexto(n)], reversed) == EfectoPopDeClave(t, ahora, clave, n, reversed)
    ensures EfectoPop(t, ahora, [clave], reversed) == EfectoPopDeClave(t, ahora, clave, 1, reversed)
  {
    ParseSinSignoDeTexto(n, MAX_U64);
  }

  /** LPOP and RPOP with a count, and without one, which counts as one, when there is no list long enough. */
  lemma PopHace(t: Tabla, ahora: nat, clave: string, n: u64, reversed: bool, l: seq<string>, v: TipoRedis)
    ensures var e := EfectoPop(t, ahora, [clave, NatATexto(n)], reversed);
            && (n == 1 ==> EfectoPop(t, ahora, [clave], reversed) == e)
            && (Falta(t, clave, ahora) ==> e == Efecto(t, Responde(Nil)))
            && (Vive(t, clave, v, ahora) && !v.Lista? ==> e == Falla(t, WRONGTYPE))
            && (Vive(t, clave, Lista(l), ahora) && n > |l| ==> e == Efecto(t, Panico))
  {
    PopLee(t, ahora, clave, n, reversed);
  }

  /** On a live list at least as long: what is cut off at one end is replied in list order, alone when it is one element,
      and the rest is stored, or the key removed when nothing is left. */
  lemma PopDeLista(t: Tabla, ahora: nat, clave: string, n: u64, reversed: bool, sacados: seq<string>, resto: seq<string>)
    requires |sacados| == n
    requires Vive(t, clave, Lista(if reversed then resto + sacados else sacados + resto), ahora)
    ensures EfectoPop(t, ahora, [clave, NatATexto(n)], reversed)
         == Guarda(if resto == [] then t - {clave} else t[clave := EntradaNoExpirable(Lista(resto), ahora)],
                   if n == 1 then BulkStr(sacados[0]) else Vector(Bulks(sacados)))
  {
    var l := if reversed then resto + sacados else sacados + resto;
    PopLee(t, ahora, clave, n, reversed);
    CortarPor(l, sacados, resto, reversed);
    assert Obtener(t, clave, ahora) == Some(Lista(l));
  }

  lemma CortarPor(l: seq<string>, sacados: seq<string>, resto: seq<string>, reversed: bool)
    requires l == if reversed then resto + sacados else sacados + resto
    ensures |sacados| <= |l| && PopDe(l, |sacados|, reversed) == (sacados, resto)
  {
  }

  /** A count that is no number is refused, whatever the key holds. */
  lemma PopSinNumero(t: Tabla, ahora: nat, clave: string, texto: string, reversed: bool)
    requires ParseU64(texto) == None
    ensures EfectoPop(t, ahora, [clave, texto], reversed) == Falla(t, NO_ENTERO)
  {
  }

  /** LREM: what is left of a live list is the list without the element on one side of a cut, as many copies as the
      reply says; an emptied list loses its key. */
  lemma LremHace(t: Tabla, ahora: nat, clave: string, c: i32, x: string, l: seq<string>, v: TipoRedis)
    returns (k: nat, f: seq<string>)
    ensures var e := EfectoLrem(t, ahora, [clave, IntATexto(c as int), x]);
            var n := Min(Max(c as int, 0 - (c as int)), Cuenta(l, x));
            && (Falta(t, clave, ahora) ==> e == Efecto(t, Responde(Int(0))))
            && (Vive(t, clave, v, ahora) && !v.Lista? ==> e == Falla(t, WRONGTYPE))
            && (Vive(t, clave, Lista(l), ahora) && c as int == MIN_I32 ==> e == Efecto(t, Panico))
            && (Vive(t, clave, Lista(l), ahora) && c as int != MIN_I32 ==>
                  && Cortada(l, x, c as int, f, n, k)
                  && e == Guarda(if f == [] then t - {clave} else t[clave := EntradaNoExpirable(Lista(f), ahora)], Int(n)))
  {
    LeerTres(clave, c, x, "lrem");
    k := QuitarCorta(l, x, c as int);
    f := Quitar(l, x, c as int).0;
  }

  /** LREM and LSET check how many arguments there are, and the number before the rest. */
  lemma ArgumentosMalos(t: Tabla, ahora: nat, p: seq<string>)
    requires |p| < 3 || ParseI32(p[1]) == None
    ensures var numeroMalo := |p| > 1 && ParseI32(p[1]) == None;
            && EfectoLrem(t, ahora, p) == Falla(t, if numeroMalo then NO_ENTERO else CantidadDeArgumentos("lrem"))
            && EfectoLset(t, ahora, p) == Falla(t, if numeroMalo then NO_ENTERO else CantidadDeArgumentos("lset"))
  {
  }

  lemma LrangeLee(t: Tabla, ahora: nat, clave: string, inicio: i32, fin: i32)
    requires Indexables(t)
    ensures EfectoLrange(t, ahora, [clave, IntATexto(inicio as int), IntATexto(fin as int)])
         == EfectoLrangeDeClave(t, ahora, clave, inicio, fin)
  {
    ParseI32DeTexto(inicio as int);
    ParseI32DeTexto(fin as int);
  }

  /** LRANGE replies the elements between the normalised bounds. */
  lemma LrangeHace(t: Tabla, ahora: nat, clave: string, inicio: i32, fin: i32, l: seq<string>, v: TipoRedis)
    requires Indexables(t)
    ensures var r := EfectoLrange(t, ahora, [clave, IntATexto(inicio as int), IntATexto(fin as int)]);
            var desde, hasta := Max(0, Normalizado(inicio as int, |l|)), Min(|l| - 1, Normalizado(fin as int, |l|));
            && (Falta(t, clave, ahora) ==> r == Responde(Vector([])))
            && (Vive(t, clave, v, ahora) && !v.Lista? ==> r == Responde(Error(WRONGTYPE)))
            && (Vive(t, clave, Lista(l), ahora) && l != [] ==> r == Responde(Vector(Bulks(Entre(l, desde, hasta)))))
  {
    LrangeLee(t, ahora, clave, inicio, fin);
    if l != [] && Vive(t, clave, Lista(l), ahora) { RecortarPorIndice(l, inicio, fin); }
  }
}
