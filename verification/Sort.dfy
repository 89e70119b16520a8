/** The SORT command on lists and sets, by their own elements or by external weights. */
module Sort {
  import opened Basicos
  import opened Cadenas
  import opened Decimal
  import opened Orden
  import opened Valores
  import opened BaseDeDatos
  import opened ComandoInfo
  import opened Efectos
  import opened Persistencia

  // ---- LIMIT ----

  function EsParseable(num: string): bool { ParseI32(num).Some? }

  function TieneSoloValoresNumericos(valores: seq<string>): bool
  {
    forall v | v in valores :: EsParseable(v)
  }

  /** The parameters that read as 32-bit integers, whatever they were meant for. */
  function Numeros(parametros: seq<string>): seq<i32>
  {
    if parametros == [] then []
    else
      match ParseI32(parametros[0])
      case Some(n) => [n] + Numeros(parametros[1..])
      case None => Numeros(parametros[1..])
  }

  /** Arithmetic is checked: `n - offset` may overflow 32 bits, and a negative offset does not fit `usize`. */
  function Rango(valores: seq<string>, offset: int, count: int): Salida<seq<string>>
  {
    var n := ComoI32(|valores|);
    if valores == [] then Panico
    else if count == 0 then Responde([])
    else if 0 <= count && !(MIN_I32 <= n - offset <= MAX_I32) then Panico
    else
      var min := if 0 <= offset < n then offset else 0;
      if 0 <= count < n - offset then
        if offset < 0 then Panico else Responde(valores[min..count + offset])
      else Responde(valores[min..])
  }

  function EfectoDeLimit(parametros: seq<string>, valores: seq<string>): Salida<seq<string>>
  {
    var rango := Numeros(parametros);
    if |rango| < 2 then Panico else Rango(valores, rango[0] as int, rango[1] as int)
  }

  method SelecionarRango(parametros: seq<string>, valores: seq<string>) returns (r: Salida<seq<string>>)
    ensures r == EfectoDeLimit(parametros, valores)
  {
    var rango := Numeros(parametros);
    if |rango| < 2 || |valores| == 0 { return Panico; }
    var offset, count := rango[0] as int, rango[1] as int;
    var indexMin, indexMax := 0, |valores| - 1;
    if count == 0 { return Responde([]); }
    var n := ComoI32(|valores|);
    if 0 <= offset && offset < n {
      indexMin := offset;
    }
    if 0 <= count {
      if !(MIN_I32 <= n - offset <= MAX_I32) { return Panico; }
      if count < n - offset {
        if offset < 0 { return Panico; }
        indexMax := count + offset - 1;
      }
    }
    r := Responde(valores[indexMin..indexMax + 1]);
    assert valores[indexMin..|valores|] == valores[indexMin..];
  }

  // ---- DESC, LIMIT and STORE ----

  function Configurar(t: Tabla, ahora: nat, parametros: seq<string>, valores: seq<string>): Efecto
  {
    var orden := if "DESC" in parametros then Invertir(valores) else valores;
    match if "LIMIT" in parametros then EfectoDeLimit(parametros, orden) else Responde(orden)
    case Panico => Efecto(t, Panico)
    case Responde(elegidos) => Entregar(t, ahora, parametros, elegidos)
  }

  function Entregar(t: Tabla, ahora: nat, parametros: seq<string>, elegidos: seq<string>): Efecto
  {
    if "STORE" !in parametros then Efecto(t, Responde(Vector(Simples(elegidos))))
    else
      var ultima := UltimaParte(parametros, "STORE");
      if ultima == [] then Efecto(t, Panico)
      else Guarda(t[ultima[0] := EntradaNoExpirable(Lista(elegidos), ahora)], StrSimple(NatATexto(|elegidos|)))
  }

  method SortConfiguracionListaOrdenada(parametros: seq<string>, entrada: seq<string>, bdd: BaseDeDatos, ahora: nat)
    returns (r: Salida<ResultadoRedis>)
    requires bdd.Valid()
    modifies bdd, bdd.hashmap.Values, bdd.observadores
    ensures Hizo(bdd, Configurar(old(bdd.Tabla()), ahora, parametros, entrada), r)
  {
    var valores := entrada;
    if "DESC" in parametros { valores := Invertir(valores); }
    if "LIMIT" in parametros {
      var elegidos := SelecionarRango(parametros, valores);
      if elegidos.Panico? { return Panico; }
      valores := elegidos.valor;
    }
    if "STORE" in parametros {
      var ultima := UltimaParte(parametros, "STORE");
      if ultima == [] { return Panico; }
      bdd.GuardarValor(ultima[0], Lista(valores), ahora);
      return Responde(StrSimple(NatATexto(|valores|)));
    }
    r := Responde(Vector(Simples(valores)));
  }

  // ---- Sorting by the elements themselves ----

  const NO_DOUBLE := "ERR One or more scores can't be converted into double"

  function Interno(t: Tabla, ahora: nat, parametros: seq<string>, valores: seq<string>): Efecto
  {
    if "ALPHA" !in parametros && !TieneSoloValoresNumericos(valores) then Falla(t, NO_DOUBLE)
    else Configurar(t, ahora, parametros, OrdenarTextos(valores))
  }

  // ---- Sorting by external weights ----

  /** `rsplit('_').next()`: what follows the last underscore. */
  function Indice(s: string): string
  {
    if s == "" || s[|s| - 1] == '_' then "" else Indice(s[..|s| - 1]) + [s[|s| - 1]]
  }

  predicate Coincide(valor: string, peso: string) { Indice(valor) == Indice(peso) }

  function PesoDe(t: Tabla, ahora: nat, peso: string): Option<string>
  {
    match Obtener(t, peso, ahora)
    case Some(Str(texto)) => Some(texto)
    case _ => None
  }

  /** The inner loop of the join: one tuple for each weight key with the same last segment. */
  function TuplasDe(t: Tabla, ahora: nat, valor: string, pesos: seq<string>): Option<seq<(string, string)>>
  {
    if pesos == [] then Some([])
    else
      var n := |pesos| - 1;
      match TuplasDe(t, ahora, valor, pesos[..n])
      case None => None
      case Some(ts) =>
        if !Coincide(valor, pesos[n]) then Some(ts)
        else
          match PesoDe(t, ahora, pesos[n])
          case Some(texto) => Some(ts + [(valor, texto)])
          case None => None
  }

  function Tuplas(t: Tabla, ahora: nat, valores: seq<string>, pesos: seq<string>): Option<seq<(string, string)>>
  {
    if valores == [] then Some([])
    else
      var n := |valores| - 1;
      match Tuplas(t, ahora, valores[..n], pesos)
      case None => None
      case Some(ts) =>
        match TuplasDe(t, ahora, valores[n], pesos)
        case None => None
        case Some(us) => Some(ts + us)
  }

  lemma {:induction false} TuplasDeFalla(t: Tabla, ahora: nat, valor: string, pesos: seq<string>, j: nat)
    requires j <= |pesos| && TuplasDe(t, ahora, valor, pesos[..j]) == None
    ensures TuplasDe(t, ahora, valor, pesos) == None
  {
    if j < |pesos| {
      var n := |pesos| - 1;
      assert pesos[..n][..j] == pesos[..j];
      TuplasDeFalla(t, ahora, valor, pesos[..n], j);
    } else {
      assert pesos[..j] == pesos;
    }
  }

  lemma {:induction false} TuplasFalla(t: Tabla, ahora: nat, valores: seq<string>, pesos: seq<string>, i: nat)
    requires i <= |valores| && Tuplas(t, ahora, valores[..i], pesos) == None
    ensures Tuplas(t, ahora, valores, pesos) == None
  {
    if i < |valores| {
      var n := |valores| - 1;
      assert valores[..n][..i] == valores[..i];
      TuplasFalla(t, ahora, valores[..n], pesos, i);
    } else {
      assert valores[..i] == valores;
    }
  }

  method TuplasDeUnValor(valor: string, pesos: seq<string>, bdd: BaseDeDatos, ahora: nat)
    returns (r: Option<seq<(string, string)>>)
    ensures r == TuplasDe(bdd.Tabla(), ahora, valor, pesos)
  {
    var tuplas: seq<(string, string)> := [];
    for j := 0 to |pesos|
      invariant TuplasDe(bdd.Tabla(), ahora, valor, pesos[..j]) == Some(tuplas)
    {
      assert pesos[..j + 1][..j] == pesos[..j];
      if Indice(pesos[j]) == Indice(valor) {
        match bdd.ObtenerValor(pesos[j], ahora) {
          case Some(Str(peso)) =>
            tuplas := tuplas + [(valor, peso)];
          case _ =>
            TuplasDeFalla(bdd.Tabla(), ahora, valor, pesos, j + 1);
            return None;
        }
      }
    }
    assert pesos[..|pesos|] == pesos;
    r := Some(tuplas);
  }

  method ObtenerTuplaValorPeso(valores: seq<string>, pesos: seq<string>, bdd: BaseDeDatos, ahora: nat)
    returns (r: Option<seq<(string, string)>>)
    ensures r == Tuplas(bdd.Tabla(), ahora, valores, pesos)
  {
    var tuplas: seq<(string, string)> := [];
    for i := 0 to |valores|
      invariant Tuplas(bdd.Tabla(), ahora, valores[..i], pesos) == Some(tuplas)
    {
      assert valores[..i + 1][..i] == valores[..i];
      var deValor := TuplasDeUnValor(valores[i], pesos, bdd, ahora);
      if deValor == None {
        TuplasFalla(bdd.Tabla(), ahora, valores, pesos, i + 1);
        return None;
      }
      tuplas := tuplas + deValor.value;
    }
    assert valores[..|valores|] == valores;
    r := Some(tuplas);
  }

  function Peso(tupla: (string, string)): string { tupla.1 }

  function Primeros(tuplas: seq<(string, string)>): (r: seq<string>)
    ensures |r| == |tuplas| && forall i | 0 <= i < |r| :: r[i] == tuplas[i].0
  {
    seq(|tuplas|, i requires 0 <= i < |tuplas| => tuplas[i].0)
  }

  const SINTAXIS := "ERR syntax error"

  function Externo(t: Tabla, ahora: nat, parametros: seq<string>, valores: seq<string>, pesos: seq<string>,
                   objetos: seq<string>): Efecto
  {
    if UltimaParte(parametros, "BY") == [] then Efecto(t, Panico)
    else if |pesos| != |valores| then Efecto(t, Responde(Vector(Simples(valores))))
    else
      match Tuplas(t, ahora, valores, pesos)
      case None => Falla(t, SINTAXIS)
      case Some(tuplas) => ConTuplas(t, ahora, parametros, OrdenarPor(tuplas, Peso), objetos)
  }

  /** With GET the objects found are the whole reply: DESC, LIMIT and STORE are not looked at. */
  function ConTuplas(t: Tabla, ahora: nat, parametros: seq<string>, tuplas: seq<(string, string)>,
                     objetos: seq<string>): Efecto
  {
    if "GET" !in parametros then Configurar(t, ahora, parametros, Primeros(tuplas))
    else if UltimaParte(parametros, "GET") == [] then Efecto(t, Panico)
    else Efecto(t, Responde(Vector(Buscados(t, ahora, Primeros(tuplas), objetos).0)))
  }

  // ---- GET ----

  /** Rust's `str::contains`. */
  predicate Contiene(s: string, parte: string) { parte <= s || (s != "" && Contiene(s[1..], parte)) }

  /** The live texts under the keys whose name contains the value. */
  function TextosDe(t: Tabla, ahora: nat, valor: string, objetos: seq<string>): seq<string>
  {
    if objetos == [] then []
    else
      var n := |objetos| - 1;
      var texto := PesoDe(t, ahora, objetos[n]);
      TextosDe(t, ahora, valor, objetos[..n]) + if Contiene(objetos[n], valor) && texto.Some? then [texto.value] else []
  }

  /** What the loop pushes, and its flag: it is raised by the first object found and never lowered again. */
  function Buscados(t: Tabla, ahora: nat, valores: seq<string>, objetos: seq<string>): (seq<ResultadoRedis>, bool)
  {
    if valores == [] then ([], false)
    else
      var n := |valores| - 1;
      var (antes, habia) := Buscados(t, ahora, valores[..n], objetos);
      var hallados := TextosDe(t, ahora, valores[n], objetos);
      var pusheado := habia || hallados != [];
      (antes + Simples(hallados) + (if pusheado then [] else [Nil]), pusheado)
  }

  method BuscarUnValor(valor: string, objetos: seq<string>, bdd: BaseDeDatos, ahora: nat)
    returns (hallados: seq<ResultadoRedis>)
    ensures hallados == Simples(TextosDe(bdd.Tabla(), ahora, valor, objetos))
  {
    hallados := [];
    for j := 0 to |objetos|
      invariant hallados == Simples(TextosDe(bdd.Tabla(), ahora, valor, objetos[..j]))
    {
      assert objetos[..j + 1][..j] == objetos[..j];
      if Contiene(objetos[j], valor) {
        match bdd.ObtenerValor(objetos[j], ahora) {
          case Some(Str(texto)) => hallados := hallados + [StrSimple(texto)];
          case _ =>
        }
      }
    }
    assert objetos[..|objetos|] == objetos;
  }

  method BuscarObjetos(valores: seq<string>, objetos: seq<string>, bdd: BaseDeDatos, ahora: nat)
    returns (resultado: seq<ResultadoRedis>)
    ensures resultado == Buscados(bdd.Tabla(), ahora, valores, objetos).0
  {
    resultado := [];
    var pusheado := false;
    for i := 0 to |valores|
      invariant (resultado, pusheado) == Buscados(bdd.Tabla(), ahora, valores[..i], objetos)
    {
      assert valores[..i + 1][..i] == valores[..i];
      var hallados := BuscarUnValor(valores[i], objetos, bdd, ahora);
      resultado := resultado + hallados;
      if hallados != [] { pusheado := true; }
      if !pusheado { resultado := resultado + [Nil]; }
      assert pusheado ==> resultado == resultado + [];
    }
    assert valores[..|valores|] == valores;
  }

  // ---- The command ----

  /** The elements to sort: a list in its order, a set in an order of its own. */
  ghost predicate SonValores(v: Option<TipoRedis>, valores: seq<string>)
  {
    match v
    case Some(Lista(lista)) => valores == lista
    case Some(Conjunto(m)) => Enumera(valores, m)
    case _ => valores == []
  }

  /** `pesos` and `objetos` are the keys that match the patterns after BY and after GET, in the order in which the
      table delivers them. */
  function EfectoSort(t: Tabla, ahora: nat, p: seq<string>, valores: seq<string>, pesos: seq<string>,
                      objetos: seq<string>): Efecto
  {
    if p == [] then Falla(t, CantidadDeArgumentos("sort"))
    else
      match Obtener(t, p[0], ahora)
      case None => Efecto(t, Responde(Vector([])))
      case Some(Str(_)) => Falla(t, WRONGTYPE)
      case Some(Canal(_)) => Falla(t, WRONGTYPE)
      case _ => EfectoSortDe(t, ahora, p, valores, pesos, objetos)
  }

  function EfectoSortDe(t: Tabla, ahora: nat, p: seq<string>, valores: seq<string>, pesos: seq<string>,
                        objetos: seq<string>): Efecto
  {
    if valores == [] then Efecto(t, Responde(Vector([])))
    else if "BY" in p then Externo(t, ahora, p, valores, pesos, objetos)
    else Interno(t, ahora, p, valores)
  }

  type Patron = (string, string) -> bool

  /** The keys that match what follows a keyword, in some order. */
  ghost predicate SonClaves(claves: seq<string>, t: Tabla, parametros: seq<string>, palabra: string, coincide: Patron)
  {
    UltimaParte(parametros, palabra) != [] ==>
      Enumera(claves, set k | k in t && coincide(UltimaParte(parametros, palabra)[0], k))
  }

  method Enumerar(s: set<string>) returns (orden: seq<string>)
    ensures Enumera(orden, s)
  {
    orden := [];
    var quedan := s;
    while quedan != {}
      invariant quedan <= s && Enumera(orden, s - quedan)
    {
      var x :| x in quedan;
      orden, quedan := orden + [x], quedan - {x};
    }
    assert s - {} == s;
  }

  /** The pattern is matched by `coincide`, which stands for the regular expression. */
  method Claves(bdd: BaseDeDatos, patron: string, coincide: Patron) returns (claves: seq<string>)
    ensures Enumera(claves, set k | k in bdd.Tabla() && coincide(patron, k))
  {
    claves := Enumerar(set k | k in bdd.Tabla() && coincide(patron, k));
  }

  method SortElementoConPesosExternos(valores: seq<string>, parametros: seq<string>, bdd: BaseDeDatos, ahora: nat,
                                      coincide: Patron)
    returns (r: Salida<ResultadoRedis>, pesos: seq<string>, objetos: seq<string>)
    requires bdd.Valid()
    modifies bdd, bdd.hashmap.Values, bdd.observadores
    ensures Hizo(bdd, Externo(old(bdd.Tabla()), ahora, parametros, valores, pesos, objetos), r)
    ensures SonClaves(pesos, old(bdd.Tabla()), parametros, "BY", coincide)
    ensures SonClaves(objetos, old(bdd.Tabla()), parametros, "GET", coincide)
  {
    pesos, objetos := [], [];
    var deGet := UltimaParte(parametros, "GET");
    if deGet != [] { objetos := Claves(bdd, deGet[0], coincide); }
    var ultima := UltimaParte(parametros, "BY");
    if ultima == [] { return Panico, pesos, objetos; }
    pesos := Claves(bdd, ultima[0], coincide);
    r := UnirConPesos(valores, pesos, parametros, objetos, bdd, ahora);
  }

  method UnirConPesos(valores: seq<string>, pesos: seq<string>, parametros: seq<string>, objetos: seq<string>,
                      bdd: BaseDeDatos, ahora: nat)
    returns (r: Salida<ResultadoRedis>)
    requires bdd.Valid() && UltimaParte(parametros, "BY") != []
    modifies bdd, bdd.hashmap.Values, bdd.observadores
    ensures Hizo(bdd, Externo(old(bdd.Tabla()), ahora, parametros, valores, pesos, objetos), r)
  {
    if |pesos| != |valores| { return Responde(Vector(Simples(valores))); }
    var tuplas := ObtenerTuplaValorPeso(valores, pesos, bdd, ahora);
    if tuplas == None { return Responde(Error(SINTAXIS)); }
    r := Terminar(OrdenarPor(tuplas.value, Peso), parametros, objetos, bdd, ahora);
  }

  method Terminar(tuplas: seq<(string, string)>, parametros: seq<string>, objetos: seq<string>, bdd: BaseDeDatos, ahora: nat)
    returns (r: Salida<ResultadoRedis>)
    requires bdd.Valid()
    modifies bdd, bdd.hashmap.Values, bdd.observadores
    ensures Hizo(bdd, ConTuplas(old(bdd.Tabla()), ahora, parametros, tuplas, objetos), r)
  {
    if "GET" in parametros {
      if UltimaParte(parametros, "GET") == [] { return Panico; }
      var resultado := BuscarObjetos(Primeros(tuplas), objetos, bdd, ahora);
      return Responde(Vector(resultado));
    }
    r := SortConfiguracionListaOrdenada(parametros, Primeros(tuplas), bdd, ahora);
  }

  method Ejecutar(comando: ComandoInfo, bdd: BaseDeDatos, ahora: nat, coincide: Patron)
    returns (r: Salida<ResultadoRedis>, valores: seq<string>, pesos: seq<string>, objetos: seq<string>)
    requires bdd.Valid()
    modifies bdd, bdd.hashmap.Values, bdd.observadores
    ensures comando.parametros != [] ==> SonValores(Obtener(old(bdd.Tabla()), comando.parametros[0], ahora), valores)
    ensures Hizo(bdd, EfectoSort(old(bdd.Tabla()), ahora, comando.parametros, valores, pesos, objetos), r)
    ensures valores != [] && "BY" in comando.parametros ==>
              && SonClaves(pesos, old(bdd.Tabla()), comando.parametros, "BY", coincide)
              && SonClaves(objetos, old(bdd.Tabla()), comando.parametros, "GET", coincide)
  {
    valores, pesos, objetos := [], [], [];
    var parametros := comando.GetParametros();
    if parametros == None { return Responde(Error(CantidadDeArgumentos("sort"))), valores, pesos, objetos; }
    var p := parametros.value;
    match bdd.ObtenerValor(p[0], ahora) {
      case Some(Lista(lista)) => valores := lista;
      case Some(Conjunto(m)) => valores := Enumerar(m);
      case None => return Responde(Vector([])), valores, pesos, objetos;
      case Some(_) => return Responde(Error(WRONGTYPE)), valores, pesos, objetos;
    }
    r, pesos, objetos := Ordenar(p, valores, bdd, ahora, coincide);
  }

  method Ordenar(p: seq<string>, valores: seq<string>, bdd: BaseDeDatos, ahora: nat, coincide: Patron)
    returns (r: Salida<ResultadoRedis>, pesos: seq<string>, objetos: seq<string>)
    requires bdd.Valid()
    modifies bdd, bdd.hashmap.Values, bdd.observadores
    ensures Hizo(bdd, EfectoSortDe(old(bdd.Tabla()), ahora, p, valores, pesos, objetos), r)
    ensures valores != [] && "BY" in p ==>
              SonClaves(pesos, old(bdd.Tabla()), p, "BY", coincide) && SonClaves(objetos, old(bdd.Tabla()), p, "GET", coincide)
  {
    pesos, objetos := [], [];
    if valores == [] { return Responde(Vector([])), pesos, objetos; }
    if "BY" in p {
      r, pesos, objetos := SortElementoConPesosExternos(valores, p, bdd, ahora, coincide);
    } else if "ALPHA" !in p && !TieneSoloValoresNumericos(valores) {
      r := Responde(Error(NO_DOUBLE));
    } else {
      r := SortConfiguracionListaOrdenada(p, OrdenarTextos(valores), bdd, ahora);
    }
  }
}
