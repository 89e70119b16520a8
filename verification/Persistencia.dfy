/** The snapshot file: the printer that turns one entry into a line and the loader that rebuilds a table from lines. */
module Persistencia {
  import opened Basicos
  import opened Cadenas
  import opened Decimal
  import opened Valores

  const STRING := "STRING"
  const LIST := "LIST"
  const SET := "SET"
  const EX := "EX"
  const SEPARADOR := ":"

  // ---- Printer ----

  /** `orden` visits every member of `s` once: what iterating over a hash set or hash map delivers. */
  predicate Enumera(orden: seq<string>, s: set<string>)
  {
    && (forall i, j | 0 <= i < j < |orden| :: orden[i] != orden[j])
    && (forall x | x in orden :: x in s)
    && (forall x | x in s :: x in orden)
  }

  function Sufijo(vida: Option<u64>): seq<string>
  {
    if vida.Some? then [EX, NatATexto(vida.value)] else []
  }

  function Campos(clave: string, valor: TipoRedis, vida: Option<u64>, orden: seq<string>): seq<string>
    requires !valor.Canal?
  {
    match valor
    case Str(texto) => [STRING, clave, texto] + Sufijo(vida)
    case Lista(elementos) => [LIST, clave] + elementos + Sufijo(vida)
    case Conjunto(_) => [SET, clave] + orden + Sufijo(vida)
  }

  function Linea(clave: string, valor: Option<TipoRedis>, vida: Option<u64>, orden: seq<string>): string
  {
    if valor == None || valor.value.Canal? then "" else Unir(Campos(clave, valor.value, vida, orden), SEPARADOR)
  }

  lemma UnirDos(x: string, y: string)
    ensures Unir([x, y], SEPARADOR) == x + SEPARADOR + y
  {
  }

  lemma UnirAgregado(campos: seq<string>, xs: seq<string>, x: string)
    requires campos != []
    ensures Unir(campos + (xs + [x]), SEPARADOR) == Unir(campos + xs, SEPARADOR) + (SEPARADOR + x)
  {
    assert campos + (xs + [x]) == (campos + xs) + [x];
    UnirAlFinal(campos + xs, x, SEPARADOR);
  }

  lemma UnirTres(x: string, y: string, z: string)
    ensures Unir([x, y, z], SEPARADOR) == x + SEPARADOR + y + SEPARADOR + z
  {
    UnirDos(x, y);
    UnirAlFinal([x, y], z, SEPARADOR);
    assert [x, y] + [z] == [x, y, z];
  }

  lemma UnirSufijo(campos: seq<string>, n: string)
    requires campos != []
    ensures Unir(campos + [EX, n], SEPARADOR) == Unir(campos, SEPARADOR) + (SEPARADOR + EX) + (SEPARADOR + n)
  {
    UnirAgregado(campos, [], EX);
    UnirAgregado(campos, [EX], n);
    assert campos + [] == campos && [] + [EX] == [EX] && [EX] + [n] == [EX, n];
  }

  /** The loop over a list, appending to the line. */
  method AgregarLista(etiqueta: string, clave: string, lista: seq<string>) returns (linea: string)
    ensures linea == Unir([etiqueta, clave] + lista, SEPARADOR)
  {
    linea := etiqueta + SEPARADOR + clave;
    UnirDos(etiqueta, clave);
    assert [etiqueta, clave] + lista[..0] == [etiqueta, clave];
    for i := 0 to |lista|
      invariant linea == Unir([etiqueta, clave] + lista[..i], SEPARADOR)
    {
      linea := linea + (SEPARADOR + lista[i]);
      UnirAgregado([etiqueta, clave], lista[..i], lista[i]);
      assert lista[..i + 1] == lista[..i] + [lista[i]];
    }
    assert lista[..|lista|] == lista;
  }

  /** The loop over a hash set, which visits the members in an order of its own. */
  method AgregarSet(etiqueta: string, clave: string, miembros: set<string>) returns (linea: string, ghost orden: seq<string>)
    ensures Enumera(orden, miembros)
    ensures linea == Unir([etiqueta, clave] + orden, SEPARADOR)
  {
    orden := [];
    linea := etiqueta + SEPARADOR + clave;
    UnirDos(etiqueta, clave);
    assert [etiqueta, clave] + orden == [etiqueta, clave];
    var quedan := miembros;
    while quedan != {}
      invariant quedan <= miembros && Enumera(orden, miembros - quedan)
      invariant linea == Unir([etiqueta, clave] + orden, SEPARADOR)
    {
      var x :| x in quedan;
      linea := linea + (SEPARADOR + x);
      UnirAgregado([etiqueta, clave], orden, x);
      orden, quedan := orden + [x], quedan - {x};
    }
    assert miembros - {} == miembros;
  }

  method GuardarClaveValor(clave: string, valor: Option<TipoRedis>, time: Option<u64>)
    returns (linea: string, ghost orden: seq<string>)
    ensures valor.Some? && valor.value.Conjunto? ==> Enumera(orden, valor.value.miembros)
    ensures linea == Linea(clave, valor, time, orden)
  {
    orden := [];
    ghost var campos: seq<string>;
    match valor {
      case Some(Str(texto)) =>
        linea := STRING + SEPARADOR + clave + SEPARADOR + texto;
        campos := [STRING, clave, texto];
        UnirTres(STRING, clave, texto);
      case Some(Lista(lista)) =>
        linea := AgregarLista(LIST, clave, lista);
        campos := [LIST, clave] + lista;
      case Some(Conjunto(miembros)) =>
        linea, orden := AgregarSet(SET, clave, miembros);
        campos := [SET, clave] + orden;
      case _ =>
        return "", orden;
    }
    match time {
      case Some(duration) =>
        linea := linea + (SEPARADOR + EX) + (SEPARADOR + NatATexto(duration));
        UnirSufijo(campos, NatATexto(duration));
      case None =>
        assert campos + [] == campos;
    }
    assert linea == Unir(campos + Sufijo(time), SEPARADOR);
  }

  // ---- Loader ----

  datatype Carga = Omitida | Cargada(clave: string, entrada: Entrada) | Fallida

  /** Text that is not a number counts as zero seconds; nothing after the marker is an index out of range. */
  function ObtenerTiempoExpiracion(e: seq<string>): Salida<u64>
  {
    var ultima := UltimaParte(e, EX);
    if ultima == [] then Panico
    else
      match ParseU64(ultima[0])
      case Some(n) => Responde(n)
      case None => Responde(0)
  }

  function ConVida(clave: string, valor: TipoRedis, e: seq<string>, ahora: nat): Carga
  {
    if EX !in e then Cargada(clave, EntradaNoExpirable(valor, ahora))
    else
      match ObtenerTiempoExpiracion(e)
      case Responde(n) => Cargada(clave, EntradaExpirable(valor, n, ahora))
      case Panico => Fallida
  }

  function CargarCampos(e: seq<string>, ahora: nat): Carga
  {
    if STRING in e then
      if |e| < 3 then Fallida else ConVida(e[1], Str(e[2]), e, ahora)
    else if LIST in e then
      if |e| < 2 then Fallida else ConVida(e[1], Lista(e[2..]), e[2..], ahora)
    else if SET in e then
      if |e| < 2 then Fallida else ConVida(e[1], Conjunto(set x | x in e[2..]), e[2..], ahora)
    else Omitida
  }

  function CargarLinea(linea: string, ahora: nat): Carga
  {
    if linea == "" then Omitida else CargarCampos(Partir(linea, SEPARADOR), ahora)
  }

  function Levantar(lineas: seq<string>, ahora: nat): Salida<Tabla>
  {
    if lineas == [] then Responde(map[])
    else
      match Levantar(lineas[..|lineas| - 1], ahora)
      case Panico => Panico
      case Responde(t) =>
        match CargarLinea(lineas[|lineas| - 1], ahora)
        case Omitida => Responde(t)
        case Cargada(k, e) => Responde(t[k := e])
        case Fallida => Panico
  }

  lemma {:induction false} LevantarPanicoPersiste(lineas: seq<string>, i: nat, ahora: nat)
    requires i <= |lineas| && Levantar(lineas[..i], ahora).Panico?
    ensures Levantar(lineas, ahora).Panico?
  {
    if i < |lineas| {
      var n := |lineas| - 1;
      assert lineas[..n][..i] == lineas[..i];
      LevantarPanicoPersiste(lineas[..n], i, ahora);
    } else {
      assert lineas[..i] == lineas;
    }
  }

  method LevantarTabla(archivo: Option<string>, ahora: nat) returns (r: Salida<Tabla>)
    ensures archivo == None ==> r == Responde(map[])
    ensures archivo.Some? ==> r == Levantar(Lineas(archivo.value), ahora)
  {
    var hashmap: Tabla := map[];
    if archivo == None { return Responde(hashmap); }
    var lineas := Lineas(archivo.value);
    var i := 0;
    while i < |lineas|
      invariant 0 <= i <= |lineas|
      invariant Levantar(lineas[..i], ahora) == Responde(hashmap)
    {
      var line := lineas[i];
      i := i + 1;
      assert lineas[..i][..i - 1] == lineas[..i - 1];
      if line == "" { continue; }
      var elemento := Partir(line, SEPARADOR);
      var clave, valor;
      if STRING in elemento {
        if |elemento| < 3 { LevantarPanicoPersiste(lineas, i, ahora); return Panico; }
        clave, valor := elemento[1], Str(elemento[2]);
      } else if LIST in elemento || SET in elemento {
        if |elemento| < 2 { LevantarPanicoPersiste(lineas, i, ahora); return Panico; }
        clave := elemento[1];
        var esLista := LIST in elemento;
        elemento := elemento[2..];
        valor := if esLista then Lista(elemento) else Conjunto(set x | x in elemento);
      } else {
        continue;
      }
      if EX in elemento {
        var tiempo := ObtenerTiempoExpiracion(elemento);
        if tiempo.Panico? { LevantarPanicoPersiste(lineas, i, ahora); return Panico; }
        hashmap := hashmap[clave := EntradaExpirable(valor, tiempo.valor, ahora)];
      } else {
        hashmap := hashmap[clave := EntradaNoExpirable(valor, ahora)];
      }
    }
    assert lineas[..i] == lineas;
    r := Responde(hashmap);
  }
}
