/** The list commands. Each one is first a function from the table and the parameters to the new table and the reply;
    the method that follows the code is proved to have that effect on the store. */
module Listas {
  import opened Basicos
  import opened Cadenas
  import opened Decimal
  import opened Orden
  import opened Valores
  import opened BaseDeDatos
  import opened ComandoInfo
  import opened Efectos

  /** An emptied list is removed with its key. */
  function GuardarLista(t: Tabla, clave: string, lista: seq<string>, ahora: nat): Tabla
  {
    if lista != [] then t[clave := EntradaNoExpirable(Lista(lista), ahora)] else t - {clave}
  }

  // ---- LPOP and RPOP ----

  /** The elements popped, in list order, and those that remain. */
  function PopDe(lista: seq<string>, n: nat, reversed: bool): (seq<string>, seq<string>)
    requires n <= |lista|
  {
    if reversed then (lista[|lista| - n..], lista[..|lista| - n]) else (lista[..n], lista[n..])
  }

  function RespuestaPop(popped: seq<string>): ResultadoRedis
  {
    if |popped| == 1 then BulkStr(popped[0]) else Vector(Bulks(popped))
  }

  function EfectoPop(t: Tabla, ahora: nat, p: seq<string>, reversed: bool): Efecto
  {
    if p == [] then Falla(t, CantidadDeArgumentos("pop"))
    else
      match if |p| > 1 then ParseU64(p[1]) else Some(1)
      case None => Falla(t, NO_ENTERO)
      case Some(n) => EfectoPopDeClave(t, ahora, p[0], n, reversed)
  }

  function EfectoPopDeClave(t: Tabla, ahora: nat, clave: string, n: nat, reversed: bool): Efecto
  {
    match Obtener(t, clave, ahora)
    case None => Efecto(t, Responde(Nil))
    case Some(Lista(lista)) =>
      if n > |lista| then Efecto(t, Panico)
      else
        var (popped, resto) := PopDe(lista, n, reversed);
        Guarda(GuardarLista(t, clave, resto, ahora), RespuestaPop(popped))
    case Some(_) => Falla(t, WRONGTYPE)
  }

  method Guardada(bdd: BaseDeDatos, clave: string, lista: seq<string>, ahora: nat)
    requires bdd.Valid()
    modifies bdd, bdd.hashmap.Values, bdd.observadores
    ensures bdd.Valid() && bdd.Tabla() == GuardarLista(old(bdd.Tabla()), clave, lista, ahora)
    ensures fresh(bdd.hashmap.Values - old(bdd.hashmap.Values)) && bdd.Avisado([bdd.Tabla()])
  {
    if lista != [] {
      bdd.GuardarValor(clave, Lista(lista), ahora);
    } else {
      var _ := bdd.EliminarClave(clave, ahora);
    }
  }

  /** Reverse, drain from the front, reverse back: the slice at the end of the list. */
  method Drenar(entrada: seq<string>, indice: nat, reversed: bool) returns (aDevolver: seq<string>, lista: seq<string>)
    requires indice <= |entrada|
    ensures (aDevolver, lista) == PopDe(entrada, indice, reversed)
  {
    lista := entrada;
    if reversed { lista := Invertir(lista); }
    aDevolver, lista := lista[..indice], lista[indice..];
    if reversed {
      lista := Invertir(lista);
      aDevolver := Invertir(aDevolver);
      InvertirCortes(entrada, indice);
    }
  }

  lemma InvertirCortes(s: seq<string>, n: nat)
    requires n <= |s|
    ensures Invertir(Invertir(s)[..n]) == s[|s| - n..]
    ensures Invertir(Invertir(s)[n..]) == s[..|s| - n]
  {
    var izq, der := s[..|s| - n], s[|s| - n..];
    assert s == izq + der;
    InvertirConcat(izq, der);
    assert Invertir(s)[..n] == Invertir(der) && Invertir(s)[n..] == Invertir(izq);
    InvertirDosVeces(izq);
    InvertirDosVeces(der);
  }

  method Pop(comando: ComandoInfo, bdd: BaseDeDatos, ahora: nat, reversed: bool) returns (r: Salida<ResultadoRedis>)
    requires bdd.Valid()
    modifies comando, bdd, bdd.hashmap.Values, bdd.observadores
    ensures Hizo(bdd, EfectoPop(old(bdd.Tabla()), ahora, comando.parametros, reversed), r)
  {
    var clave := comando.GetClave();
    if clave == None { return Responde(Error(CantidadDeArgumentos("pop"))); }
    var parametro := comando.GetParametro();
    var indice: Option<u64> := Some(1);
    if parametro.Some? { indice := ParseU64(parametro.value); }
    if indice == None { return Responde(Error(NO_ENTERO)); }
    r := PopDeClave(clave.value, indice.value, bdd, ahora, reversed);
  }

  method PopDeClave(clave: string, indice: nat, bdd: BaseDeDatos, ahora: nat, reversed: bool)
    returns (r: Salida<ResultadoRedis>)
    requires bdd.Valid()
    modifies bdd, bdd.hashmap.Values, bdd.observadores
    ensures Hizo(bdd, EfectoPopDeClave(old(bdd.Tabla()), ahora, clave, indice, reversed), r)
  {
    match bdd.ObtenerValor(clave, ahora)
    case None => return Responde(Nil);
    case Some(Lista(lista)) =>
      if indice > |lista| { return Panico; }
      var aDevolver, resto := Drenar(lista, indice, reversed);
      Guardada(bdd, clave, resto, ahora);
      r := Responde(if |aDevolver| == 1 then BulkStr(aDevolver[0]) else Vector(Bulks(aDevolver)));
    case Some(_) => return Responde(Error(WRONGTYPE));
  }

  // ---- LPUSH, RPUSH and their X forms ----

  datatype TipoPush = TipoPush(nombre: string, alFinal: bool, soloSiExiste: bool)

  const LPUSH := TipoPush("lpush", false, false)
  const LPUSHX := TipoPush("lpushx", false, true)
  const RPUSH := TipoPush("rpush", true, false)
  const RPUSHX := TipoPush("rpushx", true, true)

  /** Pushing on the left one by one leaves the last value first. */
  function Empujada(lista: seq<string>, valores: seq<string>, alFinal: bool): seq<string>
  {
    if alFinal then lista + valores else Invertir(valores) + lista
  }

  function EfectoPush(t: Tabla, ahora: nat, p: seq<string>, tipo: TipoPush): Efecto
  {
    if p == [] then Falla(t, CantidadDeArgumentos(tipo.nombre))
    else
      match Obtener(t, p[0], ahora)
      case Some(Lista(lista)) => EfectoEmpujar(t, ahora, p[0], lista, p[1..], tipo.alFinal)
      case None =>
        if tipo.soloSiExiste then Efecto(t, Responde(Int(0)))
        else EfectoEmpujar(t, ahora, p[0], [], p[1..], tipo.alFinal)
      case Some(_) => Falla(t, WRONGTYPE)
  }

  function EfectoEmpujar(t: Tabla, ahora: nat, clave: string, lista: seq<string>, valores: seq<string>, alFinal: bool): Efecto
  {
    var nueva := Empujada(lista, valores, alFinal);
    Guarda(t[clave := EntradaNoExpirable(Lista(nueva), ahora)], Int(|nueva|))
  }

  method Push(comando: ComandoInfo, bdd: BaseDeDatos, ahora: nat, tipo: TipoPush) returns (r: Salida<ResultadoRedis>)
    requires bdd.Valid()
    modifies comando, bdd, bdd.hashmap.Values, bdd.observadores
    ensures Hizo(bdd, EfectoPush(old(bdd.Tabla()), ahora, comando.parametros, tipo), r)
  {
    var clave := comando.GetClave();
    if clave == None { return Responde(Error(CantidadDeArgumentos(tipo.nombre))); }
    match bdd.ObtenerValor(clave.value, ahora)
    case Some(Lista(lista)) => r := Empujar(lista, clave.value, comando, bdd, ahora, tipo.alFinal);
    case None =>
      if tipo.soloSiExiste { return Responde(Int(0)); }
      r := Empujar([], clave.value, comando, bdd, ahora, tipo.alFinal);
    case Some(_) => return Responde(Error(WRONGTYPE));
  }

  method Empujar(lista: seq<string>, clave: string, comando: ComandoInfo, bdd: BaseDeDatos, ahora: nat, alFinal: bool)
    returns (r: Salida<ResultadoRedis>)
    requires bdd.Valid()
    modifies comando, bdd, bdd.hashmap.Values, bdd.observadores
    ensures Hizo(bdd, EfectoEmpujar(old(bdd.Tabla()), ahora, clave, lista, old(comando.Restantes()), alFinal), r)
  {
    var nueva := EmpujarRestantes(comando, lista, alFinal);
    bdd.GuardarValor(clave, Lista(nueva), ahora);
    r := Responde(Int(|nueva|));
  }

  method EmpujarRestantes(comando: ComandoInfo, entrada: seq<string>, alFinal: bool) returns (lista: seq<string>)
    modifies comando
    ensures lista == Empujada(entrada, old(comando.Restantes()), alFinal)
  {
    lista := entrada;
    ghost var vistos: seq<string> := [];
    while true
      invariant old(comando.Restantes()) == vistos + comando.Restantes()
      invariant lista == Empujada(entrada, vistos, alFinal)
      decreases |comando.Restantes()|
    {
      ghost var quedan := comando.Restantes();
      var parametro := comando.GetParametro();
      if parametro == None {
        assert vistos + [] == vistos;
        return;
      }
      PrimeroYResto(vistos, quedan);
      UnoMas(entrada, vistos, parametro.value, alFinal);
      lista := if !alFinal then [parametro.value] + lista else lista + [parametro.value];
      vistos := vistos + [parametro.value];
    }
  }

  lemma UnoMas(lista: seq<string>, vistos: seq<string>, x: string, alFinal: bool)
    ensures var antes := Empujada(lista, vistos, alFinal);
            Empujada(lista, vistos + [x], alFinal) == if alFinal then antes + [x] else [x] + antes
  {
    if alFinal {
      Asociar(lista, vistos, [x]);
    } else {
      InvertirConcat(vistos, [x]);
      Asociar([x], Invertir(vistos), lista);
    }
  }

  // ---- LRANGE ----

  function EstaEnRangoLista(valor: i32, limite: i32): bool { 0 <= valor && valor < limite }

  function ObtenerIndiceInferior(inicio: i32, limite: i32): Option<i32>
    requires 0 <= limite
  {
    if EstaEnRangoLista(inicio, limite) then Some(inicio)
    else if inicio < 0 then
      if EstaEnRangoLista(inicio + limite, limite) then Some(inicio + limite) else Some(0)
    else None
  }

  function ObtenerIndiceSuperior(fin: i32, limite: i32): Option<i32>
    requires 0 <= limite
  {
    if EstaEnRangoLista(fin, limite) then Some(fin)
    else if fin < 0 then
      if EstaEnRangoLista(fin + limite, limite) then Some(fin + limite) else None
    else Some(limite - 1)
  }

  /** The cast `as usize` of a 32-bit integer on a 64-bit machine. */
  function ComoUsize(n: i32): u64
  {
    if 0 <= n then n as nat else MAX_U64 + 1 + (n as int)
  }

  /** The slice, or a panic when `b + 1` overflows or the slice leaves the list. */
  function RecortarEntre(lista: seq<string>, a: u64, b: u64): Salida<seq<string>>
  {
    if b < a then Responde([])
    else if b == MAX_U64 || b + 1 > |lista| then Panico
    else Responde(lista[a..b + 1])
  }

  function Recortar(lista: seq<string>, inicio: i32, fin: i32): Salida<seq<string>>
    requires |lista| <= MAX_I32
  {
    var limite := |lista| as i32;
    match (ObtenerIndiceInferior(inicio, limite), ObtenerIndiceSuperior(fin, limite))
    case (Some(a), Some(b)) => RecortarEntre(lista, ComoUsize(a), ComoUsize(b))
    case _ => Responde([])
  }

  function EfectoLrange(t: Tabla, ahora: nat, p: seq<string>): Salida<ResultadoRedis>
    requires forall k | k in t && t[k].valor.Lista? :: |t[k].valor.elementos| <= MAX_I32
  {
    if |p| == 0 then Responde(Error(CantidadDeArgumentos("lrange")))
    else if |p| == 1 then Responde(Error(CantidadDeArgumentos("lrange")))
    else if ParseI32(p[1]) == None then Responde(Error(NO_ENTERO))
    else if |p| == 2 then Responde(Error(CantidadDeArgumentos("lrange")))
    else if ParseI32(p[2]) == None then Responde(Error(NO_ENTERO))
    else EfectoLrangeDeClave(t, ahora, p[0], ParseI32(p[1]).value, ParseI32(p[2]).value)
  }

  function EfectoLrangeDeClave(t: Tabla, ahora: nat, clave: string, inicio: i32, fin: i32): Salida<ResultadoRedis>
    requires forall k | k in t && t[k].valor.Lista? :: |t[k].valor.elementos| <= MAX_I32
  {
    match Obtener(t, clave, ahora)
    case None => Responde(Vector([]))
    case Some(Lista(lista)) =>
      (match Recortar(lista, inicio, fin)
       case Panico => Panico
       case Responde(xs) => Responde(Vector(Bulks(xs))))
    case Some(_) => Responde(Error(WRONGTYPE))
  }

  // ---- The arguments of LREM and LSET ----

  datatype Argumentos = Bien(clave: string, indice: i32, elemento: string) | Mal(error: string)

  /** The index is checked before the element is missed. */
  function LeerArgumentos(p: seq<string>, nombre: string): Argumentos
  {
    if |p| < 2 then Mal(CantidadDeArgumentos(nombre))
    else
      match ParseI32(p[1])
      case None => Mal(NO_ENTERO)
      case Some(indice) => if |p| < 3 then Mal(CantidadDeArgumentos(nombre)) else Bien(p[0], indice, p[2])
  }

  method LeerClaveIndiceYElemento(comando: ComandoInfo, nombre: string) returns (r: Argumentos)
    modifies comando
    ensures r == LeerArgumentos(comando.parametros, nombre)
  {
    var clave := comando.GetClave();
    if clave == None { return Mal(CantidadDeArgumentos(nombre)); }
    var texto := comando.GetParametro();
    if texto == None { return Mal(CantidadDeArgumentos(nombre)); }
    var indice := ParseI32(texto.value);
    if indice == None { return Mal(NO_ENTERO); }
    var elemento := comando.GetParametro();
    if elemento == None { return Mal(CantidadDeArgumentos(nombre)); }
    r := Bien(clave.value, indice.value, elemento.value);
  }

  // ---- LREM ----

  /** The loop: the first `i` elements equal to `x` are dropped, the others are kept in order. */
  function Filtrar(lista: seq<string>, x: string, i: int): (seq<string>, nat)
  {
    if lista == [] then ([], 0)
    else
      var n := |lista| - 1;
      var (filtrada, eliminadas) := Filtrar(lista[..n], x, i);
      if lista[n] == x && eliminadas < i then (filtrada, eliminadas + 1) else (filtrada + [lista[n]], eliminadas)
  }

  /** Removal towards the left end or the right end, by the sign of the count. */
  function Quitar(lista: seq<string>, x: string, indice: int): (seq<string>, nat)
  {
    if indice < 0 then
      var (filtrada, eliminadas) := Filtrar(Invertir(lista), x, -indice);
      (Invertir(filtrada), eliminadas)
    else Filtrar(lista, x, indice)
  }

  function EfectoLrem(t: Tabla, ahora: nat, p: seq<string>): Efecto
  {
    match LeerArgumentos(p, "lrem")
    case Mal(error) => Falla(t, error)
    case Bien(clave, indice, x) => EfectoLremDeClave(t, ahora, clave, indice as int, x)
  }

  /** The absolute value of the smallest 32-bit integer overflows. */
  function EfectoLremDeClave(t: Tabla, ahora: nat, clave: string, indice: int, x: string): Efecto
  {
    match Obtener(t, clave, ahora)
    case None => Efecto(t, Responde(Int(0)))
    case Some(Lista(lista)) =>
      if indice == MIN_I32 then Efecto(t, Panico)
      else
        var (quedan, eliminadas) := Quitar(lista, x, indice);
        Guarda(GuardarLista(t, clave, quedan, ahora), Int(eliminadas))
    case Some(_) => Falla(t, WRONGTYPE)
  }

  method Lrem(comando: ComandoInfo, bdd: BaseDeDatos, ahora: nat) returns (r: Salida<ResultadoRedis>)
    requires bdd.Valid()
    modifies comando, bdd, bdd.hashmap.Values, bdd.observadores
    ensures Hizo(bdd, EfectoLrem(old(bdd.Tabla()), ahora, comando.parametros), r)
  {
    var argumentos := LeerClaveIndiceYElemento(comando, "lrem");
    match argumentos
    case Mal(error) => return Responde(Error(error));
    case Bien(clave, indice, aEliminar) => r := LremDeClave(clave, indice as int, aEliminar, bdd, ahora);
  }

  method LremDeClave(clave: string, indice: int, aEliminar: string, bdd: BaseDeDatos, ahora: nat)
    returns (r: Salida<ResultadoRedis>)
    requires bdd.Valid()
    modifies bdd, bdd.hashmap.Values, bdd.observadores
    ensures Hizo(bdd, EfectoLremDeClave(old(bdd.Tabla()), ahora, clave, indice, aEliminar), r)
  {
    match bdd.ObtenerValor(clave, ahora)
    case None => return Responde(Int(0));
    case Some(Lista(lista)) =>
      if indice == MIN_I32 { return Panico; }
      var filtrada, cantEliminada := FiltrarLista(lista, aEliminar, indice);
      Guardada(bdd, clave, filtrada, ahora);
      r := Responde(Int(cantEliminada));
    case Some(_) => return Responde(Error(WRONGTYPE));
  }

  method FiltrarLista(entrada: seq<string>, aEliminar: string, indice: int)
    returns (filtrada: seq<string>, cantEliminada: nat)
    ensures (filtrada, cantEliminada) == Quitar(entrada, aEliminar, indice)
  {
    var lista, i := entrada, indice;
    if indice < 0 {
      lista := Invertir(lista);
      i := -indice;
    }
    cantEliminada := 0;
    filtrada := [];
    for j := 0 to |lista|
      invariant (filtrada, cantEliminada) == Filtrar(lista[..j], aEliminar, i)
    {
      assert lista[..j + 1][..j] == lista[..j];
      if !(lista[j] == aEliminar && cantEliminada < i) {
        filtrada := filtrada + [lista[j]];
      } else {
        cantEliminada := cantEliminada + 1;
      }
    }
    assert lista[..|lista|] == lista;
    if indice < 0 { filtrada := Invertir(filtrada); }
  }

  // ---- LSET ----

  /** The position that an index names, counting from the end when it is negative. */
  function Posicion(indice: int, n: nat): Option<nat>
  {
    if 0 <= indice < n then Some(indice)
    else if indice < 0 && 0 <= n + indice then Some(n + indice)
    else None
  }

  function EfectoLset(t: Tabla, ahora: nat, p: seq<string>): Efecto
  {
    match LeerArgumentos(p, "lset")
    case Mal(error) => Falla(t, error)
    case Bien(clave, indice, x) => EfectoLsetDeClave(t, ahora, clave, indice as int, x)
  }

  /** The element is inserted before the position, which must exist already. */
  function EfectoLsetDeClave(t: Tabla, ahora: nat, clave: string, indice: int, x: string): Efecto
  {
    match Obtener(t, clave, ahora)
    case None => Falla(t, NO_ENTERO)
    case Some(Lista(lista)) =>
      (match Posicion(indice, |lista|)
       case None => Falla(t, NO_ENTERO)
       case Some(i) =>
         Guarda(t[clave := EntradaNoExpirable(Lista(lista[..i] + [x] + lista[i..]), ahora)], StrSimple("OK")))
    case Some(_) => Falla(t, WRONGTYPE)
  }

  method Lset(comando: ComandoInfo, bdd: BaseDeDatos, ahora: nat) returns (r: Salida<ResultadoRedis>)
    requires bdd.Valid()
    modifies comando, bdd, bdd.hashmap.Values, bdd.observadores
    ensures Hizo(bdd, EfectoLset(old(bdd.Tabla()), ahora, comando.parametros), r)
  {
    var argumentos := LeerClaveIndiceYElemento(comando, "lset");
    match argumentos
    case Mal(error) => return Responde(Error(error));
    case Bien(clave, indice, parametro) => r := LsetDeClave(clave, indice as int, parametro, bdd, ahora);
  }

  method LsetDeClave(clave: string, indice: int, parametro: string, bdd: BaseDeDatos, ahora: nat)
    returns (r: Salida<ResultadoRedis>)
    requires bdd.Valid()
    modifies bdd, bdd.hashmap.Values, bdd.observadores
    ensures Hizo(bdd, EfectoLsetDeClave(old(bdd.Tabla()), ahora, clave, indice, parametro), r)
  {
    var lista: seq<string> := [];
    match bdd.ObtenerValor(clave, ahora) {
      case Some(Lista(l)) => lista := l;
      case None =>
      case Some(_) => return Responde(Error(WRONGTYPE));
    }
    var tamanio := |lista|;
    if 0 <= indice && indice < tamanio {
      lista := lista[..indice] + [parametro] + lista[indice..];
    } else if 0 > indice && tamanio + indice >= 0 {
      lista := lista[..tamanio + indice] + [parametro] + lista[tamanio + indice..];
    } else {
      return Responde(Error(NO_ENTERO));
    }
    bdd.GuardarValor(clave, Lista(lista), ahora);
    r := Responde(StrSimple("OK"));
  }
}
