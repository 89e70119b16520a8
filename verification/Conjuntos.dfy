/** SADD and SREM, each under a single lock, and the conservation of members over any interleaving of them. */
module Conjuntos {
  import opened Basicos
  import opened Valores
  import opened BaseDeDatos
  import opened ComandoInfo
  import opened Efectos

  function Elementos(xs: seq<string>): set<string> { set x | x in xs }

  function EfectoSadd(t: Tabla, ahora: nat, p: seq<string>): Efecto
  {
    if p == [] then Falla(t, CantidadDeArgumentos("sadd")) else EfectoSaddDeClave(t, ahora, p[0], Elementos(p[1..]))
  }

  function EfectoSaddDeClave(t: Tabla, ahora: nat, clave: string, xs: set<string>): Efecto
  {
    match Obtener(t, clave, ahora)
    case Some(Conjunto(m)) => EfectoAgregar(t, ahora, clave, m, xs)
    case None => EfectoAgregar(t, ahora, clave, {}, xs)
    case Some(_) => Falla(t, WRONGTYPE)
  }

  function EfectoAgregar(t: Tabla, ahora: nat, clave: string, m: set<string>, xs: set<string>): Efecto
  {
    Guarda(t[clave := EntradaNoExpirable(Conjunto(m + xs), ahora)], Int(|xs - m|))
  }

  function EfectoSrem(t: Tabla, ahora: nat, p: seq<string>): Efecto
  {
    if p == [] then Falla(t, CantidadDeArgumentos("srem")) else EfectoSremDeClave(t, ahora, p[0], Elementos(p[1..]))
  }

  function EfectoSremDeClave(t: Tabla, ahora: nat, clave: string, xs: set<string>): Efecto
  {
    match Obtener(t, clave, ahora)
    case Some(Conjunto(m)) => EfectoSacar(t, ahora, clave, m, xs)
    case None => Efecto(t, Responde(Int(0)))
    case Some(_) => Falla(t, WRONGTYPE)
  }

  function EfectoSacar(t: Tabla, ahora: nat, clave: string, m: set<string>, xs: set<string>): Efecto
  {
    Guarda(t[clave := EntradaNoExpirable(Conjunto(m - xs), ahora)], Int(|m * xs|))
  }

  lemma UnoEntra(m: set<string>, xs: seq<string>)
    requires xs != []
    ensures (m + {xs[0]}) + Elementos(xs[1..]) == m + Elementos(xs)
    ensures xs[0] in m ==> m + Elementos(xs[1..]) == m + Elementos(xs)
  {
    assert xs == [xs[0]] + xs[1..];
  }

  lemma UnoSale(m: set<string>, xs: seq<string>)
    requires xs != []
    ensures (m - {xs[0]}) - Elementos(xs[1..]) == m - Elementos(xs)
    ensures xs[0] !in m ==> m - Elementos(xs[1..]) == m - Elementos(xs)
  {
    assert xs == [xs[0]] + xs[1..];
  }

  /** Adding the parameters one by one counts each new member once, however often it is named. */
  method AgregarAlSet(comando: ComandoInfo, entrada: set<string>) returns (m: set<string>, cantidadIngresada: nat)
    modifies comando
    ensures m == entrada + Elementos(old(comando.Restantes()))
    ensures cantidadIngresada == |Elementos(old(comando.Restantes())) - entrada|
  {
    m, cantidadIngresada := entrada, 0;
    ghost var todos := Elementos(comando.Restantes());
    while true
      invariant m + Elementos(comando.Restantes()) == entrada + todos
      invariant cantidadIngresada + |entrada| == |m|
      decreases |comando.Restantes()|
    {
      ghost var quedan := comando.Restantes();
      var parametro := comando.GetParametro();
      if parametro == None {
        assert m + Elementos([]) == m;
        DiferenciaDeTamanio(entrada, todos);
        return;
      }
      UnoEntra(m, quedan);
      if parametro.value !in m {
        m := m + {parametro.value};
        cantidadIngresada := cantidadIngresada + 1;
      }
    }
  }

  lemma DiferenciaDeTamanio(m: set<string>, xs: set<string>)
    ensures |m + xs| == |m| + |xs - m|
    ensures |m| == |m - xs| + |m * xs|
  {
  }

  method EliminarDelSet(comando: ComandoInfo, entrada: set<string>) returns (m: set<string>, cantidadEliminada: nat)
    modifies comando
    ensures m == entrada - Elementos(old(comando.Restantes()))
    ensures cantidadEliminada == |entrada * Elementos(old(comando.Restantes()))|
  {
    m, cantidadEliminada := entrada, 0;
    ghost var todos := Elementos(comando.Restantes());
    while true
      invariant m - Elementos(comando.Restantes()) == entrada - todos
      invariant cantidadEliminada + |m| == |entrada|
      decreases |comando.Restantes()|
    {
      ghost var quedan := comando.Restantes();
      var parametro := comando.GetParametro();
      if parametro == None {
        assert m - Elementos([]) == m;
        DiferenciaDeTamanio(entrada, todos);
        return;
      }
      UnoSale(m, quedan);
      if parametro.value in m {
        m := m - {parametro.value};
        cantidadEliminada := cantidadEliminada + 1;
      }
    }
  }

  method Sadd(comando: ComandoInfo, bdd: BaseDeDatos, ahora: nat) returns (r: Salida<ResultadoRedis>)
    requires bdd.Valid()
    modifies comando, bdd, bdd.hashmap.Values, bdd.observadores
    ensures Hizo(bdd, EfectoSadd(old(bdd.Tabla()), ahora, comando.parametros), r)
  {
    var clave := comando.GetClave();
    if clave == None { return Responde(Error(CantidadDeArgumentos("sadd"))); }
    r := SaddDeClave(comando, clave.value, bdd, ahora);
  }

  method SaddDeClave(comando: ComandoInfo, clave: string, bdd: BaseDeDatos, ahora: nat) returns (r: Salida<ResultadoRedis>)
    requires bdd.Valid()
    modifies comando, bdd, bdd.hashmap.Values, bdd.observadores
    ensures Hizo(bdd, EfectoSaddDeClave(old(bdd.Tabla()), ahora, clave, Elementos(old(comando.Restantes()))), r)
  {
    match bdd.ObtenerValor(clave, ahora)
    case Some(Conjunto(m)) => r := GuardarAgregados(m, clave, comando, bdd, ahora);
    case None => r := GuardarAgregados({}, clave, comando, bdd, ahora);
    case Some(_) => return Responde(Error(WRONGTYPE));
  }

  method GuardarAgregados(m: set<string>, clave: string, comando: ComandoInfo, bdd: BaseDeDatos, ahora: nat)
    returns (r: Salida<ResultadoRedis>)
    requires bdd.Valid()
    modifies comando, bdd, bdd.hashmap.Values, bdd.observadores
    ensures Hizo(bdd, EfectoAgregar(old(bdd.Tabla()), ahora, clave, m, Elementos(old(comando.Restantes()))), r)
  {
    var aAgregar, cantidadIngresada := AgregarAlSet(comando, m);
    bdd.GuardarValor(clave, Conjunto(aAgregar), ahora);
    r := Responde(Int(cantidadIngresada));
  }

  method Srem(comando: ComandoInfo, bdd: BaseDeDatos, ahora: nat) returns (r: Salida<ResultadoRedis>)
    requires bdd.Valid()
    modifies comando, bdd, bdd.hashmap.Values, bdd.observadores
    ensures Hizo(bdd, EfectoSrem(old(bdd.Tabla()), ahora, comando.parametros), r)
  {
    var clave := comando.GetClave();
    if clave == None { return Responde(Error(CantidadDeArgumentos("srem"))); }
    r := SremDeClave(comando, clave.value, bdd, ahora);
  }

  method SremDeClave(comando: ComandoInfo, clave: string, bdd: BaseDeDatos, ahora: nat) returns (r: Salida<ResultadoRedis>)
    requires bdd.Valid()
    modifies comando, bdd, bdd.hashmap.Values, bdd.observadores
    ensures Hizo(bdd, EfectoSremDeClave(old(bdd.Tabla()), ahora, clave, Elementos(old(comando.Restantes()))), r)
  {
    match bdd.ObtenerValor(clave, ahora)
    case Some(Conjunto(m)) => r := GuardarRestantes(m, clave, comando, bdd, ahora);
    case None => return Responde(Int(0));
    case Some(_) => return Responde(Error(WRONGTYPE));
  }

  method GuardarRestantes(m: set<string>, clave: string, comando: ComandoInfo, bdd: BaseDeDatos, ahora: nat)
    returns (r: Salida<ResultadoRedis>)
    requires bdd.Valid()
    modifies comando, bdd, bdd.hashmap.Values, bdd.observadores
    ensures Hizo(bdd, EfectoSacar(old(bdd.Tabla()), ahora, clave, m, Elementos(old(comando.Restantes()))), r)
  {
    var quedan, cantidadEliminada := EliminarDelSet(comando, m);
    bdd.GuardarValor(clave, Conjunto(quedan), ahora);
    r := Responde(Int(cantidadEliminada));
  }

  /** The whole effect of SADD: the members named join those of the set, and the reply is how many were not there. */
  lemma SaddHace(t: Tabla, ahora: nat, clave: string, xs: seq<string>, m: set<string>, v: TipoRedis)
    ensures var e := EfectoSadd(t, ahora, [clave] + xs);
            var nuevos := set x | x in xs;
            && (Falta(t, clave, ahora) ==> e == Guarda(t[clave := EntradaNoExpirable(Conjunto(nuevos), ahora)], Int(|nuevos|)))
            && (Vive(t, clave, v, ahora) && !v.Conjunto? ==> e == Falla(t, WRONGTYPE))
            && (Vive(t, clave, Conjunto(m), ahora) ==>
                  e == Guarda(t[clave := EntradaNoExpirable(Conjunto(m + nuevos), ahora)], Int(|nuevos - m|)))
  {
    var nuevos := Elementos(xs);
    assert ([clave] + xs)[1..] == xs;
    assert {} + nuevos == nuevos && nuevos - {} == nuevos;
  }

  /** The whole effect of SREM: the members named leave the set, and the reply is how many were there. */
  lemma SremHace(t: Tabla, ahora: nat, clave: string, xs: seq<string>, m: set<string>, v: TipoRedis)
    ensures var e := EfectoSrem(t, ahora, [clave] + xs);
            var fuera := set x | x in xs;
            && (Falta(t, clave, ahora) ==> e == Efecto(t, Responde(Int(0))))
            && (Vive(t, clave, v, ahora) && !v.Conjunto? ==> e == Falla(t, WRONGTYPE))
            && (Vive(t, clave, Conjunto(m), ahora) ==>
                  e == Guarda(t[clave := EntradaNoExpirable(Conjunto(m - fuera), ahora)], Int(|m * fuera|)))
  {
    assert ([clave] + xs)[1..] == xs;
  }

  /** Neither command changes a set without sending the new table to the observers. */
  lemma ConjuntoAvisa(t: Tabla, ahora: nat, p: seq<string>)
    ensures CambioAvisado(t, EfectoSadd(t, ahora, p)) && CambioAvisado(t, EfectoSrem(t, ahora, p))
  {
  }

  // ---- Many clients ----

  datatype Evento = Agrega(p: seq<string>) | Saca(p: seq<string>) | Espera(nanos: nat)

  datatype Servidor = Servidor(tabla: Tabla, reloj: nat)

  function Efectuar(s: Servidor, e: Evento): Efecto
    requires !e.Espera?
  {
    if e.Agrega? then EfectoSadd(s.tabla, s.reloj, e.p) else EfectoSrem(s.tabla, s.reloj, e.p)
  }

  function Paso(s: Servidor, e: Evento): Servidor
  {
    match e
    case Espera(d) => s.(reloj := s.reloj + d)
    case _ => s.(tabla := Efectuar(s, e).tabla)
  }

  /** What the reply to a command on the key adds to the account: SADD counts up and SREM counts down. */
  function Aporte(s: Servidor, e: Evento, clave: string): int
  {
    if e.Espera? || e.p == [] || e.p[0] != clave then 0
    else
      match Efectuar(s, e).r
      case Responde(Int(n)) => if e.Agrega? then n else -n
      case _ => 0
  }

  function Cuenta(s: Servidor, evs: seq<Evento>, clave: string): int
    decreases |evs|
  {
    if evs == [] then 0 else Aporte(s, evs[0], clave) + Cuenta(Paso(s, evs[0]), evs[1..], clave)
  }

  function Correr(s: Servidor, evs: seq<Evento>): Servidor
    decreases |evs|
  {
    if evs == [] then s else Correr(Paso(s, evs[0]), evs[1..])
  }

  function Cardinal(s: Servidor, clave: string): nat
  {
    match Obtener(s.tabla, clave, s.reloj)
    case Some(Conjunto(m)) => |m|
    case _ => 0
  }

  /** The key does not hold a live set with a lifetime. */
  predicate SinVencimiento(s: Servidor, clave: string)
  {
    clave in s.tabla && s.tabla[clave].valor.Conjunto? && s.tabla[clave].vida.Some? ==> s.tabla[clave].Expiro(s.reloj)
  }

  lemma AgregaConserva(s: Servidor, e: Evento, clave: string)
    requires SinVencimiento(s, clave) && e.Agrega? && e.p != [] && e.p[0] == clave
    ensures SinVencimiento(Paso(s, e), clave)
    ensures Cardinal(Paso(s, e), clave) == Cardinal(s, clave) + Aporte(s, e, clave)
  {
  }

  lemma SacaConserva(s: Servidor, e: Evento, clave: string)
    requires SinVencimiento(s, clave) && e.Saca? && e.p != [] && e.p[0] == clave
    ensures SinVencimiento(Paso(s, e), clave)
    ensures Cardinal(Paso(s, e), clave) == Cardinal(s, clave) + Aporte(s, e, clave)
  {
  }

  /** A command on another key leaves this one alone. */
  lemma OtraClave(s: Servidor, e: Evento, clave: string)
    requires !e.Espera? && (e.p == [] || e.p[0] != clave)
    ensures var t' := Efectuar(s, e).tabla;
            (clave in t' <==> clave in s.tabla) && (clave in t' ==> t'[clave] == s.tabla[clave])
  {
  }

  lemma PasoConserva(s: Servidor, e: Evento, clave: string)
    requires SinVencimiento(s, clave)
    ensures SinVencimiento(Paso(s, e), clave)
    ensures Cardinal(Paso(s, e), clave) == Cardinal(s, clave) + Aporte(s, e, clave)
  {
    if e.Espera? {
    } else if e.p == [] || e.p[0] != clave {
      OtraClave(s, e, clave);
    } else if e.Agrega? {
      AgregaConserva(s, e, clave);
    } else {
      SacaConserva(s, e, clave);
    }
  }

  /** Over any interleaving of SADD and SREM by any clients on any keys, with the clock running, the SADD replies on a
      key less its SREM replies are the change in its cardinality: duplicates and errors included. */
  lemma {:induction false} SeConservanLosMiembros(s: Servidor, evs: seq<Evento>, clave: string)
    requires SinVencimiento(s, clave)
    ensures Cardinal(Correr(s, evs), clave) == Cardinal(s, clave) + Cuenta(s, evs, clave)
    decreases |evs|
  {
    if evs != [] {
      PasoConserva(s, evs[0], clave);
      SeConservanLosMiembros(Paso(s, evs[0]), evs[1..], clave);
    }
  }

  /** The event is a SADD or a SREM on the key. */
  predicate EsDe(e: Evento, clave: string) { !e.Espera? && e.p != [] && e.p[0] == clave }

  /** The clock at the first SADD or SREM on the key, or at the end of the run. */
  function RelojDelPrimero(s: Servidor, evs: seq<Evento>, clave: string): nat
    decreases |evs|
  {
    if evs == [] || EsDe(evs[0], clave) then s.reloj else RelojDelPrimero(Paso(s, evs[0]), evs[1..], clave)
  }

  /** A set with a lifetime keeps its members as long as it is not touched and lives, and ends the account open
      when it dies before. */
  predicate SeVence(s: Servidor, evs: seq<Evento>, clave: string)
  {
    !SinVencimiento(s, clave) && s.tabla[clave].Expiro(RelojDelPrimero(s, evs, clave))
  }

  /** The first command on a live set with a lifetime saves it without one, even if it fails to change it. */
  lemma PrimeroDeTodos(s: Servidor, e: Evento, clave: string)
    requires !SinVencimiento(s, clave) && EsDe(e, clave)
    ensures SinVencimiento(Paso(s, e), clave)
    ensures Cardinal(Paso(s, e), clave) == Cardinal(s, clave) + Aporte(s, e, clave)
  {
  }

  lemma SinTocar(s: Servidor, e: Evento, clave: string)
    requires !SinVencimiento(s, clave) && !EsDe(e, clave)
    ensures clave in Paso(s, e).tabla && Paso(s, e).tabla[clave] == s.tabla[clave] && Aporte(s, e, clave) == 0
    ensures s.reloj <= Paso(s, e).reloj
  {
    if !e.Espera? { OtraClave(s, e, clave); }
  }

  lemma {:induction false} ElRelojAvanza(s: Servidor, evs: seq<Evento>, clave: string)
    ensures s.reloj <= RelojDelPrimero(s, evs, clave)
    decreases |evs|
  {
    if evs != [] && !EsDe(evs[0], clave) { ElRelojAvanza(Paso(s, evs[0]), evs[1..], clave); }
  }

  /** What a run loses is exactly what the clock took: all members, when the set dies before it is touched. */
  lemma {:induction false} LoQueSeVence(s: Servidor, evs: seq<Evento>, clave: string)
    ensures Cardinal(Correr(s, evs), clave)
         == Cardinal(s, clave) + Cuenta(s, evs, clave) - if SeVence(s, evs, clave) then Cardinal(s, clave) else 0
    decreases |evs|
  {
    if SinVencimiento(s, clave) {
      SeConservanLosMiembros(s, evs, clave);
    } else if evs != [] {
      var s' := Paso(s, evs[0]);
      if EsDe(evs[0], clave) {
        PrimeroDeTodos(s, evs[0], clave);
        SeConservanLosMiembros(s', evs[1..], clave);
      } else {
        SinTocar(s, evs[0], clave);
        UnoSinTocar(s, evs, clave);
      }
    }
  }

  lemma UnoSinTocar(s: Servidor, evs: seq<Evento>, clave: string)
    requires !SinVencimiento(s, clave) && evs != [] && !EsDe(evs[0], clave)
    requires clave in Paso(s, evs[0]).tabla && Paso(s, evs[0]).tabla[clave] == s.tabla[clave]
    requires Aporte(s, evs[0], clave) == 0 && s.reloj <= Paso(s, evs[0]).reloj
    ensures Cardinal(Correr(s, evs), clave)
         == Cardinal(s, clave) + Cuenta(s, evs, clave) - if SeVence(s, evs, clave) then Cardinal(s, clave) else 0
    decreases |evs|, 0
  {
    var s' := Paso(s, evs[0]);
    if s.tabla[clave].Expiro(s'.reloj) {
      SeConservanLosMiembros(s', evs[1..], clave);
      ElRelojAvanza(s', evs[1..], clave);
    } else {
      LoQueSeVence(s', evs[1..], clave);
    }
  }

  /** The account balances over a run if and only if the key holds no live set with a lifetime at the start, or the set
      is touched, or the run ends, before it dies, or it is empty. */
  lemma ConservanExactamente(s: Servidor, evs: seq<Evento>, clave: string)
    ensures Cardinal(Correr(s, evs), clave) == Cardinal(s, clave) + Cuenta(s, evs, clave) <==>
            SinVencimiento(s, clave) || !s.tabla[clave].Expiro(RelojDelPrimero(s, evs, clave)) || Cardinal(s, clave) == 0
  {
    LoQueSeVence(s, evs, clave);
  }
}
