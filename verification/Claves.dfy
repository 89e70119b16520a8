/** DEL and EXISTS, which take the lock anew for each key, and what that means when several clients delete at once;
    and COPY. */
module Claves {
  import opened Basicos
  import opened Cadenas
  import opened Valores
  import opened Mensajes
  import opened BaseDeDatos
  import opened ComandoInfo
  import opened Efectos

  // ---- The loop over the keys ----

  datatype Recorrido = Recorrido(tabla: Tabla, cuenta: nat, avisos: seq<Tabla>)

  /** One key: a live one is counted, and removed when `borrar` says so, which sends a snapshot. */
  function Visitar(s: Recorrido, ahora: nat, clave: string, borrar: bool): Recorrido
  {
    if !Existe(s.tabla, clave, ahora) then s
    else if !borrar then s.(cuenta := s.cuenta + 1)
    else Recorrido(s.tabla - {clave}, s.cuenta + 1, s.avisos + [s.tabla - {clave}])
  }

  function Recorrer(s: Recorrido, ahora: nat, claves: seq<string>, borrar: bool): Recorrido
    decreases |claves|
  {
    if claves == [] then s else Recorrer(Visitar(s, ahora, claves[0], borrar), ahora, claves[1..], borrar)
  }

  function EfectoRecorrer(t: Tabla, ahora: nat, claves: seq<string>, borrar: bool): Efecto
  {
    var s := Recorrer(Recorrido(t, 0, []), ahora, claves, borrar);
    Efecto(s.tabla, Responde(Int(s.cuenta)), s.avisos)
  }

  /** `borrar` is the function applied to each live key: removal for DEL, nothing for EXISTS. */
  method RecorrerYEjecutar(comando: ComandoInfo, bdd: BaseDeDatos, ahora: nat, borrar: bool)
    returns (r: Salida<ResultadoRedis>)
    requires bdd.Valid()
    modifies comando, bdd, bdd.hashmap.Values, bdd.observadores
    ensures Hizo(bdd, EfectoRecorrer(old(bdd.Tabla()), ahora, old(comando.Restantes()), borrar), r)
  {
    ghost var s := Recorrido(bdd.Tabla(), 0, []);
    ghost var fin := Recorrer(s, ahora, comando.Restantes(), borrar);
    var clavesEliminadas := 0;
    while true
      invariant bdd.Valid() && bdd.hashmap.Values <= old(bdd.hashmap.Values)
      invariant bdd.Avisado(s.avisos)
      invariant s.tabla == bdd.Tabla() && s.cuenta == clavesEliminadas
      invariant fin == Recorrer(s, ahora, comando.Restantes(), borrar)
      decreases |comando.Restantes()|
    {
      var parametro := comando.GetParametro();
      if parametro == None { return Responde(Int(clavesEliminadas)); }
      var estaba;
      estaba, s := EjecutarEnClave(bdd, parametro.value, ahora, borrar, s);
      if estaba { clavesEliminadas := clavesEliminadas + 1; }
    }
  }

  lemma UnAvisoMas(avisos: seq<Tabla>, t: Tabla, base: seq<Mensaje>)
    ensures base + Infos(avisos + [t]) == base + Infos(avisos) + Infos([t])
  {
    assert Infos(avisos + [t]) == Infos(avisos) + Infos([t]);
  }

  /** What happens under one lock; `s` is the course of the loop so far. */
  method EjecutarEnClave(bdd: BaseDeDatos, clave: string, ahora: nat, borrar: bool, ghost s: Recorrido)
    returns (estaba: bool, ghost s': Recorrido)
    requires bdd.Valid() && bdd.Tabla() == s.tabla
    modifies bdd, bdd.hashmap.Values, bdd.observadores
    ensures bdd.Valid() && bdd.hashmap.Values <= old(bdd.hashmap.Values) && bdd.observadores == old(bdd.observadores)
    ensures estaba == Existe(s.tabla, clave, ahora)
    ensures s' == Visitar(s, ahora, clave, borrar) && bdd.Tabla() == s'.tabla
    ensures forall o, base | o in bdd.observadores && old(o.mensajes) == base + Infos(s.avisos) ::
              o.mensajes == base + Infos(s'.avisos)
  {
    s' := Visitar(s, ahora, clave, borrar);
    estaba := bdd.ExisteClave(clave, ahora);
    if estaba && borrar {
      var _ := bdd.EliminarClave(clave, ahora);
      forall o, base | o in bdd.observadores && old(o.mensajes) == base + Infos(s.avisos)
        ensures o.mensajes == base + Infos(s'.avisos)
      {
        UnAvisoMas(s.avisos, s'.tabla, base);
      }
    }
  }

  /** The live keys among the arguments. */
  function VivasEn(t: Tabla, ahora: nat, claves: seq<string>): set<string>
  {
    set k | k in claves && k in t && !t[k].Expiro(ahora)
  }

  lemma VivasDeUnaYOtras(t: Tabla, ahora: nat, k: string, otras: seq<string>)
    ensures VivasEn(t, ahora, [k] + otras) == VivasEn(t, ahora, otras) + if Existe(t, k, ahora) then {k} else {}
  {
    assert forall x :: x in [k] + otras <==> x == k || x in otras;
  }

  lemma VivasSinUna(t: Tabla, ahora: nat, k: string, otras: seq<string>)
    ensures VivasEn(t - {k}, ahora, otras) == VivasEn(t, ahora, otras) - {k}
  {
  }

  /** What is left, and how many there were, when a live key goes first and the others after it. */
  lemma UnaYLasOtras(t: Tabla, ahora: nat, k: string, otras: seq<string>)
    ensures var s, s' := VivasEn(t, ahora, otras), VivasEn(t - {k}, ahora, otras);
            t - {k} - s' == t - (s + {k}) && 1 + |s'| == |s + {k}|
  {
    var s := VivasEn(t, ahora, otras);
    VivasSinUna(t, ahora, k, otras);
    assert s + {k} == (s - {k}) + {k};
  }

  lemma {:induction false} DelRecorre(s: Recorrido, ahora: nat, claves: seq<string>)
    ensures var fin, vivas := Recorrer(s, ahora, claves, true), VivasEn(s.tabla, ahora, claves);
            && fin.tabla == s.tabla - vivas && fin.cuenta == s.cuenta + |vivas|
            && |fin.avisos| == |s.avisos| + |vivas|
    decreases |claves|
  {
    if claves == [] {
      assert VivasEn(s.tabla, ahora, []) == {} && s.tabla - {} == s.tabla;
    } else {
      var k, otras := claves[0], claves[1..];
      assert claves == [k] + otras;
      VivasDeUnaYOtras(s.tabla, ahora, k, otras);
      DelRecorre(Visitar(s, ahora, k, true), ahora, otras);
      if Existe(s.tabla, k, ahora) {
        UnaYLasOtras(s.tabla, ahora, k, otras);
      } else {
        assert VivasEn(s.tabla, ahora, otras) + {} == VivasEn(s.tabla, ahora, otras);
      }
    }
  }

  /** One DEL alone removes the live keys among its arguments and nothing else, replies how many distinct ones, and sends
      as many snapshots. */
  lemma DelSolo(t: Tabla, ahora: nat, claves: seq<string>)
    ensures var e, vivas := EfectoRecorrer(t, ahora, claves, true), set k | k in claves && k in t && !t[k].Expiro(ahora);
            e.tabla == t - vivas && e.r == Responde(Int(|vivas|)) && |e.avisos| == |vivas|
  {
    DelRecorre(Recorrido(t, 0, []), ahora, claves);
  }

  /** Each removal is followed by the snapshot of what it left, so the last one is the final table. */
  lemma {:induction false} RecorridoAvisado(s: Recorrido, ahora: nat, claves: seq<string>, borrar: bool)
    ensures var fin := Recorrer(s, ahora, claves, borrar);
            && s.avisos <= fin.avisos
            && if fin.avisos == s.avisos then fin.tabla == s.tabla else fin.avisos[|fin.avisos| - 1] == fin.tabla
    decreases |claves|
  {
    if claves != [] { RecorridoAvisado(Visitar(s, ahora, claves[0], borrar), ahora, claves[1..], borrar); }
  }

  lemma DelAvisa(t: Tabla, ahora: nat, claves: seq<string>, borrar: bool)
    ensures CambioAvisado(t, EfectoRecorrer(t, ahora, claves, borrar))
  {
    RecorridoAvisado(Recorrido(t, 0, []), ahora, claves, borrar);
  }

  lemma {:induction false} RecorrerUltima(s: Recorrido, ahora: nat, claves: seq<string>, k: string, borrar: bool)
    ensures Recorrer(s, ahora, claves + [k], borrar) == Visitar(Recorrer(s, ahora, claves, borrar), ahora, k, borrar)
    decreases |claves|
  {
    if claves == [] {
      assert [] + [k] == [k] && [k][1..] == [];
    } else {
      assert (claves + [k])[1..] == claves[1..] + [k];
      RecorrerUltima(Visitar(s, ahora, claves[0], borrar), ahora, claves[1..], k, borrar);
    }
  }

  /** The positions that name a live key. */
  function PosicionesVivas(t: Tabla, ahora: nat, claves: seq<string>): set<nat>
  {
    set i | 0 <= i < |claves| && claves[i] in t && !t[claves[i]].Expiro(ahora)
  }

  lemma UnaPosicionMas(t: Tabla, ahora: nat, claves: seq<string>, k: string)
    ensures |PosicionesVivas(t, ahora, claves + [k])|
         == |PosicionesVivas(t, ahora, claves)| + if Existe(t, k, ahora) then 1 else 0
  {
    var antes := PosicionesVivas(t, ahora, claves);
    assert PosicionesVivas(t, ahora, claves + [k]) == antes + if Existe(t, k, ahora) then {|claves|} else {};
  }

  lemma {:induction false} ExistsRecorre(t: Tabla, ahora: nat, claves: seq<string>)
    ensures Recorrer(Recorrido(t, 0, []), ahora, claves, false) == Recorrido(t, |PosicionesVivas(t, ahora, claves)|, [])
    decreases |claves|
  {
    if claves == [] {
      assert PosicionesVivas(t, ahora, claves) == {};
    } else {
      var n := |claves| - 1;
      var antes, k := claves[..n], claves[n];
      assert claves == antes + [k];
      ExistsRecorre(t, ahora, antes);
      RecorrerUltima(Recorrido(t, 0, []), ahora, antes, k, false);
      UnaPosicionMas(t, ahora, antes, k);
    }
  }

  /** EXISTS changes nothing, sends nothing, and counts the positions that name a live key. */
  lemma ExistsSolo(t: Tabla, ahora: nat, claves: seq<string>)
    ensures EfectoRecorrer(t, ahora, claves, false)
         == Efecto(t, Responde(Int(|set i | 0 <= i < |claves| && claves[i] in t && !t[claves[i]].Expiro(ahora)|)))
  {
    ExistsRecorre(t, ahora, claves);
  }

  // ---- COPY ----

  function EfectoCopiar(t: Tabla, ahora: nat, p: seq<string>): Efecto
  {
    if |p| < 2 then Falla(t, CantidadDeArgumentos("copy"))
    else EfectoCopiarClave(t, ahora, p[0], p[1])
  }

  function EfectoCopiarClave(t: Tabla, ahora: nat, clave: string, nueva: string): Efecto
  {
    match Obtener(t, clave, ahora)
    case None => Efecto(t, Responde(Int(0)))
    case Some(valor) => Guarda(t[nueva := EntradaNoExpirable(valor, ahora)], Int(1))
  }

  method Copiar(comando: ComandoInfo, bdd: BaseDeDatos, ahora: nat) returns (r: Salida<ResultadoRedis>)
    requires bdd.Valid()
    modifies comando, bdd, bdd.hashmap.Values, bdd.observadores
    ensures Hizo(bdd, EfectoCopiar(old(bdd.Tabla()), ahora, comando.parametros), r)
  {
    var clave := comando.GetClave();
    if clave == None { return Responde(Error(CantidadDeArgumentos("copy"))); }
    var parametro := comando.GetParametro();
    if parametro == None { return Responde(Error(CantidadDeArgumentos("copy"))); }
    r := CopiarClave(bdd, clave.value, parametro.value, ahora);
  }

  method CopiarClave(bdd: BaseDeDatos, clave: string, nueva: string, ahora: nat) returns (r: Salida<ResultadoRedis>)
    requires bdd.Valid()
    modifies bdd, bdd.hashmap.Values, bdd.observadores
    ensures Hizo(bdd, EfectoCopiarClave(old(bdd.Tabla()), ahora, clave, nueva), r)
  {
    var copio := bdd.CopiarValor(clave, nueva, ahora);
    r := Responde(Int(if copio then 1 else 0));
  }

  /** COPY saves a live value under the second name, without its lifetime, and leaves the first as it was. */
  lemma CopiarHace(t: Tabla, ahora: nat, origen: string, destino: string, v: TipoRedis)
    ensures var e := EfectoCopiar(t, ahora, [origen, destino]);
            && (Falta(t, origen, ahora) ==> e == Efecto(t, Responde(Int(0))))
            && (Vive(t, origen, v, ahora) ==> e == Guarda(t[destino := EntradaNoExpirable(v, ahora)], Int(1)))
  {
  }

  // ---- Several clients ----

  /** A client in the middle of a DEL: the keys it has still to visit and what it has counted so far, which becomes
      its reply. `contadas` records which keys those were. */
  datatype Cliente = Cliente(pendientes: seq<string>, eliminadas: nat, contadas: multiset<string>)

  datatype Servidor = Servidor(tabla: Tabla, reloj: nat, clientes: seq<Cliente>)

  datatype Evento =
    | EmpiezaDel(claves: seq<string>)
    | PasoDel(cliente: nat)
    | OtraOperacion(op: Operacion)
    | Espera(nanos: nat)

  predicate Habilitado(s: Servidor, e: Evento)
  {
    match e
    case PasoDel(i) => i < |s.clientes| && s.clientes[i].pendientes != []
    case OtraOperacion(op) => op.Valida()
    case _ => true
  }

  /** One key under the lock: a live one is removed and counted. */
  function PasoDeCliente(s: Servidor, i: nat): Servidor
    requires i < |s.clientes| && s.clientes[i].pendientes != []
  {
    var c := s.clientes[i];
    var k, resto := c.pendientes[0], c.pendientes[1..];
    if Existe(s.tabla, k, s.reloj) then
      s.(tabla := Aplicar(s.tabla, s.reloj, Eliminar(k)),
         clientes := s.clientes[i := Cliente(resto, c.eliminadas + 1, c.contadas + multiset{k})])
    else s.(clientes := s.clientes[i := c.(pendientes := resto)])
  }

  function Paso(s: Servidor, e: Evento): Servidor
    requires Habilitado(s, e)
  {
    match e
    case EmpiezaDel(claves) => s.(clientes := s.clientes + [Cliente(claves, 0, multiset{})])
    case PasoDel(i) => PasoDeCliente(s, i)
    case OtraOperacion(op) => s.(tabla := Aplicar(s.tabla, s.reloj, op))
    case Espera(d) => s.(reloj := s.reloj + d)
  }

  ghost predicate Traza(ss: seq<Servidor>, evs: seq<Evento>)
  {
    && |ss| == |evs| + 1 && ss[0].clientes == []
    && forall i | 0 <= i < |evs| :: Habilitado(ss[i], evs[i]) && ss[i + 1] == Paso(ss[i], evs[i])
  }

  /** The replies added up. */
  function SumaRespuestas(clientes: seq<Cliente>): nat
  {
    if clientes == [] then 0
    else SumaRespuestas(clientes[..|clientes| - 1]) + clientes[|clientes| - 1].eliminadas
  }

  /** How often a key was counted by all the clients together. */
  function VecesContada(clientes: seq<Cliente>, k: string): nat
  {
    if clientes == [] then 0
    else VecesContada(clientes[..|clientes| - 1], k) + clientes[|clientes| - 1].contadas[k]
  }

  function Viva(s: Servidor, k: string): int { if Existe(s.tabla, k, s.reloj) then 1 else 0 }

  function CantidadVivas(s: Servidor): nat
  {
    |set k | k in s.tabla && Existe(s.tabla, k, s.reloj)|
  }

  predicate EsDel(e: Evento) { e.PasoDel? || e.EmpiezaDel? }

  /** What the other operations and the passing of time did to one key, births less deaths. */
  function Saldo(ss: seq<Servidor>, evs: seq<Evento>, n: nat, k: string): int
    requires n <= |evs| < |ss|
  {
    if n == 0 then 0
    else Saldo(ss, evs, n - 1, k) + if EsDel(evs[n - 1]) then 0 else Viva(ss[n], k) - Viva(ss[n - 1], k)
  }

  function SaldoTotal(ss: seq<Servidor>, evs: seq<Evento>, n: nat): int
    requires n <= |evs| < |ss|
  {
    if n == 0 then 0
    else SaldoTotal(ss, evs, n - 1) +
         if EsDel(evs[n - 1]) then 0 else CantidadVivas(ss[n]) - CantidadVivas(ss[n - 1])
  }

  lemma {:induction false} SumaAlCambiar(clientes: seq<Cliente>, i: nat, c: Cliente, k: string)
    requires i < |clientes|
    ensures SumaRespuestas(clientes[i := c]) == SumaRespuestas(clientes) - clientes[i].eliminadas + c.eliminadas
    ensures VecesContada(clientes[i := c], k) == VecesContada(clientes, k) - clientes[i].contadas[k] + c.contadas[k]
  {
    var n := |clientes| - 1;
    if i < n {
      SumaAlCambiar(clientes[..n], i, c, k);
      assert clientes[i := c][..n] == clientes[..n][i := c];
    } else {
      assert clientes[i := c][..n] == clientes[..n];
    }
  }

  lemma SumaAlAgregar(clientes: seq<Cliente>, c: Cliente, k: string)
    ensures SumaRespuestas(clientes + [c]) == SumaRespuestas(clientes) + c.eliminadas
    ensures VecesContada(clientes + [c], k) == VecesContada(clientes, k) + c.contadas[k]
  {
    assert (clientes + [c])[..|clientes|] == clientes;
  }

  /** A step of a DEL: what the replies gain, the live keys lose. */
  lemma PasoEquilibra(s: Servidor, i: nat, k: string)
    requires i < |s.clientes| && s.clientes[i].pendientes != []
    ensures var s' := PasoDeCliente(s, i);
            && SumaRespuestas(s'.clientes) - SumaRespuestas(s.clientes) == CantidadVivas(s) - CantidadVivas(s')
            && VecesContada(s'.clientes, k) - VecesContada(s.clientes, k) == Viva(s, k) - Viva(s', k)
  {
    var s' := PasoDeCliente(s, i);
    var x := s.clientes[i].pendientes[0];
    SumaAlCambiar(s.clientes, i, s'.clientes[i], k);
    var vivas := set y | y in s.tabla && Existe(s.tabla, y, s.reloj);
    var vivas' := set y | y in s'.tabla && Existe(s'.tabla, y, s'.reloj);
    if Existe(s.tabla, x, s.reloj) {
      assert vivas == vivas' + {x} && x !in vivas';
    } else {
      assert vivas == vivas';
    }
  }

  /** The record of the keys counted is as long as the reply, for every client at every moment. */
  lemma {:induction false} CuentasCuadran(ss: seq<Servidor>, evs: seq<Evento>, n: nat, i: nat)
    requires Traza(ss, evs) && n <= |evs| && i < |ss[n].clientes|
    ensures |ss[n].clientes[i].contadas| == ss[n].clientes[i].eliminadas
  {
    if n > 0 {
      assert ss[n] == Paso(ss[n - 1], evs[n - 1]);
      if i < |ss[n - 1].clientes| { CuentasCuadran(ss, evs, n - 1, i); }
    }
  }

  /** A client that goes on without interruption, until it has no keys left. */
  function SeguirSolo(s: Servidor, i: nat): Servidor
    requires i < |s.clientes|
    decreases |s.clientes[i].pendientes|
  {
    if s.clientes[i].pendientes == [] then s else SeguirSolo(PasoDeCliente(s, i), i)
  }

  lemma {:induction false} SoloRecorre(s: Servidor, i: nat, avisos: seq<Tabla>)
    requires i < |s.clientes|
    ensures var c := s.clientes[i];
            var fin, s' := Recorrer(Recorrido(s.tabla, c.eliminadas, avisos), s.reloj, c.pendientes, true), SeguirSolo(s, i);
            && s'.tabla == fin.tabla && s'.reloj == s.reloj && |s'.clientes| == |s.clientes|
            && s'.clientes[i].pendientes == [] && s'.clientes[i].eliminadas == fin.cuenta
    decreases |s.clientes[i].pendientes|
  {
    var c := s.clientes[i];
    if c.pendientes != [] {
      var k := c.pendientes[0];
      SoloRecorre(PasoDeCliente(s, i), i, Visitar(Recorrido(s.tabla, c.eliminadas, avisos), s.reloj, k, true).avisos);
    }
  }

  /** Such a client does just what the command does, and what it has counted at the end is the reply. */
  lemma SoloEsElComando(s: Servidor, i: nat)
    requires i < |s.clientes| && s.clientes[i].eliminadas == 0
    ensures var e, s' := EfectoRecorrer(s.tabla, s.reloj, s.clientes[i].pendientes, true), SeguirSolo(s, i);
            && s'.tabla == e.tabla && s'.reloj == s.reloj && |s'.clientes| == |s.clientes|
            && s'.clientes[i].pendientes == [] && e.r == Responde(Int(s'.clientes[i].eliminadas))
  {
    SoloRecorre(s, i, []);
  }

  /** Conservation for one key, under any interleaving of DEL steps with other operations and the clock: each counted
      removal answers for one time that the key was live, at the start or by another operation. */
  lemma {:induction false} CadaClaveSeCuentaUnaVez(ss: seq<Servidor>, evs: seq<Evento>, n: nat, k: string)
    requires Traza(ss, evs) && n <= |evs|
    ensures VecesContada(ss[n].clientes, k) == Viva(ss[0], k) + Saldo(ss, evs, n, k) - Viva(ss[n], k)
  {
    if n > 0 {
      CadaClaveSeCuentaUnaVez(ss, evs, n - 1, k);
      assert ss[n] == Paso(ss[n - 1], evs[n - 1]);
      match evs[n - 1]
      case PasoDel(i) => PasoEquilibra(ss[n - 1], i, k);
      case EmpiezaDel(claves) => SumaAlAgregar(ss[n - 1].clientes, Cliente(claves, 0, multiset{}), k);
      case _ =>
    }
  }

  /** The sum of all replies is the number of live keys that the DELs removed: what there was, plus the balance of the
      other operations and the clock, less what is left. */
  lemma {:induction false} RespuestasSumanLoEliminado(ss: seq<Servidor>, evs: seq<Evento>, n: nat)
    requires Traza(ss, evs) && n <= |evs|
    ensures SumaRespuestas(ss[n].clientes) == CantidadVivas(ss[0]) + SaldoTotal(ss, evs, n) - CantidadVivas(ss[n])
  {
    if n > 0 {
      RespuestasSumanLoEliminado(ss, evs, n - 1);
      assert ss[n] == Paso(ss[n - 1], evs[n - 1]);
      match evs[n - 1]
      case PasoDel(i) => PasoEquilibra(ss[n - 1], i, "");
      case EmpiezaDel(claves) => SumaAlAgregar(ss[n - 1].clientes, Cliente(claves, 0, multiset{}), "");
      case _ =>
    }
  }

  /** When nobody but the deleting clients and the clock acts on a key, all of them together count it at most once, and
      not at all if it was not live. */
  lemma SinAltasALoSumoUna(ss: seq<Servidor>, evs: seq<Evento>, n: nat, k: string)
    requires Traza(ss, evs) && n <= |evs|
    requires forall i | 0 <= i < n && evs[i].OtraOperacion? :: Viva(ss[i + 1], k) <= Viva(ss[i], k)
    ensures VecesContada(ss[n].clientes, k) <= Viva(ss[0], k)
  {
    CadaClaveSeCuentaUnaVez(ss, evs, n, k);
    SaldoSinAltas(ss, evs, n, k);
  }

  lemma {:induction false} SaldoSinAltas(ss: seq<Servidor>, evs: seq<Evento>, n: nat, k: string)
    requires Traza(ss, evs) && n <= |evs|
    requires forall i | 0 <= i < n && evs[i].OtraOperacion? :: Viva(ss[i + 1], k) <= Viva(ss[i], k)
    ensures Saldo(ss, evs, n, k) <= 0
  {
    if n > 0 {
      SaldoSinAltas(ss, evs, n - 1, k);
      assert ss[n] == Paso(ss[n - 1], evs[n - 1]);
      if evs[n - 1].OtraOperacion? { assert Viva(ss[n - 1 + 1], k) <= Viva(ss[n - 1], k); }
    }
  }
}
