/** Lazy expiry refines eager expiry. The store removes nothing when a lifetime ends: each lookup consults the clock.
    The reference below is a map from which a key vanishes at its expiry instant. */
module Vigencia {
  import opened Basicos
  import opened Valores
  import opened BaseDeDatos

  // ---- The reference: a map of live data with absolute expiry instants ----

  datatype Dato = Dato(valor: TipoRedis, vence: Option<nat>)
  type Mapa = map<string, Dato>

  predicate Vencido(d: Dato, ahora: nat) { d.vence.Some? && d.vence.value <= ahora }

  function Depurar(m: Mapa, ahora: nat): Mapa
  {
    map k | k in m && !Vencido(m[k], ahora) :: m[k]
  }

  function Poner(m: Mapa, k: string, d: Dato, ahora: nat): Mapa
  {
    if Vencido(d, ahora) then m - {k} else m[k := d]
  }

  function PonerPares(m: Mapa, p: seq<string>, n: nat): Mapa
    requires n < |p|
  {
    if n == 0 then m else PonerPares(m, p, n - 1)[p[n - 1] := Dato(Str(p[n]), None)]
  }

  function Ansiosa(m: Mapa, ahora: nat, op: Operacion): Mapa
    requires op.Valida()
  {
    match op
    case Guardar(k, v) => m[k := Dato(v, None)]
    case GuardarConExpiracion(k, n, v) => Poner(m, k, Dato(v, Some(ahora + n * NANOS)), ahora)
    case GuardarValores(p) => PonerPares(m, p, |p| - 1)
    case Eliminar(k) => m - {k}
    case Copiar(k, nueva) => if k in m then m[nueva := Dato(m[k].valor, None)] else m
    case Intercambiar(k, v) => if k in m && (m[k].valor.Lista? || m[k].valor.Conjunto?) then m else m[k := Dato(v, None)]
    case BorrarClaves => map[]
    case ActualizarExpiracion(k, n) =>
      if k in m then Poner(m, k, Dato(m[k].valor, Some(ahora + n * NANOS)), ahora) else m
    case HacerPersistente(k) => if k in m then m[k := Dato(m[k].valor, None)] else m
    case Tocar(_) => m
  }

  // ---- The abstraction ----

  function DatoDe(e: Entrada): Dato
  {
    Dato(e.valor, if e.vida.Some? then Some(e.creacion + e.vida.value * NANOS) else None)
  }

  function Vivas(t: Tabla, ahora: nat): Mapa
  {
    map k | k in t && !t[k].Expiro(ahora) :: DatoDe(t[k])
  }

  /** The clock never runs backwards, so nothing was created in the future. */
  predicate CreadasAntes(t: Tabla, ahora: nat)
  {
    forall k | k in t :: t[k].creacion <= ahora
  }

  /** EXPIRE with a positive time, or PERSIST, on a key that has expired but is still physically in the table. */
  predicate Resucita(t: Tabla, ahora: nat, op: Operacion)
  {
    match op
    case ActualizarExpiracion(k, n) => n > 0 && k in t && t[k].Expiro(ahora)
    case HacerPersistente(k) => k in t && t[k].Expiro(ahora)
    case _ => false
  }

  lemma {:induction false} ParesRefinan(t: Tabla, p: seq<string>, n: nat, ahora: nat)
    requires n < |p| && CreadasAntes(t, ahora)
    ensures CreadasAntes(GuardarPares(t, p, n, ahora), ahora)
    ensures Vivas(GuardarPares(t, p, n, ahora), ahora) == PonerPares(Vivas(t, ahora), p, n)
  {
    if n > 0 {
      ParesRefinan(t, p, n - 1, ahora);
      PonerRefina(GuardarPares(t, p, n - 1, ahora), p[n - 1], EntradaNoExpirable(Str(p[n]), ahora), ahora);
    }
  }

  lemma PonerRefina(t: Tabla, k: string, e: Entrada, ahora: nat)
    requires CreadasAntes(t, ahora) && e.creacion <= ahora
    ensures CreadasAntes(t[k := e], ahora)
    ensures Vivas(t[k := e], ahora) == Poner(Vivas(t, ahora), k, DatoDe(e), ahora)
  {
  }

  lemma CopiarRefina(t: Tabla, ahora: nat, k: string, nueva: string)
    requires CreadasAntes(t, ahora)
    ensures var op := Copiar(k, nueva);
            && CreadasAntes(Aplicar(t, ahora, op), ahora)
            && Vivas(Aplicar(t, ahora, op), ahora) == Ansiosa(Vivas(t, ahora), ahora, op)
  {
    if Existe(t, k, ahora) { PonerRefina(t, nueva, EntradaNoExpirable(t[k].valor, ahora), ahora); }
  }

  lemma IntercambiarRefina(t: Tabla, ahora: nat, k: string, v: TipoRedis)
    requires CreadasAntes(t, ahora)
    ensures var op := Intercambiar(k, v);
            && CreadasAntes(Aplicar(t, ahora, op), ahora)
            && Vivas(Aplicar(t, ahora, op), ahora) == Ansiosa(Vivas(t, ahora), ahora, op)
  {
    PonerRefina(t, k, EntradaNoExpirable(v, ahora), ahora);
  }

  lemma QuitarRefina(t: Tabla, ahora: nat, k: string)
    requires CreadasAntes(t, ahora)
    ensures CreadasAntes(t - {k}, ahora) && Vivas(t - {k}, ahora) == Vivas(t, ahora) - {k}
  {
  }

  lemma TocarRefina(t: Tabla, ahora: nat, k: string)
    requires CreadasAntes(t, ahora)
    ensures var op := Tocar(k);
            && CreadasAntes(Aplicar(t, ahora, op), ahora)
            && Vivas(Aplicar(t, ahora, op), ahora) == Vivas(t, ahora)
  {
  }

  /** One operation: the live view changes as the eager map does, exactly when the operation does not bring back a
      key that had already expired. */
  lemma OperacionRefina(t: Tabla, ahora: nat, op: Operacion)
    requires op.Valida() && CreadasAntes(t, ahora)
    ensures CreadasAntes(Aplicar(t, ahora, op), ahora)
    ensures Vivas(Aplicar(t, ahora, op), ahora) == Ansiosa(Vivas(t, ahora), ahora, op) <==> !Resucita(t, ahora, op)
  {
    match op
    case Guardar(k, v) => PonerRefina(t, k, EntradaNoExpirable(v, ahora), ahora);
    case GuardarConExpiracion(k, n, v) => PonerRefina(t, k, EntradaExpirable(v, n, ahora), ahora);
    case GuardarValores(p) => ParesRefinan(t, p, |p| - 1, ahora);
    case Eliminar(k) => QuitarRefina(t, ahora, k);
    case Copiar(k, nueva) => CopiarRefina(t, ahora, k, nueva);
    case Intercambiar(k, v) => IntercambiarRefina(t, ahora, k, v);
    case BorrarClaves =>
    case ActualizarExpiracion(k, _) => RenovarRefina(t, ahora, k, op);
    case HacerPersistente(k) => RenovarRefina(t, ahora, k, op);
    case Tocar(k) => TocarRefina(t, ahora, k);
  }

  lemma RenovarRefina(t: Tabla, ahora: nat, k: string, op: Operacion)
    requires CreadasAntes(t, ahora)
    requires op == HacerPersistente(k) || (op.ActualizarExpiracion? && op.clave == k)
    ensures CreadasAntes(Aplicar(t, ahora, op), ahora)
    ensures Vivas(Aplicar(t, ahora, op), ahora) == Ansiosa(Vivas(t, ahora), ahora, op) <==> !Resucita(t, ahora, op)
  {
    if k in t {
      var t' := Aplicar(t, ahora, op);
      var e := t'[k];
      assert t' == t[k := e];
      PonerRefina(t, k, e, ahora);
      if t[k].Expiro(ahora) {
        assert k !in Vivas(t, ahora);
        assert k in Vivas(t', ahora) <==> Resucita(t, ahora, op);
      }
    }
  }

  /** Passing of time: nothing happens to the table, and the eager map loses what is due. */
  lemma EsperaRefina(t: Tabla, ahora: nat, despues: nat)
    requires CreadasAntes(t, ahora) && ahora <= despues
    ensures CreadasAntes(t, despues)
    ensures Vivas(t, despues) == Depurar(Vivas(t, ahora), despues)
  {
  }

  // ---- Whole runs ----

  datatype Evento = Ejecuta(op: Operacion) | Espera(nanos: nat)

  datatype Perezoso = Perezoso(tabla: Tabla, reloj: nat)
  datatype Ansioso = Ansioso(mapa: Mapa, reloj: nat)

  predicate Validos(evs: seq<Evento>)
  {
    forall e | e in evs :: e.Ejecuta? ==> e.op.Valida()
  }

  function PasoPerezoso(s: Perezoso, e: Evento): Perezoso
    requires e.Ejecuta? ==> e.op.Valida()
  {
    match e
    case Ejecuta(op) => s.(tabla := Aplicar(s.tabla, s.reloj, op))
    case Espera(d) => s.(reloj := s.reloj + d)
  }

  function PasoAnsioso(s: Ansioso, e: Evento): Ansioso
    requires e.Ejecuta? ==> e.op.Valida()
  {
    match e
    case Ejecuta(op) => s.(mapa := Ansiosa(s.mapa, s.reloj, op))
    case Espera(d) => Ansioso(Depurar(s.mapa, s.reloj + d), s.reloj + d)
  }

  function CorrerPerezoso(s: Perezoso, evs: seq<Evento>): Perezoso
    requires Validos(evs)
    decreases |evs|
  {
    if evs == [] then s else CorrerPerezoso(PasoPerezoso(s, evs[0]), evs[1..])
  }

  function CorrerAnsioso(s: Ansioso, evs: seq<Evento>): Ansioso
    requires Validos(evs)
    decreases |evs|
  {
    if evs == [] then s else CorrerAnsioso(PasoAnsioso(s, evs[0]), evs[1..])
  }

  predicate NadieResucita(s: Perezoso, evs: seq<Evento>)
    requires Validos(evs)
    decreases |evs|
  {
    evs == [] || (!(evs[0].Ejecuta? && Resucita(s.tabla, s.reloj, evs[0].op))
                  && NadieResucita(PasoPerezoso(s, evs[0]), evs[1..]))
  }

  ghost predicate Refina(s: Perezoso, a: Ansioso)
  {
    s.reloj == a.reloj && CreadasAntes(s.tabla, s.reloj) && a.mapa == Vivas(s.tabla, s.reloj)
  }

  /** Over every run that revives no expired key, each lookup of the lazy store answers as the eager map. */
  lemma {:induction false} LaPerezosaRefina(s: Perezoso, a: Ansioso, evs: seq<Evento>, clave: string)
    requires Validos(evs) && NadieResucita(s, evs) && Refina(s, a)
    ensures var sf, af := CorrerPerezoso(s, evs), CorrerAnsioso(a, evs);
            && Refina(sf, af)
            && Existe(sf.tabla, clave, sf.reloj) == (clave in af.mapa)
            && Obtener(sf.tabla, clave, sf.reloj) == if clave in af.mapa then Some(af.mapa[clave].valor) else None
    decreases |evs|
  {
    if evs != [] {
      match evs[0]
      case Ejecuta(op) =>
        OperacionRefina(s.tabla, s.reloj, op);
        LaPerezosaRefina(PasoPerezoso(s, evs[0]), PasoAnsioso(a, evs[0]), evs[1..], clave);
      case Espera(d) =>
        EsperaRefina(s.tabla, s.reloj, s.reloj + d);
        LaPerezosaRefina(PasoPerezoso(s, evs[0]), PasoAnsioso(a, evs[0]), evs[1..], clave);
    }
  }

  /** The store and the map agree at the beginning, after every event and at the end. */
  ghost predicate SiempreRefina(s: Perezoso, a: Ansioso, evs: seq<Evento>)
    requires Validos(evs)
    decreases |evs|
  {
    Refina(s, a) && (evs == [] || SiempreRefina(PasoPerezoso(s, evs[0]), PasoAnsioso(a, evs[0]), evs[1..]))
  }

  /** They agree all along a run if and only if nothing in it revives an expired key. */
  lemma {:induction false} RefinaExactamente(s: Perezoso, a: Ansioso, evs: seq<Evento>)
    requires Validos(evs) && Refina(s, a)
    ensures SiempreRefina(s, a, evs) <==> NadieResucita(s, evs)
    decreases |evs|
  {
    if evs != [] {
      var s', a' := PasoPerezoso(s, evs[0]), PasoAnsioso(a, evs[0]);
      match evs[0] {
        case Ejecuta(op) => OperacionRefina(s.tabla, s.reloj, op);
        case Espera(d) => EsperaRefina(s.tabla, s.reloj, s.reloj + d);
      }
      if Refina(s', a') { RefinaExactamente(s', a', evs[1..]); }
    }
  }

  /** SET k v EX 1, two seconds, EXPIRE k 10: GET finds a value that had ceased to exist. */
  lemma ExpireResucita()
    ensures var evs := [Ejecuta(GuardarConExpiracion("k", 1, Str("v"))), Espera(2 * NANOS),
                        Ejecuta(ActualizarExpiracion("k", 10))];
            var sf := CorrerPerezoso(Perezoso(map[], 0), evs);
            var af := CorrerAnsioso(Ansioso(map[], 0), evs);
            Obtener(sf.tabla, "k", sf.reloj) == Some(Str("v")) && "k" !in af.mapa
  {
    var e0, e1, e2 := Ejecuta(GuardarConExpiracion("k", 1, Str("v"))), Espera(2 * NANOS),
                      Ejecuta(ActualizarExpiracion("k", 10));
    var evs := [e0, e1, e2];
    var s1 := PasoPerezoso(Perezoso(map[], 0), e0);
    var s2 := PasoPerezoso(s1, e1);
    var s3 := PasoPerezoso(s2, e2);
    assert evs[1..] == [e1, e2] && [e1, e2][1..] == [e2] && [e2][1..] == [];
    assert CorrerPerezoso(s2, [e2]) == s3;
    assert CorrerPerezoso(s1, [e1, e2]) == s3;
    assert CorrerPerezoso(Perezoso(map[], 0), evs) == s3;
    var a1 := PasoAnsioso(Ansioso(map[], 0), e0);
    var a2 := PasoAnsioso(a1, e1);
    var a3 := PasoAnsioso(a2, e2);
    assert CorrerAnsioso(a2, [e2]) == a3;
    assert CorrerAnsioso(a1, [e1, e2]) == a3;
    assert CorrerAnsioso(Ansioso(map[], 0), evs) == a3;
  }
}
