/** Stored values and their expiry state, and the replies of commands. Instants are nanoseconds on a clock that only
    advances; every operation that reads the clock receives the reading as `ahora`. */
module Valores {
  import opened Basicos

  const NANOS: nat := 1_000_000_000

  datatype TipoRedis =
    | Str(texto: string)
    | Lista(elementos: seq<string>)
    | Conjunto(miembros: set<string>)
    | Canal(nombre: string)

  datatype ResultadoRedis =
    | StrSimple(cad: string)
    | BulkStr(cad: string)
    | Int(ent: int)
    | Vector(vec: seq<ResultadoRedis>)
    | Nil
    | Error(cad: string)
    | Vacio

  /** `Instant::elapsed` saturates at zero. */
  function Transcurrido(desde: nat, ahora: nat): nat
  {
    if desde <= ahora then ahora - desde else 0
  }

  /** The contents of a `Valor`, as a clone of it carries them. */
  datatype Entrada = Entrada(valor: TipoRedis, creacion: nat, acceso: nat, vida: Option<u64>) {

    predicate Expiro(ahora: nat)
    {
      vida.Some? && Transcurrido(creacion, ahora) >= vida.value * NANOS
    }

    function Get(ahora: nat): Option<TipoRedis>
    {
      if Expiro(ahora) then None else Some(valor)
    }
  }

  function EntradaExpirable(valor: TipoRedis, vida: u64, ahora: nat): Entrada
  {
    Entrada(valor, ahora, ahora, Some(vida))
  }

  function EntradaNoExpirable(valor: TipoRedis, ahora: nat): Entrada
  {
    Entrada(valor, ahora, ahora, None)
  }

  type Tabla = map<string, Entrada>

  /** The key holds this value, live. */
  predicate Vive(t: Tabla, clave: string, v: TipoRedis, ahora: nat)
  {
    clave in t && !t[clave].Expiro(ahora) && t[clave].valor == v
  }

  /** The key holds nothing, or something that has expired. */
  predicate Falta(t: Tabla, clave: string, ahora: nat) { clave in t ==> t[clave].Expiro(ahora) }

  class Valor {
    var valor: TipoRedis
    var momentoDeCreacion: nat
    var ultimoAcceso: nat
    var vidaUtil: Option<u64>

    function Estado(): Entrada
      reads this
    {
      Entrada(valor, momentoDeCreacion, ultimoAcceso, vidaUtil)
    }

    constructor Expirable(valor: TipoRedis, vida: u64, ahora: nat)
      ensures Estado() == EntradaExpirable(valor, vida, ahora)
    {
      this.valor := valor;
      momentoDeCreacion, ultimoAcceso := ahora, ahora;
      vidaUtil := Some(vida);
    }

    constructor NoExpirable(valor: TipoRedis, ahora: nat)
      ensures Estado() == EntradaNoExpirable(valor, ahora)
    {
      this.valor := valor;
      momentoDeCreacion, ultimoAcceso := ahora, ahora;
      vidaUtil := None;
    }

    predicate Expiro(ahora: nat)
      reads this
      ensures Expiro(ahora) == Estado().Expiro(ahora)
    {
      match vidaUtil
      case Some(vida) => Transcurrido(momentoDeCreacion, ahora) >= vida * NANOS
      case None => false
    }

    /** A value is seen until the instant of its creation plus its lifetime, and never with a lifetime of zero. */
    function Get(ahora: nat): (r: Option<TipoRedis>)
      reads this
      ensures r == Estado().Get(ahora)
      ensures r.Some? <==> vidaUtil == None || (vidaUtil.value > 0 && ahora < momentoDeCreacion + vidaUtil.value * 1_000_000_000)
      ensures r.Some? ==> r.value == valor
    {
      if !Expiro(ahora) then Some(valor) else None
    }

    method ActualizarExpiracion(nuevaExpiracion: u64, ahora: nat)
      modifies this
      ensures Estado() == old(Estado()).(creacion := ahora, vida := Some(nuevaExpiracion))
    {
      momentoDeCreacion := ahora;
      vidaUtil := Some(nuevaExpiracion);
    }

    method HacerPersistente()
      modifies this
      ensures Estado() == old(Estado()).(vida := None)
    {
      vidaUtil := None;
    }

    method ActualizarUltimoAcceso(ahora: nat)
      modifies this
      ensures Estado() == old(Estado()).(acceso := ahora)
    {
      ultimoAcceso := ahora;
    }
  }
}
