/** The effect of a command (a new table, a reply and the snapshots sent), and the error texts that several commands
    answer with. */
module Efectos {
  import opened Basicos
  import opened Valores
  import opened Mensajes
  import opened BaseDeDatos

  datatype Efecto = Efecto(tabla: Tabla, r: Salida<ResultadoRedis>, avisos: seq<Tabla> := [])

  /** The usual effect of a write: one snapshot, the new table. */
  function Guarda(t: Tabla, r: ResultadoRedis): Efecto { Efecto(t, Responde(r), [t]) }

  /** The store went through the effect: contents, reply, snapshots sent, and no value shared with anybody else. */
  twostate predicate Hizo(bdd: BaseDeDatos, new e: Efecto, new r: Salida<ResultadoRedis>)
    reads bdd, bdd.hashmap.Values, bdd.observadores
  {
    && bdd.Valid() && fresh(bdd.hashmap.Values - old(bdd.hashmap.Values))
    && bdd.Tabla() == e.tabla && r == e.r && bdd.Avisado(e.avisos)
  }

  /** The table changes only together with a snapshot of it, the last one sent. */
  predicate CambioAvisado(t: Tabla, e: Efecto)
  {
    if e.avisos == [] then e.tabla == t else e.avisos[|e.avisos| - 1] == e.tabla
  }

  const NO_ENTERO := "ERR value is not an integer or out of range"
  const WRONGTYPE := "WRONGTYPE Operation against a key holding the wrong kind of value"

  function CantidadDeArgumentos(comando: string): string
  {
    "ERR wrong number of arguments for '" + comando + "' command"
  }

  function Falla(t: Tabla, error: string): Efecto { Efecto(t, Responde(Error(error))) }

  function Bulks(xs: seq<string>): (r: seq<ResultadoRedis>)
    ensures |r| == |xs| && forall i | 0 <= i < |xs| :: r[i] == BulkStr(xs[i])
  {
    seq(|xs|, i requires 0 <= i < |xs| => BulkStr(xs[i]))
  }

  function Simples(xs: seq<string>): (r: seq<ResultadoRedis>)
    ensures |r| == |xs| && forall i | 0 <= i < |xs| :: r[i] == StrSimple(xs[i])
  {
    seq(|xs|, i requires 0 <= i < |xs| => StrSimple(xs[i]))
  }
}
