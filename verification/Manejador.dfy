/** The persistence thread: the loop that receives messages and, at most once per interval, writes a snapshot. */
module Manejador {
  import opened Basicos
  import opened Valores
  import opened Mensajes
  import opened Persistencia
  import opened IdaYVuelta
  import opened Archivo

  /** One snapshot written: `previo` is what the file held, `inicio` and `fin` the clock readings around the write. */
  datatype Escritura = Escritura(archivo: string, previo: string, tabla: Tabla, lineas: seq<string>,
                                 inicio: nat, fin: nat)

  datatype EstadoManejador =
    EstadoManejador(archivo: string, instante: nat, activo: bool, escrituras: seq<Escritura>,
                           disco: map<string, string>)

  /** What the environment decides while one message is handled: the clock readings before the write, at each entry
      and after it, whether the file opens, and the lines that come out of the iteration over the table. */
  datatype Turno = Turno(ahora: nat, cuando: string -> nat, fin: nat, abre: bool, lineas: seq<string>)

  function Contenido(disco: map<string, string>, archivo: string): string
  {
    if archivo in disco then disco[archivo] else ""
  }

  /** The interval has passed since the last write. */
  predicate Toca(s: EstadoManejador, intervalo: u64, turno: Turno)
  {
    Transcurrido(s.instante, turno.ahora) >= intervalo * NANOS
  }

  function Atender(s: EstadoManejador, mensaje: Mensaje, intervalo: u64, turno: Turno): EstadoManejador
  {
    match mensaje
    case Info(tabla) =>
      if !Toca(s, intervalo, turno) then s
      else if !turno.abre then s.(activo := false)
      else
        var previo := Contenido(s.disco, s.archivo);
        s.(instante := turno.fin,
           escrituras := s.escrituras + [Escritura(s.archivo, previo, tabla, turno.lineas, turno.ahora, turno.fin)],
           disco := s.disco[s.archivo := Sobrescribir(previo, Texto(turno.lineas))])
    case ArchivoAPersistir(ruta) => s.(archivo := ruta)
    case Cerrar => s.(activo := false)
  }

  /** The messages handled while the loop lasts. */
  function AtenderTodos(s: EstadoManejador, mensajes: seq<Mensaje>, intervalo: u64, turnos: seq<Turno>): EstadoManejador
    requires |turnos| <= |mensajes|
  {
    if turnos == [] then s
    else
      var n := |turnos| - 1;
      Atender(AtenderTodos(s, mensajes, intervalo, turnos[..n]), mensajes[n], intervalo, turnos[n])
  }

  /** When a snapshot is due, the lines are a serialisation of the table that the message carries. */
  ghost predicate LineasPropias(s: EstadoManejador, mensaje: Mensaje, intervalo: u64, turno: Turno)
  {
    mensaje.Info? && Toca(s, intervalo, turno) ==>
      exists orden :: Serializa(turno.lineas, mensaje.tabla, orden, turno.cuando)
  }

  type Entorno = nat -> (nat, string -> nat, nat, bool)

  /** The turns of a run of the loop: each with the readings of the environment, its own lines, and the handler
      still active when it begins. */
  ghost predicate TurnosDe(turnos: seq<Turno>, s: EstadoManejador, cola: seq<Mensaje>, intervalo: u64, entorno: Entorno)
  {
    && |turnos| <= |cola|
    && (turnos == [] ||
        var n := |turnos| - 1;
        var (ahora, cuando, fin, abre) := entorno(n);
        && TurnosDe(turnos[..n], s, cola, intervalo, entorno)
        && AtenderTodos(s, cola, intervalo, turnos[..n]).activo
        && turnos[n] == Turno(ahora, cuando, fin, abre, turnos[n].lineas)
        && LineasPropias(AtenderTodos(s, cola, intervalo, turnos[..n]), cola[n], intervalo, turnos[n]))
  }

  class PersistidorHandler {
    var archivo: string
    const intervalo: u64
    var instante: nat
    const receptor: Persistidor
    /** The files that this thread writes, and the record of its writes. */
    var disco: map<string, string>
    ghost var escrituras: seq<Escritura>

    ghost function Estado(activo: bool): EstadoManejador
      reads this
    {
      EstadoManejador(archivo, instante, activo, escrituras, disco)
    }

    constructor (archivo: string, intervalo: u64, receptor: Persistidor, disco: map<string, string>, ahora: nat)
      ensures this.intervalo == intervalo && this.receptor == receptor
      ensures Estado(true) == EstadoManejador(archivo, ahora, true, [], disco)
    {
      this.archivo, this.intervalo, this.receptor, this.disco := archivo, intervalo, receptor, disco;
      instante := ahora;
      escrituras := [];
    }

    /** The loop over the hash map, which visits the entries in an order of its own. */
    static method Lineas(tabla: Tabla, cuando: string -> nat) returns (vector: seq<string>, ghost orden: seq<string>)
      ensures Serializa(vector, tabla, orden, cuando)
    {
      vector, orden := [], [];
      var quedan := tabla.Keys;
      while quedan != {}
        invariant quedan <= tabla.Keys && Enumera(orden, tabla.Keys - quedan) && |vector| == |orden|
        invariant forall i | 0 <= i < |orden| ::
                    orden[i] in tabla && EsLinea(vector[i], orden[i], tabla[orden[i]], cuando(orden[i]))
      {
        var key :| key in quedan;
        var val := tabla[key];
        var linea, miembros := GuardarClaveValor(key, val.Get(cuando(key)), val.vida);
        assert EsLinea(linea, key, val, cuando(key)) by {
          if val.valor.Conjunto? && val.Expiro(cuando(key)) {
            var o := AlgunOrden(val.valor.miembros);
            assert OrdenDe(o, val.valor) && linea == Linea(key, val.Get(cuando(key)), val.vida, o);
          } else {
            assert OrdenDe(miembros, val.valor);
          }
        }
        vector, orden, quedan := vector + [linea], orden + [key], quedan - {key};
      }
      assert tabla.Keys - {} == tabla.Keys;
    }

    /** One turn of the loop; `abre` says whether the file can be opened. `sigue` is false when the loop breaks. */
    method AtenderMensaje(mensaje: Mensaje, ahora: nat, cuando: string -> nat, fin: nat, abre: bool)
      returns (sigue: bool, ghost turno: Turno)
      modifies this
      ensures turno == Turno(ahora, cuando, fin, abre, turno.lineas)
      ensures LineasPropias(old(Estado(true)), mensaje, intervalo, turno)
      ensures Estado(sigue) == Atender(old(Estado(true)), mensaje, intervalo, turno)
    {
      sigue, turno := true, Turno(ahora, cuando, fin, abre, []);
      match mensaje {
        case Info(aPersistir) =>
          if Transcurrido(instante, ahora) >= intervalo * NANOS {
            var vector, orden := Lineas(aPersistir, cuando);
            turno := Turno(ahora, cuando, fin, abre, vector);
            if !abre { return false, turno; }
            var previo := Contenido(disco, archivo);
            disco := disco[archivo := Sobrescribir(previo, Texto(vector))];
            escrituras := escrituras + [Escritura(archivo, previo, aPersistir, vector, ahora, fin)];
            instante := fin;
          }
        case ArchivoAPersistir(ruta) =>
          archivo := ruta;
        case Cerrar =>
          sigue := false;
      }
    }

    /** The loop over the channel until it is closed and empty, or the loop breaks. The i-th message is handled with
        the readings `entorno(i)`. */
    method Persistir(entorno: Entorno) returns (sigue: bool, ghost turnos: seq<Turno>)
      modifies this, receptor
      ensures var cola := old(receptor.mensajes);
              && TurnosDe(turnos, old(Estado(true)), cola, intervalo, entorno)
              && Estado(sigue) == AtenderTodos(old(Estado(true)), cola, intervalo, turnos)
              && receptor.mensajes == cola[|turnos|..]
              && (sigue ==> |turnos| == |cola|)
    {
      ghost var cola := receptor.mensajes;
      ghost var inicial := Estado(true);
      var i := 0;
      sigue, turnos := true, [];
      while true
        invariant i == |turnos| <= |cola| && receptor.mensajes == cola[i..] && sigue
        invariant TurnosDe(turnos, inicial, cola, intervalo, entorno)
        invariant Estado(true) == AtenderTodos(inicial, cola, intervalo, turnos)
        decreases |cola| - i
      {
        var recibido := receptor.Recibir();
        if recibido == None { return; }
        var (ahora, cuando, fin, abre) := entorno(i);
        ghost var turno;
        sigue, turno := AtenderMensaje(recibido.value, ahora, cuando, fin, abre);
        assert (turnos + [turno])[..i] == turnos;
        turnos := turnos + [turno];
        i := i + 1;
        if !sigue { return; }
      }
    }
  }

  ghost function AlgunOrden(s: set<string>): (orden: seq<string>)
    ensures Enumera(orden, s)
  {
    if s == {} then []
    else
      var x :| x in s;
      var resto := AlgunOrden(s - {x});
      resto + [x]
  }
}
