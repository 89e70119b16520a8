/** Every run of the persistence protocol: database operations that send snapshots down the channel, a clock, and the
    handler that receives them in order. Any interleaving of the four is a run. */
module Protocolo {
  import opened Basicos
  import opened Cadenas
  import opened Valores
  import opened Mensajes
  import opened BaseDeDatos
  import opened Persistencia
  import opened IdaYVuelta
  import opened Archivo
  import opened Manejador

  /** `enviados` holds every message ever sent; the first `|recepciones|` of them have been received, each at the
      recorded instant, and the rest are the contents of the channel. */
  datatype Sistema = Sistema(reloj: nat, tabla: Tabla, enviados: seq<Mensaje>, recepciones: seq<nat>, m: EstadoManejador)

  datatype Evento =
    | Opera(op: Operacion)
    | CambiaArchivo(ruta: string)
    | Apaga
    | Pasa(nanos: nat)
    | Recibe(turno: Turno)

  /** The handler receives at the present instant, which is not before it ended its last write; it writes lines of its
      own table, reading the clock at each entry while the write lasts. */
  ghost predicate PuedeRecibir(s: Sistema, intervalo: u64, turno: Turno)
  {
    && s.m.activo && |s.recepciones| < |s.enviados|
    && s.m.instante <= s.reloj == turno.ahora <= turno.fin
    && var mensaje := s.enviados[|s.recepciones|];
       && LineasPropias(s.m, mensaje, intervalo, turno)
       && (mensaje.Info? ==> forall k | k in mensaje.tabla :: turno.ahora <= turno.cuando(k) <= turno.fin)
  }

  ghost predicate Habilitado(s: Sistema, intervalo: u64, e: Evento)
  {
    match e
    case Opera(op) => op.Valida()
    case Recibe(turno) => PuedeRecibir(s, intervalo, turno)
    case _ => true
  }

  ghost function Paso(s: Sistema, intervalo: u64, e: Evento): Sistema
    requires Habilitado(s, intervalo, e)
  {
    match e
    case Opera(op) =>
      var nueva := Aplicar(s.tabla, s.reloj, op);
      var aviso := if Notifica(s.tabla, s.reloj, op) then [Info(nueva)] else [];
      s.(tabla := nueva, enviados := s.enviados + aviso)
    case CambiaArchivo(ruta) => s.(enviados := s.enviados + [ArchivoAPersistir(ruta)])
    case Apaga => s.(enviados := s.enviados + [Cerrar])
    case Pasa(d) => s.(reloj := s.reloj + d)
    case Recibe(turno) =>
      s.(recepciones := s.recepciones + [turno.ahora],
         m := Atender(s.m, s.enviados[|s.recepciones|], intervalo, turno))
  }

  ghost predicate Inicial(s: Sistema)
  {
    s.enviados == [] && s.recepciones == [] && s.m.activo && s.m.escrituras == [] && s.m.instante <= s.reloj
  }

  /** A run: the states, one more than the events between them. */
  ghost predicate Traza(ss: seq<Sistema>, intervalo: u64, evs: seq<Evento>)
  {
    && |ss| == |evs| + 1 && Inicial(ss[0])
    && forall i | 0 <= i < |evs| :: Habilitado(ss[i], intervalo, evs[i]) && ss[i + 1] == Paso(ss[i], intervalo, evs[i])
  }

  predicate Creciente(xs: seq<nat>, limite: nat)
  {
    && (forall i | 0 <= i < |xs| :: xs[i] < limite)
    && (forall i, j | 0 <= i < j < |xs| :: xs[i] < xs[j])
  }

  // ---- What each event sends ----

  /** A save, a removal, a copy of a live key or a flush sends exactly the new table; a swap, an EXPIRE, a PERSIST, a TOUCH
      or a copy of a key that is not live sends nothing; the other events send what they are. */
  lemma LoQueSeEnvia(ss: seq<Sistema>, intervalo: u64, evs: seq<Evento>, n: nat)
    requires Traza(ss, intervalo, evs) && n < |evs|
    ensures var s, s' := ss[n], ss[n + 1];
            s'.enviados == s.enviados +
              match evs[n]
              case Opera(Guardar(_, _)) => [Info(s'.tabla)]
              case Opera(GuardarConExpiracion(_, _, _)) => [Info(s'.tabla)]
              case Opera(GuardarValores(_)) => [Info(s'.tabla)]
              case Opera(Eliminar(_)) => [Info(s'.tabla)]
              case Opera(Copiar(k, _)) => if Falta(s.tabla, k, s.reloj) then [] else [Info(s'.tabla)]
              case Opera(Intercambiar(_, _)) => []
              case Opera(BorrarClaves) => [Info(s'.tabla)]
              case Opera(ActualizarExpiracion(_, _)) => []
              case Opera(HacerPersistente(_)) => []
              case Opera(Tocar(_)) => []
              case CambiaArchivo(ruta) => [ArchivoAPersistir(ruta)]
              case Apaga => [Cerrar]
              case Pasa(_) => []
              case Recibe(_) => []
    ensures ss[n + 1].tabla == if evs[n].Opera? then Aplicar(ss[n].tabla, ss[n].reloj, evs[n].op) else ss[n].tabla
  {
    assert ss[n + 1] == Paso(ss[n], intervalo, evs[n]);
  }

  // ---- The snapshots sent are tables the database really had ----

  /** Message `j` was sent by event `pasos[j]`, and a snapshot among them is the table right after that event. */
  ghost predicate SonReales(ss: seq<Sistema>, n: nat, pasos: seq<nat>)
    requires n < |ss|
  {
    var enviados := ss[n].enviados;
    && |pasos| == |enviados| && Creciente(pasos, n)
    && forall j | 0 <= j < |enviados| && enviados[j].Info? :: enviados[j].tabla == ss[pasos[j] + 1].tabla
  }

  lemma {:induction false} MensajesReales(ss: seq<Sistema>, intervalo: u64, evs: seq<Evento>, n: nat) returns (pasos: seq<nat>)
    requires Traza(ss, intervalo, evs) && n <= |evs|
    ensures SonReales(ss, n, pasos)
  {
    pasos := [];
    if n > 0 {
      var antes := MensajesReales(ss, intervalo, evs, n - 1);
      var s, s' := ss[n - 1], ss[n];
      EnviaALoSumoUno(s, s', intervalo, evs[n - 1]);
      pasos := RealesUnPasoMas(ss, n - 1, antes);
    }
  }

  lemma RealesUnPasoMas(ss: seq<Sistema>, n: nat, antes: seq<nat>) returns (pasos: seq<nat>)
    requires n + 1 < |ss| && SonReales(ss, n, antes)
    requires ss[n].enviados <= ss[n + 1].enviados && |ss[n + 1].enviados| <= |ss[n].enviados| + 1
    requires var viejos, nuevos := |ss[n].enviados|, ss[n + 1].enviados;
             |nuevos| > viejos && nuevos[viejos].Info? ==> nuevos[viejos].tabla == ss[n + 1].tabla
    ensures SonReales(ss, n + 1, pasos)
  {
    var viejos, nuevos := ss[n].enviados, ss[n + 1].enviados;
    pasos := if |nuevos| > |viejos| then antes + [n] else antes;
    assert Creciente(pasos, n + 1);
    forall j | 0 <= j < |nuevos| && nuevos[j].Info? ensures nuevos[j].tabla == ss[pasos[j] + 1].tabla {
      if j < |viejos| {
        assert nuevos[j] == viejos[j] && pasos[j] == antes[j];
      } else {
        assert pasos[j] == n;
      }
    }
  }

  lemma EnviaALoSumoUno(s: Sistema, s': Sistema, intervalo: u64, e: Evento)
    requires Habilitado(s, intervalo, e) && s' == Paso(s, intervalo, e)
    ensures s.enviados <= s'.enviados && |s'.enviados| <= |s.enviados| + 1
    ensures |s'.enviados| == |s.enviados| + 1 && s'.enviados[|s.enviados|].Info?
            ==> s'.enviados[|s.enviados|].tabla == s'.tabla
  {
  }

  // ---- What is written, in which order, and to which file ----

  /** The file in force after some messages: the last one named, or the initial one. */
  function ArchivoVigente(inicial: string, mensajes: seq<Mensaje>): string
  {
    if mensajes == [] then inicial
    else if mensajes[|mensajes| - 1].ArchivoAPersistir? then mensajes[|mensajes| - 1].archivo
    else ArchivoVigente(inicial, mensajes[..|mensajes| - 1])
  }

  /** Write `i` is the snapshot of message `indices[i]`, received before any `Cerrar`, in the file then in force. */
  ghost predicate EnOrden(inicial: string, s: Sistema, indices: seq<nat>)
    requires |s.recepciones| <= |s.enviados|
  {
    && |indices| == |s.m.escrituras| && Creciente(indices, |s.recepciones|)
    && forall i | 0 <= i < |indices| ::
         && s.enviados[indices[i]] == Info(s.m.escrituras[i].tabla)
         && s.m.escrituras[i].archivo == ArchivoVigente(inicial, s.enviados[..indices[i]])
         && Cerrar !in s.enviados[..indices[i]]
  }

  /** While the handler is active it has met no `Cerrar`, and it writes to the file in force. */
  ghost predicate AlDia(inicial: string, s: Sistema)
  {
    && |s.recepciones| <= |s.enviados|
    && (s.m.activo ==>
          && Cerrar !in s.enviados[..|s.recepciones|]
          && s.m.archivo == ArchivoVigente(inicial, s.enviados[..|s.recepciones|]))
  }

  lemma {:induction false} ManejadorAlDia(ss: seq<Sistema>, intervalo: u64, evs: seq<Evento>, n: nat)
    requires Traza(ss, intervalo, evs) && n <= |evs|
    ensures AlDia(ss[0].m.archivo, ss[n])
  {
    if n > 0 {
      ManejadorAlDia(ss, intervalo, evs, n - 1);
      var s, s' := ss[n - 1], ss[n];
      assert s' == Paso(s, intervalo, evs[n - 1]);
      var k := |s.recepciones|;
      if evs[n - 1].Recibe? {
        assert s'.enviados[..k + 1] == s.enviados[..k] + [s.enviados[k]];
        assert s'.enviados[..k + 1][..k] == s.enviados[..k];
      } else {
        assert s'.enviados[..k] == s.enviados[..k];
      }
    }
  }

  lemma OrdenAlEnviar(inicial: string, s: Sistema, s': Sistema, indices: seq<nat>)
    requires |s.recepciones| <= |s.enviados| && EnOrden(inicial, s, indices)
    requires s.enviados <= s'.enviados && s'.recepciones == s.recepciones && s'.m.escrituras == s.m.escrituras
    ensures EnOrden(inicial, s', indices)
  {
    forall i | 0 <= i < |indices| ensures s'.enviados[..indices[i]] == s.enviados[..indices[i]] {}
  }

  lemma OrdenAlRecibir(inicial: string, s: Sistema, intervalo: u64, turno: Turno, indices: seq<nat>)
    returns (nuevos: seq<nat>)
    requires PuedeRecibir(s, intervalo, turno) && AlDia(inicial, s) && EnOrden(inicial, s, indices)
    ensures EnOrden(inicial, Paso(s, intervalo, Recibe(turno)), nuevos)
    ensures nuevos == if |Paso(s, intervalo, Recibe(turno)).m.escrituras| == |s.m.escrituras| then indices
                      else indices + [|s.recepciones|]
  {
    var s' := Paso(s, intervalo, Recibe(turno));
    var k := |s.recepciones|;
    if s'.m.escrituras == s.m.escrituras {
      nuevos := indices;
    } else {
      nuevos := indices + [k];
      var e := s'.m.escrituras[|indices|];
      assert s'.m.escrituras == s.m.escrituras + [e];
      assert s.enviados[k] == Info(e.tabla) && e.archivo == s.m.archivo;
    }
  }

  lemma {:induction false} EscriturasEnOrden(ss: seq<Sistema>, intervalo: u64, evs: seq<Evento>, n: nat)
    returns (indices: seq<nat>)
    requires Traza(ss, intervalo, evs) && n <= |evs|
    ensures |ss[n].recepciones| <= |ss[n].enviados|
    ensures EnOrden(ss[0].m.archivo, ss[n], indices)
  {
    indices := [];
    if n > 0 {
      indices := EscriturasEnOrden(ss, intervalo, evs, n - 1);
      ManejadorAlDia(ss, intervalo, evs, n - 1);
      assert ss[n] == Paso(ss[n - 1], intervalo, evs[n - 1]);
      match evs[n - 1]
      case Recibe(turno) => indices := OrdenAlRecibir(ss[0].m.archivo, ss[n - 1], intervalo, turno, indices);
      case _ => OrdenAlEnviar(ss[0].m.archivo, ss[n - 1], ss[n], indices);
    }
  }

  // ---- When it is written ----

  /** Writes do not overlap and at least the interval passes from the end of one to the start of the next. */
  ghost predicate Espaciadas(inicio: nat, intervalo: u64, m: EstadoManejador)
  {
    var w := m.escrituras;
    && (forall i | 0 <= i < |w| ::
          w[i].inicio <= w[i].fin && FinAnterior(inicio, w, i) + intervalo * NANOS <= w[i].inicio)
    && m.instante == FinAnterior(inicio, w, |w|)
  }

  /** The end of the write before number `i`, or the start of the handler. */
  function FinAnterior(inicio: nat, w: seq<Escritura>, i: nat): nat
    requires i <= |w|
  {
    if i == 0 then inicio else w[i - 1].fin
  }

  lemma EspaciadasAlRecibir(inicio: nat, s: Sistema, intervalo: u64, turno: Turno)
    requires PuedeRecibir(s, intervalo, turno) && Espaciadas(inicio, intervalo, s.m)
    ensures Espaciadas(inicio, intervalo, Paso(s, intervalo, Recibe(turno)).m)
  {
    var w, w' := s.m.escrituras, Paso(s, intervalo, Recibe(turno)).m.escrituras;
    assert w <= w';
    forall i | 0 <= i < |w'|
      ensures w'[i].inicio <= w'[i].fin && FinAnterior(inicio, w', i) + intervalo * NANOS <= w'[i].inicio
    {
      assert FinAnterior(inicio, w', i) == FinAnterior(inicio, w, i);
      if i < |w| { assert w'[i] == w[i]; }
    }
  }

  lemma {:induction false} EscriturasEspaciadas(ss: seq<Sistema>, intervalo: u64, evs: seq<Evento>, n: nat)
    requires Traza(ss, intervalo, evs) && n <= |evs|
    ensures Espaciadas(ss[0].m.instante, intervalo, ss[n].m)
  {
    if n > 0 {
      EscriturasEspaciadas(ss, intervalo, evs, n - 1);
      assert ss[n] == Paso(ss[n - 1], intervalo, evs[n - 1]);
      if evs[n - 1].Recibe? { EspaciadasAlRecibir(ss[0].m.instante, ss[n - 1], intervalo, evs[n - 1].turno); }
    }
  }

  /** No snapshot is skipped without cause: each one received was written, or came less than the interval after the
      end of an earlier write (or after the start), or found a file that could not be opened. */
  ghost predicate Cubierta(inicio: nat, intervalo: u64, s: Sistema, indices: seq<nat>, j: nat)
    requires j < |s.recepciones| && |indices| == |s.m.escrituras|
  {
    || j in indices
    || s.recepciones[j] < inicio + intervalo * NANOS
    || (exists i :: 0 <= i < |indices| && indices[i] < j
                    && s.recepciones[j] < s.m.escrituras[i].fin + intervalo * NANOS)
    || (!s.m.activo && j == |s.recepciones| - 1)
  }

  ghost predicate TodasCubiertas(inicio: nat, intervalo: u64, s: Sistema, indices: seq<nat>)
    requires |s.recepciones| <= |s.enviados| && |indices| == |s.m.escrituras|
  {
    forall j | 0 <= j < |s.recepciones| && s.enviados[j].Info? :: Cubierta(inicio, intervalo, s, indices, j)
  }

  lemma CubiertasAlEnviar(inicio: nat, intervalo: u64, s: Sistema, s': Sistema, indices: seq<nat>)
    requires |s.recepciones| <= |s.enviados| && |indices| == |s.m.escrituras|
    requires s.enviados <= s'.enviados && s'.recepciones == s.recepciones && s'.m == s.m
    requires TodasCubiertas(inicio, intervalo, s, indices)
    ensures TodasCubiertas(inicio, intervalo, s', indices)
  {
  }

  /** What was covered stays covered: records are only added, and the loop only goes on while it is active. */
  lemma CubiertaSigue(inicio: nat, intervalo: u64, s: Sistema, s': Sistema, indices: seq<nat>, nuevos: seq<nat>, j: nat)
    requires |indices| == |s.m.escrituras| && |nuevos| == |s'.m.escrituras|
    requires s.m.activo && s.recepciones <= s'.recepciones && indices <= nuevos && s.m.escrituras <= s'.m.escrituras
    requires j < |s.recepciones| && Cubierta(inicio, intervalo, s, indices, j)
    ensures Cubierta(inicio, intervalo, s', nuevos, j)
  {
  }

  lemma NuevaCubierta(inicio: nat, s: Sistema, intervalo: u64, turno: Turno, indices: seq<nat>, nuevos: seq<nat>)
    requires PuedeRecibir(s, intervalo, turno) && |indices| == |s.m.escrituras|
    requires indices != [] ==> indices[|indices| - 1] < |s.recepciones|
    requires s.m.instante == FinAnterior(inicio, s.m.escrituras, |indices|)
    requires s.enviados[|s.recepciones|].Info?
    requires var s' := Paso(s, intervalo, Recibe(turno));
             nuevos == if |s'.m.escrituras| == |s.m.escrituras| then indices else indices + [|s.recepciones|]
    ensures Cubierta(inicio, intervalo, Paso(s, intervalo, Recibe(turno)), nuevos, |s.recepciones|)
  {
  }

  lemma CubiertasAlRecibir(inicio: nat, s: Sistema, intervalo: u64, turno: Turno, indices: seq<nat>, nuevos: seq<nat>)
    requires PuedeRecibir(s, intervalo, turno) && |indices| == |s.m.escrituras|
    requires Creciente(indices, |s.recepciones|) && Espaciadas(inicio, intervalo, s.m)
    requires TodasCubiertas(inicio, intervalo, s, indices)
    requires var s' := Paso(s, intervalo, Recibe(turno));
             nuevos == if |s'.m.escrituras| == |s.m.escrituras| then indices else indices + [|s.recepciones|]
    ensures TodasCubiertas(inicio, intervalo, Paso(s, intervalo, Recibe(turno)), nuevos)
  {
    var s', k := Paso(s, intervalo, Recibe(turno)), |s.recepciones|;
    forall j | 0 <= j < |s'.recepciones| && s'.enviados[j].Info? ensures Cubierta(inicio, intervalo, s', nuevos, j) {
      if j < k {
        assert s.enviados[j].Info?;
        CubiertaSigue(inicio, intervalo, s, s', indices, nuevos, j);
      } else {
        NuevaCubierta(inicio, s, intervalo, turno, indices, nuevos);
      }
    }
  }

  lemma {:induction false} NingunaSeSalteaSinMotivo(ss: seq<Sistema>, intervalo: u64, evs: seq<Evento>, n: nat)
    returns (indices: seq<nat>)
    requires Traza(ss, intervalo, evs) && n <= |evs|
    ensures |ss[n].recepciones| <= |ss[n].enviados|
    ensures EnOrden(ss[0].m.archivo, ss[n], indices)
    ensures TodasCubiertas(ss[0].m.instante, intervalo, ss[n], indices)
  {
    indices := [];
    if n > 0 {
      var inicio := ss[0].m.instante;
      var antes := NingunaSeSalteaSinMotivo(ss, intervalo, evs, n - 1);
      ManejadorAlDia(ss, intervalo, evs, n - 1);
      EscriturasEspaciadas(ss, intervalo, evs, n - 1);
      var s, s' := ss[n - 1], ss[n];
      assert s' == Paso(s, intervalo, evs[n - 1]);
      match evs[n - 1] {
        case Recibe(turno) =>
          indices := OrdenAlRecibir(ss[0].m.archivo, s, intervalo, turno, antes);
          CubiertasAlRecibir(inicio, s, intervalo, turno, antes, indices);
        case _ =>
          indices := antes;
          OrdenAlEnviar(ss[0].m.archivo, s, s', indices);
          CubiertasAlEnviar(inicio, intervalo, s, s', indices);
      }
    }
  }

  /** Once the loop has ended, nothing more is received nor written, whatever happens afterwards. */
  lemma {:induction false} NadaTrasElCierre(ss: seq<Sistema>, intervalo: u64, evs: seq<Evento>, i: nat, n: nat)
    requires Traza(ss, intervalo, evs) && i <= n <= |evs| && !ss[i].m.activo
    ensures ss[n].m == ss[i].m && ss[n].recepciones == ss[i].recepciones
  {
    if i < n {
      NadaTrasElCierre(ss, intervalo, evs, i, n - 1);
      assert ss[n] == Paso(ss[n - 1], intervalo, evs[n - 1]);
    }
  }

  /** Receiving `Cerrar` ends the loop. */
  lemma CerrarTermina(ss: seq<Sistema>, intervalo: u64, evs: seq<Evento>, n: nat)
    requires Traza(ss, intervalo, evs) && n <= |evs|
    requires |ss[n].recepciones| <= |ss[n].enviados| && Cerrar in ss[n].enviados[..|ss[n].recepciones|]
    ensures !ss[n].m.activo
  {
    ManejadorAlDia(ss, intervalo, evs, n);
  }

  // ---- What the lines are, and the file after a crash ----

  /** The lines serialise the table, each entry judged live or expired at an instant within the write. */
  ghost predicate Fiel(e: Escritura)
  {
    exists orden: seq<string>, cuando: string -> nat :: FielCon(e, orden, cuando)
  }

  ghost predicate FielCon(e: Escritura, orden: seq<string>, cuando: string -> nat)
  {
    && Serializa(e.lineas, e.tabla, orden, cuando)
    && forall k | k in e.tabla :: e.inicio <= cuando(k) <= e.fin
  }

  function Ultima(m: EstadoManejador): Escritura
    requires m.escrituras != []
  {
    m.escrituras[|m.escrituras| - 1]
  }

  /** Every record is faithful, and the last one is what its file now holds. */
  ghost predicate DiscoFiel(m: EstadoManejador)
  {
    && (forall i | 0 <= i < |m.escrituras| :: Fiel(m.escrituras[i]))
    && (m.escrituras != [] ==>
          var e := Ultima(m);
          e.archivo in m.disco && m.disco[e.archivo] == Sobrescribir(e.previo, Texto(e.lineas)))
  }

  lemma DiscoFielAlRecibir(s: Sistema, intervalo: u64, turno: Turno)
    requires PuedeRecibir(s, intervalo, turno) && DiscoFiel(s.m)
    ensures DiscoFiel(Paso(s, intervalo, Recibe(turno)).m)
  {
    var m := Paso(s, intervalo, Recibe(turno)).m;
    if |m.escrituras| > |s.m.escrituras| {
      var e := Ultima(m);
      assert m.escrituras == s.m.escrituras + [e];
      var orden :| Serializa(turno.lineas, e.tabla, orden, turno.cuando);
      assert FielCon(e, orden, turno.cuando);
    }
  }

  lemma {:induction false} DiscoSiempreFiel(ss: seq<Sistema>, intervalo: u64, evs: seq<Evento>, n: nat)
    requires Traza(ss, intervalo, evs) && n <= |evs|
    ensures DiscoFiel(ss[n].m)
  {
    if n > 0 {
      DiscoSiempreFiel(ss, intervalo, evs, n - 1);
      assert ss[n] == Paso(ss[n - 1], intervalo, evs[n - 1]);
      if evs[n - 1].Recibe? { DiscoFielAlRecibir(ss[n - 1], intervalo, evs[n - 1].turno); }
    }
  }

  // ---- What the files hold ----

  /** What a file holds after the first `i` writes: what the latest of them to it left over what it had found there, or,
      when none of them was to it, what it held at the beginning. */
  function TextoTras(disco: map<string, string>, w: seq<Escritura>, i: nat, archivo: string): Option<string>
    requires i <= |w|
  {
    if i == 0 then if archivo in disco then Some(disco[archivo]) else None
    else if w[i - 1].archivo == archivo then Some(Sobrescribir(w[i - 1].previo, Texto(w[i - 1].lineas)))
    else TextoTras(disco, w, i - 1, archivo)
  }

  /** The record of each write says truly what the file held before, nothing if there was none, and every file holds
      what the writes to it left, or its initial contents. */
  ghost predicate PreviosVeraces(disco: map<string, string>, m: EstadoManejador)
  {
    var w := m.escrituras;
    && (forall i | 0 <= i < |w| ::
          w[i].previo == match TextoTras(disco, w, i, w[i].archivo) case Some(texto) => texto case None => "")
    && (forall archivo ::
          TextoTras(disco, w, |w|, archivo) == if archivo in m.disco then Some(m.disco[archivo]) else None)
  }

  lemma {:induction false} TextoTrasPrefijo(disco: map<string, string>, w: seq<Escritura>, x: Escritura, i: nat, archivo: string)
    requires i <= |w|
    ensures TextoTras(disco, w + [x], i, archivo) == TextoTras(disco, w, i, archivo)
  {
    if i > 0 { TextoTrasPrefijo(disco, w, x, i - 1, archivo); }
  }

  lemma PreviosAlEscribir(disco: map<string, string>, m: EstadoManejador, m': EstadoManejador, x: Escritura)
    requires PreviosVeraces(disco, m) && m'.escrituras == m.escrituras + [x]
    requires x.previo == if x.archivo in m.disco then m.disco[x.archivo] else ""
    requires m'.disco == m.disco[x.archivo := Sobrescribir(x.previo, Texto(x.lineas))]
    ensures PreviosVeraces(disco, m')
  {
    var w, w' := m.escrituras, m'.escrituras;
    forall i | 0 <= i < |w'|
      ensures w'[i].previo == match TextoTras(disco, w', i, w'[i].archivo) case Some(texto) => texto case None => ""
    {
      TextoTrasPrefijo(disco, w, x, i, w'[i].archivo);
      if i < |w| { assert w'[i] == w[i]; }
    }
    forall archivo
      ensures TextoTras(disco, w', |w'|, archivo) == if archivo in m'.disco then Some(m'.disco[archivo]) else None
    {
      TextoTrasPrefijo(disco, w, x, |w|, archivo);
    }
  }

  /** Over every run, whatever the files held: no write truncates, and none invents what was there. */
  lemma {:induction false} LoQueHabia(ss: seq<Sistema>, intervalo: u64, evs: seq<Evento>, n: nat)
    requires Traza(ss, intervalo, evs) && n <= |evs|
    ensures PreviosVeraces(ss[0].m.disco, ss[n].m)
  {
    if n > 0 {
      LoQueHabia(ss, intervalo, evs, n - 1);
      var m, m' := ss[n - 1].m, ss[n].m;
      assert ss[n] == Paso(ss[n - 1], intervalo, evs[n - 1]);
      if |m'.escrituras| > |m.escrituras| {
        var x := Ultima(m');
        assert m'.escrituras == m.escrituras + [x];
        PreviosAlEscribir(ss[0].m.disco, m, m', x);
      }
    }
  }

  predicate Cubre(e: Escritura) { |e.previo| <= |Texto(e.lineas)| }

  /** The contents load to the live part of the record's table exactly when its texts are free of separators, its
      entries recoverable and its lines without CR at the end. */
  ghost predicate SeRecupera(e: Escritura, contenido: string, cuando: string -> nat, luego: nat)
  {
    Levantar(Lineas(contenido), luego) == Responde(Esperada(e.tabla, cuando, luego)) <==> Sobrevive(e.lineas, e.tabla, cuando)
  }

  lemma EscrituraSeRecupera(e: Escritura, luego: nat) returns (cuando: string -> nat)
    requires Fiel(e) && Cubre(e)
    ensures SeRecupera(e, Sobrescribir(e.previo, Texto(e.lineas)), cuando, luego)
    ensures forall k | k in e.tabla :: e.inicio <= cuando(k) <= e.fin
  {
    var orden: seq<string>, c: string -> nat :| FielCon(e, orden, c);
    cuando := c;
    ArchivoVuelve(e.previo, e.lineas, e.tabla, orden, cuando, luego);
  }

  /** The batches written are snapshots of the run in the order the database had them. */
  lemma EscriturasSonHistoria(ss: seq<Sistema>, intervalo: u64, evs: seq<Evento>, n: nat) returns (ps: seq<nat>)
    requires Traza(ss, intervalo, evs) && n <= |evs|
    ensures var w := ss[n].m.escrituras;
            && |ps| == |w| && Creciente(ps, n + 1)
            && forall i | 0 <= i < |w| :: 0 < ps[i] <= n && w[i].tabla == ss[ps[i]].tabla
  {
    var indices := EscriturasEnOrden(ss, intervalo, evs, n);
    var pasos := MensajesReales(ss, intervalo, evs, n);
    ps := seq(|indices|, i requires 0 <= i < |indices| && indices[i] < |pasos| => pasos[indices[i]] + 1);
  }

  lemma UltimaEsHistoria(ss: seq<Sistema>, intervalo: u64, evs: seq<Evento>, n: nat) returns (p: nat)
    requires Traza(ss, intervalo, evs) && n <= |evs| && ss[n].m.escrituras != []
    ensures 0 < p <= n && Ultima(ss[n].m).tabla == ss[p].tabla
  {
    var ps := EscriturasSonHistoria(ss, intervalo, evs, n);
    p := ps[|ps| - 1];
  }

  /** Recovery: in every run, if the last write covered what its file held, loading the file gives the live part of
      that snapshot exactly when the snapshot survives its file; and it is the table the database had after one of the
      events of the run. */
  lemma Recuperacion(ss: seq<Sistema>, intervalo: u64, evs: seq<Evento>, n: nat, luego: nat)
    returns (p: nat, cuando: string -> nat)
    requires Traza(ss, intervalo, evs) && n <= |evs| && ss[n].m.escrituras != []
    requires Cubre(Ultima(ss[n].m))
    ensures var e := Ultima(ss[n].m);
            && 0 < p <= n && e.tabla == ss[p].tabla
            && (forall k | k in e.tabla :: e.inicio <= cuando(k) <= e.fin)
            && e.archivo in ss[n].m.disco
            && SeRecupera(e, ss[n].m.disco[e.archivo], cuando, luego)
            && PreviosVeraces(ss[0].m.disco, ss[n].m)
  {
    LoQueHabia(ss, intervalo, evs, n);
    p := UltimaEsHistoria(ss, intervalo, evs, n);
    DiscoSiempreFiel(ss, intervalo, evs, n);
    cuando := EscrituraSeRecupera(Ultima(ss[n].m), luego);
  }

  /** Whatever was there before: the leftover must be harmless, and the new lines give all the rest; for a table that
      survives its file the leftover alone decides. */
  ghost predicate SeRecuperaConCola(e: Escritura, contenido: string, cuando: string -> nat, luego: nat)
  {
    var viva := Esperada(e.tabla, cuando, luego);
    var nuevo, cola := Levantar(Lineas(Texto(e.lineas)), luego), Levantar(Lineas(Cola(e.previo, Texto(e.lineas))), luego);
    && (Levantar(Lineas(contenido), luego) == Responde(viva) <==> Inofensiva(cola, viva) && Completan(nuevo, cola, viva))
    && (Sobrevive(e.lineas, e.tabla, cuando) ==>
          (Levantar(Lineas(contenido), luego) == Responde(viva) <==> Inofensiva(cola, viva)))
  }

  lemma EscrituraConCola(e: Escritura, luego: nat) returns (cuando: string -> nat)
    requires Fiel(e)
    ensures SeRecuperaConCola(e, Sobrescribir(e.previo, Texto(e.lineas)), cuando, luego)
    ensures forall k | k in e.tabla :: e.inicio <= cuando(k) <= e.fin
  {
    var orden: seq<string>, c: string -> nat :| FielCon(e, orden, c);
    cuando := c;
    ArchivoConCola(e.previo, e.lineas, e.tabla, orden, c, luego);
  }

  /** Recovery whatever the file held before, in every run. */
  lemma RecuperacionConCola(ss: seq<Sistema>, intervalo: u64, evs: seq<Evento>, n: nat, luego: nat)
    returns (p: nat, cuando: string -> nat)
    requires Traza(ss, intervalo, evs) && n <= |evs| && ss[n].m.escrituras != []
    ensures var e := Ultima(ss[n].m);
            && 0 < p <= n && e.tabla == ss[p].tabla
            && (forall k | k in e.tabla :: e.inicio <= cuando(k) <= e.fin)
            && e.archivo in ss[n].m.disco
            && SeRecuperaConCola(e, ss[n].m.disco[e.archivo], cuando, luego)
            && PreviosVeraces(ss[0].m.disco, ss[n].m)
  {
    LoQueHabia(ss, intervalo, evs, n);
    p := UltimaEsHistoria(ss, intervalo, evs, n);
    DiscoSiempreFiel(ss, intervalo, evs, n);
    cuando := EscrituraConCola(Ultima(ss[n].m), luego);
  }
}
