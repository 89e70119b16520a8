/** The observer of the database: the sending half of the FIFO channel that the persistence thread receives from. */
module Mensajes {
  import opened Basicos
  import opened Valores

  datatype Mensaje = Info(tabla: Tabla) | ArchivoAPersistir(archivo: string) | Cerrar

  function Infos(tablas: seq<Tabla>): (r: seq<Mensaje>)
    ensures |r| == |tablas| && forall i | 0 <= i < |r| :: r[i] == Info(tablas[i])
  {
    seq(|tablas|, i requires 0 <= i < |tablas| => Info(tablas[i]))
  }

  class Persistidor {
    var mensajes: seq<Mensaje>

    constructor ()
      ensures mensajes == []
    {
      mensajes := [];
    }

    method Actualizar(bdd: Tabla)
      modifies this
      ensures mensajes == old(mensajes) + [Info(bdd)]
    {
      mensajes := mensajes + [Info(bdd)];
    }

    method CambiarArchivo(ruta: string)
      modifies this
      ensures mensajes == old(mensajes) + [ArchivoAPersistir(ruta)]
    {
      mensajes := mensajes + [ArchivoAPersistir(ruta)];
    }

    /** The receiving half: the oldest message, or `None` when there is nothing left and no sender. */
    method Recibir() returns (r: Option<Mensaje>)
      modifies this
      ensures old(mensajes) == [] ==> r == None && mensajes == []
      ensures old(mensajes) != [] ==> r == Some(old(mensajes)[0]) && mensajes == old(mensajes)[1..]
    {
      if mensajes == [] { return None; }
      r := Some(mensajes[0]);
      mensajes := mensajes[1..];
    }
  }
}
