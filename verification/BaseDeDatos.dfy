/** The in-memory store. The module first says what each operation does to a table, as a function; the class below
    keeps the table in place, notifies its observers, and is proved to do just that. */
module BaseDeDatos {
  import opened Basicos
  import opened Valores
  import opened Mensajes

  // ---- Operations on a table ----

  function Obtener(t: Tabla, clave: string, ahora: nat): Option<TipoRedis>
  {
    if clave in t then t[clave].Get(ahora) else None
  }

  predicate Existe(t: Tabla, clave: string, ahora: nat)
  {
    clave in t && !t[clave].Expiro(ahora)
  }

  datatype Operacion =
    | Guardar(clave: string, valor: TipoRedis)
    | GuardarConExpiracion(clave: string, expiracion: u64, valor: TipoRedis)
    | GuardarValores(parametros: seq<string>)
    | Eliminar(clave: string)
    | Copiar(actual: string, nueva: string)
    | Intercambiar(clave: string, valor: TipoRedis)
    | BorrarClaves
    | ActualizarExpiracion(clave: string, expiracion: u64)
    | HacerPersistente(clave: string)
    | Tocar(clave: string)
  {
    /** `guardar_valores` needs at least one parameter: `len() - 1` is taken. */
    predicate Valida() { GuardarValores? ==> parametros != [] }
  }

  /** The table after the first `n` turns of the `guardar_valores` loop. */
  function GuardarPares(t: Tabla, p: seq<string>, n: nat, ahora: nat): Tabla
    requires n < |p|
  {
    if n == 0 then t else GuardarPares(t, p, n - 1, ahora)[p[n - 1] := EntradaNoExpirable(Str(p[n]), ahora)]
  }

  predicate EsColeccion(valor: Option<TipoRedis>)
  {
    valor.Some? && (valor.value.Lista? || valor.value.Conjunto?)
  }

  function Aplicar(t: Tabla, ahora: nat, op: Operacion): Tabla
    requires op.Valida()
  {
    match op
    case Guardar(k, v) => t[k := EntradaNoExpirable(v, ahora)]
    case GuardarConExpiracion(k, n, v) => t[k := EntradaExpirable(v, n, ahora)]
    case GuardarValores(p) => GuardarPares(t, p, |p| - 1, ahora)
    case Eliminar(k) => t - {k}
    case Copiar(k, nueva) =>
      (match Obtener(t, k, ahora)
       case None => t
       case Some(v) => t[nueva := EntradaNoExpirable(v, ahora)])
    case Intercambiar(k, v) =>
      if EsColeccion(Obtener(t, k, ahora)) then t else t[k := EntradaNoExpirable(v, ahora)]
    case BorrarClaves => map[]
    case ActualizarExpiracion(k, n) => if k in t then t[k := t[k].(creacion := ahora, vida := Some(n))] else t
    case HacerPersistente(k) => if k in t then t[k := t[k].(vida := None)] else t
    case Tocar(k) => if k in t then t[k := t[k].(acceso := ahora)] else t
  }

  /** Which operations send a snapshot of the new table to the observers. */
  predicate Notifica(t: Tabla, ahora: nat, op: Operacion)
  {
    match op
    case Guardar(_, _) => true
    case GuardarConExpiracion(_, _, _) => true
    case GuardarValores(_) => true
    case Eliminar(_) => true
    case Copiar(k, _) => Existe(t, k, ahora)
    case BorrarClaves => true
    case _ => false
  }

  // ---- The store itself ----

  class BaseDeDatos {
    var hashmap: map<string, Valor>
    var observadores: seq<Persistidor>

    /** Every key owns its own value, and no observer is registered twice. */
    ghost predicate Valid()
      reads this
    {
      && (forall k, l | k in hashmap && l in hashmap && k != l :: hashmap[k] != hashmap[l])
      && (forall i, j | 0 <= i < j < |observadores| :: observadores[i] != observadores[j])
    }

    /** The contents, which is also what `hashmap.clone()` gives. */
    function Tabla(): Valores.Tabla
      reads this, hashmap.Values
    {
      map k | k in hashmap :: hashmap[k].Estado()
    }

    constructor ()
      ensures Valid() && fresh(this)
      ensures Tabla() == map[] && observadores == []
    {
      hashmap := map[];
      observadores := [];
    }

    method AgregarObservador(o: Persistidor)
      requires Valid() && o !in observadores
      modifies this
      ensures Valid() && hashmap == old(hashmap)
      ensures Tabla() == old(Tabla()) && observadores == old(observadores) + [o]
    {
      observadores := observadores + [o];
    }

    /** Every observer got these tables, in this order, behind what it had. */
    twostate predicate Avisado(avisos: seq<Valores.Tabla>)
      reads this, observadores
    {
      && observadores == old(observadores)
      && forall o | o in observadores :: old(allocated(o)) && o.mensajes == old(o.mensajes) + Infos(avisos)
    }

    method NotificarObservadores(bdd: Valores.Tabla)
      requires Valid()
      modifies observadores
      ensures forall o | o in observadores :: o.mensajes == old(o.mensajes) + Infos([bdd])
    {
      var i := 0;
      while i < |observadores|
        invariant 0 <= i <= |observadores|
        invariant forall j | 0 <= j < i :: observadores[j].mensajes == old(observadores[j].mensajes) + [Info(bdd)]
        invariant forall j | i <= j < |observadores| :: observadores[j].mensajes == old(observadores[j].mensajes)
      {
        observadores[i].Actualizar(bdd);
        i := i + 1;
      }
      assert Infos([bdd]) == [Info(bdd)];
    }

    function ObtenerValor(clave: string, ahora: nat): (r: Option<TipoRedis>)
      reads this, hashmap.Values
      ensures r == Obtener(Tabla(), clave, ahora)
    {
      if clave in hashmap then hashmap[clave].Get(ahora) else None
    }

    predicate ExisteClave(clave: string, ahora: nat)
      reads this, hashmap.Values
      ensures ExisteClave(clave, ahora) == Existe(Tabla(), clave, ahora)
    {
      clave in hashmap && !hashmap[clave].Expiro(ahora)
    }

    /** `HashMap::insert`. */
    method Insertar(clave: string, v: Valor)
      requires Valid() && v !in hashmap.Values
      modifies this`hashmap
      ensures Valid() && hashmap == old(hashmap)[clave := v]
      ensures Tabla() == old(Tabla())[clave := v.Estado()]
    {
      hashmap := hashmap[clave := v];
    }

    /** `HashMap::remove`. */
    method Quitar(clave: string)
      requires Valid()
      modifies this`hashmap
      ensures Valid() && hashmap.Values <= old(hashmap.Values)
      ensures Tabla() == old(Tabla()) - {clave}
    {
      hashmap := hashmap - {clave};
    }

    method GuardarValor(clave: string, valor: TipoRedis, ahora: nat)
      requires Valid()
      modifies this, hashmap.Values, observadores
      ensures Valid() && fresh(hashmap.Values - old(hashmap.Values))
      ensures Tabla() == Aplicar(old(Tabla()), ahora, Guardar(clave, valor))
      ensures Avisado([Tabla()])
      ensures Notifica(old(Tabla()), ahora, Guardar(clave, valor))
    {
      var v := new Valor.NoExpirable(valor, ahora);
      Insertar(clave, v);
      NotificarObservadores(Tabla());
    }

    method GuardarValorConExpiracion(clave: string, expiracion: u64, valor: TipoRedis, ahora: nat)
      requires Valid()
      modifies this, hashmap.Values, observadores
      ensures Valid() && fresh(hashmap.Values - old(hashmap.Values))
      ensures Tabla() == Aplicar(old(Tabla()), ahora, GuardarConExpiracion(clave, expiracion, valor))
      ensures Avisado([Tabla()])
      ensures Notifica(old(Tabla()), ahora, GuardarConExpiracion(clave, expiracion, valor))
    {
      var v := new Valor.Expirable(valor, expiracion, ahora);
      Insertar(clave, v);
      NotificarObservadores(Tabla());
    }

    method GuardarValores(parametros: seq<string>, ahora: nat)
      requires Valid() && parametros != []
      modifies this, hashmap.Values, observadores
      ensures Valid() && fresh(hashmap.Values - old(hashmap.Values))
      ensures Tabla() == Aplicar(old(Tabla()), ahora, Operacion.GuardarValores(parametros))
      ensures Avisado([Tabla()])
      ensures Notifica(old(Tabla()), ahora, Operacion.GuardarValores(parametros))
    {
      var index := 0;
      while index != |parametros| - 1
        invariant 0 <= index < |parametros|
        invariant Valid() && fresh(hashmap.Values - old(hashmap.Values)) && observadores == old(observadores)
        invariant Tabla() == GuardarPares(old(Tabla()), parametros, index, ahora)
        invariant forall o | o in observadores :: o.mensajes == old(o.mensajes)
        decreases |parametros| - index
      {
        var v := new Valor.NoExpirable(Str(parametros[index + 1]), ahora);
        Insertar(parametros[index], v);
        index := index + 1;
      }
      NotificarObservadores(Tabla());
    }

    method EliminarClave(clave: string, ahora: nat) returns (r: nat)
      requires Valid()
      modifies this, hashmap.Values, observadores
      ensures Valid() && hashmap.Values <= old(hashmap.Values)
      ensures Tabla() == Aplicar(old(Tabla()), ahora, Eliminar(clave))
      ensures r == if clave in old(Tabla()) then 1 else 0
      ensures Avisado([Tabla()])
      ensures Notifica(old(Tabla()), ahora, Eliminar(clave))
    {
      r := if clave in hashmap then 1 else 0;
      Quitar(clave);
      NotificarObservadores(Tabla());
    }

    method CopiarValor(claveActual: string, claveNueva: string, ahora: nat) returns (copio: bool)
      requires Valid()
      modifies this, hashmap.Values, observadores
      ensures Valid() && fresh(hashmap.Values - old(hashmap.Values))
      ensures Tabla() == Aplicar(old(Tabla()), ahora, Copiar(claveActual, claveNueva))
      ensures copio == Existe(old(Tabla()), claveActual, ahora)
      ensures Avisado(if copio then [Tabla()] else [])
      ensures copio == Notifica(old(Tabla()), ahora, Copiar(claveActual, claveNueva))
    {
      match ObtenerValor(claveActual, ahora)
      case None =>
        return false;
      case Some(valor) =>
        GuardarValor(claveNueva, valor, ahora);
        return true;
    }

    method IntercambiarValor(clave: string, valorNuevo: TipoRedis, ahora: nat) returns (r: Option<TipoRedis>)
      requires Valid()
      modifies this, hashmap.Values, observadores
      ensures Valid() && fresh(hashmap.Values - old(hashmap.Values))
      ensures Tabla() == Aplicar(old(Tabla()), ahora, Intercambiar(clave, valorNuevo))
      ensures r == (match old(Obtener(Tabla(), clave, ahora))
                    case Some(Lista(_)) => Some(Lista([]))
                    case Some(Conjunto(_)) => Some(Conjunto({}))
                    case Some(Str(s)) => Some(Str(s))
                    case _ => None)
      ensures Avisado([])
      ensures !Notifica(old(Tabla()), ahora, Intercambiar(clave, valorNuevo))
    {
      var anterior := ObtenerValor(clave, ahora);
      match anterior {
        case Some(Lista(_)) => return Some(Lista([]));
        case Some(Conjunto(_)) => return Some(Conjunto({}));
        case Some(Str(s)) => r := Some(Str(s));
        case _ => r := None;
      }
      var v := new Valor.NoExpirable(valorNuevo, ahora);
      Insertar(clave, v);
    }

    method BorrarClaves(ahora: nat)
      requires Valid()
      modifies this, hashmap.Values, observadores
      ensures Valid() && fresh(hashmap.Values - old(hashmap.Values))
      ensures Tabla() == Aplicar(old(Tabla()), ahora, Operacion.BorrarClaves)
      ensures Avisado([Tabla()])
      ensures Notifica(old(Tabla()), ahora, Operacion.BorrarClaves)
    {
      hashmap := map[];
      NotificarObservadores(Tabla());
    }

    method ActualizarValorConExpiracion(clave: string, expiracion: u64, ahora: nat) returns (r: nat)
      requires Valid()
      modifies this, hashmap.Values, observadores
      ensures Valid() && hashmap == old(hashmap)
      ensures Tabla() == Aplicar(old(Tabla()), ahora, ActualizarExpiracion(clave, expiracion))
      ensures r == if clave in Tabla() then 1 else 0
      ensures Avisado([])
      ensures !Notifica(old(Tabla()), ahora, ActualizarExpiracion(clave, expiracion))
    {
      if clave !in hashmap { return 0; }
      hashmap[clave].ActualizarExpiracion(expiracion, ahora);
      r := 1;
    }

    method ActualizarValorSinExpiracion(clave: string, ahora: nat) returns (r: nat)
      requires Valid()
      modifies this, hashmap.Values, observadores
      ensures Valid() && hashmap == old(hashmap)
      ensures Tabla() == Aplicar(old(Tabla()), ahora, HacerPersistente(clave))
      ensures r == if clave in Tabla() then 1 else 0
      ensures Avisado([])
      ensures !Notifica(old(Tabla()), ahora, HacerPersistente(clave))
    {
      if clave !in hashmap { return 0; }
      hashmap[clave].HacerPersistente();
      r := 1;
    }

    method ActualizarUltimoAcceso(clave: string, ahora: nat) returns (r: nat)
      requires Valid()
      modifies this, hashmap.Values, observadores
      ensures Valid() && hashmap == old(hashmap)
      ensures Tabla() == Aplicar(old(Tabla()), ahora, Tocar(clave))
      ensures r == if clave in Tabla() then 1 else 0
      ensures Avisado([])
      ensures !Notifica(old(Tabla()), ahora, Tocar(clave))
    {
      if clave !in hashmap { return 0; }
      hashmap[clave].ActualizarUltimoAcceso(ahora);
      r := 1;
    }
  }
}
