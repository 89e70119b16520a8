/** Loading undoes saving, and exactly when it does. */
module IdaYVuelta {
  import opened Basicos
  import opened Cadenas
  import opened Decimal
  import opened Valores
  import opened Persistencia

  // ---- One entry ----

  /** The character occurs neither in the key nor in any text of the value. */
  predicate Sin(c: char, clave: string, valor: TipoRedis)
  {
    && c !in clave
    && match valor
       case Str(s) => c !in s
       case Lista(l) => forall x | x in l :: c !in x
       case Conjunto(m) => forall x | x in m :: c !in x
       case Canal(_) => true
  }

  /** The tag words that the loader would mistake when they appear as a key, a text or an element. */
  predicate Recuperable(clave: string, valor: TipoRedis, vida: Option<u64>)
  {
    match valor
    case Str(s) => vida.Some? || (clave != EX && s != EX)
    case Lista(l) => vida == None && clave != STRING && STRING !in l && EX !in l
    case Conjunto(m) =>
      && clave != STRING && STRING !in m && clave != LIST && LIST !in m
      && (if vida.Some? then EX in m && NatATexto(vida.value) in m else EX !in m)
    case Canal(_) => false
  }

  /** What a saved value becomes: the same contents and lifetime, created anew. */
  function Renovada(e: Entrada, ahora: nat): Entrada
  {
    Entrada(e.valor, ahora, ahora, e.vida)
  }

  ghost predicate OrdenDe(orden: seq<string>, valor: TipoRedis)
  {
    valor.Conjunto? ==> Enumera(orden, valor.miembros)
  }

  lemma TiempoDelSufijo(e: seq<string>, n: u64)
    ensures ObtenerTiempoExpiracion(e + [EX, NatATexto(n)]) == Responde(n)
  {
    var s := NatATexto(n);
    var todo := e + [EX, s];
    assert EsDigito(s[0]);
    assert todo[..|todo| - 1] == e + [EX];
    assert UltimaParte(e + [EX], EX) == [];
    assert UltimaParte(todo, EX) == [] + [s];
    ParseSinSignoDeTexto(n, MAX_U64);
  }

  lemma RecuperaTexto(clave: string, s: string, vida: Option<u64>, ahora: nat)
    ensures CargarCampos(Campos(clave, Str(s), vida, []), ahora) == Cargada(clave, Entrada(Str(s), ahora, ahora, vida))
      <==> Recuperable(clave, Str(s), vida)
  {
    var e := Campos(clave, Str(s), vida, []);
    assert STRING in e by { assert e[0] == STRING; }
    if vida.Some? {
      TiempoDelSufijo([STRING, clave, s], vida.value);
      assert e[3] == EX;
    } else {
      assert e == [STRING, clave, s];
    }
  }

  lemma RecuperaLista(clave: string, l: seq<string>, vida: Option<u64>, ahora: nat)
    ensures CargarCampos(Campos(clave, Lista(l), vida, []), ahora) == Cargada(clave, Entrada(Lista(l), ahora, ahora, vida))
      <==> Recuperable(clave, Lista(l), vida)
  {
    var e := Campos(clave, Lista(l), vida, []);
    var r := l + Sufijo(vida);
    assert e == [LIST, clave] + r && e[2..] == r && e[0] == LIST;
    if vida.Some? {
      assert EsDigito(NatATexto(vida.value)[0]);
      assert |r| == |l| + 2;
    } else {
      assert r == l;
    }
  }

  /** A line that begins as a set is loaded as one exactly when no tag of an earlier branch appears in it. */
  lemma CargaDeSet(clave: string, r: seq<string>, ahora: nat)
    ensures var c := CargarCampos([SET, clave] + r, ahora);
            if clave == STRING || STRING in r || clave == LIST || LIST in r
            then !(c.Cargada? && c.entrada.valor.Conjunto?)
            else c == ConVida(clave, Conjunto(set x | x in r), r, ahora)
  {
  }

  lemma RecuperaSetSinVida(clave: string, m: set<string>, orden: seq<string>, ahora: nat)
    requires Enumera(orden, m)
    ensures CargarCampos([SET, clave] + orden, ahora) == Cargada(clave, EntradaNoExpirable(Conjunto(m), ahora))
      <==> Recuperable(clave, Conjunto(m), None)
  {
  }

  lemma RecuperaSetConVida(clave: string, m: set<string>, vida: u64, orden: seq<string>, ahora: nat)
    requires Enumera(orden, m)
    ensures CargarCampos([SET, clave] + (orden + [EX, NatATexto(vida)]), ahora)
              == Cargada(clave, EntradaExpirable(Conjunto(m), vida, ahora))
      <==> Recuperable(clave, Conjunto(m), Some(vida))
  {
    var n := NatATexto(vida);
    var r := orden + [EX, n];
    CargaDeSet(clave, r, ahora);
    TiempoDelSufijo(orden, vida);
    var leidos := set x | x in r;
    assert leidos == m + {EX, n} by {
      assert r[|orden|] == EX && r[|orden| + 1] == n;
    }
    assert leidos == m <==> EX in m && n in m;
    assert EsDigito(n[0]);
    assert EX in r && (STRING in r <==> STRING in leidos) && (LIST in r <==> LIST in leidos);
  }

  lemma RecuperaSet(clave: string, m: set<string>, vida: Option<u64>, orden: seq<string>, ahora: nat)
    requires Enumera(orden, m)
    ensures CargarCampos(Campos(clave, Conjunto(m), vida, orden), ahora)
              == Cargada(clave, Entrada(Conjunto(m), ahora, ahora, vida))
      <==> Recuperable(clave, Conjunto(m), vida)
  {
    match vida
    case Some(n) =>
      RecuperaSetConVida(clave, m, n, orden, ahora);
      assert [SET, clave] + orden + [EX, NatATexto(n)] == [SET, clave] + (orden + [EX, NatATexto(n)]);
    case None =>
      RecuperaSetSinVida(clave, m, orden, ahora);
      assert [SET, clave] + orden + [] == [SET, clave] + orden;
  }

  /** The loader gives an entry back if and only if no tag word stands where it would be mistaken. Lists with a
      lifetime never come back; sets with one only when they already hold the marker and the number. */
  lemma EntradaVuelve(clave: string, e: Entrada, orden: seq<string>, ahora: nat)
    requires !e.valor.Canal? && OrdenDe(orden, e.valor)
    ensures CargarCampos(Campos(clave, e.valor, e.vida, orden), ahora) == Cargada(clave, Renovada(e, ahora))
      <==> Recuperable(clave, e.valor, e.vida)
  {
    match e.valor
    case Str(s) =>
      RecuperaTexto(clave, s, e.vida, ahora);
      assert Campos(clave, e.valor, e.vida, orden) == Campos(clave, e.valor, e.vida, []);
    case Lista(l) =>
      RecuperaLista(clave, l, e.vida, ahora);
      assert Campos(clave, e.valor, e.vida, orden) == Campos(clave, e.valor, e.vida, []);
    case Conjunto(m) =>
      RecuperaSet(clave, m, e.vida, orden, ahora);
  }

  /** Even a mistaken line is loaded under its own key, or not at all. */
  lemma CargaBajoSuClave(clave: string, e: Entrada, orden: seq<string>, ahora: nat)
    requires !e.valor.Canal?
    ensures var c := CargarCampos(Campos(clave, e.valor, e.vida, orden), ahora);
            c.Fallida? || (c.Cargada? && c.clave == clave)
  {
  }

  // ---- One line ----

  lemma CamposSin(c: char, clave: string, e: Entrada, orden: seq<string>)
    requires c == ':' || c == LF || c == CR
    requires !e.valor.Canal? && Sin(c, clave, e.valor) && OrdenDe(orden, e.valor)
    ensures forall campo | campo in Campos(clave, e.valor, e.vida, orden) :: c !in campo
  {
  }

  lemma LineaSin(c: char, clave: string, e: Entrada, orden: seq<string>)
    requires c == LF || c == CR
    requires !e.valor.Canal? && Sin(c, clave, e.valor) && OrdenDe(orden, e.valor)
    ensures c !in Linea(clave, Some(e.valor), e.vida, orden)
  {
    CamposSin(c, clave, e, orden);
    UnirSinCaracter(Campos(clave, e.valor, e.vida, orden), SEPARADOR, c);
  }

  lemma LineaDeCampos(clave: string, e: Entrada, orden: seq<string>, ahora: nat)
    requires !e.valor.Canal? && Sin(':', clave, e.valor) && OrdenDe(orden, e.valor)
    ensures CargarLinea(Linea(clave, Some(e.valor), e.vida, orden), ahora)
         == CargarCampos(Campos(clave, e.valor, e.vida, orden), ahora)
  {
    var campos := Campos(clave, e.valor, e.vida, orden);
    CamposSin(':', clave, e, orden);
    forall p | p in campos ensures Libre(p, SEPARADOR) {
      LibreDeCaracter(p, ':');
    }
    PartirUnir(campos, SEPARADOR);
    assert Unir(campos, SEPARADOR) != "" by {
      assert Partir("", SEPARADOR) == [""];
    }
  }

  // ---- The whole table ----

  /** What the writer leaves for one entry whose clock reading was `ahora`, in some order of a set's members. */
  ghost predicate EsLinea(linea: string, clave: string, e: Entrada, ahora: nat)
  {
    exists orden: seq<string> :: OrdenDe(orden, e.valor) && linea == Linea(clave, e.Get(ahora), e.vida, orden)
  }

  /** One line per entry, in some iteration order of the table; `cuando` gives the clock reading at each entry. */
  ghost predicate Serializa(lineas: seq<string>, t: Tabla, orden: seq<string>, cuando: string -> nat)
  {
    && Enumera(orden, t.Keys) && |lineas| == |orden|
    && forall i | 0 <= i < |orden| :: EsLinea(lineas[i], orden[i], t[orden[i]], cuando(orden[i]))
  }

  predicate Guardable(t: Tabla, clave: string, cuando: string -> nat)
  {
    clave in t && !t[clave].Expiro(cuando(clave)) && !t[clave].valor.Canal?
  }

  /** The live part of a table without its channels, created anew. */
  function Esperada(t: Tabla, cuando: string -> nat, ahora: nat): Tabla
  {
    map k | k in t && Guardable(t, k, cuando) :: Renovada(t[k], ahora)
  }

  predicate TablaSin(c: char, t: Tabla, cuando: string -> nat)
  {
    forall k | k in t && Guardable(t, k, cuando) :: Sin(c, k, t[k].valor)
  }

  predicate TablaRecuperable(t: Tabla, cuando: string -> nat)
  {
    forall k | k in t && Guardable(t, k, cuando) :: Recuperable(k, t[k].valor, t[k].vida)
  }

  /** What is known of one line of a serialised table when it is loaded. */
  lemma CargaDeLinea(lineas: seq<string>, t: Tabla, orden: seq<string>, cuando: string -> nat, i: nat, ahora: nat)
    requires Serializa(lineas, t, orden, cuando) && TablaSin(':', t, cuando) && i < |lineas|
    ensures orden[i] in t
    ensures var k, c := orden[i], CargarLinea(lineas[i], ahora);
            if !Guardable(t, k, cuando) then c == Omitida
            else && (c.Fallida? || (c.Cargada? && c.clave == k))
                 && (c == Cargada(k, Renovada(t[k], ahora)) <==> Recuperable(k, t[k].valor, t[k].vida))
  {
    var k := orden[i];
    var o :| OrdenDe(o, t[k].valor) && lineas[i] == Linea(k, t[k].Get(cuando(k)), t[k].vida, o);
    if Guardable(t, k, cuando) {
      LineaDeCampos(k, t[k], o, ahora);
      EntradaVuelve(k, t[k], o, ahora);
      CargaBajoSuClave(k, t[k], o, ahora);
    }
  }

  /** The part of the expected table that the first `n` lines carry. */
  function EsperadaHasta(t: Tabla, orden: seq<string>, cuando: string -> nat, n: nat, ahora: nat): Tabla
    requires n <= |orden|
  {
    map k | k in t && Guardable(t, k, cuando) && k in orden[..n] :: Renovada(t[k], ahora)
  }

  lemma UnaMas(t: Tabla, orden: seq<string>, cuando: string -> nat, n: nat, ahora: nat)
    requires n < |orden| && orden[n] in t
    ensures var k, m := orden[n], EsperadaHasta(t, orden, cuando, n, ahora);
            EsperadaHasta(t, orden, cuando, n + 1, ahora)
              == if Guardable(t, k, cuando) then m[k := Renovada(t[k], ahora)] else m
  {
    assert orden[..n + 1] == orden[..n] + [orden[n]];
  }

  lemma {:induction false} RecuperablesVuelven(lineas: seq<string>, t: Tabla, orden: seq<string>, cuando: string -> nat,
                                               n: nat, ahora: nat)
    requires Serializa(lineas, t, orden, cuando) && TablaSin(':', t, cuando) && TablaRecuperable(t, cuando)
    requires n <= |lineas|
    ensures Levantar(lineas[..n], ahora) == Responde(EsperadaHasta(t, orden, cuando, n, ahora))
  {
    if n > 0 {
      var i := n - 1;
      RecuperablesVuelven(lineas, t, orden, cuando, i, ahora);
      CargaDeLinea(lineas, t, orden, cuando, i, ahora);
      UnaMas(t, orden, cuando, i, ahora);
      assert lineas[..n][..i] == lineas[..i];
    }
  }

  /** The table after one line more. */
  function ConLinea(r: Salida<Tabla>, c: Carga): Salida<Tabla>
  {
    match (r, c)
    case (Panico, _) => Panico
    case (_, Fallida) => Panico
    case (Responde(t), Omitida) => Responde(t)
    case (Responde(t), Cargada(k, e)) => Responde(t[k := e])
  }

  lemma UnaLineaMas(lineas: seq<string>, j: nat, ahora: nat)
    requires j < |lineas|
    ensures Levantar(lineas[..j + 1], ahora) == ConLinea(Levantar(lineas[..j], ahora), CargarLinea(lineas[j], ahora))
  {
    assert lineas[..j + 1][..j] == lineas[..j];
  }

  /** If the load goes well, the key holds what `c` gave it. */
  predicate Tiene(r: Salida<Tabla>, clave: string, c: Carga)
  {
    r.Responde? ==> clave in r.valor && c == Cargada(clave, r.valor[clave])
  }

  lemma TieneUnaMas(r: Salida<Tabla>, c: Carga, clave: string, anterior: Carga)
    requires Tiene(r, clave, anterior) && (c.Cargada? ==> c.clave != clave)
    ensures Tiene(ConLinea(r, c), clave, anterior)
  {
  }

  lemma TieneRecien(r: Salida<Tabla>, c: Carga, clave: string)
    requires !c.Omitida? && (c.Cargada? ==> c.clave == clave)
    ensures Tiene(ConLinea(r, c), clave, c)
  {
  }

  /** What line `i` gave to its key stays there when no later line gives it anything. */
  lemma {:induction false} Queda(lineas: seq<string>, i: nat, n: nat, clave: string, ahora: nat)
    requires i < n <= |lineas|
    requires var c := CargarLinea(lineas[i], ahora); !c.Omitida? && (c.Cargada? ==> c.clave == clave)
    requires forall j | i < j < n :: CargarLinea(lineas[j], ahora).Cargada? ==> CargarLinea(lineas[j], ahora).clave != clave
    ensures Tiene(Levantar(lineas[..n], ahora), clave, CargarLinea(lineas[i], ahora))
  {
    var j := n - 1;
    UnaLineaMas(lineas, j, ahora);
    if i < j {
      Queda(lineas, i, j, clave, ahora);
      TieneUnaMas(Levantar(lineas[..j], ahora), CargarLinea(lineas[j], ahora), clave, CargarLinea(lineas[i], ahora));
    } else {
      TieneRecien(Levantar(lineas[..j], ahora), CargarLinea(lineas[j], ahora), clave);
    }
  }

  lemma OtraClave(lineas: seq<string>, t: Tabla, orden: seq<string>, cuando: string -> nat, i: nat, j: nat, ahora: nat)
    requires Serializa(lineas, t, orden, cuando) && TablaSin(':', t, cuando) && i < j < |lineas|
    ensures var c := CargarLinea(lineas[j], ahora); c.Cargada? ==> c.clave != orden[i]
  {
    CargaDeLinea(lineas, t, orden, cuando, j, ahora);
    assert orden[i] != orden[j];
  }

  /** What line `i` left under its key stays there, for no later line carries the same key. */
  lemma LoCargadoQueda(lineas: seq<string>, t: Tabla, orden: seq<string>, cuando: string -> nat, i: nat, ahora: nat)
    requires Serializa(lineas, t, orden, cuando) && TablaSin(':', t, cuando)
    requires i < |lineas| && Guardable(t, orden[i], cuando)
    ensures Tiene(Levantar(lineas, ahora), orden[i], CargarLinea(lineas[i], ahora))
  {
    CargaDeLinea(lineas, t, orden, cuando, i, ahora);
    forall j | i < j < |lineas|
      ensures CargarLinea(lineas[j], ahora).Cargada? ==> CargarLinea(lineas[j], ahora).clave != orden[i]
    {
      OtraClave(lineas, t, orden, cuando, i, j, ahora);
    }
    Queda(lineas, i, |lineas|, orden[i], ahora);
    assert lineas[..|lineas|] == lineas;
  }

  /** Nothing loaded holds a ':' nor a character that no line holds. */
  predicate Limpia(c: char, t: Tabla) { forall k | k in t :: Sin(c, k, t[k].valor) }

  lemma {:induction false} LevantarSin(c: char, lineas: seq<string>, ahora: nat)
    requires c == ':' || forall l | l in lineas :: c !in l
    ensures var r := Levantar(lineas, ahora); r.Responde? ==> Limpia(c, r.valor)
  {
    if lineas != [] {
      var n := |lineas| - 1;
      LevantarSin(c, lineas[..n], ahora);
      CargarSin(c, lineas[n], ahora);
      match Levantar(lineas[..n], ahora)
      case Panico =>
      case Responde(t) =>
        match CargarLinea(lineas[n], ahora)
        case Omitida =>
        case Fallida =>
        case Cargada(k, e) => assert Limpia(c, t[k := e]);
    }
  }

  lemma CargarSin(c: char, linea: string, ahora: nat)
    requires c == ':' || c !in linea
    ensures var r := CargarLinea(linea, ahora); r.Cargada? ==> Sin(c, r.clave, r.entrada.valor)
  {
    PartirSinCaracter(linea, ':', c);
  }

  lemma EsperadaSin(c: char, t: Tabla, cuando: string -> nat, ahora: nat)
    requires Limpia(c, Esperada(t, cuando, ahora))
    ensures TablaSin(c, t, cuando)
  {
    forall k | k in t && Guardable(t, k, cuando) ensures Sin(c, k, t[k].valor) {
      assert k in Esperada(t, cuando, ahora);
    }
  }

  /** The loader returns the live, channel-free part of the table, with keys, values and lifetimes, if and only if
      no saved text holds the separator and every saved entry is recoverable: whatever the order of iteration over
      the table and its sets. */
  lemma LevantarDeshaceGuardar(lineas: seq<string>, t: Tabla, orden: seq<string>, cuando: string -> nat, ahora: nat)
    requires Serializa(lineas, t, orden, cuando)
    ensures Levantar(lineas, ahora) == Responde(Esperada(t, cuando, ahora))
      <==> TablaSin(':', t, cuando) && TablaRecuperable(t, cuando)
  {
    var n := |lineas|;
    assert lineas[..n] == lineas && orden[..n] == orden;
    if Levantar(lineas, ahora) == Responde(Esperada(t, cuando, ahora)) {
      LevantarSin(':', lineas, ahora);
      EsperadaSin(':', t, cuando, ahora);
    }
    if TablaSin(':', t, cuando) {
      if TablaRecuperable(t, cuando) {
        RecuperablesVuelven(lineas, t, orden, cuando, n, ahora);
        assert EsperadaHasta(t, orden, cuando, n, ahora) == Esperada(t, cuando, ahora);
      } else {
        var k :| k in t && Guardable(t, k, cuando) && !Recuperable(k, t[k].valor, t[k].vida);
        assert k in orden;
        var i :| 0 <= i < n && orden[i] == k;
        LoCargadoQueda(lineas, t, orden, cuando, i, ahora);
        CargaDeLinea(lineas, t, orden, cuando, i, ahora);
      }
    }
  }

  /** Loading some lines after others merges the two tables, the second prevailing. */
  lemma {:induction false} LevantarConcatena(a: seq<string>, b: seq<string>, ahora: nat)
    ensures Levantar(a + b, ahora)
         == match (Levantar(a, ahora), Levantar(b, ahora))
            case (Responde(t), Responde(u)) => Responde(t + u)
            case _ => Panico
  {
    if b == [] {
      assert a + b == a;
      match Levantar(a, ahora)
      case Responde(t) => assert t + map[] == t;
      case Panico =>
    } else {
      var n := |b| - 1;
      var i := |a| + n;
      assert (a + b)[..i] == a + b[..n] && (a + b)[..i + 1] == a + b && b[..n + 1] == b;
      UnaLineaMas(a + b, i, ahora);
      UnaLineaMas(b, n, ahora);
      LevantarConcatena(a, b[..n], ahora);
      match (Levantar(a, ahora), Levantar(b[..n], ahora), CargarLinea(b[n], ahora))
      case (Responde(t), Responde(u), Cargada(k, e)) => UnionYUna(t, u, k, e);
      case _ =>
    }
  }

  lemma UnionYUna(t: Tabla, u: Tabla, k: string, e: Entrada)
    ensures (t + u)[k := e] == t + u[k := e]
  {
  }

  // ---- The format of the lines ----

  /** Each text behind a colon. */
  function Seguidos(xs: seq<string>): string
  {
    if xs == [] then "" else Seguidos(xs[..|xs| - 1]) + ":" + xs[|xs| - 1]
  }

  lemma {:induction false} UnirSeguidos(x: string, xs: seq<string>)
    ensures Unir([x] + xs, SEPARADOR) == x + Seguidos(xs)
  {
    if xs == [] {
      assert [x] + xs == [x];
    } else {
      var n := |xs| - 1;
      UnirSeguidos(x, xs[..n]);
      UnirAlFinal([x] + xs[..n], xs[n], SEPARADOR);
      assert [x] + xs[..n] + [xs[n]] == [x] + xs;
      Asociar(x, Seguidos(xs[..n]), ":" + xs[n]);
      Asociar(x + Seguidos(xs[..n]), ":", xs[n]);
      Asociar(Seguidos(xs[..n]), ":", xs[n]);
    }
  }

  /** The lines as they stand in the file, with and without a lifetime. */
  lemma FormatoDeLinea(clave: string, s: string, l: seq<string>, m: set<string>, n: u64, orden: seq<string>)
    ensures Linea(clave, Some(Str(s)), None, orden) == "STRING" + Seguidos([clave, s])
    ensures Linea(clave, Some(Lista(l)), None, orden) == "LIST" + Seguidos([clave] + l)
    ensures Linea(clave, Some(Conjunto(m)), None, orden) == "SET" + Seguidos([clave] + orden)
    ensures Linea(clave, Some(Str(s)), Some(n), orden) == "STRING" + Seguidos([clave, s, "EX", NatATexto(n)])
    ensures Linea(clave, Some(Lista(l)), Some(n), orden) == "LIST" + Seguidos([clave] + l + ["EX", NatATexto(n)])
    ensures Linea(clave, Some(Conjunto(m)), Some(n), orden) == "SET" + Seguidos([clave] + orden + ["EX", NatATexto(n)])
  {
    LineaDeTexto(clave, s, [], orden);
    LineaDeTexto(clave, s, ["EX", NatATexto(n)], orden);
    LineaDeVarios("LIST", clave, l, []);
    LineaDeVarios("LIST", clave, l, ["EX", NatATexto(n)]);
    LineaDeVarios("SET", clave, orden, []);
    LineaDeVarios("SET", clave, orden, ["EX", NatATexto(n)]);
    assert [clave, s] + [] == [clave, s] && [clave, s] + ["EX", NatATexto(n)] == [clave, s, "EX", NatATexto(n)];
    assert [clave] + l + [] == [clave] + l && [clave] + orden + [] == [clave] + orden;
  }

  lemma LineaDeTexto(clave: string, s: string, sufijo: seq<string>, orden: seq<string>)
    ensures Unir([STRING, clave, s] + sufijo, SEPARADOR) == "STRING" + Seguidos([clave, s] + sufijo)
  {
    UnirSeguidos("STRING", [clave, s] + sufijo);
    assert ["STRING"] + ([clave, s] + sufijo) == [STRING, clave, s] + sufijo;
  }

  lemma LineaDeVarios(etiqueta: string, clave: string, xs: seq<string>, sufijo: seq<string>)
    ensures Unir([etiqueta, clave] + xs + sufijo, SEPARADOR) == etiqueta + Seguidos([clave] + xs + sufijo)
  {
    UnirSeguidos(etiqueta, [clave] + xs + sufijo);
    assert [etiqueta] + ([clave] + xs + sufijo) == [etiqueta, clave] + xs + sufijo;
  }

  // ---- What the loader makes of any line ----

  /** The lifetime that the fields give: the number behind the last marker, or zero if that is no number. */
  predicate DaVida(campos: seq<string>, antes: seq<string>, n: u64)
  {
    && antes + ["EX"] <= campos && "EX" !in campos[|antes| + 1..] && |antes| + 1 < |campos|
    && match ParseU64(campos[|antes| + 1]) case Some(m) => n == m case None => n == 0
  }

  lemma TrasElMarcador(campos: seq<string>, antes: seq<string>, despues: seq<string>)
    requires campos == antes + ["EX"] + despues && "EX" !in despues
    ensures UltimaParte(campos, EX) == despues
    decreases |despues|
  {
    if despues != [] {
      var n := |despues| - 1;
      assert campos[..|campos| - 1] == antes + ["EX"] + despues[..n];
      TrasElMarcador(campos[..|campos| - 1], antes, despues[..n]);
    }
  }

  lemma VidaDeCampos(clave: string, v: TipoRedis, campos: seq<string>, antes: seq<string>, n: u64, ahora: nat)
    requires DaVida(campos, antes, n)
    ensures ConVida(clave, v, campos, ahora) == Cargada(clave, EntradaExpirable(v, n, ahora))
  {
    var despues := campos[|antes| + 1..];
    assert campos == antes + ["EX"] + despues;
    TrasElMarcador(campos, antes, despues);
    assert campos[|antes|] == "EX";
  }

  lemma MarcadorFinal(clave: string, v: TipoRedis, antes: seq<string>, ahora: nat)
    ensures ConVida(clave, v, antes + ["EX"], ahora) == Fallida
  {
    assert antes + ["EX"] + [] == antes + ["EX"];
    TrasElMarcador(antes + ["EX"], antes, []);
    assert (antes + ["EX"])[|antes|] == "EX";
  }

  /** How a line is understood: the tag may stand anywhere, STRING before LIST before SET; the key is the second field. */
  lemma LineaLeida(lineas: seq<string>, linea: string, ahora: nat, t: Tabla, antes: seq<string>, n: u64)
    requires Levantar(lineas, ahora) == Responde(t) && linea != ""
    ensures var campos, r := Partir(linea, ":"), Levantar(lineas + [linea], ahora);
            if "STRING" in campos then
              && (|campos| < 3 ==> r == Panico)
              && (|campos| >= 3 && "EX" !in campos ==> r == Responde(t[campos[1] := EntradaNoExpirable(Str(campos[2]), ahora)]))
              && (|campos| >= 3 && DaVida(campos, antes, n) ==> r == Responde(t[campos[1] := EntradaExpirable(Str(campos[2]), n, ahora)]))
              && (|campos| >= 3 && campos == antes + ["EX"] ==> r == Panico)
            else if "LIST" in campos || "SET" in campos then
              |campos| < 2 ==> r == Panico
            else r == Responde(t)
    ensures var campos, r := Partir(linea, ":"), Levantar(lineas + [linea], ahora);
            "STRING" !in campos && ("LIST" in campos || "SET" in campos) && |campos| >= 2 ==>
              var resto := campos[2..];
              var v := if "LIST" in campos then Lista(resto) else Conjunto(set x | x in resto);
              && ("EX" !in resto ==> r == Responde(t[campos[1] := EntradaNoExpirable(v, ahora)]))
              && (DaVida(resto, antes, n) ==> r == Responde(t[campos[1] := EntradaExpirable(v, n, ahora)]))
              && (resto == antes + ["EX"] ==> r == Panico)
  {
    assert (lineas + [linea])[..|lineas|] == lineas;
    var campos := Partir(linea, ":");
    if "STRING" in campos {
      if |campos| >= 3 { ConVidaDe(campos[1], Str(campos[2]), campos, antes, n, ahora); }
    } else if |campos| >= 2 {
      var resto := campos[2..];
      ConVidaDe(campos[1], if "LIST" in campos then Lista(resto) else Conjunto(set x | x in resto), resto, antes, n, ahora);
    }
  }

  lemma ConVidaDe(clave: string, v: TipoRedis, campos: seq<string>, antes: seq<string>, n: u64, ahora: nat)
    ensures var c := ConVida(clave, v, campos, ahora);
            && ("EX" !in campos ==> c == Cargada(clave, EntradaNoExpirable(v, ahora)))
            && (DaVida(campos, antes, n) ==> c == Cargada(clave, EntradaExpirable(v, n, ahora)))
            && (campos == antes + ["EX"] ==> c == Fallida)
  {
    if DaVida(campos, antes, n) { VidaDeCampos(clave, v, campos, antes, n, ahora); }
    if campos == antes + ["EX"] { MarcadorFinal(clave, v, antes, ahora); }
  }

  /** Empty lines are passed over. */
  lemma LineaVacia(lineas: seq<string>, ahora: nat)
    ensures Levantar(lineas + [""], ahora) == Levantar(lineas, ahora)
  {
    assert (lineas + [""])[..|lineas|] == lineas;
  }
}
