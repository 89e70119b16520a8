/** The snapshot file: its lines are written over the old text, and read back as lines. */
module Archivo {
  import opened Basicos
  import opened Cadenas
  import opened Decimal
  import opened Valores
  import opened Persistencia
  import opened IdaYVuelta

  /** What `writeln!` puts in the file. */
  function Texto(lineas: seq<string>): string
  {
    if lineas == [] then "" else lineas[0] + [LF] + Texto(lineas[1..])
  }

  /** The file is opened for writing without truncating it: a longer old text keeps its tail. */
  function Sobrescribir(viejo: string, nuevo: string): string
  {
    if |viejo| <= |nuevo| then nuevo else nuevo + viejo[|nuevo|..]
  }

  predicate SinCRFinal(lineas: seq<string>) { forall l | l in lineas :: SinCR(l) == l }

  // ---- The lines of a text ----

  /** The lines as they are read back: one CR at the end is taken for part of the line ending. */
  function Recortadas(lineas: seq<string>): (r: seq<string>)
    ensures |r| == |lineas| && forall i | 0 <= i < |r| :: r[i] == SinCR(lineas[i])
  {
    if lineas == [] then [] else [SinCR(lineas[0])] + Recortadas(lineas[1..])
  }

  lemma PrimeraLinea(l: string, resto: string)
    requires LF !in l
    ensures Lineas(l + [LF] + resto) == [SinCR(l)] + Lineas(resto)
  {
    LineaLF(l, resto);
  }

  lemma {:induction false} LineasDeTexto(lineas: seq<string>)
    requires SinLF(lineas)
    ensures Lineas(Texto(lineas)) == Recortadas(lineas)
  {
    if lineas != [] {
      LineasDeTexto(lineas[1..]);
      PrimeraLinea(lineas[0], Texto(lineas[1..]));
    }
  }

  lemma {:induction false} RecortadasIguales(lineas: seq<string>)
    requires SinCRFinal(lineas)
    ensures Recortadas(lineas) == lineas
  {
    if lineas != [] {
      RecortadasIguales(lineas[1..]);
      assert lineas == [lineas[0]] + lineas[1..];
    }
  }

  predicate Terminado(s: string) { s == "" || s[|s| - 1] == LF }

  lemma {:induction false} TextoTerminado(lineas: seq<string>)
    ensures Terminado(Texto(lineas))
  {
    if lineas != [] { TextoTerminado(lineas[1..]); }
  }

  /** The first line of a finished text, and what follows it. */
  lemma PartirTerminado(s: string) returns (l: string, resto: string)
    requires s != "" && Terminado(s)
    ensures LF !in l && s == l + [LF] + resto && Terminado(resto)
  {
    var i := Buscar(s, LF);
    assert s[|s| - 1] == LF;
    assert i < |s|;
    l, resto := s[..i], s[i + 1..];
  }

  /** What is read after a finished text are the lines of the one and then those of the other. */
  lemma {:induction false} LineasConcatena(s: string, cola: string)
    requires Terminado(s)
    ensures Lineas(s + cola) == Lineas(s) + Lineas(cola)
    decreases |s|
  {
    if s == "" {
      assert s + cola == cola;
    } else {
      var l, resto := PartirTerminado(s);
      LineasConcatena(resto, cola);
      PrimeraLinea(l, resto);
      PrimeraLinea(l, resto + cola);
      Asociar(l + [LF], resto, cola);
      Asociar([SinCR(l)], Lineas(resto), Lineas(cola));
    }
  }

  // ---- A carriage return at the end of a line ----

  /** The fields as they come back when the last one ended in CR. */
  function Recortados(campos: seq<string>): seq<string>
    requires campos != []
  {
    campos[..|campos| - 1] + [SinCR(campos[|campos| - 1])]
  }

  lemma UnirSinCR(campos: seq<string>, antes: seq<string>, ultimo: string)
    requires antes != [] && campos == antes + [ultimo]
    ensures SinCR(Unir(campos, SEPARADOR)) == Unir(antes + [SinCR(ultimo)], SEPARADOR)
  {
    UnirAlFinal(antes, ultimo, SEPARADOR);
    UnirAlFinal(antes, SinCR(ultimo), SEPARADOR);
    SinCRDetras(Unir(antes, SEPARADOR) + SEPARADOR, ultimo);
  }

  lemma SinCRDetras(a: string, b: string)
    requires a != "" && a[|a| - 1] != CR
    ensures SinCR(a + b) == a + SinCR(b)
  {
  }

  predicate TerminaEnCR(campos: seq<string>) { campos != [] && SinCR(campos[|campos| - 1]) != campos[|campos| - 1] }

  /** A line with its last field cut is not loaded, or gives its key another value, or, if the key itself was cut, gives
      something to a shorter one. */
  predicate MalCargada(c: Carga, clave: string, valor: TipoRedis)
  {
    c.Fallida? || (c.Cargada? && if c.clave == clave then c.entrada.valor != valor else c.clave + [CR] == clave)
  }

  lemma SinVidaSiTerminaEnCR(clave: string, e: Entrada, orden: seq<string>)
    requires !e.valor.Canal? && TerminaEnCR(Campos(clave, e.valor, e.vida, orden))
    ensures e.vida == None
  {
  }

  lemma TextoMalCargado(clave: string, s: string, ahora: nat)
    requires SinCR(s) != s
    ensures MalCargada(CargarCampos([STRING, clave, SinCR(s)], ahora), clave, Str(s))
  {
    var e := [STRING, clave, SinCR(s)];
    assert e[0] == STRING;
  }

  lemma ListaMalCargada(clave: string, l: seq<string>, ahora: nat)
    requires TerminaEnCR([LIST, clave] + l)
    ensures MalCargada(CargarCampos(Recortados([LIST, clave] + l), ahora), clave, Lista(l))
  {
    var e := Recortados([LIST, clave] + l);
    assert e[0] == LIST;
    if l != [] {
      assert e[1] == clave && e[2..][|l| - 1] != l[|l| - 1];
    } else {
      assert e == [LIST, SinCR(clave)];
    }
  }

  lemma SetVacioMalCargado(clave: string, ahora: nat)
    requires SinCR(clave) != clave
    ensures MalCargada(CargarCampos([SET, SinCR(clave)], ahora), clave, Conjunto({}))
  {
    var e := [SET, SinCR(clave)];
    assert e[0] == SET && e[2..] == [];
  }

  lemma FaltaElUltimo(m: set<string>, antes: seq<string>, x: string)
    requires Enumera(antes + [x], m) && SinCR(x) != x
    ensures (set y | y in antes + [SinCR(x)]) != m
  {
    var orden := antes + [x];
    assert orden[|antes|] == x && x in orden;
    assert forall i | 0 <= i < |antes| :: orden[i] == antes[i] != x;
    assert x in m && x !in antes + [SinCR(x)];
  }

  lemma SetNoVacioMalCargado(clave: string, m: set<string>, antes: seq<string>, x: string, ahora: nat)
    requires Enumera(antes + [x], m) && SinCR(x) != x
    ensures MalCargada(CargarCampos([SET, clave] + (antes + [SinCR(x)]), ahora), clave, Conjunto(m))
  {
    var e := [SET, clave] + (antes + [SinCR(x)]);
    assert e[0] == SET && e[1] == clave && e[2..] == antes + [SinCR(x)];
    FaltaElUltimo(m, antes, x);
  }

  lemma SetMalCargado(clave: string, m: set<string>, orden: seq<string>, ahora: nat)
    requires Enumera(orden, m) && TerminaEnCR([SET, clave] + orden)
    ensures MalCargada(CargarCampos(Recortados([SET, clave] + orden), ahora), clave, Conjunto(m))
  {
    if orden == [] {
      assert m == {} && Recortados([SET, clave] + orden) == [SET, SinCR(clave)];
      SetVacioMalCargado(clave, ahora);
    } else {
      var n := |orden| - 1;
      var antes, x := orden[..n], orden[n];
      assert orden == antes + [x];
      assert Recortados([SET, clave] + orden) == [SET, clave] + (antes + [SinCR(x)]);
      SetNoVacioMalCargado(clave, m, antes, x, ahora);
    }
  }

  lemma CamposMalCargados(clave: string, e: Entrada, orden: seq<string>, ahora: nat)
    requires !e.valor.Canal? && OrdenDe(orden, e.valor) && TerminaEnCR(Campos(clave, e.valor, e.vida, orden))
    ensures MalCargada(CargarCampos(Recortados(Campos(clave, e.valor, e.vida, orden)), ahora), clave, e.valor)
  {
    SinVidaSiTerminaEnCR(clave, e, orden);
    match e.valor
    case Str(s) =>
      assert [STRING, clave, s] + [] == [STRING, clave, s];
      assert Recortados([STRING, clave, s]) == [STRING, clave, SinCR(s)];
      TextoMalCargado(clave, s, ahora);
    case Lista(l) =>
      assert [LIST, clave] + l + [] == [LIST, clave] + l;
      ListaMalCargada(clave, l, ahora);
    case Conjunto(m) =>
      assert [SET, clave] + orden + [] == [SET, clave] + orden;
      SetMalCargado(clave, m, orden, ahora);
  }

  predicate SinSeparador(campos: seq<string>) { forall p | p in campos :: ':' !in p }

  lemma CargarUnidos(campos: seq<string>, ahora: nat)
    requires |campos| > 1 && SinSeparador(campos)
    ensures CargarLinea(Unir(campos, SEPARADOR), ahora) == CargarCampos(campos, ahora)
  {
    forall p | p in campos ensures Libre(p, SEPARADOR) { LibreDeCaracter(p, ':'); }
    PartirUnir(campos, SEPARADOR);
    assert Unir(campos, SEPARADOR) != "" by {
      assert Partir("", SEPARADOR) == [""];
    }
  }

  lemma RecortadosSin(campos: seq<string>)
    requires campos != [] && SinSeparador(campos)
    ensures SinSeparador(Recortados(campos))
  {
    assert campos[|campos| - 1] in campos;
  }

  lemma SoloElUltimo(campos: seq<string>)
    requires campos != [] && !TerminaEnCR(campos)
    ensures Recortados(campos) == campos
  {
  }

  lemma LineaRecortada(clave: string, e: Entrada, orden: seq<string>, ahora: nat)
    requires !e.valor.Canal? && Sin(':', clave, e.valor) && OrdenDe(orden, e.valor)
    requires var l := Linea(clave, Some(e.valor), e.vida, orden); SinCR(l) != l
    ensures MalCargada(CargarLinea(SinCR(Linea(clave, Some(e.valor), e.vida, orden)), ahora), clave, e.valor)
  {
    var campos := Campos(clave, e.valor, e.vida, orden);
    CamposSin(':', clave, e, orden);
    TerminaComoSuUltimo(campos);
    CamposRecortados(campos, ahora);
    CamposMalCargados(clave, e, orden, ahora);
  }

  lemma Ultimo(campos: seq<string>) returns (antes: seq<string>, ultimo: string)
    requires |campos| > 1
    ensures antes != [] && campos == antes + [ultimo] && Recortados(campos) == antes + [SinCR(ultimo)]
  {
    antes, ultimo := campos[..|campos| - 1], campos[|campos| - 1];
  }

  lemma UnirRecortados(campos: seq<string>)
    requires |campos| > 1
    ensures SinCR(Unir(campos, SEPARADOR)) == Unir(Recortados(campos), SEPARADOR)
  {
    var antes, ultimo := Ultimo(campos);
    UnirSinCR(campos, antes, ultimo);
  }

  lemma TerminaComoSuUltimo(campos: seq<string>)
    requires |campos| > 1 && SinCR(Unir(campos, SEPARADOR)) != Unir(campos, SEPARADOR)
    ensures TerminaEnCR(campos)
  {
    UnirRecortados(campos);
    if !TerminaEnCR(campos) { SoloElUltimo(campos); }
  }

  lemma CamposRecortados(campos: seq<string>, ahora: nat)
    requires |campos| > 1 && SinSeparador(campos)
    ensures CargarLinea(SinCR(Unir(campos, SEPARADOR)), ahora) == CargarCampos(Recortados(campos), ahora)
  {
    UnirRecortados(campos);
    RecortadosSin(campos);
    CargarUnidos(Recortados(campos), ahora);
  }

  /** What is known of one line of a serialised table when it is read back from the file. */
  lemma CargaRecortada(lineas: seq<string>, t: Tabla, orden: seq<string>, cuando: string -> nat, i: nat, ahora: nat)
    requires Serializa(lineas, t, orden, cuando) && TablaSin(':', t, cuando) && i < |lineas|
    ensures orden[i] in t
    ensures var k, c := orden[i], CargarLinea(SinCR(lineas[i]), ahora);
            if !Guardable(t, k, cuando) then c == Omitida && SinCR(lineas[i]) == lineas[i]
            else if SinCR(lineas[i]) == lineas[i] then c.Fallida? || (c.Cargada? && c.clave == k)
            else MalCargada(c, k, t[k].valor)
  {
    var k := orden[i];
    var o :| OrdenDe(o, t[k].valor) && lineas[i] == Linea(k, t[k].Get(cuando(k)), t[k].vida, o);
    if SinCR(lineas[i]) == lineas[i] {
      CargaDeLinea(lineas, t, orden, cuando, i, ahora);
    } else {
      LineaRecortada(k, t[k], o, ahora);
    }
  }

  // ---- Which lines give what, when all goes well ----

  lemma {:induction false} NingunaFallida(lineas: seq<string>, n: nat, i: nat, ahora: nat)
    requires i < n <= |lineas| && Levantar(lineas[..n], ahora).Responde?
    ensures !CargarLinea(lineas[i], ahora).Fallida?
  {
    UnaLineaMas(lineas, n - 1, ahora);
    if i < n - 1 { NingunaFallida(lineas, n - 1, i, ahora); }
  }

  /** Every key of the loaded table was given by some line. */
  lemma {:induction false} AlgunaLaDio(lineas: seq<string>, n: nat, clave: string, ahora: nat) returns (j: nat)
    requires n <= |lineas| && Levantar(lineas[..n], ahora).Responde? && clave in Levantar(lineas[..n], ahora).valor
    ensures j < n && CargarLinea(lineas[j], ahora).Cargada? && CargarLinea(lineas[j], ahora).clave == clave
  {
    j := n - 1;
    UnaLineaMas(lineas, n - 1, ahora);
    var c := CargarLinea(lineas[n - 1], ahora);
    if !(c.Cargada? && c.clave == clave) { j := AlgunaLaDio(lineas, n - 1, clave, ahora); }
  }

  function MaxLargo(orden: seq<string>): nat
  {
    if orden == [] then 0
    else if |orden[0]| > MaxLargo(orden[1..]) then |orden[0]| else MaxLargo(orden[1..])
  }

  lemma {:induction false} EsMaxLargo(orden: seq<string>, i: nat)
    requires i < |orden|
    ensures |orden[i]| <= MaxLargo(orden)
  {
    if i > 0 { EsMaxLargo(orden[1..], i - 1); }
  }

  /** A line gives at most its own key, or the key without the CR that ended it, and only for an entry that was saved. */
  predicate Leida(c: Carga, clave: string, t: Tabla, cuando: string -> nat)
  {
    c.Cargada? ==> Guardable(t, clave, cuando) && (c.clave == clave || c.clave + [CR] == clave)
  }

  /** The lines as they are read, each of a key of its own. */
  ghost predicate Leidas(r: seq<string>, t: Tabla, orden: seq<string>, cuando: string -> nat, ahora: nat)
  {
    && |r| == |orden| && (forall i, j | 0 <= i < j < |orden| :: orden[i] != orden[j])
    && forall i | 0 <= i < |r| :: Leida(CargarLinea(r[i], ahora), orden[i], t, cuando)
  }

  lemma RecortadasSonLeidas(lineas: seq<string>, t: Tabla, orden: seq<string>, cuando: string -> nat, ahora: nat)
    requires Serializa(lineas, t, orden, cuando) && TablaSin(':', t, cuando)
    ensures Leidas(Recortadas(lineas), t, orden, cuando, ahora)
  {
    forall i | 0 <= i < |lineas| ensures Leida(CargarLinea(SinCR(lineas[i]), ahora), orden[i], t, cuando) {
      CargaRecortada(lineas, t, orden, cuando, i, ahora);
    }
  }

  /** The key of a line that gave something to a shorter one was given by a longer one. */
  lemma ClaveMasLarga(r: seq<string>, t: Tabla, orden: seq<string>, cuando: string -> nat, i: nat, ahora: nat)
    returns (j: nat)
    requires Leidas(r, t, orden, cuando, ahora) && i < |r|
    requires Levantar(r, ahora) == Responde(Esperada(t, cuando, ahora))
    requires var c := CargarLinea(r[i], ahora); c.Cargada? && c.clave != orden[i]
    ensures j < |r| && orden[j] == orden[i] + [CR]
    ensures var c := CargarLinea(r[j], ahora); c.Cargada? && c.clave != orden[j]
  {
    assert r[..|r|] == r;
    assert Leida(CargarLinea(r[i], ahora), orden[i], t, cuando);
    assert orden[i] in Esperada(t, cuando, ahora);
    j := AlgunaLaDio(r, |r|, orden[i], ahora);
    assert Leida(CargarLinea(r[j], ahora), orden[j], t, cuando);
  }

  /** When the file gives the table back, no key was cut: the cut key would have to be given by a longer one that was
      cut in turn, and there is a longest. */
  lemma {:induction false} NingunaClaveCortada(r: seq<string>, t: Tabla, orden: seq<string>, cuando: string -> nat,
                                               i: nat, ahora: nat)
    requires Leidas(r, t, orden, cuando, ahora) && i < |r|
    requires Levantar(r, ahora) == Responde(Esperada(t, cuando, ahora))
    ensures var c := CargarLinea(r[i], ahora); c.Cargada? ==> c.clave == orden[i]
    decreases MaxLargo(orden) - |orden[i]|
  {
    var c := CargarLinea(r[i], ahora);
    if c.Cargada? && c.clave != orden[i] {
      var j := ClaveMasLarga(r, t, orden, cuando, i, ahora);
      EsMaxLargo(orden, j);
      NingunaClaveCortada(r, t, orden, cuando, j, ahora);
    }
  }

  /** So what a line gives to its own key stays there. */
  lemma LoPropioQueda(r: seq<string>, t: Tabla, orden: seq<string>, cuando: string -> nat, i: nat, ahora: nat)
    requires Leidas(r, t, orden, cuando, ahora) && i < |r|
    requires Levantar(r, ahora) == Responde(Esperada(t, cuando, ahora)) && CargarLinea(r[i], ahora).Cargada?
    ensures CargarLinea(r[i], ahora).clave == orden[i]
    ensures Tiene(Levantar(r, ahora), orden[i], CargarLinea(r[i], ahora))
  {
    NingunaClaveCortada(r, t, orden, cuando, i, ahora);
    forall j | i < j < |r| ensures CargarLinea(r[j], ahora).Cargada? ==> CargarLinea(r[j], ahora).clave != orden[i] {
      NingunaClaveCortada(r, t, orden, cuando, j, ahora);
    }
    Queda(r, i, |r|, orden[i], ahora);
    assert r[..|r|] == r;
  }

  /** A line that ends in CR keeps the table from coming back, whatever the other lines are. */
  lemma CRFinalImpide(lineas: seq<string>, t: Tabla, orden: seq<string>, cuando: string -> nat, ahora: nat)
    requires Serializa(lineas, t, orden, cuando) && TablaSin(':', t, cuando) && SinLF(lineas) && !SinCRFinal(lineas)
    ensures Levantar(Lineas(Texto(lineas)), ahora) != Responde(Esperada(t, cuando, ahora))
  {
    LineasDeTexto(lineas);
    var l :| l in lineas && SinCR(l) != l;
    var i :| 0 <= i < |lineas| && lineas[i] == l;
    CargaRecortada(lineas, t, orden, cuando, i, ahora);
    RecortadasSonLeidas(lineas, t, orden, cuando, ahora);
    OtroValor(Recortadas(lineas), t, orden, cuando, i, ahora);
  }

  lemma OtroValor(r: seq<string>, t: Tabla, orden: seq<string>, cuando: string -> nat, i: nat, ahora: nat)
    requires Leidas(r, t, orden, cuando, ahora) && i < |r| && orden[i] in t
    requires MalCargada(CargarLinea(r[i], ahora), orden[i], t[orden[i]].valor)
    ensures Levantar(r, ahora) != Responde(Esperada(t, cuando, ahora))
  {
    if Levantar(r, ahora) == Responde(Esperada(t, cuando, ahora)) {
      var c := CargarLinea(r[i], ahora);
      assert r[..|r|] == r;
      NingunaFallida(r, |r|, i, ahora);
      LoPropioQueda(r, t, orden, cuando, i, ahora);
      TieneElSuyo(t, cuando, ahora, orden[i], c);
    }
  }

  lemma TieneElSuyo(t: Tabla, cuando: string -> nat, ahora: nat, k: string, c: Carga)
    requires k in t && Tiene(Responde(Esperada(t, cuando, ahora)), k, c)
    ensures c.Cargada? && c.entrada.valor == t[k].valor
  {
  }

  // ---- The round trip ----

  lemma SerializaSin(c: char, lineas: seq<string>, t: Tabla, orden: seq<string>, cuando: string -> nat)
    requires c == LF || c == CR
    requires Serializa(lineas, t, orden, cuando) && TablaSin(c, t, cuando)
    ensures forall l | l in lineas :: c !in l
  {
    forall i | 0 <= i < |lineas| ensures c !in lineas[i] {
      var k := orden[i];
      var o :| OrdenDe(o, t[k].valor) && lineas[i] == Linea(k, t[k].Get(cuando(k)), t[k].vida, o);
      if Guardable(t, k, cuando) { LineaSin(c, k, t[k], o); }
    }
  }

  /** Texts without CR leave no line that ends in one. */
  lemma SinCREnLaTabla(lineas: seq<string>, t: Tabla, orden: seq<string>, cuando: string -> nat)
    requires Serializa(lineas, t, orden, cuando) && TablaSin(CR, t, cuando)
    ensures SinCRFinal(lineas)
  {
    SerializaSin(CR, lineas, t, orden, cuando);
  }

  /** The condition under which a table survives its file. */
  predicate Sobrevive(lineas: seq<string>, t: Tabla, cuando: string -> nat)
  {
    TablaSin(':', t, cuando) && TablaSin(LF, t, cuando) && TablaRecuperable(t, cuando) && SinCRFinal(lineas)
  }

  /** Through the text of a file: the saved table comes back if and only if its texts hold no separator and no line feed,
      its entries are recoverable and no line ends in CR. */
  lemma TextoVuelve(lineas: seq<string>, t: Tabla, orden: seq<string>, cuando: string -> nat, ahora: nat)
    requires Serializa(lineas, t, orden, cuando)
    ensures Levantar(Lineas(Texto(lineas)), ahora) == Responde(Esperada(t, cuando, ahora)) <==> Sobrevive(lineas, t, cuando)
  {
    var leidas := Lineas(Texto(lineas));
    if Levantar(leidas, ahora) == Responde(Esperada(t, cuando, ahora)) {
      LineasSinLF(Texto(lineas));
      LevantarSin(LF, leidas, ahora);
      EsperadaSin(LF, t, cuando, ahora);
      LevantarSin(':', leidas, ahora);
      EsperadaSin(':', t, cuando, ahora);
    }
    if TablaSin(':', t, cuando) && TablaSin(LF, t, cuando) {
      SerializaSin(LF, lineas, t, orden, cuando);
      if SinCRFinal(lineas) {
        LineasDeTexto(lineas);
        RecortadasIguales(lineas);
        LevantarDeshaceGuardar(lineas, t, orden, cuando, ahora);
      } else {
        CRFinalImpide(lineas, t, orden, cuando, ahora);
      }
    }
  }

  /** Written over a text that was not longer. */
  lemma ArchivoVuelve(viejo: string, lineas: seq<string>, t: Tabla, orden: seq<string>, cuando: string -> nat, ahora: nat)
    requires Serializa(lineas, t, orden, cuando) && |viejo| <= |Texto(lineas)|
    ensures Levantar(Lineas(Sobrescribir(viejo, Texto(lineas))), ahora) == Responde(Esperada(t, cuando, ahora))
      <==> Sobrevive(lineas, t, cuando)
  {
    TextoVuelve(lineas, t, orden, cuando, ahora);
  }

  /** In terms of the table alone: texts without ':', CR and LF and recoverable entries survive. */
  lemma TextosLimpiosVuelven(viejo: string, lineas: seq<string>, t: Tabla, orden: seq<string>, cuando: string -> nat,
                             ahora: nat)
    requires Serializa(lineas, t, orden, cuando) && |viejo| <= |Texto(lineas)|
    requires TablaSin(':', t, cuando) && TablaSin(CR, t, cuando) && TablaSin(LF, t, cuando) && TablaRecuperable(t, cuando)
    ensures Levantar(Lineas(Sobrescribir(viejo, Texto(lineas))), ahora) == Responde(Esperada(t, cuando, ahora))
  {
    SinCREnLaTabla(lineas, t, orden, cuando);
    ArchivoVuelve(viejo, lineas, t, orden, cuando, ahora);
  }

  // ---- Over a longer text ----

  /** What stays of the old text behind the new one. */
  function Cola(viejo: string, nuevo: string): string
  {
    if |viejo| <= |nuevo| then "" else viejo[|nuevo|..]
  }

  /** A leftover that loads, and only to entries that the table has anyway. */
  predicate Inofensiva(cola: Salida<Tabla>, t: Tabla)
  {
    cola.Responde? && forall k | k in cola.valor :: k in t && t[k] == cola.valor[k]
  }

  /** What was loaded is the table, but for what the leftover sets right. */
  predicate Completan(nuevo: Salida<Tabla>, cola: Salida<Tabla>, t: Tabla)
  {
    nuevo.Responde? && cola.Responde? && nuevo.valor - cola.valor.Keys == t - cola.valor.Keys
  }

  lemma UnionIgual(s: Tabla, u: Tabla, t: Tabla)
    ensures s + u == t <==> Inofensiva(Responde(u), t) && s - u.Keys == t - u.Keys
  {
    if s + u == t {
      forall k | k in u ensures k in t && t[k] == u[k] { assert k in s + u && (s + u)[k] == u[k]; }
      forall k | k !in u ensures (k in s <==> k in t) && (k in s ==> s[k] == t[k]) { assert k in s <==> k in s + u; }
    }
    if Inofensiva(Responde(u), t) && s - u.Keys == t - u.Keys { UnionCompleta(s, u, t); }
  }

  lemma UnionCompleta(s: Tabla, u: Tabla, t: Tabla)
    requires Inofensiva(Responde(u), t) && s - u.Keys == t - u.Keys
    ensures s + u == t
  {
    forall k ensures (k in s + u <==> k in t) && (k in t ==> (s + u)[k] == t[k]) {
      if k !in u {
        assert (k in s - u.Keys <==> k in s) && (k in t - u.Keys <==> k in t);
        assert k in s ==> (s - u.Keys)[k] == s[k] && (t - u.Keys)[k] == t[k];
      }
    }
  }

  /** Whatever the file held: the lines written and the lines left over are loaded one after the other. */
  lemma SeMezclan(viejo: string, lineas: seq<string>, ahora: nat)
    ensures Levantar(Lineas(Sobrescribir(viejo, Texto(lineas))), ahora)
         == match (Levantar(Lineas(Texto(lineas)), ahora), Levantar(Lineas(Cola(viejo, Texto(lineas))), ahora))
            case (Responde(s), Responde(u)) => Responde(s + u)
            case _ => Panico
  {
    var nuevo, cola := Texto(lineas), Cola(viejo, Texto(lineas));
    assert Sobrescribir(viejo, nuevo) == nuevo + cola;
    TextoTerminado(lineas);
    LineasConcatena(nuevo, cola);
    LevantarConcatena(Lineas(nuevo), Lineas(cola), ahora);
  }

  /** Over a file with any contents: the table comes back exactly when the leftover loads to nothing but entries of it,
      and the new lines to all its other entries and no others. For a table that survives its file, the first is enough. */
  lemma ArchivoConCola(viejo: string, lineas: seq<string>, t: Tabla, orden: seq<string>, cuando: string -> nat, ahora: nat)
    requires Serializa(lineas, t, orden, cuando)
    ensures var nuevo, cola := Levantar(Lineas(Texto(lineas)), ahora), Levantar(Lineas(Cola(viejo, Texto(lineas))), ahora);
            var e := Esperada(t, cuando, ahora);
            && (Levantar(Lineas(Sobrescribir(viejo, Texto(lineas))), ahora) == Responde(e)
                <==> Inofensiva(cola, e) && Completan(nuevo, cola, e))
            && (Sobrevive(lineas, t, cuando) ==>
                  (Levantar(Lineas(Sobrescribir(viejo, Texto(lineas))), ahora) == Responde(e) <==> Inofensiva(cola, e)))
  {
    SeMezclan(viejo, lineas, ahora);
    TextoVuelve(lineas, t, orden, cuando, ahora);
    match (Levantar(Lineas(Texto(lineas)), ahora), Levantar(Lineas(Cola(viejo, Texto(lineas))), ahora))
    case (Responde(s), Responde(u)) => UnionIgual(s, u, Esperada(t, cuando, ahora));
    case _ =>
  }

  lemma {:induction false} TextoConcatena(a: seq<string>, b: seq<string>)
    ensures Texto(a + b) == Texto(a) + Texto(b)
  {
    if a == [] {
      assert a + b == b;
    } else {
      assert (a + b)[1..] == a[1..] + b;
      TextoConcatena(a[1..], b);
    }
  }

  /** Without truncation deleting does not last: when the entries deleted were the last ones of the file, every key that
      their lines give is still there after loading, with its old entry. */
  lemma BorradoNoPersiste(lineas: seq<string>, borradas: seq<string>, ahora: nat, clave: string)
    requires Levantar(Lineas(Texto(lineas)), ahora).Responde? && Levantar(Lineas(Texto(borradas)), ahora).Responde?
    requires clave in Levantar(Lineas(Texto(borradas)), ahora).valor
    ensures var r := Levantar(Lineas(Sobrescribir(Texto(lineas + borradas), Texto(lineas))), ahora);
            && r.Responde? && clave in r.valor
            && r.valor[clave] == Levantar(Lineas(Texto(borradas)), ahora).valor[clave]
  {
    TextoConcatena(lineas, borradas);
    assert Cola(Texto(lineas + borradas), Texto(lineas)) == Texto(borradas);
    SeMezclan(Texto(lineas + borradas), lineas, ahora);
  }
}
