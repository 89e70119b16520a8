/** What the HTTP parser answers to requests that are not a POST with a command. */
module OtrosPedidos {
  import opened Basicos
  import opened Cadenas
  import opened Parser
  import opened Http

  /** Any method but POST: whatever follows the headers, there is no command. */
  lemma OtroMetodo(p: Pedido, cuerpo: string)
    requires CabezaBuena(p) && p.metodo[0] != "POST" && p.comando == [] && |EscribirCon(p, cuerpo)| <= 5000
    ensures Leer(EscribirCon(p, cuerpo)) == Responde(Ok(p))
  {
    var resto := Partir(cuerpo + Ceros(TAMANIO - |EscribirCon(p, cuerpo)|) + CRLF, CRLF);
    RenglonesDelPedido(p, cuerpo);
    LeerEncabezado(p, resto);
  }

  lemma PrimeraPieza(s: string)
    ensures Partir(s, "=")[0] == "comando" <==> s == "comando" || "comando=" <= s
    ensures |Partir(s, "=")| == 1 <==> '=' !in s
  {
    if '=' !in s {
      UnicaPieza(s);
      NoEsPrefijo("comando=", s, '=');
    } else {
      var resto := PiezaYResto(s);
      if Partir(s, "=")[0] == "comando" { ConIgual(s, Partir(s, "=")[0], resto); }
      if "comando=" <= s { PiezaDelComando(s); }
    }
  }

  lemma UnicaPieza(s: string)
    requires '=' !in s
    ensures Partir(s, "=") == [s]
  {
    LibreDeCaracter(s, '=');
    PartirSinSeparador(s, "=");
  }

  lemma NoEsPrefijo(p: string, s: string, c: char)
    requires c in p && c !in s
    ensures !(p <= s)
  {
  }

  lemma ConIgual(s: string, pieza: string, resto: string)
    requires s == pieza + "=" + resto && pieza == "comando"
    ensures "comando=" <= s
  {
    assert pieza + "=" == "comando=";
  }

  lemma PiezaYResto(s: string) returns (resto: string)
    requires '=' in s
    ensures |Partir(s, "=")| > 1 && s == Partir(s, "=")[0] + "=" + resto
  {
    var partes := Partir(s, "=");
    UnirPartir(s, "=");
    PartirSinCaracter(s, '=', '=');
    assert partes[0] in partes;
    resto := Unir(partes[1..], "=");
  }

  lemma PiezaDelComando(s: string)
    requires "comando=" <= s
    ensures Partir(s, "=")[0] == "comando"
  {
    LibreDeCaracter("comando", '=');
    assert "comando" + "=" == "comando=";
    assert s == "comando=" + s[8..];
    PartirPrimera("comando", "=", s[8..]);
  }

  lemma ComandoMalo(linea: string, resto: seq<string>)
    ensures var cuerpo, r := SinNulos(linea), ObtenerComandoRedis([linea] + resto, "POST");
            && (cuerpo == "comando" ==> r == Panico)
            && (cuerpo != "comando" && !("comando=" <= cuerpo) ==> r == Responde(Err(RedisSyntaxError)))
  {
    PrimeraPieza(SinNulos(linea));
    assert ([linea] + resto)[0] == linea;
    assert '=' !in "comando";
  }

  /** A POST whose body is one line without zeros: it panics when the line is just the name of the field, and is a syntax
      error when the line does not begin with that name and an equals sign. */
  lemma CuerpoMalo(p: Pedido, cuerpo: string)
    requires CabezaBuena(p) && EsPost(p) && |EscribirCon(p, cuerpo)| <= 5000
    requires SinPar(cuerpo, CR, LF) && NUL !in cuerpo
    ensures cuerpo == "comando" ==> Leer(EscribirCon(p, cuerpo)) == Panico
    ensures cuerpo != "comando" && !("comando=" <= cuerpo) ==>
              Leer(EscribirCon(p, cuerpo)) == Responde(Err(RedisSyntaxError))
  {
    var n := TAMANIO - |EscribirCon(p, cuerpo)|;
    var linea := cuerpo + Ceros(n);
    RenglonesDelPedido(p, cuerpo);
    ConRelleno(cuerpo, n);
    SinNulosIgual(cuerpo);
    UnaLinea(linea);
    LeerEncabezado(p, [linea] + [""]);
    ComandoMalo(linea, [""]);
  }

  /** The lines of a text that fits: those before, each ended, and those of the rest with the padding. */
  lemma RenglonesTras(lineas: seq<string>, resto: string)
    requires TodasSinPar(lineas, CR, LF) && |Terminadas(lineas) + resto| <= 5000
    ensures Renglones(Terminadas(lineas) + resto)
         == lineas + Partir(resto + Ceros(TAMANIO - |Terminadas(lineas) + resto|) + CRLF, CRLF)
  {
    var relleno := Ceros(TAMANIO - |Terminadas(lineas) + resto|);
    assert Buffer(Terminadas(lineas) + resto) == Terminadas(lineas) + resto + relleno;
    Asociar(Terminadas(lineas), resto, relleno);
    Asociar(Terminadas(lineas), resto + relleno, CRLF);
    PartirTerminadas(lineas, resto + relleno + CRLF);
  }

  /** A request line that is not of three parts is refused. */
  lemma LineaDeMetodoMala(linea: string, resto: string)
    requires SinPar(linea, CR, LF) && |Partir(linea, " ")| != 3 && |Terminadas([linea]) + resto| <= 5000
    ensures Leer(Terminadas([linea]) + resto) == Responde(Err(MensajeVacioError))
  {
    RenglonesTras([linea], resto);
  }

  lemma {:induction false} LeerHastaElMalo(campos: seq<string>, mala: string, resto: seq<string>, antes: seq<string>)
    requires CamposBuenos(campos) && mala != "" && |Partir(mala, ": ")| != 2
    ensures LeerHeaders(LineasDeHeaders(campos) + ([mala] + resto), antes) == Responde(Err(MensajeVacioError))
    decreases |campos|
  {
    if campos == [] {
      assert [] + ([mala] + resto) == [mala] + resto;
    } else {
      var cola := LineasDeHeaders(campos[2..]);
      var linea := campos[0] + ": " + campos[1];
      LineaDeHeader(campos[0], campos[1]);
      LeerHastaElMalo(campos[2..], mala, resto, antes + [campos[0], campos[1]]);
      assert ([linea] + cola + ([mala] + resto))[1..] == cola + ([mala] + resto);
    }
  }

  lemma LineasMalas(p: Pedido, mala: string, cola: seq<string>)
    requires CabezaBuena(p) && mala != "" && |Partir(mala, ": ")| != 2
    ensures LeerLineas([Unir(p.metodo, " ")] + (LineasDeHeaders(p.headers) + ([mala] + cola)))
         == Responde(Err(MensajeVacioError))
  {
    var resto := LineasDeHeaders(p.headers) + ([mala] + cola);
    var lineas := [Unir(p.metodo, " ")] + resto;
    assert lineas[0] == Unir(p.metodo, " ") && lineas[1..] == resto;
    LineaDeMetodo(p.metodo);
    LeerHastaElMalo(p.headers, mala, cola, []);
  }

  lemma LineasBuenas(p: Pedido, mala: string)
    requires CabezaBuena(p) && SinPar(mala, CR, LF)
    ensures TodasSinPar([Unir(p.metodo, " ")] + (LineasDeHeaders(p.headers) + [mala]), CR, LF)
  {
    LineaDeMetodo(p.metodo);
    LeerLineasDeHeaders(p.headers, [], []);
  }

  lemma Reagrupar(a: seq<string>, b: seq<string>, c: seq<string>, d: seq<string>)
    ensures a + (b + c) + d == a + (b + (c + d))
  {
  }

  /** A header line, before the empty one, that is not a name and a value is refused, whatever comes before and after. */
  lemma HeaderMalo(p: Pedido, mala: string, resto: string)
    requires CabezaBuena(p) && mala != "" && SinPar(mala, CR, LF) && |Partir(mala, ": ")| != 2
    requires |Terminadas([Unir(p.metodo, " ")] + (LineasDeHeaders(p.headers) + [mala])) + resto| <= 5000
    ensures Leer(Terminadas([Unir(p.metodo, " ")] + (LineasDeHeaders(p.headers) + [mala])) + resto)
         == Responde(Err(MensajeVacioError))
  {
    var lineas := [Unir(p.metodo, " ")] + (LineasDeHeaders(p.headers) + [mala]);
    var cola := Partir(resto + Ceros(TAMANIO - |Terminadas(lineas) + resto|) + CRLF, CRLF);
    LineasBuenas(p, mala);
    RenglonesTras(lineas, resto);
    Reagrupar([Unir(p.metodo, " ")], LineasDeHeaders(p.headers), [mala], cola);
    LineasMalas(p, mala, cola);
  }
}
