/** Requests in HTTP/1.1 syntax (RFC 7230, sections 3.1.1 and 3.2) whose POST body carries a command. */
module Http {
  import opened Basicos
  import opened Cadenas
  import opened ComandoInfo
  import opened Parser

  const TAMANIO: nat := 5000
  const NUL := '\0'

  function Ceros(n: nat): string { seq(n, _ => NUL) }

  /** One read into a zeroed buffer of fixed size: what does not fit is not seen. */
  function Buffer(datos: string): string
  {
    if |datos| < TAMANIO then datos + Ceros(TAMANIO - |datos|) else datos[..TAMANIO]
  }

  /** `replace("\0", "")`. */
  function SinNulos(s: string): string
  {
    if s == "" then "" else (if s[0] == NUL then "" else [s[0]]) + SinNulos(s[1..])
  }

  /** The header fields, name and value in turn, and the lines after the empty one that ends them. */
  datatype Headers = Headers(campos: seq<string>, resto: seq<string>)

  datatype Pedido = Pedido(metodo: seq<string>, headers: seq<string>, comando: seq<string>)

  function ObtenerMetodo(linea: string): Parseo<seq<string>>
  {
    var metodo := Partir(linea, " ");
    if |metodo| != 3 then Err(MensajeVacioError) else Ok(metodo)
  }

  /** What the loop makes of the remaining lines. Draining one line more than there are is a panic. */
  function LeerHeaders(lineas: seq<string>, headers: seq<string>): Salida<Parseo<Headers>>
    decreases |lineas|
  {
    if lineas == [] then Panico
    else if lineas[0] == "" then Responde(Ok(Headers(headers, lineas[1..])))
    else
      var header := Partir(lineas[0], ": ");
      if |header| != 2 then Responde(Err(MensajeVacioError)) else LeerHeaders(lineas[1..], headers + header)
  }

  method ObtenerHeaders(lineas: seq<string>) returns (r: Salida<Parseo<Headers>>)
    ensures r == LeerHeaders(lineas, [])
  {
    var headers: seq<string> := [];
    var index := 0;
    while index < |lineas| && lineas[index] != ""
      invariant 0 <= index <= |lineas|
      invariant LeerHeaders(lineas, []) == LeerHeaders(lineas[index..], headers)
    {
      var header := Partir(lineas[index], ": ");
      if |header| != 2 { return Responde(Err(MensajeVacioError)); }
      headers := headers + header;
      index := index + 1;
    }
    if index + 1 > |lineas| { return Panico; }
    r := Responde(Ok(Headers(headers, lineas[index + 1..])));
  }

  /** A POST without a line after the headers, or without an equals sign in it, is an index out of range. */
  function ObtenerComandoRedis(lineas: seq<string>, metodo: string): Salida<Parseo<seq<string>>>
  {
    if metodo != "POST" then Responde(Ok([]))
    else if lineas == [] then Panico
    else
      var comando := Partir(SinNulos(lineas[0]), "=");
      if comando[0] != "comando" then Responde(Err(RedisSyntaxError))
      else if |comando| < 2 then Panico
      else Responde(Ok(Partir(comando[1], "+")))
  }

  function LeerLineas(lineas: seq<string>): Salida<Parseo<Pedido>>
    requires lineas != []
  {
    match ObtenerMetodo(lineas[0])
    case Err(e) => Responde(Err(e))
    case Ok(metodo) =>
      match LeerHeaders(lineas[1..], [])
      case Panico => Panico
      case Responde(Err(e)) => Responde(Err(e))
      case Responde(Ok(h)) =>
        match ObtenerComandoRedis(h.resto, metodo[0])
        case Panico => Panico
        case Responde(Err(e)) => Responde(Err(e))
        case Responde(Ok(comando)) => Responde(Ok(Pedido(metodo, h.campos, comando)))
  }

  function Renglones(datos: string): (lineas: seq<string>)
    ensures lineas != []
  {
    Partir(Buffer(datos) + CRLF, CRLF)
  }

  function Leer(datos: string): Salida<Parseo<Pedido>> { LeerLineas(Renglones(datos)) }

  datatype ComandoHttp =
    ComandoHttp(metodo: string, args: seq<string>, headers: seq<string>, comandoRedis: Option<ComandoInfo>)

  ghost predicate EsPedido(c: ComandoHttp, p: Pedido)
    reads if c.comandoRedis.Some? then {c.comandoRedis.value} else {}
  {
    && p.metodo != [] && c.metodo == p.metodo[0] && c.args == p.metodo[1..] && c.headers == p.headers
    && if p.comando == [] then c.comandoRedis == None
       else c.comandoRedis.Some? && EsComando(c.comandoRedis.value, p.comando)
  }

  method ParsearStream(datos: string) returns (r: Salida<Parseo<ComandoHttp>>)
    ensures match r
            case Panico => Leer(datos) == Panico
            case Responde(Err(e)) => Leer(datos) == Responde(Err(e))
            case Responde(Ok(c)) =>
              Leer(datos).Responde? && Leer(datos).valor.Ok? && EsPedido(c, Leer(datos).valor.valor)
  {
    var lineas := Renglones(datos);
    var primera := ObtenerMetodo(lineas[0]);
    if primera.Err? { return Responde(Err(primera.error)); }
    var metodo := primera.valor;
    var headers := ObtenerHeaders(lineas[1..]);
    if headers == Panico { return Panico; }
    if headers.valor.Err? { return Responde(Err(headers.valor.error)); }
    var h := headers.valor.valor;
    var comando := ObtenerComandoRedis(h.resto, metodo[0]);
    if comando == Panico { return Panico; }
    if comando.valor.Err? { return Responde(Err(comando.valor.error)); }
    var partes := comando.valor.valor;
    if partes == [] { return Responde(Ok(ComandoHttp(metodo[0], metodo[1..], h.campos, None))); }
    var c := new ComandoInfo(partes);
    r := Responde(Ok(ComandoHttp(metodo[0], metodo[1..], h.campos, Some(c))));
  }

  // ---- The text of a request ----

  /** Each line followed by its end. */
  function Terminadas(lineas: seq<string>): string
  {
    if lineas == [] then "" else lineas[0] + CRLF + Terminadas(lineas[1..])
  }

  function LineasDeHeaders(campos: seq<string>): seq<string>
  {
    if |campos| < 2 then [] else [campos[0] + ": " + campos[1]] + LineasDeHeaders(campos[2..])
  }

  function Cuerpo(comando: seq<string>): string { "comando=" + Unir(comando, "+") }

  function Encabezado(p: Pedido): seq<string>
  {
    [Unir(p.metodo, " ")] + (LineasDeHeaders(p.headers) + [""])
  }

  /** The head of a request before a body that may not be the plain one. */
  function EscribirCon(p: Pedido, cuerpo: string): string { Terminadas(Encabezado(p)) + cuerpo }

  function Escribir(p: Pedido): string { EscribirCon(p, Cuerpo(p.comando)) }

  predicate EsPost(p: Pedido) { p.metodo != [] && p.metodo[0] == "POST" }

  predicate CampoBueno(c: string) { SinPar(c, ':', ' ') && SinPar(c, CR, LF) }

  predicate ParteBuena(m: string) { ' ' !in m && SinPar(m, CR, LF) }

  predicate PiezaBuena(a: string) { '+' !in a && '=' !in a && NUL !in a }

  /** A request line of three parts and header fields, none of which holds its own separators. */
  predicate CabezaBuena(p: Pedido)
  {
    && |p.metodo| == 3 && (forall m | m in p.metodo :: ParteBuena(m))
    && |p.headers| % 2 == 0 && (forall c | c in p.headers :: CampoBueno(c))
  }

  /** A POST whose fields hold none of their own separators. */
  predicate BienFormado(p: Pedido)
  {
    CabezaBuena(p) && EsPost(p) && p.comando != [] && (forall a | a in p.comando :: PiezaBuena(a))
  }

  // ---- Reading the text of a request back ----

  lemma {:induction false} PartirTerminadas(lineas: seq<string>, resto: string)
    requires TodasSinPar(lineas, CR, LF)
    ensures Partir(Terminadas(lineas) + resto, CRLF) == lineas + Partir(resto, CRLF)
  {
    if lineas == [] {
      assert Terminadas(lineas) + resto == resto;
    } else {
      PartirTerminadas(lineas[1..], resto);
      PartirUnaTerminada(lineas[0], Terminadas(lineas[1..]), resto);
      CabezaYCola(lineas, Partir(resto, CRLF));
    }
  }

  lemma PartirUnaTerminada(l: string, cola: string, resto: string)
    requires SinPar(l, CR, LF)
    ensures Partir(l + CRLF + cola + resto, CRLF) == [l] + Partir(cola + resto, CRLF)
  {
    LibreDePar(l, CR, LF);
    Asociar(l + CRLF, cola, resto);
    PartirPrimera(l, CRLF, cola + resto);
  }

  lemma LineaDeHeader(n: string, v: string)
    requires CampoBueno(n) && CampoBueno(v)
    ensures Partir(n + ": " + v, ": ") == [n, v] && SinPar(n + ": " + v, CR, LF) && n + ": " + v != ""
  {
    LibreDePar(n, ':', ' ');
    LibreDePar(v, ':', ' ');
    PartirPrimera(n, ": ", v);
    PartirSinSeparador(v, ": ");
    SinParConcat("", ' ', v, CR, LF);
    assert "" + [' '] + v == [' '] + v;
    SinParConcat(n, ':', [' '] + v, CR, LF);
    assert n + [':'] + ([' '] + v) == n + ": " + v;
  }

  predicate CamposBuenos(campos: seq<string>) { |campos| % 2 == 0 && forall c | c in campos :: CampoBueno(c) }

  lemma {:induction false} LeerLineasDeHeaders(campos: seq<string>, resto: seq<string>, antes: seq<string>)
    requires CamposBuenos(campos)
    ensures TodasSinPar(LineasDeHeaders(campos), CR, LF)
    ensures LeerHeaders(LineasDeHeaders(campos) + [""] + resto, antes) == Responde(Ok(Headers(antes + campos, resto)))
    decreases |campos|
  {
    if campos == [] {
      assert ([""] + resto)[1..] == resto;
      assert [] + [""] + resto == [""] + resto;
      assert antes + [] == antes;
    } else {
      var cola := LineasDeHeaders(campos[2..]);
      LineaDeHeader(campos[0], campos[1]);
      LeerLineasDeHeaders(campos[2..], resto, antes + [campos[0], campos[1]]);
      var linea := campos[0] + ": " + campos[1];
      assert ([linea] + cola + [""] + resto)[1..] == cola + [""] + resto;
      assert antes + [campos[0], campos[1]] + campos[2..] == antes + campos;
    }
  }

  lemma {:induction false} SinNulosConcat(a: string, b: string)
    ensures SinNulos(a + b) == SinNulos(a) + SinNulos(b)
  {
    if a == "" {
      assert a + b == b;
    } else {
      assert (a + b)[1..] == a[1..] + b;
      SinNulosConcat(a[1..], b);
    }
  }

  lemma {:induction false} SinNulosIgual(s: string)
    requires NUL !in s
    ensures SinNulos(s) == s
  {
    if s != "" { SinNulosIgual(s[1..]); }
  }

  lemma {:induction false} SinNulosDeCeros(n: nat)
    ensures SinNulos(Ceros(n)) == ""
  {
    if n > 0 {
      assert Ceros(n)[1..] == Ceros(n - 1);
      SinNulosDeCeros(n - 1);
    }
  }

  /** Only what is left without the zeros counts. */
  lemma ComandoDeLinea(linea: string, comando: seq<string>, resto: seq<string>)
    requires comando != [] && forall a | a in comando :: PiezaBuena(a)
    requires SinNulos(linea) == Cuerpo(comando)
    ensures ObtenerComandoRedis([linea] + resto, "POST") == Responde(Ok(comando))
  {
    var args := Unir(comando, "+");
    UnirSinCaracter(comando, "+", '=');
    LibreDeCaracter("comando", '=');
    LibreDeCaracter(args, '=');
    assert Cuerpo(comando) == "comando" + "=" + args;
    PartirPrimera("comando", "=", args);
    PartirSinSeparador(args, "=");
    forall a | a in comando ensures Libre(a, "+") { LibreDeCaracter(a, '+'); }
    PartirUnir(comando, "+");
  }

  lemma CuerpoSinNulos(comando: seq<string>)
    requires forall a | a in comando :: PiezaBuena(a)
    ensures NUL !in Cuerpo(comando) && SinNulos(Cuerpo(comando)) == Cuerpo(comando)
  {
    UnirSinCaracter(comando, "+", NUL);
    SinNulosIgual(Cuerpo(comando));
  }

  lemma ConRelleno(cuerpo: string, n: nat)
    requires SinPar(cuerpo, CR, LF)
    ensures SinNulos(cuerpo + Ceros(n)) == SinNulos(cuerpo) && SinPar(cuerpo + Ceros(n), CR, LF)
  {
    SinNulosConcat(cuerpo, Ceros(n));
    SinNulosDeCeros(n);
    if n > 0 {
      SinParConcat(cuerpo, NUL, Ceros(n - 1), CR, LF);
      assert cuerpo + [NUL] + Ceros(n - 1) == cuerpo + Ceros(n);
    } else {
      assert cuerpo + Ceros(n) == cuerpo;
    }
  }

  lemma CuerpoSinPar(comando: seq<string>)
    ensures SinPar(Cuerpo(comando), CR, LF) <==> TodasSinPar(comando, CR, LF)
  {
    var args := Unir(comando, "+");
    UnirSinPar(comando, '+', CR, LF);
    SinParConcat("comando", '=', args, CR, LF);
    assert Cuerpo(comando) == "comando" + ['='] + args;
  }

  lemma LineaDeMetodo(metodo: seq<string>)
    requires metodo != [] && forall m | m in metodo :: ParteBuena(m)
    ensures Partir(Unir(metodo, " "), " ") == metodo && SinPar(Unir(metodo, " "), CR, LF)
  {
    UnirSinPar(metodo, ' ', CR, LF);
    forall m | m in metodo ensures Libre(m, " ") { LibreDeCaracter(m, ' '); }
    PartirUnir(metodo, " ");
  }

  /** The lines that the parser sees, when the request fits. */
  lemma RenglonesDelPedido(p: Pedido, cuerpo: string)
    requires CabezaBuena(p) && |EscribirCon(p, cuerpo)| <= TAMANIO
    ensures var relleno := Ceros(TAMANIO - |EscribirCon(p, cuerpo)|);
            Renglones(EscribirCon(p, cuerpo)) == Encabezado(p) + Partir(cuerpo + relleno + CRLF, CRLF)
  {
    var relleno := Ceros(TAMANIO - |EscribirCon(p, cuerpo)|);
    var e := Terminadas(Encabezado(p));
    assert Buffer(EscribirCon(p, cuerpo)) == e + cuerpo + relleno;
    assert e + cuerpo + relleno + CRLF == e + (cuerpo + relleno + CRLF);
    LineaDeMetodo(p.metodo);
    LeerLineasDeHeaders(p.headers, [], []);
    assert TodasSinPar(Encabezado(p), CR, LF);
    PartirTerminadas(Encabezado(p), cuerpo + relleno + CRLF);
  }

  /** The request line and the headers come back whatever follows them. */
  lemma LeerEncabezado(p: Pedido, resto: seq<string>)
    requires CabezaBuena(p)
    ensures LeerLineas(Encabezado(p) + resto)
      == match ObtenerComandoRedis(resto, p.metodo[0])
         case Panico => Panico
         case Responde(Err(e)) => Responde(Err(e))
         case Responde(Ok(comando)) => Responde(Ok(p.(comando := comando)))
  {
    LineaDeMetodo(p.metodo);
    LeerLineasDeHeaders(p.headers, resto, []);
    assert (Encabezado(p) + resto)[1..] == LineasDeHeaders(p.headers) + [""] + resto;
    assert [] + p.headers == p.headers;
  }

  lemma UnaLinea(linea: string)
    requires SinPar(linea, CR, LF)
    ensures Partir(linea + CRLF, CRLF) == [linea] + [""]
  {
    LibreDePar(linea, CR, LF);
    PartirPrimera(linea, CRLF, "");
    assert linea + CRLF + "" == linea + CRLF;
  }

  /** Any body that is one line and gives the command once its zeros are taken out. */
  lemma IdaYVueltaCon(p: Pedido, cuerpo: string)
    requires BienFormado(p) && |EscribirCon(p, cuerpo)| <= TAMANIO
    requires SinPar(cuerpo, CR, LF) && SinNulos(cuerpo) == Cuerpo(p.comando)
    ensures Leer(EscribirCon(p, cuerpo)) == Responde(Ok(p))
  {
    var n := TAMANIO - |EscribirCon(p, cuerpo)|;
    var linea := cuerpo + Ceros(n);
    RenglonesDelPedido(p, cuerpo);
    ConRelleno(cuerpo, n);
    UnaLinea(linea);
    ComandoDeLinea(linea, p.comando, [""]);
    LeerEncabezado(p, [linea] + [""]);
  }

  lemma IdaYVuelta(p: Pedido)
    requires BienFormado(p) && TodasSinPar(p.comando, CR, LF) && |Escribir(p)| <= TAMANIO
    ensures Leer(Escribir(p)) == Responde(Ok(p))
  {
    CuerpoSinPar(p.comando);
    CuerpoSinNulos(p.comando);
    IdaYVueltaCon(p, Cuerpo(p.comando));
  }

  // ---- What can come out of the parser at all ----

  /** The parser keeps every line of the headers. */
  lemma {:induction false} HeadersLeidos(lineas: seq<string>, antes: seq<string>, h: Headers) returns (campos: seq<string>)
    requires LeerHeaders(lineas, antes) == Responde(Ok(h)) && TodasSinPar(lineas, CR, LF)
    ensures h.campos == antes + campos && CamposBuenos(campos)
    ensures lineas == LineasDeHeaders(campos) + ([""] + h.resto)
    decreases |lineas|
  {
    if lineas[0] == "" {
      campos := SinHeaders(lineas, antes);
    } else {
      var par := UnHeader(lineas, antes, h);
      var cola := HeadersLeidos(lineas[1..], antes + par, h);
      campos := par + cola;
      Asociar(antes, par, cola);
      LineasDelPar(lineas[0], par, cola);
      PrimeraDeTodas(lineas, LineasDeHeaders(cola), [""] + h.resto);
    }
  }

  lemma SinHeaders(lineas: seq<string>, antes: seq<string>) returns (campos: seq<string>)
    requires lineas != [] && lineas[0] == ""
    ensures campos == [] && antes == antes + campos && lineas == LineasDeHeaders(campos) + ([""] + lineas[1..])
  {
    campos := [];
  }

  /** One turn of the loop over a line that is not empty. */
  lemma UnHeader(lineas: seq<string>, antes: seq<string>, h: Headers) returns (par: seq<string>)
    requires LeerHeaders(lineas, antes) == Responde(Ok(h)) && TodasSinPar(lineas, CR, LF) && lineas[0] != ""
    ensures LeerHeaders(lineas[1..], antes + par) == Responde(Ok(h)) && TodasSinPar(lineas[1..], CR, LF)
    ensures |par| == 2 && CamposBuenos(par) && lineas[0] == par[0] + ": " + par[1]
  {
    par := Partir(lineas[0], ": ");
    ParLeido(lineas[0], par);
  }

  lemma PrimeraDeTodas(lineas: seq<string>, a: seq<string>, b: seq<string>)
    requires lineas != [] && lineas[1..] == a + b
    ensures lineas == [lineas[0]] + a + b
  {
  }

  lemma ParLeido(linea: string, par: seq<string>)
    requires SinPar(linea, CR, LF) && Partir(linea, ": ") == par && |par| == 2
    ensures CamposBuenos(par) && linea == par[0] + ": " + par[1]
  {
    UnirPartir(linea, ": ");
    PartirSinPar(linea, ": ", ':', ' ');
    PartirSinPar(linea, ": ", CR, LF);
    assert Unir(par[1..], ": ") == par[1];
  }

  lemma LineasDelPar(linea: string, par: seq<string>, cola: seq<string>)
    requires |par| == 2 && linea == par[0] + ": " + par[1] && CamposBuenos(par) && CamposBuenos(cola)
    ensures LineasDeHeaders(par + cola) == [linea] + LineasDeHeaders(cola) && CamposBuenos(par + cola)
  {
    assert (par + cola)[2..] == cola;
  }

  lemma {:induction false} UltimaVacia(s: string)
    ensures var r := Partir(s + CRLF, CRLF); |r| > 1 && r[|r| - 1] == ""
  {
    var t := s + CRLF;
    if s == "" {
      assert t == CRLF && Partir(t[2..], CRLF) == [""];
    } else if CRLF <= t {
      assert t[1] == LF && t[|s|] == CR;
      assert t[2..] == s[2..] + CRLF;
      UltimaVacia(s[2..]);
    } else {
      assert t[1..] == s[1..] + CRLF;
      UltimaVacia(s[1..]);
    }
  }

  /** The line break that is always added keeps the headers from running off the end. */
  lemma {:induction false} ElDrenajeNoFalla(lineas: seq<string>, antes: seq<string>)
    requires "" in lineas
    ensures LeerHeaders(lineas, antes) != Panico
    decreases |lineas|
  {
    if lineas[0] != "" {
      assert lineas == [lineas[0]] + lineas[1..];
      ElDrenajeNoFalla(lineas[1..], antes + Partir(lineas[0], ": "));
    }
  }

  lemma AntesDelNulo(x: string, s: string, n: nat)
    requires x <= s && NUL !in x && n < |s| && s[n] == NUL
    ensures |x| <= n
  {
  }

  /** The padding adds no prefix of its own. */
  lemma PrefijoDelBuffer(datos: string, x: string)
    requires NUL !in x && LF !in x && CR !in x && |x| <= TAMANIO && x <= Buffer(datos) + CRLF
    ensures x <= datos
  {
    var b := Buffer(datos);
    if |datos| < TAMANIO { AntesDelNulo(x, b + CRLF, |datos|); }
    assert b[..|x|] == (b + CRLF)[..|x|] == datos[..|x|];
  }

  /** Only a POST can panic. */
  lemma SoloPostFalla(datos: string)
    requires Leer(datos) == Panico
    ensures "POST " <= datos
  {
    var lineas := Renglones(datos);
    UltimaVacia(Buffer(datos));
    assert lineas[1..][|lineas| - 2] == "";
    ElDrenajeNoFalla(lineas[1..], []);
    var metodo := Partir(lineas[0], " ");
    UnirPartir(lineas[0], " ");
    assert metodo[0] == "POST" && Unir(metodo, " ") == "POST" + " " + Unir(metodo[1..], " ");
    assert "POST " <= lineas[0];
    PrimeraEsPrefijo(Buffer(datos) + CRLF, CRLF);
    PrefijoDelBuffer(datos, "POST ");
  }

  lemma MetodoLeido(linea: string, metodo: seq<string>)
    requires ObtenerMetodo(linea) == Ok(metodo) && SinPar(linea, CR, LF)
    ensures |metodo| == 3 && linea == Unir(metodo, " ") && forall m | m in metodo :: ParteBuena(m)
  {
    UnirPartir(linea, " ");
    PartirSinCaracter(linea, ' ', ' ');
    PartirSinPar(linea, " ", CR, LF);
    forall m | m in metodo ensures ParteBuena(m) { assert SinPar(m, CR, LF); }
  }

  lemma {:induction false} SinNulosQuita(s: string)
    ensures NUL !in SinNulos(s) && |SinNulos(s)| <= |s|
  {
    if s != "" { SinNulosQuita(s[1..]); }
  }

  lemma UnirPrefijo(partes: seq<string>, sep: string)
    requires partes != []
    ensures partes[0] <= Unir(partes, sep)
  {
  }

  lemma PiezasDe(pieza: string)
    requires '=' !in pieza && NUL !in pieza
    ensures Unir(Partir(pieza, "+"), "+") == pieza && forall a | a in Partir(pieza, "+") :: PiezaBuena(a)
  {
    UnirPartir(pieza, "+");
    PartirSinCaracter(pieza, '+', '+');
    PartirSinCaracter(pieza, '+', '=');
    PartirSinCaracter(pieza, '+', NUL);
  }

  /** A command that is read is where the line it was read from begins, but for the zeros. */
  lemma ComandoLeido(resto: seq<string>, comando: seq<string>)
    requires ObtenerComandoRedis(resto, "POST") == Responde(Ok(comando))
    ensures resto != [] && Cuerpo(comando) <= SinNulos(resto[0]) && |Cuerpo(comando)| <= |resto[0]|
    ensures comando != [] && forall a | a in comando :: PiezaBuena(a)
  {
    var linea := SinNulos(resto[0]);
    SinNulosQuita(resto[0]);
    var partes := Partir(linea, "=");
    PartirSinCaracter(linea, '=', '=');
    PartirSinCaracter(linea, '=', NUL);
    assert partes[1] in partes;
    PiezasDe(partes[1]);
    UnirPartir(linea, "=");
    UnirPrefijo(partes[1..], "=");
    DosPiezas(linea, partes);
  }

  lemma DosPiezas(linea: string, partes: seq<string>)
    requires |partes| > 1 && linea == Unir(partes, "=") && partes[0] == "comando" && partes[1] <= Unir(partes[1..], "=")
    ensures "comando=" + partes[1] <= linea
  {
    var inicio := partes[0] + "=";
    assert inicio == "comando=";
    PrefijoTras(inicio, partes[1], Unir(partes[1..], "="));
  }

  lemma PrefijoTras(a: string, b: string, c: string)
    requires b <= c
    ensures a + b <= a + c
  {
  }

  lemma {:induction false} TerminadasEsUnir(lineas: seq<string>)
    requires lineas != []
    ensures Terminadas(lineas) == Unir(lineas, CRLF) + CRLF
  {
    if |lineas| > 1 {
      TerminadasEsUnir(lineas[1..]);
      Asociar(lineas[0] + CRLF, Unir(lineas[1..], CRLF), CRLF);
    } else {
      assert Terminadas(lineas[1..]) == "";
    }
  }

  lemma {:induction false} TerminadasConcat(a: seq<string>, b: seq<string>)
    ensures Terminadas(a + b) == Terminadas(a) + Terminadas(b)
  {
    if a == [] {
      assert a + b == b;
    } else {
      assert (a + b)[1..] == a[1..] + b;
      TerminadasConcat(a[1..], b);
    }
  }

  lemma PartesLeidas(lineas: seq<string>, p: Pedido) returns (resto: seq<string>)
    requires lineas != [] && LeerLineas(lineas) == Responde(Ok(p))
    ensures ObtenerMetodo(lineas[0]) == Ok(p.metodo) && p.metodo != []
    ensures LeerHeaders(lineas[1..], []) == Responde(Ok(Headers(p.headers, resto)))
    ensures ObtenerComandoRedis(resto, p.metodo[0]) == Responde(Ok(p.comando))
  {
    resto := LeerHeaders(lineas[1..], []).valor.valor.resto;
  }

  lemma LineasDelEncabezado(lineas: seq<string>, p: Pedido, resto: seq<string>)
    requires lineas != [] && lineas[0] == Unir(p.metodo, " ")
    requires lineas[1..] == LineasDeHeaders(p.headers) + ([""] + resto)
    ensures lineas == Encabezado(p) + resto
  {
    var hs := LineasDeHeaders(p.headers);
    assert hs + ([""] + resto) == hs + [""] + resto;
    PrimeraDeTodas(lineas, hs + [""], resto);
  }

  /** What was read as a POST is made of exactly these lines. */
  lemma PedidoLeido(lineas: seq<string>, p: Pedido) returns (resto: seq<string>)
    requires lineas != [] && TodasSinPar(lineas, CR, LF)
    requires LeerLineas(lineas) == Responde(Ok(p)) && EsPost(p)
    ensures BienFormado(p) && lineas == Encabezado(p) + resto
    ensures resto != [] && SinPar(resto[0], CR, LF)
    ensures ObtenerComandoRedis(resto, "POST") == Responde(Ok(p.comando))
  {
    resto := PartesLeidas(lineas, p);
    MetodoLeido(lineas[0], p.metodo);
    var campos := HeadersLeidos(lineas[1..], [], Headers(p.headers, resto));
    assert [] + campos == campos;
    LineasDelEncabezado(lineas, p, resto);
    ComandoLeido(resto, p.comando);
    assert lineas[|Encabezado(p)|] == resto[0];
  }

  /** A zero byte put into each line break: the parser drops it, but only after cutting the lines. */
  function Romper(s: string): string
  {
    if |s| < 2 then s
    else if s[0] == CR && s[1] == LF then [CR, NUL] + Romper(s[1..])
    else [s[0]] + Romper(s[1..])
  }

  lemma {:induction false} RomperRompe(s: string)
    requires NUL !in s
    ensures SinPar(Romper(s), CR, LF) && SinNulos(Romper(s)) == s
    ensures s != "" ==> Romper(s) != "" && Romper(s)[0] == s[0]
  {
    if |s| < 2 {
      SinNulosIgual(s);
    } else {
      RomperRompe(s[1..]);
      var resto := Romper(s[1..]);
      assert s == [s[0]] + s[1..];
      if s[0] == CR && s[1] == LF {
        CRNulo(resto);
      } else {
        UnoDelante(s[0], resto);
      }
    }
  }

  lemma CRNulo(resto: string)
    requires SinPar(resto, CR, LF)
    ensures SinPar([CR, NUL] + resto, CR, LF) && SinNulos([CR, NUL] + resto) == [CR] + SinNulos(resto)
  {
    SinParConcat([CR], NUL, resto, CR, LF);
    assert [CR] + [NUL] + resto == [CR, NUL] + resto;
    assert ([CR, NUL] + resto)[1..] == [NUL] + resto && ([NUL] + resto)[1..] == resto;
  }

  lemma UnoDelante(c: char, resto: string)
    requires SinPar(resto, CR, LF) && c != NUL && resto != "" && !(c == CR && resto[0] == LF)
    ensures SinPar([c] + resto, CR, LF) && SinNulos([c] + resto) == [c] + SinNulos(resto)
  {
    assert ([c] + resto)[1..] == resto;
    assert forall i | 0 < i <= |resto| :: ([c] + resto)[i] == resto[i - 1];
  }

  lemma {:induction false} RomperLargo(s: string)
    ensures |s| <= |Romper(s)|
  {
    if |s| >= 2 { RomperLargo(s[1..]); }
  }

  lemma {:induction false} RomperPrefijo(a: string, b: string)
    requires a <= b
    ensures |Romper(a)| <= |Romper(b)|
  {
    if |a| >= 2 {
      RomperPrefijo(a[1..], b[1..]);
    } else {
      RomperLargo(b);
    }
  }

  /** A text without line breaks that holds them once its zeros are taken out has room for a zero in each. */
  lemma {:induction false} RomperCabe(s: string)
    requires SinPar(s, CR, LF)
    ensures |Romper(SinNulos(s))| <= |s|
  {
    if s != "" {
      var c, resto := s[0], s[1..];
      var r := SinNulos(resto);
      ColaSinPar(s);
      RomperCabe(resto);
      RomperUno(c, r);
      if c == CR && r != "" && r[0] == LF {
        SaltoConNulo(s);
        RomperCabe(resto[1..]);
      }
      assert SinNulos(s) == if c == NUL then r else [c] + r;
    }
  }

  /** A line break that the zeros hid has one of them in between. */
  lemma SaltoConNulo(s: string)
    requires SinPar(s, CR, LF) && s != "" && s[0] == CR && SinNulos(s[1..]) != "" && SinNulos(s[1..])[0] == LF
    ensures |s| > 1 && SinNulos(s[1..]) == SinNulos(s[2..]) && s[1..][1..] == s[2..] && SinPar(s[2..], CR, LF)
  {
    assert s[1] != LF;
    assert s[1..][1..] == s[2..];
    ColaSinPar(s);
    ColaSinPar(s[1..]);
  }

  lemma RomperUno(c: char, r: string)
    ensures |Romper([c] + r)| == |Romper(r)| + if c == CR && r != "" && r[0] == LF then 2 else 1
  {
    assert ([c] + r)[1..] == r;
  }

  lemma ColaSinPar(s: string)
    requires s != "" && SinPar(s, CR, LF)
    ensures SinPar(s[1..], CR, LF)
  {
  }

  function EscribirRota(p: Pedido): string { EscribirCon(p, Romper(Cuerpo(p.comando))) }

  /** A POST that is read, from any bytes at all, is well formed and its text fits in the buffer, even with a zero in
      each line break. */
  lemma LeidoEsEscribible(datos: string, p: Pedido)
    requires Leer(datos) == Responde(Ok(p)) && EsPost(p)
    ensures BienFormado(p) && |Escribir(p)| <= |EscribirRota(p)| <= TAMANIO
  {
    var s := Buffer(datos) + CRLF;
    var lineas := Renglones(datos);
    PartirSinPar(s, CRLF, CR, LF);
    var resto := PedidoLeido(lineas, p);
    ComandoLeido(resto, p.comando);
    RomperLargo(Cuerpo(p.comando));
    RomperPrefijo(Cuerpo(p.comando), SinNulos(resto[0]));
    RomperCabe(resto[0]);
    UltimaVacia(Buffer(datos));
    UnirPartir(s, CRLF);
    TerminadasEsUnir(lineas);
    TerminadasConcat(Encabezado(p), resto);
    assert resto[|resto| - 1] == lineas[|lineas| - 1] == "";
    assert |resto| > 1;
    assert |Terminadas(resto)| >= |resto[0]| + 4 by {
      assert Terminadas(resto) == resto[0] + CRLF + Terminadas(resto[1..]);
    }
    assert |Terminadas(lineas)| == TAMANIO + 4;
  }

  lemma PrimeraCorta(s: string, x: string)
    requires x <= s && !SinPar(x, CR, LF)
    ensures |Partir(s, CRLF)[0]| < |x|
  {
    var linea := Partir(s, CRLF)[0];
    PartirSinPar(s, CRLF, CR, LF);
    PrimeraEsPrefijo(s, CRLF);
    assert SinPar(linea, CR, LF);
    var i :| 0 <= i < |x| - 1 && x[i] == CR && x[i + 1] == LF;
    assert forall j | 0 <= j < |x| && j < |linea| :: linea[j] == s[j] == x[j];
  }

  /** A request whose command holds a line break is read short: its line ends there. */
  lemma SeCorta(p: Pedido)
    requires BienFormado(p) && !TodasSinPar(p.comando, CR, LF) && |Escribir(p)| <= TAMANIO
    ensures Leer(Escribir(p)) != Responde(Ok(p))
  {
    var s := Cuerpo(p.comando) + Ceros(TAMANIO - |Escribir(p)|) + CRLF;
    RenglonesDelPedido(p, Cuerpo(p.comando));
    CuerpoSinPar(p.comando);
    var lineas := Partir(s, CRLF);
    PrimeraCorta(s, Cuerpo(p.comando));
    LeerEncabezado(p, lineas);
    if Leer(Escribir(p)) == Responde(Ok(p)) { ComandoLeido(lineas, p.comando); }
  }

  /** The round trip, exactly: reading the text of a POST gives it back if and only if the POST is well formed, the text
      fits in the buffer and no piece of the command holds a line break. */
  lemma PedidoVuelve(p: Pedido)
    requires EsPost(p)
    ensures Leer(Escribir(p)) == Responde(Ok(p)) <==>
            BienFormado(p) && |Escribir(p)| <= 5000 && TodasSinPar(p.comando, CR, LF)
  {
    if Leer(Escribir(p)) == Responde(Ok(p)) {
      LeidoEsEscribible(Escribir(p), p);
      if !TodasSinPar(p.comando, CR, LF) { SeCorta(p); }
    }
    if BienFormado(p) && |Escribir(p)| <= TAMANIO && TodasSinPar(p.comando, CR, LF) { IdaYVuelta(p); }
  }

  /** Writing out what was read from any bytes and reading it again gives the same, unless a zero byte between CR and
      LF had smuggled a line break into a piece of the command. */
  lemma ReleerEsIgual(datos: string, p: Pedido)
    requires Leer(datos) == Responde(Ok(p)) && EsPost(p)
    ensures Leer(Escribir(p)) == Responde(Ok(p)) <==> TodasSinPar(p.comando, CR, LF)
  {
    LeidoEsEscribible(datos, p);
    PedidoVuelve(p);
  }

  // ---- Line breaks inside the command ----

  /** Exactly what the parser can read: a POST comes out of some bytes if and only if it is well formed and its text, with
      a zero in each line break of the body, fits in the buffer; and it comes out of that text. */
  lemma LoLegible(p: Pedido)
    requires EsPost(p)
    ensures (exists datos :: Leer(datos) == Responde(Ok(p))) <==> BienFormado(p) && |EscribirRota(p)| <= 5000
    ensures (exists datos :: Leer(datos) == Responde(Ok(p))) <==> Leer(EscribirRota(p)) == Responde(Ok(p))
  {
    if BienFormado(p) && |EscribirRota(p)| <= TAMANIO { RotaVuelve(p); }
    if datos :| Leer(datos) == Responde(Ok(p)) {
      LeidoEsEscribible(datos, p);
      RotaVuelve(p);
    }
  }

  lemma RotaVuelve(p: Pedido)
    requires BienFormado(p) && |EscribirRota(p)| <= TAMANIO
    ensures Leer(EscribirRota(p)) == Responde(Ok(p))
  {
    CuerpoSinNulos(p.comando);
    RomperRompe(Cuerpo(p.comando));
    IdaYVueltaCon(p, Romper(Cuerpo(p.comando)));
  }

  /** CR, a zero and LF between two texts. */
  function ConNulo(a: string, b: string): string { a + [CR] + [NUL] + ([LF] + b) }

  lemma ConNuloSinPar(a: string, b: string)
    requires SinPar(a, CR, LF) && SinPar(b, CR, LF)
    ensures SinPar(ConNulo(a, b), CR, LF)
  {
    SinParConcat(a + [CR], NUL, [LF] + b, CR, LF);
  }

  lemma ConNuloSinNulos(a: string, b: string)
    requires NUL !in a && NUL !in b
    ensures SinNulos(ConNulo(a, b)) == a + CRLF + b
  {
    var izq, der := a + [CR], [LF] + b;
    SinNulosConcat(izq + [NUL], der);
    SinNulosConcat(izq, [NUL]);
    SinNulosIgual(izq);
    SinNulosIgual(der);
    UnNulo();
    assert izq + "" + der == a + CRLF + b;
  }

  lemma UnNulo()
    ensures SinNulos([NUL]) == ""
  {
    assert [NUL][1..] == "";
  }

  lemma CuerpoDeUno(a: string, b: string)
    requires SinPar(a, CR, LF) && NUL !in a
    ensures Cuerpo([a + CRLF + b]) == "comando=" + a + CRLF + b
    ensures SinPar("comando=" + a, CR, LF) && NUL !in "comando=" + a
  {
    Asociar("comando=" + a, CRLF, b);
    Asociar("comando=", a, CRLF + b);
    Asociar(a, CRLF, b);
    SinParConcat("comando", '=', a, CR, LF);
    assert "comando" + ['='] == "comando=";
  }

  /** It arrives as one argument with a line break inside, which the plain text of that request would not carry. */
  lemma ContrabandoDeLinea(p: Pedido, a: string, b: string)
    requires BienFormado(p) && p.comando == [a + CRLF + b]
    requires PiezaBuena(a) && PiezaBuena(b) && SinPar(a, CR, LF) && SinPar(b, CR, LF)
    requires |EscribirCon(p, ConNulo("comando=" + a, b))| <= TAMANIO
    ensures Leer(EscribirCon(p, ConNulo("comando=" + a, b))) == Responde(Ok(p))
    ensures Leer(Escribir(p)) != Responde(Ok(p))
  {
    CuerpoDeUno(a, b);
    ConNuloSinPar("comando=" + a, b);
    ConNuloSinNulos("comando=" + a, b);
    IdaYVueltaCon(p, ConNulo("comando=" + a, b));
    var x := p.comando[0];
    assert x in p.comando && x[|a|] == CR && x[|a| + 1] == LF;
    PedidoVuelve(p);
  }
}
