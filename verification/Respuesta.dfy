/** The reply printer, against the decoder of a client that follows the RESP2 grammar ("Bulk strings", "Arrays"). */
module Respuesta {
  import opened Basicos
  import opened Cadenas
  import opened Decimal
  import opened Valores

  function ParsearRespuesta(r: ResultadoRedis): string
    decreases r, 0
  {
    match r
    case StrSimple(cad) => "+" + cad + CRLF
    case BulkStr(cad) => "$" + NatATexto(|cad|) + CRLF + cad + CRLF
    case Int(ent) => ":" + IntATexto(ent) + CRLF
    case Vector(vec) => "*" + NatATexto(|vec|) + CRLF + ParsearRespuestas(vec)
    case Nil => "$-1" + CRLF
    case Error(e) => "-" + e + CRLF
    case Vacio => ""
  }

  /** The replies of a vector, joined with nothing between them. */
  function ParsearRespuestas(vec: seq<ResultadoRedis>): string
  {
    if vec == [] then "" else ParsearRespuesta(vec[0]) + ParsearRespuestas(vec[1..])
  }

  // ---- The client's decoder ----

  /** The text before the first CRLF and the text after it. */
  function HastaCRLF(s: string): (r: Option<(string, string)>)
    ensures r.Some? ==> s == r.value.0 + CRLF + r.value.1 && SinPar(r.value.0, CR, LF)
  {
    if |s| < 2 then None
    else if s[0] == CR && s[1] == LF then
      assert s == "" + CRLF + s[2..];
      Some(("", s[2..]))
    else
      match HastaCRLF(s[1..])
      case None => None
      case Some((linea, resto)) =>
        assert s == [s[0]] + linea + CRLF + resto;
        assert forall i | 0 < i < |linea| :: ([s[0]] + linea)[i] == linea[i - 1];
        assert linea != "" ==> s[1] == linea[0];
        Some(([s[0]] + linea, resto))
  }

  function DecodificarBulk(longitud: string, resto: string): (r: Option<(ResultadoRedis, string)>)
    ensures r.Some? ==> |r.value.1| <= |resto|
  {
    if longitud == "-1" then Some((Nil, resto))
    else
      match LeerNat(longitud)
      case None => None
      case Some(n) =>
        if n + 2 <= |resto| && resto[n..n + 2] == CRLF then Some((BulkStr(resto[..n]), resto[n + 2..])) else None
  }

  /** One reply and what follows it. */
  function Decodificar(s: string): (r: Option<(ResultadoRedis, string)>)
    ensures r.Some? ==> |r.value.1| < |s|
    decreases |s|, 0, 0
  {
    if s == "" then None
    else
      match HastaCRLF(s[1..])
      case None => None
      case Some((linea, resto)) => DecodificarCuerpo(s[0], linea, resto)
  }

  function DecodificarCuerpo(tag: char, linea: string, resto: string): (r: Option<(ResultadoRedis, string)>)
    ensures r.Some? ==> |r.value.1| <= |resto|
    decreases |resto|, 1, 0
  {
    match tag
    case '+' => Some((StrSimple(linea), resto))
    case '-' => Some((Error(linea), resto))
    case ':' =>
      (match LeerInt(linea)
       case Some(n) => Some((Int(n), resto))
       case None => None)
    case '$' => DecodificarBulk(linea, resto)
    case '*' =>
      (match LeerNat(linea)
       case None => None
       case Some(n) =>
         match DecodificarVarias(n, resto)
         case None => None
         case Some((vec, cola)) => Some((Vector(vec), cola)))
    case _ => None
  }

  function DecodificarVarias(n: nat, s: string): (r: Option<(seq<ResultadoRedis>, string)>)
    ensures r.Some? ==> |r.value.1| <= |s| && |r.value.0| == n
    decreases |s|, 0, n
  {
    if n == 0 then Some(([], s))
    else
      match Decodificar(s)
      case None => None
      case Some((primera, resto)) =>
        match DecodificarVarias(n - 1, resto)
        case None => None
        case Some((otras, cola)) => Some(([primera] + otras, cola))
  }

  // ---- Unique decodability ----

  /** No empty reply inside, and no CRLF inside a simple string or an error. Bulk strings may hold anything. */
  predicate Decodificable(r: ResultadoRedis)
  {
    match r
    case StrSimple(cad) => SinPar(cad, CR, LF)
    case Error(cad) => SinPar(cad, CR, LF)
    case Vector(vec) => forall x | x in vec :: Decodificable(x)
    case Vacio => false
    case _ => true
  }

  lemma {:induction false} HastaCRLFDe(linea: string, resto: string)
    requires SinPar(linea, CR, LF)
    ensures HastaCRLF(linea + CRLF + resto) == Some((linea, resto))
  {
    var s := linea + CRLF + resto;
    if linea == "" {
      assert s[2..] == resto;
    } else {
      assert s[0] == linea[0] && s[1] == (if |linea| > 1 then linea[1] else CR);
      assert s[1..] == linea[1..] + CRLF + resto;
      assert SinPar(linea[1..], CR, LF);
      HastaCRLFDe(linea[1..], resto);
      assert [linea[0]] + linea[1..] == linea;
    }
  }

  /** The line after the tag, when the tag and a line free of CRLF begin the text. */
  lemma TrasLaEtiqueta(tag: char, linea: string, resto: string, s: string)
    requires SinPar(linea, CR, LF) && s == [tag] + linea + CRLF + resto
    ensures s != "" && s[0] == tag && HastaCRLF(s[1..]) == Some((linea, resto))
  {
    assert s[1..] == linea + CRLF + resto;
    HastaCRLFDe(linea, resto);
  }

  lemma NumeroSinPar(n: int)
    ensures SinPar(IntATexto(n), CR, LF)
  {
    SignoDeTexto(n);
  }

  lemma LeerNatDeTexto(n: nat)
    ensures LeerNat(NatATexto(n)) == Some(n) && NatATexto(n) != "-1"
  {
    ValorDeTexto(n);
    assert EsDigito(NatATexto(n)[0]);
  }

  lemma Cortar(a: string, b: string, c: string)
    ensures (a + b + c)[..|a|] == a
    ensures (a + b + c)[|a|..|a| + |b|] == b
    ensures (a + b + c)[|a| + |b|..] == c
  {
  }

  /** The printed reply is a tag, a line and a body. */
  function Cuerpo(r: ResultadoRedis): (char, string, string)
    requires !r.Vacio?
  {
    match r
    case StrSimple(cad) => ('+', cad, "")
    case BulkStr(cad) => ('$', NatATexto(|cad|), cad + CRLF)
    case Int(ent) => (':', IntATexto(ent), "")
    case Vector(vec) => ('*', NatATexto(|vec|), ParsearRespuestas(vec))
    case Nil => ('$', "-1", "")
    case Error(e) => ('-', e, "")
  }

  /** Whatever it prints, the client reads the tag and the line, and then has the body and the rest before it. */
  lemma TrasElCuerpo(r: ResultadoRedis, cola: string)
    requires Decodificable(r)
    ensures var (tag, linea, cuerpo) := Cuerpo(r);
            var s := ParsearRespuesta(r) + cola;
            s != "" && s[0] == tag && HastaCRLF(s[1..]) == Some((linea, cuerpo + cola))
  {
    var (tag, linea, cuerpo) := Cuerpo(r);
    match r {
      case Int(n) => NumeroSinPar(n);
      case BulkStr(cad) => NumeroSinPar(|cad|);
      case Vector(vec) => NumeroSinPar(|vec|);
      case _ =>
    }
    Impreso(r);
    var t := [tag] + linea + CRLF;
    Asociar(t, cuerpo, cola);
    TrasLaEtiqueta(tag, linea, cuerpo + cola, t + (cuerpo + cola));
  }

  lemma Impreso(r: ResultadoRedis)
    requires !r.Vacio?
    ensures var (tag, linea, cuerpo) := Cuerpo(r); ParsearRespuesta(r) == [tag] + linea + CRLF + cuerpo
  {
  }

  lemma BulkDecodifica(cad: string, cola: string)
    ensures DecodificarBulk(NatATexto(|cad|), cad + CRLF + cola) == Some((BulkStr(cad), cola))
  {
    LeerNatDeTexto(|cad|);
    Cortar(cad, CRLF, cola);
  }

  lemma {:induction false} DecodificarDeshace(r: ResultadoRedis, cola: string)
    requires Decodificable(r)
    ensures Decodificar(ParsearRespuesta(r) + cola) == Some((r, cola))
    decreases r, 1
  {
    TrasElCuerpo(r, cola);
    CuerpoDeshace(r, cola);
  }

  lemma {:induction false} CuerpoDeshace(r: ResultadoRedis, cola: string)
    requires Decodificable(r)
    ensures var (tag, linea, cuerpo) := Cuerpo(r); DecodificarCuerpo(tag, linea, cuerpo + cola) == Some((r, cola))
    decreases r, 0
  {
    assert "" + cola == cola;
    match r
    case Int(n) => LeerIntDeTexto(n);
    case BulkStr(cad) =>
      Asociar(cad, CRLF, cola);
      BulkDecodifica(cad, cola);
    case Vector(vec) =>
      LeerNatDeTexto(|vec|);
      VariasDeshace(vec, cola);
    case _ =>
  }

  /** A stream of replies is cut where the replies end. */
  lemma {:induction false} VariasDeshace(vec: seq<ResultadoRedis>, cola: string)
    requires forall x | x in vec :: Decodificable(x)
    ensures DecodificarVarias(|vec|, ParsearRespuestas(vec) + cola) == Some((vec, cola))
    decreases vec
  {
    if vec == [] {
      assert "" + cola == cola;
    } else {
      var resto := ParsearRespuestas(vec[1..]) + cola;
      assert ParsearRespuestas(vec) + cola == ParsearRespuesta(vec[0]) + resto;
      DecodificarDeshace(vec[0], resto);
      VariasDeshace(vec[1..], cola);
      assert vec == [vec[0]] + vec[1..];
    }
  }

  /** A client never obtains anything else from any text. */
  lemma {:induction false} LoDecodificadoEsDecodificable(s: string)
    ensures Decodificar(s).Some? ==> Decodificable(Decodificar(s).value.0)
    decreases |s|, 0
  {
    if s != "" && s[0] == '*' {
      match HastaCRLF(s[1..])
      case None =>
      case Some((linea, resto)) =>
        if LeerNat(linea).Some? { VariasDecodificables(LeerNat(linea).value, resto); }
    }
  }

  lemma {:induction false} VariasDecodificables(n: nat, s: string)
    ensures DecodificarVarias(n, s).Some? ==> forall x | x in DecodificarVarias(n, s).value.0 :: Decodificable(x)
    decreases |s|, n
  {
    if n > 0 {
      LoDecodificadoEsDecodificable(s);
      match Decodificar(s)
      case None =>
      case Some((_, resto)) => VariasDecodificables(n - 1, resto);
    }
  }

  /** A reply followed by any bytes is read back, with exactly those bytes left, if and only if it is decodable. */
  lemma RespuestaVuelve(r: ResultadoRedis, cola: string)
    ensures Decodificar(ParsearRespuesta(r) + cola) == Some((r, cola)) <==> Decodificable(r)
  {
    if Decodificable(r) {
      DecodificarDeshace(r, cola);
    } else {
      LoDecodificadoEsDecodificable(ParsearRespuesta(r) + cola);
    }
  }

  /** No decodable reply prints as the beginning of another. */
  lemma LibreDePrefijos(a: ResultadoRedis, b: ResultadoRedis)
    requires Decodificable(a) && Decodificable(b) && ParsearRespuesta(a) <= ParsearRespuesta(b)
    ensures a == b
  {
    var cola := ParsearRespuesta(b)[|ParsearRespuesta(a)|..];
    DecodificarDeshace(a, cola);
    assert ParsearRespuesta(a) + cola == ParsearRespuesta(b) + "";
    DecodificarDeshace(b, "");
  }

  /** Why the empty reply is excluded: two different vectors with one inside print alike. */
  lemma VacioColisiona(x: ResultadoRedis)
    requires x != Vacio
    ensures var a, b := Vector([Vector([Vacio]), x]), Vector([Vector([x]), Vacio]);
            a != b && ParsearRespuesta(a) == ParsearRespuesta(b)
  {
    var p := ParsearRespuesta(x);
    UnaRespuesta(x);
    UnaRespuesta(Vacio);
    DosRespuestas(Vector([Vacio]), x);
    DosRespuestas(Vector([x]), Vacio);
    VectorDeUna(Vacio);
    VectorDeUna(x);
    MueveVacio(CabezaVector(1), p);
  }

  function CabezaVector(n: nat): string { "*" + NatATexto(n) + CRLF }

  lemma VectorDeUna(x: ResultadoRedis)
    ensures ParsearRespuesta(Vector([x])) == CabezaVector(1) + ParsearRespuesta(x)
  {
    UnaRespuesta(x);
  }

  lemma MueveVacio(a: string, p: string)
    ensures a + "" + p == a + p + ""
  {
  }

  lemma UnaRespuesta(x: ResultadoRedis)
    ensures ParsearRespuestas([x]) == ParsearRespuesta(x)
  {
    assert [x][1..] == [];
  }

  lemma DosRespuestas(x: ResultadoRedis, y: ResultadoRedis)
    ensures ParsearRespuestas([x, y]) == ParsearRespuesta(x) + ParsearRespuesta(y)
  {
    assert [x, y][1..] == [y];
    UnaRespuesta(y);
  }
}
