/** The request parser: a command in the RESP2 array encoding (Redis serialization protocol, "Arrays" and "Bulk
    strings"), read two lines at a time. */
module Parser {
  import opened Basicos
  import opened Cadenas
  import opened Decimal
  import opened ComandoInfo

  datatype ParserError = RedisSyntaxError | MensajeVacioError
  datatype Parseo<+T> = Ok(valor: T) | Err(error: ParserError)

  /** The first character is dropped without looking at it. */
  function ParsearInt(cadena: string): (r: Option<nat>)
  {
    ParseU32(if cadena == "" then "" else cadena[1..])
  }

  /** What the loop makes of the remaining lines. */
  function LeerArgumentos(lineas: seq<string>, capacidad: nat, comando: seq<string>): Parseo<seq<string>>
    decreases |lineas|
  {
    if |lineas| < 2 then Ok(comando)
    else if ParsearInt(lineas[0]) != Some(|lineas[1]|) then Err(RedisSyntaxError)
    else if |comando| + 1 == capacidad then Ok(comando + [lineas[1]])
    else LeerArgumentos(lineas[2..], capacidad, comando + [lineas[1]])
  }

  /** The arguments of the command; building it from no arguments at all is an index out of range. */
  function Argumentos(entrada: string): Salida<Parseo<seq<string>>>
  {
    var lineas := Lineas(entrada);
    if lineas == [] then Responde(Err(MensajeVacioError))
    else
      match ParsearInt(lineas[0])
      case None => Responde(Err(RedisSyntaxError))
      case Some(capacidad) =>
        var r := LeerArgumentos(lineas[1..], capacidad, []);
        if r == Ok([]) then Panico else Responde(r)
  }

  ghost predicate EsComando(c: ComandoInfo, args: seq<string>)
    reads c
  {
    args != [] && c.nombre == Mayusculas(args[0]) && c.parametros == args[1..] && c.index == 0
  }

  method ParsearStream(entrada: string) returns (r: Salida<Parseo<ComandoInfo>>)
    ensures match r
            case Panico => Argumentos(entrada) == Panico
            case Responde(Err(e)) => Argumentos(entrada) == Responde(Err(e))
            case Responde(Ok(c)) =>
              && fresh(c)
              && Argumentos(entrada).Responde? && Argumentos(entrada).valor.Ok?
              && EsComando(c, Argumentos(entrada).valor.valor)
  {
    var lineas := Lineas(entrada);
    if lineas == [] { return Responde(Err(MensajeVacioError)); }
    var primero := ParsearInt(lineas[0]);
    if primero == None { return Responde(Err(RedisSyntaxError)); }
    var capacidad := primero.value;
    var comando: seq<string> := [];
    var i := 1;
    while i < |lineas|
      invariant 1 <= i <= |lineas|
      invariant LeerArgumentos(lineas[1..], capacidad, []) == LeerArgumentos(lineas[i..], capacidad, comando)
      decreases |lineas| - i
    {
      var longitudStr := lineas[i];
      i := i + 1;
      if i < |lineas| {
        var argumento := lineas[i];
        i := i + 1;
        assert lineas[i - 2..][2..] == lineas[i..];
        var longitud := ParsearInt(longitudStr);
        if longitud == None || longitud.value != |argumento| { return Responde(Err(RedisSyntaxError)); }
        comando := comando + [argumento];
        if |comando| == capacidad {
          var c := new ComandoInfo(comando);
          return Responde(Ok(c));
        }
      }
    }
    if comando == [] { return Panico; }
    var c := new ComandoInfo(comando);
    r := Responde(Ok(c));
  }

  // ---- The encoding, and what parsing makes of it ----

  function Longitud(a: string): string { "$" + NatATexto(|a|) }

  function CodificarArgumento(a: string): string
  {
    Longitud(a) + CRLF + a + CRLF
  }

  function CodificarArgumentos(args: seq<string>): string
  {
    if args == [] then "" else CodificarArgumento(args[0]) + CodificarArgumentos(args[1..])
  }

  function Codificar(args: seq<string>): string
  {
    "*" + NatATexto(|args|) + CRLF + CodificarArgumentos(args)
  }

  predicate Representable(a: string) { LF !in a && |a| <= MAX_U32 }

  predicate Representables(args: seq<string>) { forall a | a in args :: Representable(a) }

  lemma LineaDeNumero(tag: char, n: nat, resto: string)
    requires tag != LF
    ensures var l := [tag] + NatATexto(n); Lineas(l + CRLF + resto) == [l] + Lineas(resto)
  {
    assert forall c | c in NatATexto(n) :: EsDigito(c);
    LineaCRLF([tag] + NatATexto(n), resto);
  }

  lemma NumeroLeido(tag: char, n: nat)
    ensures ParsearInt([tag] + NatATexto(n)) == if n <= MAX_U32 then Some(n) else None
  {
    assert ([tag] + NatATexto(n))[1..] == NatATexto(n);
    ParseSinSignoDeTexto(n, MAX_U32);
  }

  /** One turn of the loop, given its two lines. */
  lemma LeerDosLineas(l: string, linea: string, resto: seq<string>, capacidad: nat, comando: seq<string>)
    ensures LeerArgumentos([l, linea] + resto, capacidad, comando)
         == if ParsearInt(l) != Some(|linea|) then Err(RedisSyntaxError)
            else if |comando| + 1 == capacidad then Ok(comando + [linea])
            else LeerArgumentos(resto, capacidad, comando + [linea])
  {
  }

  /** The line where an argument should stand: the argument itself, or something shorter when a line feed breaks it. */
  lemma LineaDelArgumento(a: string, resto: string) returns (linea: string, despues: seq<string>)
    ensures Lineas(a + CRLF + resto) == [linea] + despues
    ensures if LF !in a then linea == a && despues == Lineas(resto) else |linea| < |a|
  {
    if LF !in a {
      LineaCRLF(a, resto);
      linea, despues := a, Lineas(resto);
    } else {
      var j := Buscar(a, LF);
      var pieza, cola := a[..j], a[j + 1..] + CRLF + resto;
      assert a == pieza + [LF] + a[j + 1..];
      assert a + CRLF + resto == pieza + [LF] + cola;
      LineaLF(pieza, cola);
      linea, despues := SinCR(pieza), Lineas(cola);
    }
  }

  lemma LongitudSinLF(a: string)
    ensures LF !in Longitud(a)
  {
    assert forall c | c in NatATexto(|a|) :: EsDigito(c);
  }

  lemma DosLineas(l: string, a: string, resto: string) returns (linea: string, despues: seq<string>)
    requires LF !in l
    ensures Lineas(l + CRLF + a + CRLF + resto) == [l, linea] + despues
    ensures if LF !in a then linea == a && despues == Lineas(resto) else |linea| < |a|
  {
    var cola := a + CRLF + resto;
    Reasociar(l, CRLF, a, CRLF, resto);
    LineaCRLF(l, cola);
    linea, despues := LineaDelArgumento(a, resto);
    assert [l] + ([linea] + despues) == [l, linea] + despues;
  }

  /** The lines that the encoded arguments occupy. */
  function RenglonesDe(args: seq<string>): seq<string>
  {
    if args == [] then [] else [Longitud(args[0]), args[0]] + RenglonesDe(args[1..])
  }

  lemma LineasDeUno(a: string, cola: string)
    requires LF !in a
    ensures Lineas(CodificarArgumento(a) + cola) == [Longitud(a), a] + Lineas(cola)
  {
    LongitudSinLF(a);
    var linea, despues := DosLineas(Longitud(a), a, cola);
  }

  lemma RenglonesAsociados(a: string, otros: seq<string>, resto: seq<string>)
    ensures [Longitud(a), a] + (otros + resto) == [Longitud(a), a] + otros + resto
  {
  }

  lemma {:induction false} LineasDeArgumentos(args: seq<string>, resto: string)
    requires SinLF(args)
    ensures Lineas(CodificarArgumentos(args) + resto) == RenglonesDe(args) + Lineas(resto)
  {
    if args == [] {
      assert "" + resto == resto;
    } else {
      var a, cola := args[0], CodificarArgumentos(args[1..]) + resto;
      LineasDeArgumentos(args[1..], resto);
      LineasDeUno(a, cola);
      Asociar(CodificarArgumento(a), CodificarArgumentos(args[1..]), resto);
      RenglonesAsociados(a, RenglonesDe(args[1..]), Lineas(resto));
    }
  }

  predicate Caben(args: seq<string>) { forall a | a in args :: |a| <= MAX_U32 }

  /** The loop over well-formed lines: each argument is pushed, and the loop ends at the declared count. */
  lemma {:induction false} LeerRenglones(args: seq<string>, otras: seq<string>, capacidad: nat, comando: seq<string>)
    requires (capacidad == 0 || |comando| + |args| <= capacidad) && Caben(args)
    ensures LeerArgumentos(RenglonesDe(args) + otras, capacidad, comando)
         == if args != [] && |comando| + |args| == capacidad then Ok(comando + args)
            else LeerArgumentos(otras, capacidad, comando + args)
  {
    if args == [] {
      assert [] + otras == otras && comando + args == comando;
    } else {
      var a, resto := args[0], args[1..];
      RenglonesAsociados(a, RenglonesDe(resto), otras);
      UnRenglon(a, RenglonesDe(resto) + otras, capacidad, comando);
      PrimeroYResto(comando, args);
      if capacidad == 0 || |comando| + 1 < capacidad { LeerRenglones(resto, otras, capacidad, comando + [a]); }
    }
  }

  lemma UnRenglon(a: string, cola: seq<string>, capacidad: nat, comando: seq<string>)
    requires |a| <= MAX_U32
    ensures LeerArgumentos([Longitud(a), a] + cola, capacidad, comando)
         == if |comando| + 1 == capacidad then Ok(comando + [a]) else LeerArgumentos(cola, capacidad, comando + [a])
  {
    NumeroLeido('$', |a|);
    LeerDosLineas(Longitud(a), a, cola, capacidad, comando);
  }

  /** An argument that is too long or holds a line feed stops the reader where it stands. */
  lemma LeerMalo(a: string, resto: string, capacidad: nat, comando: seq<string>)
    requires !Representable(a)
    ensures LeerArgumentos(Lineas(CodificarArgumento(a) + resto), capacidad, comando) == Err(RedisSyntaxError)
  {
    LongitudSinLF(a);
    var linea, despues := DosLineas(Longitud(a), a, resto);
    NumeroLeido('$', |a|);
    LeerDosLineas(Longitud(a), linea, despues, capacidad, comando);
  }

  lemma {:induction false} CodificarConcatena(a: seq<string>, b: seq<string>)
    ensures CodificarArgumentos(a + b) == CodificarArgumentos(a) + CodificarArgumentos(b)
  {
    if a == [] {
      assert a + b == b;
    } else {
      assert (a + b)[1..] == a[1..] + b;
      CodificarConcatena(a[1..], b);
    }
  }

  lemma PrimerMalo(args: seq<string>) returns (i: nat)
    requires !Representables(args)
    ensures i < |args| && !Representable(args[i]) && Representables(args[..i])
  {
    i := 0;
    while Representable(args[i])
      invariant i < |args| && Representables(args[..i]) && !Representables(args[i..])
      decreases |args| - i
    {
      assert args[..i + 1] == args[..i] + [args[i]];
      assert args[i..] == [args[i]] + args[i + 1..];
      i := i + 1;
    }
  }

  lemma LeerTodos(args: seq<string>, resto: string)
    requires args != []
    ensures LeerArgumentos(Lineas(CodificarArgumentos(args) + resto), |args|, [])
         == if Representables(args) then Ok(args) else Err(RedisSyntaxError)
  {
    if Representables(args) {
      LineasDeArgumentos(args, resto);
      LeerRenglones(args, Lineas(resto), |args|, []);
      assert [] + args == args;
    } else {
      var i := PrimerMalo(args);
      var buenos, malo, otros := args[..i], args[i], args[i + 1..];
      var cola := CodificarArgumentos(otros) + resto;
      assert args == buenos + args[i..];
      CodificarConcatena(buenos, args[i..]);
      Asociar(CodificarArgumentos(buenos), CodificarArgumentos(args[i..]), resto);
      Asociar(CodificarArgumento(malo), CodificarArgumentos(otros), resto);
      LineasDeArgumentos(buenos, CodificarArgumento(malo) + cola);
      LeerRenglones(buenos, Lineas(CodificarArgumento(malo) + cola), |args|, []);
      LeerMalo(malo, cola, |args|, [] + buenos);
    }
  }

  /** Parsing inverts the encoding, reading no further than the declared count: exactly when the count and the
      lengths fit 32 bits and no argument holds a line feed. Otherwise it is a syntax error. */
  lemma ParsearInvierteCodificar(args: seq<string>, resto: string)
    requires args != []
    ensures Argumentos(Codificar(args) + resto)
         == if |args| <= MAX_U32 && Representables(args)
            then Responde(Ok(args)) else Responde(Err(RedisSyntaxError))
  {
    var l, cola := "*" + NatATexto(|args|), CodificarArgumentos(args) + resto;
    assert Codificar(args) + resto == l + CRLF + cola;
    LineaDeNumero('*', |args|, cola);
    NumeroLeido('*', |args|);
    assert ([l] + Lineas(cola))[1..] == Lineas(cola);
    LeerTodos(args, resto);
  }

  lemma {:induction false} CodificarHasta(args: seq<string>, c: nat)
    requires c <= |args|
    ensures CodificarArgumentos(args) == CodificarArgumentos(args[..c]) + CodificarArgumentos(args[c..])
  {
    assert args == args[..c] + args[c..];
    CodificarConcatena(args[..c], args[c..]);
  }

  /** A declared count that is not that of the arguments: a smaller one cuts them, a larger one, or zero, takes what
      there is up to the end, whatever single line is left over; and no arguments at all are an index out of range. */
  lemma CuentaDeclarada(args: seq<string>, c: nat, resto: string)
    requires c <= MAX_U32 && Representables(args) && |Lineas(resto)| < 2
    ensures Argumentos("*" + NatATexto(c) + CRLF + (CodificarArgumentos(args) + resto))
         == if 0 < c <= |args| then Responde(Ok(args[..c]))
            else if args == [] then Panico
            else Responde(Ok(args))
  {
    var l, cola := "*" + NatATexto(c), CodificarArgumentos(args) + resto;
    LineaDeNumero('*', c, cola);
    NumeroLeido('*', c);
    assert ([l] + Lineas(cola))[1..] == Lineas(cola);
    if 0 < c <= |args| {
      CodificarHasta(args, c);
      Asociar(CodificarArgumentos(args[..c]), CodificarArgumentos(args[c..]), resto);
      LeerTodos(args[..c], CodificarArgumentos(args[c..]) + resto);
    } else {
      LineasDeArgumentos(args, resto);
      LeerRenglones(args, Lineas(resto), c, []);
      assert [] + args == args;
    }
  }

  /** No bytes at all are an empty message; a first line that is no number behind its first character is a syntax error. */
  lemma PrimeraLineaMala(l: string, resto: string)
    requires LF !in l && ParseU32(if l == "" then "" else l[1..]) == None
    ensures Argumentos("") == Responde(Err(MensajeVacioError))
    ensures Argumentos(l + CRLF + resto) == Responde(Err(RedisSyntaxError))
  {
    LineaCRLF(l, resto);
  }
}
