/** The string commands INCRBY, DECRBY and MSET. */
module Textos {
  import opened Basicos
  import opened Decimal
  import opened Valores
  import opened BaseDeDatos
  import opened ComandoInfo
  import opened Efectos

  // ---- INCRBY and DECRBY ----

  const SIN_ARGUMENTOS := "ERR wrong number of arguments"

  function Operado(num: int, param: int, resta: bool): int { if resta then num - param else num + param }

  predicate EnRango(n: int) { MIN_I32 <= n <= MAX_I32 }

  /** The text under the key, "0" when there is nothing; `None` for another type. */
  function TextoDe(t: Tabla, ahora: nat, clave: string): Option<string>
  {
    match Obtener(t, clave, ahora)
    case Some(Str(texto)) => Some(texto)
    case None => Some("0")
    case Some(_) => None
  }

  /** The sum or the difference is checked: leaving 32 bits is a panic. */
  function EfectoOperar(t: Tabla, ahora: nat, p: seq<string>, resta: bool): Efecto
  {
    if p == [] then Falla(t, SIN_ARGUMENTOS) else EfectoOperarClave(t, ahora, p[0], p[1..], resta)
  }

  function EfectoOperarClave(t: Tabla, ahora: nat, clave: string, resto: seq<string>, resta: bool): Efecto
  {
    match TextoDe(t, ahora, clave)
    case None => Falla(t, WRONGTYPE)
    case Some(valor) => EfectoOperarTexto(t, ahora, clave, valor, if resto == [] then "0" else resto[0], resta)
  }

  function EfectoOperarTexto(t: Tabla, ahora: nat, clave: string, valor: string, param: string, resta: bool): Efecto
  {
    match (ParseI32(valor), ParseI32(param))
    case (Some(a), Some(b)) =>
      var n := Operado(a as int, b as int, resta);
      if !EnRango(n) then Efecto(t, Panico)
      else Guarda(t[clave := EntradaNoExpirable(Str(IntATexto(n)), ahora)], BulkStr(IntATexto(n)))
    case _ => Falla(t, NO_ENTERO)
  }

  method OperarSobreInt(comando: ComandoInfo, bdd: BaseDeDatos, ahora: nat, resta: bool)
    returns (r: Salida<ResultadoRedis>)
    requires bdd.Valid()
    modifies comando, bdd, bdd.hashmap.Values, bdd.observadores
    ensures Hizo(bdd, EfectoOperar(old(bdd.Tabla()), ahora, comando.parametros, resta), r)
  {
    var clave := comando.GetClave();
    if clave == None { return Responde(Error(SIN_ARGUMENTOS)); }
    r := OperarSobreClave(comando, bdd, ahora, clave.value, resta);
  }

  method OperarSobreClave(comando: ComandoInfo, bdd: BaseDeDatos, ahora: nat, clave: string, resta: bool)
    returns (r: Salida<ResultadoRedis>)
    requires bdd.Valid()
    modifies comando, bdd, bdd.hashmap.Values, bdd.observadores
    ensures Hizo(bdd, EfectoOperarClave(old(bdd.Tabla()), ahora, clave, old(comando.Restantes()), resta), r)
  {
    var valor: string;
    match bdd.ObtenerValor(clave, ahora) {
      case Some(Str(texto)) => valor := texto;
      case None => valor := "0";
      case Some(_) => return Responde(Error(WRONGTYPE));
    }
    var parametro := comando.GetParametro();
    var param := match parametro case Some(p) => p case None => "0";
    r := OperarTexto(bdd, ahora, clave, valor, param, resta);
  }

  method OperarTexto(bdd: BaseDeDatos, ahora: nat, clave: string, valor: string, param: string, resta: bool)
    returns (r: Salida<ResultadoRedis>)
    requires bdd.Valid()
    modifies bdd, bdd.hashmap.Values, bdd.observadores
    ensures Hizo(bdd, EfectoOperarTexto(old(bdd.Tabla()), ahora, clave, valor, param, resta), r)
  {
    var num, sumando := ParseI32(valor), ParseI32(param);
    if num == None || sumando == None { return Responde(Error(NO_ENTERO)); }
    var n := if resta then num.value as int - sumando.value as int else num.value as int + sumando.value as int;
    if n < MIN_I32 || n > MAX_I32 { return Panico; }
    bdd.GuardarValor(clave, Str(IntATexto(n)), ahora);
    r := Responde(BulkStr(IntATexto(n)));
  }

  /** None of the commands of this module changes the table without sending the new one to the observers. */
  lemma TextosAvisan(t: Tabla, ahora: nat, p: seq<string>, resta: bool)
    ensures CambioAvisado(t, EfectoOperar(t, ahora, p, resta)) && CambioAvisado(t, EfectoMset(t, ahora, p))
  {
  }

  // ---- A sequence of them on one key ----

  /** INCRBY or DECRBY at an instant, with a parameter that reads as a number. */
  datatype Paso = Paso(ahora: nat, param: string, resta: bool)

  predicate Numericos(pasos: seq<Paso>) { forall p | p in pasos :: ParseI32(p.param).Some? }

  /** INCRBY adds its parameter and DECRBY takes it away. */
  function Delta(p: Paso): int
    requires ParseI32(p.param).Some?
  {
    var n := ParseI32(p.param).value as int;
    if p.resta then 0 - n else n
  }

  function Suma(inicial: int, pasos: seq<Paso>): int
    requires Numericos(pasos)
  {
    if pasos == [] then inicial else Suma(inicial, pasos[..|pasos| - 1]) + Delta(pasos[|pasos| - 1])
  }

  /** Every partial sum stays inside 32 bits. */
  predicate SumasEnRango(inicial: int, pasos: seq<Paso>)
    requires Numericos(pasos)
  {
    pasos == [] || (SumasEnRango(inicial, pasos[..|pasos| - 1]) && EnRango(Suma(inicial, pasos)))
  }

  /** The commands one after another; a panic ends the sequence. */
  function Correr(t: Tabla, clave: string, pasos: seq<Paso>): Salida<Tabla>
  {
    if pasos == [] then Responde(t)
    else
      var n := |pasos| - 1;
      match Correr(t, clave, pasos[..n])
      case Panico => Panico
      case Responde(u) =>
        var e := EfectoOperar(u, pasos[n].ahora, [clave, pasos[n].param], pasos[n].resta);
        if e.r == Panico then Panico else Responde(e.tabla)
  }

  /** The number that the key stands for before the first command: zero when it holds nothing. */
  predicate Empieza(t: Tabla, ahora: nat, clave: string, inicial: i32)
  {
    if Falta(t, clave, ahora) then inicial == 0
    else t[clave].valor.Str? && ParseI32(t[clave].valor.texto) == Some(inicial)
  }

  lemma CeroPorOmision()
    ensures ParseI32("0") == Some(0)
  {
    ParseI32DeTexto(0);
    assert IntATexto(0) == "0";
  }

  /** The whole effect of INCRBY and of DECRBY on a number: the sum or the difference is stored in decimal and replied,
      unless it leaves 32 bits. */
  lemma OperarHace(t: Tabla, ahora: nat, clave: string, param: string, resta: bool, a: i32, b: i32)
    requires Empieza(t, ahora, clave, a) && ParseI32(param) == Some(b)
    ensures var n := if resta then a as int - b as int else a as int + b as int;
            EfectoOperar(t, ahora, [clave, param], resta)
              == if MIN_I32 <= n <= MAX_I32
                 then Guarda(t[clave := EntradaNoExpirable(Str(IntATexto(n)), ahora)], BulkStr(IntATexto(n)))
                 else Efecto(t, Panico)
  {
    CeroPorOmision();
  }

  /** What is no number is refused, nothing else changes, and no parameter counts as zero. */
  lemma OperarRechaza(t: Tabla, ahora: nat, clave: string, param: string, resta: bool, v: TipoRedis)
    ensures var e := EfectoOperar(t, ahora, [clave, param], resta);
            && EfectoOperar(t, ahora, [clave], resta) == EfectoOperar(t, ahora, [clave, "0"], resta)
            && (Falta(t, clave, ahora) && ParseI32(param) == None ==> e == Falla(t, NO_ENTERO))
            && (Vive(t, clave, v, ahora) ==>
                  && (!v.Str? ==> e == Falla(t, WRONGTYPE))
                  && (v.Str? && (ParseI32(v.texto) == None || ParseI32(param) == None) ==> e == Falla(t, NO_ENTERO)))
  {
    CeroPorOmision();
  }

  lemma UnPaso(u: Tabla, clave: string, p: Paso, actual: i32)
    requires ParseI32(p.param).Some? && Empieza(u, p.ahora, clave, actual)
    ensures var n := actual as int + Delta(p);
            EfectoOperar(u, p.ahora, [clave, p.param], p.resta)
              == if EnRango(n) then Guarda(u[clave := EntradaNoExpirable(Str(IntATexto(n)), p.ahora)], BulkStr(IntATexto(n)))
                 else Efecto(u, Panico)
  {
    OperarHace(u, p.ahora, clave, p.param, p.resta, actual, ParseI32(p.param).value);
  }

  /** The table with the canonical decimal of `n` under the key. */
  function ConNumero(t: Tabla, clave: string, n: int, ahora: nat): Tabla
  {
    t[clave := EntradaNoExpirable(Str(IntATexto(n)), ahora)]
  }

  /** What is stored is the one text without superfluous signs or zeros, and it reads back to the number. */
  lemma NumeroCanonico(t: Tabla, clave: string, n: int, ahora: nat, luego: nat)
    requires EnRango(n)
    ensures EsCanonico(IntATexto(n)) && Empieza(ConNumero(t, clave, n, ahora), luego, clave, n as i32)
  {
    IntATextoEsCanonico(n);
    ParseI32DeTexto(n);
  }

  /** The sequence runs through if and only if every partial sum stays inside 32 bits; then, after at least one command,
      the key holds the canonical decimal of the sum and no other key has changed. */
  lemma {:induction false} SumaCanonica(t: Tabla, clave: string, inicial: i32, pasos: seq<Paso>)
    requires Numericos(pasos) && pasos != [] && Empieza(t, pasos[0].ahora, clave, inicial)
    ensures var n, fin := Suma(inicial as int, pasos), pasos[|pasos| - 1].ahora;
            Correr(t, clave, pasos)
              == if SumasEnRango(inicial as int, pasos) then Responde(ConNumero(t, clave, n, fin)) else Panico
  {
    var k := |pasos| - 1;
    var antes, p := pasos[..k], pasos[k];
    if k == 0 {
      assert antes == [];
      PrimerPaso(t, clave, inicial, pasos);
    } else {
      assert antes[0] == pasos[0];
      SumaCanonica(t, clave, inicial, antes);
      if SumasEnRango(inicial as int, antes) {
        PasoSiguiente(t, clave, Suma(inicial as int, antes), antes[k - 1].ahora, p);
      }
    }
  }

  lemma PrimerPaso(t: Tabla, clave: string, inicial: i32, pasos: seq<Paso>)
    requires Numericos(pasos) && |pasos| == 1 && Empieza(t, pasos[0].ahora, clave, inicial)
    ensures var n := Suma(inicial as int, pasos);
            Correr(t, clave, pasos) == if EnRango(n) then Responde(ConNumero(t, clave, n, pasos[0].ahora)) else Panico
  {
  }

  lemma PasoSiguiente(t: Tabla, clave: string, m: int, luego: nat, p: Paso)
    requires EnRango(m) && ParseI32(p.param).Some?
    ensures var n, u := m + Delta(p), ConNumero(t, clave, m, luego);
            EfectoOperar(u, p.ahora, [clave, p.param], p.resta)
              == if EnRango(n) then Guarda(ConNumero(t, clave, n, p.ahora), BulkStr(IntATexto(n)))
                 else Efecto(u, Panico)
  {
    NumeroCanonico(t, clave, m, luego, p.ahora);
    UnPaso(ConNumero(t, clave, m, luego), clave, p, m as i32);
    Reescrito(t, clave, m, luego, m + Delta(p), p.ahora);
  }

  lemma Reescrito(t: Tabla, clave: string, m: int, antes: nat, n: int, despues: nat)
    ensures ConNumero(ConNumero(t, clave, m, antes), clave, n, despues) == ConNumero(t, clave, n, despues)
  {
  }

  // ---- MSET ----

  const MSET_ARGUMENTOS := "ERR wrong number of arguments for mset command"

  function EfectoMset(t: Tabla, ahora: nat, p: seq<string>): Efecto
  {
    if p == [] || |p| % 2 != 0 then Falla(t, MSET_ARGUMENTOS)
    else Guarda(GuardarPares(t, p, |p| - 1, ahora), StrSimple("OK"))
  }

  method Mset(comando: ComandoInfo, bdd: BaseDeDatos, ahora: nat) returns (r: Salida<ResultadoRedis>)
    requires bdd.Valid()
    modifies bdd, bdd.hashmap.Values, bdd.observadores
    ensures Hizo(bdd, EfectoMset(old(bdd.Tabla()), ahora, comando.parametros), r)
  {
    var parametros := comando.GetParametros();
    if parametros == None || |parametros.value| % 2 != 0 { return Responde(Error(MSET_ARGUMENTOS)); }
    bdd.GuardarValores(parametros.value, ahora);
    r := Responde(StrSimple("OK"));
  }

  /** An even number of parameters is answered with OK and one snapshot; none, or an odd number, is refused. */
  lemma MsetResponde(t: Tabla, ahora: nat, p: seq<string>)
    ensures var e := EfectoMset(t, ahora, p);
            if p != [] && |p| % 2 == 0 then e.r == Responde(StrSimple("OK")) && e.avisos == [e.tabla]
            else e == Falla(t, MSET_ARGUMENTOS)
  {
  }

  /** The last position before `n` that holds `x`. */
  function UltimaVez(p: seq<string>, n: nat, x: string): Option<nat>
    requires n <= |p|
  {
    if n == 0 then None else if p[n - 1] == x then Some(n - 1) else UltimaVez(p, n - 1, x)
  }

  lemma {:induction false} UltimaVezEsLaUltima(p: seq<string>, n: nat, x: string)
    requires n <= |p|
    ensures match UltimaVez(p, n, x)
            case Some(j) => j < n && p[j] == x && x !in p[j + 1..n]
            case None => x !in p[..n]
  {
    if n > 0 && p[n - 1] != x {
      UltimaVezEsLaUltima(p, n - 1, x);
      assert p[..n] == p[..n - 1] + [p[n - 1]];
      match UltimaVez(p, n - 1, x)
      case Some(j) => assert p[j + 1..n] == p[j + 1..n - 1] + [p[n - 1]];
      case None =>
    }
  }

  /** The loop slides by one position: every parameter but the last becomes a key, mapped to the element after its last
      occurrence; all other keys stay as they were. */
  lemma {:induction false} CadaUnoAlSiguiente(t: Tabla, p: seq<string>, n: nat, ahora: nat, x: string)
    requires n < |p|
    ensures var t' := GuardarPares(t, p, n, ahora);
            match UltimaVez(p, n, x)
            case Some(j) => x in t' && j + 1 < |p| && t'[x] == EntradaNoExpirable(Str(p[j + 1]), ahora)
            case None => (x in t' <==> x in t) && (x in t ==> t'[x] == t[x])
  {
    if n > 0 { CadaUnoAlSiguiente(t, p, n - 1, ahora, x); }
  }

  /** What is documented: each key takes the value that follows it, and nothing else changes. */
  function Documentada(t: Tabla, p: seq<string>, ahora: nat): Tabla
    requires |p| % 2 == 0
  {
    if p == [] then t
    else
      var n := |p| - 2;
      Documentada(t, p[..n], ahora)[p[n] := EntradaNoExpirable(Str(p[n + 1]), ahora)]
  }

  /** No supplied value is also a supplied key. */
  predicate ValoresAparte(p: seq<string>)
  {
    forall i, j | 0 <= i < |p| && 0 <= j < |p| && i % 2 == 0 && j % 2 == 1 :: p[i] != p[j]
  }

  lemma {:induction false} ParesDePrefijo(t: Tabla, p: seq<string>, m: nat, n: nat, ahora: nat)
    requires n < m <= |p|
    ensures GuardarPares(t, p, n, ahora) == GuardarPares(t, p[..m], n, ahora)
  {
    if n > 0 { ParesDePrefijo(t, p, m, n - 1, ahora); }
  }

  lemma UltimoPar(t: Tabla, p: seq<string>, ahora: nat)
    requires |p| >= 4
    ensures var n := |p| - 2;
            GuardarPares(t, p, n + 1, ahora)
              == GuardarPares(t, p[..n], n - 1, ahora)[p[n - 1] := EntradaNoExpirable(Str(p[n]), ahora)]
                                                      [p[n] := EntradaNoExpirable(Str(p[n + 1]), ahora)]
  {
    var n := |p| - 2;
    ParesDePrefijo(t, p, n, n - 1, ahora);
    assert GuardarPares(t, p, n, ahora) == GuardarPares(t, p, n - 1, ahora)[p[n - 1] := EntradaNoExpirable(Str(p[n]), ahora)];
  }

  lemma ApartePrefijo(p: seq<string>, n: nat)
    requires ValoresAparte(p) && n <= |p|
    ensures ValoresAparte(p[..n])
  {
  }

  /** When no value is a key, every supplied key ends with the value documented for it: its last supplied one. */
  lemma {:induction false} ClavesComoDocumentado(t: Tabla, p: seq<string>, ahora: nat, i: nat)
    requires p != [] && |p| % 2 == 0 && ValoresAparte(p) && i < |p| && i % 2 == 0
    ensures var t', d := GuardarPares(t, p, |p| - 1, ahora), Documentada(t, p, ahora);
            p[i] in t' && p[i] in d && t'[p[i]] == d[p[i]]
  {
    var n, x := |p| - 2, p[i];
    if x != p[n] {
      ApartePrefijo(p, n);
      ClavesComoDocumentado(t, p[..n], ahora, i);
      UltimoPar(t, p, ahora);
      assert p[n - 1] != x;
    }
  }

  /** The last even position that holds `x`: where it was last supplied as a key. */
  function UltimaPar(p: seq<string>, x: string): Option<nat>
    requires |p| % 2 == 0
  {
    if p == [] then None else if p[|p| - 2] == x then Some(|p| - 2) else UltimaPar(p[..|p| - 2], x)
  }

  lemma {:induction false} UltimaParEsLaUltima(p: seq<string>, x: string)
    requires |p| % 2 == 0
    ensures match UltimaPar(p, x)
            case Some(j) => j < |p| && j % 2 == 0 && p[j] == x && forall i | j < i < |p| && i % 2 == 0 :: p[i] != x
            case None => forall i | 0 <= i < |p| && i % 2 == 0 :: p[i] != x
  {
    if p != [] && p[|p| - 2] != x { UltimaParEsLaUltima(p[..|p| - 2], x); }
  }

  lemma {:induction false} DocumentadaEn(t: Tabla, p: seq<string>, ahora: nat, x: string)
    requires |p| % 2 == 0
    ensures var d := Documentada(t, p, ahora);
            match UltimaPar(p, x)
            case Some(j) => j + 1 < |p| && x in d && d[x] == EntradaNoExpirable(Str(p[j + 1]), ahora)
            case None => (x in d <==> x in t) && (x in t ==> d[x] == t[x])
  {
    if p != [] { DocumentadaEn(t, p[..|p| - 2], ahora, x); }
  }

  /** What the loop leaves under `x`, by its last position among all but the last parameter, is also what the documentation
      asks for: the value last supplied for it as a key, or, when it is no key, what was there. */
  predicate Coincide(t: Tabla, p: seq<string>, ahora: nat, x: string)
    requires |p| % 2 == 0 && p != []
  {
    match UltimaVez(p, |p| - 1, x)
    case None => true
    case Some(j) =>
      j + 1 < |p| &&
      match UltimaPar(p, x)
      case Some(e) => e + 1 < |p| && p[e + 1] == p[j + 1]
      case None => x in t && t[x] == EntradaNoExpirable(Str(p[j + 1]), ahora)
  }

  lemma MismaEntrada(t: Tabla, p: seq<string>, ahora: nat, x: string)
    requires p != [] && |p| % 2 == 0
    ensures var s, d := GuardarPares(t, p, |p| - 1, ahora), Documentada(t, p, ahora);
            Coincide(t, p, ahora, x) <==> (x in s <==> x in d) && (x in s ==> s[x] == d[x])
  {
    CadaUnoAlSiguiente(t, p, |p| - 1, ahora, x);
    DocumentadaEn(t, p, ahora, x);
    UltimaVezEsLaUltima(p, |p| - 1, x);
    UltimaParEsLaUltima(p, x);
    match UltimaPar(p, x)
    case Some(e) => assert p[..|p| - 1][e] == x;
    case None =>
  }

  /** MSET does what is documented, for any even number of parameters, if and only if for each of them but the last the
      element after its last occurrence is the value documented for it. */
  lemma MsetEsElDocumentado(t: Tabla, p: seq<string>, ahora: nat)
    requires p != [] && |p| % 2 == 0
    ensures EfectoMset(t, ahora, p).tabla == Documentada(t, p, ahora)
      <==> forall x | x in p[..|p| - 1] :: Coincide(t, p, ahora, x)
  {
    var s, d := GuardarPares(t, p, |p| - 1, ahora), Documentada(t, p, ahora);
    forall x ensures Coincide(t, p, ahora, x) <==> (x in s <==> x in d) && (x in s ==> s[x] == d[x]) {
      MismaEntrada(t, p, ahora, x);
    }
    forall x | x !in p[..|p| - 1] ensures Coincide(t, p, ahora, x) { UltimaVezEsLaUltima(p, |p| - 1, x); }
    if forall x | x in p[..|p| - 1] :: Coincide(t, p, ahora, x) {
      forall x ensures (x in s <==> x in d) && (x in s ==> s[x] == d[x]) { assert Coincide(t, p, ahora, x); }
      assert s == d;
    } else {
      var x :| x in p[..|p| - 1] && !Coincide(t, p, ahora, x);
      assert s != d;
    }
  }

  /** A single pair is always stored as documented; several are not when a value among them, other than the last, is
      neither a supplied key nor a key of the table. */
  lemma MsetDeUnPar(t: Tabla, p: seq<string>, ahora: nat, j: nat)
    requires p != [] && |p| % 2 == 0
    ensures |p| == 2 ==> EfectoMset(t, ahora, p).tabla == Documentada(t, p, ahora)
    ensures j + 1 < |p| && UltimaPar(p, p[j]) == None && p[j] !in t ==>
              EfectoMset(t, ahora, p).tabla != Documentada(t, p, ahora)
  {
    if |p| == 2 {
      assert p[..0] == [] && GuardarPares(t, p, 0, ahora) == t;
    }
    if j + 1 < |p| && UltimaPar(p, p[j]) == None && p[j] !in t {
      DocumentadaEn(t, p, ahora, p[j]);
      CadaUnoAlSiguiente(t, p, |p| - 1, ahora, p[j]);
      UltimaVezEsLaUltima(p, |p| - 1, p[j]);
      assert p[..|p| - 1][j] == p[j];
    }
  }
}
