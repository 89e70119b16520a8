/** Decimal text of integers as `to_string` writes it and `parse` reads it. */
module Decimal {
  import opened Basicos

  predicate EsDigito(c: char) { '0' <= c <= '9' }

  function Digito(d: nat): (c: char)
    requires d < 10
    ensures EsDigito(c)
  {
    ('0' as int + d) as char
  }

  predicate SoloDigitos(s: string) { forall i | 0 <= i < |s| :: EsDigito(s[i]) }

  function NatATexto(n: nat): (s: string)
    ensures s != "" && SoloDigitos(s)
    ensures s[0] == '0' ==> n == 0 && s == "0"
  {
    if n < 10 then [Digito(n)] else NatATexto(n / 10) + [Digito(n % 10)]
  }

  function IntATexto(n: int): string
  {
    if n < 0 then "-" + NatATexto(-n) else NatATexto(n)
  }

  function ValorDigitos(s: string): nat
    requires SoloDigitos(s)
  {
    if s == "" then 0
    else 10 * ValorDigitos(s[..|s| - 1]) + (s[|s| - 1] as int - '0' as int)
  }

  function LeerNat(s: string): Option<nat>
  {
    if s != "" && SoloDigitos(s) then Some(ValorDigitos(s)) else None
  }

  /** Rust's `parse` of an unsigned type: an optional plus sign, at least one digit, value within range. */
  function ParseSinSigno(s: string, max: nat): (r: Option<nat>)
    ensures r.Some? ==> r.value <= max
  {
    var digitos := if |s| > 1 && s[0] == '+' then s[1..] else s;
    match LeerNat(digitos)
    case Some(n) => if n <= max then Some(n) else None
    case None => None
  }

  function ParseU32(s: string): (r: Option<nat>)
    ensures r.Some? ==> r.value <= MAX_U32
  {
    ParseSinSigno(s, MAX_U32)
  }

  function ParseU64(s: string): (r: Option<u64>)
  {
    match ParseSinSigno(s, MAX_U64)
    case Some(n) => Some(n)
    case None => None
  }

  /** Rust's `parse::<i32>`: a minus sign is accepted too. */
  function ParseI32(s: string): (r: Option<i32>)
  {
    if |s| > 1 && s[0] == '-' then
      match LeerNat(s[1..])
      case Some(n) => if n <= -MIN_I32 then Some((0 - n) as i32) else None
      case None => None
    else
      match ParseSinSigno(s, MAX_I32)
      case Some(n) => Some(n as i32)
      case None => None
  }

  lemma {:induction false} ValorDeTexto(n: nat)
    ensures ValorDigitos(NatATexto(n)) == n
  {
    var s := NatATexto(n);
    if n < 10 {
      assert s[..|s| - 1] == "";
    } else {
      ValorDeTexto(n / 10);
      assert s[..|s| - 1] == NatATexto(n / 10);
    }
  }

  lemma ParseSinSignoDeTexto(n: nat, max: nat)
    ensures ParseSinSigno(NatATexto(n), max) == if n <= max then Some(n) else None
  {
    ValorDeTexto(n);
    assert EsDigito(NatATexto(n)[0]);
  }

  lemma SignoDeTexto(n: int)
    ensures var s := IntATexto(n);
            if n < 0 then s[0] == '-' && s[1..] == NatATexto(-n) else EsDigito(s[0]) && s == NatATexto(n)
  {
  }

  lemma ParseDeNegativo(n: nat)
    ensures ParseI32("-" + NatATexto(n)) == if n <= -MIN_I32 then Some((0 - n) as i32) else None
  {
    ValorDeTexto(n);
    assert ("-" + NatATexto(n))[1..] == NatATexto(n);
  }

  lemma ParseDeNat(n: nat)
    ensures ParseI32(NatATexto(n)) == if n <= MAX_I32 then Some(n as i32) else None
  {
    ParseSinSignoDeTexto(n, MAX_I32);
    assert EsDigito(NatATexto(n)[0]);
  }

  /** Reading back the canonical text gives the number, for the whole range and its two ends. */
  lemma ParseI32DeTexto(n: int)
    ensures MIN_I32 <= n <= MAX_I32 ==> ParseI32(IntATexto(n)) == Some(n as i32)
    ensures !(MIN_I32 <= n <= MAX_I32) ==> ParseI32(IntATexto(n)) == None
  {
    if n < 0 { ParseDeNegativo(-n); } else { ParseDeNat(n); }
  }

  lemma IntATextoInyectiva(m: int, n: int)
    requires IntATexto(m) == IntATexto(n)
    ensures m == n
  {
    SignoDeTexto(m);
    SignoDeTexto(n);
    if m < 0 {
      ValorDeTexto(-m);
      ValorDeTexto(-n);
    } else {
      ValorDeTexto(m);
      ValorDeTexto(n);
    }
  }

  /** A canonical text has no sign but a minus and no leading zero. */
  predicate EsCanonico(s: string)
  {
    var digitos := if s != "" && s[0] == '-' then s[1..] else s;
    digitos != "" && SoloDigitos(digitos) && (digitos[0] == '0' ==> s == "0")
  }

  lemma IntATextoEsCanonico(n: int)
    ensures EsCanonico(IntATexto(n))
  {
    var s := IntATexto(n);
    if n < 0 {
      assert s[1..] == NatATexto(-n);
    } else {
      assert EsDigito(s[0]);
    }
  }

  /** Reading a number of any size, as a client reads a reply. */
  function LeerInt(s: string): Option<int>
  {
    if s != "" && s[0] == '-' then
      match LeerNat(s[1..])
      case Some(n) => Some(0 - n)
      case None => None
    else
      match LeerNat(s)
      case Some(n) => Some(n)
      case None => None
  }

  lemma LeerIntDeTexto(n: int)
    ensures LeerInt(IntATexto(n)) == Some(n)
  {
    SignoDeTexto(n);
    ValorDeTexto(if n < 0 then -n else n);
  }

  // ---- What the texts mean ----

  function Potencia(n: nat): nat { if n == 0 then 1 else 10 * Potencia(n - 1) }

  /** Positional value in base ten: the digits before count for as many powers of ten as there are digits behind. */
  lemma {:induction false} ValorPosicional(a: string, b: string)
    requires SoloDigitos(a) && SoloDigitos(b)
    ensures SoloDigitos(a + b) && ValorDigitos(a + b) == ValorDigitos(a) * Potencia(|b|) + ValorDigitos(b)
  {
    if b == "" {
      assert a + b == a;
    } else {
      var n := |b| - 1;
      var c := a + b;
      ValorPosicional(a, b[..n]);
      assert c[..|c| - 1] == a + b[..n];
      assert c[|c| - 1] == b[n];
      DiezVeces(ValorDigitos(a), Potencia(n), ValorDigitos(b[..n]));
    }
  }

  lemma DiezVeces(x: nat, y: nat, z: nat)
    ensures 10 * (x * y + z) == x * (10 * y) + 10 * z
  {
  }

  lemma ValorDeUnDigito(d: nat)
    requires d < 10
    ensures ValorDigitos(["0123456789"[d]]) == d
  {
    var s := ["0123456789"[d]];
    assert s[..|s| - 1] == "";
  }

  /** Exactly what is read as a number without sign: digits, with or without a plus, whose value is within range. */
  lemma ParseSinSignoExacto(s: string, max: nat, n: nat)
    ensures ParseSinSigno(s, max) == Some(n) <==>
            n <= max && exists d :: (s == d || s == "+" + d) && d != "" && SoloDigitos(d) && ValorDigitos(d) == n
  {
    var digitos := if |s| > 1 && s[0] == '+' then s[1..] else s;
    if ParseSinSigno(s, max) == Some(n) {
      assert |s| > 1 && s[0] == '+' ==> s == "+" + digitos;
    }
    if d :| (s == d || s == "+" + d) && d != "" && SoloDigitos(d) && ValorDigitos(d) == n {
      assert EsDigito(d[0]);
      assert ("+" + d)[1..] == d;
      assert d == digitos;
    }
  }

  /** The text is a sign, or none, and digits whose value with that sign is the number. */
  predicate Escribe(s: string, signo: string, d: string, n: int)
  {
    && (signo == "" || signo == "+" || signo == "-")
    && s == signo + d && d != "" && SoloDigitos(d)
    && n == if signo == "-" then 0 - ValorDigitos(d) else ValorDigitos(d)
  }

  /** Exactly what is read as a 32-bit integer: digits, with or without a sign. */
  lemma ParseI32Exacto(s: string, n: int)
    requires MIN_I32 <= n <= MAX_I32
    ensures ParseI32(s) == Some(n as i32) <==> exists signo, d :: Escribe(s, signo, d, n)
  {
    if ParseI32(s) == Some(n as i32) { var signo, d := SignoLeido(s, n as i32); }
    if signo, d :| Escribe(s, signo, d, n) { EscritoSeLee(s, signo, d, n as i32); }
  }

  lemma EscritoSeLee(s: string, signo: string, d: string, n: i32)
    requires Escribe(s, signo, d, n as int)
    ensures ParseI32(s) == Some(n)
  {
    assert s[|signo|..] == d;
    assert EsDigito(d[0]);
    if signo == "" { assert s == d; }
  }

  lemma SignoLeido(s: string, n: i32) returns (signo: string, d: string)
    requires ParseI32(s) == Some(n)
    ensures Escribe(s, signo, d, n as int)
  {
    if |s| > 1 && (s[0] == '-' || s[0] == '+') {
      signo, d := [s[0]], s[1..];
    } else {
      signo, d := "", s;
    }
    assert s == signo + d;
  }
}
