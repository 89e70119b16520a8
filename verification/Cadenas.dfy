/** Splitting, joining and reading lines of text, with the laws that say when one undoes the other.
    A string holds one character per byte. */
module Cadenas {

  /** Rust's `str::split`: the pieces between the leftmost non-overlapping occurrences of `sep`. */
  function Partir(s: string, sep: string): (partes: seq<string>)
    requires sep != ""
    ensures partes != []
  {
    if s == "" then [""]
    else if sep <= s then [""] + Partir(s[|sep|..], sep)
    else
      var resto := Partir(s[1..], sep);
      [[s[0]] + resto[0]] + resto[1..]
  }

  /** Rust's `join`. */
  function Unir(partes: seq<string>, sep: string): string
  {
    if partes == [] then ""
    else if |partes| == 1 then partes[0]
    else partes[0] + sep + Unir(partes[1..], sep)
  }

  /** In `parte` followed by `sep`, the separator occurs only at the very end. */
  predicate Libre(parte: string, sep: string)
  {
    forall i | 0 <= i < |parte| :: !(sep <= (parte + sep)[i..])
  }

  predicate TodasLibres(partes: seq<string>, sep: string)
  {
    forall p | p in partes :: Libre(p, sep)
  }

  lemma {:induction false} PartirPrimera(p: string, sep: string, resto: string)
    requires sep != "" && Libre(p, sep)
    ensures Partir(p + sep + resto, sep) == [p] + Partir(resto, sep)
  {
    if p == "" {
      assert p + sep + resto == sep + resto;
      assert (sep + resto)[|sep|..] == resto;
    } else {
      var s := p + sep + resto;
      assert !(sep <= s) by {
        assert !(sep <= (p + sep)[0..]);
        assert s[..|sep|] == (p + sep)[..|sep|];
      }
      assert s[1..] == p[1..] + sep + resto;
      forall i | 0 <= i < |p[1..]| ensures !(sep <= (p[1..] + sep)[i..]) {
        assert (p[1..] + sep)[i..] == (p + sep)[i + 1..];
      }
      PartirPrimera(p[1..], sep, resto);
      assert [p[0]] + p[1..] == p;
    }
  }

  lemma {:induction false} PartirSinSeparador(p: string, sep: string)
    requires sep != "" && Libre(p, sep)
    ensures Partir(p, sep) == [p]
  {
    if p != "" {
      assert !(sep <= p) by {
        assert !(sep <= (p + sep)[0..]);
        assert |sep| <= |p| ==> (p + sep)[..|sep|] == p[..|sep|];
      }
      forall i | 0 <= i < |p[1..]| ensures !(sep <= (p[1..] + sep)[i..]) {
        assert (p[1..] + sep)[i..] == (p + sep)[i + 1..];
      }
      PartirSinSeparador(p[1..], sep);
      assert [p[0]] + p[1..] == p;
    }
  }

  /** Splitting undoes joining. */
  lemma {:induction false} PartirUnir(partes: seq<string>, sep: string)
    requires sep != "" && partes != [] && TodasLibres(partes, sep)
    ensures Partir(Unir(partes, sep), sep) == partes
  {
    if |partes| == 1 {
      PartirSinSeparador(partes[0], sep);
    } else {
      PartirUnir(partes[1..], sep);
      PartirPrimera(partes[0], sep, Unir(partes[1..], sep));
      assert partes == [partes[0]] + partes[1..];
    }
  }

  /** A part that does not hold the single-character separator is free of it. */
  lemma LibreDeCaracter(p: string, c: char)
    requires c !in p
    ensures Libre(p, [c])
  {
    forall i | 0 <= i < |p| ensures !([c] <= (p + [c])[i..]) {
      assert (p + [c])[i..][0] == p[i];
    }
  }

  /** No two neighbouring characters of `p` are `a` followed by `b`. */
  predicate SinPar(p: string, a: char, b: char)
  {
    forall i | 0 <= i < |p| - 1 :: !(p[i] == a && p[i + 1] == b)
  }

  /** For a separator of two different characters, not holding the pair is enough: no occurrence straddles the border. */
  lemma LibreDePar(p: string, a: char, b: char)
    requires a != b
    ensures Libre(p, [a, b]) <==> SinPar(p, a, b)
  {
    var sep := [a, b];
    if SinPar(p, a, b) {
      forall i | 0 <= i < |p| ensures !(sep <= (p + sep)[i..]) {
        assert (p + sep)[i..][0] == p[i];
        assert (p + sep)[i..][1] == (p + sep)[i + 1];
      }
    } else {
      var i :| 0 <= i < |p| - 1 && p[i] == a && p[i + 1] == b;
      assert sep <= (p + sep)[i..];
    }
  }

  /** What stands before the first piece stands before the whole text. */
  lemma UnirCabeza(x: string, partes: seq<string>, sep: string)
    requires partes != []
    ensures Unir([x + partes[0]] + partes[1..], sep) == x + Unir(partes, sep)
  {
    var todas := [x + partes[0]] + partes[1..];
    assert todas[1..] == partes[1..];
    if |partes| > 1 { Reasociar(x, partes[0], sep, Unir(partes[1..], sep), ""); }
  }

  /** Joining undoes splitting, whatever the text. */
  lemma {:induction false} UnirPartir(s: string, sep: string)
    requires sep != ""
    ensures Unir(Partir(s, sep), sep) == s
  {
    if s == "" {
    } else if sep <= s {
      var resto := Partir(s[|sep|..], sep);
      UnirPartir(s[|sep|..], sep);
      assert ([""] + resto)[1..] == resto;
      assert "" + sep + s[|sep|..] == s;
    } else {
      UnirPartir(s[1..], sep);
      UnirCabeza([s[0]], Partir(s[1..], sep), sep);
    }
  }

  lemma {:induction false} PrimeraEsPrefijo(s: string, sep: string)
    requires sep != ""
    ensures Partir(s, sep)[0] <= s
  {
    if s != "" && !(sep <= s) { PrimeraEsPrefijo(s[1..], sep); }
  }

  predicate TodasSinPar(partes: seq<string>, a: char, b: char) { forall p | p in partes :: SinPar(p, a, b) }

  /** No piece holds the separator, when this is a pair, nor a pair that the text did not hold. */
  lemma {:induction false} PartirSinPar(s: string, sep: string, a: char, b: char)
    requires sep != "" && (sep == [a, b] || SinPar(s, a, b))
    ensures TodasSinPar(Partir(s, sep), a, b)
  {
    if s == "" {
    } else if sep <= s {
      PartirSinPar(s[|sep|..], sep, a, b);
    } else {
      var resto := Partir(s[1..], sep);
      PartirSinPar(s[1..], sep, a, b);
      PrimeraEsPrefijo(s[1..], sep);
      assert sep == [a, b] && |s| > 1 ==> !(s[0] == a && s[1] == b);
      var p := [s[0]] + resto[0];
      assert SinPar(resto[0], a, b);
      assert forall i | 0 < i < |p| :: p[i] == resto[0][i - 1];
    }
  }

  /** A character in between keeps the pair from straddling. */
  lemma SinParConcat(p: string, c: char, q: string, a: char, b: char)
    requires c != a && c != b
    ensures SinPar(p + [c] + q, a, b) <==> SinPar(p, a, b) && SinPar(q, a, b)
  {
    var s := p + [c] + q;
    assert forall i | 0 <= i < |q| :: q[i] == s[|p| + 1 + i];
    if SinPar(s, a, b) {
      forall i | 0 <= i < |p| - 1 ensures !(p[i] == a && p[i + 1] == b) {
        assert !(s[i] == a && s[i + 1] == b);
      }
      forall i | 0 <= i < |q| - 1 ensures !(q[i] == a && q[i + 1] == b) {
        assert !(s[|p| + 1 + i] == a && s[|p| + 1 + i + 1] == b);
      }
    }
  }

  lemma {:induction false} UnirSinPar(partes: seq<string>, c: char, a: char, b: char)
    requires c != a && c != b
    ensures SinPar(Unir(partes, [c]), a, b) <==> TodasSinPar(partes, a, b)
  {
    if |partes| > 1 {
      UnirSinPar(partes[1..], c, a, b);
      SinParConcat(partes[0], c, Unir(partes[1..], [c]), a, b);
      assert partes == [partes[0]] + partes[1..];
    }
  }

  lemma {:induction false} UnirAlFinal(partes: seq<string>, x: string, sep: string)
    requires partes != []
    ensures Unir(partes + [x], sep) == Unir(partes, sep) + sep + x
  {
    var todas := partes + [x];
    assert todas[1..] == partes[1..] + [x];
    if |partes| == 1 {
      assert todas[1..] == [x];
    } else {
      UnirAlFinal(partes[1..], x, sep);
    }
  }

  lemma {:induction false} UnirSinCaracter(partes: seq<string>, sep: string, c: char)
    requires c !in sep
    requires forall p | p in partes :: c !in p
    ensures c !in Unir(partes, sep)
  {
    if |partes| > 1 { UnirSinCaracter(partes[1..], sep, c); }
  }

  /** No piece holds the separator character, nor a character that the text did not hold. */
  lemma {:induction false} PartirSinCaracter(s: string, sep: char, c: char)
    requires c == sep || c !in s
    ensures forall p | p in Partir(s, [sep]) :: c !in p
  {
    if s != "" { PartirSinCaracter(s[1..], sep, c); }
  }

  lemma Asociar<T>(a: seq<T>, b: seq<T>, c: seq<T>)
    ensures a + b + c == a + (b + c)
  {
  }

  /** The first piece of `rsplit`: what follows the last `x`, or everything when there is none. */
  function UltimaParte(e: seq<string>, x: string): seq<string>
  {
    if e == [] || e[|e| - 1] == x then [] else UltimaParte(e[..|e| - 1], x) + [e[|e| - 1]]
  }

  lemma PrimeroYResto<T>(a: seq<T>, b: seq<T>)
    requires b != []
    ensures a + [b[0]] + b[1..] == a + b
    ensures |b| == 1 ==> a + [b[0]] == a + b
  {
  }

  lemma CabezaYCola(lineas: seq<string>, b: seq<string>)
    requires lineas != []
    ensures [lineas[0]] + (lineas[1..] + b) == lineas + b
  {
  }

  lemma Reasociar(a: string, b: string, c: string, d: string, e: string)
    ensures a + b + c + d + e == a + b + (c + d + e)
  {
  }

  // ---- Lines, as `BufRead::lines` delivers them ----

  predicate SinLF(lineas: seq<string>) { forall l | l in lineas :: LF !in l }

  const LF := '\n'
  const CR := '\r'
  const CRLF := "\r\n"

  /** Index of the first `c` in `s`, or the length of `s`. */
  function Buscar(s: string, c: char): (i: nat)
    ensures i <= |s|
    ensures c !in s[..i]
    ensures i < |s| ==> s[i] == c
  {
    if s == "" || s[0] == c then 0
    else
      var j := Buscar(s[1..], c);
      assert s[..j + 1] == [s[0]] + s[1..][..j];
      j + 1
  }

  function SinCR(s: string): string
  {
    if s != "" && s[|s| - 1] == CR then s[..|s| - 1] else s
  }

  /** A line ends at LF, which is dropped together with one CR before it; an unterminated last line is kept whole. */
  function Lineas(s: string): seq<string>
    decreases |s|
  {
    if s == "" then []
    else
      var i := Buscar(s, LF);
      if i == |s| then [s] else [SinCR(s[..i])] + Lineas(s[i + 1..])
  }

  lemma {:induction false} BuscarEn(a: string, c: char, resto: string)
    requires c !in a
    ensures Buscar(a + [c] + resto, c) == |a|
  {
    if a != "" {
      assert (a + [c] + resto)[1..] == a[1..] + [c] + resto;
      BuscarEn(a[1..], c, resto);
    }
  }

  /** An unterminated last line is delivered whole, with its CR if it has one. */
  lemma LineaSuelta(s: string)
    requires s != "" && LF !in s
    ensures Lineas(s) == [s]
  {
    assert Buscar(s, LF) == |s|;
  }

  lemma LineaLF(a: string, resto: string)
    requires LF !in a
    ensures Lineas(a + [LF] + resto) == [SinCR(a)] + Lineas(resto)
  {
    BuscarEn(a, LF, resto);
    var s := a + [LF] + resto;
    assert s[..|a|] == a;
    assert s[|a| + 1..] == resto;
  }

  lemma LineaCRLF(a: string, resto: string)
    requires LF !in a
    ensures Lineas(a + CRLF + resto) == [a] + Lineas(resto)
  {
    assert a + CRLF + resto == (a + [CR]) + [LF] + resto;
    LineaLF(a + [CR], resto);
    assert SinCR(a + [CR]) == a;
  }

  lemma {:induction false} LineasSinLF(s: string)
    ensures forall l | l in Lineas(s) :: LF !in l
    decreases |s|
  {
    var i := Buscar(s, LF);
    if s != "" && i < |s| {
      LineasSinLF(s[i + 1..]);
      assert LF !in SinCR(s[..i]);
    } else {
      assert s[..i] == s;
    }
  }
}
