/** A parsed command: its name in upper case and a cursor over its parameters. */
module ComandoInfo {
  import opened Basicos

  /** `to_uppercase` on ASCII text. */
  function Mayuscula(c: char): char
  {
    if 'a' <= c <= 'z' then (c as int - 'a' as int + 'A' as int) as char else c
  }

  function Mayusculas(s: string): (r: string)
    ensures |r| == |s| && forall i | 0 <= i < |s| :: r[i] == Mayuscula(s[i])
  {
    if s == "" then "" else [Mayuscula(s[0])] + Mayusculas(s[1..])
  }

  /** Each small letter becomes the capital one of the same place in the alphabet, and nothing else changes. */
  lemma MayusculaEs(i: nat, c: char)
    ensures i < 26 ==> Mayuscula("abcdefghijklmnopqrstuvwxyz"[i]) == "ABCDEFGHIJKLMNOPQRSTUVWXYZ"[i]
    ensures !('a' <= c <= 'z') ==> Mayuscula(c) == c
  {
  }

  class ComandoInfo {
    const nombre: string
    const parametros: seq<string>
    var index: nat

    constructor (comandoParseado: seq<string>)
      requires comandoParseado != []
      ensures nombre == Mayusculas(comandoParseado[0])
      ensures parametros == comandoParseado[1..] && index == 0
    {
      nombre := Mayusculas(comandoParseado[0]);
      parametros := if |comandoParseado| == 1 then [] else comandoParseado[1..];
      index := 0;
    }

    /** What the cursor has still to deliver. */
    function Restantes(): seq<string>
      reads this
    {
      if index <= |parametros| then parametros[index..] else []
    }

    function GetParametros(): (r: Option<seq<string>>)
      ensures r == if parametros == [] then None else Some(parametros)
    {
      if parametros != [] then Some(parametros) else None
    }

    /** The first parameter; the cursor moves behind it, wherever it was. */
    method GetClave() returns (r: Option<string>)
      modifies this
      ensures index == 1
      ensures r == if parametros == [] then None else Some(parametros[0])
      ensures Restantes() == if parametros == [] then [] else parametros[1..]
    {
      index := 1;
      r := if parametros != [] then Some(parametros[0]) else None;
    }

    /** Each call delivers one parameter more, so a loop over the cursor ends. */
    method GetParametro() returns (r: Option<string>)
      modifies this
      ensures old(Restantes()) == [] ==> r == None && Restantes() == [] && index == old(index)
      ensures old(Restantes()) != [] ==> r == Some(old(Restantes())[0]) && Restantes() == old(Restantes())[1..]
    {
      if index < |parametros| {
        r := Some(parametros[index]);
        index := index + 1;
      } else {
        r := None;
      }
    }
  }
}
