# A verified model of the Redis server's store, snapshots, commands and codecs

The server keeps a table of strings, lists, sets and channels in memory. Values may carry a lifetime; nothing is removed
when it ends, each lookup consults the clock instead. Every mutation sends a copy of the whole table down a channel to a
thread that, at most once per interval, writes it to a text file, from which the table is rebuilt at start-up. Clients
speak RESP2, or HTTP with the command in the body of a POST. This project models those four parts and proves what they
are for, and where a promise fails it proves exactly when it holds.

## How it is built

Identifiers are the program's own, in Spanish; comments are in English. A module corresponds to a component:

| modules | what they hold |
|---|---|
| `Basicos`, `Cadenas`, `Decimal`, `Orden` | outcomes and fixed-width integers; split, join and lines; decimal text; the order of texts and the stable sort |
| `Valores`, `Mensajes`, `BaseDeDatos`, `Vigencia` | values and their lifetimes; the channel; the store; lazy against eager expiry |
| `Persistencia`, `IdaYVuelta`, `Archivo`, `Manejador`, `Protocolo` | the snapshot printer and loader; their round trip; the same through the file; the writing thread; every run of the whole protocol |
| `ComandoInfo`, `Parser`, `Respuesta`, `Http`, `OtrosPedidos` | the cursor over parameters; the request parser; the reply printer; HTTP requests; what is answered to other ones |
| `Efectos`, `Listas`, `LeyesDeListas` | list commands and their laws |
| `Sort`, `LeyesDeSort` | SORT and its laws |
| `Textos`, `Conjuntos`, `Claves` | INCRBY, DECRBY and MSET; SADD and SREM; DEL, EXISTS and COPY |

Each command is first a function from a table and parameters to a new table, a reply and the snapshots sent
(`EfectoPop`, `EfectoSadd`, ...). The imperative code, with its classes, cursors and loops, is a method proved to have
exactly that effect on the store and its observers (`Efectos.Hizo`); the laws are lemmas about the functions. A panic
of the original (an index out of range, a checked overflow) is an outcome, `Panico`, not a precondition. Instants are
nanoseconds; an operation that reads the clock receives the reading. A string holds one character per byte. A section
under a lock is one atomic step of a state machine.

## What the code does differently from its documentation

* LREM with count 0 is documented as removing every occurrence (src/comando_list_handler.rs:426); it removes none
  (`LeyesDeListas.CeroNoQuita`).
* LSET is documented as setting the element at an index (src/comando_list_handler.rs:504); it inserts before it
  (`LeyesDeListas.LsetHace`, `LeyesDeListas.LsetEsElDocumentado`).
* MSET is documented as setting each key to its value; the loop advances by one position, so values become keys too
  (`Textos.CadaUnoAlSiguiente`, `Textos.MsetEsElDocumentado`).
* LPUSH and RPUSH accept no values and then store an empty list, on which LRANGE can panic (`LeyesDeListas.VaciaHaceFallar`);
  SORT with STORE and nothing to store does the same (`LeyesDeListas.OrdenConserva`).
* SORT with GET answers Nil for values without an object only as long as none has been found, and does not look at DESC,
  LIMIT and STORE (`LeyesDeSort.NilPorValor`).
* EXPIRE and PERSIST look at the physical table and bring back a key that had expired (`Vigencia.ExpireResucita`).
* SORT's LIMIT with an offset behind the end gives everything, and some negative offsets panic
  (`LeyesDeSort.RangoEsVentana`).
* The snapshot file is opened without truncating it, so entries that were deleted can come back
  (`Archivo.BorradoNoPersiste`). Lists with a lifetime are never read back as they were, and sets hardly ever
  (`IdaYVuelta.EntradaVuelve`).
* A zero byte between CR and LF inside an HTTP body lets a line break into an argument (`Http.ContrabandoDeLinea`), which
  is all that keeps parsed requests from being written and parsed again (`Http.ReleerEsIgual`).

## Model

| member | source | states |
|---|---|---|
| `Valores.Valor.Get` | src/valor.rs:37-52 | a value is seen until the instant of its creation plus its lifetime, always without one, and never with a lifetime of zero |
| `Valores.Valor.ActualizarExpiracion` | src/valor.rs:68-71 | renewing restarts the lifetime at the present instant and changes nothing else |
| `Valores.Valor.HacerPersistente` | src/valor.rs:73-75 | the lifetime is dropped, contents and instants stay |
| `Valores.Valor.ActualizarUltimoAcceso` | src/valor.rs:77-79 | only the access instant moves |
| `BaseDeDatos.BaseDeDatos.ObtenerValor` | src/base_de_datos.rs:38-43 | a lookup answers from the live part of the table only |
| `BaseDeDatos.BaseDeDatos.ExisteClave` | src/base_de_datos.rs:111-116 | a key exists exactly when it is in the table and has not expired |
| `BaseDeDatos.BaseDeDatos.GuardarValor` | src/base_de_datos.rs:89-93 | one key is replaced, aliasing is kept out, and every observer gets exactly one message: the new table |
| `BaseDeDatos.BaseDeDatos.GuardarValorConExpiracion` | src/base_de_datos.rs:52-67 | the same with a lifetime that begins now |
| `BaseDeDatos.BaseDeDatos.GuardarValores` | src/base_de_datos.rs:95-109 | the in-place loop performs one save per turn and notifies once, at the end |
| `BaseDeDatos.BaseDeDatos.EliminarClave` | src/base_de_datos.rs:118-125 | the key is gone, the reply says whether it was physically there, and observers are told in either case |
| `BaseDeDatos.BaseDeDatos.CopiarValor` | src/base_de_datos.rs:133-141 | a live value is saved under the new key without its lifetime and notified; otherwise nothing happens at all |
| `BaseDeDatos.BaseDeDatos.IntercambiarValor` | src/base_de_datos.rs:172-187 | collections are left alone, anything else is replaced, the old text is returned, and nobody is notified |
| `BaseDeDatos.BaseDeDatos.BorrarClaves` | src/base_de_datos.rs:204-208 | the table is emptied and every observer gets the empty one |
| `BaseDeDatos.BaseDeDatos.ActualizarValorConExpiracion` | src/base_de_datos.rs:69-77 | in-place renewal of one value: no other key changes, nobody is notified, expired or not |
| `BaseDeDatos.BaseDeDatos.ActualizarValorSinExpiracion` | src/base_de_datos.rs:79-87 | the same for dropping the lifetime |
| `BaseDeDatos.BaseDeDatos.ActualizarUltimoAcceso` | src/base_de_datos.rs:143-156 | the same for the access instant |
| `BaseDeDatos.BaseDeDatos.NotificarObservadores` | src/base_de_datos.rs:240-244 | each observer receives the table exactly once, behind what was already in its channel |
| `BaseDeDatos.BaseDeDatos.AgregarObservador` | src/base_de_datos.rs:246-248 | an observer is added behind the others and the table stays as it is |
| `Vigencia.OperacionRefina` | src/base_de_datos.rs:52-187 | one operation changes the live view as a map without dead keys would, if and only if it does not revive an expired key |
| `Vigencia.EsperaRefina` | src/valor.rs:37-44 | while time passes the live view loses exactly the keys that fall due |
| `Vigencia.LaPerezosaRefina` | src/base_de_datos.rs:38-43 | over every run of operations and clock ticks that revives no expired key, existence and lookup answer as a map from which each key vanishes at its instant |
| `Vigencia.RefinaExactamente` | src/base_de_datos.rs:38-187 | the store and the eager map agree all along a run if and only if no event of it revives an expired key |
| `Vigencia.ExpireResucita` | src/base_de_datos.rs:69-77 | a run in which EXPIRE brings back a value that had ceased to exist |
| `Cadenas.PartirUnir` | src/persistencia.rs:222 | splitting undoes joining when no piece makes the separator appear early |
| `Cadenas.UnirPartir` | src/http_parser.rs:33 | joining undoes splitting for every text and separator |
| `Cadenas.LibreDePar` | src/http_parser.rs:33 | for a two-character separator it is enough, and needed, that no piece holds it |
| `Cadenas.LineaLF` | src/persistencia.rs:216-218 | a line ends at LF and loses one CR before it |
| `Cadenas.LineaSuelta` | src/parser.rs:29-45 | an unterminated last line is delivered whole, with its CR |
| `Decimal.ValorPosicional` | src/comando_string_handler.rs:266-286 | digits are read in base ten, by position |
| `Decimal.ValorDeUnDigito` | src/comando_string_handler.rs:266-286 | each of the ten digits has its value |
| `Decimal.ParseI32DeTexto` | src/comando_string_handler.rs:266-286 | the decimal text of every 32-bit integer, the two ends included, parses back to it, and no other integer does |
| `Decimal.ParseI32Exacto` | src/comando_string_handler.rs:266-286 | exactly what is read as a 32-bit integer: a sign or none, and digits with any zeros before |
| `Decimal.ParseSinSignoExacto` | src/comando_list_handler.rs:135-145 | exactly what is read as a number without sign: digits, with or without a plus, within range |
| `Decimal.IntATextoInyectiva` | src/comando_string_handler.rs:288 | different integers have different decimal texts |
| `Persistencia.AgregarLista` | src/persistencia.rs:155-171 | the appending loop produces the fields joined by the separator |
| `Persistencia.AgregarSet` | src/persistencia.rs:173-188 | the same over a set, in some order that visits each member once |
| `Persistencia.GuardarClaveValor` | src/persistencia.rs:137-191 | the line of an entry: tag, key, contents, and the lifetime behind its marker; an empty line for expired values and channels |
| `IdaYVuelta.FormatoDeLinea` | src/persistencia.rs:137-191 | the lines as they stand in the file: tag, key and contents separated by colons, and EX with the seconds behind them when there is a lifetime |
| `Persistencia.LevantarTabla` | src/persistencia.rs:208-290 | the in-place loader computes the table that the lines determine, later lines winning, or panics on a short line or a bare marker; a missing file gives an empty table |
| `IdaYVuelta.LineaLeida` | src/persistencia.rs:218-290 | what the loader makes of any line at all: which tag wins, which field is the key, when a lifetime is read and as what, and which lines are out of range |
| `IdaYVuelta.LineaVacia` | src/persistencia.rs:219-221 | empty lines are passed over |
| `IdaYVuelta.EntradaVuelve` | src/persistencia.rs:137-290 | an entry is read back with the same key, contents and lifetime if and only if no tag word stands where the loader would mistake it |
| `IdaYVuelta.LevantarDeshaceGuardar` | src/persistencia.rs:208-276 | for every table and every iteration order, loading the printed lines gives the live, channel-free part if and only if no saved text holds ':' and every saved entry is recoverable |
| `Archivo.ArchivoVuelve` | src/persistencia.rs:193-276 | through the bytes of a file that held no longer a text: the table comes back if and only if its texts hold no ':' and no LF, its entries are recoverable and no printed line ends in CR |
| `Archivo.CRFinalImpide` | src/persistencia.rs:199-218 | one printed line that ends in CR keeps the table from coming back, whatever the other lines are |
| `Archivo.SinCREnLaTabla` | src/persistencia.rs:137-191 | texts without CR print no line that ends in one |
| `Archivo.TextosLimpiosVuelven` | src/persistencia.rs:193-276 | in terms of the table alone: a table whose texts hold no ':', CR or LF and whose entries are recoverable survives its file |
| `IdaYVuelta.LevantarConcatena` | src/persistencia.rs:208-276 | loading one text after another merges the two tables, the later one prevailing |
| `Archivo.SeMezclan` | src/persistencia.rs:193-276 | whatever the file held, the written lines and the leftover of the old text load one after the other |
| `Archivo.ArchivoConCola` | src/persistencia.rs:193-276 | over a file with any old contents, and for every table: it comes back if and only if the leftover loads only to entries of it and the new lines to all its other entries; for a table that survives its file the first alone decides |
| `Archivo.BorradoNoPersiste` | src/persistencia.rs:193-198 | when the deleted entries were the last of the file, every key that their lines give is there after loading, with its old entry |
| `Mensajes.Persistidor.Actualizar` | src/persistencia.rs:110-133 | a snapshot goes to the end of the channel |
| `Mensajes.Persistidor.CambiarArchivo` | src/persistencia.rs:119-125 | a change of file goes to the end of the channel |
| `Mensajes.Persistidor.Recibir` | src/persistencia.rs:65 | the receiver gets the oldest message, or learns that there is none |
| `Manejador.PersistidorHandler.constructor` | src/persistencia.rs:45-52 | the interval is counted from the construction on |
| `Manejador.PersistidorHandler.Lineas` | src/persistencia.rs:70-77 | the loop over the table prints each entry once, live or expired by the clock at that entry |
| `Manejador.PersistidorHandler.AtenderMensaje` | src/persistencia.rs:66-89 | one message: a due snapshot is written over the file, a failed opening or a closing ends the loop, a change of file takes effect |
| `Manejador.PersistidorHandler.Persistir` | src/persistencia.rs:64-91 | the loop handles the messages in order until it breaks or the channel is empty, and its state is the fold of those turns |
| `Protocolo.LoQueSeEnvia` | src/base_de_datos.rs:52-244 | in every run, event by event: a save, a removal, a copy of a live key or a flush sends exactly the new table, and a swap, an EXPIRE, a PERSIST, a TOUCH or a copy of a key that is not live sends nothing |
| `Protocolo.MensajesReales` | src/base_de_datos.rs:89-93 | in every run the snapshots sent are, in order, the tables the database had right after the events that sent them |
| `Protocolo.ManejadorAlDia` | src/persistencia.rs:64-91 | an active handler has met no closing message, and its file is the last one named in what it received |
| `Protocolo.EscriturasEnOrden` | src/persistencia.rs:64-91 | in every run the writes are a subsequence of the messages, each in the file then in force and before any closing message |
| `Protocolo.EscriturasSonHistoria` | src/persistencia.rs:64-91 | in every interleaving the tables written are tables the database really had, in the order in which it had them |
| `Protocolo.EscriturasEspaciadas` | src/persistencia.rs:68-82 | writes do not overlap, and at least the interval lies between the end of one and the start of the next |
| `Protocolo.NingunaSeSalteaSinMotivo` | src/persistencia.rs:68-82 | every snapshot received was written, or came within the interval of an earlier write or of the start, or met a file that does not open |
| `Protocolo.CerrarTermina` | src/persistencia.rs:88 | once the closing message is received the loop has ended |
| `Protocolo.NadaTrasElCierre` | src/persistencia.rs:64-91 | after the loop has ended nothing is received or written, whatever else happens |
| `Protocolo.DiscoSiempreFiel` | src/persistencia.rs:70-82 | every write serialises its table with each entry judged at an instant within the write, and the last one is what its file holds |
| `Protocolo.LoQueHabia` | src/persistencia.rs:193-205 | over every run: what each write found in its file is what the latest earlier write to that file left over what it had found, or its initial contents; and so is what every file holds now |
| `Protocolo.Recuperacion` | src/persistencia.rs:193-276 | in every run, if the last write was no shorter than what its file held, loading the file gives the live part of a table of the history if and only if that table survives its file |
| `Protocolo.RecuperacionConCola` | src/persistencia.rs:193-276 | in every run, whatever the last write found in its file, which is what the run left there: the exact condition on the leftover and the new lines under which the table comes back |
| `ComandoInfo.ComandoInfo.constructor` | src/comando_info.rs:17-33 | only the name is upper-cased; the parameters are the other arguments as they came |
| `ComandoInfo.MayusculaEs` | src/comando_info.rs:20-26 | small letters become the capital ones of the same place, and nothing else changes |
| `ComandoInfo.ComandoInfo.GetClave` | src/comando_info.rs:41-47 | the key is the first parameter, and the cursor stands behind it |
| `ComandoInfo.ComandoInfo.GetParametro` | src/comando_info.rs:68-75 | each call takes the next parameter off those that remain, so every loop over it ends |
| `Parser.ParsearStream` | src/parser.rs:29-62 | the two-lines-at-a-time loop yields the command that the lines determine, the same syntax errors, and a panic when there is no argument at all |
| `Parser.ParsearInvierteCodificar` | src/parser.rs:29-92 | for every non-empty argument list and any bytes behind it, the encoding parses back to the list if and only if counts and lengths fit 32 bits and no argument holds LF; otherwise it is a syntax error |
| `Parser.CuentaDeclarada` | src/parser.rs:29-62 | a declared count that is not that of the arguments: a smaller one cuts them, zero or a larger one takes all there is, and no argument at all panics |
| `Parser.PrimeraLineaMala` | src/parser.rs:29-45 | no bytes are an empty message, and a first line that is no number behind its first character is a syntax error |
| `Respuesta.DecodificarDeshace` | src/parser.rs:66-83 | a client decoder that follows RESP2 reads any nested decodable reply back, leaving exactly the bytes behind it |
| `Respuesta.RespuestaVuelve` | src/parser.rs:66-83 | a printed reply is read back if and only if there is no empty reply inside and no CRLF in a simple string or error |
| `Respuesta.VariasDeshace` | src/parser.rs:66-83 | a stream of replies is cut exactly where each ends, even when bulk strings hold CRLF |
| `Respuesta.LibreDePrefijos` | src/parser.rs:66-83 | no decodable reply prints as the beginning of another, so printing is injective |
| `Respuesta.VacioColisiona` | src/parser.rs:66-83 | two different vectors with an empty reply inside print alike |
| `Http.ObtenerHeaders` | src/http_parser.rs:77-93 | the loop collects names and values up to the empty line and drains the lines it has used |
| `Http.ParsearStream` | src/http_parser.rs:21-46 | the request built is the one that the padded buffer determines, errors and panics included |
| `Http.ElDrenajeNoFalla` | src/http_parser.rs:77-93 | where an empty line follows, draining the headers stays inside the lines |
| `Http.SoloPostFalla` | src/http_parser.rs:95-106 | from any bytes, only a POST can panic |
| `Http.IdaYVuelta` | src/http_parser.rs:21-106 | a POST whose fields hold none of their separators and that fits the buffer parses back to the same method, URI, version, headers and arguments |
| `Http.LeidoEsEscribible` | src/http_parser.rs:21-106 | whatever the bytes, a POST that is parsed is well formed and its text fits the buffer, even with a zero in each line break |
| `Http.PedidoVuelve` | src/http_parser.rs:21-106 | the round trip of any POST, exactly: if and only if it is well formed, its text fits 5000 bytes and no argument holds CRLF |
| `Http.ReleerEsIgual` | src/http_parser.rs:21-106 | writing out what was parsed from any bytes and parsing it again is the identity if and only if no line break was smuggled in |
| `Http.LoLegible` | src/http_parser.rs:21-106 | exactly the POSTs that come out of some bytes: those that are well formed and fit with a zero in each line break of the body, and they come out of that text |
| `Http.ContrabandoDeLinea` | src/http_parser.rs:33-105 | for any two texts, a body with CR, a zero and LF between them parses to one argument with a line break inside, which its own text does not give back |
| `OtrosPedidos.OtroMetodo` | src/http_parser.rs:95-98 | any method but POST carries no command, whatever follows its headers |
| `OtrosPedidos.CuerpoMalo` | src/http_parser.rs:99-103 | a POST whose body is only the field name panics, and one that does not begin with that name and an equals sign is a syntax error |
| `OtrosPedidos.LineaDeMetodoMala` | src/http_parser.rs:68-75 | a request line that is not of three parts is refused |
| `OtrosPedidos.HeaderMalo` | src/http_parser.rs:77-90 | a header line that is not a name and a value is refused, whatever comes before and after |
| `Listas.Drenar` | src/comando_list_handler.rs:159-168 | reverse, drain, reverse takes the elements at the chosen end, in list order |
| `Listas.Pop` | src/comando_list_handler.rs:126-189 | the whole effect of LPOP and RPOP: table, reply, snapshot sent, the key of an emptied list, the panic beyond the length |
| `Listas.Push` | src/comando_list_handler.rs:213-308 | the whole effect of LPUSH, RPUSH and their X forms: table, reply and snapshot sent |
| `Listas.Empujar` | src/comando_list_handler.rs:191-211 | all remaining values are pushed, the list is saved without a lifetime, one snapshot of that is sent, and the reply is its length |
| `Listas.EmpujarRestantes` | src/comando_list_handler.rs:198-204 | inserting one by one at the front leaves the values reversed, at the back in order |
| `Listas.FiltrarLista` | src/comando_list_handler.rs:473-490 | the reversing and counting loop of LREM |
| `Listas.Lrem` | src/comando_list_handler.rs:427-503 | the whole effect of LREM: table, reply, snapshot sent, the key removed when nothing is left, the overflow of the absolute value |
| `Listas.Lset` | src/comando_list_handler.rs:505-568 | the whole effect of LSET: table, reply and snapshot sent |
| `LeyesDeListas.PushEnLista` | src/comando_list_handler.rs:191-308 | the four push commands on a live list: the values behind it in order or before it reversed, the new length as reply, one snapshot, no other key |
| `LeyesDeListas.PushEnAusente` | src/comando_list_handler.rs:191-308 | on a key that holds nothing live they start a list, or do nothing in the X forms |
| `LeyesDeListas.PushEnOtro` | src/comando_list_handler.rs:213-308 | on anything else they answer with the type error |
| `LeyesDeListas.CuatroPush` | src/comando_list_handler.rs:213-308 | which of the four push commands work at the end, and which on an existing key only |
| `LeyesDeListas.PopHace` | src/comando_list_handler.rs:126-168 | LPOP and RPOP where there is no list long enough: Nil, the type error or a panic; without a count they take one |
| `LeyesDeListas.PopDeLista` | src/comando_list_handler.rs:159-189 | LPOP and RPOP of a live list: what is cut off is replied in list order, alone if it is one element, the rest is saved, and an emptied list loses its key |
| `LeyesDeListas.PopSinNumero` | src/comando_list_handler.rs:135-145 | a count that is no number is refused |
| `LeyesDeListas.LremHace` | src/comando_list_handler.rs:427-503 | LREM with its arguments as texts, on every kind of key: the list without the element on one side of a cut, min of the absolute count and the occurrences as reply |
| `LeyesDeListas.ArgumentosMalos` | src/comando_list_handler.rs:427-538 | LREM and LSET with too few arguments, or a number that is none |
| `LeyesDeListas.LrangeHace` | src/comando_list_handler.rs:310-377 | LRANGE with its arguments as texts: the elements between the normalised bounds, as bulk strings in their order |
| `LeyesDeListas.RecortarPorIndice` | src/comando_list_handler.rs:362-422 | for every non-empty list and all 32-bit bounds, LRANGE returns exactly the elements between the normalised bounds, with no overflow and no slice out of range |
| `LeyesDeListas.RecortarVacia` | src/comando_list_handler.rs:406-418 | on an empty list it panics exactly for a negative start with a non-negative stop |
| `LeyesDeListas.QuitarCorta` | src/comando_list_handler.rs:473-490 | LREM removes exactly min of the absolute count and the occurrences: those on one side of a cut, leftmost for a positive count, rightmost for a negative one, the rest in order |
| `LeyesDeListas.QuedaVacia` | src/comando_list_handler.rs:492-502 | lengths balance with the reply, and nothing is left exactly when all elements equal the argument and the count reaches the length |
| `LeyesDeListas.CeroNoQuita` | src/comando_list_handler.rs:423-427 | count zero removes nothing, so it does what is documented if and only if the element is absent |
| `LeyesDeListas.PopReune` | src/comando_list_handler.rs:159-168 | popped and remaining parts reassemble the list, for every count up to its length |
| `LeyesDeListas.PopDeshacePush` | src/comando_list_handler.rs:126-211 | popping as many as were pushed at the same end returns them (reversed on the left) and restores the former list, or its absence |
| `LeyesDeListas.OrdenConserva` | src/comando_list_handler.rs:126-568 | a push, pop, LREM, LSET, SORT or COPY on a table without empty lists leaves none if and only if it is neither a push of no values on an absent key nor a SORT with nothing to STORE |
| `LeyesDeListas.NuncaHayVacias` | src/comando_list_handler.rs:126-568 | over every run of them no list is ever empty if and only if no command of the run is one of those |
| `LeyesDeListas.LrangeTrasLaCorrida` | src/comando_list_handler.rs:310-422 | after such a run no LRANGE panics |
| `LeyesDeListas.OrdenAvisa` | src/base_de_datos.rs:89-131 | none of these commands changes the table without sending the new one, as its last snapshot |
| `LeyesDeListas.VaciaHaceFallar` | src/comando_list_handler.rs:198-210 | LPUSH without values followed by LRANGE -1 0 panics |
| `LeyesDeListas.LsetHace` | src/comando_list_handler.rs:505-568 | LSET with its arguments as texts, on every kind of key: the element is inserted at the index, counted from the end when negative, and no other key changes |
| `LeyesDeListas.LsetEsElDocumentado` | src/comando_list_handler.rs:504-568 | LSET does what is documented if and only if the index names no position of a live list: every successful call inserts instead of replacing |
| `Orden.OrdenarOrdenada` | src/comando_key_handler.rs:454 | the result of the sort is non-decreasing in the key |
| `Orden.MenorIgualEs` | src/comando_key_handler.rs:356 | the order of the sort: a beginning first, and else the first byte that differs |
| `Orden.OrdenarEstable` | src/comando_key_handler.rs:454 | elements with equal keys keep their order |
| `Orden.EstableEsUnica` | src/comando_key_handler.rs:454 | any stable sort gives that same result |
| `Orden.OrdenarTextosNoDependeDelOrden` | src/comando_key_handler.rs:356 | the sorted permutation of texts is unique, whatever order a set delivers |
| `Sort.SelecionarRango` | src/comando_key_handler.rs:310-339 | the index variables of LIMIT select that range, or panic |
| `Sort.SortConfiguracionListaOrdenada` | src/comando_key_handler.rs:389-425 | DESC, LIMIT and STORE applied in that order to a sorted vector, and the snapshot that STORE sends |
| `Sort.TuplasDeUnValor` | src/comando_key_handler.rs:370-384 | the inner loop: one tuple per weight key with the same last segment, or failure when one holds no live string |
| `Sort.ObtenerTuplaValorPeso` | src/comando_key_handler.rs:360-387 | the nested loops of the join |
| `Sort.SortElementoConPesosExternos` | src/comando_key_handler.rs:427-499 | the effect of BY with and without GET, the weights and the objects being all keys that match their patterns, in some order |
| `Sort.BuscarObjetos` | src/comando_key_handler.rs:466-490 | the nested loops of GET and their flag, which is never lowered |
| `Sort.Ejecutar` | src/comando_key_handler.rs:501-536 | the whole effect of SORT on every parameter list: table, reply and snapshot sent |
| `LeyesDeSort.RangoEsVentana` | src/comando_key_handler.rs:324-338 | LIMIT gives the window of `count` elements from `offset` if and only if the limits are of the good kinds, for all 32-bit limits; an offset behind the end gives everything, and a negative one with a count that ends inside panics |
| `LeyesDeSort.NumerosDe` | src/comando_key_handler.rs:310-323 | offset and count are the first two parameters that read as numbers, in that order, whatever stands around them |
| `LeyesDeSort.ConfigurarFalla` | src/comando_key_handler.rs:316-325 | LIMIT without two numbers or with nothing to select from, and STORE without a key, panic |
| `LeyesDeSort.SortSinBy` | src/comando_key_handler.rs:310-425 | without BY the result is the window of the one ordered permutation, reversed for DESC; STORE saves just that, replies its length and touches no other key |
| `LeyesDeSort.SortCasos` | src/comando_key_handler.rs:427-536 | the other outcomes of SORT: nothing to sort, the wrong type, texts that are no numbers without ALPHA, keywords with nothing behind them, a number of weights that is not that of the values, weights that are no live strings |
| `LeyesDeSort.IndiceTrasElUltimo` | src/comando_key_handler.rs:367-372 | values and weights are matched by what follows the last underscore |
| `LeyesDeSort.IndiceEsSegmento` | src/comando_key_handler.rs:367-372 | values and weights are matched by the last of the segments between underscores |
| `LeyesDeSort.TrasElUltimo` | src/comando_key_handler.rs:406-434 | the pattern and the destination are what follows the last keyword |
| `LeyesDeSort.UnionCompleta` | src/comando_key_handler.rs:374-381 | the join succeeds if and only if every weight key that ends as some value does is in the table, live, with a string |
| `LeyesDeSort.CuentaDeLaUnion` | src/comando_key_handler.rs:366-385 | a value leaves the join as often as it occurs times the weight keys it matches |
| `LeyesDeSort.UnionConserva` | src/comando_key_handler.rs:360-387 | the join conserves the values if and only if each matches exactly one weight key |
| `LeyesDeSort.UnionEnOrden` | src/comando_key_handler.rs:360-387 | and then it keeps their order |
| `LeyesDeSort.SortPorPesos` | src/comando_key_handler.rs:427-499 | with BY and none of GET, DESC, LIMIT and STORE the reply is non-decreasing in the live text under the weight key, with ties in the order of the join, and a permutation of the values exactly when each matches one weight key |
| `LeyesDeSort.SortPorPesosConfigurado` | src/comando_key_handler.rs:493-499 | with DESC, LIMIT or STORE besides: the window of those values or of their reverse, replied or stored |
| `LeyesDeSort.SortConGet` | src/comando_key_handler.rs:456-491 | with GET: one Nil for each value before the first with an object, then the live texts under all keys whose name contains a value, in the order of values and keys, and DESC, LIMIT and STORE count for nothing |
| `LeyesDeSort.NilPorValor` | src/comando_key_handler.rs:466-490 | with GET each value without an object answers Nil if and only if no such value stands behind one that has some |
| `LeyesDeSort.SortAvisa` | src/comando_key_handler.rs:405-418 | SORT changes the table only by STORE, with a snapshot of the new one |
| `Textos.OperarSobreInt` | src/comando_string_handler.rs:245-301 | the whole effect of INCRBY and DECRBY: missing keys count as zero, errors change and send nothing, an overflow is a panic |
| `Textos.OperarHace` | src/comando_string_handler.rs:245-301 | INCRBY stores and replies the decimal of the sum, DECRBY of the difference, a missing or expired key counting as zero; leaving 32 bits panics |
| `Textos.OperarRechaza` | src/comando_string_handler.rs:255-284 | other types and texts that are no numbers are refused, and a missing parameter counts as zero |
| `Textos.TextosAvisan` | src/comando_string_handler.rs:245-352 | INCRBY, DECRBY and MSET change the table only with a snapshot of the new one |
| `Textos.SumaCanonica` | src/comando_string_handler.rs:245-301 | a sequence of them on one key runs through if and only if every partial sum fits 32 bits, and then the key holds the decimal of the sum and no other key has changed |
| `Textos.NumeroCanonico` | src/comando_string_handler.rs:286-291 | what is stored is the canonical decimal text and reads back to the number at any later instant |
| `Textos.Mset` | src/comando_string_handler.rs:333-352 | the whole effect of MSET: table, reply and the one snapshot sent |
| `Textos.MsetResponde` | src/comando_string_handler.rs:333-352 | an even number of parameters is answered with OK and one snapshot; none or an odd number is refused |
| `Textos.CadaUnoAlSiguiente` | src/base_de_datos.rs:95-109 | every parameter but the last maps to the element after its last occurrence, and all other keys stay |
| `Textos.ClavesComoDocumentado` | src/comando_string_handler.rs:332-352 | when no value is also a key, each supplied key reads back as documented, its last supplied value |
| `Textos.MsetEsElDocumentado` | src/comando_string_handler.rs:332-352 | for every even number of parameters: the table is the documented one if and only if for each of them but the last the element after its last occurrence is the value documented for it, or what was there if it is no key |
| `Textos.MsetDeUnPar` | src/comando_string_handler.rs:332-352 | a single pair always is as documented; several are not when a value among them, not the last, is neither a supplied key nor a key of the table |
| `Conjuntos.AgregarAlSet` | src/comando_set_handler.rs:67-80 | the loop unites the set with the parameters and counts each new member once |
| `Conjuntos.EliminarDelSet` | src/comando_set_handler.rs:194-207 | the loop takes the parameters out and counts each member that was there once |
| `Conjuntos.Sadd` | src/comando_set_handler.rs:39-65 | the whole effect of SADD: table, reply and snapshot sent |
| `Conjuntos.Srem` | src/comando_set_handler.rs:165-192 | the whole effect of SREM: table, reply and snapshot sent |
| `Conjuntos.SaddHace` | src/comando_set_handler.rs:39-80 | SADD on every kind of key: the members named join those of the set, and the reply is how many were not there |
| `Conjuntos.SremHace` | src/comando_set_handler.rs:165-207 | SREM on every kind of key: the members named leave the set, and the reply is how many were there |
| `Conjuntos.ConjuntoAvisa` | src/comando_set_handler.rs:39-207 | SADD and SREM change the table only with a snapshot of the new one |
| `Conjuntos.PasoConserva` | src/comando_set_handler.rs:39-207 | each step changes the cardinality by what it replies, and a set without a lifetime stays without |
| `Conjuntos.SeConservanLosMiembros` | src/comando_set_handler.rs:39-207 | over any interleaving of SADD and SREM by any clients, the SADD replies on a key less its SREM replies are the change in its cardinality |
| `Conjuntos.LoQueSeVence` | src/comando_set_handler.rs:39-207 | over any interleaving the account misses exactly the members of a set that dies before anybody touches it |
| `Conjuntos.ConservanExactamente` | src/comando_set_handler.rs:39-207 | the account balances over any run if and only if the key holds no live set with a lifetime at the start, or its first SADD or SREM, or the end of the run, comes before the expiry instant, or the set is empty |
| `Claves.RecorrerYEjecutar` | src/comando_key_handler.rs:119-149 | the cursor loop visits the keys in order, applies the function to the live ones, sends a snapshot after each removal and replies how many |
| `Claves.DelSolo` | src/comando_key_handler.rs:119-149 | one DEL alone: the table loses exactly the live keys among the arguments, the reply is how many distinct ones, and as many snapshots are sent |
| `Claves.DelAvisa` | src/comando_key_handler.rs:119-149 | the last snapshot of a DEL is its final table |
| `Claves.ExistsSolo` | src/comando_key_handler.rs:151-153 | EXISTS changes and sends nothing and replies how many positions name a live key |
| `Claves.Copiar` | src/comando_key_handler.rs:51-76 | the whole effect of COPY |
| `Claves.CopiarHace` | src/comando_key_handler.rs:51-76 | COPY saves a live value under the second name, without its lifetime, and otherwise replies zero |
| `Claves.CuentasCuadran` | src/comando_key_handler.rs:119-138 | in every reachable state the record of the keys that a client counted is as long as its reply |
| `Claves.SoloEsElComando` | src/comando_key_handler.rs:119-138 | a client that is not interrupted leaves the table that the command leaves, and what it has counted is the reply of the command |
| `Claves.CadaClaveSeCuentaUnaVez` | src/comando_key_handler.rs:119-149 | under any interleaving of DEL steps, other operations and the clock, the times a key is counted balance with its births and other deaths |
| `Claves.RespuestasSumanLoEliminado` | src/comando_key_handler.rs:119-149 | the sum of all DEL replies is the number of live keys that the DELs removed |
| `Claves.SinAltasALoSumoUna` | src/comando_key_handler.rs:119-149 | when nobody adds the key, all the clients together count it at most once |

## Left out

- Sockets, threads, timeouts and client handling (src/redis.rs, src/cliente.rs): plumbing; a lock is an atomic step.
- A poisoned lock: the reply "ERR when accessing the database" needs a panic of another thread while it holds the lock.
- The file system beyond one text per file: a write of a batch is atomic with respect to a crash, single `writeln!`
  errors are ignored as the code ignores them, and the file is read as a whole.
- Text encodings: one character per byte, upper-casing on ASCII only; invalid UTF-8, which ends loading and rejects
  requests, is not part of this model.
- Memory: capacities reserved in advance, and lists longer than a 32-bit integer under LRANGE and LSET.
- Listas.Lset: the cast of the length to 32 bits is the length itself.
- Listas.Pop, Listas.Push, Listas.Lrem, Listas.Lset: they read under one lock and write under another; they are modelled
  without another client in between.
- Textos.OperarSobreInt: the same two locks; modelled sequentially.
- Sort.Ejecutar: the regular expression is the parameter `coincide`, and its repeated locks are one step.
- LeyesDeSort.SortSinBy: LIMIT only with limits of the kinds for which `LeyesDeSort.RangoEsVentana` gives the window, and
  with no other numeric parameter.
- Vigencia.LaPerezosaRefina: runs that revive an expired key by EXPIRE or PERSIST are excluded; `Vigencia.RefinaExactamente`
  shows that they are exactly those that break the agreement.
- Archivo.ArchivoVuelve: supposes that the old file was not longer; `Archivo.ArchivoConCola` is the general case.
- Protocolo.Recuperacion: the same; `Protocolo.RecuperacionConCola` is the general case.
- Conjuntos.SeConservanLosMiembros: the key holds no live set with a lifetime at the start;
  `Conjuntos.ConservanExactamente` decides all cases.
- One clock reading per command, and one per entry of a batch.
- DBSIZE, KEYS, TTL, TYPE, RENAME, TOUCH, GET, SET, GETSET, GETDEL, APPEND, STRLEN, MGET, LINDEX, LLEN, SCARD,
  SISMEMBER, SMEMBERS: easy members over the same store.
- EXPIRE, EXPIREAT and PERSIST as commands: their effect on the store is modelled, their argument checks are not.
- HTTP responses and the web page: a display form that is not meant to be read back.
- Configuration, logging, publish and subscribe, INFO, PING, MONITOR, dispatch of command names.
