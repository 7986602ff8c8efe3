# Lotería game core, modelled in Dafny

This project models the server side of an online Lotería (Mexican bingo)
game. The model covers:

- **The game controller.** Players create a game, join it while it waits
  for players (at most 16), and the host starts it once at least 4 players
  are in; starting deals every player a board of 16 catalog cards. The host
  then reveals the catalog cards one by one in random order. Players place
  beans on positions of their board; marking a card that was not announced
  flags the player as a cheater. The first player who is not flagged and
  fills all 16 positions wins. Players can read the game state, the host can
  see every board, and players can leave.
- **The two random helpers.** One draws 16 distinct cards for a board; the
  other is a Fisher–Yates shuffle of the catalog.
- **The catalog seeder.** It inserts the 54 cards of the deck into the
  catalog table, skipping numbers that are already present.

Files and modules:

- `util.dfy` (`Util`): `Option`, `Distinct`, `Filter` and counting lemmas
  over sequences.
- `helpers.dfy` (`LoteriaHelpers`): the board draw and the shuffle.
- `mazo.dfy` (`MazoCartas`): the 54-card deck and the seeder. The seeder is a
  class over the catalog table.
- `juegos_model.dfy` (`JuegosModel`): the records and their queries. It also
  holds the invariants the store keeps, and the value-level lemmas the
  actions use, including the cascades of the foreign keys.
- `juegos.dfy` (`Juegos`): the class `Store`, with one method per controller
  action and the read-only views.

The store holds four tables as fields:

- users, as a sequence indexed by user id;
- games, as a map from game id;
- boards (`cartas`), as a sequence of rows;
- beans (`fichas`), as a sequence of rows.

It also holds the catalog ids. `Valid()` is the store invariant: the tables'
references and caps hold (`JuegosModel.EstadoOk`). Leaving follows
salirJuego as written, so a game can end up with two hosts (see Findings);
`Valid()` therefore does not promise a single host per game. Each action either
changes these fields and keeps `Valid()`, or returns an `Err` naming the controller's refusal and
changes nothing. The exception is the cheat path of marking: it flags the
user and returns an error.

`Math.random` is replaced by caller-supplied draws, restricted to the range
the source computes. A board is dealt from the draws `sorteo(j)` of player
`j`. The reveal picks index `azar % n` among the `n` unannounced cards. So
every outcome the source can produce is an outcome of the model.

## Model

| member | source | states |
|---|---|---|
| LoteriaHelpers.Sample | app/utils/loteria_helpers.ts:12-16 | drawing `k` cards without replacement gives `k` cards, a sub-multiset of the pool |
| LoteriaHelpers.DrawStep | app/utils/loteria_helpers.ts:13-15 | one iteration moves the picked card from the pool to the board and leaves the remaining draws valid for the smaller pool |
| LoteriaHelpers.DrawKeepsPool | app/utils/loteria_helpers.ts:14-15 | board and pool together keep the same multiset of ids across an iteration |
| LoteriaHelpers.SampleFromPool | app/utils/loteria_helpers.ts:12-16 | every drawn id is a catalog id, and no id is drawn twice from a duplicate-free catalog |
| LoteriaHelpers.GenerarCartillaAleatoria | app/utils/loteria_helpers.ts:3-19 | the splice loop returns exactly the draw `Sample(catalog, draws)`: 16 catalog ids, pairwise distinct |
| LoteriaHelpers.Swap | app/utils/loteria_helpers.ts:29 | the two positions exchange their values and every other position is unchanged |
| LoteriaHelpers.Shuffle | app/utils/loteria_helpers.ts:27-30 | the descending Fisher–Yates loop as a recursion over the swap indices, one swap of `i` with `js[i]` per step; it keeps the length (its permutation and fixed-suffix properties are the two lemmas below) |
| LoteriaHelpers.SwapPermutes | app/utils/loteria_helpers.ts:29 | a swap keeps the multiset of ids |
| LoteriaHelpers.ShufflePermutes | app/utils/loteria_helpers.ts:27-30 | the shuffle returns a permutation of the catalog |
| LoteriaHelpers.ShuffleKeepsAbove | app/utils/loteria_helpers.ts:27-30 | once step `i` has run, positions above `i` are final |
| LoteriaHelpers.BarajarCartas | app/utils/loteria_helpers.ts:21-33 | the in-place array loop computes `Shuffle(catalog, swaps)`, a permutation of the catalog |
| MazoCartas.Cartas | database/seeders/mazo_carta_seeder.ts:6-61 | the seed list, with each entry's number, name and image path as listed; it has 54 entries |
| MazoCartas.CartasNumeradas | database/seeders/mazo_carta_seeder.ts:6-61 | the deck has 54 entries, and entry `k` has number `k + 1` |
| MazoCartas.NumerosDistintos | database/seeders/mazo_carta_seeder.ts:6-61 | card numbers in the deck are pairwise distinct |
| MazoCartas.Seed | database/seeders/mazo_carta_seeder.ts:63-68 | seeding appends at most one row per list entry |
| MazoCartas.SeedStep | database/seeders/mazo_carta_seeder.ts:64-67 | an entry is inserted exactly when no row has its number |
| MazoCartas.SeedKeepsRows | database/seeders/mazo_carta_seeder.ts:63-68 | existing rows are kept in place, unchanged |
| MazoCartas.KeepsNumero | database/seeders/mazo_carta_seeder.ts:64-66 | a number present before seeding is still present after |
| MazoCartas.SeedCovers | database/seeders/mazo_carta_seeder.ts:63-68 | after seeding, every number of the list has a row |
| MazoCartas.SeedUnique | database/seeders/mazo_carta_seeder.ts:64-67 | seeding keeps card numbers unique (the unique constraint on `numero`) |
| MazoCartas.SeedIds | database/seeders/mazo_carta_seeder.ts:66 | inserted rows get fresh auto-increment ids: all below the advanced counter and pairwise distinct |
| MazoCartas.SeedNoOp | database/seeders/mazo_carta_seeder.ts:63-68 | when every number is already present, seeding inserts nothing |
| MazoCartas.SeedIdempotent | database/seeders/mazo_carta_seeder.ts:63-68 | running the seeder twice gives the table of one run |
| MazoCartas.SeedAppendsAll | database/seeders/mazo_carta_seeder.ts:63-68 | with no number present, one row per entry is appended |
| MazoCartas.SeedFromEmpty | database/seeders/mazo_carta_seeder.ts:5-69 | seeding an empty table with a list numbered 1..54, as the deck is, gives 54 rows: numbers 1..54 each present once, and distinct ids |
| MazoCartas.SeedCatalog | database/seeders/mazo_carta_seeder.ts:5-69 | seeding any table with a list numbered 1..54, as the deck is: all of 1..54 end up present, uniqueness of numbers is kept, and a full table is unchanged |
| MazoCartas.SeededNumerosFromList | database/seeders/mazo_carta_seeder.ts:63-68 | every row of the result was already there or was built from a list entry |
| MazoCartas.MazoCartaTable.constructor | database/migrations/1752641075547_create_mazo_cartas_table.ts:8-14 | the catalog table starts empty, with ids handed out from 1 |
| MazoCartas.MazoCartaTable.InsertIfAbsent | database/seeders/mazo_carta_seeder.ts:63-68 | the lookup-and-insert loop yields `Seed` of the old table: old rows kept as a prefix, counter advanced by the rows added, ids valid |
| MazoCartas.MazoCartaTable.Run | database/seeders/mazo_carta_seeder.ts:5-69 | `run` leaves every number 1..54 present, keeps numbers unique, and changes nothing on a seeded table |
| JuegosModel.Jugadores | app/controllers/juegos_controller.ts:125 | a user is on the roster of `g` iff their game is `g`; the roster is ascending |
| JuegosModel.SinJugadores | app/controllers/juegos_controller.ts:504-506 | with no user in `g`, the roster is empty |
| JuegosModel.CambioUsuario | app/controllers/juegos_controller.ts:88-90 | rewriting one user changes a roster's size by +1 on entering, by -1 on leaving, and by 0 otherwise |
| JuegosModel.MismosJugadores | app/controllers/juegos_controller.ts:125 | users that agree on membership of `g` give the same roster |
| JuegosModel.BuscarCarta | app/controllers/juegos_controller.ts:137-140 | a hit is a board of that user for that game; a miss means no such board exists |
| JuegosModel.CartaDeUsuario | app/controllers/juegos_controller.ts:418-422 | the user's `carta` relation: a hit is a board of that user; a miss means the user has none |
| JuegosModel.Posiciones | app/controllers/juegos_controller.ts:303 | a position is listed iff a bean of that board is on it |
| JuegosModel.PosicionesDistintas | app/controllers/juegos_controller.ts:285-294 | without duplicate beans, no position is listed twice |
| JuegosModel.MarcasAcotadas | app/controllers/juegos_controller.ts:303-304 | a board never counts more than 16 beans |
| JuegosModel.CartillaCompleta | app/controllers/juegos_controller.ts:306-307 | the count is 16 exactly when every one of the 16 positions carries a bean |
| JuegosModel.NoAnunciadas | app/controllers/juegos_controller.ts:197-200 | the unannounced cards are the catalog ids not announced, and the list is empty iff every catalog id was announced |
| JuegosModel.AnunciarPreserva | app/controllers/juegos_controller.ts:213-217 | announcing an unannounced catalog card keeps the list duplicate-free, inside the catalog, and no longer than it |
| JuegosModel.ConCartasPaso | app/controllers/juegos_controller.ts:135-151 | after each iteration of the deal, every player visited so far has a board for the game |
| JuegosModel.AgregarCarta | app/controllers/juegos_controller.ts:144-149 | a new board under the next id, for a player without one, keeps the boards valid |
| JuegosModel.FichasConCartaNueva | app/controllers/juegos_controller.ts:144-149 | beans stay valid when a board is added |
| JuegosModel.AgregarFicha | app/controllers/juegos_controller.ts:297-300 | a bean on an announced card, at a free position, keeps the beans valid |
| JuegosModel.MismosJuegosUsuarios | app/controllers/juegos_controller.ts:275-276 | flagging a user keeps the users valid |
| JuegosModel.MismosAnuncios | app/controllers/juegos_controller.ts:309-311 | ending a game with a winner keeps boards and beans valid |
| JuegosModel.CrearUsuariosOk | app/controllers/juegos_controller.ts:24-33 | a user without a game hosting a fresh game keeps the users valid, and the host is the new game's only player |
| JuegosModel.CrearEstadoOk | app/controllers/juegos_controller.ts:24-33 | creating a game takes a consistent store to a consistent store, with the host alone on the roster |
| JuegosModel.AnunciarEstadoOk | app/controllers/juegos_controller.ts:213-217 | announcing an unannounced catalog card takes a consistent store to a consistent store, and the announced list stays no longer than the catalog |
| JuegosModel.MarcarTramposoOk | app/controllers/juegos_controller.ts:274-276 | flagging a user as a cheater takes a consistent store to a consistent store |
| JuegosModel.ColocarFichaOk | app/controllers/juegos_controller.ts:297-300 | a bean on an announced card of an existing board, at a free position, takes a consistent store to a consistent store without duplicate beans |
| JuegosModel.GanadorOk | app/controllers/juegos_controller.ts:306-311 | ending a game with a winner takes a consistent store to a consistent store |
| JuegosModel.QuitarCarta | app/controllers/juegos_controller.ts:494 | exactly the board with that id is removed |
| JuegosModel.QuitarFichas | app/controllers/juegos_controller.ts:493 | exactly the beans of that board are removed, and no duplicates appear |
| JuegosModel.IdsDeJuego | database/migrations/1752642363984_create_add_all_foreign_keys_table.ts:23 | the ids listed are exactly those of the game's boards |
| JuegosModel.QuitarCartasDeJuego | database/migrations/1752642363984_create_add_all_foreign_keys_table.ts:23 | ON DELETE CASCADE: exactly the boards of the deleted game go |
| JuegosModel.QuitarFichasDe | database/migrations/1752642363984_create_add_all_foreign_keys_table.ts:29 | ON DELETE CASCADE: exactly the beans of deleted boards go |
| JuegosModel.BorrarCarta | app/controllers/juegos_controller.ts:492-495 | deleting a board with its beans keeps boards and beans valid; a bean survives iff its board does |
| JuegosModel.BorrarCartaPropia | app/controllers/juegos_controller.ts:487-495 | deleting the board found for (user, game) removes exactly that user's board for that game |
| JuegosModel.BorrarJuego | app/controllers/juegos_controller.ts:512 | deleting a game with its cascades keeps boards and beans valid |
| JuegosModel.BorrarJuegoFichas | database/migrations/1752642363984_create_add_all_foreign_keys_table.ts:29 | after the game cascade, a bean survives iff its board survives |
| JuegosModel.CartasMismoLargo | app/controllers/juegos_controller.ts:498-509 | rewriting users' columns keeps the boards valid |
| JuegosModel.SinJuegoUsuarios | database/migrations/1752642363984_create_add_all_foreign_keys_table.ts:12 | ON DELETE SET NULL: users of the deleted game lose their game and nobody else changes game |
| JuegosModel.SalidaTalCual | app/controllers/juegos_controller.ts:497-513 | salirJuego's users update as written (promotion whatever the leaver's role); it never changes the size of the users table |
| JuegosModel.Salida | app/controllers/juegos_controller.ts:497-513 | the corrected users update of the Findings row, as the comment at line 503 intends: only a leaving host is replaced; it never changes the size of the users table (the store keeps the rule as written) |
| JuegosModel.AnfitrionUnicoCambio | app/controllers/juegos_controller.ts:88-90 | rewriting one user as a non-host, or keeping them host of the same game, keeps at most one host per game |
| JuegosModel.CrearAnfitrionUnico | app/controllers/juegos_controller.ts:32-34 | the creator becomes the only host of the new game |
| JuegosModel.SalidaAnfitrionUnico | app/controllers/juegos_controller.ts:497-513 | leaving, with the intended promotion rule, keeps at most one host per game |
| JuegosModel.SalidaCorrige | app/controllers/juegos_controller.ts:503-509 | the corrected rule moves every user to the same game as the rule as written, and the two rules agree exactly when the leaver is host |
| JuegosModel.SalidaEfecto | app/controllers/juegos_controller.ts:497-513 | with the rule as written: the leaver is reset; their game loses exactly one player; other rosters are unchanged; if players remain, the first of them is host, whatever the leaver's role |
| JuegosModel.SalidaUsuariosOk | app/controllers/juegos_controller.ts:504-513 | after leaving (as written), every user's game is among the games that remain (the empty game is deleted only once nobody is in it) and the roster cap still holds |
| JuegosModel.SalidaDosAnfitriones | app/controllers/juegos_controller.ts:503-509 | as written, a non-host leaving promotes the first remaining player: from a game with one host, the result has two hosts in that game (concrete case) |
| JuegosModel.SinCartilla | app/controllers/juegos_controller.ts:487-494 | only boards of the table remain |
| JuegosModel.SinCartillaFichas | app/controllers/juegos_controller.ts:492-493 | only beans of the table remain |
| JuegosModel.SalidaJuegos | app/controllers/juegos_controller.ts:510-513 | only games of the table remain, with their columns unchanged |
| JuegosModel.SalidaCartas | app/controllers/juegos_controller.ts:486-513 | only boards of the table remain |
| JuegosModel.SalidaFichas | app/controllers/juegos_controller.ts:486-513 | only beans of the table remain |
| JuegosModel.SinCartillaOk | app/controllers/juegos_controller.ts:486-495 | deleting the leaver's board keeps boards and beans valid; exactly that board and its beans go |
| JuegosModel.SalidaTablasOk | app/controllers/juegos_controller.ts:486-513 | after leaving (as written), boards and beans are valid; a board survives iff it is not the leaver's and its game survives; a bean survives iff its board does |
| JuegosModel.SalidaEstadoOk | app/controllers/juegos_controller.ts:486-513 | leaving, as written, takes a consistent store to a consistent store: the four new tables satisfy the whole store invariant together |
| Juegos.FichasMarcadas | app/controllers/juegos_controller.ts:361-364 | 16 booleans; entry `p` is true iff the board has a bean on `p` |
| Juegos.CartasDeCartilla | app/controllers/juegos_controller.ts:358 | the catalog ids returned are exactly the board's ids found in the catalog |
| Juegos.CartasDeCartillaCompletas | app/controllers/juegos_controller.ts:357-358 | for a well-formed board, the lookup returns all 16 of its cards |
| Juegos.VistaCartilla | app/controllers/juegos_controller.ts:356-370 | the view shows the board's cards and its beans position by position; it has all 16 cards for a well-formed board |
| Juegos.Store.constructor | database/migrations/1752640337960_create_users_table.ts:7-16 | `n` users, none in a game and none flagged, over a duplicate-free catalog of at least 16 cards; the store is valid |
| Juegos.Store.CrearPartida | app/controllers/juegos_controller.ts:13-50 | a user in a game is refused; otherwise there is a new waiting game with the user as host and only roster member |
| Juegos.Store.UnirsePartida | app/controllers/juegos_controller.ts:55-107 | refusals in source order (already in a game, no such game, not waiting, 16 players); otherwise the user joins as a non-host and the reply is the new roster size, at most 16; only the users table changes, and the store stays valid |
| Juegos.Store.IniciarPartida | app/controllers/juegos_controller.ts:112-171 | host only, game must exist, at least 4 players; every player ends with a board; new boards are dealt from the draws to players who lacked one; old boards are kept; the game is in play; only games, boards and the board counter change (no game is created), and the store stays valid |
| Juegos.Store.RepartirCartillas | app/controllers/juegos_controller.ts:135-151 | the deal loop gives every listed player a board, appends only dealt boards, and keeps the store valid |
| Juegos.Store.RevelarCarta | app/controllers/juegos_controller.ts:176-237 | host only, game in play; refused iff every catalog card is announced; otherwise it succeeds, appending exactly one unannounced catalog card, and reports the totals |
| Juegos.Store.MarcarFicha | app/controllers/juegos_controller.ts:242-331 | position check, game in play, own board required; an unannounced card flags the user and places nothing; a marked position is refused; otherwise one bean is added; 16 beans by an unflagged user win and end the game; a flagged user never wins |
| Juegos.Store.ObtenerEstadoJuego | app/controllers/juegos_controller.ts:336-402 | a user with no game is refused; otherwise the game's columns and totals, the last announced card (present iff anything was announced, on a valid store), the user's flags, and the view of the user's board iff they have one |
| Juegos.Store.VerCartillasJugadores | app/controllers/juegos_controller.ts:407-469 | host only; one entry per roster member, in roster order, with id, cheat flag, and the view of their board iff they have one |
| Juegos.Store.SalirJuego | app/controllers/juegos_controller.ts:474-524 | a user with no game is refused; otherwise the users, games, boards and beans become `SalidaTalCual`, `SalidaJuegos`, `SalidaCartas` and `SalidaFichas` of the old tables, and the store stays valid |
| Juegos.Store.MarcarTramposo | app/controllers/juegos_controller.ts:274-276 | only the user's cheat flag is set, and the store stays valid |
| Juegos.Store.ColocarFicha | app/controllers/juegos_controller.ts:296-322 | exactly one bean is appended; the count is at most 16 and is 16 iff all 16 positions are marked; an unflagged user with 16 beans wins and ends the game, otherwise the game is unchanged; the store stays valid |
| Juegos.Store.RetirarJugador | app/controllers/juegos_controller.ts:486-513 | the leaver's board and its beans go, the leaver is reset, the first remaining player becomes host whatever the leaver's role, and an emptied game is deleted with its cascades: exactly `SalidaTalCual`, `SalidaJuegos`, `SalidaCartas` and `SalidaFichas` of the old tables |
| Juegos.Store.QuitarCartilla | app/controllers/juegos_controller.ts:486-495 | the leaver's board for the game and its beans are deleted, nothing else changes |
| Juegos.Store.EliminarJuego | app/controllers/juegos_controller.ts:510-513 | the game row goes, with its boards, their beans, and its users' game (the ON DELETE rules of the foreign keys) |
| Juegos.Store.BorrarCartasDeJuego | database/migrations/1752642363984_create_add_all_foreign_keys_table.ts:23-29 | ON DELETE CASCADE on deleting a game: exactly its boards go, and exactly the beans of those boards |

## Findings

| source | as written | input that shows it | evidently intended | confidence | as-written member | corrected member |
|---|---|---|---|---|---|---|
| app/controllers/juegos_controller.ts:503-509 | after a player leaves, the first remaining player is made host whatever the leaver's role | users 0, 1, 2 in game 1 with only user 1 host; user 2 (not host) leaves; user 0 is promoted and game 1 has hosts 0 and 1 | the comment at line 503: promote only when the leaver was host, so each game keeps at most one host | medium, not executed | JuegosModel.SalidaDosAnfitriones (over JuegosModel.SalidaTalCual) | JuegosModel.SalidaAnfitrionUnico (over JuegosModel.Salida; the store keeps the rule as written) |

## Left out

- HTTP: status codes, messages, authentication (`auth.getUserOrFail()`
  becomes the caller's user id `uid < |usuarios|`) and the 500 responses
  for thrown errors. A failed `findOrFail` / `firstOrFail` becomes
  `Err(NoEncontrado)`. This includes `Juego.findOrFail(user.juegoId!)` on a
  user without a game.
- Concurrency between requests and the non-atomic sequences of saves; each
  action is atomic here.
- Registration, login and the user columns email, password, token and
  timestamps. The constructor starts from `n` registered users. Users are
  never deleted by the game, so the user-side ON DELETE rules of `anfitrion_id`
  and `ganador_id` are not modelled.
- The columns `estaRevelada`, `tramposos`, `confirmaciones` and `revancha`:
  no controller action of the core reads them.
- Card details (`numero`, `nombre`, `imagen`) in the reveal and view
  responses: the model returns catalog ids. `whereIn` is modelled as catalog
  order, because the query has no ORDER BY.
- Roster order: `User.query().where('juegoId', g)` has no ORDER BY. The model
  lists users by ascending id, and "first remaining player" in salirJuego
  means the lowest id.
- The `carta` relation of a user (`hasOne`) is modelled as the first board
  owned by that user, whatever its game. The model assumes the relation
  resolves through `usuarioId`. `User.carta` declares no foreign key
  (app/models/user.ts:39), and the board model's owner column is
  `usuarioId` (app/models/carta.ts:15-16), so the ORM's default key for the relation may
  not exist. In that case `preload('carta')` in verCartillasJugadores would
  fail and the action would answer with its 500 error. That failure path is
  not modelled.
- MazoCartas.Cartas: the image path of each entry is `/cartas/`, then the
  two-digit zero-padded number, then the name. This pattern is kept in the
  literal but not stated as a lemma: proving it character by character over
  the 54 strings exceeds the verifier's resource limit.
- JavaScript truthiness: `if (user.juegoId)` treats game id 0 as no game. Game
  ids start at 1 here, so the two readings agree.
- A non-integer `posicion` in marcarFicha is not modelled: positions are
  integers. `Juegos.FichasMarcadas` ignores beans outside 0..15, which a
  valid store never holds (the source would grow the array).
- The catalog read by the helpers and the controller is the store's `mazo`.
  The store assumes it is duplicate-free with at least 16 ids, which the
  seeded table satisfies (54 distinct numbers and distinct ids). The link
  from seeded rows to `mazo` is not stated as a lemma.
- Juegos.Store.IniciarPartida: the game's state is not checked first, as in the
  source. The dealt boards are stated through the draws `sorteo`, not as
  uniformly random.
- Juegos.Store.SalirJuego: the roster-size and membership facts about leaving
  are stated in `JuegosModel.SalidaEfecto` and `JuegosModel.SalidaTablasOk`,
  not repeated in the method's contract.
