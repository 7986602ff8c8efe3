/**
 * The records of a Lotería session (users, games, boards and marks), the
 * queries the game controller makes over them, and the invariants of the
 * store together with the lemmas the controller's actions rely on.
 *
 * Tables are kept as they are stored: users as a sequence indexed by user id
 * (users are never deleted by the game), games as a map from game id, boards
 * and marks as sequences of rows in insertion order.
 */
module JuegosModel {
  import opened Util
  import opened LoteriaHelpers

  /** The player cap checked when joining. */
  const MaxJugadores: nat := 16
  /** The minimum roster needed to start. */
  const MinJugadores: nat := 4

  datatype Estado = Esperando | Iniciado | Finalizado

  /** The game-related columns of a user. */
  datatype Usuario = Usuario(juegoId: Option<nat>, esAnfitrion: bool, esTramposo: bool)

  datatype Juego = Juego(estado: Estado, anfitrionId: nat, ganadorId: Option<nat>, cartasAnunciadas: seq<int>)

  /** A player's board: 16 catalog ids, read row by row as positions 0 .. 15. */
  datatype Carta = Carta(id: nat, juegoId: nat, usuarioId: nat, mazoCartaIds: seq<int>)

  /** A bean placed on position `posicion` of board `cartaId`. */
  datatype Ficha = Ficha(cartaId: nat, posicion: int)

  /** Why an action was refused; each stands for one of the controller's error responses. */
  datatype Error =
    | YaEnJuego          // the user already has a game
    | SinJuego           // the user has no game
    | NoEncontrado       // a lookup that the controller makes with findOrFail / firstOrFail failed
    | NoEsperando        // the game has already started or finished
    | Lleno              // 16 players already
    | NoAnfitrion        // host-only action
    | PocosJugadores     // fewer than 4 players
    | NoIniciado         // the game is not in play
    | TodasReveladas     // every catalog card has been announced
    | PosicionInvalida   // position outside 0 .. 15
    | Tramposo           // the marked card was not announced: the user is flagged
    | YaMarcada          // the position already carries a bean

  datatype Outcome<T> = Ok(value: T) | Err(error: Error)

  /** A user freshly out of any game. */
  const Libre := Usuario(None, false, false)

  /** The user is in a game that exists (what `Juego.findOrFail(user.juegoId!)` needs). */
  predicate EnJuego(u: Usuario, juegos: map<nat, Juego>) {
    u.juegoId.Some? && u.juegoId.value in juegos
  }

  // ---------------------------------------------------------------------------
  // Rosters: `User.query().where('juegoId', g)`, in ascending user id.

  /** The ids below `n` of users whose game is `g`, ascending. */
  function JugadoresHasta(us: seq<Usuario>, g: nat, n: nat): (r: seq<nat>)
    requires n <= |us|
    ensures forall x: int :: x in r <==> 0 <= x < n && us[x].juegoId == Some(g)
    ensures forall i, j :: 0 <= i < j < |r| ==> r[i] < r[j]
    ensures |r| <= n
  {
    if n == 0 then []
    else
      var prev := JugadoresHasta(us, g, n - 1);
      if us[n - 1].juegoId == Some(g) then
        assert forall i :: 0 <= i < |prev| ==> prev[i] in prev;
        prev + [n - 1]
      else prev
  }

  /** The players of game `g`: exactly the users whose game is `g`, by ascending id. */
  function Jugadores(us: seq<Usuario>, g: nat): (r: seq<nat>)
    ensures forall x: int :: x in r <==> 0 <= x < |us| && us[x].juegoId == Some(g)
    ensures forall i, j :: 0 <= i < j < |r| ==> r[i] < r[j]
  {
    JugadoresHasta(us, g, |us|)
  }

  lemma {:induction false} SinJugadoresHasta(us: seq<Usuario>, g: nat, n: nat)
    requires n <= |us|
    requires forall x :: 0 <= x < |us| ==> us[x].juegoId != Some(g)
    ensures JugadoresHasta(us, g, n) == []
  {
    if n > 0 {
      SinJugadoresHasta(us, g, n - 1);
    }
  }

  /** A game nobody is in has an empty roster. */
  lemma SinJugadores(us: seq<Usuario>, g: nat)
    requires forall x :: 0 <= x < |us| ==> us[x].juegoId != Some(g)
    ensures Jugadores(us, g) == []
  {
    SinJugadoresHasta(us, g, |us|);
  }

  function Pertenece(u: Usuario, g: nat): int {
    if u.juegoId == Some(g) then 1 else 0
  }

  lemma {:induction false} CambioHasta(us: seq<Usuario>, x: nat, v: Usuario, g: nat, n: nat)
    requires x < |us| && n <= |us|
    ensures |JugadoresHasta(us[x := v], g, n)| ==
            |JugadoresHasta(us, g, n)| + (if x < n then Pertenece(v, g) - Pertenece(us[x], g) else 0)
  {
    if n > 0 {
      CambioHasta(us, x, v, g, n - 1);
    }
  }

  /**
   * Rewriting one user changes the size of a roster by one exactly when the
   * user enters or leaves that game, and not at all otherwise.
   */
  lemma CambioUsuario(us: seq<Usuario>, x: nat, v: Usuario, g: nat)
    requires x < |us|
    ensures |Jugadores(us[x := v], g)| == |Jugadores(us, g)| + Pertenece(v, g) - Pertenece(us[x], g)
  {
    CambioHasta(us, x, v, g, |us|);
  }

  lemma {:induction false} IgualesHasta(us: seq<Usuario>, us': seq<Usuario>, g: nat, n: nat)
    requires |us| == |us'| && n <= |us|
    requires forall i :: 0 <= i < |us| ==> (us[i].juegoId == Some(g) <==> us'[i].juegoId == Some(g))
    ensures JugadoresHasta(us, g, n) == JugadoresHasta(us', g, n)
  {
    if n > 0 {
      IgualesHasta(us, us', g, n - 1);
    }
  }

  /** Two user tables that agree on who is in `g` give the same roster for `g`. */
  lemma MismosJugadores(us: seq<Usuario>, us': seq<Usuario>, g: nat)
    requires |us| == |us'|
    requires forall i :: 0 <= i < |us| ==> (us[i].juegoId == Some(g) <==> us'[i].juegoId == Some(g))
    ensures Jugadores(us, g) == Jugadores(us', g)
  {
    IgualesHasta(us, us', g, |us|);
  }

  // ---------------------------------------------------------------------------
  // Boards and marks.

  /** `Carta.query().where('usuarioId', u).where('juegoId', g).first()`. */
  function BuscarCarta(cs: seq<Carta>, usuarioId: nat, juegoId: nat): (r: Option<Carta>)
    ensures r.Some? ==> r.value in cs && r.value.usuarioId == usuarioId && r.value.juegoId == juegoId
    ensures r.None? <==> forall c :: c in cs ==> !(c.usuarioId == usuarioId && c.juegoId == juegoId)
  {
    if cs == [] then None
    else if cs[0].usuarioId == usuarioId && cs[0].juegoId == juegoId then Some(cs[0])
    else
      assert forall c :: c in cs ==> c == cs[0] || c in cs[1..];
      BuscarCarta(cs[1..], usuarioId, juegoId)
  }

  /** The `carta` relation of a user: the first board whose owner is that user, whatever its game. */
  function CartaDeUsuario(cs: seq<Carta>, usuarioId: nat): (r: Option<Carta>)
    ensures r.Some? ==> r.value in cs && r.value.usuarioId == usuarioId
    ensures r.None? <==> forall c :: c in cs ==> c.usuarioId != usuarioId
  {
    if cs == [] then None
    else if cs[0].usuarioId == usuarioId then Some(cs[0])
    else
      assert forall c :: c in cs ==> c == cs[0] || c in cs[1..];
      CartaDeUsuario(cs[1..], usuarioId)
  }

  /** The marked positions of board `cartaId`, in the order the marks were made. */
  function Posiciones(fs: seq<Ficha>, cartaId: nat): (r: seq<int>)
    ensures forall p :: p in r <==> Ficha(cartaId, p) in fs
    ensures |r| <= |fs|
  {
    if fs == [] then []
    else
      assert fs == [fs[0]] + fs[1..];
      (if fs[0].cartaId == cartaId then [fs[0].posicion] else []) + Posiciones(fs[1..], cartaId)
  }

  /** Duplicate-free marks give duplicate-free positions on every board. */
  lemma {:induction false} PosicionesDistintas(fs: seq<Ficha>, cartaId: nat)
    requires Distinct(fs)
    ensures Distinct(Posiciones(fs, cartaId))
  {
    if fs != [] {
      assert Distinct(fs[1..]) by {
        forall i, j | 0 <= i < j < |fs[1..]| ensures fs[1..][i] != fs[1..][j] {
          assert fs[1..][i] == fs[i + 1] && fs[1..][j] == fs[j + 1];
        }
      }
      PosicionesDistintas(fs[1..], cartaId);
      var head := if fs[0].cartaId == cartaId then [fs[0].posicion] else [];
      DistinctConcat(head, Posiciones(fs[1..], cartaId));
    }
  }

  /** Every mark lies on one of the 16 positions. */
  predicate PosicionesValidas(fs: seq<Ficha>) {
    forall f :: f in fs ==> 0 <= f.posicion < BoardSize
  }

  /** A board never carries more than 16 marks. */
  lemma MarcasAcotadas(fs: seq<Ficha>, cartaId: nat)
    requires Distinct(fs) && PosicionesValidas(fs)
    ensures |Posiciones(fs, cartaId)| <= BoardSize
  {
    PosicionesDistintas(fs, cartaId);
    DistinctSubsetLength(Posiciones(fs, cartaId), Range(BoardSize));
  }

  lemma RangeDistinct(n: nat)
    ensures Distinct(Range(n))
  {
  }

  /** The count of marks on a board is 16 exactly when each of its 16 positions is marked. */
  lemma CartillaCompleta(fs: seq<Ficha>, cartaId: nat)
    requires Distinct(fs) && PosicionesValidas(fs)
    ensures |Posiciones(fs, cartaId)| == BoardSize <==>
            forall p :: 0 <= p < BoardSize ==> Ficha(cartaId, p) in fs
  {
    var ps := Posiciones(fs, cartaId);
    MarcasAcotadas(fs, cartaId);
    if forall p :: 0 <= p < BoardSize ==> Ficha(cartaId, p) in fs {
      RangeDistinct(BoardSize);
      DistinctSubsetLength(Range(BoardSize), ps);
    }
    if |ps| == BoardSize {
      forall p | 0 <= p < BoardSize ensures Ficha(cartaId, p) in fs {
        if Ficha(cartaId, p) !in fs {
          var resto := RemoveAt(Range(BoardSize), p);
          forall x | x in ps ensures x in resto {
            assert 0 <= x < BoardSize && x != p;
            if x < p { assert resto[x] == x; } else { assert resto[x - 1] == x; }
          }
          PosicionesDistintas(fs, cartaId);
          DistinctSubsetLength(ps, resto);
        }
      }
    }
  }

  // ---------------------------------------------------------------------------
  // Announced cards.

  /** The catalog ids not announced yet, in catalog order. */
  function NoAnunciadas(mazo: seq<int>, anunciadas: seq<int>): (r: seq<int>)
    ensures forall x :: x in r <==> x in mazo && x !in anunciadas
    ensures r == [] <==> SubsetOf(mazo, anunciadas)
  {
    var r := Filter(mazo, x => x !in anunciadas);
    assert r != [] ==> r[0] in r;
    r
  }

  /** Appending a card that was not announced keeps the announced list duplicate-free and inside the catalog. */
  lemma AnunciarPreserva(mazo: seq<int>, anunciadas: seq<int>, x: int)
    requires Distinct(anunciadas) && SubsetOf(anunciadas, mazo) && Distinct(mazo)
    requires x in mazo && x !in anunciadas
    ensures Distinct(anunciadas + [x]) && SubsetOf(anunciadas + [x], mazo)
    ensures |anunciadas + [x]| <= |mazo|
  {
    DistinctConcat(anunciadas, [x]);
    DistinctSubsetLength(anunciadas + [x], mazo);
  }

  // ---------------------------------------------------------------------------
  // Store invariants.

  predicate JuegosOk(juegos: map<nat, Juego>, siguienteJuego: nat, mazo: seq<int>) {
    siguienteJuego >= 1 &&
    (forall g :: g in juegos ==> 1 <= g < siguienteJuego) &&
    (forall g :: g in juegos ==>
      Distinct(juegos[g].cartasAnunciadas) && SubsetOf(juegos[g].cartasAnunciadas, mazo))
  }

  predicate UsuariosOk(us: seq<Usuario>, juegos: map<nat, Juego>) {
    (forall u :: 0 <= u < |us| && us[u].juegoId.Some? ==> us[u].juegoId.value in juegos) &&
    (forall g :: g in juegos ==> |Jugadores(us, g)| <= MaxJugadores)
  }

  predicate CartaOk(c: Carta, us: seq<Usuario>, juegos: map<nat, Juego>, siguienteCarta: nat, mazo: seq<int>) {
    c.id < siguienteCarta && c.juegoId in juegos && c.usuarioId < |us| &&
    |c.mazoCartaIds| == BoardSize && Distinct(c.mazoCartaIds) && SubsetOf(c.mazoCartaIds, mazo)
  }

  /** Every board is well formed; board ids are keys; a user has at most one board per game. */
  predicate CartasOk(cs: seq<Carta>, us: seq<Usuario>, juegos: map<nat, Juego>, siguienteCarta: nat, mazo: seq<int>) {
    (forall c :: c in cs ==> CartaOk(c, us, juegos, siguienteCarta, mazo)) &&
    (forall c1, c2 :: c1 in cs && c2 in cs && c1.id == c2.id ==> c1 == c2) &&
    (forall c1, c2 :: c1 in cs && c2 in cs && c1.usuarioId == c2.usuarioId && c1.juegoId == c2.juegoId ==> c1 == c2)
  }

  /** A mark lies on an existing board, on a position whose card its game has announced. */
  predicate FichaOk(f: Ficha, cs: seq<Carta>, juegos: map<nat, Juego>, siguienteCarta: nat) {
    0 <= f.posicion < BoardSize && f.cartaId < siguienteCarta &&
    (exists c :: c in cs && c.id == f.cartaId) &&
    (forall c :: c in cs && c.id == f.cartaId && c.juegoId in juegos && f.posicion < |c.mazoCartaIds| ==>
      c.mazoCartaIds[f.posicion] in juegos[c.juegoId].cartasAnunciadas)
  }

  /** Every mark is valid and no (board, position) pair is marked twice. */
  predicate FichasOk(fs: seq<Ficha>, cs: seq<Carta>, juegos: map<nat, Juego>, siguienteCarta: nat) {
    (forall f :: f in fs ==> FichaOk(f, cs, juegos, siguienteCarta)) && Distinct(fs)
  }

  /** The whole store is consistent: catalog, games, users, boards and marks. */
  predicate EstadoOk(mazo: seq<int>, juegos: map<nat, Juego>, siguienteJuego: nat, us: seq<Usuario>, cs: seq<Carta>, fs: seq<Ficha>, siguienteCarta: nat) {
    Distinct(mazo) && |mazo| >= BoardSize &&
    JuegosOk(juegos, siguienteJuego, mazo) &&
    UsuariosOk(us, juegos) &&
    CartasOk(cs, us, juegos, siguienteCarta, mazo) &&
    FichasOk(fs, cs, juegos, siguienteCarta)
  }


  /**
   * A board dealt when game `g` starts: it belongs to a listed player who had
   * no board for `g`, and holds the 16 cards drawn with that player's draws.
   */
  ghost predicate Repartida(c: Carta, g: nat, jugadores: seq<nat>, viejas: seq<Carta>, mazo: seq<int>, sorteo: nat -> seq<nat>) {
    c.juegoId == g && c.usuarioId in jugadores && BuscarCarta(viejas, c.usuarioId, g).None? &&
    ValidDraws(sorteo(c.usuarioId), |mazo|) && c.mazoCartaIds == Sample(mazo, sorteo(c.usuarioId))
  }

  /** Every listed player has a board for game `g`. */
  predicate ConCartas(cs: seq<Carta>, jugadores: seq<nat>, g: nat) {
    forall j :: j in jugadores ==> BuscarCarta(cs, j, g).Some?
  }

  /** Appending a board keeps every board found, and finds the new board's owner. */
  lemma ConCartasPaso(cs: seq<Carta>, jugadores: seq<nat>, g: nat, j: nat, x: Carta)
    requires ConCartas(cs, jugadores, g)
    requires BuscarCarta(cs, j, g).Some? || (x.usuarioId == j && x.juegoId == g)
    ensures ConCartas(cs + [x], jugadores + [j], g)
  {
    forall j' | j' in jugadores + [j] ensures BuscarCarta(cs + [x], j', g).Some? {
      var c := BuscarCarta(cs, j', g);
      if c.Some? {
        assert c.value in cs + [x];
      } else {
        assert x in cs + [x];
      }
    }
  }

  /** Adding a fresh board for a user who has none in that game keeps the boards valid. */
  lemma AgregarCarta(cs: seq<Carta>, us: seq<Usuario>, juegos: map<nat, Juego>, siguienteCarta: nat, mazo: seq<int>, nueva: Carta)
    requires CartasOk(cs, us, juegos, siguienteCarta, mazo)
    requires nueva.id == siguienteCarta && CartaOk(nueva, us, juegos, siguienteCarta + 1, mazo)
    requires BuscarCarta(cs, nueva.usuarioId, nueva.juegoId).None?
    ensures CartasOk(cs + [nueva], us, juegos, siguienteCarta + 1, mazo)
  {
    forall c | c in cs + [nueva] ensures CartaOk(c, us, juegos, siguienteCarta + 1, mazo) {
      if c != nueva {
        assert c in cs;
      }
    }
  }

  /** Marks are unaffected by a board added under a fresh id. */
  lemma FichasConCartaNueva(fs: seq<Ficha>, cs: seq<Carta>, juegos: map<nat, Juego>, siguienteCarta: nat, nueva: Carta)
    requires FichasOk(fs, cs, juegos, siguienteCarta)
    requires nueva.id == siguienteCarta
    ensures FichasOk(fs, cs + [nueva], juegos, siguienteCarta + 1)
  {
    forall f | f in fs ensures FichaOk(f, cs + [nueva], juegos, siguienteCarta + 1) {
      assert FichaOk(f, cs, juegos, siguienteCarta);
      var c :| c in cs && c.id == f.cartaId;
      assert c in cs + [nueva];
    }
  }

  /** A new mark on an announced card of an existing board, at a position not yet marked, keeps the marks valid. */
  lemma AgregarFicha(fs: seq<Ficha>, cs: seq<Carta>, us: seq<Usuario>, juegos: map<nat, Juego>, siguienteCarta: nat, mazo: seq<int>, c: Carta, posicion: int)
    requires CartasOk(cs, us, juegos, siguienteCarta, mazo) && FichasOk(fs, cs, juegos, siguienteCarta)
    requires c in cs && 0 <= posicion < BoardSize && Ficha(c.id, posicion) !in fs
    requires c.mazoCartaIds[posicion] in juegos[c.juegoId].cartasAnunciadas
    ensures FichasOk(fs + [Ficha(c.id, posicion)], cs, juegos, siguienteCarta)
    ensures PosicionesValidas(fs + [Ficha(c.id, posicion)])
  {
    var ficha := Ficha(c.id, posicion);
    DistinctConcat(fs, [ficha]);
    assert CartaOk(c, us, juegos, siguienteCarta, mazo);
    assert FichaOk(ficha, cs, juegos, siguienteCarta);
    forall f | f in fs + [ficha] ensures FichaOk(f, cs, juegos, siguienteCarta) {
      if f != ficha {
        assert f in fs;
      }
    }
  }

  /** Changing a user's flags, but not their game, keeps the users valid. */
  lemma MismosJuegosUsuarios(us: seq<Usuario>, us': seq<Usuario>, juegos: map<nat, Juego>)
    requires UsuariosOk(us, juegos) && |us| == |us'|
    requires forall i :: 0 <= i < |us| ==> us'[i].juegoId == us[i].juegoId
    ensures UsuariosOk(us', juegos)
  {
    forall g | g in juegos ensures |Jugadores(us', g)| <= MaxJugadores {
      MismosJugadores(us, us', g);
    }
  }

  /** Boards and marks only see a game's existence and its announced cards. */
  lemma MismosAnuncios(fs: seq<Ficha>, cs: seq<Carta>, us: seq<Usuario>, juegos: map<nat, Juego>, juegos': map<nat, Juego>, siguienteCarta: nat, mazo: seq<int>)
    requires juegos.Keys == juegos'.Keys
    requires forall g :: g in juegos ==> juegos'[g].cartasAnunciadas == juegos[g].cartasAnunciadas
    requires CartasOk(cs, us, juegos, siguienteCarta, mazo) && FichasOk(fs, cs, juegos, siguienteCarta)
    ensures CartasOk(cs, us, juegos', siguienteCarta, mazo) && FichasOk(fs, cs, juegos', siguienteCarta)
  {
    forall c | c in cs ensures CartaOk(c, us, juegos', siguienteCarta, mazo) {
      assert CartaOk(c, us, juegos, siguienteCarta, mazo);
    }
    forall f | f in fs ensures FichaOk(f, cs, juegos', siguienteCarta) {
      assert FichaOk(f, cs, juegos, siguienteCarta);
    }
  }

  /** A user without a game hosting a new game `g` keeps the rosters valid; the host is its only player. */
  lemma CrearUsuariosOk(us: seq<Usuario>, juegos: map<nat, Juego>, uid: nat, g: nat, juego: Juego)
    requires uid < |us| && us[uid].juegoId.None? && UsuariosOk(us, juegos) && g !in juegos
    ensures
      var us' := us[uid := Usuario(Some(g), true, us[uid].esTramposo)];
      UsuariosOk(us', juegos[g := juego]) && Jugadores(us', g) == [uid]
  {
    var us' := us[uid := Usuario(Some(g), true, us[uid].esTramposo)];
    forall g' | g' in juegos ensures Jugadores(us', g') == Jugadores(us, g') {
      MismosJugadores(us, us', g');
    }
    assert forall x :: 0 <= x < |us| ==> us[x].juegoId != Some(g);
    SinJugadores(us, g);
    CambioUsuario(us, uid, us'[uid], g);
    assert uid in Jugadores(us', g);
  }

  /** The host of a new game `g` is its only host: no user was in `g` before. */
  lemma CrearAnfitrionUnico(us: seq<Usuario>, juegos: map<nat, Juego>, uid: nat, g: nat)
    requires uid < |us| && AnfitrionUnico(us) && UsuariosOk(us, juegos) && g !in juegos
    ensures AnfitrionUnico(us[uid := Usuario(Some(g), true, us[uid].esTramposo)])
  {
    assert forall x :: 0 <= x < |us| ==> us[x].juegoId != Some(g);
  }

  /** Opening game `siguienteJuego` hosted by a user without a game keeps the store consistent; the host is its only player. */
  lemma CrearEstadoOk(mazo: seq<int>, juegos: map<nat, Juego>, siguienteJuego: nat, us: seq<Usuario>, cs: seq<Carta>, fs: seq<Ficha>, siguienteCarta: nat, uid: nat)
    requires uid < |us| && us[uid].juegoId.None? && EstadoOk(mazo, juegos, siguienteJuego, us, cs, fs, siguienteCarta)
    ensures
      var us' := us[uid := Usuario(Some(siguienteJuego), true, us[uid].esTramposo)];
      && EstadoOk(mazo, juegos[siguienteJuego := Juego(Esperando, uid, None, [])], siguienteJuego + 1, us', cs, fs, siguienteCarta)
      && Jugadores(us', siguienteJuego) == [uid]
  {
    var g := siguienteJuego;
    var us' := us[uid := Usuario(Some(g), true, us[uid].esTramposo)];
    var juegos' := juegos[g := Juego(Esperando, uid, None, [])];
    CrearUsuariosOk(us, juegos, uid, g, Juego(Esperando, uid, None, []));
    forall f | f in fs ensures FichaOk(f, cs, juegos', siguienteCarta) {
      assert FichaOk(f, cs, juegos, siguienteCarta);
    }
    forall c | c in cs ensures CartaOk(c, us', juegos', siguienteCarta, mazo) {
      assert CartaOk(c, us, juegos, siguienteCarta, mazo);
    }
  }

  /** Announcing a catalog card not yet announced in game `g` keeps the store consistent. */
  lemma AnunciarEstadoOk(mazo: seq<int>, juegos: map<nat, Juego>, siguienteJuego: nat, us: seq<Usuario>, cs: seq<Carta>, fs: seq<Ficha>, siguienteCarta: nat, g: nat, x: int)
    requires g in juegos && x in mazo && x !in juegos[g].cartasAnunciadas
    requires EstadoOk(mazo, juegos, siguienteJuego, us, cs, fs, siguienteCarta)
    ensures EstadoOk(mazo, juegos[g := juegos[g].(cartasAnunciadas := juegos[g].cartasAnunciadas + [x])], siguienteJuego, us, cs, fs, siguienteCarta)
    ensures |juegos[g].cartasAnunciadas| + 1 <= |mazo|
  {
    var juegos' := juegos[g := juegos[g].(cartasAnunciadas := juegos[g].cartasAnunciadas + [x])];
    AnunciarPreserva(mazo, juegos[g].cartasAnunciadas, x);
    forall f | f in fs ensures FichaOk(f, cs, juegos', siguienteCarta) {
      assert FichaOk(f, cs, juegos, siguienteCarta);
    }
    forall c | c in cs ensures CartaOk(c, us, juegos', siguienteCarta, mazo) {
      assert CartaOk(c, us, juegos, siguienteCarta, mazo);
    }
  }

  /** Flagging a user as a cheater keeps the store consistent. */
  lemma MarcarTramposoOk(mazo: seq<int>, juegos: map<nat, Juego>, siguienteJuego: nat, us: seq<Usuario>, cs: seq<Carta>, fs: seq<Ficha>, siguienteCarta: nat, uid: nat)
    requires uid < |us| && EstadoOk(mazo, juegos, siguienteJuego, us, cs, fs, siguienteCarta)
    ensures EstadoOk(mazo, juegos, siguienteJuego, us[uid := us[uid].(esTramposo := true)], cs, fs, siguienteCarta)
  {
    var us' := us[uid := us[uid].(esTramposo := true)];
    MismosJuegosUsuarios(us, us', juegos);
    CartasMismoLargo(cs, us, us', juegos, siguienteCarta, mazo);
  }

  /** A bean on an announced card of an existing board, at a free position, keeps the store consistent. */
  lemma ColocarFichaOk(mazo: seq<int>, juegos: map<nat, Juego>, siguienteJuego: nat, us: seq<Usuario>, cs: seq<Carta>, fs: seq<Ficha>, siguienteCarta: nat, c: Carta, posicion: int)
    requires EstadoOk(mazo, juegos, siguienteJuego, us, cs, fs, siguienteCarta)
    requires c in cs && 0 <= posicion < BoardSize && Ficha(c.id, posicion) !in fs
    requires c.mazoCartaIds[posicion] in juegos[c.juegoId].cartasAnunciadas
    ensures EstadoOk(mazo, juegos, siguienteJuego, us, cs, fs + [Ficha(c.id, posicion)], siguienteCarta)
    ensures Distinct(fs + [Ficha(c.id, posicion)]) && PosicionesValidas(fs + [Ficha(c.id, posicion)])
  {
    AgregarFicha(fs, cs, us, juegos, siguienteCarta, mazo, c, posicion);
  }

  /** Ending game `g` with a winner keeps the store consistent. */
  lemma GanadorOk(mazo: seq<int>, juegos: map<nat, Juego>, siguienteJuego: nat, us: seq<Usuario>, cs: seq<Carta>, fs: seq<Ficha>, siguienteCarta: nat, g: nat, uid: nat)
    requires g in juegos && EstadoOk(mazo, juegos, siguienteJuego, us, cs, fs, siguienteCarta)
    ensures EstadoOk(mazo, juegos[g := juegos[g].(ganadorId := Some(uid), estado := Finalizado)], siguienteJuego, us, cs, fs, siguienteCarta)
  {
    var juegos' := juegos[g := juegos[g].(ganadorId := Some(uid), estado := Finalizado)];
    MismosAnuncios(fs, cs, us, juegos, juegos', siguienteCarta, mazo);
  }

  // ---------------------------------------------------------------------------
  // Deletions: a board with its marks, and a game with what its ON DELETE
  // rules remove.

  /** The boards without the one whose id is `id` (`carta.delete()`). */
  function QuitarCarta(cs: seq<Carta>, id: nat): (r: seq<Carta>)
    ensures forall c :: c in r <==> c in cs && c.id != id
  {
    Filter(cs, (c: Carta) => c.id != id)
  }

  /** The marks without those of board `id` (`Ficha.query().where('cartaId', id).delete()`). */
  function QuitarFichas(fs: seq<Ficha>, id: nat): (r: seq<Ficha>)
    ensures forall f :: f in r <==> f in fs && f.cartaId != id
    ensures Distinct(fs) ==> Distinct(r)
  {
    var quedan := (f: Ficha) => f.cartaId != id;
    if Distinct(fs) then FilterDistinct(fs, quedan); Filter(fs, quedan)
    else Filter(fs, quedan)
  }

  /** The ids of the boards of game `g`. */
  function IdsDeJuego(cs: seq<Carta>, g: nat): (r: seq<nat>)
    ensures forall x :: x in r <==> exists c :: c in cs && c.juegoId == g && c.id == x
  {
    if cs == [] then []
    else
      assert forall c :: c in cs <==> c == cs[0] || c in cs[1..];
      (if cs[0].juegoId == g then [cs[0].id] else []) + IdsDeJuego(cs[1..], g)
  }

  /** ON DELETE CASCADE of `cartas.juego_id`: the boards of a deleted game go. */
  function QuitarCartasDeJuego(cs: seq<Carta>, g: nat): (r: seq<Carta>)
    ensures forall c :: c in r <==> c in cs && c.juegoId != g
  {
    Filter(cs, (c: Carta) => c.juegoId != g)
  }

  /** ON DELETE CASCADE of `fichas.carta_id`: the marks of deleted boards go. */
  function QuitarFichasDe(fs: seq<Ficha>, ids: seq<nat>): (r: seq<Ficha>)
    ensures forall f :: f in r <==> f in fs && f.cartaId !in ids
    ensures Distinct(fs) ==> Distinct(r)
  {
    var quedan := (f: Ficha) => f.cartaId !in ids;
    if Distinct(fs) then FilterDistinct(fs, quedan); Filter(fs, quedan)
    else Filter(fs, quedan)
  }

  /** Deleting a board with its marks keeps boards and marks valid, whatever happens to the users' flags. */
  lemma BorrarCarta(cs: seq<Carta>, fs: seq<Ficha>, us: seq<Usuario>, us': seq<Usuario>, juegos: map<nat, Juego>, siguienteCarta: nat, mazo: seq<int>, id: nat)
    requires CartasOk(cs, us, juegos, siguienteCarta, mazo) && FichasOk(fs, cs, juegos, siguienteCarta)
    requires |us'| == |us|
    ensures CartasOk(QuitarCarta(cs, id), us', juegos, siguienteCarta, mazo)
    ensures FichasOk(QuitarFichas(fs, id), QuitarCarta(cs, id), juegos, siguienteCarta)
    ensures forall f :: f in QuitarFichas(fs, id) <==> f in fs && exists c :: c in QuitarCarta(cs, id) && c.id == f.cartaId
  {
    var cs' := QuitarCarta(cs, id);
    forall c | c in cs' ensures CartaOk(c, us', juegos, siguienteCarta, mazo) {
      assert CartaOk(c, us, juegos, siguienteCarta, mazo);
    }
    forall f | f in QuitarFichas(fs, id) ensures FichaOk(f, cs', juegos, siguienteCarta) {
      assert FichaOk(f, cs, juegos, siguienteCarta);
      var c :| c in cs && c.id == f.cartaId;
      assert c in cs';
    }
  }

  /** Deleting game `g` with its boards and their marks keeps boards and marks valid. */
  lemma BorrarJuego(cs: seq<Carta>, fs: seq<Ficha>, us: seq<Usuario>, us': seq<Usuario>, juegos: map<nat, Juego>, siguienteCarta: nat, mazo: seq<int>, g: nat)
    requires CartasOk(cs, us, juegos, siguienteCarta, mazo) && FichasOk(fs, cs, juegos, siguienteCarta)
    requires |us'| == |us|
    ensures CartasOk(QuitarCartasDeJuego(cs, g), us', juegos - {g}, siguienteCarta, mazo)
    ensures FichasOk(QuitarFichasDe(fs, IdsDeJuego(cs, g)), QuitarCartasDeJuego(cs, g), juegos - {g}, siguienteCarta)
  {
    var cs' := QuitarCartasDeJuego(cs, g);
    var js' := juegos - {g};
    forall c | c in cs' ensures CartaOk(c, us', js', siguienteCarta, mazo) {
      assert CartaOk(c, us, juegos, siguienteCarta, mazo);
    }
    forall f | f in QuitarFichasDe(fs, IdsDeJuego(cs, g)) ensures FichaOk(f, cs', js', siguienteCarta) {
      assert FichaOk(f, cs, juegos, siguienteCarta);
      var c :| c in cs && c.id == f.cartaId;
      assert c.juegoId != g;
      assert c in cs';
    }
  }

  /** The marks that survive the deletion of game `g` are exactly those whose board survives. */
  lemma BorrarJuegoFichas(cs: seq<Carta>, fs: seq<Ficha>, us: seq<Usuario>, juegos: map<nat, Juego>, siguienteCarta: nat, mazo: seq<int>, g: nat)
    requires CartasOk(cs, us, juegos, siguienteCarta, mazo) && FichasOk(fs, cs, juegos, siguienteCarta)
    ensures forall f :: f in QuitarFichasDe(fs, IdsDeJuego(cs, g)) <==>
      f in fs && exists c :: c in QuitarCartasDeJuego(cs, g) && c.id == f.cartaId
  {
    forall f | f in QuitarFichasDe(fs, IdsDeJuego(cs, g))
      ensures exists c :: c in QuitarCartasDeJuego(cs, g) && c.id == f.cartaId
    {
      assert FichaOk(f, cs, juegos, siguienteCarta);
      var c :| c in cs && c.id == f.cartaId;
      assert c in QuitarCartasDeJuego(cs, g);
    }
  }

  /** Deleting the leaver's board for `g` removes exactly that board. */
  lemma BorrarCartaPropia(cs: seq<Carta>, us: seq<Usuario>, juegos: map<nat, Juego>, siguienteCarta: nat, mazo: seq<int>, uid: nat, g: nat)
    requires CartasOk(cs, us, juegos, siguienteCarta, mazo) && BuscarCarta(cs, uid, g).Some?
    ensures forall c :: c in QuitarCarta(cs, BuscarCarta(cs, uid, g).value.id) <==>
      c in cs && !(c.usuarioId == uid && c.juegoId == g)
  {
  }

  /** Boards refer to users only through the size of the users table. */
  lemma CartasMismoLargo(cs: seq<Carta>, us: seq<Usuario>, us': seq<Usuario>, juegos: map<nat, Juego>, siguienteCarta: nat, mazo: seq<int>)
    requires CartasOk(cs, us, juegos, siguienteCarta, mazo) && |us'| == |us|
    ensures CartasOk(cs, us', juegos, siguienteCarta, mazo)
  {
    forall c | c in cs ensures CartaOk(c, us', juegos, siguienteCarta, mazo) {
      assert CartaOk(c, us, juegos, siguienteCarta, mazo);
    }
  }

  // ---------------------------------------------------------------------------
  // Leaving a game, on the users table.

  /** ON DELETE SET NULL of `users.juego_id`: users of a deleted game lose their game. */
  function SinJuegoUsuarios(us: seq<Usuario>, g: nat): (r: seq<Usuario>)
    ensures |r| == |us|
    ensures forall i :: 0 <= i < |us| ==> r[i].juegoId == (if us[i].juegoId == Some(g) then None else us[i].juegoId)
    ensures forall i :: 0 <= i < |us| ==> r[i].esAnfitrion == us[i].esAnfitrion && r[i].esTramposo == us[i].esTramposo
  {
    seq(|us|, i requires 0 <= i < |us| => if us[i].juegoId == Some(g) then us[i].(juegoId := None) else us[i])
  }

  /** Within any one game, at most one user is host. */
  predicate AnfitrionUnico(us: seq<Usuario>) {
    forall a, b ::
      0 <= a < |us| && 0 <= b < |us| && us[a].esAnfitrion && us[b].esAnfitrion && us[a].juegoId.Some? && us[a].juegoId == us[b].juegoId
      ==> a == b
  }

  /** Rewriting one user keeps a single host per game when the new row is no host, or stays the host of the same game. */
  lemma AnfitrionUnicoCambio(us: seq<Usuario>, x: nat, v: Usuario)
    requires x < |us| && AnfitrionUnico(us)
    requires !v.esAnfitrion || (us[x].esAnfitrion && v.juegoId == us[x].juegoId)
    ensures AnfitrionUnico(us[x := v])
  {
  }

  /**
   * The users table after `uid` leaves, as salirJuego is written: the
   * leaver's game columns are reset, then the first remaining player of the
   * game becomes host whether or not the leaver was host; with nobody left
   * the game row is deleted and the SET NULL rule applies.
   */
  function SalidaTalCual(us: seq<Usuario>, uid: nat): (r: seq<Usuario>)
    requires uid < |us| && us[uid].juegoId.Some?
    ensures |r| == |us|
  {
    var g := us[uid].juegoId.value;
    var sinEl := us[uid := Libre];
    var restantes := Jugadores(sinEl, g);
    if |restantes| > 0 then
      var h := restantes[0];
      assert h in restantes;
      sinEl[h := sinEl[h].(esAnfitrion := true)]
    else SinJuegoUsuarios(sinEl, g)
  }

  /**
   * The users table after `uid` leaves, as salirJuego intends: the leaver's
   * game columns are reset; a leaving host hands the role to the first
   * remaining player; with nobody left the game row is deleted and the SET
   * NULL rule applies.
   */
  function Salida(us: seq<Usuario>, uid: nat): (r: seq<Usuario>)
    requires uid < |us| && us[uid].juegoId.Some?
    ensures |r| == |us|
  {
    var g := us[uid].juegoId.value;
    var sinEl := us[uid := Libre];
    var restantes := Jugadores(sinEl, g);
    if |restantes| > 0 then
      var h := restantes[0];
      assert h in restantes;
      if us[uid].esAnfitrion then sinEl[h := sinEl[h].(esAnfitrion := true)] else sinEl
    else SinJuegoUsuarios(sinEl, g)
  }

  /** Leaving keeps at most one host per game. */
  lemma SalidaAnfitrionUnico(us: seq<Usuario>, uid: nat)
    requires uid < |us| && us[uid].juegoId.Some? && AnfitrionUnico(us)
    ensures AnfitrionUnico(Salida(us, uid))
  {
    var g := us[uid].juegoId.value;
    var sinEl := us[uid := Libre];
    AnfitrionUnicoCambio(us, uid, Libre);
    var restantes := Jugadores(sinEl, g);
    if |restantes| > 0 && us[uid].esAnfitrion {
      var h := restantes[0];
      assert h in restantes;
      assert forall x :: 0 <= x < |sinEl| && sinEl[x].juegoId == Some(g) ==> !sinEl[x].esAnfitrion;
    }
  }

  /**
   * The intended rule differs from the written one only in host flags: both
   * put every user in the same game, and they agree outright when the leaver
   * was host.
   */
  lemma SalidaCorrige(us: seq<Usuario>, uid: nat)
    requires uid < |us| && us[uid].juegoId.Some?
    ensures forall x :: 0 <= x < |us| ==> Salida(us, uid)[x].juegoId == SalidaTalCual(us, uid)[x].juegoId
    ensures us[uid].esAnfitrion ==> Salida(us, uid) == SalidaTalCual(us, uid)
  {
  }

  /**
   * What leaving does to rosters and flags, as salirJuego is written: the
   * leaver is reset, the game loses exactly one player, every other game
   * keeps its roster, and when players remain the first of them is host,
   * whatever the leaver's role.
   */
  lemma SalidaEfecto(us: seq<Usuario>, uid: nat)
    requires uid < |us| && us[uid].juegoId.Some?
    ensures var r := SalidaTalCual(us, uid); var g := us[uid].juegoId.value;
      r[uid] == Libre &&
      |Jugadores(r, g)| == |Jugadores(us, g)| - 1 &&
      (forall g' :: g' != g ==> Jugadores(r, g') == Jugadores(us, g')) &&
      (|Jugadores(r, g)| > 0 ==> Jugadores(r, g)[0] < |r| && r[Jugadores(r, g)[0]].esAnfitrion)
  {
    var g := us[uid].juegoId.value;
    var sinEl := us[uid := Libre];
    var r := SalidaTalCual(us, uid);
    CambioUsuario(us, uid, Libre, g);
    forall g' | g' != g ensures Jugadores(sinEl, g') == Jugadores(us, g') {
      MismosJugadores(us, sinEl, g');
    }
    var restantes := Jugadores(sinEl, g);
    if |restantes| > 0 {
      var h := restantes[0];
      assert h in restantes;
      forall g' ensures Jugadores(r, g') == Jugadores(sinEl, g') {
        MismosJugadores(sinEl, r, g');
      }
    } else {
      forall g' | g' != g ensures Jugadores(r, g') == Jugadores(sinEl, g') {
        MismosJugadores(sinEl, r, g');
      }
      SinJugadores(r, g);
      assert |Jugadores(r, g)| == 0;
    }
  }

  /** Leaving keeps the users valid, with the game deleted once its roster is empty. */
  lemma SalidaUsuariosOk(us: seq<Usuario>, juegos: map<nat, Juego>, uid: nat)
    requires uid < |us| && us[uid].juegoId.Some? && UsuariosOk(us, juegos)
    ensures UsuariosOk(SalidaTalCual(us, uid), SalidaJuegos(juegos, us, uid))
  {
    var g := us[uid].juegoId.value;
    var r := SalidaTalCual(us, uid);
    SalidaEfecto(us, uid);
    CambioUsuario(us, uid, Libre, g);
    var js := SalidaJuegos(juegos, us, uid);
    forall u | 0 <= u < |r| && r[u].juegoId.Some? ensures r[u].juegoId.value in js {
      var h := r[u].juegoId.value;
      assert u in Jugadores(r, h);
      if h != g {
        assert u in Jugadores(us, h);
      }
    }
  }

  // ---------------------------------------------------------------------------
  // Leaving a game, on the games, boards and marks tables.

  /** The boards without `uid`'s board for game `g`, if there is one. */
  function SinCartilla(cs: seq<Carta>, uid: nat, g: nat): (r: seq<Carta>)
    ensures forall c :: c in r ==> c in cs
  {
    match BuscarCarta(cs, uid, g)
    case Some(c) => QuitarCarta(cs, c.id)
    case None => cs
  }

  /** The marks without those on `uid`'s board for game `g`, if there is one. */
  function SinCartillaFichas(fs: seq<Ficha>, cs: seq<Carta>, uid: nat, g: nat): (r: seq<Ficha>)
    ensures forall f :: f in r ==> f in fs
  {
    match BuscarCarta(cs, uid, g)
    case Some(c) => QuitarFichas(fs, c.id)
    case None => fs
  }

  /** Whether game `g` still has players once `uid` has been reset. */
  predicate Quedan(us: seq<Usuario>, uid: nat, g: nat)
    requires uid < |us|
  {
    |Jugadores(us[uid := Libre], g)| > 0
  }

  /** The games after `uid` leaves: the game goes once nobody is left in it. */
  function SalidaJuegos(juegos: map<nat, Juego>, us: seq<Usuario>, uid: nat): (r: map<nat, Juego>)
    requires uid < |us| && us[uid].juegoId.Some?
    ensures forall g :: g in r ==> g in juegos && r[g] == juegos[g]
  {
    var g := us[uid].juegoId.value;
    if Quedan(us, uid, g) then juegos else juegos - {g}
  }

  /** The boards after `uid` leaves: theirs goes, and with the game all of its boards. */
  function SalidaCartas(cs: seq<Carta>, us: seq<Usuario>, uid: nat): (r: seq<Carta>)
    requires uid < |us| && us[uid].juegoId.Some?
    ensures forall c :: c in r ==> c in cs
  {
    var g := us[uid].juegoId.value;
    var quedan := SinCartilla(cs, uid, g);
    if Quedan(us, uid, g) then quedan else QuitarCartasDeJuego(quedan, g)
  }

  /** The marks after `uid` leaves: those of every deleted board go. */
  function SalidaFichas(fs: seq<Ficha>, cs: seq<Carta>, us: seq<Usuario>, uid: nat): (r: seq<Ficha>)
    requires uid < |us| && us[uid].juegoId.Some?
    ensures forall f :: f in r ==> f in fs
  {
    var g := us[uid].juegoId.value;
    var quedan := SinCartillaFichas(fs, cs, uid, g);
    if Quedan(us, uid, g) then quedan
    else QuitarFichasDe(quedan, IdsDeJuego(SinCartilla(cs, uid, g), g))
  }

  /** Deleting the leaver's board keeps boards and marks valid and removes exactly that board and its marks. */
  lemma SinCartillaOk(cs: seq<Carta>, fs: seq<Ficha>, us: seq<Usuario>, juegos: map<nat, Juego>, siguienteCarta: nat, mazo: seq<int>, uid: nat, g: nat)
    requires CartasOk(cs, us, juegos, siguienteCarta, mazo) && FichasOk(fs, cs, juegos, siguienteCarta)
    ensures var cs' := SinCartilla(cs, uid, g);
      && CartasOk(cs', us, juegos, siguienteCarta, mazo)
      && FichasOk(SinCartillaFichas(fs, cs, uid, g), cs', juegos, siguienteCarta)
      && (forall c :: c in cs' <==> c in cs && !(c.usuarioId == uid && c.juegoId == g))
      && (forall f :: f in SinCartillaFichas(fs, cs, uid, g) <==> f in fs && exists c :: c in cs' && c.id == f.cartaId)
  {
    var carta := BuscarCarta(cs, uid, g);
    if carta.Some? {
      BorrarCarta(cs, fs, us, us, juegos, siguienteCarta, mazo, carta.value.id);
      BorrarCartaPropia(cs, us, juegos, siguienteCarta, mazo, uid, g);
    } else {
      forall f | f in fs ensures exists c :: c in cs && c.id == f.cartaId {
        assert FichaOk(f, cs, juegos, siguienteCarta);
      }
    }
  }

  /**
   * Leaving keeps boards and marks valid against the new users and games: a
   * board survives iff it is not the leaver's board for the game and the
   * game survives, and a mark survives iff its board does.
   */
  lemma SalidaTablasOk(cs: seq<Carta>, fs: seq<Ficha>, us: seq<Usuario>, juegos: map<nat, Juego>, siguienteCarta: nat, mazo: seq<int>, uid: nat)
    requires uid < |us| && us[uid].juegoId.Some?
    requires CartasOk(cs, us, juegos, siguienteCarta, mazo) && FichasOk(fs, cs, juegos, siguienteCarta)
    ensures var g := us[uid].juegoId.value;
      var cs' := SalidaCartas(cs, us, uid);
      var fs' := SalidaFichas(fs, cs, us, uid);
      var juegos' := SalidaJuegos(juegos, us, uid);
      && CartasOk(cs', SalidaTalCual(us, uid), juegos', siguienteCarta, mazo)
      && FichasOk(fs', cs', juegos', siguienteCarta)
      && (forall c :: c in cs' <==> c in cs && !(c.usuarioId == uid && c.juegoId == g) && (Quedan(us, uid, g) || c.juegoId != g))
      && (forall f :: f in fs' <==> f in fs && exists c :: c in cs' && c.id == f.cartaId)
  {
    var g := us[uid].juegoId.value;
    var cs1 := SinCartilla(cs, uid, g);
    var fs1 := SinCartillaFichas(fs, cs, uid, g);
    SinCartillaOk(cs, fs, us, juegos, siguienteCarta, mazo, uid, g);
    if Quedan(us, uid, g) {
      CartasMismoLargo(cs1, us, SalidaTalCual(us, uid), juegos, siguienteCarta, mazo);
    } else {
      BorrarJuego(cs1, fs1, us, SalidaTalCual(us, uid), juegos, siguienteCarta, mazo, g);
      BorrarJuegoFichas(cs1, fs1, us, juegos, siguienteCarta, mazo, g);
    }
  }

  /** Leaving keeps the whole store consistent. */
  lemma SalidaEstadoOk(mazo: seq<int>, juegos: map<nat, Juego>, siguienteJuego: nat, us: seq<Usuario>, cs: seq<Carta>, fs: seq<Ficha>, siguienteCarta: nat, uid: nat)
    requires uid < |us| && us[uid].juegoId.Some?
    requires EstadoOk(mazo, juegos, siguienteJuego, us, cs, fs, siguienteCarta)
    ensures EstadoOk(mazo, SalidaJuegos(juegos, us, uid), siguienteJuego, SalidaTalCual(us, uid),
                     SalidaCartas(cs, us, uid), SalidaFichas(fs, cs, us, uid), siguienteCarta)
  {
    SalidaTablasOk(cs, fs, us, juegos, siguienteCarta, mazo, uid);
    SalidaUsuariosOk(us, juegos, uid);
  }

  /**
   * As written, salirJuego promotes the first remaining player even when the
   * leaver was not host, so a game can end up with two hosts: player 2
   * leaves a game whose host is player 1, and player 0 is promoted beside
   * player 1.
   */
  lemma SalidaDosAnfitriones()
    ensures var us := [Usuario(Some(1), false, false), Usuario(Some(1), true, false), Usuario(Some(1), false, false)];
      var r := SalidaTalCual(us, 2);
      && AnfitrionUnico(us) && !us[2].esAnfitrion
      && r[0].esAnfitrion && r[1].esAnfitrion && r[0].juegoId == Some(1) && r[1].juegoId == Some(1)
      && !AnfitrionUnico(r)
  {
    var us := [Usuario(Some(1), false, false), Usuario(Some(1), true, false), Usuario(Some(1), false, false)];
    var sinEl := us[2 := Libre];
    assert 0 in Jugadores(sinEl, 1);
    assert Jugadores(sinEl, 1)[0] == 0;
  }
}
