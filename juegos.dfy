/**
 * The game controller: one method per action of a Lotería session, over an
 * in-memory store holding the four tables the controller reads and writes.
 * Each action is atomic; its HTTP response becomes an `Outcome`, with an
 * `Error` for each refusal (status codes and message texts are not kept).
 */
module Juegos {
  import opened Util
  import opened LoteriaHelpers
  import opened JuegosModel

  /** The state shown to a player about their own board. */
  datatype CartillaVista = CartillaVista(cartas: seq<int>, fichas: seq<bool>)

  /** The response of `obtenerEstadoJuego`. */
  datatype EstadoJuego = EstadoJuego(
    juegoId: nat, estado: Estado, cartaActual: Option<int>, totalCartasAnunciadas: nat,
    ganadorId: Option<nat>, totalJugadores: nat, cartasAnunciadas: seq<int>,
    esAnfitrion: bool, esTramposo: bool, cartilla: Option<CartillaVista>)

  /** One entry of the host's view of all boards. */
  datatype CartillaJugador = CartillaJugador(jugadorId: nat, esTramposo: bool, cartilla: Option<CartillaVista>)

  /** The response of a reveal: the card drawn and the running totals. */
  datatype Revelacion = Revelacion(cartaId: int, totalCartasReveladas: nat, totalCartas: nat)

  /** The response of a successful mark. */
  datatype Marca = Ganador(totalFichas: nat) | Marcada(totalFichas: nat, cartillaCompleta: bool)

  /** `view` shows board `c`: its catalog cards and, position by position, whether it is marked. */
  ghost predicate MuestraCartilla(v: CartillaVista, c: Carta, fs: seq<Ficha>, mazo: seq<int>) {
    (forall x :: x in v.cartas <==> x in mazo && x in c.mazoCartaIds) &&
    |v.fichas| == BoardSize &&
    (forall p :: 0 <= p < BoardSize ==> (v.fichas[p] <==> Ficha(c.id, p) in fs))
  }

  /**
   * The marks of board `cartaId` as 16 booleans: start from all false and
   * set the entry of each mark's position.
   */
  method FichasMarcadas(fs: seq<Ficha>, cartaId: nat) returns (marcas: seq<bool>)
    ensures |marcas| == BoardSize
    ensures forall p :: 0 <= p < BoardSize ==> (marcas[p] <==> Ficha(cartaId, p) in fs)
  {
    var a := new bool[BoardSize](_ => false);
    for i := 0 to |fs|
      invariant forall p :: 0 <= p < BoardSize ==> (a[p] <==> Ficha(cartaId, p) in fs[..i])
    {
      var ficha := fs[i];
      assert fs[..i + 1] == fs[..i] + [ficha];
      if ficha.cartaId == cartaId && 0 <= ficha.posicion < BoardSize {
        a[ficha.posicion] := true;
      }
    }
    assert fs[..|fs|] == fs;
    marcas := a[..];
  }

  /**
   * The catalog ids of a board as `MazoCarta.query().whereIn('id', ids)`
   * returns them: the catalog rows whose id is on the board, in catalog order.
   */
  function CartasDeCartilla(mazo: seq<int>, ids: seq<int>): (r: seq<int>)
    ensures forall x :: x in r <==> x in mazo && x in ids
  {
    Filter(mazo, x => x in ids)
  }

  /** For a well-formed board the lookup returns exactly its 16 cards. */
  lemma CartasDeCartillaCompletas(mazo: seq<int>, ids: seq<int>)
    requires Distinct(mazo) && Distinct(ids) && SubsetOf(ids, mazo)
    ensures |CartasDeCartilla(mazo, ids)| == |ids|
    ensures forall x :: x in CartasDeCartilla(mazo, ids) <==> x in ids
  {
    var r := CartasDeCartilla(mazo, ids);
    FilterDistinct(mazo, x => x in ids);
    DistinctSubsetLength(r, ids);
    DistinctSubsetLength(ids, r);
  }

  /** The view of board `c`: its cards looked up in the catalog and its marks as 16 booleans. */
  method VistaCartilla(c: Carta, fs: seq<Ficha>, mazo: seq<int>) returns (v: CartillaVista)
    ensures MuestraCartilla(v, c, fs, mazo)
    ensures Distinct(mazo) && Distinct(c.mazoCartaIds) && SubsetOf(c.mazoCartaIds, mazo) ==> |v.cartas| == |c.mazoCartaIds|
  {
    var fichasMarcadas := FichasMarcadas(fs, c.id);
    if Distinct(mazo) && Distinct(c.mazoCartaIds) && SubsetOf(c.mazoCartaIds, mazo) {
      CartasDeCartillaCompletas(mazo, c.mazoCartaIds);
    }
    v := CartillaVista(CartasDeCartilla(mazo, c.mazoCartaIds), fichasMarcadas);
  }

  class Store {
    var usuarios: seq<Usuario>
    var juegos: map<nat, Juego>
    var cartas: seq<Carta>
    var fichas: seq<Ficha>
    var siguienteJuego: nat
    var siguienteCarta: nat
    /** The ids of the card catalog, in table order. */
    const mazo: seq<int>

    /** The store invariant: the tables are consistent with each other. */
    ghost predicate Valid()
      reads this
    {
      EstadoOk(mazo, juegos, siguienteJuego, usuarios, cartas, fichas, siguienteCarta)
    }

    /** A store with `n` registered users, none in a game, over the given catalog. */
    constructor (n: nat, catalogo: seq<int>)
      requires Distinct(catalogo) && |catalogo| >= BoardSize
      ensures Valid()
      ensures |usuarios| == n && forall u :: 0 <= u < n ==> usuarios[u] == Libre
      ensures juegos == map[] && cartas == [] && fichas == [] && mazo == catalogo
    {
      usuarios := seq(n, _ => Libre);
      juegos := map[];
      cartas := [];
      fichas := [];
      siguienteJuego := 1;
      siguienteCarta := 1;
      mazo := catalogo;
    }

    /**
     * crearPartida: a user already in a game is refused; otherwise a new game
     * waits for players with the user as its host.
     */
    method CrearPartida(uid: nat) returns (r: Outcome<nat>)
      requires Valid() && uid < |usuarios|
      modifies this`usuarios, this`juegos, this`siguienteJuego
      ensures Valid()
      ensures old(usuarios[uid].juegoId).Some? ==> r == Err(YaEnJuego) && unchanged(this)
      ensures old(usuarios[uid].juegoId).None? ==>
        && r.Ok? && r.value !in old(juegos)
        && juegos == old(juegos)[r.value := Juego(Esperando, uid, None, [])]
        && usuarios == old(usuarios)[uid := Usuario(Some(r.value), true, old(usuarios[uid].esTramposo))]
        && Jugadores(usuarios, r.value) == [uid]
    {
      var user := usuarios[uid];
      if user.juegoId.Some? {
        return Err(YaEnJuego);
      }
      var g := siguienteJuego;
      CrearEstadoOk(mazo, juegos, siguienteJuego, usuarios, cartas, fichas, siguienteCarta, uid);
      siguienteJuego, juegos, usuarios :=
        siguienteJuego + 1, juegos[g := Juego(Esperando, uid, None, [])], usuarios[uid := Usuario(Some(g), true, user.esTramposo)];
      r := Ok(g);
    }

    /**
     * unirsePartida: refused when the user already has a game, when the game
     * does not exist, when it is not waiting for players, or when it has 16
     * players; otherwise the user joins as a non-host player.
     */
    method UnirsePartida(uid: nat, codigoJuego: nat) returns (r: Outcome<nat>)
      requires Valid() && uid < |usuarios|
      modifies this`usuarios
      ensures Valid()
      ensures r.Err? ==> unchanged(this)
      ensures old(usuarios[uid].juegoId).Some? ==> r == Err(YaEnJuego)
      ensures old(usuarios[uid].juegoId).None? && codigoJuego !in old(juegos) ==> r == Err(NoEncontrado)
      ensures old(usuarios[uid].juegoId).None? && codigoJuego in old(juegos) && old(juegos[codigoJuego].estado) != Esperando ==>
        r == Err(NoEsperando)
      ensures old(usuarios[uid].juegoId).None? && codigoJuego in old(juegos) && old(juegos[codigoJuego].estado) == Esperando ==>
        var total := |Jugadores(old(usuarios), codigoJuego)|;
        r == (if total >= MaxJugadores then Err(Lleno) else Ok(total + 1))
      ensures r.Ok? ==>
        && usuarios == old(usuarios)[uid := old(usuarios[uid]).(juegoId := Some(codigoJuego), esAnfitrion := false)]
        && r.value == |Jugadores(usuarios, codigoJuego)| <= MaxJugadores
        && juegos == old(juegos) && cartas == old(cartas) && fichas == old(fichas)
    {
      var user := usuarios[uid];
      if user.juegoId.Some? {
        return Err(YaEnJuego);
      }
      if codigoJuego !in juegos {
        return Err(NoEncontrado);
      }
      var juego := juegos[codigoJuego];
      if juego.estado != Esperando {
        return Err(NoEsperando);
      }
      var totalJugadores := |Jugadores(usuarios, codigoJuego)|;
      if totalJugadores >= MaxJugadores {
        return Err(Lleno);
      }
      ghost var us0 := usuarios;
      usuarios := usuarios[uid := user.(juegoId := Some(codigoJuego), esAnfitrion := false)];
      forall g | g in juegos ensures |Jugadores(usuarios, g)| <= MaxJugadores {
        CambioUsuario(us0, uid, usuarios[uid], g);
      }
      CambioUsuario(us0, uid, usuarios[uid], codigoJuego);
      r := Ok(totalJugadores + 1);
    }

    /**
     * iniciarPartida: host only, with at least 4 players; every player
     * without a board for the game gets a freshly drawn one, then the game is
     * in play. (The game's state is not checked first.)
     */
    method IniciarPartida(uid: nat, sorteo: nat -> seq<nat>) returns (r: Outcome<nat>)
      requires Valid() && uid < |usuarios|
      requires forall j :: |sorteo(j)| == BoardSize && ValidDraws(sorteo(j), |mazo|)
      modifies this`juegos, this`cartas, this`siguienteCarta
      ensures Valid()
      ensures r.Err? ==> unchanged(this)
      ensures usuarios == old(usuarios) && fichas == old(fichas)
      ensures !old(usuarios[uid].esAnfitrion) ==> r == Err(NoAnfitrion)
      ensures old(usuarios[uid].esAnfitrion) && !EnJuego(old(usuarios[uid]), old(juegos)) ==> r == Err(NoEncontrado)
      ensures old(usuarios[uid].esAnfitrion) && EnJuego(old(usuarios[uid]), old(juegos)) ==>
        var g := old(usuarios[uid].juegoId.value);
        var total := |Jugadores(usuarios, g)|;
        && r == (if total < MinJugadores then Err(PocosJugadores) else Ok(total))
        && (r.Ok? ==>
          && juegos == old(juegos)[g := old(juegos[g]).(estado := Iniciado)]
          && |cartas| >= |old(cartas)| && cartas[..|old(cartas)|] == old(cartas)
          && (forall j :: j in Jugadores(usuarios, g) ==> BuscarCarta(cartas, j, g).Some?)
          && (forall c :: c in cartas[|old(cartas)|..] ==> Repartida(c, g, Jugadores(usuarios, g), old(cartas), mazo, sorteo)))
    {
      var user := usuarios[uid];
      if !user.esAnfitrion {
        return Err(NoAnfitrion);
      }
      if user.juegoId.None? || user.juegoId.value !in juegos {
        return Err(NoEncontrado);
      }
      var g := user.juegoId.value;
      var jugadores := Jugadores(usuarios, g);
      if |jugadores| < MinJugadores {
        return Err(PocosJugadores);
      }
      RepartirCartillas(g, jugadores, sorteo);
      ghost var js0 := juegos;
      juegos := juegos[g := juegos[g].(estado := Iniciado)];
      MismosAnuncios(fichas, cartas, usuarios, js0, juegos, siguienteCarta, mazo);
      r := Ok(|jugadores|);
    }

    /**
     * revelarCarta: host only, for a game in play; announces one catalog card
     * not announced yet, picked among them by `azar` (the draw that
     * `Math.random` makes), and refuses once every card has been announced.
     */
    method RevelarCarta(uid: nat, azar: nat) returns (r: Outcome<Revelacion>)
      requires Valid() && uid < |usuarios|
      modifies this`juegos
      ensures Valid()
      ensures r.Err? ==> unchanged(this)
      ensures !old(usuarios[uid].esAnfitrion) ==> r == Err(NoAnfitrion)
      ensures old(usuarios[uid].esAnfitrion) && !EnJuego(old(usuarios[uid]), old(juegos)) ==> r == Err(NoEncontrado)
      ensures old(usuarios[uid].esAnfitrion) && EnJuego(old(usuarios[uid]), old(juegos)) ==>
        var g := old(usuarios[uid].juegoId.value);
        var anunciadas := old(juegos[g].cartasAnunciadas);
        && (old(juegos[g].estado) != Iniciado ==> r == Err(NoIniciado))
        && (old(juegos[g].estado) == Iniciado ==> if SubsetOf(mazo, anunciadas) then r == Err(TodasReveladas) else r.Ok?)
        && (r.Ok? ==>
          && r.value.cartaId in mazo && r.value.cartaId !in anunciadas
          && juegos == old(juegos)[g := old(juegos[g]).(cartasAnunciadas := anunciadas + [r.value.cartaId])]
          && r.value.totalCartasReveladas == |anunciadas| + 1 <= |mazo|
          && r.value.totalCartas == |mazo|)
    {
      var user := usuarios[uid];
      if !user.esAnfitrion {
        return Err(NoAnfitrion);
      }
      if user.juegoId.None? || user.juegoId.value !in juegos {
        return Err(NoEncontrado);
      }
      var g := user.juegoId.value;
      var juego := juegos[g];
      if juego.estado != Iniciado {
        return Err(NoIniciado);
      }
      var cartasAnunciadas := juego.cartasAnunciadas;
      var cartasNoAnunciadas := NoAnunciadas(mazo, cartasAnunciadas);
      if |cartasNoAnunciadas| == 0 {
        return Err(TodasReveladas);
      }
      var cartaRevelada := cartasNoAnunciadas[azar % |cartasNoAnunciadas|];
      AnunciarEstadoOk(mazo, juegos, siguienteJuego, usuarios, cartas, fichas, siguienteCarta, g, cartaRevelada);
      juegos := juegos[g := juego.(cartasAnunciadas := cartasAnunciadas + [cartaRevelada])];
      r := Ok(Revelacion(cartaRevelada, |cartasAnunciadas| + 1, |mazo|));
    }

    /**
     * marcarFicha: the position must lie in 0 .. 15 and the game be in play.
     * Marking a card that has not been announced flags the user as a cheater
     * and places nothing; a position already marked is refused; otherwise the
     * bean is placed, and the 16th bean of a user not flagged wins the game.
     */
    method MarcarFicha(uid: nat, posicion: int) returns (r: Outcome<Marca>)
      requires Valid() && uid < |usuarios|
      modifies this`usuarios, this`juegos, this`fichas
      ensures Valid()
      ensures !(0 <= posicion < BoardSize) ==> r == Err(PosicionInvalida) && unchanged(this)
      ensures 0 <= posicion < BoardSize && !EnJuego(old(usuarios[uid]), old(juegos)) ==> r == Err(NoEncontrado) && unchanged(this)
      ensures 0 <= posicion < BoardSize && EnJuego(old(usuarios[uid]), old(juegos)) ==>
        var g := old(usuarios[uid].juegoId.value);
        var propia := BuscarCarta(cartas, uid, g);
        && (old(juegos[g].estado) != Iniciado ==> r == Err(NoIniciado) && unchanged(this))
        && (old(juegos[g].estado) == Iniciado && propia.None? ==> r == Err(NoEncontrado) && unchanged(this))
        && (old(juegos[g].estado) == Iniciado && propia.Some? ==>
          var c := propia.value;
          var anunciada := posicion < |c.mazoCartaIds| && c.mazoCartaIds[posicion] in old(juegos[g].cartasAnunciadas);
          && (!anunciada ==>
                && r == Err(Tramposo) && usuarios == old(usuarios)[uid := old(usuarios[uid]).(esTramposo := true)]
                && juegos == old(juegos) && fichas == old(fichas))
          && (anunciada && Ficha(c.id, posicion) in old(fichas) ==> r == Err(YaMarcada) && unchanged(this))
          && (anunciada && Ficha(c.id, posicion) !in old(fichas) ==>
                var total := |Posiciones(fichas, c.id)|;
                var gana := total == BoardSize && !old(usuarios[uid].esTramposo);
                && fichas == old(fichas) + [Ficha(c.id, posicion)] && usuarios == old(usuarios)
                && total <= BoardSize
                && (total == BoardSize <==> forall p :: 0 <= p < BoardSize ==> Ficha(c.id, p) in fichas)
                && r == (if gana then Ok(Ganador(total)) else Ok(Marcada(total, total == BoardSize)))
                && juegos == (if gana then old(juegos)[g := old(juegos[g]).(ganadorId := Some(uid), estado := Finalizado)]
                              else old(juegos))))
      ensures old(usuarios[uid].esTramposo) ==> juegos == old(juegos) && !(r.Ok? && r.value.Ganador?)
    {
      if posicion < 0 || posicion > 15 {
        return Err(PosicionInvalida);
      }
      var user := usuarios[uid];
      if user.juegoId.None? || user.juegoId.value !in juegos {
        return Err(NoEncontrado);
      }
      var g := user.juegoId.value;
      var juego := juegos[g];
      if juego.estado != Iniciado {
        return Err(NoIniciado);
      }
      var propia := BuscarCarta(cartas, uid, g);
      if propia.None? {
        return Err(NoEncontrado);
      }
      var carta := propia.value;
      var cartasCartilla := carta.mazoCartaIds;
      var cartasAnunciadas := juego.cartasAnunciadas;
      if posicion >= |cartasCartilla| || cartasCartilla[posicion] !in cartasAnunciadas {
        MarcarTramposo(uid);
        return Err(Tramposo);
      }
      var ficha := Ficha(carta.id, posicion);
      if ficha in fichas {
        return Err(YaMarcada);
      }
      r := ColocarFicha(uid, carta, posicion);
    }

    /** The cheat flag of user `uid` is set; nothing else changes. */
    method MarcarTramposo(uid: nat)
      requires Valid() && uid < |usuarios|
      modifies this`usuarios
      ensures Valid()
      ensures usuarios == old(usuarios)[uid := old(usuarios[uid]).(esTramposo := true)]
    {
      MarcarTramposoOk(mazo, juegos, siguienteJuego, usuarios, cartas, fichas, siguienteCarta, uid);
      usuarios := usuarios[uid := usuarios[uid].(esTramposo := true)];
    }

    /**
     * A bean goes on free position `posicion` of board `c`, whose card there
     * has been announced; a full board of a user not flagged as a cheater
     * wins and ends the game.
     */
    method ColocarFicha(uid: nat, c: Carta, posicion: int) returns (r: Outcome<Marca>)
      requires Valid() && uid < |usuarios| && c in cartas
      requires 0 <= posicion < |c.mazoCartaIds| && posicion < BoardSize && Ficha(c.id, posicion) !in fichas
      requires c.juegoId in juegos && c.mazoCartaIds[posicion] in juegos[c.juegoId].cartasAnunciadas
      modifies this`juegos, this`fichas
      ensures Valid()
      ensures
        var g := c.juegoId;
        var total := |Posiciones(fichas, c.id)|;
        var gana := total == BoardSize && !usuarios[uid].esTramposo;
        && fichas == old(fichas) + [Ficha(c.id, posicion)]
        && total <= BoardSize
        && (total == BoardSize <==> forall p :: 0 <= p < BoardSize ==> Ficha(c.id, p) in fichas)
        && r == (if gana then Ok(Ganador(total)) else Ok(Marcada(total, total == BoardSize)))
        && juegos == (if gana then old(juegos)[g := old(juegos[g]).(ganadorId := Some(uid), estado := Finalizado)]
                      else old(juegos))
    {
      var g := c.juegoId;
      ColocarFichaOk(mazo, juegos, siguienteJuego, usuarios, cartas, fichas, siguienteCarta, c, posicion);
      fichas := fichas + [Ficha(c.id, posicion)];
      MarcasAcotadas(fichas, c.id);
      CartillaCompleta(fichas, c.id);
      var fichasCount := |Posiciones(fichas, c.id)|;
      if fichasCount == BoardSize && !usuarios[uid].esTramposo {
        GanadorOk(mazo, juegos, siguienteJuego, usuarios, cartas, fichas, siguienteCarta, g, uid);
        juegos := juegos[g := juegos[g].(ganadorId := Some(uid), estado := Finalizado)];
        r := Ok(Ganador(fichasCount));
      } else {
        r := Ok(Marcada(fichasCount, fichasCount == BoardSize));
      }
    }

    /**
     * obtenerEstadoJuego: a user without a game is refused; otherwise the
     * game's columns and totals, the last announced card when the catalog has
     * it, the user's flags and the view of the user's board for that game.
     * On a valid store the current card is there exactly when a card has been
     * announced, and a board shows all 16 of its cards.
     */
    method ObtenerEstadoJuego(uid: nat) returns (r: Outcome<EstadoJuego>)
      requires uid < |usuarios|
      ensures usuarios[uid].juegoId.None? ==> r == Err(SinJuego)
      ensures usuarios[uid].juegoId.Some? && usuarios[uid].juegoId.value !in juegos ==> r == Err(NoEncontrado)
      ensures EnJuego(usuarios[uid], juegos) ==>
        var g := usuarios[uid].juegoId.value;
        var juego := juegos[g];
        var anunciadas := juego.cartasAnunciadas;
        var carta := BuscarCarta(cartas, uid, g);
        && r.Ok?
        && r.value.juegoId == g && r.value.estado == juego.estado && r.value.ganadorId == juego.ganadorId
        && r.value.cartasAnunciadas == anunciadas && r.value.totalCartasAnunciadas == |anunciadas|
        && r.value.totalJugadores == |Jugadores(usuarios, g)|
        && r.value.esAnfitrion == usuarios[uid].esAnfitrion && r.value.esTramposo == usuarios[uid].esTramposo
        && (r.value.cartaActual.Some? <==> |anunciadas| > 0 && anunciadas[|anunciadas| - 1] in mazo)
        && (r.value.cartaActual.Some? ==> r.value.cartaActual.value == anunciadas[|anunciadas| - 1])
        && (Valid() ==> (r.value.cartaActual.Some? <==> |anunciadas| > 0))
        && (r.value.cartilla.Some? <==> carta.Some?)
        && (carta.Some? ==> MuestraCartilla(r.value.cartilla.value, carta.value, fichas, mazo))
        && (carta.Some? && Valid() ==> |r.value.cartilla.value.cartas| == BoardSize)
    {
      var user := usuarios[uid];
      if user.juegoId.None? {
        return Err(SinJuego);
      }
      var g := user.juegoId.value;
      if g !in juegos {
        return Err(NoEncontrado);
      }
      var juego := juegos[g];
      var carta := BuscarCarta(cartas, uid, g);
      var cartillaData: Option<CartillaVista> := None;
      if carta.Some? {
        var vista := VistaCartilla(carta.value, fichas, mazo);
        cartillaData := Some(vista);
      }
      var cartaActualInfo: Option<int> := None;
      var cartasAnunciadas := juego.cartasAnunciadas;
      if |cartasAnunciadas| > 0 {
        var ultimaCartaId := cartasAnunciadas[|cartasAnunciadas| - 1];
        if ultimaCartaId in mazo {
          cartaActualInfo := Some(ultimaCartaId);
        }
      }
      r := Ok(EstadoJuego(g, juego.estado, cartaActualInfo, |cartasAnunciadas|, juego.ganadorId,
        |Jugadores(usuarios, g)|, cartasAnunciadas, user.esAnfitrion, user.esTramposo, cartillaData));
    }

    /**
     * verCartillasJugadores: host only; for each player of the host's game,
     * in roster order, the player's id and cheat flag and the view of the
     * player's board (the first board they own), or none.
     */
    method VerCartillasJugadores(uid: nat) returns (r: Outcome<seq<CartillaJugador>>)
      requires uid < |usuarios|
      ensures !usuarios[uid].esAnfitrion ==> r == Err(NoAnfitrion)
      ensures usuarios[uid].esAnfitrion && !EnJuego(usuarios[uid], juegos) ==> r == Err(NoEncontrado)
      ensures usuarios[uid].esAnfitrion && EnJuego(usuarios[uid], juegos) ==>
        var jugadores := Jugadores(usuarios, usuarios[uid].juegoId.value);
        && r.Ok? && |r.value| == |jugadores|
        && forall i :: 0 <= i < |jugadores| ==>
          && r.value[i].jugadorId == jugadores[i] && jugadores[i] < |usuarios|
          && r.value[i].esTramposo == usuarios[jugadores[i]].esTramposo
          && (r.value[i].cartilla.Some? <==> CartaDeUsuario(cartas, jugadores[i]).Some?)
          && (r.value[i].cartilla.Some? ==>
                MuestraCartilla(r.value[i].cartilla.value, CartaDeUsuario(cartas, jugadores[i]).value, fichas, mazo))
    {
      var user := usuarios[uid];
      if !user.esAnfitrion {
        return Err(NoAnfitrion);
      }
      if user.juegoId.None? || user.juegoId.value !in juegos {
        return Err(NoEncontrado);
      }
      var jugadores := Jugadores(usuarios, user.juegoId.value);
      var cartillasJugadores: seq<CartillaJugador> := [];
      for i := 0 to |jugadores|
        invariant |cartillasJugadores| == i
        invariant forall k :: 0 <= k < i ==> VistaDeJugador(cartillasJugadores[k], jugadores[k])
      {
        var jugador := jugadores[i];
        assert jugador in jugadores;
        var carta := CartaDeUsuario(cartas, jugador);
        var cartilla: Option<CartillaVista> := None;
        if carta.Some? {
          var vista := VistaCartilla(carta.value, fichas, mazo);
          cartilla := Some(vista);
        }
        cartillasJugadores := cartillasJugadores + [CartillaJugador(jugador, usuarios[jugador].esTramposo, cartilla)];
      }
      r := Ok(cartillasJugadores);
    }

    /** Entry `v` of the host's view shows player `j`. */
    ghost predicate VistaDeJugador(v: CartillaJugador, j: nat)
      reads this
    {
      && v.jugadorId == j && j < |usuarios|
      && v.esTramposo == usuarios[j].esTramposo
      && (v.cartilla.Some? <==> CartaDeUsuario(cartas, j).Some?)
      && (v.cartilla.Some? ==> MuestraCartilla(v.cartilla.value, CartaDeUsuario(cartas, j).value, fichas, mazo))
    }

    /**
     * salirJuego: a user without a game is refused. Otherwise the user's
     * board for the game and its marks are deleted and the user's game
     * columns reset; the first remaining player becomes host, whatever the
     * leaver's role, or, with nobody left, the game is deleted together with
     * what its ON DELETE rules reach.
     */
    method SalirJuego(uid: nat) returns (r: Outcome<()>)
      requires Valid() && uid < |usuarios|
      modifies this`usuarios, this`juegos, this`cartas, this`fichas
      ensures Valid()
      ensures old(usuarios[uid].juegoId).None? ==> r == Err(SinJuego) && unchanged(this)
      ensures old(usuarios[uid].juegoId).Some? ==>
        && r == Ok(())
        && usuarios == SalidaTalCual(old(usuarios), uid)
        && juegos == SalidaJuegos(old(juegos), old(usuarios), uid)
        && cartas == SalidaCartas(old(cartas), old(usuarios), uid)
        && fichas == SalidaFichas(old(fichas), old(cartas), old(usuarios), uid)
    {
      var user := usuarios[uid];
      if user.juegoId.None? {
        return Err(SinJuego);
      }
      SalidaEstadoOk(mazo, juegos, siguienteJuego, usuarios, cartas, fichas, siguienteCarta, uid);
      RetirarJugador(uid);
      r := Ok(());
    }

    /**
     * The steps of salirJuego for a user in game: delete their board, reset
     * their game columns, then promote the first remaining player, whatever
     * the leaver's role; with nobody left, delete the game.
     */
    method RetirarJugador(uid: nat)
      requires uid < |usuarios| && usuarios[uid].juegoId.Some?
      modifies this`usuarios, this`juegos, this`cartas, this`fichas
      ensures usuarios == SalidaTalCual(old(usuarios), uid)
      ensures juegos == SalidaJuegos(old(juegos), old(usuarios), uid)
      ensures cartas == SalidaCartas(old(cartas), old(usuarios), uid)
      ensures fichas == SalidaFichas(old(fichas), old(cartas), old(usuarios), uid)
    {
      var juegoId := usuarios[uid].juegoId.value;
      QuitarCartilla(uid, juegoId);
      usuarios := usuarios[uid := Libre];
      var jugadoresRestantes := Jugadores(usuarios, juegoId);
      if |jugadoresRestantes| > 0 {
        var nuevoAnfitrion := jugadoresRestantes[0];
        assert nuevoAnfitrion in jugadoresRestantes;
        usuarios := usuarios[nuevoAnfitrion := usuarios[nuevoAnfitrion].(esAnfitrion := true)];
      } else {
        EliminarJuego(juegoId);
      }
    }

    /** The first part of salirJuego: the leaver's board for game `g` and its marks are deleted. */
    method QuitarCartilla(uid: nat, g: nat)
      modifies this`cartas, this`fichas
      ensures cartas == SinCartilla(old(cartas), uid, g) && fichas == SinCartillaFichas(old(fichas), old(cartas), uid, g)
    {
      var carta := BuscarCarta(cartas, uid, g);
      if carta.Some? {
        cartas, fichas := QuitarCarta(cartas, carta.value.id), QuitarFichas(fichas, carta.value.id);
      }
    }

    /**
     * The last part of salirJuego when nobody is left: the game row is
     * deleted, and the users pointing at it lose their game (ON DELETE SET
     * NULL of `users.juego_id`).
     */
    method EliminarJuego(g: nat)
      modifies this`usuarios, this`juegos, this`cartas, this`fichas
      ensures usuarios == SinJuegoUsuarios(old(usuarios), g) && juegos == old(juegos) - {g}
      ensures cartas == QuitarCartasDeJuego(old(cartas), g)
      ensures fichas == QuitarFichasDe(old(fichas), IdsDeJuego(old(cartas), g))
    {
      BorrarCartasDeJuego(g);
      usuarios, juegos := SinJuegoUsuarios(usuarios, g), juegos - {g};
    }

    /**
     * The cascade of a game deletion: its boards go (ON DELETE CASCADE of
     * `cartas.juego_id`) and so do their beans (of `fichas.carta_id`).
     */
    method BorrarCartasDeJuego(g: nat)
      modifies this`cartas, this`fichas
      ensures cartas == QuitarCartasDeJuego(old(cartas), g)
      ensures fichas == QuitarFichasDe(old(fichas), IdsDeJuego(old(cartas), g))
    {
      cartas, fichas := QuitarCartasDeJuego(cartas, g), QuitarFichasDe(fichas, IdsDeJuego(cartas, g));
    }

    /**
     * The board loop of iniciarPartida: each listed player without a board
     * for game `g` gets one drawn with their draws from `sorteo`, under the
     * next board id.
     */
    method RepartirCartillas(g: nat, jugadores: seq<nat>, sorteo: nat -> seq<nat>)
      requires g in juegos && Distinct(mazo) && |mazo| >= BoardSize
      requires CartasOk(cartas, usuarios, juegos, siguienteCarta, mazo) && FichasOk(fichas, cartas, juegos, siguienteCarta)
      requires forall j :: j in jugadores ==> j < |usuarios|
      requires forall j :: |sorteo(j)| == BoardSize && ValidDraws(sorteo(j), |mazo|)
      modifies this`cartas, this`siguienteCarta
      ensures CartasOk(cartas, usuarios, juegos, siguienteCarta, mazo) && FichasOk(fichas, cartas, juegos, siguienteCarta)
      ensures usuarios == old(usuarios) && fichas == old(fichas) && juegos == old(juegos)
      ensures siguienteJuego == old(siguienteJuego) && siguienteCarta >= old(siguienteCarta)
      ensures |cartas| >= |old(cartas)| && cartas[..|old(cartas)|] == old(cartas)
      ensures forall j :: j in jugadores ==> BuscarCarta(cartas, j, g).Some?
      ensures forall c :: c in cartas[|old(cartas)|..] ==> Repartida(c, g, jugadores, old(cartas), mazo, sorteo)
    {
      var cs := cartas;
      var siguiente := siguienteCarta;
      ghost var nuevas: seq<Carta> := [];
      for i := 0 to |jugadores|
        invariant unchanged(this)
        invariant cs == cartas + nuevas && siguiente >= siguienteCarta
        invariant ConCartas(cs, jugadores[..i], g)
        invariant forall c :: c in nuevas ==> Repartida(c, g, jugadores, cartas, mazo, sorteo)
        invariant CartasOk(cs, usuarios, juegos, siguiente, mazo) && FichasOk(fichas, cs, juegos, siguiente)
      {
        var jugador := jugadores[i];
        assert jugadores[..i + 1] == jugadores[..i] + [jugador];
        var existente := BuscarCarta(cs, jugador, g);
        if existente.Some? {
          assert ConCartas(cs, jugadores[..i + 1], g) by {
            ConCartasPaso(cs, jugadores[..i], g, jugador, existente.value);
          }
        } else {
          var ids := GenerarCartillaAleatoria(mazo, sorteo(jugador));
          var nueva := Carta(siguiente, g, jugador, ids);
          assert jugador in jugadores;
          assert forall c :: c in cartas ==> c in cs;
          AgregarCarta(cs, usuarios, juegos, siguiente, mazo, nueva);
          ConCartasPaso(cs, jugadores[..i], g, jugador, nueva);
          FichasConCartaNueva(fichas, cs, juegos, siguiente, nueva);
          cs := cs + [nueva];
          nuevas := nuevas + [nueva];
          siguiente := siguiente + 1;
        }
      }
      assert cs[|cartas|..] == nuevas;
      assert jugadores[..|jugadores|] == jugadores;
      cartas := cs;
      siguienteCarta := siguiente;
    }
  }
}
