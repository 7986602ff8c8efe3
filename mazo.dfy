/**
 * The card catalog ("mazo de cartas"): the fixed list of 54 Loteria cards and
 * the seeder that inserts each of them into the mazo_cartas table unless a row
 * with the same `numero` is already there.
 */
module MazoCartas {
  import opened Util

  /** An entry of the seed list. */
  datatype CartaSemilla = CartaSemilla(numero: int, nombre: string, imagen: string)

  /** A row of the mazo_cartas table; `id` is the auto-incremented primary key. */
  datatype MazoCarta = MazoCarta(id: nat, numero: int, nombre: string, imagen: string)

  /** Number of cards in the catalog. */
  const CatalogSize: nat := 54

  /**
   * The seed list, in the order the seeder walks it. It is written as six
   * literal runs of nine cards so that the verifier can index into each run.
   */
  function Cartas(): (r: seq<CartaSemilla>)
    ensures |r| == CatalogSize
  {
    Cartas1a9() + Cartas10a18() + Cartas19a27() + Cartas28a36() + Cartas37a45() + Cartas46a54()
  }

  function Cartas1a9(): seq<CartaSemilla> {
    [
      CartaSemilla(1, "El Gallo", "/cartas/01 el gallo.jpg"),
      CartaSemilla(2, "El Diablito", "/cartas/02 el diablito.jpg"),
      CartaSemilla(3, "La Dama", "/cartas/03 la dama.jpg"),
      CartaSemilla(4, "El Catrín", "/cartas/04 el catrin.jpg"),
      CartaSemilla(5, "El Paraguas", "/cartas/05 el paraguas.jpg"),
      CartaSemilla(6, "La Sirena", "/cartas/06 la sirena.jpg"),
      CartaSemilla(7, "La Escalera", "/cartas/07 la escalera.jpg"),
      CartaSemilla(8, "La Botella", "/cartas/08 la botella.jpg"),
      CartaSemilla(9, "El Barril", "/cartas/09 el barril.jpg")
    ]
  }

  function Cartas10a18(): seq<CartaSemilla> {
    [
      CartaSemilla(10, "El Árbol", "/cartas/10 el arbol.jpg"),
      CartaSemilla(11, "El Melón", "/cartas/11 el melon.jpg"),
      CartaSemilla(12, "El Valiente", "/cartas/12 el valiente.jpg"),
      CartaSemilla(13, "El Gorrito", "/cartas/13 el gorrito.jpg"),
      CartaSemilla(14, "La Muerte", "/cartas/14 la muerte.jpg"),
      CartaSemilla(15, "La Pera", "/cartas/15 la pera.jpg"),
      CartaSemilla(16, "La Bandera", "/cartas/16 la bandera.jpg"),
      CartaSemilla(17, "El Bandolón", "/cartas/17 el bandoneon.jpg"),
      CartaSemilla(18, "El Violoncello", "/cartas/18 el violoncello.jpg")
    ]
  }

  function Cartas19a27(): seq<CartaSemilla> {
    [
      CartaSemilla(19, "La Garza", "/cartas/19 la garza.jpg"),
      CartaSemilla(20, "El Pájaro", "/cartas/20 el pajaro.jpg"),
      CartaSemilla(21, "La Mano", "/cartas/21 la mano.jpg"),
      CartaSemilla(22, "La Bota", "/cartas/22 la bota.jpg"),
      CartaSemilla(23, "La Luna", "/cartas/23 la luna.jpg"),
      CartaSemilla(24, "El Cotorro", "/cartas/24 el cotorro.jpg"),
      CartaSemilla(25, "El Borracho", "/cartas/25 el borracho.jpg"),
      CartaSemilla(26, "El Negrito", "/cartas/26 el negrito.jpg"),
      CartaSemilla(27, "El Corazón", "/cartas/27 el corazon.jpg")
    ]
  }

  function Cartas28a36(): seq<CartaSemilla> {
    [
      CartaSemilla(28, "La Sandía", "/cartas/28 la sandia.jpg"),
      CartaSemilla(29, "El Tambor", "/cartas/29 el tambor.jpg"),
      CartaSemilla(30, "El Camarón", "/cartas/30 el camaron.jpg"),
      CartaSemilla(31, "Las Jaras", "/cartas/31 las jaras.jpg"),
      CartaSemilla(32, "El Músico", "/cartas/32 el musico.jpg"),
      CartaSemilla(33, "La Araña", "/cartas/33 la arana.jpg"),
      CartaSemilla(34, "El Soldado", "/cartas/34 el soldado.jpg"),
      CartaSemilla(35, "La Estrella", "/cartas/35 la estrella.jpg"),
      CartaSemilla(36, "El Cazo", "/cartas/36 el cazo.jpg")
    ]
  }

  function Cartas37a45(): seq<CartaSemilla> {
    [
      CartaSemilla(37, "El Mundo", "/cartas/37 el mundo.jpg"),
      CartaSemilla(38, "El Apache", "/cartas/38 el apache.jpg"),
      CartaSemilla(39, "El Nopal", "/cartas/39 el nopal.jpg"),
      CartaSemilla(40, "El Alacrán", "/cartas/40 el alacran.jpg"),
      CartaSemilla(41, "La Rosa", "/cartas/41 la rosa.jpg"),
      CartaSemilla(42, "La Calavera", "/cartas/42 la calavera.jpg"),
      CartaSemilla(43, "La Campana", "/cartas/43 la campana.jpg"),
      CartaSemilla(44, "El Cantarito", "/cartas/44 el cantarito.jpg"),
      CartaSemilla(45, "El Venado", "/cartas/45 el venado.jpg")
    ]
  }

  function Cartas46a54(): seq<CartaSemilla> {
    [
      CartaSemilla(46, "El Sol", "/cartas/46 el sol.jpg"),
      CartaSemilla(47, "La Corona", "/cartas/47 la corona.jpg"),
      CartaSemilla(48, "La Chalupa", "/cartas/48 la chalupa.jpg"),
      CartaSemilla(49, "El Pino", "/cartas/49 el pino.jpg"),
      CartaSemilla(50, "El Pescado", "/cartas/50 el pescado.jpg"),
      CartaSemilla(51, "La Palma", "/cartas/51 la palma.jpg"),
      CartaSemilla(52, "La Maceta", "/cartas/52 la maceta.jpg"),
      CartaSemilla(53, "El Arpa", "/cartas/53 el arpa.jpg"),
      CartaSemilla(54, "La Rana", "/cartas/54 la rana.jpg")
    ]
  }

  /** Each entry of `s` carries number `desde + k` at index `k`. */
  predicate NumeradasDesde(s: seq<CartaSemilla>, desde: int) {
    forall k :: 0 <= k < |s| ==> s[k].numero == desde + k
  }

  lemma Cartas1a9Numeradas()
    ensures |Cartas1a9()| == 9 && NumeradasDesde(Cartas1a9(), 1)
  {
    var c := Cartas1a9();
    forall k | 0 <= k < 9 ensures c[k].numero == 1 + k {
      if k == 0 { } else if k == 1 { } else if k == 2 { } else if k == 3 { } else if k == 4 { } else if k == 5 { } else if k == 6 { } else if k == 7 { }
    }
  }

  lemma Cartas10a18Numeradas()
    ensures |Cartas10a18()| == 9 && NumeradasDesde(Cartas10a18(), 10)
  {
    var c := Cartas10a18();
    forall k | 0 <= k < 9 ensures c[k].numero == 10 + k {
      if k == 0 { } else if k == 1 { } else if k == 2 { } else if k == 3 { } else if k == 4 { } else if k == 5 { } else if k == 6 { } else if k == 7 { }
    }
  }

  lemma Cartas19a27Numeradas()
    ensures |Cartas19a27()| == 9 && NumeradasDesde(Cartas19a27(), 19)
  {
    var c := Cartas19a27();
    forall k | 0 <= k < 9 ensures c[k].numero == 19 + k {
      if k == 0 { } else if k == 1 { } else if k == 2 { } else if k == 3 { } else if k == 4 { } else if k == 5 { } else if k == 6 { } else if k == 7 { }
    }
  }

  lemma Cartas28a36Numeradas()
    ensures |Cartas28a36()| == 9 && NumeradasDesde(Cartas28a36(), 28)
  {
    var c := Cartas28a36();
    forall k | 0 <= k < 9 ensures c[k].numero == 28 + k {
      if k == 0 { } else if k == 1 { } else if k == 2 { } else if k == 3 { } else if k == 4 { } else if k == 5 { } else if k == 6 { } else if k == 7 { }
    }
  }

  lemma Cartas37a45Numeradas()
    ensures |Cartas37a45()| == 9 && NumeradasDesde(Cartas37a45(), 37)
  {
    var c := Cartas37a45();
    forall k | 0 <= k < 9 ensures c[k].numero == 37 + k {
      if k == 0 { } else if k == 1 { } else if k == 2 { } else if k == 3 { } else if k == 4 { } else if k == 5 { } else if k == 6 { } else if k == 7 { }
    }
  }

  lemma Cartas46a54Numeradas()
    ensures |Cartas46a54()| == 9 && NumeradasDesde(Cartas46a54(), 46)
  {
    var c := Cartas46a54();
    forall k | 0 <= k < 9 ensures c[k].numero == 46 + k {
      if k == 0 { } else if k == 1 { } else if k == 2 { } else if k == 3 { } else if k == 4 { } else if k == 5 { } else if k == 6 { } else if k == 7 { }
    }
  }

  /** The catalog has 54 entries, numbered 1 to 54 in order. */
  lemma CartasNumeradas()
    ensures |Cartas()| == CatalogSize
    ensures NumeradasDesde(Cartas(), 1)
  {
    Cartas1a9Numeradas();
    Cartas10a18Numeradas();
    Cartas19a27Numeradas();
    Cartas28a36Numeradas();
    Cartas37a45Numeradas();
    Cartas46a54Numeradas();
    var c := Cartas();
    forall k | 0 <= k < CatalogSize ensures c[k].numero == 1 + k {
      var run := k / 9;
      if run == 0 { assert c[k] == Cartas1a9()[k - 0]; }
      else if run == 1 { assert c[k] == Cartas10a18()[k - 9]; }
      else if run == 2 { assert c[k] == Cartas19a27()[k - 18]; }
      else if run == 3 { assert c[k] == Cartas28a36()[k - 27]; }
      else if run == 4 { assert c[k] == Cartas37a45()[k - 36]; }
      else { assert c[k] == Cartas46a54()[k - 45]; }
    }
  }

  /** Card numbers are unique within the catalog. */
  lemma NumerosDistintos()
    ensures forall i, j :: 0 <= i < j < |Cartas()| ==> Cartas()[i].numero != Cartas()[j].numero
  {
    CartasNumeradas();
    var c := Cartas();
    forall i, j | 0 <= i < j < |c| ensures c[i].numero != c[j].numero {
      assert c[i].numero == 1 + i && c[j].numero == 1 + j;
    }
  }

  /** Some row of the table has card number `n`. */
  predicate HasNumero(rows: seq<MazoCarta>, n: int) {
    exists i :: 0 <= i < |rows| && rows[i].numero == n
  }

  /** No two rows share a card number (the unique constraint on `numero`). */
  predicate NumerosUnicos(rows: seq<MazoCarta>) {
    forall i, j :: 0 <= i < j < |rows| ==> rows[i].numero != rows[j].numero
  }

  /** Every id is below `nextId` and no two rows share an id (the auto-incremented primary key). */
  predicate IdsValidos(rows: seq<MazoCarta>, nextId: nat) {
    (forall i :: 0 <= i < |rows| ==> rows[i].id < nextId) &&
    (forall i, j :: 0 <= i < j < |rows| ==> rows[i].id != rows[j].id)
  }

  /** The row inserted for a seed entry. */
  function Fila(id: nat, c: CartaSemilla): MazoCarta {
    MazoCarta(id, c.numero, c.nombre, c.imagen)
  }

  /**
   * The table after the seeder has walked `cs`: each entry whose number no row
   * has yet is appended, with ids handed out from `nextId` upward.
   */
  function Seed(rows: seq<MazoCarta>, cs: seq<CartaSemilla>, nextId: nat): (r: seq<MazoCarta>)
    ensures |rows| <= |r| <= |rows| + |cs|
    decreases |cs|
  {
    if cs == [] then rows
    else if HasNumero(rows, cs[0].numero) then Seed(rows, cs[1..], nextId)
    else Seed(rows + [Fila(nextId, cs[0])], cs[1..], nextId + 1)
  }

  /** One step of the seeder: the first entry is inserted exactly when its number is absent. */
  lemma SeedStep(rows: seq<MazoCarta>, cs: seq<CartaSemilla>, nextId: nat)
    requires cs != []
    ensures HasNumero(rows, cs[0].numero) ==> Seed(rows, cs, nextId) == Seed(rows, cs[1..], nextId)
    ensures !HasNumero(rows, cs[0].numero) ==> Seed(rows, cs, nextId) == Seed(rows + [Fila(nextId, cs[0])], cs[1..], nextId + 1)
  {
  }

  /** Existing rows are kept as they are, in place, even when their name or image differ from the list. */
  lemma {:induction false} SeedKeepsRows(rows: seq<MazoCarta>, cs: seq<CartaSemilla>, nextId: nat)
    ensures |Seed(rows, cs, nextId)| >= |rows|
    ensures Seed(rows, cs, nextId)[..|rows|] == rows
    decreases |cs|
  {
    if cs != [] {
      if HasNumero(rows, cs[0].numero) {
        SeedKeepsRows(rows, cs[1..], nextId);
      } else {
        var rows' := rows + [Fila(nextId, cs[0])];
        SeedKeepsRows(rows', cs[1..], nextId + 1);
        assert Seed(rows, cs, nextId)[..|rows|] == Seed(rows, cs, nextId)[..|rows'|][..|rows|];
      }
    }
  }

  /** A number present before seeding is still present afterwards. */
  lemma KeepsNumero(rows: seq<MazoCarta>, cs: seq<CartaSemilla>, nextId: nat, n: int)
    requires HasNumero(rows, n)
    ensures HasNumero(Seed(rows, cs, nextId), n)
  {
    SeedKeepsRows(rows, cs, nextId);
    var i :| 0 <= i < |rows| && rows[i].numero == n;
    assert Seed(rows, cs, nextId)[i] == Seed(rows, cs, nextId)[..|rows|][i];
  }

  /** After seeding, every number of the list is in the table. */
  lemma {:induction false} SeedCovers(rows: seq<MazoCarta>, cs: seq<CartaSemilla>, nextId: nat)
    ensures forall k :: 0 <= k < |cs| ==> HasNumero(Seed(rows, cs, nextId), cs[k].numero)
    decreases |cs|
  {
    if cs != [] {
      var rows' := if HasNumero(rows, cs[0].numero) then rows else rows + [Fila(nextId, cs[0])];
      var next' := if HasNumero(rows, cs[0].numero) then nextId else nextId + 1;
      assert Seed(rows, cs, nextId) == Seed(rows', cs[1..], next');
      SeedCovers(rows', cs[1..], next');
      assert HasNumero(rows', cs[0].numero) by {
        if !HasNumero(rows, cs[0].numero) { assert rows'[|rows|].numero == cs[0].numero; }
      }
      KeepsNumero(rows', cs[1..], next', cs[0].numero);
      forall k | 1 <= k < |cs| ensures HasNumero(Seed(rows, cs, nextId), cs[k].numero) {
        assert cs[k] == cs[1..][k - 1];
      }
    }
  }

  /** Seeding never inserts a second row for a number: uniqueness of `numero` is preserved. */
  lemma {:induction false} SeedUnique(rows: seq<MazoCarta>, cs: seq<CartaSemilla>, nextId: nat)
    requires NumerosUnicos(rows)
    ensures NumerosUnicos(Seed(rows, cs, nextId))
    decreases |cs|
  {
    if cs != [] {
      if HasNumero(rows, cs[0].numero) {
        SeedUnique(rows, cs[1..], nextId);
      } else {
        var rows' := rows + [Fila(nextId, cs[0])];
        assert NumerosUnicos(rows') by {
          forall i, j | 0 <= i < j < |rows'| ensures rows'[i].numero != rows'[j].numero {
            if j == |rows| { assert rows'[i] == rows[i]; }
          }
        }
        SeedUnique(rows', cs[1..], nextId + 1);
      }
    }
  }

  /** Seeding hands out fresh ids: the ids stay below the advanced counter and pairwise distinct. */
  lemma {:induction false} SeedIds(rows: seq<MazoCarta>, cs: seq<CartaSemilla>, nextId: nat)
    requires IdsValidos(rows, nextId)
    ensures IdsValidos(Seed(rows, cs, nextId), nextId + |Seed(rows, cs, nextId)| - |rows|)
    decreases |cs|
  {
    SeedKeepsRows(rows, cs, nextId);
    if cs != [] {
      if HasNumero(rows, cs[0].numero) {
        SeedIds(rows, cs[1..], nextId);
      } else {
        var rows' := rows + [Fila(nextId, cs[0])];
        assert IdsValidos(rows', nextId + 1) by {
          forall i, j | 0 <= i < j < |rows'| ensures rows'[i].id != rows'[j].id {
            if j == |rows| { assert rows'[i] == rows[i]; }
          }
        }
        SeedKeepsRows(rows', cs[1..], nextId + 1);
        SeedIds(rows', cs[1..], nextId + 1);
      }
    }
  }

  /** When every number of the list is already present, seeding inserts nothing. */
  lemma {:induction false} SeedNoOp(rows: seq<MazoCarta>, cs: seq<CartaSemilla>, nextId: nat)
    requires forall k :: 0 <= k < |cs| ==> HasNumero(rows, cs[k].numero)
    ensures Seed(rows, cs, nextId) == rows
    decreases |cs|
  {
    if cs != [] {
      assert HasNumero(rows, cs[0].numero);
      forall k | 0 <= k < |cs[1..]| ensures HasNumero(rows, cs[1..][k].numero) {
        assert cs[1..][k] == cs[k + 1];
      }
      SeedNoOp(rows, cs[1..], nextId);
    }
  }

  /** Seeding is idempotent: a second run over the same list leaves the table unchanged. */
  lemma SeedIdempotent(rows: seq<MazoCarta>, cs: seq<CartaSemilla>, nextId: nat, nextId': nat)
    ensures Seed(Seed(rows, cs, nextId), cs, nextId') == Seed(rows, cs, nextId)
  {
    SeedCovers(rows, cs, nextId);
    SeedNoOp(Seed(rows, cs, nextId), cs, nextId');
  }

  /** When no number of a duplicate-free list is present yet, seeding appends one row per entry. */
  lemma {:induction false} SeedAppendsAll(rows: seq<MazoCarta>, cs: seq<CartaSemilla>, nextId: nat)
    requires forall k :: 0 <= k < |cs| ==> !HasNumero(rows, cs[k].numero)
    requires forall i, j :: 0 <= i < j < |cs| ==> cs[i].numero != cs[j].numero
    ensures |Seed(rows, cs, nextId)| == |rows| + |cs|
    decreases |cs|
  {
    if cs != [] {
      assert !HasNumero(rows, cs[0].numero);
      var rows' := rows + [Fila(nextId, cs[0])];
      forall k | 0 <= k < |cs[1..]| ensures !HasNumero(rows', cs[1..][k].numero) {
        assert cs[1..][k] == cs[k + 1];
        assert !HasNumero(rows, cs[k + 1].numero);
      }
      forall i, j | 0 <= i < j < |cs[1..]| ensures cs[1..][i].numero != cs[1..][j].numero {
        assert cs[1..][i] == cs[i + 1] && cs[1..][j] == cs[j + 1];
      }
      SeedAppendsAll(rows', cs[1..], nextId + 1);
    }
  }

  /**
   * Seeding an empty table with a list numbered 1..54, such as the catalog,
   * gives 54 rows, one per number 1..54 (exactly once each), with
   * pairwise-distinct ids.
   */
  lemma SeedFromEmpty(cs: seq<CartaSemilla>, nextId: nat)
    requires |cs| == CatalogSize && NumeradasDesde(cs, 1)
    ensures |Seed([], cs, nextId)| == CatalogSize
    ensures forall n :: 1 <= n <= CatalogSize ==> HasNumero(Seed([], cs, nextId), n)
    ensures NumerosUnicos(Seed([], cs, nextId))
    ensures IdsValidos(Seed([], cs, nextId), nextId + CatalogSize)
  {
    assert forall i, j :: 0 <= i < j < |cs| ==> cs[i].numero != cs[j].numero;
    SeedAppendsAll([], cs, nextId);
    SeedCatalog([], cs, nextId);
    SeedIds([], cs, nextId);
  }

  /**
   * Seeding any table with a list numbered 1..54, such as the catalog, leaves
   * every number 1..54 present; it keeps numbers unique if they were; and it
   * changes nothing when all 54 numbers were already present.
   */
  lemma SeedCatalog(rows: seq<MazoCarta>, cs: seq<CartaSemilla>, nextId: nat)
    requires |cs| == CatalogSize && NumeradasDesde(cs, 1)
    ensures forall n :: 1 <= n <= CatalogSize ==> HasNumero(Seed(rows, cs, nextId), n)
    ensures NumerosUnicos(rows) ==> NumerosUnicos(Seed(rows, cs, nextId))
    ensures (forall n :: 1 <= n <= CatalogSize ==> HasNumero(rows, n)) ==> Seed(rows, cs, nextId) == rows
  {
    SeedCovers(rows, cs, nextId);
    forall n | 1 <= n <= CatalogSize ensures HasNumero(Seed(rows, cs, nextId), n) {
      assert cs[n - 1].numero == n;
    }
    if NumerosUnicos(rows) {
      SeedUnique(rows, cs, nextId);
    }
    if forall n :: 1 <= n <= CatalogSize ==> HasNumero(rows, n) {
      forall k | 0 <= k < |cs| ensures HasNumero(rows, cs[k].numero) {
        assert cs[k].numero == k + 1;
      }
      SeedNoOp(rows, cs, nextId);
    }
  }

  /** Every row of the seeded table was either already there or is an entry of the list. */
  lemma {:induction false} SeededNumerosFromList(rows: seq<MazoCarta>, cs: seq<CartaSemilla>, nextId: nat, i: nat)
    requires i < |Seed(rows, cs, nextId)|
    ensures i < |rows| || exists k :: 0 <= k < |cs| && Seed(rows, cs, nextId)[i] == Fila(Seed(rows, cs, nextId)[i].id, cs[k])
    decreases |cs|
  {
    if cs != [] {
      var rows' := if HasNumero(rows, cs[0].numero) then rows else rows + [Fila(nextId, cs[0])];
      var next' := if HasNumero(rows, cs[0].numero) then nextId else nextId + 1;
      assert Seed(rows, cs, nextId) == Seed(rows', cs[1..], next');
      SeededNumerosFromList(rows', cs[1..], next', i);
      if i >= |rows| {
        if i < |rows'| {
          SeedKeepsRows(rows', cs[1..], next');
          assert Seed(rows, cs, nextId)[i] == rows'[i] == Fila(nextId, cs[0]);
        } else {
          var k :| 0 <= k < |cs[1..]| && Seed(rows', cs[1..], next')[i] == Fila(Seed(rows', cs[1..], next')[i].id, cs[1..][k]);
          assert cs[1..][k] == cs[k + 1];
        }
      }
    }
  }

  /**
   * The mazo_cartas table. `run` is the seeder: it walks the list and inserts
   * each card unless a row with the same `numero` exists.
   */
  class MazoCartaTable {
    var rows: seq<MazoCarta>
    var nextId: nat

    ghost predicate Valid()
      reads this
    {
      IdsValidos(rows, nextId)
    }

    constructor ()
      ensures Valid() && rows == [] && nextId == 1
    {
      rows := [];
      nextId := 1;
    }

    /** The seeder's `run`: walks the catalog list, inserting each card whose number is absent. */
    method Run()
      requires Valid()
      modifies this
      ensures Valid()
      ensures rows == Seed(old(rows), Cartas(), old(nextId))
      ensures nextId == old(nextId) + |rows| - |old(rows)|
      ensures |rows| >= |old(rows)| && rows[..|old(rows)|] == old(rows)
      ensures forall n :: 1 <= n <= CatalogSize ==> HasNumero(rows, n)
      ensures NumerosUnicos(old(rows)) ==> NumerosUnicos(rows)
      ensures (forall n :: 1 <= n <= CatalogSize ==> HasNumero(old(rows), n)) ==> rows == old(rows)
    {
      InsertIfAbsent(Cartas());
      CartasNumeradas();
      SeedCatalog(old(rows), Cartas(), old(nextId));
    }

    /** The loop of `run` over a seed list: look the number up, insert the card when no row has it. */
    method InsertIfAbsent(cartas: seq<CartaSemilla>)
      requires Valid()
      modifies this
      ensures Valid()
      ensures rows == Seed(old(rows), cartas, old(nextId))
      ensures nextId == old(nextId) + |rows| - |old(rows)|
      ensures |rows| >= |old(rows)| && rows[..|old(rows)|] == old(rows)
    {
      ghost var seeded := Seed(rows, cartas, nextId);
      ghost var start := |rows|;
      SeedKeepsRows(rows, cartas, nextId);
      SeedIds(rows, cartas, nextId);
      for k := 0 to |cartas|
        invariant Seed(rows, cartas[k..], nextId) == seeded
        invariant nextId - |rows| == old(nextId) - start
      {
        var carta := cartas[k];
        SeedStep(rows, cartas[k..], nextId);
        assert cartas[k..][0] == carta && cartas[k..][1..] == cartas[k + 1..];
        var existe := HasNumero(rows, carta.numero);
        if !existe {
          rows := rows + [Fila(nextId, carta)];
          nextId := nextId + 1;
        }
      }
      assert cartas[|cartas|..] == [];
    }
  }
}
