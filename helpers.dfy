/**
 * The two random-draw helpers of the game: drawing a 16-card board from the
 * catalog without replacement, and a Fisher-Yates shuffle of the catalog.
 *
 * `Math.random` is not modelled: each draw the source makes is supplied by the
 * caller as an index already in the range the source computes
 * (`Math.floor(Math.random() * n)` is some index below `n`), so every outcome
 * the source can produce is one of the outcomes the model describes.
 */
module LoteriaHelpers {
  import opened Util

  /** Number of cards on a board (a 4x4 grid). */
  const BoardSize: nat := 16

  /** The draws are usable for a pool of `n` cards: draw `i` picks among the `n - i` cards left. */
  predicate ValidDraws(picks: seq<nat>, n: nat) {
    forall i :: 0 <= i < |picks| ==> picks[i] < n - i
  }

  /**
   * The cards drawn from `pool` when draw `i` takes the card at index
   * `picks[i]` of what is left and removes it from the pool.
   */
  function Sample(pool: seq<int>, picks: seq<nat>): (r: seq<int>)
    requires ValidDraws(picks, |pool|)
    ensures |r| == |picks|
    ensures multiset(r) <= multiset(pool)
    decreases |picks|
  {
    if picks == [] then []
    else
      var rest := RemoveAt(pool, picks[0]);
      assert ValidDraws(picks[1..], |rest|) by {
        forall i | 0 <= i < |picks[1..]| ensures picks[1..][i] < |rest| - i {
          assert picks[1..][i] == picks[i + 1];
        }
      }
      var tail := Sample(rest, picks[1..]);
      assert multiset([pool[picks[0]]] + tail) == multiset{pool[picks[0]]} + multiset(tail);
      [pool[picks[0]]] + tail
  }

  /**
   * One iteration of the drawing loop: the first draw moves one card from the
   * pool to the drawn cards and leaves the remaining draws to be taken from
   * the smaller pool.
   */
  lemma DrawStep(drawn: seq<int>, pool: seq<int>, picks: seq<nat>)
    requires ValidDraws(picks, |pool|) && picks != []
    ensures picks[0] < |pool|
    ensures ValidDraws(picks[1..], |pool| - 1)
    ensures drawn + Sample(pool, picks) == (drawn + [pool[picks[0]]]) + Sample(RemoveAt(pool, picks[0]), picks[1..])
  {
    assert ValidDraws(picks[1..], |pool| - 1) by {
      forall i | 0 <= i < |picks[1..]| ensures picks[1..][i] < |pool| - 1 - i {
        assert picks[1..][i] == picks[i + 1];
      }
    }
    var tail := Sample(RemoveAt(pool, picks[0]), picks[1..]);
    assert Sample(pool, picks) == [pool[picks[0]]] + tail;
  }

  /** Moving one card from the pool to the drawn cards keeps their union. */
  lemma DrawKeepsPool(drawn: seq<int>, pool: seq<int>, k: nat)
    requires k < |pool|
    ensures multiset(drawn + [pool[k]]) + multiset(RemoveAt(pool, k)) == multiset(drawn) + multiset(pool)
  {
    assert multiset(drawn + [pool[k]]) == multiset(drawn) + multiset{pool[k]};
  }

  /**
   * Every drawn card comes from the pool, and drawing without replacement from
   * duplicate-free ids never draws the same id twice.
   */
  lemma SampleFromPool(pool: seq<int>, picks: seq<nat>)
    requires ValidDraws(picks, |pool|)
    ensures forall x :: x in Sample(pool, picks) ==> x in pool
    ensures Distinct(pool) ==> Distinct(Sample(pool, picks))
  {
    var r := Sample(pool, picks);
    forall x | x in r ensures x in pool {
      assert x in multiset(r);
    }
    if Distinct(pool) {
      DistinctSubMultiset(r, pool);
    }
  }

  /**
   * generarCartillaAleatoria: 16 draws without replacement from the catalog
   * ids. The pool is a copy of the catalog; each draw appends the picked id to
   * the board and splices it out of the pool.
   */
  method GenerarCartillaAleatoria(cartasIds: seq<int>, picks: seq<nat>) returns (cartilla: seq<int>)
    requires |cartasIds| >= BoardSize && |picks| == BoardSize
    requires ValidDraws(picks, |cartasIds|)
    ensures cartilla == Sample(cartasIds, picks)
    ensures |cartilla| == BoardSize
    ensures forall x :: x in cartilla ==> x in cartasIds
    ensures Distinct(cartasIds) ==> Distinct(cartilla)
  {
    cartilla := [];
    var disponibles := cartasIds;
    ghost var drawn := Sample(cartasIds, picks);
    for i := 0 to BoardSize
      invariant |disponibles| == |cartasIds| - i
      invariant multiset(cartilla) + multiset(disponibles) == multiset(cartasIds)
      invariant ValidDraws(picks[i..], |disponibles|)
      invariant cartilla + Sample(disponibles, picks[i..]) == drawn
    {
      var randomIndex := picks[i];
      DrawStep(cartilla, disponibles, picks[i..]);
      DrawKeepsPool(cartilla, disponibles, randomIndex);
      assert picks[i..][0] == randomIndex && picks[i..][1..] == picks[i + 1..];
      cartilla := cartilla + [disponibles[randomIndex]];
      disponibles := RemoveAt(disponibles, randomIndex);
    }
    assert picks[BoardSize..] == [];
    SampleFromPool(cartasIds, picks);
  }

  /** The sequence with the elements at `i` and `j` exchanged. */
  function Swap(s: seq<int>, i: nat, j: nat): (r: seq<int>)
    requires i < |s| && j < |s|
    ensures |r| == |s|
    ensures r[i] == s[j] && r[j] == s[i]
    ensures forall k :: 0 <= k < |s| && k != i && k != j ==> r[k] == s[k]
  {
    s[i := s[j]][j := s[i]]
  }

  /** The swap indices are usable: the swap at step `i` picks an index in [0, i]. */
  predicate ValidSwaps(js: seq<nat>, n: nat) {
    |js| == n && forall i :: 0 < i < n ==> js[i] <= i
  }

  /**
   * Fisher-Yates from index `i` down to index 1: step `i` swaps the element at
   * `i` with the one at `js[i]`.
   */
  function Shuffle(s: seq<int>, js: seq<nat>, i: int): (r: seq<int>)
    requires ValidSwaps(js, |s|) && -1 <= i < |s|
    ensures |r| == |s|
    decreases i
  {
    if i <= 0 then s else Shuffle(Swap(s, i, js[i]), js, i - 1)
  }

  /** Exchanging two elements keeps the multiset of elements. */
  lemma SwapPermutes(s: seq<int>, i: nat, j: nat)
    requires i < |s| && j < |s|
    ensures multiset(Swap(s, i, j)) == multiset(s)
  {
    var t := s[i := s[j]];
    assert multiset(t) == multiset(s) - multiset{s[i]} + multiset{s[j]};
    assert multiset(t[j := s[i]]) == multiset(t) - multiset{t[j]} + multiset{s[i]};
  }

  /** The shuffle returns a permutation of its input: same elements, same multiplicities. */
  lemma {:induction false} ShufflePermutes(s: seq<int>, js: seq<nat>, i: int)
    requires ValidSwaps(js, |s|) && -1 <= i < |s|
    ensures multiset(Shuffle(s, js, i)) == multiset(s)
    decreases i
  {
    if i > 0 {
      SwapPermutes(s, i, js[i]);
      ShufflePermutes(Swap(s, i, js[i]), js, i - 1);
    }
  }

  /** Once step `i` has run, positions above `i` keep their values: later steps only touch [0, i-1]. */
  lemma {:induction false} ShuffleKeepsAbove(s: seq<int>, js: seq<nat>, i: int, k: nat)
    requires ValidSwaps(js, |s|) && -1 <= i < |s|
    requires i < k < |s|
    ensures Shuffle(s, js, i)[k] == s[k]
    decreases i
  {
    if i > 0 {
      var t := Swap(s, i, js[i]);
      assert t[k] == s[k];
      ShuffleKeepsAbove(t, js, i - 1, k);
    }
  }

  /**
   * barajarCartas: an in-place Fisher-Yates shuffle of a fresh array holding
   * the catalog ids, for i from the last index down to 1.
   */
  method BarajarCartas(cartasIds: seq<int>, js: seq<nat>) returns (cartas: seq<int>)
    requires ValidSwaps(js, |cartasIds|)
    ensures cartas == Shuffle(cartasIds, js, |cartasIds| - 1)
    ensures |cartas| == |cartasIds| && multiset(cartas) == multiset(cartasIds)
  {
    var a := new int[|cartasIds|](k requires 0 <= k < |cartasIds| => cartasIds[k]);
    assert a[..] == cartasIds;
    ghost var shuffled := Shuffle(cartasIds, js, |cartasIds| - 1);
    var i := a.Length - 1;
    while i > 0
      invariant -1 <= i < a.Length && a.Length == |cartasIds|
      invariant Shuffle(a[..], js, i) == shuffled
      decreases i
    {
      var j := js[i];
      ghost var before := a[..];
      a[i], a[j] := a[j], a[i];
      assert a[..] == Swap(before, i, j);
      i := i - 1;
    }
    assert a[..] == shuffled;
    ShufflePermutes(cartasIds, js, |cartasIds| - 1);
    cartas := a[..];
  }
}
