/**
 * Tile permutations (src/lib/puzzle.ts): the Fisher–Yates shuffle that scrambles a new
 * board, the solved check, the correct-tile counter and the difficulty lookups.
 * A tile order maps each board position to the source tile shown there.
 */
module PuzzleLib {
  import opened Types

  /** The solved board `[0, 1, ..., n-1]`. */
  function Identity(n: nat): (r: seq<int>)
    ensures |r| == n && forall i :: 0 <= i < n ==> r[i] == i
  {
    seq(n, i => i)
  }

  /** `s` holds each of `0..n-1` exactly once. */
  ghost predicate IsPermutation(s: seq<int>, n: nat) {
    multiset(s) == multiset(Identity(n))
  }

  /** `s` with the entries at `i` and `j` exchanged. */
  function Swapped(s: seq<int>, i: nat, j: nat): (r: seq<int>)
    requires i < |s| && j < |s|
    ensures |r| == |s| && r[i] == s[j] && r[j] == s[i]
    ensures forall k :: 0 <= k < |s| && k != i && k != j ==> r[k] == s[k]
  {
    s[i := s[j]][j := s[i]]
  }

  lemma SwapPermutes(s: seq<int>, i: nat, j: nat)
    requires i < |s| && j < |s|
    ensures multiset(Swapped(s, i, j)) == multiset(s)
  {
  }

  lemma SwapTwice(s: seq<int>, i: nat, j: nat)
    requires i < |s| && j < |s|
    ensures Swapped(Swapped(s, i, j), i, j) == s
  {
  }

  /** Each drawn index lies in the range `Math.floor(Math.random() * (i + 1))` can produce. */
  ghost predicate ValidDraws(draws: seq<nat>) {
    forall i :: 0 <= i < |draws| ==> draws[i] <= i
  }

  /** The shuffle's iterations `i, i-1, ..., 1`: iteration `k` swaps entry `k` with entry
      `draws[k]`. */
  function ShuffleSteps(s: seq<int>, i: nat, draws: seq<nat>): seq<int>
    requires i == 0 || (i < |s| && i < |draws|)
    requires ValidDraws(draws)
    decreases i
  {
    if i == 0 then s else ShuffleSteps(Swapped(s, i, draws[i]), i - 1, draws)
  }

  lemma {:induction false} ShuffleStepsPermute(s: seq<int>, i: nat, draws: seq<nat>)
    requires i == 0 || (i < |s| && i < |draws|)
    requires ValidDraws(draws)
    ensures multiset(ShuffleSteps(s, i, draws)) == multiset(s)
    decreases i
  {
    if i > 0 {
      SwapPermutes(s, i, draws[i]);
      ShuffleStepsPermute(Swapped(s, i, draws[i]), i - 1, draws);
    }
  }

  /** The fix-up after the shuffle: a solved board of more than one tile has its first two
      tiles exchanged. It never returns a solved board of more than one tile, only ever
      touches the first two entries, and changes nothing unless its input was solved. */
  function AvoidSolved(s: seq<int>): (r: seq<int>)
    ensures |r| == |s| && multiset(r) == multiset(s)
    ensures |s| > 1 ==> !IsPuzzleSolved(r)
    ensures forall k :: 2 <= k < |s| ==> r[k] == s[k]
    ensures r != s ==> IsPuzzleSolved(s) && |s| > 1
  {
    if IsPuzzleSolved(s) && |s| > 1 then
      SwapPermutes(s, 0, 1);
      Swapped(s, 0, 1)
    else s
  }

  /** What `generateShuffledOrder(n)` returns when `Math.random` yields the draws `draws`. */
  function ShuffledOrder(n: nat, draws: seq<nat>): seq<int>
    requires n <= |draws| && ValidDraws(draws)
  {
    AvoidSolved(ShuffleSteps(Identity(n), if n > 0 then n - 1 else 0, draws))
  }

  /** The shuffled order is a permutation of `0..n-1`; for more than one tile it is never
      the solved board, and for at most one tile it is the solved board. */
  lemma ShuffledOrderProperties(n: nat, draws: seq<nat>)
    requires n <= |draws| && ValidDraws(draws)
    ensures IsPermutation(ShuffledOrder(n, draws), n)
    ensures n > 1 ==> !IsPuzzleSolved(ShuffledOrder(n, draws))
    ensures n <= 1 ==> ShuffledOrder(n, draws) == Identity(n)
  {
    ShuffleStepsPermute(Identity(n), if n > 0 then n - 1 else 0, draws);
    if n <= 1 {
      assert ShuffleSteps(Identity(n), 0, draws) == Identity(n);
    }
  }

  /** `generateShuffledOrder`: fills an array with `0..n-1`, runs the descending
      Fisher–Yates loop with the drawn indices, then applies the fix-up in place. */
  method GenerateShuffledOrder(totalTiles: nat, draws: seq<nat>) returns (order: seq<int>)
    requires totalTiles <= |draws| && ValidDraws(draws)
    ensures order == ShuffledOrder(totalTiles, draws)
    ensures IsPermutation(order, totalTiles)
    ensures totalTiles > 1 ==> !IsPuzzleSolved(order)
    ensures totalTiles <= 1 ==> order == Identity(totalTiles)
  {
    var a := new int[totalTiles](k => k);
    assert a[..] == Identity(totalTiles);

    var i: int := a.Length - 1;
    while i > 0
      invariant -1 <= i < a.Length
      invariant i >= 0 || a.Length == 0
      invariant ShuffleSteps(a[..], if i > 0 then i else 0, draws)
             == ShuffleSteps(Identity(totalTiles), if totalTiles > 0 then totalTiles - 1 else 0, draws)
    {
      var j := draws[i];
      ghost var before := a[..];
      a[i], a[j] := a[j], a[i];
      assert a[..] == Swapped(before, i, j);
      i := i - 1;
    }

    if IsPuzzleSolved(a[..]) && a.Length > 1 {
      ghost var before := a[..];
      a[0], a[1] := a[1], a[0];
      assert a[..] == Swapped(before, 0, 1);
    }
    order := a[..];
    ShuffledOrderProperties(totalTiles, draws);
  }

  /** `isPuzzleSolved`: every entry equals its position, i.e. the board is the identity
      (vacuously so for the empty board). */
  function IsPuzzleSolved(tileOrder: seq<int>): (solved: bool)
    ensures solved <==> tileOrder == Identity(|tileOrder|)
  {
    forall i :: 0 <= i < |tileOrder| ==> tileOrder[i] == i
  }

  /** The number of positions below `k` that hold their own tile. */
  function CorrectBelow(tileOrder: seq<int>, k: nat): (c: nat)
    requires k <= |tileOrder|
    ensures c <= k
    ensures c == k <==> forall i :: 0 <= i < k ==> tileOrder[i] == i
  {
    if k == 0 then 0 else CorrectBelow(tileOrder, k - 1) + (if tileOrder[k - 1] == k - 1 then 1 else 0)
  }

  /** `countCorrectTiles`: the number of fixed points; at most the board size, and equal to
      it exactly when the board is solved. */
  function CountCorrectTiles(tileOrder: seq<int>): (c: nat)
    ensures c <= |tileOrder|
    ensures c == |tileOrder| <==> IsPuzzleSolved(tileOrder)
  {
    CorrectBelow(tileOrder, |tileOrder|)
  }

  lemma CountCorrectTilesExample()
    ensures CountCorrectTiles([0, 2, 1, 3]) == 2
    ensures IsPuzzleSolved([0, 1, 2, 3]) && IsPuzzleSolved([])
  {
    assert [0, 1, 2, 3] == Identity(4);
  }

  /** Writing `v` at position `p` changes the count by what position `p` loses and gains. */
  lemma {:induction false} CorrectBelowUpdate(o: seq<int>, p: nat, v: int, k: nat)
    requires p < |o| && k <= |o|
    ensures CorrectBelow(o[p := v], k)
         == CorrectBelow(o, k) - (if p < k && o[p] == p then 1 else 0) + (if p < k && v == p then 1 else 0)
  {
    if k > 0 {
      CorrectBelowUpdate(o, p, v, k - 1);
    }
  }

  /** Moving a misplaced tile `t` into its own slot `t` raises the count by one, or by two
      when the tile it displaces lands in its own slot as well. */
  lemma PlacingTileRaisesCount(o: seq<int>, a: nat)
    requires IsPermutation(o, |o|)
    requires a < |o| && o[a] != a
    ensures 0 <= o[a] < |o|
    ensures CountCorrectTiles(Swapped(o, a, o[a] as nat))
         == CountCorrectTiles(o) + (if o[o[a]] == a then 2 else 1)
  {
    PermutationFacts(o, |o|);
    var t := o[a] as nat;
    assert o[t] != t;
    var o1 := o[a := o[t]];
    CorrectBelowUpdate(o, a, o[t], |o|);
    CorrectBelowUpdate(o1, t, t, |o|);
    assert Swapped(o, a, t) == o1[t := t];
  }

  lemma {:induction false} IdentityMultiplicity(n: nat, v: int)
    ensures multiset(Identity(n))[v] == if 0 <= v < n then 1 else 0
  {
    if n > 0 {
      assert Identity(n) == Identity(n - 1) + [n - 1];
      IdentityMultiplicity(n - 1, v);
    }
  }

  /** A permutation of `0..n-1` has length `n`, entries in range, no repeated entry, and
      contains every value of the range. */
  lemma PermutationFacts(s: seq<int>, n: nat)
    requires IsPermutation(s, n)
    ensures |s| == n
    ensures forall i :: 0 <= i < |s| ==> 0 <= s[i] < n
    ensures forall i, j :: 0 <= i < j < |s| ==> s[i] != s[j]
    ensures forall v :: 0 <= v < n ==> v in s
  {
    assert |s| == |multiset(s)| == |multiset(Identity(n))| == n;
    forall i | 0 <= i < |s| ensures 0 <= s[i] < n {
      assert s[i] in multiset(s);
      IdentityMultiplicity(n, s[i]);
    }
    forall i, j | 0 <= i < j < |s| ensures s[i] != s[j] {
      if s[i] == s[j] {
        var v := s[i];
        assert s == s[..j] + s[j..];
        assert v in s[..j] && v in s[j..];
        assert multiset(s)[v] == multiset(s[..j])[v] + multiset(s[j..])[v] >= 2;
        IdentityMultiplicity(n, v);
        assert false;
      }
    }
    forall v | 0 <= v < n ensures v in s {
      IdentityMultiplicity(n, v);
      assert v in multiset(s);
    }
  }

  /** `getGridSize`: the grid dimension of the tier's table entry (3, 4 or 5). */
  function GetGridSize(d: Difficulty): (g: nat)
    ensures g == Config(d).gridSize && 3 <= g <= 5
  {
    Config(d).gridSize
  }

  /** `getPrice`: the tier's price in kobo. */
  function GetPrice(d: Difficulty): (price: nat)
    ensures price == Config(d).priceKobo && 100000 <= price <= 350000
  {
    Config(d).priceKobo
  }

  /** A harder tier has a larger grid and costs strictly more. */
  lemma HarderCostsMore(d1: Difficulty, d2: Difficulty)
    requires Rank(d1) < Rank(d2)
    ensures GetGridSize(d1) < GetGridSize(d2)
    ensures GetPrice(d1) < GetPrice(d2)
  {
  }
}
