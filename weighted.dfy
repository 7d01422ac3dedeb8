/**
 * `weightedRandom`: sum the BigInt weights, scale an integer draw into
 * [0, total], then walk the keys in `Object.keys` order, subtracting each
 * weight until the remaining draw falls below the current key's weight.
 *
 * `Math.random()` and the float step `Math.floor(1e19 * random)` are replaced
 * by the integer `k` that step yields; nothing about its range is assumed.
 */
module WeightedPick {
  import opened Wrappers
  import opened Arith

  /** 10^19, the denominator of the scaled draw. */
  const Scale: nat := 10_000_000_000_000_000_000

  const NotFound: string := "No random number found."

  /** BigInt division, which truncates toward zero (Dafny's `/` is Euclidean). */
  function TruncDiv(a: int, d: int): (q: int)
    requires d > 0
    ensures 0 <= a ==> 0 <= q && q * d <= a < q * d + d
    ensures a < 0 ==> q <= 0 && q * d - d < a <= q * d
  {
    if a >= 0 then
      FloorDivBounds(a, d);
      a / d
    else
      FloorDivBounds(-a, d);
      -((-a) / d)
  }

  /** Euclidean division of a non-negative number is its floor. */
  lemma FloorDivBounds(a: int, d: int)
    requires 0 <= a && 0 < d
    ensures 0 <= a / d && (a / d) * d <= a < (a / d) * d + d
  {
    var q, r := a / d, a % d;
    assert a == d * q + r && 0 <= r < d;
    if q < 0 {
      MulMonotone(d, q, -1);
    }
    assert q * d == d * q;
  }

  /** `totalWeight * BigInt(k) / 10^19`, the draw value of line 72. */
  function ScaledDraw(total: int, k: int): (r: int)
    ensures 0 <= total && 0 <= k ==> 0 <= r
    ensures 0 <= total && 0 <= k <= Scale ==> r <= total
    ensures 0 < total && 0 <= k ==> (r < total <==> k < Scale)
  {
    ScaledDrawBounds(total, k);
    TruncDiv(total * k, Scale)
  }

  lemma ScaledDrawBounds(total: int, k: int)
    ensures 0 <= total && 0 <= k ==> 0 <= TruncDiv(total * k, Scale)
    ensures 0 <= total && 0 <= k <= Scale ==> TruncDiv(total * k, Scale) <= total
    ensures 0 < total && 0 <= k ==> (TruncDiv(total * k, Scale) < total <==> k < Scale)
  {
    if 0 <= total && 0 <= k {
      var p := total * k;
      MulMonotone(total, 0, k);
      var q := p / Scale;
      assert q * Scale <= p < q * Scale + Scale;
      if k <= Scale {
        MulMonotone(total, k, Scale);
      }
      if 0 < total && k < Scale {
        MulMonotone(total, k, Scale - 1);
      }
      if k >= Scale {
        MulMonotone(total, Scale, k);
      }
    }
  }

  /** Sum of a weight sequence. */
  function Sum(w: seq<int>): int
  {
    if w == [] then 0 else Sum(w[..|w| - 1]) + w[|w| - 1]
  }

  /** `w[0] + ... + w[i-1]`. */
  function Prefix(w: seq<int>, i: nat): int
    requires i <= |w|
  {
    Sum(w[..i])
  }

  /**
   * `keys` lists every key of `weights` exactly once; `Object.keys` returns
   * them in the object's insertion order, which is one such list.
   */
  predicate IsKeyOrder<K>(keys: seq<K>, weights: map<K, int>)
  {
    && (forall i :: 0 <= i < |keys| ==> keys[i] in weights)
    && (forall key :: key in weights ==> key in keys)
    && (forall i, j :: 0 <= i < j < |keys| ==> keys[i] != keys[j])
  }

  /** The weights listed in key order. */
  function InOrder<K>(keys: seq<K>, weights: map<K, int>): seq<int>
    requires forall i :: 0 <= i < |keys| ==> keys[i] in weights
  {
    seq(|keys|, i requires 0 <= i < |keys| => weights[keys[i]])
  }

  predicate NonNegative(w: seq<int>)
  {
    forall i :: 0 <= i < |w| ==> w[i] >= 0
  }

  /** `w[0] + ... + w[i]`, the running sum once key `i` has been passed. */
  function Running(w: seq<int>, i: nat): int
    requires i < |w|
  {
    Prefix(w, i + 1)
  }

  /** Index `i` is the first whose running sum exceeds `r`. */
  predicate Selects(w: seq<int>, r: int, i: int)
  {
    && 0 <= i < |w|
    && r < Running(w, i)
    && forall j :: 0 <= j < i ==> Running(w, j) <= r
  }

  /** No running sum exceeds `r`: the walk falls off the end. */
  predicate NoneSelected(w: seq<int>, r: int)
  {
    forall j :: 0 <= j < |w| ==> Running(w, j) <= r
  }

  /**
   * The walk returns the key at the first index whose running sum exceeds the
   * draw, and throws exactly when there is none. The weights are a value:
   * the walk cannot reorder or change them.
   */
  method WeightedRandom<K>(keys: seq<K>, weights: map<K, int>, k: int) returns (result: Result<K, string>)
    requires IsKeyOrder(keys, weights)
    ensures result.Ok? ==>
      exists i :: Selects(InOrder(keys, weights), ScaledDraw(Sum(InOrder(keys, weights)), k), i)
                  && keys[i] == result.value
    ensures result.Err? ==>
      NoneSelected(InOrder(keys, weights), ScaledDraw(Sum(InOrder(keys, weights)), k))
      && result.error == NotFound
  {
    ghost var w := InOrder(keys, weights);
    var totalWeight := 0;
    for i := 0 to |keys|
      invariant totalWeight == Prefix(w, i)
    {
      assert w[..i + 1][..i] == w[..i];
      totalWeight := totalWeight + weights[keys[i]];
    }
    assert w[..|keys|] == w;
    ghost var r := ScaledDraw(totalWeight, k);
    var convertedNumber := ScaledDraw(totalWeight, k);
    for i := 0 to |keys|
      invariant convertedNumber == r - Prefix(w, i)
      invariant forall j :: 0 <= j < i ==> Running(w, j) <= r
    {
      assert w[..i + 1][..i] == w[..i];
      if convertedNumber < weights[keys[i]] {
        assert Selects(w, r, i);
        return Ok(keys[i]);
      }
      convertedNumber := convertedNumber - weights[keys[i]];
    }
    return Err(NotFound);
  }

  /** With non-negative weights the running sums never decrease. */
  lemma {:induction false} PrefixMonotone(w: seq<int>, i: nat, j: nat)
    requires NonNegative(w) && i <= j <= |w|
    ensures Prefix(w, i) <= Prefix(w, j)
  {
    if i < j {
      PrefixMonotone(w, i, j - 1);
      assert w[..j][..j - 1] == w[..j - 1];
    }
  }

  /** The selected index's cumulative interval `[Prefix(i), Prefix(i+1))` holds the draw. */
  lemma SelectedInterval(w: seq<int>, r: int, i: int)
    requires r >= 0 && Selects(w, r, i)
    ensures Prefix(w, i) <= r < Prefix(w, i) + w[i]
  {
    assert w[..i + 1][..i] == w[..i];
    if i > 0 {
      assert Running(w, i - 1) <= r;
    }
  }

  /** A key of weight 0 is never picked by a draw that is not negative. */
  lemma ZeroWeightNeverSelected(w: seq<int>, r: int, i: int)
    requires r >= 0 && Selects(w, r, i)
    ensures w[i] > 0
  {
    SelectedInterval(w, r, i);
  }

  /** At most one index is selected. */
  lemma SelectionUnique(w: seq<int>, r: int, i: int, j: int)
    requires Selects(w, r, i) && Selects(w, r, j)
    ensures i == j
  {
  }

  /** With non-negative weights the walk throws exactly when the draw reaches the total. */
  lemma NoneSelectedIffExhausted(w: seq<int>, r: int)
    requires NonNegative(w) && r >= 0
    ensures NoneSelected(w, r) <==> r >= Sum(w)
  {
    assert w[..|w|] == w;
    if |w| > 0 {
      assert Running(w, |w| - 1) == Sum(w);
    }
    if r >= Sum(w) {
      forall j | 0 <= j < |w|
        ensures Running(w, j) <= r
      {
        PrefixMonotone(w, j + 1, |w|);
      }
    }
  }

  /** Every draw below the total selects an index, and that index is unique. */
  lemma SomeSelected(w: seq<int>, r: int) returns (i: nat)
    requires NonNegative(w) && 0 <= r < Sum(w)
    ensures Selects(w, r, i)
  {
    NoneSelectedIffExhausted(w, r);
    var j :| 0 <= j < |w| && r < Running(w, j);
    i := j;
    while exists l :: 0 <= l < i && r < Running(w, l)
      invariant 0 <= i < |w| && r < Running(w, i)
      decreases i
    {
      var l :| 0 <= l < i && r < Running(w, l);
      i := l;
    }
  }

  /**
   * End to end: for non-negative weights with a positive total, the walk
   * throws if and only if the integer draw `k` reaches 10^19; in particular
   * every `k` in [0, 10^19) yields a key. With total 0 it always throws.
   */
  lemma ThrowsIffDrawOutOfRange(w: seq<int>, k: int)
    requires NonNegative(w) && k >= 0
    ensures Sum(w) > 0 ==> (NoneSelected(w, ScaledDraw(Sum(w), k)) <==> k >= Scale)
    ensures Sum(w) == 0 ==> NoneSelected(w, ScaledDraw(Sum(w), k))
  {
    assert w[..|w|] == w;
    PrefixMonotone(w, 0, |w|);
    NoneSelectedIffExhausted(w, ScaledDraw(Sum(w), k));
  }
}
