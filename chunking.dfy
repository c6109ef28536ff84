/** `np.array_split` of the genome-mode centres into a fixed number of
    contiguous pieces, and the flattening of the per-piece results. */
module Chunking {

  /** The number of pieces genome mode splits its centres into. */
  const Parts: nat := 100

  /** An elementwise map over a batch. */
  function Map<A, B>(f: A -> B, s: seq<A>): (r: seq<B>)
    ensures |r| == |s|
  {
    seq(|s|, k requires 0 <= k < |s| => f(s[k]))
  }

  /** `[item for sublist in xss for item in sublist]`. */
  function Flatten<T>(xss: seq<seq<T>>): seq<T>
    decreases |xss|
  {
    if xss == [] then [] else Flatten(xss[..|xss| - 1]) + xss[|xss| - 1]
  }

  lemma FlattenAppend<T>(xss: seq<seq<T>>, xs: seq<T>)
    ensures Flatten(xss + [xs]) == Flatten(xss) + xs
  {
    assert (xss + [xs])[..|xss|] == xss;
  }

  function Min(a: int, b: int): int {
    if a <= b then a else b
  }

  /** The size numpy gives piece `k` when `n` items are split into pieces of
      `q = n / parts` items, the first `r = n % parts` of them one item more. */
  function PieceSize(q: nat, r: nat, k: nat): nat {
    q + if k < r then 1 else 0
  }

  /** Where piece `k` starts: the running sum of the sizes of the pieces
      before it (numpy's cumulative sum of its section sizes). */
  function SplitStart(q: nat, r: nat, k: nat): nat {
    if k == 0 then 0 else SplitStart(q, r, k - 1) + PieceSize(q, r, k - 1)
  }

  /** Piece `k`: `xs[start_k:start_(k+1)]`. The split only asks for pieces
      whose bounds satisfy `start_k <= start_(k+1) <= |xs|` (`SplitByPiece`),
      so the empty fallback is never taken there. */
  function Piece<T>(xs: seq<T>, q: nat, r: nat, k: nat): seq<T> {
    var a, b := SplitStart(q, r, k), SplitStart(q, r, k + 1);
    if a <= b <= |xs| then xs[a..b] else []
  }

  /** The `parts` consecutive pieces of sizes `PieceSize(q, r, k)`. */
  function SplitBy<T>(xs: seq<T>, q: nat, r: nat, parts: nat): (pieces: seq<seq<T>>)
    ensures |pieces| == parts
  {
    seq(parts, k requires 0 <= k < parts => Piece(xs, q, r, k))
  }

  /** `np.array_split(xs, parts)`. */
  function ArraySplit<T>(xs: seq<T>, parts: nat): (pieces: seq<seq<T>>)
    requires parts > 0
    ensures |pieces| == parts
  {
    SplitBy(xs, |xs| / parts, |xs| % parts, parts)
  }

  /** Piece `k` starts after `k` pieces of the smaller size and one extra item
      for each of the first `r` pieces before it. */
  lemma {:induction false} SplitStartClosedForm(q: nat, r: nat, k: nat)
    ensures SplitStart(q, r, k) == k * q + Min(k, r)
  {
    if k > 0 {
      SplitStartClosedForm(q, r, k - 1);
      assert k * q == (k - 1) * q + q;
    }
  }

  /** Piece starts never go backwards. */
  lemma {:induction false} SplitStartMonotone(q: nat, r: nat, j: nat, k: nat)
    requires j <= k
    ensures SplitStart(q, r, j) <= SplitStart(q, r, k)
  {
    if j < k {
      SplitStartMonotone(q, r, j, k - 1);
    }
  }

  /** After all `parts` pieces the split has used up exactly the `n` items. */
  lemma SplitStartEnd(n: nat, parts: nat)
    requires 0 < parts
    ensures SplitStart(n / parts, n % parts, parts) == n
  {
    SplitStartClosedForm(n / parts, n % parts, parts);
  }

  /** Piece `k` of a split that ends at `|xs|` is the contiguous run of `xs`
      from its start to the next piece's start. */
  lemma SplitByPiece<T>(xs: seq<T>, q: nat, r: nat, parts: nat, k: nat)
    requires SplitStart(q, r, parts) == |xs| && k < parts
    ensures SplitStart(q, r, k) <= SplitStart(q, r, k + 1) <= |xs|
    ensures SplitBy(xs, q, r, parts)[k] == xs[SplitStart(q, r, k)..SplitStart(q, r, k + 1)]
  {
    SplitStartMonotone(q, r, k, k + 1);
    SplitStartMonotone(q, r, k + 1, parts);
    assert SplitBy(xs, q, r, parts)[k] == Piece(xs, q, r, k);
  }

  /** Piece `k` of `np.array_split` is the contiguous run of the input from
      its start to the next piece's start. */
  lemma ArraySplitPiece<T>(xs: seq<T>, parts: nat, k: nat)
    requires 0 <= k < parts
    ensures var a, b := SplitStart(|xs| / parts, |xs| % parts, k), SplitStart(|xs| / parts, |xs| % parts, k + 1);
      a <= b <= |xs| && ArraySplit(xs, parts)[k] == xs[a..b]
  {
    SplitStartEnd(|xs|, parts);
    SplitByPiece(xs, |xs| / parts, |xs| % parts, parts, k);
  }

  /** The pieces are balanced: piece `k` has `n / parts` items, one more when
      `k < n % parts`; so any two differ by at most one and an earlier piece is
      never smaller than a later one. */
  lemma ArraySplitSizes<T>(xs: seq<T>, parts: nat)
    requires parts > 0
    ensures forall k :: 0 <= k < parts ==>
      |ArraySplit(xs, parts)[k]| == |xs| / parts + if k < |xs| % parts then 1 else 0
    ensures forall k, m :: 0 <= k < m < parts ==>
      0 <= |ArraySplit(xs, parts)[k]| - |ArraySplit(xs, parts)[m]| <= 1
  {
    forall k | 0 <= k < parts
      ensures |ArraySplit(xs, parts)[k]| == |xs| / parts + if k < |xs| % parts then 1 else 0
    {
      ArraySplitPiece(xs, parts, k);
    }
  }

  /** The pieces partition the input in order: flattening them gives it back. */
  lemma {:induction false} FlattenArraySplit<T>(xs: seq<T>, parts: nat)
    requires parts > 0
    ensures Flatten(ArraySplit(xs, parts)) == xs
  {
    var q, r := |xs| / parts, |xs| % parts;
    SplitStartEnd(|xs|, parts);
    FlattenPrefix(xs, q, r, parts, parts);
    assert SplitBy(xs, q, r, parts)[..parts] == SplitBy(xs, q, r, parts);
  }

  /** The first `k` pieces flatten to the input up to piece `k`'s start. */
  lemma {:induction false} FlattenPrefix<T>(xs: seq<T>, q: nat, r: nat, parts: nat, k: nat)
    requires SplitStart(q, r, parts) == |xs| && k <= parts
    ensures SplitStart(q, r, k) <= |xs|
    ensures Flatten(SplitBy(xs, q, r, parts)[..k]) == xs[..SplitStart(q, r, k)]
  {
    SplitStartMonotone(q, r, k, parts);
    var pieces := SplitBy(xs, q, r, parts);
    if k > 0 {
      FlattenPrefix(xs, q, r, parts, k - 1);
      var a, b := SplitStart(q, r, k - 1), SplitStart(q, r, k);
      SplitByPiece(xs, q, r, parts, k - 1);
      assert pieces[..k] == pieces[..k - 1] + [xs[a..b]];
      FlattenAppend(pieces[..k - 1], xs[a..b]);
      assert xs[..b] == xs[..a] + xs[a..b];
    }
  }

  /** Mapping each piece and flattening equals flattening and then mapping:
      a per-item computation gives the same results whether run piece by
      piece or on everything at once. */
  lemma {:induction false} FlattenMap<A, B>(f: A -> B, xss: seq<seq<A>>, yss: seq<seq<B>>)
    requires |yss| == |xss|
    requires forall k :: 0 <= k < |xss| ==> yss[k] == Map(f, xss[k])
    ensures Flatten(yss) == Map(f, Flatten(xss))
  {
    if xss != [] {
      var n := |xss| - 1;
      FlattenMap(f, xss[..n], yss[..n]);
      MapAppend(f, Flatten(xss[..n]), xss[n]);
    }
  }

  lemma MapAppend<A, B>(f: A -> B, xs: seq<A>, ys: seq<A>)
    ensures Map(f, xs + ys) == Map(f, xs) + Map(f, ys)
  {
  }
}
