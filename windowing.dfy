/** Window extraction: the 50-row slices of an encoded sequence that the
    network scores, in genome mode around a centre and in text mode from
    every start. */
module Windowing {
  import opened Encoding

  /** A batch element: fifty encoded rows. */
  type Window = seq<Row>

  const WindowSize: nat := 50
  /** Bases on each side of a genome-mode centre. */
  const Flank: nat := 25

  predicate IsWindow(w: Window) {
    |w| == WindowSize && forall j :: 0 <= j < |w| ==> |w[j]| == Channels
  }

  /** Python's `range(a, b)`. */
  function Range(a: int, b: int): (r: seq<int>)
    ensures |r| == if b <= a then 0 else b - a
  {
    if b <= a then [] else seq(b - a, k => a + k)
  }

  /** The genome-mode centres `range(25, L - 24)`. */
  function Centres(length: nat): seq<int> {
    Range(Flank, length - Flank + 1)
  }

  /** Centres whose window `[i - 25, i + 25)` lies inside a sequence of the
      given length. */
  predicate ValidCentres(length: nat, centres: seq<int>) {
    forall k :: 0 <= k < |centres| ==> Flank <= centres[k] <= length - Flank
  }

  /** The genome-mode window `onehot[i - 25 : i + 25]`. */
  function WindowAt(onehot: seq<Row>, i: int): Window
    requires Flank <= i <= |onehot| - Flank
  {
    onehot[i - Flank .. i + Flank]
  }

  /** The windows of a list of centres, in the list's order. */
  function CentredWindows(onehot: seq<Row>, centres: seq<int>): (ws: seq<Window>)
    requires ValidCentres(|onehot|, centres)
    ensures |ws| == |centres|
  {
    seq(|centres|, k requires 0 <= k < |centres| => WindowAt(onehot, centres[k]))
  }

  /** The text-mode windows `onehot[i : i + 50]` for `i` in `range(l - 49)`. */
  function SubWindows(onehot: seq<Row>): (ws: seq<Window>)
    ensures |ws| == if |onehot| < WindowSize then 0 else |onehot| - WindowSize + 1
  {
    if |onehot| < WindowSize then []
    else seq(|onehot| - WindowSize + 1,
             i requires 0 <= i < |onehot| - WindowSize + 1 => onehot[i .. i + WindowSize])
  }

  /** The inner loop of a genome chunk: one window appended per centre. */
  method ChunkWindows(onehot: seq<Row>, chunk: seq<int>) returns (batch: seq<Window>)
    requires ValidCentres(|onehot|, chunk)
    ensures batch == CentredWindows(onehot, chunk)
  {
    batch := [];
    for k := 0 to |chunk|
      invariant batch == CentredWindows(onehot, chunk[..k])
    {
      var i := chunk[k];
      assert chunk[..k + 1] == chunk[..k] + [i];
      batch := batch + [onehot[i - Flank .. i + Flank]];
    }
    assert chunk[..|chunk|] == chunk;
  }

  /** The text-mode loop over start positions: one window appended per start. */
  method SlidingWindows(onehot: seq<Row>) returns (batch: seq<Window>)
    ensures batch == SubWindows(onehot)
  {
    var l := |onehot|;
    batch := [];
    for i := 0 to if l < WindowSize then 0 else l - WindowSize + 1
      invariant batch == seq(i, t requires 0 <= t < i => onehot[t .. t + WindowSize])
    {
      batch := batch + [onehot[i .. i + WindowSize]];
    }
  }

  /** A sequence of length L >= 50 has exactly L - 49 centres, 25 to L - 25 in
      ascending order, and each centre's window lies inside the sequence. */
  lemma CentresSpan(length: nat)
    requires length >= WindowSize
    ensures |Centres(length)| == length - WindowSize + 1
    ensures forall k :: 0 <= k < |Centres(length)| ==> Centres(length)[k] == Flank + k
    ensures Centres(length)[0] == Flank
    ensures Centres(length)[|Centres(length)| - 1] == length - Flank
    ensures ValidCentres(length, Centres(length))
  {
  }

  /** A genome-mode window has fifty rows of four channels; its row `j` is row
      `i - 25 + j` of the sequence. */
  lemma WindowAtRows(onehot: seq<Row>, i: int)
    requires forall k :: 0 <= k < |onehot| ==> |onehot[k]| == Channels
    requires Flank <= i <= |onehot| - Flank
    ensures IsWindow(WindowAt(onehot, i))
    ensures forall j :: 0 <= j < WindowSize ==> WindowAt(onehot, i)[j] == onehot[i - Flank + j]
  {
  }

  /** Windowing distributes over concatenating centre lists. */
  lemma CentredWindowsAppend(onehot: seq<Row>, xs: seq<int>, ys: seq<int>)
    requires ValidCentres(|onehot|, xs) && ValidCentres(|onehot|, ys)
    ensures ValidCentres(|onehot|, xs + ys)
    ensures CentredWindows(onehot, xs + ys) == CentredWindows(onehot, xs) + CentredWindows(onehot, ys)
  {
  }

  /** The genome-mode windows over all centres are exactly the text-mode
      windows over all starts: window `k` starts at row `k`. */
  lemma CentredWindowsAreSubWindows(onehot: seq<Row>)
    requires |onehot| >= WindowSize
    ensures ValidCentres(|onehot|, Centres(|onehot|))
    ensures CentredWindows(onehot, Centres(|onehot|)) == SubWindows(onehot)
  {
    CentresSpan(|onehot|);
  }
}
