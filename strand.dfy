/** The reverse-strand batch `np.flip(X, [1, 2])`: each window read with its
    rows and its channels in reverse order. */
module Strand {
  import opened Encoding
  import opened Windowing
  import opened Chunking

  function ReverseRow(r: Row): (rev: Row)
    ensures |rev| == |r|
  {
    seq(|r|, c requires 0 <= c < |r| => r[|r| - 1 - c])
  }

  /** One window flipped along the row axis and the channel axis. */
  function Flip(w: Window): (flipped: Window)
    ensures |flipped| == |w|
  {
    seq(|w|, j requires 0 <= j < |w| => ReverseRow(w[|w| - 1 - j]))
  }

  /** A batch flipped window by window; the batch order is kept. */
  function FlipBatch(batch: seq<Window>): seq<Window> {
    Map(Flip, batch)
  }

  /** The flip sends row `j`, channel `c` to row `49 - j`, channel `3 - c`,
      and keeps the shape of a window. */
  lemma FlipAt(w: Window, j: nat, c: nat)
    requires IsWindow(w) && j < WindowSize && c < Channels
    ensures IsWindow(Flip(w))
    ensures Flip(w)[j][c] == w[WindowSize - 1 - j][Channels - 1 - c]
  {
    forall t | 0 <= t < |w| ensures |Flip(w)[t]| == Channels {
      assert Flip(w)[t] == ReverseRow(w[|w| - 1 - t]);
    }
    assert Flip(w)[j] == ReverseRow(w[WindowSize - 1 - j]);
  }

  /** Flipping twice gives back the window. */
  lemma FlipInvolution(w: Window)
    ensures Flip(Flip(w)) == w
  {
    forall j | 0 <= j < |w| ensures Flip(Flip(w))[j] == w[j] {
      assert Flip(Flip(w))[j] == ReverseRow(ReverseRow(w[j]));
    }
  }

  /** Flipping a batch twice gives back the batch. */
  lemma FlipBatchInvolution(batch: seq<Window>)
    ensures FlipBatch(FlipBatch(batch)) == batch
  {
    forall k | 0 <= k < |batch| ensures FlipBatch(FlipBatch(batch))[k] == batch[k] {
      FlipInvolution(batch[k]);
    }
  }

  /** Watson-Crick complement; N is its own complement. */
  function Complement(c: char): (d: char)
    requires IsNucleotide(c)
    ensures IsNucleotide(d)
  {
    match c
    case 'A' => 'T' case 'C' => 'G' case 'G' => 'C' case 'T' => 'A'
    case 'a' => 't' case 'c' => 'g' case 'g' => 'c' case 't' => 'a'
    case _ => c
  }

  function ReverseComplement(s: string): (rc: string)
    requires IsDna(s)
    ensures |rc| == |s| && IsDna(rc)
  {
    seq(|s|, k requires 0 <= k < |s| => Complement(s[|s| - 1 - k]))
  }

  /** Reversing the channel order of a base's row gives its complement's row,
      since the channels are A, C, G, T in that order. */
  lemma ComplementRow(c: char)
    requires IsNucleotide(c)
    ensures ReverseRow(RowFor(c)) == RowFor(Complement(c))
  {
    RowForChannels(c);
    RowForChannels(Complement(c));
  }

  /** The flipped encoding of a sequence is the encoding of its reverse
      complement: the flip is what the network sees of the other strand. */
  lemma FlipIsReverseComplement(s: string)
    requires IsDna(s)
    ensures Flip(Encode(s)) == Encode(ReverseComplement(s))
  {
    var e := Encode(s);
    forall j | 0 <= j < |s| ensures Flip(e)[j] == Encode(ReverseComplement(s))[j] {
      var c := s[|s| - 1 - j];
      assert Flip(e)[j] == ReverseRow(e[|s| - 1 - j]) == ReverseRow(RowFor(c));
      ComplementRow(c);
      assert Encode(ReverseComplement(s))[j] == RowFor(Complement(c));
    }
  }
}
