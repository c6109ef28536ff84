/** Genome mode, `cycle_fasta`: every centre of every FASTA record scored on
    both strands, in 100 chunks, calibrated and written as position rows. */
module Genome {
  import opened Results
  import opened Encoding
  import opened Windowing
  import opened Chunking
  import opened Strand
  import opened Calibration
  import opened Predictor

  /** One output row: the centre and its two scores. */
  datatype PositionRow = PositionRow(position: int, norm: real, unnorm: real)

  /** One parsed FASTA record. */
  datatype FastaRecord = FastaRecord(id: string, sequence: string)

  /** The rows written to the output file of one chromosome. */
  datatype ChromOutput = ChromOutput(chrom: string, rows: seq<PositionRow>)

  /** The files written by a run, and the lookup failure that stopped it. */
  datatype FastaRun = FastaRun(written: seq<ChromOutput>, failure: Option<Error>)

  /** `np.vstack((range(25, 25 + n), fit, fit2))` read row by row. */
  function AssembleRows(norm: seq<real>, unnorm: seq<real>): (rows: seq<PositionRow>)
    requires |norm| == |unnorm|
    ensures |rows| == |norm|
  {
    seq(|norm|, k requires 0 <= k < |norm| => PositionRow(Flank + k, norm[k], unnorm[k]))
  }

  /** The rows of one encoded chromosome, with every window scored at once. */
  function ChromosomeRows(onehot: seq<Row>, cfg: Config, net: Window -> real): seq<PositionRow>
    requires |onehot| >= WindowSize
  {
    CentresSpan(|onehot|);
    var windows := CentredWindows(onehot, Centres(|onehot|));
    var norm := Normalized(cfg, Scores(net, windows), Scores(net, FlipBatch(windows)));
    AssembleRows(norm, Unnormalized(cfg, norm))
  }

  /** What one record yields: its rows, or the encoder's failure. */
  function ChromosomeResult(genome: string, smooth: bool, nets: Networks): Result<seq<PositionRow>>
    requires |genome| >= WindowSize
  {
    match OneHot(genome)
    case Err(e) => Err(e)
    case Ok(onehot) => Ok(ChromosomeRows(onehot, ConfigFor(smooth), NetworkFor(nets, smooth)))
  }

  /** What a run over the records yields: one output per record, in order,
      until the first record that fails to encode. */
  function FastaResult(records: seq<FastaRecord>, smooth: bool, nets: Networks): FastaRun
    requires forall j :: 0 <= j < |records| ==> |records[j].sequence| >= WindowSize
  {
    if records == [] then FastaRun([], None)
    else match ChromosomeResult(records[0].sequence, smooth, nets)
      case Err(e) => FastaRun([], Some(e))
      case Ok(rows) =>
        var rest := FastaResult(records[1..], smooth, nets);
        FastaRun([ChromOutput(records[0].id, rows)] + rest.written, rest.failure)
  }

  /** The loop of `cycle_fasta` over the records of the file. */
  method CycleFasta(records: seq<FastaRecord>, smooth: bool, nets: Networks) returns (run: FastaRun)
    requires forall j :: 0 <= j < |records| ==> |records[j].sequence| >= WindowSize
    ensures run == FastaResult(records, smooth, nets)
  {
    var written: seq<ChromOutput> := [];
    for j := 0 to |records|
      invariant FastaResult(records, smooth, nets).written == written + FastaResult(records[j..], smooth, nets).written
      invariant FastaResult(records, smooth, nets).failure == FastaResult(records[j..], smooth, nets).failure
    {
      var fasta := records[j];
      assert records[j..][0] == fasta && records[j..][1..] == records[j + 1..];
      var result := ScoreChromosome(fasta.sequence, smooth, nets);
      if result.Err? {
        return FastaRun(written, Some(result.error));
      }
      written := written + [ChromOutput(fasta.id, result.value)];
    }
    return FastaRun(written, None);
  }

  /** The body of the record loop: encode, score the centres on both
      strands, calibrate and assemble the rows. */
  method ScoreChromosome(genome: string, smooth: bool, nets: Networks) returns (r: Result<seq<PositionRow>>)
    requires |genome| >= WindowSize
    ensures r == ChromosomeResult(genome, smooth, nets)
  {
    var net := NetworkFor(nets, smooth);
    var cfg := ConfigFor(smooth);
    var encoded := DnaOneHot(genome);
    if encoded.Err? {
      return Err(encoded.error);
    }
    var onehot := encoded.value;
    var fit, fitReverse := ScoreChunks(onehot, net);
    var forward := Flatten(fit);
    var reverse := Flatten(fitReverse);
    var norm := Normalized(cfg, forward, reverse);
    var unnorm := Unnormalized(cfg, norm);
    r := Ok(AssembleRows(norm, unnorm));
  }

  /** The chunk loop: the centres split into 100 pieces, and each piece's
      windows and their flips scored and appended in piece order. Flattened,
      the per-piece scores are those of all windows scored at once. */
  method ScoreChunks(onehot: seq<Row>, net: Window -> real) returns (fit: seq<seq<real>>, fitReverse: seq<seq<real>>)
    requires |onehot| >= WindowSize
    ensures ValidCentres(|onehot|, Centres(|onehot|))
    ensures Flatten(fit) == Scores(net, CentredWindows(onehot, Centres(|onehot|)))
    ensures Flatten(fitReverse) == Scores(net, FlipBatch(CentredWindows(onehot, Centres(|onehot|))))
  {
    var centres := Centres(|onehot|);
    CentresSpan(|onehot|);
    var chunks := ArraySplit(centres, Parts);
    PiecesValid(|onehot|, centres);
    fit := [];
    fitReverse := [];
    for c := 0 to Parts
      invariant fit == ChunkScores(onehot, net)[..c]
      invariant fitReverse == ChunkReverseScores(onehot, net)[..c]
    {
      var local := ChunkWindows(onehot, chunks[c]);
      var localReverse := FlipBatch(local);
      fit := fit + [Scores(net, local)];
      fitReverse := fitReverse + [Scores(net, localReverse)];
    }
    assert fit == ChunkScores(onehot, net);
    assert fitReverse == ChunkReverseScores(onehot, net);
    ChunkedScoresEqualUnchunked(onehot, net);
  }

  /** The windows of chunk `k` of the centres of an encoded chromosome. */
  function ChunkBatch(onehot: seq<Row>, k: nat): seq<Window>
    requires |onehot| >= WindowSize && k < Parts
  {
    CentresSpan(|onehot|);
    PiecesValid(|onehot|, Centres(|onehot|));
    CentredWindows(onehot, ArraySplit(Centres(|onehot|), Parts)[k])
  }

  /** The scores of every chunk's windows, chunk by chunk. */
  function ChunkScores(onehot: seq<Row>, net: Window -> real): (r: seq<seq<real>>)
    requires |onehot| >= WindowSize
    ensures |r| == Parts
  {
    seq(Parts, k requires 0 <= k < Parts => Scores(net, ChunkBatch(onehot, k)))
  }

  /** The scores of every chunk's flipped windows, chunk by chunk. */
  function ChunkReverseScores(onehot: seq<Row>, net: Window -> real): (r: seq<seq<real>>)
    requires |onehot| >= WindowSize
    ensures |r| == Parts
  {
    seq(Parts, k requires 0 <= k < Parts => Scores(net, FlipBatch(ChunkBatch(onehot, k))))
  }

  /** Every piece of a list of valid centres holds valid centres. */
  lemma PiecesValid(length: nat, centres: seq<int>)
    requires ValidCentres(length, centres)
    ensures forall k :: 0 <= k < Parts ==> ValidCentres(length, ArraySplit(centres, Parts)[k])
  {
    forall k | 0 <= k < Parts ensures ValidCentres(length, ArraySplit(centres, Parts)[k]) {
      ArraySplitPiece(centres, Parts, k);
    }
  }

  /** Windowing piece by piece and flattening equals windowing the flattened
      pieces. */
  lemma {:induction false} CentredWindowsFlatten(onehot: seq<Row>, chunks: seq<seq<int>>, batches: seq<seq<Window>>)
    requires |batches| == |chunks|
    requires forall k :: 0 <= k < |chunks| ==> ValidCentres(|onehot|, chunks[k])
    requires forall k :: 0 <= k < |chunks| ==> batches[k] == CentredWindows(onehot, chunks[k])
    ensures ValidCentres(|onehot|, Flatten(chunks))
    ensures Flatten(batches) == CentredWindows(onehot, Flatten(chunks))
  {
    if chunks != [] {
      var n := |chunks| - 1;
      CentredWindowsFlatten(onehot, chunks[..n], batches[..n]);
      CentredWindowsAppend(onehot, Flatten(chunks[..n]), chunks[n]);
    }
  }

  /** Chunked scoring equals unchunked scoring: splitting the centres into
      100 pieces, scoring each piece's windows and their flips, and flattening
      the per-piece scores gives the scores of all windows at once, in centre
      order. */
  lemma ChunkedScoresEqualUnchunked(onehot: seq<Row>, net: Window -> real)
    requires |onehot| >= WindowSize
    ensures ValidCentres(|onehot|, Centres(|onehot|))
    ensures Flatten(ChunkScores(onehot, net)) == Scores(net, CentredWindows(onehot, Centres(|onehot|)))
    ensures Flatten(ChunkReverseScores(onehot, net)) == Scores(net, FlipBatch(CentredWindows(onehot, Centres(|onehot|))))
  {
    var centres := Centres(|onehot|);
    CentresSpan(|onehot|);
    PiecesValid(|onehot|, centres);
    var chunks := ArraySplit(centres, Parts);
    var windowChunks := seq(Parts, k requires 0 <= k < Parts => ChunkBatch(onehot, k));
    var reverseChunks := seq(Parts, k requires 0 <= k < Parts => FlipBatch(windowChunks[k]));
    FlattenArraySplit(centres, Parts);
    CentredWindowsFlatten(onehot, chunks, windowChunks);
    FlattenMap(net, windowChunks, ChunkScores(onehot, net));
    FlattenMap(Flip, windowChunks, reverseChunks);
    FlattenMap(net, reverseChunks, ChunkReverseScores(onehot, net));
  }

  /** A chromosome of length L gives L - 49 rows at positions 25, 26, ...,
      L - 25; row `k` holds the calibrated scores of the window centred at
      `25 + k` and of its flip. */
  lemma ChromosomeRowsSpec(onehot: seq<Row>, cfg: Config, net: Window -> real, k: nat)
    requires |onehot| >= WindowSize && k < |onehot| - WindowSize + 1
    ensures |ChromosomeRows(onehot, cfg, net)| == |onehot| - WindowSize + 1
    ensures var row := ChromosomeRows(onehot, cfg, net)[k];
      var w := WindowAt(onehot, Flank + k);
      row.position == Flank + k &&
      row.norm == Detrend(cfg, net(w), net(Flip(w))) &&
      row.unnorm == Unnormalize(cfg, row.norm)
  {
    CentresSpan(|onehot|);
  }

  /** Positions are contiguous and ascending. */
  lemma ChromosomePositionsAscend(onehot: seq<Row>, cfg: Config, net: Window -> real)
    requires |onehot| >= WindowSize
    ensures var rows := ChromosomeRows(onehot, cfg, net);
      |rows| > 0 && rows[0].position == Flank && rows[|rows| - 1].position == |onehot| - Flank &&
      forall k :: 0 < k < |rows| ==> rows[k].position == rows[k - 1].position + 1
  {
    CentresSpan(|onehot|);
  }

  /** A chromosome made of one repeated base scores every position alike. */
  lemma UniformChromosomeScores(genome: string, smooth: bool, nets: Networks)
    requires |genome| >= WindowSize && IsNucleotide(genome[0])
    requires forall k :: 0 <= k < |genome| ==> genome[k] == genome[0]
    ensures ChromosomeResult(genome, smooth, nets).Ok?
    ensures var rows := ChromosomeResult(genome, smooth, nets).value;
      |rows| == |genome| - WindowSize + 1 &&
      forall k :: 0 <= k < |rows| ==> rows[k].norm == rows[0].norm && rows[k].unnorm == rows[0].unnorm
  {
    assert IsDna(genome);
    var onehot := Encode(genome);
    var cfg, net := ConfigFor(smooth), NetworkFor(nets, smooth);
    var rows := ChromosomeRows(onehot, cfg, net);
    ChromosomeRowsSpec(onehot, cfg, net, 0);
    forall k | 0 <= k < |rows| ensures rows[k].norm == rows[0].norm && rows[k].unnorm == rows[0].unnorm {
      ChromosomeRowsSpec(onehot, cfg, net, k);
      assert WindowAt(onehot, Flank + k) == WindowAt(onehot, Flank);
    }
  }

  /** The records are written in order, each under its own identifier; the
      run writes all of them exactly when none fails to encode, and otherwise
      stops at the first that fails. */
  lemma {:induction false} FastaResultOrder(records: seq<FastaRecord>, smooth: bool, nets: Networks)
    requires forall j :: 0 <= j < |records| ==> |records[j].sequence| >= WindowSize
    ensures var run := FastaResult(records, smooth, nets);
      |run.written| <= |records| &&
      (run.failure.None? <==> |run.written| == |records|) &&
      (forall j :: 0 <= j < |run.written| ==>
        ChromosomeResult(records[j].sequence, smooth, nets) == Ok(run.written[j].rows) &&
        run.written[j].chrom == records[j].id) &&
      (run.failure.Some? ==>
        ChromosomeResult(records[|run.written|].sequence, smooth, nets) == Err(run.failure.value))
  {
    if records != [] {
      FastaResultOrder(records[1..], smooth, nets);
    }
  }
}
