# DNAcycP prediction pipeline in Dafny

This project models the data pipeline of DNAcycP's `dnacycp/pred.py`. DNAcycP predicts DNA
cyclizability: it slides a 50-base window along a sequence and scores each window with a trained
network, once as read and once flipped to stand for the other strand. It then turns the two
outputs into a calibrated score. The model covers:

- the one-hot encoder `dnaOneHot` (module `Encoding`);
- the extraction of 50-row windows, around centres in genome mode and from every start in text
  mode (`Windowing`);
- the reverse-strand flip `np.flip(X, [1, 2])` (`Strand`);
- the 100-way `np.array_split` of the genome-mode centres and the flattening of the per-chunk
  scores (`Chunking`);
- the per-variant constants and the affine calibration (`Calibration`);
- the two entry points, `cycle_fasta` (`Genome`) and `cycle_txt` (`Text`).

The trained Keras networks are not modelled. Each is a function `Window -> real` that scores one
window on its own, and `Networks` holds the two variants (`Predictor`). Scoring a batch maps that
function over the batch. All arithmetic is on `real`.

Each imperative loop of the source is a Dafny method with loop invariants. Its `ensures` ties the
result to a specification function that does all the work at once. `ScoreChromosome` runs the
chunk loop and is proved equal to `ChromosomeRows`, which scores every window in one batch. So the
proof of that method is the proof that chunking changes neither the values nor their order.
Lemmas then state what the specification functions mean. They give the encoding table, the window
bounds, the flip's index map, that the flip undoes itself, that the flip is the reverse complement,
the balance of the split, the calibration formulas, the row positions and the shape of both
text-mode branches.

These points follow the code where a description of it could be read another way:

- The genome-mode centres are `range(25, L - 24)`, that is 25 to L - 25 inclusive: L - 49 centres,
  and the last window ends exactly at position L. The half-open range `[25, L - 25)` would give one
  centre fewer.
- `np.array_split` makes the first `n % 100` chunks the larger ones. It is not that "the last chunk
  may be smaller".
- A character outside A/C/G/T/N (in either case) is not encoded as N. The table lookup fails
  (Python's `KeyError`). That failure is `Err(InvalidCharacter(c))` for the first such character.
  In genome mode it stops the run after the files of the earlier records were already written. In
  text mode every line is encoded before anything is scored, so nothing is written.
- The output is a single score or a list of scores per line. That choice is decided by the `all50`
  flag alone: one flag for the whole file, not one per line. A 50-base line in a file that has other
  lengths gets a one-element list.

## Model

| member | source | states |
|---|---|---|
| `Encoding.DnaOneHot` | dnacycp/pred.py:21-30 | the character loop returns the rows of `Encode` when every character is in the table, and otherwise the failed lookup of the first character that is not |
| `Encoding.FirstInvalid` | dnacycp/pred.py:26-28 | the loop stops at the first character missing from the table: that index is in range, it holds a rejected character, and everything before it is accepted |
| `Encoding.FirstInvalidIsFirst` | dnacycp/pred.py:26-28 | a rejected character with only accepted characters before it is the one the encoder fails on |
| `Encoding.RowForChannels` | dnacycp/pred.py:23-29 | each row has four channels: A/a gives [1,0,0,0], C/c [0,1,0,0], G/g [0,0,1,0], T/t [0,0,0,1], and N/n gives [0,0,0,0] because its fifth slot is cut off |
| `Encoding.RowSumZeroOrOne` | dnacycp/pred.py:27-29 | every row entry is 0 or 1, and a row sums to 1 for A/C/G/T and to 0 for N |
| `Encoding.EncodeRows` | dnacycp/pred.py:25-30 | the encoding has one row per character; row k has four channels, sums to 0 or 1, and for A/C/G/T sets the channel of its base |
| `Encoding.OneHotFailsExactly` | dnacycp/pred.py:23-28 | encoding succeeds exactly when every character is in the table; a failure names a rejected character that has only accepted characters before it |
| `Encoding.OneHotIgnoresCase` | dnacycp/pred.py:23-24 | a sequence and its upper-case and lower-case forms are accepted alike and encode to identical rows |
| `Windowing.CentresSpan` | dnacycp/pred.py:72 | for L >= 50 there are exactly L - 49 centres, 25 + k at index k, from 25 to L - 25, each with its window inside the sequence |
| `Windowing.WindowAtRows` | dnacycp/pred.py:74-78 | the window of centre i has 50 rows of four channels, and its row j is sequence row i - 25 + j |
| `Windowing.ChunkWindows` | dnacycp/pred.py:73-76 | the inner loop over a chunk appends the window of each centre of the chunk, in chunk order |
| `Windowing.SlidingWindows` | dnacycp/pred.py:161-163 | the loop over `range(l - 49)` yields the sub-windows `onehot[i : i + 50]`, one per start i |
| `Windowing.CentredWindowsAppend` | dnacycp/pred.py:74-76 | windowing a concatenated list of centres gives the concatenation of the two window lists |
| `Windowing.CentredWindowsAreSubWindows` | dnacycp/pred.py:72-76 | the genome-mode windows of all centres are the text-mode sub-windows: window k starts at row k |
| `Chunking.SplitStartClosedForm` | dnacycp/pred.py:72 | piece k starts after k pieces of `n / p` items plus one extra item for each of the first `min(k, n % p)` pieces |
| `Chunking.SplitStartEnd` | dnacycp/pred.py:72 | after all p pieces the running start is exactly n, so the split uses every item |
| `Chunking.ArraySplitPiece` | dnacycp/pred.py:72 | piece k is the contiguous slice of the input from its start to the next piece's start, both within the input |
| `Chunking.ArraySplit` | dnacycp/pred.py:72 | the split makes exactly the requested number of pieces |
| `Chunking.ArraySplitSizes` | dnacycp/pred.py:72 | piece k holds `n / p` items, plus one when `k < n % p`; any two pieces differ by at most one, and an earlier piece is never smaller |
| `Chunking.FlattenArraySplit` | dnacycp/pred.py:72-88 | flattening the pieces (the list comprehensions of lines 86-88) gives back the input, so the pieces are a contiguous partition in order |
| `Chunking.FlattenMap` | dnacycp/pred.py:80-88 | flattening the per-piece results of an elementwise computation equals running it on the flattened input |
| `Strand.FlipAt` | dnacycp/pred.py:79 | the flip keeps the 50 x 4 shape and sends row j, channel c to row 49 - j, channel 3 - c |
| `Strand.FlipInvolution` | dnacycp/pred.py:79 | flipping a window twice gives back the window |
| `Strand.FlipBatchInvolution` | dnacycp/pred.py:79 | flipping a batch twice gives back the batch (the same flip is applied at lines 143 and 165) |
| `Strand.ComplementRow` | dnacycp/pred.py:23 | reversing a base's channels gives the row of its complement, since the channels are A, C, G, T |
| `Strand.FlipIsReverseComplement` | dnacycp/pred.py:79 | the flipped encoding of a valid sequence is the encoding of its reverse complement, with N as its own complement (likewise at lines 143 and 165) |
| `Calibration.ConfigFor` | dnacycp/pred.py:8-19 | the constants chosen by `smooth` (lines 52-56 and 118-122) have a positive slope and a positive standard deviation |
| `Calibration.DetrendStrandSymmetric` | dnacycp/pred.py:90 | the norm score depends on the two strands only through their sum |
| `Calibration.CalibrationMonotone` | dnacycp/pred.py:90-91 | for either variant, a larger strand sum gives a larger norm score and a larger norm score gives a larger unnorm score, in both directions |
| `Calibration.CalibrationInvertible` | dnacycp/pred.py:90-91 | the strand sum can be recovered from the norm score, and the norm score from the unnorm score |
| `Calibration.CalibrationAligned` | dnacycp/pred.py:90-91 | calibration keeps length and position: norm k is `int + (f[k] + r[k]) * slope / 2`, and unnorm k is `norm[k] * std + mean` (the same formulas are at lines 148-150, 174 and 179) |
| `Calibration.CalibrationAppend` | dnacycp/pred.py:90-91 | calibrating concatenated batches gives the concatenated calibrations |
| `Genome.AssembleRows` | dnacycp/pred.py:92-93 | there is one row per score |
| `Genome.ScoreChromosome` | dnacycp/pred.py:64-96 | the chunked loop (100 pieces, forward and flipped windows, flatten, calibrate, rows) yields the same rows as scoring every window at once, or the encoder's failure |
| `Genome.ScoreChunks` | dnacycp/pred.py:70-89 | the loop over the 100 chunks, scoring each chunk's windows and their flips, gives per-chunk lists that flatten to the scores of all windows in centre order, forward and flipped |
| `Genome.CycleFasta` | dnacycp/pred.py:63-97 | the record loop writes one output per record, in order, until the first record that fails to encode |
| `Genome.PiecesValid` | dnacycp/pred.py:72-75 | every chunk of the centres holds only centres whose window lies inside the sequence |
| `Genome.CentredWindowsFlatten` | dnacycp/pred.py:73-88 | windowing chunk by chunk and flattening equals windowing the flattened chunks |
| `Genome.ChunkedScoresEqualUnchunked` | dnacycp/pred.py:72-89 | flattening the forward and reverse scores of the 100 chunks gives the scores of all windows at once, in centre order |
| `Genome.ChromosomeRowsSpec` | dnacycp/pred.py:86-96 | a chromosome of length L gives L - 49 rows; row k has position 25 + k and the calibrated scores of the window centred at 25 + k and of its flip |
| `Genome.ChromosomePositionsAscend` | dnacycp/pred.py:93 | positions run from 25 to L - 25, each one more than the one before |
| `Genome.UniformChromosomeScores` | dnacycp/pred.py:72-96 | a chromosome of one repeated base encodes, and all its rows carry equal scores |
| `Genome.FastaResultOrder` | dnacycp/pred.py:63-97 | outputs follow record order under each record's id; all records are written exactly when none fails, otherwise the first unwritten record is the one that failed |
| `Text.RStripSpec` | dnacycp/pred.py:135 | the stripped line is a prefix of the line, does not end in whitespace, and only whitespace was removed |
| `Text.ReadLines` | dnacycp/pred.py:131-138 | the reading loop yields each stripped line's encoding in order, or the first failure, and sets `all50` exactly when every stripped line has length 50 |
| `Text.ScoreEachLine` | dnacycp/pred.py:155-176 | the per-line loop yields, for each line in order, the calibrated scores of its sub-windows and their flips |
| `Text.CycleTxt` | dnacycp/pred.py:129-179 | the whole text mode equals `TextResult`: one batch of single scores when `all50` holds, and otherwise one list of sub-window scores per line |
| `Text.EncodeLinesFailureSticks` | dnacycp/pred.py:134-138 | once a line fails to encode, the whole input fails with that error |
| `Text.EncodeLinesSpec` | dnacycp/pred.py:134-138 | the lines encode exactly when every stripped line is valid, giving one encoding per line in order; otherwise the error comes from the first invalid line |
| `Text.TextOutputShape` | dnacycp/pred.py:139-193 | both outputs have one entry per input line, and an entry is a single score exactly when `all50` holds |
| `Text.TextSingleScores` | dnacycp/pred.py:139-152 | when every line has 50 bases, entry j is the calibrated score of line j and of its flip, in input order |
| `Text.TextMultipleScores` | dnacycp/pred.py:153-179 | otherwise entry j holds l - 49 scores; score i comes from `onehot[i : i + 50]` and its flip, with unnorm aligned to norm |
| `Text.FiftyBaseLineAgrees` | dnacycp/pred.py:139-176 | a 50-base line gets the same score from the per-line branch as from the batch branch |
| `Text.GenomeAgreesWithText` | dnacycp/pred.py:157-176 | a line's per-line scores (lines 157-176) equal, in position order, the genome-mode scores of the same sequence (lines 72-96) |

## Left out

- The Keras networks and their loading (`keras.models.load_model`, `predict`) are not modelled. Each
  network is an arbitrary function that scores one window on its own. The proofs hold for every such
  function, so they assume batch scoring is elementwise. Scoring an empty chunk gives an empty batch;
  that happens when L - 49 < 100 and some of the 100 chunks are empty.
- The trailing size-1 axis of the `(50, 4, 1)` reshapes is dropped. Windows are 50 rows of 4 channels.
- FASTA parsing is left out. `Bio.SeqIO` becomes a list of `(id, sequence)` records.
- Reading the text file (`open`, `readlines`) is left out. The lines are a parameter.
- The pandas DataFrame, CSV writing, output file names and `str(float)` formatting are left out. The
  model stops at the rows and per-line scores to be written.
- The single-versus-list choice of the writer (`isinstance`) is the `LineScores` tag, set from `all50`.
- All `print` output is left out: progress, status and the chosen variant. So is the `l > 1000`
  verbosity switch, which only changes logging.
- IEEE float32/float64 rounding is not modelled. Calibration uses exact `real` arithmetic.
- `IsSpace`: Python's `str.isspace` set, which `rstrip()` removes, is written out as code points.
- Genome sequences shorter than 50 are excluded by a precondition. `CycleFasta` and
  `ScoreChromosome` require L >= 50, because the code has no defined outcome there: every chunk
  is empty.
- Text lines shorter than 50 are excluded the same way. `CycleTxt` and `TextResult` require every
  stripped line to have at least 50 bases: in the per-line branch such a line gives an empty window
  array, and the flip of that array fails.
- No error policy is invented for these short inputs.
