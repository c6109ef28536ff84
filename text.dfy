/** Text mode, `cycle_txt`: one sequence per line, scored as one batch when
    every line has 50 bases, and window by window otherwise. */
module Text {
  import opened Results
  import opened Encoding
  import opened Windowing
  import opened Chunking
  import opened Strand
  import opened Calibration
  import opened Predictor
  import Genome

  /** The characters Python's `str.isspace` accepts, which `rstrip()` removes. */
  predicate IsSpace(c: char) {
    var n := c as int;
    9 <= n <= 13 || 28 <= n <= 32 || n == 0x85 || n == 0xA0 || n == 0x1680 ||
    0x2000 <= n <= 0x200A || n == 0x2028 || n == 0x2029 || n == 0x202F ||
    n == 0x205F || n == 0x3000
  }

  /** `s.rstrip()`: the longest prefix of `s` that leaves only whitespace after
      it and does not itself end in whitespace. */
  function RStrip(s: string): string
    decreases |s|
  {
    if |s| > 0 && IsSpace(s[|s| - 1]) then RStrip(s[..|s| - 1]) else s
  }

  lemma {:induction false} RStripSpec(s: string)
    ensures var r := RStrip(s);
      |r| <= |s| && r == s[..|r|] && (r == [] || !IsSpace(r[|r| - 1])) &&
      forall k :: |r| <= k < |s| ==> IsSpace(s[k])
    decreases |s|
  {
    if |s| > 0 && IsSpace(s[|s| - 1]) {
      RStripSpec(s[..|s| - 1]);
    }
  }

  /** The `all50` flag: every stripped line has exactly 50 bases. */
  predicate AllFifty(lines: seq<string>) {
    forall j :: 0 <= j < |lines| ==> |RStrip(lines[j])| == WindowSize
  }

  /** The reading loop's list `X`: the encoding of each stripped line, or the
      failure of the first line that does not encode. */
  function EncodeLines(lines: seq<string>): Result<seq<seq<Row>>>
    decreases |lines|
  {
    if lines == [] then Ok([])
    else match EncodeLines(lines[..|lines| - 1])
      case Err(e) => Err(e)
      case Ok(encoded) =>
        match OneHot(RStrip(lines[|lines| - 1]))
        case Err(e) => Err(e)
        case Ok(rows) => Ok(encoded + [rows])
  }

  /** A line's scores: a single value, or one value per sub-window. */
  datatype LineScores = Single(score: real) | Multiple(scores: seq<real>)

  /** The two parallel outputs, norm and unnorm, one entry per input line. */
  datatype TextOutput = TextOutput(norm: seq<LineScores>, unnorm: seq<LineScores>)

  function Singles(scores: seq<real>): (out: seq<LineScores>)
    ensures |out| == |scores|
  {
    seq(|scores|, k requires 0 <= k < |scores| => Single(scores[k]))
  }

  function Multiples(scores: seq<seq<real>>): (out: seq<LineScores>)
    ensures |out| == |scores|
  {
    seq(|scores|, k requires 0 <= k < |scores| => Multiple(scores[k]))
  }

  /** The `all50` branch: every line is one window, scored as one batch. */
  function BatchOutput(encoded: seq<Window>, cfg: Config, net: Window -> real): TextOutput {
    var norm := Normalized(cfg, Scores(net, encoded), Scores(net, FlipBatch(encoded)));
    TextOutput(Singles(norm), Singles(Unnormalized(cfg, norm)))
  }

  /** The norm scores of one line's sub-windows `onehot[i : i + 50]`. */
  function SlidingScores(onehot: seq<Row>, cfg: Config, net: Window -> real): seq<real> {
    var windows := SubWindows(onehot);
    Normalized(cfg, Scores(net, windows), Scores(net, FlipBatch(windows)))
  }

  /** The other branch: each line scored on all of its sub-windows. */
  function PerLineOutput(encoded: seq<seq<Row>>, cfg: Config, net: Window -> real): TextOutput {
    var norm := seq(|encoded|, j requires 0 <= j < |encoded| => SlidingScores(encoded[j], cfg, net));
    TextOutput(Multiples(norm), Multiples(seq(|norm|, j requires 0 <= j < |norm| => Unnormalized(cfg, norm[j]))))
  }

  /** What `cycle_txt` computes for the lines of its input file. */
  function TextResult(lines: seq<string>, smooth: bool, nets: Networks): Result<TextOutput>
    requires forall j :: 0 <= j < |lines| ==> |RStrip(lines[j])| >= WindowSize
  {
    var cfg, net := ConfigFor(smooth), NetworkFor(nets, smooth);
    match EncodeLines(lines)
    case Err(e) => Err(e)
    case Ok(encoded) =>
      Ok(if AllFifty(lines) then BatchOutput(encoded, cfg, net) else PerLineOutput(encoded, cfg, net))
  }

  /** `cycle_txt`: read and encode every line while tracking `all50`, then
      score in one batch or line by line. */
  method CycleTxt(lines: seq<string>, smooth: bool, nets: Networks) returns (r: Result<TextOutput>)
    requires forall j :: 0 <= j < |lines| ==> |RStrip(lines[j])| >= WindowSize
    ensures r == TextResult(lines, smooth, nets)
  {
    var net := NetworkFor(nets, smooth);
    var cfg := ConfigFor(smooth);
    var read, all50 := ReadLines(lines);
    if read.Err? {
      return Err(read.error);
    }
    var encoded := read.value;
    if all50 {
      var reverse := FlipBatch(encoded);
      var pred := Scores(net, encoded);
      var predReverse := Scores(net, reverse);
      var norm := Normalized(cfg, pred, predReverse);
      var unnorm := Unnormalized(cfg, norm);
      r := Ok(TextOutput(Singles(norm), Singles(unnorm)));
    } else {
      var outputCycle := ScoreEachLine(encoded, cfg, net);
      assert outputCycle == seq(|encoded|, j requires 0 <= j < |encoded| => SlidingScores(encoded[j], cfg, net));
      var outputCycle2 := seq(|outputCycle|, t requires 0 <= t < |outputCycle| => Unnormalized(cfg, outputCycle[t]));
      r := Ok(TextOutput(Multiples(outputCycle), Multiples(outputCycle2)));
    }
  }

  /** The reading loop of `cycle_txt`: strip and encode each line, clearing
      `all50` at the first line whose length is not 50. */
  method ReadLines(lines: seq<string>) returns (r: Result<seq<seq<Row>>>, all50: bool)
    ensures r == EncodeLines(lines)
    ensures r.Ok? ==> all50 == AllFifty(lines)
  {
    var encoded: seq<seq<Row>> := [];
    all50 := true;
    for j := 0 to |lines|
      invariant EncodeLines(lines[..j]) == Ok(encoded)
      invariant all50 == AllFifty(lines[..j])
    {
      var line := RStrip(lines[j]);
      if |line| != WindowSize {
        all50 := false;
      }
      var rows := DnaOneHot(line);
      ghost var prefix := lines[..j + 1];
      assert prefix[..j] == lines[..j] && prefix[j] == lines[j];
      if rows.Err? {
        assert EncodeLines(prefix) == Err(rows.error);
        EncodeLinesFailureSticks(lines, j + 1);
        return Err(rows.error), all50;
      }
      assert EncodeLines(prefix) == Ok(encoded + [rows.value]);
      encoded := encoded + [rows.value];
    }
    assert lines[..|lines|] == lines;
    r := Ok(encoded);
  }

  /** The per-line loop of `cycle_txt`: each line's sub-windows and their
      flips scored and calibrated, appended in line order. */
  method ScoreEachLine(encoded: seq<seq<Row>>, cfg: Config, net: Window -> real) returns (outputCycle: seq<seq<real>>)
    ensures |outputCycle| == |encoded|
    ensures forall j :: 0 <= j < |encoded| ==> outputCycle[j] == SlidingScores(encoded[j], cfg, net)
  {
    outputCycle := [];
    for j := 0 to |encoded|
      invariant |outputCycle| == j
      invariant forall t :: 0 <= t < j ==> outputCycle[t] == SlidingScores(encoded[t], cfg, net)
    {
      var loops := SlidingWindows(encoded[j]);
      var loopsReverse := FlipBatch(loops);
      var local := Normalized(cfg, Scores(net, loops), Scores(net, loopsReverse));
      outputCycle := outputCycle + [local];
    }
  }

  /** Once a prefix of the lines fails to encode, the whole input fails with
      the same error. */
  lemma {:induction false} EncodeLinesFailureSticks(lines: seq<string>, m: nat)
    requires m <= |lines| && EncodeLines(lines[..m]).Err?
    ensures EncodeLines(lines) == EncodeLines(lines[..m])
    decreases |lines| - m
  {
    if m < |lines| {
      var n := |lines| - 1;
      assert lines[..n][..m] == lines[..m];
      EncodeLinesFailureSticks(lines[..n], m);
    } else {
      assert lines[..m] == lines;
    }
  }

  /** The lines encode exactly when every stripped line does, giving one
      encoding per line in input order; otherwise the error is the failed
      lookup in the first line that does not encode. */
  lemma {:induction false} EncodeLinesSpec(lines: seq<string>)
    ensures EncodeLines(lines).Ok? <==> forall j :: 0 <= j < |lines| ==> IsDna(RStrip(lines[j]))
    ensures EncodeLines(lines).Ok? ==>
      |EncodeLines(lines).value| == |lines| &&
      forall j :: 0 <= j < |lines| ==> IsDna(RStrip(lines[j])) && EncodeLines(lines).value[j] == Encode(RStrip(lines[j]))
    ensures EncodeLines(lines).Err? ==>
      exists j :: 0 <= j < |lines| && !IsDna(RStrip(lines[j])) &&
        (forall t :: 0 <= t < j ==> IsDna(RStrip(lines[t]))) &&
        EncodeLines(lines) == Err(OneHot(RStrip(lines[j])).error)
    decreases |lines|
  {
    if lines != [] {
      var n := |lines| - 1;
      var init, last := lines[..n], RStrip(lines[n]);
      EncodeLinesSpec(init);
      assert forall j :: 0 <= j < n ==> init[j] == lines[j];
      match EncodeLines(init)
      case Err(e) =>
        var j :| 0 <= j < n && !IsDna(RStrip(init[j])) &&
          (forall t :: 0 <= t < j ==> IsDna(RStrip(init[t]))) &&
          EncodeLines(init) == Err(OneHot(RStrip(init[j])).error);
        assert EncodeLines(lines) == Err(e);
        assert init[j] == lines[j];
      case Ok(encoded) =>
        if IsDna(last) {
          assert EncodeLines(lines) == Ok(encoded + [Encode(last)]);
        } else {
          assert EncodeLines(lines) == Err(OneHot(last).error);
        }
    }
  }

  /** There is one output entry per input line in both outputs, and every entry
      is a single score exactly when `all50` holds. */
  lemma TextOutputShape(lines: seq<string>, smooth: bool, nets: Networks)
    requires forall j :: 0 <= j < |lines| ==> |RStrip(lines[j])| >= WindowSize
    requires TextResult(lines, smooth, nets).Ok?
    ensures var out := TextResult(lines, smooth, nets).value;
      |out.norm| == |lines| && |out.unnorm| == |lines| &&
      forall j :: 0 <= j < |lines| ==>
        (out.norm[j].Single? <==> AllFifty(lines)) && (out.unnorm[j].Single? <==> AllFifty(lines))
  {
    EncodeLinesSpec(lines);
  }

  /** When every line has 50 bases, entry `j` is the calibrated score of line
      `j` and of its flip. */
  lemma TextSingleScores(lines: seq<string>, smooth: bool, nets: Networks, j: nat)
    requires AllFifty(lines) && j < |lines|
    requires TextResult(lines, smooth, nets).Ok?
    ensures IsDna(RStrip(lines[j]))
    ensures |TextResult(lines, smooth, nets).value.norm| == |TextResult(lines, smooth, nets).value.unnorm| == |lines|
    ensures var out := TextResult(lines, smooth, nets).value;
      var cfg, net := ConfigFor(smooth), NetworkFor(nets, smooth);
      var w := Encode(RStrip(lines[j]));
      out.norm[j] == Single(Detrend(cfg, net(w), net(Flip(w)))) &&
      out.unnorm[j] == Single(Unnormalize(cfg, Detrend(cfg, net(w), net(Flip(w)))))
  {
    EncodeLinesSpec(lines);
  }

  /** Otherwise entry `j` lists, for a stripped line of length `l`, the `l - 49`
      calibrated scores of its sub-windows `onehot[i : i + 50]`. */
  lemma TextMultipleScores(lines: seq<string>, smooth: bool, nets: Networks, j: nat, i: nat)
    requires forall t :: 0 <= t < |lines| ==> |RStrip(lines[t])| >= WindowSize
    requires !AllFifty(lines) && j < |lines|
    requires TextResult(lines, smooth, nets).Ok?
    requires i < |RStrip(lines[j])| - WindowSize + 1
    ensures IsDna(RStrip(lines[j]))
    ensures |TextResult(lines, smooth, nets).value.norm| == |TextResult(lines, smooth, nets).value.unnorm| == |lines|
    ensures TextResult(lines, smooth, nets).value.norm[j].Multiple?
    ensures TextResult(lines, smooth, nets).value.unnorm[j].Multiple?
    ensures var out := TextResult(lines, smooth, nets).value;
      var cfg, net := ConfigFor(smooth), NetworkFor(nets, smooth);
      var w := Encode(RStrip(lines[j]))[i .. i + WindowSize];
      |out.norm[j].scores| == |out.unnorm[j].scores| == |RStrip(lines[j])| - WindowSize + 1 &&
      out.norm[j].scores[i] == Detrend(cfg, net(w), net(Flip(w))) &&
      out.unnorm[j].scores[i] == Unnormalize(cfg, Detrend(cfg, net(w), net(Flip(w))))
  {
    EncodeLinesSpec(lines);
    var encoded := EncodeLines(lines).value;
    PerLineOutputAt(encoded, ConfigFor(smooth), NetworkFor(nets, smooth), j, i);
  }

  lemma PerLineOutputAt(encoded: seq<seq<Row>>, cfg: Config, net: Window -> real, j: nat, i: nat)
    requires j < |encoded| && i < |encoded[j]| - WindowSize + 1
    ensures var out := PerLineOutput(encoded, cfg, net);
      var w := encoded[j][i .. i + WindowSize];
      |out.norm| == |out.unnorm| == |encoded| && out.norm[j].Multiple? && out.unnorm[j].Multiple? &&
      |out.norm[j].scores| == |out.unnorm[j].scores| == |encoded[j]| - WindowSize + 1 &&
      out.norm[j].scores[i] == Detrend(cfg, net(w), net(Flip(w))) &&
      out.unnorm[j].scores[i] == Unnormalize(cfg, Detrend(cfg, net(w), net(Flip(w))))
  {
    var w := encoded[j][i .. i + WindowSize];
    assert SubWindows(encoded[j])[i] == w;
    assert SlidingScores(encoded[j], cfg, net)[i] == Detrend(cfg, net(w), net(Flip(w)));
  }

  /** A line of exactly 50 bases gets the same score from both branches: its
      only sub-window is the whole line. */
  lemma FiftyBaseLineAgrees(onehot: seq<Row>, cfg: Config, net: Window -> real)
    requires |onehot| == WindowSize
    ensures SlidingScores(onehot, cfg, net) == [Detrend(cfg, net(onehot), net(Flip(onehot)))]
  {
    assert onehot[0..WindowSize] == onehot;
    assert SubWindows(onehot) == [onehot];
  }

  /** Genome mode and the per-line branch of text mode score the same windows:
      the genome rows' scores, in position order, are the line's sliding-window
      scores. */
  lemma GenomeAgreesWithText(onehot: seq<Row>, cfg: Config, net: Window -> real)
    requires |onehot| >= WindowSize
    ensures var rows := Genome.ChromosomeRows(onehot, cfg, net);
      Map((row: Genome.PositionRow) => row.norm, rows) == SlidingScores(onehot, cfg, net) &&
      Map((row: Genome.PositionRow) => row.unnorm, rows) == Unnormalized(cfg, SlidingScores(onehot, cfg, net))
  {
    CentredWindowsAreSubWindows(onehot);
  }
}
