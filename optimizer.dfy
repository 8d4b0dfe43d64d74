/**
 * The hill-climbing search of `compress_dir` (compressor3.py:155-252): each
 * iteration copies the current tables, applies one random move (swap two
 * keys, two values, two rows or two columns), re-encodes every file, and
 * keeps the candidate when its compression ratio is at least the best so far.
 *
 * The random choices are inputs: a `Draw` names the move kind that
 * `random.randint(1, 4)` picks (line 180) and two raw numbers from which
 * `PickPair` forms the two distinct indices `random.sample(range(n), 2)`
 * returns. Ratios are exact rationals.
 */
module Optimizer {
  import opened Util
  import opened FreqTables
  import opened MultTables
  import opened Encoder

  /** `MAX_ITER` (line 11). */
  const MaxIter: nat := 100

  datatype MoveKind = KeyMove | ValueMove | RowMove | ColumnMove
  datatype Draw = Draw(kind: MoveKind, a: nat, b: nat)

  /**
   * `random.sample(range(n), 2)`: two distinct indices below n, formed from two
   * raw draws; ValueError when n < 2.
   */
  function PickPair(n: nat, a: nat, b: nat): (r: Option<(nat, nat)>)
    ensures r.Some? <==> n >= 2
    ensures r.Some? ==> r.value.0 < n && r.value.1 < n && r.value.0 != r.value.1
  {
    if n < 2 then None
    else
      var i := a % n;
      Some((i, (i + 1 + b % (n - 1)) % n))
  }

  /** Every pair `random.sample` can return is formed from some draw. */
  lemma PickPairReaches(n: nat, i: nat, j: nat)
    requires i < n && j < n && i != j
    ensures exists a: nat, b: nat :: PickPair(n, a, b) == Some((i, j))
  {
    var b: nat := if j > i then j - i - 1 else j + n - i - 1;
    SmallMod(i, n);
    SmallMod(b, n - 1);
    if j > i {
      SmallMod(j, n);
    } else {
      ModShift(j, n);
    }
    assert (i + 1 + b) % n == j;
    assert PickPair(n, i, b) == Some((i, j));
  }

  lemma SmallMod(x: nat, n: nat)
    requires x < n
    ensures x % n == x
  {
  }

  lemma ModShift(j: nat, n: nat)
    requires j < n
    ensures (j + n) % n == j
  {
  }

  /** The frequency table and the matrix the search works on. */
  datatype Tables = Tables(freq: FreqTable, cells: seq<seq<int>>)

  predicate Valid(t: Tables, base: nat)
  {
    Wf(t.freq) && Square(t.cells, base)
  }

  /** The candidate of one iteration (lines 175-228), or ValueError from `random.sample`. */
  function Neighbor(cur: Tables, base: nat, d: Draw): (r: Result<Tables>)
    requires Valid(cur, base)
    ensures r.Ok? ==> Valid(r.value, base)
    ensures r.Err? ==> r.error == ValueError
  {
    match d.kind
    case KeyMove =>
      (match PickPair(|cur.freq.keys|, d.a, d.b)
       case None => Err(ValueError)
       case Some((i, j)) => Ok(Tables(SwapKeys(cur.freq, i, j), cur.cells)))
    case ValueMove =>
      (match PickPair(|cur.freq.keys|, d.a, d.b)
       case None => Err(ValueError)
       case Some((i, j)) => Ok(Tables(SwapValues(cur.freq, i, j), cur.cells)))
    case RowMove =>
      (match PickPair(base, d.a, d.b)
       case None => Err(ValueError)
       case Some((i, j)) => RowSwapCells(cur.cells, base, i, j); Ok(Tables(cur.freq, RowSwapped(cur.cells, i, j))))
    case ColumnMove =>
      (match PickPair(base, d.a, d.b)
       case None => Err(ValueError)
       case Some((i, j)) => ColSwapCells(cur.cells, base, i, j); Ok(Tables(cur.freq, ColSwapped(cur.cells, i, j))))
  }

  /** `encoded_data.length() // 8 + (1 if encoded_data.length() % 8 else 0)` (line 237). */
  function StreamBytes(bits: nat): (n: nat)
  {
    bits / 8 + (if bits % 8 != 0 then 1 else 0)
  }

  /** The byte count of a stream is the number of whole bytes that hold it: ceil(bits / 8). */
  lemma StreamBytesIsCeiling(bits: nat)
    ensures 8 * StreamBytes(bits) >= bits
    ensures StreamBytes(bits) > 0 ==> 8 * (StreamBytes(bits) - 1) < bits
  {
  }

  /** Bytes of all streams together. */
  function TotalStreamBytes(streams: seq<seq<bool>>): (n: nat)
  {
    if |streams| == 0 then 0
    else TotalStreamBytes(streams[..|streams| - 1]) + StreamBytes(|streams[|streams| - 1]|)
  }

  /**
   * `compressed_size` (line 237): the streams' bytes plus two bytes per
   * frequency-table entry, the matrix cells, and 2.
   */
  function CompressedSize(streams: seq<seq<bool>>, entries: nat, base: nat): (size: nat)
    ensures size >= 2
    ensures size >= TotalStreamBytes(streams)
  {
    TotalStreamBytes(streams) + entries * 2 + base * base + 2
  }

  /** `total_size / compressed_size` (line 238), exactly. */
  function Ratio(total: nat, size: nat): (r: real)
    requires size >= 2
    ensures r >= 0.0
    ensures r * size as real == total as real
  {
    total as real / size as real
  }

  /** A larger compressed size gives a smaller ratio. */
  lemma RatioDecreases(total: nat, a: nat, b: nat)
    requires total > 0 && 2 <= a < b
    ensures Ratio(total, b) < Ratio(total, a)
  {
    var ra, rb := Ratio(total, a), Ratio(total, b);
    var x, y := a as real, b as real;
    assert ra * x == rb * y;
    PositiveFactor(rb, y);
    var gap, d := ra - rb, y - x;
    assert gap * x == rb * d;
    ProductPositive(rb, d);
    assert gap * x > 0.0;
    PositiveFactor(gap, x);
  }

  lemma ProductPositive(x: real, y: real)
    requires x > 0.0 && y > 0.0
    ensures x * y > 0.0
  {
  }

  lemma PositiveFactor(x: real, y: real)
    requires y > 0.0 && x * y > 0.0
    ensures x > 0.0
  {
  }

  /** The list comprehension at line 233: every file encoded, or the first exception. */
  function EncodeAll(files: seq<seq<nat>>, t: FreqTable, c: seq<seq<int>>, base: nat): (r: Result<seq<seq<bool>>>)
    requires |t.keys| == |t.counts|
    ensures r.Ok? ==> |r.value| == |files|
  {
    if |files| == 0 then Ok([])
    else
      match EncodeAll(files[..|files| - 1], t, c, base)
      case Err(e) => Err(e)
      case Ok(ss) =>
        match Encoding(files[|files| - 1], t, c, base)
        case Err(e) => Err(e)
        case Ok(s) => Ok(ss + [s])
  }

  /** Every file is encoded on its own: the list holds each file's encoding. */
  lemma {:induction false} EncodeAllPerFile(files: seq<seq<nat>>, t: FreqTable, c: seq<seq<int>>, base: nat)
    requires |t.keys| == |t.counts|
    ensures EncodeAll(files, t, c, base).Ok? <==> forall k :: 0 <= k < |files| ==> Encoding(files[k], t, c, base).Ok?
    ensures EncodeAll(files, t, c, base).Ok? ==> forall k :: 0 <= k < |files| ==>
      Ok(EncodeAll(files, t, c, base).value[k]) == Encoding(files[k], t, c, base)
    decreases |files|
  {
    if |files| > 0 {
      var n := |files| - 1;
      EncodeAllPerFile(files[..n], t, c, base);
      assert forall k :: 0 <= k < n ==> files[..n][k] == files[k];
    }
  }

  /**
   * The comprehension encodes the files in order: the first file that does not
   * encode gives its exception to the whole list.
   */
  lemma EncodeAllFailsFrom(files: seq<seq<nat>>, k: nat, t: FreqTable, c: seq<seq<int>>, base: nat)
    requires |t.keys| == |t.counts| && k < |files|
    requires EncodeAll(files[..k], t, c, base).Ok?
    requires Encoding(files[k], t, c, base).Err?
    ensures EncodeAll(files, t, c, base) == Err(Encoding(files[k], t, c, base).error)
  {
    assert files[..k + 1][..k] == files[..k];
    EncodeAllFails(files, k + 1, t, c, base);
  }

  /**
   * The search state: the current tables, `best_ratio`, `ratios`, the
   * streams of the last candidate (`encoded_data_list` as line 233 leaves it)
   * and the streams of the last accepted candidate.
   */
  datatype Climb = Climb(current: Tables, best: real, ratios: seq<real>, last: seq<seq<bool>>, emitted: seq<seq<bool>>)

  /** Lines 155-167: `best_ratio = 0`, `ratios = []`, copies of the initial tables. */
  function Start(init: Tables): (s: Climb)
  {
    Climb(init, 0.0, [], [], [])
  }

  /** One iteration of the loop at line 170. */
  function Step(s: Climb, files: seq<seq<nat>>, total: nat, base: nat, d: Draw): (r: Result<Climb>)
    requires Valid(s.current, base)
    ensures r.Ok? ==> Valid(r.value.current, base)
  {
    match Neighbor(s.current, base, d)
    case Err(e) => Err(e)
    case Ok(nb) =>
      match EncodeAll(files, nb.freq, nb.cells, base)
      case Err(e) => Err(e)
      case Ok(streams) =>
        var ratio := Ratio(total, CompressedSize(streams, |nb.freq.keys|, base));
        if ratio >= s.best then Ok(Climb(nb, ratio, s.ratios + [ratio], streams, streams))
        else Ok(Climb(s.current, s.best, s.ratios + [ratio], streams, s.emitted))
  }

  /** The search over the given draws, one iteration per draw, or the first exception. */
  function Run(files: seq<seq<nat>>, total: nat, base: nat, init: Tables, draws: seq<Draw>): (r: Result<Climb>)
    requires Valid(init, base)
    ensures r.Ok? ==> Valid(r.value.current, base)
  {
    if |draws| == 0 then Ok(Start(init))
    else
      match Run(files, total, base, init, draws[..|draws| - 1])
      case Err(e) => Err(e)
      case Ok(s) => Step(s, files, total, base, draws[|draws| - 1])
  }

  /**
   * The accept rule of lines 242-252: the ratio is recorded; the candidate
   * replaces the current tables exactly when its ratio is at least the best
   * so far, and `best_ratio` then becomes that ratio; otherwise the tables
   * and the best ratio are left as they were.
   */
  lemma StepAccepts(s: Climb, files: seq<seq<nat>>, total: nat, base: nat, d: Draw)
    requires Valid(s.current, base)
    requires Step(s, files, total, base, d).Ok?
    ensures var nb := Neighbor(s.current, base, d).value;
            var streams := EncodeAll(files, nb.freq, nb.cells, base).value;
            var ratio := Ratio(total, CompressedSize(streams, |nb.freq.keys|, base));
            var s' := Step(s, files, total, base, d).value;
            && s'.ratios == s.ratios + [ratio]
            && s'.last == streams
            && (ratio >= s.best ==> s'.current == nb && s'.best == ratio && s'.emitted == streams)
            && (ratio < s.best ==> s'.current == s.current && s'.best == s.best && s'.emitted == s.emitted)
  {
  }

  /** A successful search has run every prefix of its draws successfully. */
  lemma {:induction false} RunPrefix(files: seq<seq<nat>>, total: nat, base: nat, init: Tables, draws: seq<Draw>, m: nat)
    requires Valid(init, base) && m <= |draws|
    requires Run(files, total, base, init, draws).Ok?
    ensures Run(files, total, base, init, draws[..m]).Ok?
    decreases |draws|
  {
    if m < |draws| {
      var n := |draws| - 1;
      assert draws[..n][..m] == draws[..m];
      RunPrefix(files, total, base, init, draws[..n], m);
    } else {
      assert draws[..m] == draws;
    }
  }

  /** An exception in one iteration ends the whole search with that exception. */
  lemma {:induction false} RunFails(files: seq<seq<nat>>, total: nat, base: nat, init: Tables, draws: seq<Draw>, m: nat)
    requires Valid(init, base) && m <= |draws|
    requires Run(files, total, base, init, draws[..m]).Err?
    ensures Run(files, total, base, init, draws) == Run(files, total, base, init, draws[..m])
    decreases |draws| - m
  {
    if m < |draws| {
      assert draws[..m + 1][..m] == draws[..m];
      RunFails(files, total, base, init, draws, m + 1);
    } else {
      assert draws[..m] == draws;
    }
  }

  /** Every iteration appends exactly one ratio: `len(ratios)` is the number of iterations. */
  lemma {:induction false} RunRatios(files: seq<seq<nat>>, total: nat, base: nat, init: Tables, draws: seq<Draw>)
    requires Valid(init, base)
    requires Run(files, total, base, init, draws).Ok?
    ensures |Run(files, total, base, init, draws).value.ratios| == |draws|
    decreases |draws|
  {
    if |draws| > 0 {
      RunPrefix(files, total, base, init, draws, |draws| - 1);
      RunRatios(files, total, base, init, draws[..|draws| - 1]);
    }
  }

  /**
   * `best_ratio` is the maximum of `ratios`: no recorded ratio exceeds it,
   * and after at least one iteration it is one of them (before any, it is 0).
   */
  lemma {:induction false} RunBestIsMax(files: seq<seq<nat>>, total: nat, base: nat, init: Tables, draws: seq<Draw>)
    requires Valid(init, base)
    requires Run(files, total, base, init, draws).Ok?
    ensures var s := Run(files, total, base, init, draws).value;
            && s.best >= 0.0
            && (forall k :: 0 <= k < |s.ratios| ==> s.ratios[k] <= s.best)
            && (|draws| == 0 ==> s.best == 0.0)
            && (|draws| > 0 ==> s.best in s.ratios)
    decreases |draws|
  {
    if |draws| > 0 {
      var n := |draws| - 1;
      RunPrefix(files, total, base, init, draws, n);
      RunBestIsMax(files, total, base, init, draws[..n]);
      var s0 := Run(files, total, base, init, draws[..n]).value;
      StepAccepts(s0, files, total, base, draws[n]);
      if n == 0 {
        assert s0.ratios == [] && s0.best == 0.0;
      }
    }
  }

  /** `best_ratio` never decreases from one iteration to a later one. */
  lemma {:induction false} RunBestMonotone(files: seq<seq<nat>>, total: nat, base: nat, init: Tables, draws: seq<Draw>, m: nat)
    requires Valid(init, base) && m <= |draws|
    requires Run(files, total, base, init, draws).Ok?
    ensures RunPrefixOk(files, total, base, init, draws, m)
    ensures Run(files, total, base, init, draws[..m]).value.best <= Run(files, total, base, init, draws).value.best
    decreases |draws|
  {
    RunPrefix(files, total, base, init, draws, m);
    if m < |draws| {
      var n := |draws| - 1;
      RunPrefix(files, total, base, init, draws, n);
      assert draws[..n][..m] == draws[..m];
      RunBestMonotone(files, total, base, init, draws[..n], m);
      var s0 := Run(files, total, base, init, draws[..n]).value;
      StepAccepts(s0, files, total, base, draws[n]);
    } else {
      assert draws[..m] == draws;
    }
  }

  ghost predicate RunPrefixOk(files: seq<seq<nat>>, total: nat, base: nat, init: Tables, draws: seq<Draw>, m: nat)
    requires Valid(init, base) && m <= |draws|
  {
    Run(files, total, base, init, draws[..m]).Ok?
  }

  /** The first iteration is always accepted: its ratio is at least the initial 0. */
  lemma FirstAccepted(files: seq<seq<nat>>, total: nat, base: nat, init: Tables, d: Draw)
    requires Valid(init, base)
    requires Run(files, total, base, init, [d]).Ok?
    ensures Neighbor(init, base, d).Ok?
    ensures Run(files, total, base, init, [d]).value.current == Neighbor(init, base, d).value
  {
    assert [d][..0] == [];
    StepAccepts(Start(init), files, total, base, d);
  }

  /**
   * The streams the search leaves behind (line 233, written out at line 263)
   * are those of the last candidate, accepted or not.
   */
  lemma LastStreamsAreLastCandidate(files: seq<seq<nat>>, total: nat, base: nat, init: Tables, draws: seq<Draw>)
    requires Valid(init, base) && |draws| > 0
    requires Run(files, total, base, init, draws).Ok?
    ensures var n := |draws| - 1;
            RunPrefixOk(files, total, base, init, draws, n) &&
            var s0 := Run(files, total, base, init, draws[..n]).value;
            var nb := Neighbor(s0.current, base, draws[n]).value;
            Ok(Run(files, total, base, init, draws).value.last) == EncodeAll(files, nb.freq, nb.cells, base)
  {
    var n := |draws| - 1;
    RunPrefix(files, total, base, init, draws, n);
    StepAccepts(Run(files, total, base, init, draws[..n]).value, files, total, base, draws[n]);
  }

  /**
   * The streams of the accepted candidate are the encoding of every file with
   * the final tables, the ones written to the common table.
   */
  lemma {:induction false} EmittedMatchesTables(files: seq<seq<nat>>, total: nat, base: nat, init: Tables, draws: seq<Draw>)
    requires Valid(init, base) && |draws| > 0
    requires Run(files, total, base, init, draws).Ok?
    ensures var s := Run(files, total, base, init, draws).value;
            EncodeAll(files, s.current.freq, s.current.cells, base) == Ok(s.emitted)
    decreases |draws|
  {
    var n := |draws| - 1;
    RunPrefix(files, total, base, init, draws, n);
    var s0 := Run(files, total, base, init, draws[..n]).value;
    StepAccepts(s0, files, total, base, draws[n]);
    if n == 0 {
      assert s0 == Start(init);
    } else {
      EmittedMatchesTables(files, total, base, init, draws[..n]);
    }
  }

  /**
   * The streams left behind need not be those of the final tables. One file
   * `[0, 0, 1, 2, 3, 4, 5]` with table `{0: 2, 1: 1, 2: 1, 3: 1, 4: 1, 5: 1}`,
   * base 2 and the 2 x 2 product matrix, every draw a value swap of positions
   * 0 and 5: the first swap (64 bits, 26 bytes in all) is accepted; every
   * later one swaps back (65 bits, 27 bytes) and is rejected, yet its 65-bit
   * stream is the one left behind.
   */
  lemma LastStreamsMismatch(files: seq<seq<nat>>, init: Tables, draws: seq<Draw>)
    requires files == [[0, 0, 1, 2, 3, 4, 5]]
    requires init == Tables(FreqTable([0, 1, 2, 3, 4, 5], [2, 1, 1, 1, 1, 1]), InitialCells(2))
    requires |draws| >= 2 && forall k :: 0 <= k < |draws| ==> draws[k] == Draw(ValueMove, 0, 4)
    ensures Valid(init, 2)
    ensures Run(files, 7, 2, init, draws).Ok?
    ensures var s := Run(files, 7, 2, init, draws).value;
            && s.current == Tables(FreqTable([0, 1, 2, 3, 4, 5], [1, 1, 1, 1, 1, 2]), InitialCells(2))
            && EncodeAll(files, s.current.freq, s.current.cells, 2) != Ok(s.last)
  {
    var c := InitialCells(2);
    var t0 := FreqTable([0, 1, 2, 3, 4, 5], [2, 1, 1, 1, 1, 1]);
    var t1 := FreqTable([0, 1, 2, 3, 4, 5], [1, 1, 1, 1, 1, 2]);
    ExampleMoves(t0, t1);
    var e0 := ExampleStreams(files, t0, 65, 9);
    var e1 := ExampleStreams(files, t1, 64, 8);
    ExampleRun(files, init, draws, |draws|);
    assert draws[..|draws|] == draws;
    assert [e1] != [e0] by {
      assert |e1| != |e0|;
    }
  }

  /**
   * The example after k >= 1 iterations: the first swap's tables are current
   * and its ratio 7/26 is the best, and from the second iteration on the
   * streams left behind are those of the initial table.
   */
  lemma {:induction false} ExampleRun(files: seq<seq<nat>>, init: Tables, draws: seq<Draw>, k: nat)
    requires files == [[0, 0, 1, 2, 3, 4, 5]]
    requires init == Tables(FreqTable([0, 1, 2, 3, 4, 5], [2, 1, 1, 1, 1, 1]), InitialCells(2))
    requires forall k :: 0 <= k < |draws| ==> draws[k] == Draw(ValueMove, 0, 4)
    requires 1 <= k <= |draws|
    ensures Valid(init, 2)
    ensures Run(files, 7, 2, init, draws[..k]).Ok?
    ensures var s := Run(files, 7, 2, init, draws[..k]).value;
            var t1 := FreqTable([0, 1, 2, 3, 4, 5], [1, 1, 1, 1, 1, 2]);
            && s.current == Tables(t1, InitialCells(2))
            && s.best == Ratio(7, 26)
            && EncodeAll(files, t1, InitialCells(2), 2) == Ok(s.emitted)
            && (k >= 2 ==> EncodeAll(files, init.freq, InitialCells(2), 2) == Ok(s.last))
    decreases k
  {
    ExampleMoves(init.freq, FreqTable([0, 1, 2, 3, 4, 5], [1, 1, 1, 1, 1, 2]));
    assert draws[..k][..k - 1] == draws[..k - 1];
    assert draws[..k][k - 1] == Draw(ValueMove, 0, 4);
    if k == 1 {
      assert draws[..0] == [];
      ExampleFirstStep(files, init);
    } else {
      ExampleRun(files, init, draws, k - 1);
      ExampleLaterStep(files, init.freq, Run(files, 7, 2, init, draws[..k - 1]).value);
    }
  }

  /** The first iteration of the example accepts the swapped table, at ratio 7/26. */
  lemma ExampleFirstStep(files: seq<seq<nat>>, init: Tables)
    requires files == [[0, 0, 1, 2, 3, 4, 5]]
    requires init == Tables(FreqTable([0, 1, 2, 3, 4, 5], [2, 1, 1, 1, 1, 1]), InitialCells(2))
    ensures Valid(init, 2)
    ensures Step(Start(init), files, 7, 2, Draw(ValueMove, 0, 4)).Ok?
    ensures var s' := Step(Start(init), files, 7, 2, Draw(ValueMove, 0, 4)).value;
            var t1 := FreqTable([0, 1, 2, 3, 4, 5], [1, 1, 1, 1, 1, 2]);
            && s'.current == Tables(t1, InitialCells(2))
            && s'.best == Ratio(7, 26)
            && EncodeAll(files, t1, InitialCells(2), 2) == Ok(s'.emitted)
  {
    var t1 := FreqTable([0, 1, 2, 3, 4, 5], [1, 1, 1, 1, 1, 2]);
    ExampleMoves(init.freq, t1);
    var e1 := ExampleStreams(files, t1, 64, 8);
    assert CompressedSize([e1], |t1.keys|, 2) == 26;
    StepWith(Start(init), files, 7, 2, Draw(ValueMove, 0, 4), Tables(t1, InitialCells(2)), [e1]);
  }

  /** A later iteration of the example swaps back, at ratio 7/27, and is rejected. */
  lemma ExampleLaterStep(files: seq<seq<nat>>, t0: FreqTable, s: Climb)
    requires files == [[0, 0, 1, 2, 3, 4, 5]]
    requires t0 == FreqTable([0, 1, 2, 3, 4, 5], [2, 1, 1, 1, 1, 1])
    requires s.current == Tables(FreqTable([0, 1, 2, 3, 4, 5], [1, 1, 1, 1, 1, 2]), InitialCells(2))
    requires s.best == Ratio(7, 26)
    ensures Valid(s.current, 2)
    ensures Step(s, files, 7, 2, Draw(ValueMove, 0, 4)).Ok?
    ensures var s' := Step(s, files, 7, 2, Draw(ValueMove, 0, 4)).value;
            && s'.current == s.current && s'.best == s.best && s'.emitted == s.emitted
            && EncodeAll(files, t0, InitialCells(2), 2) == Ok(s'.last)
  {
    ExampleMoves(t0, s.current.freq);
    var e0 := ExampleStreams(files, t0, 65, 9);
    assert CompressedSize([e0], |t0.keys|, 2) == 27;
    RatioDecreases(7, 26, 27);
    StepWith(s, files, 7, 2, Draw(ValueMove, 0, 4), Tables(t0, InitialCells(2)), [e0]);
  }

  /** One iteration once its candidate and the candidate's streams are known. */
  lemma StepWith(s: Climb, files: seq<seq<nat>>, total: nat, base: nat, d: Draw, nb: Tables, streams: seq<seq<bool>>)
    requires Valid(s.current, base)
    requires Neighbor(s.current, base, d) == Ok(nb)
    requires EncodeAll(files, nb.freq, nb.cells, base) == Ok(streams)
    ensures var ratio := Ratio(total, CompressedSize(streams, |nb.freq.keys|, base));
            Step(s, files, total, base, d) ==
              if ratio >= s.best then Ok(Climb(nb, ratio, s.ratios + [ratio], streams, streams))
              else Ok(Climb(s.current, s.best, s.ratios + [ratio], streams, s.emitted))
  {
  }

  /** In the example, the value swap of positions 0 and 5 exchanges the two tables, either way. */
  lemma ExampleMoves(t0: FreqTable, t1: FreqTable)
    requires t0 == FreqTable([0, 1, 2, 3, 4, 5], [2, 1, 1, 1, 1, 1])
    requires t1 == FreqTable([0, 1, 2, 3, 4, 5], [1, 1, 1, 1, 1, 2])
    ensures Valid(Tables(t0, InitialCells(2)), 2) && Valid(Tables(t1, InitialCells(2)), 2)
    ensures Neighbor(Tables(t0, InitialCells(2)), 2, Draw(ValueMove, 0, 4)) == Ok(Tables(t1, InitialCells(2)))
    ensures Neighbor(Tables(t1, InitialCells(2)), 2, Draw(ValueMove, 0, 4)) == Ok(Tables(t0, InitialCells(2)))
  {
    assert Distinct(t0.keys);
    assert PickPair(6, 0, 4) == Some((0, 5));
    assert SwapValues(t0, 0, 5) == t1;
    assert SwapValues(t1, 0, 5) == t0;
  }

  /** The example file's streams under one of the two tables, and their byte count. */
  lemma ExampleStreams(files: seq<seq<nat>>, t: FreqTable, len: nat, bytes: nat) returns (e: seq<bool>)
    requires files == [[0, 0, 1, 2, 3, 4, 5]] && t.keys == [0, 1, 2, 3, 4, 5]
    requires (t.counts == [2, 1, 1, 1, 1, 1] && len == 65 && bytes == 9)
          || (t.counts == [1, 1, 1, 1, 1, 2] && len == 64 && bytes == 8)
    ensures EncodeAll(files, t, InitialCells(2), 2) == Ok([e])
    ensures |e| == len
    ensures TotalStreamBytes([e]) == bytes
  {
    e := SingleFileEncoding(files[0], t, InitialCells(2), len);
    assert files[..0] == [];
    assert EncodeAll(files[..0], t, InitialCells(2), 2) == Ok([]);
    assert [] + [e] == [e];
    assert [e][..0] == [];
    assert TotalStreamBytes([e]) == TotalStreamBytes([]) + StreamBytes(|e|);
    assert StreamBytes(len) == bytes;
  }

  /** The example file under a six-key table over the 2 x 2 product matrix, and its bit length. */
  lemma SingleFileEncoding(data: seq<nat>, t: FreqTable, c: seq<seq<int>>, len: nat) returns (e: seq<bool>)
    requires data == [0, 0, 1, 2, 3, 4, 5] && c == InitialCells(2) && t.keys == [0, 1, 2, 3, 4, 5]
    requires (t.counts == [2, 1, 1, 1, 1, 1] && len == 65) || (t.counts == [1, 1, 1, 1, 1, 2] && len == 64)
    ensures Encoding(data, t, c, 2) == Ok(e)
    ensures |e| == len
  {
    ExampleCodes(data, t, c);
    e := Encoding(data, t, c, 2).value;
    EncodingLength(data, t, c, 2);
    ExampleLength(data, t);
  }

  /** Every byte of the example file has a code. */
  lemma ExampleCodes(data: seq<nat>, t: FreqTable, c: seq<seq<int>>)
    requires data == [0, 0, 1, 2, 3, 4, 5] && c == InitialCells(2) && t.keys == [0, 1, 2, 3, 4, 5]
    requires t.counts == [2, 1, 1, 1, 1, 1] || t.counts == [1, 1, 1, 1, 1, 2]
    ensures |t.counts| == 6 && forall p :: 0 <= p < 6 ==> 1 <= t.counts[p] <= 2
    ensures forall x :: 0 <= x < 6 ==> Lookup(t, x) == Some(t.counts[x])
    ensures Codes(data, t, c, 2).Ok?
  {
    assert forall p :: 0 <= p < 6 ==> 1 <= t.counts[p] <= 2;
    forall x | 0 <= x < 6
      ensures Lookup(t, x) == Some(t.counts[x])
      ensures SymbolCode(x, t, c, 2).Ok?
    {
      ExampleSymbol(x, t, c);
    }
    assert forall k :: 0 <= k < |data| ==> data[k] < 6;
    CodesPerByte(data, t, c, 2);
  }

  /** Every byte of the example has a code: a key with count 1 or 2, and a cell of the 2 x 2 table. */
  lemma ExampleSymbol(x: nat, t: FreqTable, c: seq<seq<int>>)
    requires x < 6 && c == InitialCells(2) && t.keys == [0, 1, 2, 3, 4, 5] && |t.counts| == 6
    requires forall p :: 0 <= p < 6 ==> 1 <= t.counts[p] <= 2
    ensures Lookup(t, x) == Some(t.counts[x])
    ensures SymbolCode(x, t, c, 2).Ok?
  {
    ExampleLookup(x, t);
    assert Square(c, 2);
    assert forall r, k :: 0 <= r < 2 && 0 <= k < 2 ==> 1 <= c[r][k] <= 4;
    SymbolCodeOk(x, t, c, 2);
  }

  lemma ExampleLookup(x: nat, t: FreqTable)
    requires x < 6 && t.keys == [0, 1, 2, 3, 4, 5] && |t.counts| == 6
    ensures Lookup(t, x) == Some(t.counts[x])
  {
    assert Distinct(t.keys);
    LookupAt(t, x);
  }

  /** `ExpectedLength` of the example file, one byte at a time. */
  lemma ExampleLength(data: seq<nat>, t: FreqTable)
    requires data == [0, 0, 1, 2, 3, 4, 5] && |t.keys| == |t.counts| == 6
    requires forall x :: 0 <= x < 6 ==> Lookup(t, x) == Some(t.counts[x])
    ensures ExpectedLength(data, t) == 2 * t.counts[0] + t.counts[1] + t.counts[2] + t.counts[3] + t.counts[4] + t.counts[5] + 56
  {
    var f := t.counts;
    assert [0][..0] == [];
    assert ExpectedLength([0], t) == f[0] + 8;
    assert [0, 0][..1] == [0];
    assert ExpectedLength([0, 0], t) == 2 * f[0] + 16;
    assert [0, 0, 1][..2] == [0, 0];
    assert ExpectedLength([0, 0, 1], t) == 2 * f[0] + f[1] + 24;
    assert [0, 0, 1, 2][..3] == [0, 0, 1];
    assert ExpectedLength([0, 0, 1, 2], t) == 2 * f[0] + f[1] + f[2] + 32;
    assert [0, 0, 1, 2, 3][..4] == [0, 0, 1, 2];
    assert ExpectedLength([0, 0, 1, 2, 3], t) == 2 * f[0] + f[1] + f[2] + f[3] + 40;
    assert [0, 0, 1, 2, 3, 4][..5] == [0, 0, 1, 2, 3];
    assert ExpectedLength([0, 0, 1, 2, 3, 4], t) == 2 * f[0] + f[1] + f[2] + f[3] + f[4] + 48;
    assert data[..6] == [0, 0, 1, 2, 3, 4];
  }

  /**
   * What a move never changes: the key set, the multiset of counts and their
   * sum, well-formedness, and the shape "product table with rows and columns
   * permuted".
   */
  ghost predicate Preserved(init: Tables, t: Tables, base: nat)
  {
    && multiset(t.freq.keys) == multiset(init.freq.keys)
    && multiset(t.freq.counts) == multiset(init.freq.counts)
    && Sum(t.freq.counts) == Sum(init.freq.counts)
    && (PermutedProducts(init.cells, base) ==> PermutedProducts(t.cells, base))
  }

  lemma NeighborPreserves(cur: Tables, base: nat, d: Draw)
    requires Valid(cur, base)
    requires Neighbor(cur, base, d).Ok?
    ensures Preserved(cur, Neighbor(cur, base, d).value, base)
  {
    match d.kind
    case KeyMove =>
      var (i, j) := PickPair(|cur.freq.keys|, d.a, d.b).value;
      SwapKeysProperties(cur.freq, i, j);
    case ValueMove =>
      var (i, j) := PickPair(|cur.freq.keys|, d.a, d.b).value;
      SwapValuesProperties(cur.freq, i, j);
    case RowMove =>
      var (i, j) := PickPair(base, d.a, d.b).value;
      if PermutedProducts(cur.cells, base) {
        SwapsKeepPermutedProducts(cur.cells, base, i, j);
      }
    case ColumnMove =>
      var (i, j) := PickPair(base, d.a, d.b).value;
      if PermutedProducts(cur.cells, base) {
        SwapsKeepPermutedProducts(cur.cells, base, i, j);
      }
  }

  /** The current tables at every point of the search keep what the moves preserve. */
  lemma {:induction false} RunPreserves(files: seq<seq<nat>>, total: nat, base: nat, init: Tables, draws: seq<Draw>)
    requires Valid(init, base)
    requires Run(files, total, base, init, draws).Ok?
    ensures Preserved(init, Run(files, total, base, init, draws).value.current, base)
    decreases |draws|
  {
    if |draws| > 0 {
      var n := |draws| - 1;
      RunPrefix(files, total, base, init, draws, n);
      RunPreserves(files, total, base, init, draws[..n]);
      var s0 := Run(files, total, base, init, draws[..n]).value;
      StepAccepts(s0, files, total, base, draws[n]);
      NeighborPreserves(s0.current, base, draws[n]);
    }
  }

  /** Summary of a finished search, the matrix aside. */
  datatype Summary = Summary(best: real, ratios: seq<real>, freq: FreqTable, last: seq<seq<bool>>, emitted: seq<seq<bool>>)

  /** The candidate's frequency table, matrix changed in place (lines 175-228). */
  method ApplyMove(freq: FreqTable, nb: array2<int>, base: nat, d: Draw) returns (r: Result<FreqTable>)
    requires Wf(freq) && nb.Length0 == base && nb.Length1 == base
    modifies nb
    ensures var want := Neighbor(Tables(freq, old(Cells(nb))), base, d);
            && (r.Ok? <==> want.Ok?)
            && (r.Err? ==> r == Err(want.error))
            && (r.Ok? ==> r.value == want.value.freq && Cells(nb) == want.value.cells)
            && (r.Err? ==> Cells(nb) == old(Cells(nb)))
  {
    var n := if d.kind == KeyMove || d.kind == ValueMove then |freq.keys| else base;
    var pick := PickPair(n, d.a, d.b);
    if pick.None? {
      return Err(ValueError);
    }
    var (i, j) := pick.value;
    match d.kind
    case KeyMove =>
      r := Ok(SwapKeys(freq, i, j));
    case ValueMove =>
      r := Ok(SwapValues(freq, i, j));
    case RowMove =>
      SwapRows(nb, i, j);
      r := Ok(freq);
    case ColumnMove =>
      SwapColumns(nb, i, j);
      r := Ok(freq);
  }

  /** Line 233: every file encoded with the candidate tables. */
  method EncodeFiles(files: seq<seq<nat>>, t: FreqTable, m: array2<int>, base: nat) returns (r: Result<seq<seq<bool>>>)
    requires |t.keys| == |t.counts|
    ensures r == EncodeAll(files, t, Cells(m), base)
  {
    var streams: seq<seq<bool>> := [];
    for k := 0 to |files|
      invariant EncodeAll(files[..k], t, Cells(m), base) == Ok(streams)
    {
      assert files[..k + 1][..k] == files[..k];
      var s := EncodeData(files[k], t, m, base);
      if s.Err? {
        EncodeAllFails(files, k + 1, t, Cells(m), base);
        return Err(s.error);
      }
      streams := streams + [s.value];
    }
    assert files[..|files|] == files;
    r := Ok(streams);
  }

  lemma {:induction false} EncodeAllFails(files: seq<seq<nat>>, k: nat, t: FreqTable, c: seq<seq<int>>, base: nat)
    requires |t.keys| == |t.counts| && k <= |files|
    requires EncodeAll(files[..k], t, c, base).Err?
    ensures EncodeAll(files, t, c, base) == EncodeAll(files[..k], t, c, base)
    decreases |files| - k
  {
    if k < |files| {
      assert files[..k + 1][..k] == files[..k];
      EncodeAllFails(files, k + 1, t, c, base);
    } else {
      assert files[..k] == files;
    }
  }

  /**
   * The loop of lines 155-252. The initial matrix is copied (line 167) and
   * never changed; each candidate is a fresh copy (line 177) changed in place,
   * and an accepted one is copied again (line 252).
   */
  method Optimize(files: seq<seq<nat>>, total: nat, base: nat, freq: FreqTable, mult: array2<int>, draws: seq<Draw>)
    returns (r: Result<Summary>, table: array2<int>)
    requires Wf(freq) && mult.Length0 == base && mult.Length1 == base
    ensures var want := Run(files, total, base, Tables(freq, old(Cells(mult))), draws);
            && (r.Ok? <==> want.Ok?)
            && (r.Err? ==> r == Err(want.error))
            && (r.Ok? ==> var s := want.value;
                 r.value == Summary(s.best, s.ratios, s.current.freq, s.last, s.emitted)
                 && Cells(table) == s.current.cells)
    ensures fresh(table)
  {
    ghost var init := Tables(freq, Cells(mult));
    var current := CopyMatrix(mult);
    var curFreq := freq;
    var best: real := 0.0;
    var ratios: seq<real> := [];
    var last: seq<seq<bool>> := [];
    var emitted: seq<seq<bool>> := [];
    assert draws[..0] == [];
    for k := 0 to |draws|
      invariant fresh(current)
      invariant current.Length0 == base && current.Length1 == base
      invariant Run(files, total, base, init, draws[..k]) == Ok(Climb(Tables(curFreq, Cells(current)), best, ratios, last, emitted))
    {
      assert draws[..k + 1][..k] == draws[..k];
      ghost var s := Climb(Tables(curFreq, Cells(current)), best, ratios, last, emitted);
      var nb := CopyMatrix(current);
      var move := ApplyMove(curFreq, nb, base, draws[k]);
      if move.Err? {
        RunFails(files, total, base, init, draws, k + 1);
        return Err(move.error), current;
      }
      var nbFreq := move.value;
      var streams := EncodeFiles(files, nbFreq, nb, base);
      if streams.Err? {
        RunFails(files, total, base, init, draws, k + 1);
        return Err(streams.error), current;
      }
      var ratio := Ratio(total, CompressedSize(streams.value, |nbFreq.keys|, base));
      ratios := ratios + [ratio];
      last := streams.value;
      if ratio >= best {
        best := ratio;
        curFreq := nbFreq;
        current := CopyMatrix(nb);
        emitted := streams.value;
      }
    }
    assert draws[..|draws|] == draws;
    r := Ok(Summary(best, ratios, curFreq, last, emitted));
    table := current;
  }
}
