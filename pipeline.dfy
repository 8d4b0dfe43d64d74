/**
 * `compress_dir` (compressor3.py:84-268) around the search: the file contents
 * pooled, the base-size heuristic, the common frequency table, the initial
 * matrix, the search, and what the run leaves to be written out (the common
 * table and one stream per file) together with `best_ratio` and `ratios`.
 */
module Pipeline {
  import opened Util
  import opened Number
  import opened FreqTables
  import opened MultTables
  import opened Encoder
  import opened Optimizer

  /** `MAX_BASE_SIZE` (line 10). */
  const MaxBaseSize: nat := 256

  /** `max` of a non-empty list. */
  function Max(s: seq<nat>): (m: nat)
    requires |s| > 0
    ensures m in s
    ensures forall k :: 0 <= k < |s| ==> s[k] <= m
  {
    if |s| == 1 then s[0]
    else
      var m := Max(s[..|s| - 1]);
      assert forall k :: 0 <= k < |s| - 1 ==> s[..|s| - 1][k] == s[k];
      if s[|s| - 1] > m then s[|s| - 1] else m
  }

  /** `min` of a non-empty list. */
  function Min(s: seq<nat>): (m: nat)
    requires |s| > 0
    ensures m in s
    ensures forall k :: 0 <= k < |s| ==> m <= s[k]
  {
    if |s| == 1 then s[0]
    else
      var m := Min(s[..|s| - 1]);
      assert forall k :: 0 <= k < |s| - 1 ==> s[..|s| - 1][k] == s[k];
      if s[|s| - 1] < m then s[|s| - 1] else m
  }

  /** `mean_value` (line 115), as an exact rational. */
  function Mean(all: seq<nat>): (mean: real)
    requires |all| > 0
    ensures mean >= 0.0
    ensures mean * |all| as real == Sum(all) as real
  {
    Sum(all) as real / |all| as real
  }

  /** Line 121: `min(MAX_BASE_SIZE, max - min + 1)`. */
  function InitialBase(maxV: nat, minV: nat): (b: nat)
    requires minV <= maxV
    ensures 1 <= b <= MaxBaseSize
    ensures b <= maxV - minV + 1
    ensures b == MaxBaseSize || b == maxV - minV + 1
  {
    var range := maxV - minV + 1;
    if MaxBaseSize <= range then MaxBaseSize else range
  }

  /**
   * Lines 125-128: for data of low variability (`std < mean / 2`) the base is
   * lowered to `mean + std` when that is smaller.
   */
  function CappedBase(b0: nat, mean: real, std: real): (b: real)
    requires mean >= 0.0 && std >= 0.0
    ensures 0.0 <= b <= b0 as real
    ensures std < mean / 2.0 ==> b <= mean + std && (b == b0 as real || b == mean + std)
    ensures !(std < mean / 2.0) ==> b == b0 as real
  {
    if std < mean / 2.0 then
      (if b0 as real <= mean + std then b0 as real else mean + std)
    else b0 as real
  }

  /** Lines 132-135: a base above a quarter of the data becomes `max(2, total_size // 4)`. */
  function QuarterBase(b1: real, total: nat): (b: real)
    requires b1 >= 0.0
    ensures b >= 0.0
    ensures b1 > total as real / 4.0 ==> b == (if total / 4 >= 2 then total / 4 else 2) as real
    ensures !(b1 > total as real / 4.0) ==> b == b1
  {
    if b1 > total as real / 4.0 then (if 2 >= total / 4 then 2 else total / 4) as real
    else b1
  }

  /** `base_size` after `int(base_size)` (line 139), which truncates the non-negative value. */
  function BaseSize(total: nat, maxV: nat, minV: nat, mean: real, std: real): (b: nat)
    requires minV <= maxV && mean >= 0.0 && std >= 0.0
  {
    QuarterBase(CappedBase(InitialBase(maxV, minV), mean, std), total).Floor
  }

  /**
   * The base never exceeds `MAX_BASE_SIZE` nor `max(2, max - min + 1)`; when
   * the heuristic hits the quarter rule the result is `max(2, total_size // 4)`,
   * and otherwise it is at most `min(256, max - min + 1)`.
   */
  lemma BaseSizeBounds(total: nat, maxV: nat, minV: nat, mean: real, std: real)
    requires minV <= maxV && mean >= 0.0 && std >= 0.0
    ensures var b := BaseSize(total, maxV, minV, mean, std);
            var b1 := CappedBase(InitialBase(maxV, minV), mean, std);
            && b <= MaxBaseSize
            && (b <= 2 || b <= maxV - minV + 1)
            && (b1 > total as real / 4.0 ==> b == (if total / 4 >= 2 then total / 4 else 2))
            && (!(b1 > total as real / 4.0) ==> b <= InitialBase(maxV, minV))
  {
    var b0 := InitialBase(maxV, minV);
    var b1 := CappedBase(b0, mean, std);
    var b2 := QuarterBase(b1, total);
    if b1 > total as real / 4.0 {
      var q := total / 4;
      assert q as real <= total as real / 4.0;
      assert q < b0;
      assert (if q >= 2 then q else 2) as real == b2;
    } else {
      assert b2 == b1 && b2 <= b0 as real;
      assert b2.Floor <= b0;
    }
  }

  /**
   * A lower bound of 2 does not hold: four copies of one value give a range
   * of 1, the quarter rule does not apply, and the base is 1.
   */
  lemma BaseSizeCanBeOne()
    ensures BaseSize(4, 5, 5, 5.0, 0.0) == 1
  {
    assert InitialBase(5, 5) == 1;
    assert CappedBase(1, 5.0, 0.0) == 1.0;
    assert QuarterBase(1.0, 4) == 1.0;
  }

  /** Every file has at least one byte (otherwise `max(data)` raises at line 111). */
  predicate AllNonEmpty(files: seq<seq<nat>>)
  {
    forall k :: 0 <= k < |files| ==> |files[k]| > 0
  }

  lemma ConcatNonEmpty(files: seq<seq<nat>>)
    requires |files| > 0 && AllNonEmpty(files)
    ensures |Concat(files)| >= |files[|files| - 1]| > 0
  {
  }

  /** Every pooled value comes from one of the files. */
  lemma {:induction false} ConcatMember(files: seq<seq<nat>>, x: nat)
    requires x in Concat(files)
    ensures exists k, p :: 0 <= k < |files| && 0 <= p < |files[k]| && files[k][p] == x
    decreases |files|
  {
    var n := |files| - 1;
    assert Concat(files) == Concat(files[..n]) + files[n];
    if x in files[n] {
      var p :| 0 <= p < |files[n]| && files[n][p] == x;
      assert files[n][p] == x;
    } else {
      ConcatMember(files[..n], x);
      var k, p :| 0 <= k < n && 0 <= p < |files[..n][k]| && files[..n][k][p] == x;
      assert files[k][p] == x;
    }
  }

  /**
   * The common table of line 258: `[common_denom, base_size]`, the keys, the
   * counts, and the matrix row by row.
   */
  function Header(g: nat, base: nat, t: FreqTable, c: seq<seq<int>>): (h: seq<int>)
  {
    var head: seq<int> := [g, base];
    head + t.keys + t.counts + Flatten(c)
  }

  /**
   * The size formula charges exactly one byte per entry of the common table:
   * the streams' bytes plus the length of the header.
   */
  lemma HeaderIsOverhead(g: nat, base: nat, t: FreqTable, c: seq<seq<int>>, streams: seq<seq<bool>>)
    requires |t.keys| == |t.counts| && Square(c, base)
    ensures CompressedSize(streams, |t.keys|, base) == TotalStreamBytes(streams) + |Header(g, base, t, c)|
  {
    FlattenLength(c, base);
  }

  /**
   * `best_ratio`, `ratios` (line 268) and what is written to the header
   * files: the common list (line 258) and `encoded_data_list` (lines 263-264).
   * `emitted` holds the streams of the accepted tables, which are the ones
   * the comment at line 261 says should be written.
   */
  datatype Outcome = Outcome(best: real, ratios: seq<real>, header: seq<int>, streams: seq<seq<bool>>, emitted: seq<seq<bool>>)

  /** What lines 104-167 compute before the search: sizes, base, GCD and the initial tables. */
  datatype Setup = Setup(total: nat, base: nat, g: nat, init: Tables)

  /**
   * Lines 104-167 on the file contents, with `std` standing for the standard
   * deviation of line 117: ValueError for no files or an empty file (`max` of
   * an empty list), ZeroDivision for data that is all zero (line 20).
   */
  function Prepare(files: seq<seq<nat>>, std: real): (r: Result<Setup>)
    requires std >= 0.0
    ensures !(|files| > 0 && AllNonEmpty(files)) ==> r == Err(ValueError)
    ensures |files| > 0 && AllNonEmpty(files) ==> |Concat(files)| > 0
    ensures |files| > 0 && AllNonEmpty(files) ==> (r.Err? <==> GcdSeq(Concat(files)) == 0)
    ensures r.Err? ==> r == Err(ValueError) || r == Err(ZeroDivision)
    ensures r.Ok? ==> var all := Concat(files);
      && r.value.total == |all| == Sum(Lengths(files))
      && r.value.g == GcdSeq(all) > 0
      && r.value.base == BaseSize(|all|, Max(all), Min(all), Mean(all), std)
      && r.value.init == Tables(Tally(Quotients(all, r.value.g)), InitialCells(r.value.base))
      && Valid(r.value.init, r.value.base)
      && PermutedProducts(r.value.init.cells, r.value.base)
  {
    if !(|files| > 0 && AllNonEmpty(files)) then Err(ValueError)
    else
      ConcatNonEmpty(files);
      ConcatLength(files);
      var all := Concat(files);
      var base := BaseSize(|all|, Max(all), Min(all), Mean(all), std);
      var g := GcdSeq(all);
      if g == 0 then Err(ZeroDivision)
      else
        TallyWf(Quotients(all, g));
        InitialForm(base);
        Ok(Setup(|all|, base, g, Tables(Tally(Quotients(all, g)), InitialCells(base))))
  }

  /** `compress_dir` on the contents of the files, `draws` standing for the random choices. */
  function Compress(files: seq<seq<nat>>, std: real, draws: seq<Draw>): (r: Result<Outcome>)
    requires std >= 0.0 && |draws| == MaxIter
  {
    match Prepare(files, std)
    case Err(e) => Err(e)
    case Ok(p) =>
      match Run(files, p.total, p.base, p.init, draws)
      case Err(e) => Err(e)
      case Ok(s) => Ok(Outcome(s.best, s.ratios, Header(p.g, p.base, s.current.freq, s.current.cells), s.last, s.emitted))
  }

  /**
   * A successful run records `MAX_ITER` ratios and returns their maximum; the
   * header starts with the GCD of the data and the base. The streams written
   * out are every file's encoding under the last candidate's tables (line
   * 233); the accepted streams are every file's encoding under the tables of
   * the header.
   */
  lemma CompressSucceeds(files: seq<seq<nat>>, std: real, draws: seq<Draw>)
    requires std >= 0.0 && |draws| == MaxIter
    requires Compress(files, std, draws).Ok?
    ensures Prepare(files, std).Ok?
    ensures var o := Compress(files, std, draws).value;
            var p := Prepare(files, std).value;
            && |o.ratios| == MaxIter
            && (forall k :: 0 <= k < |o.ratios| ==> o.ratios[k] <= o.best)
            && o.best in o.ratios
            && (exists t: FreqTable, c: seq<seq<int>> ::
                 && Wf(t) && Square(c, p.base)
                 && EncodeAll(files, t, c, p.base) == Ok(o.streams))
            && exists t: FreqTable, c: seq<seq<int>> ::
                 && Wf(t) && Square(c, p.base)
                 && o.header == Header(p.g, p.base, t, c)
                 && EncodeAll(files, t, c, p.base) == Ok(o.emitted)
  {
    var p := Prepare(files, std).value;
    RunRatios(files, p.total, p.base, p.init, draws);
    RunBestIsMax(files, p.total, p.base, p.init, draws);
    EmittedMatchesTables(files, p.total, p.base, p.init, draws);
    LastStreamsAreLastCandidate(files, p.total, p.base, p.init, draws);
    var n := |draws| - 1;
    var s0 := Run(files, p.total, p.base, p.init, draws[..n]).value;
    var nb := Neighbor(s0.current, p.base, draws[n]).value;
    var s := Run(files, p.total, p.base, p.init, draws).value;
    assert Compress(files, std, draws).value.header == Header(p.g, p.base, s.current.freq, s.current.cells);
    assert EncodeAll(files, nb.freq, nb.cells, p.base) == Ok(Compress(files, std, draws).value.streams);
  }

  /**
   * The streams written out need not be those of the tables in the header.
   * One file `[0, 0, 1, 2, 3, 4, 5]`: base 2 and GCD 1 whatever the standard
   * deviation, table `{0: 2, 1: 1, ..., 5: 1}`. With every draw the value
   * swap of positions 0 and 5, the first swap is accepted and every later
   * one rejected, so the header holds the swapped table while the written
   * stream is the file's encoding under the initial one.
   */
  lemma CompressStreamsMismatch(files: seq<seq<nat>>, std: real, draws: seq<Draw>)
    requires files == [[0, 0, 1, 2, 3, 4, 5]] && std >= 0.0
    requires |draws| == MaxIter && forall k :: 0 <= k < |draws| ==> draws[k] == Draw(ValueMove, 0, 4)
    ensures Compress(files, std, draws).Ok?
    ensures var o := Compress(files, std, draws).value;
            var t1 := FreqTable([0, 1, 2, 3, 4, 5], [1, 1, 1, 1, 1, 2]);
            && o.header == Header(1, 2, t1, InitialCells(2))
            && EncodeAll(files, t1, InitialCells(2), 2) == Ok(o.emitted)
            && EncodeAll(files, t1, InitialCells(2), 2) != Ok(o.streams)
  {
    SevenSetup(files, std);
    var init := Tables(FreqTable([0, 1, 2, 3, 4, 5], [2, 1, 1, 1, 1, 1]), InitialCells(2));
    LastStreamsMismatch(files, init, draws);
    EmittedMatchesTables(files, 7, 2, init, draws);
  }

  /** The setup of the one-file example: total 7, base 2, GCD 1 and the table in first-seen order. */
  lemma SevenSetup(files: seq<seq<nat>>, std: real)
    requires files == [[0, 0, 1, 2, 3, 4, 5]] && std >= 0.0
    ensures Prepare(files, std) == Ok(Setup(7, 2, 1,
      Tables(FreqTable([0, 1, 2, 3, 4, 5], [2, 1, 1, 1, 1, 1]), InitialCells(2))))
  {
    var all := SevenPool(files);
    SevenStats(all);
    SevenGcd(all);
    assert Quotients(all, 1) == all;
    SevenTally(all);
    SevenBase(Mean(all), std);
  }

  /** The pooled values of the one-file example. */
  lemma SevenPool(files: seq<seq<nat>>) returns (all: seq<nat>)
    requires files == [[0, 0, 1, 2, 3, 4, 5]]
    ensures all == Concat(files) && SevenData(all)
    ensures |files| > 0 && AllNonEmpty(files)
  {
    assert files[..0] == [] && Concat(files[..0]) == [];
    all := Concat(files);
    assert all == [] + files[0];
  }

  /** The data of the one-file example, value by value. */
  predicate SevenData(all: seq<nat>)
  {
    && |all| == 7 && all[0] == 0 && all[1] == 0 && all[2] == 1
    && all[3] == 2 && all[4] == 3 && all[5] == 4 && all[6] == 5
  }

  /** The GCD of the example data is 1. */
  lemma SevenGcd(all: seq<nat>)
    requires SevenData(all)
    ensures GcdSeq(all) == 1
  {
    GcdSeqDivides(all);
    GcdSeqZero(all);
    DivisorBound(GcdSeq(all), 1);
  }

  /** With 7 values of mean 15/7 and range 6 the quarter rule gives base 2 whatever `std`. */
  lemma SevenBase(mean: real, std: real)
    requires mean * 7.0 == 15.0 && std >= 0.0
    ensures BaseSize(7, 5, 0, mean, std) == 2
  {
    var b1 := CappedBase(InitialBase(5, 0), mean, std);
    assert InitialBase(5, 0) == 6;
    assert mean > 2.0;
    assert b1 > 7.0 / 4.0;
    assert QuarterBase(b1, 7) == 2.0;
  }

  lemma SevenStats(all: seq<nat>)
    requires SevenData(all)
    ensures Max(all) == 5 && Min(all) == 0 && Sum(all) == 15
  {
    assert all[6] in all && all[0] in all;
    assert forall k :: 0 <= k < |all| ==> all[k] <= 5;
    assert all[..1][..0] == [];
    assert Sum(all[..1]) == 0;
    assert all[..2][..1] == all[..1];
    assert Sum(all[..2]) == 0;
    assert all[..3][..2] == all[..2];
    assert Sum(all[..3]) == 1;
    assert all[..4][..3] == all[..3];
    assert Sum(all[..4]) == 3;
    assert all[..5][..4] == all[..4];
    assert Sum(all[..5]) == 6;
    assert all[..6][..5] == all[..5];
    assert Sum(all[..6]) == 10;
    assert all[..6] == all[..|all| - 1];
  }

  /** Counting the example file left to right: keys in first-seen order. */
  lemma SevenTally(all: seq<nat>)
    requires SevenData(all)
    ensures Tally(all) == FreqTable([0, 1, 2, 3, 4, 5], [2, 1, 1, 1, 1, 1])
  {
    SevenTallySeven(all);
    assert all[..7] == all;
  }

  lemma SevenTallySeven(all: seq<nat>)
    requires SevenData(all)
    ensures Tally(all[..7]) == FreqTable([0, 1, 2, 3, 4, 5], [2, 1, 1, 1, 1, 1])
  {
    SevenTallySix(all);
    TallyPrefixNew(all, 7, [0, 1, 2, 3, 4], [2, 1, 1, 1, 1]);
  }

  lemma SevenTallySix(all: seq<nat>)
    requires SevenData(all)
    ensures Tally(all[..6]) == FreqTable([0, 1, 2, 3, 4], [2, 1, 1, 1, 1])
  {
    SevenTallyFive(all);
    TallyPrefixNew(all, 6, [0, 1, 2, 3], [2, 1, 1, 1]);
  }

  lemma SevenTallyFive(all: seq<nat>)
    requires SevenData(all)
    ensures Tally(all[..5]) == FreqTable([0, 1, 2, 3], [2, 1, 1, 1])
  {
    SevenTallyFour(all);
    TallyPrefixNew(all, 5, [0, 1, 2], [2, 1, 1]);
  }

  lemma SevenTallyFour(all: seq<nat>)
    requires SevenData(all)
    ensures Tally(all[..4]) == FreqTable([0, 1, 2], [2, 1, 1])
  {
    SevenTallyThree(all);
    TallyPrefixNew(all, 4, [0, 1], [2, 1]);
  }

  lemma SevenTallyThree(all: seq<nat>)
    requires SevenData(all)
    ensures Tally(all[..3]) == FreqTable([0, 1], [2, 1])
  {
    assert all[..0] == [];
    TallyPrefix(all, 1, Empty, FreqTable([0], [1]));
    TallyPrefix(all, 2, FreqTable([0], [1]), FreqTable([0], [2]));
    TallyPrefix(all, 3, FreqTable([0], [2]), FreqTable([0, 1], [2, 1]));
  }

  /** A symbol not counted yet is appended with count 1. */
  lemma TallyPrefixNew(s: seq<nat>, n: nat, keys: seq<nat>, counts: seq<nat>)
    requires 0 < n <= |s| && |keys| == |counts|
    requires Tally(s[..n - 1]) == FreqTable(keys, counts) && s[n - 1] !in keys
    ensures Tally(s[..n]) == FreqTable(keys + [s[n - 1]], counts + [1])
  {
    assert s[..n][..n - 1] == s[..n - 1];
  }

  /** Counting one more symbol is one more `Bump`. */
  lemma TallyPrefix(s: seq<nat>, n: nat, t: FreqTable, t': FreqTable)
    requires 0 < n <= |s| && |t.keys| == |t.counts|
    requires Tally(s[..n - 1]) == t && Bump(t, s[n - 1]) == t'
    ensures Tally(s[..n]) == t'
  {
    assert s[..n][..n - 1] == s[..n - 1];
  }


  /**
   * With a GCD above 1 the run always fails: symbols are looked up undivided
   * (line 35) in a table keyed by the quotients (line 20), and the largest
   * value is larger than every quotient, so it is never a key.
   */
  lemma GcdAboveOneFails(files: seq<seq<nat>>, std: real, draws: seq<Draw>)
    requires std >= 0.0 && |draws| == MaxIter
    requires |files| > 0 && AllNonEmpty(files)
    requires GcdSeq(Concat(files)) > 1
    ensures Compress(files, std, draws).Err?
  {
    var p := Prepare(files, std).value;
    var all := Concat(files);
    var top := Max(all);
    MaxNotAKey(all);
    ConcatMember(files, top);
    var k, i :| 0 <= k < |files| && 0 <= i < |files[k]| && files[k][i] == top;
    assert draws[..1][..0] == [];
    RunFirstFails(files, p.total, p.base, p.init, draws[..1], k, i);
    RunFails(files, p.total, p.base, p.init, draws, 1);
  }

  /** A first iteration fails when some byte is not a key of the initial table. */
  lemma RunFirstFails(files: seq<seq<nat>>, total: nat, base: nat, init: Tables, draws: seq<Draw>, k: nat, i: nat)
    requires Valid(init, base) && |draws| == 1
    requires k < |files| && i < |files[k]| && files[k][i] !in init.freq.keys
    ensures Run(files, total, base, init, draws).Err?
  {
    assert draws[..0] == [];
    var d := draws[0];
    match Neighbor(init, base, d)
    case Err(_) =>
    case Ok(nb) =>
      NeighborPreserves(init, base, d);
      assert files[k][i] !in multiset(nb.freq.keys);
      if EncodeAll(files, nb.freq, nb.cells, base).Ok? {
        EncodeAllPerFile(files, nb.freq, nb.cells, base);
        CodesPerByte(files[k], nb.freq, nb.cells, base);
        assert false;
      }
  }

  /**
   * When both kinds of `random.sample` can draw a pair and the first byte of
   * the first file is not a key, the first iteration raises KeyError on that
   * byte, whatever the move.
   */
  lemma FirstByteRaises(files: seq<seq<nat>>, total: nat, base: nat, init: Tables, draws: seq<Draw>)
    requires Valid(init, base) && |draws| == 1
    requires base >= 2 && |init.freq.keys| >= 2
    requires |files| > 0 && |files[0]| > 0 && files[0][0] !in init.freq.keys
    ensures Run(files, total, base, init, draws) == Err(UnknownSymbol(files[0][0]))
  {
    assert draws[..0] == [];
    var d := draws[0];
    var nb := Neighbor(init, base, d).value;
    NeighborPreserves(init, base, d);
    assert files[0][0] !in multiset(nb.freq.keys);
    assert files[0][..0] == [] && files[..0] == [];
    CodesFailFrom(files[0], 0, nb.freq, nb.cells, base);
    EncodeAllFailsFrom(files, 0, nb.freq, nb.cells, base);
  }

  /** The largest value, when the GCD exceeds 1, is not a key of the common table. */
  lemma MaxNotAKey(all: seq<nat>)
    requires |all| > 0 && GcdSeq(all) > 1
    ensures Max(all) !in Tally(Quotients(all, GcdSeq(all))).keys
  {
    var g := GcdSeq(all);
    var q := Quotients(all, g);
    var top := Max(all);
    GcdSeqZero(all);
    assert top > 0;
    if top in Tally(q).keys {
      TallyWf(q);
      var i :| 0 <= i < |Tally(q).keys| && Tally(q).keys[i] == top;
      LookupAt(Tally(q), i);
      TallyCount(q, top);
      CountPositive(q, top);
      var j :| 0 <= j < |q| && q[j] == top;
      assert all[j] <= top;
      DivMonotone(all[j], top, g);
      DivShrinks(top, g);
      assert false;
    }
  }

  /**
   * Two files `[10, 10, 20, 30]` and `[10, 20, 20]`: the GCD is 10, and since
   * the range 21 (or `mean + std`, at least the mean 120/7) is above
   * 7 / 4, whatever the standard deviation the quarter rule gives base 2.
   */
  lemma TwoFileSetup(files: seq<seq<nat>>, std: real)
    requires files == [[10, 10, 20, 30], [10, 20, 20]] && std >= 0.0
    ensures Prepare(files, std).Ok?
    ensures Prepare(files, std).value.total == 7
    ensures Prepare(files, std).value.g == 10
    ensures Prepare(files, std).value.base == 2
  {
    var all := TwoFilePool(files);
    forall k | 0 <= k < |all|
      ensures Divides(10, all[k])
    {
    }
    GcdSeqGreatest(all, 10);
    GcdSeqZero(all);
    GcdSeqDivides(all);
    assert all[0] == 10;
    DivisorBound(GcdSeq(all), 10);
    var mean := Mean(all);
    assert mean * 7.0 == 120.0;
    var b1 := CappedBase(InitialBase(Max(all), Min(all)), mean, std);
    assert InitialBase(30, 10) == 21;
    assert b1 > 7.0 / 4.0;
    assert QuarterBase(b1, 7) == 2.0;
  }

  /** The pooled values of the two-file example. */
  lemma TwoFilePool(files: seq<seq<nat>>) returns (all: seq<nat>)
    requires files == [[10, 10, 20, 30], [10, 20, 20]]
    ensures all == Concat(files) == [10, 10, 20, 30, 10, 20, 20]
    ensures |files| > 0 && AllNonEmpty(files)
    ensures Max(all) == 30 && Min(all) == 10 && Sum(all) == 120
  {
    assert files[..1] == [[10, 10, 20, 30]] && files[..1][..0] == [];
    assert Concat(files[..1]) == [10, 10, 20, 30];
    all := Concat(files);
    assert all == [10, 10, 20, 30] + [10, 20, 20];
    PoolStats(all);
  }

  lemma PoolStats(all: seq<nat>)
    requires all == [10, 10, 20, 30, 10, 20, 20]
    ensures Max(all) == 30 && Min(all) == 10 && Sum(all) == 120
  {
    assert 30 in all && 10 in all;
    assert forall k :: 0 <= k < |all| ==> 10 <= all[k] <= 30;
    var p := all[..6];
    assert p == [10, 10, 20, 30, 10, 20];
    assert p[..5] == [10, 10, 20, 30, 10];
    assert p[..5][..4] == [10, 10, 20, 30];
    assert p[..5][..4][..3] == [10, 10, 20];
    assert p[..5][..4][..3][..2] == [10, 10];
    assert p[..5][..4][..3][..2][..1] == [10];
    assert [10][..0] == [];
    assert Sum([10]) == 10;
    assert Sum([10, 10]) == 20;
    assert Sum([10, 10, 20]) == 40;
    assert Sum([10, 10, 20, 30]) == 70;
    assert Sum([10, 10, 20, 30, 10]) == 80;
    assert Sum(p) == 100;
  }

  /**
   * The two-file example raises KeyError on its first byte 10: the keys are
   * the quotients 1, 2 and 3, so with base 2 every move draws its pair and the
   * first iteration's encoding fails.
   */
  lemma TwoFileFails(files: seq<seq<nat>>, std: real, draws: seq<Draw>)
    requires files == [[10, 10, 20, 30], [10, 20, 20]]
    requires std >= 0.0 && |draws| == MaxIter
    ensures Compress(files, std, draws) == Err(UnknownSymbol(10))
  {
    var all := TwoFilePool(files);
    TwoFileSetup(files, std);
    var p := Prepare(files, std).value;
    var q := Quotients(all, 10);
    var keys := p.init.freq.keys;
    assert forall i :: 0 <= i < |q| ==> q[i] <= 3;
    CountPositive(q, 1);
    CountPositive(q, 3);
    CountPositive(q, 10);
    TallyCount(q, 1);
    TallyCount(q, 3);
    TallyCount(q, 10);
    assert q[0] == 1 && q[3] == 3;
    assert 1 in keys && 3 in keys && 10 !in keys;
    var a :| 0 <= a < |keys| && keys[a] == 1;
    var b :| 0 <= b < |keys| && keys[b] == 3;
    assert a != b;
    assert draws[..1][..0] == [];
    FirstByteRaises(files, p.total, p.base, p.init, draws[..1]);
    RunFails(files, p.total, p.base, p.init, draws, 1);
  }

  /** `compress_dir` on the file contents: the imperative run behind `Compress`. */
  method CompressDir(files: seq<seq<nat>>, std: real, draws: seq<Draw>) returns (r: Result<Outcome>)
    requires std >= 0.0 && |draws| == MaxIter
    ensures r == Compress(files, std, draws)
  {
    if !(|files| > 0 && AllNonEmpty(files)) {
      return Err(ValueError);
    }
    ConcatNonEmpty(files);
    var all := Concat(files);
    var total := |all|;
    var base := BaseSize(total, Max(all), Min(all), Mean(all), std);
    var made := CreateFreqTable(all);
    if made.Err? {
      return Err(made.error);
    }
    var (t, g) := made.value;
    var mult := CreateMultTable(base);
    ghost var p := Prepare(files, std).value;
    assert p == Setup(total, base, g, Tables(t, Cells(mult)));
    var res, table := Optimize(files, total, base, t, mult, draws);
    if res.Err? {
      return Err(res.error);
    }
    var cells := FlattenMatrix(table);
    var head: seq<int> := [g, base];
    r := Ok(Outcome(res.value.best, res.value.ratios, head + res.value.freq.keys + res.value.freq.counts + cells, res.value.last, res.value.emitted));
  }
}
