/**
 * The frequency table of compressor3.py: a Python dict from reduced symbol
 * (`x // common_denom`) to occurrence count. A dict remembers insertion order
 * and the optimiser permutes its keys and its values separately, so the table
 * is kept as its key list and its value list, position by position.
 */
module FreqTables {
  import opened Util
  import opened Number

  datatype FreqTable = FreqTable(keys: seq<nat>, counts: seq<nat>)

  const Empty := FreqTable([], [])

  predicate Distinct(s: seq<nat>)
  {
    forall a, b :: 0 <= a < b < |s| ==> s[a] != s[b]
  }

  /** What every dict satisfies: one value per key, no key twice. */
  predicate Wf(t: FreqTable)
  {
    |t.keys| == |t.counts| && Distinct(t.keys)
  }

  /** Position of `k` among the keys, if it is one. */
  function IndexOf(keys: seq<nat>, k: nat): (r: Option<nat>)
    ensures r.Some? ==> r.value < |keys| && keys[r.value] == k
    ensures r.None? <==> k !in keys
  {
    if |keys| == 0 then None
    else if keys[|keys| - 1] == k then Some(|keys| - 1)
    else IndexOf(keys[..|keys| - 1], k)
  }

  /** `freq_table[k]`, or None where Python raises KeyError. */
  function Lookup(t: FreqTable, k: nat): (v: Option<nat>)
    requires |t.keys| == |t.counts|
  {
    match IndexOf(t.keys, k)
    case Some(p) => Some(t.counts[p])
    case None => None
  }

  /** In a well-formed table the entry at position `p` is found under its key. */
  lemma LookupAt(t: FreqTable, p: nat)
    requires Wf(t) && p < |t.keys|
    ensures Lookup(t, t.keys[p]) == Some(t.counts[p])
  {
    var q := IndexOf(t.keys, t.keys[p]).value;
    assert q == p;
  }

  /**
   * `freq_table[k] = freq_table.get(k, 0) + 1` (line 20): an existing key is
   * incremented in place, a new key is inserted last with count 1.
   */
  function Bump(t: FreqTable, k: nat): (r: FreqTable)
    requires |t.keys| == |t.counts|
  {
    match IndexOf(t.keys, k)
    case Some(p) => FreqTable(t.keys, t.counts[p := t.counts[p] + 1])
    case None => FreqTable(t.keys + [k], t.counts + [1])
  }

  /** The dict that counting `s` left to right builds. */
  function Tally(s: seq<nat>): (t: FreqTable)
    ensures |t.keys| == |t.counts|
  {
    if |s| == 0 then Empty else Bump(Tally(s[..|s| - 1]), s[|s| - 1])
  }

  /** The reduced symbols `x // g`, in data order. */
  function Quotients(data: seq<nat>, g: nat): (q: seq<nat>)
    requires g > 0
    ensures |q| == |data|
    ensures forall i :: 0 <= i < |data| ==> q[i] == data[i] / g
  {
    seq(|data|, i requires 0 <= i < |data| => data[i] / g)
  }

  /** Counting keeps the table well formed with every count at least 1. */
  lemma {:induction false} TallyWf(s: seq<nat>)
    ensures Wf(Tally(s))
    ensures forall p :: 0 <= p < |Tally(s).counts| ==> Tally(s).counts[p] >= 1
    decreases |s|
  {
    if |s| > 0 {
      var n := |s| - 1;
      TallyWf(s[..n]);
      var t := Tally(s[..n]);
      if IndexOf(t.keys, s[n]).None? {
        var keys := t.keys + [s[n]];
        forall a, b | 0 <= a < b < |keys|
          ensures keys[a] != keys[b]
        {
          if b == |t.keys| {
            assert keys[a] == t.keys[a];
          }
        }
      }
    }
  }

  /** Bumping `x` adds one to its count (a new key starts at 1) and leaves every other key alone. */
  lemma BumpLookup(t: FreqTable, x: nat, k: nat)
    requires Wf(t)
    ensures Lookup(Bump(t, x), k) ==
      if k == x then Some(match Lookup(t, k) case Some(v) => v + 1 case None => 1) else Lookup(t, k)
  {
    var t' := Bump(t, x);
    match IndexOf(t.keys, x)
    case Some(p) =>
      assert t'.keys == t.keys;
      if k == x {
        LookupAt(t, p);
        LookupAt(t', p);
      }
    case None =>
      var n := |t.keys|;
      assert t'.keys[..n] == t.keys;
      if k != x {
        assert IndexOf(t'.keys, k) == IndexOf(t.keys, k);
      }
  }

  /**
   * The table counts every symbol: `k` is a key exactly when it occurs in `s`,
   * and then its value is the number of occurrences.
   */
  lemma {:induction false} TallyCount(s: seq<nat>, k: nat)
    ensures Lookup(Tally(s), k) == if Count(s, k) > 0 then Some(Count(s, k)) else None
    decreases |s|
  {
    if |s| > 0 {
      var n := |s| - 1;
      TallyCount(s[..n], k);
      TallyWf(s[..n]);
      BumpLookup(Tally(s[..n]), s[n], k);
    }
  }

  /** The counts add up to the number of symbols counted. */
  lemma {:induction false} TallySum(s: seq<nat>)
    ensures Sum(Tally(s).counts) == |s|
    decreases |s|
  {
    if |s| > 0 {
      var n := |s| - 1;
      var t := Tally(s[..n]);
      assert Tally(s) == Bump(t, s[n]);
      TallySum(s[..n]);
      match IndexOf(t.keys, s[n])
      case Some(p) =>
        assert Tally(s).counts == t.counts[p := t.counts[p] + 1];
        SumUpdate(t.counts, p, t.counts[p] + 1);
      case None =>
        assert Tally(s).counts == t.counts + [1];
        SumAppend(t.counts, [1]);
        assert Sum([1]) == Sum([]) + 1;
    }
  }

  /**
   * `create_freq_table(data)` (lines 15-21): `math.gcd(*data)`, then a loop that
   * counts `x // common_denom`. With no data the loop never divides and the
   * result is `({}, 0)`; with data that is all zero the first division by 0 fails.
   */
  method CreateFreqTable(data: seq<nat>) returns (r: Result<(FreqTable, nat)>)
    ensures r.Err? <==> |data| > 0 && GcdSeq(data) == 0
    ensures r.Err? ==> r.error == ZeroDivision
    ensures r.Ok? ==> r.value.1 == GcdSeq(data)
    ensures r.Ok? && |data| == 0 ==> r.value.0 == Empty
    ensures r.Ok? && |data| > 0 ==> r.value.0 == Tally(Quotients(data, GcdSeq(data)))
  {
    var g := GcdSeq(data);
    var t := Empty;
    ghost var q: seq<nat> := [];
    for i := 0 to |data|
      invariant g == 0 ==> i == 0
      invariant |q| == i
      invariant g > 0 ==> q == Quotients(data, g)[..i]
      invariant t == Tally(q)
    {
      if g == 0 {
        return Err(ZeroDivision);
      }
      var k := data[i] / g;
      t := Bump(t, k);
      assert (q + [k])[..i] == q;
      q := q + [k];
    }
    if |data| > 0 {
      assert Quotients(data, g)[..|data|] == Quotients(data, g);
    }
    r := Ok((t, g));
  }

  /**
   * What the table built from `data` says about `data`: with `g` the GCD,
   * every value is `(x // g) * g`, the keys are the reduced symbols, each
   * holding the number of values that reduce to it, and the counts add up to
   * `len(data)`. This needs `g > 0`, i.e. data that is not all zero.
   */
  lemma FreqTableCounts(data: seq<nat>, k: nat)
    requires GcdSeq(data) > 0
    ensures var g := GcdSeq(data);
            var t := Tally(Quotients(data, g));
            && Wf(t)
            && Sum(t.counts) == |data|
            && (forall i :: 0 <= i < |data| ==> (data[i] / g) * g == data[i])
            && Lookup(t, k) == (if Count(Quotients(data, g), k) > 0 then Some(Count(Quotients(data, g), k)) else None)
  {
    var g := GcdSeq(data);
    var q := Quotients(data, g);
    TallyWf(q);
    TallySum(q);
    TallyCount(q, k);
    QuotientsRecover(data);
  }

  /** Every value is a multiple of the GCD, so `(x // g) * g` gives it back. */
  lemma QuotientsRecover(data: seq<nat>)
    requires GcdSeq(data) > 0
    ensures forall i :: 0 <= i < |data| ==> (data[i] / GcdSeq(data)) * GcdSeq(data) == data[i]
  {
    var g := GcdSeq(data);
    GcdSeqDivides(data);
    forall i | 0 <= i < |data|
      ensures (data[i] / g) * g == data[i]
    {
      assert Divides(g, data[i]);
    }
  }

  /** The table after swapping two keys (lines 186-195): the value list keeps its order. */
  function SwapKeys(t: FreqTable, i: nat, j: nat): (r: FreqTable)
    requires Wf(t) && i < |t.keys| && j < |t.keys|
    ensures Wf(r)
  {
    var r := FreqTable(t.keys[i := t.keys[j]][j := t.keys[i]], t.counts);
    assert forall p :: 0 <= p < |t.keys| ==> r.keys[p] == t.keys[if p == i then j else if p == j then i else p];
    r
  }

  /** The table after swapping two values (lines 201-210): the key list keeps its order. */
  function SwapValues(t: FreqTable, i: nat, j: nat): (r: FreqTable)
    requires Wf(t) && i < |t.keys| && j < |t.keys|
    ensures Wf(r)
  {
    FreqTable(t.keys, t.counts[i := t.counts[j]][j := t.counts[i]])
  }

  /**
   * The mapping both swaps produce: `keys[i]` now holds the old `keys[j]`
   * count and vice versa; every other key keeps its count, and no key is
   * added or lost.
   */
  ghost predicate SwappedMapping(t: FreqTable, r: FreqTable, i: nat, j: nat)
    requires Wf(t) && Wf(r) && i < |t.keys| && j < |t.keys|
  {
    && Lookup(r, t.keys[i]) == Some(t.counts[j])
    && Lookup(r, t.keys[j]) == Some(t.counts[i])
    && forall k :: k != t.keys[i] && k != t.keys[j] ==> Lookup(r, k) == Lookup(t, k)
  }

  /** Swapping keys: the mapping above, the same key and count multisets and sum, keys reordered. */
  lemma SwapKeysProperties(t: FreqTable, i: nat, j: nat)
    requires Wf(t) && i < |t.keys| && j < |t.keys| && i != j
    ensures var r := SwapKeys(t, i, j);
            && SwappedMapping(t, r, i, j)
            && multiset(r.keys) == multiset(t.keys)
            && multiset(r.counts) == multiset(t.counts)
            && Sum(r.counts) == Sum(t.counts)
            && r.keys[i] == t.keys[j] && r.keys[j] == t.keys[i]
            && (forall p :: 0 <= p < |t.keys| && p != i && p != j ==> r.keys[p] == t.keys[p])
  {
    var r := SwapKeys(t, i, j);
    LookupAt(r, i);
    LookupAt(r, j);
    forall k | k != t.keys[i] && k != t.keys[j]
      ensures Lookup(r, k) == Lookup(t, k)
    {
      if k in t.keys {
        var p := IndexOf(t.keys, k).value;
        LookupAt(t, p);
        LookupAt(r, p);
      } else {
        assert k !in r.keys;
      }
    }
    SwapMultiset(t.keys, i, j);
  }

  /** Swapping values: the same mapping as swapping keys, and the key order is untouched. */
  lemma SwapValuesProperties(t: FreqTable, i: nat, j: nat)
    requires Wf(t) && i < |t.keys| && j < |t.keys| && i != j
    ensures var r := SwapValues(t, i, j);
            && SwappedMapping(t, r, i, j)
            && r.keys == t.keys
            && multiset(r.counts) == multiset(t.counts)
            && Sum(r.counts) == Sum(t.counts)
  {
    var r := SwapValues(t, i, j);
    LookupAt(r, i);
    LookupAt(r, j);
    forall k | k != t.keys[i] && k != t.keys[j]
      ensures Lookup(r, k) == Lookup(t, k)
    {
      if k in t.keys {
        var p := IndexOf(t.keys, k).value;
        LookupAt(t, p);
        LookupAt(r, p);
      }
    }
    SwapMultiset(t.counts, i, j);
    SumSwap(t.counts, i, j);
  }

  /** The two swaps build the same dict; they differ only in the order of its keys. */
  lemma SwapsAgree(t: FreqTable, i: nat, j: nat, k: nat)
    requires Wf(t) && i < |t.keys| && j < |t.keys| && i != j
    ensures Lookup(SwapKeys(t, i, j), k) == Lookup(SwapValues(t, i, j), k)
  {
    SwapKeysProperties(t, i, j);
    SwapValuesProperties(t, i, j);
  }
}
