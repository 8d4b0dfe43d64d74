/** Errors, results and small sequence arithmetic shared by the codec modules. */
module Util {

  /** The exceptions the compressor can raise, one constructor per kind. */
  datatype Error =
    | ValueError          // max() of an empty list, random.sample from fewer than two indices
    | ZeroDivision        // x // 0 when every value of the corpus is 0
    | UnknownSymbol(x: nat) // dict lookup of a byte that is not a key
    | IndexOutOfRange     // numpy row or column index outside the matrix
    | ValueTooWide(v: int)  // int.to_bytes(1, 'big') of a value outside [0, 255]

  datatype Result<T> = Ok(value: T) | Err(error: Error)

  datatype Option<T> = None | Some(value: T)

  /** Sum of a sequence of naturals, from the back (the order a running total uses). */
  function Sum(s: seq<nat>): (total: nat)
  {
    if |s| == 0 then 0 else Sum(s[..|s| - 1]) + s[|s| - 1]
  }

  /** Number of occurrences of `k` in `s`. */
  function Count(s: seq<nat>, k: nat): (n: nat)
  {
    if |s| == 0 then 0 else Count(s[..|s| - 1], k) + (if s[|s| - 1] == k then 1 else 0)
  }

  /** All files pooled into one list, file by file. */
  function Concat(files: seq<seq<nat>>): (all: seq<nat>)
  {
    if |files| == 0 then [] else Concat(files[..|files| - 1]) + files[|files| - 1]
  }

  /** Lengths of the files, in order. */
  function Lengths(files: seq<seq<nat>>): (ls: seq<nat>)
    ensures |ls| == |files|
    ensures forall k :: 0 <= k < |files| ==> ls[k] == |files[k]|
  {
    seq(|files|, k requires 0 <= k < |files| => |files[k]|)
  }

  lemma {:induction false} SumAppend(s: seq<nat>, t: seq<nat>)
    ensures Sum(s + t) == Sum(s) + Sum(t)
    decreases |t|
  {
    if |t| == 0 {
      assert s + t == s;
    } else {
      assert (s + t)[..|s + t| - 1] == s + t[..|t| - 1];
      SumAppend(s, t[..|t| - 1]);
    }
  }

  /** Replacing one element changes the sum by the difference. */
  lemma {:induction false} SumUpdate(s: seq<nat>, i: nat, x: nat)
    requires i < |s|
    ensures Sum(s[i := x]) + s[i] == Sum(s) + x
    decreases |s|
  {
    var n := |s| - 1;
    if i == n {
      assert s[i := x][..n] == s[..n];
    } else {
      assert s[i := x][..n] == s[..n][i := x];
      SumUpdate(s[..n], i, x);
    }
  }

  /** Exchanging two elements keeps the sum. */
  lemma SumSwap(s: seq<nat>, i: nat, j: nat)
    requires i < |s| && j < |s|
    ensures Sum(s[i := s[j]][j := s[i]]) == Sum(s)
  {
    SumUpdate(s, i, s[j]);
    SumUpdate(s[i := s[j]], j, s[i]);
  }

  /** The pooled list is as long as all files together. */
  lemma {:induction false} ConcatLength(files: seq<seq<nat>>)
    ensures |Concat(files)| == Sum(Lengths(files))
    decreases |files|
  {
    if |files| > 0 {
      var n := |files| - 1;
      assert Lengths(files)[..n] == Lengths(files[..n]);
      ConcatLength(files[..n]);
    }
  }

  /** `k` occurs in `s` exactly when its count is positive. */
  lemma {:induction false} CountPositive(s: seq<nat>, k: nat)
    ensures Count(s, k) > 0 <==> k in s
    decreases |s|
  {
    if |s| > 0 {
      var n := |s| - 1;
      CountPositive(s[..n], k);
      assert s == s[..n] + [s[n]];
      assert k in s <==> k in s[..n] || k == s[n];
    }
  }

  /** Exchanging two elements keeps the multiset of elements. */
  lemma SwapMultiset<T>(s: seq<T>, i: nat, j: nat)
    requires i < |s| && j < |s|
    ensures multiset(s[i := s[j]][j := s[i]]) == multiset(s)
  {
    if i != j {
      calc {
        multiset(s[i := s[j]][j := s[i]]);
        multiset(s[i := s[j]]) - multiset{s[j]} + multiset{s[i]};
        multiset(s) - multiset{s[i]} + multiset{s[j]} - multiset{s[j]} + multiset{s[i]};
      }
    }
  }
}
