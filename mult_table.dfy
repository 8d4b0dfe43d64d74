/**
 * The multiplication (substitution) table of compressor3.py: a numpy
 * `base_size x base_size` integer matrix, built by `create_mult_table` and
 * permuted in place by the optimiser's row and column swaps. The matrix is
 * an `array2<int>`; `Cells` is its value as a sequence of rows, and the
 * operations are specified by functions on that value.
 */
module MultTables {
  import opened Util

  /** The value of `create_mult_table(n)`: cell (i, j) holds (i+1)*(j+1). */
  function InitialCells(n: nat): (c: seq<seq<int>>)
  {
    seq(n, i requires 0 <= i < n => seq(n, j requires 0 <= j < n => (i + 1) * (j + 1)))
  }

  /** An `n x n` matrix. */
  predicate Square(c: seq<seq<int>>, n: nat)
  {
    |c| == n && forall r :: 0 <= r < n ==> |c[r]| == n
  }

  /** The rows of an array, top to bottom. */
  ghost function Cells(m: array2<int>): (c: seq<seq<int>>)
    reads m
    ensures |c| == m.Length0
    ensures forall i :: 0 <= i < m.Length0 ==> |c[i]| == m.Length1
    ensures forall i, j :: 0 <= i < m.Length0 && 0 <= j < m.Length1 ==> c[i][j] == m[i, j]
  {
    seq(m.Length0, i requires 0 <= i < m.Length0 reads m =>
      seq(m.Length1, j requires 0 <= j < m.Length1 reads m => m[i, j]))
  }

  /** Two arrays with the same dimensions and the same cells have the same value. */
  lemma CellsEqual(c: seq<seq<int>>, d: seq<seq<int>>)
    requires |c| == |d|
    requires forall i :: 0 <= i < |c| ==> |c[i]| == |d[i]|
    requires forall i, j :: 0 <= i < |c| && 0 <= j < |c[i]| ==> c[i][j] == d[i][j]
    ensures c == d
  {
    forall i | 0 <= i < |c|
      ensures c[i] == d[i]
    {
    }
  }

  /** `m[[i, j]] = m[[j, i]]` (line 219): rows i and j exchanged. */
  function RowSwapped(c: seq<seq<int>>, i: nat, j: nat): (r: seq<seq<int>>)
    requires i < |c| && j < |c|
  {
    c[i := c[j]][j := c[i]]
  }

  /** `m[:, [i, j]] = m[:, [j, i]]` (line 228): columns i and j exchanged in every row. */
  function ColSwapped(c: seq<seq<int>>, i: nat, j: nat): (r: seq<seq<int>>)
    requires forall row :: 0 <= row < |c| ==> i < |c[row]| && j < |c[row]|
  {
    seq(|c|, row requires 0 <= row < |c| => c[row][i := c[row][j]][j := c[row][i]])
  }

  /** A row swap exchanges rows i and j cell by cell and leaves every other cell alone. */
  lemma RowSwapCells(c: seq<seq<int>>, n: nat, i: nat, j: nat)
    requires Square(c, n) && i < n && j < n
    ensures Square(RowSwapped(c, i, j), n)
    ensures forall r, k :: 0 <= r < n && 0 <= k < n ==>
      RowSwapped(c, i, j)[r][k] == (if r == i then c[j][k] else if r == j then c[i][k] else c[r][k])
  {
  }

  /** A column swap exchanges columns i and j cell by cell and leaves every other cell alone. */
  lemma ColSwapCells(c: seq<seq<int>>, n: nat, i: nat, j: nat)
    requires Square(c, n) && i < n && j < n
    ensures Square(ColSwapped(c, i, j), n)
    ensures forall r, k :: 0 <= r < n && 0 <= k < n ==>
      ColSwapped(c, i, j)[r][k] == (if k == i then c[r][j] else if k == j then c[r][i] else c[r][k])
  {
  }

  /** Swapping the same two rows twice gives the matrix back. */
  lemma RowSwapInvolution(c: seq<seq<int>>, i: nat, j: nat)
    requires i < |c| && j < |c|
    ensures RowSwapped(RowSwapped(c, i, j), i, j) == c
  {
    var r := RowSwapped(RowSwapped(c, i, j), i, j);
    assert |r| == |c|;
    forall row | 0 <= row < |c|
      ensures r[row] == c[row]
    {
    }
  }

  /** Swapping the same two columns twice gives the matrix back. */
  lemma ColSwapInvolution(c: seq<seq<int>>, n: nat, i: nat, j: nat)
    requires Square(c, n) && i < n && j < n
    ensures ColSwapped(ColSwapped(c, i, j), i, j) == c
  {
    ColSwapCells(c, n, i, j);
    ColSwapCells(ColSwapped(c, i, j), n, i, j);
    CellsEqual(ColSwapped(ColSwapped(c, i, j), i, j), c);
  }

  /** `p` is a permutation of [0, n). */
  predicate IsPermutation(p: seq<nat>, n: nat)
  {
    && |p| == n
    && (forall k :: 0 <= k < n ==> p[k] < n)
    && (forall a, b :: 0 <= a < b < n ==> p[a] != p[b])
  }

  /** The identity permutation of [0, n). */
  function Identity(n: nat): (p: seq<nat>)
    ensures IsPermutation(p, n)
  {
    seq(n, k requires 0 <= k < n => k)
  }

  function Swap(p: seq<nat>, i: nat, j: nat): (q: seq<nat>)
    requires i < |p| && j < |p|
  {
    p[i := p[j]][j := p[i]]
  }

  /** Exchanging two entries of a permutation gives a permutation. */
  lemma SwapPermutation(p: seq<nat>, n: nat, i: nat, j: nat)
    requires IsPermutation(p, n) && i < n && j < n
    ensures IsPermutation(Swap(p, i, j), n)
  {
    var s := Swap(p, i, j);
    forall a, b | 0 <= a < b < n
      ensures s[a] != s[b]
    {
      var a' := if a == i then j else if a == j then i else a;
      var b' := if b == i then j else if b == j then i else b;
      assert s[a] == p[a'] && s[b] == p[b'];
      assert a' != b';
      if a' < b' {
        assert p[a'] != p[b'];
      } else {
        assert p[b'] != p[a'];
      }
    }
  }

  /** Cell (r, k) of `c` is (p[r]+1)*(q[k]+1): the initial table with rows and columns relabelled. */
  ghost predicate ProductForm(c: seq<seq<int>>, p: seq<nat>, q: seq<nat>)
  {
    && |q| == |p|
    && Square(c, |p|)
    && forall r, k :: 0 <= r < |p| && 0 <= k < |p| ==> c[r][k] == (p[r] + 1) * (q[k] + 1)
  }

  /** The shape every table the optimiser can reach has. */
  ghost predicate PermutedProducts(c: seq<seq<int>>, n: nat)
  {
    exists p, q :: IsPermutation(p, n) && IsPermutation(q, n) && ProductForm(c, p, q)
  }

  /** The fresh table is the product table with both permutations the identity. */
  lemma InitialForm(n: nat)
    ensures ProductForm(InitialCells(n), Identity(n), Identity(n))
    ensures PermutedProducts(InitialCells(n), n)
  {
  }

  /** A row swap keeps the product shape, with the row permutation swapped. */
  lemma RowSwapForm(c: seq<seq<int>>, p: seq<nat>, q: seq<nat>, i: nat, j: nat)
    requires ProductForm(c, p, q) && i < |p| && j < |p|
    ensures ProductForm(RowSwapped(c, i, j), Swap(p, i, j), q)
  {
    RowSwapCells(c, |p|, i, j);
  }

  /** A column swap keeps the product shape, with the column permutation swapped. */
  lemma ColSwapForm(c: seq<seq<int>>, p: seq<nat>, q: seq<nat>, i: nat, j: nat)
    requires ProductForm(c, p, q) && i < |p| && j < |p|
    ensures ProductForm(ColSwapped(c, i, j), p, Swap(q, i, j))
  {
    ColSwapCells(c, |p|, i, j);
  }

  /** Either swap keeps "rows and columns of the product table, each permuted". */
  lemma SwapsKeepPermutedProducts(c: seq<seq<int>>, n: nat, i: nat, j: nat)
    requires PermutedProducts(c, n) && i < n && j < n
    ensures PermutedProducts(RowSwapped(c, i, j), n)
    ensures PermutedProducts(ColSwapped(c, i, j), n)
  {
    var p, q :| IsPermutation(p, n) && IsPermutation(q, n) && ProductForm(c, p, q);
    RowSwapForm(c, p, q, i, j);
    ColSwapForm(c, p, q, i, j);
    SwapPermutation(p, n, i, j);
    SwapPermutation(q, n, i, j);
  }

  /** All cells, rows one after another (numpy `flatten`). */
  function Flatten(c: seq<seq<int>>): (f: seq<int>)
  {
    if |c| == 0 then [] else Flatten(c[..|c| - 1]) + c[|c| - 1]
  }

  lemma {:induction false} FlattenLength(c: seq<seq<int>>, n: nat)
    requires forall r :: 0 <= r < |c| ==> |c[r]| == n
    ensures |Flatten(c)| == |c| * n
    decreases |c|
  {
    if |c| > 0 {
      FlattenLength(c[..|c| - 1], n);
    }
  }

  /** Replacing one row changes the cell multiset by exactly that row. */
  lemma {:induction false} FlattenUpdate(c: seq<seq<int>>, i: nat, x: seq<int>)
    requires i < |c|
    ensures multiset(Flatten(c[i := x])) + multiset(c[i]) == multiset(Flatten(c)) + multiset(x)
    decreases |c|
  {
    var n := |c| - 1;
    var d := c[i := x];
    assert Flatten(c) == Flatten(c[..n]) + c[n];
    assert Flatten(d) == Flatten(d[..n]) + d[n];
    if i == n {
      assert d[..n] == c[..n];
    } else {
      assert d[..n] == c[..n][i := x];
      FlattenUpdate(c[..n], i, x);
      assert c[..n][i] == c[i];
      var fd, fc := multiset(Flatten(d[..n])), multiset(Flatten(c[..n]));
      assert fd + multiset(c[i]) == fc + multiset(x);
      assert multiset(Flatten(d)) == fd + multiset(c[n]);
      assert multiset(Flatten(c)) == fc + multiset(c[n]);
      var lhs, rhs := multiset(Flatten(d)) + multiset(c[i]), multiset(Flatten(c)) + multiset(x);
      forall o
        ensures lhs[o] == rhs[o]
      {
        assert (fd + multiset(c[i]))[o] == (fc + multiset(x))[o];
      }
      assert lhs == rhs;
    }
  }

  /** A row swap keeps the multiset of all cell values. */
  lemma RowSwapMultiset(c: seq<seq<int>>, i: nat, j: nat)
    requires i < |c| && j < |c|
    ensures multiset(Flatten(RowSwapped(c, i, j))) == multiset(Flatten(c))
  {
    var c1 := c[i := c[j]];
    FlattenUpdate(c, i, c[j]);
    FlattenUpdate(c1, j, c[i]);
    assert c1[j] == c[j];
    var a, b, f, f1, f2 := multiset(c[i]), multiset(c[j]), multiset(Flatten(c)), multiset(Flatten(c1)), multiset(Flatten(RowSwapped(c, i, j)));
    assert f1 + a == f + b;
    assert f2 + b == f1 + a;
    forall o
      ensures f2[o] == f[o]
    {
      assert (f1 + a)[o] == (f + b)[o];
      assert (f2 + b)[o] == (f1 + a)[o];
    }
    assert f2 == f;
  }

  /** A column swap keeps the multiset of all cell values. */
  lemma {:induction false} ColSwapMultiset(c: seq<seq<int>>, i: nat, j: nat)
    requires forall row :: 0 <= row < |c| ==> i < |c[row]| && j < |c[row]|
    ensures multiset(Flatten(ColSwapped(c, i, j))) == multiset(Flatten(c))
    decreases |c|
  {
    if |c| > 0 {
      var n := |c| - 1;
      var s := ColSwapped(c, i, j);
      assert s[..n] == ColSwapped(c[..n], i, j);
      ColSwapMultiset(c[..n], i, j);
      var row := c[n];
      assert s[n] == row[i := row[j]][j := row[i]];
      SwapMultiset(row, i, j);
      assert Flatten(s) == Flatten(s[..n]) + s[n];
      assert Flatten(c) == Flatten(c[..n]) + c[n];
    }
  }

  /** `create_mult_table(n)` (lines 23-29): an n x n zero matrix filled row by row. */
  method CreateMultTable(n: nat) returns (m: array2<int>)
    ensures fresh(m)
    ensures m.Length0 == n && m.Length1 == n
    ensures Cells(m) == InitialCells(n)
  {
    m := new int[n, n];
    for i := 0 to n
      invariant forall r, k :: 0 <= r < i && 0 <= k < n ==> m[r, k] == (r + 1) * (k + 1)
    {
      for j := 0 to n
        invariant forall r, k :: 0 <= r < i && 0 <= k < n ==> m[r, k] == (r + 1) * (k + 1)
        invariant forall k :: 0 <= k < j ==> m[i, k] == (i + 1) * (k + 1)
      {
        m[i, j] := (i + 1) * (j + 1);
      }
    }
    CellsEqual(Cells(m), InitialCells(n));
  }

  /** numpy `copy()`: a new array holding the same cells. */
  method CopyMatrix(m: array2<int>) returns (c: array2<int>)
    ensures fresh(c)
    ensures c.Length0 == m.Length0 && c.Length1 == m.Length1
    ensures Cells(c) == Cells(m)
  {
    c := new int[m.Length0, m.Length1];
    for i := 0 to m.Length0
      invariant forall r, k :: 0 <= r < i && 0 <= k < m.Length1 ==> c[r, k] == m[r, k]
    {
      for j := 0 to m.Length1
        invariant forall r, k :: 0 <= r < i && 0 <= k < m.Length1 ==> c[r, k] == m[r, k]
        invariant forall k :: 0 <= k < j ==> c[i, k] == m[i, k]
      {
        c[i, j] := m[i, j];
      }
    }
    CellsEqual(Cells(c), Cells(m));
  }

  /** Exchange rows i and j of `m` in place, one column at a time. */
  method SwapRows(m: array2<int>, i: nat, j: nat)
    requires i < m.Length0 && j < m.Length0
    modifies m
    ensures Cells(m) == RowSwapped(old(Cells(m)), i, j)
  {
    ghost var c := Cells(m);
    for k := 0 to m.Length1
      invariant forall r, col :: 0 <= r < m.Length0 && 0 <= col < m.Length1 ==>
        m[r, col] == (if col < k then RowSwapped(c, i, j)[r][col] else c[r][col])
    {
      m[i, k], m[j, k] := m[j, k], m[i, k];
    }
    CellsEqual(Cells(m), RowSwapped(c, i, j));
  }

  /** Exchange columns i and j of `m` in place, one row at a time. */
  method SwapColumns(m: array2<int>, i: nat, j: nat)
    requires i < m.Length1 && j < m.Length1
    modifies m
    ensures Cells(m) == ColSwapped(old(Cells(m)), i, j)
  {
    ghost var c := Cells(m);
    for r := 0 to m.Length0
      invariant forall row, col :: 0 <= row < m.Length0 && 0 <= col < m.Length1 ==>
        m[row, col] == (if row < r then ColSwapped(c, i, j)[row][col] else c[row][col])
    {
      m[r, i], m[r, j] := m[r, j], m[r, i];
    }
    CellsEqual(Cells(m), ColSwapped(c, i, j));
  }

  /** numpy `flatten()` (line 258): the cells row by row. */
  method FlattenMatrix(m: array2<int>) returns (f: seq<int>)
    ensures f == Flatten(Cells(m))
  {
    ghost var c := Cells(m);
    f := [];
    for i := 0 to m.Length0
      invariant f == Flatten(c[..i])
    {
      for j := 0 to m.Length1
        invariant f == Flatten(c[..i]) + c[i][..j]
      {
        f := f + [m[i, j]];
        assert c[i][..j + 1] == c[i][..j] + [c[i][j]];
      }
      assert c[i][..m.Length1] == c[i];
      assert c[..i + 1][..i] == c[..i];
    }
    assert c[..m.Length0] == c;
  }
}
