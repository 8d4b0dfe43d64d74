/**
 * `encode_data` of compressor3.py (lines 31-48): every byte `x` becomes
 * `freq - 1` one-bits, a zero-bit, and the 8-bit big-endian value
 * `mult_table[freq - 1][x % base_size]`, where `freq = freq_table[x]`;
 * the codes are concatenated in input order.
 */
module Encoder {
  import opened Util
  import opened FreqTables
  import opened MultTables

  /** The code of one byte: `ones` one-bits, a zero-bit, then `value` in 8 bits. */
  datatype Code = Code(ones: nat, value: nat)

  /** `'1' * k`. */
  function Ones(k: nat): (b: seq<bool>)
    ensures |b| == k && forall i :: 0 <= i < k ==> b[i]
  {
    seq(k, _ => true)
  }

  /** The low `w` bits of `v`, most significant first (`to_bytes(1, 'big')` when w == 8). */
  function BitsOf(v: nat, w: nat): (b: seq<bool>)
    ensures |b| == w
  {
    if w == 0 then [] else BitsOf(v / 2, w - 1) + [v % 2 == 1]
  }

  /** The number a bit string denotes, most significant bit first. */
  function ValueOf(b: seq<bool>): (v: nat)
  {
    if |b| == 0 then 0 else 2 * ValueOf(b[..|b| - 1]) + (if b[|b| - 1] then 1 else 0)
  }

  function Pow2(w: nat): (p: nat)
    ensures p >= 1
  {
    if w == 0 then 1 else 2 * Pow2(w - 1)
  }

  /** Reading back the bits of a value that fits in `w` bits gives the value. */
  lemma {:induction false} BitsRoundTrip(v: nat, w: nat)
    requires v < Pow2(w)
    ensures ValueOf(BitsOf(v, w)) == v
    decreases w
  {
    if w > 0 {
      BitsRoundTrip(v / 2, w - 1);
      var b := BitsOf(v, w);
      assert b[..w - 1] == BitsOf(v / 2, w - 1);
    }
  }

  /** The bits of one code. */
  function CodeBits(c: Code): (b: seq<bool>)
    ensures |b| == c.ones + 9
  {
    Ones(c.ones) + [false] + BitsOf(c.value, 8)
  }

  /** The codes one after another, in order. */
  function Bits(cs: seq<Code>): (b: seq<bool>)
  {
    if |cs| == 0 then [] else Bits(cs[..|cs| - 1]) + CodeBits(cs[|cs| - 1])
  }

  /** Python's `s[i]` on a sequence of length n: a negative index counts from the end. */
  function PyIndex(i: int, n: nat): (r: Option<nat>)
    ensures r.Some? ==> r.value < n
    ensures 0 <= i < n ==> r == Some(i)
  {
    if 0 <= i < n then Some(i) else if -(n as int) <= i < 0 then Some(i + n) else None
  }

  /**
   * The code of byte `x` (lines 35-43), or the exception raised on the way:
   * KeyError for a byte that is no key (line 35), IndexError for a row or
   * column outside the matrix (lines 36-37), ZeroDivisionError for
   * `x % 0` (line 37), OverflowError for a value `to_bytes(1)` cannot hold (line 43).
   */
  function SymbolCode(x: nat, t: FreqTable, c: seq<seq<int>>, base: nat): (r: Result<Code>)
    requires |t.keys| == |t.counts|
  {
    match Lookup(t, x)
    case None => Err(UnknownSymbol(x))
    case Some(freq) =>
      match PyIndex(freq - 1, |c|)
      case None => Err(IndexOutOfRange)
      case Some(row) =>
        if base == 0 then Err(ZeroDivision)
        else
          match PyIndex(x % base, |c[row]|)
          case None => Err(IndexOutOfRange)
          case Some(col) =>
            var v := c[row][col];
            if v < 0 || v > 255 then Err(ValueTooWide(v))
            else Ok(Code(if freq == 0 then 0 else freq - 1, v))
  }

  /** The codes of `data`, or the first exception, in input order. */
  function Codes(data: seq<nat>, t: FreqTable, c: seq<seq<int>>, base: nat): (r: Result<seq<Code>>)
    requires |t.keys| == |t.counts|
    ensures r.Ok? ==> |r.value| == |data|
  {
    if |data| == 0 then Ok([])
    else
      match Codes(data[..|data| - 1], t, c, base)
      case Err(e) => Err(e)
      case Ok(cs) =>
        match SymbolCode(data[|data| - 1], t, c, base)
        case Err(e) => Err(e)
        case Ok(code) => Ok(cs + [code])
  }

  /** `encode_data(data, freq_table, mult_table, base_size)` on the value of the matrix. */
  function Encoding(data: seq<nat>, t: FreqTable, c: seq<seq<int>>, base: nat): (r: Result<seq<bool>>)
    requires |t.keys| == |t.counts|
  {
    match Codes(data, t, c, base)
    case Err(e) => Err(e)
    case Ok(cs) => Ok(Bits(cs))
  }

  /**
   * The encoder succeeds exactly when every byte has a code, and then the
   * codes are those of the bytes, position by position.
   */
  lemma {:induction false} CodesPerByte(data: seq<nat>, t: FreqTable, c: seq<seq<int>>, base: nat)
    requires |t.keys| == |t.counts|
    ensures Codes(data, t, c, base).Ok? <==> forall k :: 0 <= k < |data| ==> SymbolCode(data[k], t, c, base).Ok?
    ensures Codes(data, t, c, base).Ok? ==> forall k :: 0 <= k < |data| ==>
      Codes(data, t, c, base).value[k] == SymbolCode(data[k], t, c, base).value
    decreases |data|
  {
    if |data| > 0 {
      var n := |data| - 1;
      CodesPerByte(data[..n], t, c, base);
      assert forall k :: 0 <= k < n ==> data[..n][k] == data[k];
    }
  }

  /**
   * The conditions under which one byte encodes, for the square tables the
   * optimiser works with and counts that are all at least 1: the byte is a
   * key, its count is at most `base_size`, and the selected cell fits in a
   * byte. Its code is then `freq - 1` ones and that cell.
   */
  lemma SymbolCodeOk(x: nat, t: FreqTable, c: seq<seq<int>>, base: nat)
    requires |t.keys| == |t.counts| && Square(c, base)
    requires forall p :: 0 <= p < |t.counts| ==> t.counts[p] >= 1
    ensures SymbolCode(x, t, c, base).Ok? <==>
      && Lookup(t, x).Some?
      && Lookup(t, x).value <= base
      && 0 <= c[Lookup(t, x).value - 1][x % base] <= 255
    ensures SymbolCode(x, t, c, base).Ok? ==>
      SymbolCode(x, t, c, base).value == Code(Lookup(t, x).value - 1, c[Lookup(t, x).value - 1][x % base])
  {
  }

  lemma LeadingOnesOf(k: nat, rest: seq<bool>)
    ensures LeadingOnes(Ones(k) + [false] + rest) == k
    decreases k
  {
    if k > 0 {
      assert (Ones(k) + [false] + rest)[1..] == Ones(k - 1) + [false] + rest;
      LeadingOnesOf(k - 1, rest);
    }
  }

  /** Number of one-bits before the first zero-bit. */
  function LeadingOnes(b: seq<bool>): (k: nat)
    ensures k <= |b|
  {
    if |b| == 0 || !b[0] then 0 else 1 + LeadingOnes(b[1..])
  }

  /**
   * A decoder for the bit layout: the unary prefix up to its zero-bit, then
   * eight value bits, repeated to the end. It gives back the codes, so it
   * does not need the tables.
   */
  function Parse(b: seq<bool>): (r: Option<seq<Code>>)
    decreases |b|
  {
    if |b| == 0 then Some([])
    else
      var k := LeadingOnes(b);
      if |b| < k + 9 then None
      else
        match Parse(b[k + 9..])
        case None => None
        case Some(rest) => Some([Code(k, ValueOf(b[k + 1..k + 9]))] + rest)
  }

  /** One code followed by anything parses as that code followed by the rest. */
  lemma ParseCode(c: Code, tail: seq<bool>)
    requires c.value < 256
    ensures Parse(CodeBits(c) + tail) == match Parse(tail)
      case None => None
      case Some(rest) => Some([c] + rest)
  {
    var b := CodeBits(c) + tail;
    var k := c.ones;
    LeadingOnesOf(k, BitsOf(c.value, 8) + tail);
    assert b == Ones(k) + [false] + (BitsOf(c.value, 8) + tail);
    assert b[k + 1..k + 9] == BitsOf(c.value, 8);
    assert b[k + 9..] == tail;
    assert Pow2(8) == 256;
    BitsRoundTrip(c.value, 8);
  }

  /** Codes followed by anything parse as those codes followed by the rest. */
  lemma {:induction false} ParseBits(cs: seq<Code>, tail: seq<bool>)
    requires forall k :: 0 <= k < |cs| ==> cs[k].value < 256
    ensures Parse(Bits(cs) + tail) == match Parse(tail)
      case None => None
      case Some(rest) => Some(cs + rest)
    decreases |cs|
  {
    if |cs| == 0 {
      assert Bits(cs) + tail == tail;
      match Parse(tail)
      case None =>
      case Some(rest) => assert cs + rest == rest;
    } else {
      var n := |cs| - 1;
      var last := cs[n];
      assert Bits(cs) + tail == Bits(cs[..n]) + (CodeBits(last) + tail);
      ParseCode(last, tail);
      ParseBits(cs[..n], CodeBits(last) + tail);
      match Parse(tail)
      case None =>
      case Some(rest) =>
        assert cs[..n] + ([last] + rest) == cs + rest;
    }
  }

  /** Every code the encoder produces holds a byte value. */
  lemma {:induction false} CodesAreBytes(data: seq<nat>, t: FreqTable, c: seq<seq<int>>, base: nat)
    requires |t.keys| == |t.counts|
    requires Codes(data, t, c, base).Ok?
    ensures forall k :: 0 <= k < |data| ==> Codes(data, t, c, base).value[k].value < 256
  {
    CodesPerByte(data, t, c, base);
  }

  /**
   * The output is the per-byte codes concatenated in input order: decoding
   * the bits gives back exactly the code of each byte, one per byte.
   */
  lemma EncodingDecodes(data: seq<nat>, t: FreqTable, c: seq<seq<int>>, base: nat)
    requires |t.keys| == |t.counts|
    requires Encoding(data, t, c, base).Ok?
    ensures Parse(Encoding(data, t, c, base).value) == Some(Codes(data, t, c, base).value)
    ensures |Codes(data, t, c, base).value| == |data|
  {
    var cs := Codes(data, t, c, base).value;
    CodesAreBytes(data, t, c, base);
    ParseBits(cs, []);
    assert Bits(cs) + [] == Bits(cs);
    assert cs + [] == cs;
  }

  /** Length of the codes: each contributes `ones + 9` bits. */
  function CodesLength(cs: seq<Code>): (n: nat)
  {
    if |cs| == 0 then 0 else CodesLength(cs[..|cs| - 1]) + cs[|cs| - 1].ones + 9
  }

  lemma {:induction false} BitsLength(cs: seq<Code>)
    ensures |Bits(cs)| == CodesLength(cs)
    decreases |cs|
  {
    if |cs| > 0 {
      BitsLength(cs[..|cs| - 1]);
    }
  }

  /** `sum(freq_table[x] + 8 for x in data)`. */
  function ExpectedLength(data: seq<nat>, t: FreqTable): (n: nat)
    requires |t.keys| == |t.counts|
  {
    if |data| == 0 then 0
    else ExpectedLength(data[..|data| - 1], t) + (match Lookup(t, data[|data| - 1]) case Some(f) => f case None => 0) + 8
  }

  /**
   * The bit length of an encoding: each byte contributes `freq_table[x] + 8`
   * bits (`freq - 1` ones, the zero-bit, eight value bits), when every count
   * is at least 1 as in every table the compressor builds.
   */
  lemma {:induction false} EncodingLength(data: seq<nat>, t: FreqTable, c: seq<seq<int>>, base: nat)
    requires |t.keys| == |t.counts|
    requires forall p :: 0 <= p < |t.counts| ==> t.counts[p] >= 1
    requires Encoding(data, t, c, base).Ok?
    ensures |Encoding(data, t, c, base).value| == ExpectedLength(data, t)
    decreases |data|
  {
    var cs := Codes(data, t, c, base).value;
    BitsLength(cs);
    if |data| > 0 {
      var n := |data| - 1;
      EncodingLength(data[..n], t, c, base);
      var cs0 := Codes(data[..n], t, c, base).value;
      BitsLength(cs0);
      assert cs[..n] == cs0;
      var f := Lookup(t, data[n]).value;
      var p := IndexOf(t.keys, data[n]).value;
      assert f == t.counts[p];
    }
  }

  /** Once the code of byte i fails, the whole encoding fails with its exception. */
  lemma CodesFailFrom(data: seq<nat>, i: nat, t: FreqTable, c: seq<seq<int>>, base: nat)
    requires |t.keys| == |t.counts| && i < |data|
    requires Codes(data[..i], t, c, base).Ok?
    requires SymbolCode(data[i], t, c, base).Err?
    ensures Encoding(data, t, c, base) == Err(SymbolCode(data[i], t, c, base).error)
  {
    assert data[..i + 1][..i] == data[..i];
    CodesErrExtends(data, i + 1, t, c, base);
  }

  /** An exception in a prefix is the exception of the whole encoding. */
  lemma {:induction false} CodesErrExtends(data: seq<nat>, i: nat, t: FreqTable, c: seq<seq<int>>, base: nat)
    requires |t.keys| == |t.counts| && i <= |data|
    requires Codes(data[..i], t, c, base).Err?
    ensures Codes(data, t, c, base) == Codes(data[..i], t, c, base)
    decreases |data| - i
  {
    if i < |data| {
      assert data[..i + 1][..i] == data[..i];
      CodesErrExtends(data, i + 1, t, c, base);
    } else {
      assert data[..i] == data;
    }
  }

  /** Lines 35-37 and 43 for one byte: lookup, row, column and the one-byte check. */
  method EncodeSymbol(x: nat, t: FreqTable, m: array2<int>, base: nat) returns (r: Result<Code>)
    requires |t.keys| == |t.counts|
    ensures r == SymbolCode(x, t, Cells(m), base)
  {
    var freq := Lookup(t, x);
    if freq.None? {
      return Err(UnknownSymbol(x));
    }
    var row := PyIndex(freq.value - 1, m.Length0);
    if row.None? {
      return Err(IndexOutOfRange);
    }
    if base == 0 {
      return Err(ZeroDivision);
    }
    var col := PyIndex(x % base, m.Length1);
    if col.None? {
      return Err(IndexOutOfRange);
    }
    var v := m[row.value, col.value];
    if v < 0 || v > 255 {
      return Err(ValueTooWide(v));
    }
    r := Ok(Code(if freq.value == 0 then 0 else freq.value - 1, v));
  }

  /** One more byte with a code extends the codes and the bits by that code. */
  lemma CodesStep(data: seq<nat>, i: nat, t: FreqTable, c: seq<seq<int>>, base: nat, cs: seq<Code>, code: Code)
    requires |t.keys| == |t.counts| && i < |data|
    requires Codes(data[..i], t, c, base) == Ok(cs)
    requires SymbolCode(data[i], t, c, base) == Ok(code)
    ensures Codes(data[..i + 1], t, c, base) == Ok(cs + [code])
    ensures Bits(cs + [code]) == Bits(cs) + CodeBits(code)
  {
    assert data[..i + 1][..i] == data[..i];
    assert (cs + [code])[..|cs|] == cs;
  }

  /** `encode_data` (lines 31-48): one code per byte, appended in a loop. */
  method EncodeData(data: seq<nat>, t: FreqTable, m: array2<int>, base: nat) returns (r: Result<seq<bool>>)
    requires |t.keys| == |t.counts|
    ensures r == Encoding(data, t, Cells(m), base)
  {
    ghost var c := Cells(m);
    var bits: seq<bool> := [];
    ghost var cs: seq<Code> := [];
    for i := 0 to |data|
      invariant Codes(data[..i], t, c, base) == Ok(cs)
      invariant bits == Bits(cs)
    {
      var code := EncodeSymbol(data[i], t, m, base);
      if code.Err? {
        CodesFailFrom(data, i, t, c, base);
        return Err(code.error);
      }
      bits := bits + Ones(code.value.ones);
      bits := bits + [false];
      bits := bits + BitsOf(code.value.value, 8);
      CodesStep(data, i, t, c, base, cs, code.value);
      cs := cs + [code.value];
    }
    assert data[..|data|] == data;
    r := Ok(bits);
  }
}
