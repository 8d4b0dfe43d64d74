# variable_base_compressor: codec and optimiser

This is a Dafny model of the compression core of `compressor3.py`. The model has these parts:

- The frequency table: the GCD of all values, then a count of each value divided by that GCD.
- The `base_size × base_size` product matrix.
- The variable-length encoder. For each byte it emits `freq - 1` one-bits, a zero-bit, and the byte `mult_table[freq - 1][x % base_size]`.
- The four neighbour moves: swap two keys, swap two values, swap two rows, swap two columns.
- The compressed-size cost.
- The hill-climbing loop of `compress_dir`.
- The base-size heuristic around that loop.

The modules follow the program's parts:

- `Util`: Python exceptions as a `Result`, plus sums and counts.
- `Number`: `math.gcd`.
- `FreqTables`: `create_freq_table`, and the key and value swaps.
- `MultTables`: `create_mult_table` over an `array2`, plus the row and column swaps.
- `Encoder`: `encode_data`.
- `Optimizer`: the moves, the cost and the search loop.
- `Pipeline`: the base size and `compress_dir`.

Some code updates state in a loop or in place. That code is written as methods over arrays and sequences:

- `create_freq_table`, `create_mult_table` and `encode_data`.
- The numpy row and column swaps.
- The search loop, with its copies of the matrix.

Each method is proved equal to a function on values. The properties are then proved about those functions.

How the model represents the program:

- **Dict.** A Python dict keeps insertion order, so it is modelled as a key list and a count list.
- **Matrix.** The numpy matrix is an `array2<int>` in methods. Its abstract value is its rows, as `seq<seq<int>>`.
- **Exceptions.** Every exception of the reading modelled here is an `Err` value (see "Left out" for the lines read charitably):
  - `KeyError` at line 35;
  - numpy `IndexError` at lines 36-37;
  - `ZeroDivisionError` from `x % 0` or `x // 0`;
  - `OverflowError` from `to_bytes(1, ...)`;
  - `ValueError` from `max([])` or `random.sample`.
- **Random choices.** These are inputs. A `Draw` carries the move kind and two raw numbers. `PickPair` maps the two numbers to two distinct indices, and every such pair is reachable.
- **Ratios.** These are exact rationals (`real`).
- **Standard deviation.** `math.sqrt` is replaced by a parameter `std >= 0`. The mean is computed exactly.

Three behaviours of the code are easy to miss, and the model proves each:

- **Base can be 1.** The comment at line 135 says the base is reduced to a quarter of the total size "or 2, whichever is larger", which suggests a floor of 2. That rule only fires when the base exceeds `total_size / 4`. Four copies of one value give range 1 and base 1 (`Pipeline.BaseSizeCanBeOne`).
- **Streams written out.** The comment at line 261 says the data is encoded "using the best frequency table". But line 233 reassigns `encoded_data_list` on every iteration, accepted or not, and lines 263-264 write that list. See Findings.
- **The GCD is not applied when encoding.** Take two files `[10,10,20,30]` and `[10,20,20]`. The heuristic reaches base 2 (`Pipeline.TwoFileSetup`). But the GCD is 10, the table is keyed by the quotients (line 20), and the encoder looks up the raw byte (line 35). So the first iteration raises `KeyError` on the byte 10 (`Pipeline.TwoFileFails`). Whenever the GCD exceeds 1 the run always fails (`Pipeline.GcdAboveOneFails`), because the largest value is never a key. Which exception comes first depends on the data and the first draw. It can be `ValueError` from a move that cannot pick two indices, `KeyError` on a byte that is not a key, or `IndexError` on a key whose count exceeds the base.

## Model

| member | source | states |
|---|---|---|
| Number.Gcd | compressor3.py:18 | `math.gcd` of two values, with gcd(a, 0) == a; `Number.GcdDivides`, `Number.GcdGreatest` and `Number.GcdZero` give its properties |
| Number.GcdDivides | compressor3.py:18 | the GCD of two values divides both |
| Number.GcdGreatest | compressor3.py:18 | every positive common divisor of two values divides their GCD |
| Number.GcdZero | compressor3.py:18 | the GCD of two values is 0 exactly when both are 0 |
| Number.GcdSeq | compressor3.py:18 | `math.gcd(*data)` as a left fold of `math.gcd`; the three lemmas below prove it is the greatest common divisor of the values, and 0 exactly when every value is 0 or there are none |
| Number.GcdSeqDivides | compressor3.py:18 | `common_denom` divides every value |
| Number.GcdSeqGreatest | compressor3.py:18 | every common divisor of the values divides `common_denom` |
| Number.GcdSeqZero | compressor3.py:18 | `common_denom` is 0 exactly when every value is 0 |
| FreqTables.CreateFreqTable | compressor3.py:15-21 | raises ZeroDivision exactly when the data is non-empty and all zero; also returns the GCD; the table is the left-to-right count of the quotients (empty for empty data) |
| FreqTables.Lookup | compressor3.py:35 | `freq_table[x]`, or nothing when `x` is not a key; `FreqTables.LookupAt`, `FreqTables.BumpLookup` and `FreqTables.TallyCount` say what it finds |
| FreqTables.LookupAt | compressor3.py:35 | in a table with distinct keys, the key at any position looks up the count at that position |
| FreqTables.Quotients | compressor3.py:20 | the symbols `x // common_denom` in data order, one per value; `FreqTables.QuotientsRecover` shows each times the GCD gives the value back |
| FreqTables.Bump | compressor3.py:20 | one `freq_table[k] = freq_table.get(k, 0) + 1`: a present key keeps its place and gains one, a new key goes last with count 1, every other entry is unchanged (`FreqTables.BumpLookup`) |
| FreqTables.Tally | compressor3.py:19-20 | the dict the loop builds, in first-seen order; `FreqTables.TallyWf` and `FreqTables.TallyCount` prove distinct keys, counts of at least 1, and each key's count equal to its number of occurrences |
| FreqTables.BumpLookup | compressor3.py:20 | `get(k, 0) + 1` adds one to the bumped key's count, or gives it 1 if new, and leaves every other key's count unchanged |
| FreqTables.TallyWf | compressor3.py:19-20 | the counted table has distinct keys, one count per key, and every count at least 1 |
| FreqTables.TallyCount | compressor3.py:19-20 | `k` is a key exactly when it occurs among the counted symbols, and its count is the number of occurrences |
| FreqTables.TallySum | compressor3.py:19-20 | the counts of the table add up to the number of symbols counted |
| FreqTables.FreqTableCounts | compressor3.py:15-21 | counts sum to `len(data)`; each value is `(x // g) * g`; each key's count is the number of values with `x // g == k` |
| FreqTables.QuotientsRecover | compressor3.py:18-20 | multiplying a quotient by the GCD gives the original value back |
| FreqTables.SwapKeys | compressor3.py:186-195 | `dict(zip(keys, values))` after two keys trade places; the result is a well-formed table, and its effect on the mapping is given by `FreqTables.SwapKeysProperties` |
| FreqTables.SwapValues | compressor3.py:201-210 | `dict(zip(keys, values))` after two values trade places; the result is a well-formed table, and its effect on the mapping is given by `FreqTables.SwapValuesProperties` |
| FreqTables.SwapKeysProperties | compressor3.py:186-195 | after a key swap, `keys[i]` maps to the old count of `keys[j]` and the reverse; other keys keep their counts; the key multiset, count multiset and count sum are unchanged; positions i and j trade keys |
| FreqTables.SwapValuesProperties | compressor3.py:201-210 | after a value swap, key `keys[i]` gets the old count of `keys[j]` and the reverse; other keys keep their counts; the key order, count multiset and count sum are unchanged |
| FreqTables.SwapsAgree | compressor3.py:186-210 | both swaps give the same key-to-count mapping; they differ only in key order |
| MultTables.InitialCells | compressor3.py:23-29 | the value of the filled numpy matrix; `MultTables.CreateMultTable` fills an array with it, and `MultTables.InitialForm` shows it is the product form with identity permutations |
| MultTables.CreateMultTable | compressor3.py:23-29 | a fresh `n × n` array whose cell (i, j) is `(i+1)*(j+1)` |
| MultTables.InitialForm | compressor3.py:23-29 | the fresh matrix is the product table with both permutations equal to the identity |
| MultTables.CopyMatrix | compressor3.py:167 | numpy `copy()` gives a fresh array with the same dimensions and cells |
| MultTables.SwapRows | compressor3.py:219 | the array's new cells are the old cells with rows i and j exchanged |
| MultTables.SwapColumns | compressor3.py:228 | the array's new cells are the old cells with columns i and j exchanged |
| MultTables.RowSwapped | compressor3.py:219 | `m[[i, j]] = m[[j, i]]` on the matrix's value; `MultTables.RowSwapCells`, `MultTables.RowSwapInvolution` and `MultTables.RowSwapMultiset` give its cells, its inverse and its multiset |
| MultTables.ColSwapped | compressor3.py:228 | `m[:, [i, j]] = m[:, [j, i]]` on the matrix's value; `MultTables.ColSwapCells`, `MultTables.ColSwapInvolution` and `MultTables.ColSwapMultiset` give its cells, its inverse and its multiset |
| MultTables.RowSwapCells | compressor3.py:219 | a row swap moves row j to row i and row i to row j; every other cell is unchanged; the matrix stays square |
| MultTables.ColSwapCells | compressor3.py:228 | a column swap moves column j to column i and column i to column j; every other cell is unchanged; the matrix stays square |
| MultTables.RowSwapInvolution | compressor3.py:219 | a row swap applied twice restores the matrix |
| MultTables.ColSwapInvolution | compressor3.py:228 | a column swap applied twice restores the matrix |
| MultTables.SwapsKeepPermutedProducts | compressor3.py:216-228 | a matrix of the form `(p(r)+1)*(q(c)+1)`, for permutations p and q of `[0, base)`, keeps that form after any row or column swap |
| MultTables.RowSwapMultiset | compressor3.py:219 | a row swap keeps the multiset of cells |
| MultTables.ColSwapMultiset | compressor3.py:228 | a column swap keeps the multiset of cells |
| MultTables.Flatten | compressor3.py:258 | `flatten()` on the matrix's value; `MultTables.FlattenMatrix` reads it off the array row by row, and a square `n × n` matrix flattens to `n * n` cells |
| MultTables.FlattenLength | compressor3.py:258 | a matrix of rows of length `n` flattens to `rows × n` cells |
| MultTables.FlattenMatrix | compressor3.py:258 | `flatten()` lists the cells row by row |
| Encoder.Ones | compressor3.py:41 | `'1' * k` is `k` bits, all of them one |
| Encoder.BitsOf | compressor3.py:43 | `to_bytes(1, 'big')` as `w` bits, most significant first; `Encoder.BitsRoundTrip` reads them back as the value |
| Encoder.CodeBits | compressor3.py:40-43 | one byte's bits: `ones` one-bits, a zero-bit and 8 value bits, so `ones + 9` in all; `Encoder.ParseCode` reads them back |
| Encoder.Bits | compressor3.py:46 | the codes' bits extended one after another; `Encoder.BitsLength` gives the length and `Encoder.ParseBits` reads the codes back |
| Encoder.PyIndex | compressor3.py:36-37 | numpy's index into a row or the matrix: a found index is below the length, a non-negative index below the length is itself, and a negative one counts from the end |
| Encoder.BitsRoundTrip | compressor3.py:43 | the eight big-endian bits of a byte read back as that byte |
| Encoder.SymbolCode | compressor3.py:35-43 | one byte's code or exception; `Encoder.SymbolCodeOk` gives the exact condition for a code, and `Encoder.EncodeSymbol` computes it from the array |
| Encoder.EncodeSymbol | compressor3.py:35-43 | one byte's code, or the exception: KeyError, then row IndexError (with Python's negative indexing), then modulo by zero, then column IndexError, then a value outside one byte |
| Encoder.Encoding | compressor3.py:31-48 | `encode_data` on values; `Encoder.CodesPerByte`, `Encoder.CodesFailFrom`, `Encoder.EncodingDecodes` and `Encoder.EncodingLength` give when it succeeds, its first exception, its decoding and its length |
| Encoder.Codes | compressor3.py:34-43 | the per-byte codes in data order, or the first byte's exception; a success has one code per byte |
| Encoder.CodesPerByte | compressor3.py:34-46 | the encoding succeeds exactly when every byte has a code; the codes are then the bytes' codes, in input order |
| Encoder.SymbolCodeOk | compressor3.py:35-43 | for a square matrix and counts ≥ 1, a byte encodes exactly when it is a key, its count is at most `base_size`, and the selected cell is in `[0, 255]`; its code is `freq - 1` ones and that cell |
| Encoder.CodesFailFrom | compressor3.py:34-46 | the first byte without a code ends the encoding with that byte's exception |
| Encoder.ParseCode | compressor3.py:40-43 | one byte's bits followed by anything parse as that code followed by whatever the rest parses to |
| Encoder.ParseBits | compressor3.py:39-46 | any run of byte-valued codes followed by anything parses as those codes followed by whatever the rest parses to |
| Encoder.BitsLength | compressor3.py:39-46 | the bits of the codes are as long as the sum of `ones + 9` over the codes |
| Encoder.EncodingDecodes | compressor3.py:39-46 | reading the bit stream back, by counting the ones, skipping the zero and taking 8 bits, gives exactly the per-byte codes |
| Encoder.EncodingLength | compressor3.py:34-46 | each byte contributes `freq_table[x] + 8` bits, so the length is the sum of these over the data |
| Encoder.EncodeData | compressor3.py:31-48 | the loop's bit array equals the concatenated per-byte codes, or the first exception |
| Optimizer.PickPair | compressor3.py:189 | `random.sample(range(n), 2)` gives two distinct indices below n; it raises ValueError exactly when n < 2 |
| Optimizer.PickPairReaches | compressor3.py:204 | every pair of distinct indices below n can be drawn |
| Optimizer.Neighbor | compressor3.py:175-228 | a candidate keeps a well-formed table and a square `base × base` matrix; the only possible exception is ValueError |
| Optimizer.NeighborPreserves | compressor3.py:186-228 | a move keeps the key multiset, the count multiset, the count sum and the permuted-product form |
| Optimizer.ApplyMove | compressor3.py:175-228 | the in-place move on the copied matrix yields the candidate of `Neighbor`, or its ValueError with the matrix untouched |
| Optimizer.StreamBytes | compressor3.py:237 | the bytes charged for one stream; `Optimizer.StreamBytesIsCeiling` shows it is `ceil(bits / 8)` |
| Optimizer.StreamBytesIsCeiling | compressor3.py:237 | a stream's byte count is `ceil(bits / 8)` |
| Optimizer.TotalStreamBytes | compressor3.py:237 | the sum of `StreamBytes` over the streams; `Optimizer.CompressedSize` bounds the size below by it, and `Pipeline.HeaderIsOverhead` splits the size into it plus the header's length |
| Optimizer.CompressedSize | compressor3.py:237 | the size is at least 2, and at least the streams' bytes, so the ratio is defined |
| Optimizer.Ratio | compressor3.py:238 | the ratio is non-negative, and ratio × size equals `total_size` |
| Optimizer.RatioDecreases | compressor3.py:238 | a larger compressed size gives a strictly smaller ratio |
| Optimizer.EncodeAll | compressor3.py:233 | the comprehension over the files; a success holds one stream per file, and `Optimizer.EncodeAllPerFile` and `Optimizer.EncodeAllFailsFrom` give each file's stream and the first exception |
| Optimizer.EncodeAllPerFile | compressor3.py:233 | all files encode exactly when each does, and the list holds each file's own encoding |
| Optimizer.EncodeAllFailsFrom | compressor3.py:233 | the files are encoded in order: the first file that does not encode gives its exception to the whole list |
| Optimizer.EncodeFiles | compressor3.py:233 | the per-file loop equals the list of encodings, or the first exception |
| Optimizer.Start | compressor3.py:155-167 | `best_ratio = 0`, `ratios = []` and copies of the initial tables; `Optimizer.FirstAccepted` shows the first candidate always replaces them |
| Optimizer.Step | compressor3.py:170-252 | one iteration keeps valid tables; `Optimizer.StepAccepts` gives its accept rule and its effect on the state |
| Optimizer.Run | compressor3.py:170-252 | the loop over the draws keeps valid tables; `Optimizer.RunRatios`, `Optimizer.RunBestIsMax`, `Optimizer.RunPreserves` and `Optimizer.RunFails` give its ratios, its best ratio, its invariant and its first exception, and `Optimizer.Optimize` computes it on arrays |
| Optimizer.StepAccepts | compressor3.py:242-252 | each iteration appends its ratio. When the ratio is ≥ the best so far, the candidate becomes current and the best becomes the ratio. Otherwise the tables and the best are unchanged. The candidate's streams are kept either way |
| Optimizer.RunRatios | compressor3.py:170-242 | after the loop `len(ratios)` equals the number of iterations |
| Optimizer.RunBestIsMax | compressor3.py:155-248 | `best_ratio` is ≥ 0 and ≥ every recorded ratio; it is one of them after at least one iteration, and 0 before |
| Optimizer.RunBestMonotone | compressor3.py:246-248 | `best_ratio` after any earlier iteration is at most `best_ratio` after a later one |
| Optimizer.FirstAccepted | compressor3.py:155-252 | the first candidate is always accepted |
| Optimizer.RunPrefix | compressor3.py:170-252 | a successful run has run each of its prefixes successfully |
| Optimizer.RunFails | compressor3.py:170-252 | an exception in some iteration is the exception of the whole run |
| Optimizer.RunPreserves | compressor3.py:165-252 | the current tables always keep the initial key multiset, count multiset, count sum and permuted-product form |
| Optimizer.LastStreamsAreLastCandidate | compressor3.py:233 | the streams the loop leaves behind are the encodings under the last candidate, accepted or not |
| Optimizer.LastStreamsMismatch | compressor3.py:233-264 | for the file `[0, 0, 1, 2, 3, 4, 5]` with table `{0: 2, 1..5: 1}`, base 2 and every draw the value swap of positions 0 and 5, after any number of iterations from 2 on, the current tables are the swapped ones and the streams left behind are not their encodings |
| Optimizer.EmittedMatchesTables | compressor3.py:246-258 | the streams of the last accepted candidate are the encodings of all files under the final current tables |
| Optimizer.Optimize | compressor3.py:155-252 | the loop, with its fresh copies of the matrix, returns `best_ratio`, `ratios`, the current table, both stream lists and a fresh matrix holding the current cells, exactly as the search function does, or its exception |
| Pipeline.Max | compressor3.py:109 | `max` of a non-empty list is an element and bounds every element |
| Pipeline.Min | compressor3.py:111 | `min` of a non-empty list is an element and is bounded by every element |
| Pipeline.Mean | compressor3.py:115 | the mean times the number of values is their sum |
| Pipeline.InitialBase | compressor3.py:121 | the initial base is `min(256, max - min + 1)`, between 1 and 256 |
| Pipeline.CappedBase | compressor3.py:125-128 | low variability lowers the base to at most `mean + std`, otherwise leaves it |
| Pipeline.QuarterBase | compressor3.py:132-135 | a base above `total_size / 4` becomes `max(2, total_size // 4)`, otherwise is kept |
| Pipeline.BaseSize | compressor3.py:121-139 | the heuristic with line 139's `int()`; `Pipeline.BaseSizeBounds` and `Pipeline.BaseSizeCanBeOne` give its bounds and show it can be 1 |
| Pipeline.BaseSizeBounds | compressor3.py:121-139 | the final base is at most 256 and at most `max(2, range)`. It is `max(2, total_size // 4)` when the quarter rule fires, and at most `min(256, range)` otherwise |
| Pipeline.BaseSizeCanBeOne | compressor3.py:121-139 | four copies of one value give base 1, so a lower bound of 2 does not hold |
| Util.Concat | compressor3.py:145 | `[x for data in data_list for x in data]`: the files' values in order; `Util.ConcatLength` and `Pipeline.ConcatMember` give its length and its members |
| Util.ConcatLength | compressor3.py:145 | the pooled data is as long as the sum of the file lengths |
| Pipeline.ConcatMember | compressor3.py:145 | every pooled value comes from some file |
| Pipeline.Header | compressor3.py:258 | `[common_denom, base_size] + keys + values + cells`; `Pipeline.HeaderIsOverhead` ties its length to the size formula, and `Pipeline.CompressSucceeds` shows its tables encode every file to its accepted stream |
| Pipeline.HeaderIsOverhead | compressor3.py:237-258 | the size formula's fixed part is exactly the length of the common table `[common_denom, base] + keys + values + cells` |
| Pipeline.Compress | compressor3.py:84-268 | the setup, then the search, or the first exception; `Pipeline.CompressSucceeds`, `Pipeline.GcdAboveOneFails` and `Pipeline.CompressStreamsMismatch` give its results, and `Pipeline.CompressDir` computes it on arrays |
| Pipeline.Prepare | compressor3.py:107-167 | ValueError for no files or an empty file; ZeroDivision exactly for all-zero data. Otherwise: the total size (the sum of the file lengths), the GCD, the heuristic base, the counted table and the product matrix, already in valid shape |
| Pipeline.CompressSucceeds | compressor3.py:155-268 | a successful run records `MAX_ITER` ratios and returns their maximum. The streams written out are each file's encoding under some valid tables; `Optimizer.LastStreamsAreLastCandidate` shows these are the last candidate's. The header holds `common_denom`, the base, and tables under which each file encodes to its accepted stream |
| Pipeline.CompressStreamsMismatch | compressor3.py:233-264 | for the one file `[0, 0, 1, 2, 3, 4, 5]` and 100 value swaps of positions 0 and 5, the run succeeds, the header holds the swapped table, the accepted streams are its encodings, and the streams written out are not |
| Pipeline.SevenSetup | compressor3.py:107-167 | the file `[0, 0, 1, 2, 3, 4, 5]` gives total 7, GCD 1 and base 2 whatever the standard deviation, and the table `{0: 2, 1: 1, ..., 5: 1}` in first-seen order |
| Pipeline.GcdAboveOneFails | compressor3.py:18-35 | with a GCD above 1 every run raises: the largest value is never a key, because keys are quotients and lookups use raw bytes |
| Pipeline.FirstByteRaises | compressor3.py:35 | when both kinds of `random.sample` can draw and the first file's first byte is not a key, the first iteration raises `KeyError` on that byte, whatever the move |
| Pipeline.MaxNotAKey | compressor3.py:18-20 | with a GCD above 1, the largest value is not a key of the counted table |
| Pipeline.RunFirstFails | compressor3.py:233 | a byte that is not a key of the initial table makes the first iteration raise |
| Pipeline.TwoFileSetup | compressor3.py:107-139 | the two-file example has total 7, GCD 10 and base 2, whatever the standard deviation |
| Pipeline.TwoFileFails | compressor3.py:18-35 | the two-file example raises `KeyError` on the byte 10, for every sequence of draws |
| Pipeline.CompressDir | compressor3.py:84-268 | the whole run on file contents equals `Compress`: the setup, the search on actual arrays, the header built from the flattened matrix, and the streams of lines 263-264 |

## Findings

| source | as written | input that shows it | evidently intended | confidence | as-written member | corrected member |
|---|---|---|---|---|---|---|
| compressor3.py:233-264 | `encoded_data_list` is reassigned for every candidate. The streams written at line 264 are therefore those of the last candidate, even when it was rejected. | One file `[0, 0, 1, 2, 3, 4, 5]`, so total 7, GCD 1, base 2 and table `{0: 2, 1..5: 1}`. Every one of the 100 draws swaps the values at positions 0 and 5. The first swap (64 bits, size 26) is accepted. Every later one swaps back (65 bits, size 27) and is rejected, but its 65-bit stream is the one written. | The comment at line 261 says the streams use the best tables. They should be the encodings under the accepted tables, the ones in the common header. | not executed | Pipeline.CompressStreamsMismatch | Pipeline.CompressSucceeds |

The search keeps both stream lists: `last` as written and `emitted` as intended (`Optimizer.EmittedMatchesTables`). `Pipeline.Compress` and `Pipeline.CompressDir` return both: `streams` is what lines 263-264 write, and `emitted` is the corrected list.

## Left out

- `write_header_file` and the C-header text (lines 50-67, 258-264): file output. The model returns the header list and the streams instead.
- `tobytes` padding of the last byte (line 264): output formatting.
- `cyclotomic_poly` and `evaluate_poly` (lines 69-81): `compress_dir` never calls them.
- Directory listing and file reading (lines 86-100): the file contents are the input.
- `random.randint` and `random.sample` (lines 180, 189, 204, 216, 225): replaced by `Draw` inputs. The module never imports `random` (lines 2-7), so as written line 180 raises `NameError` on the first iteration. The model reads the loop as if `random` were imported.
- Line 43 calls `to_bytes` on an element of a numpy integer array (line 25). The model reads it as Python's `int.to_bytes`, with its `OverflowError` outside `[0, 255]`. Whether a numpy scalar has that method is not modelled.
- Line 42 passes the string `'0'` to `bitarray.append`. The model reads it as appending a 0 bit. Depending on the `bitarray` version, the call may instead be rejected or append a 1 bit; neither is modelled. The versions that accept this call may not be the ones that have line 237's `.length()`, so the two readings together may fit no single `bitarray` version.
- Line 237 calls `.length()` on each bitarray. The model reads it as `len()`. Whether the `bitarray` in use has that method is not modelled.
- Script code after `compress_dir` (lines 270-283): plotting and printing.
- `math.sqrt` and floating point (lines 115-117, 238): the standard deviation is a parameter, and the mean and ratios are exact rationals. A float rounding that flips the `std < mean / 2` test, the `>=` test, or `int()` is not modelled.
- Pipeline.CompressDir: does not check that `std` is the square root of the variance. The caller supplies it.
- Pipeline.Compress: takes exactly `MAX_ITER` (100) draws, one per iteration.
- Values are naturals rather than bytes. Nothing in the model depends on a value being below 256, except the one-byte check of the encoded cell, which is modelled.
- The `.denominator()` suffixes on many lines of `compress_dir` are garbled text with no meaning, and are not modelled. Each line is read as its left-hand statement only.
