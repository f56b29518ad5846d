# Thermometer encoding, modelled in Dafny

This project models the `encoder` class of the Thermometer-Encoding repository:
the transform that turns each colour channel of an image batch into a
thermometer code before the classifier sees it, and the approximate inverse
used to display attacked codes.

For `k` levels, an intensity `v` gets a bucket: the number of thresholds
`i / k`, for `1 <= i <= k - 1`, that `v` strictly exceeds. The bucket is
expanded into a length-`k` one-hot vector. That vector is moved to axis 1
(`n x k x w x h`) and turned into a cumulative code by prefix sums along that
axis. `temp2img` maps a code back to `(k + 1 - sum of the code) / k`.

Files:

- `wrappers.dfy`, module `Wrappers`: the `Option` type for the numpy errors
  (`IndexError`, `ValueError`) the methods can raise.
- `pixel.dfy`, module `PixelCode`: what happens to one pixel. It defines
  `Quantize`, `Indicator` (one-hot vector), `TempCodeOf` (prefix sums),
  `Therm` (clean thermometer code) and `Decode`, and the lemmas about them.
- `encoder.dfy`, module `ThermometerEncoding`: class `Encoder` with the
  constant `k` and one method per method of the source. The methods work on
  `array3<real>` / `array4<real>` as the source works on float arrays. Each
  one states every output cell in terms of the `PixelCode` functions.

Python `for` loops are `while` loops with invariants. Vectorised numpy updates
are `forall` statements, i.e. simultaneous assignments. These are the masked
`+=` of `quantization`, the slice assignment of `tempcode`, the transpose and
the arithmetic of `temp2img`. Errors the source raises are `None` results, so
the methods keep the source's error cases instead of forbidding them.

A bucket of `k` would overflow the one-hot index (utils/encoder.py:18). The
quantization loop cannot produce one: `range(1, k)` adds 1 at most `k - 1`
times (utils/encoder.py:29-30). `PixelCode.Quantize` is proved to stay in `[0, k - 1]` for every real
input, and `PixelCode.QuantizeTop` proves that 1.0 lands in bucket `k - 1`.

## Model

| member | source | states |
|---|---|---|
| `PixelCode.Exceeded` | utils/encoder.py:29-30 | after passes 1..n of the quantization loop a cell holds between 0 and n |
| `PixelCode.ExceededAtLeast` | utils/encoder.py:29-30 | after passes 1..n the count reaches j exactly when v > j/k (the exceeded thresholds form a prefix) |
| `PixelCode.Quantize` | utils/encoder.py:27-31 | the bucket of any real intensity lies in [0, k-1], and is 0 when k <= 1; bucket k is unreachable |
| `PixelCode.QuantizeAtLeast` | utils/encoder.py:27-31 | the bucket is at least j iff j = 0 or v > j/k |
| `PixelCode.QuantizeIs` | utils/encoder.py:27-31 | bucket b holds exactly the intensities in (b/k, (b+1)/k], bottom and top buckets open-ended |
| `PixelCode.QuantizeMonotone` | utils/encoder.py:27-31 | v <= w implies bucket(v) <= bucket(w) |
| `PixelCode.QuantizeTop` | utils/encoder.py:28-30 | every intensity >= 1.0, in particular 1.0 itself, lands in bucket k-1 |
| `PixelCode.QuantizeHalfAtFifteen` | utils/encoder.py:27-31 | with k = 15, intensity 0.5 lands in bucket 7 |
| `PixelCode.BucketIndex` | utils/encoder.py:18 | the position `int(q)` selects along the k-axis for a stored bucket q, or None when that index raises |
| `PixelCode.Indicator` | utils/encoder.py:14-18 | one pixel's one-hot vector: length k, 1 at the bucket and 0 elsewhere |
| `PixelCode.Trunc` | utils/encoder.py:18 | `int()` of a float truncates toward zero |
| `PixelCode.NumpyIndex` | utils/encoder.py:18 | an index is accepted iff -len <= i < len, and selects the in-range position congruent to i |
| `PixelCode.BucketIndexOfBucket` | utils/encoder.py:18 | a bucket b in [0, k) stored as a float writes position b |
| `PixelCode.IndicatorSum` | utils/encoder.py:14-18 | a one-hot vector sums to 1 along the k-axis |
| `PixelCode.SumIndicatorPrefix` | utils/encoder.py:62 | the sum of the first m entries of the one-hot vector of b is 1 iff b < m, else 0 |
| `PixelCode.TempCodeOf` | utils/encoder.py:60-62 | one pixel of tempcode: position c < k holds the sum of entries 0..c, positions from k on stay 0 |
| `PixelCode.TempCodeStep` | utils/encoder.py:59-63 | tempcode is a prefix sum: out[0] = in[0], out[c] = out[c-1] + in[c] for c < k |
| `PixelCode.TempCodeMonotone` | utils/encoder.py:59-63 | on nonnegative input the code is non-decreasing along the k-axis |
| `PixelCode.TempCodeOfIndicator` | utils/encoder.py:59-63 | tempcode of the one-hot vector of b is 1 exactly at positions >= b and 0 below; its last entry is 1 |
| `PixelCode.SumThermPrefix` | utils/encoder.py:77 | the first m entries of the code of b sum to m - b when b < m, else 0 |
| `PixelCode.SumTherm` | utils/encoder.py:77 | the code of bucket b sums to k - b |
| `PixelCode.Decode` | utils/encoder.py:77-79 | one pixel of temp2img: (k + 1 - sum of the code vector) / k |
| `PixelCode.DecodeTherm` | utils/encoder.py:76-80 | temp2img of the clean code of b is (b+1)/k, which lies in [1/k, 1] |
| `PixelCode.RoundTrip` | utils/encoder.py:65-80 | for v in [0, 1], v <= temp2img(tempencoding(v)) <= v + 1/k |
| `PixelCode.ZeroEncodesAllOnes` | utils/encoder.py:65-66 | an all-zero pixel encodes to all ones along the k-axis |
| `PixelCode.HalfEncodesAtFifteen` | utils/encoder.py:65-66 | with k = 15, a pixel of 0.5 encodes to 0 below position 7 and 1 from 7 on |
| `ThermometerEncoding.Encoder.constructor` | utils/encoder.py:6-7 | the level given at construction is the encoder's k |
| `ThermometerEncoding.Encoder.Quantization` | utils/encoder.py:27-31 | same shape as the input; each cell holds the bucket of the input cell |
| `ThermometerEncoding.Encoder.OneHotEncoder` | utils/encoder.py:11-20 | raises iff k < 0 or some stored bucket is not a valid index; otherwise shape n x w x h x k with exactly a 1 at the indexed position of each pixel and 0 elsewhere |
| `ThermometerEncoding.Encoder.OneHot` | utils/encoder.py:38-52 | same error cases; otherwise shape n x k x w x h with out[a][c][x][y] = one_hot[a][x][y][c] |
| `ThermometerEncoding.Encoder.TempCode` | utils/encoder.py:59-63 | raises iff axis 1 is shorter than k; otherwise same shape, each code vector replaced by its prefix sums for positions < k |
| `ThermometerEncoding.Encoder.TempEncoding` | utils/encoder.py:65-66 | raises iff k < 0, or k = 0 on a non-empty image; otherwise shape n x k x w x h, position c is 1 iff the pixel's bucket is <= c, else 0 |
| `ThermometerEncoding.Encoder.OneHotEncoding` | utils/encoder.py:68-69 | same error cases; otherwise each pixel's vector along axis 1 is the one-hot vector of its bucket |
| `ThermometerEncoding.Encoder.QuantizedExpandable` | utils/encoder.py:65-69 | a quantized image can be one-hot expanded iff k > 0, or k = 0 and the image is empty |
| `ThermometerEncoding.Encoder.Temp2Img` | utils/encoder.py:76-80 | axis 1 is removed and each pixel becomes (k + 1 - sum of its code) / k |
| `ThermometerEncoding.Encoder.DecodeEncoded` | utils/encoder.py:65-80 | temp2img(tempencoding(x)) gives each pixel (b+1)/k for its bucket b, within [v, v + 1/k] for v in [0, 1] |

## Left out

- All of `train.py`: argument parsing, dataset download and loaders, the network, the optimiser and schedule, logging, checkpoint files and the best-accuracy rule. They are framework glue and file I/O.
- The `LSPGA` attacker. Its source is not part of this model, and it is gradient numerics over a live network. `Temp2Img` accepts any real code, so it covers the perturbed codes the attacker returns.
- Floating point. Thresholds `1.0 * i / k` and all arithmetic are exact reals, so rounding exactly at a threshold is not modelled. This matters in practice: images arrive as x/255 (train.py:44, 48) and the default level is k = 15 (train.py:27). So the 14 input levels x = 17i (i = 1..14) equal the thresholds i/15 exactly. For those levels float rounding decides the bucket, and the model's answer (the lower bucket, by the strict `>`) may differ from the program's.
- Shapes. `quantization` accepts an array of any rank in the source; the model takes the 3-D channel arrays (`n x w x h`) the training loop passes. The rank assertion of `onehotencoder` holds by the `array3` type.
- Views. numpy's `transpose` returns a view that shares memory; `OneHot` returns a fresh copy, and nothing later writes to either. Every method promises that the array it returns is new, as each result in the source is.
- The unused sklearn `OneHotEncoder` import and the commented-out code.
- Temp2Img: requires k != 0, because with k = 0 numpy divides by zero and returns infinities, which reals cannot hold.
- DecodeEncoded: requires k >= 1, the only levels for which the encoding succeeds on a non-empty image.
