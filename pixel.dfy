/**
  * What the thermometer encoder does to ONE pixel: the bucket of an intensity,
  * the indicator vector of a bucket, the prefix sums taken along the code axis,
  * and the decoded intensity of a code vector. The array-level methods in
  * module ThermometerEncoding are specified cell by cell with these functions.
  */
module PixelCode {
  import opened Wrappers

  // ---------------------------------------------------------------------------
  // Quantization
  // ---------------------------------------------------------------------------

  /** The i-th quantization threshold, i / k. */
  function Threshold(k: int, i: int): real
    requires k >= 1
  {
    i as real / k as real
  }

  /** Thresholds grow with their index. */
  lemma ThresholdLess(k: int, i: int, j: int)
    requires k >= 1 && i < j
    ensures Threshold(k, i) < Threshold(k, j)
  {
    assert Threshold(k, j) - Threshold(k, i) == (j - i) as real / k as real;
  }

  /** How many of the thresholds Threshold(k, 1), ..., Threshold(k, n) the
      intensity v strictly exceeds: the value of one cell of `quant` after the
      passes i = 1 .. n of the quantization loop. */
  function Exceeded(k: int, v: real, n: int): (r: int)
    requires n <= 0 || n < k
    ensures 0 <= r <= if n <= 0 then 0 else n
    decreases n
  {
    if n <= 0 then 0
    else Exceeded(k, v, n - 1) + (if v > Threshold(k, n) then 1 else 0)
  }

  /** The bucket of intensity v for k levels: the number of thresholds i / k,
      1 <= i <= k - 1, that v strictly exceeds. It never reaches k, whatever v is. */
  function Quantize(k: int, v: real): (b: int)
    ensures 0 <= b <= if k >= 1 then k - 1 else 0
  {
    Exceeded(k, v, k - 1)
  }

  /** The count reaches j exactly when v exceeds the j-th threshold: the
      thresholds are increasing, so the exceeded ones form a prefix. */
  lemma {:induction false} ExceededAtLeast(k: int, v: real, n: int, j: int)
    requires 0 <= j <= n < k
    ensures Exceeded(k, v, n) >= j <==> (j == 0 || v > Threshold(k, j))
    decreases n
  {
    if n > 0 {
      if v > Threshold(k, n) {
        if n > 1 {
          ThresholdLess(k, n - 1, n);
          ExceededAtLeast(k, v, n - 1, n - 1);
        }
        assert Exceeded(k, v, n) == n;
        if 0 < j < n {
          ThresholdLess(k, j, n);
        }
      } else if j < n {
        ExceededAtLeast(k, v, n - 1, j);
      } else {
        assert Exceeded(k, v, n) == Exceeded(k, v, n - 1);
      }
    }
  }

  /** The bucket is at least j exactly when v exceeds j / k. */
  lemma QuantizeAtLeast(k: int, v: real, j: int)
    requires 0 <= j < k
    ensures Quantize(k, v) >= j <==> (j == 0 || v > Threshold(k, j))
  {
    ExceededAtLeast(k, v, k - 1, j);
  }

  /** Bucket b holds exactly the intensities in (b / k, (b + 1) / k]; the
      bottom bucket extends down and the top bucket up without bound. */
  lemma QuantizeIs(k: int, v: real, b: int)
    requires 0 <= b < k
    ensures Quantize(k, v) == b <==>
              (b == 0 || v > Threshold(k, b)) && (b == k - 1 || v <= Threshold(k, b + 1))
  {
    QuantizeAtLeast(k, v, b);
    if b < k - 1 {
      QuantizeAtLeast(k, v, b + 1);
    }
  }

  /** Quantization is monotone in the intensity. */
  lemma QuantizeMonotone(k: int, v: real, w: real)
    requires v <= w
    ensures Quantize(k, v) <= Quantize(k, w)
  {
    if k >= 1 {
      var j := Quantize(k, v);
      QuantizeAtLeast(k, v, j);
      QuantizeAtLeast(k, w, j);
    }
  }

  /** Every intensity of 1.0 or more lands in the top bucket k - 1, never in k. */
  lemma QuantizeTop(k: int, v: real)
    requires k >= 1 && v >= 1.0
    ensures Quantize(k, v) == k - 1
  {
    if k > 1 {
      ThresholdLess(k, k - 1, k);
      assert Threshold(k, k) == 1.0;
    }
    QuantizeIs(k, v, k - 1);
  }

  /** With the default 15 levels, intensity 0.5 lands in bucket 7. */
  lemma QuantizeHalfAtFifteen()
    ensures Quantize(15, 0.5) == 7
  {
    QuantizeIs(15, 0.5, 7);
  }

  // ---------------------------------------------------------------------------
  // One-hot expansion
  // ---------------------------------------------------------------------------

  /** Python's `int()` on a float: truncation toward zero. */
  function Trunc(x: real): (r: int)
    ensures x >= 0.0 ==> r as real <= x < r as real + 1.0
    ensures x < 0.0 ==> r as real - 1.0 < x <= r as real
  {
    if x >= 0.0 then x.Floor else -((-x).Floor)
  }

  /** The position an integer index selects along a numpy axis of length len:
      negative indices count from the end, anything else raises IndexError. */
  function NumpyIndex(len: int, i: int): (r: Option<int>)
    ensures r.Some? <==> -len <= i < len
    ensures r.Some? ==> 0 <= r.value < len && (r.value - i) % len == 0
  {
    if 0 <= i < len then Some(i)
    else if -len <= i < 0 then Some(i + len)
    else None
  }

  /** The position along the k-axis that the one-hot expansion writes for the
      stored bucket q, i.e. `int(q)` used as an index; None when that raises. */
  function BucketIndex(k: int, q: real): Option<int>
  {
    NumpyIndex(k, Trunc(q))
  }

  /** A bucket the quantization produced is its own index. */
  lemma BucketIndexOfBucket(k: int, b: int)
    requires 0 <= b < k
    ensures BucketIndex(k, b as real) == Some(b)
  {
  }

  /** The length-k indicator vector of bucket b. */
  function Indicator(k: int, b: int): seq<real>
    requires k >= 0
  {
    seq(k, c => if c == b then 1.0 else 0.0)
  }

  // ---------------------------------------------------------------------------
  // Thermometer code
  // ---------------------------------------------------------------------------

  /** The sum of a vector (numpy's sum along one axis). */
  function Sum(s: seq<real>): real
    decreases |s|
  {
    if s == [] then 0.0 else Sum(s[..|s| - 1]) + s[|s| - 1]
  }

  /** The tempcode transform of one code vector s: position c < k holds the sum
      of s[0..c]; positions at or beyond k keep the zero they started with. */
  function TempCodeOf(k: int, s: seq<real>): seq<real>
  {
    seq(|s|, c requires 0 <= c < |s| => if c < k then Sum(s[..c + 1]) else 0.0)
  }

  /** The clean thermometer code of bucket b: position c is 1 iff b <= c. */
  function Therm(k: int, b: int): seq<real>
    requires k >= 0
  {
    seq(k, c => if b <= c then 1.0 else 0.0)
  }

  /** tempcode is a prefix sum: the first entry is copied, every later one
      adds the input entry to its predecessor. */
  lemma TempCodeStep(k: int, s: seq<real>, c: int)
    requires 0 <= c < k <= |s|
    ensures TempCodeOf(k, s)[c] == (if c == 0 then 0.0 else TempCodeOf(k, s)[c - 1]) + s[c]
  {
    assert s[..c + 1][..c] == s[..c];
    assert Sum(s[..c + 1]) == Sum(s[..c]) + s[c];
    if c == 0 {
      assert s[..0] == [];
    }
  }

  /** On a nonnegative vector the code never decreases along the k-axis. */
  lemma {:induction false} TempCodeMonotone(k: int, s: seq<real>, i: int, j: int)
    requires forall c :: 0 <= c < |s| ==> s[c] >= 0.0
    requires 0 <= i <= j < k <= |s|
    ensures TempCodeOf(k, s)[i] <= TempCodeOf(k, s)[j]
    decreases j
  {
    if i < j {
      TempCodeMonotone(k, s, i, j - 1);
      TempCodeStep(k, s, j);
    }
  }

  /** The prefix sums of a one-hot vector: 1 once the hot position is passed. */
  lemma {:induction false} SumIndicatorPrefix(k: int, b: int, m: int)
    requires 0 <= b < k && 0 <= m <= k
    ensures Sum(Indicator(k, b)[..m]) == if b < m then 1.0 else 0.0
  {
    if m > 0 {
      assert Indicator(k, b)[..m][..m - 1] == Indicator(k, b)[..m - 1];
      SumIndicatorPrefix(k, b, m - 1);
    }
  }

  /** A one-hot vector sums to 1 along the k-axis. */
  lemma IndicatorSum(k: int, b: int)
    requires 0 <= b < k
    ensures Sum(Indicator(k, b)) == 1.0
  {
    SumIndicatorPrefix(k, b, k);
    assert Indicator(k, b)[..k] == Indicator(k, b);
  }

  /** tempcode turns the one-hot vector of bucket b into the thermometer code of
      b: 0 below b and 1 from b on, so it is binary and ends with a 1. */
  lemma TempCodeOfIndicator(k: int, b: int)
    requires 0 <= b < k
    ensures TempCodeOf(k, Indicator(k, b)) == Therm(k, b)
    ensures Therm(k, b)[k - 1] == 1.0
  {
    forall c | 0 <= c < k
      ensures TempCodeOf(k, Indicator(k, b))[c] == Therm(k, b)[c]
    {
      SumIndicatorPrefix(k, b, c + 1);
    }
  }

  /** The prefix sums of a thermometer code count its ones. */
  lemma {:induction false} SumThermPrefix(k: int, b: int, m: int)
    requires 0 <= b <= k && 0 <= m <= k
    ensures Sum(Therm(k, b)[..m]) == if b < m then (m - b) as real else 0.0
  {
    if m > 0 {
      assert Therm(k, b)[..m][..m - 1] == Therm(k, b)[..m - 1];
      SumThermPrefix(k, b, m - 1);
    }
  }

  /** The thermometer code of bucket b holds k - b ones. */
  lemma SumTherm(k: int, b: int)
    requires 0 <= b <= k
    ensures Sum(Therm(k, b)) == (k - b) as real
  {
    SumThermPrefix(k, b, k);
    assert Therm(k, b)[..k] == Therm(k, b);
  }

  // ---------------------------------------------------------------------------
  // Decoding
  // ---------------------------------------------------------------------------

  /** The intensity temp2img assigns to a (possibly perturbed) code vector s:
      (k + 1 - sum of s) / k. */
  function Decode(k: int, s: seq<real>): real
    requires k != 0
  {
    ((k + 1) as real - Sum(s)) / k as real
  }

  /** A clean code of bucket b decodes to the top of its interval, (b + 1) / k,
      which lies in [1 / k, 1]. */
  lemma DecodeTherm(k: int, b: int)
    requires 0 <= b < k
    ensures Decode(k, Therm(k, b)) == Threshold(k, b + 1)
    ensures Threshold(k, 1) <= Decode(k, Therm(k, b)) <= 1.0
  {
    SumTherm(k, b);
    assert (k + 1) as real - Sum(Therm(k, b)) == (b + 1) as real;
    if b > 0 {
      ThresholdLess(k, 1, b + 1);
    }
    if b + 1 < k {
      ThresholdLess(k, b + 1, k);
    }
  }

  /** Encoding an intensity v in [0, 1] and decoding it again overshoots v by
      less than one quantization step: v <= decoded <= v + 1 / k. */
  lemma RoundTrip(k: int, v: real)
    requires k >= 1 && 0.0 <= v <= 1.0
    ensures v <= Decode(k, Therm(k, Quantize(k, v))) <= v + Threshold(k, 1)
  {
    var b := Quantize(k, v);
    DecodeTherm(k, b);
    QuantizeIs(k, v, b);
    assert Threshold(k, b + 1) == Threshold(k, b) + Threshold(k, 1);
    if b == k - 1 {
      assert Threshold(k, k) == 1.0;
    }
  }

  /** An all-zero pixel encodes to the all-ones code. */
  lemma ZeroEncodesAllOnes(k: int)
    requires k >= 1
    ensures Therm(k, Quantize(k, 0.0)) == seq(k, c => 1.0)
  {
    QuantizeAtLeast(k, 0.0, 0);
    if k > 1 {
      QuantizeAtLeast(k, 0.0, 1);
    }
  }

  /** With 15 levels, a pixel of 0.5 encodes to 0 below position 7 and 1 from 7 on. */
  lemma HalfEncodesAtFifteen()
    ensures Therm(15, Quantize(15, 0.5)) == seq(15, c => if c < 7 then 0.0 else 1.0)
  {
    QuantizeHalfAtFifteen();
  }
}
