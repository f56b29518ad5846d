/**
  * The `encoder` class: the thermometer-encoding transform applied to whole
  * batches. Images of one colour channel are n x w x h arrays of intensities;
  * codes are n x k x w x h arrays. Every array holds `real`s, as the numpy
  * arrays hold floats; buckets are stored as whole-numbered reals.
  */
module ThermometerEncoding {
  import opened Wrappers
  import opened PixelCode

  /** The values along axis 1 of t at batch index a and pixel (x, y). */
  function Fiber(t: array4<real>, a: int, x: int, y: int): seq<real>
    reads t
    requires 0 <= a < t.Length0 && 0 <= x < t.Length2 && 0 <= y < t.Length3
  {
    seq(t.Length1, c requires 0 <= c < t.Length1 reads t => t[a, c, x, y])
  }

  class Encoder {
    /** The number of quantization levels, fixed at construction. */
    const k: int

    constructor (level: int)
      ensures k == level
    {
      k := level;
    }

    /** Whether the one-hot expansion of the bucket array q succeeds: the
        output shape n x w x h x k is legal and every stored bucket is a
        valid index along the k-axis. */
    predicate Expandable(q: array3<real>)
      reads q
    {
      k >= 0 &&
      forall a, x, y :: 0 <= a < q.Length0 && 0 <= x < q.Length1 && 0 <= y < q.Length2 ==>
        BucketIndex(k, q[a, x, y]).Some?
    }

    /** quantization: the bucket of every intensity, same shape as the input. */
    method Quantization(arr: array3<real>) returns (quant: array3<real>)
      ensures fresh(quant)
      ensures quant.Length0 == arr.Length0 && quant.Length1 == arr.Length1 && quant.Length2 == arr.Length2
      ensures forall a, x, y :: 0 <= a < arr.Length0 && 0 <= x < arr.Length1 && 0 <= y < arr.Length2 ==>
        quant[a, x, y] == Quantize(k, arr[a, x, y]) as real
    {
      quant := new real[arr.Length0, arr.Length1, arr.Length2]((_, _, _) => 0.0);
      var i := 1;
      while i < k
        invariant 1 <= i <= if k > 1 then k else 1
        invariant forall a, x, y :: 0 <= a < arr.Length0 && 0 <= x < arr.Length1 && 0 <= y < arr.Length2 ==>
          quant[a, x, y] == Exceeded(k, arr[a, x, y], i - 1) as real
      {
        forall a, x, y | 0 <= a < arr.Length0 && 0 <= x < arr.Length1 && 0 <= y < arr.Length2 {
          quant[a, x, y] := quant[a, x, y] + if arr[a, x, y] > Threshold(k, i) then 1.0 else 0.0;
        }
        i := i + 1;
      }
    }

    /** onehotencoder: an n x w x h x k array with a 1 at the position each
        stored bucket indexes and 0 elsewhere; None when numpy raises (a
        negative k, or a bucket outside [-k, k)). */
    method OneHotEncoder(arr: array3<real>) returns (r: Option<array4<real>>)
      ensures r.Some? ==> fresh(r.value)
      ensures r.None? <==> !Expandable(arr)
      ensures r.Some? ==>
        r.value.Length0 == arr.Length0 && r.value.Length1 == arr.Length1 &&
        r.value.Length2 == arr.Length2 && r.value.Length3 == k
      ensures r.Some? ==>
        forall a, x, y, c :: 0 <= a < arr.Length0 && 0 <= x < arr.Length1 && 0 <= y < arr.Length2 && 0 <= c < k ==>
          r.value[a, x, y, c] == if BucketIndex(k, arr[a, x, y]) == Some(c) then 1.0 else 0.0
    {
      if k < 0 {
        return None;
      }
      var n, w, h := arr.Length0, arr.Length1, arr.Length2;
      var oneHot := new real[n, w, h, k]((_, _, _, _) => 0.0);
      var a := 0;
      while a < n
        invariant 0 <= a <= n
        invariant forall a', x', y' :: 0 <= a' < a && 0 <= x' < w && 0 <= y' < h ==>
          BucketIndex(k, arr[a', x', y']).Some?
        invariant forall a', x', y', c :: 0 <= a' < n && 0 <= x' < w && 0 <= y' < h && 0 <= c < k ==>
          oneHot[a', x', y', c] == if a' < a && BucketIndex(k, arr[a', x', y']) == Some(c) then 1.0 else 0.0
      {
        var x := 0;
        while x < w
          invariant 0 <= x <= w
          invariant forall a', x', y' :: 0 <= a' < n && 0 <= x' < w && 0 <= y' < h && (a' < a || (a' == a && x' < x)) ==>
            BucketIndex(k, arr[a', x', y']).Some?
          invariant forall a', x', y', c :: 0 <= a' < n && 0 <= x' < w && 0 <= y' < h && 0 <= c < k ==>
            oneHot[a', x', y', c] ==
              if (a' < a || (a' == a && x' < x)) && BucketIndex(k, arr[a', x', y']) == Some(c) then 1.0 else 0.0
        {
          var y := 0;
          while y < h
            invariant 0 <= y <= h
            invariant forall a', x', y' ::
              (0 <= a' < n && 0 <= x' < w && 0 <= y' < h &&
               (a' < a || (a' == a && x' < x) || (a' == a && x' == x && y' < y))) ==>
              BucketIndex(k, arr[a', x', y']).Some?
            invariant forall a', x', y', c :: 0 <= a' < n && 0 <= x' < w && 0 <= y' < h && 0 <= c < k ==>
              oneHot[a', x', y', c] ==
                if (a' < a || (a' == a && x' < x) || (a' == a && x' == x && y' < y)) &&
                   BucketIndex(k, arr[a', x', y']) == Some(c) then 1.0 else 0.0
          {
            match BucketIndex(k, arr[a, x, y]) {
              case None =>
                return None;
              case Some(i) =>
                oneHot[a, x, y, i] := 1.0;
            }
            y := y + 1;
          }
          x := x + 1;
        }
        a := a + 1;
      }
      return Some(oneHot);
    }

    /** onehot: the one-hot expansion with the k-axis moved to position 1,
        i.e. out[a, c, x, y] = one_hot[a, x, y, c], of shape n x k x w x h. */
    method OneHot(arr: array3<real>) returns (r: Option<array4<real>>)
      ensures r.Some? ==> fresh(r.value)
      ensures r.None? <==> !Expandable(arr)
      ensures r.Some? ==>
        r.value.Length0 == arr.Length0 && r.value.Length1 == k &&
        r.value.Length2 == arr.Length1 && r.value.Length3 == arr.Length2
      ensures r.Some? ==>
        forall a, c, x, y :: 0 <= a < arr.Length0 && 0 <= c < k && 0 <= x < arr.Length1 && 0 <= y < arr.Length2 ==>
          r.value[a, c, x, y] == if BucketIndex(k, arr[a, x, y]) == Some(c) then 1.0 else 0.0
    {
      var expanded := OneHotEncoder(arr);
      match expanded {
        case None =>
          return None;
        case Some(oneHot) =>
          var moved := new real[oneHot.Length0, oneHot.Length3, oneHot.Length1, oneHot.Length2];
          forall a, c, x, y | 0 <= a < moved.Length0 && 0 <= c < moved.Length1 && 0 <= x < moved.Length2 && 0 <= y < moved.Length3 {
            moved[a, c, x, y] := oneHot[a, x, y, c];
          }
          return Some(moved);
      }
    }

    /** tempcode: the prefix sums along axis 1 for the first k positions of
        every pixel's code vector, the rest left at 0; None when axis 1 is
        shorter than k (the slice assignment raises IndexError). */
    method TempCode(arr: array4<real>) returns (r: Option<array4<real>>)
      ensures r.Some? ==> fresh(r.value)
      ensures r.None? <==> k > arr.Length1
      ensures r.Some? ==>
        r.value.Length0 == arr.Length0 && r.value.Length1 == arr.Length1 &&
        r.value.Length2 == arr.Length2 && r.value.Length3 == arr.Length3
      ensures r.Some? ==>
        forall a, c, x, y :: 0 <= a < arr.Length0 && 0 <= c < arr.Length1 && 0 <= x < arr.Length2 && 0 <= y < arr.Length3 ==>
          r.value[a, c, x, y] == TempCodeOf(k, Fiber(arr, a, x, y))[c]
    {
      var code := new real[arr.Length0, arr.Length1, arr.Length2, arr.Length3]((_, _, _, _) => 0.0);
      var i := 0;
      while i < k
        invariant 0 <= i <= arr.Length1
        invariant i <= k || i == 0
        invariant forall a, c, x, y :: 0 <= a < arr.Length0 && 0 <= c < arr.Length1 && 0 <= x < arr.Length2 && 0 <= y < arr.Length3 ==>
          code[a, c, x, y] == if c < i then Sum(Fiber(arr, a, x, y)[..c + 1]) else 0.0
      {
        if i >= arr.Length1 {
          return None;
        }
        forall a, x, y | 0 <= a < arr.Length0 && 0 <= x < arr.Length2 && 0 <= y < arr.Length3 {
          code[a, i, x, y] := Sum(Fiber(arr, a, x, y)[..i + 1]);
        }
        i := i + 1;
      }
      return Some(code);
    }

    /** tempencoding = tempcode(onehot(quantization(arr))): position c of a
        pixel's code is 1 exactly when the pixel's bucket is at most c. It
        raises only for a negative k, or for k = 0 on a non-empty image. */
    method TempEncoding(arr: array3<real>) returns (r: Option<array4<real>>)
      ensures r.Some? ==> fresh(r.value)
      ensures r.None? <==> k < 0 || (k == 0 && arr.Length0 > 0 && arr.Length1 > 0 && arr.Length2 > 0)
      ensures r.Some? ==>
        r.value.Length0 == arr.Length0 && r.value.Length1 == k &&
        r.value.Length2 == arr.Length1 && r.value.Length3 == arr.Length2
      ensures r.Some? ==>
        forall a, c, x, y :: 0 <= a < arr.Length0 && 0 <= c < k && 0 <= x < arr.Length1 && 0 <= y < arr.Length2 ==>
          r.value[a, c, x, y] == Therm(k, Quantize(k, arr[a, x, y]))[c]
    {
      var quant := Quantization(arr);
      QuantizedExpandable(quant, arr);
      var oneHot := OneHot(quant);
      match oneHot {
        case None =>
          return None;
        case Some(expanded) =>
          r := TempCode(expanded);
          forall a, x, y | 0 <= a < arr.Length0 && 0 <= x < arr.Length1 && 0 <= y < arr.Length2
            ensures TempCodeOf(k, Fiber(expanded, a, x, y)) == Therm(k, Quantize(k, arr[a, x, y]))
          {
            var b := Quantize(k, arr[a, x, y]);
            BucketIndexOfBucket(k, b);
            assert Fiber(expanded, a, x, y) == Indicator(k, b);
            TempCodeOfIndicator(k, b);
          }
      }
    }

    /** onehotencoding = onehot(quantization(arr)): each pixel's code vector
        is the indicator of its bucket. */
    method OneHotEncoding(arr: array3<real>) returns (r: Option<array4<real>>)
      ensures r.Some? ==> fresh(r.value)
      ensures r.None? <==> k < 0 || (k == 0 && arr.Length0 > 0 && arr.Length1 > 0 && arr.Length2 > 0)
      ensures r.Some? ==>
        r.value.Length0 == arr.Length0 && r.value.Length1 == k &&
        r.value.Length2 == arr.Length1 && r.value.Length3 == arr.Length2
      ensures r.Some? ==>
        forall a, c, x, y :: 0 <= a < arr.Length0 && 0 <= c < k && 0 <= x < arr.Length1 && 0 <= y < arr.Length2 ==>
          r.value[a, c, x, y] == Indicator(k, Quantize(k, arr[a, x, y]))[c]
    {
      var quant := Quantization(arr);
      QuantizedExpandable(quant, arr);
      r := OneHot(quant);
      if r.Some? {
        forall a, x, y | 0 <= a < arr.Length0 && 0 <= x < arr.Length1 && 0 <= y < arr.Length2
          ensures BucketIndex(k, quant[a, x, y]) == Some(Quantize(k, arr[a, x, y]))
        {
          BucketIndexOfBucket(k, Quantize(k, arr[a, x, y]));
        }
      }
    }

    /** A quantized image can be expanded exactly when k is positive or the
        image is empty (k = 0 makes every index out of range). */
    lemma QuantizedExpandable(quant: array3<real>, arr: array3<real>)
      requires quant.Length0 == arr.Length0 && quant.Length1 == arr.Length1 && quant.Length2 == arr.Length2
      requires forall a, x, y :: 0 <= a < arr.Length0 && 0 <= x < arr.Length1 && 0 <= y < arr.Length2 ==>
        quant[a, x, y] == Quantize(k, arr[a, x, y]) as real
      ensures Expandable(quant) <==> k > 0 || (k == 0 && (arr.Length0 == 0 || arr.Length1 == 0 || arr.Length2 == 0))
    {
      if k > 0 {
        forall a, x, y | 0 <= a < arr.Length0 && 0 <= x < arr.Length1 && 0 <= y < arr.Length2
          ensures BucketIndex(k, quant[a, x, y]).Some?
        {
          BucketIndexOfBucket(k, Quantize(k, arr[a, x, y]));
        }
      } else if k == 0 && arr.Length0 > 0 && arr.Length1 > 0 && arr.Length2 > 0 {
        assert BucketIndex(k, quant[0, 0, 0]).None?;
      }
    }

    /** temp2img: the intensity of every pixel recovered from its code vector
        as (k + 1 - sum along axis 1) / k; the code may be perturbed. */
    method Temp2Img(tempImg: array4<real>) returns (img: array3<real>)
      requires k != 0
      ensures img.Length0 == tempImg.Length0 && img.Length1 == tempImg.Length2 && img.Length2 == tempImg.Length3
      ensures forall a, x, y :: 0 <= a < tempImg.Length0 && 0 <= x < tempImg.Length2 && 0 <= y < tempImg.Length3 ==>
        img[a, x, y] == Decode(k, Fiber(tempImg, a, x, y))
      ensures fresh(img)
    {
      img := new real[tempImg.Length0, tempImg.Length2, tempImg.Length3];
      forall a, x, y | 0 <= a < img.Length0 && 0 <= x < img.Length1 && 0 <= y < img.Length2 {
        img[a, x, y] := ((k + 1) as real - Sum(Fiber(tempImg, a, x, y))) * 1.0 / k as real;
      }
    }

    /** temp2img(tempencoding(arr)) on a clean code: each pixel becomes the top
        of its bucket, (b + 1) / k, which for an intensity v in [0, 1] lies
        between v and v + 1 / k. */
    method DecodeEncoded(arr: array3<real>) returns (img: array3<real>)
      requires k >= 1
      ensures img.Length0 == arr.Length0 && img.Length1 == arr.Length1 && img.Length2 == arr.Length2
      ensures forall a, x, y :: 0 <= a < arr.Length0 && 0 <= x < arr.Length1 && 0 <= y < arr.Length2 ==>
        img[a, x, y] == Threshold(k, Quantize(k, arr[a, x, y]) + 1)
      ensures forall a, x, y ::
        (0 <= a < arr.Length0 && 0 <= x < arr.Length1 && 0 <= y < arr.Length2 && 0.0 <= arr[a, x, y] <= 1.0) ==>
        arr[a, x, y] <= img[a, x, y] <= arr[a, x, y] + Threshold(k, 1)
      ensures fresh(img)
    {
      var code := TempEncoding(arr);
      img := Temp2Img(code.value);
      forall a, x, y | 0 <= a < arr.Length0 && 0 <= x < arr.Length1 && 0 <= y < arr.Length2
        ensures img[a, x, y] == Threshold(k, Quantize(k, arr[a, x, y]) + 1)
        ensures 0.0 <= arr[a, x, y] <= 1.0 ==> arr[a, x, y] <= img[a, x, y] <= arr[a, x, y] + Threshold(k, 1)
      {
        var v := arr[a, x, y];
        assert Fiber(code.value, a, x, y) == Therm(k, Quantize(k, v));
        DecodeTherm(k, Quantize(k, v));
        if 0.0 <= v <= 1.0 {
          RoundTrip(k, v);
        }
      }
    }
  }
}
