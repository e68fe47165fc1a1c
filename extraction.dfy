/**
 * The colour extractor: the bookkeeping around one k-means run. The pixel
 * grid is flattened into a channel buffer, reshaped into an N x 3 observation
 * matrix and handed to k-means; the labels k-means predicts are counted per
 * cluster, and each centroid is paired with its count as a colour record.
 * k-means itself (fit and predict) is a parameter of the model.
 */
module Extraction {
  import opened Errors
  import opened Colors

  /** An 8-bit RGB pixel; channel 0 is red, 1 green, 2 blue. */
  datatype Pixel = Rgb(r: Byte, g: Byte, b: Byte) {
    function Channel(c: nat): Byte
      requires c < 3
    {
      if c == 0 then r else if c == 1 then g else b
    }
  }

  /** A decoded RGB image: its dimensions and its pixels, row after row. */
  datatype RgbImage = RgbImage(width: nat, height: nat, pixels: seq<Pixel>)

  /** The image holds exactly width * height pixels. */
  predicate ValidImage(image: RgbImage) {
    |image.pixels| == image.width * image.height
  }

  /** The product `width * height` is computed in 32 bits by the extractor. */
  predicate PixelCountFitsU32(image: RgbImage) {
    image.width * image.height < 0x1_0000_0000
  }

  lemma {:induction false} MulMonotone(a: nat, b: nat, c: nat)
    requires a <= b
    ensures a * c <= b * c
  {
    if c > 0 {
      MulMonotone(a, b, c - 1);
      assert a * c == a * (c - 1) + a && b * c == b * (c - 1) + b;
    }
  }

  /** Index y * width + x of a row-major grid lies inside the grid. */
  lemma RowMajorIndex(x: nat, y: nat, width: nat, height: nat)
    requires x < width && y < height
    ensures y * width + x < width * height
  {
    MulMonotone(y + 1, height, width);
    assert (y + 1) * width == y * width + width;
  }

  /** The pixel in column x of row y. */
  function PixelAt(image: RgbImage, x: nat, y: nat): Pixel
    requires ValidImage(image) && x < image.width && y < image.height
  {
    RowMajorIndex(x, y, image.width, image.height);
    image.pixels[y * image.width + x]
  }

  datatype ColorExtractor = ColorExtractor(image: RgbImage)

  /** A point of the observation space: the three channels as floats. */
  type Vector3 = v: seq<real> | |v| == 3 witness [0.0, 0.0, 0.0]

  /** The parameters the extractor hands to k-means. */
  datatype KMeansParams = KMeansParams(nClusters: nat, maxIterations: nat, tolerance: real)

  const MaxIterations: nat := 100
  const Tolerance: real := 0.0001

  /**
   * What fitting k-means and then predicting on the same dataset yields:
   * the centroids (one row of 3 per cluster) and one cluster label per
   * observation, or the message of a failed fit.
   */
  datatype FitOutcome =
    | Fitted(centroids: seq<Vector3>, predictions: seq<nat>)
    | FitFailed(message: string)

  /** k-means as the extractor sees it: parameters and observations in, an outcome out. */
  type KMeans = (KMeansParams, seq<seq<real>>) -> FitOutcome

  /** Every label of a fit is a cluster index below k. */
  predicate LabelsBelow(fit: FitOutcome, k: nat) {
    fit.Fitted? ==> forall i :: 0 <= i < |fit.predictions| ==> fit.predictions[i] < k
  }

  /** The guarantee the extractor relies on without checking: labels name existing clusters. */
  ghost predicate LabelsInRange(kmeans: KMeans) {
    forall params, observations :: LabelsBelow(kmeans(params, observations), params.nClusters)
  }

  /** A fit labels every observation and has as many centroids as were asked for. */
  ghost predicate FitsEveryObservation(kmeans: KMeans) {
    forall params, observations ::
      var fit := kmeans(params, observations);
      fit.Fitted? ==> |fit.predictions| == |observations| && |fit.centroids| == params.nClusters
  }

  const ColorCountMessage: string := "Number of colors must be at least 1"

  /** The message a failed reshape reports. */
  const ShapeErrorMessage: string := "ShapeError/IncompatibleShape: incompatible shapes"

  // ---------------------------------------------------------------------
  // The channel buffer and the observation matrix

  /** The pixels' channels as floats, three per pixel, in pixel order. */
  function ChannelBuffer(pixels: seq<Pixel>): (data: seq<real>)
    ensures |data| == 3 * |pixels|
    ensures forall i, c :: 0 <= i < |pixels| && 0 <= c < 3 ==> data[3 * i + c] == pixels[i].Channel(c) as real
  {
    seq(3 * |pixels|, k requires 0 <= k < 3 * |pixels| => pixels[k / 3].Channel(k % 3) as real)
  }

  /** A buffer laid out as the ensures of ChannelBuffer say is that buffer. */
  lemma ChannelBufferUnique(pixels: seq<Pixel>, data: seq<real>)
    requires |data| == 3 * |pixels|
    requires forall i, c :: 0 <= i < |pixels| && 0 <= c < 3 ==> data[3 * i + c] == pixels[i].Channel(c) as real
    ensures data == ChannelBuffer(pixels)
  {
    forall k | 0 <= k < |data|
      ensures data[k] == ChannelBuffer(pixels)[k]
    {
      var i, c := k / 3, k % 3;
      assert k == 3 * i + c;
    }
  }

  /** Channel c of the pixel at column x, row y sits at entry 3 * (y * width + x) + c. */
  lemma BufferIsRowMajor(image: RgbImage, x: nat, y: nat, c: nat)
    requires ValidImage(image) && x < image.width && y < image.height && c < 3
    ensures 3 * (y * image.width + x) + c < |ChannelBuffer(image.pixels)|
    ensures ChannelBuffer(image.pixels)[3 * (y * image.width + x) + c] == PixelAt(image, x, y).Channel(c) as real
  {
    RowMajorIndex(x, y, image.width, image.height);
  }

  /** The flattening loop: pushes the three channels of every pixel, in order. */
  method FlattenPixels(pixels: seq<Pixel>) returns (pixelData: seq<real>)
    ensures pixelData == ChannelBuffer(pixels)
  {
    pixelData := [];
    for n := 0 to |pixels|
      invariant |pixelData| == 3 * n
      invariant forall i, c :: 0 <= i < n && 0 <= c < 3 ==> pixelData[3 * i + c] == pixels[i].Channel(c) as real
    {
      var pixel := pixels[n];
      pixelData := pixelData + [pixel.r as real];
      pixelData := pixelData + [pixel.g as real];
      pixelData := pixelData + [pixel.b as real];
    }
    ChannelBufferUnique(pixels, pixelData);
  }

  /** A matrix stored as its rows, or the failure of a reshape. */
  datatype Shaped<T> = Shaped(rows: seq<seq<T>>) | ShapeMismatch

  /** Element (i, j) of a rows x cols matrix stored row by row in a flat buffer. */
  function Entry<T>(data: seq<T>, rows: nat, cols: nat, i: nat, j: nat): T
    requires |data| == rows * cols && i < rows && j < cols
  {
    RowMajorIndex(j, i, cols, rows);
    data[i * cols + j]
  }

  /**
   * Reads a flat buffer as a rows x cols matrix in row-major order; fails
   * exactly when the buffer does not hold rows * cols elements.
   */
  function FromShapeVec<T>(rows: nat, cols: nat, data: seq<T>): (m: Shaped<T>)
    ensures m.Shaped? <==> |data| == rows * cols
    ensures m.Shaped? ==> |m.rows| == rows
    ensures m.Shaped? ==> forall i :: 0 <= i < rows ==> |m.rows[i]| == cols
    ensures m.Shaped? ==> forall i, j :: 0 <= i < rows && 0 <= j < cols ==> m.rows[i][j] == Entry(data, rows, cols, i, j)
  {
    if |data| != rows * cols then ShapeMismatch
    else
      Shaped(seq(rows, i requires 0 <= i < rows =>
        seq(cols, j requires 0 <= j < cols => Entry(data, rows, cols, i, j))))
  }

  /** One observation per pixel: its three channels as floats. */
  function Observations(pixels: seq<Pixel>): seq<seq<real>> {
    seq(|pixels|, i requires 0 <= i < |pixels| => [pixels[i].r as real, pixels[i].g as real, pixels[i].b as real])
  }

  /** For an image of width * height pixels the reshape into N x 3 cannot fail, and row i is pixel i. */
  lemma {:induction false} ReshapeSucceeds(image: RgbImage)
    requires ValidImage(image)
    ensures FromShapeVec(image.width * image.height, 3, ChannelBuffer(image.pixels)) == Shaped(Observations(image.pixels))
  {
    ReshapePixels(image.pixels);
  }

  lemma {:induction false} ReshapePixels(pixels: seq<Pixel>)
    ensures FromShapeVec(|pixels|, 3, ChannelBuffer(pixels)) == Shaped(Observations(pixels))
  {
    var m := FromShapeVec(|pixels|, 3, ChannelBuffer(pixels));
    forall i | 0 <= i < |pixels|
      ensures m.rows[i] == Observations(pixels)[i]
    {
      ReshapedRow(pixels, i);
    }
  }

  lemma ReshapedRow(pixels: seq<Pixel>, i: nat)
    requires i < |pixels|
    ensures FromShapeVec(|pixels|, 3, ChannelBuffer(pixels)).rows[i] == [pixels[i].r as real, pixels[i].g as real, pixels[i].b as real]
  {
    var n := |pixels|;
    var data := ChannelBuffer(pixels);
    var row := FromShapeVec(n, 3, data).rows[i];
    forall j | 0 <= j < 3
      ensures row[j] == pixels[i].Channel(j) as real
    {
      assert row[j] == Entry(data, n, 3, i, j);
      assert Entry(data, n, 3, i, j) == data[i * 3 + j];
      assert i * 3 + j == 3 * i + j;
    }
  }

  // ---------------------------------------------------------------------
  // The per-cluster histogram

  /** How many labels name each of the clusters 0 .. k-1. */
  function Histogram(predictions: seq<nat>, k: nat): (counts: seq<nat>)
  {
    seq(k, j requires 0 <= j < k => multiset(predictions)[j])
  }

  function Sum(xs: seq<nat>): nat {
    if xs == [] then 0 else xs[0] + Sum(xs[1..])
  }

  lemma {:induction false} SumIncrement(xs: seq<nat>, p: nat)
    requires p < |xs|
    ensures Sum(xs[p := xs[p] + 1]) == Sum(xs) + 1
  {
    if p > 0 {
      assert xs[p := xs[p] + 1][1..] == xs[1..][p - 1 := xs[p] + 1];
      SumIncrement(xs[1..], p - 1);
    }
  }

  /** When every label is below k the counts add up to the number of labels. */
  lemma {:induction false} HistogramSum(predictions: seq<nat>, k: nat)
    requires forall i :: 0 <= i < |predictions| ==> predictions[i] < k
    ensures Sum(Histogram(predictions, k)) == |predictions|
  {
    if predictions == [] {
      assert Histogram(predictions, k) == seq(k, j => 0);
      ZeroSum(k);
    } else {
      var rest := predictions[1..];
      var p := predictions[0];
      assert predictions == [p] + rest;
      assert Histogram(predictions, k) == Histogram(rest, k)[p := Histogram(rest, k)[p] + 1];
      HistogramSum(rest, k);
      SumIncrement(Histogram(rest, k), p);
    }
  }

  lemma {:induction false} ZeroSum(k: nat)
    ensures Sum(seq(k, j => 0)) == 0
  {
    if k > 0 {
      assert seq(k, j => 0)[1..] == seq(k - 1, j => 0);
      ZeroSum(k - 1);
    }
  }

  /** The counting loop: one slot per cluster, incremented once per label. */
  method CountClusters(predictions: seq<nat>, numColors: nat) returns (counts: seq<nat>)
    requires forall i :: 0 <= i < |predictions| ==> predictions[i] < numColors
    ensures |counts| == numColors
    ensures forall j :: 0 <= j < numColors ==> counts[j] == multiset(predictions)[j]
  {
    var clusterCounts := new nat[numColors](_ => 0);
    for n := 0 to |predictions|
      invariant forall j :: 0 <= j < numColors ==> clusterCounts[j] == multiset(predictions[..n])[j]
    {
      var cluster := predictions[n];
      clusterCounts[cluster] := clusterCounts[cluster] + 1;
      assert predictions[..n + 1] == predictions[..n] + [cluster];
    }
    assert predictions[..|predictions|] == predictions;
    counts := clusterCounts[..];
  }

  // ---------------------------------------------------------------------
  // From centroids and counts to colour records

  /** A centroid component clamped to [0, 255] and truncated toward zero. */
  function ToChannel(x: real): (b: Byte)
    ensures x <= 0.0 ==> b == 0
    ensures x >= 255.0 ==> b == 255
    ensures 0.0 <= x <= 255.0 ==> b as real <= x < b as real + 1.0
  {
    var clamped := if x < 0.0 then 0.0 else if x > 255.0 then 255.0 else x;
    clamped.Floor
  }

  /** An integral channel value survives the clamp and truncation unchanged. */
  lemma ToChannelOfByte(v: Byte)
    ensures ToChannel(v as real) == v
  {
  }

  /** `count / total * 100` as a 32-bit float, but exact. */
  function Share(count: nat, total: nat): (p: Float)
    ensures total > 0 <==> p.Finite?
    ensures total == 0 ==> (p == NaN <==> count == 0) && (p == Infinity <==> count > 0)
  {
    if total > 0 then Finite(count as real / total as real * 100.0)
    else if count == 0 then NaN
    else Infinity
  }

  /** A finite share, scaled by the total, is 100 times the count; it lies in [0, 100] when the count does not exceed the total. */
  lemma ShareScaled(count: nat, total: nat)
    requires total > 0
    ensures Share(count, total).value * total as real == 100.0 * count as real
    ensures count <= total ==> 0.0 <= Share(count, total).value <= 100.0
  {
  }

  /** The record for one centroid and the number of pixels labelled with it. */
  function CentroidColor(centroid: Vector3, count: nat, total: nat): Color {
    Color(ToChannel(centroid[0]), ToChannel(centroid[1]), ToChannel(centroid[2]), Share(count, total))
  }

  function Min(a: nat, b: nat): nat {
    if a <= b then a else b
  }

  /** Pairs the j-th centroid with the j-th count, stopping at the shorter sequence. */
  function ZipColors(centroids: seq<Vector3>, counts: seq<nat>, total: nat): (colors: seq<Color>)
    ensures |colors| == Min(|centroids|, |counts|)
    ensures forall j :: 0 <= j < |colors| ==> colors[j] == CentroidColor(centroids[j], counts[j], total)
  {
    if centroids == [] || counts == [] then []
    else [CentroidColor(centroids[0], counts[0], total)] + ZipColors(centroids[1..], counts[1..], total)
  }

  /** The sum of the finite percentages of some records. */
  function PercentTotal(colors: seq<Color>): real {
    if colors == [] then 0.0
    else (if colors[0].percentage.Finite? then colors[0].percentage.value else 0.0) + PercentTotal(colors[1..])
  }

  /** Shares of one total add up like their counts. */
  lemma ShareAdd(a: nat, b: nat, total: nat)
    requires total > 0
    ensures Share(a, total).value + Share(b, total).value == Share(a + b, total).value
  {
    var t := total as real;
    assert a as real / t + b as real / t == (a + b) as real / t;
  }

  /** Every pixel in one cluster is 100 percent; none is 0 percent. */
  lemma ShareOfAll(total: nat)
    requires total > 0
    ensures Share(total, total).value == 100.0
    ensures Share(0, total).value == 0.0
  {
  }

  /** The percentages of a zip are the first record's plus those of the rest. */
  lemma ZipUnfold(centroids: seq<Vector3>, counts: seq<nat>, total: nat)
    requires total > 0 && 0 < |counts| <= |centroids|
    ensures PercentTotal(ZipColors(centroids, counts, total))
         == Share(counts[0], total).value + PercentTotal(ZipColors(centroids[1..], counts[1..], total))
  {
    var colors := ZipColors(centroids, counts, total);
    assert colors == [CentroidColor(centroids[0], counts[0], total)] + ZipColors(centroids[1..], counts[1..], total);
    assert colors[1..] == ZipColors(centroids[1..], counts[1..], total);
  }

  /** With a positive total the zipped percentages add up to the share of all the counts together. */
  lemma {:induction false} ZipPercentTotal(centroids: seq<Vector3>, counts: seq<nat>, total: nat)
    requires total > 0 && |counts| <= |centroids|
    ensures PercentTotal(ZipColors(centroids, counts, total)) == Share(Sum(counts), total).value
  {
    if counts == [] {
      assert ZipColors(centroids, counts, total) == [];
      ShareOfAll(total);
    } else {
      ZipPercentTotal(centroids[1..], counts[1..], total);
      ZipUnfold(centroids, counts, total);
      ShareAdd(counts[0], Sum(counts[1..]), total);
    }
  }

  // ---------------------------------------------------------------------
  // The extraction as a whole

  /** The k-means parameters for a given colour count. */
  function Params(numColors: nat): KMeansParams {
    KMeansParams(numColors, MaxIterations, Tolerance)
  }

  /** What the extractor returns, stated with the reference definitions above. */
  function Extracted(extractor: ColorExtractor, numColors: nat, kmeans: KMeans): Result<seq<Color>> {
    if numColors < 1 then Err(InvalidColorCount(ColorCountMessage))
    else
      var image := extractor.image;
      var total := image.width * image.height;
      match FromShapeVec(total, 3, ChannelBuffer(image.pixels))
      case ShapeMismatch => Err(ImageProcessError(ShapeErrorMessage))
      case Shaped(observations) =>
        match kmeans(Params(numColors), observations)
        case FitFailed(message) => Err(ColorExtractionError(message))
        case Fitted(centroids, predictions) => Ok(ZipColors(centroids, Histogram(predictions, numColors), total))
  }

  /** The extractor's entry point. */
  method ExtractColors(extractor: ColorExtractor, numColors: nat, kmeans: KMeans) returns (result: Result<seq<Color>>)
    requires PixelCountFitsU32(extractor.image)
    requires LabelsInRange(kmeans)
    ensures result == Extracted(extractor, numColors, kmeans)
    ensures numColors < 1 ==> result == Err(InvalidColorCount(ColorCountMessage))
  {
    if numColors < 1 {
      return Err(InvalidColorCount(ColorCountMessage));
    }
    var image := extractor.image;
    var totalPixels := image.width * image.height;
    var pixelData := FlattenPixels(image.pixels);
    var shaped := FromShapeVec(totalPixels, 3, pixelData);
    if shaped.ShapeMismatch? {
      return Err(ImageProcessError(ShapeErrorMessage));
    }
    var observations := shaped.rows;
    var fit := kmeans(Params(numColors), observations);
    if fit.FitFailed? {
      return Err(ColorExtractionError(fit.message));
    }
    assert LabelsBelow(fit, numColors);
    var clusterCounts := CountClusters(fit.predictions, numColors);
    assert clusterCounts == Histogram(fit.predictions, numColors);
    var colors := ZipColors(fit.centroids, clusterCounts, totalPixels);
    result := Ok(colors);
  }

  /**
   * For a valid image and a positive colour count the extraction never fails
   * in the reshape; a failed fit is reported as ColorExtractionError with the
   * fit's message; a fit gives one record per centroid (up to numColors), in
   * centroid order, with the clamped channels and the share of labels.
   */
  lemma ExtractedOutcome(extractor: ColorExtractor, numColors: nat, kmeans: KMeans)
    requires ValidImage(extractor.image) && numColors >= 1 && LabelsInRange(kmeans)
    ensures !(Extracted(extractor, numColors, kmeans).Err? && Extracted(extractor, numColors, kmeans).error.ImageProcessError?)
    ensures var fit := kmeans(Params(numColors), Observations(extractor.image.pixels));
      && (fit.FitFailed? ==> Extracted(extractor, numColors, kmeans) == Err(ColorExtractionError(fit.message)))
      && (fit.Fitted? ==>
            var colors := Extracted(extractor, numColors, kmeans);
            && colors.Ok?
            && |colors.value| == Min(|fit.centroids|, numColors)
            && forall j :: 0 <= j < |colors.value| ==>
                 colors.value[j] == CentroidColor(fit.centroids[j], multiset(fit.predictions)[j], |extractor.image.pixels|))
  {
    ReshapeSucceeds(extractor.image);
  }

  /**
   * When k-means labels every pixel and returns numColors centroids, the
   * extraction yields exactly numColors records whose counts cover every
   * pixel, so that, for a non-empty image, the percentages are finite and
   * add up to 100.
   */
  lemma {:induction false} PercentagesSumTo100(extractor: ColorExtractor, numColors: nat, kmeans: KMeans)
    requires ValidImage(extractor.image) && numColors >= 1 && |extractor.image.pixels| > 0
    requires LabelsInRange(kmeans) && FitsEveryObservation(kmeans)
    requires kmeans(Params(numColors), Observations(extractor.image.pixels)).Fitted?
    ensures Extracted(extractor, numColors, kmeans).Ok?
    ensures |Extracted(extractor, numColors, kmeans).value| == numColors
    ensures forall j :: 0 <= j < numColors ==> Extracted(extractor, numColors, kmeans).value[j].percentage.Finite?
    ensures PercentTotal(Extracted(extractor, numColors, kmeans).value) == 100.0
  {
    var pixels := extractor.image.pixels;
    var fit := kmeans(Params(numColors), Observations(pixels));
    assert LabelsBelow(fit, Params(numColors).nClusters);
    var counts := Histogram(fit.predictions, numColors);
    ExtractedIsZip(extractor, numColors, kmeans);
    HistogramSum(fit.predictions, numColors);
    ZipPercentTotal(fit.centroids, counts, |pixels|);
    ShareOfAll(|pixels|);
  }

  /** A fitted extraction of a valid image is the zip of the centroids with the histogram. */
  lemma ExtractedIsZip(extractor: ColorExtractor, numColors: nat, kmeans: KMeans)
    requires ValidImage(extractor.image) && numColors >= 1 && LabelsInRange(kmeans)
    requires kmeans(Params(numColors), Observations(extractor.image.pixels)).Fitted?
    ensures var fit := kmeans(Params(numColors), Observations(extractor.image.pixels));
      Extracted(extractor, numColors, kmeans)
        == Ok(ZipColors(fit.centroids, Histogram(fit.predictions, numColors), |extractor.image.pixels|))
  {
    ReshapeSucceeds(extractor.image);
  }

  /**
   * A uniformly coloured, non-empty image asked for one colour, where k-means
   * puts its single centroid on that colour, yields exactly that colour at 100 percent.
   */
  lemma UniformImage(extractor: ColorExtractor, kmeans: KMeans, pixel: Pixel)
    requires ValidImage(extractor.image) && |extractor.image.pixels| > 0
    requires forall i :: 0 <= i < |extractor.image.pixels| ==> extractor.image.pixels[i] == pixel
    requires LabelsInRange(kmeans) && FitsEveryObservation(kmeans)
    requires kmeans(Params(1), Observations(extractor.image.pixels)).Fitted?
    requires kmeans(Params(1), Observations(extractor.image.pixels)).centroids
          == [[pixel.r as real, pixel.g as real, pixel.b as real]]
    ensures Extracted(extractor, 1, kmeans) == Ok([Color(pixel.r, pixel.g, pixel.b, Finite(100.0))])
  {
    var pixels := extractor.image.pixels;
    var fit := kmeans(Params(1), Observations(pixels));
    assert LabelsBelow(fit, Params(1).nClusters);
    ExtractedIsZip(extractor, 1, kmeans);
    HistogramSum(fit.predictions, 1);
    var counts := Histogram(fit.predictions, 1);
    assert counts == [counts[0]];
    assert Sum(counts) == counts[0];
    ShareOfAll(|pixels|);
    assert Share(counts[0], |pixels|) == Finite(100.0);
    ToChannelOfByte(pixel.r);
    ToChannelOfByte(pixel.g);
    ToChannelOfByte(pixel.b);
    var centroid := fit.centroids[0];
    assert CentroidColor(centroid, counts[0], |pixels|) == Color(pixel.r, pixel.g, pixel.b, Finite(100.0));
    assert ZipColors(fit.centroids, counts, |pixels|) == [CentroidColor(centroid, counts[0], |pixels|)];
  }
}
