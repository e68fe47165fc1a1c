# pigments colour extractor: a Dafny model

pigments is a command-line tool that reports the dominant colours of an image.
It reads the image's pixels as RGB points and asks a k-means library for
`num_colors` centroids and a cluster label for every pixel. Each centroid
becomes a colour record: three 8-bit channels plus the percentage of pixels
labelled with it. The records are printed as JSON or as a text report.

This project models the tool's own code around the k-means call and proves
what that code guarantees:

- `Colors`: the `Color` record and its `#RRGGBB` rendering (`Color::to_hex`).
  A decoder `DecodeHex` inverts the rendering. With it the model proves that
  the rendering is seven characters long, starts with `#`, uses upper-case
  hex digits, gives the channels back when decoded, and is injective on the
  channels. `Color::new` is the datatype constructor `Color`.
- `Extraction`: `ColorExtractor::extract_colors`. It covers:
  - the guard that rejects a colour count of zero;
  - the loop that flattens the row-major pixel grid into a channel buffer;
  - the reshape of that buffer into an N x 3 observation matrix, which
    cannot fail for a valid image;
  - the loop that counts labels per cluster, whose counts add up to the
    number of labels;
  - the zip of centroids with counts into records whose percentages add up
    to exactly 100 when computed over the reals.

  k-means (fit, then predict) is the parameter `kmeans`. The model assumes
  only what the extractor relies on: every label is below the requested
  cluster count (`LabelsInRange`). Without that the source would index out
  of bounds.
- `Report`: the text report `format_colors_text` and the choice of output
  format in `main`. The model proves that the report of n >= 1 records splits
  back into exactly n lines, one per record and in record order, with n - 1
  newlines, provided the percentage rendering puts no newline into any
  line. Each line starts with `Color: ` and the record's hex code and shows
  its decimal channels and its rendered percentage. Only the names
  `json` and `text` are accepted.
- `Errors`: the error enum, its display texts and the crate's `Result`. The
  display text determines the error: no two distinct errors display alike.

What the code does and does not do:

- The code implements no clustering, downsampling, seeding or convergence
  test. All of that is the library's.
- The code rejects only a colour count of zero, with `InvalidColorCount`.
  A colour count larger than the pixel count is left to the library: a
  failed fit becomes `ColorExtractionError`.
- The code does not rank the records. They come in centroid order.
- A channel is clamped and then truncated toward zero, not rounded to
  nearest.
- A missing centroid makes the zip stop early. The record count is then
  `min(centroids, num_colors)`: it equals `num_colors` only when k-means
  returns that many centroids.

## Model

| member | source | states |
|---|---|---|
| `Colors.HexDigit` | src/core/color.rs:29 | the digit for a nibble is an upper-case hex digit, a decimal digit exactly for nibbles below 10 |
| `Colors.ByteHex` | src/core/color.rs:29 | a byte renders as exactly two upper-case hex digits (`{:02X}`) |
| `Colors.ToHex` | src/core/color.rs:28-30 | the rendering has 7 characters, starts with `#`, and characters 1-6 are upper-case hex digits |
| `Colors.DecodeHex` | src/core/color.rs:29 | the decoder accepts exactly the strings of `#` followed by six upper-case hex digits |
| `Colors.DecodeToHex` | src/core/color.rs:29 | decoding the rendering gives back (r, g, b): two digits per channel, in r, g, b order, high nibble first |
| `Colors.ToHexOfDecoded` | src/core/color.rs:29 | every string the decoder accepts is the rendering of the channels it decodes to, so the renderings are exactly the decodable strings |
| `Colors.ToHexInjective` | src/core/color.rs:28-30 | two colours render alike if and only if their three channels agree |
| `Colors.HexOfRedAndBlue` | src/main.rs:64-70 | pure red renders as `#FF0000` and pure blue as `#0000FF` |
| `Extraction.ChannelBuffer` | src/core/color.rs:54-60 | the channel buffer has 3 * N entries; entry 3 * i + c is channel c of pixel i |
| `Extraction.BufferIsRowMajor` | src/core/color.rs:56-59 | channel c of the pixel at column x, row y is entry 3 * (y * width + x) + c of the buffer |
| `Extraction.FlattenPixels` | src/core/color.rs:54-60 | the push loop builds exactly the channel buffer of the pixels |
| `Extraction.FromShapeVec` | src/core/color.rs:62-65 | the reshape succeeds if and only if the buffer holds rows * cols entries, and then element (i, j) is buffer entry i * cols + j |
| `Extraction.ReshapeSucceeds` | src/core/color.rs:62-65 | for an image of width * height pixels the reshape into (width * height, 3) cannot fail, and row i holds the channels of pixel i |
| `Extraction.Observations` | src/core/color.rs:62-65 | defined as the N x 3 matrix whose row i is [r, g, b] of pixel i as reals; `ReshapeSucceeds` proves it is what the reshape produces |
| `Extraction.CountClusters` | src/core/color.rs:82-85 | the counting loop returns num_colors counts, count j being the number of labels equal to j |
| `Extraction.HistogramSum` | src/core/color.rs:82-85 | when every label is below num_colors, the counts add up to the number of labels |
| `Extraction.Histogram` | src/core/color.rs:82-85 | defined as the sequence of num_colors counts, count j being the multiplicity of label j; `CountClusters` is proved to compute it |
| `Extraction.ToChannel` | src/core/color.rs:93-95 | a centroid component at or below 0 gives 0, at or above 255 gives 255, and in between gives the largest byte not above it |
| `Extraction.ToChannelOfByte` | src/core/color.rs:93-95 | an integral centroid component in 0..255 is reported unchanged |
| `Extraction.Share` | src/core/color.rs:96 | the percentage is finite exactly when the pixel total is positive; for an empty image it is NaN for a zero count and infinity otherwise |
| `Extraction.ShareScaled` | src/core/color.rs:96 | a finite percentage times the pixel total is 100 times the count, and lies in [0, 100] when the count does not exceed the total |
| `Extraction.CentroidColor` | src/core/color.rs:91-97 | defined as the record with each centroid component turned into a channel by `ToChannel` and the percentage `Share(count, total)` |
| `Extraction.ZipColors` | src/core/color.rs:88-99 | one record per (centroid, count) pair, in centroid order, stopping at the shorter sequence; record j has the clamped channels of centroid j and the share of count j |
| `Extraction.ZipPercentTotal` | src/core/color.rs:88-99 | the zipped percentages add up to the share of the sum of the counts |
| `Extraction.ExtractColors` | src/core/color.rs:42-102 | the extractor returns `InvalidColorCount("Number of colors must be at least 1")` for zero colours, and otherwise the result of the reshape, fit, count and zip steps of `Extracted` |
| `Extraction.ExtractedOutcome` | src/core/color.rs:62-99 | for a valid image and a positive colour count: the reshape never fails; a failed fit gives `ColorExtractionError` with the fit's message; a fit gives min(centroids, num_colors) records in centroid order, record j built from centroid j and the number of labels j |
| `Extraction.ExtractedIsZip` | src/core/color.rs:62-101 | a fitted extraction of a valid image returns the zip of the centroids with the label histogram over the pixel count |
| `Extraction.Extracted` | src/core/color.rs:42-101 | defined as: zero colours gives `InvalidColorCount`; a failed reshape gives `ImageProcessError`; a failed fit gives `ColorExtractionError` with the fit's message; a fit gives the zip of the centroids with the label histogram over the pixel count |
| `Extraction.PercentagesSumTo100` | src/core/color.rs:82-99 | when k-means labels every pixel and returns num_colors centroids, a non-empty image gives exactly num_colors records with finite percentages adding up to 100 |
| `Extraction.UniformImage` | src/core/color.rs:88-99 | a uniformly coloured image with one requested colour, whose centroid k-means puts on that colour, gives exactly that colour at 100 percent |
| `Report.Decimal` | src/main.rs:45-49 | a channel prints as a non-empty string of decimal digits without a leading zero: it starts with `0` only when it is exactly `0` for the number 0 |
| `Report.DecimalRoundTrip` | src/main.rs:45-49 | reading the decimal rendering back gives the number |
| `Report.RgbField` | src/main.rs:45-49 | defined as `(RGB: r, g, b)` with each channel in decimal |
| `Report.Line` | src/main.rs:44-51 | defined as `Color: `, the hex code, a space, the RGB field, ` - `, the rendered percentage and `%`; `LineLayout` proves its layout |
| `Report.LineLayout` | src/main.rs:44-51 | a line starts with `Color: ` and the record's hex code, which decodes to its channels, followed by ` (RGB: r, g, b) - `, the rendered percentage and `%` |
| `Report.LineHasNoNewline` | src/main.rs:44-51 | a line contains a newline only if the rendered percentage does |
| `Report.Lines` | src/main.rs:41-53 | defined as the line of each record, in record order |
| `Report.Join` | src/main.rs:53-54 | defined as the parts with the separator between consecutive parts; `SplitJoin` and `JoinSeparatorCount` state its meaning |
| `Report.Split` | src/main.rs:54 | splitting at a separator gives at least one piece and no piece contains the separator |
| `Report.SplitJoin` | src/main.rs:53-54 | splitting a join of separator-free parts gives back exactly the parts |
| `Report.JoinSeparatorCount` | src/main.rs:53-54 | joining n separator-free parts inserts exactly n - 1 separators |
| `Report.FormatColorsText` | src/main.rs:40-55 | the report of no records is the empty string; the report of one record is its line |
| `Report.FormatColorsTextLines` | src/main.rs:40-55 | when the percentage rendering produces no newline, for n >= 1 records the report splits at newlines into exactly the n lines of the records, in record order, and contains exactly n - 1 newlines |
| `Report.ReportShowsEveryColor` | src/main.rs:41-54 | every record's hex code, its `(RGB: r, g, b)` field and its rendered percentage followed by `%` occur in the report |
| `Report.RedAndBlueReport` | src/main.rs:62-72 | the report of a red and a blue record at 50 percent contains `#FF0000`, `#0000FF` and, when 50 renders as `50.0`, `50.0%` |
| `Report.ParseFormat` | src/main.rs:23-27 | `json` selects JSON, `text` selects the text report, and every other name is refused |
| `Report.Render` | src/main.rs:23-27 | output is produced if and only if the format name is accepted: the text report for `text`, the JSON for `json`, otherwise the failure `Unsupported output format` |
| `Report.Run` | src/main.rs:20-27 | an extraction error is reported before the format name is looked at; a successful extraction is rendered in the named format |
| `Errors.Describe` | src/core/error.rs:3-16 | the display text is the variant's fixed prefix (`Failed to process image: `, `Failed to extract colors: `, `Invalid number of colors requested: `, `IO error: `) followed by the carried message |
| `Errors.DescribeInjective` | src/core/error.rs:3-16 | two errors display alike if and only if they are the same variant with the same message |

## Left out

- k-means itself (`KMeans::params(..).fit`, `predict`, `centroids`) is a library call. The model takes it as the parameter `kmeans` and passes it the constants 100 iterations and tolerance 0.0001. It assumes only that labels are below the requested cluster count. `PercentagesSumTo100` and `UniformImage` also assume one label per observation and num_colors centroids.
- Image decoding and `to_rgb8` belong to the image library. The model takes the decoded pixel grid (`RgbImage`) as input.
- The 32-bit float arithmetic is modelled over the reals. This covers the percentage division, the clamp and `as u8` on centroid components, and the conversion of channels and pixel counts to `f32`. Rounding, precision loss for large pixel counts and NaN centroids are not modelled. Division by zero gives the `Infinity`/`NaN` cases of `Float`.
- FormatColorsText: the `{:.1}` rendering of the percentage is the parameter `render`, not a model of float formatting. `Report.FormatColorsTextLines` assumes that `render`, like `{:.1}`, produces no newline.
- Report.Render: `serde_json::to_string_pretty` is the parameter `toJson`; its output format and its error case are not modelled.
- `main`'s I/O is not modelled: reading the image file, writing the output file, `println!`, logging and `env_logger`. Neither is the `debug!` call in the extractor.
- The extractor returns before doing any other work when the colour count is zero. A pure model cannot observe work that produces no result, so this is not stated.
- Command-line parsing (src/cli/mod.rs) is only a declaration of flags and is not part of this model.
- `IoError` carries a message instead of a `std::io::Error`. Its display text is that message after the prefix `IO error: `.
- Extraction.ExtractColors: the 32-bit product `width * height` is assumed not to overflow (`PixelCountFitsU32`); its wrap-around is not modelled.
- Extraction.CountClusters: the source's counts are `i32`, because `vec![0; num_colors]` gets no other integer type. A cluster of more than 2^31 - 1 pixels overflows at src/core/color.rs:84: a debug build panics, and a release build wraps to a negative count and a negative percentage. The model's counts are unbounded naturals, so this overflow is not modelled. `PixelCountFitsU32` still admits images of up to 2^32 - 1 pixels.
- Extraction.FromShapeVec: the reshape failure message is a fixed string standing for the array library's shape error text.
- The integration test (tests/integration_test.rs) runs the program and does file I/O. It is not part of this model.
