/** The error kinds of the colour extractor and its result type. */
module Errors {

  /** One constructor per variant of the extractor's error enum; each carries its message. */
  datatype PigmentsError =
    | ImageProcessError(message: string)
    | ColorExtractionError(message: string)
    | InvalidColorCount(message: string)
    | IoError(message: string)

  /** The extractor's `Result<T>`: a value or a `PigmentsError`. */
  datatype Result<T> = Ok(value: T) | Err(error: PigmentsError)

  /** The fixed text each variant's display puts before its message. */
  function Prefix(e: PigmentsError): string {
    match e
    case ImageProcessError(_) => "Failed to process image: "
    case ColorExtractionError(_) => "Failed to extract colors: "
    case InvalidColorCount(_) => "Invalid number of colors requested: "
    case IoError(_) => "IO error: "
  }

  /** The error's display text: the variant's prefix followed by the carried message. */
  function Describe(e: PigmentsError): (s: string)
    ensures |Prefix(e)| >= 10 && Prefix(e) <= s
    ensures s[|Prefix(e)|..] == e.message
  {
    Prefix(e) + e.message
  }

  /** No two distinct errors display alike: the text determines the variant and its message. */
  lemma {:induction false} DescribeInjective(a: PigmentsError, b: PigmentsError)
    ensures Describe(a) == Describe(b) <==> a == b
  {
    if Describe(a) == Describe(b) {
      var s := Describe(a);
      assert s[0] == Prefix(a)[0] == Prefix(b)[0];
      assert s[1] == Prefix(a)[1] == Prefix(b)[1];
      if a.ImageProcessError? || a.ColorExtractionError? {
        assert s[10] == Prefix(a)[10] == Prefix(b)[10];
      }
      assert Prefix(a) == Prefix(b);
      assert a.message == s[|Prefix(a)|..] == b.message;
    }
  }
}
