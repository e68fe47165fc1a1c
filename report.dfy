/**
 * The command-line front end's pure part: the human-readable report (one
 * `Color: #RRGGBB (RGB: r, g, b) - p%` line per record, joined by newlines)
 * and the choice between that report and JSON.
 */
module Report {
  import opened Errors
  import opened Colors
  import Extraction

  /** The character for a decimal digit. */
  function DigitChar(d: nat): (ch: char)
    requires d < 10
    ensures '0' <= ch <= '9'
  {
    ('0' as int + d) as char
  }

  predicate AllDigits(s: string) {
    forall i :: 0 <= i < |s| ==> '0' <= s[i] <= '9'
  }

  /** A number in decimal, without leading zeros (`{}` on an unsigned integer). */
  function Decimal(n: nat): (s: string)
    ensures |s| >= 1 && AllDigits(s)
    ensures s[0] == '0' ==> n == 0 && s == "0"
    decreases n
  {
    if n < 10 then [DigitChar(n)] else Decimal(n / 10) + [DigitChar(n % 10)]
  }

  /** The number a string of decimal digits denotes. */
  function DecimalValue(s: string): nat
    requires AllDigits(s)
  {
    if s == [] then 0 else DecimalValue(s[..|s| - 1]) * 10 + (s[|s| - 1] as int - '0' as int)
  }

  /** Reading the decimal rendering back gives the number. */
  lemma {:induction false} DecimalRoundTrip(n: nat)
    ensures DecimalValue(Decimal(n)) == n
    decreases n
  {
    if n >= 10 {
      var s := Decimal(n);
      assert s[..|s| - 1] == Decimal(n / 10);
      DecimalRoundTrip(n / 10);
    }
  }

  /** The report line for one record; the rendering of the percentage is a parameter. */
  function Line(c: Color, render: Float -> string): string {
    "Color: " + (ToHex(c) + (" " + (RgbField(c) + (" - " + (render(c.percentage) + "%")))))
  }

  /** The parenthesised decimal channels of a record. */
  function RgbField(c: Color): string {
    "(RGB: " + Decimal(c.r) + ", " + Decimal(c.g) + ", " + Decimal(c.b) + ")"
  }

  /**
   * A line starts with `Color: ` and the record's hex code, from which its
   * channels decode, shows the channels in decimal, and ends with ` - `, the
   * rendered percentage and `%`.
   */
  lemma LineLayout(c: Color, render: Float -> string)
    ensures var line := Line(c, render);
      && |line| > 14
      && line[..7] == "Color: "
      && line[7..14] == ToHex(c)
      && DecodeHex(line[7..14]) == Some((c.r, c.g, c.b))
      && line[14..] == " " + (RgbField(c) + (" - " + (render(c.percentage) + "%")))
  {
    DecodeToHex(c);
  }

  /** A line breaks only where the rendered percentage does. */
  lemma LineHasNoNewline(c: Color, render: Float -> string)
    requires '\n' !in render(c.percentage)
    ensures '\n' !in Line(c, render)
  {
    var hex := ToHex(c);
    assert '\n' !in hex by {
      forall i | 0 <= i < |hex| ensures hex[i] != '\n' {
        assert i == 0 || IsUpperHexDigit(hex[i]);
      }
    }
    var r, g, b := Decimal(c.r), Decimal(c.g), Decimal(c.b);
    assert RgbField(c) == "(RGB: " + r + ", " + g + ", " + b + ")";
    assert '\n' !in r && '\n' !in g && '\n' !in b by {
      assert forall i :: 0 <= i < |r| ==> r[i] != '\n';
      assert forall i :: 0 <= i < |g| ==> g[i] != '\n';
      assert forall i :: 0 <= i < |b| ==> b[i] != '\n';
    }
  }

  /** One line per record, in record order. */
  function Lines(colors: seq<Color>, render: Float -> string): seq<string> {
    seq(|colors|, i requires 0 <= i < |colors| => Line(colors[i], render))
  }

  /** The parts, with sep between each two neighbours (`join` on a slice of strings). */
  function Join(parts: seq<string>, sep: string): string {
    if |parts| == 0 then ""
    else if |parts| == 1 then parts[0]
    else parts[0] + sep + Join(parts[1..], sep)
  }

  /** The pieces of s between occurrences of sep (`split` on a string); always at least one. */
  function Split(s: string, sep: char): (pieces: seq<string>)
    ensures |pieces| >= 1
    ensures forall i :: 0 <= i < |pieces| ==> sep !in pieces[i]
  {
    if s == [] then [""]
    else
      var rest := Split(s[1..], sep);
      if s[0] == sep then [""] + rest
      else [[s[0]] + rest[0]] + rest[1..]
  }

  lemma {:induction false} SplitWithoutSeparator(s: string, sep: char)
    requires sep !in s
    ensures Split(s, sep) == [s]
  {
    if s != [] {
      assert sep !in s[1..];
      SplitWithoutSeparator(s[1..], sep);
      assert [s[0]] + s[1..] == s;
    }
  }

  lemma {:induction false} SplitAtSeparator(a: string, sep: char, b: string)
    requires sep !in a
    ensures Split(a + [sep] + b, sep) == [a] + Split(b, sep)
  {
    var s := a + [sep] + b;
    if a == [] {
      assert s == [sep] + b;
      assert s[1..] == b;
    } else {
      assert s[1..] == a[1..] + [sep] + b;
      assert sep !in a[1..];
      SplitAtSeparator(a[1..], sep, b);
      assert [a[0]] + a[1..] == a;
    }
  }

  /** Splitting a join of separator-free parts gives the parts back. */
  lemma {:induction false} SplitJoin(parts: seq<string>, sep: char)
    requires |parts| >= 1
    requires forall i :: 0 <= i < |parts| ==> sep !in parts[i]
    ensures Split(Join(parts, [sep]), sep) == parts
  {
    if |parts| == 1 {
      SplitWithoutSeparator(parts[0], sep);
    } else {
      SplitJoin(parts[1..], sep);
      SplitAtSeparator(parts[0], sep, Join(parts[1..], [sep]));
      assert [parts[0]] + parts[1..] == parts;
    }
  }

  /** Joining n separator-free parts puts exactly n - 1 separators into the result. */
  lemma {:induction false} JoinSeparatorCount(parts: seq<string>, sep: char)
    requires |parts| >= 1
    requires forall i :: 0 <= i < |parts| ==> sep !in parts[i]
    ensures multiset(Join(parts, [sep]))[sep] == |parts| - 1
  {
    if |parts| == 1 {
      assert multiset(parts[0])[sep] == 0;
    } else {
      JoinSeparatorCount(parts[1..], sep);
      assert multiset(parts[0])[sep] == 0;
    }
  }

  /** s occurs in t as a contiguous piece (`contains` on a string). */
  predicate Contains(t: string, s: string)
    decreases |t|
  {
    s <= t || (t != [] && Contains(t[1..], s))
  }

  lemma {:induction false} ContainsExtendLeft(a: string, t: string, s: string)
    requires Contains(t, s)
    ensures Contains(a + t, s)
    decreases |a|
  {
    if a != [] {
      assert (a + t)[1..] == a[1..] + t;
      ContainsExtendLeft(a[1..], t, s);
    } else {
      assert a + t == t;
    }
  }

  lemma ContainsInfix(a: string, s: string, b: string)
    ensures Contains(a + s + b, s)
  {
    assert s <= s + b;
    ContainsExtendLeft(a, s + b, s);
    assert a + (s + b) == a + s + b;
  }

  /** Each part of a join occurs in the joined string. */
  lemma {:induction false} JoinContainsParts(parts: seq<string>, sep: string, i: nat)
    requires i < |parts|
    ensures Contains(Join(parts, sep), parts[i])
  {
    if |parts| == 1 {
      ContainsInfix([], parts[0], []);
      assert [] + parts[0] + [] == parts[0];
    } else if i == 0 {
      ContainsInfix([], parts[0], sep + Join(parts[1..], sep));
      assert [] + parts[0] + (sep + Join(parts[1..], sep)) == Join(parts, sep);
    } else {
      JoinContainsParts(parts[1..], sep, i - 1);
      ContainsExtendLeft(parts[0] + sep, Join(parts[1..], sep), parts[i]);
    }
  }

  /** The text report: one line per record, joined by newlines; empty for no records. */
  function FormatColorsText(colors: seq<Color>, render: Float -> string): (text: string)
    ensures colors == [] ==> text == ""
    ensures |colors| == 1 ==> text == Line(colors[0], render)
  {
    Join(Lines(colors, render), "\n")
  }

  /**
   * For n >= 1 records whose percentages render without a newline, the
   * report consists of exactly n lines, line i being the line of record i,
   * and holds exactly n - 1 newlines.
   */
  lemma {:induction false} FormatColorsTextLines(colors: seq<Color>, render: Float -> string)
    requires |colors| >= 1
    requires forall i :: 0 <= i < |colors| ==> '\n' !in render(colors[i].percentage)
    ensures Split(FormatColorsText(colors, render), '\n') == Lines(colors, render)
    ensures multiset(FormatColorsText(colors, render))['\n'] == |colors| - 1
  {
    var lines := Lines(colors, render);
    forall i | 0 <= i < |lines|
      ensures '\n' !in lines[i]
    {
      LineHasNoNewline(colors[i], render);
    }
    SplitJoin(lines, '\n');
    JoinSeparatorCount(lines, '\n');
  }

  lemma {:induction false} ContainsAt(t: string, k: nat, s: string)
    requires k <= |t| && s <= t[k..]
    ensures Contains(t, s)
    decreases k
  {
    if k > 0 {
      assert t[1..][k - 1..] == t[k..];
      ContainsAt(t[1..], k - 1, s);
    }
  }

  /** What contains s + b contains s. */
  lemma {:induction false} ContainsPrefixOf(t: string, s: string, b: string)
    requires Contains(t, s + b)
    ensures Contains(t, s)
    decreases |t|
  {
    if !(s + b <= t) {
      ContainsPrefixOf(t[1..], s, b);
    } else {
      assert s <= t by {
        assert forall k :: 0 <= k < |s| ==> s[k] == (s + b)[k];
      }
    }
  }

  /** What contains a + s contains s. */
  lemma {:induction false} ContainsSuffixOf(t: string, a: string, s: string)
    requires Contains(t, a + s)
    ensures Contains(t, s)
    decreases |t|
  {
    if !(a + s <= t) {
      ContainsSuffixOf(t[1..], a, s);
    } else {
      assert s <= t[|a|..] by {
        assert forall k :: 0 <= k < |s| ==> s[k] == (a + s)[|a| + k] == t[|a| + k];
      }
      ContainsAt(t, |a|, s);
    }
  }

  /** Every record's hex code, decimal channels and rendered percentage appear in the report. */
  lemma ReportShowsEveryColor(colors: seq<Color>, render: Float -> string, i: nat)
    requires i < |colors|
    ensures Contains(FormatColorsText(colors, render), ToHex(colors[i]))
    ensures Contains(FormatColorsText(colors, render), RgbField(colors[i]))
    ensures Contains(FormatColorsText(colors, render), render(colors[i].percentage) + "%")
  {
    var c := colors[i];
    var text := FormatColorsText(colors, render);
    var pct := render(c.percentage) + "%";
    var afterRgb := " - " + pct;
    var afterHex := " " + (RgbField(c) + afterRgb);
    JoinContainsParts(Lines(colors, render), "\n", i);
    assert Contains(text, "Color: " + (ToHex(c) + afterHex));
    ContainsSuffixOf(text, "Color: ", ToHex(c) + afterHex);
    ContainsPrefixOf(text, ToHex(c), afterHex);
    ContainsSuffixOf(text, ToHex(c), afterHex);
    ContainsSuffixOf(text, " ", RgbField(c) + afterRgb);
    ContainsPrefixOf(text, RgbField(c), afterRgb);
    ContainsSuffixOf(text, RgbField(c), afterRgb);
    ContainsSuffixOf(text, " - ", pct);
  }

  /** The report for a red and a blue record at 50% each shows both codes and the rendered share. */
  lemma RedAndBlueReport(render: Float -> string)
    requires render(Finite(50.0)) == "50.0"
    ensures var text := FormatColorsText([Color(255, 0, 0, Finite(50.0)), Color(0, 0, 255, Finite(50.0))], render);
      && Contains(text, "#FF0000") && Contains(text, "#0000FF") && Contains(text, "50.0%")
  {
    var colors := [Color(255, 0, 0, Finite(50.0)), Color(0, 0, 255, Finite(50.0))];
    HexOfRedAndBlue(Finite(50.0));
    ReportShowsEveryColor(colors, render, 0);
    ReportShowsEveryColor(colors, render, 1);
    assert render(colors[0].percentage) + "%" == "50.0%";
  }

  // ---------------------------------------------------------------------
  // Output format selection

  datatype OutputFormat = Json | Text

  /** The two formats the front end accepts; any other name is refused. */
  function ParseFormat(name: string): (format: Option<OutputFormat>)
    ensures format == Some(Json) <==> name == "json"
    ensures format == Some(Text) <==> name == "text"
    ensures format == None <==> name != "json" && name != "text"
  {
    if name == "json" then Some(Json)
    else if name == "text" then Some(Text)
    else None
  }

  const UnsupportedFormatMessage: string := "Unsupported output format"

  /** Why the front end stops: the extractor's error, or an unsupported format name. */
  datatype Failure = ExtractionFailed(error: PigmentsError) | UnsupportedFormat(message: string)

  datatype Outcome = Output(text: string) | Failed(failure: Failure)

  /** The report for a format name; JSON serialisation is a parameter. */
  function Render(name: string, colors: seq<Color>, render: Float -> string, toJson: seq<Color> -> string): (out: Outcome)
    ensures out.Output? <==> ParseFormat(name).Some?
    ensures ParseFormat(name) == Some(Text) ==> out == Output(FormatColorsText(colors, render))
    ensures ParseFormat(name) == Some(Json) ==> out == Output(toJson(colors))
    ensures out.Failed? ==> out.failure == UnsupportedFormat(UnsupportedFormatMessage)
  {
    match name
    case "json" => Output(toJson(colors))
    case "text" => Output(FormatColorsText(colors, render))
    case _ => Failed(UnsupportedFormat(UnsupportedFormatMessage))
  }

  /**
   * The front end without its I/O: extract, then format. An extraction
   * error is reported before the format name is looked at.
   */
  method Run(extractor: Extraction.ColorExtractor, numColors: nat, name: string, kmeans: Extraction.KMeans,
             render: Float -> string, toJson: seq<Color> -> string) returns (out: Outcome)
    requires Extraction.PixelCountFitsU32(extractor.image)
    requires Extraction.LabelsInRange(kmeans)
    ensures Extraction.Extracted(extractor, numColors, kmeans).Err? ==>
              out == Failed(ExtractionFailed(Extraction.Extracted(extractor, numColors, kmeans).error))
    ensures Extraction.Extracted(extractor, numColors, kmeans).Ok? ==>
              out == Render(name, Extraction.Extracted(extractor, numColors, kmeans).value, render, toJson)
  {
    var colors := Extraction.ExtractColors(extractor, numColors, kmeans);
    if colors.Err? {
      return Failed(ExtractionFailed(colors.error));
    }
    out := Render(name, colors.value, render, toJson);
  }
}
