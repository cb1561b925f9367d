/** The shape of a collector's result. Every collector returns a header line and
    zero or more content lines, each printed as `$label%: <coloured token>`; the
    model keeps them as structured lines so that the name, colour and token can
    be reasoned about, and `RenderLine` gives the text they print as. */
module Report {
  import opened Utils
  import opened Text
  import opened Severity
  import CommonVars

  /** Item: "$label%: " + coloured value + detail + newline.
      Plain: "$label%: " + text + newline, uncoloured.
      Raw: verbatim text; Raw("") is the empty header. */
  datatype Line =
    | Item(name: string, tone: Tone, value: string, detail: string)
    | Plain(name: string, text: string)
    | Raw(text: string)

  datatype Output = Output(header: Line, content: seq<Line>)

  /** The header a collector leaves when no branch assigned one. */
  const NoHeader: Line := Raw("")

  /** Container and systemd headers spell their tokens in lower case
      ("critical", "warning"); the temperature and pool headers capitalise them. */
  datatype Casing = Lower | Capital

  function ToneOf(s: Severity): Tone {
    match s
    case OK => Good
    case Warning => Warn
    case Critical => Err
  }

  function Token(s: Severity, casing: Casing): string {
    match s
    case OK => "OK"
    case Warning => if casing == Lower then "warning" else "Warning"
    case Critical => if casing == Lower then "critical" else "Critical"
  }

  /** "<title>: <token>" coloured by severity. */
  function SeverityHeader(title: string, s: Severity, casing: Casing): Line {
    Item(title, ToneOf(s), Token(s, casing), "")
  }

  /** A header or line with a fixed token, such as "unavailable". */
  function Notice(title: string, tone: Tone, token: string): Line {
    Item(title, tone, token, "")
  }

  function Unavailable(title: string): Line {
    Notice(title, Warn, "unavailable")
  }

  /** The severity a header reports is recoverable from it. */
  lemma SeverityHeaderInjective(title: string, s1: Severity, s2: Severity, casing: Casing)
    requires SeverityHeader(title, s1, casing) == SeverityHeader(title, s2, casing)
    ensures s1 == s2
  {
  }

  /** A severity header is never the empty header nor the "unavailable" one. */
  lemma SeverityHeaderIsNotNotice(title: string, s: Severity, casing: Casing)
    ensures SeverityHeader(title, s, casing) != NoHeader
    ensures SeverityHeader(title, s, casing) != Unavailable(title)
  {
  }

  function Label(l: Line): string {
    match l
    case Item(name, _, _, _) => name
    case Plain(name, _) => name
    case Raw(_) => ""
  }

  function Labels(ls: seq<Line>): (r: seq<string>)
    ensures |r| == |ls|
    ensures forall i :: 0 <= i < |ls| ==> r[i] == Label(ls[i])
  {
    seq(|ls|, i requires 0 <= i < |ls| => Label(ls[i]))
  }

  lemma LabelsAppend(a: seq<Line>, b: seq<Line>)
    ensures Labels(a + b) == Labels(a) + Labels(b)
  {
  }

  /** The text a line prints as: `fmt.Sprintf("%s: %s\n", Wrap(name, padL, padR), Colour(value))`. */
  function RenderLine(l: Line, noColors: bool): string {
    match l
    case Item(name, tone, value, detail) =>
      Wrap(name, CommonVars.PadL, CommonVars.PadR) + ": " + Paint(tone, noColors, value) + detail + "\n"
    case Plain(name, text) =>
      Wrap(name, CommonVars.PadL, CommonVars.PadR) + ": " + text + "\n"
    case Raw(text) => text
  }

  /** Content is the concatenation of its lines. */
  function RenderLines(ls: seq<Line>, noColors: bool): string {
    if |ls| == 0 then "" else RenderLine(ls[0], noColors) + RenderLines(ls[1..], noColors)
  }

  /** A rendered item starts with its marked-up name and ends the line; without
      colours the token appears verbatim. */
  lemma RenderItemShape(name: string, tone: Tone, value: string)
    ensures var r := RenderLine(Item(name, tone, value, ""), true);
      r == "$" + name + "%: " + value + "\n"
    ensures var r := RenderLine(Item(name, tone, value, ""), false);
      HasPrefix(r, "$" + name + "%: ") && r[|r| - 1] == '\n'
  {
  }

  /** Non-empty content lines render to non-empty text, so an empty content
      string means no lines. */
  lemma RenderLinesEmpty(ls: seq<Line>, noColors: bool)
    requires forall i :: 0 <= i < |ls| ==> !ls[i].Raw?
    ensures RenderLines(ls, noColors) == "" <==> |ls| == 0
  {
    if |ls| > 0 {
      var r := RenderLine(ls[0], noColors);
      assert |r| > 0;
    }
  }
}
