/** utils/utils.go, utils/types.go and utils/colors.go. The older package
    types/types.go carries byte-identical copies of Wrap, StringSet and Pad, which
    are modelled here once. */
module Utils {
  import opened Text

  /** Wrap(s, start, end): `s` between `start` and `end`. */
  function Wrap(s: string, start: string, end: string): (r: string)
    ensures |r| == |start| + |s| + |end|
    ensures HasPrefix(r, start)
    ensures r[|r| - |end|..] == end
  {
    start + s + end
  }

  /** Cuts the given delimiters off again. */
  function Unwrap(r: string, start: string, end: string): string
    requires |start| + |end| <= |r|
  {
    r[|start|..|r| - |end|]
  }

  /** Wrapping loses nothing: the wrapped text is recovered from the result. */
  lemma UnwrapWrap(s: string, start: string, end: string)
    ensures Unwrap(Wrap(s, start, end), start, end) == s
  {
    var r := start + s + end;
    assert r[|start|..|r| - |end|] == s;
  }

  /** Two different texts never wrap to the same string. */
  lemma WrapInjective(a: string, b: string, start: string, end: string)
    requires Wrap(a, start, end) == Wrap(b, start, end)
    ensures a == b
  {
    UnwrapWrap(a, start, end);
    UnwrapWrap(b, start, end);
  }

  lemma WrapEmptyIsIdentity(s: string)
    ensures Wrap(s, "", "") == s
  {
  }

  /** StringSet: a set of strings. */
  type StringSet = set<string>

  /** StringSet.FromList: a fresh set holding exactly the list's elements, whatever
      the receiver held; duplicates collapse. */
  function FromList(list: seq<string>): (r: StringSet)
    ensures forall v :: v in r <==> v in list
    ensures |r| <= |list|
  {
    if |list| == 0 then {}
    else
      var rest := FromList(list[..|list| - 1]);
      assert list == list[..|list| - 1] + [list[|list| - 1]];
      rest + {list[|list| - 1]}
  }

  /** StringSet.Contains: exact-match membership. */
  predicate Contains(s: StringSet, v: string) {
    v in s
  }

  lemma ContainsFromList(list: seq<string>, v: string)
    ensures Contains(FromList(list), v) <==> exists i :: 0 <= i < |list| && list[i] == v
  {
  }

  /** Repeating an element already in the list changes nothing. */
  lemma FromListDuplicate(list: seq<string>, i: nat)
    requires i < |list|
    ensures FromList(list + [list[i]]) == FromList(list)
  {
  }

  /** Pad.Do with no delimiters: the tab-writer loop does not run and only the
      final strings.TrimSuffix(.., "\n") applies. */
  function PadNoDelims(content: string): (r: string)
    ensures |content| > 0 && content[|content| - 1] == '\n' ==> r + "\n" == content
    ensures !(|content| > 0 && content[|content| - 1] == '\n') ==> r == content
  {
    if |content| > 0 && content[|content| - 1] == '\n' then content[..|content| - 1] else content
  }

  /** The three colour functions the collectors paint tokens with. */
  datatype Tone = Good | Warn | Err

  /** A colour format "<open>%s<close>" as given to Color. */
  datatype ColorFormat = ColorFormat(open: string, close: string)

  const Reset: string := "\U{1B}[0m"
  const Red: ColorFormat := ColorFormat("\U{1B}[1;31m", Reset)
  const Green: ColorFormat := ColorFormat("\U{1B}[1;32m", Reset)
  const Yellow: ColorFormat := ColorFormat("\U{1B}[1;33m", Reset)

  /** NoColors starts out false. */
  const DefaultNoColors: bool := false

  /** Good is green, Warn yellow, Err red. */
  function FormatOf(t: Tone): ColorFormat {
    match t
    case Good => Green
    case Warn => Yellow
    case Err => Red
  }

  /** The function Color(format) returns, applied to `text`. */
  function Color(f: ColorFormat, noColors: bool, text: string): (r: string)
    ensures noColors ==> r == text
    ensures !noColors ==> |r| == |f.open| + |text| + |f.close|
    ensures !noColors ==> HasPrefix(r, f.open) && r[|r| - |f.close|..] == f.close
  {
    if noColors then text else Wrap(text, f.open, f.close)
  }

  function Paint(t: Tone, noColors: bool, text: string): string {
    Color(FormatOf(t), noColors, text)
  }

  /** Removing the colour prefix and the reset suffix gives back the plain text. */
  lemma PaintRoundTrip(t: Tone, text: string)
    ensures Unwrap(Paint(t, false, text), FormatOf(t).open, Reset) == text
    ensures Paint(t, true, text) == text
  {
    UnwrapWrap(text, FormatOf(t).open, Reset);
  }

  /** Painted tokens of different tones never coincide. */
  lemma PaintDistinguishesTones(t1: Tone, t2: Tone, a: string, b: string)
    requires t1 != t2
    ensures Paint(t1, false, a) != Paint(t2, false, b)
  {
    var p1 := Paint(t1, false, a);
    var p2 := Paint(t2, false, b);
    assert p1[5] == FormatOf(t1).open[5];
    assert p2[5] == FormatOf(t2).open[5];
  }
}
