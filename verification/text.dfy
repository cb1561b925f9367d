/** The string and number primitives of Go's standard library that the collectors
    rely on, written out over `seq<char>`: `strings.Split`, `strings.TrimPrefix`,
    `strings.Trim`, `strings.TrimSpace`, `strings.ToLower`, `strings.Replace(.., 1)`,
    `strconv.Atoi` and `strconv.Itoa`. */
module Text {
  import opened Wrappers

  predicate HasPrefix(s: string, p: string) {
    |p| <= |s| && s[..|p|] == p
  }

  /** strings.TrimPrefix: drop `p` once if `s` starts with it. */
  function TrimPrefix(s: string, p: string): (r: string)
    ensures HasPrefix(s, p) ==> p + r == s
    ensures !HasPrefix(s, p) ==> r == s
  {
    if HasPrefix(s, p) then s[|p|..] else s
  }

  /** strings.Split for a non-empty separator: the pieces between the leftmost
      non-overlapping occurrences of `sep`. An empty input gives one empty piece. */
  function Split(s: string, sep: string): (parts: seq<string>)
    requires |sep| > 0
    ensures |parts| >= 1
    decreases |s|
  {
    if |s| < |sep| then [s]
    else if s[..|sep|] == sep then [""] + Split(s[|sep|..], sep)
    else
      var rest := Split(s[1..], sep);
      [[s[0]] + rest[0]] + rest[1..]
  }

  /** strings.Join, the inverse of Split. */
  function Join(parts: seq<string>, sep: string): string
    requires |parts| >= 1
  {
    if |parts| == 1 then parts[0] else parts[0] + sep + Join(parts[1..], sep)
  }

  lemma JoinConsHead(c: char, parts: seq<string>, sep: string)
    requires |parts| >= 1
    ensures Join([[c] + parts[0]] + parts[1..], sep) == [c] + Join(parts, sep)
  {
    var q := [[c] + parts[0]] + parts[1..];
    assert q[1..] == parts[1..];
  }

  /** Splitting loses nothing: joining the pieces with the separator gives back the input. */
  lemma {:induction false} JoinSplit(s: string, sep: string)
    requires |sep| > 0
    ensures Join(Split(s, sep), sep) == s
    decreases |s|
  {
    if |s| < |sep| {
    } else if s[..|sep|] == sep {
      JoinSplit(s[|sep|..], sep);
      var parts := [""] + Split(s[|sep|..], sep);
      assert parts[1..] == Split(s[|sep|..], sep);
      assert s == sep + s[|sep|..];
    } else {
      var rest := Split(s[1..], sep);
      JoinSplit(s[1..], sep);
      JoinConsHead(s[0], rest, sep);
      assert s == [s[0]] + s[1..];
    }
  }

  /** A string without the separator character is one piece. */
  lemma {:induction false} SplitNoSep(s: string, c: char)
    requires c !in s
    ensures Split(s, [c]) == [s]
    decreases |s|
  {
    if |s| >= 1 {
      assert s[..1] != [c] by { assert s[0] != c; }
      SplitNoSep(s[1..], c);
      assert [s[0]] + s[1..] == s;
    }
  }

  /** The first piece ends at the first separator. */
  lemma {:induction false} SplitAt(a: string, b: string, c: char)
    requires c !in a
    ensures Split(a + [c] + b, [c]) == [a] + Split(b, [c])
    decreases |a|
  {
    var s := a + [c] + b;
    if |a| == 0 {
      assert s[..1] == [c];
      assert s[1..] == b;
    } else {
      assert s[..1] != [c] by { assert s[0] == a[0] != c; }
      assert s[1..] == a[1..] + [c] + b;
      SplitAt(a[1..], b, c);
      assert [a[0]] + a[1..] == a;
    }
  }

  /** Split undoes Join when no piece contains the separator character. */
  lemma {:induction false} SplitJoin(parts: seq<string>, c: char)
    requires |parts| >= 1
    requires forall i :: 0 <= i < |parts| ==> c !in parts[i]
    ensures Split(Join(parts, [c]), [c]) == parts
  {
    if |parts| == 1 {
      SplitNoSep(parts[0], c);
    } else {
      SplitJoin(parts[1..], c);
      SplitAt(parts[0], Join(parts[1..], [c]), c);
      assert parts == [parts[0]] + parts[1..];
    }
  }

  /** No occurrence of `sep` starts inside `a` when `sep` follows it. */
  predicate SepFreeBefore(a: string, sep: string) {
    forall k: nat :: k < |a| ==> !OccursAt(a + sep, sep, k)
  }

  /** The first piece ends at the first occurrence of a separator of any length. */
  lemma {:induction false} SplitAtSep(a: string, b: string, sep: string)
    requires |sep| > 0
    requires SepFreeBefore(a, sep)
    ensures Split(a + sep + b, sep) == [a] + Split(b, sep)
    decreases |a|
  {
    var s := a + sep + b;
    if |a| == 0 {
      assert s[..|sep|] == sep;
      assert s[|sep|..] == b;
    } else {
      assert s[..|sep|] != sep by {
        assert !OccursAt(a + sep, sep, 0);
        assert (a + sep)[..|sep|] == s[..|sep|];
      }
      assert s[1..] == a[1..] + sep + b;
      assert SepFreeBefore(a[1..], sep) by {
        forall k: nat | k < |a[1..]|
          ensures !OccursAt(a[1..] + sep, sep, k)
        {
          assert !OccursAt(a + sep, sep, k + 1);
          assert (a[1..] + sep)[k..k + |sep|] == (a + sep)[k + 1..k + 1 + |sep|];
        }
      }
      SplitAtSep(a[1..], b, sep);
      assert [a[0]] + a[1..] == a;
    }
  }

  /** A string in which `sep` does not occur is one piece. */
  lemma {:induction false} SplitWhole(s: string, sep: string)
    requires |sep| > 0
    requires forall k: nat :: !OccursAt(s, sep, k)
    ensures Split(s, sep) == [s]
    decreases |s|
  {
    if |s| >= |sep| {
      assert s[..|sep|] != sep by { assert !OccursAt(s, sep, 0); }
      assert forall k: nat :: !OccursAt(s[1..], sep, k) by {
        forall k: nat
          ensures !OccursAt(s[1..], sep, k)
        {
          assert !OccursAt(s, sep, k + 1);
          if k + |sep| <= |s[1..]| {
            assert s[1..][k..k + |sep|] == s[k + 1..k + 1 + |sep|];
          }
        }
      }
      SplitWhole(s[1..], sep);
      assert [s[0]] + s[1..] == s;
    }
  }

  /** The leading run of `c` removed (the left half of strings.Trim with a one-character cutset). */
  function TrimLeft(s: string, c: char): (r: string)
    ensures |r| <= |s|
    ensures |r| > 0 ==> r[0] != c
  {
    if |s| > 0 && s[0] == c then TrimLeft(s[1..], c) else s
  }

  function TrimRight(s: string, c: char): (r: string)
    ensures |r| <= |s|
    ensures |r| > 0 ==> r[|r| - 1] != c
  {
    if |s| > 0 && s[|s| - 1] == c then TrimRight(s[..|s| - 1], c) else s
  }

  /** strings.Trim(s, [c]): every leading and trailing `c` removed. */
  function Trim(s: string, c: char): string {
    TrimRight(TrimLeft(s, c), c)
  }

  /** Trimming a `c`-free string wrapped in single `c`s gives back the string. */
  lemma TrimWrapped(x: string, c: char)
    requires c !in x
    ensures Trim([c] + x + [c], c) == x
  {
    var s := [c] + x + [c];
    assert s[1..] == x + [c];
    if |x| == 0 {
      assert TrimLeft(x + [c], c) == TrimLeft([], c);
    } else {
      assert (x + [c])[0] == x[0];
      assert TrimLeft(s, c) == x + [c];
      assert (x + [c])[..|x|] == x;
      assert TrimRight(x + [c], c) == TrimRight(x, c);
      assert x[|x| - 1] != c;
    }
  }

  /** unicode.IsSpace, the white space strings.TrimSpace removes: the ASCII
      tab, newline, vertical tab, form feed, carriage return and space, and
      U+0085, U+00A0, U+1680, U+2000 to U+200A, U+2028, U+2029, U+202F, U+205F
      and U+3000. */
  predicate IsSpace(ch: char) {
    ch == ' ' || ch == '\t' || ch == '\n' || ch == '\r' || ch == '\U{0B}' || ch == '\U{0C}'
    || ch == '\U{85}' || ch == '\U{A0}' || ch == '\U{1680}'
    || ('\U{2000}' <= ch <= '\U{200A}')
    || ch == '\U{2028}' || ch == '\U{2029}' || ch == '\U{202F}' || ch == '\U{205F}' || ch == '\U{3000}'
  }

  /** RE2's `\s`: space, tab, newline, form feed, carriage return. */
  predicate PerlSpace(ch: char) {
    ch == ' ' || ch == '\t' || ch == '\n' || ch == '\U{C}' || ch == '\r'
  }

  function TrimSpaceLeft(s: string): (r: string)
    ensures |r| > 0 ==> !IsSpace(r[0])
  {
    if |s| > 0 && IsSpace(s[0]) then TrimSpaceLeft(s[1..]) else s
  }

  function TrimSpaceRight(s: string): (r: string)
    ensures |r| <= |s| && r == s[..|r|]
    ensures |r| > 0 ==> !IsSpace(r[|r| - 1])
  {
    if |s| > 0 && IsSpace(s[|s| - 1]) then TrimSpaceRight(s[..|s| - 1]) else s
  }

  /** strings.TrimSpace: the result neither starts nor ends with white space. */
  function TrimSpace(s: string): (r: string)
    ensures |r| > 0 ==> !IsSpace(r[0]) && !IsSpace(r[|r| - 1])
  {
    TrimSpaceRight(TrimSpaceLeft(s))
  }

  /** A one-line file's text without its newline is what TrimSpace keeps, when
      the line itself has no surrounding white space. */
  lemma TrimSpaceLine(x: string)
    requires |x| == 0 || (!IsSpace(x[0]) && !IsSpace(x[|x| - 1]))
    ensures TrimSpace(x + "\n") == x
  {
    var s := x + "\n";
    if |x| == 0 {
      assert s[1..] == "";
    } else {
      assert s[0] == x[0];
      assert TrimSpaceLeft(s) == s;
      assert s[..|s| - 1] == x;
      assert TrimSpaceRight(x) == x;
      assert TrimSpaceRight(s) == TrimSpaceRight(x);
    }
  }

  function LowerChar(ch: char): char {
    if 'A' <= ch <= 'Z' then (ch as int + 32) as char else ch
  }

  /** strings.ToLower on ASCII letters. */
  function ToLower(s: string): (r: string)
    ensures |r| == |s|
    ensures forall i :: 0 <= i < |s| ==> r[i] == LowerChar(s[i])
  {
    seq(|s|, i requires 0 <= i < |s| => LowerChar(s[i]))
  }

  predicate OccursAt(s: string, pat: string, i: nat) {
    i + |pat| <= |s| && s[i..i + |pat|] == pat
  }

  /** strings.Contains. */
  predicate Contains(s: string, pat: string) {
    exists i: nat | i <= |s| :: OccursAt(s, pat, i)
  }

  /** The leftmost occurrence of `pat` at or after `from` (strings.Index). */
  function IndexFrom(s: string, pat: string, from: nat): (r: Option<nat>)
    requires from <= |s|
    ensures r.Some? ==> from <= r.value && OccursAt(s, pat, r.value)
    ensures r.Some? ==> forall j :: from <= j < r.value ==> !OccursAt(s, pat, j)
    ensures r.None? ==> forall j: nat :: from <= j ==> !OccursAt(s, pat, j)
    decreases |s| - from
  {
    if from + |pat| > |s| then None
    else if s[from..from + |pat|] == pat then Some(from)
    else if from == |s| then None
    else IndexFrom(s, pat, from + 1)
  }

  /** strings.Replace(s, pat, "", 1): the leftmost occurrence of `pat` cut out. */
  function RemoveFirst(s: string, pat: string): (r: string) {
    match IndexFrom(s, pat, 0)
    case None => s
    case Some(i) => s[..i] + s[i + |pat|..]
  }

  /** Without an occurrence nothing changes; with one, exactly |pat|
      characters go. */
  lemma RemoveFirstLength(s: string, pat: string)
    ensures !Contains(s, pat) ==> RemoveFirst(s, pat) == s
    ensures Contains(s, pat) ==> |RemoveFirst(s, pat)| + |pat| == |s|
  {
    var i := IndexFrom(s, pat, 0);
    if Contains(s, pat) {
      var k: nat :| k <= |s| && OccursAt(s, pat, k);
      assert i.Some?;
    }
  }

  /** Only the leftmost occurrence goes: a text that starts with `pat` loses
      exactly that prefix, whatever follows. */
  lemma RemoveFirstLeading(pat: string, n: string)
    ensures RemoveFirst(pat + n, pat) == n
  {
    assert (pat + n)[0..|pat|] == pat;
    assert IndexFrom(pat + n, pat, 0) == Some(0);
    assert (pat + n)[|pat|..] == n;
  }

  lemma OccursBetween(l: char, n: string, r: char, pat: string, i: nat)
    requires |pat| > 0 && pat[0] != l && r !in pat
    ensures OccursAt([l] + n + [r], pat, i) <==> i >= 1 && OccursAt(n, pat, i - 1)
  {
    var w := [l] + n + [r];
    if i >= 1 && OccursAt(n, pat, i - 1) {
      assert w[i..i + |pat|] == n[i - 1..i - 1 + |pat|];
    }
    if i == 0 && |pat| <= |w| {
      assert w[..|pat|][0] != pat[0];
    } else if i >= 1 && |n| + 1 < i + |pat| <= |w| {
      assert pat[|n| + 1 - i] in pat;
      assert w[i..i + |pat|][|n| + 1 - i] != pat[|n| + 1 - i];
    } else if i >= 1 && i + |pat| <= |n| + 1 {
      assert w[i..i + |pat|] == n[i - 1..i - 1 + |pat|];
    }
  }

  lemma IndexBetweenNone(l: char, n: string, r: char, pat: string)
    requires |pat| > 0 && pat[0] != l && r !in pat
    requires IndexFrom(n, pat, 0).None?
    ensures IndexFrom([l] + n + [r], pat, 0).None?
  {
    var a := IndexFrom([l] + n + [r], pat, 0);
    if a.Some? {
      OccursBetween(l, n, r, pat, a.value);
    }
  }

  lemma IndexBetweenSome(l: char, n: string, r: char, pat: string)
    requires |pat| > 0 && pat[0] != l && r !in pat
    requires IndexFrom(n, pat, 0).Some?
    ensures IndexFrom([l] + n + [r], pat, 0) == Some(IndexFrom(n, pat, 0).value + 1)
  {
    var j := IndexFrom(n, pat, 0).value;
    OccursBetween(l, n, r, pat, j + 1);
    var a := IndexFrom([l] + n + [r], pat, 0);
    var k := a.value;
    OccursBetween(l, n, r, pat, k);
  }

  /** Single-character markers that cannot be part of a match do not move it:
      the cut happens inside. */
  lemma RemoveAt(s: string, pat: string, j: nat)
    requires IndexFrom(s, pat, 0) == Some(j)
    ensures j + |pat| <= |s|
    ensures RemoveFirst(s, pat) == s[..j] + s[j + |pat|..]
  {
  }

  lemma CutAround(l: char, n: string, r: char, j: nat, m: nat)
    requires j + m <= |n|
    ensures var w := [l] + n + [r];
      w[..j + 1] + w[j + 1 + m..] == [l] + (n[..j] + n[j + m..]) + [r]
  {
    var w := [l] + n + [r];
    var a := w[..j + 1] + w[j + 1 + m..];
    var b := [l] + (n[..j] + n[j + m..]) + [r];
    assert |a| == |b|;
    forall k | 0 <= k < |a| ensures a[k] == b[k] {
      if k == 0 {
      } else if k <= j {
        assert a[k] == n[k - 1] == b[k];
      } else if k < |a| - 1 {
        assert a[k] == w[k + m] == n[k - 1 + m];
      }
    }
  }

  lemma RemoveFirstBetween(l: char, n: string, r: char, pat: string)
    requires |pat| > 0 && pat[0] != l && r !in pat
    ensures RemoveFirst([l] + n + [r], pat) == [l] + RemoveFirst(n, pat) + [r]
  {
    var w := [l] + n + [r];
    if IndexFrom(n, pat, 0).None? {
      IndexBetweenNone(l, n, r, pat);
      assert RemoveFirst(n, pat) == n;
      assert RemoveFirst(w, pat) == w;
    } else {
      IndexBetweenSome(l, n, r, pat);
      var j := IndexFrom(n, pat, 0).value;
      RemoveAt(n, pat, j);
      RemoveAt(w, pat, j + 1);
      CutAround(l, n, r, j, |pat|);
    }
  }

  predicate IsDigit(ch: char) {
    '0' <= ch <= '9'
  }

  predicate AllDigits(s: string) {
    forall i :: 0 <= i < |s| ==> IsDigit(s[i])
  }

  function DigitChar(d: nat): (ch: char)
    requires d < 10
    ensures IsDigit(ch)
  {
    ('0' as int + d) as char
  }

  /** The length of the run of decimal digits that starts at `j`. */
  function DigitRun(s: string, j: nat): (n: nat)
    requires j <= |s|
    ensures j + n <= |s|
    ensures AllDigits(s[j..j + n])
    ensures j + n == |s| || !IsDigit(s[j + n])
    decreases |s| - j
  {
    if j < |s| && IsDigit(s[j]) then
      var n := 1 + DigitRun(s, j + 1);
      assert s[j..j + n] == [s[j]] + s[j + 1..j + n];
      n
    else 0
  }

  /** A digit string followed by a non-digit (or the end) is the whole run. */
  lemma {:induction false} DigitRunOf(d: string, rest: string)
    requires AllDigits(d)
    requires |rest| == 0 || !IsDigit(rest[0])
    ensures DigitRun(d + rest, 0) == |d|
    decreases |d|
  {
    if |d| > 0 {
      var s := d + rest;
      DigitRunOf(d[1..], rest);
      DigitRunShift(s, 1);
      assert s[1..] == d[1..] + rest;
    } else {
      assert d + rest == rest;
    }
  }

  /** A run does not depend on what precedes it. */
  lemma {:induction false} DigitRunShift(s: string, j: nat)
    requires j <= |s|
    ensures DigitRun(s, j) == DigitRun(s[j..], 0)
    decreases |s| - j
  {
    if j < |s| && IsDigit(s[j]) {
      DigitRunShift(s, j + 1);
      DigitRunShift(s[j..], 1);
      assert s[j..][1..] == s[j + 1..];
    }
  }

  /** The value of a decimal digit string, most significant digit first. */
  function DigitsValue(s: string): nat
    requires AllDigits(s)
  {
    if |s| == 0 then 0 else DigitsValue(s[..|s| - 1]) * 10 + (s[|s| - 1] as int - '0' as int)
  }

  /** strconv.Itoa on a non-negative number. */
  function NatToString(n: nat): (r: string)
    ensures |r| >= 1 && AllDigits(r)
  {
    if n < 10 then [DigitChar(n)] else NatToString(n / 10) + [DigitChar(n % 10)]
  }

  /** strconv.Itoa (and fmt's %d). */
  function IntToString(n: int): string {
    if n < 0 then "-" + NatToString(-n) else NatToString(n)
  }

  const MinInt64: int := -0x8000_0000_0000_0000
  const MaxInt64: int := 0x7FFF_FFFF_FFFF_FFFF

  /** strconv.Atoi: an optional sign and at least one decimal digit, within the
      64-bit range; anything else is an error. */
  function Atoi(s: string): (r: Option<int>)
    ensures r.Some? ==> MinInt64 <= r.value <= MaxInt64
    ensures |s| == 0 ==> r.None?
    ensures r.Some? ==> exists i :: 0 <= i < |s| && IsDigit(s[i])
  {
    var body := if |s| > 0 && (s[0] == '-' || s[0] == '+') then s[1..] else s;
    if |body| == 0 || !AllDigits(body) then None
    else
      var v: int := if |s| > 0 && s[0] == '-' then 0 - (DigitsValue(body) as int) else DigitsValue(body);
      assert IsDigit(s[|s| - |body|]);
      if MinInt64 <= v <= MaxInt64 then Some(v) else None
  }

  lemma {:induction false} NatToStringValue(n: nat)
    ensures DigitsValue(NatToString(n)) == n
    decreases n
  {
    if n >= 10 {
      NatToStringValue(n / 10);
      var s := NatToString(n);
      assert s[..|s| - 1] == NatToString(n / 10);
    }
  }

  /** Itoa and Atoi are inverse on the 64-bit range. */
  lemma AtoiIntToString(n: int)
    requires MinInt64 <= n <= MaxInt64
    ensures Atoi(IntToString(n)) == Some(n)
  {
    var s := IntToString(n);
    if n < 0 {
      var digits := NatToString(-n);
      NatToStringValue(-n);
      assert s == "-" + digits && s[0] == '-';
      assert s[1..] == digits;
      assert DigitsValue(digits) == -n;
    } else {
      NatToStringValue(n);
      assert s == NatToString(n);
      assert IsDigit(s[0]);
      assert DigitsValue(s) == n;
    }
  }
}
