/** datasources/btrfs.go: usage of btrfs filesystems, either from the `btrfs
    filesystem usage` command run once per btrfs device, or from the sysfs
    files under /sys/fs/btrfs. The partition table, the user lookup, the
    command run (with its regular-expression and float parsing) and the sysfs
    reads are inputs; byte formatting is a parameter. */
module Btrfs {
  import opened Wrappers
  import opened Text
  import opened Severity
  import opened Report
  import Utils

  const Title: string := "BTRFS"
  const FsType: string := "btrfs"
  const DefaultCommand: string := "btrfs filesystem usage --raw"
  const Unlabelled: string := "Unlabelled"
  const ReadError: string := "read error"

  /** The btrfs part of the configuration. */
  datatype ConfBtrfs = ConfBtrfs(
    warn: int, crit: int, warnOnly: bool,
    showFree: bool, exec: bool, sudo: bool, command: string)

  // ---------------------------------------------------------------------------
  // The command line

  /** The command GetBtrfs runs: the override or the default, prefixed with
      "sudo " when asked for, except when already running as uid "0"; a
      failed user lookup (`uid == None`) leaves the sudo setting alone. */
  function Command(c: ConfBtrfs, uid: Option<string>): (cmd: string)
  {
    var sudo := if uid == Some("0") then false else c.sudo;
    var base := if c.command == "" then DefaultCommand else c.command;
    if sudo then "sudo " + base else base
  }

  /** The argument vector for one mount point: the command cut on single
      spaces, then the mount point. */
  function Args(cmd: string, mountpoint: string): (args: seq<string>)
    ensures |args| >= 2 && args[|args| - 1] == mountpoint
  {
    Split(cmd, " ") + [mountpoint]
  }

  /** With sudo the argument vector is "sudo" followed by the command's own
      words; as root, or without sudo, it is the command's words alone. */
  lemma CommandArgs(c: ConfBtrfs, uid: Option<string>, mountpoint: string)
    ensures var base := if c.command == "" then DefaultCommand else c.command;
      var args := Args(Command(c, uid), mountpoint);
      && (c.sudo && uid != Some("0") ==> args == ["sudo"] + Split(base, " ") + [mountpoint])
      && (!c.sudo || uid == Some("0") ==> args == Split(base, " ") + [mountpoint])
  {
    var base := if c.command == "" then DefaultCommand else c.command;
    if c.sudo && uid != Some("0") {
      assert "sudo " + base == "sudo" + [' '] + base;
      SplitAt("sudo", base, ' ');
    }
  }

  /** Without an override the mount point is handed to `btrfs filesystem usage --raw`. */
  lemma DefaultArgs(c: ConfBtrfs, mountpoint: string)
    requires c.command == "" && !c.sudo
    ensures forall uid :: Args(Command(c, uid), mountpoint) == ["btrfs", "filesystem", "usage", "--raw", mountpoint]
  {
    DefaultWords();
    forall uid: Option<string>
      ensures Args(Command(c, uid), mountpoint) == ["btrfs", "filesystem", "usage", "--raw", mountpoint]
    {
      assert Command(c, uid) == DefaultCommand;
    }
  }

  lemma DefaultWords()
    ensures Split(DefaultCommand, " ") == ["btrfs", "filesystem", "usage", "--raw"]
  {
    assert DefaultCommand == Join(["btrfs", "filesystem", "usage", "--raw"], " ");
    SplitJoin(["btrfs", "filesystem", "usage", "--raw"], ' ');
  }


  // ---------------------------------------------------------------------------
  // Which partitions are probed

  datatype Partition = Partition(device: string, mountpoint: string, fstype: string)

  /** The partition table: unreadable, or its entries in order. */
  datatype PartitionTable = TableFailed | Table(parts: seq<Partition>)

  /** The btrfs partitions whose device is not yet in `checked`, each device
      at most once, in table order. */
  function ProbedFrom(parts: seq<Partition>, checked: set<string>): (r: seq<Partition>)
    ensures forall i :: 0 <= i < |r| ==> r[i] in parts && r[i].fstype == FsType && r[i].device !in checked
    ensures forall i, j :: 0 <= i < j < |r| ==> r[i].device != r[j].device
    decreases |parts|
  {
    if |parts| == 0 then []
    else if parts[0].fstype != FsType || parts[0].device in checked then ProbedFrom(parts[1..], checked)
    else [parts[0]] + ProbedFrom(parts[1..], checked + {parts[0].device})
  }

  function Probed(parts: seq<Partition>): seq<Partition> {
    ProbedFrom(parts, {})
  }

  /** Every btrfs device of the table is probed, through the first of its
      partitions (a device mounted twice is measured at its first mount point). */
  lemma {:induction false} ProbedFirst(parts: seq<Partition>, checked: set<string>, i: nat)
    requires i < |parts| && parts[i].fstype == FsType && parts[i].device !in checked
    requires forall j :: 0 <= j < i ==> parts[j].fstype != FsType || parts[j].device != parts[i].device
    ensures parts[i] in ProbedFrom(parts, checked)
    decreases |parts|
  {
    if i > 0 {
      var c := if parts[0].fstype != FsType || parts[0].device in checked then checked else checked + {parts[0].device};
      ProbedFirst(parts[1..], c, i - 1);
    }
  }

  /** A device seen on any btrfs partition is among the probed devices. */
  lemma {:induction false} ProbedCovers(parts: seq<Partition>, checked: set<string>, i: nat)
    requires i < |parts| && parts[i].fstype == FsType && parts[i].device !in checked
    ensures exists q :: q in ProbedFrom(parts, checked) && q.device == parts[i].device
    decreases |parts|
  {
    if parts[0].fstype == FsType && parts[0].device !in checked {
      if parts[0].device != parts[i].device {
        ProbedCovers(parts[1..], checked + {parts[0].device}, i - 1);
        var q :| q in ProbedFrom(parts[1..], checked + {parts[0].device}) && q.device == parts[i].device;
        assert q in ProbedFrom(parts, checked);
      } else {
        assert parts[0] in ProbedFrom(parts, checked);
      }
    } else {
      ProbedCovers(parts[1..], checked, i - 1);
    }
  }

  // ---------------------------------------------------------------------------
  // Exec mode: reading the usage report

  /** One step of the three usage patterns: `Spaces` is `\s+`, `Word` a
      literal compared under `(?i)`, `Optional` a literal group followed by
      `?`. Every literal starts with a character that is not white space, so
      the greedy `\s+` before it never has to give characters back and the
      longest run is the only one that can succeed. */
  datatype Token = Spaces | Word(text: string) | Optional(text: string)

  /** What the single group captures: `(\d+)` or `(\S+)`. */
  datatype Capture = Digits | NonSpaces

  /** A pattern `(?im)^<tokens>(<capture>)`. */
  datatype Pattern = Pattern(tokens: seq<Token>, capture: Capture)

  /** `(?im)^\s+device\s+size:\s+(\d+)`: the total device size in bytes. */
  const SizePattern: Pattern := Pattern([Spaces, Word("device"), Spaces, Word("size:"), Spaces], Digits)

  /** `(?im)^\s+free\s+(?:\(estimated\))?:\s+(\d+)`: the estimated free bytes. */
  const FreePattern: Pattern := Pattern([Spaces, Word("free"), Spaces, Optional("(estimated)"), Word(":"), Spaces], Digits)

  /** `(?im)^\s+data\s+ratio:\s+(\S+)`: the data ratio. */
  const RatioPattern: Pattern := Pattern([Spaces, Word("data"), Spaces, Word("ratio:"), Spaces], NonSpaces)

  /** `ch` matches the pattern character `p` under `(?i)`: RE2 folds ASCII
      letter case, and also folds 's' with U+017F and 'k' with U+212A. */
  predicate Folds(ch: char, p: char) {
    || ch == p
    || ('a' <= p <= 'z' && ch as int == p as int - 32)
    || (p == 's' && ch == '\U{17F}')
    || (p == 'k' && ch == '\U{212A}')
  }

  predicate WordAt(t: string, w: string) {
    |w| <= |t| && forall i :: 0 <= i < |w| ==> Folds(t[i], w[i])
  }

  /** The length of the white space `t` starts with. */
  function SpaceRun(t: string): (n: nat)
    ensures n <= |t|
    ensures forall i :: 0 <= i < n ==> PerlSpace(t[i])
    ensures n == |t| || !PerlSpace(t[n])
  {
    if |t| > 0 && PerlSpace(t[0]) then 1 + SpaceRun(t[1..]) else 0
  }

  /** The length of the non-white-space run `t` starts with. */
  function SolidRun(t: string): (n: nat)
    ensures n <= |t|
    ensures forall i :: 0 <= i < n ==> !PerlSpace(t[i])
    ensures n == |t| || PerlSpace(t[n])
  {
    if |t| > 0 && !PerlSpace(t[0]) then 1 + SolidRun(t[1..]) else 0
  }

  /** A value the group can capture: at least one character, all digits or
      all non-white-space. */
  predicate Captured(v: string, cap: Capture) {
    && |v| > 0
    && match cap
       case Digits => AllDigits(v)
       case NonSpaces => forall i :: 0 <= i < |v| ==> !PerlSpace(v[i])
  }

  /** The group at the start of `t`: the longest run it allows. */
  function Group(t: string, cap: Capture): (r: Option<string>)
    ensures r.Some? ==> Captured(r.value, cap)
  {
    var n := match cap case Digits => DigitRun(t, 0) case NonSpaces => SolidRun(t);
    if n == 0 then None else Some(t[..n])
  }

  /** The tokens, then the group, matched from the start of `t`. */
  function MatchHere(t: string, toks: seq<Token>, cap: Capture): (r: Option<string>)
    ensures r.Some? ==> Captured(r.value, cap)
    decreases |toks|
  {
    if |toks| == 0 then Group(t, cap)
    else
      match toks[0]
      case Spaces =>
        var n := SpaceRun(t);
        if n == 0 then None else MatchHere(t[n..], toks[1..], cap)
      case Word(w) =>
        if WordAt(t, w) then MatchHere(t[|w|..], toks[1..], cap) else None
      case Optional(w) =>
        var taken := if WordAt(t, w) then MatchHere(t[|w|..], toks[1..], cap) else None;
        if taken.Some? then taken else MatchHere(t, toks[1..], cap)
  }

  /** FindStringSubmatch's group: in multi-line mode `^` holds at the start of
      the text and just after each newline, and the leftmost such position at
      which the pattern matches wins. */
  function Find(s: string, p: Pattern): (r: Option<string>)
    ensures r.Some? ==> Captured(r.value, p.capture)
    decreases |s|, 1
  {
    var here := MatchHere(s, p.tokens, p.capture);
    if here.Some? then here else FindAfterNewline(s, p)
  }

  function FindAfterNewline(s: string, p: Pattern): (r: Option<string>)
    ensures r.Some? ==> Captured(r.value, p.capture)
    decreases |s|, 0
  {
    if |s| == 0 then None
    else if s[0] == '\n' then Find(s[1..], p)
    else FindAfterNewline(s[1..], p)
  }

  function Pow10(n: nat): (p: nat)
    ensures p >= 1
  {
    if n == 0 then 1 else 10 * Pow10(n - 1)
  }

  /** strconv.ParseFloat on decimal notation: an optional sign, then digits
      with at most one '.', at least one digit in all; anything else fails. */
  function ParseDecimal(t: string): (r: Option<real>)
    ensures r.Some? && r.value < 0.0 ==> |t| > 0 && t[0] == '-'
  {
    if |t| > 0 && t[0] == '-' then
      match Unsigned(t[1..])
      case Some(v) => Some(-v)
      case None => None
    else if |t| > 0 && t[0] == '+' then Unsigned(t[1..])
    else Unsigned(t)
  }

  /** Digits, optionally a '.' and more digits; at least one digit. */
  function Unsigned(b: string): (r: Option<real>)
    ensures r.Some? ==> r.value >= 0.0 && |b| > 0
  {
    var k := DigitRun(b, 0);
    if k == |b| then
      if k == 0 then None else Some(DigitsValue(b) as real)
    else if b[k] != '.' then None
    else
      var frac := b[k + 1..];
      if !AllDigits(frac) || (k == 0 && |frac| == 0) then None
      else Some(Fixed(b[..k], frac))
  }

  /** The value of the digits `whole` before the point and `frac` after it. */
  function Fixed(whole: string, frac: string): (v: real)
    requires AllDigits(whole) && AllDigits(frac)
    ensures v >= 0.0
  {
    DigitsValue(whole) as real + DigitsValue(frac) as real / Pow10(|frac|) as real
  }

  /** The data ratio as btrfs prints it ("%.2f"), e.g. "1.00" or "2.00", is
      read back as its value. */
  lemma ParseFixed(n: nat, a: nat, b: nat)
    requires a < 10 && b < 10
    ensures ParseDecimal(NatToString(n) + "." + [DigitChar(a), DigitChar(b)])
         == Some(n as real + (10 * a + b) as real / 100.0)
  {
    var whole := NatToString(n);
    var frac := [DigitChar(a), DigitChar(b)];
    assert (whole + "." + frac)[0] == whole[0];
    UnsignedFixed(whole, frac);
    NatToStringValue(n);
    TwoDigits(a, b);
    assert Fixed(whole, frac) == n as real + (10 * a + b) as real / 100.0;
  }

  /** Digits, a point and digits are read as the whole part plus the fraction. */
  lemma UnsignedFixed(whole: string, frac: string)
    requires |whole| > 0 && AllDigits(whole) && AllDigits(frac)
    ensures Unsigned(whole + "." + frac) == Some(Fixed(whole, frac))
  {
    var t := whole + "." + frac;
    var k := |whole|;
    assert t == whole + ("." + frac);
    assert ("." + frac)[0] == '.';
    DigitRunOf(whole, "." + frac);
    assert DigitRun(t, 0) == k;
    assert t[k] == '.';
    assert t[..k] == whole;
    assert t[k + 1..] == frac;
  }

  lemma TwoDigits(a: nat, b: nat)
    requires a < 10 && b < 10
    ensures DigitsValue([DigitChar(a), DigitChar(b)]) == 10 * a + b
    ensures Pow10(2) == 100
  {
    var frac := [DigitChar(a), DigitChar(b)];
    var head := frac[..1];
    assert head == [DigitChar(a)] && head[..0] == [];
    assert DigitsValue(head) == a;
    assert DigitsValue(frac) == DigitsValue(head) * 10 + b;
  }


  /** A float64 result of the usage arithmetic, computed exactly: a finite
      value, or one of the infinities or the NaN a division by zero yields. */
  datatype Float = Finite(value: real) | PosInf | NegInf | NaN

  /** a / b in IEEE terms, for finite operands. */
  function Quotient(a: real, b: real): Float {
    if b != 0.0 then Finite(a / b)
    else if a > 0.0 then PosInf
    else if a < 0.0 then NegInf
    else NaN
  }

  /** The total divided by the data ratio. */
  function CorrectedTotal(total: nat, ratio: real): Float {
    Quotient(total as real, ratio)
  }

  /** The corrected total minus the free bytes. */
  function UsedBytes(corrected: Float, free: nat): Float {
    match corrected
    case Finite(v) => Finite(v - free as real)
    case _ => corrected
  }

  /** (1 - free / corrected) * 100. */
  function UsedShare(free: nat, corrected: Float): Float {
    var share := match corrected
      case Finite(v) => Quotient(free as real, v)
      case NaN => NaN
      case _ => Finite(0.0);
    match share
    case Finite(v) => Finite((1.0 - v) * 100.0)
    case PosInf => NegInf
    case NegInf => PosInf
    case NaN => NaN
  }

  /** Truncation toward zero. */
  function Trunc(v: real): (n: int)
    ensures 0.0 <= v ==> 0 <= n && n as real <= v < n as real + 1.0
    ensures v < 0.0 ==> n <= 0 && n as real - 1.0 < v <= n as real
  {
    if v >= 0.0 then v.Floor else -((-v).Floor)
  }

  /** Go's int(x) as on amd64: truncation toward zero; NaN, the infinities and
      values outside the 64-bit range all give the smallest int. */
  function ToInt(x: Float): (n: int)
    ensures MinInt64 <= n <= MaxInt64
  {
    match x
    case Finite(v) => var t := Trunc(v); if MinInt64 <= t <= MaxInt64 then t else MinInt64
    case _ => MinInt64
  }

  /** usedPerc: the ratio-corrected share of used space, in whole percent. */
  function UsedPercent(total: nat, free: nat, ratio: real): (p: int)
    ensures total > 0 && ratio > 0.0 && free as real * ratio <= total as real ==>
      && 0 <= p <= 100
      && p as real <= 100.0 * (1.0 - free as real * ratio / total as real) < p as real + 1.0
    ensures total > 0 && ratio > 0.0 && free as real * ratio > total as real ==> p <= 0
    ensures total > 0 && ratio == 0.0 ==> p == 100
    ensures total == 0 ==> p == MinInt64
  {
    assert total > 0 && ratio != 0.0 ==>
      free as real / (total as real / ratio) == free as real * ratio / total as real;
    ToInt(UsedShare(free, CorrectedTotal(total, ratio)))
  }

  /** The outcome of running the command for one mount point: skipped when the
      run fails or the size, free-space or data-ratio field is missing or
      unparsable; otherwise the usage percentage (after the data-ratio
      correction) and the formatted used, free and total sizes. */
  datatype Probe = Skipped | Measured(percent: int, used: string, free: string, total: string)

  /** One run's output read as the three fields. */
  function Measure(out: string, format: Float -> string): (m: Probe)
    ensures m.Measured? <==>
      && Find(out, SizePattern).Some? && Find(out, FreePattern).Some? && Find(out, RatioPattern).Some?
      && ParseDecimal(Find(out, RatioPattern).value).Some?
  {
    match (Find(out, SizePattern), Find(out, FreePattern), Find(out, RatioPattern))
    case (Some(size), Some(free), Some(ratioText)) =>
      (match ParseDecimal(ratioText)
       case None => Skipped
       case Some(ratio) => Fields(size, free, ratio, format))
    case _ => Skipped
  }

  /** The measurement from the size and free-space digits and the data ratio:
      the total is corrected by the ratio, then the used share is taken. */
  function Fields(size: string, free: string, ratio: real, format: Float -> string): (m: Probe)
    requires AllDigits(size) && AllDigits(free)
    ensures m.Measured?
  {
    var total := DigitsValue(size);
    var freeBytes := DigitsValue(free);
    var corrected := CorrectedTotal(total, ratio);
    Measured(UsedPercent(total, freeBytes, ratio), format(UsedBytes(corrected, freeBytes)),
             format(Finite(freeBytes as real)), format(corrected))
  }

  /** Size and free space printed in decimal and a positive data ratio give the
      used share of the ratio-corrected total, rounded down to a whole
      percent, and the corrected total and used bytes for formatting. */
  lemma MeasureFields(size: nat, free: nat, ratio: real, format: Float -> string)
    requires size > 0 && ratio > 0.0 && free as real * ratio <= size as real
    ensures var m := Fields(NatToString(size), NatToString(free), ratio, format);
      && 0 <= m.percent <= 100
      && m.percent as real <= 100.0 * (1.0 - free as real * ratio / size as real) < m.percent as real + 1.0
      && m.total == format(Finite(size as real / ratio))
      && m.used == format(Finite(size as real / ratio - free as real))
      && m.free == format(Finite(free as real))
  {
    NatToStringValue(size);
    NatToStringValue(free);
    var corrected := CorrectedTotal(size, ratio);
    assert corrected == Finite(size as real / ratio);
    assert UsedBytes(corrected, free) == Finite(size as real / ratio - free as real);
  }

  /** Lines joined as the command prints them, each followed by a newline. */
  function Lined(ls: seq<string>): (t: string)
    ensures |ls| > 0 ==> t == ls[0] + "\n" + Lined(ls[1..])
    ensures |ls| == 0 <==> t == ""
  {
    if |ls| == 0 then "" else ls[0] + "\n" + Lined(ls[1..])
  }

  /** Lines that do not match are passed over: the search resumes at the
      first line that does. */
  lemma {:induction false} FindLined(ls: seq<string>, k: nat, p: Pattern)
    requires k <= |ls|
    requires forall i :: 0 <= i < k ==>
      '\n' !in ls[i] && MatchHere(ls[i] + "\n" + Lined(ls[i + 1..]), p.tokens, p.capture).None?
    ensures Find(Lined(ls), p) == Find(Lined(ls[k..]), p)
    decreases k
  {
    if k > 0 {
      var tl := ls[1..];
      forall i | 0 <= i < k - 1
        ensures tl[i] == ls[i + 1] && tl[i + 1..] == ls[i + 2..]
      {
      }
      assert tl[k - 1..] == ls[k..];
      FindLined(tl, k - 1, p);
      FindPastLine(ls[0], Lined(tl), p);
    } else {
      assert ls[0..] == ls;
    }
  }

  lemma FindPastLine(l: string, rest: string, p: Pattern)
    requires '\n' !in l
    requires MatchHere(l + "\n" + rest, p.tokens, p.capture).None?
    ensures Find(l + "\n" + rest, p) == Find(rest, p)
  {
    ScanLine(l, rest, p);
  }

  lemma {:induction false} ScanLine(l: string, rest: string, p: Pattern)
    requires '\n' !in l
    ensures FindAfterNewline(l + "\n" + rest, p) == Find(rest, p)
    decreases |l|
  {
    var s := l + "\n" + rest;
    if |l| == 0 {
      assert s[1..] == rest;
    } else {
      assert s[0] == l[0] && l[0] in l;
      assert s[1..] == l[1..] + "\n" + rest;
      ScanLine(l[1..], rest, p);
    }
  }

  /** The concatenation of the pieces, in order. */
  function Cat(ps: seq<string>): string {
    if |ps| == 0 then "" else ps[0] + Cat(ps[1..])
  }

  /** The text `p` is what token `k` consumes: white space for `Spaces`, the
      word itself (in either case) for `Word` and for a taken `Optional`. */
  predicate Consumes(p: string, k: Token) {
    match k
    case Spaces => |p| > 0 && forall i :: 0 <= i < |p| ==> PerlSpace(p[i])
    case Word(w) => |p| == |w| > 0 && !PerlSpace(p[0]) && forall i :: 0 <= i < |w| ==> Folds(p[i], w[i])
    case Optional(w) => |p| == |w| > 0 && !PerlSpace(p[0]) && forall i :: 0 <= i < |w| ==> Folds(p[i], w[i])
  }

  /** Text cut into pieces, one per token, followed by a value the group
      captures and a character that ends it, is matched with that value
      captured (two `\s+` never follow each other in these patterns). */
  lemma {:induction false} MatchPieces(ps: seq<string>, toks: seq<Token>, v: string, rest: string, cap: Capture)
    requires |ps| == |toks|
    requires forall i :: 0 <= i < |toks| ==> Consumes(ps[i], toks[i])
    requires forall i :: 0 <= i < |toks| - 1 ==> !(toks[i].Spaces? && toks[i + 1].Spaces?)
    requires Captured(v, cap)
    requires |rest| > 0 && (if cap.Digits? then !IsDigit(rest[0]) else PerlSpace(rest[0]))
    ensures MatchHere(Cat(ps) + (v + rest), toks, cap) == Some(v)
    decreases |ps|
  {
    if |ps| == 0 {
      assert Cat(ps) + (v + rest) == v + rest;
      GroupOf(v, rest, toks, cap);
    } else {
      var ps', toks' := ps[1..], toks[1..];
      forall i | 0 <= i < |toks'|
        ensures Consumes(ps'[i], toks'[i])
      {
        assert ps'[i] == ps[i + 1] && toks'[i] == toks[i + 1];
      }
      forall i | 0 <= i < |toks'| - 1
        ensures !(toks'[i].Spaces? && toks'[i + 1].Spaces?)
      {
        assert toks'[i] == toks[i + 1] && toks'[i + 1] == toks[i + 2];
      }
      MatchPieces(ps', toks', v, rest, cap);
      var x := Cat(ps') + (v + rest);
      NextNotSpace(ps, toks, v, rest, cap);
      CatCons(ps, v + rest);
      assert Consumes(ps[0], toks[0]);
      StepAny(ps[0], x, toks, cap);
    }
  }

  lemma CatCons(ps: seq<string>, y: string)
    requires |ps| > 0
    ensures Cat(ps) + y == ps[0] + (Cat(ps[1..]) + y)
  {
  }

  /** What follows a piece starts with a character that is not white space. */
  lemma NextNotSpace(ps: seq<string>, toks: seq<Token>, v: string, rest: string, cap: Capture)
    requires |ps| == |toks| > 0
    requires forall i :: 0 <= i < |toks| ==> Consumes(ps[i], toks[i])
    requires forall i :: 0 <= i < |toks| - 1 ==> !(toks[i].Spaces? && toks[i + 1].Spaces?)
    requires Captured(v, cap)
    ensures var x := Cat(ps[1..]) + (v + rest); |x| > 0 && (toks[0].Spaces? ==> !PerlSpace(x[0]))
  {
    var x := Cat(ps[1..]) + (v + rest);
    if |ps| > 1 {
      assert Consumes(ps[1], toks[1]);
      assert Cat(ps[1..]) == ps[1] + Cat(ps[2..]);
      assert x[0] == ps[1][0];
    } else {
      assert x == v + rest;
      assert x[0] == v[0];
    }
  }

  /** One token consumes its piece. */
  lemma StepAny(p: string, x: string, toks: seq<Token>, cap: Capture)
    requires |toks| > 0 && Consumes(p, toks[0]) && |x| > 0
    requires toks[0].Spaces? ==> !PerlSpace(x[0])
    requires toks[0].Optional? ==> MatchHere(x, toks[1..], cap).Some?
    ensures MatchHere(p + x, toks, cap) == MatchHere(x, toks[1..], cap)
  {
    match toks[0]
    case Spaces => StepSpaces(p, x, toks, cap);
    case Word(w) => StepWord(p, x, w, toks, cap);
    case Optional(w) => StepOptional(p, x, w, toks, cap);
  }

  /** The text of a line cut into its pieces. */
  lemma PiecesText(ps: seq<string>, line: string, v: string, rest: string)
    requires Cat(ps) == line
    ensures line + v + rest == Cat(ps) + (v + rest)
  {
  }

  /** The size line `btrfs filesystem usage --raw` prints is matched, and its
      byte count captured. */
  lemma SizeLine(d: string, rest: string, toks: seq<Token>)
    requires toks == SizePattern.tokens
    requires Captured(d, Digits) && |rest| > 0 && !IsDigit(rest[0])
    ensures MatchHere("    Device size:\t\t" + d + rest, toks, Digits) == Some(d)
  {
    SizePieces(d, rest, toks);
    SizeText(d, rest);
  }

  lemma SizePieces(d: string, rest: string, toks: seq<Token>)
    requires toks == SizePattern.tokens
    requires Captured(d, Digits) && |rest| > 0 && !IsDigit(rest[0])
    ensures MatchHere(Cat(["    ", "Device", " ", "size:", "\t\t"]) + (d + rest), toks, Digits) == Some(d)
  {
    MatchPieces(["    ", "Device", " ", "size:", "\t\t"], toks, d, rest, Digits);
  }

  lemma SizeText(d: string, rest: string)
    ensures "    Device size:\t\t" + d + rest == Cat(["    ", "Device", " ", "size:", "\t\t"]) + (d + rest)
  {
    SizeCat();
    PiecesText(["    ", "Device", " ", "size:", "\t\t"], "    Device size:\t\t", d, rest);
  }

  lemma SizeCat()
    ensures Cat(["    ", "Device", " ", "size:", "\t\t"]) == "    Device size:\t\t"
  {
  }

  /** The estimated free-space line is matched, and its byte count captured. */
  lemma FreeLine(d: string, rest: string, toks: seq<Token>)
    requires toks == FreePattern.tokens
    requires Captured(d, Digits) && |rest| > 0 && !IsDigit(rest[0])
    ensures MatchHere("    Free (estimated):\t\t" + d + rest, toks, Digits) == Some(d)
  {
    FreePieces(d, rest, toks);
    FreeText(d, rest);
  }

  lemma FreePieces(d: string, rest: string, toks: seq<Token>)
    requires toks == FreePattern.tokens
    requires Captured(d, Digits) && |rest| > 0 && !IsDigit(rest[0])
    ensures MatchHere(Cat(["    ", "Free", " ", "(estimated)", ":", "\t\t"]) + (d + rest), toks, Digits) == Some(d)
  {
    MatchPieces(["    ", "Free", " ", "(estimated)", ":", "\t\t"], toks, d, rest, Digits);
  }

  lemma FreeText(d: string, rest: string)
    ensures "    Free (estimated):\t\t" + d + rest == Cat(["    ", "Free", " ", "(estimated)", ":", "\t\t"]) + (d + rest)
  {
    FreeCat();
    PiecesText(["    ", "Free", " ", "(estimated)", ":", "\t\t"], "    Free (estimated):\t\t", d, rest);
  }

  lemma FreeCat()
    ensures Cat(["    ", "Free", " ", "(estimated)", ":", "\t\t"]) == "    Free (estimated):\t\t"
  {
  }

  /** The data ratio line is matched, and the ratio text captured up to the
      white space after it. */
  lemma RatioLine(r: string, rest: string, toks: seq<Token>)
    requires toks == RatioPattern.tokens
    requires Captured(r, NonSpaces) && |rest| > 0 && PerlSpace(rest[0])
    ensures MatchHere("    Data ratio:\t\t\t" + r + rest, toks, NonSpaces) == Some(r)
  {
    RatioPieces(r, rest, toks);
    RatioText(r, rest);
  }

  lemma RatioPieces(r: string, rest: string, toks: seq<Token>)
    requires toks == RatioPattern.tokens
    requires Captured(r, NonSpaces) && |rest| > 0 && PerlSpace(rest[0])
    ensures MatchHere(Cat(["    ", "Data", " ", "ratio:", "\t\t\t"]) + (r + rest), toks, NonSpaces) == Some(r)
  {
    MatchPieces(["    ", "Data", " ", "ratio:", "\t\t\t"], toks, r, rest, NonSpaces);
  }

  lemma RatioText(r: string, rest: string)
    ensures "    Data ratio:\t\t\t" + r + rest == Cat(["    ", "Data", " ", "ratio:", "\t\t\t"]) + (r + rest)
  {
    RatioCat();
    PiecesText(["    ", "Data", " ", "ratio:", "\t\t\t"], "    Data ratio:\t\t\t", r, rest);
  }

  lemma RatioCat()
    ensures Cat(["    ", "Data", " ", "ratio:", "\t\t\t"]) == "    Data ratio:\t\t\t"
  {
  }

  /** "Device allocated" is not the device size: the word after "device" must
      be "size:". */
  lemma AllocatedIsNotSize(v: string, rest: string, toks: seq<Token>)
    requires toks == SizePattern.tokens
    ensures MatchHere("    Device allocated:\t\t" + v + rest, toks, Digits).None?
  {
    var x := "allocated:\t\t" + v + rest;
    AllocatedText(v, rest);
    assert x[0] == 'a';
    AllocatedPieces(x, toks);
  }

  lemma AllocatedText(v: string, rest: string)
    ensures "    Device allocated:\t\t" + v + rest == Cat(["    ", "Device", " "]) + ("allocated:\t\t" + v + rest)
  {
    AllocatedCat();
    assert "    Device allocated:\t\t" == "    Device " + "allocated:\t\t";
  }

  lemma AllocatedCat()
    ensures Cat(["    ", "Device", " "]) == "    Device "
  {
  }

  lemma AllocatedPieces(x: string, toks: seq<Token>)
    requires toks == SizePattern.tokens
    requires |x| > 0 && x[0] == 'a'
    ensures MatchHere(Cat(["    ", "Device", " "]) + x, toks, Digits).None?
  {
    PrefixPieces(["    ", "Device", " "], toks, x, Digits);
    WordMisses(x, toks[3..], Digits);
  }

  /** "Free statfs (df)" is not the estimated free space: after "free" only
      "(estimated)" or the colon may follow. */
  lemma StatfsIsNotFree(v: string, rest: string, toks: seq<Token>)
    requires toks == FreePattern.tokens
    ensures MatchHere("    Free statfs (df):\t\t" + v + rest, toks, Digits).None?
  {
    var x := "statfs (df):\t\t" + v + rest;
    StatfsText(v, rest);
    assert x[0] == 's';
    StatfsPieces(x, toks);
  }

  lemma StatfsText(v: string, rest: string)
    ensures "    Free statfs (df):\t\t" + v + rest == Cat(["    ", "Free", " "]) + ("statfs (df):\t\t" + v + rest)
  {
    StatfsCat();
    assert "    Free statfs (df):\t\t" == "    Free " + "statfs (df):\t\t";
  }

  lemma StatfsCat()
    ensures Cat(["    ", "Free", " "]) == "    Free "
  {
  }

  lemma StatfsPieces(x: string, toks: seq<Token>)
    requires toks == FreePattern.tokens
    requires |x| > 0 && x[0] == 's'
    ensures MatchHere(Cat(["    ", "Free", " "]) + x, toks, Digits).None?
  {
    PrefixPieces(["    ", "Free", " "], toks, x, Digits);
    var tail := toks[3..];
    assert tail == [Optional("(estimated)"), Word(":"), Spaces];
    OptionalMisses(x, tail, Digits);
    WordMisses(x, tail[1..], Digits);
  }

  /** An optional word whose first letter is absent is skipped. */
  lemma OptionalMisses(x: string, toks: seq<Token>, cap: Capture)
    requires |toks| > 0 && toks[0].Optional? && |toks[0].text| > 0
    requires |x| > 0 && !Folds(x[0], toks[0].text[0])
    ensures MatchHere(x, toks, cap) == MatchHere(x, toks[1..], cap)
  {
    assert !WordAt(x, toks[0].text);
  }

  /** A word whose first letter is absent fails the match. */
  lemma WordMisses(x: string, toks: seq<Token>, cap: Capture)
    requires |toks| > 0 && toks[0].Word? && |toks[0].text| > 0
    requires |x| > 0 && !Folds(x[0], toks[0].text[0])
    ensures MatchHere(x, toks, cap).None?
  {
    assert !WordAt(x, toks[0].text);
  }


  /** "Metadata ratio" is not the data ratio: the line must start with "data". */
  lemma MetadataIsNotData(v: string, rest: string, toks: seq<Token>)
    requires toks == RatioPattern.tokens
    ensures MatchHere("    Metadata ratio:\t\t" + v + rest, toks, NonSpaces).None?
  {
    var x := "Metadata ratio:\t\t" + v + rest;
    assert "    Metadata ratio:\t\t" + v + rest == Cat(["    "]) + x;
    assert x[0] == 'M';
    PrefixPieces(["    "], toks, x, NonSpaces);
    WordMisses(x, toks[1..], NonSpaces);
  }

  /** Pieces consuming the first tokens (none of them optional) leave the rest
      of the pattern to match what follows. */
  lemma {:induction false} PrefixPieces(ps: seq<string>, toks: seq<Token>, x: string, cap: Capture)
    requires |ps| <= |toks|
    requires forall i :: 0 <= i < |ps| ==> Consumes(ps[i], toks[i]) && !toks[i].Optional?
    requires forall i :: 0 <= i < |ps| - 1 ==> !(toks[i].Spaces? && toks[i + 1].Spaces?)
    requires |x| > 0 && !PerlSpace(x[0])
    ensures MatchHere(Cat(ps) + x, toks, cap) == MatchHere(x, toks[|ps|..], cap)
    decreases |ps|
  {
    if |ps| == 0 {
      assert Cat(ps) + x == x;
      assert toks[0..] == toks;
    } else {
      var ps', toks' := ps[1..], toks[1..];
      forall i | 0 <= i < |ps'|
        ensures Consumes(ps'[i], toks'[i]) && !toks'[i].Optional?
      {
        assert ps'[i] == ps[i + 1] && toks'[i] == toks[i + 1];
      }
      forall i | 0 <= i < |ps'| - 1
        ensures !(toks'[i].Spaces? && toks'[i + 1].Spaces?)
      {
        assert toks'[i] == toks[i + 1] && toks'[i + 1] == toks[i + 2];
      }
      PrefixPieces(ps', toks', x, cap);
      assert toks'[|ps'|..] == toks[|ps|..];
      var y := Cat(ps') + x;
      CatCons(ps, x);
      FollowerNotSpace(ps, toks, x);
      StepAny(ps[0], y, toks, cap);
    }
  }

  /** What follows the first of several pieces, none optional, is not white space. */
  lemma FollowerNotSpace(ps: seq<string>, toks: seq<Token>, x: string)
    requires 0 < |ps| <= |toks|
    requires forall i :: 0 <= i < |ps| ==> Consumes(ps[i], toks[i]) && !toks[i].Optional?
    requires |ps| > 1 ==> !(toks[0].Spaces? && toks[1].Spaces?)
    requires |x| > 0 && !PerlSpace(x[0])
    ensures var y := Cat(ps[1..]) + x; |y| > 0 && (toks[0].Spaces? ==> !PerlSpace(y[0]))
    ensures Consumes(ps[0], toks[0]) && !toks[0].Optional?
  {
    var y := Cat(ps[1..]) + x;
    if |ps| > 1 {
      assert Consumes(ps[1], toks[1]);
      assert y == ps[1] + (Cat(ps[2..]) + x);
      assert y[0] == ps[1][0];
    } else {
      assert y == x;
    }
  }


  lemma {:induction false} SpaceRunOf(w: string, x: string)
    requires forall i :: 0 <= i < |w| ==> PerlSpace(w[i])
    requires |x| == 0 || !PerlSpace(x[0])
    ensures SpaceRun(w + x) == |w|
    decreases |w|
  {
    if |w| > 0 {
      SpaceRunOf(w[1..], x);
      assert (w + x)[1..] == w[1..] + x;
    } else {
      assert w + x == x;
    }
  }

  lemma {:induction false} SolidRunOf(v: string, x: string)
    requires forall i :: 0 <= i < |v| ==> !PerlSpace(v[i])
    requires |x| == 0 || PerlSpace(x[0])
    ensures SolidRun(v + x) == |v|
    decreases |v|
  {
    if |v| > 0 {
      SolidRunOf(v[1..], x);
      assert (v + x)[1..] == v[1..] + x;
    } else {
      assert v + x == x;
    }
  }

  lemma StepSpaces(w: string, x: string, toks: seq<Token>, cap: Capture)
    requires |w| > 0 && forall i :: 0 <= i < |w| ==> PerlSpace(w[i])
    requires |x| > 0 && !PerlSpace(x[0])
    requires |toks| > 0 && toks[0] == Spaces
    ensures MatchHere(w + x, toks, cap) == MatchHere(x, toks[1..], cap)
  {
    SpaceRunOf(w, x);
    assert (w + x)[|w|..] == x;
  }

  lemma StepWord(u: string, x: string, w: string, toks: seq<Token>, cap: Capture)
    requires |u| == |w| && forall i :: 0 <= i < |w| ==> Folds(u[i], w[i])
    requires |toks| > 0 && toks[0] == Word(w)
    ensures MatchHere(u + x, toks, cap) == MatchHere(x, toks[1..], cap)
  {
    assert (u + x)[|w|..] == x;
    assert WordAt(u + x, w) by {
      forall i | 0 <= i < |w|
        ensures Folds((u + x)[i], w[i])
      {
        assert (u + x)[i] == u[i];
      }
    }
  }

  lemma StepOptional(u: string, x: string, w: string, toks: seq<Token>, cap: Capture)
    requires |u| == |w| && forall i :: 0 <= i < |w| ==> Folds(u[i], w[i])
    requires |toks| > 0 && toks[0] == Optional(w)
    requires MatchHere(x, toks[1..], cap).Some?
    ensures MatchHere(u + x, toks, cap) == MatchHere(x, toks[1..], cap)
  {
    assert (u + x)[|w|..] == x;
    assert WordAt(u + x, w) by {
      forall i | 0 <= i < |w|
        ensures Folds((u + x)[i], w[i])
      {
        assert (u + x)[i] == u[i];
      }
    }
  }

  lemma GroupOf(v: string, x: string, toks: seq<Token>, cap: Capture)
    requires Captured(v, cap) && |toks| == 0
    requires |x| > 0 && (if cap.Digits? then !IsDigit(x[0]) else PerlSpace(x[0]))
    ensures MatchHere(v + x, toks, cap) == Some(v)
  {
    assert (v + x)[..|v|] == v;
    if cap.Digits? {
      DigitRunOf(v, x);
    } else {
      SolidRunOf(v, x);
    }
  }

  function ExecReading(m: Probe, c: ConfBtrfs): (r: Reading)
    ensures m.Skipped? ==> r == Hidden
  {
    match m
    case Skipped => Hidden
    case Measured(percent, _, _, _) => Band(percent, c.warn, c.crit, c.warnOnly)
  }

  // ---------------------------------------------------------------------------
  // Exec mode: the status

  /** "<used> used out of <total>", or "<free> free out of <total>". */
  function UsageText(first: string, firstFree: string, total: string, showFree: bool): string {
    (if showFree then firstFree + " free" else first + " used") + " out of " + total
  }

  /** The probe outcome for each partition: the command is run with the mount
      point appended (`run` gives its output, None when it fails) and the
      output is read. */
  function Probes(ps: seq<Partition>, cmd: string, run: seq<string> -> Option<string>, format: Float -> string): (ms: seq<Probe>)
    ensures |ms| == |ps|
    ensures forall i :: 0 <= i < |ps| ==>
      match run(Args(cmd, ps[i].mountpoint))
      case None => ms[i] == Skipped
      case Some(out) => ms[i] == Measure(out, format)
  {
    seq(|ps|, i requires 0 <= i < |ps| =>
      match run(Args(cmd, ps[i].mountpoint))
      case None => Skipped
      case Some(out) => Measure(out, format))
  }

  function ExecLines(ps: seq<Partition>, ms: seq<Probe>, c: ConfBtrfs): (ls: seq<Line>)
    requires |ms| == |ps|
    ensures |ls| <= |ps|
  {
    if |ps| == 0 then []
    else
      var m := ms[0];
      var here := if ExecReading(m, c).Shown? then [Plain(ps[0].mountpoint, UsageText(m.used, m.free, m.total, c.showFree))] else [];
      here + ExecLines(ps[1..], ms[1..], c)
  }

  function ExecReadings(ms: seq<Probe>, c: ConfBtrfs): (rs: seq<Reading>)
    ensures |rs| == |ms|
    ensures forall i :: 0 <= i < |ms| ==> rs[i] == ExecReading(ms[i], c)
  {
    seq(|ms|, i requires 0 <= i < |ms| => ExecReading(ms[i], c))
  }

  /** getBtrfsStatusExec: no output at all when the partition table cannot be
      read; otherwise a line per measured mount (OK ones only without
      warn-only) under the settled status. */
  function StatusExec(table: PartitionTable, cmd: string, run: seq<string> -> Option<string>,
                      format: Float -> string, c: ConfBtrfs): Output {
    match table
    case TableFailed => Output(NoHeader, [])
    case Table(parts) =>
      var ps := Probed(parts);
      var ms := Probes(ps, cmd, run, format);
      Output(SeverityHeader(Title, Settle(ExecReadings(ms, c)), Capital), ExecLines(ps, ms, c))
  }

  /** The exec-mode status is Critical exactly when some measured mount is at
      or above `crit` and OK exactly when every measured mount is below `warn`;
      skipped mounts count for nothing. */
  lemma ExecStatus(ms: seq<Probe>, c: ConfBtrfs)
    requires c.warn <= c.crit
    ensures var s := Settle(ExecReadings(ms, c));
      && (s == Critical <==> exists i :: 0 <= i < |ms| && ms[i].Measured? && ms[i].percent >= c.crit)
      && (s == OK <==> forall i :: 0 <= i < |ms| && ms[i].Measured? ==> ms[i].percent < c.warn)
  {
    var rs := ExecReadings(ms, c);
    SettleIsWorst(rs);
    var cs := Contributions(rs);
    forall i | 0 <= i < |ms|
      ensures cs[i] == (if ms[i].Skipped? then OK else Classify(ms[i].percent, c.warn, c.crit))
    {
      if ms[i].Measured? {
        BandIsClassify(ms[i].percent, c.warn, c.crit, c.warnOnly);
      }
    }
    var mx := MaxOf(cs);
    if mx != OK {
      var i :| 0 <= i < |cs| && cs[i] == mx;
    }
  }

  /** The mount points whose probe gave a measurement, in order. */
  function MeasuredMounts(ps: seq<Partition>, ms: seq<Probe>): seq<string>
    requires |ms| == |ps|
  {
    if |ps| == 0 then []
    else (if ms[0].Measured? then [ps[0].mountpoint] else []) + MeasuredMounts(ps[1..], ms[1..])
  }

  /** The mounts listed are measured mounts, in probe order; without warn-only
      every measured mount is listed. */
  lemma {:induction false} ExecListed(ps: seq<Partition>, ms: seq<Probe>, c: ConfBtrfs)
    requires |ms| == |ps| && c.warn <= c.crit
    ensures !c.warnOnly ==> Labels(ExecLines(ps, ms, c)) == MeasuredMounts(ps, ms)
    ensures forall l :: l in ExecLines(ps, ms, c) ==> Label(l) in MeasuredMounts(ps, ms)
  {
    if |ps| > 0 {
      ExecListed(ps[1..], ms[1..], c);
      ShownIsMeasured(ms[0], c);
      MountsStep(ps, ms);
      if ExecReading(ms[0], c).Shown? {
        ExecLinesShown(ps, ms, c);
      } else {
        ExecLinesHidden(ps, ms, c);
      }
    }
  }

  /** Only a measured mount is shown; without warn-only every measured mount is. */
  lemma ShownIsMeasured(m: Probe, c: ConfBtrfs)
    ensures ExecReading(m, c).Shown? ==> m.Measured?
    ensures !c.warnOnly && m.Measured? ==> ExecReading(m, c).Shown?
  {
  }

  /** A shown mount heads the lines with its own label. */
  lemma ExecLinesShown(ps: seq<Partition>, ms: seq<Probe>, c: ConfBtrfs)
    requires |ms| == |ps| > 0 && ExecReading(ms[0], c).Shown?
    ensures var ls, rest := ExecLines(ps, ms, c), ExecLines(ps[1..], ms[1..], c);
      && Labels(ls) == [ps[0].mountpoint] + Labels(rest)
      && forall l :: l in ls ==> l in rest || Label(l) == ps[0].mountpoint
  {
    var m := ms[0];
    var head := Plain(ps[0].mountpoint, UsageText(m.used, m.free, m.total, c.showFree));
    var rest := ExecLines(ps[1..], ms[1..], c);
    assert ExecLines(ps, ms, c) == [head] + rest;
    LabelsAppend([head], rest);
  }

  lemma ExecLinesHidden(ps: seq<Partition>, ms: seq<Probe>, c: ConfBtrfs)
    requires |ms| == |ps| > 0 && !ExecReading(ms[0], c).Shown?
    ensures ExecLines(ps, ms, c) == ExecLines(ps[1..], ms[1..], c)
  {
  }

  lemma MountsStep(ps: seq<Partition>, ms: seq<Probe>)
    requires |ms| == |ps| > 0
    ensures var mounts, later := MeasuredMounts(ps, ms), MeasuredMounts(ps[1..], ms[1..]);
      && (ms[0].Measured? ==> mounts == [ps[0].mountpoint] + later)
      && (!ms[0].Measured? ==> mounts == later)
  {
  }




  // ---------------------------------------------------------------------------
  // Sysfs mode

  /** One /sys/fs/btrfs/<uuid> directory: the label file's text (None when it
      cannot be read), the summed allocation bytes and the summed device size
      in bytes (sectors times 512). */
  datatype Fs = Fs(labelFile: Option<string>, used: int, total: int)

  function FsLabel(fs: Fs): string {
    match fs.labelFile
    case Some(text) => TrimSpace(text)
    case None => Unlabelled
  }

  predicate Readable(fs: Fs) {
    fs.used > 0 && fs.total > 0
  }

  /** The usage percentage, truncated; both sums are positive here. */
  function Percent(fs: Fs): (p: int)
    requires Readable(fs)
    ensures 0 <= p
    ensures fs.used <= fs.total ==> p <= 100
    ensures p * fs.total <= fs.used * 100 < (p + 1) * fs.total
  {
    (fs.used * 100) / fs.total
  }

  function FsReading(fs: Fs, c: ConfBtrfs): (r: Reading)
    ensures !Readable(fs) ==> r == Hidden
  {
    if !Readable(fs) then Hidden else Band(Percent(fs), c.warn, c.crit, c.warnOnly)
  }

  /** An unreadable filesystem always gets a red "read error" line; a readable
      one a line when its band shows it. */
  function FsLines(fss: seq<Fs>, format: Float -> string, c: ConfBtrfs): (ls: seq<Line>)
    ensures |ls| <= |fss|
  {
    if |fss| == 0 then []
    else
      var fs := fss[0];
      var here :=
        if !Readable(fs) then [Item(FsLabel(fs), Utils.Err, ReadError, "")]
        else if FsReading(fs, c).Shown? then [Plain(FsLabel(fs), UsageText(format(Finite(fs.used as real)), format(Finite((fs.total - fs.used) as real)), format(Finite(fs.total as real)), c.showFree))]
        else [];
      here + FsLines(fss[1..], format, c)
  }

  function FsReadings(fss: seq<Fs>, c: ConfBtrfs): (rs: seq<Reading>)
    ensures |rs| == |fss|
    ensures forall i :: 0 <= i < |fss| ==> rs[i] == FsReading(fss[i], c)
  {
    seq(|fss|, i requires 0 <= i < |fss| => FsReading(fss[i], c))
  }

  /** getBtrfsStatus over the filesystems found in sysfs. */
  function StatusSysfs(fss: seq<Fs>, format: Float -> string, c: ConfBtrfs): Output {
    Output(SeverityHeader(Title, Settle(FsReadings(fss, c)), Capital), FsLines(fss, format, c))
  }

  /** The sysfs header is Critical exactly when some readable filesystem is at
      or above `crit`, OK exactly when every readable one is below `warn`: a
      read error never changes it. */
  lemma SysfsHeader(fss: seq<Fs>, format: Float -> string, c: ConfBtrfs)
    requires c.warn <= c.crit
    ensures var h := StatusSysfs(fss, format, c).header;
      && (h == SeverityHeader(Title, Critical, Capital) <==>
            exists i :: 0 <= i < |fss| && Readable(fss[i]) && Percent(fss[i]) >= c.crit)
      && (h == SeverityHeader(Title, OK, Capital) <==>
            forall i :: 0 <= i < |fss| && Readable(fss[i]) ==> Percent(fss[i]) < c.warn)
  {
    var rs := FsReadings(fss, c);
    SettleIsWorst(rs);
    var cs := Contributions(rs);
    forall i | 0 <= i < |fss|
      ensures cs[i] == (if !Readable(fss[i]) then OK else Classify(Percent(fss[i]), c.warn, c.crit))
    {
      if Readable(fss[i]) {
        BandIsClassify(Percent(fss[i]), c.warn, c.crit, c.warnOnly);
      }
    }
    var mx := MaxOf(cs);
    if mx != OK {
      var i :| 0 <= i < |cs| && cs[i] == mx;
    }
  }

  /** Every unreadable filesystem is reported, whatever the warn-only flag. */
  lemma {:induction false} ReadErrorListed(fss: seq<Fs>, format: Float -> string, c: ConfBtrfs, i: nat)
    requires i < |fss| && !Readable(fss[i])
    ensures Item(FsLabel(fss[i]), Utils.Err, ReadError, "") in FsLines(fss, format, c)
  {
    if i > 0 {
      ReadErrorListed(fss[1..], format, c, i - 1);
    }
  }

  /** A filesystem without a readable label file is listed as "Unlabelled";
      a label file holding one line is listed as that line. */
  lemma LabelOf(line: string)
    requires |line| == 0 || (!IsSpace(line[0]) && !IsSpace(line[|line| - 1]))
    ensures FsLabel(Fs(None, 0, 0)) == Unlabelled
    ensures FsLabel(Fs(Some(line + "\n"), 0, 0)) == line
  {
    TrimSpaceLine(line);
  }

  // ---------------------------------------------------------------------------
  // GetBtrfs

  /** GetBtrfs: exec mode with the resolved command, or sysfs mode. */
  function GetBtrfs(c: ConfBtrfs, uid: Option<string>, table: PartitionTable, run: seq<string> -> Option<string>,
                    fss: seq<Fs>, format: Float -> string): Output
  {
    if c.exec then StatusExec(table, Command(c, uid), run, format, c) else StatusSysfs(fss, format, c)
  }

  /** Exec mode produces nothing at all when the partitions cannot be listed,
      and otherwise always a header; sysfs mode always a header. */
  lemma GetBtrfsHeader(c: ConfBtrfs, uid: Option<string>, table: PartitionTable, run: seq<string> -> Option<string>,
                       fss: seq<Fs>, format: Float -> string)
    ensures var o := GetBtrfs(c, uid, table, run, fss, format);
      (o.header == NoHeader && o.content == []) <==> (c.exec && table.TableFailed?)
  {
    var o := GetBtrfs(c, uid, table, run, fss, format);
    if !(c.exec && table.TableFailed?) {
      var s :| o.header == SeverityHeader(Title, s, Capital);
      SeverityHeaderIsNotNotice(Title, s, Capital);
    }
  }
}
