/** datasources/temp_disks.go and temps/disks.go: disk temperatures as the
    hddtemp daemon reports them. The daemon's reply is one line of records
    `|device|model|temperature|unit|`, back to back; the reader cuts it on "||",
    drops a leading "|" and cuts each record on "|", taking field 0 as the
    device and field 2 as the temperature. The socket is a parameter. */
module DiskTemps {
  import opened Wrappers
  import opened Text
  import opened Severity
  import opened Report
  import Utils

  const Title: string := "Disk temp"
  const DevPrefix: string := "/dev/"

  // ---------------------------------------------------------------------------
  // The reply and its parsing

  /** One record as the daemon sends it. */
  datatype Entry = Entry(device: string, model: string, temp: string, unit: string)

  function Body(e: Entry): string {
    e.device + "|" + e.model + "|" + e.temp + "|" + e.unit
  }

  /** The daemon's reply for a list of records: each framed by bars. */
  function Reply(es: seq<Entry>): string {
    if |es| == 0 then "" else "|" + Body(es[0]) + "|" + Reply(es[1..])
  }

  /** A field the daemon can frame unambiguously: not empty and free of bars. */
  predicate FieldOK(f: string) {
    |f| > 0 && '|' !in f
  }

  predicate EntryOK(e: Entry) {
    FieldOK(e.device) && FieldOK(e.model) && FieldOK(e.temp) && FieldOK(e.unit)
  }

  /** The field lists the reader cuts a reply into. */
  function Records(message: string): (r: seq<seq<string>>)
    ensures |r| == |Split(message, "||")|
  {
    var parts := Split(message, "||");
    seq(|parts|, i requires 0 <= i < |parts| => Split(TrimPrefix(parts[i], "|"), "|"))
  }

  /** What the reader needs of a reply: every record has a field 2 (it indexes
      it without a check, so a shorter record is a run-time panic). */
  predicate WellFormed(message: string) {
    forall f :: f in Records(message) ==> |f| >= 3
  }

  /** A disk as the classifier sees it: its name and its temperature, if the
      temperature field is a number. */
  datatype Disk = Disk(name: string, temp: Option<int>)

  /** The newer reader drops the "/dev/" prefix; the older one shows the device verbatim. */
  function DiskName(device: string, trimDev: bool): string {
    if trimDev then TrimPrefix(device, DevPrefix) else device
  }

  function Disks(message: string, trimDev: bool): (ds: seq<Disk>)
    requires WellFormed(message)
    ensures |ds| == |Records(message)|
  {
    var rs := Records(message);
    seq(|rs|, i requires 0 <= i < |rs| =>
      assert rs[i] in rs;
      Disk(DiskName(rs[i][0], trimDev), Atoi(rs[i][2])))
  }

  // No two adjacent bars: what makes the "||" cut land between records.

  predicate Sparse(s: string) {
    forall k :: 0 <= k < |s| - 1 ==> !(s[k] == '|' && s[k + 1] == '|')
  }

  lemma SparseAppend(x: string, y: string)
    requires Sparse(x) && Sparse(y) && |x| > 0 && |y| > 0
    requires !(x[|x| - 1] == '|' && y[0] == '|')
    ensures Sparse(x + y)
  {
    var s := x + y;
    forall k | 0 <= k < |s| - 1
      ensures !(s[k] == '|' && s[k + 1] == '|')
    {
      if k < |x| - 1 {
        assert s[k] == x[k] && s[k + 1] == x[k + 1];
      } else if k == |x| - 1 {
        assert s[k] == x[|x| - 1] && s[k + 1] == y[0];
      } else {
        assert s[k] == y[k - |x|] && s[k + 1] == y[k - |x| + 1];
      }
    }
  }

  lemma SparseBody(e: Entry)
    requires EntryOK(e)
    ensures Sparse("|" + Body(e) + "|")
    ensures Sparse(Body(e) + "|")
  {
    var d, m, t, u := e.device, e.model, e.temp, e.unit;
    assert Sparse(d) && Sparse(m) && Sparse(t) && Sparse(u) && Sparse("|");
    assert d[0] != '|' && d[|d| - 1] != '|' && m[0] != '|' && m[|m| - 1] != '|';
    assert t[0] != '|' && t[|t| - 1] != '|' && u[0] != '|' && u[|u| - 1] != '|';
    SparseAppend(d, "|");
    SparseAppend(d + "|", m);
    SparseAppend(d + "|" + m, "|");
    SparseAppend(d + "|" + m + "|", t);
    SparseAppend(d + "|" + m + "|" + t, "|");
    SparseAppend(d + "|" + m + "|" + t + "|", u);
    var b := Body(e);
    assert b[0] == d[0] && b[|b| - 1] == u[|u| - 1];
    SparseAppend(b, "|");
    SparseAppend("|", b);
    SparseAppend("|" + b, "|");
  }

  lemma SparseNoDouble(s: string)
    requires Sparse(s)
    ensures forall k: nat :: !OccursAt(s, "||", k)
  {
    forall k: nat
      ensures !OccursAt(s, "||", k)
    {
      if k + 2 <= |s| {
        assert s[k..k + 2] == [s[k], s[k + 1]];
      }
    }
  }

  lemma SparseSepFree(a: string)
    requires Sparse(a + "|")
    ensures SepFreeBefore(a, "||")
  {
    forall k: nat | k < |a|
      ensures !OccursAt(a + "||", "||", k)
    {
      assert (a + "||")[k..k + 2] == [(a + "|")[k], (a + "|")[k + 1]];
    }
  }

  /** The record text after the reader's TrimPrefix: the last one keeps the
      closing bar of the reply. */
  function Framed(es: seq<Entry>, i: nat): string
    requires i < |es|
  {
    Body(es[i]) + (if i == |es| - 1 then "|" else "")
  }

  /** The reply without its opening bar. */
  function Tail(es: seq<Entry>): string
    requires |es| > 0
  {
    Body(es[0]) + "|" + Reply(es[1..])
  }

  lemma {:induction false} TailSplit(es: seq<Entry>)
    requires |es| > 0
    requires forall i :: 0 <= i < |es| ==> EntryOK(es[i])
    ensures |Split(Tail(es), "||")| == |es|
    ensures forall i :: 0 <= i < |es| ==> Split(Tail(es), "||")[i] == Framed(es, i)
    decreases |es|
  {
    SparseBody(es[0]);
    if |es| == 1 {
      assert Tail(es) == Body(es[0]) + "|";
      SparseNoDouble(Body(es[0]) + "|");
      SplitWhole(Body(es[0]) + "|", "||");
    } else {
      var rest := es[1..];
      assert Reply(rest) == "|" + Tail(rest);
      assert Tail(es) == Body(es[0]) + "||" + Tail(rest);
      SparseSepFree(Body(es[0]));
      SplitAtSep(Body(es[0]), Tail(rest), "||");
      TailSplit(rest);
      forall i | 1 <= i < |es|
        ensures Split(Tail(es), "||")[i] == Framed(es, i)
      {
        assert Framed(es, i) == Framed(rest, i - 1);
      }
    }
  }

  /** The reader's "||" cut recovers the records, the first with its opening bar. */
  lemma ReplySplit(es: seq<Entry>)
    requires |es| > 0
    requires forall i :: 0 <= i < |es| ==> EntryOK(es[i])
    ensures |Split(Reply(es), "||")| == |es|
    ensures forall i :: 0 <= i < |es| ==> TrimPrefix(Split(Reply(es), "||")[i], "|") == Framed(es, i)
  {
    if |es| == 1 {
      ReplySplitOne(es);
    } else {
      ReplySplitMore(es);
    }
  }

  lemma ReplySplitOne(es: seq<Entry>)
    requires |es| == 1 && EntryOK(es[0])
    ensures Split(Reply(es), "||") == ["|" + Framed(es, 0)]
  {
    SparseBody(es[0]);
    assert es[1..] == [];
    var w := "|" + Body(es[0]) + "|";
    assert Reply(es) == w;
    SparseNoDouble(w);
    SplitWhole(w, "||");
    assert w == "|" + Framed(es, 0);
  }

  lemma ReplySplitMore(es: seq<Entry>)
    requires |es| > 1
    requires forall i :: 0 <= i < |es| ==> EntryOK(es[i])
    ensures |Split(Reply(es), "||")| == |es|
    ensures forall i :: 0 <= i < |es| ==> TrimPrefix(Split(Reply(es), "||")[i], "|") == Framed(es, i)
  {
    SparseBody(es[0]);
    var rest := es[1..];
    var head := "|" + Body(es[0]);
    ReplyShape(es);
    SparseSepFree(head);
    SplitAtSep(head, Tail(rest), "||");
    var parts := Split(Reply(es), "||");
    var tail := Split(Tail(rest), "||");
    assert parts == [head] + tail;
    TailSplit(rest);
    assert TrimPrefix(head, "|") == Framed(es, 0);
    forall i | 1 <= i < |es|
      ensures TrimPrefix(parts[i], "|") == Framed(es, i)
    {
      assert parts[i] == tail[i - 1];
      FramedShift(es, i);
    }
  }

  lemma ReplyShape(es: seq<Entry>)
    requires |es| > 1
    ensures Reply(es) == "|" + Body(es[0]) + "||" + Tail(es[1..])
  {
    var rest := es[1..];
    var b, t := Body(es[0]), Tail(rest);
    calc {
      Reply(es);
      "|" + b + "|" + Reply(rest);
      { assert Reply(rest) == "|" + t; }
      "|" + b + "|" + ("|" + t);
      { DoubleBar(b, t); }
      "|" + b + "||" + t;
    }
  }

  lemma DoubleBar(b: string, t: string)
    ensures "|" + b + "|" + ("|" + t) == "|" + b + "||" + t
  {
  }

  /** A later record's text does not start with a bar, and it is the same
      record of the list without the first. */
  lemma FramedShift(es: seq<Entry>, i: nat)
    requires 1 <= i < |es| && EntryOK(es[i])
    ensures Framed(es, i) == Framed(es[1..], i - 1)
    ensures TrimPrefix(Framed(es, i), "|") == Framed(es, i)
  {
    assert es[i] == es[1..][i - 1];
    assert Framed(es, i)[0] == es[i].device[0];
    assert es[i].device[0] in es[i].device;
  }

  /** A record body cut on "|" gives back its fields (the last record has one
      more, empty field from the closing bar). */
  lemma FramedFields(e: Entry, closing: bool)
    requires EntryOK(e)
    ensures var f := Split(Body(e) + (if closing then "|" else ""), "|");
      |f| >= 3 && f[0] == e.device && f[2] == e.temp
  {
    var parts := [e.device, e.model, e.temp, e.unit] + (if closing then [""] else []);
    assert Join(parts[3..], "|") == e.unit + (if closing then "|" else "");
    assert Join(parts[2..], "|") == e.temp + "|" + Join(parts[3..], "|");
    assert Join(parts[1..], "|") == e.model + "|" + Join(parts[2..], "|");
    assert Join(parts, "|") == e.device + "|" + Join(parts[1..], "|");
    assert Join(parts, "|") == Body(e) + (if closing then "|" else "");
    SplitJoin(parts, '|');
  }

  lemma RecordsOfReply(es: seq<Entry>)
    requires |es| > 0
    requires forall i :: 0 <= i < |es| ==> EntryOK(es[i])
    ensures |Records(Reply(es))| == |es|
    ensures forall i :: 0 <= i < |es| ==>
      |Records(Reply(es))[i]| >= 3 && Records(Reply(es))[i][0] == es[i].device && Records(Reply(es))[i][2] == es[i].temp
  {
    ReplySplit(es);
    var rs := Records(Reply(es));
    forall i | 0 <= i < |es|
      ensures |rs[i]| >= 3 && rs[i][0] == es[i].device && rs[i][2] == es[i].temp
    {
      assert rs[i] == Split(Framed(es, i), "|");
      FramedFields(es[i], i == |es| - 1);
    }
  }

  /** Parsing a reply gives back each record's device (without "/dev/" in the
      newer reader) and temperature, in reply order. */
  lemma DisksOfReply(es: seq<Entry>, trimDev: bool)
    requires |es| > 0
    requires forall i :: 0 <= i < |es| ==> EntryOK(es[i])
    ensures WellFormed(Reply(es))
    ensures Disks(Reply(es), trimDev) == seq(|es|, i requires 0 <= i < |es| => Disk(DiskName(es[i].device, trimDev), Atoi(es[i].temp)))
  {
    RecordsOfReply(es);
    var rs := Records(Reply(es));
    assert WellFormed(Reply(es)) by {
      forall f | f in rs
        ensures |f| >= 3
      {
        var i :| 0 <= i < |rs| && rs[i] == f;
      }
    }
  }

  // ---------------------------------------------------------------------------
  // Classification

  /** The line a disk gets: "--" in red for an unreadable temperature, else its
      threshold band (nothing for a cool disk under failed-only). */
  function DiskLine(d: Disk, warn: int, crit: int, failedOnly: bool): (r: Option<Line>)
    ensures d.temp.None? ==> r == Some(Item(d.name, Utils.Err, "--", ""))
    ensures d.temp.Some? ==> (r.None? <==> Band(d.temp.value, warn, crit, failedOnly).Hidden?)
    ensures r.Some? ==> Label(r.value) == d.name
  {
    match d.temp
    case None => Some(Item(d.name, Utils.Err, "--", ""))
    case Some(t) =>
      match Band(t, warn, crit, failedOnly)
      case Hidden => None
      case Shown(s) => Some(Item(d.name, ToneOf(s), IntToString(t), ""))
  }

  /** The disks the not-OK counter counts. */
  predicate NotOK(d: Disk, warn: int, crit: int, failedOnly: bool) {
    d.temp.None? || Contribution(Band(d.temp.value, warn, crit, failedOnly)) != OK
  }

  /** With sane thresholds a disk is not OK exactly when its temperature is
      unreadable or at least `warn`. */
  lemma NotOKThreshold(d: Disk, warn: int, crit: int, failedOnly: bool)
    requires warn <= crit
    ensures NotOK(d, warn, crit, failedOnly) <==> d.temp.None? || d.temp.value >= warn
  {
    if d.temp.Some? {
      BandIsClassify(d.temp.value, warn, crit, failedOnly);
    }
  }

  /** The disks left after the ignore list, in reply order. */
  function Kept(ds: seq<Disk>, ignore: seq<string>): (r: seq<Disk>)
    ensures |r| <= |ds|
    ensures forall d :: d in r <==> d in ds && d.name !in ignore
  {
    if |ds| == 0 then []
    else
      Utils.ContainsFromList(ignore, ds[0].name);
      assert forall d :: d in ds <==> d == ds[0] || d in ds[1..];
      (if Utils.Contains(Utils.FromList(ignore), ds[0].name) then [] else [ds[0]]) + Kept(ds[1..], ignore)
  }

  function NotOKCount(ds: seq<Disk>, warn: int, crit: int, failedOnly: bool): (n: nat)
    ensures n <= |ds|
    ensures n == 0 <==> forall i :: 0 <= i < |ds| ==> !NotOK(ds[i], warn, crit, failedOnly)
    ensures n == |ds| <==> forall i :: 0 <= i < |ds| ==> NotOK(ds[i], warn, crit, failedOnly)
  {
    if |ds| == 0 then 0
    else
      var rest := NotOKCount(ds[1..], warn, crit, failedOnly);
      assert forall i :: 1 <= i < |ds| ==> ds[i] == ds[1..][i - 1];
      (if NotOK(ds[0], warn, crit, failedOnly) then 1 else 0) + rest
  }

  function Lines(ds: seq<Disk>, warn: int, crit: int, failedOnly: bool): (ls: seq<Line>)
    ensures |ls| <= |ds|
  {
    if |ds| == 0 then []
    else
      var here := match DiskLine(ds[0], warn, crit, failedOnly) case Some(l) => [l] case None => [];
      here + Lines(ds[1..], warn, crit, failedOnly)
  }

  /** Every line is the line of some disk. */
  lemma {:induction false} LinesFrom(ds: seq<Disk>, warn: int, crit: int, failedOnly: bool, l: Line)
    requires l in Lines(ds, warn, crit, failedOnly)
    ensures exists d :: d in ds && DiskLine(d, warn, crit, failedOnly) == Some(l)
  {
    var first := DiskLine(ds[0], warn, crit, failedOnly);
    if first != Some(l) {
      var rest := Lines(ds[1..], warn, crit, failedOnly);
      assert l in rest;
      LinesFrom(ds[1..], warn, crit, failedOnly, l);
      var d :| d in ds[1..] && DiskLine(d, warn, crit, failedOnly) == Some(l);
      assert d in ds;
    }
  }

  /** The header from the two counters: OK without not-OK disks, Warning while
      some disk is fine, Critical otherwise. */
  function Header(notOK: nat, total: nat): Line {
    if notOK == 0 then SeverityHeader(Title, OK, Capital)
    else if notOK < total then SeverityHeader(Title, Warning, Capital)
    else SeverityHeader(Title, Critical, Capital)
  }

  /** The counted part of getFromHddtemp, with counters that do not wrap. */
  function Collect(message: string, trimDev: bool, ignore: seq<string>, warn: int, crit: int, failedOnly: bool): Output
    requires WellFormed(message)
  {
    var ds := Kept(Disks(message, trimDev), ignore);
    Output(Header(NotOKCount(ds, warn, crit, failedOnly), |ds|), Lines(ds, warn, crit, failedOnly))
  }

  /** The daemon's socket: refused, or the line it sent. */
  datatype Connection = Refused | Received(message: string)

  /** datasources/temp_disks.go getFromHddtemp. */
  function GetFromHddtemp(conn: Connection, ignore: seq<string>, warn: int, crit: int, failedOnly: bool): Output
    requires conn.Received? && |conn.message| > 0 ==> WellFormed(conn.message)
  {
    match conn
    case Refused => Output(Unavailable(Title), [])
    case Received(message) =>
      if |message| == 0 then Output(Notice(Title, Utils.Err, "failed"), [])
      else Collect(message, true, ignore, warn, crit, failedOnly)
  }

  /** temps/disks.go getFromHddtemp: no ignore list and the device shown verbatim. */
  function GetFromHddtempOld(conn: Connection, warn: int, crit: int, failedOnly: bool): Output
    requires conn.Received? && |conn.message| > 0 ==> WellFormed(conn.message)
  {
    match conn
    case Refused => Output(Unavailable(Title), [])
    case Received(message) =>
      if |message| == 0 then Output(Notice(Title, Utils.Err, "failed"), [])
      else Collect(message, false, [], warn, crit, failedOnly)
  }

  // ---------------------------------------------------------------------------
  // Properties

  /** The header: OK exactly when no counted disk is not OK; Warning when some
      are and some are not; Critical when there are disks and all are not OK. */
  lemma HeaderSpec(ds: seq<Disk>, warn: int, crit: int, failedOnly: bool)
    ensures var h := Header(NotOKCount(ds, warn, crit, failedOnly), |ds|);
      && (h == SeverityHeader(Title, OK, Capital) <==> forall i :: 0 <= i < |ds| ==> !NotOK(ds[i], warn, crit, failedOnly))
      && (h == SeverityHeader(Title, Warning, Capital) <==>
            (exists i :: 0 <= i < |ds| && NotOK(ds[i], warn, crit, failedOnly))
            && (exists i :: 0 <= i < |ds| && !NotOK(ds[i], warn, crit, failedOnly)))
      && (h == SeverityHeader(Title, Critical, Capital) <==>
            |ds| > 0 && forall i :: 0 <= i < |ds| ==> NotOK(ds[i], warn, crit, failedOnly))
  {
    var n := NotOKCount(ds, warn, crit, failedOnly);
    var h := Header(n, |ds|);
  }

  /** Every listed line names a disk that was not ignored. */
  lemma IgnoredNotListed(conn: Connection, ignore: seq<string>, warn: int, crit: int, failedOnly: bool, n: string)
    requires conn.Received? && |conn.message| > 0 ==> WellFormed(conn.message)
    requires n in ignore
    ensures n !in Labels(GetFromHddtemp(conn, ignore, warn, crit, failedOnly).content)
  {
    if conn.Received? && |conn.message| > 0 {
      var ds := Kept(Disks(conn.message, true), ignore);
      var ls := Lines(ds, warn, crit, failedOnly);
      forall i | 0 <= i < |ls|
        ensures Labels(ls)[i] != n
      {
        LinesFrom(ds, warn, crit, failedOnly, ls[i]);
        var d :| d in ds && DiskLine(d, warn, crit, failedOnly) == Some(ls[i]);
      }
    }
  }

  /** The result of the newer reader: "unavailable" when the socket is refused,
      "failed" for an empty reply, otherwise the header of the disks left after
      the ignore list over their lines. */
  lemma GetFromHddtempSpec(conn: Connection, ignore: seq<string>, warn: int, crit: int, failedOnly: bool)
    requires conn.Received? && |conn.message| > 0 ==> WellFormed(conn.message)
    ensures var o := GetFromHddtemp(conn, ignore, warn, crit, failedOnly);
      && (conn.Refused? ==> o == Output(Notice(Title, Utils.Warn, "unavailable"), []))
      && (conn.Received? && |conn.message| == 0 ==> o == Output(Notice(Title, Utils.Err, "failed"), []))
      && (conn.Received? && |conn.message| > 0 ==>
          var ds := Kept(Disks(conn.message, true), ignore);
          && (o.header == SeverityHeader(Title, OK, Capital) <==> forall i :: 0 <= i < |ds| ==> !NotOK(ds[i], warn, crit, failedOnly))
          && (o.header == SeverityHeader(Title, Critical, Capital) <==> |ds| > 0 && forall i :: 0 <= i < |ds| ==> NotOK(ds[i], warn, crit, failedOnly))
          && o.content == Lines(ds, warn, crit, failedOnly))
  {
    if conn.Received? && |conn.message| > 0 {
      HeaderSpec(Kept(Disks(conn.message, true), ignore), warn, crit, failedOnly);
    }
  }

  function Names(ds: seq<Disk>): (r: seq<string>)
    ensures |r| == |ds| && forall i :: 0 <= i < |ds| ==> r[i] == ds[i].name
  {
    seq(|ds|, i requires 0 <= i < |ds| => ds[i].name)
  }

  /** Without failed-only (and with sane thresholds) every disk gets exactly
      one line, in reply order. */
  lemma {:induction false} LinesAll(ds: seq<Disk>, warn: int, crit: int)
    requires warn <= crit
    ensures Labels(Lines(ds, warn, crit, false)) == Names(ds)
  {
    if |ds| > 0 {
      var first := DiskLine(ds[0], warn, crit, false);
      assert first.Some? by {
        if ds[0].temp.Some? {
          BandIsClassify(ds[0].temp.value, warn, crit, false);
        }
      }
      var rest := Lines(ds[1..], warn, crit, false);
      assert Lines(ds, warn, crit, false) == [first.value] + rest;
      LinesAll(ds[1..], warn, crit);
      assert Labels([first.value] + rest) == [ds[0].name] + Labels(rest);
      assert Names(ds) == [ds[0].name] + Names(ds[1..]);
    }
  }

  /** Under failed-only (and with sane thresholds) exactly the not-OK disks get
      a line, and none of them is green. */
  lemma {:induction false} LinesFailedOnly(ds: seq<Disk>, warn: int, crit: int)
    requires warn <= crit
    ensures |Lines(ds, warn, crit, true)| == NotOKCount(ds, warn, crit, true)
    ensures forall l :: l in Lines(ds, warn, crit, true) ==> l.Item? && l.tone != Utils.Good
  {
    if |ds| > 0 {
      LinesFailedOnly(ds[1..], warn, crit);
      NotOKThreshold(ds[0], warn, crit, true);
      if ds[0].temp.Some? {
        BandIsClassify(ds[0].temp.value, warn, crit, true);
      }
    }
  }

  // ---------------------------------------------------------------------------
  // The counters as written: both are uint8

  /** The header as the code computes it: the counters are 8-bit and wrap at 256. */
  function HeaderAsWritten(notOK: nat, total: nat): Line {
    Header(notOK % 256, total % 256)
  }

  function CollectAsWritten(message: string, trimDev: bool, ignore: seq<string>, warn: int, crit: int, failedOnly: bool): Output
    requires WellFormed(message)
  {
    var ds := Kept(Disks(message, trimDev), ignore);
    Output(HeaderAsWritten(NotOKCount(ds, warn, crit, failedOnly), |ds|), Lines(ds, warn, crit, failedOnly))
  }

  /** Below 256 counted disks the wrapping counters change nothing. */
  lemma AsWrittenBelow256(message: string, trimDev: bool, ignore: seq<string>, warn: int, crit: int, failedOnly: bool)
    requires WellFormed(message)
    requires |Kept(Disks(message, trimDev), ignore)| < 256
    ensures CollectAsWritten(message, trimDev, ignore, warn, crit, failedOnly) == Collect(message, trimDev, ignore, warn, crit, failedOnly)
  {
    var ds := Kept(Disks(message, trimDev), ignore);
    var n := NotOKCount(ds, warn, crit, failedOnly);
    HeaderBelow256(n, |ds|);
  }

  lemma HeaderBelow256(n: nat, t: nat)
    requires n < 256 && t < 256
    ensures HeaderAsWritten(n, t) == Header(n, t)
  {
  }

  /** With 256 counted disks that are all not OK, both counters wrap to 0 and
      the header claims OK. */
  lemma AsWrittenWrapsAt256(message: string, trimDev: bool, ignore: seq<string>, warn: int, crit: int, failedOnly: bool)
    requires WellFormed(message)
    requires var ds := Kept(Disks(message, trimDev), ignore);
      |ds| == 256 && forall i :: 0 <= i < |ds| ==> NotOK(ds[i], warn, crit, failedOnly)
    ensures CollectAsWritten(message, trimDev, ignore, warn, crit, failedOnly).header == SeverityHeader(Title, OK, Capital)
    ensures Collect(message, trimDev, ignore, warn, crit, failedOnly).header == SeverityHeader(Title, Critical, Capital)
  {
  }

  /** An unreadable disk. */
  const Unreadable: Entry := Entry("/dev/sda", "disk", "ERR", "*")

  /** The concrete reply: 256 records whose temperature is not a number. */
  lemma WrapExample()
    ensures WellFormed(Reply(seq(256, _ => Unreadable)))
    ensures CollectAsWritten(Reply(seq(256, _ => Unreadable)), true, [], 40, 50, false).header == SeverityHeader(Title, OK, Capital)
    ensures Collect(Reply(seq(256, _ => Unreadable)), true, [], 40, 50, false).header == SeverityHeader(Title, Critical, Capital)
  {
    var es: seq<Entry> := seq(256, _ => Unreadable);
    assert forall i :: 0 <= i < |es| ==> es[i] == Unreadable;
    assert Atoi("ERR") == None by { assert !IsDigit('E'); }
    assert DiskName(Unreadable.device, true) == "sda" by {
      assert TrimPrefix("/dev/sda", DevPrefix) == "sda";
    }
    DisksOfReply(es, true);
    var ds := Disks(Reply(es), true);
    assert forall i :: 0 <= i < |ds| ==> ds[i] == Disk("sda", None);
    KeptNothing(ds);
    assert forall i :: 0 <= i < |ds| ==> NotOK(ds[i], 40, 50, false);
    AsWrittenWrapsAt256(Reply(es), true, [], 40, 50, false);
  }

  lemma {:induction false} KeptNothing(ds: seq<Disk>)
    ensures Kept(ds, []) == ds
  {
    if |ds| > 0 {
      KeptNothing(ds[1..]);
      assert ds == [ds[0]] + ds[1..];
    }
  }

  /** The two readers on the same reply: the older shows every record under its
      device exactly as sent, the newer under the device without "/dev/"; both
      keep reply order when nothing is ignored and failed-only is off. */
  lemma ReadersNameDisks(es: seq<Entry>, warn: int, crit: int)
    requires |es| > 0 && forall i :: 0 <= i < |es| ==> EntryOK(es[i])
    requires warn <= crit
    ensures |Reply(es)| > 0 && WellFormed(Reply(es))
    ensures Labels(GetFromHddtempOld(Received(Reply(es)), warn, crit, false).content)
      == seq(|es|, i requires 0 <= i < |es| => es[i].device)
    ensures Labels(GetFromHddtemp(Received(Reply(es)), [], warn, crit, false).content)
      == seq(|es|, i requires 0 <= i < |es| => TrimPrefix(es[i].device, DevPrefix))
  {
    ReaderOfReply(es, false, warn, crit);
    ReaderOfReply(es, true, warn, crit);
    ReadersCollect(Reply(es), warn, crit);
    DiskNames(es);
  }

  lemma DiskNames(es: seq<Entry>)
    ensures seq(|es|, i requires 0 <= i < |es| => DiskName(es[i].device, false)) == seq(|es|, i requires 0 <= i < |es| => es[i].device)
    ensures seq(|es|, i requires 0 <= i < |es| => DiskName(es[i].device, true))
      == seq(|es|, i requires 0 <= i < |es| => TrimPrefix(es[i].device, DevPrefix))
  {
  }

  lemma ReadersCollect(m: string, warn: int, crit: int)
    requires |m| > 0 && WellFormed(m)
    ensures GetFromHddtempOld(Received(m), warn, crit, false) == Collect(m, false, [], warn, crit, false)
    ensures GetFromHddtemp(Received(m), [], warn, crit, false) == Collect(m, true, [], warn, crit, false)
  {
  }

  lemma ReaderOfReply(es: seq<Entry>, trimDev: bool, warn: int, crit: int)
    requires |es| > 0 && forall i :: 0 <= i < |es| ==> EntryOK(es[i])
    requires warn <= crit
    ensures |Reply(es)| > 0 && WellFormed(Reply(es))
    ensures Labels(Collect(Reply(es), trimDev, [], warn, crit, false).content)
      == seq(|es|, i requires 0 <= i < |es| => DiskName(es[i].device, trimDev))
  {
    var m := Reply(es);
    assert m[0] == '|';
    DisksOfReply(es, trimDev);
    ReaderNames(m, trimDev, warn, crit);
    NamesOfEntries(Disks(m, trimDev), es, trimDev);
  }

  lemma NamesOfEntries(ds: seq<Disk>, es: seq<Entry>, trimDev: bool)
    requires ds == seq(|es|, i requires 0 <= i < |es| => Disk(DiskName(es[i].device, trimDev), Atoi(es[i].temp)))
    ensures Names(ds) == seq(|es|, i requires 0 <= i < |es| => DiskName(es[i].device, trimDev))
  {
  }

  lemma ReaderNames(m: string, trimDev: bool, warn: int, crit: int)
    requires WellFormed(m)
    requires warn <= crit
    ensures Labels(Collect(m, trimDev, [], warn, crit, false).content) == Names(Disks(m, trimDev))
  {
    KeptNothing(Disks(m, trimDev));
    LinesAll(Disks(m, trimDev), warn, crit);
  }
}
