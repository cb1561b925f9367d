/** datasources/zfs.go and zfs/zfs.go: pool health and usage from the output of
    `zpool list -Hpo name,alloc,size,health`, one tab-separated line per pool.
    Running zpool is a parameter, and so is the floating-point work on the
    alloc and size fields (the usage percentage and the two size texts). */
module Zfs {
  import opened Wrappers
  import opened Text
  import opened Severity
  import opened Report
  import Utils

  const Title: string := "ZFS"
  const Online: string := "ONLINE"

  /** What the floating-point code makes of a pool's alloc and size fields. */
  datatype Usage = Usage(percent: int, used: string, total: string)

  datatype Pool = Pool(name: string, health: string, usage: Usage)

  /** The zpool run: failed, or its standard output. */
  datatype Zpool = ZpoolFailed | Listed(stdout: string)

  function Fields(line: string): seq<string> {
    Split(line, "\t")
  }

  function Lines(stdout: string): seq<string> {
    Split(stdout, "\n")
  }

  // ---------------------------------------------------------------------------
  // Reading the lines

  /** A line read with the guard the indexing needs: four fields or more make
      a pool, anything shorter is skipped. */
  function ReadPool(line: string, measure: (string, string) -> Usage): (r: Option<Pool>)
    ensures r.Some? <==> |Fields(line)| >= 4
    ensures r.Some? ==> r.value.name == Fields(line)[0] && r.value.health == Fields(line)[3]
  {
    var f := Fields(line);
    if |f| < 4 then None else Some(Pool(f[0], f[3], measure(f[1], f[2])))
  }

  function ReadPools(lines: seq<string>, measure: (string, string) -> Usage): (ps: seq<Pool>)
    ensures |ps| <= |lines|
  {
    if |lines| == 0 then []
    else
      (match ReadPool(lines[0], measure) case Some(p) => [p] case None => []) + ReadPools(lines[1..], measure)
  }

  function Pools(stdout: string, measure: (string, string) -> Usage): seq<Pool> {
    ReadPools(Lines(stdout), measure)
  }

  /** What reading one line does as written: the guard skips lines with fewer
      than three fields, and field 3 is read after it. */
  datatype Read = Skip | Panic | Got(pool: Pool)

  function ReadPoolAsWritten(line: string, measure: (string, string) -> Usage): (r: Read)
    ensures r.Panic? <==> |Fields(line)| == 3
  {
    var f := Fields(line);
    if |f| < 3 then Skip
    else if |f| < 4 then Panic
    else Got(Pool(f[0], f[3], measure(f[1], f[2])))
  }

  /** The pools as written; None when some line panics. */
  function ReadPoolsAsWritten(lines: seq<string>, measure: (string, string) -> Usage): (r: Option<seq<Pool>>)
    ensures r.None? <==> exists i :: 0 <= i < |lines| && |Fields(lines[i])| == 3
  {
    if |lines| == 0 then Some([])
    else
      var rest := ReadPoolsAsWritten(lines[1..], measure);
      assert forall i :: 1 <= i < |lines| ==> lines[i] == lines[1..][i - 1];
      match ReadPoolAsWritten(lines[0], measure)
      case Panic => None
      case Skip => rest
      case Got(p) => if rest.Some? then Some([p] + rest.value) else None
  }

  /** Wherever the code as written does not panic, it reads what the guarded
      reader reads. */
  lemma {:induction false} AsWrittenAgrees(lines: seq<string>, measure: (string, string) -> Usage)
    requires ReadPoolsAsWritten(lines, measure).Some?
    ensures ReadPoolsAsWritten(lines, measure).value == ReadPools(lines, measure)
  {
    if |lines| > 0 {
      AsWrittenAgrees(lines[1..], measure);
    }
  }

  /** A pool line with only three fields passes the guard and then panics. */
  lemma AsWrittenPanics(measure: (string, string) -> Usage)
    ensures ReadPoolsAsWritten(Lines("tank\t1024\t2048\n"), measure).None?
  {
    var line := "tank\t1024\t2048";
    assert "tank\t1024\t2048\n" == line + "\n" + "";
    SplitAt(line, "", '\n');
    SplitNoSep("", '\n');
    assert "tank\t1024\t2048" == Join(["tank", "1024", "2048"], "\t");
    SplitJoin(["tank", "1024", "2048"], '\t');
    assert Fields(Lines("tank\t1024\t2048\n")[0]) == ["tank", "1024", "2048"];
  }

  // ---------------------------------------------------------------------------
  // Classification

  /** What a pool contributes: a pool that is not ONLINE is critical whatever
      its usage; an online pool falls in its usage band. */
  function PoolReading(p: Pool, warn: int, crit: int, warnOnly: bool): (r: Reading)
    ensures p.health != Online ==> r == Shown(Critical)
  {
    if p.health != Online then Shown(Critical) else Band(p.usage.percent, warn, crit, warnOnly)
  }

  function Readings(ps: seq<Pool>, warn: int, crit: int, warnOnly: bool): (rs: seq<Reading>)
    ensures |rs| == |ps|
    ensures forall i :: 0 <= i < |ps| ==> rs[i] == PoolReading(ps[i], warn, crit, warnOnly)
  {
    seq(|ps|, i requires 0 <= i < |ps| => PoolReading(ps[i], warn, crit, warnOnly))
  }

  /** "<name>: <health>, <used> used out of <total>", the health coloured by severity. */
  function PoolLine(p: Pool, s: Severity): Line {
    Item(p.name, ToneOf(s), p.health, ", " + p.usage.used + " used out of " + p.usage.total)
  }

  function PoolLines(ps: seq<Pool>, warn: int, crit: int, warnOnly: bool): (ls: seq<Line>)
    ensures |ls| <= |ps|
  {
    if |ps| == 0 then []
    else
      var here := match PoolReading(ps[0], warn, crit, warnOnly) case Shown(s) => [PoolLine(ps[0], s)] case Hidden => [];
      here + PoolLines(ps[1..], warn, crit, warnOnly)
  }

  /** getPoolStatus, with the four-field guard. */
  function GetPoolStatus(z: Zpool, measure: (string, string) -> Usage, warn: int, crit: int, warnOnly: bool): Output {
    match z
    case ZpoolFailed => Output(Unavailable(Title), [])
    case Listed(stdout) =>
      var ps := Pools(stdout, measure);
      Output(SeverityHeader(Title, Settle(Readings(ps, warn, crit, warnOnly)), Capital), PoolLines(ps, warn, crit, warnOnly))
  }

  // ---------------------------------------------------------------------------
  // Properties

  /** The header reports the worst pool: Critical when some pool is not ONLINE
      or at or above `crit`; OK when every pool is ONLINE and below `warn`;
      Warning otherwise. */
  lemma HeaderByPools(stdout: string, measure: (string, string) -> Usage, warn: int, crit: int, warnOnly: bool)
    requires warn <= crit
    ensures var ps := Pools(stdout, measure);
      var h := GetPoolStatus(Listed(stdout), measure, warn, crit, warnOnly).header;
      && (h == SeverityHeader(Title, Critical, Capital) <==>
            exists i :: 0 <= i < |ps| && (ps[i].health != Online || ps[i].usage.percent >= crit))
      && (h == SeverityHeader(Title, OK, Capital) <==>
            forall i :: 0 <= i < |ps| ==> ps[i].health == Online && ps[i].usage.percent < warn)
  {
    var ps := Pools(stdout, measure);
    var rs := Readings(ps, warn, crit, warnOnly);
    SettleIsWorst(rs);
    var cs := Contributions(rs);
    forall i | 0 <= i < |ps|
      ensures cs[i] == (if ps[i].health != Online then Critical else Classify(ps[i].usage.percent, warn, crit))
    {
      BandIsClassify(ps[i].usage.percent, warn, crit, warnOnly);
    }
    var m := MaxOf(cs);
    if m != OK {
      var i :| 0 <= i < |cs| && cs[i] == m;
    }
  }

  /** A pool that is not ONLINE is always listed, in red with its health,
      whatever its usage and the warn-only flag. */
  lemma {:induction false} OfflineListed(ps: seq<Pool>, warn: int, crit: int, warnOnly: bool, i: nat)
    requires i < |ps| && ps[i].health != Online
    ensures Item(ps[i].name, Utils.Err, ps[i].health, ", " + ps[i].usage.used + " used out of " + ps[i].usage.total)
            in PoolLines(ps, warn, crit, warnOnly)
  {
    if i > 0 {
      OfflineListed(ps[1..], warn, crit, warnOnly, i - 1);
    }
  }

  function Names(ps: seq<Pool>): (r: seq<string>)
    ensures |r| == |ps| && forall i :: 0 <= i < |ps| ==> r[i] == ps[i].name
  {
    seq(|ps|, i requires 0 <= i < |ps| => ps[i].name)
  }

  /** Without warn-only (and with sane thresholds) every pool is listed once, in
      zpool's order; under warn-only no line is green. */
  lemma {:induction false} PoolLinesOrder(ps: seq<Pool>, warn: int, crit: int)
    requires warn <= crit
    ensures Labels(PoolLines(ps, warn, crit, false)) == Names(ps)
    ensures forall l :: l in PoolLines(ps, warn, crit, true) ==> l.Item? && l.tone != Utils.Good
  {
    if |ps| > 0 {
      PoolLinesOrder(ps[1..], warn, crit);
      BandIsClassify(ps[0].usage.percent, warn, crit, false);
      BandIsClassify(ps[0].usage.percent, warn, crit, true);
      var ls := PoolLines(ps, warn, crit, false);
      var rest := PoolLines(ps[1..], warn, crit, false);
      assert Labels(ls) == [ps[0].name] + Labels(rest);
      assert Names(ps) == [ps[0].name] + Names(ps[1..]);
    }
  }

  /** Every line with four fields or more gives a pool, and every pool comes
      from such a line: the short lines (the empty one after the last newline
      among them) are the only ones skipped. */
  lemma {:induction false} ReadPoolsCover(lines: seq<string>, measure: (string, string) -> Usage)
    ensures forall i :: 0 <= i < |lines| && |Fields(lines[i])| >= 4 ==>
              ReadPool(lines[i], measure).value in ReadPools(lines, measure)
    ensures forall p :: p in ReadPools(lines, measure) ==>
              exists i :: 0 <= i < |lines| && ReadPool(lines[i], measure) == Some(p)
  {
    if |lines| > 0 {
      ReadPoolsCover(lines[1..], measure);
      var ps := ReadPools(lines, measure);
      forall p | p in ps
        ensures exists i :: 0 <= i < |lines| && ReadPool(lines[i], measure) == Some(p)
      {
        if ReadPool(lines[0], measure) != Some(p) {
          var j :| 0 <= j < |lines[1..]| && ReadPool(lines[1..][j], measure) == Some(p);
          assert lines[1..][j] == lines[j + 1];
        }
      }
      forall i | 0 <= i < |lines| && |Fields(lines[i])| >= 4
        ensures ReadPool(lines[i], measure).value in ps
      {
        if i > 0 {
          assert lines[i] == lines[1..][i - 1];
        }
      }
    }
  }
}
