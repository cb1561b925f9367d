/** datasources/temp_cpu.go, datasources/temp_cpu_exec.go and their older
    copies temps/cpu.go and temps/cpu-exec.go: per-core CPU temperatures, read
    either from the sensor list gopsutil returns or from the JSON that
    `sensors -j` prints. The sensor list and the decoded JSON are parameters;
    temperatures arrive already truncated to integers. */
module CpuTemps {
  import opened Wrappers
  import opened Text
  import opened Severity
  import opened Report
  import opened Sorting
  import Utils

  const Title: string := "CPU temp"

  // ---------------------------------------------------------------------------
  // Classification shared by both paths

  /** A core as the report lists it. */
  datatype Core = Core(name: string, temp: int)

  function CoreLine(c: Core, warn: int, crit: int, warnOnly: bool): (r: Option<Line>)
    ensures r.Some? ==> Label(r.value) == c.name
    ensures r.None? <==> Band(c.temp, warn, crit, warnOnly).Hidden?
  {
    match Band(c.temp, warn, crit, warnOnly)
    case Hidden => None
    case Shown(s) => Some(Item(c.name, ToneOf(s), IntToString(c.temp), ""))
  }

  function CoreLines(cs: seq<Core>, warn: int, crit: int, warnOnly: bool): (ls: seq<Line>)
    ensures |ls| <= |cs|
  {
    if |cs| == 0 then []
    else
      var init := CoreLines(cs[..|cs| - 1], warn, crit, warnOnly);
      match CoreLine(cs[|cs| - 1], warn, crit, warnOnly)
      case Some(l) => init + [l]
      case None => init
  }

  /** What each core contributes to the header, in order. */
  function Levels(cs: seq<Core>, warn: int, crit: int, warnOnly: bool): (r: seq<Severity>)
    ensures |r| == |cs|
    ensures forall i :: 0 <= i < |cs| ==> r[i] == Contribution(Band(cs[i].temp, warn, crit, warnOnly))
  {
    seq(|cs|, i requires 0 <= i < |cs| => Contribution(Band(cs[i].temp, warn, crit, warnOnly)))
  }

  /** warnCount: cores in the warning band or above. */
  function WarnCount(cs: seq<Core>, warn: int, crit: int, warnOnly: bool): (n: nat)
    ensures n <= |cs|
  {
    if |cs| == 0 then 0
    else
      var here := Contribution(Band(cs[|cs| - 1].temp, warn, crit, warnOnly));
      WarnCount(cs[..|cs| - 1], warn, crit, warnOnly) + (if here != OK then 1 else 0)
  }

  /** errCount: cores at or above the critical threshold. */
  function ErrCount(cs: seq<Core>, warn: int, crit: int, warnOnly: bool): (n: nat)
    ensures n <= WarnCount(cs, warn, crit, warnOnly)
  {
    if |cs| == 0 then 0
    else
      var here := Contribution(Band(cs[|cs| - 1].temp, warn, crit, warnOnly));
      ErrCount(cs[..|cs| - 1], warn, crit, warnOnly) + (if here == Critical then 1 else 0)
  }

  /** The header from the two counters (the last test in the source always holds
      when it is reached, so every path assigns a header). */
  function Header(warnCount: nat, errCount: nat): Line {
    if warnCount == 0 then SeverityHeader(Title, OK, Capital)
    else if errCount > 0 then SeverityHeader(Title, Critical, Capital)
    else SeverityHeader(Title, Warning, Capital)
  }

  function Summarize(cs: seq<Core>, warn: int, crit: int, warnOnly: bool): Output {
    Output(Header(WarnCount(cs, warn, crit, warnOnly), ErrCount(cs, warn, crit, warnOnly)), CoreLines(cs, warn, crit, warnOnly))
  }

  /** The counters implement the "critical dominates warning dominates OK" fold:
      the header reports the worst level any core reached. */
  lemma {:induction false} HeaderIsWorst(cs: seq<Core>, warn: int, crit: int, warnOnly: bool)
    ensures Header(WarnCount(cs, warn, crit, warnOnly), ErrCount(cs, warn, crit, warnOnly))
         == SeverityHeader(Title, MaxOf(Levels(cs, warn, crit, warnOnly)), Capital)
  {
    if |cs| > 0 {
      var init := cs[..|cs| - 1];
      HeaderIsWorst(init, warn, crit, warnOnly);
      var ls := Levels(cs, warn, crit, warnOnly);
      var here := Contribution(Band(cs[|cs| - 1].temp, warn, crit, warnOnly));
      assert ls[..|ls| - 1] == Levels(init, warn, crit, warnOnly);
      assert MaxOf(ls) == Max(MaxOf(Levels(init, warn, crit, warnOnly)), here);
      assert WarnCount(cs, warn, crit, warnOnly) == WarnCount(init, warn, crit, warnOnly) + (if here != OK then 1 else 0);
      assert ErrCount(cs, warn, crit, warnOnly) == ErrCount(init, warn, crit, warnOnly) + (if here == Critical then 1 else 0);
    }
  }

  /** In temperature terms, with sane thresholds: OK exactly when every core is
      below `warn`, Critical exactly when some core reached `crit`. */
  lemma HeaderByTemperature(cs: seq<Core>, warn: int, crit: int, warnOnly: bool)
    requires warn <= crit
    ensures var h := Summarize(cs, warn, crit, warnOnly).header;
      && (h == SeverityHeader(Title, OK, Capital) <==> forall i :: 0 <= i < |cs| ==> cs[i].temp < warn)
      && (h == SeverityHeader(Title, Critical, Capital) <==> exists i :: 0 <= i < |cs| && cs[i].temp >= crit)
      && (h == SeverityHeader(Title, Warning, Capital) <==>
            (exists i :: 0 <= i < |cs| && cs[i].temp >= warn) && forall i :: 0 <= i < |cs| ==> cs[i].temp < crit)
  {
    HeaderIsWorst(cs, warn, crit, warnOnly);
    var ls := Levels(cs, warn, crit, warnOnly);
    var m := MaxOf(ls);
    forall i | 0 <= i < |cs|
      ensures ls[i] == Classify(cs[i].temp, warn, crit)
    {
      BandIsClassify(cs[i].temp, warn, crit, warnOnly);
    }
    if m != OK {
      var i :| 0 <= i < |ls| && ls[i] == m;
    }
  }

  function Labels(cs: seq<Core>): (r: seq<string>)
    ensures |r| == |cs| && forall i :: 0 <= i < |cs| ==> r[i] == cs[i].name
  {
    seq(|cs|, i requires 0 <= i < |cs| => cs[i].name)
  }

  /** Without warn-only (and with sane thresholds) every core gets one line, in order. */
  lemma {:induction false} LinesAll(cs: seq<Core>, warn: int, crit: int)
    requires warn <= crit
    ensures Report.Labels(CoreLines(cs, warn, crit, false)) == Labels(cs)
  {
    if |cs| > 0 {
      var init := cs[..|cs| - 1];
      LinesAll(init, warn, crit);
      BandIsClassify(cs[|cs| - 1].temp, warn, crit, false);
      var ls := CoreLines(cs, warn, crit, false);
      var l := CoreLine(cs[|cs| - 1], warn, crit, false).value;
      assert ls == CoreLines(init, warn, crit, false) + [l];
      assert Labels(cs) == Labels(init) + [cs[|cs| - 1].name];
    }
  }

  /** Under warn-only exactly the cores at or above `warn` get a line, none green. */
  lemma {:induction false} LinesWarnOnly(cs: seq<Core>, warn: int, crit: int)
    requires warn <= crit
    ensures |CoreLines(cs, warn, crit, true)| == WarnCount(cs, warn, crit, true)
    ensures forall l :: l in CoreLines(cs, warn, crit, true) ==> l.Item? && l.tone != Utils.Good
  {
    if |cs| > 0 {
      LinesWarnOnly(cs[..|cs| - 1], warn, crit);
      BandIsClassify(cs[|cs| - 1].temp, warn, crit, true);
    }
  }

  // ---------------------------------------------------------------------------
  // Keys arriving in some order, the last reading per key kept

  /** The map the readings are stored in: a later reading for a key overwrites. */
  function LastOf<K(==,!new)>(ps: seq<(K, int)>): (m: map<K, int>)
    ensures forall k :: k in m <==> k in Keys(ps)
  {
    if |ps| == 0 then map[]
    else
      var init := ps[..|ps| - 1];
      assert Keys(ps) == Keys(init) + [ps[|ps| - 1].0];
      LastOf(init)[ps[|ps| - 1].0 := ps[|ps| - 1].1]
  }

  /** The value kept for a key is that of its last reading. */
  lemma {:induction false} LastOfIsLast<K(!new)>(ps: seq<(K, int)>, k: K)
    requires k in LastOf(ps)
    ensures exists i :: 0 <= i < |ps| && ps[i] == (k, LastOf(ps)[k]) && forall j :: i < j < |ps| ==> ps[j].0 != k
  {
    var last := |ps| - 1;
    var init := ps[..last];
    var m := LastOf(ps);
    assert m == LastOf(init)[ps[last].0 := ps[last].1];
    if ps[last].0 != k {
      assert k in LastOf(init) && m[k] == LastOf(init)[k];
      LastOfIsLast(init, k);
      var i :| 0 <= i < |init| && init[i] == (k, LastOf(init)[k]) && forall j :: i < j < |init| ==> init[j].0 != k;
      assert ps[i] == init[i];
      assert forall j :: i < j < |ps| ==> ps[j].0 != k by {
        forall j | i < j < |ps|
          ensures ps[j].0 != k
        {
          if j < last {
            assert ps[j] == init[j];
          }
        }
      }
    } else {
      assert ps[last] == (k, m[k]);
    }
  }

  function Keys<K>(ps: seq<(K, int)>): (r: seq<K>)
    ensures |r| == |ps| && forall i :: 0 <= i < |ps| ==> r[i] == ps[i].0
  {
    seq(|ps|, i requires 0 <= i < |ps| => ps[i].0)
  }

  // ---------------------------------------------------------------------------
  // gopsutil path

  /** A sensor as gopsutil reports it. */
  datatype Sensor = Sensor(key: string, temperature: int)

  datatype SensorList = ReadFailed | Sensors(stats: seq<Sensor>)

  const KeyPrefix: string := "coretemp_core"
  const KeySuffix: string := "_input"

  /** `coretemp_core(\d+)_input` matches at `i`. The digit group is greedy and
      must be followed by "_input", so it is the whole run of digits there. */
  predicate CoreKeyAt(key: string, i: nat) {
    i + |KeyPrefix| <= |key|
    && key[i..i + |KeyPrefix|] == KeyPrefix
    && var j := i + |KeyPrefix|;
       var n := DigitRun(key, j);
       n > 0 && HasPrefix(key[j + n..], KeySuffix)
  }

  /** The leftmost match at or after `i`, and its digit group. */
  function FindCoreKey(key: string, i: nat): (r: Option<string>)
    requires i <= |key|
    ensures r.Some? ==> |r.value| > 0 && AllDigits(r.value)
    ensures r.Some? ==> exists p :: i <= p <= |key| && CoreKeyAt(key, p)
    ensures r.None? ==> forall p :: i <= p <= |key| ==> !CoreKeyAt(key, p)
    decreases |key| - i
  {
    if CoreKeyAt(key, i) then
      var j := i + |KeyPrefix|;
      Some(key[j..j + DigitRun(key, j)])
    else if i == |key| then None
    else FindCoreKey(key, i + 1)
  }

  /** FindStringSubmatch on the sensor key: the core's digit string, if any. */
  function CoreKey(key: string): Option<string> {
    FindCoreKey(key, 0)
  }

  /** The key gopsutil gives a core is matched, and its number read back. */
  lemma CoreKeyRoundTrip(d: string)
    requires |d| > 0 && AllDigits(d)
    ensures CoreKey(KeyPrefix + d + KeySuffix) == Some(d)
  {
    var key := KeyPrefix + d + KeySuffix;
    var j := |KeyPrefix|;
    assert key[j..] == d + KeySuffix;
    DigitRunShift(key, j);
    DigitRunOf(d, KeySuffix);
    assert key[j + |d|..] == KeySuffix;
    assert key[..j] == KeyPrefix;
    assert CoreKeyAt(key, 0);
    assert key[j..j + |d|] == d;
  }

  /** The readings of the matching sensors, keyed by digit string, in list order. */
  function CoreReadings(stats: seq<Sensor>): (ps: seq<(string, int)>)
    ensures |ps| <= |stats|
    ensures forall i :: 0 <= i < |ps| ==> exists j :: 0 <= j < |stats| && CoreKey(stats[j].key) == Some(ps[i].0) && stats[j].temperature == ps[i].1
    ensures forall j :: 0 <= j < |stats| && CoreKey(stats[j].key).Some? ==> (CoreKey(stats[j].key).value, stats[j].temperature) in ps
  {
    if |stats| == 0 then []
    else
      var init := CoreReadings(stats[..|stats| - 1]);
      var s := stats[|stats| - 1];
      assert forall j :: 0 <= j < |stats| - 1 ==> stats[j] == stats[..|stats| - 1][j];
      match CoreKey(s.key)
      case Some(d) => init + [(d, s.temperature)]
      case None => init
  }

  /** The cores in the order they are listed: digit strings sorted as strings. */
  function SortedCores<K(==,!new)>(ps: seq<(K, int)>, sorted: seq<K>, name: K -> string): (cs: seq<Core>)
    requires multiset(sorted) == multiset(Keys(ps))
    ensures |cs| == |sorted|
    ensures forall i :: 0 <= i < |sorted| ==> cs[i].name == "Core " + name(sorted[i])
    ensures forall i :: 0 <= i < |sorted| ==> sorted[i] in LastOf(ps) && cs[i].temp == LastOf(ps)[sorted[i]]
  {
    var m := LastOf(ps);
    assert forall k :: k in multiset(sorted) ==> k in Keys(ps);
    seq(|sorted|, i requires 0 <= i < |sorted| =>
      assert sorted[i] in multiset(sorted);
      Core("Core " + name(sorted[i]), m[sorted[i]]))
  }

  function GopsutilCores(stats: seq<Sensor>): seq<Core> {
    var ps := CoreReadings(stats);
    SortedCores(ps, SortStrings(Keys(ps)), Id)
  }

  /** cpuTempGopsutil. */
  function CpuTempGopsutil(sensors: SensorList, warn: int, crit: int, warnOnly: bool): Output {
    match sensors
    case ReadFailed => Output(Unavailable(Title), [])
    case Sensors(stats) => Summarize(GopsutilCores(stats), warn, crit, warnOnly)
  }

  /** The gopsutil listing: cores in string order of their digit strings, one
      entry per matching sensor, each read at the last matching sensor for its key. */
  lemma GopsutilOrder(stats: seq<Sensor>)
    ensures var ps := CoreReadings(stats);
      var sorted := SortStrings(Keys(ps));
      var cs := GopsutilCores(stats);
      && Sorted(sorted)
      && multiset(sorted) == multiset(Keys(ps))
      && |cs| == |ps|
      && forall i :: 0 <= i < |cs| ==>
           && cs[i].name == "Core " + sorted[i]
           && sorted[i] in LastOf(ps) && cs[i].temp == LastOf(ps)[sorted[i]]
  {
  }

  /** String order puts core "10" before core "2". */
  lemma StringOrderOfCores()
    ensures SortStrings(["2", "10"]) == ["10", "2"]
  {
    var r := SortStrings(["2", "10"]);
    assert LessEq(r[0], r[1]);
    assert !LessEq("2", "10");
    assert r[0] in multiset(["2", "10"]) && r[1] in multiset(["2", "10"]);
    assert multiset(r)["10"] == 1;
  }

  // ---------------------------------------------------------------------------
  // sensors -j path

  /** An entry of a chip object: its name and, for an object of readings, the
      readings by key. */
  datatype Feature = Feature(name: string, readings: seq<(string, int)>)

  datatype Chip = Chip(name: string, features: seq<Feature>)

  /** Running `sensors -j` and decoding its output; the sequences are in the
      order the decoded maps are iterated. */
  datatype SensorsRun = RunFailed | ParseFailed | Parsed(chips: seq<Chip>)

  /** `Core\s(\d+)` matches at `i`. */
  predicate CoreNameAt(name: string, i: nat) {
    i + 5 <= |name| && name[i..i + 4] == "Core" && PerlSpace(name[i + 4]) && DigitRun(name, i + 5) > 0
  }

  function FindCoreName(name: string, i: nat): (r: Option<string>)
    requires i <= |name|
    ensures r.Some? ==> |r.value| > 0 && AllDigits(r.value)
    ensures r.None? ==> forall p :: i <= p <= |name| ==> !CoreNameAt(name, p)
    decreases |name| - i
  {
    if CoreNameAt(name, i) then Some(name[i + 5..i + 5 + DigitRun(name, i + 5)])
    else if i == |name| then None
    else FindCoreName(name, i + 1)
  }

  /** strconv.Atoi on a digit string, its error ignored: a value beyond the
      64-bit range comes back as the largest int. */
  function CoreNumber(digits: string): (n: int)
    requires AllDigits(digits)
    ensures 0 <= n <= MaxInt64
  {
    if DigitsValue(digits) <= MaxInt64 then DigitsValue(digits) else MaxInt64
  }

  /** The core number of a chip entry, if its name matches. */
  function CoreOfFeature(name: string): Option<int> {
    match FindCoreName(name, 0)
    case Some(d) => Some(CoreNumber(d))
    case None => None
  }

  /** "Core N" is read back as N. */
  lemma CoreOfFeatureRoundTrip(n: nat)
    requires n <= MaxInt64
    ensures CoreOfFeature("Core " + NatToString(n)) == Some(n)
  {
    var d := NatToString(n);
    var name := "Core " + d;
    assert name[5..] == d + "";
    DigitRunShift(name, 5);
    DigitRunOf(d, "");
    assert name[..4] == "Core";
    assert CoreNameAt(name, 0);
    assert name[5..5 + |d|] == d;
    NatToStringValue(n);
  }

  /** `temp\d+_input` occurs in the key. */
  predicate TempKeyAt(key: string, i: nat) {
    i + 4 <= |key| && key[i..i + 4] == "temp"
    && var n := DigitRun(key, i + 4);
       n > 0 && HasPrefix(key[i + 4 + n..], KeySuffix)
  }

  predicate IsTempKey(key: string) {
    exists i: nat | i <= |key| :: TempKeyAt(key, i)
  }

  /** The readings one chip entry adds, keyed by its core number. */
  function FeatureReadings(n: int, rs: seq<(string, int)>): (ps: seq<(int, int)>)
    ensures |ps| <= |rs|
    ensures forall i :: 0 <= i < |ps| ==> ps[i].0 == n
  {
    if |rs| == 0 then []
    else (if IsTempKey(rs[0].0) then [(n, rs[0].1)] else []) + FeatureReadings(n, rs[1..])
  }

  /** The readings of one chip, in iteration order. */
  function ChipReadings(fs: seq<Feature>): (ps: seq<(int, int)>)
    ensures forall i :: 0 <= i < |ps| ==> exists f :: f in fs && CoreOfFeature(f.name) == Some(ps[i].0)
  {
    if |fs| == 0 then []
    else
      var here := match CoreOfFeature(fs[0].name) case Some(n) => FeatureReadings(n, fs[0].readings) case None => [];
      var rest := ChipReadings(fs[1..]);
      assert forall f :: f in fs[1..] ==> f in fs;
      here + rest
  }

  /** The first chip whose name contains "coretemp" (`coretemp\S*` matches
      wherever "coretemp" occurs); the loop stops there. */
  function FirstCoretemp(chips: seq<Chip>): (r: Option<Chip>)
    ensures r.Some? ==> r.value in chips && Contains(r.value.name, "coretemp")
    ensures r.None? ==> forall c :: c in chips ==> !Contains(c.name, "coretemp")
  {
    if |chips| == 0 then None
    else if Contains(chips[0].name, "coretemp") then Some(chips[0])
    else
      assert forall c :: c in chips[1..] ==> c in chips;
      FirstCoretemp(chips[1..])
  }

  function SensorsCores(chips: seq<Chip>): seq<Core> {
    var ps := match FirstCoretemp(chips) case Some(c) => ChipReadings(c.features) case None => [];
    SortedCores(ps, SortInts(Keys(ps)), IntToString)
  }

  /** cpuTempSensors. */
  function CpuTempSensors(run: SensorsRun, warn: int, crit: int, warnOnly: bool): Output {
    match run
    case RunFailed => Output(Unavailable(Title), [])
    case ParseFailed => Output(Notice(Title, Utils.Warn, "sensors parse failed"), [])
    case Parsed(chips) => Summarize(SensorsCores(chips), warn, crit, warnOnly)
  }

  /** The cores the chosen path read: the `sensors` chips with exec, the
      gopsutil sensors without; None when that read failed. */
  function ReadCores(exec: bool, sensors: SensorList, run: SensorsRun): Option<seq<Core>> {
    if exec then
      match run
      case Parsed(chips) => Some(SensorsCores(chips))
      case _ => None
    else
      match sensors
      case Sensors(stats) => Some(GopsutilCores(stats))
      case ReadFailed => None
  }

  /** GetCPUTemp: the exec flag picks the path; a failed read lists nothing,
      and otherwise the cores read are summarized. */
  function GetCPUTemp(exec: bool, sensors: SensorList, run: SensorsRun, warn: int, crit: int, warnOnly: bool): (o: Output)
    ensures ReadCores(exec, sensors, run).None? ==> o.content == []
    ensures ReadCores(exec, sensors, run).Some? ==> o == Summarize(ReadCores(exec, sensors, run).value, warn, crit, warnOnly)
  {
    if exec then CpuTempSensors(run, warn, crit, warnOnly) else CpuTempGopsutil(sensors, warn, crit, warnOnly)
  }

  /** A failed read is reported as "unavailable", or as a warning notice when
      the `sensors` output could not be parsed, and lists no core. */
  lemma CpuTempFailed(exec: bool, sensors: SensorList, run: SensorsRun, warn: int, crit: int, warnOnly: bool)
    requires ReadCores(exec, sensors, run).None?
    ensures var o := GetCPUTemp(exec, sensors, run, warn, crit, warnOnly);
      && o.content == []
      && (exec && run.ParseFailed? ==> o.header == Notice(Title, Utils.Warn, "sensors parse failed"))
      && (!(exec && run.ParseFailed?) ==> o.header == Unavailable(Title))
  {
  }

  /** The CPU temperature report in terms of the cores read, with sane
      thresholds: the header is OK exactly when every core is below `warn` and
      Critical exactly when some core reached `crit`; every core is listed in
      order without warn-only, and under warn-only only the cores at or above
      `warn` are, none green. */
  lemma CpuTempByReadings(exec: bool, sensors: SensorList, run: SensorsRun, cs: seq<Core>, warn: int, crit: int, warnOnly: bool)
    requires warn <= crit && ReadCores(exec, sensors, run) == Some(cs)
    ensures var o := GetCPUTemp(exec, sensors, run, warn, crit, warnOnly);
      && (o.header == SeverityHeader(Title, OK, Capital) <==> forall i :: 0 <= i < |cs| ==> cs[i].temp < warn)
      && (o.header == SeverityHeader(Title, Critical, Capital) <==> exists i :: 0 <= i < |cs| && cs[i].temp >= crit)
      && (o.header == SeverityHeader(Title, Warning, Capital) <==>
            (exists i :: 0 <= i < |cs| && cs[i].temp >= warn) && forall i :: 0 <= i < |cs| ==> cs[i].temp < crit)
      && (!warnOnly ==> Report.Labels(o.content) == Labels(cs))
      && (warnOnly ==> |o.content| == WarnCount(cs, warn, crit, true)
                       && forall l :: l in o.content ==> l.Item? && l.tone != Utils.Good)
  {
    SummaryByTemperature(cs, warn, crit, warnOnly);
  }

  /** HeaderByTemperature, LinesAll and LinesWarnOnly on one summary. */
  lemma SummaryByTemperature(cs: seq<Core>, warn: int, crit: int, warnOnly: bool)
    requires warn <= crit
    ensures var o := Summarize(cs, warn, crit, warnOnly);
      && (o.header == SeverityHeader(Title, OK, Capital) <==> forall i :: 0 <= i < |cs| ==> cs[i].temp < warn)
      && (o.header == SeverityHeader(Title, Critical, Capital) <==> exists i :: 0 <= i < |cs| && cs[i].temp >= crit)
      && (o.header == SeverityHeader(Title, Warning, Capital) <==>
            (exists i :: 0 <= i < |cs| && cs[i].temp >= warn) && forall i :: 0 <= i < |cs| ==> cs[i].temp < crit)
      && (!warnOnly ==> Report.Labels(o.content) == Labels(cs))
      && (warnOnly ==> |o.content| == WarnCount(cs, warn, crit, true)
                       && forall l :: l in o.content ==> l.Item? && l.tone != Utils.Good)
  {
    HeaderByTemperature(cs, warn, crit, warnOnly);
    if warnOnly {
      LinesWarnOnly(cs, warn, crit);
    } else {
      LinesAll(cs, warn, crit);
    }
  }


  /** Only the first chip named like "coretemp" counts: chips before it are not
      core chips, and whatever follows it is never looked at. */
  lemma FirstChipOnly(pre: seq<Chip>, c: Chip, post: seq<Chip>)
    requires forall p :: p in pre ==> !Contains(p.name, "coretemp")
    requires Contains(c.name, "coretemp")
    ensures SensorsCores(pre + [c] + post) == SensorsCores([c])
  {
    assert FirstCoretemp(pre + [c] + post) == Some(c) by {
      FirstCoretempSkips(pre, [c] + post);
      assert pre + [c] + post == pre + ([c] + post);
    }
  }

  lemma {:induction false} FirstCoretempSkips(pre: seq<Chip>, rest: seq<Chip>)
    requires forall p :: p in pre ==> !Contains(p.name, "coretemp")
    ensures FirstCoretemp(pre + rest) == FirstCoretemp(rest)
  {
    if |pre| > 0 {
      FirstCoretempSkips(pre[1..], rest);
      assert (pre + rest)[1..] == pre[1..] + rest;
      assert pre[0] in pre;
    } else {
      assert pre + rest == rest;
    }
  }

  /** The sensors listing: cores in ascending numeric order, one entry per
      matching reading; with no readings the header is OK and nothing is listed. */
  lemma SensorsOrder(chips: seq<Chip>, warn: int, crit: int, warnOnly: bool)
    ensures var ps := match FirstCoretemp(chips) case Some(c) => ChipReadings(c.features) case None => [];
      var sorted := SortInts(Keys(ps));
      var cs := SensorsCores(chips);
      && SortedInts(sorted)
      && multiset(sorted) == multiset(Keys(ps))
      && |cs| == |ps|
      && (forall i :: 0 <= i < |cs| ==> cs[i].name == "Core " + IntToString(sorted[i]))
      && (|ps| == 0 ==> CpuTempSensors(Parsed(chips), warn, crit, warnOnly) == Output(SeverityHeader(Title, OK, Capital), []))
  {
    var ps := match FirstCoretemp(chips) case Some(c) => ChipReadings(c.features) case None => [];
    var sorted := SortInts(Keys(ps));
    assert |sorted| == |multiset(sorted)| == |multiset(Keys(ps))| == |ps|;
  }
}
