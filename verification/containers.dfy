/** The command-line container collectors: listing containers with
    `podman ps`/`docker ps` (datasources/container_exec.go), classifying a list
    into a header and content (datasources/container_common.go), and podman's
    root-plus-user merge (datasources/podman.go). */
module Containers {
  import opened Wrappers
  import opened Text
  import Utils
  import opened Severity
  import opened Report
  import opened Sorting
  import opened Tally

  datatype ContainerStatus = ContainerStatus(name: string, status: string)

  datatype ContainerList = ContainerList(runtime: string, root: bool, containers: seq<ContainerStatus>)

  /** A container is good when its lowercased status is "up", "created" or "running". */
  predicate IsUp(status: string) {
    var s := ToLower(status);
    s == "up" || s == "created" || s == "running"
  }

  /** The containers whose name is not on the ignore list, in list order. */
  function Counted(cs: seq<ContainerStatus>, ignore: Utils.StringSet): (r: seq<ContainerStatus>)
    ensures |r| <= |cs|
    ensures forall c :: c in r <==> c in cs && !Utils.Contains(ignore, c.name)
  {
    if |cs| == 0 then []
    else (if Utils.Contains(ignore, cs[0].name) then [] else [cs[0]]) + Counted(cs[1..], ignore)
  }

  /** A counted container as the collector sees it: printed with its lowercased status. */
  function SeenOf(cs: seq<ContainerStatus>): (ss: seq<Seen>)
    ensures |ss| == |cs|
    ensures forall i :: 0 <= i < |cs| ==> ss[i] == Seen(cs[i].name, ToLower(cs[i].status), IsUp(cs[i].status))
  {
    seq(|cs|, i requires 0 <= i < |cs| => Seen(cs[i].name, ToLower(cs[i].status), IsUp(cs[i].status)))
  }

  predicate AnyUp(cs: seq<ContainerStatus>) {
    exists c :: c in cs && IsUp(c.status)
  }

  predicate AnyDown(cs: seq<ContainerStatus>) {
    exists c :: c in cs && !IsUp(c.status)
  }

  /** A container of a given name, and a failed one when good ones are hidden. */
  predicate HasContainer(cs: seq<ContainerStatus>, n: string, hideGood: bool) {
    exists c :: c in cs && c.name == n && (hideGood ==> !IsUp(c.status))
  }

  lemma SeenOfAny(cs: seq<ContainerStatus>)
    ensures AnyGood(SeenOf(cs)) <==> AnyUp(cs)
    ensures AnyFailed(SeenOf(cs)) <==> AnyDown(cs)
  {
    var ss := SeenOf(cs);
    if AnyGood(ss) {
      var s :| s in ss && s.good;
      var i :| 0 <= i < |ss| && ss[i] == s;
      assert cs[i] in cs;
    }
    if AnyFailed(ss) {
      var s :| s in ss && !s.good;
      var i :| 0 <= i < |ss| && ss[i] == s;
      assert cs[i] in cs;
    }
    if AnyUp(cs) {
      var c :| c in cs && IsUp(c.status);
      var i :| 0 <= i < |cs| && cs[i] == c;
      assert ss[i] in ss;
    }
    if AnyDown(cs) {
      var c :| c in cs && !IsUp(c.status);
      var i :| 0 <= i < |cs| && cs[i] == c;
      assert ss[i] in ss;
    }
  }

  lemma SeenOfHas(cs: seq<ContainerStatus>, n: string, hideGood: bool)
    ensures (exists s :: s in SeenOf(cs) && s.name == n && (hideGood ==> !s.good)) <==> HasContainer(cs, n, hideGood)
  {
    var ss := SeenOf(cs);
    if exists s :: s in ss && s.name == n && (hideGood ==> !s.good) {
      var s :| s in ss && s.name == n && (hideGood ==> !s.good);
      var i :| 0 <= i < |ss| && ss[i] == s;
      assert cs[i] in cs;
    }
    if HasContainer(cs, n, hideGood) {
      var c :| c in cs && c.name == n && (hideGood ==> !IsUp(c.status));
      var i :| 0 <= i < |cs| && cs[i] == c;
      assert ss[i] in ss;
    }
  }

  /** The header rule on the good and failed maps and the number of counted names. */
  function Header(runtime: string, ms: seq<Mark>): Line {
    if |GoodMap(ms)| == 0 && |ms| > 0 then SeverityHeader(runtime, Critical, Lower)
    else if |FailedMap(ms)| == 0 then SeverityHeader(runtime, OK, Lower)
    else if |FailedMap(ms)| < |ms| then SeverityHeader(runtime, Warning, Lower)
    else NoHeader
  }

  /** The header rule in terms of what was seen. */
  lemma HeaderOfSeen(runtime: string, ss: seq<Seen>)
    ensures var h := Header(runtime, MarksOf(ss));
      && (h == SeverityHeader(runtime, Critical, Lower) <==> !AnyGood(ss) && AnyFailed(ss))
      && (h == SeverityHeader(runtime, OK, Lower) <==> !AnyFailed(ss))
      && (h == SeverityHeader(runtime, Warning, Lower) <==> AnyGood(ss) && AnyFailed(ss))
      && h != NoHeader
  {
    var ms := MarksOf(ss);
    MapsEmpty(ss);
    if |GoodMap(ms)| > 0 {
      FailedSmallerWhenSomeGood(ms);
    }
    if |ms| > 0 && !AnyGood(ss) {
      assert ss[0] in ss;
    }
    SeverityHeaderIsNotNotice(runtime, OK, Lower);
    SeverityHeaderIsNotNotice(runtime, Warning, Lower);
    SeverityHeaderIsNotNotice(runtime, Critical, Lower);
  }

  function Counting(cl: ContainerList, ignoreList: seq<string>): seq<ContainerStatus> {
    Counted(cl.containers, Utils.FromList(ignoreList))
  }

  /** containerList.toHeaderContent. With nothing failed and failedOnly set it
      returns before the content loop. */
  function ToHeaderContent(cl: ContainerList, ignoreList: seq<string>, failedOnly: bool): Output {
    var ms := MarksOf(SeenOf(Counting(cl, ignoreList)));
    var header := Header(cl.runtime, ms);
    if header == SeverityHeader(cl.runtime, OK, Lower) && failedOnly then Output(header, [])
    else Output(header, Lines(ms, failedOnly))
  }

  /** The header is "critical" when nothing counted is up but something is
      counted, "OK" when nothing counted is down (so also for an empty list),
      and "warning" when both kinds occur; there is always a header, and with
      failedOnly an "OK" header comes without content. */
  lemma ContainerHeader(cl: ContainerList, ignoreList: seq<string>, failedOnly: bool)
    ensures var r := ToHeaderContent(cl, ignoreList, failedOnly);
      var cs := Counting(cl, ignoreList);
      && (r.header == SeverityHeader(cl.runtime, Critical, Lower) <==> !AnyUp(cs) && AnyDown(cs))
      && (r.header == SeverityHeader(cl.runtime, OK, Lower) <==> !AnyDown(cs))
      && (r.header == SeverityHeader(cl.runtime, Warning, Lower) <==> AnyUp(cs) && AnyDown(cs))
      && r.header != NoHeader
      && (failedOnly && r.header == SeverityHeader(cl.runtime, OK, Lower) ==> r.content == [])
  {
    var cs := Counting(cl, ignoreList);
    HeaderOfSeen(cl.runtime, SeenOf(cs));
    SeenOfAny(cs);
  }

  /** The content lines of ToHeaderContent are the listing of the counted containers. */
  lemma ContentIsLines(cl: ContainerList, ignoreList: seq<string>, failedOnly: bool)
    ensures ToHeaderContent(cl, ignoreList, failedOnly).content == Lines(MarksOf(SeenOf(Counting(cl, ignoreList))), failedOnly)
  {
    var ss := SeenOf(Counting(cl, ignoreList));
    var ms := MarksOf(ss);
    if failedOnly && Header(cl.runtime, ms) == SeverityHeader(cl.runtime, OK, Lower) {
      assert SeverityHeader(cl.runtime, OK, Lower) != SeverityHeader(cl.runtime, Critical, Lower);
      assert SeverityHeader(cl.runtime, OK, Lower) != SeverityHeader(cl.runtime, Warning, Lower);
      SeverityHeaderIsNotNotice(cl.runtime, OK, Lower);
      assert |FailedMap(ms)| == 0;
      MapsEmpty(ss);
      NothingFailedNoLines(ss);
    }
  }

  /** The content names the counted containers (every failed one, and the good
      ones unless failedOnly), in ascending order, once per container carrying
      the name; an ignored name never appears. */
  lemma ContentNames(cl: ContainerList, ignoreList: seq<string>, failedOnly: bool, n: string)
    ensures var r := ToHeaderContent(cl, ignoreList, failedOnly);
      && Sorted(Labels(r.content))
      && (n in Labels(r.content) <==> HasContainer(Counting(cl, ignoreList), n, failedOnly))
    ensures n in ignoreList ==> n !in Labels(ToHeaderContent(cl, ignoreList, failedOnly).content)
  {
    var cs := Counting(cl, ignoreList);
    ContentIsLines(cl, ignoreList, failedOnly);
    SeenNames(SeenOf(cs), failedOnly, n);
    SeenOfHas(cs, n, failedOnly);
  }

  /** Each content line shows a counted container's lowercased status, green
      when it is up and red otherwise; with failedOnly every line is red. */
  lemma ContentLines(cl: ContainerList, ignoreList: seq<string>, failedOnly: bool, l: Line)
    requires l in ToHeaderContent(cl, ignoreList, failedOnly).content
    ensures exists c :: (c in Counting(cl, ignoreList)
      && l == Item(c.name, if IsUp(c.status) then Utils.Good else Utils.Err, ToLower(c.status), "")
      && (failedOnly ==> !IsUp(c.status)))
    ensures failedOnly ==> l.Item? && l.tone == Utils.Err
  {
    var cs := Counting(cl, ignoreList);
    var ss := SeenOf(cs);
    ContentIsLines(cl, ignoreList, failedOnly);
    SeenLine(ss, failedOnly, l);
    var s :| s in ss && l == MarkOf(s).line && (failedOnly ==> !s.good);
    var i :| 0 <= i < |ss| && ss[i] == s;
    assert cs[i] in cs;
  }

  /** A name carried by two containers, one up and one exited, is listed once
      per container, and always with the good line while good lines are shown. */
  lemma DuplicateNameListedPerOccurrence()
    ensures ToHeaderContent(ContainerList("Docker", false, [ContainerStatus("web", "Up"), ContainerStatus("web", "Exited")]), [], false)
      == Output(SeverityHeader("Docker", Warning, Lower), [Item("web", Utils.Good, "up", ""), Item("web", Utils.Good, "up", "")])
  {
    DuplicateMarks();
    DuplicateOutput();
  }

  /** The marks of the duplicated container: a warning, and the good line twice. */
  lemma DuplicateOutput()
    ensures Header("Docker", DupMarks()) == SeverityHeader("Docker", Warning, Lower)
    ensures Lines(DupMarks(), false) == [DupUp(), DupUp()]
  {
    var ms := DupMarks();
    DuplicateMaps();
    DupSorted();
    DupListing();
  }

  lemma DupSorted()
    ensures SortStrings(Keys(DupMarks())) == ["web", "web"]
  {
    var names := ["web", "web"];
    assert Keys(DupMarks()) == names;
    SortStringsConstant(names, "web");
  }

  lemma DupListing()
    ensures Listing(["web", "web"], map["web" := DupUp()], map["web" := Item("web", Utils.Err, "exited", "")], false) == [DupUp(), DupUp()]
  {
    var g, f := map["web" := DupUp()], map["web" := Item("web", Utils.Err, "exited", "")];
    assert ["web", "web"][1..] == ["web"];
    assert ["web"][1..] == [];
    assert Listing(["web"], g, f, false) == [DupUp()];
  }

  function DupUp(): Line {
    Item("web", Utils.Good, "up", "")
  }

  function DupMarks(): seq<Mark> {
    [Mark("web", true, DupUp()), Mark("web", false, Item("web", Utils.Err, "exited", ""))]
  }

  lemma DuplicateMarks()
    ensures var cl := ContainerList("Docker", false, [ContainerStatus("web", "Up"), ContainerStatus("web", "Exited")]);
      MarksOf(SeenOf(Counting(cl, []))) == [Mark("web", true, Item("web", Utils.Good, "up", "")), Mark("web", false, Item("web", Utils.Err, "exited", ""))]
  {
    var cs := [ContainerStatus("web", "Up"), ContainerStatus("web", "Exited")];
    assert Counted(cs[1..], Utils.FromList([])) == cs[1..];
    assert Counted(cs, Utils.FromList([])) == cs;
    assert ToLower("Up") == "up";
    assert ToLower("Exited") == "exited";
  }

  lemma DuplicateMaps()
    ensures var ms := [Mark("web", true, Item("web", Utils.Good, "up", "")), Mark("web", false, Item("web", Utils.Err, "exited", ""))];
      GoodMap(ms) == map["web" := Item("web", Utils.Good, "up", "")] && FailedMap(ms) == map["web" := Item("web", Utils.Err, "exited", "")]
  {
    var ms := [Mark("web", true, Item("web", Utils.Good, "up", "")), Mark("web", false, Item("web", Utils.Err, "exited", ""))];
    GoodMapAppend([], ms[0]);
    GoodMapAppend([ms[0]], ms[1]);
    FailedMapAppend([], ms[0]);
    FailedMapAppend([ms[0]], ms[1]);
    assert [ms[0]] + [ms[1]] == ms;
  }

  // ---- Listing containers through the command line ----

  /** `[sudo] <runtime in lower case> ps --format "{{.Names}} {{.Status}}" -a`. */
  function Command(runtime: string, sudo: bool): (argv: seq<string>)
    ensures |argv| == if sudo then 6 else 5
    ensures sudo ==> argv[0] == "sudo"
    ensures argv[|argv| - 5..] == [ToLower(runtime), "ps", "--format", "\"{{.Names}} {{.Status}}\"", "-a"]
  {
    (if sudo then ["sudo"] else []) + [ToLower(runtime), "ps", "--format", "\"{{.Names}} {{.Status}}\"", "-a"]
  }

  /** One output line: quotes trimmed, split on single spaces; the first two
      fields are the name and the status, and a line with fewer is skipped. */
  function ParseLine(line: string): Option<ContainerStatus> {
    var tmp := Split(Trim(line, '"'), " ");
    if |tmp| < 2 then None else Some(ContainerStatus(tmp[0], tmp[1]))
  }

  function ParseLines(lines: seq<string>): (r: seq<ContainerStatus>)
    ensures |r| <= |lines|
    ensures forall c :: c in r ==> exists line :: line in lines && ParseLine(line) == Some(c)
  {
    if |lines| == 0 then []
    else
      var rest := ParseLines(lines[1..]);
      assert forall line :: line in lines[1..] ==> line in lines;
      match ParseLine(lines[0])
      case None => rest
      case Some(c) => [c] + rest
  }

  function ParseOutput(stdout: string): seq<ContainerStatus> {
    ParseLines(Split(stdout, "\n"))
  }

  /** The result of one listing: the list, and whether the command failed. */
  datatype Fetched = Fetched(list: ContainerList, failed: bool)

  /** getContainersExec: `run` stands for executing a command line and gives its
      standard output, or None when the command fails. */
  function GetContainersExec(podman: bool, sudo: bool, run: seq<string> -> Option<string>): (r: Fetched)
    ensures r.list.root == sudo
    ensures r.list.runtime == if podman then "Podman" else "Docker"
    ensures r.failed <==> run(Command(r.list.runtime, sudo)).None?
    ensures r.failed ==> r.list.containers == []
  {
    var runtime := if podman then "Podman" else "Docker";
    match run(Command(runtime, sudo))
    case None => Fetched(ContainerList(runtime, sudo, []), true)
    case Some(out) => Fetched(ContainerList(runtime, sudo, ParseOutput(out)), false)
  }

  /** A name or status word as the runtime prints it: no space, quote or newline. */
  predicate Word(s: string) {
    ' ' !in s && '"' !in s && '\n' !in s
  }

  /** The line the format template prints for a container whose status is one word. */
  function PsLine(c: ContainerStatus): string {
    "\"" + c.name + " " + c.status + "\""
  }

  /** A line carrying a name, a status word and any further words parses to the
      first two: later fields are dropped. */
  lemma ParseLineFields(name: string, status: string, more: string)
    requires Word(name) && Word(status) && '"' !in more
    ensures ParseLine("\"" + name + " " + status + " " + more + "\"") == Some(ContainerStatus(name, status))
  {
    var x := name + " " + status + " " + more;
    assert '"' !in x by {
      assert forall i :: 0 <= i < |x| ==> x[i] in name || x[i] == ' ' || x[i] in status || x[i] in more;
    }
    assert "\"" + x + "\"" == "\"" + name + " " + status + " " + more + "\"";
    TrimWrapped(x, '"');
    assert x == name + [' '] + (status + [' '] + more);
    SplitAt(name, status + [' '] + more, ' ');
    SplitAt(status, more, ' ');
  }

  lemma ParsePsLine(c: ContainerStatus)
    requires Word(c.name) && Word(c.status)
    ensures ParseLine(PsLine(c)) == Some(c)
  {
    var x := c.name + " " + c.status;
    assert '"' !in x by {
      assert forall i :: 0 <= i < |x| ==> x[i] in c.name || x[i] == ' ' || x[i] in c.status;
    }
    assert PsLine(c) == "\"" + x + "\"";
    TrimWrapped(x, '"');
    assert x == c.name + [' '] + c.status;
    SplitAt(c.name, c.status, ' ');
    SplitNoSep(c.status, ' ');
  }

  /** A line without a space between its quotes is skipped. */
  lemma ParseLineNoSpace(line: string)
    requires ' ' !in Trim(line, '"')
    ensures ParseLine(line) == None
  {
    SplitNoSep(Trim(line, '"'), ' ');
  }

  function PsLines(cs: seq<ContainerStatus>): (r: seq<string>)
    ensures |r| == |cs|
    ensures forall i :: 0 <= i < |cs| ==> r[i] == PsLine(cs[i])
  {
    seq(|cs|, i requires 0 <= i < |cs| => PsLine(cs[i]))
  }

  /** What `ps` prints for a list: one line per container, each ending in a newline. */
  function PsOutput(cs: seq<ContainerStatus>): string {
    Join(PsLines(cs) + [""], "\n")
  }

  lemma {:induction false} ParsePsLines(cs: seq<ContainerStatus>)
    requires forall c :: c in cs ==> Word(c.name) && Word(c.status)
    ensures ParseLines(PsLines(cs) + [""]) == cs
  {
    if |cs| > 0 {
      ParsePsLine(cs[0]);
      assert (PsLines(cs) + [""])[1..] == PsLines(cs[1..]) + [""];
      ParsePsLines(cs[1..]);
    } else {
      assert ParseLine("") == None;
    }
  }

  /** Parsing what `ps` prints gives back the list, in output order. */
  lemma ParsePsOutput(cs: seq<ContainerStatus>)
    requires forall c :: c in cs ==> Word(c.name) && Word(c.status)
    ensures ParseOutput(PsOutput(cs)) == cs
  {
    var lines := PsLines(cs) + [""];
    forall i | 0 <= i < |lines| ensures '\n' !in lines[i] {
      if i < |cs| {
        var x := lines[i];
        assert x == "\"" + cs[i].name + " " + cs[i].status + "\"";
        assert forall j :: 0 <= j < |x| ==> x[j] == '"' || x[j] in cs[i].name || x[j] == ' ' || x[j] in cs[i].status;
      }
    }
    SplitJoin(lines, '\n');
    ParsePsLines(cs);
  }

  // ---- Podman ----

  /** The podman section of the configuration. */
  datatype PodmanConf = PodmanConf(warnOnly: Option<bool>, sudo: bool, includeSudo: bool, ignore: seq<string>)

  /** A list with every name prefixed. */
  function Prefixed(cs: seq<ContainerStatus>, p: string): (r: seq<ContainerStatus>)
    ensures |r| == |cs|
    ensures forall i :: 0 <= i < |cs| ==> HasPrefix(r[i].name, p) && TrimPrefix(r[i].name, p) == cs[i].name
    ensures forall i :: 0 <= i < |cs| ==> r[i].status == cs[i].status
  {
    if |cs| == 0 then []
    else
      assert (p + cs[0].name)[..|p|] == p;
      [ContainerStatus(p + cs[0].name, cs[0].status)] + Prefixed(cs[1..], p)
  }

  /** Root containers marked "# " first, then the user's marked "$ ". */
  function Merge(root: seq<ContainerStatus>, user: seq<ContainerStatus>): (r: ContainerList)
    ensures r.runtime == "Podman" && r.root
    ensures |r.containers| == |root| + |user|
  {
    ContainerList("Podman", true, Prefixed(root, "# ") + Prefixed(user, "$ "))
  }

  /** Every merged entry tells which listing it came from and gives back its
      original name and status. */
  lemma MergeOrigin(root: seq<ContainerStatus>, user: seq<ContainerStatus>, i: nat)
    requires i < |root| + |user|
    ensures var c := Merge(root, user).containers[i];
      if i < |root| then HasPrefix(c.name, "# ") && ContainerStatus(TrimPrefix(c.name, "# "), c.status) == root[i]
      else HasPrefix(c.name, "$ ") && ContainerStatus(TrimPrefix(c.name, "$ "), c.status) == user[i - |root|]
  {
  }

  /** GetPodman, after the user lookup: `uid` is the current user's id, or None
      when it cannot be read. The section's own warnOnly wins over the global one. */
  function GetPodman(conf: PodmanConf, globalWarnOnly: bool, uid: Option<string>, run: seq<string> -> Option<string>): Output {
    var asRoot := uid == Some("0");
    Podman(conf.includeSudo && !asRoot, conf.sudo && !asRoot, conf.ignore, conf.warnOnly.GetOr(globalWarnOnly), run)
  }

  /** GetPodman once root has cleared the sudo settings and warnOnly is resolved. */
  function Podman(includeSudo: bool, sudo: bool, ignore: seq<string>, warnOnly: bool, run: seq<string> -> Option<string>): Output {
    if !includeSudo then
      var f := GetContainersExec(true, sudo, run);
      if f.failed then Output(Unavailable("Podman"), [])
      else ToHeaderContent(f.list, ignore, warnOnly)
    else
      var u := GetContainersExec(true, false, run);
      var rt := GetContainersExec(true, true, run);
      var merged := Merge(rt.list.containers, u.list.containers);
      if |merged.containers| == 0 && (u.failed || rt.failed) then Output(Unavailable("Podman"), [])
      else ToHeaderContent(merged, ignore, warnOnly)
  }

  /** Running as root, the sudo settings are cleared: never "sudo", never both listings. */
  lemma PodmanAsRoot(conf: PodmanConf, globalWarnOnly: bool, run: seq<string> -> Option<string>)
    ensures GetPodman(conf, globalWarnOnly, Some("0"), run) == GetPodman(conf.(sudo := false, includeSudo := false), globalWarnOnly, None, run)
  {
  }

  /** A podman section without its own warnOnly follows the global one. */
  lemma PodmanWarnOnlyDefault(conf: PodmanConf, globalWarnOnly: bool, uid: Option<string>, run: seq<string> -> Option<string>)
    requires conf.warnOnly.None?
    ensures GetPodman(conf, globalWarnOnly, uid, run) == GetPodman(conf.(warnOnly := Some(globalWarnOnly)), !globalWarnOnly, uid, run)
  {
  }

  /** Listing one way, podman is "unavailable" exactly when the command fails. */
  lemma PodmanSingleUnavailable(conf: PodmanConf, globalWarnOnly: bool, uid: Option<string>, run: seq<string> -> Option<string>)
    requires !conf.includeSudo || uid == Some("0")
    ensures var sudo := conf.sudo && uid != Some("0");
      GetPodman(conf, globalWarnOnly, uid, run).header == Unavailable("Podman") <==> run(Command("Podman", sudo)).None?
  {
    var sudo := conf.sudo && uid != Some("0");
    var f := GetContainersExec(true, sudo, run);
    if !f.failed {
      SeverityHeaderIsNotNotice("Podman", Critical, Lower);
      SeverityHeaderIsNotNotice("Podman", OK, Lower);
      SeverityHeaderIsNotNotice("Podman", Warning, Lower);
    }
  }

  /** Listing both ways, podman is "unavailable" only when nothing was listed
      and at least one of the two commands failed. */
  lemma PodmanMergedUnavailable(conf: PodmanConf, globalWarnOnly: bool, uid: Option<string>, run: seq<string> -> Option<string>)
    requires conf.includeSudo && uid != Some("0")
    ensures var u := GetContainersExec(true, false, run);
      var rt := GetContainersExec(true, true, run);
      GetPodman(conf, globalWarnOnly, uid, run).header == Unavailable("Podman") <==>
        |u.list.containers| + |rt.list.containers| == 0 && (u.failed || rt.failed)
  {
    SeverityHeaderIsNotNotice("Podman", Critical, Lower);
    SeverityHeaderIsNotNotice("Podman", OK, Lower);
    SeverityHeaderIsNotNotice("Podman", Warning, Lower);
  }

  /** In the merged listing the ignore list is matched against the marked names,
      so ignoring "web" does not hide the root container "web". */
  lemma MergedIgnoreSeesMarkedNames()
    ensures var merged := Merge([ContainerStatus("web", "exited")], []);
      ToHeaderContent(merged, ["web"], false).header == SeverityHeader("Podman", Critical, Lower)
  {
    var merged := Merge([ContainerStatus("web", "exited")], []);
    var c := ContainerStatus("# web", "exited");
    assert "# " + "web" == "# web";
    assert Prefixed([ContainerStatus("web", "exited")][1..], "# ") == [];
    assert Prefixed([ContainerStatus("web", "exited")], "# ") == [c];
    assert merged.containers == [c];
    assert !Utils.Contains(Utils.FromList(["web"]), "# web");
    assert c in Counted(merged.containers, Utils.FromList(["web"]));
    assert ToLower("exited") == "exited";
  }
}
