/** The docker collector's two listing paths: the Engine API (datasources/docker.go,
    and its older copy docker/docker.go) and `docker ps` (datasources/docker_exec.go).
    Both classify with the shared good/failed bookkeeping but their own header rule. */
module Docker {
  import opened Wrappers
  import opened Text
  import Utils
  import opened Severity
  import opened Report
  import opened Sorting
  import opened Tally
  import Containers

  /** What the API reports of a container: its names and its state. */
  datatype ApiContainer = ApiContainer(names: seq<string>, state: string)

  /** The API gives every container at least one name. */
  predicate Named(cs: seq<ApiContainer>) {
    forall c :: c in cs ==> |c.names| > 0
  }

  /** The first name without the leading "/" the API puts on it. */
  function CleanName(c: ApiContainer): (n: string)
    requires |c.names| > 0
    ensures HasPrefix(c.names[0], "/") ==> "/" + n == c.names[0]
    ensures !HasPrefix(c.names[0], "/") ==> n == c.names[0]
  {
    TrimPrefix(c.names[0], "/")
  }

  function SeenApi(c: ApiContainer): Seen
    requires |c.names| > 0
  {
    Seen(CleanName(c), c.state, c.state == "running")
  }

  /** The containers whose clean name is not ignored, in API order; only the
      state "running" is good. */
  function ApiSeen(cs: seq<ApiContainer>, ignore: Utils.StringSet): (ss: seq<Seen>)
    requires Named(cs)
    ensures |ss| <= |cs|
    ensures forall s :: s in ss <==> exists c :: c in cs && !Utils.Contains(ignore, CleanName(c)) && s == SeenApi(c)
  {
    if |cs| == 0 then []
    else
      var rest := ApiSeen(cs[1..], ignore);
      assert forall c :: c in cs <==> c == cs[0] || c in cs[1..];
      (if Utils.Contains(ignore, CleanName(cs[0])) then [] else [SeenApi(cs[0])]) + rest
  }

  /** The docker header rule. `total` is the number the failed count is compared
      with: every container the API listed (ignored ones included) on the API
      path, the counted names on the `docker ps` path. */
  function Header(ms: seq<Mark>, total: nat): Line {
    StatusHeader("Docker", ms, total)
  }

  /** The header and content for what was seen. Nothing failed with failedOnly
      set returns before the content loop. */
  function Classify(ss: seq<Seen>, total: nat, failedOnly: bool): Output {
    var ms := MarksOf(ss);
    var header := Header(ms, total);
    if header == SeverityHeader("Docker", OK, Lower) && failedOnly then Output(header, [])
    else Output(header, Lines(ms, failedOnly))
  }

  /** checkContainers after the client call: `api` is the container list, or
      None when the client could not be created or the listing failed. */
  function CheckContainers(api: Option<seq<ApiContainer>>, ignoreList: seq<string>, failedOnly: bool): Output
    requires api.Some? ==> Named(api.value)
  {
    match api
    case None => Output(Unavailable("Docker"), [])
    case Some(cs) => Classify(ApiSeen(cs, Utils.FromList(ignoreList)), |cs|, failedOnly)
  }

  /** Docker's header: "critical" when nothing seen is good (so also when
      nothing was seen), "OK" when something is good and nothing failed,
      "warning" otherwise; the bound on the failed count is never what decides,
      so counting ignored containers in it changes nothing. */
  lemma HeaderOfSeen(ss: seq<Seen>, total: nat)
    requires total >= |ss|
    ensures var h := Header(MarksOf(ss), total);
      && (h == SeverityHeader("Docker", Critical, Lower) <==> !AnyGood(ss))
      && (h == SeverityHeader("Docker", OK, Lower) <==> AnyGood(ss) && !AnyFailed(ss))
      && (h == SeverityHeader("Docker", Warning, Lower) <==> AnyGood(ss) && AnyFailed(ss))
      && h != NoHeader
      && h == Header(MarksOf(ss), |ss|)
  {
    var ms := MarksOf(ss);
    MapsEmpty(ss);
    MarkMapsEmpty(ms);
    StatusHeaderSpec("Docker", ms, total);
  }

  /** With failedOnly and nothing failed there is no content; otherwise the
      content is the sorted listing. */
  lemma ClassifyContent(ss: seq<Seen>, total: nat, failedOnly: bool)
    requires total >= |ss|
    ensures Classify(ss, total, failedOnly).content == Lines(MarksOf(ss), failedOnly)
    ensures failedOnly && !AnyFailed(ss) ==> Classify(ss, total, failedOnly).content == []
  {
    HeaderOfSeen(ss, total);
    if failedOnly && !AnyFailed(ss) {
      NothingFailedNoLines(ss);
    }
  }

  predicate Running(cs: seq<ApiContainer>, ignore: Utils.StringSet)
    requires Named(cs)
  {
    exists c :: c in cs && !Utils.Contains(ignore, CleanName(c)) && c.state == "running"
  }

  predicate NotRunning(cs: seq<ApiContainer>, ignore: Utils.StringSet)
    requires Named(cs)
  {
    exists c :: c in cs && !Utils.Contains(ignore, CleanName(c)) && c.state != "running"
  }

  lemma ApiAny(cs: seq<ApiContainer>, ignore: Utils.StringSet)
    requires Named(cs)
    ensures AnyGood(ApiSeen(cs, ignore)) <==> Running(cs, ignore)
    ensures AnyFailed(ApiSeen(cs, ignore)) <==> NotRunning(cs, ignore)
  {
    var ss := ApiSeen(cs, ignore);
    if Running(cs, ignore) {
      var c :| c in cs && !Utils.Contains(ignore, CleanName(c)) && c.state == "running";
      assert SeenApi(c) in ss;
    }
    if NotRunning(cs, ignore) {
      var c :| c in cs && !Utils.Contains(ignore, CleanName(c)) && c.state != "running";
      assert SeenApi(c) in ss;
    }
  }

  /** The API path: "unavailable" exactly when there is no list; otherwise the
      header follows the running and non-running containers that are not
      ignored, and an empty list is "critical". */
  lemma CheckContainersHeader(api: Option<seq<ApiContainer>>, ignoreList: seq<string>, failedOnly: bool)
    requires api.Some? ==> Named(api.value)
    ensures var r := CheckContainers(api, ignoreList, failedOnly);
      && (r.header == Unavailable("Docker") <==> api.None?)
      && (api.None? ==> r.content == [])
      && (api.Some? ==>
        var ignore := Utils.FromList(ignoreList);
        && (r.header == SeverityHeader("Docker", Critical, Lower) <==> !Running(api.value, ignore))
        && (r.header == SeverityHeader("Docker", OK, Lower) <==> Running(api.value, ignore) && !NotRunning(api.value, ignore))
        && (r.header == SeverityHeader("Docker", Warning, Lower) <==> Running(api.value, ignore) && NotRunning(api.value, ignore)))
  {
    if api.Some? {
      var ignore := Utils.FromList(ignoreList);
      HeaderOfSeen(ApiSeen(api.value, ignore), |api.value|);
      ApiAny(api.value, ignore);
    }
  }

  /** A counted container of the given clean name, and a non-running one under failedOnly. */
  predicate HasContainer(cs: seq<ApiContainer>, ignore: Utils.StringSet, n: string, failedOnly: bool)
    requires Named(cs)
  {
    exists c :: c in cs && !Utils.Contains(ignore, CleanName(c)) && CleanName(c) == n && (failedOnly ==> c.state != "running")
  }

  /** The API path's content names the counted containers, every non-running
      one and the running ones unless failedOnly, in ascending order. */
  lemma CheckContainersNames(cs: seq<ApiContainer>, ignoreList: seq<string>, failedOnly: bool, n: string)
    requires Named(cs)
    ensures var r := CheckContainers(Some(cs), ignoreList, failedOnly);
      && Sorted(Labels(r.content))
      && (n in Labels(r.content) <==> HasContainer(cs, Utils.FromList(ignoreList), n, failedOnly))
  {
    var ignore := Utils.FromList(ignoreList);
    var ss := ApiSeen(cs, ignore);
    ClassifyContent(ss, |cs|, failedOnly);
    SeenNames(ss, failedOnly, n);
    if HasContainer(cs, ignore, n, failedOnly) {
      var c :| c in cs && !Utils.Contains(ignore, CleanName(c)) && CleanName(c) == n && (failedOnly ==> c.state != "running");
      assert SeenApi(c) in ss;
    }
  }

  /** Each line shows a listed container's state, green only for "running"
      and never green under failedOnly. */
  lemma CheckContainersLine(cs: seq<ApiContainer>, ignoreList: seq<string>, failedOnly: bool, l: Line)
    requires Named(cs)
    requires l in CheckContainers(Some(cs), ignoreList, failedOnly).content
    ensures exists c :: c in cs && l == MarkOf(SeenApi(c)).line && (failedOnly ==> c.state != "running")
  {
    var ss := ApiSeen(cs, Utils.FromList(ignoreList));
    ClassifyContent(ss, |cs|, failedOnly);
    SeenLine(ss, failedOnly, l);
  }

  /** Unlike the command-line container rule, an empty docker listing is "critical". */
  lemma EmptyListingDiffers()
    ensures CheckContainers(Some([]), [], false).header == SeverityHeader("Docker", Critical, Lower)
    ensures Containers.ToHeaderContent(Containers.ContainerList("Docker", false, []), [], false).header == SeverityHeader("Docker", OK, Lower)
  {
    Containers.ContainerHeader(Containers.ContainerList("Docker", false, []), [], false);
  }

  // ---- `docker ps` ----

  /** One output line, split on single spaces without trimming: the name is the
      first field with its opening quote dropped, the status the second. */
  function ExecLine(line: string): Option<(string, string)> {
    var tmp := Split(line, " ");
    if |tmp| < 2 then None else Some((TrimPrefix(tmp[0], "\""), tmp[1]))
  }

  /** The parsed lines whose name is not ignored; only the status "Up" is good. */
  function ExecSeen(lines: seq<string>, ignore: Utils.StringSet): (ss: seq<Seen>)
    ensures |ss| <= |lines|
    ensures forall s :: s in ss ==> (!Utils.Contains(ignore, s.name) && s.good == (s.value == "Up")
      && exists line :: line in lines && ExecLine(line) == Some((s.name, s.value)))
  {
    if |lines| == 0 then []
    else
      var rest := ExecSeen(lines[1..], ignore);
      assert forall line :: line in lines[1..] ==> line in lines;
      match ExecLine(lines[0])
      case None => rest
      case Some(f) =>
        if Utils.Contains(ignore, f.0) then rest else [Seen(f.0, f.1, f.1 == "Up")] + rest
  }

  /** checkContainersExec: `out` is the command's output, or None when it fails. */
  function CheckContainersExec(out: Option<string>, ignoreList: seq<string>, failedOnly: bool): Output {
    match out
    case None => Output(Unavailable("Docker"), [])
    case Some(o) =>
      var ss := ExecSeen(Split(o, "\n"), Utils.FromList(ignoreList));
      Classify(ss, |ss|, failedOnly)
  }

  /** A line as the template prints it: the name after the opening quote, then
      the status words. */
  lemma ExecLineFields(name: string, status: string, more: string)
    requires Containers.Word(name) && Containers.Word(status)
    ensures ExecLine("\"" + name + " " + status + " " + more) == Some((name, status))
  {
    var line := "\"" + name + " " + status + " " + more;
    assert line == ("\"" + name) + [' '] + (status + [' '] + more);
    assert ' ' !in "\"" + name by {
      assert forall i :: 0 <= i < |"\"" + name| ==> ("\"" + name)[i] == '"' || ("\"" + name)[i] in name;
    }
    SplitAt("\"" + name, status + [' '] + more, ' ');
    SplitAt(status, more, ' ');
  }

  /** The command-line path: "unavailable" exactly when the command fails;
      otherwise the header follows the counted lines whose status is exactly
      "Up", and an output with no such line is "critical". */
  lemma CheckContainersExecHeader(out: Option<string>, ignoreList: seq<string>, failedOnly: bool)
    ensures var r := CheckContainersExec(out, ignoreList, failedOnly);
      && (r.header == Unavailable("Docker") <==> out.None?)
      && (out.None? ==> r.content == [])
      && (out.Some? ==>
        var ss := ExecSeen(Split(out.value, "\n"), Utils.FromList(ignoreList));
        && (r.header == SeverityHeader("Docker", Critical, Lower) <==> !AnyGood(ss))
        && (r.header == SeverityHeader("Docker", OK, Lower) <==> AnyGood(ss) && !AnyFailed(ss))
        && (r.header == SeverityHeader("Docker", Warning, Lower) <==> AnyGood(ss) && AnyFailed(ss)))
  {
    if out.Some? {
      var ss := ExecSeen(Split(out.value, "\n"), Utils.FromList(ignoreList));
      HeaderOfSeen(ss, |ss|);
    }
  }

  /** The command-line path's content: the counted names, in ascending order,
      good ones hidden under failedOnly. */
  lemma CheckContainersExecContent(o: string, ignoreList: seq<string>, failedOnly: bool, n: string)
    ensures var r := CheckContainersExec(Some(o), ignoreList, failedOnly);
      var ss := ExecSeen(Split(o, "\n"), Utils.FromList(ignoreList));
      && Sorted(Labels(r.content))
      && (n in Labels(r.content) <==> exists s :: s in ss && s.name == n && (failedOnly ==> s.value != "Up"))
      && (n in ignoreList ==> n !in Labels(r.content))
  {
    var ss := ExecSeen(Split(o, "\n"), Utils.FromList(ignoreList));
    ClassifyContent(ss, |ss|, failedOnly);
    SeenNames(ss, failedOnly, n);
  }

  /** Only the exact status "Up" is good on this path: a one-word status keeps
      the closing quote, so a created container counts as failed. */
  lemma ExecCreatedIsFailed()
    ensures ExecLine("\"db Created\"") == Some(("db", "Created\""))
  {
    assert "\"db Created\"" == "\"db" + [' '] + "Created\"";
    SplitAt("\"db", "Created\"", ' ');
    SplitNoSep("Created\"", ' ');
  }
}
