/** systemd/systemd.go: the older unit checker. The configured units are sorted
    and each one's properties are read into a text map; a unit whose fetch
    failed has an empty map and is skipped. Inactive units that exited with
    status 0 always count as good, and hiding extensions cuts only the first
    ".service" and the first ".timer". */
module SystemdOld {
  import opened Wrappers
  import opened Text
  import Utils
  import opened Severity
  import opened Report
  import opened Sorting
  import opened Tally
  import Systemd

  /** The properties read for every unit, in the order they are read. */
  const PropertyNames: seq<string> := ["ActiveState", "Result", "ExecMainStatus", "LoadState"]

  /** What a missing property prints as: fmt's rendering of a nil interface under %s. */
  const NilShown: string := "%!s(<nil>)"

  /** The text a recognised property is stored as: strings as they are, 32-bit integers in decimal. */
  function Stored(v: Systemd.Value): string
    requires !v.Other?
  {
    match v
    case Str(s) => s
    case Int32(i) => IntToString(i)
  }

  /** The value looked up for a property; a missing one is nil. */
  function Lookup(props: map<string, Systemd.Value>, key: string): Systemd.Value {
    if key in props then props[key] else Systemd.Other(NilShown)
  }

  function UnrecognizedLine(shown: string): Line {
    Raw("Unrecognized type for " + shown + "\n")
  }

  /** Reading `keys` from the property map in order: the text map of the
      recognised ones, and one "Unrecognized type" line per other one. */
  function Record(props: map<string, Systemd.Value>, keys: seq<string>): (r: (map<string, string>, seq<Line>))
    ensures forall k :: k in r.0 <==> k in keys && !Lookup(props, k).Other?
    ensures forall k :: k in r.0 ==> r.0[k] == Stored(Lookup(props, k))
    ensures |r.1| <= |keys|
    ensures |r.1| == 0 <==> forall k :: k in keys ==> !Lookup(props, k).Other?
    ensures forall l :: l in r.1 ==>
      (exists k :: k in keys && Lookup(props, k).Other? && l == UnrecognizedLine(Lookup(props, k).shown))
  {
    if |keys| == 0 then (map[], [])
    else
      var init := keys[..|keys| - 1];
      var key := keys[|keys| - 1];
      var (stat, errs) := Record(props, init);
      assert forall k :: k in keys <==> k in init || k == key;
      match Lookup(props, key)
      case Other(shown) => (stat, errs + [UnrecognizedLine(shown)])
      case v => (stat[key := Stored(v)], errs)
  }

  /** The text map of one unit: empty when its fetch failed. */
  function Stats(u: string, fetch: string -> Systemd.Fetch): (stat: map<string, string>)
    ensures fetch(u).FetchFailed? ==> stat == map[]
    ensures fetch(u).Props? ==> forall k :: k in stat <==> k in PropertyNames && !Lookup(fetch(u).props, k).Other?
  {
    match fetch(u)
    case FetchFailed(_) => map[]
    case Props(p) => Record(p, PropertyNames).0
  }

  /** The error lines one unit adds: the fetch error, or its unrecognised properties. */
  function UnitErrors(u: string, fetch: string -> Systemd.Fetch): (r: seq<Line>)
    ensures fetch(u).FetchFailed? ==> r == [Systemd.PropertyError(u, fetch(u).msg)]
  {
    match fetch(u)
    case FetchFailed(msg) => [Systemd.PropertyError(u, msg)]
    case Props(p) => Record(p, PropertyNames).1
  }

  /** The error lines of all units, in the order the units are fetched. */
  function AllErrors(units: seq<string>, fetch: string -> Systemd.Fetch): (r: seq<Line>)
    ensures |r| == 0 <==> forall u :: u in units ==> UnitErrors(u, fetch) == []
  {
    if |units| == 0 then []
    else
      assert forall u :: u in units <==> u == units[0] || u in units[1..];
      UnitErrors(units[0], fetch) + AllErrors(units[1..], fetch)
  }

  /** A property's text, "" when it was not stored (a missing map key reads as the zero value). */
  function Get(stat: map<string, string>, key: string): string {
    if key in stat then stat[key] else ""
  }

  /** The classification of the older checker. */
  function Judge(stat: map<string, string>): (v: Systemd.Verdict)
    ensures v.good <==> Get(stat, "LoadState") == "loaded" && (Get(stat, "ActiveState") == "active" || Get(stat, "ExecMainStatus") == "0")
    ensures v.tone != Utils.Warn
  {
    if Get(stat, "LoadState") != "loaded" then Systemd.Verdict(false, Utils.Err, Get(stat, "LoadState"))
    else if Get(stat, "ActiveState") == "active" then Systemd.Verdict(true, Utils.Good, Get(stat, "ActiveState"))
    else if Get(stat, "ExecMainStatus") == "0" then Systemd.Verdict(true, Utils.Good, Get(stat, "Result"))
    else Systemd.Verdict(false, Utils.Err, Get(stat, "ActiveState"))
  }

  /** The unit the newer checker would build from the same text map. */
  function UnitOf(name: string, stat: map<string, string>): Systemd.Unit {
    Systemd.Unit(name, Get(stat, "ActiveState"), Get(stat, "Result"), Get(stat, "ExecMainStatus"), Get(stat, "LoadState"))
  }

  /** The older classification is the newer one with inactive units accepted. */
  lemma JudgeIsInactiveOK(name: string, stat: map<string, string>)
    ensures Judge(stat) == Systemd.Judge(UnitOf(name, stat), true)
  {
  }

  /** The older extension hiding: the first ".service", then the first ".timer". */
  function HideExt(name: string): string {
    RemoveFirst(RemoveFirst(name, ".service"), ".timer")
  }

  function Display(name: string, hideExt: bool): string {
    if hideExt then HideExt(name) else name
  }

  function DisplayFn(hideExt: bool): string -> string {
    n => Display(n, hideExt)
  }

  /** The cuts are made on the marked-up name; the markers take no part in a
      match, so that is the marked-up display name. */
  lemma DisplayWrapped(name: string, hideExt: bool)
    ensures (if hideExt then RemoveFirst(RemoveFirst("$" + name + "%", ".service"), ".timer") else "$" + name + "%")
            == "$" + Display(name, hideExt) + "%"
  {
    if hideExt {
      assert '%' !in ".service";
      assert '%' !in ".timer";
      RemoveFirstBetween('$', name, '%', ".service");
      RemoveFirstBetween('$', RemoveFirst(name, ".service"), '%', ".timer");
    }
  }

  /** Only the first ".service" goes: of a name that starts with it, exactly
      that prefix is cut, and a second one stays. */
  lemma HideExtCutsOnce(rest: string)
    ensures RemoveFirst(".service" + rest, ".service") == rest
  {
    RemoveFirstLeading(".service", rest);
  }

  function UnitMark(u: string, hideExt: bool, fetch: string -> Systemd.Fetch): Mark {
    var v := Judge(Stats(u, fetch));
    Mark(u, v.good, Item(Display(u, hideExt), v.tone, v.value, ""))
  }

  /** A unit is classified when its text map is not empty. */
  predicate Known(u: string, fetch: string -> Systemd.Fetch) {
    |Stats(u, fetch)| > 0
  }

  function UnitMarks(units: seq<string>, hideExt: bool, fetch: string -> Systemd.Fetch): (ms: seq<Mark>)
    ensures |ms| <= |units|
    ensures MarksNamedBy(ms, DisplayFn(hideExt))
  {
    if |units| == 0 then []
    else
      var here := if Known(units[0], fetch) then [UnitMark(units[0], hideExt, fetch)] else [];
      here + UnitMarks(units[1..], hideExt, fetch)
  }

  /** The marks are those of the known units. */
  lemma {:induction false} UnitMarksMember(units: seq<string>, hideExt: bool, fetch: string -> Systemd.Fetch, m: Mark)
    ensures m in UnitMarks(units, hideExt, fetch) <==> exists u :: u in units && Known(u, fetch) && m == UnitMark(u, hideExt, fetch)
  {
    if |units| > 0 {
      UnitMarksMember(units[1..], hideExt, fetch, m);
      assert forall u :: u in units <==> u == units[0] || u in units[1..];
    }
  }

  function StatusOK(): Line {
    SeverityHeader("Systemd", OK, Lower)
  }

  /** getServiceStatus of the older checker; `fetch` is the DBus property query. */
  function GetServiceStatus(units: seq<string>, failedOnly: bool, hideExt: bool, fetch: string -> Systemd.Fetch): Output {
    if |units| == 0 then Output(Notice("Systemd", Utils.Warn, "unconfigured"), [])
    else
      var sorted := SortStrings(units);
      var ms := UnitMarks(sorted, hideExt, fetch);
      var header := StatusHeader("Systemd", ms, |units|);
      if header == StatusOK() && failedOnly then Output(header, [])
      else Output(header, Listing(sorted, GoodMap(ms), FailedMap(ms), failedOnly) + AllErrors(sorted, fetch))
  }

  predicate KnownGood(units: seq<string>, fetch: string -> Systemd.Fetch) {
    exists u :: u in units && Known(u, fetch) && Judge(Stats(u, fetch)).good
  }

  predicate KnownFailed(units: seq<string>, fetch: string -> Systemd.Fetch) {
    exists u :: u in units && Known(u, fetch) && !Judge(Stats(u, fetch)).good
  }

  lemma UnitMarksSomeGood(units: seq<string>, hideExt: bool, fetch: string -> Systemd.Fetch)
    ensures SomeGood(UnitMarks(units, hideExt, fetch)) <==> KnownGood(units, fetch)
  {
    var ms := UnitMarks(units, hideExt, fetch);
    if KnownGood(units, fetch) {
      var u :| u in units && Known(u, fetch) && Judge(Stats(u, fetch)).good;
      UnitMarksMember(units, hideExt, fetch, UnitMark(u, hideExt, fetch));
      var i :| 0 <= i < |ms| && ms[i] == UnitMark(u, hideExt, fetch);
    }
    if SomeGood(ms) {
      var i :| 0 <= i < |ms| && ms[i].good;
      UnitMarksMember(units, hideExt, fetch, ms[i]);
    }
  }

  lemma UnitMarksSomeFailed(units: seq<string>, hideExt: bool, fetch: string -> Systemd.Fetch)
    ensures SomeFailed(UnitMarks(units, hideExt, fetch)) <==> KnownFailed(units, fetch)
  {
    var ms := UnitMarks(units, hideExt, fetch);
    if KnownFailed(units, fetch) {
      var u :| u in units && Known(u, fetch) && !Judge(Stats(u, fetch)).good;
      UnitMarksMember(units, hideExt, fetch, UnitMark(u, hideExt, fetch));
      var i :| 0 <= i < |ms| && ms[i] == UnitMark(u, hideExt, fetch);
    }
    if SomeFailed(ms) {
      var i :| 0 <= i < |ms| && !ms[i].good;
      UnitMarksMember(units, hideExt, fetch, ms[i]);
    }
  }

  /** The header: "unconfigured" for no units; otherwise "critical" exactly
      when no known unit is good, "OK" when some are good and none failed,
      "warning" when both occur; under failed-only an OK header comes alone. */
  lemma ServiceStatusHeader(units: seq<string>, failedOnly: bool, hideExt: bool, fetch: string -> Systemd.Fetch)
    ensures var o := GetServiceStatus(units, failedOnly, hideExt, fetch);
      && (|units| == 0 ==> o == Output(Notice("Systemd", Utils.Warn, "unconfigured"), []))
      && (|units| > 0 ==>
          && (o.header == SeverityHeader("Systemd", Critical, Lower) <==> !KnownGood(units, fetch))
          && (o.header == StatusOK() <==> KnownGood(units, fetch) && !KnownFailed(units, fetch))
          && (o.header == SeverityHeader("Systemd", Warning, Lower) <==> KnownGood(units, fetch) && KnownFailed(units, fetch))
          && (o.header == StatusOK() && failedOnly ==> o.content == []))
  {
    if |units| > 0 {
      var sorted := SortStrings(units);
      var ms := UnitMarks(sorted, hideExt, fetch);
      StatusHeaderSpec("Systemd", ms, |units|);
      UnitMarksSomeGood(sorted, hideExt, fetch);
      UnitMarksSomeFailed(sorted, hideExt, fetch);
      assert forall u :: u in units <==> u in multiset(units);
      assert forall u :: u in sorted <==> u in multiset(sorted);
    }
  }

  lemma UnitMarksListed(units: seq<string>, n: string, hideGood: bool, hideExt: bool, fetch: string -> Systemd.Fetch)
    ensures Listed(UnitMarks(units, hideExt, fetch), n, hideGood)
      <==> n in units && Known(n, fetch) && (hideGood ==> !Judge(Stats(n, fetch)).good)
  {
    var ms := UnitMarks(units, hideExt, fetch);
    if n in units && Known(n, fetch) && (hideGood ==> !Judge(Stats(n, fetch)).good) {
      var m := UnitMark(n, hideExt, fetch);
      UnitMarksMember(units, hideExt, fetch, m);
      var i :| 0 <= i < |ms| && ms[i] == m;
      assert ms[i].key == n && ms[i].good == Judge(Stats(n, fetch)).good;
    }
    if Listed(ms, n, hideGood) {
      var i :| 0 <= i < |ms| && ms[i].key == n && (hideGood ==> !ms[i].good);
      assert ms[i] in ms;
      UnitMarksMember(units, hideExt, fetch, ms[i]);
      var u :| u in units && Known(u, fetch) && ms[i] == UnitMark(u, hideExt, fetch);
      assert u == n;
    }
  }

  /** Unless the early return applies: the units are listed in ascending
      order, each under its display name and once per occurrence; a unit is
      listed exactly when it is known (a failed fetch leaves it out) and, under
      failed-only, failed; the error lines follow, in unit order. */
  lemma ServiceStatusContent(units: seq<string>, failedOnly: bool, hideExt: bool, fetch: string -> Systemd.Fetch, n: string)
    requires |units| > 0
    requires GetServiceStatus(units, failedOnly, hideExt, fetch).header != StatusOK() || !failedOnly
    ensures var o := GetServiceStatus(units, failedOnly, hideExt, fetch);
      var errs := AllErrors(SortStrings(units), fetch);
      && |errs| <= |o.content|
      && o.content[|o.content| - |errs|..] == errs
      && exists keys ::
        && Sorted(keys)
        && Labels(o.content[..|o.content| - |errs|]) == Rename(keys, DisplayFn(hideExt))
        && (n in keys <==> n in units && Known(n, fetch) && (failedOnly ==> !Judge(Stats(n, fetch)).good))
        && multiset(keys)[n] == if n in keys then multiset(units)[n] else 0
  {
    var o := GetServiceStatus(units, failedOnly, hideExt, fetch);
    var sorted := SortStrings(units);
    var errs := AllErrors(sorted, fetch);
    var ms := UnitMarks(sorted, hideExt, fetch);
    var sh := Tally.Shown(GoodMap(ms), FailedMap(ms), failedOnly);
    var listing := Listing(sorted, GoodMap(ms), FailedMap(ms), failedOnly);
    assert o.content == listing + errs;
    assert o.content[..|o.content| - |errs|] == listing;
    var keys := KeepOnly(sorted, sh);
    ListingOfMarks(sorted, ms, failedOnly, DisplayFn(hideExt), n);
    KeepOnlySorted(sorted, sh);
    KeepOnlyMultiset(sorted, sh, n);
    UnitMarksListed(sorted, n, failedOnly, hideExt, fetch);
    assert n in sorted <==> n in multiset(sorted);
    assert n in units <==> n in multiset(units);
  }

  /** A unit whose fetch failed contributes its error line and nothing else. */
  lemma FetchFailureSkipped(u: string, fetch: string -> Systemd.Fetch)
    requires fetch(u).FetchFailed?
    ensures !Known(u, fetch)
    ensures UnitErrors(u, fetch) == [Systemd.PropertyError(u, fetch(u).msg)]
  {
  }
}
