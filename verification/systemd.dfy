/** datasources/systemd.go: the DBus unit checker of the newer collector package.
    The DBus connection, the list of failed units and the per-unit property
    fetch are inputs; what remains is the fill rule for unit properties, the
    unit classification, the extension-hiding display name, and the header and
    content built from the shared good/failed bookkeeping. */
module Systemd {
  import opened Wrappers
  import opened Text
  import Utils
  import opened Severity
  import opened Report
  import opened Sorting
  import opened Tally
  import CommonVars

  // ---------------------------------------------------------------------------
  // Hiding unit extensions

  /** The alternatives of the extension pattern, in the order the pattern lists them. */
  const Extensions: seq<string> :=
    [".service", ".socket", ".device", ".mount", ".automount", ".swap",
     ".target", ".path", ".timer", ".slice", ".scope"]

  predicate IsLowerLetter(ch: char) {
    'a' <= ch <= 'z'
  }

  /** A dot followed by lower-case letters: the shape of every extension. */
  predicate ExtensionShaped(e: string) {
    |e| >= 2 && e[0] == '.' && forall i :: 1 <= i < |e| ==> IsLowerLetter(e[i])
  }

  predicate AllShaped(es: seq<string>) {
    forall e :: e in es ==> ExtensionShaped(e)
  }

  /** No two alternatives agree on the two letters after the dot, so none is
      a prefix of another. */
  predicate Distinguishable(es: seq<string>) {
    && (forall i :: 0 <= i < |es| ==> |es[i]| >= 3)
    && (forall i, j :: 0 <= i < j < |es| ==> es[i][1] != es[j][1] || es[i][2] != es[j][2])
  }

  lemma ExtensionsShaped()
    ensures AllShaped(Extensions)
  {
    forall e | e in Extensions ensures ExtensionShaped(e) {
      var i :| 0 <= i < |Extensions| && Extensions[i] == e;
      ShapedAt(i);
    }
  }

  lemma ShapedAt(i: nat)
    requires i < |Extensions|
    ensures ExtensionShaped(Extensions[i])
  {
    if i == 0 { assert ExtensionShaped(".service"); }
    else if i == 1 { assert ExtensionShaped(".socket"); }
    else if i == 2 { assert ExtensionShaped(".device"); }
    else if i == 3 { assert ExtensionShaped(".mount"); }
    else if i == 4 { assert ExtensionShaped(".automount"); }
    else if i == 5 { assert ExtensionShaped(".swap"); }
    else if i == 6 { assert ExtensionShaped(".target"); }
    else if i == 7 { assert ExtensionShaped(".path"); }
    else if i == 8 { assert ExtensionShaped(".timer"); }
    else if i == 9 { assert ExtensionShaped(".slice"); }
    else { assert ExtensionShaped(".scope"); }
  }

  lemma ExtensionsDistinguishable()
    ensures Distinguishable(Extensions)
  {
  }

  lemma ExtensionsWellFormed()
    ensures AllShaped(Extensions) && Distinguishable(Extensions)
  {
    ExtensionsShaped();
    ExtensionsDistinguishable();
  }

  /** The alternative the pattern matches at the start of `s`: the first of
      `es`, in order, that `s` starts with. */
  function ExtensionAt(s: string, es: seq<string>): (r: Option<string>)
    ensures r.Some? ==> r.value in es && HasPrefix(s, r.value)
    ensures r.None? ==> forall e :: e in es ==> !HasPrefix(s, e)
  {
    if |es| == 0 then None
    else if HasPrefix(s, es[0]) then Some(es[0])
    else ExtensionAt(s, es[1..])
  }

  /** regexp.ReplaceAllString with the alternation of `es` and "": the text is
      scanned left to right, each match is cut out and the scan resumes right
      after it, so text that only becomes an extension once a match is removed
      stays. */
  function Strip(s: string, es: seq<string>): (r: string)
    requires AllShaped(es)
    ensures |r| <= |s|
    decreases |s|
  {
    if |s| == 0 then ""
    else
      match ExtensionAt(s, es)
      case Some(e) => Strip(s[|e|..], es)
      case None => [s[0]] + Strip(s[1..], es)
  }

  lemma PrefixBeforeNonLetter(a: string, b: string, e: string)
    requires |a| > 0 && ExtensionShaped(e)
    requires |b| > 0 ==> !IsLowerLetter(b[0])
    ensures HasPrefix(a + b, e) <==> HasPrefix(a, e)
  {
    if |e| <= |a| {
      assert (a + b)[..|e|] == a[..|e|];
    } else if |e| <= |a| + |b| {
      assert e[|a|] != (a + b)[|a|];
      assert e[|a|] != (a + b)[..|e|][|a|];
    }
  }

  /** A text that starts with a non-letter cannot complete an extension begun before it. */
  lemma {:induction false} ExtensionAtAppend(a: string, b: string, es: seq<string>)
    requires |a| > 0
    requires |b| > 0 ==> !IsLowerLetter(b[0])
    requires AllShaped(es)
    ensures ExtensionAt(a + b, es) == ExtensionAt(a, es)
  {
    if |es| > 0 {
      assert es[0] in es;
      PrefixBeforeNonLetter(a, b, es[0]);
      assert AllShaped(es[1..]) by {
        forall e | e in es[1..] ensures ExtensionShaped(e) {
          assert e in es;
        }
      }
      ExtensionAtAppend(a, b, es[1..]);
    }
  }

  /** Stripping distributes over a split before a non-letter. */
  lemma {:induction false} StripAppend(a: string, b: string, es: seq<string>)
    requires AllShaped(es)
    requires |b| > 0 ==> !IsLowerLetter(b[0])
    ensures Strip(a + b, es) == Strip(a, es) + Strip(b, es)
    decreases |a|
  {
    if |a| == 0 {
      assert a + b == b;
    } else {
      ExtensionAtAppend(a, b, es);
      match ExtensionAt(a, es)
      case Some(e) =>
        assert (a + b)[|e|..] == a[|e|..] + b;
        StripAppend(a[|e|..], b, es);
      case None =>
        assert (a + b)[0] == a[0];
        assert (a + b)[1..] == a[1..] + b;
        StripAppend(a[1..], b, es);
    }
  }

  /** A text that starts with an alternative is matched by that alternative. */
  lemma {:induction false} ExtensionAtLeading(e: string, q: string, es: seq<string>)
    requires e in es
    requires Distinguishable(es)
    ensures ExtensionAt(e + q, es) == Some(e)
  {
    assert (e + q)[..|e|] == e;
    if es[0] != e {
      var k :| 0 <= k < |es| && es[k] == e;
      assert es[0][1] != e[1] || es[0][2] != e[2];
      if |es[0]| <= |e + q| {
        assert (e + q)[..|es[0]|][1] == e[1] && (e + q)[..|es[0]|][2] == e[2];
      }
      assert e in es[1..] by { assert es[1..][k - 1] == e; }
      ExtensionAtLeading(e, q, es[1..]);
    }
  }

  /** Each alternative on its own disappears entirely. */
  lemma StripOfExtension(e: string, es: seq<string>)
    requires e in es
    requires AllShaped(es) && Distinguishable(es)
    ensures Strip(e, es) == ""
  {
    ExtensionAtLeading(e, "", es);
    assert e + "" == e;
    assert e[|e|..] == "";
  }

  /** A leading alternative is cut off. */
  lemma StripLeading(e: string, q: string, es: seq<string>)
    requires e in es
    requires AllShaped(es) && Distinguishable(es)
    ensures Strip(e + q, es) == Strip(q, es)
  {
    ExtensionAtLeading(e, q, es);
    assert (e + q)[|e|..] == q;
  }

  lemma StripUnmatched(s: string, es: seq<string>)
    requires AllShaped(es)
    requires |s| > 0 && ExtensionAt(s, es).None?
    ensures Strip(s, es) == [s[0]] + Strip(s[1..], es)
  {
  }

  /** A character other than a dot starts no extension and is kept. */
  lemma StripHead(s: string, es: seq<string>)
    requires AllShaped(es)
    requires |s| > 0 && s[0] != '.'
    ensures Strip(s, es) == [s[0]] + Strip(s[1..], es)
  {
  }

  /** A text without a dot is kept as it is. */
  lemma {:induction false} StripNoDot(n: string, es: seq<string>)
    requires AllShaped(es)
    requires '.' !in n
    ensures Strip(n, es) == n
    decreases |n|
  {
    if |n| > 0 {
      assert n[0] in n;
      StripHead(n, es);
      StripNoDot(n[1..], es);
      assert n == [n[0]] + n[1..];
    }
  }

  /** The regular expression of the systemd collector. */
  function StripExtensions(s: string): (r: string)
    ensures |r| <= |s|
  {
    ExtensionsWellFormed();
    Strip(s, Extensions)
  }

  /** A unit's extension is removed from its displayed name. */
  lemma StripExtensionsDropsSuffix(n: string, e: string)
    requires e in Extensions
    ensures StripExtensions(n + e) == StripExtensions(n)
  {
    ExtensionsWellFormed();
    StripAppend(n, e, Extensions);
    StripOfExtension(e, Extensions);
  }

  /** A name without a dot is shown unchanged. */
  lemma StripExtensionsNoDot(n: string)
    requires '.' !in n
    ensures StripExtensions(n) == n
  {
    ExtensionsWellFormed();
    StripNoDot(n, Extensions);
  }

  lemma StripCutsOne(r: string, e: string, q: string, es: seq<string>)
    requires AllShaped(es) && Distinguishable(es)
    requires e in es
    requires '.' !in r && '.' !in q
    ensures Strip(r + (e + q), es) == r + q
  {
    assert e[0] == '.' by { assert ExtensionShaped(e); }
    StripNoDot(r, es);
    StripAppend(r, e + q, es);
    StripLeading(e, q, es);
    StripNoDot(q, es);
  }

  /** The scan is a single pass: when `p + e + q` starts with no alternative and
      only `e` in it is one, cutting `e` out leaves `p + q`, even when `p + q`
      is an alternative itself. */
  lemma StripSinglePass(p: string, e: string, q: string, es: seq<string>)
    requires AllShaped(es) && Distinguishable(es)
    requires e in es
    requires |p| > 0 && p[0] == '.' && '.' !in p[1..] && '.' !in q
    requires ExtensionAt(p + e + q, es).None?
    ensures Strip(p + e + q, es) == p + q
  {
    var s := p + e + q;
    assert s[0] == p[0] && s[1..] == p[1..] + (e + q);
    calc {
      Strip(s, es);
      { StripUnmatched(s, es); }
      [s[0]] + Strip(s[1..], es);
      [p[0]] + Strip(p[1..] + (e + q), es);
      { StripCutsOne(p[1..], e, q, es); }
      [p[0]] + (p[1..] + q);
      { assert [p[0]] + p[1..] == p; }
      p + q;
    }
  }

  /** The name a unit is displayed under. */
  function Display(name: string, hideExt: bool): string {
    if hideExt then StripExtensions(name) else name
  }

  function DisplayFn(hideExt: bool): string -> string {
    n => Display(n, hideExt)
  }

  /** The pattern is applied to the name after the markers are put around it;
      since the markers are not letters, that is the marked-up display name. */
  lemma DisplayWrapped(name: string, hideExt: bool)
    ensures (if hideExt then StripExtensions(Utils.Wrap(name, CommonVars.PadL, CommonVars.PadR))
             else Utils.Wrap(name, CommonVars.PadL, CommonVars.PadR))
            == Utils.Wrap(Display(name, hideExt), CommonVars.PadL, CommonVars.PadR)
  {
    if hideExt {
      var w := Utils.Wrap(name, CommonVars.PadL, CommonVars.PadR);
      ExtensionsWellFormed();
      assert w == "$" + (name + "%");
      StripHead(w, Extensions);
      assert w[1..] == name + "%";
      StripAppend(name, "%", Extensions);
      StripNoDot("%", Extensions);
    }
  }

  // ---------------------------------------------------------------------------
  // Units and their properties

  /** What the checker knows of a unit; "" marks a property not known yet. */
  datatype Unit = Unit(name: string, activeState: string, result: string, execMainStatus: string, loadState: string)

  /** Nothing is known about the unit's state. */
  predicate IsEmpty(u: Unit) {
    u.activeState == "" && u.result == "" && u.execMainStatus == "" && u.loadState == ""
  }

  predicate IsComplete(u: Unit) {
    u.activeState != "" && u.result != "" && u.execMainStatus != "" && u.loadState != ""
  }

  /** A property value as DBus delivers it: a string, a 32-bit integer, or
      anything else (kept only as the text it prints as). */
  datatype Value = Str(s: string) | Int32(i: int) | Other(shown: string)

  /** The outcome of asking DBus for a unit's properties. */
  datatype Fetch = FetchFailed(msg: string) | Props(props: map<string, Value>)

  /** A string property, or "" when it is missing or not a string. */
  function StrProp(props: map<string, Value>, key: string): string {
    if key in props && props[key].Str? then props[key].s else ""
  }

  /** A 32-bit integer property in decimal, or "" when it is missing or not one. */
  function Int32Prop(props: map<string, Value>, key: string): string {
    if key in props && props[key].Int32? then IntToString(props[key].i) else ""
  }

  function Fill(current: string, found: string): string {
    if current == "" then found else current
  }

  /** Every property `u` knows, `v` knows with the same value. */
  predicate Extends(u: Unit, v: Unit) {
    && v.name == u.name
    && (u.activeState != "" ==> v.activeState == u.activeState)
    && (u.result != "" ==> v.result == u.result)
    && (u.execMainStatus != "" ==> v.execMainStatus == u.execMainStatus)
    && (u.loadState != "" ==> v.loadState == u.loadState)
  }

  /** The unit after the fetch, and the fetch error if there was one. */
  datatype Filled = Filled(unit: Unit, err: Option<string>)

  /** systemdUnit.GetProperties: a complete unit is left alone without asking
      DBus; otherwise only its unknown properties are filled in, from values of
      the expected type; a failed fetch leaves the unit as it was. */
  function GetProperties(u: Unit, fetch: string -> Fetch): (r: Filled)
    ensures Extends(u, r.unit)
    ensures IsComplete(u) ==> r == Filled(u, None)
    ensures r.err.Some? <==> !IsComplete(u) && fetch(u.name).FetchFailed?
    ensures r.err.Some? ==> r.unit == u && r.err.value == fetch(u.name).msg
  {
    if IsComplete(u) then Filled(u, None)
    else
      match fetch(u.name)
      case FetchFailed(msg) => Filled(u, Some(msg))
      case Props(p) =>
        Filled(Unit(u.name,
                    Fill(u.activeState, StrProp(p, "ActiveState")),
                    Fill(u.result, StrProp(p, "Result")),
                    Fill(u.execMainStatus, Int32Prop(p, "ExecMainStatus")),
                    Fill(u.loadState, StrProp(p, "LoadState"))), None)
  }

  /** A unit known only by name takes its properties straight from DBus. */
  lemma GetPropertiesOfNamed(name: string, fetch: string -> Fetch)
    requires fetch(name).Props?
    ensures var p := fetch(name).props;
      GetProperties(Unit(name, "", "", "", ""), fetch)
        == Filled(Unit(name, StrProp(p, "ActiveState"), StrProp(p, "Result"),
                       Int32Prop(p, "ExecMainStatus"), StrProp(p, "LoadState")), None)
  {
  }

  /** Fetching again changes nothing. */
  lemma GetPropertiesIdempotent(u: Unit, fetch: string -> Fetch)
    ensures var v := GetProperties(u, fetch).unit;
      GetProperties(v, fetch).unit == v
  {
  }

  // ---------------------------------------------------------------------------
  // Classification

  /** The line a unit prints: whether it counts as good, its colour and its token. */
  datatype Verdict = Verdict(good: bool, tone: Utils.Tone, value: string)

  /** A unit that is not loaded is failed with its load state in red; an active
      one is good; an inactive one that exited with status 0 is good (showing
      its result) when inactive units are accepted and otherwise failed in
      yellow; anything else is failed with its active state in red. */
  function Judge(u: Unit, inactiveOK: bool): (v: Verdict)
    ensures v.good <==> u.loadState == "loaded" && (u.activeState == "active" || (u.execMainStatus == "0" && inactiveOK))
    ensures v.good <==> v.tone == Utils.Good
    ensures v.tone == Utils.Warn <==> u.loadState == "loaded" && u.activeState != "active" && u.execMainStatus == "0" && !inactiveOK
    ensures v.value == (if u.loadState != "loaded" then u.loadState
                        else if u.activeState != "active" && u.execMainStatus == "0" && inactiveOK then u.result
                        else u.activeState)
  {
    if u.loadState != "loaded" then Verdict(false, Utils.Err, u.loadState)
    else if u.activeState == "active" then Verdict(true, Utils.Good, u.activeState)
    else if u.execMainStatus == "0" then
      if inactiveOK then Verdict(true, Utils.Good, u.result)
      else Verdict(false, Utils.Warn, u.activeState)
    else Verdict(false, Utils.Err, u.activeState)
  }

  function NameOf(u: Unit): string {
    u.name
  }

  function Names(us: seq<Unit>): (r: seq<string>)
    ensures |r| == |us|
    ensures forall i :: 0 <= i < |us| ==> r[i] == us[i].name
  {
    seq(|us|, i requires 0 <= i < |us| => us[i].name)
  }

  function UnitMark(u: Unit, hideExt: bool, inactiveOK: bool): Mark {
    var v := Judge(u, inactiveOK);
    Mark(u.name, v.good, Item(Display(u.name, hideExt), v.tone, v.value, ""))
  }

  /** The marks of the units something is known about, in order. */
  function UnitMarks(us: seq<Unit>, hideExt: bool, inactiveOK: bool): (ms: seq<Mark>)
    ensures |ms| <= |us|
    ensures forall m :: m in ms <==> exists u :: u in us && !IsEmpty(u) && m == UnitMark(u, hideExt, inactiveOK)
    ensures MarksNamedBy(ms, DisplayFn(hideExt))
  {
    if |us| == 0 then []
    else
      var here := if IsEmpty(us[0]) then [] else [UnitMark(us[0], hideExt, inactiveOK)];
      var rest := UnitMarks(us[1..], hideExt, inactiveOK);
      assert forall u :: u in us <==> u == us[0] || u in us[1..];
      here + rest
  }

  predicate JudgedGood(us: seq<Unit>, inactiveOK: bool) {
    exists u :: u in us && !IsEmpty(u) && Judge(u, inactiveOK).good
  }

  predicate JudgedFailed(us: seq<Unit>, inactiveOK: bool) {
    exists u :: u in us && !IsEmpty(u) && !Judge(u, inactiveOK).good
  }

  lemma UnitMarksSome(us: seq<Unit>, hideExt: bool, inactiveOK: bool)
    ensures SomeGood(UnitMarks(us, hideExt, inactiveOK)) <==> JudgedGood(us, inactiveOK)
    ensures SomeFailed(UnitMarks(us, hideExt, inactiveOK)) <==> JudgedFailed(us, inactiveOK)
  {
    var ms := UnitMarks(us, hideExt, inactiveOK);
    if JudgedGood(us, inactiveOK) {
      var u :| u in us && !IsEmpty(u) && Judge(u, inactiveOK).good;
      assert UnitMark(u, hideExt, inactiveOK) in ms;
      var i :| 0 <= i < |ms| && ms[i] == UnitMark(u, hideExt, inactiveOK);
    }
    if JudgedFailed(us, inactiveOK) {
      var u :| u in us && !IsEmpty(u) && !Judge(u, inactiveOK).good;
      assert UnitMark(u, hideExt, inactiveOK) in ms;
      var i :| 0 <= i < |ms| && ms[i] == UnitMark(u, hideExt, inactiveOK);
    }
    if SomeGood(ms) {
      var i :| 0 <= i < |ms| && ms[i].good;
      assert ms[i] in ms;
    }
    if SomeFailed(ms) {
      var i :| 0 <= i < |ms| && !ms[i].good;
      assert ms[i] in ms;
    }
  }

  // ---------------------------------------------------------------------------
  // Collecting and reporting

  /** A unit as the list of failed units reports it. */
  datatype ListedUnit = ListedUnit(name: string, activeState: string, loadState: string)

  /** ConfSystemd without its pads: the warn-only override (nil when unset),
      the configured units and the three switches. */
  datatype SystemdConf = SystemdConf(warnOnly: Option<bool>, units: seq<string>, hideExt: bool, inactiveOK: bool, showFailed: bool)

  /** The units to check: those DBus lists as failed (when asked for), with
      their active and load state, then the configured ones by name only. */
  function Collected(c: SystemdConf, listFailed: seq<ListedUnit>): (us: seq<Unit>)
    ensures |us| == (if c.showFailed then |listFailed| else 0) + |c.units|
    ensures c.showFailed ==> forall i :: 0 <= i < |listFailed| ==>
      us[i] == Unit(listFailed[i].name, listFailed[i].activeState, "", "", listFailed[i].loadState)
    ensures forall i :: 0 <= i < |c.units| ==> us[|us| - |c.units| + i] == Unit(c.units[i], "", "", "", "")
  {
    var failed :=
      if c.showFailed then
        seq(|listFailed|, i requires 0 <= i < |listFailed| =>
          Unit(listFailed[i].name, listFailed[i].activeState, "", "", listFailed[i].loadState))
      else [];
    failed + seq(|c.units|, i requires 0 <= i < |c.units| => Unit(c.units[i], "", "", "", ""))
  }

  /** Every unit after its properties were fetched. */
  function Refreshed(us: seq<Unit>, fetch: string -> Fetch): (r: seq<Unit>)
    ensures |r| == |us|
    ensures forall i :: 0 <= i < |us| ==> r[i] == GetProperties(us[i], fetch).unit
  {
    seq(|us|, i requires 0 <= i < |us| => GetProperties(us[i], fetch).unit)
  }

  function PropertyError(name: string, msg: string): Line {
    Raw("Failed to get properties for " + name + ": " + msg + "\n")
  }

  /** One error line per unit whose fetch failed, in the order the units were collected. */
  function Errors(us: seq<Unit>, fetch: string -> Fetch): (r: seq<Line>)
    ensures |r| <= |us|
    ensures |r| == 0 <==> forall u :: u in us ==> GetProperties(u, fetch).err.None?
    ensures forall l :: l in r ==>
      (exists u :: u in us && GetProperties(u, fetch).err.Some?
         && l == PropertyError(u.name, GetProperties(u, fetch).err.value))
  {
    if |us| == 0 then []
    else
      var f := GetProperties(us[0], fetch);
      var here := if f.err.Some? then [PropertyError(us[0].name, f.err.value)] else [];
      var rest := Errors(us[1..], fetch);
      assert forall u :: u in us <==> u == us[0] || u in us[1..];
      here + rest
  }

  /** The fetched units in name order. */
  function Checked(c: SystemdConf, listFailed: seq<ListedUnit>, fetch: string -> Fetch): seq<Unit> {
    SortBy(Refreshed(Collected(c, listFailed), fetch), NameOf)
  }

  /** The warn-only flag in force: the override, else the global flag. */
  function WarnOnly(c: SystemdConf, global: bool): bool {
    c.warnOnly.GetOr(global)
  }

  function StatusOK(): Line {
    SeverityHeader("Systemd", OK, Lower)
  }

  /** GetSystemd and getServiceStatus. `connected` says whether the DBus
      connection opened, `listFailed` is DBus's list of failed units and
      `fetch` its per-unit property query. */
  function GetServiceStatus(c: SystemdConf, global: bool, connected: bool, listFailed: seq<ListedUnit>, fetch: string -> Fetch): Output {
    var warnOnly := WarnOnly(c, global);
    if !connected then Output(Notice("Systemd", Utils.Err, "DBus failed"), [])
    else if |c.units| == 0 && !c.showFailed then Output(Notice("Systemd", Utils.Warn, "unconfigured"), [])
    else
      var units := Collected(c, listFailed);
      var checked := Checked(c, listFailed, fetch);
      var ms := UnitMarks(checked, c.hideExt, c.inactiveOK);
      var header := StatusHeader("Systemd", ms, |units|);
      if header == StatusOK() && warnOnly then Output(header, [])
      else Output(header, Listing(Names(checked), GoodMap(ms), FailedMap(ms), warnOnly) + Errors(units, fetch))
  }

  /** Something is known about a unit of that name, and it failed when good ones are hidden. */
  predicate UnitListed(us: seq<Unit>, n: string, hideGood: bool, inactiveOK: bool) {
    exists u :: u in us && !IsEmpty(u) && u.name == n && (hideGood ==> !Judge(u, inactiveOK).good)
  }

  /** Reordering the units changes none of the questions asked about them. */
  lemma PermutedUnits(us: seq<Unit>, vs: seq<Unit>, inactiveOK: bool, hideGood: bool, n: string)
    requires multiset(us) == multiset(vs)
    ensures JudgedGood(us, inactiveOK) <==> JudgedGood(vs, inactiveOK)
    ensures JudgedFailed(us, inactiveOK) <==> JudgedFailed(vs, inactiveOK)
    ensures UnitListed(us, n, hideGood, inactiveOK) <==> UnitListed(vs, n, hideGood, inactiveOK)
  {
    assert forall u :: u in us <==> u in multiset(us);
    assert forall u :: u in vs <==> u in multiset(vs);
  }

  /** The DBus failure and the empty configuration each give a fixed header and no content. */
  lemma ServiceStatusNotices(c: SystemdConf, global: bool, connected: bool, listFailed: seq<ListedUnit>, fetch: string -> Fetch)
    ensures var o := GetServiceStatus(c, global, connected, listFailed, fetch);
      && (!connected ==> o == Output(Notice("Systemd", Utils.Err, "DBus failed"), []))
      && (connected && |c.units| == 0 && !c.showFailed ==> o == Output(Notice("Systemd", Utils.Warn, "unconfigured"), []))
  {
  }

  /** The header: "critical" exactly when no known unit is good (also when
      there are no units at all), "OK" when some are good and none failed, and
      "warning" when both occur. With warn-only in force and the header OK,
      nothing is listed, not even the property errors. */
  lemma ServiceStatusHeader(c: SystemdConf, global: bool, listFailed: seq<ListedUnit>, fetch: string -> Fetch)
    requires |c.units| > 0 || c.showFailed
    ensures var us := Refreshed(Collected(c, listFailed), fetch);
      var o := GetServiceStatus(c, global, true, listFailed, fetch);
      && (o.header == SeverityHeader("Systemd", Critical, Lower) <==> !JudgedGood(us, c.inactiveOK))
      && (o.header == StatusOK() <==> JudgedGood(us, c.inactiveOK) && !JudgedFailed(us, c.inactiveOK))
      && (o.header == SeverityHeader("Systemd", Warning, Lower) <==> JudgedGood(us, c.inactiveOK) && JudgedFailed(us, c.inactiveOK))
      && (o.header == StatusOK() && WarnOnly(c, global) ==> o.content == [])
  {
    var us := Refreshed(Collected(c, listFailed), fetch);
    var checked := Checked(c, listFailed, fetch);
    var ms := UnitMarks(checked, c.hideExt, c.inactiveOK);
    StatusHeaderSpec("Systemd", ms, |us|);
    UnitMarksSome(checked, c.hideExt, c.inactiveOK);
    PermutedUnits(us, checked, c.inactiveOK, false, "");
  }

  /** Unless the early return applies, the property errors come last, in the order the units were collected. */
  lemma ServiceStatusErrorsLast(c: SystemdConf, global: bool, listFailed: seq<ListedUnit>, fetch: string -> Fetch)
    requires |c.units| > 0 || c.showFailed
    requires GetServiceStatus(c, global, true, listFailed, fetch).header != StatusOK() || !WarnOnly(c, global)
    ensures var o := GetServiceStatus(c, global, true, listFailed, fetch);
      var errs := Errors(Collected(c, listFailed), fetch);
      |errs| <= |o.content| && o.content[|o.content| - |errs|..] == errs
  {
  }

  lemma CheckedSorted(c: SystemdConf, listFailed: seq<ListedUnit>, fetch: string -> Fetch)
    ensures Sorted(Names(Checked(c, listFailed, fetch)))
  {
    var checked := Checked(c, listFailed, fetch);
    assert SortedBy(checked, NameOf);
    forall i, j | 0 <= i < j < |checked| ensures LessEq(Names(checked)[i], Names(checked)[j]) {
      assert LessEq(NameOf(checked[i]), NameOf(checked[j]));
    }
  }

  lemma UnitMarksListed(us: seq<Unit>, n: string, hideGood: bool, hideExt: bool, inactiveOK: bool)
    ensures Listed(UnitMarks(us, hideExt, inactiveOK), n, hideGood) <==> UnitListed(us, n, hideGood, inactiveOK)
  {
    var ms := UnitMarks(us, hideExt, inactiveOK);
    if UnitListed(us, n, hideGood, inactiveOK) {
      var u :| u in us && !IsEmpty(u) && u.name == n && (hideGood ==> !Judge(u, inactiveOK).good);
      assert UnitMark(u, hideExt, inactiveOK) in ms;
      var i :| 0 <= i < |ms| && ms[i] == UnitMark(u, hideExt, inactiveOK);
    }
    if Listed(ms, n, hideGood) {
      var i :| 0 <= i < |ms| && ms[i].key == n && (hideGood ==> !ms[i].good);
      assert ms[i] in ms;
    }
  }

  lemma UnitListedNamed(us: seq<Unit>, n: string, hideGood: bool, inactiveOK: bool)
    requires UnitListed(us, n, hideGood, inactiveOK)
    ensures n in Names(us)
  {
    var u :| u in us && !IsEmpty(u) && u.name == n && (hideGood ==> !Judge(u, inactiveOK).good);
    var i :| 0 <= i < |us| && us[i] == u;
    assert Names(us)[i] == n;
  }

  /** Before the property errors, one line per listed unit: the listed units
      are those something is known about, only the failed ones under warn-only;
      they come in ascending order of unit name (one line per occurrence), each
      printed under its display name. */
  lemma ServiceStatusNames(c: SystemdConf, global: bool, listFailed: seq<ListedUnit>, fetch: string -> Fetch, n: string)
    requires |c.units| > 0 || c.showFailed
    requires GetServiceStatus(c, global, true, listFailed, fetch).header != StatusOK() || !WarnOnly(c, global)
    ensures var o := GetServiceStatus(c, global, true, listFailed, fetch);
      var errs := Errors(Collected(c, listFailed), fetch);
      var us := Refreshed(Collected(c, listFailed), fetch);
      exists keys ::
        && Sorted(keys)
        && Labels(o.content[..|o.content| - |errs|]) == Rename(keys, DisplayFn(c.hideExt))
        && (n in keys <==> UnitListed(us, n, WarnOnly(c, global), c.inactiveOK))
  {
    var warnOnly := WarnOnly(c, global);
    var o := GetServiceStatus(c, global, true, listFailed, fetch);
    var errs := Errors(Collected(c, listFailed), fetch);
    var us := Refreshed(Collected(c, listFailed), fetch);
    var checked := Checked(c, listFailed, fetch);
    var ms := UnitMarks(checked, c.hideExt, c.inactiveOK);
    var listing := Listing(Names(checked), GoodMap(ms), FailedMap(ms), warnOnly);
    assert o.content == listing + errs;
    assert o.content[..|o.content| - |errs|] == listing;
    var keys := KeepOnly(Names(checked), Tally.Shown(GoodMap(ms), FailedMap(ms), warnOnly));
    ListingOfMarks(Names(checked), ms, warnOnly, DisplayFn(c.hideExt), n);
    CheckedSorted(c, listFailed, fetch);
    KeepOnlySorted(Names(checked), Tally.Shown(GoodMap(ms), FailedMap(ms), warnOnly));
    UnitMarksListed(checked, n, warnOnly, c.hideExt, c.inactiveOK);
    PermutedUnits(us, checked, c.inactiveOK, warnOnly, n);
    if UnitListed(checked, n, warnOnly, c.inactiveOK) {
      UnitListedNamed(checked, n, warnOnly, c.inactiveOK);
    }
  }

  /** A line of the listing over some units is the line of one of them. */
  lemma ListedUnitLine(us: seq<Unit>, hideExt: bool, inactiveOK: bool, hideGood: bool, l: Line)
    requires var ms := UnitMarks(us, hideExt, inactiveOK);
      l in Listing(Names(us), GoodMap(ms), FailedMap(ms), hideGood)
    ensures exists u :: u in us && !IsEmpty(u) && l == UnitMark(u, hideExt, inactiveOK).line && (hideGood ==> !Judge(u, inactiveOK).good)
  {
    var ms := UnitMarks(us, hideExt, inactiveOK);
    ListingFrom(Names(us), ms, hideGood, l);
    var i :| 0 <= i < |ms| && ms[i].line == l && (hideGood ==> !ms[i].good);
    assert ms[i] in ms;
    var u :| u in us && !IsEmpty(u) && ms[i] == UnitMark(u, hideExt, inactiveOK);
  }

  /** Every line before the property errors is the line of a unit something is
      known about, and of a failed one under warn-only. */
  lemma ServiceStatusLines(c: SystemdConf, global: bool, listFailed: seq<ListedUnit>, fetch: string -> Fetch, l: Line)
    requires |c.units| > 0 || c.showFailed
    requires GetServiceStatus(c, global, true, listFailed, fetch).header != StatusOK() || !WarnOnly(c, global)
    requires var o := GetServiceStatus(c, global, true, listFailed, fetch);
      l in o.content[..|o.content| - |Errors(Collected(c, listFailed), fetch)|]
    ensures exists u ::
      (&& u in Refreshed(Collected(c, listFailed), fetch) && !IsEmpty(u)
       && l == UnitMark(u, c.hideExt, c.inactiveOK).line
       && (WarnOnly(c, global) ==> !Judge(u, c.inactiveOK).good))
  {
    var warnOnly := WarnOnly(c, global);
    var o := GetServiceStatus(c, global, true, listFailed, fetch);
    var errs := Errors(Collected(c, listFailed), fetch);
    var us := Refreshed(Collected(c, listFailed), fetch);
    var checked := Checked(c, listFailed, fetch);
    var ms := UnitMarks(checked, c.hideExt, c.inactiveOK);
    var listing := Listing(Names(checked), GoodMap(ms), FailedMap(ms), warnOnly);
    assert o.content == listing + errs;
    assert o.content[..|o.content| - |errs|] == listing;
    ListedUnitLine(checked, c.hideExt, c.inactiveOK, warnOnly, l);
    var u :| u in checked && !IsEmpty(u) && l == UnitMark(u, c.hideExt, c.inactiveOK).line && (warnOnly ==> !Judge(u, c.inactiveOK).good);
    assert u in multiset(checked);
  }
}
