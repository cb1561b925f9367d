/** The good/failed bookkeeping shared by the container and systemd collectors.
    Each collector walks its items, writes `goodX[name] = line` or
    `failedX[name] = line` (so a repeated name keeps its LAST line in each map),
    appends every name to a list once per occurrence, and at the end prints the
    sorted list, looking each name up in the maps. */
module Tally {
  import opened Report
  import opened Sorting
  import Utils
  import opened Severity

  /** One classified item: its name, whether it counts as good, and the line it prints. */
  datatype Mark = Mark(key: string, good: bool, line: Line)

  function GoodMap(ms: seq<Mark>): (m: map<string, Line>)
    ensures forall k :: k in m <==> exists i :: 0 <= i < |ms| && ms[i].key == k && ms[i].good
  {
    if |ms| == 0 then map[]
    else
      var last := ms[|ms| - 1];
      var rest := GoodMap(ms[..|ms| - 1]);
      if last.good then rest[last.key := last.line] else rest
  }

  function FailedMap(ms: seq<Mark>): (m: map<string, Line>)
    ensures forall k :: k in m <==> exists i :: 0 <= i < |ms| && ms[i].key == k && !ms[i].good
  {
    if |ms| == 0 then map[]
    else
      var last := ms[|ms| - 1];
      var rest := FailedMap(ms[..|ms| - 1]);
      if !last.good then rest[last.key := last.line] else rest
  }

  /** A later occurrence overwrites an earlier one on the same side: the map keeps
      the last line written for each name. */
  lemma GoodMapAppend(ms: seq<Mark>, m: Mark)
    ensures GoodMap(ms + [m]) == if m.good then GoodMap(ms)[m.key := m.line] else GoodMap(ms)
  {
    assert (ms + [m])[..|ms|] == ms;
  }

  lemma FailedMapAppend(ms: seq<Mark>, m: Mark)
    ensures FailedMap(ms + [m]) == if !m.good then FailedMap(ms)[m.key := m.line] else FailedMap(ms)
  {
    assert (ms + [m])[..|ms|] == ms;
  }

  /** Every entry of a map is the line of some item of that name on that side. */
  lemma {:induction false} GoodMapFrom(ms: seq<Mark>, k: string)
    requires k in GoodMap(ms)
    ensures Mark(k, true, GoodMap(ms)[k]) in ms
  {
    var last := ms[|ms| - 1];
    if !(last.good && last.key == k) {
      GoodMapFrom(ms[..|ms| - 1], k);
      assert ms == ms[..|ms| - 1] + [last];
    }
  }

  lemma {:induction false} FailedMapFrom(ms: seq<Mark>, k: string)
    requires k in FailedMap(ms)
    ensures Mark(k, false, FailedMap(ms)[k]) in ms
  {
    var last := ms[|ms| - 1];
    if !(!last.good && last.key == k) {
      FailedMapFrom(ms[..|ms| - 1], k);
      assert ms == ms[..|ms| - 1] + [last];
    }
  }

  /** The two maps together have no more entries than there were items, so once
      something is good the failed map is strictly smaller than the item list. */
  lemma {:induction false} MapSizes(ms: seq<Mark>)
    ensures |GoodMap(ms)| + |FailedMap(ms)| <= |ms|
  {
    if |ms| > 0 {
      MapSizes(ms[..|ms| - 1]);
      var last := ms[|ms| - 1];
      var g := GoodMap(ms[..|ms| - 1]);
      var f := FailedMap(ms[..|ms| - 1]);
      if last.good {
        assert GoodMap(ms).Keys <= g.Keys + {last.key};
        assert FailedMap(ms) == f;
      } else {
        assert FailedMap(ms).Keys <= f.Keys + {last.key};
        assert GoodMap(ms) == g;
      }
    }
  }

  lemma FailedSmallerWhenSomeGood(ms: seq<Mark>)
    requires |GoodMap(ms)| > 0
    ensures |FailedMap(ms)| < |ms|
  {
    MapSizes(ms);
  }

  function Keys(ms: seq<Mark>): (r: seq<string>)
    ensures |r| == |ms|
    ensures forall i :: 0 <= i < |ms| ==> r[i] == ms[i].key
  {
    seq(|ms|, i requires 0 <= i < |ms| => ms[i].key)
  }

  /** The print loop: for each name, its good line unless good lines are hidden,
      else its failed line, else nothing. */
  function Listing(names: seq<string>, good: map<string, Line>, failed: map<string, Line>, hideGood: bool): (r: seq<Line>)
    ensures |r| <= |names|
  {
    if |names| == 0 then []
    else
      var n := names[0];
      var here := if n in good && !hideGood then [good[n]] else if n in failed then [failed[n]] else [];
      here + Listing(names[1..], good, failed, hideGood)
  }

  /** The names that get a line. */
  function Shown(good: map<string, Line>, failed: map<string, Line>, hideGood: bool): set<string> {
    if hideGood then failed.Keys else good.Keys + failed.Keys
  }

  /** With good lines hidden and nothing failed, nothing is printed. */
  lemma ListingNothingFailed(names: seq<string>, good: map<string, Line>)
    ensures Listing(names, good, map[], true) == []
  {
  }

  /** Every printed line is a good-map line (only when good lines are shown) or a failed-map line. */
  lemma ListingFromMaps(names: seq<string>, good: map<string, Line>, failed: map<string, Line>, hideGood: bool)
    ensures forall l :: l in Listing(names, good, failed, hideGood) ==>
      (!hideGood && l in good.Values) || l in failed.Values
  {
  }

  /** Every line of a map is printed under the display name of its key. */
  predicate NamedBy(m: map<string, Line>, display: string -> string) {
    forall k :: k in m ==> Label(m[k]) == display(k)
  }

  function Rename(s: seq<string>, display: string -> string): (r: seq<string>)
    ensures |r| == |s|
    ensures forall i :: 0 <= i < |s| ==> r[i] == display(s[i])
  {
    seq(|s|, i requires 0 <= i < |s| => display(s[i]))
  }

  lemma RenameCons(n: string, s: seq<string>, display: string -> string)
    ensures Rename([n] + s, display) == [display(n)] + Rename(s, display)
  {
  }

  lemma LabelsAppend(a: seq<Line>, b: seq<Line>)
    ensures Labels(a + b) == Labels(a) + Labels(b)
  {
  }

  /** The printed names are the display names of the shown names, in list order. */
  lemma {:induction false} ListingLabels(names: seq<string>, good: map<string, Line>, failed: map<string, Line>, hideGood: bool, display: string -> string)
    requires NamedBy(good, display) && NamedBy(failed, display)
    ensures Labels(Listing(names, good, failed, hideGood)) == Rename(KeepOnly(names, Shown(good, failed, hideGood)), display)
  {
    if |names| > 0 {
      var n := names[0];
      var sh := Shown(good, failed, hideGood);
      var here := if n in good && !hideGood then [good[n]] else if n in failed then [failed[n]] else [];
      var rest := Listing(names[1..], good, failed, hideGood);
      var kept := KeepOnly(names[1..], sh);
      assert Listing(names, good, failed, hideGood) == here + rest;
      LabelsAppend(here, rest);
      ListingLabels(names[1..], good, failed, hideGood, display);
      if n in sh {
        assert KeepOnly(names, sh) == [n] + kept;
        RenameCons(n, kept, display);
        assert Labels(here) == [display(n)];
      } else {
        assert KeepOnly(names, sh) == kept;
        assert here == [];
        assert Labels(here) + Labels(rest) == Labels(rest);
      }
    }
  }

  /** With lines printed under their own names, the printed names are the shown names in list order. */
  lemma ListingLabelsSelf(names: seq<string>, good: map<string, Line>, failed: map<string, Line>, hideGood: bool)
    requires NamedBy(good, Id) && NamedBy(failed, Id)
    ensures Labels(Listing(names, good, failed, hideGood)) == KeepOnly(names, Shown(good, failed, hideGood))
  {
    ListingLabels(names, good, failed, hideGood, Id);
  }

  /** The content a collector prints: its names sorted with sort.Strings, each
      looked up in the good and failed maps. */
  function Lines(ms: seq<Mark>, hideGood: bool): seq<Line> {
    Listing(SortStrings(Keys(ms)), GoodMap(ms), FailedMap(ms), hideGood)
  }

  /** Looking a list of names up in the maps of items printed under display
      names: the printed names are the display names of the listed names, in
      list order. */
  lemma ListingOfMarks(names: seq<string>, ms: seq<Mark>, hideGood: bool, display: string -> string, n: string)
    requires MarksNamedBy(ms, display)
    ensures var shown := KeepOnly(names, Shown(GoodMap(ms), FailedMap(ms), hideGood));
      && Labels(Listing(names, GoodMap(ms), FailedMap(ms), hideGood)) == Rename(shown, display)
      && (n in shown <==> n in names && Listed(ms, n, hideGood))
  {
    NamedMaps(ms, display);
    ListingLabels(names, GoodMap(ms), FailedMap(ms), hideGood, display);
    ShownIsListed(ms, hideGood, n);
  }

  /** Every line is printed under the display name of its item's key. */
  predicate MarksNamedBy(ms: seq<Mark>, display: string -> string) {
    forall i :: 0 <= i < |ms| ==> Label(ms[i].line) == display(ms[i].key)
  }

  predicate MarksSelfNamed(ms: seq<Mark>) {
    MarksNamedBy(ms, Id)
  }

  lemma NamedMaps(ms: seq<Mark>, display: string -> string)
    requires MarksNamedBy(ms, display)
    ensures NamedBy(GoodMap(ms), display) && NamedBy(FailedMap(ms), display)
  {
    forall k | k in GoodMap(ms) ensures Label(GoodMap(ms)[k]) == display(k) {
      GoodMapFrom(ms, k);
    }
    forall k | k in FailedMap(ms) ensures Label(FailedMap(ms)[k]) == display(k) {
      FailedMapFrom(ms, k);
    }
  }

  /** A name gets a line when some item carries it, and, with good lines hidden,
      when some item of that name failed. */
  predicate Listed(ms: seq<Mark>, n: string, hideGood: bool) {
    exists i :: 0 <= i < |ms| && ms[i].key == n && (hideGood ==> !ms[i].good)
  }

  lemma ShownIsListed(ms: seq<Mark>, hideGood: bool, n: string)
    ensures n in Shown(GoodMap(ms), FailedMap(ms), hideGood) <==> Listed(ms, n, hideGood)
  {
    if Listed(ms, n, hideGood) {
      var i :| 0 <= i < |ms| && ms[i].key == n && (hideGood ==> !ms[i].good);
      if ms[i].good { assert n in GoodMap(ms); } else { assert n in FailedMap(ms); }
    }
  }

  /** The printed names come out in ascending order. */
  lemma LinesSorted(ms: seq<Mark>, hideGood: bool)
    requires MarksSelfNamed(ms)
    ensures Sorted(Labels(Lines(ms, hideGood)))
  {
    var names := SortStrings(Keys(ms));
    NamedMaps(ms, Id);
    ListingLabelsSelf(names, GoodMap(ms), FailedMap(ms), hideGood);
    KeepOnlySorted(names, Shown(GoodMap(ms), FailedMap(ms), hideGood));
  }

  /** A name is printed exactly when it is listed, and as many times as items carry it. */
  lemma LinesNames(ms: seq<Mark>, hideGood: bool, n: string)
    requires MarksSelfNamed(ms)
    ensures n in Labels(Lines(ms, hideGood)) <==> Listed(ms, n, hideGood)
    ensures multiset(Labels(Lines(ms, hideGood)))[n] == if Listed(ms, n, hideGood) then multiset(Keys(ms))[n] else 0
  {
    var names := SortStrings(Keys(ms));
    var sh := Shown(GoodMap(ms), FailedMap(ms), hideGood);
    NamedMaps(ms, Id);
    ListingLabelsSelf(names, GoodMap(ms), FailedMap(ms), hideGood);
    ShownIsListed(ms, hideGood, n);
    KeepOnlyMultiset(names, sh, n);
  }

  /** Every printed line is the line of some item, and of a failed one when good lines are hidden. */
  lemma LinesFrom(ms: seq<Mark>, hideGood: bool, l: Line)
    requires l in Lines(ms, hideGood)
    ensures exists i :: 0 <= i < |ms| && ms[i].line == l && (hideGood ==> !ms[i].good)
  {
    ListingFrom(SortStrings(Keys(ms)), ms, hideGood, l);
  }

  /** The same for any list of names looked up in the maps. */
  lemma ListingFrom(names: seq<string>, ms: seq<Mark>, hideGood: bool, l: Line)
    requires l in Listing(names, GoodMap(ms), FailedMap(ms), hideGood)
    ensures exists i :: 0 <= i < |ms| && ms[i].line == l && (hideGood ==> !ms[i].good)
  {
    var good := GoodMap(ms);
    var failed := FailedMap(ms);
    ListingFromMaps(names, good, failed, hideGood);
    if !hideGood && l in good.Values {
      var k :| k in good && good[k] == l;
      GoodMapFrom(ms, k);
    } else {
      var k :| k in failed && failed[k] == l;
      FailedMapFrom(ms, k);
    }
  }

  /** What a collector saw of one item: its name, the status text it prints,
      and whether that status counts as good. Good items print green, the
      others red. */
  datatype Seen = Seen(name: string, value: string, good: bool)

  function MarkOf(s: Seen): Mark {
    Mark(s.name, s.good, Item(s.name, if s.good then Utils.Good else Utils.Err, s.value, ""))
  }

  function MarksOf(ss: seq<Seen>): (ms: seq<Mark>)
    ensures |ms| == |ss|
    ensures forall i :: 0 <= i < |ss| ==> ms[i] == MarkOf(ss[i])
  {
    seq(|ss|, i requires 0 <= i < |ss| => MarkOf(ss[i]))
  }

  predicate AnyGood(ss: seq<Seen>) {
    exists s :: s in ss && s.good
  }

  predicate AnyFailed(ss: seq<Seen>) {
    exists s :: s in ss && !s.good
  }

  /** The good map is empty exactly when nothing seen was good, and likewise for failed. */
  lemma MapsEmpty(ss: seq<Seen>)
    ensures |GoodMap(MarksOf(ss))| == 0 <==> !AnyGood(ss)
    ensures |FailedMap(MarksOf(ss))| == 0 <==> !AnyFailed(ss)
  {
    var ms := MarksOf(ss);
    if AnyGood(ss) {
      var s :| s in ss && s.good;
      var i :| 0 <= i < |ss| && ss[i] == s;
      assert ms[i].good;
      assert s.name in GoodMap(ms);
    }
    if AnyFailed(ss) {
      var s :| s in ss && !s.good;
      var i :| 0 <= i < |ss| && ss[i] == s;
      assert !ms[i].good;
      assert s.name in FailedMap(ms);
    }
    if |GoodMap(ms)| != 0 {
      var k :| k in GoodMap(ms);
      var i :| 0 <= i < |ms| && ms[i].key == k && ms[i].good;
      assert ss[i] in ss;
    }
    if |FailedMap(ms)| != 0 {
      var k :| k in FailedMap(ms);
      var i :| 0 <= i < |ms| && ms[i].key == k && !ms[i].good;
      assert ss[i] in ss;
    }
  }

  lemma MarksOfNamed(ss: seq<Seen>)
    ensures MarksSelfNamed(MarksOf(ss))
  {
  }

  lemma MarksOfListed(ss: seq<Seen>, n: string, hideGood: bool)
    ensures Listed(MarksOf(ss), n, hideGood) <==> exists s :: s in ss && s.name == n && (hideGood ==> !s.good)
  {
    var ms := MarksOf(ss);
    if Listed(ms, n, hideGood) {
      var i :| 0 <= i < |ms| && ms[i].key == n && (hideGood ==> !ms[i].good);
      assert ss[i] in ss;
    }
    if exists s :: s in ss && s.name == n && (hideGood ==> !s.good) {
      var s :| s in ss && s.name == n && (hideGood ==> !s.good);
      var i :| 0 <= i < |ss| && ss[i] == s;
      assert ms[i].key == n;
    }
  }

  /** The content over what was seen: ascending names, each printed exactly when
      something of that name was seen (and failed, when good lines are hidden). */
  lemma SeenNames(ss: seq<Seen>, hideGood: bool, n: string)
    ensures Sorted(Labels(Lines(MarksOf(ss), hideGood)))
    ensures n in Labels(Lines(MarksOf(ss), hideGood)) <==> exists s :: s in ss && s.name == n && (hideGood ==> !s.good)
  {
    MarksOfNamed(ss);
    LinesSorted(MarksOf(ss), hideGood);
    LinesNames(MarksOf(ss), hideGood, n);
    MarksOfListed(ss, n, hideGood);
  }

  /** Every content line shows one seen item's status in its colour, and a
      failed one when good lines are hidden. */
  lemma SeenLine(ss: seq<Seen>, hideGood: bool, l: Line)
    requires l in Lines(MarksOf(ss), hideGood)
    ensures exists s :: s in ss && l == MarkOf(s).line && (hideGood ==> !s.good)
  {
    var ms := MarksOf(ss);
    LinesFrom(ms, hideGood, l);
    var i :| 0 <= i < |ms| && ms[i].line == l && (hideGood ==> !ms[i].good);
    assert ss[i] in ss;
  }

  /** With good lines hidden and nothing failed there is no content. */
  lemma NothingFailedNoLines(ss: seq<Seen>)
    requires !AnyFailed(ss)
    ensures Lines(MarksOf(ss), true) == []
  {
    MapsEmpty(ss);
    assert FailedMap(MarksOf(ss)) == map[];
    ListingNothingFailed(SortStrings(Keys(MarksOf(ss))), GoodMap(MarksOf(ss)));
  }

  predicate SomeGood(ms: seq<Mark>) {
    exists i :: 0 <= i < |ms| && ms[i].good
  }

  predicate SomeFailed(ms: seq<Mark>) {
    exists i :: 0 <= i < |ms| && !ms[i].good
  }

  lemma MarkMapsEmpty(ms: seq<Mark>)
    ensures |GoodMap(ms)| == 0 <==> !SomeGood(ms)
    ensures |FailedMap(ms)| == 0 <==> !SomeFailed(ms)
  {
    if SomeGood(ms) {
      var i :| 0 <= i < |ms| && ms[i].good;
      assert ms[i].key in GoodMap(ms);
    }
    if SomeFailed(ms) {
      var i :| 0 <= i < |ms| && !ms[i].good;
      assert ms[i].key in FailedMap(ms);
    }
    if |GoodMap(ms)| != 0 {
      var k :| k in GoodMap(ms);
    }
    if |FailedMap(ms)| != 0 {
      var k :| k in FailedMap(ms);
    }
  }

  /** The header rule of the docker and systemd collectors: "critical" when
      nothing is good, "OK" when nothing failed, "warning" when fewer failed
      than `total`, and no header otherwise. */
  function StatusHeader(title: string, ms: seq<Mark>, total: nat): Line {
    if |GoodMap(ms)| == 0 then SeverityHeader(title, Critical, Lower)
    else if |FailedMap(ms)| == 0 then SeverityHeader(title, OK, Lower)
    else if |FailedMap(ms)| < total then SeverityHeader(title, Warning, Lower)
    else NoHeader
  }

  /** When `total` counts at least the classified items, the last branch is
      never taken: the header says "critical" exactly when nothing is good,
      "OK" when something is good and nothing failed, and "warning" when both
      occur; `total` itself never decides. */
  lemma StatusHeaderSpec(title: string, ms: seq<Mark>, total: nat)
    requires total >= |ms|
    ensures var h := StatusHeader(title, ms, total);
      && (h == SeverityHeader(title, Critical, Lower) <==> !SomeGood(ms))
      && (h == SeverityHeader(title, OK, Lower) <==> SomeGood(ms) && !SomeFailed(ms))
      && (h == SeverityHeader(title, Warning, Lower) <==> SomeGood(ms) && SomeFailed(ms))
      && h != NoHeader
      && h == StatusHeader(title, ms, |ms|)
  {
    MarkMapsEmpty(ms);
    if |GoodMap(ms)| > 0 {
      FailedSmallerWhenSomeGood(ms);
    }
    SeverityHeaderIsNotNotice(title, OK, Lower);
    SeverityHeaderIsNotNotice(title, Warning, Lower);
    SeverityHeaderIsNotNotice(title, Critical, Lower);
  }
}
