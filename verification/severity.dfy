/** The three-level health classification every collector reports, and the
    "critical dominates warning dominates OK" fold the threshold collectors share. */
module Severity {

  datatype Severity = OK | Warning | Critical

  function Rank(s: Severity): nat {
    match s
    case OK => 0
    case Warning => 1
    case Critical => 2
  }

  /** The worse of two severities. */
  function Max(a: Severity, b: Severity): (r: Severity)
    ensures Rank(a) <= Rank(r) && Rank(b) <= Rank(r)
    ensures r == a || r == b
  {
    if Rank(a) >= Rank(b) then a else b
  }

  /** The worst severity in a sequence, OK for the empty sequence. */
  function MaxOf(s: seq<Severity>): (r: Severity)
    ensures forall i :: 0 <= i < |s| ==> Rank(s[i]) <= Rank(r)
    ensures r == OK || r in s
  {
    if |s| == 0 then OK else Max(MaxOf(s[..|s| - 1]), s[|s| - 1])
  }

  lemma MaxOfAppend(s: seq<Severity>, x: Severity)
    ensures MaxOf(s + [x]) == Max(MaxOf(s), x)
  {
    assert (s + [x])[..|s|] == s;
  }

  /** The classifier a single reading is measured by: below `warn` is OK, from
      `warn` up to `crit` is a warning, at or above `crit` is critical. */
  function Classify(v: int, warn: int, crit: int): (r: Severity)
    requires warn <= crit
    ensures r == OK <==> v < warn
    ensures r == Critical <==> v >= crit
    ensures r == Warning <==> warn <= v < crit
  {
    if v < warn then OK else if v < crit then Warning else Critical
  }

  /** What one threshold reading contributes: a line of some severity, or nothing. */
  datatype Reading = Hidden | Shown(sev: Severity)

  function Contribution(r: Reading): Severity {
    match r
    case Hidden => OK
    case Shown(s) => s
  }

  /** The branch chain every threshold collector writes inline:
      `if v < warn && !warnOnly` -> shown OK; `else if v >= warn && v < crit` ->
      warning; `else if v >= crit` -> critical; otherwise nothing. */
  function Band(v: int, warn: int, crit: int, warnOnly: bool): (r: Reading)
    ensures r.Shown? && r.sev == OK ==> !warnOnly
    ensures r.Hidden? ==> warnOnly && v < warn
  {
    if v < warn && !warnOnly then Shown(OK)
    else if v >= warn && v < crit then Shown(Warning)
    else if v >= crit then Shown(Critical)
    else Hidden
  }

  /** With sane thresholds the inline chain is the shared classifier, and warn-only
      only hides OK lines: it never changes what a reading contributes. */
  lemma BandIsClassify(v: int, warn: int, crit: int, warnOnly: bool)
    requires warn <= crit
    ensures Contribution(Band(v, warn, crit, warnOnly)) == Classify(v, warn, crit)
    ensures Band(v, warn, crit, warnOnly).Hidden? <==> warnOnly && v < warn
    ensures Band(v, warn, crit, true).Shown? ==> Band(v, warn, crit, true) == Band(v, warn, crit, false)
  {
  }

  /** With crossed thresholds (crit below warn) the warn-only flag changes the
      severity of a reading between them. */
  lemma CrossedThresholdsWarnOnly()
    ensures Band(80, 90, 70, false) == Shown(OK)
    ensures Band(80, 90, 70, true) == Shown(Critical)
  {
  }

  /** The contributions of a sequence of readings, in order. */
  function Contributions(rs: seq<Reading>): (r: seq<Severity>)
    ensures |r| == |rs|
    ensures forall i :: 0 <= i < |rs| ==> r[i] == Contribution(rs[i])
  {
    seq(|rs|, i requires 0 <= i < |rs| => Contribution(rs[i]))
  }

  /** The inline status update of the pool and filesystem collectors: a warning
      raises the status unless it is already critical, a critical reading sets
      it, anything else leaves it. */
  function Raise(status: Severity, r: Reading): (s: Severity)
    ensures Rank(status) <= Rank(s)
  {
    match r
    case Shown(Warning) => if status != Critical then Warning else status
    case Shown(Critical) => Critical
    case _ => status
  }

  /** The status after a run of readings, starting from OK. */
  function Settle(rs: seq<Reading>): Severity {
    if |rs| == 0 then OK else Raise(Settle(rs[..|rs| - 1]), rs[|rs| - 1])
  }

  /** The update is the "worse of" operation ... */
  lemma RaiseIsMax(status: Severity, r: Reading)
    ensures Raise(status, r) == Max(status, Contribution(r))
  {
  }

  /** ... so the settled status is the worst reading, whatever the order. */
  lemma {:induction false} SettleIsWorst(rs: seq<Reading>)
    ensures Settle(rs) == MaxOf(Contributions(rs))
  {
    if |rs| > 0 {
      var init := rs[..|rs| - 1];
      SettleIsWorst(init);
      RaiseIsMax(Settle(init), rs[|rs| - 1]);
      var cs := Contributions(rs);
      assert cs[..|cs| - 1] == Contributions(init);
    }
  }

  /** The status never goes down: once critical, it stays critical. */
  lemma {:induction false} SettleSticky(rs: seq<Reading>, more: seq<Reading>)
    ensures Rank(Settle(rs)) <= Rank(Settle(rs + more))
    decreases |more|
  {
    if |more| > 0 {
      var init := more[..|more| - 1];
      SettleSticky(rs, init);
      assert (rs + more)[..|rs + more| - 1] == rs + init;
    } else {
      assert rs + more == rs;
    }
  }
}
