/** main.go: the first generation's entry point. It builds a default
    configuration, checks pad arrays, runs all seven collectors (each on its
    own copy of the configuration, its override resolved) and prints their
    results in one fixed order once all have finished. */
module MainProgram {
  import opened Wrappers
  import Types
  import opened AppConf

  datatype Conf = Conf(failedOnly: bool, modules: Modules)

  /** NewConf: the zero configuration with the defaults applied. */
  function NewConf(): (c: Conf)
    ensures !c.failedOnly
  {
    Conf(false, Defaults(Zero))
  }

  /** checkCfgLen: the header pad array is checked before the content one;
      either shorter than two entries is an error naming the module. */
  function CheckCfgLen(m: string, c: Types.Common): (r: Option<string>)
    ensures r.None? <==> |c.header| >= 2 && |c.content| >= 2
    ensures |c.header| < 2 ==> r == Some("Header pad array in " + m + " too short")
    ensures |c.header| >= 2 && |c.content| < 2 ==> r == Some("Content pad array in " + m + " too short")
  {
    if |c.header| < 2 then Some("Header pad array in " + m + " too short")
    else if |c.content| < 2 then Some("Content pad array in " + m + " too short")
    else None
  }

  /** The default configuration follows the global flag everywhere, passes
      the pad check for every module, and has sane thresholds. */
  lemma NewConfSound(m: Module)
    ensures CheckCfgLen(Name(m), Base(NewConf().modules, m)) == None
    ensures m != SysInfo ==> Flag(Prepare(NewConf().modules, true, m), m) == Some(true)
    ensures m != SysInfo ==> Flag(Prepare(NewConf().modules, false, m), m) == Some(false)
    ensures var ms := NewConf().modules;
      ms.cpu.warn <= ms.cpu.crit && ms.disk.warn <= ms.disk.crit && ms.zfs.warn <= ms.zfs.crit
  {
    assert Flag(NewConf().modules, m) == Flag(Zero, m);
  }

  /** The fixed print order of main.go. */
  const PrintOrder: seq<Module> := [SysInfo, Updates, Systemd, Docker, Disk, Cpu, Zfs]

  /** The text printed, one collector result per line. A collector is a
      function of the configuration it is handed. */
  function Screen(c: Conf, run: (Module, Modules) -> string): (out: seq<string>)
    ensures |out| == |PrintOrder|
  {
    seq(|PrintOrder|, i requires 0 <= i < |PrintOrder| => run(PrintOrder[i], Prepare(c.modules, c.failedOnly, PrintOrder[i])))
  }

  /** Every module appears exactly once, at its fixed place, and once a
      module's own override is set, flipping the global flag does not change
      what it prints. */
  lemma ScreenOrder(c: Conf, run: (Module, Modules) -> string, m: Module)
    ensures exists i :: 0 <= i < |PrintOrder| && PrintOrder[i] == m
    ensures forall i, j :: 0 <= i < j < |PrintOrder| ==> PrintOrder[i] != PrintOrder[j]
    ensures Flag(c.modules, m).Some? ==>
      forall i :: 0 <= i < |PrintOrder| && PrintOrder[i] == m ==>
        Screen(c, run)[i] == Screen(c.(failedOnly := !c.failedOnly), run)[i]
  {
    if Flag(c.modules, m).Some? {
      assert Prepare(c.modules, c.failedOnly, m) == Prepare(c.modules, !c.failedOnly, m);
    }
    match m
    case SysInfo => assert PrintOrder[0] == m;
    case Updates => assert PrintOrder[1] == m;
    case Systemd => assert PrintOrder[2] == m;
    case Docker => assert PrintOrder[3] == m;
    case Disk => assert PrintOrder[4] == m;
    case Cpu => assert PrintOrder[5] == m;
    case Zfs => assert PrintOrder[6] == m;
  }
}
