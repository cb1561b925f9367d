/** tools/new_configs.go: the second-generation configuration as the
    migration tool writes it, and its defaults. */
module NewConfigs {
  import opened Wrappers

  /** ConfBase: the warn-only override (nil when unset) and the two pad pairs. */
  datatype ConfBase = ConfBase(warnOnly: Option<bool>, padHeader: seq<int>, padContent: seq<int>)

  datatype ConfBaseWarn = ConfBaseWarn(base: ConfBase, warn: int, crit: int)

  datatype ConfTempCPU = ConfTempCPU(limits: ConfBaseWarn, exec: bool)

  datatype ConfTempDisk = ConfTempDisk(limits: ConfBaseWarn, ignore: seq<string>, sys: bool)

  datatype ConfDocker = ConfDocker(base: ConfBase, exec: bool, ignore: seq<string>)

  datatype ConfPodman = ConfPodman(base: ConfBase, sudo: bool, includeSudo: bool, ignore: seq<string>)

  datatype ConfSystemd = ConfSystemd(base: ConfBase, units: seq<string>, hideExt: bool, inactiveOK: bool, showFailed: bool)

  datatype ConfUpdates = ConfUpdates(base: ConfBase, show: Option<bool>, file: string)

  datatype ConfGlobal = ConfGlobal(warnOnly: bool, showOrder: seq<string>, colDef: seq<seq<string>>, colPad: int)

  datatype Conf = Conf(
    global: ConfGlobal, btrfs: ConfBaseWarn, cpu: ConfTempCPU, disk: ConfTempDisk,
    docker: ConfDocker, podman: ConfPodman, sysInfo: ConfBase, systemd: ConfSystemd,
    updates: ConfUpdates, zfs: ConfBaseWarn)

  const ZeroBase: ConfBase := ConfBase(None, [], [])
  const ZeroWarn: ConfBaseWarn := ConfBaseWarn(ZeroBase, 0, 0)

  /** The zero value a configuration starts from. */
  const Zero: Conf := Conf(
    ConfGlobal(false, [], [], 0), ZeroWarn, ConfTempCPU(ZeroWarn, false), ConfTempDisk(ZeroWarn, [], false),
    ConfDocker(ZeroBase, false, []), ConfPodman(ZeroBase, false, false, []), ZeroBase,
    ConfSystemd(ZeroBase, [], false, false, false), ConfUpdates(ZeroBase, None, ""), ZeroWarn)

  const UpdatesFile: string := "/tmp/go-check-updates.yaml"

  /** ConfBase.Init: both pad pairs become [0, 0]; the override is kept. */
  function BaseInit(b: ConfBase): (r: ConfBase)
    ensures r.padHeader == [0, 0] && r.padContent == [0, 0]
    ensures r.warnOnly == b.warnOnly
  {
    var defPad := [0, 0];
    b.(padHeader := defPad, padContent := defPad)
  }

  /** The nine module bases, in declaration order. */
  function Bases(c: Conf): (bs: seq<ConfBase>)
    ensures |bs| == 9
  {
    [c.btrfs.base, c.cpu.limits.base, c.disk.limits.base, c.docker.base, c.podman.base,
     c.sysInfo, c.systemd.base, c.updates.base, c.zfs.base]
  }

  /** Conf.Init: every base initialised, thresholds BTRFS 70/90, CPU 70/90,
      Disk 40/50 and ZFS 70/90, a column padding of 4, ShowFailed on and the
      updates cache file set. Everything else is kept. */
  function Init(c: Conf): (r: Conf)
    ensures forall i :: 0 <= i < 9 ==> Bases(r)[i] == BaseInit(Bases(c)[i])
    ensures r.btrfs.warn == 70 && r.btrfs.crit == 90
    ensures r.cpu.limits.warn == 70 && r.cpu.limits.crit == 90
    ensures r.disk.limits.warn == 40 && r.disk.limits.crit == 50
    ensures r.zfs.warn == 70 && r.zfs.crit == 90
    ensures r.global == c.global.(colPad := 4)
    ensures r.systemd.showFailed && r.updates.file == UpdatesFile
    ensures r.cpu.exec == c.cpu.exec && r.disk.ignore == c.disk.ignore && r.disk.sys == c.disk.sys
    ensures r.docker == c.docker.(base := BaseInit(c.docker.base))
    ensures r.podman == c.podman.(base := BaseInit(c.podman.base))
    ensures r.updates.show == c.updates.show
    ensures r.systemd == c.systemd.(base := BaseInit(c.systemd.base), showFailed := true)
  {
    c.(
      global := c.global.(colPad := 4),
      btrfs := ConfBaseWarn(BaseInit(c.btrfs.base), 70, 90),
      cpu := c.cpu.(limits := ConfBaseWarn(BaseInit(c.cpu.limits.base), 70, 90)),
      disk := c.disk.(limits := ConfBaseWarn(BaseInit(c.disk.limits.base), 40, 50)),
      docker := c.docker.(base := BaseInit(c.docker.base)),
      podman := c.podman.(base := BaseInit(c.podman.base)),
      sysInfo := BaseInit(c.sysInfo),
      systemd := c.systemd.(base := BaseInit(c.systemd.base), showFailed := true),
      updates := c.updates.(base := BaseInit(c.updates.base), file := UpdatesFile),
      zfs := ConfBaseWarn(BaseInit(c.zfs.base), 70, 90))
  }

  /** Initialising twice is initialising once. */
  lemma InitIdempotent(c: Conf)
    ensures Init(Init(c)) == Init(c)
  {
  }
}
