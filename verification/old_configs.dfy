/** tools/old_configs.go: the first-generation configuration as the migration
    tool reads it, and its defaults. */
module OldConfigs {
  import opened Wrappers

  /** OldCommonConf: the failed-only override (nil when unset) and the two pad pairs. */
  datatype OldCommonConf = OldCommonConf(failedOnly: Option<bool>, header: seq<int>, content: seq<int>)

  datatype OldCommonWithWarnConf = OldCommonWithWarnConf(common: OldCommonConf, warn: int, crit: int)

  datatype OldCPUTempConf = OldCPUTempConf(limits: OldCommonWithWarnConf, exec: bool)

  datatype OldDiskConf = OldDiskConf(limits: OldCommonWithWarnConf, ignore: seq<string>, sys: bool)

  datatype OldDockerConf = OldDockerConf(common: OldCommonConf, exec: bool, ignore: seq<string>)

  datatype OldPodmanConf = OldPodmanConf(common: OldCommonConf, sudo: bool, includeSudo: bool, ignore: seq<string>)

  datatype OldSystemdConf = OldSystemdConf(common: OldCommonConf, units: seq<string>, hideExt: bool, inactiveOK: bool, showFailed: bool)

  /** OldUpdatesConf; the check interval in seconds. */
  datatype OldUpdatesConf = OldUpdatesConf(common: OldCommonConf, show: Option<bool>, file: string, checkSeconds: int)

  datatype OldConf = OldConf(
    failedOnly: bool, showOrder: seq<string>, colDef: seq<seq<string>>, colPad: int,
    btrfs: OldCommonWithWarnConf, cpu: OldCPUTempConf, disk: OldDiskConf, docker: OldDockerConf,
    podman: OldPodmanConf, sysInfo: OldCommonConf, systemd: OldSystemdConf, updates: OldUpdatesConf,
    zfs: OldCommonWithWarnConf)

  const ZeroCommon: OldCommonConf := OldCommonConf(None, [], [])
  const ZeroWarn: OldCommonWithWarnConf := OldCommonWithWarnConf(ZeroCommon, 0, 0)

  /** The zero value a configuration starts from. */
  const Zero: OldConf := OldConf(
    false, [], [], 0, ZeroWarn, OldCPUTempConf(ZeroWarn, false), OldDiskConf(ZeroWarn, [], false),
    OldDockerConf(ZeroCommon, false, []), OldPodmanConf(ZeroCommon, false, false, []), ZeroCommon,
    OldSystemdConf(ZeroCommon, [], false, false, false), OldUpdatesConf(ZeroCommon, None, "", 0), ZeroWarn)

  const UpdatesFile: string := "/tmp/go-check-updates.yaml"
  const DaySeconds: int := 24 * 60 * 60

  /** OldCommonConf.Init: both pad pairs become [0, 0]; the override is kept. */
  function CommonInit(c: OldCommonConf): (r: OldCommonConf)
    ensures r.header == [0, 0] && r.content == [0, 0]
    ensures r.failedOnly == c.failedOnly
  {
    var defPad := [0, 0];
    c.(content := defPad, header := defPad)
  }

  /** The nine module bases, in declaration order. */
  function Commons(c: OldConf): (cs: seq<OldCommonConf>)
    ensures |cs| == 9
  {
    [c.btrfs.common, c.cpu.limits.common, c.disk.limits.common, c.docker.common, c.podman.common,
     c.sysInfo, c.systemd.common, c.updates.common, c.zfs.common]
  }

  /** OldConf.Init: every base initialised, thresholds BTRFS 70/90, CPU 70/90,
      Disk 40/50 and ZFS 70/90, a column padding of 4, ShowFailed on, a
      24 hour update check and the updates cache file. Everything else is kept. */
  function Init(c: OldConf): (r: OldConf)
    ensures forall i :: 0 <= i < 9 ==> Commons(r)[i] == CommonInit(Commons(c)[i])
    ensures r.btrfs.warn == 70 && r.btrfs.crit == 90
    ensures r.cpu.limits.warn == 70 && r.cpu.limits.crit == 90
    ensures r.disk.limits.warn == 40 && r.disk.limits.crit == 50
    ensures r.zfs.warn == 70 && r.zfs.crit == 90
    ensures r.colPad == 4 && r.failedOnly == c.failedOnly && r.showOrder == c.showOrder && r.colDef == c.colDef
    ensures r.systemd == c.systemd.(common := CommonInit(c.systemd.common), showFailed := true)
    ensures r.updates == c.updates.(common := CommonInit(c.updates.common), file := UpdatesFile, checkSeconds := DaySeconds)
  {
    c.(
      colPad := 4,
      btrfs := OldCommonWithWarnConf(CommonInit(c.btrfs.common), 70, 90),
      cpu := c.cpu.(limits := OldCommonWithWarnConf(CommonInit(c.cpu.limits.common), 70, 90)),
      disk := c.disk.(limits := OldCommonWithWarnConf(CommonInit(c.disk.limits.common), 40, 50)),
      docker := c.docker.(common := CommonInit(c.docker.common)),
      podman := c.podman.(common := CommonInit(c.podman.common)),
      sysInfo := CommonInit(c.sysInfo),
      systemd := c.systemd.(common := CommonInit(c.systemd.common), showFailed := true),
      updates := c.updates.(common := CommonInit(c.updates.common), file := UpdatesFile, checkSeconds := DaySeconds),
      zfs := OldCommonWithWarnConf(CommonInit(c.zfs.common), 70, 90))
  }
}
