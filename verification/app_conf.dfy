/** The per-module configuration of the first program generation (main.go and
    motd.go): seven modules, each with its base configuration from
    types/types.go, and the rule by which a module's unset failed-only
    override falls back to the global flag before its collector runs. */
module AppConf {
  import opened Wrappers
  import Types

  /** docker.Conf: the base plus the exec switch and the ignore list. */
  datatype DockerConf = DockerConf(common: Types.Common, exec: bool, ignore: seq<string>)

  /** systemd.Conf: the base plus the units to watch and the extension switch. */
  datatype SystemdConf = SystemdConf(common: Types.Common, units: seq<string>, hideExt: bool)

  /** updates.Conf: the base, the show override, the cache file and the check
      interval (in seconds). */
  datatype UpdatesConf = UpdatesConf(common: Types.Common, show: Option<bool>, file: string, checkSeconds: int)

  datatype Modules = Modules(
    cpu: Types.CommonWithWarn, disk: Types.CommonWithWarn, docker: DockerConf,
    sysInfo: Types.Common, systemd: SystemdConf, updates: UpdatesConf, zfs: Types.CommonWithWarn)

  const ZeroCommon: Types.Common := Types.Common(None, [], [])

  /** The zero value Go starts a configuration from. */
  const Zero: Modules := Modules(
    Types.CommonWithWarn(ZeroCommon, 0, 0), Types.CommonWithWarn(ZeroCommon, 0, 0),
    DockerConf(ZeroCommon, false, []), ZeroCommon, SystemdConf(ZeroCommon, [], false),
    UpdatesConf(ZeroCommon, None, "", 0), Types.CommonWithWarn(ZeroCommon, 0, 0))

  datatype Module = SysInfo | Updates | Systemd | Docker | Disk | Cpu | Zfs

  /** The name a module goes by in showOrder and colDef. */
  function Name(m: Module): string {
    match m
    case SysInfo => "sysinfo"
    case Updates => "updates"
    case Systemd => "systemd"
    case Docker => "docker"
    case Disk => "disk"
    case Cpu => "cpu"
    case Zfs => "zfs"
  }

  /** The dispatch from a name to its module; None for an unknown name. */
  function Named(k: string): (r: Option<Module>)
    ensures r.Some? ==> Name(r.value) == k
    ensures r.None? ==> forall m: Module :: Name(m) != k
  {
    if k == "sysinfo" then Some(SysInfo)
    else if k == "updates" then Some(Updates)
    else if k == "systemd" then Some(Systemd)
    else if k == "docker" then Some(Docker)
    else if k == "disk" then Some(Disk)
    else if k == "cpu" then Some(Cpu)
    else if k == "zfs" then Some(Zfs)
    else None
  }

  /** Names and modules are in one-to-one correspondence. */
  lemma NamedName(m: Module)
    ensures Named(Name(m)) == Some(m)
  {
  }

  const UpdatesFile: string := "/tmp/go-check-updates.yaml"
  const DaySeconds: int := 24 * 60 * 60

  /** The defaults main.go's NewConf and motd.go's Conf.Init set on top of
      whatever the configuration held: every pad pair [0, 0], thresholds
      Disk 40/50, CPU 70/90, ZFS 70/90, the updates cache file and a 24 hour
      check interval. Overrides, ignore lists and switches are left alone. */
  function Defaults(ms: Modules): (r: Modules)
    ensures r.cpu.warn == 70 && r.cpu.crit == 90
    ensures r.disk.warn == 40 && r.disk.crit == 50
    ensures r.zfs.warn == 70 && r.zfs.crit == 90
    ensures r.updates.file == UpdatesFile && r.updates.checkSeconds == DaySeconds
    ensures forall m :: Flag(r, m) == Flag(ms, m)
    ensures forall m :: |Pads(r, m).0| == 2 && |Pads(r, m).1| == 2
  {
    ms.(
      cpu := Types.CommonWithWarn(Types.Init(ms.cpu.common), 70, 90),
      disk := Types.CommonWithWarn(Types.Init(ms.disk.common), 40, 50),
      docker := ms.docker.(common := Types.Init(ms.docker.common)),
      sysInfo := Types.Init(ms.sysInfo),
      systemd := ms.systemd.(common := Types.Init(ms.systemd.common)),
      updates := ms.updates.(common := Types.Init(ms.updates.common), file := UpdatesFile, checkSeconds := DaySeconds),
      zfs := Types.CommonWithWarn(Types.Init(ms.zfs.common), 70, 90))
  }

  function Base(ms: Modules, m: Module): Types.Common {
    match m
    case SysInfo => ms.sysInfo
    case Updates => ms.updates.common
    case Systemd => ms.systemd.common
    case Docker => ms.docker.common
    case Disk => ms.disk.common
    case Cpu => ms.cpu.common
    case Zfs => ms.zfs.common
  }

  /** A module's header and content pad pairs. */
  function Pads(ms: Modules, m: Module): (seq<int>, seq<int>) {
    (Base(ms, m).header, Base(ms, m).content)
  }

  /** The override a module's collector reads: failedOnly for most, show for
      updates; the system-information collector takes none. */
  function Flag(ms: Modules, m: Module): Option<bool> {
    match m
    case SysInfo => None
    case Updates => ms.updates.show
    case _ => Base(ms, m).failedOnly
  }

  /** The configuration with one module's override replaced. */
  function WithFlag(ms: Modules, m: Module, f: Option<bool>): Modules {
    match m
    case SysInfo => ms
    case Updates => ms.(updates := ms.updates.(show := f))
    case Systemd => ms.(systemd := ms.systemd.(common := ms.systemd.common.(failedOnly := f)))
    case Docker => ms.(docker := ms.docker.(common := ms.docker.common.(failedOnly := f)))
    case Disk => ms.(disk := ms.disk.(common := ms.disk.common.(failedOnly := f)))
    case Cpu => ms.(cpu := ms.cpu.(common := ms.cpu.common.(failedOnly := f)))
    case Zfs => ms.(zfs := ms.zfs.(common := ms.zfs.common.(failedOnly := f)))
  }

  /** What a getX wrapper hands its collector: its own copy of the
      configuration with that module's unset override pointed at the global
      flag. */
  function Prepare(ms: Modules, global: bool, m: Module): (r: Modules)
    ensures m != SysInfo ==> Flag(r, m) == Some(if Flag(ms, m).Some? then Flag(ms, m).value else global)
    ensures forall o :: o != m ==> Flag(r, o) == Flag(ms, o)
    ensures WithFlag(r, m, None) == WithFlag(ms, m, None)
    ensures Flag(ms, m).Some? ==> r == ms
  {
    if Flag(ms, m).None? then WithFlag(ms, m, Some(global)) else ms
  }
}
