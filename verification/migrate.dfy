/** tools/migrate.go: converting a first-generation configuration into a
    second-generation one, field by field. */
module Migrate {
  import opened Wrappers
  import opened OldConfigs
  import opened NewConfigs

  /** A first-generation base as a second-generation one: failedOnly becomes
      warnOnly, header and content become the pad pairs. */
  function Base(c: OldCommonConf): (b: ConfBase)
    ensures Unbase(b) == c
  {
    ConfBase(c.failedOnly, c.header, c.content)
  }

  function Unbase(b: ConfBase): (c: OldCommonConf) {
    OldCommonConf(b.warnOnly, b.padHeader, b.padContent)
  }

  function Limits(c: OldCommonWithWarnConf): ConfBaseWarn {
    ConfBaseWarn(Base(c.common), c.warn, c.crit)
  }

  function Unlimits(c: ConfBaseWarn): OldCommonWithWarnConf {
    OldCommonWithWarnConf(Unbase(c.base), c.warn, c.crit)
  }

  /** convertCfg with the updates section read from the old updates section. */
  function ConvertCfg(oc: OldConf): Conf {
    NewConfigs.Init(NewConfigs.Zero).(
      global := ConfGlobal(oc.failedOnly, oc.showOrder, oc.colDef, oc.colPad),
      btrfs := Limits(oc.btrfs),
      cpu := ConfTempCPU(Limits(oc.cpu.limits), oc.cpu.exec),
      disk := ConfTempDisk(Limits(oc.disk.limits), oc.disk.ignore, oc.disk.sys),
      docker := ConfDocker(Base(oc.docker.common), oc.docker.exec, oc.docker.ignore),
      podman := ConfPodman(Base(oc.podman.common), oc.podman.sudo, oc.podman.includeSudo, oc.podman.ignore),
      sysInfo := Base(oc.sysInfo),
      systemd := ConfSystemd(Base(oc.systemd.common), oc.systemd.units, oc.systemd.hideExt, oc.systemd.inactiveOK, oc.systemd.showFailed),
      updates := ConfUpdates(Base(oc.updates.common), oc.updates.show, oc.updates.file),
      zfs := Limits(oc.zfs))
  }

  /** convertCfg as written: the updates section's warn-only override and pad
      pairs are taken from the old podman section. */
  function ConvertCfgAsWritten(oc: OldConf): (c: Conf)
    ensures c == ConvertCfg(oc).(updates := ConvertCfg(oc).updates.(base := Base(oc.podman.common)))
  {
    ConvertCfg(oc).(updates := ConfUpdates(Base(oc.podman.common), oc.updates.show, oc.updates.file))
  }

  /** The reverse mapping; the old check interval, which the new format
      lacks, is supplied. */
  function Restore(c: Conf, checkSeconds: int): OldConf {
    OldConf(
      c.global.warnOnly, c.global.showOrder, c.global.colDef, c.global.colPad,
      Unlimits(c.btrfs), OldCPUTempConf(Unlimits(c.cpu.limits), c.cpu.exec),
      OldDiskConf(Unlimits(c.disk.limits), c.disk.ignore, c.disk.sys),
      OldDockerConf(Unbase(c.docker.base), c.docker.exec, c.docker.ignore),
      OldPodmanConf(Unbase(c.podman.base), c.podman.sudo, c.podman.includeSudo, c.podman.ignore),
      Unbase(c.sysInfo),
      OldSystemdConf(Unbase(c.systemd.base), c.systemd.units, c.systemd.hideExt, c.systemd.inactiveOK, c.systemd.showFailed),
      OldUpdatesConf(Unbase(c.updates.base), c.updates.show, c.updates.file, checkSeconds),
      Unlimits(c.zfs))
  }

  /** Nothing but the update check interval is lost: restoring a converted
      configuration gives it back. */
  lemma RestoreConvert(oc: OldConf)
    ensures Restore(ConvertCfg(oc), oc.updates.checkSeconds) == oc
  {
  }

  /** Every field of the new format is written: every new configuration is
      the conversion of an old one, and none of Init's values survive on
      their own. */
  lemma ConvertRestore(c: Conf, checkSeconds: int)
    ensures ConvertCfg(Restore(c, checkSeconds)) == c
  {
  }

  /** Converting the old defaults gives the new defaults. */
  lemma ConvertDefaults()
    ensures ConvertCfg(OldConfigs.Init(OldConfigs.Zero)) == NewConfigs.Init(NewConfigs.Zero)
    ensures ConvertCfgAsWritten(OldConfigs.Init(OldConfigs.Zero)) == NewConfigs.Init(NewConfigs.Zero)
  {
  }

  /** As written, an old configuration whose updates section sets its own
      override loses it: the migrated updates section carries the podman
      section's (unset) override instead. */
  lemma AsWrittenLosesUpdates()
    ensures var oc := OldConfigs.Init(OldConfigs.Zero).(updates := OldConfigs.Init(OldConfigs.Zero).updates.(common := OldCommonConf(Some(true), [1, 2], [3, 4])));
      && ConvertCfgAsWritten(oc).updates.base == ConfBase(None, [0, 0], [0, 0])
      && ConvertCfg(oc).updates.base == ConfBase(Some(true), [1, 2], [3, 4])
      && Restore(ConvertCfgAsWritten(oc), oc.updates.checkSeconds) != oc
  {
  }

  /** The two conversions agree exactly when the old updates and podman
      sections have the same base. */
  lemma AsWrittenAgrees(oc: OldConf)
    ensures ConvertCfgAsWritten(oc) == ConvertCfg(oc) <==> oc.updates.common == oc.podman.common
  {
    if ConvertCfgAsWritten(oc) == ConvertCfg(oc) {
      assert Base(oc.podman.common) == Base(oc.updates.common);
      assert Unbase(Base(oc.podman.common)) == Unbase(Base(oc.updates.common));
    }
  }
}
