/** datasources/common_vars.go: the alignment markers and the per-source base
    configuration of the newer collector package. */
module CommonVars {
  import opened Wrappers

  /** The markers a collector puts around a label; the padding step later turns them
      into column alignment. */
  const PadL: string := "$"
  const PadR: string := "%"

  /** CommonConf: the warn-only override (nil when unset) and the header and content
      pad pairs. */
  datatype CommonConf = CommonConf(failedOnly: Option<bool>, header: seq<int>, content: seq<int>)

  /** CommonWithWarnConf: CommonConf plus thresholds. */
  datatype CommonWithWarnConf = CommonWithWarnConf(common: CommonConf, warn: int, crit: int)

  /** CommonConf.Init: both pad pairs become [0, 0]; the override is left alone. */
  function Init(c: CommonConf): (r: CommonConf)
    ensures r.header == [0, 0] && r.content == [0, 0]
    ensures r.header == r.content
    ensures r.failedOnly == c.failedOnly
  {
    var defPad := [0, 0];
    c.(content := defPad, header := defPad)
  }
}
