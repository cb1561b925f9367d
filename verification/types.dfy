/** types/types.go: the per-module base configuration of the oldest generation. */
module Types {
  import opened Wrappers

  /** Common: the failed-only override (nil when unset) and the header and content pad pairs. */
  datatype Common = Common(failedOnly: Option<bool>, header: seq<int>, content: seq<int>)

  /** CommonWithWarn: Common plus thresholds. */
  datatype CommonWithWarn = CommonWithWarn(common: Common, warn: int, crit: int)

  /** Common.Init: both pad pairs become [0, 0]; the override is left alone. */
  function Init(c: Common): (r: Common)
    ensures r.header == [0, 0] && r.content == [0, 0]
    ensures r.header == r.content
    ensures r.failedOnly == c.failedOnly
  {
    var defPad := [0, 0];
    c.(content := defPad, header := defPad)
  }
}
