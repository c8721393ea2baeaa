/**
 * What the two versions share beyond `convert_str_to_int` and the label
 * rules: the epoch-millisecond stamp. The current version derives it from
 * the microsecond clock value, the earlier one computes it directly.
 */
module Versions {
  import CLib
  import Sampler
  import Prg

  /**
   * For every clock reading after the epoch with nanoseconds below one
   * second and no wrap-around, the current version's stamp (microseconds
   * divided by 1000) is the earlier version's milliseconds.
   */
  lemma SameStamp(t: CLib.Timespec)
    requires 0 <= t.sec && 0 <= t.nsec < 1000000000
    requires t.sec * 1000000 + 999999 < CLib.TWO_TO_64
    ensures Sampler.StampMillis(t) == Prg.EpochMillis(t)
  {
    var us := t.nsec / 1000;
    Sampler.EpochMicrosMeaning(t);
    Prg.EpochMillisMeaning(t);
    assert t.sec * 1000000 + us == (t.sec * 1000) * 1000 + us;
    CLib.DivPlusMultiple(t.sec * 1000, us, 1000);
    CLib.DivDiv(t.nsec, 1000, 1000);
  }
}
