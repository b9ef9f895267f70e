/**
  Timestamps are integer microseconds since the Unix epoch. `int(dt.timestamp())`
  in the scripts turns one into whole seconds, truncating toward zero.
 */
module Time {

  const MicrosPerSecond: int := 1_000_000

  /** Whole seconds of a timestamp, truncated toward zero like Python's `int()`. */
  function WholeSeconds(t: int): (s: int)
    ensures 0 <= t ==> 0 <= s && s * MicrosPerSecond <= t < (s + 1) * MicrosPerSecond
    ensures t < 0 ==> s <= 0 && (s - 1) * MicrosPerSecond < t <= s * MicrosPerSecond
  {
    if t >= 0 then t / MicrosPerSecond else -((-t) / MicrosPerSecond)
  }

  /** Truncation toward zero never reverses the order of two timestamps. */
  lemma WholeSecondsMonotone(a: int, b: int)
    requires a <= b
    ensures WholeSeconds(a) <= WholeSeconds(b)
  {
    var sa, sb := WholeSeconds(a), WholeSeconds(b);
    if 0 <= a {
      assert sa * MicrosPerSecond <= a <= b < (sb + 1) * MicrosPerSecond;
    } else if b < 0 {
      assert (sa - 1) * MicrosPerSecond < a <= b <= sb * MicrosPerSecond;
    }
  }
}
