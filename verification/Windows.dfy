/** Sliding windows over a stream. */
module Windows {
  /** The last `w` entries, all of them when there are fewer. */
  function LastOf<T>(s: seq<T>, w: nat): seq<T> {
    if |s| <= w then s else s[|s| - w..]
  }
}
