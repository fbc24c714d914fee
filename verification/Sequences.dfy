/** What std::vector::erase leaves. */
module Sequences {

  /** `s` without its element at `i`. */
  function Erase<T>(s: seq<T>, i: nat): (r: seq<T>)
    requires i < |s|
    ensures |r| == |s| - 1
  {
    s[..i] + s[i + 1..]
  }
}
