/** Option, the usual Some/None wrapper: None stands for a frame whose processing raised. */
module Wrappers {

  datatype Option<+T> = None | Some(value: T)
}

/** Python's slicing of a list, `s[lo:hi]` and `s[c:]`, which never raises on out-of-range bounds. */
module Slices {

  /** `s[lo:hi]` for non-negative bounds: the bounds are clipped to the length of `s`. */
  function Slice<T>(s: seq<T>, lo: nat, hi: nat): (r: seq<T>)
    requires lo <= hi
    ensures |r| == if hi <= |s| then hi - lo else if lo <= |s| then |s| - lo else 0
    ensures forall i :: 0 <= i < |r| ==> lo + i < |s| && r[i] == s[lo + i]
  {
    if hi <= |s| then s[lo..hi] else if lo <= |s| then s[lo..] else []
  }

  /** `s[c:]`: a start past the end gives the empty list, a negative start counts from the end. */
  function SliceFrom<T>(s: seq<T>, c: int): (r: seq<T>)
    ensures |r| == if 0 <= c then (if c <= |s| then |s| - c else 0)
                   else (if -c <= |s| then -c else |s|)
    ensures r == s[|s| - |r|..]
  {
    if 0 <= c then (if c <= |s| then s[c..] else [])
    else (if -c <= |s| then s[|s| + c..] else s)
  }
}
