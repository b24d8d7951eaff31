/** Removing from a vector by place. */
module Lists {
  function Without<T>(s: seq<T>, i: nat): (r: seq<T>)
    ensures |r| == if i < |s| then |s| - 1 else |s|
  {
    if i < |s| then s[..i] + s[i + 1..] else s
  }
}
