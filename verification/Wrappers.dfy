// Values shared by the other modules.
module Wrappers {

  /** A pointer that may be NULL, or a result that may be absent. */
  datatype Option<+T> = None | Some(value: T)

  /** The index of the first element with property p, or the length. */
  function IndexOf<T>(s: seq<T>, p: T -> bool): (r: nat)
    ensures r <= |s|
    ensures forall i :: 0 <= i < r ==> !p(s[i])
    ensures r < |s| ==> p(s[r])
  {
    if s == [] || p(s[0]) then 0 else 1 + IndexOf(s[1..], p)
  }

}
