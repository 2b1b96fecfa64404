/** Searching a list. */
module Lists {
  /** The first position of a list at which `p` holds, or the list's length. */
  function First<T>(list: seq<T>, p: T -> bool): (i: nat)
    ensures i <= |list| && (i < |list| ==> p(list[i])) && forall k :: 0 <= k < i ==> !p(list[k])
  {
    if list == [] || p(list[0]) then 0 else 1 + First(list[1..], p)
  }

  lemma FirstIs<T>(list: seq<T>, p: T -> bool, i: nat)
    requires i <= |list| && (i < |list| ==> p(list[i])) && forall k :: 0 <= k < i ==> !p(list[k])
    ensures First(list, p) == i
  {
  }
}
