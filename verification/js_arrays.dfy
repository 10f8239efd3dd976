/** The JavaScript array built-ins the sub-document handlers rely on:
    `Array.prototype.indexOf` and `Array.prototype.splice`, the latter with
    the standard's normalisation of a negative or too large start. */
module JsArrays {

  /** `s.indexOf(x)`: the first index holding `x` (strict equality), or -1. */
  function IndexOf<T(==)>(s: seq<T>, x: T): (r: int)
    ensures -1 <= r < |s|
    ensures r == -1 <==> x !in s
    ensures 0 <= r ==> s[r] == x && forall j :: 0 <= j < r ==> s[j] != x
  {
    if s == [] then -1
    else if s[0] == x then 0
    else
      var k := IndexOf(s[1..], x);
      if k == -1 then -1 else k + 1
  }

  /** Where `splice` starts for a given start argument: a negative start counts
      from the end and is clamped at 0, a start beyond the end is clamped at the length. */
  function SpliceStart(start: int, len: nat): (k: nat)
    ensures k <= len
    ensures 0 <= start <= len ==> k == start
    ensures start < 0 && 0 <= len + start ==> k == len + start
    ensures len + start < 0 ==> k == 0
    ensures len < start ==> k == len
  {
    if start < 0 then (if len + start < 0 then 0 else len + start)
    else if start < len then start else len
  }

  /** How many elements `splice` removes from start `k`: the requested count,
      clamped at 0 and at the number of elements from `k` on. */
  function DeleteCount(deleteCount: int, len: nat, k: nat): (n: nat)
    requires k <= len
    ensures n <= len - k
    ensures 0 <= deleteCount <= len - k ==> n == deleteCount
    ensures deleteCount < 0 ==> n == 0
    ensures len - k < deleteCount ==> n == len - k
  {
    if deleteCount < 0 then 0 else if deleteCount <= len - k then deleteCount else len - k
  }

  /** The array left behind by `s.splice(start, deleteCount)`: the elements before the
      normalised start, then those after the removed ones. */
  function Splice<T>(s: seq<T>, start: int, deleteCount: int): (r: seq<T>)
    ensures var k := SpliceStart(start, |s|);
      var n := DeleteCount(deleteCount, |s|, k);
      |r| == |s| - n && r[..k] == s[..k] && r[k..] == s[k + n..]
  {
    var k := SpliceStart(start, |s|);
    s[..k] + s[k + DeleteCount(deleteCount, |s|, k)..]
  }

  /** `splice(i, 1)` at a valid index removes exactly element `i`, keeping the order of the rest. */
  lemma SpliceOneAt<T>(s: seq<T>, i: int)
    requires 0 <= i < |s|
    ensures Splice(s, i, 1) == s[..i] + s[i + 1..]
  {
  }

  /** `splice(-1, 1)` removes the last element of a non-empty array. */
  lemma SpliceMinusOneDropsLast<T>(s: seq<T>)
    requires s != []
    ensures Splice(s, -1, 1) == s[..|s| - 1]
  {
  }

  /** `splice(-1, 1)` on an empty array removes nothing. */
  lemma SpliceMinusOneOnEmpty<T>()
    ensures Splice<T>([], -1, 1) == []
  {
  }
}
