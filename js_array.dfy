/**
 * The part of JavaScript's `Array.prototype.slice` the picker relies on:
 * both bounds are relative indices, a negative one counting back from the
 * end, and each is clamped to the array's length; an empty range yields
 * an empty array rather than an error.
 */
module JsArray {

  /** The absolute position a relative slice bound denotes in an array of `len` elements. */
  function Clamp(relative: int, len: nat): (k: nat)
    ensures k <= len
  {
    if relative < 0 then
      (if len + relative < 0 then 0 else len + relative)
    else if relative < len then relative else len
  }

  /** `s.slice(start, end)`: the elements from the clamped start up to, not including, the clamped end. */
  function Slice<T>(s: seq<T>, start: int, end: int): (r: seq<T>)
    ensures |r| == if Clamp(start, |s|) < Clamp(end, |s|) then Clamp(end, |s|) - Clamp(start, |s|) else 0
    ensures forall i :: 0 <= i < |r| ==> r[i] == s[Clamp(start, |s|) + i]
  {
    var k, f := Clamp(start, |s|), Clamp(end, |s|);
    if k < f then s[k..f] else []
  }

  /** `slice(0, -1)` drops exactly the last element, and yields an empty array from an empty one. */
  lemma DropLast<T>(s: seq<T>)
    ensures |s| > 0 ==> Slice(s, 0, -1) == s[..|s| - 1]
    ensures |s| == 0 ==> Slice(s, 0, -1) == []
    ensures |s| > 0 ==> Slice(s, 0, -1) + [s[|s| - 1]] == s
  {
  }

  /** Dropping the last element undoes appending one. */
  lemma DropLastUndoesAppend<T>(s: seq<T>, x: T)
    ensures Slice(s + [x], 0, -1) == s
  {
  }
}
