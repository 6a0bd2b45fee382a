/**
 * `closest` of OpAmp.py lines 14-15: the list element nearest to a target value,
 * taking the first such element when several are equally near (Python's `min`
 * keeps the first minimal key).
 */
module Nearest {

  /** |x - val|, the distance from a resistor value to a target resistance. */
  function Dist(x: int, val: real): (d: real)
    ensures d >= 0.0
    ensures d == 0.0 <==> x as real == val
  {
    if x as real >= val then x as real - val else val - x as real
  }

  /** k is the first index of lst whose element is nearest to val. */
  ghost predicate IsFirstNearest(lst: seq<int>, val: real, k: int)
  {
    && 0 <= k < |lst|
    && (forall i :: 0 <= i < |lst| ==> Dist(lst[k], val) <= Dist(lst[i], val))
    && (forall i :: 0 <= i < k ==> Dist(lst[k], val) < Dist(lst[i], val))
  }

  /** The index of the first nearest element: a left-to-right scan that moves only on a strict improvement. */
  function ClosestIndex(lst: seq<int>, val: real): (k: nat)
    requires |lst| > 0
    ensures IsFirstNearest(lst, val, k)
    decreases |lst|
  {
    if |lst| == 1 then 0
    else
      var last := |lst| - 1;
      var k := ClosestIndex(lst[..last], val);
      if Dist(lst[last], val) < Dist(lst[k], val) then last else k
  }

  /** The nearest list element, the first one on ties. */
  function Closest(lst: seq<int>, val: real): (r: int)
    requires |lst| > 0
    ensures r in lst
    ensures forall x :: x in lst ==> Dist(r, val) <= Dist(x, val)
  {
    lst[ClosestIndex(lst, val)]
  }

  /** The first-nearest index is determined by its specification alone. */
  lemma FirstNearestUnique(lst: seq<int>, val: real, k: int)
    requires IsFirstNearest(lst, val, k)
    ensures k == ClosestIndex(lst, val)
  {
  }

  /** A target that is itself a list value is returned unchanged. */
  lemma ClosestOfMember(lst: seq<int>, x: int)
    requires x in lst
    ensures Closest(lst, x as real) == x
  {
    var r := Closest(lst, x as real);
    assert Dist(r, x as real) <= Dist(x, x as real) == 0.0;
  }
}
