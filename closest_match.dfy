/** Snapping a measured width to an allowed image size (findClosestMatch). */
module ClosestMatch {
  import opened JsValues

  function Abs(x: int): (r: nat)
    ensures r == x || r == -x
  {
    if x < 0 then -x else x
  }

  /** `numList.filter((item) => item >= num)`: the allowed sizes that are large enough, in list order. */
  function AtLeast(num: int, xs: seq<int>): (r: seq<int>)
    ensures forall x :: x in r <==> x in xs && x >= num
    ensures |r| <= |xs|
  {
    if xs == [] then [] else (if xs[0] >= num then [xs[0]] else []) + AtLeast(num, xs[1..])
  }

  /** Reference definition: the least element of `xs` that is at least `num`,
      or `Undefined` when there is none. */
  function LeastAtLeast(num: int, xs: seq<int>): Size
  {
    if xs == [] then Undefined
    else
      var rest := LeastAtLeast(num, xs[1..]);
      if xs[0] < num then rest
      else if rest.Px? && rest.n < xs[0] then rest
      else Px(xs[0])
  }

  /** The reference definition picks a qualifying element, no larger than any other
      qualifying element, and is undefined exactly when nothing qualifies. */
  lemma {:induction false} LeastAtLeastSpec(num: int, xs: seq<int>)
    ensures LeastAtLeast(num, xs).Undefined? <==> forall x :: x in xs ==> x < num
    ensures LeastAtLeast(num, xs).Px? ==>
      var m := LeastAtLeast(num, xs).n;
      m in xs && m >= num && forall x :: x in xs && x >= num ==> m <= x
  {
    if xs != [] {
      LeastAtLeastSpec(num, xs[1..]);
      assert xs == [xs[0]] + xs[1..];
      if xs[0] >= num {
        assert LeastAtLeast(num, xs).Px? && xs[0] in xs;
      } else {
        assert LeastAtLeast(num, xs) == LeastAtLeast(num, xs[1..]);
        assert forall x :: x in xs ==> x == xs[0] || x in xs[1..];
        assert forall x :: x in xs[1..] ==> x in xs;
      }
    }
  }

  /** The properties of LeastAtLeastSpec pin the result down: any size with them is it. */
  lemma LeastAtLeastUnique(num: int, xs: seq<int>, z: Size)
    requires z.Undefined? <==> forall x :: x in xs ==> x < num
    requires z.Px? ==> z.n in xs && z.n >= num && forall x :: x in xs && x >= num ==> z.n <= x
    ensures z == LeastAtLeast(num, xs)
  {
    LeastAtLeastSpec(num, xs);
  }

  /** When the measured width is itself an allowed size, it is chosen. */
  lemma LeastAtLeastExact(num: int, xs: seq<int>)
    requires num in xs
    ensures LeastAtLeast(num, xs) == Px(num)
  {
    LeastAtLeastSpec(num, xs);
  }

  /** findClosestMatch: keeps the allowed sizes that are at least `num` and scans them
      for the smallest difference to `num`, the first one found winning ties. */
  method FindClosestMatch(num: int, numList: seq<int>) returns (closest: Size)
    ensures closest.Undefined? <==> forall x :: x in numList ==> x < num
    ensures closest.Px? ==>
      closest.n in numList && closest.n >= num &&
      forall x :: x in numList && x >= num ==> closest.n <= x
    ensures closest == LeastAtLeast(num, numList)
  {
    var filtered := AtLeast(num, numList);
    if |filtered| == 0 {
      // filteredNumList[0] is undefined and the loop body never runs
      closest := Undefined;
      LeastAtLeastUnique(num, numList, closest);
      return;
    }
    var best := filtered[0];
    var minDiff := Abs(num - best);
    for i := 0 to |filtered|
      invariant best in filtered
      invariant minDiff == best - num
      invariant forall k :: 0 <= k < i ==> best <= filtered[k]
    {
      var currentNum := filtered[i];
      assert currentNum in filtered;
      var diff := Abs(num - currentNum);
      if diff < minDiff {
        minDiff := diff;
        best := currentNum;
      }
    }
    closest := Px(best);
    LeastAtLeastUnique(num, numList, closest);
  }
}
