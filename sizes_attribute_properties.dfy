/** What the bounded entries of writeSizesAttribute mean, for samples whose sizes are all truthy. */
module SizesAttributeProperties {
  import opened JsValues
  import opened SizesAttribute

  /** Every sample carries a truthy size: every measurement found an allowed size, and none is 0. */
  predicate Defined(s: seq<Entry>) {
    forall i :: 0 <= i < |s| ==> Truthy(s[i].imgSize)
  }

  /** Samples in sweep order. */
  predicate IncreasingViewports(s: seq<Entry>) {
    forall i, j :: 0 <= i < j < |s| ==> s[i].viewport < s[j].viewport
  }

  /** The snapped size changes at sample `k`. */
  predicate Changed(s: seq<Entry>, k: nat)
    requires 1 <= k < |s|
  {
    s[k].imgSize != s[k - 1].imgSize
  }

  /** The indices `1 <= k < m` at which the size changes, in increasing order. */
  function ChangeIndices(s: seq<Entry>, m: nat): (r: seq<nat>)
    requires m <= |s|
    ensures forall i :: 0 <= i < |r| ==> 1 <= r[i] < m
  {
    if m <= 1 then [] else ChangeIndices(s, m - 1) + (if Changed(s, m - 1) then [m - 1] else [])
  }

  /** The entry that closes the size used before sample `k` at `k`'s viewport. */
  function Boundary(s: seq<Entry>, k: nat): Entry
    requires 1 <= k < |s|
  {
    Entry(s[k].viewport, s[k - 1].imgSize)
  }

  /** `bps` holds, in order, the entry `{ v_k, s_(k-1) }` of each index `k` in `ks`. */
  predicate ListsBoundaries(s: seq<Entry>, ks: seq<nat>, bps: seq<Entry>) {
    |bps| == |ks| &&
    forall u :: 0 <= u < |ks| ==> 1 <= ks[u] < |s| && bps[u] == Boundary(s, ks[u])
  }

  /** The size a browser picks at a viewport: that of the first bounded entry whose
      `max-width` admits it, or the trailing default when none does. */
  function Resolve(bps: seq<Entry>, default: Size, viewport: int): Size {
    if bps == [] then default
    else if viewport <= bps[0].viewport then bps[0].imgSize
    else Resolve(bps[1..], default, viewport)
  }

  /** The size the attribute is meant to give at sample `j`: the sampled one, except at
      a change point below the last sample, where it is the size before the change. */
  function Intended(s: seq<Entry>, j: nat): Size
    requires j < |s|
  {
    if 1 <= j < |s| - 1 && Changed(s, j) then s[j - 1].imgSize else s[j].imgSize
  }

  /** The size the written attribute gives at the viewport of sample `j`. */
  function ResolvedAt(s: seq<Entry>, j: nat): Size
    requires |s| >= 1 && j < |s|
  {
    Resolve(Breakpoints(s), s[|s| - 1].imgSize, s[j].viewport)
  }

  /** The first position of `ks` holding a value at least `j`, or `|ks|`. */
  function FirstAtLeast(ks: seq<nat>, j: int): (t: nat)
    ensures t <= |ks|
    ensures forall u :: 0 <= u < t ==> ks[u] < j
    ensures t < |ks| ==> ks[t] >= j
  {
    if ks == [] then 0 else if ks[0] >= j then 0 else 1 + FirstAtLeast(ks[1..], j)
  }

  // ---------------------------------------------------------------- change indices

  /** ChangeIndices holds exactly the change points below `m`. */
  lemma {:induction false} ChangeIndicesSpec(s: seq<Entry>, m: nat)
    requires m <= |s|
    ensures forall k :: 1 <= k < m ==> (k in ChangeIndices(s, m) <==> Changed(s, k))
  {
    if m > 1 {
      ChangeIndicesSpec(s, m - 1);
    }
  }

  /** Every listed index is a change point. */
  lemma {:induction false} ListedIsChange(s: seq<Entry>, m: nat, u: nat)
    requires m <= |s| && u < |ChangeIndices(s, m)|
    ensures Changed(s, ChangeIndices(s, m)[u])
  {
    if u < |ChangeIndices(s, m - 1)| {
      ListedIsChange(s, m - 1, u);
    }
  }

  /** Every change point below `m` is listed; `u` is its position. */
  lemma {:induction false} ChangeIsListed(s: seq<Entry>, m: nat, k: nat) returns (u: nat)
    requires 1 <= k < m <= |s| && Changed(s, k)
    ensures u < |ChangeIndices(s, m)| && ChangeIndices(s, m)[u] == k
  {
    if k < m - 1 {
      u := ChangeIsListed(s, m - 1, k);
    } else {
      u := |ChangeIndices(s, m - 1)|;
    }
  }

  /** The change points are listed in strictly increasing order. */
  lemma {:induction false} ChangeIndicesOrdered(s: seq<Entry>, m: nat, a: nat, b: nat)
    requires m <= |s| && a < b < |ChangeIndices(s, m)|
    ensures ChangeIndices(s, m)[a] < ChangeIndices(s, m)[b]
  {
    var prior := ChangeIndices(s, m - 1);
    if b < |prior| {
      ChangeIndicesOrdered(s, m - 1, a, b);
    } else {
      assert ChangeIndices(s, m)[a] == prior[a];
    }
  }

  /** Between two samples with no change point, the size stays the same. */
  lemma {:induction false} SteadyBetween(s: seq<Entry>, a: nat, b: nat)
    requires a <= b < |s|
    requires forall k :: a < k <= b ==> !Changed(s, k)
    ensures s[a].imgSize == s[b].imgSize
  {
    if a < b {
      SteadyBetween(s, a, b - 1);
      assert !Changed(s, b);
    }
  }

  /** Across a stretch `(a, b]` where no change point is listed, the size stays the same. */
  lemma SteadyAcrossGap(s: seq<Entry>, m: nat, a: nat, b: nat)
    requires a <= b < m <= |s|
    requires forall u :: 0 <= u < |ChangeIndices(s, m)| ==>
      ChangeIndices(s, m)[u] <= a || ChangeIndices(s, m)[u] > b
    ensures s[a].imgSize == s[b].imgSize
  {
    forall k | a < k <= b
      ensures !Changed(s, k)
    {
      if Changed(s, k) {
        var u := ChangeIsListed(s, m, k);
      }
    }
    SteadyBetween(s, a, b);
  }

  // ---------------------------------------------------------------- the loop's output

  /** With truthy sizes the loop pushes the first sample, then one boundary per change point. */
  lemma {:induction false} CollectedShape(s: seq<Entry>, m: nat)
    requires Defined(s) && 1 <= m <= |s|
    ensures |Collected(s, m)| >= 1 && Collected(s, m)[0] == Entry(s[0].viewport, s[0].imgSize)
    ensures ListsBoundaries(s, ChangeIndices(s, m), Collected(s, m)[1..])
  {
    if m == 1 {
      assert Truthy(s[0].imgSize);
      assert Collected(s, 1) == [Emitted(s, 0)];
    } else {
      CollectedShape(s, m - 1);
      var prior := Collected(s, m - 1);
      assert Truthy(s[m - 2].imgSize);
      if Changed(s, m - 1) {
        assert Collected(s, m) == prior + [Boundary(s, m - 1)];
        assert Collected(s, m)[1..] == prior[1..] + [Boundary(s, m - 1)];
      } else {
        assert Collected(s, m) == prior;
      }
    }
  }

  /** Up to the first change point the size is that of the first sample. */
  lemma FirstChangeSteady(s: seq<Entry>, m: nat)
    requires m <= |s| && ChangeIndices(s, m) != []
    ensures s[ChangeIndices(s, m)[0] - 1].imgSize == s[0].imgSize
  {
    var C := ChangeIndices(s, m);
    forall u | 0 <= u < |C|
      ensures C[u] <= 0 || C[u] > C[0] - 1
    {
      if u > 0 {
        ChangeIndicesOrdered(s, m, 0, u);
      }
    }
    SteadyAcrossGap(s, m, 0, C[0] - 1);
  }

  /** For two or more samples the loop visits indices 0 .. n-2. */
  lemma BreakpointsFromLoop(s: seq<Entry>)
    requires |s| >= 2
    ensures Breakpoints(s) == DropLeading(Collected(s, |s| - 1))
  {
  }

  /** The final `shift`, on a loop output that starts with the first sample's entry and
      then lists the boundaries `ks`: with no boundary the lone entry stays, otherwise
      it is dropped, because the first boundary closes the first sample's size. */
  lemma DropLeadingOfShape(s: seq<Entry>, g: seq<Entry>, ks: seq<nat>)
    requires |s| >= 1 && Truthy(s[0].imgSize)
    requires |g| >= 1 && g[0] == Entry(s[0].viewport, s[0].imgSize)
    requires ListsBoundaries(s, ks, g[1..])
    requires ks != [] ==> s[ks[0] - 1].imgSize == s[0].imgSize
    ensures ks == [] ==> DropLeading(g) == [g[0]]
    ensures ks != [] ==> ListsBoundaries(s, ks, DropLeading(g))
  {
    if ks == [] {
      assert g == [g[0]];
      assert SizeAt(g, 1) == Undefined;
    } else {
      assert g[1..][0] == g[1];
      assert SizeAt(g, 0) == SizeAt(g, 1);
    }
  }

  /** The loop's output after the final `shift`. */
  lemma ShiftedCollected(s: seq<Entry>, m: nat)
    requires Defined(s) && 1 <= m <= |s|
    ensures ChangeIndices(s, m) == [] ==>
      DropLeading(Collected(s, m)) == [Entry(s[0].viewport, s[0].imgSize)]
    ensures ChangeIndices(s, m) != [] ==>
      ListsBoundaries(s, ChangeIndices(s, m), DropLeading(Collected(s, m)))
  {
    CollectedShape(s, m);
    if ChangeIndices(s, m) != [] {
      FirstChangeSteady(s, m);
    }
    assert Truthy(s[0].imgSize);
    DropLeadingOfShape(s, Collected(s, m), ChangeIndices(s, m));
  }

  /** The bounded entries, exactly: none for at most one sample; the first sample's
      entry when the size never changes at indices 1 .. n-2; otherwise one entry
      `{ v_k, s_(k-1) }` per change point k in 1 .. n-2, in order. */
  lemma BreakpointsShape(s: seq<Entry>)
    requires Defined(s)
    ensures |s| <= 1 ==> Breakpoints(s) == []
    ensures |s| >= 2 && ChangeIndices(s, |s| - 1) == [] ==>
      Breakpoints(s) == [Entry(s[0].viewport, s[0].imgSize)]
    ensures |s| >= 2 && ChangeIndices(s, |s| - 1) != [] ==>
      ListsBoundaries(s, ChangeIndices(s, |s| - 1), Breakpoints(s))
  {
    if |s| <= 1 {
      assert Collected(s, LoopBound(s)) == [];
    } else {
      BreakpointsFromLoop(s);
      ShiftedCollected(s, |s| - 1);
    }
  }

  // ---------------------------------------------------------------- properties

  /** At most n-1 bounded entries, none for a single sample; holds for any sizes. */
  lemma BreakpointsCount(s: seq<Entry>)
    ensures |s| >= 1 ==> |Breakpoints(s)| <= |s| - 1
    ensures |s| <= 1 ==> Breakpoints(s) == []
  {
  }

  /** For samples in sweep order the loop pushes entries in strictly increasing viewport
      order, none past the last visited sample; holds for any sizes. */
  lemma {:induction false} CollectedIncreasing(s: seq<Entry>, m: nat)
    requires IncreasingViewports(s) && m <= |s|
    ensures IncreasingViewports(Collected(s, m))
    ensures forall k :: 0 <= k < |Collected(s, m)| ==>
      m >= 1 && Collected(s, m)[k].viewport <= s[m - 1].viewport
  {
    if m > 0 {
      CollectedIncreasing(s, m - 1);
      var prior := Collected(s, m - 1);
      if !Skipped(s, m - 1) {
        var g := prior + [Emitted(s, m - 1)];
        assert Collected(s, m) == g;
        forall a, b | 0 <= a < b < |g|
          ensures g[a].viewport < g[b].viewport
        {
          assert g[a] == prior[a];
          if b == |prior| {
            assert prior[a].viewport <= s[m - 2].viewport;
          } else {
            assert g[b] == prior[b];
          }
        }
      }
    }
  }

  /** For samples in sweep order the bounded entries are in strictly increasing viewport
      order, whatever the sizes, `0` and `undefined` included. */
  lemma BreakpointsIncreasing(s: seq<Entry>)
    requires IncreasingViewports(s)
    ensures IncreasingViewports(Breakpoints(s))
  {
    var g := Collected(s, LoopBound(s));
    CollectedIncreasing(s, LoopBound(s));
    if Breakpoints(s) != g {
      forall a, b | 0 <= a < b < |g| - 1
        ensures g[1..][a].viewport < g[1..][b].viewport
      {
        assert g[1..][a] == g[a + 1] && g[1..][b] == g[b + 1];
      }
    }
  }

  /** Consecutive change points close different sizes. */
  lemma ConsecutiveChangesDiffer(s: seq<Entry>, m: nat, j: nat)
    requires m <= |s| && j + 1 < |ChangeIndices(s, m)|
    ensures s[ChangeIndices(s, m)[j] - 1].imgSize != s[ChangeIndices(s, m)[j + 1] - 1].imgSize
  {
    var C := ChangeIndices(s, m);
    ChangeIndicesOrdered(s, m, j, j + 1);
    forall u | 0 <= u < |C|
      ensures C[u] <= C[j] || C[u] > C[j + 1] - 1
    {
      if u < j {
        ChangeIndicesOrdered(s, m, u, j);
      } else if u > j + 1 {
        ChangeIndicesOrdered(s, m, j + 1, u);
      }
    }
    SteadyAcrossGap(s, m, C[j], C[j + 1] - 1);
    ListedIsChange(s, m, j);
  }

  /** No two adjacent bounded entries share a size. */
  lemma NoAdjacentDuplicates(s: seq<Entry>)
    requires Defined(s)
    ensures forall j :: 0 <= j < |Breakpoints(s)| - 1 ==>
      Breakpoints(s)[j].imgSize != Breakpoints(s)[j + 1].imgSize
  {
    BreakpointsShape(s);
    if |s| >= 2 && ChangeIndices(s, |s| - 1) != [] {
      var B := Breakpoints(s);
      forall j | 0 <= j < |B| - 1
        ensures B[j].imgSize != B[j + 1].imgSize
      {
        ConsecutiveChangesDiffer(s, |s| - 1, j);
      }
    }
  }

  /** A run of at least two samples with one size keeps the single entry
      `(max-width: v_0px)` for the first viewport. */
  lemma ConstantSamples(s: seq<Entry>)
    requires Defined(s) && |s| >= 2
    requires forall i :: 0 <= i < |s| ==> s[i].imgSize == s[0].imgSize
    ensures Breakpoints(s) == [Entry(s[0].viewport, s[0].imgSize)]
  {
    BreakpointsShape(s);
    if ChangeIndices(s, |s| - 1) != [] {
      ListedIsChange(s, |s| - 1, 0);
    }
  }

  /** The first admitting entry decides. */
  lemma {:induction false} ResolveFirst(bps: seq<Entry>, default: Size, viewport: int, t: nat)
    requires t < |bps| && viewport <= bps[t].viewport
    requires forall u :: 0 <= u < t ==> bps[u].viewport < viewport
    ensures Resolve(bps, default, viewport) == bps[t].imgSize
  {
    if t > 0 {
      ResolveFirst(bps[1..], default, viewport, t - 1);
    }
  }

  /** Past every bound, the default applies. */
  lemma {:induction false} ResolvePast(bps: seq<Entry>, default: Size, viewport: int)
    requires forall u :: 0 <= u < |bps| ==> bps[u].viewport < viewport
    ensures Resolve(bps, default, viewport) == default
  {
    if bps != [] {
      ResolvePast(bps[1..], default, viewport);
    }
  }

  /** When every listed change point lies before sample `j`, the size from `j` on is
      the last sample's, provided the last step is not a change. */
  lemma SteadyAfterChanges(s: seq<Entry>, m: nat, j: nat)
    requires m == |s| - 1 && 1 <= m && j <= m && s[m].imgSize == s[m - 1].imgSize
    requires forall u :: 0 <= u < |ChangeIndices(s, m)| ==> ChangeIndices(s, m)[u] < j
    ensures !(1 <= j < m && Changed(s, j))
    ensures s[j].imgSize == s[m].imgSize
  {
    if 1 <= j < m && Changed(s, j) {
      var u := ChangeIsListed(s, m, j);
    }
    if j < m {
      SteadyAcrossGap(s, m, j, m - 1);
    }
  }

  /** Reconstructs, for a sample past every change point. */
  lemma ReconstructsPast(s: seq<Entry>, m: nat, j: nat)
    requires Defined(s) && IncreasingViewports(s) && m == |s| - 1 && 1 <= m && j <= m
    requires s[m].imgSize == s[m - 1].imgSize
    requires ChangeIndices(s, m) == [] ==> j > 0
    requires forall u :: 0 <= u < |ChangeIndices(s, m)| ==> ChangeIndices(s, m)[u] < j
    ensures ResolvedAt(s, j) == Intended(s, j)
  {
    var B := Breakpoints(s);
    BreakpointsShape(s);
    forall u | 0 <= u < |B|
      ensures B[u].viewport < s[j].viewport
    {
      if ChangeIndices(s, m) != [] {
        assert B[u] == Boundary(s, ChangeIndices(s, m)[u]);
      }
    }
    ResolvePast(B, s[m].imgSize, s[j].viewport);
    SteadyAfterChanges(s, m, j);
  }

  /** Reconstructs, for a sample at or before the change point at position `t`. */
  lemma ReconstructsBefore(s: seq<Entry>, m: nat, j: nat, t: nat)
    requires Defined(s) && IncreasingViewports(s) && m == |s| - 1 && 1 <= m && j <= m
    requires t < |ChangeIndices(s, m)|
    requires forall u :: 0 <= u < t ==> ChangeIndices(s, m)[u] < j
    requires ChangeIndices(s, m)[t] >= j
    ensures ResolvedAt(s, j) == Intended(s, j)
  {
    var C := ChangeIndices(s, m);
    var B := Breakpoints(s);
    BreakpointsShape(s);
    forall u | 0 <= u < t
      ensures B[u].viewport < s[j].viewport
    {
      assert B[u] == Boundary(s, C[u]);
    }
    assert B[t] == Boundary(s, C[t]);
    ResolveFirst(B, s[m].imgSize, s[j].viewport, t);
    if C[t] == j {
      ListedIsChange(s, m, t);
      return;
    }
    forall u | 0 <= u < |C|
      ensures C[u] < j || C[u] >= C[t]
    {
      if u > t {
        ChangeIndicesOrdered(s, m, t, u);
      }
    }
    if 1 <= j && Changed(s, j) {
      var u := ChangeIsListed(s, m, j);
    }
    SteadyAcrossGap(s, m, j, C[t] - 1);
  }

  /** Read back as a browser would, the attribute gives every sampled viewport its
      sampled size, except at a change point, where the previous size still applies
      (`max-width` includes its bound), provided the size does not change at the
      last sample. */
  lemma Reconstructs(s: seq<Entry>, j: nat)
    requires Defined(s) && IncreasingViewports(s) && j < |s|
    requires |s| >= 2 ==> s[|s| - 1].imgSize == s[|s| - 2].imgSize
    ensures ResolvedAt(s, j) == Intended(s, j)
  {
    if |s| == 1 {
      ReconstructsSingle(s);
    } else if j == 0 && ChangeIndices(s, |s| - 1) == [] {
      ReconstructsFirst(s);
    } else {
      ReconstructsSplit(s, |s| - 1, j);
    }
  }

  /** Reconstructs, for several samples, split at the first change point at or after `j`. */
  lemma ReconstructsSplit(s: seq<Entry>, m: nat, j: nat)
    requires Defined(s) && IncreasingViewports(s) && m == |s| - 1 && 1 <= m && j <= m
    requires s[m].imgSize == s[m - 1].imgSize
    requires ChangeIndices(s, m) == [] ==> j > 0
    ensures ResolvedAt(s, j) == Intended(s, j)
  {
    var t := FirstAtLeast(ChangeIndices(s, m), j);
    if t == |ChangeIndices(s, m)| {
      ReconstructsPast(s, m, j);
    } else {
      ReconstructsBefore(s, m, j, t);
    }
  }

  /** Reconstructs, for a single sample: only the default remains. */
  lemma ReconstructsSingle(s: seq<Entry>)
    requires |s| == 1
    ensures ResolvedAt(s, 0) == Intended(s, 0)
  {
    assert Breakpoints(s) == [];
  }

  /** Reconstructs, for the first sample when the size never changes. */
  lemma ReconstructsFirst(s: seq<Entry>)
    requires Defined(s) && |s| >= 2 && ChangeIndices(s, |s| - 1) == []
    ensures ResolvedAt(s, 0) == Intended(s, 0)
  {
    BreakpointsShape(s);
  }

  /** A size change at the last sample produces no bounded entry: with samples
      500, 500, 700 at 300, 350, 400 the attribute gives 700 at viewport 350,
      where 500 was sampled. */
  lemma LastChangeDropped()
    ensures
      var s := [Entry(300, Px(500)), Entry(350, Px(500)), Entry(400, Px(700))];
      Breakpoints(s) == [Entry(300, Px(500))] &&
      Resolve(Breakpoints(s), s[2].imgSize, 350) == Px(700) &&
      s[1].imgSize == Px(500)
  {
    var s := [Entry(300, Px(500)), Entry(350, Px(500)), Entry(400, Px(700))];
    assert Collected(s, 2) == [Entry(300, Px(500))];
  }

  /** A single sample gives no bounded entry: the text is `sizes=", Spx"`. */
  lemma SingleSample(e: Entry)
    ensures SizesAttributeOf([e]) == Ok("sizes=\", " + SizeText(e.imgSize) + "px\"")
  {
    assert Breakpoints([e]) == [];
    assert Conditions([]) == [];
    assert Join([], ", ") == "";
    assert "sizes=\"" + "" + ", " == "sizes=\", ";
  }

  /** An empty list of samples is an error. */
  lemma EmptySamplesFail()
    ensures SizesAttributeOf([]) == Err(EmptySamples)
  {
  }
}
