/** The viewport sweep and the sampling loop of generateSizesAttribute. */
module Sampling {
  import opened JsValues
  import opened ClosestMatch

  /** The fixed sweep of viewport widths the image is measured at, written as four
      rows whose concatenation is the sweep. */
  const Viewports: seq<int> :=
    [300, 350, 400, 450, 500, 550, 600, 650, 700, 750, 800, 850, 900, 950, 1000] +
    [1050, 1100, 1150, 1200, 1250, 1300, 1350, 1400, 1450, 1500, 1550, 1600, 1650] +
    [1700, 1750, 1800, 1850, 1900, 1950, 2000, 2050, 2100, 2150, 2200, 2250, 2300] +
    [2350, 2400, 2450, 2500, 2550, 2600, 2650]

  predicate StrictlyIncreasing(vs: seq<int>) {
    forall i, j :: 0 <= i < j < |vs| ==> vs[i] < vs[j]
  }

  /** The sweep runs from 300 to 2650 in steps of 50: 48 widths, strictly increasing. */
  lemma SweepShape()
    ensures |Viewports| == 48
    ensures forall i :: 0 <= i < |Viewports| ==> Viewports[i] == 300 + 50 * i
    ensures Viewports[0] == 300 && Viewports[|Viewports| - 1] == 2650
    ensures StrictlyIncreasing(Viewports)
  {
  }

  /** What the browser reports for the target image at one viewport width:
      its rounded rendered width, or a failure because the selector matched nothing. */
  datatype Measurement = Rendered(width: int) | SelectorMissing

  /** The samples a run produces when every measurement succeeds. */
  function SampledEntries(viewports: seq<int>, imageSizes: seq<int>, measure: int -> Measurement): (r: seq<Entry>)
    requires forall i :: 0 <= i < |viewports| ==> measure(viewports[i]).Rendered?
    ensures |r| == |viewports|
  {
    seq(|viewports|, i requires 0 <= i < |viewports| =>
      Entry(viewports[i], LeastAtLeast(measure(viewports[i]).width, imageSizes)))
  }

  /** The sampling loop: for each viewport in sweep order, measure once, snap the
      width to an allowed size and append `{ viewport, imgSize }`; the first failed
      measurement aborts the whole run and no partial list is returned. */
  method SampleViewports(viewports: seq<int>, imageSizes: seq<int>, measure: int -> Measurement)
    returns (r: Result<seq<Entry>>)
    ensures r.Ok? <==> forall i :: 0 <= i < |viewports| ==> measure(viewports[i]).Rendered?
    ensures r.Err? ==> r.error == SelectorNotFound
    ensures r.Err? ==> Message(r.error) == "Selector not found. Please try again."
    ensures r.Ok? ==>
      |r.value| == |viewports| &&
      forall i :: 0 <= i < |viewports| ==>
        r.value[i].viewport == viewports[i] &&
        r.value[i].imgSize == LeastAtLeast(measure(viewports[i]).width, imageSizes)
  {
    var sizes: seq<Entry> := [];
    for k := 0 to |viewports|
      invariant |sizes| == k
      invariant forall i :: 0 <= i < k ==> measure(viewports[i]).Rendered?
      invariant forall i :: 0 <= i < k ==>
        sizes[i] == Entry(viewports[i], LeastAtLeast(measure(viewports[i]).width, imageSizes))
    {
      var viewport := viewports[k];
      var size := measure(viewport);
      if size.SelectorMissing? {
        return Err(SelectorNotFound);
      }
      var imgSize := FindClosestMatch(size.width, imageSizes);
      sizes := sizes + [Entry(viewport, imgSize)];
    }
    r := Ok(sizes);
  }

  /** A successful run over the sweep yields exactly the sampled entries, in sweep order. */
  lemma SampledSweepIncreasing(imageSizes: seq<int>, measure: int -> Measurement)
    requires forall i :: 0 <= i < |Viewports| ==> measure(Viewports[i]).Rendered?
    ensures |SampledEntries(Viewports, imageSizes, measure)| == 48
    ensures forall i, j :: 0 <= i < j < 48 ==>
      SampledEntries(Viewports, imageSizes, measure)[i].viewport <
      SampledEntries(Viewports, imageSizes, measure)[j].viewport
  {
    SweepShape();
  }
}
