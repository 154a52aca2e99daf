/** parseSizes / generateSizesAttribute: sample the sweep, then write the attribute. */
module SizeWriter {
  import opened JsValues
  import opened ClosestMatch
  import opened Sampling
  import opened SizesAttribute
  import opened SizesAttributeProperties

  /** generateSizesAttribute over an explicit sweep, with the browser abstracted
      as `measure`. */
  method GenerateSizesAttribute(imageSizes: seq<int>, viewports: seq<int>, measure: int -> Measurement)
    returns (r: Result<string>)
    ensures (forall i :: 0 <= i < |viewports| ==> measure(viewports[i]).Rendered?) ==>
      r == SizesAttributeOf(SampledEntries(viewports, imageSizes, measure))
    ensures !(forall i :: 0 <= i < |viewports| ==> measure(viewports[i]).Rendered?) ==>
      r == Err(SelectorNotFound)
  {
    var sampled := SampleViewports(viewports, imageSizes, measure);
    if sampled.Err? {
      return Err(sampled.error);
    }
    assert sampled.value == SampledEntries(viewports, imageSizes, measure);
    r := WriteSizesAttribute(sampled.value);
  }

  /** parseSizes: the run over the fixed sweep. It fails only when a measurement
      fails; the empty-input error cannot occur, because the sweep is not empty. */
  method ParseSizes(imageSizes: seq<int>, measure: int -> Measurement) returns (r: Result<string>)
    ensures r.Err? <==> exists i :: 0 <= i < |Viewports| && measure(Viewports[i]).SelectorMissing?
    ensures r.Err? ==> r.error == SelectorNotFound
    ensures r.Err? ==> Message(r.error) == "Selector not found. Please try again."
    ensures r.Ok? ==>
      r == SizesAttributeOf(SampledEntries(Viewports, imageSizes, measure))
  {
    SweepShape();
    r := GenerateSizesAttribute(imageSizes, Viewports, measure);
  }

  /** When every measurement of the sweep finds a nonzero allowed size, the bounded
      entries of the run are in strictly increasing viewport order, no two adjacent
      ones share a size, and there are at most 47 of them. */
  lemma SweepBreakpoints(imageSizes: seq<int>, measure: int -> Measurement)
    requires forall i :: 0 <= i < |Viewports| ==> measure(Viewports[i]).Rendered?
    requires forall x :: x in imageSizes ==> x != 0
    requires forall i :: 0 <= i < |Viewports| ==>
      exists x :: x in imageSizes && x >= measure(Viewports[i]).width
    ensures
      var bps := Breakpoints(SampledEntries(Viewports, imageSizes, measure));
      |bps| <= 47 &&
      IncreasingViewports(bps) &&
      forall j :: 0 <= j < |bps| - 1 ==> bps[j].imgSize != bps[j + 1].imgSize
  {
    var s := SampledEntries(Viewports, imageSizes, measure);
    SampledSweepIncreasing(imageSizes, measure);
    forall i | 0 <= i < |s|
      ensures Truthy(s[i].imgSize)
    {
      LeastAtLeastSpec(measure(Viewports[i]).width, imageSizes);
    }
    BreakpointsCount(s);
    BreakpointsIncreasing(s);
    NoAdjacentDuplicates(s);
  }

  /** The decimal texts the mocked run prints. */
  lemma DecimalTexts()
    ensures Decimal.IntToString(300) == "300" && Decimal.IntToString(500) == "500"
  {
    assert Decimal.NatToString(3) == "3";
    assert Decimal.NatToString(30) == "30";
    assert Decimal.NatToString(5) == "5";
    assert Decimal.NatToString(50) == "50";
  }

  /** The text for a single bounded entry and a default. */
  lemma OneEntryLayout(e: Entry, default: Size)
    ensures SizesText([e], default) == "sizes=\"" + Condition(e) + ", " + SizeText(default) + "px\""
  {
    assert Conditions([e]) == [Condition(e)];
  }

  /** The condition written for the entry at 300 with size 500. */
  lemma ConditionText()
    ensures Condition(Entry(300, Px(500))) == "(max-width: 300px) 500px"
  {
    DecimalTexts();
  }

  /** The text written for one bounded entry at 300 with size 500 and default 500. */
  lemma OneEntryText()
    ensures SizesText([Entry(300, Px(500))], Px(500)) == "sizes=\"(max-width: 300px) 500px, 500px\""
  {
    OneEntryLayout(Entry(300, Px(500)), Px(500));
    ConditionText();
    DecimalTexts();
    assert SizeText(Px(500)) == "500";
    OneEntryLiteral();
  }

  /** The pieces of the attribute, concatenated. */
  lemma OneEntryLiteral()
    ensures "sizes=\"" + "(max-width: 300px) 500px" + ", " + "500" + "px\"" ==
      "sizes=\"(max-width: 300px) 500px, 500px\""
  {
  }

  /** The run the repository's own test mocks: every measurement reports 500 and the
      allowed sizes are 300, 400, ..., 1000. The attribute holds one bounded entry,
      for the first viewport, and the default 500. */
  lemma MockedRun()
    ensures
      var s := SampledEntries(Viewports, [300, 400, 500, 600, 700, 800, 900, 1000], v => Rendered(500));
      SizesAttributeOf(s) == Ok("sizes=\"(max-width: 300px) 500px, 500px\"")
  {
    var sizes := [300, 400, 500, 600, 700, 800, 900, 1000];
    var s := SampledEntries(Viewports, sizes, v => Rendered(500));
    SweepShape();
    LeastAtLeastExact(500, sizes);
    assert forall i :: 0 <= i < |s| ==> s[i].imgSize == Px(500);
    ConstantSamples(s);
    OneEntryText();
  }
}
