/** writeSizesAttribute: from the samples to the text of a `sizes` attribute. */
module SizesAttribute {
  import opened JsValues
  import opened Decimal

  /** `sizes[i - 1]?.imgSize`: `undefined` before the first sample. */
  function PrevSize(s: seq<Entry>, i: nat): Size
    requires i < |s|
  {
    if i == 0 then Undefined else s[i - 1].imgSize
  }

  /** The loop skips index `i` when its size equals the previous one (`===`). */
  predicate Skipped(s: seq<Entry>, i: nat)
    requires i < |s|
  {
    s[i].imgSize == PrevSize(s, i)
  }

  /** The entry pushed at index `i`: its viewport, with the previous size when that
      is truthy and its own size otherwise. */
  function Emitted(s: seq<Entry>, i: nat): Entry
    requires i < |s|
  {
    var prev := PrevSize(s, i);
    Entry(s[i].viewport, if Truthy(prev) then prev else s[i].imgSize)
  }

  /** The loop runs while `i < sizes.length - 1`. */
  function LoopBound(s: seq<Entry>): nat {
    if |s| == 0 then 0 else |s| - 1
  }

  /** What `generatedSizes` holds after the loop has visited indices `0 .. m - 1`. */
  function Collected(s: seq<Entry>, m: nat): (r: seq<Entry>)
    requires m <= |s|
    ensures |r| <= m
  {
    if m == 0 then []
    else Collected(s, m - 1) + (if Skipped(s, m - 1) then [] else [Emitted(s, m - 1)])
  }

  /** `generatedSizes[k]?.imgSize`: `undefined` past the end. */
  function SizeAt(g: seq<Entry>, k: nat): Size {
    if k < |g| then g[k].imgSize else Undefined
  }

  /** The `shift` of the first entry when the first two sizes compare equal
      (`shift` on an empty array changes nothing). */
  function DropLeading(g: seq<Entry>): (r: seq<Entry>)
    ensures |r| <= |g|
  {
    if SizeAt(g, 0) == SizeAt(g, 1) && g != [] then g[1..] else g
  }

  /** The bounded entries writeSizesAttribute formats. */
  function Breakpoints(s: seq<Entry>): (r: seq<Entry>)
    ensures |r| <= LoopBound(s)
  {
    DropLeading(Collected(s, LoopBound(s)))
  }

  /** The loop of writeSizesAttribute, with its `push`es and the final `shift`. */
  method CollectBreakpoints(sizes: seq<Entry>) returns (generated: seq<Entry>)
    ensures generated == Breakpoints(sizes)
  {
    generated := [];
    var i := 0;
    while i < |sizes| - 1
      invariant 0 <= i <= LoopBound(sizes)
      invariant generated == Collected(sizes, i)
    {
      var prev := PrevSize(sizes, i);
      if sizes[i].imgSize != prev {
        generated := generated + [Entry(sizes[i].viewport, if Truthy(prev) then prev else sizes[i].imgSize)];
      }
      i := i + 1;
    }
    if SizeAt(generated, 0) == SizeAt(generated, 1) && |generated| > 0 {
      generated := generated[1..];
    }
  }

  /** `${imgSize}`: a number in decimal, or the word `undefined`. */
  function SizeText(z: Size): string {
    match z
    case Px(n) => IntToString(n)
    case Undefined => "undefined"
  }

  /** `(max-width: ${item.viewport}px) ${item.imgSize}px` */
  function Condition(e: Entry): string {
    "(max-width: " + IntToString(e.viewport) + "px) " + SizeText(e.imgSize) + "px"
  }

  function Conditions(bps: seq<Entry>): (r: seq<string>)
    ensures |r| == |bps|
  {
    seq(|bps|, i requires 0 <= i < |bps| => Condition(bps[i]))
  }

  /** `Array.prototype.join`. */
  function Join(parts: seq<string>, sep: string): string {
    if |parts| == 0 then ""
    else if |parts| == 1 then parts[0]
    else parts[0] + sep + Join(parts[1..], sep)
  }

  /** The attribute text: the bounded conditions joined by ", ", then ", " and the default size. */
  function SizesText(bps: seq<Entry>, default: Size): string {
    "sizes=\"" + Join(Conditions(bps), ", ") + ", " + SizeText(default) + "px\""
  }

  /** What writeSizesAttribute returns, or the error it throws on an empty list. */
  function SizesAttributeOf(s: seq<Entry>): Result<string> {
    if |s| == 0 then Err(EmptySamples)
    else Ok(SizesText(Breakpoints(s), s[|s| - 1].imgSize))
  }

  /** writeSizesAttribute. */
  method WriteSizesAttribute(sizes: seq<Entry>) returns (r: Result<string>)
    ensures r == SizesAttributeOf(sizes)
    ensures r.Err? <==> |sizes| == 0
    ensures r.Err? ==> r.error == EmptySamples
    ensures r.Ok? ==> r.value == SizesText(Breakpoints(sizes), sizes[|sizes| - 1].imgSize)
  {
    var generatedSizes := CollectBreakpoints(sizes);
    if |sizes| == 0 {
      return Err(EmptySamples);
    }
    r := Ok(SizesText(generatedSizes, sizes[|sizes| - 1].imgSize));
  }
}
