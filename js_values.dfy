/** The JavaScript values that the size writer passes around, stated in Dafny's terms. */
module JsValues {

  /** An `imgSize` as the program holds it: a number, or `undefined` when no
      allowed size was large enough (findClosestMatch then has nothing to return). */
  datatype Size = Px(n: int) | Undefined

  /** JavaScript truthiness of an `imgSize`: `undefined` and `0` are falsy. */
  predicate Truthy(z: Size) {
    z.Px? && z.n != 0
  }

  /** One `{ viewport, imgSize }` object: a sample taken at a viewport width, or a
      bounded entry "up to this viewport use this size" of the sizes attribute. */
  datatype Entry = Entry(viewport: int, imgSize: Size)

  /** The two ways the core fails. */
  datatype Failure =
    | SelectorNotFound  // a measurement threw; the run is aborted
    | EmptySamples      // writeSizesAttribute read the last sample of an empty list

  /** The message the sampling loop throws with. */
  function Message(f: Failure): string {
    match f
    case SelectorNotFound => "Selector not found. Please try again."
    case EmptySamples => "Cannot read properties of undefined (reading 'imgSize')"
  }

  datatype Result<T> = Ok(value: T) | Err(error: Failure)
}
