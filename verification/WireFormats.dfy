/** Wire formats, seen only through what they encode and decode. */
module WireFormats {
  import opened Bytes

  /** A wire format is known by its identity; `Formats` gives what each one encodes and decodes. */
  type Format = nat

  /** What decoding gives: a failure stops after the part in `value` was read. */
  datatype Parsed<F> = Parsed(value: F, complete: bool)

  datatype Formats<!F> = Formats(encode: (Format, F) -> Blob, decode: (Format, Blob) -> Parsed<F>)

  /** The one law assumed of every wire format. */
  ghost predicate RoundTrips<F(!new)>(w: Formats<F>) {
    forall f, x :: w.decode(f, w.encode(f, x)) == Parsed(x, true)
  }
}
