/** Ports and the inclusive ranges in which they are configured. */
module Ports {
  type Port = p: int | 0 <= p < 0x1_0000

  datatype Range = Range(from: Port, to: Port)

  predicate Normalised(r: Range) {
    r.from <= r.to
  }

  /** `(from..=to).contains(&p)`. */
  predicate Contains(r: Range, p: Port) {
    r.from <= p <= r.to
  }

  /** The port lies in one of the ranges. */
  predicate InSome(rs: seq<Range>, p: Port) {
    exists i :: 0 <= i < |rs| && Contains(rs[i], p)
  }
}
