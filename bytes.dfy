/** Facts about the engine's byte type, `uint8_t`, modelled as `bv8`. */
module Bytes {
  /** A digit below 256 survives the trip to a byte and back. */
  lemma ByteCast(d: int)
    requires 0 <= d < 256
    ensures (d as bv8) as int == d
  {
    assert d % 256 == d;
  }
}
