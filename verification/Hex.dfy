/** The textual form of a SHA-256 digest. */
module Hex {
  predicate IsHex64(text: string) {
    |text| == 64 && forall i :: 0 <= i < |text| ==> '0' <= text[i] <= '9' || 'a' <= text[i] <= 'f'
  }
}
