/** Byte strings. */
module Octets {
  type Byte = b: int | 0 <= b < 256

  type Bytes = seq<Byte>

  lemma SliceOfSlice(s: Bytes, from: nat, to: nat, within: nat, bytes: nat)
    requires from <= to <= |s| && within + bytes <= to - from
    ensures s[from..to][within..within + bytes] == s[from + within..from + within + bytes]
  {
    var left, right := s[from..to][within..within + bytes], s[from + within..from + within + bytes];
    forall i | 0 <= i < bytes
      ensures left[i] == right[i]
    {
      assert left[i] == s[from..to][within + i] == s[from + within + i];
    }
    assert left == right;
  }
}
