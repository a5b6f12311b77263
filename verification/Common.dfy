/** Definitions shared by all components: bytes, 64-bit numbers, optional values and the
    collision-freeness hypothesis under which hash results identify content. */
module Common {
  type Byte = b: int | 0 <= b < 256
  type Bytes = seq<Byte>

  const U64_LIMIT := 0x1_0000_0000_0000_0000
  type U64 = n: int | 0 <= n < U64_LIMIT

  datatype Option<+T> = None | Some(value: T)

  /** No two of the given inputs share a hash. This is assumed only of the inputs
      that a statement names, never of all byte strings. */
  ghost predicate CollisionFree<A, B(!new)>(h: A -> B, inputs: set<A>) {
    forall x, y :: x in inputs && y in inputs && h(x) == h(y) ==> x == y
  }

  predicate NoRepeats<T(==)>(s: seq<T>) {
    forall i, j :: 0 <= i < j < |s| ==> s[i] != s[j]
  }

  lemma Associate<T>(a: seq<T>, b: seq<T>, c: seq<T>)
    ensures a + b + c == a + (b + c)
  {
  }

  /** The bytes of a plain text. */
  function Ascii(text: string): (b: Bytes)
    requires forall i :: 0 <= i < |text| ==> text[i] as int < 128
    ensures |b| == |text| && forall i :: 0 <= i < |text| ==> b[i] == text[i] as int
  {
    seq(|text|, i requires 0 <= i < |text| => text[i] as int)
  }
}
