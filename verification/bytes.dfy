/** Bytes, and the few sequence operations that every other module shares. */
module Bytes {

  /** C's uint8_t: arithmetic wraps and the bit operators are the machine's. */
  type byte = bv8

  datatype Option<+T> = None | Some(value: T)

  /** MTU of src/rnode.h: the size of the KISS buffers and of the reassembly buffer. */
  const MTU: nat := 1024

  /** C's integer division: it truncates toward zero. */
  function TruncDiv(x: int, d: int): int
    requires d > 0
  {
    if x >= 0 then x / d else -(-x / d)
  }

  function Flatten<T>(ss: seq<seq<T>>): seq<T> {
    if ss == [] then [] else ss[0] + Flatten(ss[1..])
  }

  lemma {:induction false} FlattenOne<T>(s: seq<T>)
    ensures Flatten([s]) == s
  {
    assert [s][1..] == [];
    assert Flatten([s]) == s + [];
  }

  lemma {:induction false} MulMonotone(a: int, b: int, k: nat)
    requires a <= b
    ensures a * k <= b * k
  {
  }
}
