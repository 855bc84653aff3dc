/** What several modules share: optional values, integer bounds and the associativity of sequences. */
module Wrappers {

  datatype Option<T> = None | Some(value: T)

  const TWO31: nat := 0x8000_0000
  const TWO32: nat := 0x1_0000_0000

  function Min(a: int, b: int): (m: int) {
    if a < b then a else b
  }

  lemma {:induction false} Assoc<T>(a: seq<T>, b: seq<T>, c: seq<T>)
    ensures (a + b) + c == a + (b + c)
  {
  }
}
