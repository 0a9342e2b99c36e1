/** What several modules share. */
module Common {

  type byte = b: int | 0 <= b < 256

  datatype Option<+T> = None | Some(value: T)

  function Min(a: nat, b: nat): nat { if a <= b then a else b }

  function Max(a: nat, b: nat): nat { if a >= b then a else b }

  lemma {:induction false} Scale(a: nat, b: nat, p: nat)
    requires a <= b
    ensures a * p <= b * p
  {
  }
}
