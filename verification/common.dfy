/** Result types shared by the other modules. */
module Common {
  datatype Option<+T> = None | Some(value: T)

  const MAX_INT64: int := 0x7fff_ffff_ffff_ffff
  const TWO_TO_32: int := 0x1_0000_0000
  const TWO_TO_64: int := 0x1_0000_0000_0000_0000

  /** `(*big.Int).Int64` and the conversion of a uint64: the low 64 bits, read as a signed number. */
  function ToInt64(n: int): int {
    var low := n % TWO_TO_64;
    if low <= MAX_INT64 then low else low - TWO_TO_64
  }

  /** The low 64 bits as a signed number: in range, and the same number up to a multiple of 2^64. */
  lemma ToInt64IsLow(n: int)
    ensures -0x8000_0000_0000_0000 <= ToInt64(n) < 0x8000_0000_0000_0000
    ensures (n - ToInt64(n)) % 0x1_0000_0000_0000_0000 == 0
  {
    var q := n / TWO_TO_64;
    assert n - ToInt64(n) == q * TWO_TO_64 || n - ToInt64(n) == (q + 1) * TWO_TO_64;
    TimesModulus(q);
    TimesModulus(q + 1);
  }

  lemma TimesModulus(q: int)
    ensures q * TWO_TO_64 % TWO_TO_64 == 0
  {
  }

  /** What may happen to one Redis transaction, or to one command sent on its own:
      it is applied and acknowledged, it is not applied, or it is applied but the
      caller sees an error (the reply was lost). */
  datatype Fault = Ok | NotApplied | AppliedButLost
}
