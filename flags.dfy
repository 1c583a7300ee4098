/** The message flag bitmask of an interaction reply, a Java `int`.  The source
    only ever ORs the EPHEMERAL bit in (`flags |= EPHEMERAL`) or masks it out
    (`flags &= ~EPHEMERAL`).  For a single bit both operations are written here
    as the equivalent addition or subtraction, and bit 6 of a two's-complement
    value is read with floor division (Dafny's `/` with a positive divisor). */
module MessageFlags {

  /** The values of a Java `int`. */
  type JavaInt = i: int | -0x8000_0000 <= i < 0x8000_0000

  /** Raw value of the EPHEMERAL message flag, 1 << 6.  The lemmas below rely
      only on it being one bit. */
  const Ephemeral: int := 64

  /** The reply is visible only to the invoking user: bit 6 of the mask is set. */
  predicate IsEphemeral(f: int) {
    (f / Ephemeral) % 2 == 1
  }

  /** The mask with the EPHEMERAL bit cleared (`f & ~EPHEMERAL`): every other bit
      of `f` and nothing else. */
  function OtherBits(f: int): int {
    if IsEphemeral(f) then f - Ephemeral else f
  }

  /** The new mask after `setEphemeral(on)`. */
  function WithEphemeral(f: JavaInt, on: bool): (r: JavaInt)
    ensures IsEphemeral(r) == on
    ensures OtherBits(r) == OtherBits(f)
  {
    if on then
      (if IsEphemeral(f) then f else f + Ephemeral)
    else
      OtherBits(f)
  }

  /** Setting the bit twice to the same value is the same as setting it once,
      and a second call overrides the first. */
  lemma WithEphemeralLastWins(f: JavaInt, a: bool, b: bool)
    ensures WithEphemeral(WithEphemeral(f, a), b) == WithEphemeral(f, b)
  {
  }

  /** Switching on and then off leaves exactly the other bits; this is the
      starting mask precisely when EPHEMERAL was clear to begin with. */
  lemma OnThenOff(f: JavaInt)
    ensures WithEphemeral(WithEphemeral(f, true), false) == OtherBits(f)
    ensures WithEphemeral(WithEphemeral(f, true), false) == f <==> !IsEphemeral(f)
  {
  }
}
