/** Rounding sizes and addresses up to an alignment. Addresses are 32-bit and byte counts 64-bit,
    with the wrap-around and truncation of the C++ types written out. */
module Rounding {
  import opened Arithmetic
  import opened Words

  const SIZE_MODULUS := 0x1_0000_0000_0000_0000

  /** Rounds a byte count up; the sum wraps at 64 bits. */
  function AlignUpSize(value: nat, alignment: nat): nat {
    if alignment == 0 || value % alignment == 0 then value
    else (value + (alignment - value % alignment)) % SIZE_MODULUS
  }

  /** The alignment that survives the cast to an address. */
  function Unit(alignment: nat): nat {
    alignment % WORD_MODULUS
  }

  /** Rounds an address up; the alignment is truncated to 32 bits and the sum wraps. */
  function AlignUpAddr(value: Word, alignment: nat): Word
    requires alignment != 0 ==> Unit(alignment) != 0
  {
    if alignment == 0 || value % Unit(alignment) == 0 then value
    else Wrap(value + (Unit(alignment) - value % Unit(alignment)))
  }

  /** The unsigned 32-bit difference between the rounded address and the block start. */
  function Padding(offset: Word, alignment: nat): Word
    requires Unit(alignment) != 0
  {
    Wrap(AlignUpAddr(offset, alignment) - offset)
  }

  /** The unsigned difference survives a wrapped sum. */
  lemma WrapBack(offset: Word, gap: Word)
    ensures Wrap(Wrap(offset + gap) - offset) == gap
  {
    if offset + gap >= WORD_MODULUS {
      assert Wrap(offset + gap) == offset + gap - WORD_MODULUS;
    }
  }

  lemma PaddingValue(offset: Word, alignment: nat)
    requires Unit(alignment) != 0
    ensures Padding(offset, alignment) ==
            if offset % Unit(alignment) == 0 then 0 else Unit(alignment) - offset % Unit(alignment)
  {
    var u := Unit(alignment);
    assert u < WORD_MODULUS;
    hide Unit;
    ModBelow(offset, u);
    if offset % u != 0 {
      hide Wrap;
      WrapBack(offset, u - offset % u);
    }
  }

  /** Wrap-around never corrupts the padding: it is the exact distance to the next multiple of
      the alignment, even when the rounded address itself wrapped past 2^32. */
  lemma PaddingExact(offset: Word, alignment: nat)
    requires Unit(alignment) != 0
    ensures (offset + Padding(offset, alignment)) % Unit(alignment) == 0
    ensures forall x: nat :: offset <= x && x % Unit(alignment) == 0 ==> offset + Padding(offset, alignment) <= x
  {
    var u := Unit(alignment);
    PaddingValue(offset, alignment);
    hide Padding, Unit;
    if offset % u != 0 {
      var gap := u - offset % u;
      RoundedUp(offset, u);
      forall x: nat | offset <= x && x % u == 0
        ensures offset + gap <= x
      {
        if x < offset + gap {
          MultipleBetween(x, offset + gap, u);
        }
      }
    }
  }

  /** A request is rounded to at least its own size exactly when the rounding does not wrap. */
  lemma RoundingHonours(size: nat, alignment: nat)
    requires 0 < alignment < SIZE_MODULUS && 0 < size < SIZE_MODULUS
    ensures AlignUpSize(size, alignment) >= size
            <==> size % alignment == 0 || size + (alignment - size % alignment) < SIZE_MODULUS
    ensures AlignUpSize(size, alignment) >= size ==>
              AlignUpSize(size, alignment) % alignment == 0 && AlignUpSize(size, alignment) < size + alignment
  {
    if size % alignment != 0 {
      RoundedUp(size, alignment);
    }
  }
}
