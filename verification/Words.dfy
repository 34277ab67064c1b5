/** Option and outcome types, 32-bit words and the small arithmetic shared by the whole model. */
module Words {
  datatype Option<+T> = None | Some(value: T)

  /** The result of an operation that may raise. */
  datatype Outcome<+T> = Ok(value: T) | Raise {
    predicate IsFailure() { Raise? }
    function PropagateFailure<U>(): Outcome<U> requires Raise? { Raise }
    function Extract(): T requires Ok? { value }
  }

  const WORD_MODULUS := 0x1_0000_0000

  /** Data addresses are 16 bits wide. */
  const ADDRESS_SPACE := 0x1_0000

  /** A 32-bit register or memory word, read as an unsigned number. */
  type Word = w: int | 0 <= w < 0x1_0000_0000

  /** Truncation to 32 bits; negative numbers become their two's complement. */
  function Wrap(n: int): Word {
    n % WORD_MODULUS
  }

  /** A register file or memory; an absent key reads as zero. */
  function Lookup<K>(m: map<K, Word>, k: K): Word {
    if k in m then m[k] else 0
  }

  function Min(a: nat, b: nat): nat { if a < b then a else b }
  function Max(a: nat, b: nat): nat { if a > b then a else b }

  /** Memory after writing some data; a write that does not fit is ignored. */
  function Overwrite<T>(memory: seq<T>, addr: nat, data: seq<T>): (m: seq<T>)
    ensures |m| == |memory|
  {
    if addr + |data| <= |memory| then memory[..addr] + data + memory[addr + |data|..] else memory
  }

  lemma OverwriteHere<T>(memory: seq<T>, addr: nat, data: seq<T>)
    ensures addr + |data| <= |memory| ==> Overwrite(memory, addr, data)[addr..addr + |data|] == data
    ensures forall k :: 0 <= k < |memory| && !(addr <= k < addr + |data|) ==>
              Overwrite(memory, addr, data)[k] == memory[k]
  {
  }

  function Pow2(n: nat): (p: nat)
    ensures p >= 1
  {
    if n == 0 then 1 else 2 * Pow2(n - 1)
  }

  /** A byte is eight bits. */
  lemma EightBits()
    ensures Pow2(8) == 256
  {
    assert Pow2(4) == 16;
  }

  /** Bitwise or on naturals. */
  function BitOr(a: nat, b: nat): nat
    decreases a + b
  {
    if a == 0 && b == 0 then 0
    else 2 * BitOr(a / 2, b / 2) + (if a % 2 == 1 || b % 2 == 1 then 1 else 0)
  }

  lemma {:induction false} BitOrZero(a: nat)
    ensures BitOr(a, 0) == a
  {
    if a != 0 { BitOrZero(a / 2); }
  }

  /** Oring a number below 2^k into a multiple of 2^k is addition. */
  lemma {:induction false} BitOrDisjoint(a: nat, b: nat, k: nat)
    requires b < Pow2(k)
    ensures BitOr(a * Pow2(k), b) == a * Pow2(k) + b
  {
    if k == 0 {
      BitOrZero(a);
    } else {
      var p := Pow2(k - 1);
      assert a * Pow2(k) == 2 * (a * p);
      BitOrDisjoint(a, b / 2, k - 1);
      assert (a * Pow2(k)) / 2 == a * p;
    }
  }

  lemma ResiduePeriod(x: int, k: int)
    ensures (x + k * 0x1_0000) % 0x1_0000 == x % 0x1_0000
  {
  }

  /** Truncating to 32 bits first does not change a 16-bit residue of a sum. */
  lemma WrapResidue(x: int)
    ensures Wrap(x) % 0x1_0000 == x % 0x1_0000
  {
    var q := x / WORD_MODULUS;
    ResiduePeriod(Wrap(x), q * 0x1_0000);
  }
}
