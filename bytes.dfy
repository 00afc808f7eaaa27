/** Bytes, bit tests and C strings, shared by every other module.

    A `byte` is the value of a `uint8_t` (or of a Python `bytes` element).
    Bit operations of the source are written here as arithmetic; the lemmas
    at the end tie each arithmetic form to the bit-vector operation the
    source uses. */
module Bytes {

  type byte = x: int | 0 <= x < 256

  /** The value of a `uint16_t`. */
  type uint16 = x: int | 0 <= x < 0x1_0000

  datatype Option<+T> = None | Some(value: T)

  /** 2 to the power k. */
  function Pow2(k: nat): (r: nat)
    ensures r >= 1
  {
    if k == 0 then 1 else 2 * Pow2(k - 1)
  }

  /** True when bit k (bit 0 is the least significant) of x is set,
      i.e. `x & (1 << k)` is nonzero. */
  predicate BitSet(x: nat, k: nat)
  {
    (x / Pow2(k)) % 2 == 1
  }

  /** A C string's contents: the bytes before its terminating NUL. */
  predicate CString(s: seq<byte>)
  {
    forall i :: 0 <= i < |s| ==> s[i] != 0
  }

  /** The smaller of two naturals. */
  function Min(a: nat, b: nat): nat
  {
    if a <= b then a else b
  }

  /** The byte `p[i]` of a C string: the terminator NUL is read at index |s|. */
  function At(s: seq<byte>, i: nat): byte
  {
    if i < |s| then s[i] else 0
  }

  /** The masks with which the source classifies UTF-8 bytes, written as ranges. */
  lemma LeadByteMasks(x: bv8)
    ensures (x & 0xE0 == 0xE0) <==> x as int >= 0xE0
    ensures (x & 0x80 == 0) <==> x as int < 0x80
    ensures (x & 0xE0 == 0xC0) <==> 0xC0 <= x as int < 0xE0
  {
  }

  /** `b & 0x0F` and `b & 0x3F` are the remainders modulo 16 and 64. */
  lemma LowBitsMasks(x: bv8)
    ensures x & 0x0F == x % 16
    ensures x & 0x3F == x % 64
  {
  }

  /** The 3-byte UTF-8 decoding `((b1 & 0x0F) << 12) | ((b2 & 0x3F) << 6) | (b3 & 0x3F)`,
      evaluated in 16 bits, is a sum of disjoint fields that does not overflow. */
  lemma Utf8FieldsDisjoint(x1: bv16, x2: bv16, x3: bv16)
    ensures ((x1 & 0x0F) << 12) | ((x2 & 0x3F) << 6) | (x3 & 0x3F)
            == (x1 % 16) * 4096 + (x2 % 64) * 64 + x3 % 64
    ensures (x1 % 16) * 4096 + (x2 % 64) * 64 + x3 % 64 <= 0xFFFF
  {
  }

  /** Division by a positive step recovers the slot and the position in it. */
  lemma DivModOfSum(k: nat, c: nat, step: nat)
    requires c < step
    ensures (k * step + c) / step == k && (k * step + c) % step == c
  {
    var x := k * step + c;
    var q, r := x / step, x % step;
    assert x == q * step + r;
    if q < k {
      MulMonotone(1, k - q, step);
    } else if k < q {
      MulMonotone(1, q - k, step);
    }
  }

  /** Multiplication by a natural number is monotone. */
  lemma {:induction false} MulMonotone(k: nat, m: nat, step: nat)
    requires k <= m
    ensures k * step <= m * step
  {
    if k < m {
      MulMonotone(k, m - 1, step);
      assert m * step == (m - 1) * step + step;
    }
  }

  /** Concatenation regroups; stated once so that long call sequences need not be compared element by element. */
  lemma AppendAssoc<T>(a: seq<T>, b: seq<T>, c: seq<T>)
    ensures a + b + c == a + (b + c)
  {
  }
}
