/** Small vocabulary shared by the modules of the model. */
module Common {

  datatype Option<+T> = None | Some(value: T)

  /** One octet. Integer widths in the program are written out where they matter. */
  newtype byte = x: int | 0 <= x < 256

  type Bytes = seq<byte>

  /** What a conversation is called tells whether it is a group. */
  predicate IsGroup(name: string) {
    "g:" <= name
  }

  lemma GroupsAreNamed(name: string)
    ensures IsGroup(name) <==> |name| >= 2 && name[0] == 'g' && name[1] == ':'
  {}

  lemma SliceOfTail<T>(s: seq<T>, from: nat, i: nat, j: nat)
    requires i <= j && from + j <= |s|
    ensures s[from..][i..j] == s[from + i..from + j]
  {}

  // ── Exclusive or ────────────────────────────────────────────────────────

  /** Exclusive or of the `bits` low-order bits of two numbers. */
  function XorBits(a: nat, b: nat, bits: nat): (r: nat)
  {
    if bits == 0 then 0
    else (if a % 2 == b % 2 then 0 else 1) + 2 * XorBits(a / 2, b / 2, bits - 1)
  }

  function Pow2(bits: nat): (r: nat)
    ensures r > 0
  {
    if bits == 0 then 1 else 2 * Pow2(bits - 1)
  }

  lemma {:induction false} XorBitsInvolutive(a: nat, b: nat, bits: nat)
    requires a < Pow2(bits)
    ensures XorBits(a, b, bits) < Pow2(bits)
    ensures XorBits(XorBits(a, b, bits), b, bits) == a
  {
    if bits == 0 {
    } else {
      XorBitsInvolutive(a / 2, b / 2, bits - 1);
      var x := XorBits(a, b, bits);
      assert x / 2 == XorBits(a / 2, b / 2, bits - 1);
    }
  }

  /** Bits that are not set change nothing. */
  lemma {:induction false} XorBitsZero(a: nat, bits: nat)
    requires a < Pow2(bits)
    ensures XorBits(a, 0, bits) == a
  {
    if bits > 0 {
      XorBitsZero(a / 2, bits - 1);
    }
  }

  /** Those that are flip a bit each. */
  lemma {:induction false} XorBitsFlips(a: nat, ones: nat, bits: nat)
    requires a < Pow2(bits) && ones == Pow2(bits) - 1
    ensures XorBits(a, ones, bits) == ones - a
  {
    if bits > 0 {
      var half := Pow2(bits - 1) - 1;
      assert ones == 2 * half + 1;
      XorBitsFlips(a / 2, half, bits - 1);
      hide Pow2;
      assert ones / 2 == half && ones % 2 == 1;
      assert XorBits(a, ones, bits) == (if a % 2 == 1 then 0 else 1) + 2 * (half - a / 2);
    }
  }

  lemma XorFlips(a: byte)
    ensures Xor(a, 0) == a && Xor(a, 255) as int == 255 - a as int
  {
    Pow2Of8();
    XorBitsZero(a as nat, 8);
    XorBitsFlips(a as nat, 255, 8);
  }

  function Xor(a: byte, b: byte): byte {
    Pow2Of8();
    XorBitsInvolutive(a as nat, b as nat, 8);
    XorBits(a as nat, b as nat, 8) as byte
  }

  lemma Pow2Of8()
    ensures Pow2(8) == 256
  {
    assert Pow2(4) == 16;
    assert Pow2(8) == 16 * Pow2(4);
  }

  lemma XorTwice(a: byte, b: byte)
    ensures Xor(Xor(a, b), b) == a
  {
    Pow2Of8();
    XorBitsInvolutive(a as nat, b as nat, 8);
  }

  lemma {:induction false} XorBitsCommutes(a: nat, b: nat, bits: nat)
    ensures XorBits(a, b, bits) == XorBits(b, a, bits)
  {
    if bits > 0 {
      XorBitsCommutes(a / 2, b / 2, bits - 1);
    }
  }

  /** Different key bytes make different bytes of the same byte. */
  lemma XorCancels(a: byte, b: byte, c: byte)
    ensures Xor(a, b) == Xor(a, c) <==> b == c
  {
    XorBitsCommutes(a as nat, b as nat, 8);
    XorBitsCommutes(a as nat, c as nat, 8);
    XorTwice(b, a);
    XorTwice(c, a);
  }
}
