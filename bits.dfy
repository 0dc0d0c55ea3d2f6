/** Go's fixed-width unsigned integers and the operators the interpreter applies
    to them, written out over unbounded integers: wrap-around addition, the
    shifts, and the bitwise `&`, `|` and `^`. */
module Bits {

  /** Go `byte` (uint8). */
  type byte = b: int | 0 <= b < 256

  /** Go `uint16`. */
  type uint16 = w: int | 0 <= w < 65536

  function Pow2(n: nat): (p: nat)
    ensures p >= 1
  {
    if n == 0 then 1 else 2 * Pow2(n - 1)
  }

  /** `a + b` on two Go bytes: the sum wraps modulo 256. */
  function AddByte(a: byte, b: byte): (r: byte)
  {
    (a + b) % 256
  }

  /** `a - b` on two Go bytes: the difference wraps modulo 256. */
  function SubByte(a: byte, b: byte): (r: byte)
  {
    (a - b) % 256
  }

  /** `a + b` on two Go uint16 values: the sum wraps modulo 65536. */
  function AddU16(a: uint16, b: uint16): (r: uint16)
  {
    (a + b) % 65536
  }

  /** `a >> s`: shift right, filling with zeros. */
  function Shr(a: nat, s: nat): (r: nat)
    ensures r <= a
  {
    if s == 0 then a else Shr(a / 2, s - 1)
  }

  /** `s` doubled k times, that is s * 2^k, written so that it stays linear. */
  function Scale(s: nat, k: nat): (r: nat)
  {
    if k == 0 then s else 2 * Scale(s, k - 1)
  }

  /** `a << s` on an n-bit unsigned integer: bits shifted past bit n-1 are lost. */
  function Shl(a: nat, s: nat, n: nat): (r: nat)
  {
    Scale(a, s) % Pow2(n)
  }

  lemma {:induction false} ScaleProduct(s: nat, k: nat)
    ensures Scale(s, k) == s * Pow2(k)
  {
    if k > 0 {
      ScaleProduct(s, k - 1);
      assert 2 * (s * Pow2(k - 1)) == s * (2 * Pow2(k - 1));
    }
  }

  /** The three bitwise operators of Go on unsigned integers. */
  datatype BitOp = And | Or | Xor

  /** The operator applied to two single bits. */
  function ApplyBit(op: BitOp, p: nat, q: nat): (r: nat)
    requires p < 2 && q < 2
  {
    match op
    case And => if p == 1 && q == 1 then 1 else 0
    case Or => if p == 1 || q == 1 then 1 else 0
    case Xor => if p != q then 1 else 0
  }

  /** The operator applied bit by bit to the low n bits of a and b, least
      significant bit first. */
  function Bitwise(op: BitOp, a: nat, b: nat, n: nat): (r: nat)
    decreases n
  {
    if n == 0 then 0
    else 2 * Bitwise(op, a / 2, b / 2, n - 1) + ApplyBit(op, a % 2, b % 2)
  }

  /** The result has n bits. */
  lemma {:induction false} BitwiseBound(op: BitOp, a: nat, b: nat, n: nat)
    ensures Bitwise(op, a, b, n) < Pow2(n)
  {
    if n > 0 {
      BitwiseBound(op, a / 2, b / 2, n - 1);
    }
  }

  /** `a ^ b` on two Go bytes. */
  function Xor8(a: byte, b: byte): (r: byte)
  {
    BitwiseBound(Xor, a, b, 8);
    Pow2Byte();
    Bitwise(Xor, a, b, 8)
  }

  lemma Pow2Byte()
    ensures Pow2(8) == 256
  {
  }

  lemma Pow2Word()
    ensures Pow2(12) == 4096 && Pow2(16) == 65536
  {
    Pow2Byte();
  }

  lemma {:induction false} Pow2Monotone(k: nat, n: nat)
    requires k <= n
    ensures Pow2(k) <= Pow2(n)
  {
    if k < n {
      Pow2Monotone(k, n - 1);
    }
  }

  /** `|` and `^` with zero give back the other operand. */
  lemma {:induction false} BitwiseWithZero(op: BitOp, a: nat, n: nat)
    requires op != And && a < Pow2(n)
    ensures Bitwise(op, a, 0, n) == a
  {
    if n > 0 {
      BitwiseWithZero(op, a / 2, n - 1);
    }
  }

  /** `^ b` undoes itself. */
  lemma {:induction false} XorSelfInverse(a: nat, b: nat, n: nat)
    requires a < Pow2(n)
    ensures Bitwise(Xor, Bitwise(Xor, a, b, n), b, n) == a
  {
    if n > 0 {
      XorSelfInverse(a / 2, b / 2, n - 1);
    }
  }

  /** Every operator maps two zero operands to zero. */
  lemma {:induction false} BitwiseZeros(op: BitOp, n: nat)
    ensures Bitwise(op, 0, 0, n) == 0
  {
    if n > 0 {
      BitwiseZeros(op, n - 1);
    }
  }

  /** `& 0` clears every bit. */
  lemma {:induction false} AndZero(a: nat, n: nat)
    ensures Bitwise(And, a, 0, n) == 0
  {
    if n > 0 {
      AndZero(a / 2, n - 1);
    }
  }

  /** `a & 1` keeps the lowest bit of a: it is a % 2. */
  lemma AndOne(a: nat, n: nat)
    requires 1 <= n
    ensures Bitwise(And, a, 1, n) == a % 2
  {
    AndZero(a / 2, n - 1);
  }

  /** On single bits, the operator is its one-bit truth table. */
  lemma BitwiseOnBits(op: BitOp, p: nat, q: nat, n: nat)
    requires 1 <= n && p < 2 && q < 2
    ensures Bitwise(op, p, q, n) == ApplyBit(op, p, q)
  {
    BitwiseZeros(op, n - 1);
  }

  /** On single bits, the byte XOR is "differs". */
  lemma Xor8OnBits(a: byte, v: byte)
    requires a < 2 && v < 2
    ensures Xor8(a, v) == if a == v then 0 else 1
  {
    BitwiseOnBits(Xor, a, v, 8);
  }

  /** `a ^ 0 == a` on bytes. */
  lemma Xor8Zero(a: byte)
    ensures Xor8(a, 0) == a
  {
    Pow2Byte();
    BitwiseWithZero(Xor, a, 8);
  }

  /** `a ^ v ^ v == a` on bytes. */
  lemma Xor8Twice(a: byte, v: byte)
    ensures Xor8(Xor8(a, v), v) == a
  {
    Pow2Byte();
    XorSelfInverse(a, v, 8);
  }

  /** `|` of a value shifted left by k and a value below 2^k is their sum:
      the two have no bit in common. */
  lemma {:induction false} OrDisjoint(h: nat, lo: nat, k: nat, n: nat)
    requires k <= n && lo < Pow2(k) && Scale(h, k) < Pow2(n)
    ensures Bitwise(Or, Scale(h, k), lo, n) == Scale(h, k) + lo
  {
    if k == 0 {
      BitwiseWithZero(Or, h, n);
    } else {
      OrDisjoint(h, lo / 2, k - 1, n - 1);
    }
  }

  /** `uint16(hi) << 8 | uint16(lo)` is the big-endian 16-bit value
      hi * 256 + lo, and splits back into hi and lo. */
  lemma OrHighLow(hi: byte, lo: byte)
    ensures Bitwise(Or, Shl(hi, 8, 16), lo, 16) == hi * 256 + lo
    ensures (hi * 256 + lo) / 256 == hi && (hi * 256 + lo) % 256 == lo
  {
    Pow2Word();
    ScaleProduct(hi, 8);
    var h := Scale(hi, 8);
    assert h == hi * 256 && h < 65536;
    assert Shl(hi, 8, 16) == h;
    OrDisjoint(hi, lo, 8, 16);
  }

  /** `&` with n one-bits keeps the n-bit operand. */
  lemma {:induction false} AndOnes(a: nat, n: nat)
    requires a < Pow2(n)
    ensures Bitwise(And, a, Pow2(n) - 1, n) == a
  {
    if n > 0 {
      AndOnes(a / 2, n - 1);
    }
  }

  /** `&` with a mask whose bits k..n-1 are set keeps the top n-k bits:
      it is `(a >> k) << k`. */
  lemma {:induction false} AndHighMask(a: nat, k: nat, n: nat)
    requires k <= n && a < Pow2(n)
    ensures Pow2(k) <= Pow2(n)
    ensures Bitwise(And, a, Pow2(n) - Pow2(k), n) == Scale(Shr(a, k), k)
  {
    Pow2Monotone(k, n);
    if k == 0 {
      AndOnes(a, n);
    } else {
      Pow2Monotone(k - 1, n - 1);
      var m := Pow2(n) - Pow2(k);
      assert m % 2 == 0 && m / 2 == Pow2(n - 1) - Pow2(k - 1);
      AndHighMask(a / 2, k - 1, n - 1);
    }
  }

  /** Shifting an n-bit value right by s leaves an (n-s)-bit value. */
  lemma {:induction false} ShrBelow(a: nat, s: nat, n: nat)
    requires s <= n && a < Pow2(n)
    ensures Shr(a, s) < Pow2(n - s)
  {
    if s > 0 {
      ShrBelow(a / 2, s - 1, n - 1);
    }
  }
}
