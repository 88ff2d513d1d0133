/** Bytes, and the bit-level view of a byte buffer that the Huffman coder and the message stream share. */
module Bits {

  type Byte = b: int | 0 <= b < 256

  /** `1 << k` */
  function Pow2(k: nat): (p: nat)
    ensures p > 0
  {
    if k == 0 then 1 else 2 * Pow2(k - 1)
  }

  /** `(v >> k) & 1`, one halving at a time; the shift of a negative `v` is arithmetic. */
  predicate BitAt(v: int, k: nat)
    decreases k
  {
    if k == 0 then v % 2 == 1 else BitAt(v / 2, k - 1)
  }

  /** `v | (1 << k)` */
  function OrBit(v: int, k: nat): int
    decreases k
  {
    if k == 0 then (if v % 2 == 1 then v else v + 1) else v % 2 + 2 * OrBit(v / 2, k - 1)
  }

  lemma {:induction false} OrBitAt(v: int, k: nat, j: nat)
    ensures BitAt(OrBit(v, k), j) <==> (BitAt(v, j) || j == k)
    decreases k
  {
    if k > 0 {
      var o := OrBit(v / 2, k - 1);
      assert OrBit(v, k) / 2 == o && OrBit(v, k) % 2 == v % 2;
      if j > 0 {
        OrBitAt(v / 2, k - 1, j - 1);
      }
    } else if j > 0 {
      assert OrBit(v, k) / 2 == v / 2;
    }
  }

  lemma {:induction false} OrBitRange(v: int, k: nat, n: nat)
    requires 0 <= v < Pow2(n) && k < n
    ensures 0 <= OrBit(v, k) < Pow2(n)
    decreases k
  {
    if k > 0 {
      OrBitRange(v / 2, k - 1, n - 1);
    }
  }

  lemma {:induction false} ZeroBits(k: nat)
    ensures !BitAt(0, k)
  {
    if k > 0 {
      ZeroBits(k - 1);
    }
  }

  /** A byte with bit `k` set. */
  function SetBit(b: Byte, k: nat): (r: Byte)
    requires k < 8
    ensures forall j: nat :: BitAt(r, j) <==> (BitAt(b, j) || j == k)
  {
    assert Pow2(8) == 256;
    OrBitRange(b, k, 8);
    assert forall j: nat :: BitAt(OrBit(b, k), j) <==> (BitAt(b, j) || j == k) by {
      forall j: nat {
        OrBitAt(b, k, j);
      }
    }
    OrBit(b, k)
  }

  /** Bit `i` of a buffer, least significant bit of the first byte first. */
  predicate BufBit(buf: seq<Byte>, i: nat)
    requires i / 8 < |buf|
  {
    BitAt(buf[i / 8], i % 8)
  }

  lemma MulSign(d: int, m: nat)
    ensures d >= 1 ==> d * m >= m
    ensures d <= -1 ==> d * m + m <= 0
  {
    assert d >= 1 ==> (d - 1) * m >= 0;
    assert d <= -1 ==> (d + 1) * m <= 0;
  }

  lemma ModUnique(v: int, m: nat, q: int, r: int)
    requires m > 0 && v == q * m + r && 0 <= r < m
    ensures v % m == r && v / m == q
  {
    var d, r' := v / m - q, v % m;
    assert v == (v / m) * m + r';
    assert d * m == r - r';
    MulSign(d, m);
  }

  lemma HalfMod(v: int, n: nat)
    requires n > 0
    ensures v % Pow2(n) == v % 2 + 2 * ((v / 2) % Pow2(n - 1))
  {
    var m := Pow2(n - 1);
    var q, r := (v / 2) / m, (v / 2) % m;
    assert v / 2 == q * m + r;
    assert v == q * (2 * m) + (v % 2 + 2 * r);
    ModUnique(v, 2 * m, q, v % 2 + 2 * r);
  }
}
