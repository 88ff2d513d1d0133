/** The checksum as the remainder of a division of polynomials over the field of two elements. */
module CrcPolynomial {
  import opened Checksum

  // ---------------------------------------------------------------------------------------------
  // The division; coefficients are written from the highest power down

  function Plus(a: seq<bool>, b: seq<bool>): (r: seq<bool>)
    requires |a| == |b|
    ensures |r| == |a| && forall i :: 0 <= i < |a| ==> r[i] == (a[i] != b[i])
  {
    seq(|a|, i requires 0 <= i < |a| => a[i] != b[i])
  }

  function Zeros(n: nat): (r: seq<bool>)
    ensures |r| == n && forall i :: 0 <= i < n ==> !r[i]
  {
    seq(n, _ => false)
  }

  /** The powers in the generator polynomial of ISO 3309. */
  predicate Power(k: int) { k in {32, 26, 23, 22, 16, 12, 11, 10, 8, 7, 5, 4, 2, 1, 0} }

  function Generator(): (g: seq<bool>)
    ensures |g| == 33 && forall i :: 0 <= i < 33 ==> g[i] == Power(32 - i)
  {
    seq(33, i => Power(32 - i))
  }

  /** Long division: a leading one takes the generator away, a leading zero is dropped. */
  function Remainder(p: seq<bool>): (r: seq<bool>)
    requires |p| >= 32
    ensures |r| == 32
    decreases |p|
  {
    if |p| == 32 then p
    else if p[0] then Remainder(Plus(p[..33], Generator())[1..] + p[33..])
    else Remainder(p[1..])
  }

  /** The bits of a byte in the order of transmission, the lowest first. */
  function LowBits(x: bv32, n: nat): (r: seq<bool>)
    ensures |r| == n
  {
    if n == 0 then [] else [Odd(x)] + LowBits(Half(x), n - 1)
  }

  function Message(data: seq<bv8>): (r: seq<bool>)
    ensures |r| == 8 * |data|
  {
    if data == [] then [] else LowBits(Wide(data[0]), 8) + Message(data[1..])
  }

  /** 32 coefficients added to the highest ones. */
  function Onto(r: seq<bool>, p: seq<bool>): (s: seq<bool>)
    requires |r| == 32 <= |p|
    ensures |s| == |p|
  {
    Plus(r, p[..32]) + p[32..]
  }

  // ---------------------------------------------------------------------------------------------
  // Words as coefficients

  lemma {:induction false} LowBitsXor(x: bv32, y: bv32, n: nat)
    ensures LowBits(Xor(x, y), n) == Plus(LowBits(x, n), LowBits(y, n))
    decreases n
  {
    hide Xor, Half, Odd;
    if n > 0 {
      HalfLinear(x, y);
      LowBitsXor(Half(x), Half(y), n - 1);
    }
  }

  function Halves(x: bv32, n: nat): bv32 { if n == 0 then x else Half(Halves(x, n - 1)) }

  lemma {:induction false} LowBitsLast(x: bv32, n: nat)
    ensures LowBits(x, n + 1) == LowBits(x, n) + [Odd(Halves(x, n))]
    ensures Halves(Half(x), n) == Half(Halves(x, n))
    decreases n
  {
    hide Half, Odd;
    if n == 0 {
      assert LowBits(x, 1) == [Odd(x)] + LowBits(Half(x), 0);
    } else {
      LowBitsLast(Half(x), n - 1);
      LowBitsLast(x, n - 1);
    }
  }

  lemma {:induction false} HalvesTwice(x: bv32, m: nat, n: nat)
    ensures Halves(Halves(x, m), n) == Halves(x, m + n)
  {
    hide Half;
    if n > 0 {
      HalvesTwice(x, m, n - 1);
    }
  }

  lemma EightHalves(x: bv32, eight: nat)
    requires eight == 8
    ensures Halves(x, eight) == Down(x)
  {
    hide Half;
    var h1 := Halves(x, eight - 7);
    assert Halves(x, eight - 8) == x && h1 == Half(x);
    var h2 := Halves(x, eight - 6);
    var h3 := Halves(x, eight - 5);
    var h4 := Halves(x, eight - 4);
    var h5 := Halves(x, eight - 3);
    var h6 := Halves(x, eight - 2);
    var h7 := Halves(x, eight - 1);
    assert h2 == Half(h1) && h3 == Half(h2) && h4 == Half(h3) && h5 == Half(h4) && h6 == Half(h5) && h7 == Half(h6);
    HalfEight(x);
  }

  lemma HalfEight(x: bv32)
    ensures Half(Half(Half(Half(Half(Half(Half(Half(x)))))))) == Down(x)
  {
  }

  lemma NothingBehind(x: bv32, n: nat)
    requires n == 32
    ensures Halves(x, n) == 0
  {
    hide Down;
    EightHalves(x, n - 24);
    EightHalves(Down(x), n - 24);
    EightHalves(Down(Down(x)), n - 24);
    EightHalves(Down(Down(Down(x))), n - 24);
    HalvesTwice(x, 8, 8);
    HalvesTwice(x, 16, 8);
    HalvesTwice(x, 24, 8);
    FourDown(x);
  }

  lemma FourDown(x: bv32)
    ensures Down(Down(Down(Down(x)))) == 0
  {
  }

  /** A shift drops the first coefficient and takes a zero in. */
  lemma LowBitsHalf(x: bv32, n: nat)
    requires n == 32
    ensures LowBits(Half(x), n) == LowBits(x, n)[1..] + [false]
  {
    hide Half, Odd, Halves;
    LowBitsLast(Half(x), n - 1);
    LowBitsLast(x, n - 1);
    NothingBehind(x, n);
    HalvesTwice(x, n - 1, 1);
    OneHalf(Halves(x, n - 1));
    assert LowBits(x, n) == [Odd(x)] + LowBits(Half(x), n - 1);
    assert Halves(Half(x), n - 1) == Half(Halves(x, n - 1)) == 0;
    ZeroIsEven();
  }

  lemma OneHalf(x: bv32)
    ensures Halves(x, 1) == Half(x)
  {
  }

  lemma ZeroIsEven()
    ensures !Odd(0)
  {
  }

  lemma {:induction false} LowBitsSplit(x: bv32, m: nat, n: nat)
    ensures LowBits(x, m + n) == LowBits(x, m) + LowBits(Halves(x, m), n)
    decreases m
  {
    hide Half, Odd;
    if m > 0 {
      LowBitsSplit(Half(x), m - 1, n);
      LowBitsLast(x, m - 1);
      assert Halves(Half(x), m - 1) == Halves(x, m);
    }
  }

  lemma {:induction false} LowBitsZero(n: nat)
    ensures LowBits(0, n) == Zeros(n)
  {
    if n > 0 {
      LowBitsZero(n - 1);
      HalfZero();
    }
  }

  lemma HalfZero()
    ensures Half(0) == 0 && !Odd(0)
  {
  }

  lemma EightLow(x: bv32, a: bv32, b: bv32, c: bv32, d: bv32, e: bv32, f: bv32, g: bv32, eight: nat)
    requires eight == 8 && a == Half(x) && b == Half(a) && c == Half(b) && d == Half(c) && e == Half(d) && f == Half(e)
    requires g == Half(f)
    ensures LowBits(x, eight) == [Odd(x), Odd(a), Odd(b), Odd(c), Odd(d), Odd(e), Odd(f), Odd(g)]
  {
    hide Half, Odd, LowBits;
    FourLow(x, a, b, c, eight - 4);
    FourLow(d, e, f, g, eight - 8);
    NoneLow(Half(g));
  }

  lemma FourLow(x: bv32, a: bv32, b: bv32, c: bv32, n: nat)
    requires a == Half(x) && b == Half(a) && c == Half(b)
    ensures LowBits(x, n + 4) == [Odd(x), Odd(a), Odd(b), Odd(c)] + LowBits(Half(c), n)
  {
    hide Half, Odd, LowBits;
    OneLow(x, n + 3);
    OneLow(a, n + 2);
    OneLow(b, n + 1);
    OneLow(c, n);
  }

  lemma NoneLow(x: bv32)
    ensures LowBits(x, 0) == []
  {
  }

  lemma OneLow(x: bv32, n: nat)
    ensures LowBits(x, n + 1) == [Odd(x)] + LowBits(Half(x), n)
  {
  }

  lemma LowestEight(eight: nat)
    requires eight == 8
    ensures LowBits(0xedb88320, eight) == [false, false, false, false, false, true, false, false]
  {
    EightLow(0xedb88320, 0x76dc4190, 0x3b6e20c8, 0x1db71064, 0xedb8832, 0x76dc419, 0x3b6e20c, 0x1db7106, eight);
  }

  lemma LowEight(eight: nat)
    requires eight == 8
    ensures LowBits(0xedb883, eight) == [true, true, false, false, false, false, false, true]
  {
    EightLow(0xedb883, 0x76dc41, 0x3b6e20, 0x1db710, 0xedb88, 0x76dc4, 0x3b6e2, 0x1db71, eight);
  }

  lemma HighEight(eight: nat)
    requires eight == 8
    ensures LowBits(0xedb8, eight) == [false, false, false, true, true, true, false, true]
  {
    EightLow(0xedb8, 0x76dc, 0x3b6e, 0x1db7, 0xedb, 0x76d, 0x3b6, 0x1db, eight);
  }

  lemma HighestEight(eight: nat)
    requires eight == 8
    ensures LowBits(0xed, eight) == [true, false, true, true, false, true, true, true]
  {
    EightLow(0xed, 0x76, 0x3b, 0x1d, 0xe, 0x7, 0x3, 0x1, eight);
  }

  /** The constant of the program holds the powers below 32. */
  lemma GeneratorWord(n: nat)
    requires n == 32
    ensures LowBits(0xEDB88320, n) == Generator()[1..]
  {
    hide Half, Odd, LowBits, Halves;
    var g, r := Generator()[1..], LowBits(0xEDB88320, n);
    LowestEight(n - 24);
    LowEight(n - 24);
    HighEight(n - 24);
    HighestEight(n - 24);
    EightHalves(0xEDB88320, n - 24);
    EightHalves(0xEDB883, n - 24);
    EightHalves(0xEDB8, n - 24);
    LowBitsSplit(0xEDB88320, n - 24, n - 8);
    LowBitsSplit(0xEDB883, n - 24, n - 16);
    LowBitsSplit(0xEDB8, n - 24, n - 24);
    assert forall i :: 0 <= i < 32 ==> g[i] == Power(31 - i);
    assert forall i :: 0 <= i < 32 ==> r[i] == Power(31 - i);
  }

  function Complement(r: seq<bool>): (s: seq<bool>)
    ensures |s| == |r| && forall i :: 0 <= i < |r| ==> s[i] == !r[i]
  {
    seq(|r|, i requires 0 <= i < |r| => !r[i])
  }

  lemma OnesAreOdd(x: bv32)
    requires LowByte(x) == 0xff
    ensures Odd(x) && Odd(Half(x)) && Odd(Half(Half(x))) && Odd(Half(Half(Half(x))))
    ensures Odd(Half(Half(Half(Half(x))))) && Odd(Half(Half(Half(Half(Half(x))))))
    ensures Odd(Half(Half(Half(Half(Half(Half(x))))))) && Odd(Half(Half(Half(Half(Half(Half(Half(x))))))))
  {
  }

  lemma OnesEight(x: bv32, eight: nat)
    requires eight == 8 && LowByte(x) == 0xff
    ensures LowBits(x, eight) == Complement(Zeros(eight))
  {
    hide Half, Odd, LowByte;
    var a := Half(x);
    var b := Half(a);
    var c := Half(b);
    var d := Half(c);
    var e := Half(d);
    var f := Half(e);
    OnesAreOdd(x);
    EightLow(x, a, b, c, d, e, f, Half(f), eight);
  }

  lemma OnesWord(n: nat)
    requires n == 32
    ensures LowBits(0xffff_ffff, n) == Complement(Zeros(n))
  {
    hide LowBits, Halves;
    OnesEight(0xffff_ffff, n - 24);
    OnesEight(0xff_ffff, n - 24);
    OnesEight(0xffff, n - 24);
    OnesEight(0xff, n - 24);
    EightHalves(0xffff_ffff, n - 24);
    EightHalves(0xff_ffff, n - 24);
    EightHalves(0xffff, n - 24);
    LowBitsSplit(0xffff_ffff, n - 24, n - 8);
    LowBitsSplit(0xff_ffff, n - 24, n - 16);
    LowBitsSplit(0xffff, n - 24, n - 24);
  }

  lemma LowBitsNot(x: bv32, n: nat)
    requires n == 32
    ensures LowBits(Not(x), n) == Complement(LowBits(x, n))
  {
    hide Not, Xor, LowBits;
    NotLaws(x);
    LowBitsXor(x, 0xffff_ffff, n);
    OnesWord(n);
  }

  // ---------------------------------------------------------------------------------------------
  // A step of the program is a step of the division

  /** The next register: the first one shifted, and the powers below 32 of the generator if a one was dropped. */
  ghost predicate Steps(r: seq<bool>, s: seq<bool>) {
    |r| == |s| == 32 && forall i :: 0 <= i < 32 ==> s[i] == ((i < 31 && r[i + 1]) != (r[0] && Power(31 - i)))
  }

  lemma ShiftSteps(r: seq<bool>, s: seq<bool>)
    requires |r| == 32 && s == Plus(r[1..] + [false], if r[0] then Generator()[1..] else Zeros(32))
    ensures Steps(r, s)
  {
    hide Power;
    var g := Generator()[1..];
    assert forall i :: 0 <= i < 32 ==> g[i] == Power(31 - i);
  }

  lemma BitIsStep(q: bv32, n: nat)
    requires n == 32
    ensures Steps(LowBits(q, n), LowBits(Bit(q), n))
  {
    hide Half, Odd, Xor, LowBits, Generator, Zeros, Plus, Steps;
    GeneratorWord(n);
    LowBitsHalf(q, n);
    LowBitsXor(Half(q), if Odd(q) then 0xEDB88320 else 0, n);
    LowBitsZero(n);
    OneLow(q, n - 1);
    ShiftSteps(LowBits(q, n), LowBits(Bit(q), n));
  }

  lemma DivideStep(r: seq<bool>, s: seq<bool>, z: seq<bool>)
    requires Steps(r, s) && |z| >= 32
    ensures Remainder(Onto(r, [false] + z)) == Remainder(Onto(s, z))
  {
    hide Power;
    var p, t := Onto(r, [false] + z), Onto(s, z);
    assert p[0] == r[0];
    forall i | 0 <= i < |z|
      ensures p[i + 1] == if i < 31 then r[i + 1] != z[i] else z[i]
      ensures t[i] == if i < 32 then s[i] != z[i] else z[i]
    {
    }
    if p[0] {
      var next := Plus(p[..33], Generator())[1..] + p[33..];
      forall i | 0 <= i < |z|
        ensures next[i] == t[i]
      {
        assert next[i] == if i < 32 then p[i + 1] != Power(31 - i) else p[i + 1];
      }
      assert next == t;
    } else {
      assert p[1..] == t;
    }
  }

  lemma DivideOne(q: bv32, z: seq<bool>, n: nat)
    requires |z| >= 32 == n
    ensures Remainder(Onto(LowBits(q, n), [false] + z)) == Remainder(Onto(LowBits(Bit(q), n), z))
  {
    hide LowBits, Bit, Remainder, Onto;
    BitIsStep(q, n);
    DivideStep(LowBits(q, n), LowBits(Bit(q), n), z);
  }

  lemma {:induction false} Divide(q: bv32, m: nat, z: seq<bool>, n: nat)
    requires |z| >= 32 == n
    ensures Remainder(Onto(LowBits(q, n), Zeros(m) + z)) == Remainder(Onto(LowBits(Bits(q, m), n), z))
    decreases m
  {
    hide Remainder, LowBits, Bit, Onto;
    if m == 0 {
      assert Zeros(0) + z == z;
    } else {
      assert Zeros(m) + z == Zeros(m - 1) + ([false] + z);
      Divide(q, m - 1, [false] + z, n);
      DivideOne(Bits(q, m - 1), z, n);
    }
  }

  lemma ByteIsShort(b: bv8, n: nat)
    requires n == 32
    ensures LowBits(Wide(b), n) == LowBits(Wide(b), n - 24) + Zeros(n - 8)
  {
    hide LowBits, Halves, Wide;
    LowBitsSplit(Wide(b), n - 24, n - 8);
    EightHalves(Wide(b), n - 24);
    WideIsShort(b);
    LowBitsZero(n - 8);
  }

  lemma WideIsShort(b: bv8)
    ensures Down(Wide(b)) == 0
  {
  }

  /** The byte that the program adds to its register is the one that comes next in the message. */
  lemma Absorb(b: bv8, q: bv32, z: seq<bool>, n: nat)
    requires |z| >= 32 == n
    ensures Onto(LowBits(q, n), LowBits(Wide(b), n - 24) + z) == Onto(LowBits(Xor(Wide(b), q), n), Zeros(n - 24) + z)
  {
    hide LowBits, Xor, Wide;
    LowBitsXor(Wide(b), q, n);
    ByteIsShort(b, n);
  }

  lemma {:induction false} FeedIsRemainder(data: seq<bv8>, q: bv32, n: nat)
    requires n == 32
    ensures LowBits(Feed(data, q), n) == Remainder(Onto(LowBits(q, n), Message(data) + Zeros(n)))
    decreases data
  {
    hide Bit8, Xor, Wide, LowBits, Remainder;
    if data == [] {
      assert Onto(LowBits(q, n), Message(data) + Zeros(n)) == LowBits(q, n);
      WholeRemainder(LowBits(q, n));
    } else {
      var b, z := data[0], Message(data[1..]) + Zeros(n);
      assert Message(data) + Zeros(n) == LowBits(Wide(b), n - 24) + z;
      Absorb(b, q, z, n);
      Divide(Xor(Wide(b), q), n - 24, z, n);
      EightIsBit8(Xor(Wide(b), q), n - 24);
      FeedIsRemainder(data[1..], Bit8(Xor(Wide(b), q)), n);
    }
  }

  lemma WholeRemainder(r: seq<bool>)
    requires |r| == 32
    ensures Remainder(r) == r
  {
  }

  /** The checksum is the complement of the remainder that the message, its first 32 bits complemented for a zero key
      and 32 zeros put behind it, leaves when it is divided by the generator. */
  lemma ChecksumIsRemainder(data: seq<bv8>, key: bv32, n: nat)
    requires n == 32
    ensures LowBits(Checksum.Checksum(data, key), n)
         == Complement(Remainder(Onto(Complement(LowBits(key, n)), Message(data) + Zeros(n))))
  {
    hide Feed, Not, LowBits, Remainder, Onto, Message;
    LowBitsNot(key, n);
    FeedIsRemainder(data, Not(key), n);
    LowBitsNot(Feed(data, Not(key)), n);
  }
}
