/** What the stream is on the wire, and what a reader meets at its end. */
module MessageWire {
  import opened Bits
  import opened Message

  // ---------------------------------------------------------------------------------------------
  // Words and their bytes

  /** The C short that differs from the value by a multiple of 2 to the 16, and the C int by one of 2 to the 32. */
  lemma WordsAre(v: int)
    ensures -0x8000 <= AsShort(v) < 0x8000 && (v - AsShort(v)) % 0x1_0000 == 0
    ensures -0x8000_0000 <= AsLong(v) < 0x8000_0000 && (v - AsLong(v)) % 0x1_0000_0000 == 0
    ensures -0x8000 <= v < 0x8000 ==> AsShort(v) == v
    ensures -0x8000_0000 <= v < 0x8000_0000 ==> AsLong(v) == v
  {
  }

  /** A short and a long are written with their low byte first. */
  lemma LowByteFirst(s: Stream, v: int)
    requires s.Valid()
    ensures exists a: Byte, b: Byte :: Write(s, Short(v)).data == s.data + [a, b] && a + 256 * b == v % 0x1_0000
    ensures exists a: Byte, b: Byte, c: Byte, d: Byte ::
              Write(s, Long(v)).data == s.data + [a, b, c, d]
              && a + 256 * (b + 256 * (c + 256 * d)) == v % 0x1_0000_0000
  {
    var a, b, c, d := v % 256, v / 256 % 256, v / 256 / 256 % 256, v / 256 / 256 / 256 % 256;
    ModUnique(v, 0x1_0000, v / 256 / 256, a + 256 * b);
    ModUnique(v, 0x1_0000_0000, v / 256 / 256 / 256 / 256, a + 256 * (b + 256 * (c + 256 * d)));
    assert Write(s, Short(v)).data == s.data + [a, b];
    assert Write(s, Long(v)).data == s.data + [a, b, c, d];
  }

  // ---------------------------------------------------------------------------------------------
  // Bits and their bytes

  lemma {:induction false} OrBitIsPlus(v: int, k: nat)
    requires 0 <= v < Pow2(k)
    ensures OrBit(v, k) == v + Pow2(k)
    decreases k
  {
    if k > 0 {
      OrBitIsPlus(v / 2, k - 1);
    }
  }

  /** A byte that holds `k` bits already. */
  function Started(data: seq<Byte>, b: Byte, k: nat): Stream { Stream(data + [b], 8 * |data| + k) }

  lemma StartedValid(data: seq<Byte>, b: Byte, k: nat)
    requires 0 < k <= 8 && b < Pow2(k)
    ensures Started(data, b, k).Valid()
  {
    var s := Started(data, b, k);
    if k < 8 {
      assert s.bit / 8 == |data| && s.bit % 8 == k;
      forall j: nat | k <= j < 8
        ensures !BitAt(b, j)
      {
        HighBitClear(b, k, j);
      }
    }
  }

  lemma {:induction false} HighBitClear(b: int, k: nat, j: nat)
    requires 0 <= b < Pow2(k) && k <= j
    ensures !BitAt(b, j)
    decreases j
  {
    if k == 0 {
      ZeroBits(j);
    } else {
      HighBitClear(b / 2, k - 1, j - 1);
    }
  }

  lemma PutOne(data: seq<Byte>, b: Byte, k: nat, bit: bool)
    requires 0 < k < 8 && b < Pow2(k) && Started(data, b, k).Valid()
    ensures var c := b + if bit then Pow2(k) else 0;
            c < Pow2(k + 1) <= 256 && Started(data, b, k).PutBit(bit) == Started(data, c, k + 1)
  {
    var s := Started(data, b, k);
    assert s.bit / 8 == |data| && s.bit % 8 == k;
    OrBitIsPlus(b, k);
    PowerFits(k);
    if bit {
      assert s.data[|data| := SetBit(b, k)] == data + [SetBit(b, k)];
    }
  }

  lemma PowerFits(k: nat)
    requires k < 8
    ensures Pow2(k + 1) == 2 * Pow2(k) <= 256
  {
    assert Pow2(8) == 256;
    PowerGrows(k + 1, 8);
  }

  lemma {:induction false} PowerGrows(j: nat, k: nat)
    requires j <= k
    ensures Pow2(j) <= Pow2(k)
    decreases k
  {
    if j < k {
      PowerGrows(j, k - 1);
    }
  }

  lemma MoreIs(b: int, k: nat, v: int, n: nat)
    requires n > 0
    ensures b + (if v % 2 == 1 then Pow2(k) else 0) + Pow2(k + 1) * ((v / 2) % Pow2(n - 1))
         == b + Pow2(k) * (v % Pow2(n))
  {
    HalfMod(v, n);
    Distribute(Pow2(k), v % 2, (v / 2) % Pow2(n - 1));
    assert v % 2 == 1 ==> Pow2(k) * (v % 2) == Pow2(k);
    assert v % 2 == 0 ==> Pow2(k) * (v % 2) == 0;
  }

  lemma Distribute(p: int, a: int, m: int)
    ensures p * (a + 2 * m) == p * a + 2 * p * m
  {
  }

  lemma NoMore(k: nat, v: int)
    ensures Pow2(k) * (v % Pow2(0)) == 0
  {
    assert v % Pow2(0) == 0;
  }

  /** Further bits of a byte take the places from `k` on, the lowest of the value first. */
  lemma {:induction false} PutMore(data: seq<Byte>, b: Byte, k: nat, v: int, n: nat)
    requires 0 < k && k + n <= 8 && b < Pow2(k) && Started(data, b, k).Valid()
    ensures var c := b + Pow2(k) * (v % Pow2(n));
            0 <= c < 256 && Started(data, b, k).PutBits(v, n) == Started(data, c, k + n)
    decreases n
  {
    hide Pow2, Started, Stream.PutBits, Stream.PutBit, Stream.Valid;
    PutBitsStep(Started(data, b, k), v, n);
    if n == 0 {
      NoMore(k, v);
    } else {
      var c := b + if v % 2 == 1 then Pow2(k) else 0;
      PutOne(data, b, k, v % 2 == 1);
      StartedValid(data, c, k + 1);
      PutMore(data, c, k + 1, v / 2, n - 1);
      MoreIs(b, k, v, n);
    }
  }

  /** Eight bits from a byte boundary on are the byte that a byte write would put there. */
  lemma EightBitsAreAByte(s: Stream, v: int, eight: nat)
    requires s.Valid() && s.bit % 8 == 0 && eight == 8
    ensures s.PutBits(v, eight) == Stream(s.data + [v % 256], 8 * |s.data| + 8)
  {
    hide Stream.PutBits, Stream.PutBit, Stream.Valid;
    PutBitsStep(s, v, eight);
    FirstBit(s, v % 2 == 1);
    SmallPowers();
    StartedValid(s.data, v % 2, 1);
    PutMore(s.data, v % 2, 1, v / 2, eight - 1);
  }

  lemma SmallPowers()
    ensures Pow2(1) == 2 && Pow2(7) == 128
  {
  }

  lemma FirstBit(s: Stream, bit: bool)
    requires s.Valid() && s.bit % 8 == 0
    ensures s.PutBit(bit) == Started(s.data, if bit then 1 else 0, 1)
  {
    var t := s.Opened();
    assert t == Stream(s.data + [0], 8 * |s.data|) && t.bit / 8 == |s.data| && t.bit % 8 == 0;
    OrBitIsPlus(0, 0);
    if bit {
      assert t.data[|s.data| := SetBit(0, 0)] == s.data + [SetBit(0, 0)];
    }
  }

  lemma {:induction false} PutBitsTwice(s: Stream, v: int, m: nat, n: nat)
    requires s.Valid()
    ensures s.PutBits(v, m + n) == s.PutBits(v, m).PutBits(Shifted(v, m), n)
    decreases m
  {
    hide Stream.PutBits, Stream.PutBit, Stream.Valid;
    PutBitsStep(s, v, m);
    PutBitsStep(s, v, m + n);
    if m > 0 {
      PutBitsTwice(s.PutBit(v % 2 == 1), v / 2, m - 1, n);
    }
  }

  function Shifted(v: int, m: nat): int
    decreases m
  {
    if m == 0 then v else Shifted(v / 2, m - 1)
  }

  lemma ShiftedEight(v: int, eight: nat)
    requires eight == 8
    ensures Shifted(v, eight) == v / 256
  {
    var a, b := v / 2, v / 4;
    assert Shifted(v, eight) == Shifted(a, eight - 1) == Shifted(b, eight - 2);
    var c, d := v / 8, v / 16;
    assert Shifted(b, eight - 2) == Shifted(c, eight - 3) == Shifted(d, eight - 4);
    var e, f := v / 32, v / 64;
    assert Shifted(d, eight - 4) == Shifted(e, eight - 5) == Shifted(f, eight - 6);
    assert Shifted(f, eight - 6) == Shifted(v / 128, eight - 7) == Shifted(v / 256, eight - 8);
  }

  /** Eight bits, and the ones behind them. */
  lemma ByteThenBits(s: Stream, v: int, eight: nat, n: nat)
    requires s.Valid() && s.bit % 8 == 0 && eight == 8
    ensures var t := Stream(s.data + [v % 256], 8 * |s.data| + 8);
            t.Valid() && s.PutBits(v, eight + n) == t.PutBits(v / 256, n)
  {
    hide Stream.PutBits, Stream.PutBit;
    EightBitsAreAByte(s, v, eight);
    PutBitsTwice(s, v, eight, n);
    ShiftedEight(v, eight);
  }

  /** Thirty-two bits from a byte boundary on are the bytes of a long write. */
  lemma BitsAreALong(s: Stream, v: int, n: nat)
    requires s.Valid() && s.bit % 8 == 0 && n == 32
    ensures s.PutBits(v, n).data == Write(s, Long(v)).data
  {
    hide Stream.PutBits, Stream.PutBit, Stream.Valid;
    var a := s.data + [v % 256];
    var b := a + [v / 256 % 256];
    var c := b + [v / 256 / 256 % 256];
    var d := c + [v / 256 / 256 / 256 % 256];
    ByteThenBits(s, v, n - 24, n - 8);
    ByteThenBits(Stream(a, 8 * |a|), v / 256, n - 24, n - 16);
    ByteThenBits(Stream(b, 8 * |b|), v / 256 / 256, n - 24, n - 24);
    ByteThenBits(Stream(c, 8 * |c|), v / 256 / 256 / 256, n - 24, n - 32);
    PutBitsStep(Stream(d, 8 * |d|), v / 256 / 256 / 256 / 256, n - 32);
    assert d == s.data + Le32(v);
  }

  // ---------------------------------------------------------------------------------------------
  // The end of the message

  /** A byte read gives -1 exactly at the end, where it stays; anywhere else it gives the byte and moves on. */
  lemma ByteOrEnd(data: seq<Byte>, at: Cursor)
    ensures var (v, next) := GetByte(data, at);
            if at.readcount < |data| then 0 <= v < 256 && v == data[at.readcount]
                                          && next == Cursor(at.readcount + 1, at.bit)
            else v == -1 && next == at
  {
  }

  /** A short or a long of which a byte is missing gives -1, and the reader stays. */
  lemma WordOrEnd(data: seq<Byte>, at: Cursor)
    ensures at.readcount + 2 > |data| ==> GetShort(data, at) == (-1, at)
    ensures at.readcount + 2 <= |data| ==> GetShort(data, at).1 == Cursor(at.readcount + 2, at.bit)
    ensures at.readcount + 4 > |data| ==> GetLong(data, at) == (-1, at)
    ensures at.readcount + 4 <= |data| ==> GetLong(data, at).1 == Cursor(at.readcount + 4, at.bit)
  {
  }

  /** Every byte of a run that is not there reads as 255. */
  lemma {:induction false} RunBehindEnd(data: seq<Byte>, at: Cursor, len: nat)
    requires at.readcount >= |data|
    ensures var (bytes, next) := GetData(data, at, len);
            next == at && forall i :: 0 <= i < len ==> bytes[i] == 255
    decreases len
  {
    if len > 0 {
      RunBehindEnd(data, at, len - 1);
    }
  }

  lemma {:induction false} PaddingBits(s: Stream, at: Cursor, n: nat)
    requires s.Valid() && at.readcount == |s.data| && s.bit <= at.bit && 0 < s.bit % 8
    requires at.bit <= 8 * (s.bit / 8) + 8
    ensures var (o, next) := GetBits(s.data, at, n);
            if n <= 8 * (s.bit / 8) + 8 - at.bit then o.Complete? && FromBits(o.bits) == 0
            else o == PastEnd && BitsResult(o) == -1
    decreases n
  {
    if n > 0 && at.bit < 8 * (s.bit / 8) + 8 {
      assert at.bit / 8 == s.bit / 8 && s.bit % 8 <= at.bit % 8;
      var next := at.(bit := at.bit + 1);
      assert GetBit(s.data, at) == (Complete([false]), next);
      PaddingBits(s, next, n - 1);
      var rest := GetBits(s.data, next, n - 1).0;
      assert rest.Complete? ==> ([false] + rest.bits)[1..] == rest.bits;
    }
  }

  /** A reader at the end of what was written gets zeros for the bits left in the started byte; to ask for more is past
      the end, and gives -1. */
  lemma BitsAtEnd(s: Stream, n: nat)
    requires s.Valid()
    ensures var (o, next) := GetBits(s.data, End(s), n);
            if n <= (8 - s.bit % 8) % 8 then o.Complete? && FromBits(o.bits) == 0
            else o == PastEnd && BitsResult(o) == -1
  {
    if s.bit % 8 != 0 {
      PaddingBits(s, End(s), n);
    } else if n > 0 {
      assert GetBit(s.data, End(s)) == (PastEnd, End(s));
    }
  }

  /** A started byte outside the message gives zero. */
  lemma BitsOutside(data: seq<Byte>, at: Cursor, n: nat)
    requires at.bit % 8 != 0 && at.bit / 8 >= |data| && n > 0
    ensures GetBits(data, at, n) == (Outside, at) && BitsResult(Outside) == 0
  {
  }
}
