/** The block checksum of src/filesystem.c. */
module Checksum {

  // ---------------------------------------------------------------------------------------------
  // Words

  function Xor(x: bv32, y: bv32): bv32 { x ^ y }

  function Not(x: bv32): bv32 { !x }

  function Wide(b: bv8): bv32 { b as bv32 }

  function LowByte(x: bv32): bv8 { (x & 0xff) as bv8 }

  function Up(x: bv32): bv32 { x << 8 }

  function Down(x: bv32): bv32 { x >> 8 }

  function Half(x: bv32): bv32 { x >> 1 }

  predicate Odd(x: bv32) { x & 1 != 0 }

  lemma XorLaws(a: bv32, b: bv32)
    ensures Xor(a, 0) == a && Xor(0, a) == a && Xor(a, a) == 0 && Xor(a, b) == Xor(b, a)
  {
  }

  lemma XorAssociative(a: bv32, b: bv32, c: bv32)
    ensures Xor(Xor(a, b), c) == Xor(a, Xor(b, c))
  {
  }

  lemma XorCancels(b: bv32, p: bv32, q: bv32)
    requires Xor(b, p) == Xor(b, q)
    ensures p == q
  {
    hide Xor;
    XorAssociative(b, b, p);
    XorAssociative(b, b, q);
    XorLaws(b, b);
    XorLaws(p, q);
    XorLaws(q, p);
  }

  lemma NotLaws(x: bv32)
    ensures Not(Not(x)) == x && Not(x) == Xor(x, 0xffff_ffff) && Not(0) == 0xffff_ffff
  {
  }

  // ---------------------------------------------------------------------------------------------
  // Specification

  /** One bit: a shift, and the polynomial if a one falls out. */
  function Bit(q: bv32): bv32 { Xor(Half(q), if Odd(q) then 0xEDB88320 else 0) }

  function Bits(q: bv32, n: nat): bv32
    decreases n
  {
    if n == 0 then q else Bit(Bits(q, n - 1))
  }

  /** One byte. */
  function Bit8(q: bv32): bv32 { Bit(Bit(Bit(Bit(Bit(Bit(Bit(Bit(q)))))))) }

  function Feed(data: seq<bv8>, q: bv32): bv32
    decreases data
  {
    if data == [] then q else Feed(data[1..], Bit8(Xor(Wide(data[0]), q)))
  }

  /** Com_BlockChecksumKey32. */
  function Checksum(data: seq<bv8>, key: bv32): bv32 { Not(Feed(data, Not(key))) }

  // ---------------------------------------------------------------------------------------------
  // Chaining

  lemma {:induction false} FeedAppend(a: seq<bv8>, b: seq<bv8>, q: bv32)
    ensures Feed(a + b, q) == Feed(b, Feed(a, q))
    decreases a
  {
    hide Bit8, Xor, Wide;
    if a == [] {
      assert a + b == b;
    } else {
      assert (a + b)[1..] == a[1..] + b;
      FeedAppend(a[1..], b, Bit8(Xor(Wide(a[0]), q)));
    }
  }

  /** The checksum of two blocks is the checksum of the second keyed by that of the first. */
  lemma Chains(a: seq<bv8>, b: seq<bv8>, key: bv32)
    ensures Checksum(a + b, key) == Checksum(b, Checksum(a, key))
  {
    hide Not, Feed;
    FeedAppend(a, b, Not(key));
    NotLaws(Feed(a, Not(key)));
  }

  // ---------------------------------------------------------------------------------------------
  // The table-driven form of section 8 of RFC 1952

  /** The loop of make_crc_table. */
  function TableBit(c: bv32): bv32 { if Odd(c) then Xor(0xedb88320, Half(c)) else Half(c) }

  /** crc_table[n] */
  function TableEntry(n: bv8): bv32 {
    TableBit(TableBit(TableBit(TableBit(TableBit(TableBit(TableBit(TableBit(Wide(n)))))))))
  }

  lemma TableBitIsBit(c: bv32)
    ensures TableBit(c) == Bit(c)
  {
    hide Xor, Half, Odd;
    XorLaws(Half(c), 0xedb88320);
    XorLaws(0xedb88320, Half(c));
    XorLaws(Half(c), 0);
  }

  lemma EntryIsEight(n: bv8)
    ensures TableEntry(n) == Bit8(Wide(n))
  {
    hide Bit, TableBit, Wide;
    forall c: bv32
      ensures TableBit(c) == Bit(c)
    {
      TableBitIsBit(c);
    }
  }

  /** update_crc between its two complements. */
  function Update(data: seq<bv8>, c: bv32): bv32
    decreases data
  {
    if data == [] then c else Update(data[1..], Xor(TableEntry(LowByte(Xor(c, Wide(data[0])))), Down(c)))
  }

  function Crc32(data: seq<bv8>): bv32 { Xor(Update(data, Xor(0, 0xffff_ffff)), 0xffff_ffff) }

  lemma HalfLinear(x: bv32, y: bv32)
    ensures Half(Xor(x, y)) == Xor(Half(x), Half(y)) && (Odd(Xor(x, y)) <==> Odd(x) != Odd(y))
  {
  }

  lemma XorRegroups(a: bv32, p: bv32, b: bv32, q: bv32)
    ensures Xor(Xor(a, p), Xor(b, q)) == Xor(Xor(a, b), Xor(p, q))
  {
    hide Xor;
    XorAssociative(a, p, Xor(b, q));
    XorAssociative(p, b, q);
    XorLaws(p, b);
    XorAssociative(b, p, q);
    XorAssociative(a, b, Xor(p, q));
  }

  /** The bit step is linear. */
  lemma BitLinear(x: bv32, y: bv32)
    ensures Bit(Xor(x, y)) == Xor(Bit(x), Bit(y))
  {
    hide Xor, Half, Odd;
    HalfLinear(x, y);
    XorRegroups(Half(x), if Odd(x) then 0xEDB88320 else 0, Half(y), if Odd(y) then 0xEDB88320 else 0);
    XorLaws(0xEDB88320, 0);
    XorLaws(0, 0);
  }

  lemma Bit8Linear(x: bv32, y: bv32)
    ensures Bit8(Xor(x, y)) == Xor(Bit8(x), Bit8(y))
  {
    hide Bit, Xor;
    BitLinear(x, y);
    var x1, y1 := Bit(x), Bit(y);
    BitLinear(x1, y1);
    var x2, y2 := Bit(x1), Bit(y1);
    BitLinear(x2, y2);
    var x3, y3 := Bit(x2), Bit(y2);
    BitLinear(x3, y3);
    var x4, y4 := Bit(x3), Bit(y3);
    BitLinear(x4, y4);
    var x5, y5 := Bit(x4), Bit(y4);
    BitLinear(x5, y5);
    var x6, y6 := Bit(x5), Bit(y5);
    BitLinear(x6, y6);
    var x7, y7 := Bit(x6), Bit(y6);
    BitLinear(x7, y7);
  }

  /** A word of three bytes, moved up by `k` bits. */
  function Moved(x: bv32, k: nat): bv32
    requires k <= 8
  {
    var w := x & 0xff_ffff;
    if k == 0 then w else if k == 1 then w << 1 else if k == 2 then w << 2 else if k == 3 then w << 3
    else if k == 4 then w << 4 else if k == 5 then w << 5 else if k == 6 then w << 6
    else if k == 7 then w << 7 else w << 8
  }

  lemma MovesBack(x: bv32, k: nat)
    requires k < 8
    ensures Bit(Moved(x, k + 1)) == Moved(x, k)
  {
    if k < 4 {
      if k == 0 {
      } else if k == 1 {
      } else if k == 2 {
      } else {
      }
    } else if k == 4 {
    } else if k == 5 {
    } else if k == 6 {
    } else {
    }
  }

  lemma UpMoves(x: bv32)
    ensures Up(x) == Moved(x, 8) && Moved(x, 0) == x & 0xff_ffff
  {
  }

  /** What is shifted in from the second byte on is only shifted. */
  lemma HighShifts(x: bv32)
    ensures Bit8(Up(x)) == x & 0xff_ffff
  {
    hide Bit, Up, Moved;
    UpMoves(x);
    MovesBack(x, 7);
    MovesBack(x, 6);
    MovesBack(x, 5);
    MovesBack(x, 4);
    MovesBack(x, 3);
    MovesBack(x, 2);
    MovesBack(x, 1);
    MovesBack(x, 0);
  }

  lemma LowAndRest(z: bv32)
    ensures z == Xor(Wide(LowByte(z)), Up(Down(z)))
  {
  }

  lemma RestOfMixed(c: bv32, b: bv8)
    ensures Down(Xor(Wide(b), c)) == Down(c)
  {
  }

  lemma RestFits(c: bv32)
    ensures Down(c) & 0xff_ffff == Down(c)
  {
  }

  /** One byte at once by the table is eight bits one at a time. */
  lemma TableStep(c: bv32, b: bv8)
    ensures Xor(TableEntry(LowByte(Xor(c, Wide(b)))), Down(c)) == Bit8(Xor(Wide(b), c))
  {
    hide Bit8, TableEntry, Xor, Wide, LowByte, Up, Down;
    XorLaws(c, Wide(b));
    EntryIsEight(LowByte(Xor(c, Wide(b))));
    LowAndRest(Xor(Wide(b), c));
    RestOfMixed(c, b);
    RestFits(c);
    Bit8Linear(Wide(LowByte(Xor(Wide(b), c))), Up(Down(c)));
    HighShifts(Down(c));
  }

  lemma {:induction false} UpdateIsFeed(data: seq<bv8>, c: bv32)
    ensures Update(data, c) == Feed(data, c)
    decreases data
  {
    hide Bit8, TableEntry, Xor, Wide, LowByte, Down;
    if data != [] {
      TableStep(c, data[0]);
      UpdateIsFeed(data[1..], Bit8(Xor(Wide(data[0]), c)));
    }
  }

  /** With key zero the checksum is the CRC of RFC 1952. */
  lemma IsCrc32(data: seq<bv8>)
    ensures Checksum(data, 0) == Crc32(data)
  {
    hide Not, Xor, Feed, Update;
    UpdateIsFeed(data, 0xffff_ffff);
    NotLaws(Feed(data, 0xffff_ffff));
    XorLaws(0xffff_ffff, 0);
  }

  // ---------------------------------------------------------------------------------------------
  // What differences are always seen

  lemma BitInjective(x: bv32, y: bv32)
    requires Bit(x) == Bit(y)
    ensures x == y
  {
  }

  lemma Bit8Injective(x: bv32, y: bv32)
    requires Bit8(x) == Bit8(y)
    ensures x == y
  {
    hide Bit;
    BitInjective(Bit(Bit(Bit(Bit(Bit(Bit(Bit(x))))))), Bit(Bit(Bit(Bit(Bit(Bit(Bit(y))))))));
    BitInjective(Bit(Bit(Bit(Bit(Bit(Bit(x)))))), Bit(Bit(Bit(Bit(Bit(Bit(y)))))));
    BitInjective(Bit(Bit(Bit(Bit(Bit(x))))), Bit(Bit(Bit(Bit(Bit(y))))));
    BitInjective(Bit(Bit(Bit(Bit(x)))), Bit(Bit(Bit(Bit(y)))));
    BitInjective(Bit(Bit(Bit(x))), Bit(Bit(Bit(y))));
    BitInjective(Bit(Bit(x)), Bit(Bit(y)));
    BitInjective(Bit(x), Bit(y));
    BitInjective(x, y);
  }

  /** Different states stay different, whatever is fed. */
  lemma {:induction false} FeedInjective(data: seq<bv8>, p: bv32, q: bv32)
    requires Feed(data, p) == Feed(data, q)
    ensures p == q
    decreases data
  {
    hide Bit8, Xor, Wide;
    if data != [] {
      var b := Wide(data[0]);
      FeedInjective(data[1..], Bit8(Xor(b, p)), Bit8(Xor(b, q)));
      Bit8Injective(Xor(b, p), Xor(b, q));
      XorCancels(b, p, q);
    }
  }

  /** Up to four bytes as one word, the first the lowest. */
  function Word(x: seq<bv8>): bv32
    requires |x| <= 4
    decreases x
  {
    if x == [] then 0 else Xor(Wide(x[0]), Up(Word(x[1..])))
  }

  /** Whether a word has at most `n` bytes. */
  predicate Fits(w: bv32, n: nat) {
    if n == 0 then w == 0
    else if n == 1 then w & 0xff == w
    else if n == 2 then w & 0xffff == w
    else n == 3 ==> w & 0xff_ffff == w
  }

  lemma ByteInFront(b: bv8, w: bv32, n: nat)
    requires Fits(w, n)
    ensures Fits(Xor(Wide(b), Up(w)), n + 1)
  {
    if n == 0 {
    } else if n == 1 {
    } else {
    }
  }

  lemma FitsThree(w: bv32, n: nat)
    requires Fits(w, n) && n <= 3
    ensures w & 0xff_ffff == w
  {
    if n == 0 {
    } else if n == 1 {
    } else {
    }
  }

  lemma {:induction false} WordFits(x: seq<bv8>)
    requires |x| <= 4
    ensures Fits(Word(x), |x|)
    decreases x
  {
    hide Fits, Xor, Wide, Up;
    if x != [] {
      WordFits(x[1..]);
      ByteInFront(x[0], Word(x[1..]), |x| - 1);
    } else {
      NothingFits();
    }
  }

  lemma NothingFits()
    ensures Fits(0, 0)
  {
  }

  function Zeros(q: bv32, n: nat): bv32
    decreases n
  {
    if n == 0 then q else Zeros(Bit8(q), n - 1)
  }

  /** Feeding up to four bytes is feeding zeros from a state in which the word is mixed at once. */
  lemma {:induction false} FeedWord(x: seq<bv8>, q: bv32)
    requires |x| <= 4
    ensures Feed(x, q) == Zeros(Xor(q, Word(x)), |x|)
    decreases x
  {
    hide Bit8, Xor, Wide, Up, Fits;
    XorLaws(q, 0);
    if x != [] {
      var b, w := Wide(x[0]), Word(x[1..]);
      FeedWord(x[1..], Bit8(Xor(b, q)));
      WordFits(x[1..]);
      FitsThree(w, |x| - 1);
      HighShifts(w);
      Bit8Linear(Xor(b, q), Up(w));
      XorLaws(q, b);
      XorAssociative(q, b, Up(w));
    }
  }

  lemma {:induction false} ZerosInjective(p: bv32, q: bv32, n: nat)
    requires Zeros(p, n) == Zeros(q, n)
    ensures p == q
    decreases n
  {
    hide Bit8;
    if n > 0 {
      ZerosInjective(Bit8(p), Bit8(q), n - 1);
      Bit8Injective(p, q);
    }
  }

  lemma {:induction false} WordInjective(x: seq<bv8>, y: seq<bv8>)
    requires |x| == |y| <= 4 && Word(x) == Word(y)
    ensures x == y
    decreases x
  {
    hide Xor, Wide, Up, Fits;
    if x != [] {
      WordFits(x[1..]);
      WordFits(y[1..]);
      FitsThree(Word(x[1..]), |x| - 1);
      FitsThree(Word(y[1..]), |x| - 1);
      FrontByte(x[0], Word(x[1..]), y[0], Word(y[1..]));
      WordInjective(x[1..], y[1..]);
      assert x == [x[0]] + x[1..] && y == [y[0]] + y[1..];
    }
  }

  lemma FrontByte(b: bv8, w: bv32, c: bv8, v: bv32)
    requires w & 0xff_ffff == w && v & 0xff_ffff == v && Xor(Wide(b), Up(w)) == Xor(Wide(c), Up(v))
    ensures b == c && w == v
  {
  }

  /** Buffers of equal length that differ only inside four consecutive bytes, so also those that differ in exactly one
      byte, have equal checksums exactly if they are equal. */
  lemma BurstIsSeen(front: seq<bv8>, x: seq<bv8>, y: seq<bv8>, back: seq<bv8>, key: bv32)
    requires |x| == |y| <= 4
    ensures Checksum(front + x + back, key) == Checksum(front + y + back, key) <==> x == y
  {
    hide Feed, Not, Xor, Word, Zeros;
    var q := Feed(front, Not(key));
    FeedAppend(front + x, back, Not(key));
    FeedAppend(front, x, Not(key));
    FeedAppend(front + y, back, Not(key));
    FeedAppend(front, y, Not(key));
    if Checksum(front + x + back, key) == Checksum(front + y + back, key) {
      NotLaws(Feed(front + x + back, Not(key)));
      NotLaws(Feed(front + y + back, Not(key)));
      FeedInjective(back, Feed(x, q), Feed(y, q));
      FeedWord(x, q);
      FeedWord(y, q);
      ZerosInjective(Xor(q, Word(x)), Xor(q, Word(y)), |x|);
      XorCancels(q, Word(x), Word(y));
      WordInjective(x, y);
    }
  }

  /** Different keys give different checksums. */
  lemma KeyIsSeen(data: seq<bv8>, j: bv32, k: bv32)
    ensures Checksum(data, j) == Checksum(data, k) <==> j == k
  {
    hide Feed, Not;
    if Checksum(data, j) == Checksum(data, k) {
      NotLaws(Feed(data, Not(j)));
      NotLaws(Feed(data, Not(k)));
      FeedInjective(data, Not(j), Not(k));
      NotLaws(j);
      NotLaws(k);
    }
  }

  // ---------------------------------------------------------------------------------------------
  // The program

  /** Com_BlockChecksumKey32. */
  method BlockChecksumKey32(buffer: seq<bv8>, key: bv32) returns (sum: bv32)
    ensures sum == Checksum(buffer, key)
  {
    hide Bit8, Xor, Wide, Not;
    var q := Not(key);
    var i := 0;
    assert buffer[0..] == buffer;
    while i < |buffer|
      invariant 0 <= i <= |buffer| && Feed(buffer[i..], q) == Feed(buffer, Not(key))
    {
      q := EightBits(Xor(Wide(buffer[i]), q));
      assert buffer[i..][1..] == buffer[i + 1..];
      i := i + 1;
    }
    sum := Not(q);
  }

  /** Its inner loop. */
  method EightBits(start: bv32) returns (q: bv32)
    ensures q == Bit8(start)
  {
    hide Bit8, Xor, Half, Odd;
    q := start;
    var j := 0;
    while j < 8
      invariant 0 <= j <= 8 && q == Bits(start, j)
    {
      if Odd(q) {
        q := Xor(Half(q), 0xEDB88320);
      } else {
        q := Xor(Half(q), 0);
      }
      j := j + 1;
    }
    EightIsBit8(start, j);
  }

  lemma EightIsBit8(q: bv32, eight: nat)
    requires eight == 8
    ensures Bits(q, eight) == Bit8(q)
  {
    hide Bit;
    var q1 := Bits(q, eight - 7);
    assert Bits(q, eight - 8) == q && q1 == Bit(q);
    var q2 := Bits(q, eight - 6);
    assert q2 == Bit(q1);
    var q3 := Bits(q, eight - 5);
    assert q3 == Bit(q2);
    var q4 := Bits(q, eight - 4);
    assert q4 == Bit(q3);
    var q5 := Bits(q, eight - 3);
    assert q5 == Bit(q4);
    var q6 := Bits(q, eight - 2);
    assert q6 == Bit(q5);
    assert Bits(q, eight - 1) == Bit(q6);
  }
}
