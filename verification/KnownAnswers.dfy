/** Known answers: the values that the standards themselves give, and small cases worked out. */
module KnownAnswers {
  import opened Bits
  import Base64
  import Md5
  import Checksum
  import CommandBuffer
  import Cvars
  import Tokenizer
  import TimedEvents
  import PackIndex
  import PureIwds
  import Filter
  import Huffman

  // ---------------------------------------------------------------------------------------------
  // CRC-32: the check value of the digits 1 to 9

  lemma FeedOne(b: bv8, q: bv32, next: bv32, more: seq<bv8>)
    requires Checksum.Bit8(Checksum.Xor(Checksum.Wide(b), q)) == next
    ensures Checksum.Feed([b] + more, q) == Checksum.Feed(more, next)
  {
    hide Checksum.Bit8, Checksum.Xor, Checksum.Wide;
    assert ([b] + more)[1..] == more;
  }

  lemma DigitOne(more: seq<bv8>)
    ensures Checksum.Feed([0x31] + more, 0xffffffff) == Checksum.Feed(more, 0x7c231048)
  {
    hide Checksum.Feed;
    FeedOne(0x31, 0xffffffff, 0x7c231048, more);
  }

  lemma DigitTwo(more: seq<bv8>)
    ensures Checksum.Feed([0x32] + more, 0x7c231048) == Checksum.Feed(more, 0xb0acbb32)
  {
    hide Checksum.Feed;
    FeedOne(0x32, 0x7c231048, 0xb0acbb32, more);
  }

  lemma DigitThree(more: seq<bv8>)
    ensures Checksum.Feed([0x33] + more, 0xb0acbb32) == Checksum.Feed(more, 0x77b79c2d)
  {
    hide Checksum.Feed;
    FeedOne(0x33, 0xb0acbb32, 0x77b79c2d, more);
  }

  lemma DigitFour(more: seq<bv8>)
    ensures Checksum.Feed([0x34] + more, 0x77b79c2d) == Checksum.Feed(more, 0x641c1f5c)
  {
    hide Checksum.Feed;
    FeedOne(0x34, 0x77b79c2d, 0x641c1f5c, more);
  }

  lemma DigitFive(more: seq<bv8>)
    ensures Checksum.Feed([0x35] + more, 0x641c1f5c) == Checksum.Feed(more, 0x340ac5e3)
  {
    hide Checksum.Feed;
    FeedOne(0x35, 0x641c1f5c, 0x340ac5e3, more);
  }

  lemma DigitSix(more: seq<bv8>)
    ensures Checksum.Feed([0x36] + more, 0x340ac5e3) == Checksum.Feed(more, 0xf68d2c9e)
  {
    hide Checksum.Feed;
    FeedOne(0x36, 0x340ac5e3, 0xf68d2c9e, more);
  }

  lemma DigitSeven(more: seq<bv8>)
    ensures Checksum.Feed([0x37] + more, 0xf68d2c9e) == Checksum.Feed(more, 0xaffc9660)
  {
    hide Checksum.Feed;
    FeedOne(0x37, 0xf68d2c9e, 0xaffc9660, more);
  }

  lemma DigitEight(more: seq<bv8>)
    ensures Checksum.Feed([0x38] + more, 0xaffc9660) == Checksum.Feed(more, 0x651f2550)
  {
    hide Checksum.Feed;
    FeedOne(0x38, 0xaffc9660, 0x651f2550, more);
  }

  lemma DigitNine(more: seq<bv8>)
    ensures Checksum.Feed([0x39] + more, 0x651f2550) == Checksum.Feed(more, 0x340bc6d9)
  {
    hide Checksum.Feed;
    FeedOne(0x39, 0x651f2550, 0x340bc6d9, more);
  }

  /** The check value that is given for this CRC. */
  lemma CrcCheckValue()
    ensures Checksum.Checksum([0x31, 0x32, 0x33, 0x34, 0x35, 0x36, 0x37, 0x38, 0x39], 0) == 0xCBF43926
  {
    hide Checksum.Feed;
    var s: seq<bv8> := [];
    FeedNothing(0x340bc6d9);
    DigitNine(s);
    s := [0x39] + s;
    DigitEight(s);
    s := [0x38] + s;
    DigitSeven(s);
    s := [0x37] + s;
    DigitSix(s);
    s := [0x36] + s;
    DigitFive(s);
    s := [0x35] + s;
    DigitFour(s);
    s := [0x34] + s;
    DigitThree(s);
    s := [0x33] + s;
    DigitTwo(s);
    s := [0x32] + s;
    DigitOne(s);
    s := [0x31] + s;
    assert s == [0x31, 0x32, 0x33, 0x34, 0x35, 0x36, 0x37, 0x38, 0x39];
    Checksum.NotLaws(0);
  }

  lemma FeedNothing(q: bv32)
    ensures Checksum.Feed([], q) == q
  {
  }

  // ---------------------------------------------------------------------------------------------
  // Base64: the alphabet and the vectors of section 10 of RFC 4648

  /** Characters that follow each other, from `first` on. */
  function Row(first: char, n: nat): (s: string)
    requires n <= 26 && first < 'z'
    ensures |s| == n && forall i :: 0 <= i < n ==> s[i] as int == first as int + i
  {
    seq(n, i requires 0 <= i < n => (first as int + i) as char)
  }

  /** The alphabet is A to Z, a to z, 0 to 9, +, /. */
  lemma AlphabetIs(v: Base64.Sextet)
    ensures Base64.Letter(v) == (Row('A', 26) + Row('a', 26) + Row('0', 10) + "+/")[v] as int
    ensures Base64.PAD == '=' as int
  {
  }

  /** The reader knows the 64 letters and nothing else. */
  lemma OnlyLetters(c: int)
    ensures Base64.Value(c) >= 0 <==> exists v: Base64.Sextet :: Base64.Letter(v) == c
    ensures forall v: Base64.Sextet :: Base64.Value(Base64.Letter(v)) == v
    ensures Base64.Value(c) >= -1
  {
    var v := Base64.Value(c);
    if v >= 0 {
      assert Base64.Letter(v) == c;
    }
  }

  /** A text as bytes. */
  function Ascii(s: string): (r: seq<Byte>)
    requires forall i :: 0 <= i < |s| ==> s[i] < '~'
    ensures |r| == |s| && forall i :: 0 <= i < |s| ==> r[i] == s[i] as int
  {
    seq(|s|, i requires 0 <= i < |s| => s[i] as int)
  }

  lemma OneBlock(input: string, letters: string)
    requires 1 <= |input| <= 3 && |letters| == 4
    requires forall i :: 0 <= i < |input| ==> input[i] < '~'
    requires forall i :: 0 <= i < |letters| ==> letters[i] < '~'
    requires Base64.PaddedQuad(Ascii(input)) == Ascii(letters)
    ensures Base64.Encoding(Ascii(input)) == Ascii(letters)
  {
    hide Base64.Encoding, Base64.PaddedQuad;
    Base64.EncodingIsBlocks(Ascii(input));
  }

  lemma TextOf(s: string, r: seq<Byte>)
    requires |s| == |r| && forall i :: 0 <= i < |s| ==> s[i] < '~' && r[i] == s[i] as int
    ensures Ascii(s) == r
  {
  }

  /** The letters of a block by the four numbers in it. */
  lemma QuadBy(block: seq<Byte>, a: Base64.Sextet, b: Base64.Sextet, c: Base64.Sextet, d: Base64.Sextet)
    requires Base64.Pack(block) == 0x4_0000 * a + 0x1000 * b + 64 * c + d
    ensures Base64.Quad(block) == [Base64.Letter(a), Base64.Letter(b), Base64.Letter(c), Base64.Letter(d)]
  {
    hide Base64.Pack, Base64.Letter, Base64.Split;
    Digits(a, b, c, d);
  }

  lemma Digits(a: Base64.Sextet, b: Base64.Sextet, c: Base64.Sextet, d: Base64.Sextet)
    ensures Base64.Split(0x4_0000 * a + 0x1000 * b + 64 * c + d) == (a, b, c, d)
  {
    var v: nat := 0x4_0000 * a + 0x1000 * b + 64 * c + d;
    var w: nat := 0x1000 * a + 64 * b + c;
    var x: nat := 64 * a + b;
    assert v == 64 * w + d && v / 64 == w && v % 64 == d;
    assert w == 64 * x + c && w / 64 == x && w % 64 == c;
    assert x / 64 == a && x % 64 == b;
  }

  lemma F()
    ensures Base64.PaddedQuad(Ascii("f")) == Ascii("Zg==")
  {
    hide Ascii;
    TextOf("f", [102]);
    TextOf("Zg==", [90, 103, 61, 61]);
    QuadF();
  }

  lemma QuadF()
    ensures Base64.PaddedQuad([102]) == [90, 103, 61, 61]
  {
    hide Base64.Quad;
    QuadBy([102], 25, 32, 0, 0);
    assert Base64.Quad([102]) == [90, 103, 65, 65];
  }

  lemma Fo()
    ensures Base64.PaddedQuad(Ascii("fo")) == Ascii("Zm8=")
  {
    hide Ascii;
    TextOf("fo", [102, 111]);
    TextOf("Zm8=", [90, 109, 56, 61]);
    QuadFo();
  }

  lemma QuadFo()
    ensures Base64.PaddedQuad([102, 111]) == [90, 109, 56, 61]
  {
    hide Base64.Quad;
    QuadBy([102, 111], 25, 38, 60, 0);
    assert Base64.Quad([102, 111]) == [90, 109, 56, 65];
  }

  lemma Foo()
    ensures Base64.PaddedQuad(Ascii("foo")) == Ascii("Zm9v")
  {
    hide Ascii;
    TextOf("foo", [102, 111, 111]);
    TextOf("Zm9v", [90, 109, 57, 118]);
    QuadFoo();
  }

  lemma QuadFoo()
    ensures Base64.PaddedQuad([102, 111, 111]) == [90, 109, 57, 118]
  {
    hide Base64.Quad;
    QuadBy([102, 111, 111], 25, 38, 61, 47);
    assert Base64.Quad([102, 111, 111]) == [90, 109, 57, 118];
  }

  lemma Bar()
    ensures Base64.PaddedQuad(Ascii("bar")) == Ascii("YmFy")
  {
    hide Ascii;
    TextOf("bar", [98, 97, 114]);
    TextOf("YmFy", [89, 109, 70, 121]);
    QuadBar();
  }

  lemma QuadBar()
    ensures Base64.PaddedQuad([98, 97, 114]) == [89, 109, 70, 121]
  {
    hide Base64.Quad;
    QuadBy([98, 97, 114], 24, 38, 5, 50);
    assert Base64.Quad([98, 97, 114]) == [89, 109, 70, 121];
  }

  lemma ShortVectors()
    ensures Base64.Encoding(Ascii("f")) == Ascii("Zg==")
    ensures Base64.Encoding(Ascii("fo")) == Ascii("Zm8=")
    ensures Base64.Encoding(Ascii("foo")) == Ascii("Zm9v")
  {
    hide Ascii, Base64.Encoding, Base64.PaddedQuad;
    F();
    OneBlock("f", "Zg==");
    Fo();
    OneBlock("fo", "Zm8=");
    Foo();
    OneBlock("foo", "Zm9v");
  }

  lemma LongVector()
    ensures Base64.Encoding(Ascii("foobar")) == Ascii("Zm9vYmFy")
  {
    hide Base64.Encoding, Base64.PaddedQuad, Ascii;
    Base64.EncodingIsBlocks(Ascii("foobar"));
    F3();
    Foo();
    Bar();
    OneMore(Ascii("foo"), Ascii("bar"));
  }

  lemma F3()
    ensures Ascii("foobar") == Ascii("foo") + Ascii("bar") && Ascii("Zm9vYmFy") == Ascii("Zm9v") + Ascii("YmFy")
  {
  }

  lemma OneMore(a: seq<Byte>, b: seq<Byte>)
    requires |a| == |b| == 3
    ensures Base64.Blocks(a + b) == Base64.PaddedQuad(a) + Base64.PaddedQuad(b)
  {
    hide Base64.PaddedQuad;
    assert (a + b)[..3] == a && (a + b)[3..] == b;
  }

  // ---------------------------------------------------------------------------------------------
  // MD5: the first state, and the padding of a short message

  /** Section 3.3 of RFC 1321 gives the words by their bytes, the low one first. */
  lemma Md5FirstState()
    ensures Md5.INIT.a as int == Bytes(0x01, 0x23, 0x45, 0x67) && Md5.INIT.b as int == Bytes(0x89, 0xab, 0xcd, 0xef)
    ensures Md5.INIT.c as int == Bytes(0xfe, 0xdc, 0xba, 0x98) && Md5.INIT.d as int == Bytes(0x76, 0x54, 0x32, 0x10)
  {
  }

  function Bytes(a: Byte, b: Byte, c: Byte, d: Byte): int { a + 256 * (b + 256 * (c + 256 * d)) }

  /** "abc" and the bits 1, 0, ..., 0 up to 448, and the length 24. */
  lemma Md5PaddedAbc()
    ensures Md5.Padded([0x61, 0x62, 0x63])
         == [0x61, 0x62, 0x63, 0x80] + seq(52, _ => 0) + [24, 0, 0, 0, 0, 0, 0, 0]
  {
    assert 8 * 3 % 0x1_0000_0000_0000_0000 == 24;
    forall i: nat | i < 8
      ensures Md5.ByteOf(24, i) == if i == 0 then 24 else 0
    {
      if i > 0 {
        assert Md5.ByteOf(24, i) == Md5.ByteOf(0, i - 1);
        ZeroByte(i - 1);
      }
    }
    assert Md5.Length(3) == [24, 0, 0, 0, 0, 0, 0, 0];
    assert Md5.Zeros(52) == seq(52, _ => 0);
  }

  /** A message of up to 55 bytes is one block with its padding, one of up to 119 two: the digest is the block function
      on the first state and that block, and on what comes of it and the second one. */
  lemma Md5Blocks(f: Md5.Transform, msg: seq<Byte>)
    ensures |msg| <= 55 ==> |Md5.Padded(msg)| == 64 && Md5.Digest(f, msg) == f(Md5.INIT, Md5.Padded(msg))
    ensures 55 < |msg| <= 119 ==>
              |Md5.Padded(msg)| == 128
              && Md5.Digest(f, msg) == f(f(Md5.INIT, Md5.Padded(msg)[..64]), Md5.Padded(msg)[64..])
  {
    var p := Md5.Padded(msg);
    assert p == msg + ([0x80] + Md5.Zeros((55 - |msg|) % 64) + Md5.Length(|msg|));
    if |msg| <= 55 {
      assert |p| == 64 && p[0..64] == p && Md5.Chain(f, p, 0) == Md5.INIT;
      assert Md5.Chain(f, p, 1) == f(Md5.INIT, p[0..64]);
    } else if |msg| <= 119 {
      assert |p| == 128 && p[64..128] == p[64..] && p[0..64] == p[..64] && Md5.Chain(f, p, 0) == Md5.INIT;
      assert Md5.Chain(f, p, 1) == f(Md5.INIT, p[0..64]) && Md5.Chain(f, p, 2) == f(Md5.Chain(f, p, 1), p[64..128]);
    }
  }

  lemma {:induction false} ZeroByte(i: nat)
    ensures Md5.ByteOf(0, i) == 0
  {
    if i > 0 {
      ZeroByte(i - 1);
    }
  }

  // ---------------------------------------------------------------------------------------------
  // Sizes

  /** The sizes that the header files give. */
  lemma Sizes()
    ensures CommandBuffer.MAX_CMD_LINE == 1024 && CommandBuffer.MAX_CMD_BUFFER == 1024
    ensures Tokenizer.MAX_STRING_TOKENS == 1024 && Tokenizer.MAX_TOKENIZE_STRINGS == 32 && Tokenizer.BUFFER_SIZE == 9216
    ensures Cvars.MAX_CVARS == 8192 && Cvars.FILE_HASH_SIZE == 512
    ensures Cvars.LINE_BUFFER == 8192 && Cvars.COMBINED_BUFFER == 8192
    ensures TimedEvents.MAX_TIMED_EVENTS == 1024 && PackIndex.MAX_FILEHASH_SIZE == 1024 && PureIwds.MAX_IWDS == 1024
    ensures Filter.MAX_TOKEN_CHARS == 1024 && Huffman.HMAX == 256 && Huffman.INTERNAL_NODE == 257
  {
  }
}
