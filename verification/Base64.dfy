/** The Base64 writer and reader of src/msg.c. */
module Base64 {
  import opened Bits
  import opened Message

  const PAD: Byte := 61   // '='

  type Sextet = v: int | 0 <= v < 64

  /** The alphabet A-Z a-z 0-9 + /. */
  function Letter(v: Sextet): (c: Byte)
    ensures c != PAD && Value(c) == v
  {
    if v < 26 then 65 + v
    else if v < 52 then 97 + v - 26
    else if v < 62 then 48 + v - 52
    else if v == 62 then 43
    else 47
  }

  /** The reader's case distinction; -1 for anything outside the alphabet, and for the end of the message. */
  function Value(c: int): (v: int)
    ensures -1 <= v < 64
  {
    if 65 <= c <= 90 then c - 65
    else if 97 <= c <= 122 then c - 97 + 26
    else if 48 <= c <= 57 then c - 48 + 52
    else if c == 43 then 62
    else if c == 47 then 63
    else -1
  }

  // ---------------------------------------------------------------------------------------------
  // The encoding of section 4 of RFC 4648

  /** The low `n` bits of `v`, most significant first. */
  function BitsMsb(v: int, n: nat): (bits: seq<bool>)
    ensures |bits| == n
  {
    seq(n, i requires 0 <= i < n => BitAt(v, n - 1 - i))
  }

  function FromMsb(bits: seq<bool>): nat {
    if bits == [] then 0
    else 2 * FromMsb(bits[..|bits| - 1]) + if bits[|bits| - 1] then 1 else 0
  }

  function BitString(input: seq<Byte>): (bits: seq<bool>)
    ensures |bits| == 8 * |input|
  {
    if input == [] then [] else BitsMsb(input[0], 8) + BitString(input[1..])
  }

  /** Cuts a bit string into groups of six, adding zero bits on the right to fill the last one. */
  function Groups(bits: seq<bool>): seq<nat>
    decreases |bits|
  {
    if bits == [] then []
    else if |bits| < 6 then [FromMsb(bits + seq(6 - |bits|, _ => false))]
    else [FromMsb(bits[..6])] + Groups(bits[6..])
  }

  function Letters(groups: seq<nat>): (r: seq<Byte>)
    ensures |r| == |groups|
  {
    seq(|groups|, i requires 0 <= i < |groups| => Letter(groups[i] % 64))
  }

  /** Every six bits one letter, then '=' up to a multiple of four characters. */
  function Encoding(input: seq<Byte>): seq<Byte> {
    var letters := LettersOf(input);
    letters + Pads(|letters|)
  }

  function LettersOf(input: seq<Byte>): seq<Byte> { Letters(Groups(BitString(input))) }

  function Pads(n: nat): seq<Byte> { seq((4 - n % 4) % 4, _ => PAD) }

  // ---------------------------------------------------------------------------------------------
  // The same encoding, block by block

  function Nth(block: seq<Byte>, k: nat): int { if k < |block| then block[k] as int else 0 }

  /** Three bytes as one number, missing ones zero. */
  function Pack(block: seq<Byte>): (v: int)
    ensures 0 <= v < 0x100_0000
  {
    Nth(block, 0) * 0x1_0000 + Nth(block, 1) * 256 + Nth(block, 2)
  }

  /** The four sextets of a 24-bit number, most significant first. */
  function Split(v: int): (d: (Sextet, Sextet, Sextet, Sextet))
    requires 0 <= v < 0x100_0000
    ensures v == d.0 as int * 0x4_0000 + d.1 as int * 0x1000 + d.2 as int * 64 + d.3 as int
  {
    (v / 64 / 64 / 64, v / 64 / 64 % 64, v / 64 % 64, v % 64)
  }

  /** The four letters MSG_WriteBase64 sends for a block, before padding. */
  function QuadOf(v: int): (q: seq<Byte>)
    requires 0 <= v < 0x100_0000
    ensures |q| == 4
  {
    var d := Split(v);
    [Letter(d.0), Letter(d.1), Letter(d.2), Letter(d.3)]
  }

  function Quad(block: seq<Byte>): (q: seq<Byte>)
    ensures |q| == 4
  {
    QuadOf(Pack(block))
  }

  /** A block of one to three bytes with its padding. */
  function PaddedQuad(block: seq<Byte>): (q: seq<Byte>)
    requires 1 <= |block| <= 3
    ensures |q| == 4
  {
    Quad(block)[..|block| + 1] + seq(3 - |block|, _ => PAD)
  }

  function Blocks(input: seq<Byte>): (r: seq<Byte>)
    ensures |r| == 4 * ((|input| + 2) / 3)
  {
    if input == [] then []
    else if |input| <= 3 then PaddedQuad(input)
    else
      assert (|input| - 1) / 3 + 1 == (|input| + 2) / 3;
      PaddedQuad(input[..3]) + Blocks(input[3..])
  }

  lemma {:induction false} BitAtSplit(v: int, m: nat, k: nat)
    ensures BitAt(v, k) <==> if k < m then BitAt(v % Pow2(m), k) else BitAt(v / Pow2(m), k - m)
    decreases m
  {
    hide Pow2;
    if m == 0 {
      assert Pow2(0) == 1 by {
        Powers();
      }
    } else {
      HalfMod(v, m);
      HalfDiv(v, m);
      if k > 0 {
        BitAtSplit(v / 2, m - 1, k - 1);
      }
    }
  }

  lemma BitsMsbSplit(v: int, n: nat, m: nat)
    ensures BitsMsb(v, n + m) == BitsMsb(v / Pow2(m), n) + BitsMsb(v % Pow2(m), m)
  {
    forall i | 0 <= i < n + m
      ensures BitsMsb(v, n + m)[i] == (BitsMsb(v / Pow2(m), n) + BitsMsb(v % Pow2(m), m))[i]
    {
      BitAtSplit(v, m, n + m - 1 - i);
    }
  }

  lemma HalfDiv(v: int, m: nat)
    requires m > 0
    ensures v / Pow2(m) == v / 2 / Pow2(m - 1)
  {
    var p := Pow2(m - 1);
    var q, r := v / 2 / p, v / 2 % p;
    assert v == q * (2 * p) + (v % 2 + 2 * r) by {
      assert v / 2 == q * p + r;
    }
    ModUnique(v, 2 * p, q, v % 2 + 2 * r);
  }

  lemma {:induction false} FromBitsMsb(v: int, n: nat)
    ensures FromMsb(BitsMsb(v, n)) == v % Pow2(n)
    decreases n
  {
    if n > 0 {
      FromBitsMsb(v / 2, n - 1);
      HalfMod(v, n);
      forall i | 0 <= i < n - 1
        ensures BitsMsb(v, n)[i] == BitsMsb(v / 2, n - 1)[i]
      {
        assert BitAt(v, n - 1 - i) == BitAt(v / 2, n - 1 - i - 1);
      }
      assert BitsMsb(v, n)[..n - 1] == BitsMsb(v / 2, n - 1);
      assert BitsMsb(v, n)[n - 1] == BitAt(v, 0) == (v % 2 == 1);
    } else {
      assert BitsMsb(v, n) == [];
    }
  }

  function Zeros(n: nat): seq<bool> { seq(n, _ => false) }

  lemma ZeroBitsMsb(n: nat)
    ensures BitsMsb(0, n) == Zeros(n)
  {
    forall k: nat {
      ZeroBits(k);
    }
  }

  lemma Powers()
    ensures Pow2(0) == 1 && Pow2(2) == 4 && Pow2(4) == 16 && Pow2(6) == 64 && Pow2(8) == 256
  {
    assert Pow2(6) == 4 * Pow2(4);
  }

  /** The first six bits make one group. */
  lemma FirstGroup(a: seq<bool>, rest: seq<bool>)
    requires |a| == 6
    ensures Groups(a + rest) == [FromMsb(a)] + Groups(rest)
  {
    assert (a + rest)[..6] == a && (a + rest)[6..] == rest;
  }

  lemma TwoGroups(a: seq<bool>, b: seq<bool>, rest: seq<bool>)
    requires |a| == |b| == 6
    ensures Groups(a + (b + rest)) == [FromMsb(a), FromMsb(b)] + Groups(rest)
  {
    FirstGroup(a, b + rest);
    FirstGroup(b, rest);
  }

  lemma FourGroups(a: seq<bool>, b: seq<bool>, c: seq<bool>, d: seq<bool>, rest: seq<bool>)
    requires |a| == |b| == |c| == |d| == 6
    ensures Groups(a + (b + (c + (d + rest)))) == [FromMsb(a), FromMsb(b), FromMsb(c), FromMsb(d)] + Groups(rest)
  {
    TwoGroups(a, b, c + (d + rest));
    TwoGroups(c, d, rest);
  }

  /** A last group of fewer than six bits. */
  lemma LastGroup(v: int, n: nat, m: nat, pm: nat)
    requires 0 < n && 0 < m && n + m == 6 && Pow2(m) == pm && 0 <= v * pm < 64
    ensures Groups(BitsMsb(v, n)) == [v * pm]
  {
    var w := v * pm;
    JoinBits(v, n, 0, m, w, pm);
    ZeroBitsMsb(m);
    var bits := BitsMsb(v, n);
    assert bits + seq(6 - |bits|, _ => false) == BitsMsb(w, n + m);
    FromBitsMsb(w, n + m);
    Powers();
    ModUnique(w, 64, 0, w);
  }

  lemma JoinBits(a: int, n: nat, b: int, m: nat, v: int, pm: nat)
    requires Pow2(m) == pm && v == a * pm + b && 0 <= b < pm
    ensures BitsMsb(v, n + m) == BitsMsb(a, n) + BitsMsb(b, m)
  {
    ModUnique(v, pm, a, b);
    BitsMsbSplit(v, n, m);
  }

  lemma {:induction false} PowAdd(n: nat, m: nat)
    ensures Pow2(n + m) == Pow2(n) * Pow2(m)
  {
    if n > 0 {
      PowAdd(n - 1, m);
      assert Pow2(n + m) == 2 * Pow2(n - 1 + m);
    }
  }

  lemma ThreeBytes(a: Byte, b: Byte, c: Byte, v: int, eight: nat, w: nat)
    requires eight == 8 && w == 24 && v == a * 0x1_0000 + b * 256 + c
    ensures BitsMsb(v, w) == BitsMsb(a, eight) + (BitsMsb(b, eight) + BitsMsb(c, eight))
  {
    Powers();
    PowAdd(eight, eight);
    JoinBits(b, eight, c, eight, b * 256 + c, 256);
    JoinBits(a, eight, b * 256 + c, eight + eight, v, 0x1_0000);
  }

  lemma FourSextets(p: Sextet, q: Sextet, r: Sextet, t: Sextet, v: int, six: nat, w: nat)
    requires six == 6 && w == 24 && v == p * 0x4_0000 + q * 0x1000 + r * 64 + t
    ensures BitsMsb(v, w) == BitsMsb(p, six) + (BitsMsb(q, six) + (BitsMsb(r, six) + BitsMsb(t, six)))
  {
    Powers();
    PowAdd(six, six);
    PowAdd(six, six + six);
    JoinBits(r, six, t, six, r * 64 + t, 64);
    JoinBits(q, six, r * 64 + t, six + six, q * 0x1000 + r * 64 + t, 0x1000);
    JoinBits(p, six, q * 0x1000 + r * 64 + t, six + (six + six), v, 0x4_0000);
  }

  lemma Assoc<T>(a: seq<T>, b: seq<T>, c: seq<T>)
    ensures a + b + c == a + (b + c)
  {
  }

  lemma Resplit<T>(x: seq<T>, y: seq<T>, z: seq<T>, a: seq<T>, b: seq<T>, c: seq<T>, d: seq<T>, rest: seq<T>)
    requires x + (y + z) == a + (b + (c + d))
    ensures x + (y + (z + rest)) == a + (b + (c + (d + rest)))
  {
    Assoc(x, y + z, rest);
    Assoc(y, z, rest);
    Assoc(a, b + (c + d), rest);
    Assoc(b, c + d, rest);
    Assoc(c, d, rest);
  }

  lemma SextetBits(p: Sextet, six: nat)
    requires six == 6
    ensures FromMsb(BitsMsb(p, six)) == p
  {
    Powers();
    FromBitsMsb(p, six);
  }

  /** Three whole bytes in front of a bit string are four sextets in front of it. */
  lemma Regroup(a: Byte, b: Byte, c: Byte, p: Sextet, q: Sextet, r: Sextet, t: Sextet, eight: nat, six: nat,
      rest: seq<bool>)
    requires eight == 8 && six == 6 && a * 0x1_0000 + b * 256 + c == p * 0x4_0000 + q * 0x1000 + r * 64 + t
    ensures BitsMsb(a, eight) + (BitsMsb(b, eight) + (BitsMsb(c, eight) + rest))
         == BitsMsb(p, six) + (BitsMsb(q, six) + (BitsMsb(r, six) + (BitsMsb(t, six) + rest)))
  {
    var v := a * 0x1_0000 + b * 256 + c;
    ThreeBytes(a, b, c, v, eight, six + 18);
    FourSextets(p, q, r, t, v, six, six + 18);
    Resplit(BitsMsb(a, eight), BitsMsb(b, eight), BitsMsb(c, eight),
            BitsMsb(p, six), BitsMsb(q, six), BitsMsb(r, six), BitsMsb(t, six), rest);
  }

  /** The groups of a bit string that begins with three whole bytes. */
  lemma FullBlock(a: Byte, b: Byte, c: Byte, p: Sextet, q: Sextet, r: Sextet, t: Sextet, eight: nat, six: nat,
      rest: seq<bool>)
    requires eight == 8 && six == 6 && a * 0x1_0000 + b * 256 + c == p * 0x4_0000 + q * 0x1000 + r * 64 + t
    ensures Groups(BitsMsb(a, eight) + (BitsMsb(b, eight) + (BitsMsb(c, eight) + rest))) == [p, q, r, t] + Groups(rest)
  {
    Regroup(a, b, c, p, q, r, t, eight, six, rest);
    FourGroups(BitsMsb(p, six), BitsMsb(q, six), BitsMsb(r, six), BitsMsb(t, six), rest);
    SextetBits(p, six);
    SextetBits(q, six);
    SextetBits(r, six);
    SextetBits(t, six);
  }

  function Digits(block: seq<Byte>): (Sextet, Sextet, Sextet, Sextet) { Split(Pack(block)) }

  lemma LettersAppend(a: seq<nat>, b: seq<nat>)
    ensures Letters(a + b) == Letters(a) + Letters(b)
  {
  }

  lemma BitStringCons(a: Byte, rest: seq<Byte>)
    ensures BitString([a] + rest) == BitsMsb(a, 8) + BitString(rest)
  {
    assert ([a] + rest)[1..] == rest;
  }

  lemma FourLetters(d: (Sextet, Sextet, Sextet, Sextet), rest: seq<nat>)
    ensures Letters([d.0, d.1, d.2, d.3] + rest) == [Letter(d.0), Letter(d.1), Letter(d.2), Letter(d.3)] + Letters(rest)
  {
    hide Letter, Letters;
    LettersAppend([d.0, d.1, d.2, d.3], rest);
    SingleLetters(d);
  }

  lemma SingleLetters(d: (Sextet, Sextet, Sextet, Sextet))
    ensures Letters([d.0, d.1, d.2, d.3]) == [Letter(d.0), Letter(d.1), Letter(d.2), Letter(d.3)]
  {
    hide Letter;
  }

  lemma LettersOfFullBlock(a: Byte, b: Byte, c: Byte, rest: seq<Byte>)
    ensures LettersOf([a] + ([b] + ([c] + rest))) == Quad([a, b, c]) + LettersOf(rest)
  {
    var d := Digits([a, b, c]);
    BitStringCons(a, [b] + ([c] + rest));
    BitStringCons(b, [c] + rest);
    BitStringCons(c, rest);
    FullBlock(a, b, c, d.0, d.1, d.2, d.3, 8, 6, BitString(rest));
    FourLetters(d, Groups(BitString(rest)));
  }

  lemma GroupsOfTwo(a: Byte, b: Byte, p: Sextet, q: Sextet, last: nat, eight: nat, six: nat, four: nat)
    requires eight == 8 && six == 6 && four == 4 && last < 16 && a * 256 + b == p * 0x400 + q * 16 + last
    ensures Groups(BitsMsb(a, eight) + BitsMsb(b, eight)) == [p] + ([q] + [4 * last])
  {
    var w := a * 256 + b;
    Powers();
    PowAdd(six, four);
    JoinBits(a, eight, b, eight, w, 256);
    JoinBits(q, six, last, four, q * 16 + last, 16);
    JoinBits(p, six, q * 16 + last, six + four, w, 0x400);
    assert eight + eight == six + (six + four);
    TwoGroups(BitsMsb(p, six), BitsMsb(q, six), BitsMsb(last, four));
    SextetBits(p, six);
    SextetBits(q, six);
    LastGroup(last, four, 2, 4);
  }

  lemma GroupsOfTwoAre(a: Byte, b: Byte, p: Sextet, q: Sextet, last: nat)
    requires last < 16 && a * 256 + b == p * 0x400 + q * 16 + last
    ensures Groups(BitString([a, b])) == [p] + ([q] + [4 * last])
  {
    BitStringCons(a, [b]);
    BitStringCons(b, []);
    assert [a] + [b] == [a, b] && [b] + [] == [b] && BitsMsb(b, 8) + [] == BitsMsb(b, 8);
    GroupsOfTwo(a, b, p, q, last, 8, 6, 4);
  }

  lemma DigitsOfTwo(a: Byte, b: Byte)
    ensures var d := Digits([a, b]);
            a * 256 + b == d.0 * 0x400 + d.1 * 16 + b % 16 && d.2 == 4 * (b % 16)
  {
    var v, w := Pack([a, b]), a * 256 + b;
    assert v == w / 16 * 0x1000 + b % 16 * 256;
    assert v / 64 == w / 16 * 64 + b % 16 * 4;
    assert v / 64 / 64 == w / 16;
  }

  lemma ThreeLetters(p: Sextet, q: Sextet, r: Sextet)
    ensures Letters([p] + ([q] + [r])) == [Letter(p), Letter(q), Letter(r)]
  {
  }

  lemma LettersOfTwo(a: Byte, b: Byte)
    ensures LettersOf([a, b]) == Quad([a, b])[..3]
  {
    var d := Digits([a, b]);
    DigitsOfTwo(a, b);
    GroupsOfTwoAre(a, b, d.0, d.1, b % 16);
    ThreeLetters(d.0, d.1, d.2);
  }

  lemma GroupsOfOne(a: Byte, p: Sextet, last: nat, six: nat, two: nat)
    requires six == 6 && two == 2 && last < 4 && a == p * 4 + last
    ensures Groups(BitsMsb(a, six + two)) == [p] + [16 * last]
  {
    Powers();
    JoinBits(p, six, last, two, a, 4);
    FirstGroup(BitsMsb(p, six), BitsMsb(last, two));
    SextetBits(p, six);
    LastGroup(last, two, 4, 16);
  }

  lemma DigitsOfOne(a: Byte)
    ensures var d := Digits([a]);
            a == d.0 * 4 + a % 4 && d.1 == 16 * (a % 4)
  {
    var v := Pack([a]);
    assert v / 64 == a * 0x400;
    assert v / 64 / 64 == a / 4 * 64 + a % 4 * 16;
  }

  lemma GroupsOfOneAre(a: Byte, p: Sextet, last: nat)
    requires last < 4 && a == p * 4 + last
    ensures Groups(BitString([a])) == [p] + [16 * last]
  {
    BitStringCons(a, []);
    assert [a] + [] == [a] && BitsMsb(a, 8) + [] == BitsMsb(a, 8);
    GroupsOfOne(a, p, last, 6, 2);
  }

  lemma TwoLetters(p: Sextet, q: Sextet)
    ensures Letters([p] + [q]) == [Letter(p), Letter(q)]
  {
  }

  lemma LettersOfOne(a: Byte)
    ensures LettersOf([a]) == Quad([a])[..2]
  {
    var d := Digits([a]);
    DigitsOfOne(a);
    GroupsOfOneAre(a, d.0, a % 4);
    TwoLetters(d.0, d.1);
  }

  lemma BlocksOfFullBlock(a: Byte, b: Byte, c: Byte, rest: seq<Byte>)
    ensures Blocks([a] + ([b] + ([c] + rest))) == Quad([a, b, c]) + Blocks(rest)
  {
    var input, block := [a] + ([b] + ([c] + rest)), [a, b, c];
    assert input[..3] == block && input[3..] == rest;
    assert PaddedQuad(block) == Quad(block);
    if rest == [] {
      assert input == block;
    }
  }

  lemma EncodingOfFullBlock(a: Byte, b: Byte, c: Byte, rest: seq<Byte>)
    ensures Encoding([a] + ([b] + ([c] + rest))) == Quad([a, b, c]) + Encoding(rest)
  {
    hide LettersOf, Quad, Pads;
    LettersOfFullBlock(a, b, c, rest);
    var letters := LettersOf(rest);
    PadsPeriod(|letters|);
    assert Quad([a, b, c]) + letters + Pads(|letters|) == Quad([a, b, c]) + (letters + Pads(|letters|));
  }

  lemma PadsPeriod(n: nat)
    ensures Pads(4 + n) == Pads(n)
  {
  }

  /** The block-wise encoding is the one the standard describes bit by bit. */
  lemma {:induction false} EncodingIsBlocks(input: seq<Byte>)
    ensures Encoding(input) == Blocks(input)
  {
    hide Encoding, Blocks;
    if |input| < 3 {
      ShortEncodingIsBlocks(input);
    } else {
      var rest := input[3..];
      EncodingIsBlocks(rest);
      EncodingOfFullBlock(input[0], input[1], input[2], rest);
      BlocksOfFullBlock(input[0], input[1], input[2], rest);
      assert input == [input[0]] + ([input[1]] + ([input[2]] + rest));
    }
  }

  lemma ShortEncodingIsBlocks(input: seq<Byte>)
    requires |input| < 3
    ensures Encoding(input) == Blocks(input)
  {
    hide Encoding, Blocks;
    if |input| == 0 {
      EmptyEncoding();
    } else if |input| == 1 {
      assert input == [input[0]];
      OneByteEncoding(input[0]);
    } else {
      assert input == [input[0], input[1]];
      TwoByteEncoding(input[0], input[1]);
    }
  }

  lemma EmptyEncoding()
    ensures Encoding([]) == [] && Blocks([]) == []
  {
    assert Groups([]) == [] && LettersOf([]) == [];
  }

  lemma OneByteEncoding(a: Byte)
    ensures Encoding([a]) == Blocks([a])
  {
    hide LettersOf, Quad;
    LettersOfOne(a);
  }

  lemma TwoByteEncoding(a: Byte, b: Byte)
    ensures Encoding([a, b]) == Blocks([a, b])
  {
    hide LettersOf, Quad;
    LettersOfTwo(a, b);
  }

  // ---------------------------------------------------------------------------------------------
  // The writer

  /** One MSG_WriteLong of a block. */
  function Appended(data: seq<Byte>, q: seq<Byte>, maxsize: nat): (r: seq<Byte>) {
    if |data| + 4 <= maxsize then data + q else data
  }

  /** The blocks of `input` without padding, as far as the message has room. */
  function WrittenBlocks(data: seq<Byte>, input: seq<Byte>, maxsize: nat): seq<Byte>
    decreases |input|
  {
    if input == [] then data
    else if |input| <= 3 then Appended(data, Quad(input), maxsize)
    else WrittenBlocks(Appended(data, Quad(input[..3]), maxsize), input[3..], maxsize)
  }

  lemma WrittenStep(data: seq<Byte>, input: seq<Byte>, block: seq<Byte>, rest: seq<Byte>, maxsize: nat)
    requires input == block + rest && 1 <= |block| <= 3 && (|block| < 3 ==> rest == [])
    ensures WrittenBlocks(data, input, maxsize) == WrittenBlocks(Appended(data, Quad(block), maxsize), rest, maxsize)
  {
    if |input| <= 3 {
      assert input == block;
    } else {
      assert input[..3] == block && input[3..] == rest;
    }
  }

  /** The size of the last block. */
  function LastSize(n: nat): nat { if n == 0 then 0 else (n - 1) % 3 + 1 }

  lemma LastSizeStep(i: nat, k: nat)
    requires i % 3 == 0 && 1 <= k <= 3
    ensures LastSize(i + k) == k && (k == 3 ==> (i + k) % 3 == 0)
  {
  }

  /** The last `n` bytes of a message replaced by '='; a message of fewer than three bytes is left alone. */
  function PadTail(data: seq<Byte>, n: nat): (r: seq<Byte>)
    requires n <= 3
    ensures |r| == |data|
  {
    if |data| < 3 then data else data[..|data| - n] + seq(n, _ => PAD)
  }

  /** The message after MSG_WriteBase64. */
  function AfterWrite(data: seq<Byte>, input: seq<Byte>, maxsize: nat): seq<Byte> {
    PadTail(WrittenBlocks(data, input, maxsize), 3 - LastSize(|input|))
  }

  lemma PadLastBlock(data: seq<Byte>, block: seq<Byte>)
    requires 1 <= |block| <= 3
    ensures PadTail(data + Quad(block), 3 - |block|) == data + PaddedQuad(block)
  {
    var n, q := 3 - |block|, Quad(block);
    assert (data + q)[..|data + q| - n] == data + q[..4 - n];
  }

  lemma {:induction false} PaddedBlocks(data: seq<Byte>, input: seq<Byte>, maxsize: nat)
    requires input != [] && |data| + |Blocks(input)| <= maxsize
    ensures AfterWrite(data, input, maxsize) == data + Blocks(input)
    decreases |input|
  {
    if |input| <= 3 {
      PadLastBlock(data, input);
    } else {
      PaddedBlocks(data + Quad(input[..3]), input[3..], maxsize);
      FullQuad(input[..3]);
      BlocksFront(input);
      assert LastSize(|input|) == LastSize(|input[3..]|);
      Assoc(data, Quad(input[..3]), Blocks(input[3..]));
    }
  }

  lemma FullQuad(block: seq<Byte>)
    requires |block| == 3
    ensures PaddedQuad(block) == Quad(block)
  {
  }

  /** With room for the whole encoding the writer appends it, except that an empty input overwrites the last three
      bytes of the message with '=': it appends its (empty) encoding then only if there are no such bytes to change. */
  lemma WriteAppendsEncoding(data: seq<Byte>, input: seq<Byte>, maxsize: nat)
    requires |data| + |Encoding(input)| <= maxsize
    ensures AfterWrite(data, input, maxsize) == data + Encoding(input)
            <==> input != [] || |data| < 3 || data[|data| - 3..] == [PAD, PAD, PAD]
  {
    EncodingIsBlocks(input);
    if input != [] {
      PaddedBlocks(data, input, maxsize);
    } else {
      assert data + Blocks([]) == data;
      if |data| >= 3 {
        var pads := seq(3, _ => PAD);
        assert pads == [PAD, PAD, PAD];
        assert data == data[..|data| - 3] + data[|data| - 3..];
        assert PadTail(data, 3)[|data| - 3..] == pads;
      }
    }
  }

  /** The four letters of a block assembled in memory as a long. */
  function Assemble(bits: int): (b64data: int)
    requires 0 <= bits < 0x100_0000
    ensures Le32(b64data) == QuadOf(bits)
  {
    var d := Split(bits);
    var (a, b, c, e) := (Letter(d.0), Letter(d.1), Letter(d.2), Letter(d.3));
    LongOfBytes(a, b, c, e);
    FromLe32(a, b, c, e)
  }

  lemma LongOfBytes(a: Byte, b: Byte, c: Byte, d: Byte)
    requires d < 128
    ensures Le32(FromLe32(a, b, c, d)) == [a, b, c, d]
  {
    var u := a as int + 256 * b as int + 0x1_0000 * c as int + 0x100_0000 * d as int;
    assert AsLong(u) == u by {
      ModUnique(u, 0x1_0000_0000, 0, u);
    }
    assert u / 256 == b + 256 * c + 0x1_0000 * d;
    assert u / 256 / 256 == c + 256 * d;
    assert u / 256 / 256 / 256 == d;
  }

  /** The inner loop of MSG_WriteBase64: one block of up to three bytes. */
  method ReadBlock(inbuf: array<Byte>, i: nat, len: nat) returns (bits: int, k: nat)
    requires i <= len <= inbuf.Length
    ensures k == (if len - i < 3 then len - i else 3) && bits == Pack(inbuf[i..i + k])
  {
    bits, k := 0, 0;
    while k < 3 && i + k < len
      invariant 0 <= k <= 3 && i + k <= len && bits == Pack(inbuf[i..i + k])
    {
      bits := bits + inbuf[i + k] as int * (if k == 0 then 0x1_0000 else if k == 1 then 256 else 1);
      k := k + 1;
    }
  }

  /** The last loop of MSG_WriteBase64. */
  method OverwriteTail(msg: Msg, k: nat)
    requires msg.Valid() && k <= 3
    modifies msg.data
    ensures msg.data[..msg.cursize] == PadTail(old(msg.data[..msg.cursize]), 3 - k)
  {
    if msg.cursize < 3 {
      return;
    }
    var i := 0;
    ghost var unpadded := msg.data[..msg.cursize];
    while k + i < 3
      invariant 0 <= i <= 3 - k
      invariant msg.data[..msg.cursize] == PadTail(unpadded, i)
    {
      msg.data[msg.cursize - i - 1] := PAD;
      i := i + 1;
    }
  }

  method WriteQuad(msg: Msg, bits: int)
    requires msg.Writing() && 0 <= bits < 0x100_0000
    modifies msg`cursize, msg`overflowed, msg.data
    ensures msg.Writing()
    ensures msg.data[..msg.cursize] == Appended(old(msg.data[..msg.cursize]), QuadOf(bits), msg.maxsize)
  {
    msg.WriteLong(Assemble(bits));
  }

  method WriteBase64(msg: Msg, inbuf: array<Byte>, len: nat)
    requires msg.Writing() && inbuf != msg.data && len <= inbuf.Length
    modifies msg`cursize, msg`overflowed, msg.data
    ensures msg.Valid()
    ensures msg.data[..msg.cursize] == AfterWrite(old(msg.data[..msg.cursize]), inbuf[..len], msg.maxsize)
  {
    hide QuadOf;
    var i, k := 0, 0;
    while i < len
      invariant 0 <= i <= len && k == LastSize(i) && (i < len ==> i % 3 == 0)
      invariant msg.Writing()
      invariant WrittenBlocks(msg.data[..msg.cursize], inbuf[i..len], msg.maxsize)
             == WrittenBlocks(old(msg.data[..msg.cursize]), inbuf[..len], msg.maxsize)
    {
      var bits;
      bits, k := ReadBlock(inbuf, i, len);
      LastSizeStep(i, k);
      WrittenStep(msg.data[..msg.cursize], inbuf[i..len], inbuf[i..i + k], inbuf[i + k..len], msg.maxsize);
      WriteQuad(msg, bits);
      i := i + k;
    }
    OverwriteTail(msg, k);
  }

  // ---------------------------------------------------------------------------------------------
  // The reader

  function Shift(k: nat): nat
    requires k < 4
  {
    match k
    case 0 => 0x4_0000
    case 1 => 0x1000
    case 2 => 64
    case 3 => 1
  }

  /** Letters `k` to 3 of a block added to `v`; the flag tells that a byte outside the alphabet stopped the reader. */
  function ReadQuad(data: seq<Byte>, at: Cursor, k: nat, v: int): (int, bool, Cursor)
    requires k <= 4
    decreases 4 - k
  {
    if k == 4 then (v, false, at) else
    var (c, next) := GetByte(data, at);
    if Value(c) < 0 then (v, true, next) else ReadQuad(data, next, k + 1, v + Value(c) * Shift(k))
  }

  function Unpack(v: int): (r: seq<Byte>)
    ensures |r| == 3
  {
    [v / 0x1_0000 % 256, v / 256 % 256, v % 256]
  }

  /** What the reader stores from position `i` of a buffer of `len` bytes on, and where it stops reading. */
  function Decoded(data: seq<Byte>, at: Cursor, i: nat, len: int): (seq<Byte>, Cursor)
    decreases if len > i then len - i else 0
  {
    var (v, stop, next) := ReadQuad(data, at, 0, 0);
    if !stop && i + 3 + 4 < len then
      var (rest, end) := Decoded(data, next, i + 3, len);
      (Unpack(v) + rest, end)
    else (Unpack(v), next)
  }

  /** The terminating zero included, the reader writes inside `len` bytes exactly when `len` is at least 4. */
  lemma {:induction false} StaysInside(data: seq<Byte>, at: Cursor, i: nat, len: int)
    ensures i + |Decoded(data, at, i, len).0| + 1 <= len <==> i + 4 <= len
    decreases if len > i then len - i else 0
  {
    var (v, stop, next) := ReadQuad(data, at, 0, 0);
    if !stop && i + 3 + 4 < len {
      StaysInside(data, next, i + 3, len);
    }
  }

  /** The block `q` stands at the cursor. */
  ghost predicate Stands(data: seq<Byte>, at: Cursor, q: seq<Byte>) {
    at.readcount + |q| <= |data| && forall i :: 0 <= i < |q| ==> data[at.readcount + i] == q[i]
  }

  function Moved(at: Cursor, n: nat): Cursor { at.(readcount := at.readcount + n) }

  lemma StepQuad(data: seq<Byte>, at: Cursor, k: nat, v: int, d: Sextet)
    requires k < 4 && at.readcount < |data| && data[at.readcount] == Letter(d)
    ensures ReadQuad(data, at, k, v) == ReadQuad(data, Moved(at, 1), k + 1, v + d as int * Shift(k))
  {
  }

  lemma StopQuad(data: seq<Byte>, at: Cursor, k: nat, v: int)
    requires k < 4 && at.readcount < |data| && data[at.readcount] == PAD
    ensures ReadQuad(data, at, k, v) == (v, true, Moved(at, 1))
  {
  }

  lemma TrailingDigits(block: seq<Byte>)
    ensures |block| <= 2 ==> Digits(block).3 == 0
    ensures |block| <= 1 ==> Digits(block).2 == 0
  {
    if |block| <= 2 {
      assert Pack(block) % 64 == 0;
    }
    if |block| <= 1 {
      assert Pack(block) / 64 % 64 == 0;
    }
  }

  lemma PaddedQuadIs(block: seq<Byte>)
    requires 1 <= |block| <= 3
    ensures var d, q := Digits(block), PaddedQuad(block);
            q[0] == Letter(d.0) && q[1] == Letter(d.1) && q[2] == (if |block| == 1 then PAD else Letter(d.2))
            && q[3] == if |block| < 3 then PAD else Letter(d.3)
  {
    hide Letter, Split, Pack;
  }

  /** A padded block reads back as its packed bytes, and only a full one lets the reader go on. */
  lemma QuadBack(data: seq<Byte>, at: Cursor, block: seq<Byte>)
    requires 1 <= |block| <= 3 && Stands(data, at, PaddedQuad(block))
    ensures var r := ReadQuad(data, at, 0, 0);
            r.0 == Pack(block) && (r.1 <==> |block| < 3) && (|block| == 3 ==> r.2 == Moved(at, 4))
  {
    var d, q := Digits(block), PaddedQuad(block);
    TrailingDigits(block);
    PaddedQuadIs(block);
    hide ReadQuad, Letter, Value, PaddedQuad, Split, Pack;
    assert data[at.readcount + 0] == q[0] && data[at.readcount + 1] == q[1];
    assert data[at.readcount + 2] == q[2] && data[at.readcount + 3] == q[3];
    StepQuad(data, at, 0, 0, d.0);
    StepQuad(data, Moved(at, 1), 1, d.0 as int * 0x4_0000, d.1);
    var v2 := d.0 as int * 0x4_0000 + d.1 as int * 0x1000;
    if |block| == 1 {
      StopQuad(data, Moved(at, 2), 2, v2);
    } else {
      StepQuad(data, Moved(at, 2), 2, v2, d.2);
      var v3 := v2 + d.2 as int * 64;
      if |block| == 2 {
        StopQuad(data, Moved(at, 3), 3, v3);
      } else {
        StepQuad(data, Moved(at, 3), 3, v3, d.3);
        QuadDone(data, Moved(at, 4), v3 + d.3 as int);
      }
    }
  }

  lemma QuadDone(data: seq<Byte>, at: Cursor, v: int)
    ensures ReadQuad(data, at, 4, v) == (v, false, at)
  {
  }

  lemma UnpackPack(block: seq<Byte>)
    requires 1 <= |block| <= 3
    ensures block <= Unpack(Pack(block))
  {
    var (a, b, c) := (Nth(block, 0), Nth(block, 1), Nth(block, 2));
    var v := Pack(block);
    assert v / 256 == a * 256 + b;
    assert v / 0x1_0000 == a;
    assert Unpack(v) == [a, b, c];
  }

  lemma StandsParts(data: seq<Byte>, at: Cursor, q: seq<Byte>, rest: seq<Byte>)
    requires Stands(data, at, q + rest)
    ensures Stands(data, at, q) && Stands(data, Moved(at, |q|), rest)
  {
    forall j | 0 <= j < |q|
      ensures data[at.readcount + j] == q[j]
    {
      assert (q + rest)[j] == q[j];
    }
    forall j | 0 <= j < |rest|
      ensures data[at.readcount + |q| + j] == rest[j]
    {
      assert data[at.readcount + (|q| + j)] == (q + rest)[|q| + j];
    }
  }

  lemma BlocksFront(input: seq<Byte>)
    requires |input| > 3
    ensures Blocks(input) == PaddedQuad(input[..3]) + Blocks(input[3..])
  {
  }

  lemma OneBlock(input: seq<Byte>)
    requires 1 <= |input| <= 3
    ensures Blocks(input) == PaddedQuad(input)
  {
  }

  lemma FirstBlockStands(data: seq<Byte>, at: Cursor, input: seq<Byte>)
    requires |input| > 3 && Stands(data, at, Blocks(input))
    ensures Stands(data, at, PaddedQuad(input[..3])) && Stands(data, Moved(at, 4), Blocks(input[3..]))
  {
    BlocksFront(input);
    StandsParts(data, at, PaddedQuad(input[..3]), Blocks(input[3..]));
  }

  lemma PrefixSplit<T>(input: seq<T>, a: seq<T>, more: seq<T>)
    requires |a| == 3 < |input| && a == input[..3]
    ensures input <= a + more <==> input[3..] <= more
  {
    assert input == a + input[3..];
    if input <= a + more {
      assert input[3..] == (a + more)[3..|input|] == more[..|input| - 3];
    }
  }

  /** Reading an encoding gives the input back, as a prefix of what is stored, exactly when it fits one block or the
      buffer is longer than three bytes per block and one more. */
  lemma {:induction false} ReadBack(data: seq<Byte>, at: Cursor, input: seq<Byte>, i: nat, len: int)
    requires input != [] && Stands(data, at, Blocks(input))
    ensures input <= Decoded(data, at, i, len).0 <==> |input| <= 3 || i + 3 * ((|input| + 2) / 3) + 1 < len
    decreases |input|
  {
    hide Stands, PaddedQuad, ReadQuad, Unpack, Pack, Blocks;
    if |input| <= 3 {
      assert Blocks(input) == PaddedQuad(input) by {
        OneBlock(input);
      }
      QuadBack(data, at, input);
      UnpackPack(input);
    } else {
      var block := input[..3];
      FirstBlockStands(data, at, input);
      QuadBack(data, at, block);
      UnpackPack(block);
      assert Unpack(Pack(block)) == block;
      if i + 3 + 4 < len {
        ReadBack(data, Moved(at, 4), input[3..], i + 3, len);
        PrefixSplit(input, Unpack(Pack(block)), Decoded(data, Moved(at, 4), i + 3, len).0);
      }
    }
  }

  /** The inner loop of MSG_ReadBase64: one block of up to four letters. */
  method ReadLetters(msg: Msg) returns (b64data: int, databyte: int)
    requires msg.Valid()
    modifies msg`readcount
    ensures (b64data, databyte == -1, msg.At()) == ReadQuad(msg.data[..msg.cursize], old(msg.At()), 0, 0)
  {
    ghost var data, start := msg.data[..msg.cursize], msg.At();
    b64data, databyte := 0, 0;
    var k := 0;
    while k < 4
      invariant 0 <= k <= 4 && databyte != -1
      invariant ReadQuad(data, msg.At(), k, b64data) == ReadQuad(data, start, 0, 0)
    {
      var c := msg.ReadByte();
      databyte := Value(c);
      if databyte == -1 {
        return;
      }
      b64data := b64data + databyte * Shift(k);
      k := k + 1;
    }
  }

  /** The body of the outer loop: one block is read and stored; tells whether another one is. */
  method ReadAndStore(msg: Msg, outbuf: array<Byte>, i: nat, len: int) returns (more: bool)
    requires msg.Valid() && outbuf != msg.data && i + 3 <= outbuf.Length
    modifies msg`readcount, outbuf
    ensures more ==> i + 3 + 4 < len
    ensures var r, data := Decoded(msg.data[..msg.cursize], old(msg.At()), i, len), msg.data[..msg.cursize];
            var rest := if more then Decoded(data, msg.At(), i + 3, len) else ([], msg.At());
            r.0 == outbuf[i..i + 3] + rest.0 && r.1 == rest.1
    ensures outbuf[..i + 3] == old(outbuf[..i]) + outbuf[i..i + 3]
    ensures forall j :: i + 3 <= j < outbuf.Length ==> outbuf[j] == old(outbuf[j])
  {
    var b64data, databyte := ReadLetters(msg);
    outbuf[i], outbuf[i + 1], outbuf[i + 2] := b64data / 0x1_0000 % 256, b64data / 256 % 256, b64data % 256;
    assert outbuf[i..i + 3] == Unpack(b64data);
    more := databyte != -1 && i + 3 + 4 < len;
  }

  method ReadBase64(msg: Msg, outbuf: array<Byte>, len: int)
    requires msg.Valid() && outbuf != msg.data && len <= outbuf.Length && 4 <= outbuf.Length
    modifies msg`readcount, outbuf
    ensures var r := Decoded(msg.data[..msg.cursize], old(msg.At()), 0, len);
            && |r.0| < outbuf.Length
            && outbuf[..|r.0|] == r.0 && outbuf[|r.0|] == 0 && outbuf[|r.0| + 1..] == old(outbuf[|r.0| + 1..])
            && msg.At() == r.1
  {
    hide Decoded;
    ghost var data := msg.data[..msg.cursize];
    ghost var whole := Decoded(data, msg.At(), 0, len);
    var i, more := 0, true;
    while more
      invariant 0 <= i < outbuf.Length
      invariant more ==> i == 0 || i + 4 < len
      invariant var rest := if more then Decoded(data, msg.At(), i, len) else ([], msg.At());
                whole.0 == outbuf[..i] + rest.0 && whole.1 == rest.1
      invariant forall j :: i <= j < outbuf.Length ==> outbuf[j] == old(outbuf[j])
      decreases more, len - i
    {
      ghost var front := outbuf[..i];
      more := ReadAndStore(msg, outbuf, i, len);
      ghost var rest := if more then Decoded(data, msg.At(), i + 3, len).0 else [];
      Assoc(front, outbuf[i..i + 3], rest);
      i := i + 3;
    }
    outbuf[i] := 0;
  }
}
