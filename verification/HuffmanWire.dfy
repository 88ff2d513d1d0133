/** What the coder puts on the wire, and what an unfit tree reads as. */
module HuffmanWire {
  import opened Bits
  import opened Huffman

  // ---------------------------------------------------------------------------------------------
  // Bits of bytes

  lemma {:induction false} BitIsOdd(v: int, k: nat)
    ensures BitAt(v, k) <==> v / Pow2(k) % 2 == 1
    decreases k
  {
    if k > 0 {
      BitIsOdd(v / 2, k - 1);
      HalfOver(v, Pow2(k - 1));
    }
  }

  lemma HalfOver(v: int, p: nat)
    requires p > 0
    ensures v / (2 * p) == v / 2 / p
  {
    var q := v / 2 / p;
    var r := v / 2 % p;
    assert v / 2 == q * p + r;
    assert v == q * (2 * p) + (2 * r + v % 2);
    ModUnique(v, 2 * p, q, 2 * r + v % 2);
  }

  /** Bit `i` of a buffer is bit `i % 8`, counted from the lowest, of byte `i / 8`. */
  lemma BufferBit(buf: seq<Byte>, i: nat)
    requires i / 8 < |buf|
    ensures BufBit(buf, i) <==> buf[i / 8] / Pow2(i % 8) % 2 == 1
  {
    BitIsOdd(buf[i / 8], i % 8);
  }

  // ---------------------------------------------------------------------------------------------
  // The balanced tree

  /** The binary digits of a number behind its leading one, highest first. */
  function Behind(m: nat): (r: seq<bool>)
    requires m > 0
  {
    if m == 1 then [] else Behind(m / 2) + [m % 2 == 1]
  }

  /** In a tree in heap order the turns to a node are digits: right for a one, left for a zero. */
  lemma {:induction false} HeapCode(size: nat, rank: seq<nat>, n: nat)
    requires size == 511 && rank == seq(size, i => i) && Acyclic(HeapTree(size), rank) && n < size
    ensures Code(HeapTree(size), rank, n) == Behind(n + 1)
    decreases n
  {
    var t := HeapTree(size);
    assert LinksAt(t, rank, n) && t.nodes[n] == HeapNode(n);
    if n > 0 {
      var p := (n - 1) / 2;
      HeapCode(size, rank, p);
      assert t.nodes[p] == HeapNode(p) && t.nodes[n].parent == p && (n + 1) / 2 == p + 1;
      assert t.nodes[p].right == n <==> (n + 1) % 2 == 1;
    }
  }

  lemma {:induction false} BehindDigits(m: nat, c: nat, k: nat)
    requires m == Pow2(k) + c && c < Pow2(k)
    ensures |Behind(m)| == k && forall i :: 0 <= i < k ==> Behind(m)[i] == BitAt(c, k - 1 - i)
    decreases k
  {
    if k > 0 {
      BehindDigits(m / 2, c / 2, k - 1);
      assert m % 2 == c % 2 && m / 2 == Pow2(k - 1) + c / 2;
    }
  }

  /** The code word of a byte in the balanced tree is its eight bits, the highest first. */
  lemma BalancedWord(size: nat, rank: seq<nat>, c: Byte)
    requires size == 511 && rank == seq(size, i => i) && CodeTree(HeapTree(size), rank)
    ensures var w := Word(HeapTree(size), rank, c);
            |w| == 8 && forall i :: 0 <= i < 8 ==> w[i] == BitAt(c, 7 - i)
  {
    var t := HeapTree(size);
    assert LeafAt(t, c);
    assert t.loc[c] == c + 255;
    HeapCode(size, rank, c + 255);
    assert Pow2(8) == 256;
    BehindDigits(c + 256, c, 8);
  }

  /** With this tree the byte 1 is sent as the byte 128, and 128 as 1: the first bit sent is the lowest of the first
      byte. */
  lemma BalancedByte(size: nat, rank: seq<nat>, c: Byte, d: Byte)
    requires size == 511 && rank == seq(size, i => i) && CodeTree(HeapTree(size), rank)
    requires (c == 1 && d == 128) || (c == 128 && d == 1) || (c == 6 && d == 96)
    ensures BitsOf([d], 8) == Encode(HeapTree(size), rank, [c])
  {
    var t := HeapTree(size);
    BalancedWord(size, rank, c);
    assert [c][1..] == [] && Encode(t, rank, []) == [];
    assert Encode(t, rank, [c]) == Word(t, rank, c) + [];
    forall i: nat | i < 8
      ensures BufBit([d], i) == BitAt(c, 7 - i)
    {
      BufferBit([d], i);
      BitIsOdd(c, 7 - i);
      Powers();
      assert i == 0 || i == 1 || i == 2 || i == 3 || i == 4 || i == 5 || i == 6 || i == 7;
    }
  }

  lemma Powers()
    ensures Pow2(0) == 1 && Pow2(1) == 2 && Pow2(2) == 4 && Pow2(3) == 8
    ensures Pow2(4) == 16 && Pow2(5) == 32 && Pow2(6) == 64 && Pow2(7) == 128
  {
    assert Pow2(4) == 2 * Pow2(3) && Pow2(5) == 2 * Pow2(4) && Pow2(6) == 2 * Pow2(5) && Pow2(7) == 2 * Pow2(6);
  }

  // ---------------------------------------------------------------------------------------------
  // A tree with a missing link

  /** A walk that meets a missing link reads as 0 and moves nowhere, so the reader fills all its room with zeros. */
  lemma {:induction false} MissingLinkFills(t: Tree, rank: seq<nat>, bits: nat -> bool, pos: nat, limit: nat, room: nat)
    requires Acyclic(t, rank) && Walk(t, rank, bits, t.root, pos).0 < 0 && pos < limit
    ensures Receive(t, rank, bits, pos) == (0, pos)
    ensures Decode(t, rank, bits, pos, limit, room) == seq(room, _ => 0)
    decreases room
  {
    hide Walk, Acyclic;
    if room > 0 {
      MissingLinkFills(t, rank, bits, pos, limit, room - 1);
    }
  }
}
