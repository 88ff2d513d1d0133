/** The Huffman coder of src/huffman.c over an arbitrary code tree. */
module Huffman {
  import opened Bits

  const HMAX := 256
  const INTERNAL_NODE := HMAX + 1
  const NIL := -1

  /** A tree node; links are indices into the node list, NIL for a null pointer. */
  datatype Node = Node(left: int, right: int, parent: int, symbol: int)

  datatype Tree = Tree(nodes: seq<Node>, root: int, loc: seq<int>)

  predicate Link(t: Tree, n: int) { NIL <= n < |t.nodes| }

  /** The links of node `n` stay inside the node list, and `rank` grows along them away from the root. */
  ghost predicate LinksAt(t: Tree, rank: seq<nat>, n: int)
    requires |rank| == |t.nodes|
  {
    0 <= n < |t.nodes| ==>
      var d := t.nodes[n];
      && rank[n] < |t.nodes|
      && Link(t, d.left) && Link(t, d.right) && Link(t, d.parent)
      && (d.left >= 0 ==> rank[n] < rank[d.left])
      && (d.right >= 0 ==> rank[n] < rank[d.right])
      && (d.parent >= 0 ==> rank[d.parent] < rank[n])
  }

  ghost predicate Acyclic(t: Tree, rank: seq<nat>) {
    && |rank| == |t.nodes|
    && 0 <= t.root < |t.nodes|
    && forall n :: LinksAt(t, rank, n)
  }

  /** Every node but the root has a parent, which is internal and names it; an internal node has two children. */
  ghost predicate CodeNodeAt(t: Tree, n: int) {
    0 <= n < |t.nodes| ==>
      var d := t.nodes[n];
      && (d.parent < 0 <==> n == t.root)
      && (0 <= d.parent < |t.nodes| ==>
            var p := t.nodes[d.parent];
            p.symbol == INTERNAL_NODE && (p.right == n || p.left == n))
      && (d.symbol == INTERNAL_NODE ==> d.left >= 0 && d.right >= 0)
  }

  /** `loc` finds the leaf of byte `c`. */
  ghost predicate LeafAt(t: Tree, c: int)
    requires |t.loc| == HMAX + 1
  {
    0 <= c < HMAX ==> 0 <= t.loc[c] < |t.nodes| && t.nodes[t.loc[c]].symbol == c
  }

  /** A code tree: acyclic with an internal root, every node properly linked, a leaf for every byte. */
  ghost predicate CodeTree(t: Tree, rank: seq<nat>) {
    && Acyclic(t, rank)
    && t.nodes[t.root].symbol == INTERNAL_NODE
    && |t.loc| == HMAX + 1
    && (forall n :: CodeNodeAt(t, n))
    && (forall c :: LeafAt(t, c))
  }

  /** A balanced code tree: 255 internal nodes in heap order, then the 256 leaves, so every word has eight bits. */
  function HeapNode(n: nat): Node {
    Node(if n < 255 then 2 * n + 1 else NIL, if n < 255 then 2 * n + 2 else NIL, if n == 0 then NIL else (n - 1) / 2,
         if n < 255 then INTERNAL_NODE else n - 255)
  }

  function HeapTree(size: nat): Tree {
    Tree(seq(size, n requires 0 <= n < size => HeapNode(n)), 0, seq(HMAX + 1, c => c + 255))
  }

  /** There are code trees. */
  lemma HeapTreeIsCodeTree(size: nat, rank: seq<nat>)
    requires size == 511 && rank == seq(size, n => n)
    ensures CodeTree(HeapTree(size), rank)
  {
    var t := HeapTree(size);
    forall n
      ensures LinksAt(t, rank, n)
    {
    }
    forall n
      ensures CodeNodeAt(t, n)
    {
      if 0 < n < size {
        assert t.nodes[n] == HeapNode(n) && t.nodes[(n - 1) / 2] == HeapNode((n - 1) / 2);
      }
    }
  }

  // ---------------------------------------------------------------------------------------------
  // Specification: code words, and reading one symbol

  /** The code word of node `n`: the turns from the root down to it. */
  ghost function Code(t: Tree, rank: seq<nat>, n: int): seq<bool>
    requires Acyclic(t, rank) && 0 <= n < |t.nodes|
    decreases rank[n]
  {
    assert LinksAt(t, rank, n);
    var p := t.nodes[n].parent;
    if p < 0 then [] else Code(t, rank, p) + [t.nodes[p].right == n]
  }

  ghost function Word(t: Tree, rank: seq<nat>, c: Byte): seq<bool>
    requires CodeTree(t, rank)
  {
    assert LeafAt(t, c);
    Code(t, rank, t.loc[c])
  }

  /** The concatenated code words of a byte string. */
  ghost function Encode(t: Tree, rank: seq<nat>, data: seq<Byte>): seq<bool>
    requires CodeTree(t, rank)
  {
    if data == [] then [] else Word(t, rank, data[0]) + Encode(t, rank, data[1..])
  }

  /** The bits the decoder reads: those of `input`, followed by memory nothing is known about. */
  ghost function Memory(input: seq<Byte>, beyond: nat -> bool): nat -> bool {
    (i: nat) => if i / 8 < |input| then BufBit(input, i) else beyond(i)
  }

  /** Where the walk that starts at node `n` and bit `pos` stops: a leaf or a null link, and the next bit. */
  ghost function Walk(t: Tree, rank: seq<nat>, bits: nat -> bool, n: int, pos: nat): (r: (int, nat))
    requires Acyclic(t, rank) && Link(t, n)
    ensures Link(t, r.0) && (r.0 >= 0 ==> t.nodes[r.0].symbol != INTERNAL_NODE)
    ensures pos <= r.1
    decreases if n < 0 then 0 else |t.nodes| - rank[n]
  {
    if n < 0 || t.nodes[n].symbol != INTERNAL_NODE then (n, pos) else
    assert LinksAt(t, rank, n);
    Walk(t, rank, bits, if bits(pos) then t.nodes[n].right else t.nodes[n].left, pos + 1)
  }

  /** The symbol read at bit `pos`, and where the next one starts; a null link reads as 0 and moves nowhere. */
  ghost function Receive(t: Tree, rank: seq<nat>, bits: nat -> bool, pos: nat): (r: (int, nat))
    requires Acyclic(t, rank)
    ensures pos <= r.1
  {
    var w := Walk(t, rank, bits, t.root, pos);
    if w.0 < 0 then (0, pos) else (t.nodes[w.0].symbol, w.1)
  }

  /** What the reader delivers from bit `pos` on: symbols, cut to a byte, until `limit` is reached or `room` is used
      up. */
  ghost function Decode(t: Tree, rank: seq<nat>, bits: nat -> bool, pos: nat, limit: nat, room: nat): seq<Byte>
    requires Acyclic(t, rank)
    decreases room
  {
    if pos >= limit || room == 0 then [] else
    var r := Receive(t, rank, bits, pos);
    [r.0 % 256] + Decode(t, rank, bits, r.1, limit, room - 1)
  }

  // ---------------------------------------------------------------------------------------------
  // The code is uniquely decodable

  /** The bits from `pos` on begin with `code`. */
  ghost predicate Spells(bits: nat -> bool, pos: nat, code: seq<bool>) {
    forall i: nat :: i < |code| ==> bits(pos + i) == code[i]
  }

  lemma SpellsParts(bits: nat -> bool, pos: nat, a: seq<bool>, b: seq<bool>)
    requires Spells(bits, pos, a + b)
    ensures Spells(bits, pos, a) && Spells(bits, pos + |a|, b)
  {
    forall i: nat | i < |a|
      ensures bits(pos + i) == a[i]
    {
      assert (a + b)[i] == a[i];
    }
    forall i: nat | i < |b|
      ensures bits(pos + |a| + i) == b[i]
    {
      assert (a + b)[|a| + i] == b[i];
      assert bits(pos + (|a| + i)) == b[i];
    }
  }

  lemma WalkStep(t: Tree, rank: seq<nat>, bits: nat -> bool, n: int, pos: nat)
    requires CodeTree(t, rank) && 0 <= n < |t.nodes| && n != t.root
    ensures var p := t.nodes[n].parent;
            && 0 <= p < |t.nodes| && rank[p] < rank[n]
            && (bits(pos) == (t.nodes[p].right == n) ==>
                  Walk(t, rank, bits, p, pos) == Walk(t, rank, bits, n, pos + 1))
  {
    assert LinksAt(t, rank, n) && CodeNodeAt(t, n);
  }

  /** Reading the code word of `n` leads from the root to `n`. */
  lemma {:induction false} WalkFollowsCode(t: Tree, rank: seq<nat>, bits: nat -> bool, n: int, pos: nat)
    requires CodeTree(t, rank) && 0 <= n < |t.nodes|
    requires Spells(bits, pos, Code(t, rank, n))
    ensures Walk(t, rank, bits, t.root, pos) == Walk(t, rank, bits, n, pos + |Code(t, rank, n)|)
    decreases rank[n]
  {
    assert CodeNodeAt(t, n);
    if n != t.root {
      WalkStep(t, rank, bits, n, pos);
      var p := t.nodes[n].parent;
      var code, turn := Code(t, rank, p), [t.nodes[p].right == n];
      SpellsParts(bits, pos, code, turn);
      WalkFollowsCode(t, rank, bits, p, pos);
      assert bits(pos + |code| + 0) == turn[0];
      WalkStep(t, rank, bits, n, pos + |code|);
    }
  }

  /** One code word reads back as its byte. */
  lemma ReceiveWord(t: Tree, rank: seq<nat>, bits: nat -> bool, c: Byte, pos: nat)
    requires CodeTree(t, rank)
    requires Spells(bits, pos, Word(t, rank, c))
    ensures Receive(t, rank, bits, pos) == (c, pos + |Word(t, rank, c)|)
  {
    assert LeafAt(t, c);
    WalkFollowsCode(t, rank, bits, t.loc[c], pos);
  }

  lemma {:induction false} WalkFindsLeaf(t: Tree, rank: seq<nat>, bits: nat -> bool, n: int, pos: nat)
    requires CodeTree(t, rank) && 0 <= n < |t.nodes|
    ensures Walk(t, rank, bits, n, pos).0 >= 0
    decreases |t.nodes| - rank[n]
  {
    assert LinksAt(t, rank, n) && CodeNodeAt(t, n);
    var d := t.nodes[n];
    if d.symbol == INTERNAL_NODE {
      WalkFindsLeaf(t, rank, bits, if bits(pos) then d.right else d.left, pos + 1);
    }
  }

  /** In a code tree every symbol takes at least one bit, and no null link is met. */
  lemma ReceiveAdvances(t: Tree, rank: seq<nat>, bits: nat -> bool, pos: nat)
    requires CodeTree(t, rank)
    ensures Receive(t, rank, bits, pos).1 > pos
  {
    WalkFindsLeaf(t, rank, bits, t.root, pos);
  }

  /** Past the encoded bytes at most one symbol is delivered per remaining bit. */
  lemma {:induction false} SurplusBound(t: Tree, rank: seq<nat>, bits: nat -> bool, pos: nat, limit: nat, room: nat)
    requires CodeTree(t, rank) && pos <= limit
    ensures |Decode(t, rank, bits, pos, limit, room)| <= limit - pos
    decreases room
  {
    if pos < limit && room > 0 {
      ReceiveAdvances(t, rank, bits, pos);
      var next := Receive(t, rank, bits, pos).1;
      if next <= limit {
        SurplusBound(t, rank, bits, next, limit, room - 1);
      }
    }
  }

  /** From bits that spell `data`, the decoder delivers `data`, and at most one symbol per bit after it. */
  lemma {:induction false} DecodeEncode(t: Tree, rank: seq<nat>, bits: nat -> bool, data: seq<Byte>, pos: nat,
      limit: nat, room: nat)
    requires CodeTree(t, rank)
    requires Spells(bits, pos, Encode(t, rank, data))
    requires pos + |Encode(t, rank, data)| <= limit
    ensures var r := Decode(t, rank, bits, pos, limit, room);
            if room <= |data| then r == data[..room]
            else && data <= r && |r| - |data| <= limit - pos - |Encode(t, rank, data)|
                 && (r == data <==> pos + |Encode(t, rank, data)| == limit)
    decreases room
  {
    hide CodeTree, Spells, Word, Receive;
    if room > 0 {
      if data == [] {
        SurplusBound(t, rank, bits, pos, limit, room);
      } else {
        var word, rest := Word(t, rank, data[0]), Encode(t, rank, data[1..]);
        SpellsParts(bits, pos, word, rest);
        ReceiveWord(t, rank, bits, data[0], pos);
        ReceiveAdvances(t, rank, bits, pos);
        DecodeEncode(t, rank, bits, data[1..], pos + |word|, limit, room - 1);
      }
    }
  }

  lemma {:induction false} EncodeAppend(t: Tree, rank: seq<nat>, a: seq<Byte>, c: Byte)
    requires CodeTree(t, rank)
    ensures Encode(t, rank, a + [c]) == Encode(t, rank, a) + Word(t, rank, c)
  {
    if a == [] {
      assert (a + [c])[1..] == [];
    } else {
      assert (a + [c])[1..] == a[1..] + [c];
      EncodeAppend(t, rank, a[1..], c);
    }
  }

  lemma {:induction false} EncodePrefix(t: Tree, rank: seq<nat>, data: seq<Byte>, n: nat)
    requires CodeTree(t, rank) && n <= |data|
    ensures |Encode(t, rank, data[..n])| <= |Encode(t, rank, data)|
  {
    if n > 0 {
      assert data[..n][1..] == data[1..][..n - 1];
      EncodePrefix(t, rank, data[1..], n - 1);
    }
  }

  /** The round trip: from the encoded bits, padded to `used` whole bytes and followed by any memory, the decoder
      delivers the data, cut off only by the room it has, and after the data at most as many surplus bytes as there
      are pad bits, so at most 7. With room to spare the result is exactly the data only when there are no pad bits. */
  lemma RoundTrip(t: Tree, rank: seq<nat>, data: seq<Byte>, input: seq<Byte>, used: nat, beyond: nat -> bool, room: nat)
    requires CodeTree(t, rank)
    requires used == (|Encode(t, rank, data)| + 7) / 8 <= |input|
    requires BitsOf(input[..used], |Encode(t, rank, data)|) == Encode(t, rank, data)
    ensures var r := Decode(t, rank, Memory(input, beyond), 0, 8 * used, room);
            if room <= |data| then r == data[..room]
            else && data <= r && |r| - |data| <= 8 * used - |Encode(t, rank, data)| <= 7
                 && (r == data <==> |Encode(t, rank, data)| % 8 == 0)
  {
    hide CodeTree, Encode, Decode, Spells, BitsOf, Memory;
    var code, bits := Encode(t, rank, data), Memory(input, beyond);
    CodeInMemory(code, input, used, beyond);
    DecodeEncode(t, rank, bits, data, 0, 8 * used, room);
  }

  lemma CodeInMemory(code: seq<bool>, input: seq<Byte>, used: nat, beyond: nat -> bool)
    requires |code| <= 8 * used <= 8 * |input| && BitsOf(input[..used], |code|) == code
    ensures Spells(Memory(input, beyond), 0, code)
  {
    var bits := Memory(input, beyond);
    forall i: nat | i < |code|
      ensures bits(0 + i) == code[i]
    {
      assert input[..used][i / 8] == input[i / 8];
      assert BitsOf(input[..used], |code|)[i] == BufBit(input[..used], i);
      assert bits(i) == BufBit(input, i);
    }
  }

  // ---------------------------------------------------------------------------------------------
  // The coder itself

  /** The first `n` bits of a buffer. */
  ghost function BitsOf(buf: seq<Byte>, n: nat): (r: seq<bool>)
    requires n <= 8 * |buf|
    ensures |r| == n && forall i: nat :: i < n ==> r[i] == BufBit(buf, i)
  {
    seq(n, i requires 0 <= i < n => BufBit(buf, i))
  }

  /** No bit at or after `n` is set in the byte that bit `n` falls into. */
  ghost predicate CleanFrom(buf: seq<Byte>, n: nat) {
    n % 8 > 0 && n / 8 < |buf| ==> forall k: nat :: n % 8 <= k < 8 ==> !BitAt(buf[n / 8], k)
  }

  class Coder {
    const tree: Tree
    ghost const rank: seq<nat>
    var bloc: nat

    constructor (tree: Tree, ghost rank: seq<nat>)
      requires Acyclic(tree, rank)
      ensures this.tree == tree && this.rank == rank
    {
      this.tree, this.rank, this.bloc := tree, rank, 0;
    }

    method AddBit(bit: bool, fout: array<Byte>)
      requires bloc / 8 < fout.Length && CleanFrom(fout[..], bloc)
      modifies this`bloc, fout
      ensures bloc == old(bloc) + 1 && CleanFrom(fout[..], bloc)
      ensures BitsOf(fout[..], bloc) == BitsOf(old(fout[..]), old(bloc)) + [bit]
    {
      var at, k := bloc / 8, bloc % 8;
      if k == 0 {
        fout[at] := 0;
        forall j: nat {
          ZeroBits(j);
        }
      }
      if bit {
        fout[at] := SetBit(fout[at], k);
      }
      bloc := bloc + 1;
    }

    method GetBit(fin: array<Byte>, beyond: nat -> bool) returns (bit: bool)
      modifies this`bloc
      ensures bit == Memory(fin[..], beyond)(old(bloc))
      ensures bloc == old(bloc) + 1
    {
      bit := if bloc / 8 < fin.Length then BitAt(fin[bloc / 8], bloc % 8) else beyond(bloc);
      bloc := bloc + 1;
    }

    /** Sends the code word of `node`, and the turn from there to `child` if there is one. */
    method Send(node: int, child: int, fout: array<Byte>)
      requires Acyclic(tree, rank) && 0 <= node < |tree.nodes|
      requires bloc + |Code(tree, rank, node)| + (if child < 0 then 0 else 1) <= 8 * fout.Length
      requires CleanFrom(fout[..], bloc)
      modifies this`bloc, fout
      ensures bloc <= 8 * fout.Length && CleanFrom(fout[..], bloc)
      ensures BitsOf(fout[..], bloc) == BitsOf(old(fout[..]), old(bloc)) + Code(tree, rank, node)
              + if child < 0 then [] else [tree.nodes[node].right == child]
      decreases rank[node]
    {
      assert LinksAt(tree, rank, node);
      var parent := tree.nodes[node].parent;
      if parent >= 0 {
        Send(parent, node, fout);
      }
      if child >= 0 {
        AddBit(tree.nodes[node].right == child, fout);
      }
    }

    /** Appends the code word of byte `ch` at bit `offset`. */
    method OffsetTransmit(ch: Byte, fout: array<Byte>, offset: nat) returns (next: nat)
      requires CodeTree(tree, rank)
      requires offset + |Word(tree, rank, ch)| <= 8 * fout.Length
      requires CleanFrom(fout[..], offset)
      modifies this`bloc, fout
      ensures next <= 8 * fout.Length && CleanFrom(fout[..], next)
      ensures BitsOf(fout[..], next) == BitsOf(old(fout[..]), offset) + Word(tree, rank, ch)
    {
      assert LeafAt(tree, ch);
      bloc := offset;
      Send(tree.loc[ch], NIL, fout);
      next := bloc;
    }

    /** Reads one symbol at bit `offset`; an illegal tree yields 0 and leaves the offset alone. */
    method OffsetReceive(fin: array<Byte>, beyond: nat -> bool, offset: nat) returns (ch: int, next: nat)
      requires Acyclic(tree, rank)
      modifies this`bloc
      ensures (ch, next) == Receive(tree, rank, Memory(fin[..], beyond), offset)
    {
      ghost var bits := Memory(fin[..], beyond);
      bloc := offset;
      var node := tree.root;
      while node >= 0 && tree.nodes[node].symbol == INTERNAL_NODE
        invariant Link(tree, node)
        invariant Walk(tree, rank, bits, node, bloc) == Walk(tree, rank, bits, tree.root, offset)
        decreases if node < 0 then 0 else |tree.nodes| - rank[node]
      {
        assert LinksAt(tree, rank, node);
        var bit := GetBit(fin, beyond);
        node := if bit then tree.nodes[node].right else tree.nodes[node].left;
      }
      if node < 0 {
        return 0, offset;
      }
      return tree.nodes[node].symbol, bloc;
    }

    /** Compresses the first `bytecount` bytes of `datasrc`; returns the number of bytes used. */
    method WriteBitsCompress(datasrc: array<Byte>, buffdest: array<Byte>, bytecount: int) returns (used: nat)
      requires CodeTree(tree, rank) && datasrc != buffdest && bytecount <= datasrc.Length
      requires bytecount > 0 ==> |Encode(tree, rank, datasrc[..bytecount])| <= 8 * buffdest.Length
      modifies this`bloc, buffdest
      ensures var code := Encode(tree, rank, datasrc[..if bytecount > 0 then bytecount else 0]);
              && used == (|code| + 7) / 8 <= buffdest.Length
              && BitsOf(buffdest[..used], |code|) == code
    {
      if bytecount <= 0 {
        return 0;
      }
      var offset: nat, i := 0, 0;
      while i < bytecount
        invariant 0 <= i <= bytecount
        invariant offset <= 8 * buffdest.Length && CleanFrom(buffdest[..], offset)
        invariant BitsOf(buffdest[..], offset) == Encode(tree, rank, datasrc[..i])
      {
        EncodeAppend(tree, rank, datasrc[..i], datasrc[i]);
        assert datasrc[..i + 1] == datasrc[..i] + [datasrc[i]];
        EncodePrefix(tree, rank, datasrc[..bytecount], i + 1);
        assert datasrc[..bytecount][..i + 1] == datasrc[..i + 1];
        offset := OffsetTransmit(datasrc[i], buffdest, offset);
        i := i + 1;
      }
      used := (offset + 7) / 8;
    }

    /** Decompresses `readsize` bytes of `input`; returns the number of bytes delivered. */
    method ReadBitsCompress(input: array<Byte>, beyond: nat -> bool, readsize: int, outputBuf: array<Byte>,
        outputBufSize: int)
      returns (count: nat)
      requires Acyclic(tree, rank) && input != outputBuf && readsize <= input.Length
          && outputBufSize <= outputBuf.Length
      modifies this`bloc, outputBuf
      ensures count <= outputBuf.Length
      ensures var room := if outputBufSize > 0 then outputBufSize else 0;
              outputBuf[..count]
                  == if readsize <= 0 then [] else Decode(tree, rank, Memory(input[..], beyond), 0, 8 * readsize, room)
      ensures outputBuf[count..] == old(outputBuf[count..])
    {
      hide Receive, Memory, Acyclic;
      if readsize <= 0 {
        return 0;
      }
      var limit := 8 * readsize;
      var offset: nat := 0;
      count := 0;
      ghost var bits := Memory(input[..], beyond);
      ghost var room: nat := if outputBufSize > 0 then outputBufSize else 0;
      while offset < limit && count < outputBufSize
        invariant count <= room
        invariant outputBuf[..count] + Decode(tree, rank, bits, offset, limit, room - count)
            == Decode(tree, rank, bits, 0, limit, room)
        invariant outputBuf[count..] == old(outputBuf[count..])
        decreases outputBufSize - count
      {
        var get;
        get, offset := OffsetReceive(input, beyond, offset);
        outputBuf[count] := get % 256;
        count := count + 1;
      }
    }
  }
}
