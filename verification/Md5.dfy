/** The streaming MD5 of dis/md5.c, for an arbitrary block function in place of MD5Transform. */
module Md5 {
  import opened Bits

  /** The four words of the chaining state. */
  datatype Words = Words(a: bv32, b: bv32, c: bv32, d: bv32)

  const INIT := Words(0x67452301, 0xefcdab89, 0x98badcfe, 0x10325476)

  type Transform = (Words, seq<Byte>) -> Words

  // ---------------------------------------------------------------------------------------------
  // The digest of a whole message, after RFC 1321

  /** The state after the first `n` 64-byte blocks of `data`. */
  function Chain(f: Transform, data: seq<Byte>, n: nat): Words
    requires 64 * n <= |data|
  {
    if n == 0 then INIT else f(Chain(f, data, n - 1), data[64 * (n - 1)..64 * n])
  }

  function Zeros(n: nat): seq<Byte> { seq(n, _ => 0) }

  function ByteOf(v: nat, i: nat): Byte
    decreases i
  {
    if i == 0 then v % 256 else ByteOf(v / 256, i - 1)
  }

  /** A number as `n` bytes, least significant first. */
  function Le(v: nat, n: nat): (r: seq<Byte>)
    ensures |r| == n
  {
    seq(n, i requires 0 <= i < n => ByteOf(v, i))
  }

  /** Section 3.2: the bit length modulo 2^64. */
  function Length(n: nat): (r: seq<Byte>)
    ensures |r| == 8
  {
    Le(8 * n % (0x1_0000_0000_0000_0000), 8)
  }

  /** Section 3.1: a one bit, zero bits up to 56 bytes modulo 64, and then the length. */
  function Padding(n: nat): (r: seq<Byte>)
    ensures (n + |r|) % 64 == 0
  {
    PaddingLength(n);
    [0x80] + Zeros((55 - n) % 64) + Length(n)
  }

  lemma PaddingLength(n: nat)
    ensures (n + 1 + (55 - n) % 64 + 8) % 64 == 0
  {
  }

  function Padded(msg: seq<Byte>): (r: seq<Byte>)
    ensures |r| % 64 == 0
  {
    msg + Padding(|msg|)
  }

  function Digest(f: Transform, msg: seq<Byte>): Words {
    Chain(f, Padded(msg), |Padded(msg)| / 64)
  }

  lemma {:induction false} ChainPrefix(f: Transform, data: seq<Byte>, more: seq<Byte>, n: nat)
    requires 64 * n <= |data|
    ensures Chain(f, data + more, n) == Chain(f, data, n)
  {
    if n > 0 {
      ChainPrefix(f, data, more, n - 1);
      assert (data + more)[64 * (n - 1)..64 * n] == data[64 * (n - 1)..64 * n];
    }
  }

  // ---------------------------------------------------------------------------------------------
  // The two-word bit counter

  function Low(n: nat): nat { 8 * n % 0x1_0000_0000 }
  function High(n: nat): nat { 8 * n / 0x1_0000_0000 % 0x1_0000_0000 }

  /** Addition of 32-bit words; it also cuts `v` to a word. */
  function Add32(w: nat, v: nat): nat { (w + v % 0x1_0000_0000) % 0x1_0000_0000 }

  /** Counting `len` more bytes with a carry between 32-bit words keeps the 64-bit count. */
  lemma CountStep(n: nat, len: nat)
    requires len < 0x1_0000_0000
    ensures Add32(Low(n), 8 * len) == Low(n + len)
    ensures var high := if Low(n + len) < Low(n) then Add32(High(n), 1) else High(n);
            Add32(high, len / 0x2000_0000) == High(n + len)
  {
    hide Add32, Low, High;
    CountLow(n, len);
    CountHigh(n, len);
  }

  lemma CountLow(n: nat, len: nat)
    ensures Add32(Low(n), 8 * len) == Low(n + len)
    ensures Low(n + len) < Low(n) <==> 8 * n % 0x1_0000_0000 + 8 * len % 0x1_0000_0000 >= 0x1_0000_0000
  {
    var t, u := 8 * n % 0x1_0000_0000, 8 * len % 0x1_0000_0000;
    CarrySum(8 * n, 8 * len, if t + u < 0x1_0000_0000 then 0 else 1);
    assert 8 * (n + len) == 8 * n + 8 * len;
  }

  lemma CountHigh(n: nat, len: nat)
    requires len < 0x1_0000_0000
    ensures var carries := 8 * n % 0x1_0000_0000 + 8 * len % 0x1_0000_0000 >= 0x1_0000_0000;
            Add32(if carries then Add32(High(n), 1) else High(n), len / 0x2000_0000) == High(n + len)
  {
    hide Add32;
    var t, q := 8 * n % 0x1_0000_0000, 8 * n / 0x1_0000_0000;
    var u, p := 8 * len % 0x1_0000_0000, 8 * len / 0x1_0000_0000;
    var carry := if t + u < 0x1_0000_0000 then 0 else 1;
    Eighth(len);
    CarrySum(8 * n, 8 * len, carry);
    assert 8 * (n + len) == 8 * n + 8 * len;
    CarryMod(q, carry, p);
  }

  lemma Eighth(len: nat)
    ensures 8 * len / 0x1_0000_0000 == len / 0x2000_0000
  {
  }

  /** The sum of two numbers in words: the low word, and the rest with the carry. */
  lemma CarrySum(a: nat, b: nat, carry: nat)
    requires carry == if a % 0x1_0000_0000 + b % 0x1_0000_0000 < 0x1_0000_0000 then 0 else 1
    ensures (a % 0x1_0000_0000 + b % 0x1_0000_0000) % 0x1_0000_0000 == (a + b) % 0x1_0000_0000
    ensures (a + b) % 0x1_0000_0000 == a % 0x1_0000_0000 + b % 0x1_0000_0000 - carry * 0x1_0000_0000
    ensures (a + b) / 0x1_0000_0000 == a / 0x1_0000_0000 + b / 0x1_0000_0000 + carry
  {
    var t, u := a % 0x1_0000_0000, b % 0x1_0000_0000;
    ModUnique(a + b, 0x1_0000_0000, a / 0x1_0000_0000 + b / 0x1_0000_0000 + carry, t + u - carry * 0x1_0000_0000);
    ModUnique(t + u, 0x1_0000_0000, carry, t + u - carry * 0x1_0000_0000);
  }

  lemma CarryMod(q: nat, carry: nat, p: nat)
    requires carry <= 1 && p < 0x1_0000_0000
    ensures var high := if carry == 1 then Add32(q % 0x1_0000_0000, 1) else q % 0x1_0000_0000;
            Add32(high, p) == (q + p + carry) % 0x1_0000_0000
  {
    AddMod(q, carry, p);
    ModUnique(q % 0x1_0000_0000, 0x1_0000_0000, 0, q % 0x1_0000_0000);
    ModUnique(p, 0x1_0000_0000, 0, p);
  }

  lemma AddMod(q: nat, c: nat, p: nat)
    ensures ((q % 0x1_0000_0000 + c) % 0x1_0000_0000 + p) % 0x1_0000_0000 == (q + p + c) % 0x1_0000_0000
  {
    var a := q % 0x1_0000_0000 + c;
    var b := a % 0x1_0000_0000 + p;
    ModUnique(q + p + c, 0x1_0000_0000, q / 0x1_0000_0000 + a / 0x1_0000_0000 + b / 0x1_0000_0000, b % 0x1_0000_0000);
  }

  /** The counter also holds the fill of the buffer. */
  lemma CountFill(n: nat)
    ensures Low(n) / 8 % 64 == n % 64
  {
    FillOf(n, n / 0x2000_0000, n % 0x2000_0000);
  }

  lemma FillOf(n: nat, q: nat, r: nat)
    requires n == q * 0x2000_0000 + r && r < 0x2000_0000
    ensures 8 * n % 0x1_0000_0000 / 8 % 64 == n % 64
  {
    ModUnique(8 * n, 0x1_0000_0000, q, 8 * r);
    ModUnique(n, 64, q * 0x80_0000 + r / 64, r % 64);
  }

  function Pow256(k: nat): nat { if k == 0 then 1 else 256 * Pow256(k - 1) }

  lemma {:induction false} ByteOfJoin(low: nat, high: nat, k: nat, i: nat)
    requires low < Pow256(k)
    ensures ByteOf(low + Pow256(k) * high, i) == if i < k then ByteOf(low, i) else ByteOf(high, i - k)
    decreases k
  {
    if k > 0 {
      var x := Pow256(k - 1) * high;
      assert Pow256(k) * high == 256 * x;
      assert (low + 256 * x) % 256 == low % 256 && (low + 256 * x) / 256 == low / 256 + x;
      if i > 0 {
        ByteOfJoin(low / 256, high, k - 1, i - 1);
      }
    }
  }

  lemma LengthWords(n: nat)
    ensures Length(n) == Le(Low(n), 4) + Le(High(n), 4)
  {
    var t, q := 8 * n % 0x1_0000_0000, 8 * n / 0x1_0000_0000;
    ModUnique(8 * n, 0x1_0000_0000_0000_0000, q / 0x1_0000_0000, t + 0x1_0000_0000 * (q % 0x1_0000_0000));
    assert Pow256(4) == 0x1_0000_0000 by {
      assert Pow256(2) == 0x1_0000;
    }
    forall i | 0 <= i < 8
      ensures Length(n)[i] == (Le(Low(n), 4) + Le(High(n), 4))[i]
    {
      ByteOfJoin(Low(n), High(n), 4, i);
    }
  }

  // ---------------------------------------------------------------------------------------------
  // The streaming context

  /** One more block on a message of whole blocks. */
  lemma ChainStep(f: Transform, m: seq<Byte>, block: seq<Byte>)
    requires |m| % 64 == 0 && |block| == 64
    ensures |m + block| % 64 == 0 && |m + block| / 64 == |m| / 64 + 1
    ensures Chain(f, m + block, |m + block| / 64) == f(Chain(f, m, |m| / 64), block)
  {
    var n := |m| / 64;
    ChainPrefix(f, m, block, n);
    assert (m + block)[64 * n..64 * (n + 1)] == block;
  }

  /** Bytes that do not fill a block leave the chain alone. */
  lemma ChainRest(f: Transform, m: seq<Byte>, rest: seq<Byte>)
    requires |m| % 64 == 0 && |rest| < 64
    ensures |m + rest| / 64 == |m| / 64 && |m + rest| % 64 == |rest|
    ensures Chain(f, m + rest, |m + rest| / 64) == Chain(f, m, |m| / 64)
    ensures (m + rest)[|m + rest| / 64 * 64..] == rest
  {
    ChainPrefix(f, m, rest, |m| / 64);
    assert (m + rest)[|m|..] == rest;
  }

  class Context {
    const f: Transform
    var buf: Words
    var bits0: nat
    var bits1: nat
    const inb: array<Byte>
    ghost var msg: seq<Byte>

    /** The counter counts the message so far, state and buffer hold it. */
    ghost predicate Valid()
      reads this, inb
    {
      && inb.Length == 64
      && bits0 == Low(|msg|) && bits1 == High(|msg|)
      && Holds(msg)
    }

    /** The state has the whole blocks of `all`, the buffer the rest. */
    ghost predicate Holds(all: seq<Byte>)
      requires inb.Length == 64
      reads this, inb
    {
      buf == Chain(f, all, |all| / 64) && inb[..|all| % 64] == all[|all| / 64 * 64..]
    }

    /** MD5Init. */
    constructor (f: Transform)
      ensures Valid() && msg == [] && this.f == f && fresh(inb)
    {
      this.f := f;
      inb := new Byte[64];
      buf, bits0, bits1 := INIT, 0, 0;
      msg := [];
    }

    /** memcpy into the buffer at `to`. */
    method Fill(to: nat, data: array<Byte>, from: nat, n: nat)
      requires inb.Length == 64 && to + n <= 64 && from + n <= data.Length && data != inb
      modifies inb
      ensures inb[..to + n] == old(inb[..to]) + data[from..from + n]
    {
      forall i | 0 <= i < n {
        inb[to + i] := data[from + i];
      }
    }

    /** The bit counter's share of MD5Update; `n` bytes have been counted. */
    method Count(len: nat, ghost n: nat)
      requires bits0 == Low(n) && bits1 == High(n) && len < 0x1_0000_0000
      modifies this`bits0, this`bits1
      ensures bits0 == Low(n + len) && bits1 == High(n + len)
    {
      hide Low, High, Add32;
      CountStep(n, len);
      var t := bits0;
      bits0 := Add32(t, 8 * len);
      if bits0 < t {
        bits1 := Add32(bits1, 1);
      }
      bits1 := Add32(bits1, len / 0x2000_0000);
    }

    /** The state has seen `m`, which is whole blocks. */
    ghost predicate Seen(m: seq<Byte>)
      reads this
    {
      |m| % 64 == 0 && buf == Chain(f, m, |m| / 64)
    }

    /** MD5Transform on the buffer. */
    method Block(ghost m: seq<Byte>)
      requires inb.Length == 64 && Seen(m)
      modifies this`buf
      ensures Seen(m + inb[..]) && buf == f(old(buf), inb[..])
    {
      ChainStep(f, m, inb[..]);
      buf := f(buf, inb[..]);
    }

    /** Completes the buffer, which holds `to` bytes, from `data` and runs MD5Transform on it. */
    method Absorb(to: nat, data: array<Byte>, from: nat, ghost m: seq<Byte>)
      requires inb.Length == 64 && data != inb && to <= 64 && from + 64 - to <= data.Length && Seen(m)
      modifies this`buf, inb
      ensures Seen(m + (old(inb[..to]) + data[from..from + 64 - to]))
    {
      Fill(to, data, from, 64 - to);
      assert inb[..64] == inb[..];
      Block(m);
    }

    /** The loop over whole blocks and the copy of the rest. */
    method AbsorbRest(data: array<Byte>, from: nat, len: nat, ghost m: seq<Byte>)
      requires inb.Length == 64 && data != inb && from <= len <= data.Length && Seen(m)
      modifies this`buf, inb
      ensures Holds(m + data[from..len])
    {
      hide Chain;
      var at := from;
      ghost var seen := m;
      while len - at >= 64
        invariant from <= at <= len && Seen(seen)
        invariant m + data[from..len] == seen + data[at..len]
      {
        Absorb(0, data, at, seen);
        Regroup(seen, inb[..0], data[..], at, at + 64, len);
        seen := seen + (inb[..0] + data[at..at + 64]);
        at := at + 64;
      }
      ChainRest(f, seen, data[at..len]);
      Fill(0, data, at, len - at);
    }

    /** The copy when the buffer, which holds `t` bytes, does not fill up. */
    method FillOnly(t: nat, data: array<Byte>, len: nat, ghost m: seq<Byte>)
      requires inb.Length == 64 && data != inb && len <= data.Length && t + len < 64 && Seen(m)
      modifies inb
      ensures Holds(m + (old(inb[..t]) + data[..len]))
    {
      ChainRest(f, m, inb[..t] + data[..len]);
      Fill(t, data, 0, len);
    }

    method Update(data: array<Byte>, len: nat)
      requires Valid() && data != inb && len <= data.Length && len < 0x1_0000_0000
      modifies this`buf, this`bits0, this`bits1, this`msg, inb
      ensures Valid() && msg == old(msg) + data[..len]
    {
      hide Chain, Low, High;
      CountFill(|msg|);
      var t := bits0;
      Count(len, |msg|);
      t := t / 8 % 64;
      ghost var m, head := msg[..|msg| / 64 * 64], inb[..t];
      WholeBlocks(f, msg);
      Regroup(m, head, data[..], 0, 0, len);
      msg := msg + data[..len];
      if t != 0 {
        var room := 64 - t;
        if len < room {
          FillOnly(t, data, len, m);
          return;
        }
        Regroup(m, head, data[..], 0, room, len);
        Absorb(t, data, 0, m);
        AbsorbRest(data, room, len, m + (head + data[0..room]));
      } else {
        AbsorbRest(data, 0, len, m);
      }
    }

    /** memset to zero. */
    method Clear(from: nat, to: nat)
      requires inb.Length == 64 && from <= to <= 64
      modifies inb
      ensures inb[..to] == old(inb[..from]) + Zeros(to - from)
    {
      forall i | from <= i < to {
        inb[i] := 0;
      }
    }

    /** The two length words at the end of the buffer. */
    method StoreLength(ghost n: nat)
      requires inb.Length == 64 && bits0 == Low(n) && bits1 == High(n)
      modifies inb
      ensures inb[..] == old(inb[..56]) + Length(n)
    {
      LengthWords(n);
      var words := Le(bits0, 4) + Le(bits1, 4);
      forall i | 0 <= i < 8 {
        inb[56 + i] := words[i];
      }
    }

    /** Pads out to 56 bytes modulo 64: `p` bytes of the buffer are in use and `count` are free. */
    method PadOut(p: nat, count: nat, ghost m: seq<Byte>, ghost head: seq<Byte>) returns (ghost seen: seq<Byte>)
      requires inb.Length == 64 && p + count == 64 && p > 0
      requires Seen(m) && msg == m + head && inb[..p] == head + [0x80]
      modifies this`buf, inb
      ensures Seen(seen) && Padded(msg) == seen + (inb[..56] + Length(|msg|))
    {
      if count < 8 {
        PaddedLong(msg, m, head);
        Clear(p, p + count);
        assert inb[..64] == inb[..];
        Block(m);
        seen := m + inb[..];
        Clear(0, 56);
      } else {
        PaddedShort(msg, m, head);
        Clear(p, p + (count - 8));
        seen := m;
      }
    }

    method Final() returns (digest: Words)
      requires Valid()
      modifies this, inb
      ensures digest == Digest(f, old(msg))
      // the closing memset covers a pointer's worth of bytes, one word of four
      ensures buf == digest.(a := 0)
    {
      ghost var m, head := msg[..|msg| / 64 * 64], inb[..|msg| % 64];
      CountFill(|msg|);
      WholeBlocks(f, msg);
      var count := bits0 / 8 % 64;
      inb[count] := 0x80;
      var p := count + 1;
      count := 64 - 1 - count;
      ghost var seen := PadOut(p, count, m, head);
      StoreLength(|msg|);
      Block(seen);
      digest := buf;
      buf := buf.(a := 0);
    }
  }

  /** The padded message as whole blocks when one block is enough. */
  lemma PaddedShort(msg: seq<Byte>, m: seq<Byte>, head: seq<Byte>)
    requires msg == m + head && |m| % 64 == 0 && |head| <= 55
    ensures Padded(msg) == m + (head + [0x80] + Zeros(55 - |head|) + Length(|msg|))
  {
    hide Length, Zeros;
    var size := Length(|msg|);
    PadCount(|m|, |head|, 55 - |head|);
    Assemble(m, head, [0x80], [], Zeros(55 - |head|), size);
  }

  lemma PadCount(whole: nat, part: nat, pad: nat)
    requires whole % 64 == 0 && (part + pad == 55 || part + pad == 119) && pad < 64
    ensures (55 - (whole + part)) % 64 == pad
  {
    ModUnique(55 - (whole + part), 64, -(whole / 64) - (part + pad) / 64, pad);
  }

  /** And when it takes two. */
  lemma PaddedLong(msg: seq<Byte>, m: seq<Byte>, head: seq<Byte>)
    requires msg == m + head && |m| % 64 == 0 && 55 < |head| < 64
    ensures Padded(msg) == m + (head + [0x80] + Zeros(63 - |head|)) + ([] + Zeros(56) + Length(|msg|))
  {
    hide Length;
    var size := Length(|msg|);
    PadCount(|m|, |head|, 119 - |head|);
    assert Zeros(119 - |head|) == Zeros(63 - |head|) + Zeros(56);
    Assemble(m, head, [0x80], Zeros(63 - |head|), Zeros(56), size);
    assert [] + Zeros(56) == Zeros(56);
  }

  lemma Assemble(m: seq<Byte>, head: seq<Byte>, a: seq<Byte>, b: seq<Byte>, c: seq<Byte>, size: seq<Byte>)
    ensures m + head + (a + c + size) == m + (head + a + c + size)
    ensures m + head + (a + (b + c) + size) == m + (head + a + b) + (c + size)
  {
    assert m + head + (a + (b + c) + size) == m + (head + a + b) + (c + size);
  }

  lemma Regroup(m: seq<Byte>, head: seq<Byte>, data: seq<Byte>, a: nat, b: nat, c: nat)
    requires a <= b <= c <= |data|
    ensures m + (head + data[a..c]) == m + (head + data[a..b]) + data[b..c]
    ensures m + head + data[a..c] == m + (head + data[a..c])
    ensures head == [] ==> m + data[a..c] == m + (head + data[a..b]) + data[b..c]
  {
    assert data[a..c] == data[a..b] + data[b..c];
  }

  /** The whole blocks of a message determine the chain so far. */
  lemma WholeBlocks(f: Transform, msg: seq<Byte>)
    ensures var m := msg[..|msg| / 64 * 64];
            && |m| % 64 == 0 && Chain(f, m, |m| / 64) == Chain(f, msg, |msg| / 64)
            && msg == m + msg[|m|..]
  {
    var m, rest := msg[..|msg| / 64 * 64], msg[|msg| / 64 * 64..];
    assert msg == m + rest;
    ChainRest(f, m, rest);
  }

  function Flatten(chunks: seq<seq<Byte>>): seq<Byte> {
    if chunks == [] then [] else Flatten(chunks[..|chunks| - 1]) + chunks[|chunks| - 1]
  }

  lemma FlattenPrefix(chunks: seq<seq<Byte>>, i: nat)
    requires i <= |chunks|
    ensures i == 0 ==> Flatten(chunks[..i]) == []
    ensures i == |chunks| ==> Flatten(chunks[..i]) == Flatten(chunks)
    ensures i < |chunks| ==> Flatten(chunks[..i + 1]) == Flatten(chunks[..i]) + chunks[i]
  {
    assert i == |chunks| ==> chunks[..i] == chunks;
    assert i < |chunks| ==> chunks[..i + 1][..i] == chunks[..i];
  }

  method Stored(chunk: seq<Byte>) returns (data: array<Byte>)
    ensures fresh(data) && data[..] == chunk
  {
    data := new Byte[|chunk|];
    forall i | 0 <= i < |chunk| {
      data[i] := chunk[i];
    }
  }

  /** However a message is cut into updates, the digest is that of the whole message. */
  method DigestOfChunks(f: Transform, chunks: seq<seq<Byte>>) returns (digest: Words)
    requires forall i :: 0 <= i < |chunks| ==> |chunks[i]| < 0x1_0000_0000
    ensures digest == Digest(f, Flatten(chunks))
  {
    hide *;
    var ctx := new Context(f);
    FlattenPrefix(chunks, 0);
    for i := 0 to |chunks|
      invariant ctx.Valid() && fresh(ctx) && fresh(ctx.inb) && ctx.f == f
      invariant ctx.msg == Flatten(chunks[..i])
    {
      var chunk := chunks[i];
      var data := Stored(chunk);
      ctx.Update(data, |chunk|);
      assert data[..|chunk|] == data[..];
      FlattenPrefix(chunks, i);
    }
    FlattenPrefix(chunks, |chunks|);
    digest := ctx.Final();
  }
}
