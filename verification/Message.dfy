/** The message stream of src/msg.c: whole bytes and single bits interleaved in one buffer. */
module Message {
  import opened Bits

  /** The value of the low 16 bits as a C short, and of the low 32 bits as a C int. */
  function AsShort(v: int): int { var u := v % 0x1_0000; if u < 0x8000 then u else u - 0x1_0000 }
  function AsLong(v: int): int { var u := v % 0x1_0000_0000; if u < 0x8000_0000 then u else u - 0x1_0000_0000 }

  function Le16(v: int): seq<Byte> { [v % 256, (v / 256) % 256] }
  function Le32(v: int): seq<Byte> { [v % 256, (v / 256) % 256, (v / 256 / 256) % 256, (v / 256 / 256 / 256) % 256] }

  // ---------------------------------------------------------------------------------------------
  // Specification: the writer

  /** The written part of a message; `bit` is the next bit of the byte that takes bits, or a multiple of 8. */
  datatype Stream = Stream(data: seq<Byte>, bit: nat) {
    /** The bits of the started byte that are still to come are zero. */
    ghost predicate Valid() {
      && bit <= 8 * |data|
      && (bit % 8 != 0 ==> forall k: nat :: bit % 8 <= k < 8 ==> !BitAt(data[bit / 8], k))
    }

    /** MSG_GetUsedBitCount, with nothing split off. */
    function UsedBits(): int {
      8 * |data| - (8 - bit) % 8
    }

    function Put(bytes: seq<Byte>): (s: Stream)
      ensures Valid() ==> s.Valid()
      ensures s.UsedBits() == UsedBits() + 8 * |bytes|
    {
      Stream(data + bytes, bit)
    }

    /** Bit `bit` lies in the message, and no bit of its byte is set from there on. */
    ghost predicate Open() {
      bit / 8 < |data| && forall k: nat :: bit % 8 <= k < 8 ==> !BitAt(data[bit / 8], k)
    }

    /** Starts a zero byte for bits when the last one is full. */
    function Opened(): (s: Stream)
      requires Valid()
      ensures s.Open() && |data| <= |s.data|
      ensures 8 * |s.data| - (8 - s.bit % 8) == UsedBits()
    {
      assert forall k: nat :: !BitAt(0, k) by {
        forall k: nat {
          ZeroBits(k);
        }
      }
      if bit % 8 == 0 then Stream(data + [0], 8 * |data|) else this
    }

    function Marked(b: bool): (s: Stream)
      requires Open()
      ensures s.Valid() && |s.data| == |data|
      ensures s.UsedBits() == 8 * |data| - (8 - bit % 8) + 1
    {
      Stream(if b then data[bit / 8 := SetBit(data[bit / 8], bit % 8)] else data, bit + 1)
    }

    function PutBit(b: bool): (s: Stream)
      requires Valid()
      ensures s.Valid() && |data| <= |s.data|
      ensures s.UsedBits() == UsedBits() + 1
    {
      Opened().Marked(b)
    }

    /** `n` bits of `v`, least significant first. */
    function PutBits(v: int, n: nat): (s: Stream)
      requires Valid()
      ensures s.Valid() && |data| <= |s.data|
      ensures s.UsedBits() == UsedBits() + n
      decreases n
    {
      if n == 0 then this else PutBit(v % 2 == 1).PutBits(v / 2, n - 1)
    }
  }

  /** One write. */
  datatype Item = Byte(c: int) | Short(c: int) | Long(c: int) | Data(bytes: seq<Byte>) | Bits(v: int, n: nat)
      | Bit(b: bool)

  function Write(s: Stream, item: Item): (r: Stream)
    requires s.Valid()
    ensures r.Valid() && |s.data| <= |r.data|
  {
    match item
    case Byte(c) => s.Put([c % 256])
    case Short(c) => s.Put(Le16(c))
    case Long(c) => s.Put(Le32(c))
    case Data(bytes) => s.Put(bytes)
    case Bits(v, n) => s.PutBits(v, n)
    case Bit(b) => s.PutBit(b)
  }

  function WriteAll(s: Stream, items: seq<Item>): (r: Stream)
    requires s.Valid()
    ensures r.Valid() && |s.data| <= |r.data|
    decreases |items|
  {
    if items == [] then s else WriteAll(Write(s, items[0]), items[1..])
  }

  const EMPTY := Stream([], 0)

  // ---------------------------------------------------------------------------------------------
  // Specification: the reader

  datatype Cursor = Cursor(readcount: nat, bit: nat)

  /** What a read returns: a C int, or a run of bytes. */
  datatype Value = Num(v: int) | Run(bytes: seq<Byte>)

  /** The read that answers a write. */
  datatype Kind = KByte | KShort | KLong | KData(len: nat) | KBits(n: nat)

  /** MSG_ReadByte: -1 when the message has run out. */
  function GetByte(data: seq<Byte>, at: Cursor): (int, Cursor) {
    var p := at.readcount;
    if p + 1 > |data| then (-1, at) else (data[p] as int, at.(readcount := p + 1))
  }

  function GetShort(data: seq<Byte>, at: Cursor): (int, Cursor) {
    var p := at.readcount;
    if p + 2 > |data| then (-1, at)
    else (AsShort(data[p] as int + 256 * data[p + 1] as int), at.(readcount := p + 2))
  }

  function FromLe32(a: Byte, b: Byte, c: Byte, d: Byte): int {
    AsLong(a as int + 256 * b as int + 0x1_0000 * c as int + 0x100_0000 * d as int)
  }

  function GetLong(data: seq<Byte>, at: Cursor): (int, Cursor) {
    var p := at.readcount;
    if p + 4 > |data| then (-1, at)
    else (FromLe32(data[p], data[p + 1], data[p + 2], data[p + 3]), at.(readcount := p + 4))
  }

  /** MSG_ReadData: a byte that is not there is stored as (byte)-1. */
  function GetData(data: seq<Byte>, at: Cursor, len: nat): (r: (seq<Byte>, Cursor))
    ensures |r.0| == len
    decreases len
  {
    if len == 0 then ([], at) else
    var (c, mid) := GetByte(data, at);
    var (rest, next) := GetData(data, mid, len - 1);
    ([c % 256] + rest, next)
  }

  /** How a bit read ends: with its bits, past the end (-1, and the message is marked overflowed), or at a
      started byte that lies outside the message (0). */
  datatype Outcome = Complete(bits: seq<bool>) | PastEnd | Outside

  function GetBit(data: seq<Byte>, at: Cursor): (r: (Outcome, Cursor))
    ensures r.0.Complete? ==> |r.0.bits| == 1
  {
    if at.bit % 8 == 0 && at.readcount >= |data| then (PastEnd, at) else
    var c := if at.bit % 8 == 0 then Cursor(at.readcount + 1, 8 * at.readcount) else at;
    if c.bit / 8 >= |data| then (Outside, c)
    else (Complete([BitAt(data[c.bit / 8], c.bit % 8)]), c.(bit := c.bit + 1))
  }

  /** Prefixes the bits of a completed read. */
  function After(front: seq<bool>, o: Outcome): Outcome {
    if o.Complete? then Complete(front + o.bits) else o
  }

  function GetBits(data: seq<Byte>, at: Cursor, n: nat): (r: (Outcome, Cursor))
    ensures r.0.Complete? ==> |r.0.bits| == n
    decreases n
  {
    if n == 0 then (Complete([]), at) else
    var (o, mid) := GetBit(data, at);
    if !o.Complete? then (o, mid) else
    var (rest, next) := GetBits(data, mid, n - 1);
    (After(o.bits, rest), next)
  }

  /** The number with the given bits, least significant first. */
  function FromBits(bits: seq<bool>): nat {
    if bits == [] then 0 else (if bits[0] then 1 else 0) + 2 * FromBits(bits[1..])
  }

  /** The C int that MSG_ReadBits returns. */
  function BitsResult(o: Outcome): int {
    match o
    case Complete(bits) => AsLong(FromBits(bits))
    case PastEnd => -1
    case Outside => 0
  }

  function Read(data: seq<Byte>, at: Cursor, kind: Kind): (Value, Cursor) {
    match kind
    case KByte => var (v, next) := GetByte(data, at); (Num(v), next)
    case KShort => var (v, next) := GetShort(data, at); (Num(v), next)
    case KLong => var (v, next) := GetLong(data, at); (Num(v), next)
    case KData(len) => var (bytes, next) := GetData(data, at, len); (Run(bytes), next)
    case KBits(n) => var (o, next) := GetBits(data, at, n); (Num(BitsResult(o)), next)
  }

  function ReadAll(data: seq<Byte>, at: Cursor, kinds: seq<Kind>): (r: (seq<Value>, Cursor))
    decreases |kinds|
  {
    if kinds == [] then ([], at) else
    var (v, mid) := Read(data, at, kinds[0]);
    var (vs, next) := ReadAll(data, mid, kinds[1..]);
    ([v] + vs, next)
  }

  // ---------------------------------------------------------------------------------------------
  // What was written is read back

  function KindOf(item: Item): Kind {
    match item
    case Byte(_) => KByte
    case Short(_) => KShort
    case Long(_) => KLong
    case Data(bytes) => KData(|bytes|)
    case Bits(_, n) => KBits(n)
    case Bit(_) => KBits(1)
  }

  function KindsOf(items: seq<Item>): seq<Kind> {
    seq(|items|, i requires 0 <= i < |items| => KindOf(items[i]))
  }

  /** The written value cut to its width, in the form the matching read returns it. */
  function Truncated(item: Item): Value {
    match item
    case Byte(c) => Num(c % 256)
    case Short(c) => Num(AsShort(c))
    case Long(c) => Num(AsLong(c))
    case Data(bytes) => Run(bytes)
    case Bits(v, n) => Num(AsLong(v % Pow2(n)))
    case Bit(b) => Num(if b then 1 else 0)
  }

  function TruncatedAll(items: seq<Item>): seq<Value> {
    seq(|items|, i requires 0 <= i < |items| => Truncated(items[i]))
  }

  function End(s: Stream): Cursor { Cursor(|s.data|, s.bit) }

  /** `final` is what `s` may have grown into: its whole bytes are there, and so are the bits of its started byte. */
  ghost predicate Grown(s: Stream, final: seq<Byte>)
    requires s.Valid()
  {
    && |s.data| <= |final|
    && (forall i :: 0 <= i < |s.data| && (s.bit % 8 == 0 || i != s.bit / 8) ==> final[i] == s.data[i])
    && (s.bit % 8 != 0 ==>
          forall k: nat :: k < s.bit % 8 ==> (BitAt(final[s.bit / 8], k) <==> BitAt(s.data[s.bit / 8], k)))
  }

  lemma GrownPut(s: Stream, bytes: seq<Byte>, final: seq<Byte>)
    requires s.Valid() && Grown(s.Put(bytes), final)
    ensures Grown(s, final)
    ensures final[|s.data|..|s.data| + |bytes|] == bytes
  {
    var t := s.Put(bytes);
    assert forall i :: 0 <= i < |s.data| ==> t.data[i] == s.data[i];
    assert forall i :: 0 <= i < |bytes| ==> t.data[|s.data| + i] == bytes[i];
  }

  lemma GrownPutBit(s: Stream, b: bool, final: seq<Byte>)
    requires s.Valid() && Grown(s.PutBit(b), final)
    ensures Grown(s, final)
    ensures GetBit(final, End(s)) == (Complete([b]), End(s.PutBit(b)))
  {
    var t := s.PutBit(b);
    var at := t.bit - 1;
    ZeroBits(at % 8);
    assert BitAt(t.data[at / 8], at % 8) <==> b;
  }

  lemma {:induction false} GrownPutBits(s: Stream, v: int, n: nat, final: seq<Byte>)
    requires s.Valid() && Grown(s.PutBits(v, n), final)
    ensures Grown(s, final)
    ensures var r := GetBits(final, End(s), n);
            r.0.Complete? && FromBits(r.0.bits) == v % Pow2(n) && r.1 == End(s.PutBits(v, n))
    decreases n
  {
    if n > 0 {
      var t := s.PutBit(v % 2 == 1);
      GrownPutBits(t, v / 2, n - 1, final);
      GrownPutBit(s, v % 2 == 1, final);
      HalfMod(v, n);
      var rest := GetBits(final, End(t), n - 1).0;
      assert ([v % 2 == 1] + rest.bits)[1..] == rest.bits;
    }
  }

  lemma Le16RoundTrip(v: int)
    ensures AsShort(v) == AsShort(Le16(v)[0] as int + 256 * Le16(v)[1] as int)
  {
    ModUnique(v, 0x1_0000, v / 256 / 256, v % 256 + 256 * ((v / 256) % 256));
  }

  lemma Le32RoundTrip(v: int)
    ensures AsLong(v) == FromLe32(Le32(v)[0], Le32(v)[1], Le32(v)[2], Le32(v)[3])
  {
    var b, c, d := v / 256, v / 256 / 256, v / 256 / 256 / 256;
    var low := v % 256 + 256 * (b % 256) + 0x1_0000 * (c % 256) + 0x100_0000 * (d % 256);
    assert v == d / 256 * 0x1_0000_0000 + low;
    ModUnique(v, 0x1_0000_0000, d / 256, low);
  }

  lemma {:induction false} ReadRun(final: seq<Byte>, at: Cursor, bytes: seq<Byte>)
    requires at.readcount + |bytes| <= |final|
    requires final[at.readcount..at.readcount + |bytes|] == bytes
    ensures GetData(final, at, |bytes|) == (bytes, at.(readcount := at.readcount + |bytes|))
    decreases |bytes|
  {
    if bytes != [] {
      var mid := at.(readcount := at.readcount + 1);
      assert final[at.readcount] == bytes[0] by {
        assert final[at.readcount] == final[at.readcount..at.readcount + |bytes|][0];
      }
      assert final[mid.readcount..mid.readcount + |bytes[1..]|] == bytes[1..];
      ReadRun(final, mid, bytes[1..]);
      assert [bytes[0]] + bytes[1..] == bytes;
    }
  }

  lemma Slice(final: seq<Byte>, p: nat, bytes: seq<Byte>)
    requires p + |bytes| <= |final| && final[p..p + |bytes|] == bytes
    ensures forall i :: p <= i < p + |bytes| ==> final[i] == bytes[i - p]
  {
    assert forall i :: p <= i < p + |bytes| ==> final[i] == final[p..p + |bytes|][i - p];
  }

  lemma ReadBackShort(s: Stream, c: int, final: seq<Byte>)
    requires s.Valid() && Grown(Write(s, Short(c)), final)
    ensures Grown(s, final)
    ensures Read(final, End(s), KindOf(Short(c))) == (Truncated(Short(c)), End(Write(s, Short(c))))
  {
    GrownPut(s, Le16(c), final);
    Slice(final, |s.data|, Le16(c));
    Le16RoundTrip(c);
  }

  lemma ReadBackLong(s: Stream, c: int, final: seq<Byte>)
    requires s.Valid() && Grown(Write(s, Long(c)), final)
    ensures Grown(s, final)
    ensures Read(final, End(s), KindOf(Long(c))) == (Truncated(Long(c)), End(Write(s, Long(c))))
  {
    GrownPut(s, Le32(c), final);
    Slice(final, |s.data|, Le32(c));
    Le32RoundTrip(c);
  }

  lemma ReadBackBit(s: Stream, b: bool, final: seq<Byte>)
    requires s.Valid() && Grown(Write(s, Bit(b)), final)
    ensures Grown(s, final)
    ensures Read(final, End(s), KindOf(Bit(b))) == (Truncated(Bit(b)), End(Write(s, Bit(b))))
  {
    GrownPutBit(s, b, final);
    assert GetBits(final, End(s.PutBit(b)), 0) == (Complete([]), End(s.PutBit(b)));
    assert [b] + [] == [b];
    assert FromBits([b]) == if b then 1 else 0;
  }

  lemma ReadBackByte(s: Stream, c: int, final: seq<Byte>)
    requires s.Valid() && Grown(Write(s, Byte(c)), final)
    ensures Grown(s, final)
    ensures Read(final, End(s), KindOf(Byte(c))) == (Truncated(Byte(c)), End(Write(s, Byte(c))))
  {
    GrownPut(s, [c % 256], final);
    Slice(final, |s.data|, [c % 256]);
  }

  lemma ReadBackData(s: Stream, bytes: seq<Byte>, final: seq<Byte>)
    requires s.Valid() && Grown(Write(s, Data(bytes)), final)
    ensures Grown(s, final)
    ensures Read(final, End(s), KindOf(Data(bytes))) == (Truncated(Data(bytes)), End(Write(s, Data(bytes))))
  {
    GrownPut(s, bytes, final);
    ReadRun(final, End(s), bytes);
  }

  /** One write, read back later from the finished message at the place where it was written. */
  lemma ReadBack(s: Stream, item: Item, final: seq<Byte>)
    requires s.Valid() && Grown(Write(s, item), final)
    requires item.Bits? ==> item.n <= 32
    ensures Grown(s, final)
    ensures Read(final, End(s), KindOf(item)) == (Truncated(item), End(Write(s, item)))
  {
    hide Grown, End;
    match item
    case Byte(c) => ReadBackByte(s, c, final);
    case Short(c) => ReadBackShort(s, c, final);
    case Long(c) => ReadBackLong(s, c, final);
    case Data(bytes) => ReadBackData(s, bytes, final);
    case Bits(v, n) => GrownPutBits(s, v, n, final);
    case Bit(b) => ReadBackBit(s, b, final);
  }

  lemma {:induction false} ReadBackAll(s: Stream, items: seq<Item>, final: seq<Byte>)
    requires s.Valid() && Grown(WriteAll(s, items), final)
    requires forall i :: 0 <= i < |items| && items[i].Bits? ==> items[i].n <= 32
    ensures Grown(s, final)
    ensures ReadAll(final, End(s), KindsOf(items)) == (TruncatedAll(items), End(WriteAll(s, items)))
    decreases |items|
  {
    if items == [] {
      assert KindsOf(items) == [] && TruncatedAll(items) == [];
    } else {
      var rest, mid := items[1..], Write(s, items[0]);
      ReadBackAll(mid, rest, final);
      ReadBack(s, items[0], final);
      assert KindsOf(items)[0] == KindOf(items[0]) && KindsOf(items)[1..] == KindsOf(rest);
      assert TruncatedAll(items) == [Truncated(items[0])] + TruncatedAll(rest);
      assert Read(final, End(s), KindsOf(items)[0]) == (Truncated(items[0]), End(mid));
      assert ReadAll(final, End(mid), KindsOf(items)[1..]) == (TruncatedAll(rest), End(WriteAll(mid, rest)));
    }
  }

  /** The round trip: any mix of byte, short, long, data and bit writes is returned value for value, cut to width, by
      the same mix of reads, and the reader ends with its counters where the writer's were. */
  lemma RoundTrip(items: seq<Item>)
    requires forall i :: 0 <= i < |items| && items[i].Bits? ==> items[i].n <= 32
    ensures var s := WriteAll(EMPTY, items);
            ReadAll(s.data, Cursor(0, 0), KindsOf(items)) == (TruncatedAll(items), Cursor(|s.data|, s.bit))
  {
    ReadBackAll(EMPTY, items, WriteAll(EMPTY, items).data);
  }

  /** How many bits an item puts into the message. */
  function Size(item: Item): nat {
    match item
    case Byte(_) => 8
    case Short(_) => 16
    case Long(_) => 32
    case Data(bytes) => 8 * |bytes|
    case Bits(_, n) => n
    case Bit(_) => 1
  }

  function TotalSize(items: seq<Item>): nat {
    if items == [] then 0 else Size(items[0]) + TotalSize(items[1..])
  }

  /** The used bit count is eight times the bytes written plus the bits written, however they are mixed. */
  lemma {:induction false} UsedBitsIsTotalSize(s: Stream, items: seq<Item>)
    requires s.Valid()
    ensures WriteAll(s, items).UsedBits() == s.UsedBits() + TotalSize(items)
    decreases |items|
  {
    if items != [] {
      UsedBitsIsTotalSize(Write(s, items[0]), items[1..]);
    }
  }

  // ---------------------------------------------------------------------------------------------
  // The message object

  lemma PutBitsStep(s: Stream, v: int, n: nat)
    requires s.Valid()
    ensures s.PutBits(v, 0) == s
    ensures n > 0 ==> s.PutBits(v, n) == s.PutBit(v % 2 == 1).PutBits(v / 2, n - 1)
  {
  }

  lemma GetBitsEnds(data: seq<Byte>, at: Cursor, n: nat)
    ensures FromBits([]) == 0
    ensures After([], GetBits(data, at, n).0) == GetBits(data, at, n).0
  {
    var o := GetBits(data, at, n).0;
    assert o.Complete? ==> [] + o.bits == o.bits;
  }

  lemma GetBitsDone(data: seq<Byte>, at: Cursor, bits: seq<bool>)
    ensures GetBits(data, at, 0).1 == at && After(bits, GetBits(data, at, 0).0) == Complete(bits)
  {
    assert bits + [] == bits;
  }

  lemma GetBitsStep(data: seq<Byte>, at: Cursor, bits: seq<bool>, n: nat)
    requires n > 0
    ensures var whole, one := GetBits(data, at, n), GetBit(data, at);
            if one.0.Complete? then
              var rest := GetBits(data, one.1, n - 1);
              After(bits, whole.0) == After(bits + one.0.bits, rest.0) && whole.1 == rest.1
            else whole == one && After(bits, whole.0) == one.0
  {
    var one := GetBit(data, at);
    if one.0.Complete? {
      var rest := GetBits(data, one.1, n - 1).0;
      if rest.Complete? {
        assert bits + (one.0.bits + rest.bits) == bits + one.0.bits + rest.bits;
      }
    }
  }

  /** Four free bytes are enough for 32 bits, wherever the bit cursor stands. */
  lemma RoomForBit(start: Stream, s: Stream, i: nat, maxsize: nat)
    requires |start.data| + 4 <= maxsize && i < 32 && s.UsedBits() == start.UsedBits() + i
    ensures s.bit % 8 == 0 ==> |s.data| < maxsize
  {
  }

  class Msg {
    var data: array<Byte>
    var maxsize: nat
    var cursize: nat
    var readcount: nat
    var bit: nat
    var overflowed: bool

    ghost predicate Valid()
      reads this, data
    {
      && cursize <= maxsize <= data.Length
    }

    ghost function View(): Stream
      reads this, data
      requires Valid()
    {
      Stream(data[..cursize], bit)
    }

    /** The state a writer needs, and keeps. */
    ghost predicate Writing()
      reads this, data
    {
      Valid() && View().Valid()
    }

    constructor (data: array<Byte>, length: nat)
      requires length <= data.Length
      ensures Writing() && View() == EMPTY && !overflowed
      ensures this.data == data && maxsize == length && readcount == 0
    {
      this.data, maxsize, cursize, readcount, bit, overflowed := data, length, 0, 0, 0, false;
    }

    method BeginReading()
      requires Valid()
      modifies this`overflowed, this`readcount, this`bit
      ensures Valid() && data[..cursize] == old(data[..cursize])
      ensures readcount == 0 && bit == 0 && !overflowed
    {
      overflowed, readcount, bit := false, 0, 0;
    }

    method WriteByte(c: int)
      requires Writing()
      modifies this`cursize, this`overflowed, data
      ensures Writing()
      ensures if old(cursize) + 1 <= maxsize then View() == Write(old(View()), Byte(c)) && overflowed == old(overflowed)
              else View() == old(View()) && overflowed
    {
      if maxsize - cursize < 1 {
        overflowed := true;
        return;
      }
      data[cursize] := c % 256;
      cursize := cursize + 1;
      assert View() == old(View()).Put([c % 256]);
    }

    method WriteShort(c: int)
      requires Writing()
      modifies this`cursize, this`overflowed, data
      ensures Writing()
      ensures if old(cursize) + 2 <= maxsize
              then View() == Write(old(View()), Short(c)) && overflowed == old(overflowed)
              else View() == old(View()) && overflowed
    {
      if maxsize - cursize < 2 {
        overflowed := true;
        return;
      }
      data[cursize], data[cursize + 1] := Le16(c)[0], Le16(c)[1];
      cursize := cursize + 2;
      assert View() == old(View()).Put(Le16(c));
    }

    method WriteLong(c: int)
      requires Writing()
      modifies this`cursize, this`overflowed, data
      ensures Writing()
      ensures if old(cursize) + 4 <= maxsize then View() == Write(old(View()), Long(c)) && overflowed == old(overflowed)
              else View() == old(View()) && overflowed
    {
      if maxsize - cursize < 4 {
        overflowed := true;
        return;
      }
      var le := Le32(c);
      data[cursize], data[cursize + 1], data[cursize + 2], data[cursize + 3] := le[0], le[1], le[2], le[3];
      cursize := cursize + 4;
      assert View() == old(View()).Put(Le32(c));
    }

    /** Bytes that no longer fit are dropped. */
    method WriteData(bytes: array<Byte>, length: nat)
      requires Writing() && bytes != data && length <= bytes.Length
      modifies this`cursize, this`overflowed, data
      ensures Writing()
      ensures var room := if length <= maxsize - old(cursize) then length else maxsize - old(cursize);
              && View() == Write(old(View()), Data(bytes[..room]))
              && overflowed == (old(overflowed) || room < length)
    {
      var i := 0;
      ghost var all := maxsize - cursize;
      while i < length
        invariant 0 <= i <= length && Writing()
        invariant var room := if i <= all then i else all;
                  && View() == old(View()).Put(bytes[..room])
                  && overflowed == (old(overflowed) || room < i)
      {
        WriteByte(bytes[i]);
        i := i + 1;
      }
    }

    method WriteBit0()
      requires Writing()
      modifies this`cursize, this`bit, this`overflowed, data
      ensures Writing()
      ensures if old(bit) % 8 != 0 || old(cursize) < maxsize
              then View() == Write(old(View()), Bit(false)) && overflowed == old(overflowed)
              else View() == old(View()) && overflowed
    {
      hide BitAt, OrBit;
      if bit % 8 == 0 {
        if maxsize <= cursize {
          overflowed := true;
          return;
        }
        bit := cursize * 8;
        data[cursize] := 0;
        cursize := cursize + 1;
      }
      bit := bit + 1;
      assert View() == old(View()).PutBit(false);
    }

    method WriteBit1()
      requires Writing()
      modifies this`cursize, this`bit, this`overflowed, data
      ensures Writing()
      ensures if old(bit) % 8 != 0 || old(cursize) < maxsize
              then View() == Write(old(View()), Bit(true)) && overflowed == old(overflowed)
              else View() == old(View()) && overflowed
    {
      hide BitAt, OrBit;
      if bit % 8 == 0 {
        if cursize >= maxsize {
          overflowed := true;
          return;
        }
        bit := 8 * cursize;
        data[cursize] := 0;
        cursize := cursize + 1;
      }
      data[bit / 8] := SetBit(data[bit / 8], bit % 8);
      bit := bit + 1;
      assert View() == old(View()).PutBit(true);
    }

    /** The body of the loop in WriteBits. */
    method WriteNextBit(b: bool)
      requires Writing() && (bit % 8 == 0 ==> cursize < maxsize)
      modifies this`cursize, this`bit, data
      ensures Writing() && View() == old(View()).PutBit(b)
    {
      hide BitAt, OrBit;
      if bit % 8 == 0 {
        bit := 8 * cursize;
        data[cursize] := 0;
        cursize := cursize + 1;
      }
      if b {
        data[bit / 8] := SetBit(data[bit / 8], bit % 8);
      }
      bit := bit + 1;
      assert View() == old(View()).PutBit(b);
    }

    method WriteBits(bits: int, bitcount: nat)
      requires Writing() && bitcount <= 32
      modifies this`cursize, this`bit, this`overflowed, data
      ensures Writing()
      ensures if old(cursize) + 4 <= maxsize
              then View() == Write(old(View()), Bits(bits, bitcount)) && overflowed == old(overflowed)
              else View() == old(View()) && overflowed
    {
      if maxsize - cursize < 4 {
        overflowed := true;
        return;
      }
      WriteAllBits(bits, bitcount);
    }

    /** The loop in WriteBits. */
    method WriteAllBits(bits: int, bitcount: nat)
      requires Writing() && bitcount <= 32 && cursize + 4 <= maxsize
      modifies this`cursize, this`bit, data
      ensures Writing() && View() == old(View()).PutBits(bits, bitcount)
    {
      hide BitAt, OrBit, Stream.PutBits, Stream.PutBit, Stream.UsedBits;
      var rest, i := bits, 0;
      ghost var start := View();
      while bitcount != i
        invariant 0 <= i <= bitcount && Writing()
        invariant View().UsedBits() == start.UsedBits() + i
        invariant View().PutBits(rest, bitcount - i) == start.PutBits(bits, bitcount)
      {
        RoomForBit(start, View(), i, maxsize);
        PutBitsStep(View(), rest, bitcount - i);
        WriteNextBit(rest % 2 == 1);
        rest := rest / 2;
        i := i + 1;
      }
      PutBitsStep(View(), rest, 0);
    }

    ghost function At(): Cursor
      reads this
    {
      Cursor(readcount, bit)
    }

    method ReadByte() returns (c: int)
      requires Valid()
      modifies this`readcount
      ensures (c, At()) == GetByte(data[..cursize], old(At()))
    {
      if readcount + 1 > cursize {
        return -1;
      }
      c := data[readcount];
      readcount := readcount + 1;
    }

    method ReadShort() returns (c: int)
      requires Valid()
      modifies this`readcount
      ensures (c, At()) == GetShort(data[..cursize], old(At()))
    {
      hide AsShort;
      if readcount + 2 > cursize {
        return -1;
      }
      c := AsShort(data[readcount] as int + 256 * data[readcount + 1] as int);
      readcount := readcount + 2;
    }

    method ReadLong() returns (c: int)
      requires Valid()
      modifies this`readcount
      ensures (c, At()) == GetLong(data[..cursize], old(At()))
    {
      if readcount + 4 > cursize {
        return -1;
      }
      ghost var d, p := data[..cursize], readcount;
      assert d[p] == data[p] && d[p + 1] == data[p + 1] && d[p + 2] == data[p + 2] && d[p + 3] == data[p + 3];
      c := FromLe32(data[readcount], data[readcount + 1], data[readcount + 2], data[readcount + 3]);
      readcount := readcount + 4;
    }

    method ReadData(bytes: array<Byte>, len: nat)
      requires Valid() && bytes != data && len <= bytes.Length
      modifies this`readcount, bytes
      ensures (bytes[..len], At()) == GetData(data[..cursize], old(At()), len)
      ensures bytes[len..] == old(bytes[len..])
    {
      var i := 0;
      ghost var whole := GetData(data[..cursize], At(), len);
      assert bytes[..0] + whole.0 == whole.0;
      while i < len
        invariant 0 <= i <= len
        invariant var rest := GetData(data[..cursize], At(), len - i);
                  bytes[..i] + rest.0 == whole.0 && rest.1 == whole.1
        invariant bytes[len..] == old(bytes[len..])
      {
        ghost var rest, front := GetData(data[..cursize], At(), len - i), bytes[..i];
        var c := ReadByte();
        bytes[i] := c % 256;
        assert bytes[..i + 1] == front + [rest.0[0]];
        i := i + 1;
      }
      assert bytes[..len] + [] == bytes[..len];
    }

    /** The body of the loop in ReadBits. */
    method ReadNextBit() returns (o: Outcome)
      requires Valid()
      modifies this`readcount, this`bit
      ensures (o, At()) == GetBit(data[..cursize], old(At()))
    {
      if bit % 8 == 0 {
        if readcount >= cursize {
          return PastEnd;
        }
        bit := 8 * readcount;
        readcount := readcount + 1;
      }
      if bit / 8 >= cursize {
        return Outside;
      }
      o := Complete([BitAt(data[bit / 8], bit % 8)]);
      bit := bit + 1;
    }

    method ReadBits(numBits: nat) returns (retval: int)
      requires Valid() && numBits <= 32
      modifies this`readcount, this`bit, this`overflowed
      ensures var r := GetBits(data[..cursize], old(At()), numBits);
              && retval == BitsResult(r.0) && At() == r.1
              && overflowed == (old(overflowed) || r.0.PastEnd?)
    {
      hide GetBit, GetBits, After, OrBit, FromBits, AsLong;
      var acc, i := 0, 0;
      ghost var bits: seq<bool> := [];
      GetBitsEnds(data[..cursize], At(), numBits);
      ghost var whole := GetBits(data[..cursize], At(), numBits);
      while numBits != i
        invariant 0 <= i <= numBits && |bits| == i
        invariant var rest := GetBits(data[..cursize], At(), numBits - i);
                  After(bits, rest.0) == whole.0 && rest.1 == whole.1
        invariant acc == FromBits(bits)
        invariant overflowed == old(overflowed)
      {
        GetBitsStep(data[..cursize], At(), bits, numBits - i);
        var o := ReadNextBit();
        if o.PastEnd? {
          overflowed := true;
          return -1;
        }
        if o.Outside? {
          return 0;
        }
        FromBitsAppend(bits, o.bits[0]);
        assert o.bits == [o.bits[0]];
        if o.bits[0] {
          acc := OrBit(acc, i);
        }
        bits := bits + o.bits;
        i := i + 1;
      }
      GetBitsDone(data[..cursize], At(), bits);
      retval := AsLong(acc);
    }

    function GetUsedBitCount(): (n: int)
      reads this, data
      requires Valid()
      ensures n == View().UsedBits()
    {
      8 * cursize - (8 - bit) % 8
    }
  }

  /** Setting bit `i` of the accumulator appends a bit to the number read so far. */
  lemma {:induction false} FromBitsAppend(bits: seq<bool>, b: bool)
    ensures FromBits(bits + [b]) == if b then OrBit(FromBits(bits), |bits|) else FromBits(bits)
  {
    if bits == [] {
      assert ([] + [b])[1..] == [];
    } else {
      FromBitsAppend(bits[1..], b);
      assert (bits + [b])[1..] == bits[1..] + [b];
    }
  }

  // ---------------------------------------------------------------------------------------------
  // A whole message, written and read

  method WriteItem(msg: Msg, item: Item)
    requires msg.Writing() && (item.Bits? ==> item.n <= 32)
    modifies msg`cursize, msg`bit, msg`overflowed, msg.data
    ensures msg.Writing() && (old(msg.overflowed) ==> msg.overflowed)
    ensures !msg.overflowed ==> msg.View() == Write(old(msg.View()), item)
  {
    hide Stream.Valid, Stream.PutBits, Stream.PutBit, Le16, Le32;
    match item {
      case Byte(c) => msg.WriteByte(c);
      case Short(c) => msg.WriteShort(c);
      case Long(c) => msg.WriteLong(c);
      case Data(run) =>
        var bytes := new Byte[|run|](i requires 0 <= i < |run| => run[i]);
        assert bytes[..|run|] == run;
        msg.WriteData(bytes, |run|);
      case Bits(v, n) => msg.WriteBits(v, n);
      case Bit(b) =>
        if b {
          msg.WriteBit1();
        } else {
          msg.WriteBit0();
        }
    }
  }

  /** Any mix of writes: without overflow the message is what was specified, and its used bit count has grown by
      eight for each byte and one for each bit. */
  method WriteItems(msg: Msg, items: seq<Item>)
    requires msg.Writing() && forall i :: 0 <= i < |items| && items[i].Bits? ==> items[i].n <= 32
    modifies msg`cursize, msg`bit, msg`overflowed, msg.data
    ensures msg.Writing() && (old(msg.overflowed) ==> msg.overflowed)
    ensures !msg.overflowed ==> msg.View() == WriteAll(old(msg.View()), items)
    ensures !msg.overflowed ==> msg.GetUsedBitCount() == old(msg.GetUsedBitCount()) + TotalSize(items)
  {
    hide Write, TotalSize, Stream.Valid;
    ghost var start := msg.View();
    UsedBitsIsTotalSize(start, items);
    var i := 0;
    assert items[0..] == items;
    while i < |items|
      invariant 0 <= i <= |items| && msg.Writing() && (old(msg.overflowed) ==> msg.overflowed)
      invariant !msg.overflowed ==> WriteAll(msg.View(), items[i..]) == WriteAll(start, items)
    {
      WriteItem(msg, items[i]);
      assert items[i..][1..] == items[i + 1..];
      i := i + 1;
    }
  }

  method ReadItem(msg: Msg, kind: Kind) returns (v: Value)
    requires msg.Valid() && (kind.KBits? ==> kind.n <= 32)
    modifies msg`readcount, msg`bit, msg`overflowed
    ensures (v, msg.At()) == Read(msg.data[..msg.cursize], old(msg.At()), kind)
  {
    hide GetByte, GetShort, GetLong, GetData, GetBits, BitsResult;
    match kind {
      case KByte =>
        var c := msg.ReadByte();
        v := Num(c);
      case KShort =>
        var c := msg.ReadShort();
        v := Num(c);
      case KLong =>
        var c := msg.ReadLong();
        v := Num(c);
      case KData(len) =>
        var bytes := new Byte[len](_ => 0);
        msg.ReadData(bytes, len);
        v := Run(bytes[..len]);
      case KBits(n) =>
        var c := msg.ReadBits(n);
        v := Num(c);
    }
  }

  method ReadItems(msg: Msg, kinds: seq<Kind>) returns (values: seq<Value>)
    requires msg.Valid() && forall i :: 0 <= i < |kinds| && kinds[i].KBits? ==> kinds[i].n <= 32
    modifies msg`readcount, msg`bit, msg`overflowed
    ensures var r := ReadAll(msg.data[..msg.cursize], old(msg.At()), kinds); values == r.0 && msg.At() == r.1
  {
    hide Read;
    values := [];
    var i := 0;
    ghost var data := msg.data[..msg.cursize];
    ghost var whole := ReadAll(data, msg.At(), kinds);
    assert kinds[0..] == kinds && [] + whole.0 == whole.0;
    while i < |kinds|
      invariant 0 <= i <= |kinds|
      invariant var rest := ReadAll(data, msg.At(), kinds[i..]); values + rest.0 == whole.0 && rest.1 == whole.1
    {
      ghost var before, at := values, msg.At();
      var v := ReadItem(msg, kinds[i]);
      assert kinds[i..][1..] == kinds[i + 1..];
      assert before + ([v] + ReadAll(data, msg.At(), kinds[i + 1..]).0)
          == before + [v] + ReadAll(data, msg.At(), kinds[i + 1..]).0;
      values := values + [v];
      i := i + 1;
    }
    assert values + [] == values;
  }

  /** A message written from its start and read from its start: unless it overflowed, every value comes back cut to
      its width, the reader ends with the writer's counters, and the used bit count is the size of what was written. */
  method Exchange(items: seq<Item>, msg: Msg) returns (overflow: bool, bits: int, values: seq<Value>)
    requires msg.Writing() && msg.View() == EMPTY && !msg.overflowed
    requires forall i :: 0 <= i < |items| && items[i].Bits? ==> items[i].n <= 32
    modifies msg`cursize, msg`bit, msg`overflowed, msg`readcount, msg.data
    ensures !overflow ==> values == TruncatedAll(items) && bits == TotalSize(items)
    ensures !overflow ==> msg.readcount == msg.cursize && msg.bit == WriteAll(EMPTY, items).bit
  {
    hide Write, Read, TotalSize, WriteAll, ReadAll, Stream.Valid;
    WriteItems(msg, items);
    overflow, bits := msg.overflowed, msg.GetUsedBitCount();
    RoundTrip(items);
    msg.BeginReading();
    var kinds := KindsOf(items);
    values := ReadItems(msg, kinds);
  }
}
