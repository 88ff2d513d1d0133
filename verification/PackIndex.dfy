/** The hash index over the entries of a pack, src/filesystem.c. */
module PackIndex {
  import opened Bits
  import opened Common
  import opened CString
  import opened Paths

  const MAX_FILEHASH_SIZE := 1024
  const NIL := -1

  // ---------------------------------------------------------------------------------------------
  // The hash

  /** What FS_HashFileName makes of a character: lower case, and one separator. */
  function Letter(c: char): char { if Lower(c) == '\\' then '/' else Lower(c) }

  /** How much of a name is hashed: all in front of its first dot. */
  function Stem(s: string): (n: nat)
    ensures n <= |s| && (n < |s| ==> s[n] == '.') && forall i :: 0 <= i < n ==> s[i] != '.'
  {
    if s == [] || s[0] == '.' then 0 else 1 + Stem(s[1..])
  }

  function Sum(s: string, n: nat): int
    requires n <= |s|
  {
    if n == 0 then 0 else Sum(s, n - 1) + Signed(Letter(s[n - 1])) * (n - 1 + 119)
  }

  function Xor(a: nat, b: nat): nat
    decreases a + b
  {
    if a == 0 && b == 0 then 0 else (if a % 2 == b % 2 then 0 else 1) + 2 * Xor(a / 2, b / 2)
  }

  /** The bits of a 32-bit long. */
  function Word(v: int): nat { v % 0x1_0000_0000 }

  /** The exclusive or of a long with itself shifted right by ten and by twenty places; the shifts keep the sign. */
  function Mix(sum: int): nat {
    var x := Wrap(sum);
    Xor(Xor(Word(x), Word(x / 0x400)), Word(x / 0x10_0000))
  }

  /** FS_HashFileName; the mask of a power of two keeps the low bits. */
  function Hash(s: string, size: nat): (h: nat)
    requires size > 0
    ensures h < size
  {
    Mix(Sum(s, Stem(s))) % size
  }

  /** In the hashed part colons stand at the same places. */
  predicate ColonsAgree(a: string, b: string) {
    forall i :: 0 <= i < Stem(a) && i < |b| ==> (a[i] == ':' <==> b[i] == ':')
  }

  lemma {:induction false} SameStem(a: string, b: string)
    requires Same(a, b)
    ensures Stem(a) == Stem(b)
  {
    var m, n := Stem(a), Stem(b);
    assert m < |a| ==> Canon(a[m]) == Canon(b[m]);
    assert n < |b| ==> Canon(a[n]) == Canon(b[n]);
  }

  lemma {:induction false} SameSum(a: string, b: string, n: nat)
    requires Same(a, b) && n <= |a| && forall i :: 0 <= i < n ==> (a[i] == ':' <==> b[i] == ':')
    ensures Sum(a, n) == Sum(b, n)
  {
    if n > 0 {
      SameSum(a, b, n - 1);
      assert Letter(a[n - 1]) == Letter(b[n - 1]) by {
        FoldsAgree(a[n - 1], b[n - 1]);
        assert Canon(a[n - 1]) == Canon(b[n - 1]);
      }
    }
  }

  /** Names that compare equal lie in one bucket, as long as their colons agree. */
  lemma SameHash(a: string, b: string, size: nat)
    requires size > 0 && Same(a, b) && ColonsAgree(a, b)
    ensures Hash(a, size) == Hash(b, size)
  {
    hide Mix, Sum, Stem, Canon;
    SameStem(a, b);
    SameSum(a, b, Stem(a));
  }

  lemma {:induction false} StemStops(s: string, n: nat)
    requires n <= |s| && (n < |s| ==> s[n] == '.') && forall i :: 0 <= i < n ==> s[i] != '.'
    ensures Stem(s) == n
  {
  }

  lemma {:induction false} SumOfFront(s: string, t: string, n: nat)
    requires n <= |s| && n <= |t| && s[..n] == t[..n]
    ensures Sum(s, n) == Sum(t, n)
  {
    if n > 0 {
      assert s[n - 1] == s[..n][n - 1] == t[n - 1] && s[..n - 1] == s[..n][..n - 1] == t[..n - 1];
      SumOfFront(s, t, n - 1);
    }
  }

  /** What stands behind the first dot does not count. */
  lemma ExtensionIgnored(stem: string, ext: string, size: nat)
    requires '.' !in stem && size > 0
    ensures Hash(stem + ("." + ext), size) == Hash(stem, size)
  {
    hide Mix, Sum;
    var s := stem + ("." + ext);
    assert forall i :: 0 <= i < |stem| ==> s[i] == stem[i] && stem[i] in stem;
    StemStops(s, |stem|);
    StemStops(stem, |stem|);
    assert s[..|stem|] == stem[..|stem|];
    SumOfFront(s, stem, |stem|);
  }

  lemma {:induction false} XorSelf(a: nat)
    ensures Xor(a, a) == 0 && Xor(0, a) == a && Xor(a, 0) == a
    decreases a
  {
    if a > 0 {
      XorSelf(a / 2);
    }
  }

  lemma {:induction false} XorApart(a: nat, b: nat, k: nat)
    requires b < Pow2(k)
    ensures Xor(Above(a, k), b) == Above(a, k) + b
    decreases k
  {
    hide Xor;
    if k == 0 {
      XorSelf(a);
    } else {
      XorApart(a, b / 2, k - 1);
      XorStep(Above(a, k), b);
    }
  }

  /** A number shifted left by `k` places. */
  function Above(a: nat, k: nat): nat { if k == 0 then a else 2 * Above(a, k - 1) }

  /** Two values of the mixing: the shifts are by ten and twenty places, and keep the sign. */
  lemma MixSamples()
    ensures Mix(0x10_0000) == 0x10_0401 && Mix(-1) == 0xffff_ffff
  {
    hide Xor;
    TwentyBits();
    XorSelf(0xffff_ffff);
    assert Word(-1) == 0xffff_ffff && -1 / 0x400 == -1 && -1 / 0x10_0000 == -1;
  }

  lemma TwentyBits()
    ensures Xor(0x10_0000, 0x400) == 0x10_0400 && Xor(0x10_0400, 1) == 0x10_0401
  {
    hide Xor;
    assert Pow2(11) == 2048 && Above(512, 11) == 0x10_0000;
    XorApart(512, 1024, 11);
    assert Pow2(1) == 2 && Above(0x8_0200, 1) == 0x10_0400;
    XorApart(0x8_0200, 1, 1);
  }

  /** The characters count by their place, from 119 on; capitals as small letters, both separators alike. */
  lemma SumSample()
    ensures Sum("aB\\/", 4) == 97 * 119 + 98 * 120 + 47 * 121 + 47 * 122
  {
    var s := "aB\\/";
    assert Sum(s, 0) == 0;
    assert Sum(s, 1) == 97 * 119 && Sum(s, 2) == Sum(s, 1) + 98 * 120;
    assert Sum(s, 3) == Sum(s, 2) + 47 * 121 && Sum(s, 4) == Sum(s, 3) + 47 * 122;
  }

  // ---------------------------------------------------------------------------------------------
  // Lookup

  /** The last of the first `n` entries that is equal to the name. */
  function FindLast(names: seq<string>, n: nat, name: string): (r: int)
    requires n <= |names|
    ensures NIL <= r < n
    ensures r >= 0 ==> Same(names[r], name)
    ensures forall i :: 0 <= i < n && Same(names[i], name) ==> i <= r
  {
    if n == 0 then NIL else if Same(names[n - 1], name) then n - 1 else FindLast(names, n - 1, name)
  }

  /** The last of the first `n` entries that is equal to the name and lies in bucket `h`. */
  function FindHashed(names: seq<string>, n: nat, name: string, h: nat, size: nat): (r: int)
    requires n <= |names| && size > 0
    ensures NIL <= r < n
    ensures r >= 0 ==> Same(names[r], name) && Hash(names[r], size) == h
    ensures forall i :: 0 <= i < n && Same(names[i], name) && Hash(names[i], size) == h ==> i <= r
  {
    if n == 0 then NIL
    else if Same(names[n - 1], name) && Hash(names[n - 1], size) == h then n - 1
    else FindHashed(names, n - 1, name, h, size)
  }

  /** The lookup agrees with a scan of all entries exactly if the entry the scan finds lies in the name's bucket. */
  lemma AgreesIff(names: seq<string>, name: string, size: nat)
    requires size > 0
    ensures var r := FindLast(names, |names|, name);
            FindHashed(names, |names|, name, Hash(name, size), size) == r
            <==> r < 0 || Hash(names[r], size) == Hash(name, size)
  {
    hide Same, Hash;
  }

  /** So it does whenever the equal entries have their colons where the name has them, as far as names are hashed. */
  lemma AgreesIfColonsAgree(names: seq<string>, name: string, size: nat)
    requires size > 0 && forall i :: 0 <= i < |names| && Same(names[i], name) ==> ColonsAgree(names[i], name)
    ensures FindHashed(names, |names|, name, Hash(name, size), size) == FindLast(names, |names|, name)
  {
    hide Hash, FindLast, FindHashed, Same, ColonsAgree;
    AgreesIff(names, name, size);
    var r := FindLast(names, |names|, name);
    if r >= 0 {
      SameHash(names[r], name, size);
    }
  }

  /** Without colons, in the name and in the directory, it always does. */
  lemma AgreesWithoutColons(names: seq<string>, name: string, size: nat)
    requires size > 0 && ':' !in name && forall i :: 0 <= i < |names| ==> ':' !in names[i]
    ensures FindHashed(names, |names|, name, Hash(name, size), size) == FindLast(names, |names|, name)
  {
    hide Hash, FindLast, FindHashed, Same, Stem;
    AgreesIfColonsAgree(names, name, size);
  }

  /** With a colon it need not: "/" and ":" compare equal, but lie in different ones of the eight buckets that four
      entries have. */
  lemma ColonMisses(names: seq<string>)
    requires names == ["/", "a", "b", "c"]
    ensures FindLast(names, |names|, ":") == 0
    ensures FindHashed(names, |names|, ":", Hash(":", 8), 8) == NIL
  {
    hide Mix, Sum, Stem, FindLast, FindHashed, Same;
    OneCharacter("/", ":");
    OneCharacter("a", ":");
    OneCharacter("b", ":");
    OneCharacter("c", ":");
    assert Same(names[0], ":") && !Same(names[1], ":") && !Same(names[2], ":") && !Same(names[3], ":");
    OneLetter("/");
    OneLetter(":");
    assert Mix(5593) % 8 == 4 && Mix(6902) % 8 == 0 by {
      MixValues();
    }
  }

  lemma OneCharacter(a: string, b: string)
    requires |a| == |b| == 1
    ensures Same(a, b) <==> Canon(a[0]) == Canon(b[0])
  {
  }

  lemma OneLetter(s: string)
    requires |s| == 1 && s[0] != '.'
    ensures Sum(s, Stem(s)) == Signed(Letter(s[0])) * 119
  {
    assert s[1..] == [];
    assert Sum(s, 0) == 0;
  }

  lemma XorStep(a: nat, b: nat)
    ensures Xor(a, b) % 2 == (a + b) % 2 && Xor(a, b) / 2 == Xor(a / 2, b / 2)
  {
  }

  lemma LowBits(x: nat)
    ensures x % 8 == x % 2 + 2 * (x / 2 % 2) + 4 * (x / 2 / 2 % 2)
  {
  }

  /** The low three bits of an exclusive or. */
  lemma XorLow(a: nat, b: nat)
    ensures var x := Xor(a, b);
            x % 2 == (a + b) % 2 && x / 2 % 2 == (a / 2 + b / 2) % 2 && x / 2 / 2 % 2 == (a / 2 / 2 + b / 2 / 2) % 2
  {
    hide Xor;
    XorStep(a, b);
    XorStep(a / 2, b / 2);
    XorStep(a / 2 / 2, b / 2 / 2);
  }

  lemma MixIs(sum: nat)
    requires sum < 0x10_0000
    ensures Mix(sum) == Xor(Xor(sum, sum / 0x400), 0)
  {
    hide Xor;
    assert Wrap(sum) == sum && Word(sum) == sum && Word(sum / 0x400) == sum / 0x400 && Word(sum / 0x10_0000) == 0;
  }

  lemma {:induction false} XorNone(a: nat)
    ensures Xor(a, 0) == a
  {
    if a > 0 {
      XorNone(a / 2);
    }
  }

  lemma MixLow(sum: nat, b: nat, low: nat)
    requires sum < 0x10_0000 && b == sum / 0x400
    requires low == (sum + b) % 2 + 2 * ((sum / 2 + b / 2) % 2) + 4 * ((sum / 2 / 2 + b / 2 / 2) % 2)
    ensures Mix(sum) % 8 == low
  {
    hide Xor, Mix;
    MixIs(sum);
    XorNone(Xor(sum, b));
    XorLow(sum, b);
    LowBits(Xor(sum, b));
  }

  lemma MixValues()
    ensures Mix(5593) % 8 == 4 && Mix(6902) % 8 == 0
  {
    hide Mix;
    MixLow(5593, 5, 4);
    MixLow(6902, 6, 0);
  }

  /** The newest of the first `n` entries in bucket `h`. */
  function Last(names: seq<string>, n: nat, h: nat, size: nat): (r: int)
    requires n <= |names| && size > 0
    ensures NIL <= r < n
    ensures r >= 0 ==> Hash(names[r], size) == h
  {
    if n == 0 then NIL else if Hash(names[n - 1], size) == h then n - 1 else Last(names, n - 1, h, size)
  }

  /** Walking the bucket from its newest entry. */
  lemma {:induction false} FindInBucket(names: seq<string>, n: nat, name: string, h: nat, size: nat)
    requires n <= |names| && size > 0
    ensures var k := Last(names, n, h, size);
            FindHashed(names, n, name, h, size)
            == if k < 0 then NIL else if Same(names[k], name) then k else FindHashed(names, k, name, h, size)
  {
    hide Same, Hash;
    if n > 0 {
      FindInBucket(names, n - 1, name, h, size);
    }
  }

  lemma {:induction false} LastPush(names: seq<string>, name: string, n: nat, h: nat, size: nat)
    requires n <= |names| && size > 0
    ensures Last(names + [name], n, h, size) == Last(names, n, h, size)
  {
    hide Hash;
    if n > 0 {
      LastPush(names, name, n - 1, h, size);
    }
  }

  // ---------------------------------------------------------------------------------------------
  // The program

  datatype ZipEntry = ZipEntry(name: string, pos: int)

  datatype FileInPack = FileInPack(name: string, pos: int, next: int)

  /** Q_strlwr. */
  function LowerAll(s: string): (r: string)
    ensures |r| == |s|
  {
    seq(|s|, i requires 0 <= i < |s| => Lower(s[i]))
  }

  function NamesOf(zip: seq<ZipEntry>): (names: seq<string>)
    ensures |names| == |zip|
  {
    seq(|zip|, i requires 0 <= i < |zip| => LowerAll(zip[i].name))
  }

  /** Lower case does not change what a name is equal to. */
  lemma LowerSame(a: string, b: string)
    ensures Same(LowerAll(a), b) <==> Same(a, b)
    ensures ':' in LowerAll(a) <==> ':' in a
  {
    assert forall i :: 0 <= i < |a| ==> Canon(LowerAll(a)[i]) == Canon(a[i]);
    assert forall i :: 0 <= i < |a| ==> (LowerAll(a)[i] == ':' <==> a[i] == ':');
  }

  /** The last of the first `n` zip entries with an equal name. */
  function LastEntry(zip: seq<ZipEntry>, n: nat, name: string): (r: int)
    requires n <= |zip|
    ensures NIL <= r < n
  {
    if n == 0 then NIL else if Same(zip[n - 1].name, name) then n - 1 else LastEntry(zip, n - 1, name)
  }

  lemma {:induction false} LastEntryIs(zip: seq<ZipEntry>, n: nat, name: string)
    requires n <= |zip|
    ensures FindLast(NamesOf(zip), n, name) == LastEntry(zip, n, name)
  {
    hide Same;
    if n > 0 {
      LastEntryIs(zip, n - 1, name);
      LowerSame(zip[n - 1].name, name);
    }
  }

  ghost predicate EntryOk(e: FileInPack, names: seq<string>, i: nat, size: nat)
    requires i < |names| && size > 0
  {
    e.name == names[i] && e.next == Last(names, i, Hash(names[i], size), size)
  }

  /** The table size of FS_LoadZipFile: the smallest power of two above the number of entries, but at most 2048. */
  method TableSize(numEntries: nat) returns (size: nat)
    ensures exists k :: 0 <= k <= 11 && size == Pow2(k)
                        && (k > 0 ==> Pow2(k - 1) <= numEntries) && (k < 11 ==> size > numEntries)
  {
    size := 1;
    ghost var k := 0;
    while size <= MAX_FILEHASH_SIZE
      invariant 0 <= k <= 11 && size == Pow2(k) && (k == 11 <==> size > MAX_FILEHASH_SIZE)
      invariant k > 0 ==> Pow2(k - 1) <= numEntries
      decreases 11 - k
    {
      if size > numEntries {
        break;
      }
      Powers(k);
      size := size * 2;
      k := k + 1;
    }
  }

  lemma Powers(k: nat)
    requires k < 11
    ensures Pow2(k + 1) == 2 * Pow2(k) && (k + 1 == 11 <==> Pow2(k + 1) > MAX_FILEHASH_SIZE)
  {
    assert Pow2(10) == 1024;
    assert k < 10 ==> Pow2(k + 1) <= 1024;
  }

  class Pack {
    const hashSize: nat
    const hashTable: array<int>
    const buildBuffer: array<FileInPack>
    ghost var names: seq<string>

    /** Each bucket runs through its entries from the newest to the oldest. */
    ghost predicate Valid()
      reads this, hashTable, buildBuffer
    {
      && hashSize > 0 && hashTable.Length == hashSize && |names| <= buildBuffer.Length
      && (forall i: nat :: i < |names| ==> EntryOk(buildBuffer[i], names, i, hashSize))
      && (forall h: nat :: h < hashSize ==> hashTable[h] == Last(names, |names|, h, hashSize))
    }

    /** FS_LoadZipFile: the index over the entries that could be read of a zip directory of `count` entries. */
    constructor (zip: seq<ZipEntry>, count: nat)
      requires |zip| <= count
      ensures Valid() && names == NamesOf(zip) && fresh(hashTable) && fresh(buildBuffer)
    {
      hide Last, Hash, EntryOk, NamesOf;
      var size := TableSize(count);
      hashSize := size;
      hashTable := new int[size](_ => NIL);
      buildBuffer := new FileInPack[count](_ => FileInPack("", 0, NIL));
      names := [];
      new;
      NothingIndexed(size);
      var i := 0;
      while i < |zip|
        invariant 0 <= i <= |zip| && Valid() && names == NamesOf(zip)[..i]
      {
        assert NamesOf(zip)[..i + 1] == NamesOf(zip)[..i] + [NamesOf(zip)[i]];
        NameAt(zip, i);
        AddEntry(i, zip[i]);
        i := i + 1;
      }
      assert NamesOf(zip)[..i] == NamesOf(zip);
    }

    /** Links entry `i` in at the head of its bucket. */
    method AddEntry(i: nat, e: ZipEntry)
      requires Valid() && i == |names| < buildBuffer.Length
      modifies this`names, hashTable, buildBuffer
      ensures Valid() && names == old(names) + [LowerAll(e.name)]
    {
      hide Hash, LowerAll;
      var name := LowerAll(e.name);
      var hash := HashFileName(name, hashSize);
      buildBuffer[i] := FileInPack(name, e.pos, hashTable[hash]);
      hashTable[hash] := i;
      forall m: nat, h: nat | m <= |names|
        ensures Last(names + [name], m, h, hashSize) == Last(names, m, h, hashSize)
      {
        LastPush(names, name, m, h, hashSize);
      }
      names := names + [name];
    }

    /** The search of FS_FOpenFileReadDir: the newest entry that is equal and lies in the name's bucket. */
    method Lookup(name: string) returns (k: int)
      requires Valid()
      ensures k == FindHashed(names, |names|, name, Hash(name, hashSize), hashSize)
    {
      hide Hash, Same, Last, FindHashed;
      var hash := HashFileName(name, hashSize);
      k := hashTable[hash];
      ghost var n: nat := |names|;
      FindInBucket(names, n, name, hash, hashSize);
      while k != NIL
        invariant NIL <= k < |names| && n <= |names| && k == Last(names, n, hash, hashSize)
        invariant FindHashed(names, n, name, hash, hashSize) == FindHashed(names, |names|, name, hash, hashSize)
        decreases k
      {
        FindInBucket(names, n, name, hash, hashSize);
        if Same(buildBuffer[k].name, name) {
          return;
        }
        n := k;
        k := buildBuffer[k].next;
      }
      FindInBucket(names, n, name, hash, hashSize);
    }
  }

  /** FS_HashFileName. */
  method HashFileName(name: string, size: nat) returns (hash: nat)
    requires size > 0
    ensures hash == Hash(name, size)
  {
    hide Mix;
    var sum, i := 0, 0;
    while i < |name|
      invariant 0 <= i <= Stem(name) && sum == Sum(name, i)
    {
      var letter := Lower(name[i]);
      if letter == '.' {
        break;
      }
      if letter == '\\' {
        letter := '/';
      }
      NotYet(name, i);
      sum := sum + Signed(letter) * (i + 119);
      i := i + 1;
    }
    hash := Mix(sum) % size;
  }

  lemma NotYet(name: string, i: nat)
    requires i <= Stem(name) && i < |name| && name[i] != '.'
    ensures i < Stem(name)
  {
  }

  lemma NothingIndexed(size: nat)
    requires size > 0
    ensures forall h: nat :: Last([], 0, h, size) == NIL
  {
  }

  lemma NameAt(zip: seq<ZipEntry>, i: nat)
    requires i < |zip|
    ensures NamesOf(zip)[i] == LowerAll(zip[i].name)
  {
  }

  /** A file without a colon in its name is found in a pack without colons exactly if some entry has an equal name,
      and it is the last such entry of the zip directory. */
  method FindFile(zip: seq<ZipEntry>, count: nat, name: string) returns (k: int)
    requires |zip| <= count && ':' !in name && forall i :: 0 <= i < |zip| ==> ':' !in zip[i].name
    ensures k == LastEntry(zip, |zip|, name)
  {
    hide LowerAll, NamesOf, FindHashed, FindLast;
    var pack := new Pack(zip, count);
    k := pack.Lookup(name);
    forall i | 0 <= i < |zip|
      ensures ':' !in NamesOf(zip)[i]
    {
      NameAt(zip, i);
      LowerSame(zip[i].name, name);
    }
    AgreesWithoutColons(NamesOf(zip), name, pack.hashSize);
    LastEntryIs(zip, |zip|, name);
  }
}
