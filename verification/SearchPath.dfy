/** The search path of src/filesystem.c: directories and packs in the order in which files are looked for. */
module SearchPath {
  import opened Common
  import opened CString
  import opened Paths
  import opened PackIndex

  type Size = n: nat | n > 0 witness 1

  /** A pack with the names in its index, or a directory with the files in it. */
  datatype Entry =
    | Pack(base: string, names: seq<string>, hashSize: Size, localized: bool, langIndex: int)
    | Dir(path: string, gamedir: string, files: set<string>, localized: bool, langIndex: int)

  /** An open for reading, or only the question whether the file is there, which leaves out other languages. */
  datatype Ask = Open | Exists(ignoreLocalized: bool, language: int)

  // ---------------------------------------------------------------------------------------------
  // Which entry serves a file

  /** One leading separator is not part of the name. */
  function Stripped(name: string): string {
    if name != [] && (name[0] == '/' || name[0] == '\\') then name[1..] else name
  }

  predicate Twice(s: string, c: char) { exists i :: 0 <= i < |s| - 1 && s[i] == c && s[i + 1] == c }

  /** FS_FOpenFileReadDir finds the file in this entry. */
  predicate Serves(e: Entry, name: string, ask: Ask) {
    var file := Stripped(name);
    && !Twice(file, '.') && !Twice(file, ':')
    && !(ask.Exists? && e.localized && !ask.ignoreLocalized && e.langIndex != ask.language)
    && match e
       case Pack(_, names, size, _, _) => FindHashed(names, |names|, file, Hash(file, size), size) >= 0
       case Dir(_, _, files, _, _) => file in files
  }

  /** FS_FOpenFileReadForThread: the first entry of the list that serves the file. */
  function Resolve(list: seq<Entry>, name: string, ask: Ask): Option<Entry> {
    if list == [] then None
    else if Serves(list[0], name, ask) then Some(list[0])
    else Resolve(list[1..], name, ask)
  }

  /** Without colons a pack serves a file exactly if the name is not barred and some entry of the pack equals it. */
  lemma PackServes(e: Entry, name: string)
    requires e.Pack? && ':' !in name && forall i :: 0 <= i < |e.names| ==> ':' !in e.names[i]
    ensures var file := Stripped(name);
            Serves(e, name, Open) <==> !Twice(file, '.') && exists i :: 0 <= i < |e.names| && Same(e.names[i], file)
  {
    hide FindHashed, FindLast, Hash, Same;
    var file := Stripped(name);
    assert ':' !in file;
    AgreesWithoutColons(e.names, file, e.hashSize);
  }

  // ---------------------------------------------------------------------------------------------
  // What adding does to the list

  /** The number of entries in front of the first localized one. */
  function Lead(list: seq<Entry>): (n: nat)
    ensures n <= |list| && (forall i :: 0 <= i < n ==> !list[i].localized) && (n < |list| ==> list[n].localized)
  {
    if list == [] || list[0].localized then 0 else 1 + Lead(list[1..])
  }

  function Place(list: seq<Entry>, e: Entry): (n: nat)
    ensures n <= |list|
  {
    if e.localized then Lead(list) else 0
  }

  function Inserted(list: seq<Entry>, e: Entry): (r: seq<Entry>)
    ensures |r| == |list| + 1
  {
    list[..Place(list, e)] + [e] + list[Place(list, e)..]
  }

  predicate IsPack(e: Entry, base: string) { e.Pack? && EqualFold(e.base, base) }

  predicate IsDir(e: Entry, path: string, gamedir: string) {
    e.Dir? && EqualFold(e.path, path) && EqualFold(e.gamedir, gamedir)
  }

  /** The first pack of a base name. */
  function FindPack(list: seq<Entry>, base: string): (n: nat)
    ensures n <= |list| && (forall i :: 0 <= i < n ==> !IsPack(list[i], base)) && (n < |list| ==> IsPack(list[n], base))
  {
    if list == [] || IsPack(list[0], base) then 0 else 1 + FindPack(list[1..], base)
  }

  function RemoveAt(list: seq<Entry>, n: nat): seq<Entry> { if n < |list| then list[..n] + list[n + 1..] else list }

  function PackAdded(list: seq<Entry>, e: Entry): seq<Entry>
    requires e.Pack?
  {
    Inserted(RemoveAt(list, FindPack(list, e.base)), e)
  }

  predicate HasDir(list: seq<Entry>, e: Entry)
    requires e.Dir?
  {
    exists i :: 0 <= i < |list| && IsDir(list[i], e.path, e.gamedir)
  }

  /** A directory that is known already is not added, and neither is a localized one without content. */
  function DirAdded(list: seq<Entry>, e: Entry, hasContent: bool): seq<Entry>
    requires e.Dir?
  {
    if HasDir(list, e) || (e.localized && !hasContent) then list else Inserted(list, e)
  }

  datatype Call = AddPack(p: Entry) | AddDir(d: Entry, hasContent: bool)

  predicate Proper(c: Call) {
    match c
    case AddPack(p) => p.Pack?
    case AddDir(d, _) => d.Dir?
  }

  function Do(list: seq<Entry>, c: Call): seq<Entry>
    requires Proper(c)
  {
    match c
    case AddPack(p) => PackAdded(list, p)
    case AddDir(d, hasContent) => DirAdded(list, d, hasContent)
  }

  ghost predicate AllProper(calls: seq<Call>) { forall i :: 0 <= i < |calls| ==> Proper(calls[i]) }

  function DoAll(calls: seq<Call>): seq<Entry>
    requires AllProper(calls)
  {
    if calls == [] then [] else Do(DoAll(calls[..|calls| - 1]), calls[|calls| - 1])
  }

  // ---------------------------------------------------------------------------------------------
  // The same history told without positions: what is there, in the order of its addition

  /** All but the packs of a base name. */
  function Without(s: seq<Entry>, base: string): seq<Entry> {
    if s == [] then [] else Without(s[..|s| - 1], base) + (if IsPack(s[|s| - 1], base) then [] else [s[|s| - 1]])
  }

  function Arrived(present: seq<Entry>, c: Call): seq<Entry>
    requires Proper(c)
  {
    match c
    case AddPack(p) => Without(present, p.base) + [p]
    case AddDir(d, hasContent) => if HasDir(present, d) || (d.localized && !hasContent) then present else present + [d]
  }

  function Present(calls: seq<Call>): seq<Entry>
    requires AllProper(calls)
  {
    if calls == [] then [] else Arrived(Present(calls[..|calls| - 1]), calls[|calls| - 1])
  }

  /** The entries of one kind, the last added first. */
  function Picked(present: seq<Entry>, localized: bool): (r: seq<Entry>)
    ensures forall i :: 0 <= i < |r| ==> r[i].localized == localized
  {
    if present == [] then [] else
    var e := present[|present| - 1];
    (if e.localized == localized then [e] else []) + Picked(present[..|present| - 1], localized)
  }

  function Order(present: seq<Entry>): seq<Entry> { Picked(present, false) + Picked(present, true) }

  /** The last added entry of one kind that serves the file. */
  function LastServing(present: seq<Entry>, localized: bool, name: string, ask: Ask): Option<Entry> {
    if present == [] then None else
    var e := present[|present| - 1];
    if e.localized == localized && Serves(e, name, ask) then Some(e)
    else LastServing(present[..|present| - 1], localized, name, ask)
  }

  // ---------------------------------------------------------------------------------------------
  // The invariants

  ghost predicate Grouped(list: seq<Entry>) {
    forall i, j :: 0 <= i < j < |list| ==> (list[i].localized ==> list[j].localized)
  }

  ghost predicate UniquePacks(list: seq<Entry>) {
    forall i, j :: 0 <= i < j < |list| && list[j].Pack? ==> !IsPack(list[i], list[j].base)
  }

  lemma OrderGrouped(present: seq<Entry>)
    ensures Grouped(Order(present))
  {
    var a, b, list := Picked(present, false), Picked(present, true), Order(present);
    forall i, j | 0 <= i < j < |list|
      ensures list[i].localized ==> list[j].localized
    {
      assert i < |a| ==> list[i] == a[i];
      assert j >= |a| ==> list[j] == b[j - |a|];
    }
  }

  lemma {:induction false} LeadOf(a: seq<Entry>, b: seq<Entry>)
    requires forall i :: 0 <= i < |a| ==> !a[i].localized
    requires forall i :: 0 <= i < |b| ==> b[i].localized
    ensures Lead(a + b) == |a|
  {
    if a == [] {
      assert a + b == b;
    } else {
      assert (a + b)[1..] == a[1..] + b;
      LeadOf(a[1..], b);
    }
  }

  lemma PickedPush(s: seq<Entry>, e: Entry, localized: bool)
    ensures Picked(s + [e], localized) == (if e.localized == localized then [e] else []) + Picked(s, localized)
  {
    assert (s + [e])[..|s|] == s;
  }

  lemma Splice(a: seq<Entry>, b: seq<Entry>, e: Entry)
    ensures (a + b)[..|a|] + [e] + (a + b)[|a|..] == a + ([e] + b) && (a + b)[..0] + [e] + (a + b)[0..] == ([e] + a) + b
    ensures [] + a == a
  {
  }

  /** Inserting is arriving. */
  lemma InsertIsArrival(present: seq<Entry>, e: Entry)
    ensures Inserted(Order(present), e) == Order(present + [e])
  {
    hide Picked, Lead;
    var a, b := Picked(present, false), Picked(present, true);
    LeadOf(a, b);
    PickedPush(present, e, false);
    PickedPush(present, e, true);
    Splice(a, b, e);
    Splice(b, a, e);
  }

  lemma {:induction false} WithoutAppend(a: seq<Entry>, b: seq<Entry>, base: string)
    ensures Without(a + b, base) == Without(a, base) + Without(b, base)
  {
    hide IsPack;
    if b == [] {
      assert a + b == a;
    } else {
      var n := |b| - 1;
      assert (a + b)[..|a + b| - 1] == a + b[..n] && (a + b)[|a + b| - 1] == b[n];
      WithoutAppend(a, b[..n], base);
    }
  }

  lemma WithoutOne(e: Entry, base: string)
    ensures Without([e], base) == if IsPack(e, base) then [] else [e]
  {
    hide IsPack;
    assert [e][..0] == [];
  }

  lemma {:induction false} WithoutPicked(present: seq<Entry>, base: string, localized: bool)
    ensures Picked(Without(present, base), localized) == Without(Picked(present, localized), base)
  {
    hide IsPack;
    if present != [] {
      var n := |present| - 1;
      var front, e := present[..n], present[n];
      WithoutPicked(front, base, localized);
      WithoutOne(e, base);
      PickedPush(Without(front, base), e, localized);
      WithoutAppend(if e.localized == localized then [e] else [], Picked(front, localized), base);
      assert IsPack(e, base) ==> Without(front, base) + [] == Without(front, base);
    }
  }

  lemma WithoutOrder(present: seq<Entry>, base: string)
    ensures Order(Without(present, base)) == Without(Order(present), base)
  {
    hide Without, Picked;
    WithoutPicked(present, base, false);
    WithoutPicked(present, base, true);
    WithoutAppend(Picked(present, false), Picked(present, true), base);
  }

  lemma {:induction false} WithoutNone(s: seq<Entry>, base: string)
    requires forall i :: 0 <= i < |s| ==> !IsPack(s[i], base)
    ensures Without(s, base) == s
  {
    hide IsPack;
    if s != [] {
      WithoutNone(s[..|s| - 1], base);
    }
  }

  lemma Around(list: seq<Entry>, n: nat)
    requires n < |list|
    ensures list == list[..n] + ([list[n]] + list[n + 1..])
    ensures RemoveAt(list, n) == list[..n] + ([] + list[n + 1..])
  {
  }

  /** With at most one pack of the name, removing the first is removing all. */
  lemma RemoveFirstIsWithout(list: seq<Entry>, base: string)
    requires UniquePacks(list)
    ensures RemoveAt(list, FindPack(list, base)) == Without(list, base)
  {
    hide Without, FindPack, IsPack, UniquePacks;
    var n := FindPack(list, base);
    if n < |list| {
      var a, e, b := list[..n], list[n], list[n + 1..];
      Around(list, n);
      WithoutAppend(a, [e] + b, base);
      WithoutAppend([e], b, base);
      WithoutOne(e, base);
      WithoutNone(a, base);
      OnlyOne(list, n, b, base);
      WithoutNone(b, base);
    } else {
      WithoutNone(list, base);
    }
  }

  lemma OneName(e: Entry, f: Entry, base: string)
    requires IsPack(e, base) && IsPack(f, base)
    ensures f.Pack? && IsPack(e, f.base)
  {
  }

  lemma OnlyOne(list: seq<Entry>, n: nat, back: seq<Entry>, base: string)
    requires UniquePacks(list) && n < |list| && IsPack(list[n], base) && back == list[n + 1..]
    ensures forall i :: 0 <= i < |back| ==> !IsPack(back[i], base)
  {
    hide IsPack;
    forall i | 0 <= i < |back|
      ensures !IsPack(back[i], base)
    {
      assert back[i] == list[n + 1 + i];
      if IsPack(back[i], base) {
        OneName(list[n], back[i], base);
      }
    }
  }

  lemma {:induction false} SameMembers(present: seq<Entry>, localized: bool, e: Entry)
    ensures e in Picked(present, localized) <==> e in present && e.localized == localized
  {
    if present != [] {
      SameMembers(present[..|present| - 1], localized, e);
      assert e in present <==> e in present[..|present| - 1] || e == present[|present| - 1];
    }
  }

  lemma HasDirOrder(present: seq<Entry>, d: Entry)
    requires d.Dir?
    ensures HasDir(Order(present), d) <==> HasDir(present, d)
  {
    hide Picked, IsDir;
    var list := Order(present);
    if i :| 0 <= i < |list| && IsDir(list[i], d.path, d.gamedir) {
      SameMembers(present, false, list[i]);
      SameMembers(present, true, list[i]);
      assert list[i] in Picked(present, false) || list[i] in Picked(present, true);
    }
    if i :| 0 <= i < |present| && IsDir(present[i], d.path, d.gamedir) {
      SameMembers(present, present[i].localized, present[i]);
      assert present[i] in list;
    }
  }

  lemma {:induction false} NoneLeft(s: seq<Entry>, base: string)
    ensures forall i :: 0 <= i < |Without(s, base)| ==> !IsPack(Without(s, base)[i], base)
  {
    hide IsPack;
    if s != [] {
      NoneLeft(s[..|s| - 1], base);
    }
  }

  lemma RemoveKeepsUnique(list: seq<Entry>, n: nat)
    requires UniquePacks(list)
    ensures UniquePacks(RemoveAt(list, n))
  {
    hide IsPack;
    var r := RemoveAt(list, n);
    forall i, j | 0 <= i < j < |r| && r[j].Pack?
      ensures !IsPack(r[i], r[j].base)
    {
      var i', j' := if i < n then i else i + 1, if j < n then j else j + 1;
      assert n < |list| ==> r[i] == list[i'] && r[j] == list[j'];
    }
  }

  lemma FoldBoth(a: Entry, b: Entry)
    requires a.Pack? && b.Pack? && IsPack(a, b.base)
    ensures IsPack(b, a.base)
  {
  }

  lemma InsertKeepsUnique(list: seq<Entry>, e: Entry, k: nat)
    requires UniquePacks(list) && k <= |list|
    requires e.Pack? ==> forall i :: 0 <= i < |list| ==> !IsPack(list[i], e.base)
    ensures UniquePacks(list[..k] + [e] + list[k..])
  {
    hide IsPack;
    var r := list[..k] + [e] + list[k..];
    forall i, j | 0 <= i < j < |r| && r[j].Pack?
      ensures !IsPack(r[i], r[j].base)
    {
      var i', j' := if i < k then i else i - 1, if j < k then j else j - 1;
      if j == k {
        assert r[i] == list[i'];
      } else if i == k {
        assert r[j] == list[j'];
        if e.Pack? && IsPack(e, r[j].base) {
          FoldBoth(e, r[j]);
        }
        NotAPack(e, r[j].base);
      } else {
        assert r[i] == list[i'] && r[j] == list[j'];
      }
    }
  }

  lemma NotAPack(e: Entry, base: string)
    ensures IsPack(e, base) ==> e.Pack?
  {
  }

  /** Every call keeps the packs unique. */
  lemma CallKeepsUnique(list: seq<Entry>, c: Call)
    requires Proper(c) && UniquePacks(list)
    ensures UniquePacks(Do(list, c))
  {
    hide UniquePacks, IsPack, FindPack, Without, Lead, RemoveAt;
    match c
    case AddPack(p) =>
      var n := FindPack(list, p.base);
      RemoveFirstIsWithout(list, p.base);
      NoneLeft(list, p.base);
      RemoveKeepsUnique(list, n);
      InsertKeepsUnique(RemoveAt(list, n), p, Place(RemoveAt(list, n), p));
    case AddDir(d, hasContent) =>
      InsertKeepsUnique(list, d, Place(list, d));
  }

  /** Every list that calls can lead to is the order of what is present: the entries that are not localized, the last
      added first, then the localized ones, the last added first; and no two packs have one base name. */
  lemma {:induction false} ListIsOrder(calls: seq<Call>)
    requires AllProper(calls)
    ensures DoAll(calls) == Order(Present(calls)) && UniquePacks(DoAll(calls))
  {
    hide UniquePacks, Order, Inserted, Without, FindPack, RemoveAt, HasDir;
    if calls == [] {
      NothingPresent();
    } else {
      var front, c := calls[..|calls| - 1], calls[|calls| - 1];
      ListIsOrder(front);
      var list, present := DoAll(front), Present(front);
      CallKeepsUnique(list, c);
      match c {
        case AddPack(p) =>
          RemoveFirstIsWithout(list, p.base);
          WithoutOrder(present, p.base);
          InsertIsArrival(Without(present, p.base), p);
        case AddDir(d, hasContent) =>
          HasDirOrder(present, d);
          InsertIsArrival(present, d);
      }
    }
  }

  lemma NothingPresent()
    ensures Order([]) == [] && UniquePacks([])
  {
  }

  lemma {:induction false} ResolveAppend(a: seq<Entry>, b: seq<Entry>, name: string, ask: Ask)
    ensures Resolve(a + b, name, ask)
        == if Resolve(a, name, ask).Some? then Resolve(a, name, ask) else Resolve(b, name, ask)
  {
    hide Serves;
    if a == [] {
      assert a + b == b;
    } else {
      assert (a + b)[1..] == a[1..] + b;
      ResolveAppend(a[1..], b, name, ask);
    }
  }

  lemma {:induction false} ResolvePicked(present: seq<Entry>, localized: bool, name: string, ask: Ask)
    ensures Resolve(Picked(present, localized), name, ask) == LastServing(present, localized, name, ask)
  {
    hide Serves;
    if present != [] {
      var n := |present| - 1;
      ResolvePicked(present[..n], localized, name, ask);
      if present[n].localized == localized {
        assert ([present[n]] + Picked(present[..n], localized))[1..] == Picked(present[..n], localized);
      } else {
        assert [] + Picked(present[..n], localized) == Picked(present[..n], localized);
      }
    }
  }

  /** After any calls a file resolves to the last added entry that is not localized and serves it, and only if there
      is none to the last added localized one. */
  lemma ResolvesToLastAdded(calls: seq<Call>, name: string, ask: Ask)
    requires AllProper(calls)
    ensures var present := Present(calls);
            Resolve(DoAll(calls), name, ask)
            == if LastServing(present, false, name, ask).Some? then LastServing(present, false, name, ask)
               else LastServing(present, true, name, ask)
    ensures Grouped(DoAll(calls))
  {
    hide Picked, LastServing, Resolve, Present, DoAll, Grouped;
    var present := Present(calls);
    ListIsOrder(calls);
    OrderGrouped(present);
    ResolveAppend(Picked(present, false), Picked(present, true), name, ask);
    ResolvePicked(present, false, name, ask);
    ResolvePicked(present, true, name, ask);
  }

  // ---------------------------------------------------------------------------------------------
  // The program

  class Node {
    const entry: Entry
    var next: Node?

    constructor (entry: Entry)
      ensures this.entry == entry && next == null
    {
      this.entry := entry;
      next := null;
    }
  }

  /** The node at a place of the list; null ends it. */
  ghost function NodeAt(s: seq<Node>, i: nat): Node? { if i < |s| then s[i] else null }

  ghost function Entries(s: seq<Node>): (r: seq<Entry>)
    ensures |r| == |s|
  {
    seq(|s|, i requires 0 <= i < |s| => s[i].entry)
  }

  ghost predicate NoRepeats(s: seq<Node>) { forall i, j :: 0 <= i < j < |s| ==> s[i] != s[j] }

  class SearchPaths {
    var head: Node?
    ghost var spine: seq<Node>

    ghost predicate Valid()
      reads this, spine
    {
      NoRepeats(spine) && head == NodeAt(spine, 0)
          && forall i: nat :: i < |spine| ==> spine[i].next == NodeAt(spine, i + 1)
    }

    ghost function List(): seq<Entry>
      reads this
    {
      Entries(spine)
    }

    constructor ()
      ensures Valid() && List() == []
    {
      head := null;
      spine := [];
    }

    /** The loop to the first localized entry: the entry there, and the one in front of it. */
    method FirstLocalized() returns (prev: Node?, sp: Node?, ghost k: nat)
      requires Valid()
      ensures k == Lead(List()) && sp == NodeAt(spine, k) && prev == if k == 0 then null else spine[k - 1]
    {
      prev, sp, k := null, head, 0;
      while sp != null && !sp.entry.localized
        invariant k <= |spine| && sp == NodeAt(spine, k) && prev == if k == 0 then null else spine[k - 1]
        invariant forall i :: 0 <= i < k ==> !List()[i].localized
        decreases |spine| - k
      {
        prev := sp;
        sp := sp.next;
        k := k + 1;
      }
      LeadIs(List(), k);
    }

    /** Links a node in behind `prev`, or at the head. */
    method LinkIn(node: Node, prev: Node?, sp: Node?, ghost k: nat)
      requires Valid() && node !in spine && k <= |spine|
      requires sp == NodeAt(spine, k) && prev == if k == 0 then null else spine[k - 1]
      modifies this, spine, node
      ensures Valid() && spine == old(spine)[..k] + [node] + old(spine)[k..]
    {
      ghost var s := spine[..k] + [node] + spine[k..];
      GrownSpine(spine, k, node, s);
      hide NoRepeats;
      node.next := sp;
      if prev == null {
        head := node;
      } else {
        prev.next := node;
      }
      spine := s;
    }

    /** The insertion at the end of FS_AddGameDirectory_Single and of FS_AddIwdFilesForGameDirectory. */
    method Insert(e: Entry)
      requires Valid()
      modifies this, spine
      ensures Valid() && List() == Inserted(old(List()), e) && forall n :: n in spine ==> n in old(spine) || fresh(n)
    {
      var node := new Node(e);
      var prev: Node?, sp: Node? := null, head;
      ghost var k: nat := 0;
      if e.localized {
        prev, sp, k := FirstLocalized();
      }
      ghost var before := spine;
      LinkIn(node, prev, sp, k);
      SplicedEntries(before, k, node);
    }

    /** The walk of FS_ShutdownSearchpath to the link that holds the entry. */
    method FindLink(clear: Node, ghost at: nat) returns (prev: Node?)
      requires Valid() && at < |spine| && spine[at] == clear
      ensures prev == if at == 0 then null else spine[at - 1]
    {
      prev := null;
      var p := head;
      ghost var k: nat := 0;
      while p != clear
        invariant k <= at && p == NodeAt(spine, k) && prev == if k == 0 then null else spine[k - 1]
        decreases at - k
      {
        prev := p;
        p := p.next;
        k := k + 1;
      }
    }

    /** FS_ShutdownSearchpath: takes the entry out of the list. */
    method Shutdown(clear: Node, ghost at: nat)
      requires Valid() && at < |spine| && spine[at] == clear
      modifies this, spine
      ensures Valid() && spine == old(spine)[..at] + old(spine)[at + 1..]
    {
      var prev := FindLink(clear, at);
      ghost var s := spine[..at] + spine[at + 1..];
      CutSpine(spine, at, s);
      if prev == null {
        head := clear.next;
      } else {
        prev.next := clear.next;
      }
      spine := s;
    }

    /** The search for a pack of the same base name in FS_AddIwdFilesForGameDirectory. */
    method FindSamePack(base: string) returns (sp: Node?, ghost k: nat)
      requires Valid()
      ensures k == FindPack(List(), base) && sp == NodeAt(spine, k)
    {
      hide IsPack;
      sp, k := head, 0;
      while sp != null && !IsPack(sp.entry, base)
        invariant k <= |spine| && sp == NodeAt(spine, k) && forall i :: 0 <= i < k ==> !IsPack(List()[i], base)
        decreases |spine| - k
      {
        sp := sp.next;
        k := k + 1;
      }
      FindPackIs(List(), base, k);
    }

    /** FS_AddIwdFilesForGameDirectory, for one pack that was loaded. */
    method AddIwd(pack: Entry)
      requires Valid() && pack.Pack?
      modifies this, spine
      ensures Valid() && List() == PackAdded(old(List()), pack)
          && forall n :: n in spine ==> n in old(spine) || fresh(n)
    {
      hide Inserted, FindPack;
      ghost var before := spine;
      var sp, k := FindSamePack(pack.base);
      if sp != null {
        Shutdown(sp, k);
      }
      RemovedEntries(before, k);
      Insert(pack);
    }

    /** FS_AddGameDirectory_Single, without the packs in the directory. */
    method AddGameDirectory(dir: Entry, hasContent: bool)
      requires Valid() && dir.Dir?
      modifies this, spine
      ensures Valid() && List() == DirAdded(old(List()), dir, hasContent)
          && forall n :: n in spine ==> n in old(spine) || fresh(n)
    {
      hide Inserted, IsDir;
      var sp := head;
      ghost var k: nat := 0;
      while sp != null
        invariant k <= |spine| && sp == NodeAt(spine, k)
        invariant forall i :: 0 <= i < k ==> !IsDir(List()[i], dir.path, dir.gamedir)
        decreases |spine| - k
      {
        if IsDir(sp.entry, dir.path, dir.gamedir) {
          assert IsDir(List()[k], dir.path, dir.gamedir);
          return;
        }
        sp := sp.next;
        k := k + 1;
      }
      assert !HasDir(List(), dir);
      if dir.localized {
        if !hasContent {
          return;
        }
      }
      Insert(dir);
    }

    /** FS_FOpenFileReadForThread: the entry the file is read from. */
    method FOpenFileRead(name: string, ask: Ask) returns (found: Option<Entry>)
      requires Valid()
      ensures found == Resolve(List(), name, ask)
    {
      hide Serves;
      var search := head;
      ghost var k: nat := 0;
      assert List()[0..] == List();
      while search != null
        invariant k <= |spine| && search == NodeAt(spine, k)
            && Resolve(List()[k..], name, ask) == Resolve(List(), name, ask)
        decreases |spine| - k
      {
        assert List()[k..][1..] == List()[k + 1..];
        if Serves(search.entry, name, ask) {
          return Some(search.entry);
        }
        search := search.next;
        k := k + 1;
      }
      found := None;
    }
  }

  lemma CutSpine(s: seq<Node>, at: nat, r: seq<Node>)
    requires NoRepeats(s) && at < |s| && r == s[..at] + s[at + 1..]
    ensures NoRepeats(r) && |r| == |s| - 1
    ensures forall i :: 0 <= i < |r| ==> r[i] == if i < at then s[i] else s[i + 1]
  {
  }

  lemma GrownSpine(s: seq<Node>, k: nat, node: Node, r: seq<Node>)
    requires NoRepeats(s) && k <= |s| && node !in s && r == s[..k] + [node] + s[k..]
    ensures NoRepeats(r) && |r| == |s| + 1
    ensures forall i :: 0 <= i < |r| ==> r[i] == if i < k then s[i] else if i == k then node else s[i - 1]
    ensures forall i :: 0 <= i < |r| && i != k ==> r[i] != node
    ensures k > 0 ==> forall i :: 0 <= i < |r| && i != k - 1 ==> r[i] != s[k - 1]
  {
  }

  lemma {:induction false} LeadIs(list: seq<Entry>, k: nat)
    requires k <= |list| && (forall i :: 0 <= i < k ==> !list[i].localized) && (k < |list| ==> list[k].localized)
    ensures Lead(list) == k
  {
  }

  lemma FindPackIs(list: seq<Entry>, base: string, k: nat)
    requires k <= |list| && (forall i :: 0 <= i < k ==> !IsPack(list[i], base))
        && (k < |list| ==> IsPack(list[k], base))
    ensures FindPack(list, base) == k
  {
    hide FindPack, IsPack;
  }

  lemma SplicedEntries(s: seq<Node>, k: nat, node: Node)
    requires k <= |s|
    ensures Entries(s[..k] + [node] + s[k..]) == Entries(s)[..k] + [node.entry] + Entries(s)[k..]
  {
  }

  lemma RemovedEntries(s: seq<Node>, k: nat)
    ensures k < |s| ==> Entries(s[..k] + s[k + 1..]) == RemoveAt(Entries(s), k)
    ensures k >= |s| ==> Entries(s) == RemoveAt(Entries(s), k)
  {
  }
}
