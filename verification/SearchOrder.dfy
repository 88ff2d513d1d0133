/** Which file an open gives: told through what the directories and packs hold, and through the names of the packs. */
module SearchOrder {
  import opened Common
  import opened CString
  import opened Paths
  import opened PackIndex
  import opened IwdSort
  import opened SearchPath

  // ---------------------------------------------------------------------------------------------
  // What an open and a question find

  /** A directory holds a file under its very name, a pack under one that is the same up to case and separators. */
  ghost predicate Holds(e: Entry, file: string) {
    match e
    case Pack(_, names, _, _, _) => exists i :: 0 <= i < |names| && Same(names[i], file)
    case Dir(_, _, files, _, _) => file in files
  }

  /** Names that do not climb up, and have no colons, in which the index could miss one. */
  predicate Simple(name: string) { !Twice(name, '.') && ':' !in name }

  ghost predicate NoColons(e: Entry) { e.Pack? ==> forall i :: 0 <= i < |e.names| ==> ':' !in e.names[i] }

  lemma ServesOpen(e: Entry, name: string)
    requires NoColons(e) && Simple(Stripped(name))
    ensures Serves(e, name, Open) <==> Holds(e, Stripped(name))
  {
    hide FindHashed, FindLast, Hash, Same;
    var file := Stripped(name);
    if e.Pack? {
      AgreesWithoutColons(e.names, file, e.hashSize);
    }
  }

  /** The first entry of the list that holds the file; told by places. */
  lemma {:induction false} OpenFinds(list: seq<Entry>, name: string)
    requires Simple(Stripped(name)) && forall i :: 0 <= i < |list| ==> NoColons(list[i])
    ensures match Resolve(list, name, Open)
            case Some(e) => exists k :: 0 <= k < |list| && list[k] == e && Holds(e, Stripped(name))
                                        && forall i :: 0 <= i < k ==> !Holds(list[i], Stripped(name))
            case None => forall i :: 0 <= i < |list| ==> !Holds(list[i], Stripped(name))
  {
    hide Serves, Holds, Simple, NoColons;
    if list != [] {
      ServesOpen(list[0], name);
      if Serves(list[0], name, Open) {
        assert list[0] == list[0] && Holds(list[0], Stripped(name));
      } else {
        OpenFinds(list[1..], name);
        match Resolve(list[1..], name, Open)
        case Some(e) =>
          var k :| 0 <= k < |list[1..]| && list[1..][k] == e && Holds(e, Stripped(name))
                   && forall i :: 0 <= i < k ==> !Holds(list[1..][i], Stripped(name));
          forall i | 0 <= i < k + 1
            ensures !Holds(list[i], Stripped(name))
          {
            assert i > 0 ==> list[i] == list[1..][i - 1];
          }
          assert list[k + 1] == e;
        case None =>
          forall i | 0 <= i < |list|
            ensures !Holds(list[i], Stripped(name))
          {
            assert i > 0 ==> list[i] == list[1..][i - 1];
          }
      }
    }
  }

  /** A name that climbs up, or has two colons on end, is never opened. */
  lemma {:induction false} BarredIsNotOpened(list: seq<Entry>, name: string, ask: Ask)
    requires Twice(Stripped(name), '.') || Twice(Stripped(name), ':')
    ensures Resolve(list, name, ask) == None
  {
    if list != [] {
      BarredIsNotOpened(list[1..], name, ask);
    }
  }

  /** A leading separator makes no difference. */
  lemma {:induction false} LeadingSeparator(list: seq<Entry>, name: string, c: char, ask: Ask)
    requires c == '/' || c == '\\'
    requires name == "" || (name[0] != '/' && name[0] != '\\')
    ensures Resolve(list, [c] + name, ask) == Resolve(list, name, ask)
  {
    assert Stripped([c] + name) == name == Stripped(name) by {
      assert ([c] + name)[1..] == name;
    }
    if list != [] {
      LeadingSeparator(list[1..], name, c, ask);
    }
  }

  /** A new directory that is not localized comes before all others: it gives the file if it holds it. */
  lemma NewDirectoryFirst(list: seq<Entry>, d: Entry, name: string)
    requires d.Dir? && !d.localized && Stripped(name) in d.files
    requires !Twice(Stripped(name), '.') && !Twice(Stripped(name), ':')
    ensures Resolve(Inserted(list, d), name, Open) == Some(d)
  {
    assert list[..0] + [d] + list[0..] == [d] + list;
  }

  /** A directory without the file never changes what an open or a question finds, wherever it is inserted. */
  lemma DirectoryWithout(list: seq<Entry>, d: Entry, name: string, ask: Ask)
    requires d.Dir? && Stripped(name) !in d.files
    ensures Resolve(Inserted(list, d), name, ask) == Resolve(list, name, ask)
  {
    hide Serves, Lead;
    var k := Place(list, d);
    NotServed(d, name, ask);
    ResolveAppend(list[..k], list[k..], name, ask);
    ResolveAppend(list[..k], [d] + list[k..], name, ask);
    assert list[..k] + list[k..] == list;
    assert list[..k] + [d] + list[k..] == list[..k] + ([d] + list[k..]);
    assert ([d] + list[k..])[1..] == list[k..];
  }

  lemma NotServed(d: Entry, name: string, ask: Ask)
    requires d.Dir? && Stripped(name) !in d.files
    ensures !Serves(d, name, ask)
  {
  }

  /** The entries that answer for a language: all that are not localized, and the localized ones of this language. */
  function Speaking(list: seq<Entry>, language: int): seq<Entry> {
    if list == [] then [] else
    (if list[0].localized && list[0].langIndex != language then [] else [list[0]]) + Speaking(list[1..], language)
  }

  /** To ask whether a file is there is to open it from a list without the entries of other languages; or from the
      whole list, if localization is ignored. */
  lemma {:induction false} ExistsIsOpen(list: seq<Entry>, name: string, language: int)
    ensures Resolve(list, name, Exists(false, language)) == Resolve(Speaking(list, language), name, Open)
    ensures Resolve(list, name, Exists(true, language)) == Resolve(list, name, Open)
  {
    hide Twice, FindHashed, Hash;
    if list != [] {
      ExistsIsOpen(list[1..], name, language);
      var rest := Speaking(list[1..], language);
      assert [] + rest == rest && ([list[0]] + rest)[1..] == rest;
      AsksAlike(list[0], name, language);
    }
  }

  lemma AsksAlike(e: Entry, name: string, language: int)
    ensures Serves(e, name, Exists(true, language)) == Serves(e, name, Open)
    ensures Serves(e, name, Exists(false, language))
         == (Serves(e, name, Open) && (e.localized ==> e.langIndex == language))
  {
    hide FindHashed, Hash;
  }

  /** What bars a name: the character twice on end, anywhere. */
  lemma TwiceIs(s: string, c: char)
    ensures Twice(s, c) <==> exists a: string, b: string :: s == a + ([c, c] + b)
  {
    if i :| 0 <= i < |s| - 1 && s[i] == c && s[i + 1] == c {
      assert s == s[..i] + ([c, c] + s[i + 2..]);
    }
    if a: string, b: string :| s == a + ([c, c] + b) {
      assert s[|a|] == c && s[|a| + 1] == c;
    }
  }

  // ---------------------------------------------------------------------------------------------
  // What adding keeps

  /** Adding a pack takes out the one of its base name, up to case, and nothing else. */
  lemma PackTakesOver(list: seq<Entry>, p: Entry, e: Entry)
    requires UniquePacks(list) && p.Pack?
    ensures e in PackAdded(list, p) <==> e == p || (e in list && !(e.Pack? && EqualFold(e.base, p.base)))
  {
    hide Without, FindPack, Lead, UniquePacks, EqualFold;
    RemoveFirstIsWithout(list, p.base);
    var rest := Without(list, p.base);
    WithoutHas(list, p.base, e);
    var k := Place(rest, p);
    assert rest == rest[..k] + rest[k..];
  }

  lemma {:induction false} WithoutHas(s: seq<Entry>, base: string, e: Entry)
    ensures e in Without(s, base) <==> e in s && !(e.Pack? && EqualFold(e.base, base))
  {
    hide EqualFold;
    if s != [] {
      var n := |s| - 1;
      WithoutHas(s[..n], base, e);
      assert e in s <==> e in s[..n] || e == s[n];
    }
  }

  /** A directory of the path and game directory is there, up to case. */
  ghost predicate Known(list: seq<Entry>, d: Entry)
    requires d.Dir?
  {
    exists i :: 0 <= i < |list| && list[i].Dir? && EqualFold(list[i].path, d.path)
                && EqualFold(list[i].gamedir, d.gamedir)
  }

  lemma KnownIsThere(list: seq<Entry>, d: Entry)
    requires d.Dir?
    ensures Known(list, d) <==> HasDir(list, d)
  {
    hide EqualFold;
    if i :| 0 <= i < |list| && IsDir(list[i], d.path, d.gamedir) {
      assert list[i].Dir?;
    }
    if Known(list, d) {
      var i :| 0 <= i < |list| && list[i].Dir? && EqualFold(list[i].path, d.path)
               && EqualFold(list[i].gamedir, d.gamedir);
      assert IsDir(list[i], d.path, d.gamedir);
    }
  }

  lemma InsertedHas(list: seq<Entry>, d: Entry, e: Entry)
    ensures e in Inserted(list, d) <==> e == d || e in list
  {
    hide Lead;
    var k := Place(list, d);
    assert list == list[..k] + list[k..];
  }

  /** A directory is not added again if it is known, nor a localized one without content; else it is, and nothing is
      taken out. */
  lemma DirectoryAddedIff(list: seq<Entry>, d: Entry, hasContent: bool, e: Entry)
    requires d.Dir?
    ensures e in DirAdded(list, d, hasContent)
            <==> e in list || (e == d && !Known(list, d) && (d.localized ==> hasContent))
    ensures Known(list, d) || (d.localized && !hasContent) ==> DirAdded(list, d, hasContent) == list
  {
    hide Inserted, HasDir, Known;
    KnownIsThere(list, d);
    InsertedHas(list, d, e);
  }

  // ---------------------------------------------------------------------------------------------
  // The packs of a directory: the greatest name wins

  /** A pack file: the name it is sorted by, in which "localized_" is blanked out, and the pack. */
  datatype Iwd = Iwd(file: string, pack: Entry)

  ghost predicate AllPacks(ws: seq<Iwd>) { forall i :: 0 <= i < |ws| ==> ws[i].pack.Pack? }

  /** The order that qsort leaves. */
  ghost predicate Rising(ws: seq<Iwd>) { forall i :: 0 <= i < |ws| - 1 ==> Sort(ws[i].file, ws[i + 1].file) <= 0 }

  ghost predicate InOrder(ws: seq<Iwd>) { forall i, j :: 0 <= i < j < |ws| ==> Sort(ws[i].file, ws[j].file) <= 0 }

  lemma RisingInOrder(ws: seq<Iwd>)
    requires Rising(ws)
    ensures InOrder(ws)
  {
    hide Sort;
    var names := seq(|ws|, i requires 0 <= i < |ws| => ws[i].file);
    forall i, j | 0 <= i < j < |ws|
      ensures Sort(ws[i].file, ws[j].file) <= 0
    {
      SortedAll(names, i, j);
    }
  }

  /** The calls that add them one by one. */
  function Adds(ws: seq<Iwd>): seq<Call> {
    if ws == [] then [] else Adds(ws[..|ws| - 1]) + [AddPack(ws[|ws| - 1].pack)]
  }

  /** Those of which no later one has the base name. */
  function Kept(ws: seq<Iwd>): seq<Iwd> {
    if ws == [] then [] else
    Cleared(Kept(ws[..|ws| - 1]), ws[|ws| - 1].pack) + [ws[|ws| - 1]]
  }

  function Cleared(ws: seq<Iwd>, p: Entry): seq<Iwd> {
    if ws == [] then [] else
    var last := ws[|ws| - 1];
    Cleared(ws[..|ws| - 1], p) + if p.Pack? && IsPack(last.pack, p.base) then [] else [last]
  }

  function PacksOf(ws: seq<Iwd>): (r: seq<Entry>)
    ensures |r| == |ws| && forall i :: 0 <= i < |ws| ==> r[i] == ws[i].pack
  {
    if ws == [] then [] else PacksOf(ws[..|ws| - 1]) + [ws[|ws| - 1].pack]
  }

  /** What is left of the entries that were there. */
  function Stay(s: seq<Entry>, ws: seq<Iwd>): seq<Entry>
    requires AllPacks(ws)
  {
    if ws == [] then s else Without(Stay(s, ws[..|ws| - 1]), ws[|ws| - 1].pack.base)
  }

  lemma {:induction false} AddsProper(ws: seq<Iwd>)
    requires AllPacks(ws)
    ensures AllProper(Adds(ws))
  {
    if ws != [] {
      AddsProper(ws[..|ws| - 1]);
    }
  }

  lemma {:induction false} ClearedPacks(ws: seq<Iwd>, p: Entry)
    requires p.Pack?
    ensures PacksOf(Cleared(ws, p)) == Without(PacksOf(ws), p.base)
  {
    hide IsPack;
    if ws != [] {
      var n := |ws| - 1;
      ClearedPacks(ws[..n], p);
      PacksPush(ws[..n], ws[n]);
      assert ws[..n] + [ws[n]] == ws && PacksOf(ws)[..n] == PacksOf(ws[..n]);
      PacksPush(Cleared(ws[..n], p), ws[n]);
      assert Cleared(ws[..n], p) + [] == Cleared(ws[..n], p);
    }
  }

  lemma PacksPush(ws: seq<Iwd>, w: Iwd)
    ensures PacksOf(ws + [w]) == PacksOf(ws) + [w.pack]
  {
    assert (ws + [w])[..|ws|] == ws;
  }

  /** The new packs come behind what is left. */
  lemma {:induction false} PresentAdds(before: seq<SearchPath.Call>, ws: seq<Iwd>)
    requires AllProper(before) && AllPacks(ws)
    ensures AllProper(before + Adds(ws))
    ensures Present(before + Adds(ws)) == Stay(Present(before), ws) + PacksOf(Kept(ws))
  {
    hide Without, Kept, Cleared, Present, Adds;
    AddsProper(ws);
    if ws == [] {
      NoneAdded();
      assert before + Adds(ws) == before;
      NoneKept();
      assert Stay(Present(before), ws) + [] == Present(before);
    } else {
      var n := |ws| - 1;
      var front, p := ws[..n], ws[n].pack;
      PresentAdds(before, front);
      AddsLast(ws);
      PresentPush(before + Adds(front), AddPack(p));
      assert before + Adds(ws) == before + Adds(front) + [AddPack(p)];
      var a, b := Stay(Present(before), front), PacksOf(Kept(front));
      WithoutAppend(a, b, p.base);
      ClearedPacks(Kept(front), p);
      KeptPush(ws);
      PacksPush(Cleared(Kept(front), p), ws[n]);
      assert Without(a, p.base) + Without(b, p.base) + [p] == Without(a, p.base) + (Without(b, p.base) + [p]);
    }
  }

  lemma AddsLast(ws: seq<Iwd>)
    requires ws != []
    ensures Adds(ws) == Adds(ws[..|ws| - 1]) + [AddPack(ws[|ws| - 1].pack)]
  {
  }

  lemma PresentPush(calls: seq<SearchPath.Call>, c: SearchPath.Call)
    requires AllProper(calls) && SearchPath.Proper(c)
    ensures AllProper(calls + [c]) && Present(calls + [c]) == Arrived(Present(calls), c)
  {
    hide Arrived, SearchPath.Proper;
    var all := calls + [c];
    assert all[..|all| - 1] == calls && all[|all| - 1] == c;
  }

  lemma NoneAdded()
    ensures Adds([]) == []
  {
  }

  lemma NoneKept()
    ensures Kept([]) == []
  {
  }

  lemma KeptPush(ws: seq<Iwd>)
    requires ws != []
    ensures Kept(ws) == Cleared(Kept(ws[..|ws| - 1]), ws[|ws| - 1].pack) + [ws[|ws| - 1]]
  {
  }

  lemma {:induction false} ClearedInOrder(ws: seq<Iwd>, p: Entry, all: seq<Iwd>)
    requires InOrder(ws) && forall i :: 0 <= i < |ws| ==> ws[i] in all
    ensures InOrder(Cleared(ws, p)) && forall i :: 0 <= i < |Cleared(ws, p)| ==> Cleared(ws, p)[i] in ws
  {
    hide Sort, IsPack;
    if ws != [] {
      var n := |ws| - 1;
      ClearedInOrder(ws[..n], p, all);
      var c := Cleared(ws[..n], p);
      forall i | 0 <= i < |c|
        ensures c[i] in ws && Sort(c[i].file, ws[n].file) <= 0
      {
        var j :| 0 <= j < n && ws[..n][j] == c[i];
      }
    }
  }

  lemma {:induction false} KeptInOrder(ws: seq<Iwd>)
    requires InOrder(ws)
    ensures InOrder(Kept(ws)) && forall i :: 0 <= i < |Kept(ws)| ==> Kept(ws)[i] in ws
  {
    hide Sort, Cleared;
    if ws != [] {
      var n := |ws| - 1;
      KeptInOrder(ws[..n]);
      var k := Kept(ws[..n]);
      ClearedInOrder(k, ws[n].pack, k);
      var c := Cleared(k, ws[n].pack);
      forall i | 0 <= i < |c|
        ensures c[i] in ws && Sort(c[i].file, ws[n].file) <= 0
      {
        assert c[i] in k;
        InFront(ws, k, n, c[i]);
      }
    }
  }

  lemma InFront(ws: seq<Iwd>, k: seq<Iwd>, n: nat, w: Iwd)
    requires InOrder(ws) && n == |ws| - 1 && w in k && forall i :: 0 <= i < |k| ==> k[i] in ws[..n]
    ensures w in ws && Sort(w.file, ws[n].file) <= 0
  {
    hide Sort;
    var j :| 0 <= j < |k| && k[j] == w;
    var m :| 0 <= m < n && ws[..n][m] == w;
  }

  lemma {:induction false} ServingBehind(a: seq<Entry>, b: seq<Entry>, localized: bool, name: string, ask: Ask)
    ensures LastServing(a + b, localized, name, ask)
         == if LastServing(b, localized, name, ask).Some? then LastServing(b, localized, name, ask)
            else LastServing(a, localized, name, ask)
  {
    hide Serves;
    if b == [] {
      assert a + b == a;
    } else {
      var n := |b| - 1;
      assert (a + b)[..|a + b| - 1] == a + b[..n] && (a + b)[|a + b| - 1] == b[n];
      ServingBehind(a, b[..n], localized, name, ask);
    }
  }

  /** The last pack that serves comes in the order behind every other that does. */
  lemma {:induction false} LastIsGreatest(ws: seq<Iwd>, name: string, ask: Ask, i: nat) returns (j: nat)
    requires InOrder(ws) && i < |ws| && !ws[i].pack.localized && Serves(ws[i].pack, name, ask)
    ensures i <= j < |ws| && LastServing(PacksOf(ws), false, name, ask) == Some(ws[j].pack)
    ensures !ws[j].pack.localized && Serves(ws[j].pack, name, ask)
    decreases |ws|
  {
    hide Serves, Sort;
    var n := |ws| - 1;
    assert PacksOf(ws)[..n] == PacksOf(ws[..n]);
    if !ws[n].pack.localized && Serves(ws[n].pack, name, ask) {
      j := n;
    } else {
      j := LastIsGreatest(ws[..n], name, ask, i);
    }
  }

  /** After the packs of a directory are sorted and added, whatever was added before: among those that are not
      localized, are not replaced by a later one of their base name and hold a file, none has a greater name than the
      one it is opened from. */
  lemma GreatestNameServes(before: seq<SearchPath.Call>, ws: seq<Iwd>, name: string, i: nat)
    returns (j: nat)
    requires AllProper(before) && AllPacks(ws) && Rising(ws) && Simple(Stripped(name))
    requires forall k :: 0 <= k < |ws| ==> NoColons(ws[k].pack) && (Marked(ws[k].file) ==> ws[k].pack.localized)
    requires i < |Kept(ws)| && !Kept(ws)[i].pack.localized && Holds(Kept(ws)[i].pack, Stripped(name))
    ensures AllProper(before + Adds(ws)) && j < |Kept(ws)|
    ensures Resolve(DoAll(before + Adds(ws)), name, Open) == Some(Kept(ws)[j].pack)
    ensures !Kept(ws)[j].pack.localized && Holds(Kept(ws)[j].pack, Stripped(name))
    ensures Compare(Kept(ws)[i].file, Kept(ws)[j].file) <= 0
  {
    hide Holds, Serves, Simple, NoColons, Sort, Compare, Marked, Kept, Present, DoAll, Resolve, Stay, Adds;
    var kept, calls := Kept(ws), before + Adds(ws);
    RisingInOrder(ws);
    KeptInOrder(ws);
    PresentAdds(before, ws);
    assert kept[i] in ws;
    ServesOpen(kept[i].pack, name);
    j := LastIsGreatest(kept, name, Open, i);
    assert kept[j] in ws;
    ServesOpen(kept[j].pack, name);
    ServingBehind(Stay(Present(before), ws), PacksOf(kept), false, name, Open);
    ResolvesToLastAdded(calls, name, Open);
    UnmarkedOrder(kept[i].file, kept[j].file);
    SelfCompare(kept[i].file);
  }

  lemma UnmarkedOrder(a: string, b: string)
    requires !Marked(a)
    ensures Sort(a, b) == Compare(a, b)
  {
  }

  lemma SelfCompare(a: string)
    ensures Compare(a, a) == 0
  {
    CompareAntisymmetric(a, a, 0);
  }

  lemma {:induction false} NoneCleared(ws: seq<Iwd>, p: Entry)
    requires p.Pack? && forall i :: 0 <= i < |ws| ==> !IsPack(ws[i].pack, p.base)
    ensures Cleared(ws, p) == ws
  {
    hide IsPack;
    if ws != [] {
      NoneCleared(ws[..|ws| - 1], p);
    }
  }

  ghost predicate Bases(ws: seq<Iwd>)
    requires AllPacks(ws)
  {
    forall i, j :: 0 <= i < j < |ws| ==> !IsPack(ws[i].pack, ws[j].pack.base)
  }

  lemma BasesFront(ws: seq<Iwd>)
    requires AllPacks(ws) && Bases(ws) && ws != []
    ensures var front, base := ws[..|ws| - 1], ws[|ws| - 1].pack.base;
            AllPacks(front) && Bases(front) && forall i :: 0 <= i < |front| ==> !IsPack(front[i].pack, base)
  {
    hide IsPack;
  }

  /** If no two have one base name, all are kept. */
  lemma {:induction false} AllKept(ws: seq<Iwd>)
    requires AllPacks(ws) && Bases(ws)
    ensures Kept(ws) == ws
    decreases |ws|
  {
    hide IsPack, Cleared, Kept, Bases;
    if ws == [] {
      NoneKept();
    } else {
      BasesFront(ws);
      AllKept(ws[..|ws| - 1]);
      NoneCleared(ws[..|ws| - 1], ws[|ws| - 1].pack);
      KeptPush(ws);
    }
  }
}
