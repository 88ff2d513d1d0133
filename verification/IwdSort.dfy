/** The order in which the packs of a game directory are loaded, src/filesystem.c. */
module IwdSort {
  import opened CString
  import opened Paths

  /** !Q_stricmpn(s, "          ", 10): the mark in place of "localized_". */
  predicate Marked(s: string) { Blank(s, 10) }

  /** The first `n` characters are there and blank. */
  predicate Blank(s: string, n: nat) { |s| >= n && forall i :: 0 <= i < n ==> Signed(s[i]) == 32 }

  predicate IsAlpha(c: char) { 'a' <= c <= 'z' || 'A' <= c <= 'Z' }

  /** The letters from position `i` on, up to position 63. */
  function Letters(s: string, i: nat): string
    decreases 64 - i
  {
    if i < 64 && i < |s| && IsAlpha(s[i]) then [s[i]] + Letters(s, i + 1) else []
  }

  /** sub_55D700: the language behind the mark. */
  function Language(s: string): string { if |s| >= 10 then Letters(s, 10) else [] }

  predicate English(s: string) { EqualFold(Language(s), "english") }

  /** iwdsort. */
  function Sort(a: string, b: string): (c: int)
    ensures -1 <= c <= 1
  {
    if !Marked(a) || !Marked(b) then Compare(a, b)
    else if !English(a) && English(b) then 1
    else if English(a) && !English(b) then -1
    else Compare(a, b)
  }

  /** The mark is ten blanks in front. */
  lemma MarkedIs(s: string)
    requires IsCString(s)
    ensures Marked(s) <==> "          " <= s
  {
    if "          " <= s {
      assert forall i :: 0 <= i < 10 ==> s[i] == "          "[i] == ' ';
    }
    if Marked(s) {
      assert forall i :: 0 <= i < 10 ==> s[i] == ' ';
      assert s[..10] == "          ";
    }
  }

  lemma {:induction false} LettersRead(s: string, i: nat, w: string)
    requires i + |w| <= 64 && i + |w| <= |s| && s[i..i + |w|] == w
    requires forall k :: 0 <= k < |w| ==> 'A' <= Upper(w[k]) <= 'Z'
    requires i + |w| == 64 || i + |w| == |s| || !('A' <= Upper(s[i + |w|]) <= 'Z')
    ensures Letters(s, i) == w
    decreases |w|
  {
    if w != [] {
      assert s[i] == s[i..i + |w|][0] && s[i + 1..i + 1 + |w[1..]|] == w[1..];
      LettersRead(s, i + 1, w[1..]);
    }
  }

  /** The language is the word behind the mark, cut after 54 letters. */
  lemma LanguageReads(mark: string, w: string, rest: string)
    requires |mark| == 10 && forall k :: 0 <= k < |w| ==> 'A' <= Upper(w[k]) <= 'Z'
    requires rest == [] || !('A' <= Upper(rest[0]) <= 'Z')
    ensures Language(mark + (w + rest)) == if |w| <= 54 then w else w[..54]
  {
    var s := mark + (w + rest);
    if |w| <= 54 {
      assert s[10..10 + |w|] == w;
      assert rest != [] ==> s[10 + |w|] == rest[0];
      LettersRead(s, 10, w);
    } else {
      assert s[10..64] == w[..54];
      LettersRead(s, 10, w[..54]);
    }
  }

  /** Of two marked names the English one comes first. */
  lemma EnglishFirst(a: string, b: string)
    requires Marked(a) && Marked(b) && EqualFold(Language(a), "english") && !EqualFold(Language(b), "english")
    ensures Sort(a, b) < 0 < Sort(b, a)
  {
    hide Language;
  }

  /** In all other cases the names decide. */
  lemma NamesDecide(a: string, b: string)
    requires !Marked(a) || !Marked(b) || (EqualFold(Language(a), "english") <==> EqualFold(Language(b), "english"))
    ensures Sort(a, b) == Compare(a, b)
  {
    hide Language, Compare, EqualFold;
  }

  // ---------------------------------------------------------------------------------------------
  // The special case is consistent

  lemma MarkedAt(s: string, i: nat)
    requires Marked(s) && i < 10
    ensures At(s, i) == 32
  {
  }

  lemma NotMarkedAt(s: string, i: nat)
    requires i < 10 && At(s, i) == 32
    ensures i < |s| && Signed(s[i]) == 32
  {
  }

  /** A name without the mark compares in one and the same way with all names that have it, and never as equal. */
  lemma {:induction false} SameAgainstMarked(a: string, x: string, y: string, i: nat)
    requires !Marked(a) && Marked(x) && Marked(y) && i <= 10 && Blank(a, i)
    ensures CompareFrom(a, x, i) == CompareFrom(a, y, i) != 0
    decreases 10 - i
  {
    if i < 10 {
      MarkedAt(x, i);
      MarkedAt(y, i);
      if At(a, i) == 32 {
        NotMarkedAt(a, i);
        SameAgainstMarked(a, x, y, i + 1);
      }
    }
  }

  /** Total and sign-antisymmetric: the two directions of a comparison always agree. */
  lemma SortAntisymmetric(a: string, b: string)
    ensures Sort(b, a) == -Sort(a, b)
  {
    hide Marked, English;
    CompareAntisymmetric(a, b, 0);
  }

  lemma CompareEqualSame(a: string, b: string, c: string)
    requires Compare(a, b) <= 0 && Compare(b, c) <= 0
    ensures Compare(a, c) <= 0 && (Compare(a, b) < 0 || Compare(b, c) < 0 ==> Compare(a, c) < 0)
  {
    CompareTransitive(a, b, c, 0);
  }

  /** Transitive, and strictly so if one of the two steps is strict. */
  lemma SortTransitive(a: string, b: string, c: string)
    requires Sort(a, b) <= 0 && Sort(b, c) <= 0
    ensures Sort(a, c) <= 0
    ensures Sort(a, b) < 0 || Sort(b, c) < 0 ==> Sort(a, c) < 0
  {
    hide Marked, English, Compare;
    if Marked(a) && Marked(b) && Marked(c) {
      if Compare(a, b) <= 0 && Compare(b, c) <= 0 {
        CompareEqualSame(a, b, c);
      }
    } else if Marked(a) && Marked(c) {
      Apart(b, a, c);
    } else if Marked(a) && Marked(b) {
      Apart(c, a, b);
    } else if Marked(b) && Marked(c) {
      Apart(a, b, c);
    } else {
      CompareEqualSame(a, b, c);
    }
  }

  lemma Apart(a: string, x: string, y: string)
    requires !Marked(a) && Marked(x) && Marked(y)
    ensures Compare(a, x) == Compare(a, y) != 0
    ensures Compare(x, a) == Compare(y, a) == -Compare(a, x)
  {
    hide Marked;
    SameAgainstMarked(a, x, y, 0);
    CompareAntisymmetric(a, x, 0);
    CompareAntisymmetric(a, y, 0);
  }

  /** Whatever order qsort leaves the names in, if no name is greater than its successor then no name is greater than
      any later one: among the marked names the English ones all come first. */
  lemma {:induction false} SortedAll(names: seq<string>, i: nat, j: nat)
    requires forall k :: 0 <= k < |names| - 1 ==> Sort(names[k], names[k + 1]) <= 0
    requires i < j < |names|
    ensures Sort(names[i], names[j]) <= 0
    ensures Marked(names[i]) && Marked(names[j]) && English(names[j]) ==> English(names[i])
    decreases j - i
  {
    hide Marked, English, Compare;
    if i + 1 < j {
      SortedAll(names, i, j - 1);
      assert Sort(names[j - 1], names[j - 1 + 1]) <= 0;
      SortTransitive(names[i], names[j - 1], names[j]);
    }
  }

  // ---------------------------------------------------------------------------------------------
  // The program

  /** sub_55D700; the buffer is the one of the two that this call fills. */
  method LanguageOf(s: string) returns (language: string)
    ensures language == Language(s)
  {
    if |s| < 10 {
      return [];
    }
    language := [];
    var i := 10;
    while i < 64 && i < |s| && IsAlpha(s[i])
      invariant 10 <= i <= 64 && language + Letters(s, i) == Letters(s, 10)
      decreases 64 - i
    {
      language := language + [s[i]];
      i := i + 1;
    }
    assert language + [] == language;
  }

  /** iwdsort. */
  method IwdCompare(a: string, b: string) returns (c: int)
    ensures c == Sort(a, b)
  {
    hide Letters;
    if !Marked(a) || !Marked(b) {
      c := PathCmp(a, b);
      return;
    }
    var la := LanguageOf(a);
    var lb := LanguageOf(b);
    if !EqualFold(la, "english") {
      if EqualFold(lb, "english") {
        return 1;
      }
    } else if !EqualFold(lb, "english") {
      return -1;
    }
    c := PathCmp(a, b);
  }
}
