/** The wildcard matcher of src/common.c, on patterns of ordinary characters and stars. */
module Filter {
  import opened CString

  const MAX_TOKEN_CHARS := 1024

  function Fold(c: char, caseSensitive: bool): char { if caseSensitive then c else Upper(c) }

  /** What a pattern means: a star stands for any text, any other character for itself. */
  predicate Matches(pattern: string, name: string, caseSensitive: bool)
    decreases pattern
  {
    if pattern == [] then name == []
    else if pattern[0] == '*' then exists k :: 0 <= k <= |name| && Matches(pattern[1..], name[k..], caseSensitive)
    else name != [] && Fold(pattern[0], caseSensitive) == Fold(name[0], caseSensitive)
         && Matches(pattern[1..], name[1..], caseSensitive)
  }

  /** Some prefix of the name matches the pattern. */
  ghost predicate SomePrefix(pattern: string, name: string, caseSensitive: bool) {
    exists n :: 0 <= n <= |name| && Matches(pattern, name[..n], caseSensitive)
  }

  /** `lit` lies at position `i` of the name. */
  predicate LiesAt(name: string, lit: string, i: int, caseSensitive: bool): (lies: bool)
    ensures lies ==> 0 <= i && i + |lit| <= |name|
  {
    0 <= i && i + |lit| <= |name|
        && forall j :: 0 <= j < |lit| ==> Fold(lit[j], caseSensitive) == Fold(name[i + j], caseSensitive)
  }

  /** Without stars a pattern matches one text: itself, or, if case does not count, what differs in case only. */
  lemma {:induction false} LiteralMatches(pattern: string, name: string)
    requires '*' !in pattern
    ensures Matches(pattern, name, true) <==> pattern == name
    ensures Matches(pattern, name, false) <==> EqualFold(pattern, name)
    decreases pattern
  {
    if pattern != [] && name != [] {
      LiteralMatches(pattern[1..], name[1..]);
      assert pattern == [pattern[0]] + pattern[1..] && name == [name[0]] + name[1..];
      assert forall i :: 1 <= i < |pattern| ==> pattern[i] == pattern[1..][i - 1];
      assert forall i :: 1 <= i < |name| ==> name[i] == name[1..][i - 1];
      FoldFirst(pattern, name);
    }
  }

  lemma FoldFirst(a: string, b: string)
    requires a != [] && b != []
    ensures EqualFold(a, b) <==> Upper(a[0]) == Upper(b[0]) && EqualFold(a[1..], b[1..])
  {
    hide Upper;
    if Upper(a[0]) == Upper(b[0]) && EqualFold(a[1..], b[1..]) {
      forall i | 0 <= i < |a|
        ensures Upper(a[i]) == Upper(b[i])
      {
        assert i > 0 ==> a[i] == a[1..][i - 1] && b[i] == b[1..][i - 1];
      }
    }
  }

  // ---------------------------------------------------------------------------------------------
  // Leftmost choice is complete

  /** A leading star may skip any part of the name. */
  lemma StarSkips(pattern: string, name: string, cs: bool)
    requires pattern != [] && pattern[0] == '*'
    ensures SomePrefix(pattern, name, cs) <==> exists k :: 0 <= k <= |name| && SomePrefix(pattern[1..], name[k..], cs)
  {
    if SomePrefix(pattern, name, cs) {
      var n :| 0 <= n <= |name| && Matches(pattern, name[..n], cs);
      var k :| 0 <= k <= n && Matches(pattern[1..], name[..n][k..], cs);
      assert name[..n][k..] == name[k..][..n - k];
    }
    if k :| 0 <= k <= |name| && SomePrefix(pattern[1..], name[k..], cs) {
      var n :| 0 <= n <= |name| - k && Matches(pattern[1..], name[k..][..n], cs);
      assert name[..k + n][k..] == name[k..][..n];
      assert Matches(pattern, name[..k + n], cs);
    }
  }

  lemma CharStep(pattern: string, name: string, cs: bool)
    requires pattern != [] && pattern[0] != '*'
    ensures SomePrefix(pattern, name, cs)
            <==> name != [] && Fold(pattern[0], cs) == Fold(name[0], cs) && SomePrefix(pattern[1..], name[1..], cs)
  {
    if SomePrefix(pattern, name, cs) {
      var n :| 0 <= n <= |name| && Matches(pattern, name[..n], cs);
      assert name[..n][1..] == name[1..][..n - 1];
    }
    if name != [] && Fold(pattern[0], cs) == Fold(name[0], cs) && SomePrefix(pattern[1..], name[1..], cs) {
      var n :| 0 <= n <= |name| - 1 && Matches(pattern[1..], name[1..][..n], cs);
      assert name[..n + 1][1..] == name[1..][..n];
      assert Matches(pattern, name[..n + 1], cs);
    }
  }

  /** A run of ordinary characters in front. */
  lemma {:induction false} RunStep(lit: string, rest: string, name: string, cs: bool)
    requires '*' !in lit
    ensures SomePrefix(lit + rest, name, cs) <==> LiesAt(name, lit, 0, cs) && SomePrefix(rest, name[|lit|..], cs)
  {
    hide SomePrefix, Matches, Fold;
    if lit == [] {
      assert lit + rest == rest && name[0..] == name;
    } else {
      assert (lit + rest)[1..] == lit[1..] + rest;
      CharStep(lit + rest, name, cs);
      if name != [] {
        RunStep(lit[1..], rest, name[1..], cs);
        AlikeStep(name, lit, cs);
        if |lit| <= |name| {
          assert name[1..][|lit[1..]|..] == name[|lit|..];
        }
      }
    }
  }

  lemma AlikeStep(name: string, lit: string, cs: bool)
    requires name != [] && lit != []
    ensures LiesAt(name, lit, 0, cs) <==> Fold(lit[0], cs) == Fold(name[0], cs) && LiesAt(name[1..], lit[1..], 0, cs)
  {
    hide Fold;
    if LiesAt(name[1..], lit[1..], 0, cs) && Fold(lit[0], cs) == Fold(name[0], cs) {
      forall j | 0 <= j < |lit|
        ensures Fold(lit[j], cs) == Fold(name[0 + j], cs)
      {
        assert j > 0 ==> lit[j] == lit[1..][j - 1] && name[j] == name[1..][0 + (j - 1)];
      }
    }
    if LiesAt(name, lit, 0, cs) {
      forall j | 0 <= j < |lit[1..]|
        ensures Fold(lit[1..][j], cs) == Fold(name[1..][0 + j], cs)
      {
        assert lit[1..][j] == lit[j + 1] && name[1..][j] == name[0 + (j + 1)];
      }
    }
  }

  /** A pattern that is empty or starts with a star matches at least as well further to the left. */
  lemma LeftIsBetter(rest: string, name: string, j: nat, k: nat, cs: bool)
    requires j <= k <= |name| && (rest == [] || rest[0] == '*') && SomePrefix(rest, name[k..], cs)
    ensures SomePrefix(rest, name[j..], cs)
  {
    if rest == [] {
      assert Matches(rest, name[j..][..0], cs);
    } else {
      hide SomePrefix;
      StarSkips(rest, name[k..], cs);
      var m :| 0 <= m <= |name| - k && SomePrefix(rest[1..], name[k..][m..], cs);
      assert name[k..][m..] == name[j..][m + k - j..];
      StarSkips(rest, name[j..], cs);
    }
  }

  /** Behind a star, a run that is followed by nothing or by another star may be taken where it first lies. */
  lemma FirstPlaceServes(lit: string, rest: string, name: string, at: nat, cs: bool)
    requires '*' !in lit && (rest == [] || rest[0] == '*')
    requires LiesAt(name, lit, at, cs) && forall i :: 0 <= i < at ==> !LiesAt(name, lit, i, cs)
    ensures SomePrefix(['*'] + (lit + rest), name, cs) <==> SomePrefix(rest, name[at + |lit|..], cs)
  {
    hide SomePrefix, Matches, LiesAt;
    var pattern := ['*'] + (lit + rest);
    assert pattern[1..] == lit + rest;
    StarSkips(pattern, name, cs);
    RunStep(lit, rest, name[at..], cs);
    LiesShifted(name, lit, at, cs);
    if SomePrefix(pattern, name, cs) {
      var k :| 0 <= k <= |name| && SomePrefix(lit + rest, name[k..], cs);
      RunStep(lit, rest, name[k..], cs);
      LiesShifted(name, lit, k, cs);
      LeftIsBetter(rest, name, at + |lit|, k + |lit|, cs);
    }
  }

  lemma LiesShifted(name: string, lit: string, k: nat, cs: bool)
    requires k <= |name|
    ensures LiesAt(name[k..], lit, 0, cs) <==> LiesAt(name, lit, k, cs)
    ensures k + |lit| <= |name| ==> name[k..][|lit|..] == name[k + |lit|..]
  {
    hide Fold;
    var tail := name[k..];
    if k + |lit| <= |name| {
      forall j | 0 <= j < |lit|
        ensures Fold(lit[j], cs) == Fold(tail[0 + j], cs) <==> Fold(lit[j], cs) == Fold(name[k + j], cs)
      {
      }
    }
  }

  lemma NoPlaceFails(lit: string, rest: string, name: string, cs: bool)
    requires '*' !in lit && forall i :: 0 <= i <= |name| ==> !LiesAt(name, lit, i, cs)
    ensures !SomePrefix(['*'] + (lit + rest), name, cs)
  {
    hide SomePrefix, Matches, LiesAt;
    var pattern := ['*'] + (lit + rest);
    assert pattern[1..] == lit + rest;
    StarSkips(pattern, name, cs);
    forall k | 0 <= k <= |name|
      ensures !SomePrefix(lit + rest, name[k..], cs)
    {
      RunStep(lit, rest, name[k..], cs);
      LiesShifted(name, lit, k, cs);
    }
  }

  /** With a star at its end a pattern speaks about the whole name. */
  lemma {:induction false} TrailingStar(pattern: string, name: string, cs: bool)
    requires pattern != [] && pattern[|pattern| - 1] == '*'
    ensures SomePrefix(pattern, name, cs) <==> Matches(pattern, name, cs)
    decreases |pattern|
  {
    if pattern[0] == '*' {
      StarSkips(pattern, name, cs);
      forall k | 0 <= k <= |name|
        ensures SomePrefix(pattern[1..], name[k..], cs) ==>
                  exists m :: 0 <= m <= |name| && Matches(pattern[1..], name[m..], cs)
      {
        if |pattern| == 1 {
          assert name[|name|..] == [];
          assert Matches(pattern[1..], name[|name|..], cs);
        } else {
          TrailingStar(pattern[1..], name[k..], cs);
        }
      }
    } else {
      CharStep(pattern, name, cs);
      if name != [] {
        TrailingStar(pattern[1..], name[1..], cs);
      }
    }
    assert name[..|name|] == name;
  }

  /** The pattern without its stars. */
  function Stars(pattern: string): string {
    if pattern == [] then [] else (if pattern[0] == '*' then [] else [pattern[0]]) + Stars(pattern[1..])
  }

  /** Every star may stand for nothing. */
  lemma {:induction false} MatchesItself(pattern: string, cs: bool)
    ensures Matches(pattern, Stars(pattern), cs)
    decreases pattern
  {
    if pattern != [] {
      MatchesItself(pattern[1..], cs);
      var name := Stars(pattern);
      if pattern[0] == '*' {
        assert name == Stars(pattern[1..]) && name[0..] == name;
      } else {
        assert name[1..] == Stars(pattern[1..]);
      }
    }
  }

  /** A pattern whose last character is ordinary matches only names that end in that character. */
  lemma {:induction false} LastMatches(pattern: string, name: string, cs: bool)
    requires Matches(pattern, name, cs) && pattern != [] && pattern[|pattern| - 1] != '*'
    ensures name != [] && Fold(name[|name| - 1], cs) == Fold(pattern[|pattern| - 1], cs)
    decreases |pattern|
  {
    hide Fold;
    if pattern[0] == '*' {
      var k :| 0 <= k <= |name| && Matches(pattern[1..], name[k..], cs);
      LastMatches(pattern[1..], name[k..], cs);
    } else if |pattern| == 1 {
      assert name[1..] == [];
    } else {
      LastMatches(pattern[1..], name[1..], cs);
    }
  }

  function Other(c: char): char { if c == '0' then '1' else '0' }

  /** Without a star at its end some name begins with a match but does not match: what the pattern matches with its
      stars empty, and one more character. */
  lemma OpenEnd(pattern: string, cs: bool) returns (name: string)
    requires pattern == [] || pattern[|pattern| - 1] != '*'
    ensures SomePrefix(pattern, name, cs) && !Matches(pattern, name, cs)
  {
    var begin := Stars(pattern);
    var c := if pattern == [] then '0' else Other(pattern[|pattern| - 1]);
    name := begin + [c];
    MatchesItself(pattern, cs);
    assert name[..|begin|] == begin;
    if pattern != [] && Matches(pattern, name, cs) {
      LastMatches(pattern, name, cs);
    }
  }

  /** Com_Filter decides whether the whole name matches, for all names, if and only if the pattern ends with a star. */
  lemma WholeNameIff(pattern: string, cs: bool)
    ensures (forall name :: SomePrefix(pattern, name, cs) <==> Matches(pattern, name, cs))
            <==> pattern != [] && pattern[|pattern| - 1] == '*'
  {
    hide SomePrefix, Matches;
    if pattern != [] && pattern[|pattern| - 1] == '*' {
      forall name
        ensures SomePrefix(pattern, name, cs) <==> Matches(pattern, name, cs)
      {
        TrailingStar(pattern, name, cs);
      }
    } else {
      var name := OpenEnd(pattern, cs);
    }
  }

  // ---------------------------------------------------------------------------------------------
  // The program

  /** Com_StringContains: the first place where `lit` lies, or -1. */
  method StringContains(name: string, lit: string, caseSensitive: bool) returns (at: int)
    ensures at < 0 ==> forall i :: 0 <= i <= |name| ==> !LiesAt(name, lit, i, caseSensitive)
    ensures at >= 0 ==> LiesAt(name, lit, at, caseSensitive)
                        && forall i :: 0 <= i < at ==> !LiesAt(name, lit, i, caseSensitive)
  {
    hide Fold;
    var len := |name| - |lit|;
    at := 0;
    while at <= len
      invariant 0 <= at && forall i :: 0 <= i < at ==> !LiesAt(name, lit, i, caseSensitive)
    {
      var j := 0;
      while j < |lit| && Fold(name[at + j], caseSensitive) == Fold(lit[j], caseSensitive)
        invariant 0 <= j <= |lit|
        invariant forall i :: 0 <= i < j ==> Fold(lit[i], caseSensitive) == Fold(name[at + i], caseSensitive)
      {
        j := j + 1;
      }
      if j == |lit| {
        return;
      }
      at := at + 1;
    }
    at := -1;
  }

  /** No run of ordinary characters behind a star overflows the buffer of Com_Filter. */
  predicate RunsFit(pattern: string) {
    forall i, j :: 0 <= i < j <= |pattern| && IsRun(pattern, i, j) ==> j - i - 1 < MAX_TOKEN_CHARS
  }

  predicate IsRun(pattern: string, i: nat, j: nat)
    requires i < j <= |pattern|
  {
    pattern[i] == '*' && '*' !in pattern[i + 1..j]
  }

  /** The inner loop of Com_Filter: copies the run behind a star. */
  method CopyRun(pattern: string, star: nat, buf: array<char>) returns (next: nat)
    requires star < |pattern| && pattern[star] == '*' && RunsFit(pattern) && buf.Length == MAX_TOKEN_CHARS
    requires '?' !in pattern
    modifies buf
    ensures star < next <= |pattern| && next - star - 1 < MAX_TOKEN_CHARS
    ensures buf[..next - star - 1] == pattern[star + 1..next] && '*' !in pattern[star + 1..next]
    ensures next < |pattern| ==> pattern[next] == '*'
  {
    next := star + 1;
    while next < |pattern|
      invariant star < next <= |pattern| && next - star - 1 < MAX_TOKEN_CHARS
      invariant buf[..next - star - 1] == pattern[star + 1..next] && '*' !in pattern[star + 1..next]
    {
      if pattern[next] == '*' || pattern[next] == '?' {
        break;
      }
      buf[next - star - 1] := pattern[next];
      next := next + 1;
      assert pattern[star + 1..next] == pattern[star + 1..next - 1] + [pattern[next - 1]];
      assert IsRun(pattern, star, next);
    }
  }

  /** No bracket stands in front of the first star; behind a star it is copied like any character. */
  predicate BracketsBehindStar(pattern: string) {
    forall i :: 0 <= i < |pattern| && pattern[i] == '[' ==> '*' in pattern[..i]
  }

  /** Com_Filter: without backtracking, it tells whether some prefix of the name matches. */
  method ComFilter(pattern: string, name: string, caseSensitive: bool) returns (ok: bool)
    requires '?' !in pattern && BracketsBehindStar(pattern) && RunsFit(pattern)
    ensures ok == SomePrefix(pattern, name, caseSensitive)
  {
    hide SomePrefix, Matches, Fold, LiesAt, RunsFit;
    var buf := new char[MAX_TOKEN_CHARS];
    var f, n := 0, 0;
    assert pattern[0..] == pattern && name[0..] == name;
    while f < |pattern|
      invariant 0 <= f <= |pattern| && 0 <= n <= |name|
      // an ordinary character is met only in front of the first star
      invariant f == |pattern| || pattern[f] == '*' || '*' !in pattern[..f]
      invariant SomePrefix(pattern[f..], name[n..], caseSensitive) == SomePrefix(pattern, name, caseSensitive)
      decreases |pattern| - f
    {
      if pattern[f] == '*' {
        var next := CopyRun(pattern, f, buf);
        var lit := buf[..next - f - 1];
        assert pattern[f..] == ['*'] + (lit + pattern[next..]);
        if lit != [] {
          var at := StringContains(name[n..], lit, caseSensitive);
          if at < 0 {
            NoPlaceFails(lit, pattern[next..], name[n..], caseSensitive);
            return false;
          }
          FirstPlaceServes(lit, pattern[next..], name[n..], at, caseSensitive);
          assert name[n..][at + |lit|..] == name[n + at + |lit|..];
          n := n + at + |lit|;
        } else {
          LiesEmpty(name[n..], caseSensitive);
          FirstPlaceServes(lit, pattern[next..], name[n..], 0, caseSensitive);
          assert name[n..][0 + |lit|..] == name[n..];
        }
        f := next;
      } else {
        assert pattern[f] != '[';
        assert pattern[..f + 1] == pattern[..f] + [pattern[f]];
        CharStep(pattern[f..], name[n..], caseSensitive);
        assert pattern[f..][1..] == pattern[f + 1..];
        if n == |name| || Fold(pattern[f], caseSensitive) != Fold(name[n], caseSensitive) {
          return false;
        }
        assert name[n..][1..] == name[n + 1..];
        f, n := f + 1, n + 1;
      }
    }
    assert pattern[f..] == [];
    EmptyPattern(name[n..], caseSensitive);
    ok := true;
  }

  lemma LiesEmpty(name: string, cs: bool)
    ensures LiesAt(name, [], 0, cs)
  {
  }

  lemma EmptyPattern(name: string, cs: bool)
    ensures SomePrefix([], name, cs)
  {
    assert Matches([], name[..0], cs);
  }
}
