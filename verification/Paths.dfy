/** The path comparisons of src/filesystem.c: case and separator characters do not count. */
module Paths {
  import opened CString

  /** The character as the comparisons see it. */
  function Canon(c: char): char {
    var u := Upper(c);
    if u == '\\' || u == ':' then '/' else u
  }

  /** !FS_FilenameCompare(a, b) */
  predicate Same(a: string, b: string) {
    |a| == |b| && forall i :: 0 <= i < |a| ==> Canon(a[i]) == Canon(b[i])
  }

  /** The value compared at a position; behind the end it is the terminating zero. */
  function At(s: string, i: nat): int { if i < |s| then Signed(Canon(s[i])) else 0 }

  /** FS_PathCmp from position `i` on. */
  function CompareFrom(a: string, b: string, i: nat): (c: int)
    ensures -1 <= c <= 1
    decreases |a| - i
  {
    if At(a, i) < At(b, i) then -1
    else if At(a, i) > At(b, i) then 1
    else if At(a, i) == 0 then 0
    else CompareFrom(a, b, i + 1)
  }

  function Compare(a: string, b: string): (c: int)
    ensures -1 <= c <= 1
  {
    CompareFrom(a, b, 0)
  }

  /** Strings as C has them: bytes, without the terminator. */
  predicate IsCString(s: string) { forall i :: 0 <= i < |s| ==> 0 < s[i] as int < 256 }

  // ---------------------------------------------------------------------------------------------
  // The comparison is a total preorder, and its ties are the equal names

  lemma {:induction false} CompareAntisymmetric(a: string, b: string, i: nat)
    ensures CompareFrom(b, a, i) == -CompareFrom(a, b, i)
    decreases |a| - i
  {
    if At(a, i) == At(b, i) != 0 {
      CompareAntisymmetric(a, b, i + 1);
    }
  }

  lemma {:induction false} CompareTransitive(a: string, b: string, c: string, i: nat)
    requires CompareFrom(a, b, i) <= 0 && CompareFrom(b, c, i) <= 0
    ensures CompareFrom(a, c, i) <= 0
    ensures CompareFrom(a, b, i) < 0 || CompareFrom(b, c, i) < 0 ==> CompareFrom(a, c, i) < 0
    decreases |a| - i
  {
    if At(a, i) == At(b, i) == At(c, i) != 0 {
      CompareTransitive(a, b, c, i + 1);
    }
  }

  lemma {:induction false} TiesAgree(a: string, b: string, i: nat)
    requires IsCString(a) && IsCString(b) && i <= |a| && i <= |b|
    ensures CompareFrom(a, b, i) == 0
            <==> |a| == |b| && forall j :: i <= j < |a| ==> Canon(a[j]) == Canon(b[j])
    decreases |a| - i
  {
    if i < |a| && i < |b| && At(a, i) == At(b, i) {
      TiesAgree(a, b, i + 1);
    }
  }

  lemma CompareIsSame(a: string, b: string)
    requires IsCString(a) && IsCString(b)
    ensures Compare(a, b) == 0 <==> Same(a, b)
  {
    TiesAgree(a, b, 0);
  }

  /** Letters count as their capitals, the three separators as one, and every other character as itself. */
  lemma CanonIs(c: char)
    ensures 'a' <= c <= 'z' ==> 'A' <= Canon(c) <= 'Z' && Canon(c) as int - 'A' as int == c as int - 'a' as int
    ensures c in "/\\:" ==> Canon(c) == '/'
    ensures !('a' <= c <= 'z') && c !in "/\\:" ==> Canon(c) == c
  {
  }

  /** Equal up to there. */
  ghost predicate Alike(a: string, b: string, p: nat) {
    p <= |a| && p <= |b| && forall i :: 0 <= i < p ==> Canon(a[i]) == Canon(b[i])
  }

  /** At `p` the first text has the smaller character, of signed ones, or ends in front of a positive one, or goes on
      with a negative one where the second ends. */
  ghost predicate Before(a: string, b: string, p: nat)
    requires p <= |a| && p <= |b|
  {
    || (p < |a| && p < |b| && Signed(Canon(a[p])) < Signed(Canon(b[p])))
    || (p == |a| < |b| && Signed(Canon(b[p])) > 0)
    || (p == |b| < |a| && Signed(Canon(a[p])) < 0)
  }

  lemma {:induction false} FirstDifference(a: string, b: string, i: nat)
    requires IsCString(a) && IsCString(b) && Alike(a, b, i)
    ensures CompareFrom(a, b, i) < 0 <==> exists p :: i <= p && Alike(a, b, p) && Before(a, b, p)
    decreases |a| - i
  {
    hide Canon;
    if i < |a| {
      CanonNotZero(a[i]);
    }
    if i < |b| {
      CanonNotZero(b[i]);
    }
    if At(a, i) == At(b, i) != 0 {
      FirstDifference(a, b, i + 1);
    } else if Before(a, b, i) {
      assert Alike(a, b, i) && Before(a, b, i);
    }
  }

  lemma CanonNotZero(c: char)
    requires 0 < c as int < 256
    ensures Signed(Canon(c)) != 0 && 0 < Canon(c) as int < 256
    ensures forall d: char :: 0 < d as int < 256 && Signed(Canon(c)) == Signed(Canon(d)) ==> Canon(c) == Canon(d)
  {
  }

  /** The sign of a comparison: smaller is the text that has the smaller character where the two first differ. */
  lemma SmallerIff(a: string, b: string)
    requires IsCString(a) && IsCString(b)
    ensures Compare(a, b) < 0 <==> exists p :: 0 <= p && Alike(a, b, p) && Before(a, b, p)
  {
    FirstDifference(a, b, 0);
  }

  // ---------------------------------------------------------------------------------------------
  // The program

  /** FS_FilenameCompare: whether the names differ. */
  method FilenameCompare(a: string, b: string) returns (differ: bool)
    requires IsCString(a) && IsCString(b)
    ensures differ == !Same(a, b)
  {
    var i := 0;
    while true
      invariant 0 <= i <= |a| && i <= |b| && forall j :: 0 <= j < i ==> Canon(a[j]) == Canon(b[j])
      decreases |a| - i
    {
      if At(a, i) != At(b, i) {
        return true;
      }
      if At(a, i) == 0 {
        return false;
      }
      i := i + 1;
    }
  }

  /** FS_PathCmp. */
  method PathCmp(a: string, b: string) returns (c: int)
    ensures c == Compare(a, b)
  {
    var i := 0;
    while true
      invariant 0 <= i && Compare(a, b) == CompareFrom(a, b, i)
      decreases |a| - i
    {
      if At(a, i) < At(b, i) {
        return -1;
      }
      if At(a, i) > At(b, i) {
        return 1;
      }
      if At(a, i) == 0 {
        return 0;
      }
      i := i + 1;
    }
  }
}
