/** C string comparison and parsing helpers of src/qshared.c and the C library. */
module CString {

  /** The value of a `char`, which is signed. */
  function Signed(c: char): int { if c as int < 128 then c as int else c as int - 256 }

  /** Q_stricmp's folding: only a-z is raised. */
  function Upper(c: char): char { if 'a' <= c <= 'z' then (c as int - 32) as char else c }

  /** tolower in the C locale. */
  function Lower(c: char): char { if 'A' <= c <= 'Z' then (c as int + 32) as char else c }

  /** The byte as a number from -128 to 127. */
  lemma SignedIs(c: char)
    requires c as int < 256
    ensures -128 <= Signed(c) < 128 && (Signed(c) - c as int) % 256 == 0
  {
  }

  /** A letter and its capital. */
  lemma LetterCases(i: nat)
    requires i < 26
    ensures var small, capital := ('a' as int + i) as char, ('A' as int + i) as char;
            Upper(small) == capital == Upper(capital) && Lower(capital) == small == Lower(small)
  {
  }

  /** No other character has two forms. */
  lemma OtherCases(c: char)
    requires !('a' <= c <= 'z') && !('A' <= c <= 'Z')
    ensures Upper(c) == c == Lower(c)
  {
  }

  lemma FoldsAgree(a: char, b: char)
    ensures Upper(a) == Upper(b) <==> Lower(a) == Lower(b)
  {
  }

  /** !Q_stricmp(a, b) */
  predicate EqualFold(a: string, b: string) {
    |a| == |b| && forall i :: 0 <= i < |a| ==> Upper(a[i]) == Upper(b[i])
  }

  /** Skips the blanks isInteger skips in front. */
  function SkipSpaces(s: string): string {
    if s != [] && s[0] == ' ' then SkipSpaces(s[1..]) else s
  }

  /** isInteger behind leading blanks; `signed` tells that the one sign has been met. */
  predicate IntegerTail(s: string, signed: bool) {
    if s == [] || s[0] == '\n' || s[0] == '\r' || s[0] == ' ' then true
    else if s[0] == '-' && !signed then IntegerTail(s[1..], true)
    else '0' <= s[0] <= '9' && IntegerTail(s[1..], signed)
  }

  predicate IsInteger(s: string) { IntegerTail(SkipSpaces(s), false) }

  predicate IsSpace(c: char) { c == ' ' || '\t' <= c <= '\r' }

  function SkipWhite(s: string): string {
    if s != [] && IsSpace(s[0]) then SkipWhite(s[1..]) else s
  }

  function Digits(s: string, acc: nat): nat {
    if s != [] && '0' <= s[0] <= '9' then Digits(s[1..], 10 * acc + (s[0] as int - 48)) else acc
  }

  /** strtol of a 32-bit long saturates. */
  function Saturate(v: int): int {
    if v > 0x7fff_ffff then 0x7fff_ffff else if v < -0x8000_0000 then -0x8000_0000 else v
  }

  function Atoi(s: string): int {
    var t := SkipWhite(s);
    if t != [] && t[0] == '-' then Saturate(-(Digits(t[1..], 0) as int))
    else if t != [] && t[0] == '+' then Saturate(Digits(t[1..], 0))
    else Saturate(Digits(t, 0))
  }

  function DigitChar(d: nat): char
    requires d < 10
  {
    (48 + d) as char
  }

  /** "%d" of a non-negative number. */
  function DecNat(n: nat): (s: string)
    ensures s != []
  {
    if n < 10 then [DigitChar(n)] else DecNat(n / 10) + [DigitChar(n % 10)]
  }

  /** "%d" */
  function Dec(v: int): string { if v < 0 then "-" + DecNat(-v) else DecNat(v) }

  predicate AllDigits(s: string) { forall i :: 0 <= i < |s| ==> '0' <= s[i] <= '9' }

  lemma {:induction false} DecNatDigits(n: nat)
    ensures AllDigits(DecNat(n))
  {
    if n >= 10 {
      DecNatDigits(n / 10);
    }
  }

  lemma {:induction false} DigitsIntegerTail(s: string, signed: bool)
    requires AllDigits(s)
    ensures IntegerTail(s, signed)
  {
    if s != [] {
      DigitsIntegerTail(s[1..], signed);
    }
  }

  lemma {:induction false} DigitsAppend(s: string, d: nat, acc: nat)
    requires AllDigits(s) && d < 10
    ensures Digits(s + [DigitChar(d)], acc) == 10 * Digits(s, acc) + d
  {
    if s == [] {
      assert (s + [DigitChar(d)])[1..] == [];
    } else {
      assert (s + [DigitChar(d)])[1..] == s[1..] + [DigitChar(d)];
      DigitsAppend(s[1..], d, 10 * acc + (s[0] as int - 48));
    }
  }

  lemma {:induction false} DigitsDecNat(n: nat)
    ensures Digits(DecNat(n), 0) == n
  {
    if n >= 10 {
      DigitsDecNat(n / 10);
      DecNatDigits(n / 10);
      DigitsAppend(DecNat(n / 10), n % 10, 0);
    }
  }

  /** Every C int is read back from its decimal form. */
  lemma DecRoundTrip(v: int)
    requires -0x8000_0000 <= v <= 0x7fff_ffff
    ensures IsInteger(Dec(v)) && Atoi(Dec(v)) == v
  {
    var n := if v < 0 then -v else v;
    DecNatDigits(n);
    DigitsDecNat(n);
    DigitsIntegerTail(DecNat(n), true);
    DigitsIntegerTail(DecNat(n), false);
    if v < 0 {
      assert Dec(v)[1..] == DecNat(n);
    }
  }
}
