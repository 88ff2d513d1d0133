/** Which texts count as integers, and what they are read as. */
module NumberText {
  import opened CString

  // ---------------------------------------------------------------------------------------------
  // What counts as an integer

  predicate Ends(c: char) { c == ' ' || c == '\n' || c == '\r' }

  function Signs(s: string, n: nat): nat
    requires n <= |s|
  {
    if n == 0 then 0 else Signs(s, n - 1) + if s[n - 1] == '-' then 1 else 0
  }

  /** Digits and at most so many signs, up to the end of the text, a blank or the end of the line. */
  ghost predicate Number(s: string, n: nat, most: nat) { DigitsTo(s, n) && Signs(s, n) <= most }

  ghost predicate IsNumber(s: string, most: nat) { exists n: nat :: Number(s, n, most) }

  ghost predicate DigitsTo(s: string, n: nat) {
    && n <= |s| && (n < |s| ==> Ends(s[n])) && forall k :: 0 <= k < n ==> s[k] == '-' || '0' <= s[k] <= '9'
  }

  lemma {:induction false} SignsFirst(s: string, n: nat)
    requires 0 < n <= |s|
    ensures Signs(s, n) == (if s[0] == '-' then 1 else 0) + Signs(s[1..], n - 1)
  {
    if n > 1 {
      SignsFirst(s, n - 1);
      assert s[1..][n - 2] == s[n - 1];
    }
  }

  lemma DigitsFirst(s: string, n: nat)
    requires s != [] && !Ends(s[0])
    ensures DigitsTo(s, n) <==> n > 0 && (s[0] == '-' || '0' <= s[0] <= '9') && DigitsTo(s[1..], n - 1)
  {
    if n > 0 && (s[0] == '-' || '0' <= s[0] <= '9') && DigitsTo(s[1..], n - 1) {
      forall k | 0 <= k < n
        ensures s[k] == '-' || '0' <= s[k] <= '9'
      {
        assert k > 0 ==> s[k] == s[1..][k - 1];
      }
    }
    if DigitsTo(s, n) && n > 0 {
      forall k | 0 <= k < n - 1
        ensures s[1..][k] == '-' || '0' <= s[1..][k] <= '9'
      {
        assert s[1..][k] == s[k + 1];
      }
    }
  }

  lemma DigitsNone(s: string, n: nat)
    requires s == [] || Ends(s[0])
    ensures DigitsTo(s, n) <==> n == 0
  {
    assert DigitsTo(s, 0) && Signs(s, 0) == 0;
  }

  lemma {:induction false} TailIff(s: string, signed: bool)
    ensures IntegerTail(s, signed) <==> IsNumber(s, if signed then 0 else 1)
    decreases |s|
  {
    hide Number;
    var left := if signed then 0 else 1;
    if s == [] || Ends(s[0]) {
      DigitsNone(s, 0);
      NumberIs(s, 0, left);
    } else {
      var rest, next := s[1..], signed || s[0] == '-';
      TailIff(rest, next);
      var more := if next then 0 else 1;
      if n: nat :| Number(rest, n, more) {
        NumberIs(rest, n, more);
        NumberMore(s, n, left);
      }
      if n: nat :| Number(s, n, left) {
        NumberLess(s, n, left);
      }
    }
  }

  lemma NumberIs(s: string, n: nat, most: nat)
    ensures Number(s, n, most) <==> DigitsTo(s, n) && Signs(s, n) <= most
  {
  }

  lemma NumberMore(s: string, n: nat, left: nat)
    requires s != [] && !Ends(s[0]) && left <= 1
    requires Number(s[1..], n, if left == 0 || s[0] == '-' then 0 else 1)
    ensures IntegerTail(s, left == 0) && IntegerTail(s[1..], left == 0 || s[0] == '-') ==> Number(s, n + 1, left)
  {
    hide DigitsTo;
    DigitsFirst(s, n + 1);
    DigitsBound(s[1..], n);
    SignsFirst(s, n + 1);
  }

  lemma NumberLess(s: string, n: nat, left: nat)
    requires s != [] && !Ends(s[0]) && left <= 1 && Number(s, n, left)
    ensures n > 0 && (s[0] == '-' || '0' <= s[0] <= '9') && (s[0] == '-' ==> left == 1)
    ensures Number(s[1..], n - 1, if left == 0 || s[0] == '-' then 0 else 1)
  {
    hide DigitsTo;
    DigitsFirst(s, n);
    DigitsBound(s, n);
    SignsFirst(s, n);
  }

  lemma DigitsBound(s: string, n: nat)
    requires DigitsTo(s, n)
    ensures n <= |s|
  {
  }

  /** A text counts as an integer if behind leading blanks there is nothing but digits and at most one sign, anywhere
      among them, up to its end, a blank or the end of the line. */
  lemma IntegerIff(s: string)
    ensures var t := SkipSpaces(s); IsInteger(s) <==> IsNumber(t, 1)
  {
    hide Number;
    TailIff(SkipSpaces(s), false);
  }

  lemma {:induction false} SpacesSkipped(blanks: string, s: string)
    requires (forall i :: 0 <= i < |blanks| ==> blanks[i] == ' ') && (s == [] || s[0] != ' ')
    ensures SkipSpaces(blanks + s) == s
    decreases blanks
  {
    if blanks == [] {
      assert blanks + s == s;
    } else {
      assert (blanks + s)[1..] == blanks[1..] + s;
      SpacesSkipped(blanks[1..], s);
    }
  }

  // ---------------------------------------------------------------------------------------------
  // What it is read as

  /** Blank, tabs, line and form feeds, carriage return. */
  predicate White(c: char) { c as int in {9, 10, 11, 12, 13, 32} }

  lemma {:induction false} WhiteSkipped(white: string, s: string)
    requires (forall i :: 0 <= i < |white| ==> White(white[i])) && (s == [] || !White(s[0]))
    ensures SkipWhite(white + s) == s
    decreases white
  {
    if white == [] {
      assert white + s == s;
    } else {
      assert (white + s)[1..] == white[1..] + s;
      WhiteSkipped(white[1..], s);
    }
  }

  lemma {:induction false} DigitsStop(d: string, tail: string, acc: nat)
    requires AllDigits(d) && (tail == [] || !('0' <= tail[0] <= '9'))
    ensures Digits(d + tail, acc) == Digits(d, acc)
    decreases d
  {
    if d == [] {
      assert d + tail == tail;
    } else {
      assert (d + tail)[1..] == d[1..] + tail;
      DigitsStop(d[1..], tail, 10 * acc + (d[0] as int - 48));
    }
  }

  /** The nearest int: strtol does not wrap around. */
  lemma SaturateIs(v: int)
    ensures -0x8000_0000 <= Saturate(v) <= 0x7fff_ffff
    ensures -0x8000_0000 <= v <= 0x7fff_ffff ==> Saturate(v) == v
    ensures v > 0x7fff_ffff ==> Saturate(v) == 0x7fff_ffff
    ensures v < -0x8000_0000 ==> Saturate(v) == -0x8000_0000
  {
  }

  datatype Sign = None | Plus | Minus

  function SignText(sign: Sign): string {
    match sign
    case None => ""
    case Plus => "+"
    case Minus => "-"
  }

  /** White space, a sign, the digits of a number and anything that is no digit behind them are read as that number. */
  lemma AtoiReads(white: string, sign: Sign, n: nat, tail: string)
    requires forall i :: 0 <= i < |white| ==> White(white[i])
    requires tail == [] || !('0' <= tail[0] <= '9')
    ensures Atoi(white + (SignText(sign) + (DecNat(n) + tail)))
         == Saturate(if sign.Minus? then -(n as int) else n as int)
  {
    hide DecNat, Digits;
    var d := DecNat(n);
    DecNatDigits(n);
    DigitsDecNat(n);
    DigitsStop(d, tail, 0);
    var rest := SignText(sign) + (d + tail);
    assert '0' <= d[0] <= '9' && (d + tail)[0] == d[0];
    assert sign.None? ==> rest == d + tail;
    assert !sign.None? ==> rest[1..] == d + tail;
    WhiteSkipped(white, rest);
  }

  /** Some numbers in decimal: no zeros in front, and a sign only where it is needed. */
  lemma DecSamples()
    ensures Dec(0) == "0" && Dec(7) == "7" && Dec(-7) == "-7" && Dec(120) == "120"
  {
    assert DecNat(12) == DecNat(1) + "2" && DecNat(120) == DecNat(12) + "0";
  }
}
