/** A registry with a line that does not fit never has all its values back. */
module LostValues {
  import opened CString
  import opened CommandBuffer
  import opened Tokenizer
  import opened Cvars
  import opened Config
  import opened OtherCommands
  import opened ConfigLimit

  // ---------------------------------------------------------------------------------------------
  // A line that goes on behind the end of a saved one

  predicate EndsQuote(h: string) { h != [] && h[|h| - 1] == '"' }

  /** A quote that is not the last character has a blank in front of it: it is the opening one of a saved line. */
  ghost predicate OpensBlank(h: string) { forall i :: 1 <= i < |h| - 1 && h[i] == '"' ==> h[i - 1] <= ' ' }

  /** What follows the newline of a saved line: another one, or the end of the text. No comment can end here at once. */
  ghost predicate Behind(w: string) {
    && (w == [] || w == "\n" || w[0] == 's')
    && forall k :: 0 <= k < 5 && k < |w| ==> w[k] != '*'
  }

  lemma {:induction false} SkipBlanksOn(h: string, z: string)
    requires EndsQuote(h)
    ensures SkipBlanks(h + z) == SkipBlanks(h) + z && EndsQuote(SkipBlanks(h))
  {
    if h[0] <= ' ' {
      assert (h + z)[1..] == h[1..] + z;
      SkipBlanksOn(h[1..], z);
    }
  }

  lemma SameComments(h: string, z: string)
    requires EndsQuote(h)
    ensures SlashComment(h + z) == SlashComment(h) && StarComment(h + z) == StarComment(h)
    ensures CommentEnd(h + z) == CommentEnd(h) && (CommentEnd(h) ==> EndsQuote(h[2..]))
  {
  }

  /** A comment that ends here ends here; one that does not ends nowhere, or well behind the newline. */
  lemma {:induction false} CommentOn(h: string, w: string)
    requires EndsQuote(h) && Behind(w)
    ensures var e, e' := ToCommentEnd(h), ToCommentEnd(h + ("\n" + w));
            if e != [] then e' == e + ("\n" + w) && EndsQuote(e) && CommentEnd(e) else |e'| <= |w| - 5 || e' == []
  {
    var z := "\n" + w;
    SameComments(h, z);
    if !CommentEnd(h) {
      assert (h + z)[1..] == h[1..] + z;
      if |h| == 1 {
        assert h[1..] + z == z;
        CommentBehind(w);
      } else {
        CommentOn(h[1..], w);
      }
    }
  }

  lemma CommentBehind(w: string)
    requires Behind(w)
    ensures var e := ToCommentEnd("\n" + w); |e| <= |w| - 5 || e == []
  {
    assert ("\n" + w)[1..] == w;
    CommentLater(w, 5);
  }

  lemma {:induction false} CommentLater(w: string, n: nat)
    requires forall k :: 0 <= k < n && k < |w| ==> w[k] != '*'
    ensures var e := ToCommentEnd(w); |e| <= |w| - n || e == []
    decreases n
  {
    if n > 0 && w != [] {
      CommentLater(w[1..], n - 1);
    }
  }

  /** The next token, if there is one in front of the newline, starts at the same place. */
  lemma {:induction false} StartOn(h: string, w: string)
    requires EndsQuote(h) && Behind(w)
    ensures var s, s' := TokenStart(h), TokenStart(h + ("\n" + w));
            if s != [] then s' == s + ("\n" + w) && EndsQuote(s) else |s'| <= |w| - 7 || s' == []
    decreases |h|
  {
    var z := "\n" + w;
    SkipBlanksOn(h, z);
    var b := SkipBlanks(h);
    SameComments(b, z);
    if !SlashComment(b) && StarComment(b) {
      CommentOn(b, w);
      var e := ToCommentEnd(b);
      if e != [] {
        SameComments(e, z);
        assert (e + z)[2..] == e[2..] + z;
        StartOn(e[2..], w);
      }
    }
  }

  lemma {:induction false} PlainLenOn(s: string, z: string, space: int)
    requires EndsQuote(s) && space > |s|
    ensures PlainLen(s + z, false, space) == PlainLen(s, false, space) < |s|
    decreases |s|
  {
    SameComments(s, z);
    if s[0] > ' ' && s[0] != '"' && !SlashComment(s) && !StarComment(s) {
      assert (s + z)[1..] == s[1..] + z;
      PlainLenOn(s[1..], z, space - 1);
    }
  }

  lemma {:induction false} QuotedLenOn(u: string, z: string, space: int)
    requires EndsQuote(u) && space > |u|
    ensures var n := QuotedLen(u, space); QuotedLen(u + z, space) == n && n < |u| && u[n] == '"'
    decreases |u|
  {
    if u[0] != '"' {
      assert (u + z)[1..] == u[1..] + z;
      QuotedLenOn(u[1..], z, space - 1);
    }
  }

  /** How the tokens `d` of a text that ends with a quote and the tokens `t` of the same text with a newline and more
      behind it differ: not at all; the next one is plain, and a character is wasted; the last one takes in the newline;
      or at least six characters are wasted. */
  ghost predicate Differ(d: seq<string>, t: seq<string>, size: nat) {
    || t == d
    || (d != [] && d <= t && |Layout(t)| < size && (|t| > |d| ==> Plain(t[|d|], false)))
    || TakesNewline(d, t)
    || |Layout(t)| + 5 <= size
  }

  ghost predicate TakesNewline(d: seq<string>, t: seq<string>) {
    d != [] && |t| >= |d| && d[..|d| - 1] == t[..|d| - 1] && '\n' in t[|d| - 1]
  }

  lemma LayoutFirst(token: string, rest: seq<string>)
    ensures |Layout([token] + rest)| == |token| + 1 + |Layout(rest)|
  {
    assert ([token] + rest)[1..] == rest;
  }

  lemma SurelyDiffer(d: seq<string>, t: seq<string>, size: nat)
    requires t == d || TakesNewline(d, t)
    ensures Differ(d, t, size)
  {
  }

  lemma DifferFirst(token: string, d: seq<string>, t: seq<string>, size: nat, more: nat)
    requires Differ(d, t, size) && (t == d || TakesNewline(d, t) || more >= size + |token| + 1)
    ensures Differ([token] + d, [token] + t, more)
  {
    hide Layout, Plain;
    LayoutFirst(token, t);
    if TakesNewline(d, t) {
      TakesFirst(token, d, t);
    } else if t != d && |Layout(t)| + 5 > size {
      assert [token] + d <= [token] + t && ([token] + t)[|d| + 1..] == t[|d|..];
    }
  }

  lemma TakesFirst(token: string, d: seq<string>, t: seq<string>)
    requires TakesNewline(d, t)
    ensures TakesNewline([token] + d, [token] + t)
  {
    var d', t' := [token] + d, [token] + t;
    assert d'[..|d'| - 1] == [token] + d[..|d| - 1] && t'[..|d'| - 1] == [token] + t[..|d| - 1];
  }

  lemma OpensBlankBehind(h: string, k: nat)
    requires OpensBlank(h) && k <= |h|
    ensures OpensBlank(h[k..])
  {
    var b := h[k..];
    forall i | 1 <= i < |b| - 1 && b[i] == '"'
      ensures b[i - 1] <= ' '
    {
      assert h[k + i] == b[i] && h[k + i - 1] == b[i - 1];
    }
  }

  /** A quoted token that is closed in front of the newline. */
  lemma QuotedOn(s: string, z: string, space: int)
    requires EndsQuote(s) && s[0] == '"' && |s| > 1 && space > |s| && OpensBlank(s)
    ensures var f, f' := FirstToken(s, false, space), FirstToken(s + z, false, space);
            && f' == f.(rest := f.rest + z) && |f.token| + 2 + |f.rest| == |s|
            && (f.rest == [] || (EndsQuote(f.rest) && OpensBlank(f.rest)))
  {
    hide QuotedLen, OpensBlank;
    var n := QuotedLen(s[1..], space);
    QuotedLenOn(s[1..], z, space);
    QuotedParts(s, z, n);
    assert s[1..][n..] != [] && s[n + 1..] + z != [];
    OpensBlankBehind(s, n + 2);
  }

  lemma QuotedParts(s: string, z: string, n: nat)
    requires n + 2 <= |s|
    ensures (s + z)[1..] == s[1..] + z && (s[1..] + z)[..n] == s[1..][..n]
    ensures s[1..][n..] == s[n + 1..] && s[n + 1..][1..] == s[n + 2..]
    ensures (s[1..] + z)[n..] == s[n + 1..] + z && (s[n + 1..] + z)[1..] == s[n + 2..] + z
  {
  }

  /** A plain token ends in front of the newline. */
  lemma PlainOn(s: string, z: string, space: int)
    requires EndsQuote(s) && s[0] > ' ' && s[0] != '"' && !SlashComment(s) && !StarComment(s)
    requires space > |s| && OpensBlank(s)
    ensures var f, f' := FirstToken(s, false, space), FirstToken(s + z, false, space);
            && f' == f.(rest := f.rest + z) && |f.token| + |f.rest| == |s| && |f.token| > 0
            && EndsQuote(f.rest) && OpensBlank(f.rest) && (f.rest == "\"" || |TokenStart(f.rest)| < |f.rest|)
  {
    hide PlainLen, TokenStart, SlashComment, StarComment;
    var n := PlainLen(s, false, space);
    PlainLenOn(s, z, space);
    PlainLenStarts(s, space);
    PlainStops(s, space);
    OpensBlankBehind(s, n);
    PlainLenChars(s, false, space);
    assert (s + z)[..n] == s[..n] && (s + z)[n..] == s[n..] + z;
    var r := s[n..];
    if r[0] == '"' {
      QuoteIsLast(s, n);
    } else if r[0] <= ' ' {
      BlankIsSkipped(r);
    } else {
      CommentIsSkipped(r);
    }
  }

  lemma QuoteIsLast(s: string, n: nat)
    requires OpensBlank(s) && 0 < n < |s| && s[n] == '"' && s[n - 1] > ' '
    ensures n == |s| - 1
  {
  }

  lemma PlainLenStarts(s: string, space: int)
    requires s != [] && s[0] > ' ' && s[0] != '"' && !SlashComment(s) && !StarComment(s) && space > 1
    ensures PlainLen(s, false, space) > 0
  {
  }

  /** The last quote opens a token that takes in the newline. */
  lemma OpenQuote(w: string, slots: nat, space: int)
    requires slots > 0 && space > |w| + 5
    ensures var z := "\n" + w; TakesNewline(Tokens("\"", false, slots, space), Tokens("\"" + z, false, slots, space))
  {
    var z := "\n" + w;
    assert ['"'] + "" == "\"" && ("\"" + z)[1..] == z;
    UnclosedFirst("", slots, space);
    QuoteStarts("\"" + z);
    NewlineQuoted(w, space);
    var n := QuotedLen(z, space);
    assert '\n' in z[..n] by {
      assert z[..n][0] == '\n';
    }
    hide QuotedLen;
    var f := FirstToken("\"" + z, false, space);
    assert f.token == z[..n];
    var d, t := [""], [f.token] + Tokens(f.rest, false, slots - 1, f.left);
    assert d[..0] == t[..0];
  }

  lemma NewlineQuoted(w: string, space: int)
    requires space > |w| + 5
    ensures 0 < QuotedLen("\n" + w, space) <= |w| + 1
  {
  }

  /** The first token behind the newline is plain. */
  lemma BehindPlain(w: string, slots: nat, space: int)
    requires Behind(w) && space >= 2
    ensures var t := Tokens("\n" + w, false, slots, space); t == [] || Plain(t[0], false)
  {
    hide PlainLen, Plain;
    var z := "\n" + w;
    assert z[1..] == w;
    var s := TokenStart(z);
    if s != [] {
      BehindStarts(w);
      PlainTokenIsPlain(s, false, space);
    }
  }

  lemma BehindStarts(w: string)
    requires Behind(w)
    ensures TokenStart("\n" + w) == if w == [] || w == "\n" then "" else w
  {
    var z := "\n" + w;
    assert z[1..] == w && SkipBlanks(z) == SkipBlanks(w);
    if w == "\n" {
      assert w[1..] == "" && SkipBlanks(w) == SkipBlanks("");
    }
  }

  lemma {:induction false} StartTwice(t: string)
    ensures TokenStart(TokenStart(t)) == TokenStart(t)
    decreases |t|
  {
    var b := SkipBlanks(t);
    if !SlashComment(b) && StarComment(b) && ToCommentEnd(b) != [] {
      StartTwice(ToCommentEnd(b)[2..]);
    }
  }

  lemma TokensOfStart(t: string, slots: nat, space: int)
    ensures Tokens(t, false, slots, space) == Tokens(TokenStart(t), false, slots, space)
  {
    hide TokenStart, FirstToken;
    StartTwice(t);
  }

  lemma TokensStep(s: string, slots: nat, space: int)
    requires slots > 0 && TokenStart(s) == s != [] && FirstToken(s, false, space).left >= 2
    ensures var f := FirstToken(s, false, space);
            Tokens(s, false, slots, space) == [f.token] + Tokens(f.rest, false, slots - 1, f.left)
  {
    hide TokenStart, FirstToken;
  }

  /** A token closed right in front of the newline. */
  lemma LastClosed(token: string, w: string, slots: nat, space: int, size: nat)
    requires Behind(w) && space >= 2 && size >= |token| + 3 + |w|
    ensures Differ([token], [token] + Tokens("\n" + w, false, slots, space), size)
  {
    hide Tokens, Layout, Plain, Behind;
    var r := Tokens("\n" + w, false, slots, space);
    TokensShort("\n" + w, slots, space);
    BehindPlain(w, slots, space);
    LayoutFirst(token, r);
    assert [token] <= [token] + r;
  }

  /** Behind an open comment. */
  lemma NothingOn(h: string, w: string, slots: nat, space: int, size: nat)
    requires EndsQuote(h) && Behind(w) && TokenStart(h) == [] && size > |w|
    ensures Differ(Tokens(h, false, slots, space), Tokens(h + ("\n" + w), false, slots, space), size)
  {
    hide Layout, Behind, TokenStart, FirstToken;
    var t := h + ("\n" + w);
    StartOn(h, w);
    TokensOfStart(t, slots, space);
    TokensShort(TokenStart(t), slots, space);
  }

  /** The tokens of a text that ends with a quote, alone and with a newline and more behind it. */
  lemma {:induction false} TokensOn(h: string, w: string, slots: nat, space: int)
    requires EndsQuote(h) && OpensBlank(h) && Behind(w) && space >= 2 * (|h| + |w|) + 10
    ensures Differ(Tokens(h, false, slots, space), Tokens(h + ("\n" + w), false, slots, space),
                   |TokenStart(h)| + 1 + |w|)
    decreases |h|, 1
  {
    hide Tokens, TokenStart, Differ, Behind, OpensBlank;
    var z, s := "\n" + w, TokenStart(h);
    if s == [] {
      NothingOn(h, w, slots, space, 1 + |w|);
    } else {
      StartOn(h, w);
      TokensOfStart(h, slots, space);
      TokensOfStart(h + z, slots, space);
      TokenStartSuffix(h);
      OpensBlankBehind(h, |h| - |s|);
      StartTwice(h);
      StartTwice(h + z);
      StartedOn(s, w, slots, space);
    }
  }

  lemma {:induction false} StartedOn(s: string, w: string, slots: nat, space: int)
    requires EndsQuote(s) && OpensBlank(s) && Behind(w) && space >= 2 * (|s| + |w|) + 10
    requires TokenStart(s) == s && TokenStart(s + ("\n" + w)) == s + ("\n" + w)
    ensures Differ(Tokens(s, false, slots, space), Tokens(s + ("\n" + w), false, slots, space), |s| + 1 + |w|)
    decreases |s|, 0
  {
    hide Tokens, TokenStart, FirstToken, Behind, OpensBlank, TakesNewline, SlashComment, StarComment;
    var z, size := "\n" + w, |s| + 1 + |w|;
    if slots == 0 {
      assert Tokens(s, false, 0, space) == [] && Tokens(s + z, false, 0, space) == [];
    } else if s == "\"" {
      OpenQuote(w, slots, space);
    } else {
      var f := FirstToken(s, false, space);
      if s[0] == '"' {
        QuotedOn(s, z, space);
      } else {
        PlainOn(s, z, space);
      }
      TokensStep(s, slots, space);
      TokensStep(s + z, slots, space);
      RestOn(f, w, slots - 1, size);
    }
  }

  lemma {:induction false} RestOn(f: First, w: string, slots: nat, size: nat)
    requires f.rest == [] || (EndsQuote(f.rest) && OpensBlank(f.rest))
    requires Behind(w) && f.left >= 2 * (|f.rest| + |w|) + 10
    requires size >= |f.token| + |f.rest| + 1 + |w|
    requires size >= |f.token| + |f.rest| + 3 + |w| || f.rest == "\""
             || (f.rest != [] && |TokenStart(f.rest)| < |f.rest|)
    ensures Differ([f.token] + Tokens(f.rest, false, slots, f.left),
                   [f.token] + Tokens(f.rest + ("\n" + w), false, slots, f.left), size)
    decreases |f.rest|, 2
  {
    hide Tokens, TokenStart, Differ, Behind, OpensBlank, TakesNewline;
    var z := "\n" + w;
    var d, t := Tokens(f.rest, false, slots, f.left), Tokens(f.rest + z, false, slots, f.left);
    if f.rest == [] {
      assert f.rest + z == z;
      NoTokens(false, slots, f.left);
      assert [f.token] + d == [f.token];
      LastClosed(f.token, w, slots, f.left, size);
    } else if f.rest == "\"" && slots == 0 {
      assert d == t == [];
      SurelyDiffer(d, t, size);
      DifferFirst(f.token, d, t, size, size);
    } else if f.rest == "\"" {
      OpenQuote(w, slots, f.left);
      SurelyDiffer(d, t, size);
      DifferFirst(f.token, d, t, size, size);
    } else {
      TokensOn(f.rest, w, slots, f.left);
      DifferFirst(f.token, d, t, |TokenStart(f.rest)| + 1 + |w|, size);
    }
  }

  // ---------------------------------------------------------------------------------------------
  // What sets a long value stands in front of the newline

  /** A saved variable. */
  datatype Entry = Entry(name: string, text: string)

  /** The line sets the variable to its value. */
  ghost predicate Hits(line: string, e: Entry) { !Harmless(line, e.name, e.text) }

  /** The tokens are a set command that does so. */
  predicate Sets(t: seq<string>, e: Entry) {
    |t| >= 3 && IsSet(t[0]) && EqualFold(t[1], e.name) && Combine(t[2..], 0) == e.text
  }

  /** The tokens are its name and the value. */
  predicate Names(t: seq<string>, e: Entry) {
    |t| >= 2 && !IsSet(t[0]) && EqualFold(t[0], e.name) && t[1] == e.text
  }

  lemma HitsBy(line: string, e: Entry)
    ensures var t := Tokens(line, false, MAX_STRING_TOKENS, BUFFER_SIZE); Hits(line, e) <==> Sets(t, e) || Names(t, e)
  {
    hide Tokens, Combine, EqualFold;
  }

  /** One that can be read back, but has a line that does not fit and a value of more than one word. */
  ghost predicate Wordy(e: Entry) {
    && GoodName(e.name) && GoodText(e.text) && |e.name| + |e.text| + 8 > MAX_CMD_LINE
    && e.text != "" && !Plain(e.text, false)
  }

  lemma FoldNewline(a: string, b: string)
    requires EqualFold(a, b) && '\n' in a
    ensures '\n' in b
  {
    var i :| 0 <= i < |a| && a[i] == '\n';
    assert Upper(a[i]) == Upper(b[i]);
  }

  lemma {:induction false} CombineHas(args: seq<string>, l: nat, i: nat)
    requires i < |args| && '\n' in args[i] && l + |Layout(args)| < COMBINED_BUFFER - 2
    ensures '\n' in Combine(args, l)
    decreases |args|
  {
    if i > 0 {
      CombineHas(args[1..], l + if args[0] == [] then 0 else |args[0]| - 1, i - 1);
    }
  }

  /** None of the tokens that make a line hit has a newline. */
  lemma NewlineMisses(t: seq<string>, i: nat, e: Entry)
    requires Wordy(e) && i < |t| && '\n' in t[i] && |Layout(t)| <= MAX_CMD_LINE
    ensures !Sets(t, e) && (Names(t, e) ==> i >= 2)
  {
    hide EqualFold, Combine, Layout, Plain;
    NameChars(e.name);
    if Names(t, e) && i == 0 {
      FoldNewline(t[0], e.name);
    }
    if Sets(t, e) {
      if i == 0 {
        FoldNewline(t[0], if EqualFold(t[0], "set") then "set" else "seta");
      } else if i == 1 {
        FoldNewline(t[1], e.name);
      } else {
        LayoutParts(t);
        CombineHas(t[2..], 0, i - 2);
      }
    }
  }

  lemma NameChars(name: string)
    requires GoodName(name)
    ensures forall c :: c in name ==> c > ' '
  {
  }

  /** How long the tokens are at least. */
  lemma HitSize(t: seq<string>, e: Entry)
    requires Wordy(e)
    ensures Sets(t, e) ==> |Layout(t)| >= MAX_CMD_LINE - 1
    ensures Names(t, e) ==> |Layout(t)| >= MAX_CMD_LINE - 5
  {
    hide EqualFold, Combine, Layout, Plain, GoodName, GoodText;
    if |t| >= 2 {
      LayoutParts(t);
      CombineShort(t[2..], 0);
      if Sets(t, e) {
        FoldLength(t[0], if EqualFold(t[0], "set") then "set" else "seta");
        FoldLength(t[1], e.name);
      }
      if Names(t, e) {
        FoldLength(t[0], e.name);
      }
    }
  }

  /** If the tokens of the text with more behind it hit, so do those of the text alone. */
  lemma DifferHits(d: seq<string>, t: seq<string>, size: nat, e: Entry)
    requires Wordy(e) && Differ(d, t, size) && size < MAX_CMD_LINE && |Layout(t)| <= MAX_CMD_LINE
    requires Sets(t, e) || Names(t, e)
    ensures Sets(d, e) || Names(d, e)
  {
    hide EqualFold, Combine, Layout, Plain, GoodName, GoodText, TakesNewline;
    HitSize(t, e);
    if t != d && TakesNewline(d, t) {
      TakesHits(d, t, e);
    }
  }

  lemma TakesHits(d: seq<string>, t: seq<string>, e: Entry)
    requires Wordy(e) && TakesNewline(d, t) && |Layout(t)| <= MAX_CMD_LINE && (Sets(t, e) || Names(t, e))
    ensures Names(d, e)
  {
    hide EqualFold, Combine, Layout, Plain, GoodName, GoodText;
    var i := |d| - 1;
    NewlineMisses(t, i, e);
    assert d[..i][0] == t[..i][0] && d[..i][1] == t[..i][1];
  }

  /** What sets a long value of more than one word stands in front of the newline. */
  lemma HitsBefore(h: string, w: string, e: Entry)
    requires EndsQuote(h) && OpensBlank(h) && Behind(w) && |h| + 1 + |w| < MAX_CMD_LINE
    requires Wordy(e) && Hits(h + ("\n" + w), e)
    ensures Hits(h, e)
  {
    hide Tokens, TokenStart, Layout, Differ, Hits, Sets, Names, Wordy, Behind, OpensBlank;
    var t := h + ("\n" + w);
    TokensOn(h, w, MAX_STRING_TOKENS, BUFFER_SIZE);
    HitsBy(t, e);
    HitsBy(h, e);
    TokensShort(t, MAX_STRING_TOKENS, BUFFER_SIZE);
    DifferHits(Tokens(h, false, MAX_STRING_TOKENS, BUFFER_SIZE), Tokens(t, false, MAX_STRING_TOKENS, BUFFER_SIZE),
               |TokenStart(h)| + 1 + |w|, e);
  }

  // ---------------------------------------------------------------------------------------------
  // A piece of a saved line that sets a long value is a piece of a long one

  function Min(a: int, b: int): int { if a < b then a else b }

  /** A piece of two texts put together. */
  lemma PieceOfTwo(a: string, b: string, i: nat, j: nat)
    requires i <= j <= |a| + |b|
    ensures (a + b)[i..j] == a[Min(i, |a|)..Min(j, |a|)] + b[i - Min(i, |a|)..j - Min(j, |a|)]
  {
  }

  /** The quoted value with its first characters only, or all of it. */
  function QuotedFront(value: string, k: nat): string
    requires k <= |value| + 2
  {
    (['"'] + (value + ['"']))[..k]
  }

  /** It is one token, a part of the value that begins with it. */
  lemma QuotedToken(value: string, k: nat, slots: nat, space: int) returns (part: string)
    requires NoQuote(value) && 0 < k <= |value| + 2 && slots > 0 && space > |value| + 5
    ensures part <= value && Tokens(QuotedFront(value, k), false, slots, space) == [part]
  {
    hide Tokens;
    if k <= |value| + 1 {
      part := value[..k - 1];
      FrontNoQuote(value, k - 1);
      assert QuotedFront(value, k) == ['"'] + part;
      UnclosedFirst(part, slots, space);
    } else {
      part := value;
      assert QuotedFront(value, k) == ['"'] + (value + (['"'] + []));
      QuotedTokenFirst(value, [], slots, space);
      NoTokens(false, slots - 1, space - |value| - 1);
    }
  }

  /** One word at most, or none, in front of the value. */
  function Words(x: string, val: seq<string>): seq<string> { if x == "" then val else [x] + val }

  /** Part of the name, the blank behind it, and the beginning of the quoted value, as far as they reach. */
  lemma WordTokens(x: string, tail: string, value: string, k: nat, slots: nat, space: int) returns (val: seq<string>)
    requires (x == "" || Plain(x, false)) && (tail == "" || tail == " ") && NoQuote(value) && k <= |value| + 2
    requires k > 0 && x != "" ==> tail == " "
    requires slots > 1 && space > |x| + |value| + 8
    ensures Tokens(x + (tail + QuotedFront(value, k)), false, slots, space) == Words(x, val)
    ensures if k == 0 then val == [] else |val| == 1 && val[0] <= value
  {
    hide Tokens, Plain, QuotedFront;
    var q := QuotedFront(value, k);
    var slots', space' := if x == "" then slots else slots - 1, if x == "" then space else space - |x| - 1;
    val := [];
    if k > 0 {
      var part := QuotedToken(value, k, slots', space');
      val := [part];
    } else {
      NoTokens(false, slots', space');
      NothingQuoted(value);
    }
    TailSkipped(tail, q, slots', space');
    if x != "" {
      TailStarts(tail, q);
      PlainTokenFirst(x, tail + q, false, slots, space);
    } else {
      assert x + (tail + q) == tail + q;
    }
  }

  lemma NothingQuoted(value: string)
    ensures QuotedFront(value, 0) == ""
  {
  }

  lemma TailSkipped(tail: string, q: string, slots: nat, space: int)
    requires tail == "" || tail == " "
    ensures Tokens(tail + q, false, slots, space) == Tokens(q, false, slots, space)
  {
    hide Tokens;
    if tail == "" {
      assert tail + q == q;
    } else {
      BlankSkipped(q, false, slots, space);
    }
  }

  lemma TailStarts(tail: string, q: string)
    requires tail == " " || (tail == "" && q == "")
    ensures Blank(tail + q)
  {
  }

  /** What stands in front of that in a piece that begins at `o`. */
  function Before(o: nat, rest: string): string {
    if o < 4 then "seta"[o..] + (" " + rest) else if o == 4 then " " + rest else rest
  }

  function BeforeWords(o: nat): seq<string> { if o < 4 then ["seta"[o..]] else [] }

  lemma SetaEnd(o: nat)
    requires o < 4
    ensures Plain("seta"[o..], false) && IsSet("seta"[o..]) == (o == 0)
  {
    hide Plain;
    SetaIsPlain();
    PiecePlain("seta", o, 4);
    assert "seta"[o..4] == "seta"[o..] && "seta"[0..] == "seta";
    EtaIsNotSet();
    if o == 0 {
      SelfFold("seta");
    }
  }

  lemma EtaIsNotSet()
    ensures !IsSet("seta"[1..])
  {
    assert Upper("seta"[1..][0]) != Upper("set"[0]);
  }

  lemma BeforeTokens(o: nat, rest: string, slots: nat, space: int)
    requires slots > 1 && space > 10
    ensures Tokens(Before(o, rest), false, slots, space)
         == BeforeWords(o)
            + Tokens(rest, false, slots - |BeforeWords(o)|, if o < 4 then space - (4 - o) - 1 else space)
  {
    hide Tokens, Plain;
    if o < 4 {
      SetaEnd(o);
      BlankBefore(rest);
      PlainTokenFirst("seta"[o..], " " + rest, false, slots, space);
      BlankSkipped(rest, false, slots - 1, space - (4 - o) - 1);
    } else if o == 4 {
      BlankSkipped(rest, false, slots, space);
    }
  }

  /** A piece of the name, the blank and the quoted value `q`. */
  lemma NamePiece(name: string, q: string, i: nat, j: nat) returns (b: nat, e: nat, tail: string, k: nat)
    requires i <= j <= |name| + 1 + |q| && i <= |name| + 1
    ensures b == Min(i, |name|) && e == Min(j, |name|) && k <= |q|
    ensures (tail == "" || tail == " ") && (k > 0 ==> e == |name| && (b < e ==> tail == " "))
    ensures (name + (" " + q))[i..j] == name[b..e] + (tail + q[..k])
  {
    b, e := Min(i, |name|), Min(j, |name|);
    PieceOfTwo(name, " " + q, i, j);
    PieceOfTwo(" ", q, i - b, j - e);
    tail := " "[Min(i - b, 1)..Min(j - e, 1)];
    k := j - e - Min(j - e, 1);
  }

  lemma CommandPiece(name: string, value: string, o: nat, m: nat)
    requires o + m <= |name| + |value| + 8 == |Command(name, value)| && m > 5
    ensures var rest := name + (" " + (['"'] + (value + ['"'])));
            Command(name, value)[o..o + m] == Before(o, rest[o - Min(o, 5)..o + m - 5])
  {
    hide Before;
    var y := name + (" " + (['"'] + (value + ['"'])));
    var i, j := o - Min(o, 5), o + m - 5;
    assert Command(name, value) == "seta " + y;
    PieceOfTwo("seta ", y, o, o + m);
    assert "seta "[Min(o, 5)..5] == "seta "[Min(o, 5)..];
    BeforeIs(o, y[i..j]);
  }

  /** The parts of a piece that begins in front of the value. */
  lemma PieceParts(name: string, value: string, o: nat, m: nat) returns (b: nat, e: nat, tail: string, k: nat)
    requires o <= |name| + 6 && o + m <= |name| + |value| + 8 && m > 5
    ensures b <= e <= |name| && (o < 5 ==> b == 0 && (name != "" ==> e > 0)) && k <= |value| + 2
    ensures (tail == "" || tail == " ") && (k > 0 ==> e == |name| && (b < e ==> tail == " "))
    ensures Command(name, value)[o..o + m] == Before(o, name[b..e] + (tail + QuotedFront(value, k)))
  {
    hide Command, Before;
    CommandLength(name, value);
    CommandPiece(name, value, o, m);
    b, e, tail, k := NamePiece(name, ['"'] + (value + ['"']), o - Min(o, 5), o + m - 5);
  }

  lemma BeforeIs(o: nat, rest: string)
    ensures Before(o, rest) == "seta "[Min(o, 5)..] + rest
  {
    assert o < 4 ==> "seta "[o..] == "seta"[o..] + " ";
    assert o == 4 ==> "seta "[o..] == " ";
  }

  /** A piece that begins in front of the value: it sets the variable itself, or one word, or a part of the value. */
  lemma FrontPieceHits(name: string, value: string, o: nat, m: nat, e: Entry)
    requires GoodName(name) && GoodText(value) && |name| + |value| + 8 <= MAX_CMD_LINE + 6
    requires o <= |name| + 6 && o + m <= |name| + |value| + 8 && m > 5
    requires Wordy(e) && Hits(Command(name, value)[o..o + m], e)
    ensures EqualFold(name, e.name) || Wordy(Entry(name, value))
  {
    hide Tokens, Hits, Sets, Names, Wordy, Before, QuotedFront, Command, Plain, EqualFold;
    CommandLength(name, value);
    var b, n, tail, k := PieceParts(name, value, o, m);
    var x := name[b..n];
    PiecePlain(name, b, n);
    PlainNotEmpty(name, false);
    var done := BeforeWords(o);
    BeforeTokens(o, x + (tail + QuotedFront(value, k)), MAX_STRING_TOKENS, BUFFER_SIZE);
    var val := WordTokens(x, tail, value, k, MAX_STRING_TOKENS - |done|, BUFFER_SIZE - if o < 4 then 5 - o else 0);
    HitsBy(Command(name, value)[o..o + m], e);
    assert b == 0 && n == |name| ==> x == name;
    WordsHit(name, value, o, x, val, e);
  }

  lemma PiecePlain(name: string, b: nat, e: nat)
    requires Plain(name, false) && b <= e <= |name|
    ensures name[b..e] == "" || Plain(name[b..e], false)
  {
    var x := name[b..e];
    assert forall i :: 0 <= i < |x| ==> x[i] == name[b + i] && name[b + i] in name;
    forall i | 0 <= i < |x|
      ensures !SlashComment(x[i..]) && !StarComment(x[i..])
    {
      assert i + 1 < |x| ==> x[i..][1] == name[b + i..][1];
      assert x[i..][0] == name[b + i..][0];
      assert !SlashComment(name[b + i..]) && !StarComment(name[b + i..]);
    }
  }

  lemma WordsHit(name: string, value: string, o: nat, x: string, val: seq<string>, e: Entry)
    requires GoodName(name) && GoodText(value) && Wordy(e)
    requires |x| <= |name| && (x == "" || Plain(x, false)) && (o < 4 ==> x != "")
    requires |val| <= 1 && (val != [] ==> val[0] <= value && (o == 0 ==> x == name))
    requires var t := BeforeWords(o) + Words(x, val); Sets(t, e) || Names(t, e)
    ensures EqualFold(name, e.name) || Wordy(Entry(name, value))
  {
    hide Plain, Combine, EqualFold, GoodName, GoodText;
    var t := BeforeWords(o) + Words(x, val);
    if o < 4 {
      SetaEnd(o);
    } else if Names(t, e) {
      FoldLength(x, e.name);
      if value != "" && Plain(value, false) {
        PiecePlain(value, 0, |val[0]|);
        assert value[0..|val[0]|] == val[0];
      }
    }
  }

  /** A quote ends a plain token as well. */
  lemma PlainThenQuote(u: string, slots: nat, space: int)
    requires Plain(u, false) && slots > 1 && space > |u| + 5
    ensures Tokens(u + "\"", false, slots, space) == [u, ""]
  {
    hide Tokens, PlainLen, SlashComment, StarComment, TokenStart;
    var s := u + "\"";
    PlainMeets(u);
    var n := PlainLen(s, false, space);
    PlainLenOn(s, "", space);
    PlainStops(s, space);
    if n < |u| {
      PlainGoesOn(u, n);
    }
    assert s[..n] == u && s[n..] == ['"'] + "";
    TokensStep(s, slots, space);
    UnclosedFirst("", slots - 1, space - |u| - 1);
    assert [u] + [""] == [u, ""];
  }

  lemma PlainGoesOn(u: string, n: nat)
    requires Plain(u, false) && n < |u|
    ensures !NoPlainStart((u + "\"")[n..])
  {
    var r := (u + "\"")[n..];
    assert r[0] == u[n] && u[n] in u && !SlashComment(u[n..]) && !StarComment(u[n..]);
    assert n + 1 < |u| ==> r[1] == u[n..][1];
  }

  lemma PlainMeets(u: string)
    requires Plain(u, false)
    ensures TokenStart(u + "\"") == u + "\"" && EndsQuote(u + "\"") && u[0] != '"'
  {
    PlainNotEmpty(u, false);
    PlainGoesOn(u, 0);
    assert (u + "\"")[0..] == u + "\"" && u[0] in u;
  }

  /** A piece of a value of at most one word. */
  lemma WordMisses(v: string, quote: string, e: Entry)
    requires v == "" || Plain(v, false)
    requires (quote == "" || quote == "\"") && |v| < MAX_CMD_LINE && Wordy(e)
    ensures !Hits(v + quote, e)
  {
    hide Tokens, Hits, Plain, EqualFold, Combine;
    HitsBy(v + quote, e);
    assert v + "" == v && "" + quote == quote && ['"'] + "" == "\"";
    NoTokens(false, MAX_STRING_TOKENS, BUFFER_SIZE);
    UnclosedFirst("", MAX_STRING_TOKENS, BUFFER_SIZE);
    if v != "" && quote == "" {
      LastWord(v, MAX_STRING_TOKENS, BUFFER_SIZE);
    } else if v != "" {
      PlainThenQuote(v, MAX_STRING_TOKENS, BUFFER_SIZE);
    }
  }

  /** What sets a long value is long. */
  lemma HitsLength(h: string, e: Entry)
    requires Wordy(e) && Hits(h, e)
    ensures |h| >= MAX_CMD_LINE - 6
  {
    hide Tokens, Hits, Wordy, Sets, Names, Layout;
    HitsBy(h, e);
    HitSize(Tokens(h, false, MAX_STRING_TOKENS, BUFFER_SIZE), e);
    TokensShort(h, MAX_STRING_TOKENS, BUFFER_SIZE);
  }

  lemma PieceOfWord(value: string, i: nat, j: nat) returns (v: string, quote: string)
    requires i <= j <= |value| + 1 && (value == "" || Plain(value, false))
    ensures (value + "\"")[i..j] == v + quote && |v| <= |value|
    ensures (v == "" || Plain(v, false)) && (quote == "" || quote == "\"")
  {
    hide Plain;
    var a, b := Min(i, |value|), Min(j, |value|);
    PieceOfTwo(value, "\"", i, j);
    v, quote := value[a..b], "\""[i - a..j - b];
    if value != "" {
      PiecePlain(value, a, b);
    }
  }

  /** A value of at most one word has no piece that hits. */
  lemma ValueHasWords(value: string, i: nat, j: nat, e: Entry)
    requires i <= j <= |value| + 1 && |value| < MAX_CMD_LINE && Wordy(e) && Hits((value + "\"")[i..j], e)
    ensures value != "" && !Plain(value, false)
  {
    hide Hits, Wordy, Plain;
    if value == "" || Plain(value, false) {
      var v, quote := PieceOfWord(value, i, j);
      WordMisses(v, quote, e);
    }
  }

  /** A piece of the value. */
  lemma ValuePieceHits(name: string, value: string, i: nat, j: nat, e: Entry)
    requires GoodName(name) && GoodText(value) && i <= j <= |value| + 1 && |value| < MAX_CMD_LINE
    requires Wordy(e) && Hits((value + "\"")[i..j], e)
    ensures Wordy(Entry(name, value))
  {
    hide Hits, Plain;
    ValueHasWords(value, i, j, e);
    HitsLength((value + "\"")[i..j], e);
    PlainNotEmpty(name, false);
  }

  /** A piece of a saved line that sets a long value of more than one word: its own, or that of another such. */
  lemma PieceHits(u: Entry, o: nat, m: nat, e: Entry)
    requires GoodName(u.name) && GoodText(u.text) && |u.name| + |u.text| + 8 <= MAX_CMD_LINE + 6
    requires o + m <= |u.name| + |u.text| + 8 == |Command(u.name, u.text)| && m > 5
    requires Wordy(e) && Hits(Command(u.name, u.text)[o..o + m], e)
    ensures EqualFold(u.name, e.name) || Wordy(u)
  {
    hide Hits, Wordy, EqualFold, GoodName, GoodText, Plain;
    if o <= |u.name| + 6 {
      FrontPieceHits(u.name, u.text, o, m, e);
    } else {
      var i := o - |u.name| - 7;
      ValuePart(u.name, u.text, i, i + m);
      ValuePieceHits(u.name, u.text, i, i + m, e);
    }
    assert u == Entry(u.name, u.text);
  }

  lemma ValuePart(name: string, value: string, i: nat, j: nat)
    requires i <= j <= |value| + 1
    ensures |Command(name, value)| == |name| + |value| + 8
    ensures Command(name, value)[|name| + 7 + i..|name| + 7 + j] == (value + "\"")[i..j]
  {
    var front := "seta " + (name + (" " + ['"']));
    assert Command(name, value) == front + (value + "\"") && |front| == |name| + 7;
  }

  // ---------------------------------------------------------------------------------------------
  // Where the lines are

  /** What is left to split. */
  datatype Stage = Stage(text: string, star: bool, slash: bool)

  /** What is left once `k` lines are handed out. */
  function Left(s: Stage, k: nat): (r: Stage)
    ensures |r.text| <= |s.text|
    decreases k
  {
    if k == 0 || s.text == [] then s else
    var t := Take(s.text, s.star, s.slash);
    Left(Stage(t.rest, t.star, t.slash), k - 1)
  }

  lemma {:induction false} LeftTwice(s: Stage, n: nat, k: nat)
    ensures Left(Left(s, n), k) == Left(s, n + k)
    decreases n
  {
    hide Take;
    if n > 0 && s.text != [] {
      var t := Take(s.text, s.star, s.slash);
      LeftTwice(Stage(t.rest, t.star, t.slash), n - 1, k);
    }
  }

  lemma {:induction false} LineOf(s: Stage, k: nat)
    ensures var lines, l := SplitText(s.text, s.star, s.slash).lines, Left(s, k);
            && (k < |lines| <==> l.text != [])
            && (k < |lines| ==> lines[k] == Take(l.text, l.star, l.slash).line)
    decreases k
  {
    hide Take;
    if k > 0 && s.text != [] {
      var t := Take(s.text, s.star, s.slash);
      LineOf(Stage(t.rest, t.star, t.slash), k - 1);
    }
  }

  /** Where the line stands. */
  function Start(text: string, k: nat): nat { |text| - |Left(Stage(text, false, false), k).text| }

  lemma {:induction false} LeftIsEnd(s: Stage, k: nat)
    ensures Left(s, k).text == s.text[|s.text| - |Left(s, k).text|..]
    decreases k
  {
    hide Take;
    if k > 0 && s.text != [] {
      var t := Take(s.text, s.star, s.slash);
      LeftIsEnd(Stage(t.rest, t.star, t.slash), k - 1);
      assert t.rest == s.text[|s.text| - |t.rest|..];
    }
  }

  /** The line is what stands there. */
  lemma LineStands(text: string, k: nat)
    requires k < |SplitText(text, false, false).lines|
    ensures var line, p := SplitText(text, false, false).lines[k], Start(text, k);
            |line| < MAX_CMD_LINE && p + |line| <= |text| && line == text[p..p + |line|]
  {
    hide Take, SplitText, Left;
    var s := Stage(text, false, false);
    LineOf(s, k);
    LeftIsEnd(s, k);
    var l := Left(s, k);
    var t := Take(l.text, l.star, l.slash);
    assert l.text[..|t.line|] == t.line;
  }

  /** Lines stand behind each other. */
  lemma LinesApart(text: string, j: nat, k: nat)
    requires j < k && j < |SplitText(text, false, false).lines|
    ensures Start(text, k) >= Start(text, j) + |SplitText(text, false, false).lines[j]|
  {
    hide Take, SplitText;
    var s := Stage(text, false, false);
    LineOf(s, j);
    LeftTwice(s, j, k - j);
    var l := Left(s, j);
    var t := Take(l.text, l.star, l.slash);
    assert |l.text| == |t.line| + |t.removed| + |t.rest|;
    assert Left(l, k - j) == Left(Stage(t.rest, t.star, t.slash), k - j - 1);
  }

  /** Closed text is left behind at once. */
  lemma {:induction false} ClosedLeft(a: string, b: string, star: bool, slash: bool) returns (n: nat)
    requires (a == [] || EndsLine(a)) && Closed(a, star, slash)
    ensures var s := SplitText(a, star, slash); Left(Stage(a + b, star, slash), n) == Stage(b, s.star, s.slash)
    decreases |a|
  {
    hide Take, Scan;
    if a == [] {
      n := 0;
      assert a + b == b;
    } else {
      ClosedStep(a, star, slash);
      TakeAppend(a, b, star, slash);
      var t := Take(a, star, slash);
      var n' := ClosedLeft(t.rest, b, t.star, t.slash);
      n := n' + 1;
    }
  }

  // ---------------------------------------------------------------------------------------------
  // The saved lines of a registry

  function Length(e: Entry): nat { |e.name| + |e.text| + 8 }

  /** The saved text and the newline behind it. */
  function TextOf(es: seq<Entry>): string {
    if es == [] then "\n" else Command(es[0].name, es[0].text) + ("\n" + TextOf(es[1..]))
  }

  function LinesOf(es: seq<Entry>): seq<string> { SplitText(TextOf(es), false, false).lines }

  /** Where a saved line stands. */
  function At(es: seq<Entry>, j: nat): nat
    requires j <= |es|
  {
    if j == 0 then 0 else Length(es[0]) + 1 + At(es[1..], j - 1)
  }

  predicate Good(e: Entry) { GoodName(e.name) && GoodText(e.text) && Length(e) <= MAX_CMD_LINE + 6 }

  ghost predicate AllGood(es: seq<Entry>) { forall i :: 0 <= i < |es| ==> Good(es[i]) }

  /** The part of the text that sets the variable lies in this saved line. */
  ghost predicate Within(es: seq<Entry>, e: Entry, p: nat, n: nat, j: nat, c: nat) {
    && j < |es| && p <= c && At(es, j) <= c && c + MAX_CMD_LINE - 6 <= Min(p + n, At(es, j) + Length(es[j]))
    && (EqualFold(es[j].name, e.name) || Wordy(es[j]))
  }

  lemma WithinRest(es: seq<Entry>, e: Entry, p: nat, n: nat, j: nat, c: nat)
    requires es != [] && Within(es[1..], e, p, n, j, c)
    ensures var d := Length(es[0]) + 1; Within(es, e, p + d, n, j + 1, c + d)
  {
    hide EqualFold, Wordy;
    assert es[1..][j] == es[j + 1];
  }

  lemma NewlineSkipped(l: string, e: Entry)
    requires l != [] && l[0] == '\n' && Hits(l, e)
    ensures Hits(l[1..], e)
  {
    hide Combine, EqualFold, FirstToken;
    assert TokenStart(l) == TokenStart(l[1..]);
  }

  lemma CommandOpensBlank(name: string, text: string, o: nat)
    requires GoodName(name) && NoQuote(text) && o < |name| + |text| + 8
    ensures OpensBlank(Command(name, text)[o..]) && EndsQuote(Command(name, text)[o..])
  {
    var c := Command(name, text);
    forall i | 1 <= i < |c| - 1
      ensures c[i] == '"' ==> c[i - 1] <= ' '
    {
      if i < |name| + 5 {
        assert i >= 5 ==> c[i] == name[i - 5] && name[i - 5] in name;
      } else if i > |name| + 6 {
        assert c[i] == text[i - |name| - 7] && text[i - |name| - 7] in text;
      }
    }
    OpensBlankBehind(c, o);
  }

  lemma TextIsBehind(es: seq<Entry>, n: nat)
    requires n <= |TextOf(es)|
    ensures Behind(TextOf(es)[..n])
  {
    hide Command;
    if es != [] {
      CommandBegins(es[0].name, es[0].text, "\n" + TextOf(es[1..]));
    }
  }

  lemma CommandBegins(name: string, text: string, more: string)
    ensures var t := Command(name, text) + more; |t| > 5 && t[0] == 's' && forall k :: 0 <= k < 5 ==> t[k] != '*'
  {
    var t := Command(name, text) + more;
    assert t == "seta " + ((name + (" " + (['"'] + (text + ['"'])))) + more);
    assert forall k :: 0 <= k < 5 ==> t[k] == "seta "[k];
  }

  /** Wherever a line stands that sets a long value of more than one word, at least 1018 characters of it lie in one
      saved line: that of the variable, or another such line. */
  lemma {:induction false} HitsWithin(es: seq<Entry>, e: Entry, p: nat, n: nat) returns (j: nat, c: nat)
    requires AllGood(es) && Wordy(e) && n < MAX_CMD_LINE && p + n <= |TextOf(es)| && Hits(TextOf(es)[p..p + n], e)
    ensures Within(es, e, p, n, j, c)
    decreases |es|
  {
    hide Hits, Wordy, Command, GoodName, GoodText, EqualFold, Within;
    var all := TextOf(es);
    var l := all[p..p + n];
    HitsLength(l, e);
    var u, rest := es[0], TextOf(es[1..]);
    var line, d := Command(u.name, u.text), Length(u) + 1;
    CommandLength(u.name, u.text);
    assert all == line + ("\n" + rest);
    if p >= d {
      assert l == rest[p - d..p - d + n];
      j, c := HitsWithin(es[1..], e, p - d, n);
      WithinRest(es, e, p - d, n, j, c);
      j, c := j + 1, c + d;
    } else if p == d - 1 {
      NewlineSkipped(l, e);
      assert l[1..] == rest[0..n - 1];
      j, c := HitsWithin(es[1..], e, 0, n - 1);
      WithinRest(es, e, 0, n - 1, j, c);
      j, c := j + 1, c + d;
      WithinMore(es, e, p, n, j, c);
    } else {
      j, c := 0, p;
      HitsHere(es, e, p, n);
    }
  }

  lemma WithinMore(es: seq<Entry>, e: Entry, p: nat, n: nat, j: nat, c: nat)
    requires n > 0 && Within(es, e, p + 1, n - 1, j, c)
    ensures Within(es, e, p, n, j, c)
  {
    hide EqualFold, Wordy;
  }

  lemma HitsHere(es: seq<Entry>, e: Entry, p: nat, n: nat)
    requires AllGood(es) && es != [] && Wordy(e) && n < MAX_CMD_LINE && p + n <= |TextOf(es)| && p < Length(es[0])
    requires Hits(TextOf(es)[p..p + n], e)
    ensures Within(es, e, p, n, 0, p)
  {
    hide Hits, Wordy, Command, GoodName, NoQuote, EqualFold;
    var u, rest := es[0], TextOf(es[1..]);
    var all, line := TextOf(es), Command(u.name, u.text);
    assert Good(u);
    CommandLength(u.name, u.text);
    if p + n <= |line| {
      assert all[p..p + n] == line[p..p + n];
      HitsLength(line[p..p + n], e);
      PieceHits(u, p, n, e);
    } else {
      var m := |line| - p;
      assert all[p..p + n] == line[p..] + ("\n" + rest[..n - m - 1]);
      TextIsBehind(es[1..], n - m - 1);
      EndHits(u, p, rest[..n - m - 1], e);
    }
  }

  /** The end of a saved line, and what follows. */
  lemma EndHits(u: Entry, p: nat, w: string, e: Entry)
    requires Good(u) && p < Length(u) && Behind(w) && Length(u) - p + 1 + |w| < MAX_CMD_LINE && Wordy(e)
    requires |Command(u.name, u.text)| == Length(u) && Hits(Command(u.name, u.text)[p..] + ("\n" + w), e)
    ensures Length(u) - p >= MAX_CMD_LINE - 6 && (EqualFold(u.name, e.name) || Wordy(u))
  {
    hide Hits, Wordy, Command, GoodName, NoQuote, EqualFold, Behind, OpensBlank;
    var line, m := Command(u.name, u.text), Length(u) - p;
    CommandOpensBlank(u.name, u.text, p);
    HitsBefore(line[p..], w, e);
    HitsLength(line[p..], e);
    assert line[p..] == line[p..p + m];
    PieceHits(u, p, m, e);
  }

  // ---------------------------------------------------------------------------------------------
  // The first line that leaves a comment mark behind sets nothing

  ghost predicate Tidy(e: Entry) { NoComment(Rest(e.name, e.text) + "\n") }

  /** Behind a tidy line the splitter starts afresh. */
  lemma TidyLeft(u: Entry, more: string) returns (n: nat)
    requires Good(u) && Tidy(u)
    ensures Left(Stage(Command(u.name, u.text) + ("\n" + more), false, false), n) == Stage(more, false, false)
  {
    hide Take, GoodName, NoQuote, Command, NoComment, SplitText, Closed;
    var c := Command(u.name, u.text);
    CommandLength(u.name, u.text);
    if |c| < MAX_CMD_LINE {
      TakeCommand(u.name, u.text, more);
      n := 1;
    } else {
      var a := Rest(u.name, u.text) + "\n";
      assert c[MAX_CMD_LINE..] == Rest(u.name, u.text);
      TakeLong(u.name, u.text, more);
      assert c[MAX_CMD_LINE..] + ("\n" + more) == a + more;
      PlainIsClosed(a);
      var n' := ClosedLeft(a, more, false, false);
      n := n' + 1;
    }
  }

  ghost predicate TidyUpTo(es: seq<Entry>, f: nat) { f <= |es| && forall i :: 0 <= i < f ==> Tidy(es[i]) }

  lemma RestTidy(es: seq<Entry>, f: nat)
    requires AllGood(es) && TidyUpTo(es, f) && f > 0
    ensures Good(es[0]) && Tidy(es[0]) && AllGood(es[1..]) && TidyUpTo(es[1..], f - 1)
  {
    hide Good, Tidy;
  }

  lemma TextFirst(es: seq<Entry>, f: nat)
    requires 0 < f < |es|
    ensures var c := Command(es[0].name, es[0].text);
            TextOf(es) == c + ("\n" + TextOf(es[1..])) && At(es, f) == |c| + 1 + At(es[1..], f - 1)
    ensures es[1..][f - 1..] == es[f..]
  {
    CommandLength(es[0].name, es[0].text);
    hide Command;
  }

  lemma {:induction false} FirstStands(es: seq<Entry>, f: nat) returns (n: nat)
    requires AllGood(es) && f < |es| && TidyUpTo(es, f)
    ensures Left(Stage(TextOf(es), false, false), n) == Stage(TextOf(es[f..]), false, false)
    ensures Start(TextOf(es), n) == At(es, f)
    decreases |es|
  {
    hide *;
    if f == 0 {
      n := 0;
      NoneStands(es);
    } else {
      RestTidy(es, f);
      TextFirst(es, f);
      var n1 := TidyLeft(es[0], TextOf(es[1..]));
      var n2 := FirstStands(es[1..], f - 1);
      LeftTwice(Stage(TextOf(es), false, false), n1, n2);
      n := n1 + n2;
      StartsLater(TextOf(es), Command(es[0].name, es[0].text), TextOf(es[1..]), n1, n2);
    }
  }

  lemma NoneStands(es: seq<Entry>)
    ensures Left(Stage(TextOf(es), false, false), 0) == Stage(TextOf(es[0..]), false, false)
    ensures Start(TextOf(es), 0) == At(es, 0)
  {
    hide TextOf;
    LeftNone(Stage(TextOf(es), false, false));
    assert es[0..] == es;
  }

  lemma StartsLater(all: string, c: string, rest: string, n1: nat, n2: nat)
    requires all == c + ("\n" + rest) && Left(Stage(all, false, false), n1) == Stage(rest, false, false)
    ensures Start(all, n1 + n2) == |c| + 1 + Start(rest, n2)
  {
    hide Left;
    LeftTwice(Stage(all, false, false), n1, n2);
  }

  lemma LeftNone(s: Stage)
    ensures Left(s, 0) == s
  {
  }

  /** The line of the first untidy variable stands where it was saved, and sets no long variable. */
  lemma UntidyMisses(es: seq<Entry>, f: nat) returns (n: nat)
    requires AllGood(es) && f < |es| && Length(es[f]) > MAX_CMD_LINE && TidyUpTo(es, f)
    ensures var lines := LinesOf(es);
            n < |lines| && Start(TextOf(es), n) == At(es, f) && |lines[n]| == MAX_CMD_LINE - 1
            && forall e: Entry | Wordy(e) && (e == es[f] || !EqualFold(es[f].name, e.name)) :: !Hits(lines[n], e)
  {
    hide Left, Take, Command, GoodName, NoQuote, Hits, Wordy, EqualFold, Tidy, SplitText, Start;
    n := FirstStands(es, f);
    LineOf(Stage(TextOf(es), false, false), n);
    var u, more := es[f], TextOf(es[f + 1..]);
    assert Good(u) && es[f..][0] == u && es[f..][1..] == es[f + 1..];
    CommandLength(u.name, u.text);
    TakeLong(u.name, u.text, more);
    forall e: Entry | Wordy(e) && (e == u || !EqualFold(u.name, e.name))
      ensures !Hits(Command(u.name, u.text)[..MAX_CMD_LINE - 1], e)
    {
      FirstMisses(u, e);
    }
  }

  lemma FirstMisses(u: Entry, e: Entry)
    requires Good(u) && Length(u) > MAX_CMD_LINE && Wordy(e) && (e == u || !EqualFold(u.name, e.name))
    ensures !Hits(Command(u.name, u.text)[..MAX_CMD_LINE - 1], e)
  {
    hide Harmless, EqualFold, Command, GoodName, NoQuote, Plain;
    CommandLength(u.name, u.text);
    FirstHarmless(u.name, u.text, e.name, e.text);
  }

  /** A comment mark that is left behind stands in the value. */
  lemma UntidyIsWordy(u: Entry)
    requires Good(u) && !Tidy(u)
    ensures Wordy(u)
  {
    var c, a := Command(u.name, u.text), Rest(u.name, u.text) + "\n";
    var i :| 0 <= i < |a| - 1 && a[i] == '/' && (a[i + 1] == '/' || a[i + 1] == '*');
    var k := i + MAX_CMD_LINE;
    assert c[k] == '/' && (c[k + 1] == '/' || c[k + 1] == '*');
    MarkInValue(u, k);
  }

  lemma MarkInValue(u: Entry, k: nat)
    requires GoodName(u.name) && k + 1 < Length(u) == |Command(u.name, u.text)|
    requires var c := Command(u.name, u.text); c[k] == '/' && (c[k + 1] == '/' || c[k + 1] == '*')
    ensures u.text != "" && !Plain(u.text, false)
  {
    var c, p := Command(u.name, u.text), "seta " + (u.name + " ");
    assert c == p + (['"'] + (u.text + ['"']));
    assert k < |p| ==> c[k] == p[k] && (k + 1 < |p| ==> c[k + 1] == p[k + 1]);
    NameIsBare(u.name);
    var i := k - |p| - 1;
    assert u.text[i] == c[k] && u.text[i + 1] == c[k + 1];
    assert SlashComment(u.text[i..]) || StarComment(u.text[i..]);
  }

  // ---------------------------------------------------------------------------------------------
  // One line too few

  ghost predicate Distinct(es: seq<Entry>) {
    forall i, j :: 0 <= i < |es| && 0 <= j < |es| && i != j ==> !EqualFold(es[i].name, es[j].name)
  }

  /** The k-th line hits the variable `u`, by what stands at `c` in the saved line `j`. */
  ghost predicate HostAt(es: seq<Entry>, u: nat, j: nat, k: nat, c: nat) {
    && u < |es| && Wordy(es[u]) && k < |LinesOf(es)| && Hits(LinesOf(es)[k], es[u])
    && Within(es, es[u], Start(TextOf(es), k), |LinesOf(es)[k]|, j, c)
  }

  ghost predicate Hosts(es: seq<Entry>, u: nat, j: nat) { exists k: nat, c: nat :: HostAt(es, u, j, k, c) }

  /** The long variables whose values have more than one word. */
  ghost function Wordies(es: seq<Entry>): set<nat> { set u: nat | u < |es| && Wordy(es[u]) }

  lemma OneTarget(l: string, a: Entry, b: Entry)
    requires Hits(l, a) && Hits(l, b)
    ensures EqualFold(a.name, b.name)
  {
    hide Tokens, EqualFold, Combine;
    HitsBy(l, a);
    HitsBy(l, b);
    var t := Tokens(l, false, MAX_STRING_TOKENS, BUFFER_SIZE);
    var w := if IsSet(t[0]) then t[1] else t[0];
    EqualFoldEquivalence(w, a.name, b.name);
    EqualFoldEquivalence(a.name, w, b.name);
  }

  /** A saved line has no room for two. */
  lemma NoRoomForTwo(es: seq<Entry>, u: nat, v: nat, j: nat, k: nat, l: nat, c: nat, d: nat)
    requires AllGood(es) && HostAt(es, u, j, k, c) && HostAt(es, v, j, l, d)
    ensures k == l
  {
    hide SplitText, TextOf, Start, Wordy, Hits, EqualFold, At, GoodName, GoodText;
    var text := TextOf(es);
    assert Good(es[j]);
    if k < l {
      LinesApart(text, k, l);
    } else if l < k {
      LinesApart(text, l, k);
    }
  }

  lemma HostsOnce(es: seq<Entry>, u: nat, v: nat, j: nat)
    requires AllGood(es) && Distinct(es) && Hosts(es, u, j) && Hosts(es, v, j)
    ensures u == v
  {
    hide HostAt, Hits, EqualFold, Good;
    var k: nat, c: nat :| HostAt(es, u, j, k, c);
    var l: nat, d: nat :| HostAt(es, v, j, l, d);
    NoRoomForTwo(es, u, v, j, k, l, c, d);
    SameLine(es, u, v, j, k, c, d);
  }

  lemma SameLine(es: seq<Entry>, u: nat, v: nat, j: nat, k: nat, c: nat, d: nat)
    requires Distinct(es) && HostAt(es, u, j, k, c) && HostAt(es, v, j, k, d)
    ensures u == v
  {
    hide Hits, EqualFold, Within, Wordy, LinesOf;
    OneTarget(LinesOf(es)[k], es[u], es[v]);
  }

  /** The first untidy variable's saved line hosts nothing. */
  lemma UntidyHostsNone(es: seq<Entry>, u: nat, f: nat)
    requires AllGood(es) && Distinct(es) && f < |es| && Length(es[f]) > MAX_CMD_LINE
    requires TidyUpTo(es, f)
    ensures !Hosts(es, u, f)
  {
    hide HostAt, Hits, EqualFold, Good, Tidy, Start, LinesOf, Wordy;
    var n := UntidyMisses(es, f);
    forall k: nat, c: nat
      ensures !HostAt(es, u, f, k, c)
    {
      NotThere(es, u, f, k, c, n);
    }
  }

  lemma NotThere(es: seq<Entry>, u: nat, f: nat, k: nat, c: nat, n: nat)
    requires AllGood(es) && Distinct(es) && f < |es|
    requires n < |LinesOf(es)| && Start(TextOf(es), n) == At(es, f) && |LinesOf(es)[n]| == MAX_CMD_LINE - 1
    requires forall e: Entry | Wordy(e) && (e == es[f] || !EqualFold(es[f].name, e.name)) :: !Hits(LinesOf(es)[n], e)
    ensures !HostAt(es, u, f, k, c)
  {
    hide Hits, EqualFold, GoodName, GoodText, Start, SplitText, Wordy, At, TextOf;
    assert Good(es[f]);
    if k < n && k < |LinesOf(es)| {
      LinesApart(TextOf(es), k, n);
    } else if n < k {
      LinesApart(TextOf(es), n, k);
    }
  }

  /** Every line that hits a long variable of more than one word has its host among them. */
  lemma HitHasHost(es: seq<Entry>, u: nat, k: nat) returns (j: nat)
    requires AllGood(es) && Distinct(es) && u < |es| && Wordy(es[u]) && k < |LinesOf(es)| && Hits(LinesOf(es)[k], es[u])
    ensures Hosts(es, u, j) && j < |es| && Wordy(es[j])
  {
    hide Hits, EqualFold, Good, Start, SplitText, Wordy, At, TextOf;
    LineStands(TextOf(es), k);
    var c;
    j, c := HitsWithin(es, es[u], Start(TextOf(es), k), |LinesOf(es)[k]|);
    assert HostAt(es, u, j, k, c);
  }

  ghost predicate EachHosted(es: seq<Entry>, us: set<nat>, hosts: set<nat>) {
    forall u :: u in us ==> exists j :: j in hosts && Hosts(es, u, j)
  }

  /** Variables that do not share a host are not more than the hosts. */
  lemma {:induction false} Pigeonhole(es: seq<Entry>, us: set<nat>, hosts: set<nat>)
    requires EachHosted(es, us, hosts)
    requires forall u: nat, v: nat, j: nat :: Hosts(es, u, j) && Hosts(es, v, j) ==> u == v
    ensures |us| <= |hosts|
    decreases |us|
  {
    hide Hosts;
    if us != {} {
      var u :| u in us;
      var j :| j in hosts && Hosts(es, u, j);
      forall v | v in us - {u}
        ensures exists i :: i in hosts - {j} && Hosts(es, v, i)
      {
        var i :| i in hosts && Hosts(es, v, i);
        assert i in hosts - {j};
      }
      Pigeonhole(es, us - {u}, hosts - {j});
    }
  }

  /** The first untidy variable. */
  lemma {:induction false} FirstUntidy(es: seq<Entry>, n: nat) returns (f: nat)
    requires n < |es| && !Tidy(es[n])
    ensures f <= n && !Tidy(es[f]) && TidyUpTo(es, f)
    decreases n
  {
    hide Tidy;
    if i :| 0 <= i < n && !Tidy(es[i]) {
      f := FirstUntidy(es, i);
    } else {
      f := n;
    }
  }

  ghost predicate Hit(es: seq<Entry>, u: nat)
    requires u < |es|
  {
    exists k: nat :: k < |LinesOf(es)| && Hits(LinesOf(es)[k], es[u])
  }

  lemma HitIsHosted(es: seq<Entry>, u: nat, f: nat)
    requires AllGood(es) && Distinct(es) && f < |es| && Length(es[f]) > MAX_CMD_LINE
    requires TidyUpTo(es, f)
    requires u in Wordies(es) && Hit(es, u)
    ensures exists j :: j in Wordies(es) - {f} && Hosts(es, u, j)
  {
    hide Hosts, LinesOf, Hits, Wordy, Good, Distinct, Tidy;
    var k: nat :| k < |LinesOf(es)| && Hits(LinesOf(es)[k], es[u]);
    var j := HitHasHost(es, u, k);
    UntidyHostsNone(es, u, f);
    assert j in Wordies(es) - {f};
  }

  lemma AllHosted(es: seq<Entry>, f: nat)
    requires AllGood(es) && Distinct(es) && f < |es| && Length(es[f]) > MAX_CMD_LINE
    requires TidyUpTo(es, f)
    requires forall u :: u in Wordies(es) ==> Hit(es, u)
    ensures EachHosted(es, Wordies(es), Wordies(es) - {f})
  {
    hide Hosts, Hit, Wordies, AllGood, Distinct, Tidy;
    InWordies(es);
    forall u | u in Wordies(es)
      ensures exists j :: j in Wordies(es) - {f} && Hosts(es, u, j)
    {
      HitIsHosted(es, u, f);
    }
  }

  lemma NoneShared(es: seq<Entry>)
    requires AllGood(es) && Distinct(es)
    ensures forall u: nat, v: nat, j: nat :: Hosts(es, u, j) && Hosts(es, v, j) ==> u == v
  {
    hide Hosts, AllGood, Distinct;
    forall u: nat, v: nat, j: nat | Hosts(es, u, j) && Hosts(es, v, j)
      ensures u == v
    {
      HostsOnce(es, u, v, j);
    }
  }

  lemma NotAllHit(es: seq<Entry>, f: nat)
    requires AllGood(es) && Distinct(es) && f in Wordies(es) && Length(es[f]) > MAX_CMD_LINE
    requires TidyUpTo(es, f)
    ensures exists u :: u in Wordies(es) && !Hit(es, u)
  {
    hide Hosts, Hit, Wordies, AllGood, Distinct, Tidy, EachHosted;
    InWordies(es);
    if forall u :: u in Wordies(es) ==> Hit(es, u) {
      AllHosted(es, f);
      NoneShared(es);
      Pigeonhole(es, Wordies(es), Wordies(es) - {f});
    }
  }

  lemma InWordies(es: seq<Entry>)
    ensures forall u: nat :: u in Wordies(es) <==> u < |es| && Wordy(es[u])
  {
  }

  /** If a comment mark is left behind, no line sets some variable to its value. */
  lemma SomeMissed(es: seq<Entry>, n: nat) returns (u: nat)
    requires AllGood(es) && Distinct(es) && n < |es| && !Tidy(es[n])
    ensures u < |es| && Wordy(es[u]) && !Hit(es, u)
  {
    hide Hit, Wordy, Good, Distinct, Tidy, Wordies;
    var f := FirstUntidy(es, n);
    assert Good(es[f]);
    UntidyIsWordy(es[f]);
    WordyIsLong(es[f]);
    InWordies(es);
    NotAllHit(es, f);
    u :| u in Wordies(es) && !Hit(es, u);
  }

  lemma WordyIsLong(e: Entry)
    requires Wordy(e)
    ensures Length(e) > MAX_CMD_LINE
  {
  }

  // ---------------------------------------------------------------------------------------------
  // The registry

  /** The archived variables in the order in which they are saved. */
  function Entries(vars: seq<Cvar>): seq<Entry> {
    if vars == [] then [] else
    var v := vars[|vars| - 1];
    (if ARCHIVE in v.flags then [Entry(v.name, SavedText(v))] else []) + Entries(vars[..|vars| - 1])
  }

  lemma NoEntries()
    ensures Entries([]) == []
  {
  }

  lemma EntriesFirst(vars: seq<Cvar>)
    requires vars != []
    ensures var v, rest := vars[|vars| - 1], Entries(vars[..|vars| - 1]);
            Entries(vars) == if ARCHIVE in v.flags then [Entry(v.name, SavedText(v))] + rest else rest
  {
    hide SavedText;
  }

  lemma {:induction false} EntriesText(vars: seq<Cvar>)
    requires LinesWithin(vars, MAX_CMD_LINE + 6)
    ensures ConfigText(vars) + "\n" == TextOf(Entries(vars))
    decreases |vars|
  {
    hide ConfigText, Command, SavedText, Entries;
    if vars == [] {
      NothingSaved();
      NoEntries();
    } else {
      var v, rest := vars[|vars| - 1], vars[..|vars| - 1];
      assert ARCHIVE in v.flags ==> Saved(v);
      ConfigTextFirst(vars);
      EntriesFirst(vars);
      EntriesText(rest);
      if ARCHIVE in v.flags {
        TextOfFirst(Entry(v.name, SavedText(v)), Entries(rest));
      }
    }
  }

  lemma TextOfFirst(e: Entry, es: seq<Entry>)
    ensures TextOf([e] + es) == Command(e.name, e.text) + ("\n" + TextOf(es))
  {
    hide Command;
    assert ([e] + es)[1..] == es;
  }

  /** Each entry is that of an archived variable. */
  lemma {:induction false} EntryFrom(vars: seq<Cvar>, u: nat) returns (i: nat)
    requires u < |Entries(vars)|
    ensures i < |vars| && ARCHIVE in vars[i].flags && Entries(vars)[u] == Entry(vars[i].name, SavedText(vars[i]))
    decreases |vars|
  {
    hide SavedText, Entries;
    NoEntries();
    var n := |vars| - 1;
    EntriesFirst(vars);
    if ARCHIVE in vars[n].flags && u == 0 {
      i := n;
    } else {
      i := EntryFrom(vars[..n], if ARCHIVE in vars[n].flags then u - 1 else u);
    }
  }

  lemma {:induction false} EntryOf(vars: seq<Cvar>, i: nat) returns (u: nat)
    requires i < |vars| && ARCHIVE in vars[i].flags
    ensures u < |Entries(vars)| && Entries(vars)[u] == Entry(vars[i].name, SavedText(vars[i]))
    decreases |vars|
  {
    hide SavedText, Entries;
    var n := |vars| - 1;
    EntriesFirst(vars);
    if i == n {
      u := 0;
    } else {
      var w := EntryOf(vars[..n], i);
      u := if ARCHIVE in vars[n].flags then w + 1 else w;
    }
  }

  lemma {:induction false} EntriesDistinct(vars: seq<Cvar>)
    requires Unique(vars)
    ensures Distinct(Entries(vars))
    decreases |vars|
  {
    hide SavedText, Entries, EqualFold;
    if vars == [] {
      NoEntries();
    } else {
      var n := |vars| - 1;
      var rest := Entries(vars[..n]);
      EntriesFirst(vars);
      EntriesDistinct(vars[..n]);
      forall j | 0 <= j < |rest|
        ensures !EqualFold(rest[j].name, vars[n].name) && !EqualFold(vars[n].name, rest[j].name)
      {
        var i := EntryFrom(vars[..n], j);
        EqualFoldEquivalence(vars[n].name, rest[j].name, vars[n].name);
      }
    }
  }

  lemma EntriesGood(vars: seq<Cvar>)
    requires AllReadable(vars) && LinesWithin(vars, MAX_CMD_LINE + 6)
    ensures AllGood(Entries(vars))
  {
    hide SavedText, Entries, GoodName, GoodText;
    forall u | 0 <= u < |Entries(vars)|
      ensures Good(Entries(vars)[u])
    {
      var i := EntryFrom(vars, u);
      assert Readable(vars[i]);
    }
  }

  lemma MissedIsHarmless(es: seq<Entry>, u: nat)
    requires u < |es| && !Hit(es, u)
    ensures AllHarmless(LinesOf(es), es[u].name, es[u].text)
  {
    hide Harmless, LinesOf;
    forall k | 0 <= k < |LinesOf(es)|
      ensures Harmless(LinesOf(es)[k], es[u].name, es[u].text)
    {
      assert !Hits(LinesOf(es)[k], es[u]);
    }
  }

  /** If a line that is cut leaves a comment mark behind, some variable has its value in no place. */
  lemma UntidyLost(vars: seq<Cvar>, n: nat, cheats: bool, cheating: bool) returns (i: nat)
    requires Unique(vars) && AllReadable(vars) && LinesWithin(vars, MAX_CMD_LINE + 6)
    requires n < |vars| && ARCHIVE in vars[n].flags && !TidyEnd(vars[n])
    ensures i < |vars| && ARCHIVE in vars[i].flags
    ensures Absent(Load(Empty(cheats, cheating), ConfigText(vars)), vars[i].name, SavedText(vars[i]))
  {
    hide Unique, Readable, SavedText, Entries, ConfigText, TextOf, Absent, Run, ExecuteAll, SplitText, Wordy, Hit, Good,
         Distinct, Rest, NoComment, Harmless;
    var es := Entries(vars);
    EntriesText(vars);
    EntriesGood(vars);
    EntriesDistinct(vars);
    var w := EntryOf(vars, n);
    var u := SomeMissed(es, w);
    i := EntryFrom(vars, u);
    MissedIsHarmless(es, u);
    QuietRun(ConfigText(vars) + "\n", 0, false, false);
    NothingPresent(cheats, cheating, vars[i].name, SavedText(vars[i]));
    LinesAbsent(Empty(cheats, cheating), LinesOf(es), vars[i].name, SavedText(vars[i]));
  }

  lemma NothingPresent(cheats: bool, cheating: bool, name: string, text: string)
    ensures Absent(Empty(cheats, cheating), name, text)
  {
  }

  lemma AbsentLoses(st: State, v: Cvar)
    requires Absent(st, v.name, SavedText(v))
    ensures !Regains(st, v)
  {
    hide EqualFold, SavedText;
  }

  lemma BoundedLoses(st: State, v: Cvar)
    requires AllBounded(st) && LineLength(v) > MAX_CMD_LINE + 6
    ensures !Regains(st, v)
  {
    hide EqualFold, SavedText;
    forall k | 0 <= k < |st.vars| && EqualFold(st.vars[k].name, v.name)
      ensures st.vars[k].current != Str(SavedText(v))
    {
      FoldLength(st.vars[k].name, v.name);
      assert Bounded(st.vars[k]);
    }
  }

  /** A registry with a line of more than 1024 characters does not even have all its values back. */
  lemma ValueLost(others: string -> bool, vars: seq<Cvar>, cheats: bool, cheating: bool, script: seq<Reply>)
    requires Unique(vars) && AllReadable(vars) && !LinesWithin(vars, MAX_CMD_LINE) && NoOthers(others, ConfigText(vars))
    ensures var st := LoadAmong(others, Empty(cheats, cheating), ConfigText(vars), script);
            exists i :: 0 <= i < |vars| && ARCHIVE in vars[i].flags && !Regains(st, vars[i])
  {
    hide LoadAmong, NoOthers, ConfigText, SavedText, Unique, Readable, EqualFold, TidyEnd, Regains, Load;
    var st := LoadAmong(others, Empty(cheats, cheating), ConfigText(vars), script);
    var i := Longest(vars);
    if AllTidy(vars) {
      TooLongHere(others, vars, i, cheats, cheating, script);
      AbsentLoses(st, vars[i]);
    } else if !LinesWithin(vars, MAX_CMD_LINE + 6) {
      NoTextLoads(others, ConfigText(vars), cheats, cheating, script);
      BoundedLoses(st, vars[i]);
    } else {
      QuietLoad(others, Empty(cheats, cheating), ConfigText(vars), script);
      var n :| 0 <= n < |vars| && ARCHIVE in vars[n].flags && !TidyEnd(vars[n]);
      i := UntidyLost(vars, n, cheats, cheating);
      AbsentLoses(st, vars[i]);
    }
    assert !Regains(st, vars[i]);
  }

  /** Saving any registry and loading it gives every archived variable its value back if and only if every saved line
      has at most 1024 characters. */
  lemma ValuesReturnIff(others: string -> bool, vars: seq<Cvar>, cheats: bool, cheating: bool, script: seq<Reply>)
    requires Unique(vars) && |vars| <= MAX_CVARS && AllReadable(vars) && NoOthers(others, ConfigText(vars))
    ensures var st := LoadAmong(others, Empty(cheats, cheating), ConfigText(vars), script);
            (forall i :: 0 <= i < |vars| && ARCHIVE in vars[i].flags ==> Regains(st, vars[i]))
            <==> LinesWithin(vars, MAX_CMD_LINE)
  {
    hide LoadAmong, NoOthers, ConfigText, LoadedAll, Unique, Readable, Regains, SavedText;
    if LinesWithin(vars, MAX_CMD_LINE) {
      SurvivesIff(others, vars, cheats, cheating, script);
      forall i | 0 <= i < |vars| && ARCHIVE in vars[i].flags
        ensures Regains(Empty(cheats, cheating).(vars := LoadedAll(vars)), vars[i])
      {
        LoadedRegains(vars, i, cheats, cheating);
      }
    } else {
      ValueLost(others, vars, cheats, cheating, script);
    }
  }

  lemma LoadedRegains(vars: seq<Cvar>, i: nat, cheats: bool, cheating: bool)
    requires i < |vars| && ARCHIVE in vars[i].flags
    ensures Regains(Empty(cheats, cheating).(vars := LoadedAll(vars)), vars[i])
  {
    hide LoadedAll, SavedText, EqualFold;
    var k := LoadedAt(vars, i);
    SelfFold(vars[i].name);
  }
}
