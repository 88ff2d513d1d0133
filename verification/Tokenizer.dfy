/** The re-entrant tokenizer of src/cmd.c: a stack of tokenised strings in one buffer. */
module Tokenizer {

  const MAX_STRING_TOKENS := 1024
  const MAX_TOKENIZE_STRINGS := 32
  const BUFFER_SIZE := 8192 + MAX_STRING_TOKENS
  const NUL := '\0'

  // ---------------------------------------------------------------------------------------------
  // Specification: the tokens of a text

  predicate SlashComment(t: string) { |t| >= 2 && t[0] == '/' && t[1] == '/' }
  predicate StarComment(t: string) { |t| >= 2 && t[0] == '/' && t[1] == '*' }
  predicate CommentEnd(t: string) { |t| >= 2 && t[0] == '*' && t[1] == '/' }

  function SkipBlanks(t: string): (r: string)
    ensures |r| <= |t| && (r != [] ==> r[0] > ' ')
  {
    if t != [] && t[0] <= ' ' then SkipBlanks(t[1..]) else t
  }

  /** The text from the next closing comment mark on. */
  function ToCommentEnd(t: string): (r: string)
    ensures |r| <= |t| && (r == [] || CommentEnd(r))
  {
    if t == [] || CommentEnd(t) then t else ToCommentEnd(t[1..])
  }

  /** The text from the first character of the next token on; empty when there is none. */
  function TokenStart(t: string): (r: string)
    ensures |r| <= |t| && (r != [] ==> r[0] > ' ' && !SlashComment(r) && !StarComment(r))
    decreases |t|
  {
    var s := SkipBlanks(t);
    if SlashComment(s) then []
    else if StarComment(s) then
      var e := ToCommentEnd(s);
      if e == [] then [] else TokenStart(e[2..])
    else s
  }

  /** How many characters a quoted token has, given the space left. */
  function QuotedLen(t: string, space: int): (n: nat)
    ensures n <= |t| && (n == 0 || n < space)
    decreases |t|
  {
    if t == [] || t[0] == '"' || space <= 1 then 0 else 1 + QuotedLen(t[1..], space - 1)
  }

  /** How many characters a plain token has, given the space left. */
  function PlainLen(t: string, ignoreQuotes: bool, space: int): (n: nat)
    ensures n <= |t| && (n == 0 || n < space)
    decreases |t|
  {
    if t == [] || t[0] <= ' ' || space <= 1 || (!ignoreQuotes && t[0] == '"') then 0
    else if SlashComment(t) || StarComment(t) then 0
    else 1 + PlainLen(t[1..], ignoreQuotes, space - 1)
  }

  predicate Quoted(s: string, ignoreQuotes: bool) { s != [] && !ignoreQuotes && s[0] == '"' }

  /** The token that starts the text, the text behind it, and the space left once its terminating zero is stored. */
  datatype First = First(token: string, rest: string, left: int)

  function FirstToken(s: string, ignoreQuotes: bool, space: int): (f: First)
    requires s != []
    ensures f.left == space - |f.token| - 1
  {
    if Quoted(s, ignoreQuotes) then
      var n := QuotedLen(s[1..], space);
      var rest := s[1..][n..];
      First(s[1..][..n], if rest == [] then [] else rest[1..], space - n - 1)
    else
      var n := PlainLen(s, ignoreQuotes, space);
      First(s[..n], s[n..], space - n - 1)
  }

  /** The tokens of a text, as far as `slots` entries and `space` characters of buffer reach. */
  function Tokens(t: string, ignoreQuotes: bool, slots: nat, space: int): (r: seq<string>)
    ensures |r| <= slots
    decreases slots
  {
    var s := TokenStart(t);
    if slots == 0 || s == [] then [] else
    var f := FirstToken(s, ignoreQuotes, space);
    if f.left < 2 then [] else [f.token] + Tokens(f.rest, ignoreQuotes, slots - 1, f.left)
  }

  /** How tokens lie in the buffer: each followed by a zero. */
  function Layout(tokens: seq<string>): string {
    if tokens == [] then [] else tokens[0] + [NUL] + Layout(tokens[1..])
  }

  /** `//` ends a token and all tokens. */
  lemma SlashCommentEnds(x: string, ignoreQuotes: bool, slots: nat, space: int)
    ensures Tokens("//" + x, ignoreQuotes, slots, space) == []
    ensures forall k :: PlainLen("//" + x, ignoreQuotes, k) == 0
  {
    assert SlashComment("//" + x);
  }

  lemma {:induction false} CommentEndsAt(t: string, n: nat)
    requires n + 2 <= |t| && t[n] == '*' && t[n + 1] == '/'
    requires forall i :: 0 <= i < n ==> !(t[i] == '*' && t[i + 1] == '/')
    ensures ToCommentEnd(t) == t[n..]
    decreases n
  {
    if n > 0 {
      assert t[1..][n - 1..] == t[n..];
      CommentEndsAt(t[1..], n - 1);
    }
  }

  lemma {:induction false} CommentNeverEnds(t: string)
    requires forall i :: 0 <= i < |t| - 1 ==> !(t[i] == '*' && t[i + 1] == '/')
    ensures ToCommentEnd(t) == []
  {
    if t != [] {
      CommentNeverEnds(t[1..]);
    }
  }

  /** A star comment up to its first closing mark, which may share the star of the opening one, is as if it were not
      there; it ends a token. */
  lemma StarCommentIsNothing(t: string, n: nat, ignoreQuotes: bool, slots: nat, space: int)
    requires 0 < n && n + 2 <= |t| && t[0] == '/' && t[1] == '*' && t[n] == '*' && t[n + 1] == '/'
    requires forall i :: 0 <= i < n ==> !(t[i] == '*' && t[i + 1] == '/')
    ensures Tokens(t, ignoreQuotes, slots, space) == Tokens(t[n + 2..], ignoreQuotes, slots, space)
    ensures forall k :: PlainLen(t, ignoreQuotes, k) == 0
  {
    hide FirstToken;
    CommentEndsAt(t, n);
    assert t[n..][2..] == t[n + 2..];
    assert StarComment(t) && SkipBlanks(t) == t;
  }

  /** One that is never closed takes in the rest. */
  lemma OpenStarComment(t: string, ignoreQuotes: bool, slots: nat, space: int)
    requires |t| >= 2 && t[0] == '/' && t[1] == '*'
    requires forall i :: 0 <= i < |t| - 1 ==> !(t[i] == '*' && t[i + 1] == '/')
    ensures Tokens(t, ignoreQuotes, slots, space) == []
  {
    CommentNeverEnds(t);
    assert StarComment(t) && SkipBlanks(t) == t;
  }

  // ---------------------------------------------------------------------------------------------
  // Joining and tokenising

  predicate NoQuote(t: string) { '"' !in t }

  /** A token that survives being written plainly. */
  predicate Plain(t: string, ignoreQuotes: bool) {
    && t != []
    && (forall c :: c in t ==> c > ' ')
    && (ignoreQuotes || NoQuote(t))
    && (forall i :: 0 <= i < |t| ==> !SlashComment(t[i..]) && !StarComment(t[i..]))
  }

  predicate AllPlain(tokens: seq<string>, ignoreQuotes: bool) {
    forall i :: 0 <= i < |tokens| ==> Plain(tokens[i], ignoreQuotes)
  }

  predicate AllNoQuote(tokens: seq<string>) {
    forall i :: 0 <= i < |tokens| ==> NoQuote(tokens[i])
  }

  /** Cmd_Argsv(0), given enough room. */
  function Join(tokens: seq<string>): string {
    if tokens == [] then [] else if |tokens| == 1 then tokens[0] else tokens[0] + (" " + Join(tokens[1..]))
  }

  /** The tokens quoted and separated by spaces. */
  function JoinQuoted(tokens: seq<string>): string {
    if tokens == [] then []
    else if |tokens| == 1 then ['"'] + (tokens[0] + ['"'])
    else ['"'] + (tokens[0] + (['"'] + (" " + JoinQuoted(tokens[1..]))))
  }

  /** The tokens, each with its terminating zero, leave at least two characters of `space`. */
  predicate Fits(tokens: seq<string>, slots: nat, space: int) {
    |tokens| <= slots && |Layout(tokens)| + 2 <= space
  }

  lemma FitsRest(tokens: seq<string>, slots: nat, space: int)
    requires tokens != [] && Fits(tokens, slots, space)
    ensures slots > 0 && space - |tokens[0]| - 1 >= 2 && Fits(tokens[1..], slots - 1, space - |tokens[0]| - 1)
  {
  }

  lemma {:induction false} SkipBlanksSuffix(t: string)
    ensures SkipBlanks(t) == t[|t| - |SkipBlanks(t)|..]
  {
    if t != [] && t[0] <= ' ' {
      SkipBlanksSuffix(t[1..]);
    }
  }

  lemma {:induction false} ToCommentEndSuffix(t: string)
    ensures ToCommentEnd(t) == t[|t| - |ToCommentEnd(t)|..]
  {
    if t != [] && !CommentEnd(t) {
      ToCommentEndSuffix(t[1..]);
    }
  }

  lemma {:induction false} TokenStartSuffix(t: string)
    ensures TokenStart(t) == t[|t| - |TokenStart(t)|..]
    decreases |t|
  {
    var s := SkipBlanks(t);
    SkipBlanksSuffix(t);
    if !SlashComment(s) && StarComment(s) {
      ToCommentEndSuffix(s);
      var e := ToCommentEnd(s);
      if e != [] {
        TokenStartSuffix(e[2..]);
      }
    }
  }

  /** What a plain token consists of. */
  lemma {:induction false} PlainLenChars(t: string, ignoreQuotes: bool, space: int)
    ensures var n := PlainLen(t, ignoreQuotes, space);
            && (forall i :: 0 <= i < n ==> t[i] > ' ' && (ignoreQuotes || t[i] != '"'))
            && (forall i :: 0 <= i < n ==> !SlashComment(t[i..]) && !StarComment(t[i..]))
    decreases |t|
  {
    var n := PlainLen(t, ignoreQuotes, space);
    if n > 0 {
      PlainLenChars(t[1..], ignoreQuotes, space - 1);
      forall i | 1 <= i < n
        ensures t[i] > ' ' && (ignoreQuotes || t[i] != '"') && !SlashComment(t[i..]) && !StarComment(t[i..])
      {
        assert t[1..][i - 1] == t[i] && t[1..][i - 1..] == t[i..];
      }
    }
  }

  lemma PlainTokenIsPlain(t: string, ignoreQuotes: bool, space: int)
    requires t != [] && t[0] > ' ' && (ignoreQuotes || t[0] != '"') && !SlashComment(t) && !StarComment(t) && space > 1
    ensures Plain(t[..PlainLen(t, ignoreQuotes, space)], ignoreQuotes)
  {
    var n := PlainLen(t, ignoreQuotes, space);
    PlainLenChars(t, ignoreQuotes, space);
    var token := t[..n];
    forall i | 0 <= i < n
      ensures !SlashComment(token[i..]) && !StarComment(token[i..])
    {
      assert |token[i..]| >= 2 ==> token[i..][0] == t[i..][0] && token[i..][1] == t[i..][1];
    }
  }

  /** A token of a text whose quotes do not matter is plain, and so is what follows. */
  lemma FirstTokenIsPlain(t: string, ignoreQuotes: bool, space: int)
    requires space >= 2 && (ignoreQuotes || NoQuote(t)) && TokenStart(t) != []
    ensures var f := FirstToken(TokenStart(t), ignoreQuotes, space);
            Plain(f.token, ignoreQuotes) && (ignoreQuotes || NoQuote(f.rest))
  {
    var s := TokenStart(t);
    TokenStartSuffix(t);
    assert s[0] in t;
    PlainTokenIsPlain(s, ignoreQuotes, space);
  }

  /** The tokens found always fit. */
  lemma {:induction false} TokensFit(t: string, ignoreQuotes: bool, slots: nat, space: int)
    requires space >= 2
    ensures Fits(Tokens(t, ignoreQuotes, slots, space), slots, space)
    decreases slots
  {
    var s := TokenStart(t);
    if slots > 0 && s != [] {
      var f := FirstToken(s, ignoreQuotes, space);
      if f.left >= 2 {
        TokensFit(f.rest, ignoreQuotes, slots - 1, f.left);
        var rest := Tokens(f.rest, ignoreQuotes, slots - 1, f.left);
        assert ([f.token] + rest)[1..] == rest;
      }
    }
  }

  /** From a text without quotes, or with quotes ignored, they are all plain. */
  lemma {:induction false} TokensArePlain(t: string, ignoreQuotes: bool, slots: nat, space: int)
    requires space >= 2 && (ignoreQuotes || NoQuote(t))
    ensures AllPlain(Tokens(t, ignoreQuotes, slots, space), ignoreQuotes)
    decreases slots
  {
    var s := TokenStart(t);
    if slots > 0 && s != [] {
      FirstTokenIsPlain(t, ignoreQuotes, space);
      var f := FirstToken(s, ignoreQuotes, space);
      if f.left >= 2 {
        TokensArePlain(f.rest, ignoreQuotes, slots - 1, f.left);
      }
    }
  }

  lemma FirstTokenNoQuote(s: string, space: int)
    requires s != []
    ensures NoQuote(FirstToken(s, false, space).token)
  {
    hide QuotedLen, PlainLen;
    if s[0] == '"' {
      QuotedLenChars(s[1..], space);
    } else {
      PlainLenChars(s, false, space);
    }
  }

  /** No token holds a quote unless quotes are ignored. */
  lemma {:induction false} TokensHaveNoQuote(t: string, slots: nat, space: int)
    ensures AllNoQuote(Tokens(t, false, slots, space))
    decreases slots
  {
    hide FirstToken, NoQuote, TokenStart;
    var s := TokenStart(t);
    if slots > 0 && s != [] {
      var f := FirstToken(s, false, space);
      FirstTokenNoQuote(s, space);
      if f.left >= 2 {
        TokensHaveNoQuote(f.rest, slots - 1, f.left);
      }
    }
  }

  lemma {:induction false} QuotedLenChars(t: string, space: int)
    ensures NoQuote(t[..QuotedLen(t, space)])
    decreases |t|
  {
    var n := QuotedLen(t, space);
    if n > 0 {
      QuotedLenChars(t[1..], space - 1);
      assert t[..n] == [t[0]] + t[1..][..n - 1];
    }
  }

  /** A blank or the end of the text ends a plain token. */
  predicate Blank(tail: string) { tail == [] || tail[0] <= ' ' }

  lemma {:induction false} PlainLenWhole(u: string, tail: string, ignoreQuotes: bool, space: int)
    requires u == [] || Plain(u, ignoreQuotes)
    requires Blank(tail) && |u| < space
    ensures PlainLen(u + tail, ignoreQuotes, space) == |u|
    decreases |u|
  {
    if u == [] {
      assert u + tail == tail;
    } else {
      var t := u + tail;
      assert u[0..] == u && u[0] in u;
      assert !SlashComment(t) && !StarComment(t) by {
        assert |u| >= 2 ==> t[1] == u[1];
      }
      assert t[1..] == u[1..] + tail;
      if |u| > 1 {
        assert Plain(u[1..], ignoreQuotes) by {
          assert forall c :: c in u[1..] ==> c in u;
          forall i | 0 <= i < |u| - 1
            ensures !SlashComment(u[1..][i..]) && !StarComment(u[1..][i..])
          {
            assert u[1..][i..] == u[i + 1..];
          }
        }
      }
      PlainLenWhole(u[1..], tail, ignoreQuotes, space - 1);
    }
  }

  /** A plain token in front of a blank is read as it stands. */
  lemma PlainTokenRead(u: string, tail: string, ignoreQuotes: bool, space: int)
    requires Plain(u, ignoreQuotes) && Blank(tail) && |u| < space
    ensures TokenStart(u + tail) == u + tail
    ensures FirstToken(u + tail, ignoreQuotes, space) == First(u, tail, space - |u| - 1)
  {
    var t := u + tail;
    assert u[0..] == u && u[0] in u && t[0] == u[0];
    assert !SlashComment(t) && !StarComment(t) by {
      assert |u| >= 2 ==> t[1] == u[1];
    }
    PlainLenWhole(u, tail, ignoreQuotes, space);
  }

  lemma BlankSkipped(t: string, ignoreQuotes: bool, slots: nat, space: int)
    ensures Tokens(" " + t, ignoreQuotes, slots, space) == Tokens(t, ignoreQuotes, slots, space)
  {
    assert (" " + t)[1..] == t;
  }

  lemma PlainTokenFirst(u: string, tail: string, ignoreQuotes: bool, slots: nat, space: int)
    requires Plain(u, ignoreQuotes) && Blank(tail) && slots > 0 && space - |u| - 1 >= 2
    ensures Tokens(u + tail, ignoreQuotes, slots, space) == [u] + Tokens(tail, ignoreQuotes, slots - 1, space - |u| - 1)
  {
    hide TokenStart, FirstToken, Plain;
    assert u + tail != [] by {
      PlainNotEmpty(u, ignoreQuotes);
    }
    PlainTokenRead(u, tail, ignoreQuotes, space);
  }

  lemma PlainNotEmpty(u: string, ignoreQuotes: bool)
    requires Plain(u, ignoreQuotes)
    ensures u != []
  {
  }

  lemma JoinCons(tokens: seq<string>)
    requires tokens != []
    ensures Join(tokens) == tokens[0] + (if |tokens| == 1 then [] else " " + Join(tokens[1..]))
  {
  }

  /** Plain tokens that fit are read back from their join. */
  lemma {:induction false} JoinThenTokens(tokens: seq<string>, ignoreQuotes: bool, slots: nat, space: int)
    requires AllPlain(tokens, ignoreQuotes) && Fits(tokens, slots, space)
    ensures Tokens(Join(tokens), ignoreQuotes, slots, space) == tokens
    decreases slots
  {
    hide Tokens;
    if tokens == [] {
      NoTokens(ignoreQuotes, slots, space);
    } else {
      var u, rest, left := tokens[0], tokens[1..], space - |tokens[0]| - 1;
      FitsRest(tokens, slots, space);
      JoinCons(tokens);
      Cons(tokens);
      if |tokens| == 1 {
        PlainTokenFirst(u, [], ignoreQuotes, slots, space);
        NoTokens(ignoreQuotes, slots - 1, left);
      } else {
        PlainTokenFirst(u, " " + Join(rest), ignoreQuotes, slots, space);
        BlankSkipped(Join(rest), ignoreQuotes, slots - 1, left);
        JoinThenTokens(rest, ignoreQuotes, slots - 1, left);
      }
    }
  }

  lemma Cons<T>(s: seq<T>)
    requires s != []
    ensures s == [s[0]] + s[1..]
  {
  }

  lemma NoTokens(ignoreQuotes: bool, slots: nat, space: int)
    ensures Tokens([], ignoreQuotes, slots, space) == []
  {
  }

  /** Tokenising the joined tokens of a text without quotes (or with quotes ignored) yields the same tokens. */
  lemma TokensOfJoin(t: string, ignoreQuotes: bool, slots: nat, space: int)
    requires space >= 2 && (ignoreQuotes || NoQuote(t))
    ensures var tokens := Tokens(t, ignoreQuotes, slots, space);
            Tokens(Join(tokens), ignoreQuotes, slots, space) == tokens
  {
    TokensArePlain(t, ignoreQuotes, slots, space);
    TokensFit(t, ignoreQuotes, slots, space);
    JoinThenTokens(Tokens(t, ignoreQuotes, slots, space), ignoreQuotes, slots, space);
  }

  lemma {:induction false} JoinNoQuote(tokens: seq<string>)
    requires AllNoQuote(tokens)
    ensures NoQuote(Join(tokens))
  {
    if |tokens| > 1 {
      JoinNoQuote(tokens[1..]);
    }
  }

  /** Among token lists that fit, exactly the plain ones survive joining and tokenising. */
  lemma JoinSurvives(tokens: seq<string>, ignoreQuotes: bool, slots: nat, space: int)
    requires Fits(tokens, slots, space)
    ensures Tokens(Join(tokens), ignoreQuotes, slots, space) == tokens <==> AllPlain(tokens, ignoreQuotes)
  {
    if AllPlain(tokens, ignoreQuotes) {
      JoinThenTokens(tokens, ignoreQuotes, slots, space);
    } else if Tokens(Join(tokens), ignoreQuotes, slots, space) == tokens {
      if !ignoreQuotes {
        TokensHaveNoQuote(Join(tokens), slots, space);
        JoinNoQuote(tokens);
      }
      TokensArePlain(Join(tokens), ignoreQuotes, slots, space);
    }
  }

  lemma {:induction false} QuotedLenWhole(u: string, tail: string, space: int)
    requires NoQuote(u) && |u| < space
    ensures QuotedLen(u + (['"'] + tail), space) == |u|
    decreases |u|
  {
    var t := u + (['"'] + tail);
    if u == [] {
      assert t[0] == '"';
    } else {
      assert t[1..] == u[1..] + (['"'] + tail) && u[0] in u;
      QuotedLenWhole(u[1..], tail, space - 1);
    }
  }

  lemma QuotedTokenRead(u: string, tail: string, space: int)
    requires NoQuote(u) && |u| < space
    ensures var t := ['"'] + (u + (['"'] + tail));
            TokenStart(t) == t && FirstToken(t, false, space) == First(u, tail, space - |u| - 1)
  {
    var t := ['"'] + (u + (['"'] + tail));
    assert t[1..] == u + (['"'] + tail);
    QuotedLenWhole(u, tail, space);
    assert t[1..][|u|..] == ['"'] + tail && t[1..][..|u|] == u;
  }

  lemma QuotedTokenFirst(u: string, tail: string, slots: nat, space: int)
    requires NoQuote(u) && slots > 0 && space - |u| - 1 >= 2
    ensures Tokens(['"'] + (u + (['"'] + tail)), false, slots, space)
        == [u] + Tokens(tail, false, slots - 1, space - |u| - 1)
  {
    hide TokenStart, FirstToken;
    QuotedTokenRead(u, tail, space);
  }

  lemma JoinQuotedCons(tokens: seq<string>)
    requires tokens != []
    ensures JoinQuoted(tokens)
        == ['"'] + (tokens[0] + (['"'] + (if |tokens| == 1 then [] else " " + JoinQuoted(tokens[1..]))))
  {
    assert ['"'] + [] == ['"'];
  }

  /** Any list of tokens without quote characters is read back from its quoted form, if it fits. */
  lemma {:induction false} JoinQuotedThenTokens(tokens: seq<string>, slots: nat, space: int)
    requires AllNoQuote(tokens) && Fits(tokens, slots, space)
    ensures Tokens(JoinQuoted(tokens), false, slots, space) == tokens
    decreases slots
  {
    hide Tokens;
    if tokens == [] {
      NoTokens(false, slots, space);
    } else {
      var u, rest, left := tokens[0], tokens[1..], space - |tokens[0]| - 1;
      FitsRest(tokens, slots, space);
      JoinQuotedCons(tokens);
      Cons(tokens);
      if |tokens| == 1 {
        QuotedTokenFirst(u, [], slots, space);
        NoTokens(false, slots - 1, left);
      } else {
        QuotedTokenFirst(u, " " + JoinQuoted(rest), slots, space);
        BlankSkipped(JoinQuoted(rest), false, slots - 1, left);
        JoinQuotedThenTokens(rest, slots - 1, left);
      }
    }
  }

  // ---------------------------------------------------------------------------------------------
  // The tokenizer object

  lemma {:induction false} LayoutAppend(a: seq<string>, b: seq<string>)
    ensures Layout(a + b) == Layout(a) + Layout(b)
  {
    if a == [] {
      assert a + b == b;
    } else {
      LayoutAppend(a[1..], b);
      assert (a + b)[1..] == a[1..] + b && (a + b)[0] == a[0];
    }
  }

  /** One more token behind others: where it starts, and what the buffer then holds. */
  lemma LayoutPush(a: seq<string>, token: string)
    ensures Layout(a + [token]) == Layout(a) + token + [NUL]
  {
    LayoutAppend(a, [token]);
    assert [token][1..] == [];
  }

  function Flatten(frames: seq<seq<string>>): seq<string> {
    if frames == [] then [] else Flatten(frames[..|frames| - 1]) + frames[|frames| - 1]
  }

  lemma FlattenPush(frames: seq<seq<string>>, top: seq<string>)
    ensures Flatten(frames + [top]) == Flatten(frames) + top
    ensures AllNulFree(Flatten(frames)) && AllNulFree(top) ==> AllNulFree(Flatten(frames + [top]))
  {
    assert (frames + [top])[..|frames|] == frames;
  }

  lemma FlattenPop(frames: seq<seq<string>>)
    requires frames != []
    ensures var outer, top := frames[..|frames| - 1], frames[|frames| - 1];
            Flatten(frames) == Flatten(outer) + top && (AllNulFree(Flatten(frames)) ==> AllNulFree(Flatten(outer)))
  {
    var outer, top := frames[..|frames| - 1], frames[|frames| - 1];
    assert forall i :: 0 <= i < |Flatten(outer)| ==> Flatten(outer)[i] == (Flatten(outer) + top)[i];
  }

  predicate NulFree(t: string) { NUL !in t }

  predicate AllNulFree(tokens: seq<string>) {
    forall i :: 0 <= i < |tokens| ==> NulFree(tokens[i])
  }

  lemma FirstTokenNulFree(t: string, ignoreQuotes: bool, space: int)
    requires NulFree(t) && TokenStart(t) != []
    ensures var f := FirstToken(TokenStart(t), ignoreQuotes, space);
            NulFree(f.token) && NulFree(f.rest)
  {
    TokenStartSuffix(t);
    assert forall c :: c in TokenStart(t) ==> c in t;
    assert forall c :: c in TokenStart(t)[1..] ==> c in TokenStart(t);
  }

  lemma {:induction false} TokensNulFree(t: string, ignoreQuotes: bool, slots: nat, space: int)
    requires NulFree(t)
    ensures AllNulFree(Tokens(t, ignoreQuotes, slots, space))
    decreases slots
  {
    var s := TokenStart(t);
    if slots > 0 && s != [] {
      FirstTokenNulFree(t, ignoreQuotes, space);
      var f := FirstToken(s, ignoreQuotes, space);
      if f.left >= 2 {
        TokensNulFree(f.rest, ignoreQuotes, slots - 1, f.left);
      }
    }
  }

  /** What the buffer holds: `all` the tokens one after the other, and in `argv` where each starts. The entry behind
      the last one is the free position; with no token it may never have been set. */
  ghost predicate Holds(argv: array<int>, tokenized: array<char>, all: seq<string>)
    reads argv, tokenized
  {
    && argv.Length == MAX_STRING_TOKENS + 1 && tokenized.Length == BUFFER_SIZE
    && Fits(all, MAX_STRING_TOKENS, BUFFER_SIZE)
    && tokenized[..|Layout(all)|] == Layout(all)
    && (forall j :: 0 <= j < |all| ==> argv[j] == |Layout(all[..j])|)
    && (argv[|all|] == |Layout(all)| || (all == [] && argv[0] == -1))
  }

  method SkipWhitespace(text: string, i: nat) returns (j: nat)
    requires i <= |text|
    ensures i <= j <= |text| && text[j..] == SkipBlanks(text[i..])
  {
    j := i;
    while j < |text| && text[j] <= ' '
      invariant i <= j <= |text|
      invariant SkipBlanks(text[j..]) == SkipBlanks(text[i..])
    {
      assert text[j..][1..] == text[j + 1..];
      j := j + 1;
    }
  }

  lemma TokenStartStep(t: string)
    ensures var s := SkipBlanks(t);
            TokenStart(t) == if SlashComment(s) then []
                             else if StarComment(s) then
                               var e := ToCommentEnd(s);
                               if e == [] then [] else TokenStart(e[2..])
                             else s
  {
  }

  /** The search for the start of a token. */
  method SkipToToken(text: string, i: nat) returns (j: nat)
    requires i <= |text|
    ensures i <= j <= |text| && text[j..] == TokenStart(text[i..])
  {
    hide TokenStart, SkipBlanks, ToCommentEnd;
    j := i;
    while true
      invariant i <= j <= |text|
      invariant TokenStart(text[j..]) == TokenStart(text[i..])
      decreases |text| - j
    {
      TokenStartStep(text[j..]);
      j := SkipWhitespace(text, j);
      if j == |text| {
        return;
      }
      if j + 1 < |text| && text[j] == '/' && text[j + 1] == '/' {
        return |text|;
      }
      if j + 1 < |text| && text[j] == '/' && text[j + 1] == '*' {
        j := SkipComment(text, j);
        if j == |text| {
          return;
        }
        assert text[j..][2..] == text[j + 2..];
        j := j + 2;
      } else {
        return;
      }
    }
  }

  method SkipComment(text: string, i: nat) returns (j: nat)
    requires i <= |text|
    ensures i <= j <= |text| && text[j..] == ToCommentEnd(text[i..])
  {
    j := i;
    while j < |text| && !(j + 1 < |text| && text[j] == '*' && text[j + 1] == '/')
      invariant i <= j <= |text|
      invariant ToCommentEnd(text[j..]) == ToCommentEnd(text[i..])
    {
      j := j + 1;
    }
  }

  method StoreNext(tokenized: array<char>, at: nat, c: char)
    requires at < tokenized.Length
    modifies tokenized
    ensures tokenized[..at + 1] == old(tokenized[..at]) + [c]
  {
    tokenized[at] := c;
  }

  /** Copies one more character of a token that starts at `i`. */
  method CopyNext(text: string, i: nat, tokenized: array<char>, out: nat, n: nat, ghost before: string)
    requires i + n < |text| && out + n < tokenized.Length && tokenized[..out + n] == before + text[i..i + n]
    modifies tokenized
    ensures tokenized[..out + n + 1] == before + text[i..i + n + 1]
  {
    tokenized[out + n] := text[i + n];
  }

  lemma QuotedStep(text: string, k: nat, space: int)
    requires k <= |text|
    ensures QuotedLen(text[k..], space) ==
            if k == |text| || text[k] == '"' || space <= 1 then 0 else 1 + QuotedLen(text[k + 1..], space - 1)
  {
    if k < |text| {
      assert text[k..][1..] == text[k + 1..];
    }
  }

  lemma PlainStep(text: string, k: nat, ignoreQuotes: bool, space: int)
    requires k <= |text|
    ensures PlainLen(text[k..], ignoreQuotes, space) ==
            if k == |text| || text[k] <= ' ' || space <= 1 || (!ignoreQuotes && text[k] == '"')
               || (k + 1 < |text| && text[k] == '/' && (text[k + 1] == '/' || text[k + 1] == '*'))
            then 0 else 1 + PlainLen(text[k + 1..], ignoreQuotes, space - 1)
  {
    if k < |text| {
      assert text[k..][1..] == text[k + 1..];
    }
  }

  /** Copies a quoted token to the buffer. */
  method CopyQuoted(text: string, i: nat, tokenized: array<char>, out: nat) returns (n: nat)
    requires i <= |text| && out + 2 <= tokenized.Length
    modifies tokenized
    ensures n == QuotedLen(text[i..], tokenized.Length - out) && i + n <= |text| && out + n < tokenized.Length
    ensures tokenized[..out + n] == old(tokenized[..out]) + text[i..i + n]
  {
    hide QuotedLen;
    n := 0;
    var space := tokenized.Length - out;
    ghost var before, len := tokenized[..out], QuotedLen(text[i..], space);
    QuotedStep(text, i, space);
    while i + n < |text| && text[i + n] != '"' && space > 1
      invariant i + n <= |text| && space == tokenized.Length - out - n >= 1
      invariant n + QuotedLen(text[i + n..], space) == len
      invariant tokenized[..out + n] == before + text[i..i + n]
    {
      QuotedStep(text, i + n, space);
      CopyNext(text, i, tokenized, out, n, before);
      n, space := n + 1, space - 1;
    }
    QuotedStep(text, i + n, space);
  }

  /** Copies a plain token to the buffer. */
  method CopyPlain(text: string, i: nat, ignoreQuotes: bool, tokenized: array<char>, out: nat) returns (n: nat)
    requires i <= |text| && out + 2 <= tokenized.Length
    modifies tokenized
    ensures n == PlainLen(text[i..], ignoreQuotes, tokenized.Length - out) && i + n <= |text|
        && out + n < tokenized.Length
    ensures tokenized[..out + n] == old(tokenized[..out]) + text[i..i + n]
  {
    hide PlainLen;
    n := 0;
    var space := tokenized.Length - out;
    ghost var before, len := tokenized[..out], PlainLen(text[i..], ignoreQuotes, space);
    while i + n < |text| && text[i + n] > ' ' && space > 1
      invariant i + n <= |text| && space == tokenized.Length - out - n >= 1
      invariant n + PlainLen(text[i + n..], ignoreQuotes, space) == len
      invariant tokenized[..out + n] == before + text[i..i + n]
    {
      var k := i + n;
      PlainStep(text, k, ignoreQuotes, space);
      if !ignoreQuotes && text[k] == '"' {
        break;
      }
      if k + 1 < |text| && text[k] == '/' && text[k + 1] == '/' {
        break;
      }
      if k + 1 < |text| && text[k] == '/' && text[k + 1] == '*' {
        break;
      }
      CopyNext(text, i, tokenized, out, n, before);
      n, space := n + 1, space - 1;
    }
    PlainStep(text, i + n, ignoreQuotes, space);
  }

  lemma QuotedFirst(text: string, i: nat, n: nat, space: int)
    requires i < |text| && text[i] == '"' && n == QuotedLen(text[i + 1..], space)
    ensures i + 1 + n <= |text|
    ensures FirstToken(text[i..], false, space)
         == First(text[i + 1..i + 1 + n], text[if i + 1 + n < |text| then i + 1 + n + 1 else i + 1 + n..],
             space - n - 1)
  {
    hide QuotedLen;
    assert text[i..][1..] == text[i + 1..];
    var j := i + 1 + n;
    assert text[i + 1..][n..] == text[j..] && text[i + 1..][..n] == text[i + 1..j];
    if j < |text| {
      assert text[j..][1..] == text[j + 1..];
    }
  }

  lemma PlainFirst(text: string, i: nat, n: nat, ignoreQuotes: bool, space: int)
    requires i < |text| && (ignoreQuotes || text[i] != '"') && n == PlainLen(text[i..], ignoreQuotes, space)
    ensures i + n <= |text|
    ensures FirstToken(text[i..], ignoreQuotes, space) == First(text[i..i + n], text[i + n..], space - n - 1)
  {
    hide PlainLen;
    assert text[i..][n..] == text[i + n..] && text[i..][..n] == text[i..i + n];
  }

  /** Copies the token that starts at `i`, with its terminating zero; returns where the text goes on. */
  method CopyToken(text: string, i: nat, ignoreQuotes: bool, tokenized: array<char>, out: nat)
    returns (j: nat, out': nat)
    requires i < |text| && out + 2 <= tokenized.Length
    modifies tokenized
    ensures var f := FirstToken(text[i..], ignoreQuotes, tokenized.Length - out);
            && j <= |text| && text[j..] == f.rest && out' == tokenized.Length - f.left <= tokenized.Length
            && tokenized[..out'] == old(tokenized[..out]) + f.token + [NUL]
  {
    hide PlainLen, QuotedLen, FirstToken;
    var n;
    if !ignoreQuotes && text[i] == '"' {
      n := CopyQuoted(text, i + 1, tokenized, out);
      QuotedFirst(text, i, n, tokenized.Length - out);
      j := i + 1 + n;
      if j < |text| {
        j := j + 1;
      }
    } else {
      n := CopyPlain(text, i, ignoreQuotes, tokenized, out);
      PlainFirst(text, i, n, ignoreQuotes, tokenized.Length - out);
      j := i + n;
    }
    StoreNext(tokenized, out + n, NUL);
    out' := out + n + 1;
  }

  /** One round of the tokenizer, seen from the tokens found before it. */
  lemma TokensStep(t: string, ignoreQuotes: bool, slots: nat, space: int, done: seq<string>)
    ensures var s := TokenStart(t);
            if slots == 0 || s == [] || FirstToken(s, ignoreQuotes, space).left < 2 then
              done + Tokens(t, ignoreQuotes, slots, space) == done
            else
              var f := FirstToken(s, ignoreQuotes, space);
              done + Tokens(t, ignoreQuotes, slots, space)
                  == done + [f.token] + Tokens(f.rest, ignoreQuotes, slots - 1, f.left)
  {
    hide TokenStart, FirstToken;
  }

  /** Counts the token just stored, and sets the new free position. */
  method CountToken(argv: array<int>, tokenized: array<char>, ghost done: seq<string>, ghost token: string,
      argc: nat, out: nat)
    requires argv.Length == MAX_STRING_TOKENS + 1 && tokenized.Length == BUFFER_SIZE
        && argc == |done| < MAX_STRING_TOKENS
    requires out + 2 <= BUFFER_SIZE && tokenized[..out] == Layout(done) + token + [NUL]
    requires forall j :: 0 <= j <= |done| ==> argv[j] == |Layout(done[..j])|
    modifies argv
    ensures Holds(argv, tokenized, done + [token]) && out == |Layout(done + [token])|
    ensures argv[0] == old(argv[0])
  {
    hide Layout;
    LayoutPush(done, token);
    argv[argc + 1] := out;
    ghost var all := done + [token];
    assert all[..|done| + 1] == all;
    forall j | 0 <= j <= |done|
      ensures argv[j] == |Layout(all[..j])|
    {
      assert all[..j] == done[..j];
    }
  }

  /** Cmd_TokenizeStringInternal: adds the tokens of `text` behind those in `all`; returns the new token count. */
  method TokenizeInternal(text: string, ignoreQuotes: bool, argv: array<int>, tokenized: array<char>,
      ghost all: seq<string>, argc0: nat, out0: nat)
    returns (argc: nat)
    requires Holds(argv, tokenized, all) && argc0 == |all| && out0 == |Layout(all)|
    modifies argv, tokenized
    ensures var tokens := Tokens(text, ignoreQuotes, MAX_STRING_TOKENS - argc0, BUFFER_SIZE - out0);
            Holds(argv, tokenized, all + tokens) && argc == argc0 + |tokens|
    ensures argv[0] == if argc0 == 0 && TokenStart(text) != [] then 0 else old(argv[0])
  {
    hide Tokens, TokenStart, FirstToken, Layout;
    LayoutEmpty();
    argc := argc0;
    var i: nat, out: nat := 0, out0;
    ghost var done := all;
    ghost var whole := all + Tokens(text, ignoreQuotes, MAX_STRING_TOKENS - argc0, BUFFER_SIZE - out0);
    assert text[0..] == text;
    while argc != MAX_STRING_TOKENS
      invariant i <= |text| && argc == |done| <= MAX_STRING_TOKENS && out == |Layout(done)|
      invariant Holds(argv, tokenized, done)
      invariant done + Tokens(text[i..], ignoreQuotes, MAX_STRING_TOKENS - argc, BUFFER_SIZE - out) == whole
      invariant argc == 0 ==> argc0 == 0 && i == 0 && argv[0] == old(argv[0])
      invariant argc > 0 ==> argv[0] == if argc0 == 0 && TokenStart(text) != [] then 0 else old(argv[0])
      decreases MAX_STRING_TOKENS - argc
    {
      TokensStep(text[i..], ignoreQuotes, MAX_STRING_TOKENS - argc, BUFFER_SIZE - out, done);
      i := SkipToToken(text, i);
      if i == |text| {
        return;
      }
      StoreStart(argv, tokenized, done, argc, out);
      ghost var f := FirstToken(text[i..], ignoreQuotes, BUFFER_SIZE - out);
      i, out := CopyToken(text, i, ignoreQuotes, tokenized, out);
      if BUFFER_SIZE - out < 2 {
        return;
      }
      CountToken(argv, tokenized, done, f.token, argc, out);
      done := done + [f.token];
      argc := argc + 1;
    }
    TokensStep(text[i..], ignoreQuotes, 0, BUFFER_SIZE - out, done);
  }

  /** argv[argc] := out, which changes it only if it was never set. */
  method StoreStart(argv: array<int>, tokenized: array<char>, ghost done: seq<string>, argc: nat, out: nat)
    requires Holds(argv, tokenized, done) && argc == |done| && out == |Layout(done)|
    modifies argv
    ensures Holds(argv, tokenized, done) && (forall j :: 0 <= j <= |done| ==> argv[j] == |Layout(done[..j])|)
    ensures argv[0] == if argc == 0 then out else old(argv[0])
  {
    assert done[..|done|] == done;
    argv[argc] := out;
  }

  // ---------------------------------------------------------------------------------------------
  // The stack of tokenised strings

  /** What an operation asks for: tokenise a text, or end the innermost string. */
  datatype Op = Tokenize(text: string, ignoreQuotes: bool) | End

  /** The token lists of the strings in use, outermost first. */
  function Push(frames: seq<seq<string>>, text: string, ignoreQuotes: bool): seq<seq<string>> {
    var all := Flatten(frames);
    var slots: nat := if |all| <= MAX_STRING_TOKENS then MAX_STRING_TOKENS - |all| else 0;
    frames + [Tokens(text, ignoreQuotes, slots, BUFFER_SIZE - |Layout(all)|)]
  }

  /** A string nested in others gives its tokens as it would alone, as long as all of them together fit. */
  lemma NestedGives(frames: seq<seq<string>>, tokens: seq<string>, ignoreQuotes: bool)
    requires AllPlain(tokens, ignoreQuotes) && Fits(Flatten(frames) + tokens, MAX_STRING_TOKENS, BUFFER_SIZE)
    ensures Push(frames, Join(tokens), ignoreQuotes) == frames + [tokens]
  {
    hide Tokens, Layout, Flatten, AllPlain, Join;
    var all := Flatten(frames);
    LayoutAppend(all, tokens);
    JoinThenTokens(tokens, ignoreQuotes, MAX_STRING_TOKENS - |all|, BUFFER_SIZE - |Layout(all)|);
  }

  /** The strings in use, how deep they are nested (only 32 are kept), and whether it is known where the free space
      starts, which it is from the first stored token on. */
  datatype Stack = Stack(frames: seq<seq<string>>, depth: nat, used: bool)

  ghost predicate Kept(st: Stack) {
    |st.frames| == (if st.depth < MAX_TOKENIZE_STRINGS then st.depth else MAX_TOKENIZE_STRINGS)
  }

  /** The two fatal errors. */
  predicate Fails(st: Stack, op: Op) {
    match op
    case Tokenize(_, _) => 0 < st.depth < MAX_TOKENIZE_STRINGS && !st.used
    case End => st.depth == 0
  }

  function After(st: Stack, op: Op): Stack
    requires !Fails(st, op)
  {
    match op
    case Tokenize(text, ignoreQuotes) =>
      if st.depth < MAX_TOKENIZE_STRINGS then
        Stack(Push(st.frames, text, ignoreQuotes), st.depth + 1, st.used || TokenStart(text) != [])
      else st.(depth := st.depth + 1)
    case End =>
      var popped := st.depth <= MAX_TOKENIZE_STRINGS && st.frames != [];
      Stack(if popped then st.frames[..|st.frames| - 1] else st.frames, st.depth - 1, st.used)
  }

  /** A run of operations; a fatal error ends it. */
  datatype Outcome = Outcome(st: Stack, fatal: bool)

  function AfterAll(st: Stack, ops: seq<Op>): Outcome
    decreases |ops|
  {
    if ops == [] then Outcome(st, false)
    else if Fails(st, ops[0]) then Outcome(st, true)
    else AfterAll(After(st, ops[0]), ops[1..])
  }

  /** Every End answers a Tokenize of the run: `open` of them are still to be answered. */
  predicate Balanced(ops: seq<Op>, open: nat)
    decreases |ops|
  {
    if ops == [] then open == 0
    else if ops[0].End? then open > 0 && Balanced(ops[1..], open - 1)
    else Balanced(ops[1..], open + 1)
  }

  /** `st` lies `open` strings deeper than `base`, whose strings it still holds. */
  ghost predicate Above(st: Stack, base: Stack, open: nat) {
    Kept(st) && Kept(base) && st.depth == base.depth + open && base.frames <= st.frames && (base.used ==> st.used)
  }

  lemma AboveTokenize(st: Stack, base: Stack, open: nat, op: Op)
    requires Above(st, base, open) && op.Tokenize? && !Fails(st, op)
    ensures Above(After(st, op), base, open + 1)
  {
    hide Tokens, Flatten, Layout, TokenStart;
  }

  lemma AboveEnd(st: Stack, base: Stack, open: nat)
    requires Above(st, base, open) && open > 0
    ensures !Fails(st, End) && Above(After(st, End), base, open - 1)
  {
  }

  /** Nested tokenisation is a stack: a balanced run that ends without a fatal error leaves the strings that were in
      use before it and the depth as they were, however deep it goes; and it ends so if the free space is known. */
  lemma {:induction false} BalancedRunRestores(st: Stack, base: Stack, ops: seq<Op>, open: nat)
    requires Above(st, base, open) && Balanced(ops, open)
    ensures var r := AfterAll(st, ops);
            && (!r.fatal ==> r.st == base.(used := r.st.used) && (base.used ==> r.st.used))
            && (st.used || base.depth >= MAX_TOKENIZE_STRINGS ==> !r.fatal)
    decreases |ops|
  {
    hide After, Fails, Above;
    if ops == [] {
      AboveNothing(st, base);
    } else if ops[0].End? {
      AboveEnd(st, base, open);
      UsedStays(st, End);
      BalancedRunRestores(After(st, End), base, ops[1..], open - 1);
    } else {
      MayTokenize(st, base, open, ops[0]);
      if !Fails(st, ops[0]) {
        AboveTokenize(st, base, open, ops[0]);
        UsedStays(st, ops[0]);
        BalancedRunRestores(After(st, ops[0]), base, ops[1..], open + 1);
      }
    }
  }

  lemma AboveNothing(st: Stack, base: Stack)
    requires Above(st, base, 0)
    ensures st == base.(used := st.used) && (base.used ==> st.used)
  {
  }

  lemma UsedStays(st: Stack, op: Op)
    requires !Fails(st, op)
    ensures st.used ==> After(st, op).used
  {
  }

  lemma MayTokenize(st: Stack, base: Stack, open: nat, op: Op)
    requires Above(st, base, open) && op.Tokenize?
    ensures st.used || base.depth >= MAX_TOKENIZE_STRINGS ==> !Fails(st, op)
  {
  }

  /** In a run from depth 0 some outer string has a token before any string is nested. */
  predicate OuterTokenFirst(ops: seq<Op>)
    decreases |ops|
  {
    ops == [] || ops[0].End? || TokenStart(ops[0].text) != []
    || (|ops| > 1 && ops[1].End? && OuterTokenFirst(ops[2..]))
  }

  /** When a balanced run fails: the free space is unknown, and it nests a string before an outer one has a token. */
  predicate BalancedFails(st: Stack, ops: seq<Op>) {
    !st.used && st.depth < MAX_TOKENIZE_STRINGS && ops != [] && (st.depth > 0 || !OuterTokenFirst(ops))
  }

  lemma {:induction false} BalancedFailsIff(st: Stack, ops: seq<Op>)
    requires Kept(st) && Balanced(ops, 0)
    ensures AfterAll(st, ops).fatal <==> BalancedFails(st, ops)
    decreases |ops|
  {
    hide TokenStart, Push;
    BalancedRunRestores(st, st, ops, 0);
    if !st.used && st.depth == 0 && ops != [] {
      var st' := After(st, ops[0]);
      if TokenStart(ops[0].text) != [] {
        AboveTokenize(st, st, 0, ops[0]);
        BalancedRunRestores(st', st, ops[1..], 1);
      } else if ops[1].End? {
        EmptyStringGone(st, ops[0]);
        assert ops[1..][1..] == ops[2..];
        assert AfterAll(st, ops) == AfterAll(st', ops[1..]) == AfterAll(st, ops[2..]);
        BalancedFailsIff(st, ops[2..]);
        assert OuterTokenFirst(ops) == OuterTokenFirst(ops[2..]);
      } else {
        assert AfterAll(st, ops) == AfterAll(st', ops[1..]);
        assert !OuterTokenFirst(ops);
      }
    }
  }

  lemma EmptyStringGone(st: Stack, op: Op)
    requires Kept(st) && st.depth == 0 && !st.used && op.Tokenize? && TokenStart(op.text) == []
    ensures !Fails(st, op) && !Fails(After(st, op), End) && After(After(st, op), End) == st
  {
    hide TokenStart, Tokens, Flatten, Layout;
  }

  class CmdTokenizer {
    var currentString: nat
    var cmd_argc: nat
    const argcList: array<int>
    const argv: array<int>          // offsets into the buffer, -1 for a null pointer
    const tokenized: array<char>
    ghost var frames: seq<seq<string>>

    /** Up to 32 strings are kept; the counts, the argument vector and the buffer hold their tokens. */
    ghost predicate Valid()
      reads this, argcList, argv, tokenized
    {
      && argcList.Length == MAX_TOKENIZE_STRINGS && argcList != argv
      && |frames| == (if currentString < MAX_TOKENIZE_STRINGS then currentString else MAX_TOKENIZE_STRINGS)
      && (forall k :: 0 <= k < |frames| ==> argcList[k] == |frames[k]|)
      && Holds(argv, tokenized, Flatten(frames))
      && cmd_argc == |Flatten(frames)|
      && AllNulFree(Flatten(frames))
    }

    /** The abstract stack; with no token the first entry of the argument vector tells whether one was ever stored. */
    ghost function St(): Stack
      reads this, argv
      requires argv.Length > 0
    {
      Stack(frames, currentString, argv[0] != -1)
    }

    constructor ()
      ensures Valid() && St() == Stack([], 0, false)
    {
      argcList := new int[MAX_TOKENIZE_STRINGS](_ => 0);
      argv := new int[MAX_STRING_TOKENS + 1](_ => -1);
      tokenized := new char[BUFFER_SIZE](_ => NUL);
      currentString, cmd_argc := 0, 0;
      frames := [];
    }

    /** Tokenises a string into the free space, which starts at `out`. */
    method PushString(text: string, ignoreQuotes: bool, out: nat)
      requires Valid() && NulFree(text) && currentString < MAX_TOKENIZE_STRINGS && out == |Layout(Flatten(frames))|
      modifies this, argcList, argv, tokenized
      ensures Valid() && currentString == old(currentString) + 1 && frames == Push(old(frames), text, ignoreQuotes)
      ensures argv[0] == if old(cmd_argc) == 0 && TokenStart(text) != [] then 0 else old(argv[0])
    {
      hide Tokens, Layout, Flatten, AllNulFree;
      ghost var all := Flatten(frames);
      ghost var tokens := Tokens(text, ignoreQuotes, MAX_STRING_TOKENS - cmd_argc, BUFFER_SIZE - out);
      TokensNulFree(text, ignoreQuotes, MAX_STRING_TOKENS - cmd_argc, BUFFER_SIZE - out);
      var argc := TokenizeInternal(text, ignoreQuotes, argv, tokenized, all, cmd_argc, out);
      argcList[currentString] := argc - cmd_argc;
      cmd_argc := argc;
      FlattenPush(frames, tokens);
      frames := frames + [tokens];
      currentString := currentString + 1;
    }

    /** Cmd_TokenizeString2. A nested string needs to know where the free space starts; if no token was ever stored
        that is a fatal error, and nothing changes. */
    method TokenizeString(text: string, ignoreQuotes: bool) returns (fatal: bool)
      requires Valid() && NulFree(text)
      modifies this, argcList, argv, tokenized
      ensures Valid() && (fatal <==> Fails(old(St()), Tokenize(text, ignoreQuotes)))
      ensures St() == if fatal then old(St()) else After(old(St()), Tokenize(text, ignoreQuotes))
    {
      hide Tokens, Layout, Push, TokenStart;
      LayoutEmpty();
      if currentString < MAX_TOKENIZE_STRINGS {
        var out := 0;
        if currentString > 0 {
          if argv[cmd_argc] == -1 {
            return true;
          }
          out := argv[cmd_argc];
        }
        PushString(text, ignoreQuotes, out);
      } else {
        currentString := currentString + 1;
      }
      fatal := false;
    }

    /** Cmd_EndTokenizedString; ending more strings than were tokenised is a fatal error. */
    method EndTokenizedString() returns (fatal: bool)
      requires Valid()
      modifies this`currentString, this`cmd_argc, this`frames
      ensures Valid() && (fatal <==> Fails(old(St()), End))
      ensures St() == if fatal then old(St()) else After(old(St()), End)
      // the outer strings' argument vector, buffer and free position are untouched
      ensures !fatal && cmd_argc > 0 ==> argv[cmd_argc] == |Layout(Flatten(frames))|
    {
      hide Layout, Flatten, AllNulFree;
      if currentString == 0 {
        return true;
      }
      fatal := false;
      currentString := currentString - 1;
      if currentString < MAX_TOKENIZE_STRINGS {
        ghost var outer, top := frames[..|frames| - 1], frames[|frames| - 1];
        FlattenPop(frames);
        cmd_argc := cmd_argc - argcList[currentString];
        PrefixHeld(argv, tokenized, Flatten(outer), top);
        frames := outer;
      }
    }

    method Perform(op: Op) returns (fatal: bool)
      requires Valid() && (op.Tokenize? ==> NulFree(op.text))
      modifies this, argcList, argv, tokenized
      ensures Valid() && (fatal <==> Fails(old(St()), op))
      ensures St() == if fatal then old(St()) else After(old(St()), op)
    {
      match op
      case Tokenize(text, ignoreQuotes) => fatal := TokenizeString(text, ignoreQuotes);
      case End => fatal := EndTokenizedString();
    }

    /** Any run of calls, up to its end or a fatal error. */
    method PerformAll(ops: seq<Op>) returns (fatal: bool)
      requires Valid() && forall i :: 0 <= i < |ops| && ops[i].Tokenize? ==> NulFree(ops[i].text)
      modifies this, argcList, argv, tokenized
      ensures Valid() && Outcome(St(), fatal) == AfterAll(old(St()), ops)
    {
      hide After, Fails;
      fatal := false;
      var i := 0;
      ghost var whole := AfterAll(St(), ops);
      assert ops[0..] == ops;
      while i < |ops|
        invariant 0 <= i <= |ops| && Valid() && AfterAll(St(), ops[i..]) == whole
      {
        fatal := Perform(ops[i]);
        if fatal {
          return;
        }
        assert ops[i..][1..] == ops[i + 1..];
        i := i + 1;
      }
    }

    /** A balanced run of any depth, nested in any strings: when it is fatal, and else that the strings in use, the
        count of arguments, each of them, their text and the free position are what they were. */
    method PerformBalanced(ops: seq<Op>) returns (fatal: bool)
      requires Valid() && forall i :: 0 <= i < |ops| && ops[i].Tokenize? ==> NulFree(ops[i].text)
      requires Balanced(ops, 0)
      modifies this, argcList, argv, tokenized
      ensures Valid() && (fatal <==> BalancedFails(old(St()), ops))
      ensures old(cmd_argc) > 0 ==> !fatal
      ensures !fatal ==> frames == old(frames) && currentString == old(currentString) && cmd_argc == old(cmd_argc)
      ensures !fatal ==> forall j :: 0 <= j < cmd_argc ==> argv[j] == old(argv[j])
      ensures !fatal && old(argv[0]) != -1 ==> argv[cmd_argc] == old(argv[cmd_argc])
      ensures !fatal ==> var free := |Layout(Flatten(frames))|; tokenized[..free] == old(tokenized[..free])
    {
      hide AfterAll, BalancedFails, Layout, Flatten;
      FirstHeld(argv, tokenized, Flatten(frames));
      BalancedRunRestores(St(), St(), ops, 0);
      BalancedFailsIff(St(), ops);
      fatal := PerformAll(ops);
    }

    ghost function Top(): seq<string>
      reads this, argcList, argv, tokenized
      requires Valid()
    {
      if frames == [] then [] else frames[|frames| - 1]
    }

    /** Cmd_Argc; beyond the supported depth the source reads outside its count list. */
    method Argc() returns (n: int)
      requires Valid() && currentString <= MAX_TOKENIZE_STRINGS
      ensures n == |Top()|
    {
      if currentString == 0 {
        return 0;
      }
      return argcList[currentString - 1];
    }

    method Argv(arg: nat) returns (s: string)
      requires Valid() && currentString <= MAX_TOKENIZE_STRINGS
      ensures s == if arg < |Top()| then Top()[arg] else ""
    {
      hide Layout;
      var argc := Argc();
      if argc == 0 || argc - arg <= 0 {
        return "";
      }
      var final := cmd_argc - argc + arg;
      ghost var all := Flatten(frames);
      assert all[final] == Top()[arg];
      s := ReadString(argv, tokenized, all, final);
    }

    /** Cmd_Argsv: the arguments from `arg` on, joined by blanks and cut to the buffer. */
    method Argsv(arg: nat, bufsize: nat) returns (s: string)
      requires Valid() && currentString <= MAX_TOKENIZE_STRINGS && bufsize > 0
      ensures s == Clip(Join(if arg < |Top()| then Top()[arg..] else []), bufsize - 1)
    {
      hide Join, Clip, Joined, Flatten, Holds;
      var argc := Argc();
      ghost var args := if arg < |Top()| then Top()[arg..] else [];
      var n := bufsize - 1;
      s := "";
      var i := arg;
      JoinedEnds(args, n);
      assert args[..0] == [];
      while i < argc
        invariant arg <= i <= arg + |args| && argc <= arg + |args|
        invariant s == Clip(Joined(args[..i - arg], i < argc), n)
      {
        var token := Argv(i);
        assert args[..i - arg + 1] == args[..i - arg] + [token];
        JoinedPush(args[..i - arg], token, n);
        s := Clip(s + token, n);
        if i != argc - 1 {
          s := Clip(s + " ", n);
        }
        i := i + 1;
      }
      assert args[..i - arg] == args;
    }
  }

  /** Once there are tokens, the first starts the buffer. */
  lemma FirstHeld(argv: array<int>, tokenized: array<char>, all: seq<string>)
    requires Holds(argv, tokenized, all)
    ensures all != [] ==> argv[0] == 0
  {
    LayoutEmpty();
    assert all[..0] == [];
  }

  /** A join that is still to go on ends in a blank. */
  function Joined(a: seq<string>, more: bool): string {
    if a != [] && more then Join(a) + " " else Join(a)
  }

  lemma JoinedEnds(args: seq<string>, n: nat)
    ensures Clip(Joined([], true), n) == "" && Clip(Joined([], false), n) == ""
    ensures Joined(args, false) == Join(args)
  {
  }

  lemma JoinedPush(a: seq<string>, token: string, n: nat)
    ensures Clip(Clip(Joined(a, true), n) + token, n) == Clip(Joined(a + [token], false), n)
    ensures Clip(Clip(Joined(a + [token], false), n) + " ", n) == Clip(Joined(a + [token], true), n)
  {
    hide Join, Clip;
    JoinPush(a, token);
    JoinEmpty(n);
    CutCat(Joined(a, true), token, n);
    CutCat(Joined(a + [token], false), " ", n);
  }

  lemma JoinEmpty(n: nat)
    ensures Join([]) == "" && Clip("", n) == ""
  {
  }

  lemma CutCat(a: string, b: string, n: nat)
    ensures Clip(Clip(a, n) + b, n) == Clip(a + b, n) && ("" + b) == b
  {
  }

  /** What Q_strcat leaves of a string in a buffer with room for `n` characters. */
  function Clip(s: string, n: nat): (r: string)
    ensures r <= s && |r| <= n
  {
    if |s| <= n then s else s[..n]
  }

  lemma {:induction false} JoinPush(a: seq<string>, token: string)
    ensures Join(a + [token]) == if a == [] then token else Join(a) + " " + token
  {
    if |a| == 1 {
      assert (a + [token])[1..] == [token];
    } else if |a| > 1 {
      assert (a + [token])[1..] == a[1..] + [token];
      JoinPush(a[1..], token);
    }
  }

  /** The tokens in front are held as well. */
  lemma PrefixHeld(argv: array<int>, tokenized: array<char>, front: seq<string>, top: seq<string>)
    requires Holds(argv, tokenized, front + top)
    ensures Holds(argv, tokenized, front)
    ensures front != [] ==> argv[|front|] == |Layout(front)|
  {
    hide Layout;
    LayoutAppend(front, top);
    LayoutEmpty();
    forall j | 0 <= j <= |front|
      ensures (front + top)[..j] == front[..j]
    {
    }
    assert front[..|front|] == front;
    if top == [] {
      assert front + top == front;
    }
  }

  /** Reads token `k` from the buffer. */
  method ReadString(argv: array<int>, tokenized: array<char>, ghost all: seq<string>, k: nat) returns (s: string)
    requires Holds(argv, tokenized, all) && k < |all| && AllNulFree(all)
    ensures s == all[k]
  {
    hide Layout;
    LayoutAt(all, k);
    var p := argv[k];
    ghost var token := all[k];
    SubSlice(tokenized, |Layout(all)|, p, p + |token| + 1);
    var n := 0;
    while tokenized[p + n] != NUL
      invariant 0 <= n <= |token| && p + |token| < tokenized.Length
      invariant tokenized[p..p + |token| + 1] == token + [NUL]
      decreases |token| - n
    {
      assert tokenized[p + n] == tokenized[p..p + |token| + 1][n];
      n := n + 1;
    }
    assert tokenized[p + n] == tokenized[p..p + |token| + 1][n];
    EndOfToken(token, n);
    assert tokenized[p..p + n] == tokenized[p..p + |token| + 1][..n];
    s := tokenized[p..p + n];
  }

  lemma SubSlice(a: array<char>, n: nat, p: nat, q: nat)
    requires p <= q <= n <= a.Length
    ensures a[..n][p..q] == a[p..q]
  {
    forall i | 0 <= i < q - p
      ensures a[..n][p..q][i] == a[p..q][i]
    {
    }
  }

  lemma EndOfToken(token: string, n: nat)
    requires NulFree(token) && n <= |token| && (token + [NUL])[n] == NUL
    ensures n == |token|
  {
    assert forall i :: 0 <= i < |token| ==> token[i] in token && token[i] != NUL;
  }

  lemma LayoutAt(all: seq<string>, k: nat)
    requires k < |all|
    ensures var p := |Layout(all[..k])|;
            p + |all[k]| + 1 <= |Layout(all)| && Layout(all)[p..p + |all[k]| + 1] == all[k] + [NUL]
  {
    hide Layout;
    LayoutAppend(all[..k + 1], all[k + 1..]);
    LayoutPush(all[..k], all[k]);
    assert all == all[..k + 1] + all[k + 1..] && all[..k + 1] == all[..k] + [all[k]];
  }

  lemma LayoutEmpty()
    ensures Layout([]) == []
  {
  }
}
