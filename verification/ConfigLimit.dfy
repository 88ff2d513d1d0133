/** How long a saved line may be: the exact bound for every registry. */
module ConfigLimit {
  import opened CString
  import opened CommandBuffer
  import opened Tokenizer
  import opened Cvars
  import opened Config
  import opened OtherCommands

  // ---------------------------------------------------------------------------------------------
  // Tokens are not longer than their text

  /** A plain token may not start here. */
  predicate NoPlainStart(t: string) {
    t == [] || t[0] <= ' ' || t[0] == '"' || SlashComment(t) || StarComment(t)
  }

  lemma BlankIsSkipped(t: string)
    requires t != [] && t[0] <= ' '
    ensures |TokenStart(t)| < |t|
  {
  }

  lemma CommentIsSkipped(t: string)
    requires SlashComment(t) || StarComment(t)
    ensures |TokenStart(t)| < |t|
  {
    assert SkipBlanks(t) == t;
  }

  lemma {:induction false} PlainStops(t: string, space: int)
    ensures var n := PlainLen(t, false, space); NoPlainStart(t[n..]) || space - n <= 1
    decreases |t|
  {
    hide SlashComment, StarComment;
    if !NoPlainStart(t) && space > 1 {
      PlainStops(t[1..], space - 1);
      assert t[1..][PlainLen(t[1..], false, space - 1)..] == t[PlainLen(t, false, space)..];
    }
  }

  lemma QuoteStarts(t: string)
    requires t != [] && t[0] == '"'
    ensures TokenStart(t) == t
  {
  }

  /** The tokens with a character each between them fit the text and one more character; and where no plain token can
      start they fit the text itself. */
  lemma {:induction false} TokensShort(t: string, slots: nat, space: int)
    ensures |Layout(Tokens(t, false, slots, space))| <= |t| + 1
    ensures NoPlainStart(t) ==> |Layout(Tokens(t, false, slots, space))| <= |t|
    decreases slots
  {
    hide TokenStart, FirstToken, SlashComment, StarComment;
    var s := TokenStart(t);
    TokensUnfold(t, slots, space);
    if slots > 0 && s != [] {
      var f := FirstToken(s, false, space);
      if f.left >= 2 {
        TokensShort(f.rest, slots - 1, f.left);
        FirstShort(s, space);
        StartShort(t);
      }
    }
  }

  lemma TokensUnfold(t: string, slots: nat, space: int)
    ensures var s, r := TokenStart(t), Tokens(t, false, slots, space);
            if slots == 0 || s == [] || FirstToken(s, false, space).left < 2 then |Layout(r)| == 0
            else var f := FirstToken(s, false, space);
                 |Layout(r)| == |f.token| + 1 + |Layout(Tokens(f.rest, false, slots - 1, f.left))|
  {
    hide TokenStart, FirstToken;
    var s := TokenStart(t);
    if slots > 0 && s != [] && FirstToken(s, false, space).left >= 2 {
      var f := FirstToken(s, false, space);
      assert ([f.token] + Tokens(f.rest, false, slots - 1, f.left))[1..] == Tokens(f.rest, false, slots - 1, f.left);
    }
  }

  lemma StartShort(t: string)
    ensures NoPlainStart(t) && !(TokenStart(t) != [] && TokenStart(t)[0] == '"') ==> |TokenStart(t)| < |t| || t == []
  {
    hide TokenStart;
    if t != [] && t[0] <= ' ' {
      BlankIsSkipped(t);
    } else if SlashComment(t) || StarComment(t) {
      CommentIsSkipped(t);
    } else if t != [] && t[0] == '"' {
      QuoteStarts(t);
    }
  }

  /** A quoted token leaves two characters fewer, one if it is never closed; a plain one ends where none can start. */
  lemma FirstShort(s: string, space: int)
    requires s != [] && FirstToken(s, false, space).left >= 2
    ensures var f := FirstToken(s, false, space);
            if s[0] == '"' then |f.token| + |f.rest| + 2 <= |s| || (f.rest == [] && |f.token| + 1 == |s|)
            else |f.token| + |f.rest| == |s| && NoPlainStart(f.rest)
  {
    hide SlashComment, StarComment, QuotedLen, PlainLen, NoPlainStart;
    PlainStops(s, space);
  }

  // ---------------------------------------------------------------------------------------------
  // What one line can set

  lemma {:induction false} CombineShort(args: seq<string>, l: nat)
    ensures args != [] ==> |Combine(args, l)| < |Layout(args)|
    ensures args == [] ==> Combine(args, l) == ""
    decreases |args|
  {
    if args != [] {
      CombineShort(args[1..], l + if args[0] == [] then 0 else |args[0]| - 1);
    }
  }

  lemma LayoutParts(args: seq<string>)
    requires |args| >= 2
    ensures |Layout(args)| == |args[0]| + 1 + (|args[1]| + 1 + |Layout(args[2..])|)
  {
    assert args[1..][1..] == args[2..];
  }

  lemma FoldLength(a: string, b: string)
    requires EqualFold(a, b)
    ensures |a| == |b|
  {
  }

  /** The room that a line has for names and values. */
  lemma LineRoom(line: string)
    ensures var args := Tokens(line, false, MAX_STRING_TOKENS, BUFFER_SIZE);
            && (|args| >= 2 ==> |args[0]| + |args[1]| < |line|)
            && (|args| >= 3 && IsSet(args[0]) ==> |args[1]| + |Combine(args[2..], 0)| + 5 <= |line|)
  {
    hide Tokens, Combine, Layout, EqualFold;
    var args := Tokens(line, false, MAX_STRING_TOKENS, BUFFER_SIZE);
    TokensShort(line, MAX_STRING_TOKENS, BUFFER_SIZE);
    if |args| >= 2 {
      LayoutParts(args);
      CombineShort(args[2..], 0);
      if EqualFold(args[0], "seta") {
        FoldLength(args[0], "seta");
      } else if EqualFold(args[0], "set") {
        FoldLength(args[0], "set");
      }
    }
  }

  // ---------------------------------------------------------------------------------------------
  // What no text can load

  /** The values are strings; with the name they fit the one line that set them. */
  predicate Bounded(v: Cvar) {
    && v.current.Str? && v.latched.Str? && v.reset.Str?
    && |v.name| + |v.reset.s| <= MAX_CMD_LINE - 6
    && |v.name| + |v.current.s| <= MAX_CMD_LINE - 2 && |v.name| + |v.latched.s| <= MAX_CMD_LINE - 2
  }

  ghost predicate AllBounded(st: State) { forall i :: 0 <= i < |st.vars| ==> Bounded(st.vars[i]) }

  lemma SetFoundBounded(v: Cvar, text: string, cheats: bool)
    requires Bounded(v) && |v.name| + |text| <= MAX_CMD_LINE - 2
    ensures Bounded(SetFound(v, text, false, cheats))
  {
    hide EqualFold;
  }

  lemma FreshBounded(name: string, text: string)
    requires |name| + |text| <= MAX_CMD_LINE - 6
    ensures Bounded(Fresh(name, {USER_CREATED}, Str(text), 0, 0))
  {
  }

  lemma UpdateBounded(st: State, k: nat, v: Cvar)
    requires AllBounded(st) && k < |st.vars| && Bounded(v)
    ensures AllBounded(st.(vars := st.vars[k := v]))
  {
    hide Bounded;
  }

  lemma SetBounded(st: State, name: string, text: string)
    requires AllBounded(st) && |name| + |text| <= MAX_CMD_LINE - 2
    requires ScanVar(st.vars, name) < 0 ==> |name| + |text| <= MAX_CMD_LINE - 6
    ensures AllBounded(SetByName(st, name, text, false))
  {
    hide SetFound, ScanVar, Bounded, ValidName, EqualFold;
    var k := ScanVar(st.vars, name);
    if k >= 0 {
      ScanFolds(st.vars, name);
      FoldLength(name, st.vars[k].name);
      SetFoundBounded(st.vars[k], text, st.cheats);
      UpdateBounded(st, k, SetFound(st.vars[k], text, false, st.cheats));
    } else {
      FreshBounded(name, text);
    }
  }

  lemma ScanFolds(vars: seq<Cvar>, name: string)
    ensures var k := ScanVar(vars, name); k >= 0 ==> EqualFold(name, vars[k].name) && ScanVar(vars, vars[k].name) >= 0
  {
    hide EqualFold;
    var k := ScanVar(vars, name);
    if k >= 0 {
      SelfFold(vars[k].name);
    }
  }

  lemma FlagBounded(st: State, name: string, flag: Flag)
    requires AllBounded(st)
    ensures AllBounded(AddFlag(st, name, flag))
  {
    hide ScanVar;
  }

  lemma LineBounded(st: State, line: string)
    requires AllBounded(st) && |line| < MAX_CMD_LINE
    ensures AllBounded(ExecuteLine(st, line))
  {
    hide Tokens, SetByName, AddFlag, AllBounded, Combine, Layout, EqualFold, ScanVar;
    var args := Tokens(line, false, MAX_STRING_TOKENS, BUFFER_SIZE);
    LineRoom(line);
    if |args| >= 2 {
      if IsSet(args[0]) {
        if |args| >= 3 {
          SetBounded(st, args[1], Combine(args[2..], 0));
          FlagBounded(SetCommand(st, args), args[1], ARCHIVE);
        }
      } else if ScanVar(st.vars, args[0]) >= 0 {
        ScanFolds(st.vars, args[0]);
        FoldLength(args[0], st.vars[ScanVar(st.vars, args[0])].name);
        SetBounded(st, st.vars[ScanVar(st.vars, args[0])].name, args[1]);
      }
    }
  }

  ghost predicate LinesFit(lines: seq<string>) { forall i :: 0 <= i < |lines| ==> |lines[i]| < MAX_CMD_LINE }

  lemma {:induction false} SplitLinesFit(text: string, star: bool, slash: bool)
    ensures LinesFit(SplitText(text, star, slash).lines)
    decreases |text|
  {
    hide Take;
    if text != [] {
      var t := Take(text, star, slash);
      SplitLinesFit(t.rest, t.star, t.slash);
    }
  }

  lemma {:induction false} LinesBounded(st: State, lines: seq<string>)
    requires AllBounded(st) && LinesFit(lines)
    ensures AllBounded(ExecuteAll(st, lines))
    decreases |lines|
  {
    hide AllBounded, ExecuteLine;
    if lines != [] {
      LineBounded(st, lines[0]);
      LinesBounded(ExecuteLine(st, lines[0]), lines[1..]);
    }
  }

  /** From an empty registry no text without other commands loads a variable whose name and value have more than 1022
      characters together, nor one whose name and reset value have more than 1018. */
  lemma NoTextLoads(others: string -> bool, text: string, cheats: bool, cheating: bool, script: seq<Reply>)
    requires NoOthers(others, text)
    ensures AllBounded(LoadAmong(others, Empty(cheats, cheating), text, script))
  {
    hide SplitText, ExecuteAll, Run, LinesFit, Bounded, LoadAmong, NoOthers;
    QuietLoad(others, Empty(cheats, cheating), text, script);
    QuietRun(text + "\n", 0, false, false);
    SplitLinesFit(text + "\n", false, false);
    LinesBounded(Empty(cheats, cheating), SplitText(text + "\n", false, false).lines);
  }

  // ---------------------------------------------------------------------------------------------
  // Which lines give a variable its value

  /** If the variable is of this name, none of its values is this one. */
  predicate Lacks(v: Cvar, name: string, text: string) {
    EqualFold(v.name, name) ==> v.current != Str(text) && v.latched != Str(text) && v.reset != Str(text)
  }

  ghost predicate Absent(st: State, name: string, text: string) {
    forall i :: 0 <= i < |st.vars| ==> Lacks(st.vars[i], name, text)
  }

  /** The line is not a command that sets the name to the text. */
  ghost predicate Harmless(line: string, name: string, text: string) {
    var args := Tokens(line, false, MAX_STRING_TOKENS, BUFFER_SIZE);
    && (|args| >= 3 && IsSet(args[0]) && EqualFold(args[1], name) ==> Combine(args[2..], 0) != text)
    && (|args| >= 2 && !IsSet(args[0]) && EqualFold(args[0], name) ==> args[1] != text)
  }

  lemma SetFoundLacks(v: Cvar, value: string, cheats: bool, name: string, text: string)
    requires Lacks(v, name, text) && (EqualFold(v.name, name) ==> value != text)
    ensures Lacks(SetFound(v, value, false, cheats), name, text)
  {
    hide EqualFold;
  }

  lemma SetAbsent(st: State, name: string, value: string, n: string, text: string)
    requires Absent(st, n, text) && (EqualFold(name, n) ==> value != text)
    ensures Absent(SetByName(st, name, value, false), n, text)
  {
    hide SetFound, ScanVar, ValidName, EqualFold, Lacks;
    var k := ScanVar(st.vars, name);
    if k >= 0 {
      ScanFolds(st.vars, name);
      EqualFoldEquivalence(name, st.vars[k].name, n);
      SetFoundLacks(st.vars[k], value, st.cheats, n, text);
    } else {
      FreshLacks(name, value, n, text);
    }
  }

  lemma FreshLacks(name: string, value: string, n: string, text: string)
    requires EqualFold(name, n) ==> value != text
    ensures Lacks(Fresh(name, {USER_CREATED}, Str(value), 0, 0), n, text)
  {
    hide EqualFold;
  }

  lemma FlagAbsent(st: State, name: string, flag: Flag, n: string, text: string)
    requires Absent(st, n, text)
    ensures Absent(AddFlag(st, name, flag), n, text)
  {
    hide ScanVar;
  }

  lemma LineAbsent(st: State, line: string, name: string, text: string)
    requires Absent(st, name, text) && Harmless(line, name, text)
    ensures Absent(ExecuteLine(st, line), name, text)
  {
    hide Tokens, SetByName, AddFlag, Absent, Combine, EqualFold, ScanVar;
    var args := Tokens(line, false, MAX_STRING_TOKENS, BUFFER_SIZE);
    if |args| >= 2 {
      if IsSet(args[0]) {
        if |args| >= 3 {
          SetAbsent(st, args[1], Combine(args[2..], 0), name, text);
          FlagAbsent(SetCommand(st, args), args[1], ARCHIVE, name, text);
        }
      } else if ScanVar(st.vars, args[0]) >= 0 {
        ScanFolds(st.vars, args[0]);
        EqualFoldEquivalence(args[0], st.vars[ScanVar(st.vars, args[0])].name, name);
        SetAbsent(st, st.vars[ScanVar(st.vars, args[0])].name, args[1], name, text);
      }
    }
  }

  ghost predicate AllHarmless(lines: seq<string>, name: string, text: string) {
    forall i :: 0 <= i < |lines| ==> Harmless(lines[i], name, text)
  }

  lemma {:induction false} LinesAbsent(st: State, lines: seq<string>, name: string, text: string)
    requires Absent(st, name, text) && AllHarmless(lines, name, text)
    ensures Absent(ExecuteAll(st, lines), name, text)
    decreases |lines|
  {
    hide Absent, ExecuteLine, Harmless;
    if lines != [] {
      LineAbsent(st, lines[0], name, text);
      LinesAbsent(ExecuteLine(st, lines[0]), lines[1..], name, text);
    }
  }

  lemma ShortHarmless(line: string, name: string, text: string)
    requires |line| <= |name| + |text|
    ensures Harmless(line, name, text)
  {
    hide Tokens, Combine, EqualFold;
    LineRoom(line);
    var args := Tokens(line, false, MAX_STRING_TOKENS, BUFFER_SIZE);
    if |args| >= 2 && EqualFold(args[1], name) {
      FoldLength(args[1], name);
    }
    if |args| >= 2 && EqualFold(args[0], name) {
      FoldLength(args[0], name);
    }
  }

  lemma CombineOne(text: string)
    requires |text| < COMBINED_BUFFER - 2
    ensures Combine([text], 0) == text
  {
    assert [text][1..] == [] && text + "" + Combine([], 0) == text;
  }

  /** The tokens of a saved line, whole or cut off inside its value, set that variable to what is left of the value. */
  lemma SetaHarmless(line: string, u: string, part: string, name: string, text: string)
    requires Tokens(line, false, MAX_STRING_TOKENS, BUFFER_SIZE) == ["seta", u, part]
    requires |part| < COMBINED_BUFFER - 2 && (!EqualFold(u, name) || part != text)
    ensures Harmless(line, name, text)
  {
    hide Tokens, Combine, EqualFold;
    SelfFold("seta");
    CombineOne(part);
    assert ["seta", u, part][2..] == [part];
  }

  // ---------------------------------------------------------------------------------------------
  // A saved line of at most 1030 characters leaves next to nothing behind

  /** What is handed out of a longer line, and what is left of it. */
  lemma TakeLong(name: string, text: string, more: string)
    requires GoodName(name) && GoodText(text) && |name| + |text| + 8 >= MAX_CMD_LINE
    ensures var c := Command(name, text);
            |c| == |name| + |text| + 8
            && Take(c + ("\n" + more), false, false)
               == Taken(c[..MAX_CMD_LINE - 1], [c[MAX_CMD_LINE - 1]], c[MAX_CMD_LINE..] + ("\n" + more), false, false)
  {
    hide Scan, Bare;
    var c, p := Command(name, text), "seta " + (name + " ");
    NameIsBare(name);
    ScanCommand(p, text, more);
    assert c == p + (['"'] + (text + ['"']));
    var all := c + ("\n" + more);
    assert all[..MAX_CMD_LINE - 1] == c[..MAX_CMD_LINE - 1] && all[MAX_CMD_LINE - 1] == c[MAX_CMD_LINE - 1];
    assert all[MAX_CMD_LINE..] == c[MAX_CMD_LINE..] + ("\n" + more);
  }

  /** Nothing in the text begins a comment. */
  ghost predicate NoComment(a: string) {
    forall i :: 0 <= i < |a| - 1 && a[i] == '/' ==> a[i + 1] != '/' && a[i + 1] != '*'
  }

  lemma StepPlain(a: string, i: nat, quoted: bool)
    requires NoComment(a) && i < |a|
    ensures var (m, stop) := Step(Pair(a, i), Mode(quoted, false, false));
            !m.star && !m.slash && stop != Next && (IsNewline(a[i]) ==> stop == Here)
  {
  }

  lemma {:induction false} ScanPlain(a: string, i: nat, quoted: bool)
    requires NoComment(a) && EndsLine(a) && i < |a|
    ensures var (at, m) := Scan(a, i, Mode(quoted, false, false)); at < |a| && !m.star && !m.slash
    decreases |a| - i
  {
    hide Step, Pair;
    StepPlain(a, i, quoted);
    var (m, stop) := Step(Pair(a, i), Mode(quoted, false, false));
    if stop == Go {
      ScanPlain(a, i + 1, m.quoted);
    }
  }

  /** Text without comments that ends its line is closed. */
  lemma {:induction false} PlainIsClosed(a: string)
    requires NoComment(a) && (a == [] || EndsLine(a))
    ensures Closed(a, false, false)
    ensures var s := SplitText(a, false, false); !s.star && !s.slash
    decreases |a|
  {
    hide Scan, NoComment;
    if a != [] {
      ScanPlain(a, 0, false);
      var t := Take(a, false, false);
      RestPlain(a, t.line, t.removed, t.rest);
      PlainIsClosed(t.rest);
    }
  }

  lemma RestPlain(a: string, line: string, removed: string, rest: string)
    requires NoComment(a) && EndsLine(a) && a == line + removed + rest
    ensures NoComment(rest) && (rest == [] || EndsLine(rest))
  {
    var n := |line| + |removed|;
    assert forall i :: 0 <= i < |rest| ==> rest[i] == a[n + i];
    forall i | 0 <= i < |rest| - 1 && rest[i] == '/'
      ensures rest[i + 1] != '/' && rest[i + 1] != '*'
    {
      assert a[n + i] == '/' && rest[i + 1] == a[n + i + 1];
    }
  }

  /** What is left of a cut line behind the 1024 characters that are handed out or removed. */
  function Rest(name: string, text: string): string {
    var c := Command(name, text);
    if |c| > MAX_CMD_LINE then c[MAX_CMD_LINE..] else ""
  }

  /** Nothing is cut off, or at most six characters without a comment mark. */
  ghost predicate TidyEnd(v: Cvar) {
    LineLength(v) <= MAX_CMD_LINE + 6 && NoComment(Rest(v.name, SavedText(v)) + "\n")
  }

  /** Of one or two characters the last is the closing quote, which makes no comment mark. */
  lemma TinyIsTidy(v: Cvar)
    requires LineLength(v) <= MAX_CMD_LINE + 2
    ensures TidyEnd(v)
  {
    hide SavedText;
    CommandLength(v.name, SavedText(v));
    var c, r := Command(v.name, SavedText(v)), Rest(v.name, SavedText(v));
    assert r != [] ==> r[|r| - 1] == c[|c| - 1];
  }

  lemma TinyLines(a: string, more: string, name: string, text: string)
    requires NoComment(a) && EndsLine(a) && |a| <= 7 && |name| + |text| >= MAX_CMD_LINE - 7
    requires AllHarmless(SplitText(more, false, false).lines, name, text)
    ensures AllHarmless(SplitText(a + more, false, false).lines, name, text)
  {
    hide Harmless, SplitText, NoComment, Closed;
    PlainIsClosed(a);
    ClosedTextFirst(a, more, false, false);
    var lines, back := SplitText(a, false, false).lines, SplitText(more, false, false).lines;
    LinesAtMost(a, false, false, 7);
    forall i | 0 <= i < |lines + back|
      ensures Harmless((lines + back)[i], name, text)
    {
      if i < |lines| {
        ShortHarmless(lines[i], name, text);
      }
    }
  }

  ghost predicate AtMost(lines: seq<string>, n: nat) { forall i :: 0 <= i < |lines| ==> |lines[i]| <= n }

  lemma {:induction false} LinesAtMost(text: string, star: bool, slash: bool, n: nat)
    requires |text| <= n
    ensures AtMost(SplitText(text, star, slash).lines, n)
    decreases |text|
  {
    hide Take;
    if text != [] {
      var t := Take(text, star, slash);
      LinesAtMost(t.rest, t.star, t.slash, n);
      assert |t.line| <= |t.line + t.removed + t.rest|;
    }
  }

  // ---------------------------------------------------------------------------------------------
  // The lines of a saved registry

  /** The line handed out for one variable creates at most that variable, and with all of its value only if it fits. */
  lemma FirstHarmless(u: string, value: string, name: string, text: string)
    requires GoodName(u) && GoodText(value) && |u| + |value| + 8 <= MAX_CMD_LINE + 6
    requires !EqualFold(u, name) || (value == text && |u| + |value| + 8 > MAX_CMD_LINE)
    ensures var c := Command(u, value);
            Harmless(if |c| < MAX_CMD_LINE then c else c[..MAX_CMD_LINE - 1], name, text)
  {
    hide Tokens, GoodName, NoQuote, Harmless, Command, CutCommand, EqualFold;
    CommandLength(u, value);
    if |u| + |value| + 8 < MAX_CMD_LINE {
      CommandTokens(u, value);
      SetaHarmless(Command(u, value), u, value, name, text);
    } else if |u| <= MAX_CMD_LINE - 8 {
      var part := Carried(u, value);
      CutAt(u, value, "");
      assert Command(u, value) + "" == Command(u, value);
      FrontNoQuote(value, |part|);
      CutTokens(u, part);
      assert |part| < |value| || |u| + |value| + 8 <= MAX_CMD_LINE;
      SetaHarmless(CutCommand(u, part), u, part, name, text);
    } else {
      var begin := NameOnly(u, value);
      TwoHarmless(Command(u, value)[..MAX_CMD_LINE - 1], begin, name, text);
    }
  }

  lemma CommandLength(name: string, text: string)
    ensures |Command(name, text)| == |name| + |text| + 8 && Command(name, text)[|name| + |text| + 7] == '"'
  {
  }

  lemma TwoHarmless(line: string, u: string, name: string, text: string)
    requires Tokens(line, false, MAX_STRING_TOKENS, BUFFER_SIZE) == ["seta", u]
    ensures Harmless(line, name, text)
  {
    hide Tokens, EqualFold;
    SelfFold("seta");
  }

  lemma FrontPlain(name: string, n: nat)
    requires Plain(name, false) && 0 < n <= |name|
    ensures Plain(name[..n], false)
  {
    forall i | 0 <= i < n
      ensures !SlashComment(name[..n][i..]) && !StarComment(name[..n][i..])
    {
      assert !SlashComment(name[i..]) && !StarComment(name[i..]);
      assert i + 1 < n ==> name[..n][i..][1] == name[i..][1];
    }
    assert forall i :: 0 <= i < n ==> name[..n][i] in name;
  }

  /** Of a name that fills the line no value is left at all. */
  lemma NameOnly(name: string, text: string) returns (begin: string)
    requires GoodName(name) && MAX_CMD_LINE - 8 < |name| && |name| + |text| + 8 <= MAX_CMD_LINE + 6
    requires |name| + |text| + 8 >= MAX_CMD_LINE
    ensures Tokens(Command(name, text)[..MAX_CMD_LINE - 1], false, MAX_STRING_TOKENS, BUFFER_SIZE) == ["seta", begin]
  {
    hide Tokens, TokenStart, FirstToken, Plain, Blank;
    var tail := if |name| == MAX_CMD_LINE - 7 then " " else "";
    begin := if |name| <= MAX_CMD_LINE - 6 then name else name[..MAX_CMD_LINE - 6];
    FrontPlain(name, |begin|);
    assert name[..|begin|] == begin;
    NameFills(name, text, begin, tail);
    SetaIsPlain();
    BlankBefore(begin + tail);
    PlainTokenFirst("seta", " " + (begin + tail), false, 1024, 9216);
    BlankSkipped(begin + tail, false, 1023, 9211);
    TailBlank(tail);
    PlainTokenFirst(begin, tail, false, 1023, 9211);
    if tail == " " {
      assert tail == " " + "";
      BlankSkipped("", false, 1022, 9210 - |begin|);
    }
    NoTokens(false, 1022, 9210 - |begin|);
  }

  lemma TailBlank(tail: string)
    requires tail == "" || tail == " "
    ensures Blank(tail)
  {
  }

  lemma NameFills(name: string, text: string, begin: string, tail: string)
    requires MAX_CMD_LINE - 8 < |name| && begin == if |name| <= MAX_CMD_LINE - 6 then name else name[..MAX_CMD_LINE - 6]
    requires tail == if |name| == MAX_CMD_LINE - 7 then " " else ""
    ensures Command(name, text)[..MAX_CMD_LINE - 1] == "seta" + (" " + (begin + tail))
  {
    var c, behind := Command(name, text), " " + (['"'] + (text + ['"']));
    assert c == "seta " + name + behind;
    assert name == begin + name[|begin|..];
    assert c == "seta " + begin + (name[|begin|..] + behind);
  }

  /** One archived variable and what follows it. */
  lemma CommandHarmless(u: Cvar, more: string, name: string, text: string)
    requires Readable(u) && ARCHIVE in u.flags && TidyEnd(u)
    requires !EqualFold(u.name, name) || (SavedText(u) == text && |u.name| + |SavedText(u)| + 8 > MAX_CMD_LINE)
    requires |name| + |text| >= MAX_CMD_LINE - 7
    requires AllHarmless(SplitText(more, false, false).lines, name, text)
    ensures AllHarmless(SplitText(Command(u.name, SavedText(u)) + ("\n" + more), false, false).lines, name, text)
  {
    hide Take, Harmless, SplitText, GoodName, GoodText, Command, SavedText, NoComment, EqualFold;
    var value := SavedText(u);
    var c := Command(u.name, value);
    CommandLength(u.name, value);
    FirstHarmless(u.name, value, name, text);
    if |c| < MAX_CMD_LINE {
      SplitCommand(u.name, value, more);
      HarmlessFirst(c, SplitText(more, false, false).lines, name, text);
    } else {
      var a := Rest(u.name, value) + "\n";
      assert c[MAX_CMD_LINE..] == Rest(u.name, value);
      TakeLong(u.name, value, more);
      TinyLines(a, more, name, text);
      assert c[MAX_CMD_LINE..] + ("\n" + more) == a + more;
      SplitFirst(c + ("\n" + more));
      HarmlessFirst(c[..MAX_CMD_LINE - 1], SplitText(a + more, false, false).lines, name, text);
    }
  }

  lemma HarmlessFirst(line: string, lines: seq<string>, name: string, text: string)
    requires Harmless(line, name, text) && AllHarmless(lines, name, text)
    ensures AllHarmless([line] + lines, name, text)
  {
    hide Harmless;
  }

  /** A name and a text that saving and the tokenizer can carry at all. */
  predicate Readable(v: Cvar) { ARCHIVE in v.flags ==> GoodName(v.name) && GoodText(SavedText(v)) }

  ghost predicate AllReadable(vars: seq<Cvar>) { forall i :: 0 <= i < |vars| ==> Readable(vars[i]) }

  /** The number of characters of a variable's saved line. */
  function LineLength(v: Cvar): nat { |v.name| + |SavedText(v)| + 8 }

  ghost predicate LinesWithin(vars: seq<Cvar>, n: nat) {
    forall i :: 0 <= i < |vars| && ARCHIVE in vars[i].flags ==> LineLength(vars[i]) <= n
  }

  ghost predicate AllTidy(vars: seq<Cvar>) {
    forall i :: 0 <= i < |vars| && ARCHIVE in vars[i].flags ==> TidyEnd(vars[i])
  }

  lemma AllTinyTidy(vars: seq<Cvar>)
    requires LinesWithin(vars, MAX_CMD_LINE + 2)
    ensures AllTidy(vars)
  {
    hide SavedText, TidyEnd;
    forall i | 0 <= i < |vars| && ARCHIVE in vars[i].flags
      ensures TidyEnd(vars[i])
    {
      TinyIsTidy(vars[i]);
    }
  }

  /** Only the variable itself, with a line that does not fit, may have the name. */
  ghost predicate OnlyLong(vars: seq<Cvar>, name: string, text: string) {
    forall i :: 0 <= i < |vars| && ARCHIVE in vars[i].flags && EqualFold(vars[i].name, name) ==>
      SavedText(vars[i]) == text && LineLength(vars[i]) > MAX_CMD_LINE
  }

  lemma {:induction false} ConfigHarmless(vars: seq<Cvar>, name: string, text: string)
    requires AllReadable(vars) && AllTidy(vars) && OnlyLong(vars, name, text)
    requires |name| + |text| >= MAX_CMD_LINE - 7
    ensures AllHarmless(SplitText(ConfigText(vars) + "\n", false, false).lines, name, text)
    decreases |vars|
  {
    hide Harmless, SplitText, ConfigText, Command, SavedText, Readable, EqualFold, NoComment, Rest;
    if vars == [] {
      NothingSaved();
      NewlineHarmless(name, text);
    } else {
      var v, rest := vars[|vars| - 1], vars[..|vars| - 1];
      assert ARCHIVE in v.flags ==> Saved(v);
      ConfigTextFirst(vars);
      ConfigHarmless(rest, name, text);
      if ARCHIVE in v.flags {
        CommandHarmless(v, ConfigText(rest) + "\n", name, text);
      }
    }
  }

  lemma NewlineHarmless(name: string, text: string)
    requires |name| + |text| >= MAX_CMD_LINE - 7
    ensures AllHarmless(SplitText("\n", false, false).lines, name, text)
  {
    hide Harmless, SplitText;
    LinesAtMost("\n", false, false, 1);
    var lines := SplitText("\n", false, false).lines;
    forall i | 0 <= i < |lines|
      ensures Harmless(lines[i], name, text)
    {
      ShortHarmless(lines[i], name, text);
    }
  }

  // ---------------------------------------------------------------------------------------------
  // The bound

  /** A variable whose line has more than 1026 characters is not loaded as it was by any text without other commands. */
  lemma TooLongForAny(v: Cvar, others: string -> bool, text: string, cheats: bool, cheating: bool, script: seq<Reply>)
    requires LineLength(v) > MAX_CMD_LINE + 2 && NoOthers(others, text)
    ensures Loaded(v) !in LoadAmong(others, Empty(cheats, cheating), text, script).vars
  {
    hide LoadAmong, SavedText, NoOthers;
    NoTextLoads(others, text, cheats, cheating, script);
  }

  /** If no line leaves more than a tidy end behind, none that is cut off inside its value has it in any place after
      the saved text is loaded. */
  lemma TooLongHere(others: string -> bool, vars: seq<Cvar>, i: nat, cheats: bool, cheating: bool, script: seq<Reply>)
    requires Unique(vars) && AllReadable(vars) && AllTidy(vars) && NoOthers(others, ConfigText(vars))
    requires i < |vars| && ARCHIVE in vars[i].flags && LineLength(vars[i]) > MAX_CMD_LINE
    ensures Absent(LoadAmong(others, Empty(cheats, cheating), ConfigText(vars), script),
                   vars[i].name, SavedText(vars[i]))
  {
    hide SplitText, ExecuteAll, ConfigText, Run, Harmless, SavedText, Readable, EqualFold, Lacks, TidyEnd, LoadAmong,
         NoOthers;
    QuietLoad(others, Empty(cheats, cheating), ConfigText(vars), script);
    var name, text := vars[i].name, SavedText(vars[i]);
    OnlyThisName(vars, i);
    ConfigHarmless(vars, name, text);
    QuietRun(ConfigText(vars) + "\n", 0, false, false);
    LinesAbsent(Empty(cheats, cheating), SplitText(ConfigText(vars) + "\n", false, false).lines, name, text);
  }

  lemma OnlyThisName(vars: seq<Cvar>, i: nat)
    requires Unique(vars) && i < |vars| && LineLength(vars[i]) > MAX_CMD_LINE
    ensures OnlyLong(vars, vars[i].name, SavedText(vars[i]))
  {
    hide EqualFold, SavedText;
    forall j | 0 <= j < |vars| && EqualFold(vars[j].name, vars[i].name)
      ensures j == i
    {
      EqualFoldEquivalence(vars[j].name, vars[i].name, vars[j].name);
    }
  }

  lemma AbsentLoaded(st: State, v: Cvar)
    requires Absent(st, v.name, SavedText(v))
    ensures Loaded(v) !in st.vars
  {
    SelfFold(v.name);
  }

  /** The variable has its value, whatever its reset value is. */
  ghost predicate Regains(st: State, v: Cvar) {
    exists k :: 0 <= k < |st.vars| && EqualFold(st.vars[k].name, v.name) && st.vars[k].current == Str(SavedText(v))
  }

  /** Without other commands a line that does not fit spoils its variable, however long its name. */
  lemma QuietlySpoiled(others: string -> bool, vars: seq<Cvar>, cheats: bool, cheating: bool, script: seq<Reply>)
    requires Unique(vars) && |vars| <= MAX_CVARS && AllReadable(vars)
    requires NoOthers(others, ConfigText(vars)) && !LinesWithin(vars, MAX_CMD_LINE)
    ensures LoadAmong(others, Empty(cheats, cheating), ConfigText(vars), script).vars != LoadedAll(vars)
  {
    hide LoadAmong, NoOthers, ConfigText, LoadedAll, Loaded, SavedText, Unique, Absent, TidyEnd, Readable;
    var st := LoadAmong(others, Empty(cheats, cheating), ConfigText(vars), script);
    var i := Longest(vars);
    var k := LoadedAt(vars, i);
    if LineLength(vars[i]) > MAX_CMD_LINE + 2 {
      TooLongForAny(vars[i], others, ConfigText(vars), cheats, cheating, script);
    } else {
      AllTinyTidy(vars);
      TooLongHere(others, vars, i, cheats, cheating, script);
      AbsentLoaded(st, vars[i]);
    }
    assert LoadedAll(vars)[k] == Loaded(vars[i]);
  }

  /** The first line that does not fit, in the order of loading, reaches into the value of its variable. */
  ghost predicate FirstCutInside(vars: seq<Cvar>) {
    if vars == [] then true else
    var v := vars[|vars| - 1];
    if ARCHIVE in v.flags && LineLength(v) > MAX_CMD_LINE then CutInside(v) else FirstCutInside(vars[..|vars| - 1])
  }

  /** Whatever other commands run: the variables are loaded as they were, or the first that was cut keeps a wrong reset
      value in its place. */
  lemma {:induction false} LoadsOrSpoils(others: string -> bool, st: State, vars: seq<Cvar>, script: seq<Reply>)
    requires Unique(vars) && AllReadable(vars) && Apart(st.vars, vars) && |st.vars| + |vars| <= MAX_CVARS
    requires LinesWithin(vars, MAX_CMD_LINE) ||
             (FirstCutInside(vars) && Keeping(others, st, ConfigText(vars) + "\n", 0, false, false, script))
    ensures var st' := LoadWith(others, st, ConfigText(vars) + "\n", 0, false, false, script);
            if LinesWithin(vars, MAX_CMD_LINE) then st' == Extended(st, LoadedAll(vars))
            else st'.vars != st.vars + LoadedAll(vars)
    decreases |vars|
  {
    hide Unique, Apart, ConfigText, Command, SavedText, LoadWith, Keeping, ScanVar, GoodName, GoodText, Loaded;
    if vars == [] {
      NothingSaved();
      NewlineLoads(others, st, script);
      assert st.vars + [] == st.vars;
    } else {
      var v, rest := vars[|vars| - 1], vars[..|vars| - 1];
      ApartPush(st.vars, vars);
      RestWithin(vars);
      assert ARCHIVE in v.flags ==> Saved(v);
      ConfigTextFirst(vars);
      if ARCHIVE !in v.flags {
        LoadsOrSpoils(others, st, rest, script);
      } else {
        ApartNone(st.vars, vars);
        LoadedFirst(vars);
        if LineLength(v) <= MAX_CMD_LINE {
          FitsStep(others, st, v, ConfigText(rest) + "\n", script);
          LoadsOrSpoils(others, Extended(st, [Loaded(v)]), rest, script);
          ExtendedTwice(st, [Loaded(v)], LoadedAll(rest));
        } else {
          CutStep(others, st, v, ConfigText(rest) + "\n", script);
          var st' := LoadWith(others, st, ConfigText(vars) + "\n", 0, false, false, script);
          SpoiledDiffers(st, st', v, LoadedAll(rest));
        }
      }
    }
  }

  lemma SpoiledDiffers(st: State, st': State, v: Cvar, more: seq<Cvar>)
    requires |st'.vars| > |st.vars| && st'.vars[|st.vars|].reset != Str(SavedText(v))
    ensures st'.vars != st.vars + ([Loaded(v)] + more)
  {
    hide SavedText;
    assert (st.vars + ([Loaded(v)] + more))[|st.vars|] == Loaded(v);
  }

  lemma NewlineLoads(others: string -> bool, st: State, script: seq<Reply>)
    ensures LoadWith(others, st, "\n", 0, false, false, script) == st
  {
    hide ExecuteLine, IsOther, Keeping, Take;
    assert "\n" == "\n" + "";
    EmptyIsOwn(others, "");
    EmptyLineIdle(st);
    OwnStep(others, st, "\n", script);
  }

  lemma RestWithin(vars: seq<Cvar>)
    requires vars != []
    ensures var v, rest := vars[|vars| - 1], vars[..|vars| - 1];
            LinesWithin(vars, MAX_CMD_LINE)
            <==> LinesWithin(rest, MAX_CMD_LINE) && (ARCHIVE in v.flags ==> LineLength(v) <= MAX_CMD_LINE)
  {
    hide SavedText;
    var v, rest := vars[|vars| - 1], vars[..|vars| - 1];
    if LinesWithin(rest, MAX_CMD_LINE) && (ARCHIVE in v.flags ==> LineLength(v) <= MAX_CMD_LINE) {
      forall i | 0 <= i < |vars| && ARCHIVE in vars[i].flags
        ensures LineLength(vars[i]) <= MAX_CMD_LINE
      {
        assert i < |rest| ==> rest[i] == vars[i];
      }
    }
  }

  /** Saving any registry and loading it recreates exactly the archived variables if and only if every one of their
      saved lines has at most 1024 characters. Other commands that the rest of a longer line may run do not change
      that, as long as they leave the variables there are their places, names and reset values, and the first line
      that is cut is cut inside its value. */
  lemma SurvivesIff(others: string -> bool, vars: seq<Cvar>, cheats: bool, cheating: bool, script: seq<Reply>)
    requires Unique(vars) && |vars| <= MAX_CVARS && AllReadable(vars)
    requires NoOthers(others, ConfigText(vars)) ||
             (FirstCutInside(vars)
              && Keeping(others, Empty(cheats, cheating), ConfigText(vars) + "\n", 0, false, false, script))
    ensures var st := Empty(cheats, cheating);
            LoadAmong(others, st, ConfigText(vars), script) == st.(vars := LoadedAll(vars))
            <==> LinesWithin(vars, MAX_CMD_LINE)
  {
    hide LoadWith, Keeping, NoOthers, ConfigText, LoadedAll, Unique, Readable, FirstCutInside;
    var st := Empty(cheats, cheating);
    assert [] + LoadedAll(vars) == LoadedAll(vars);
    if NoOthers(others, ConfigText(vars)) && !LinesWithin(vars, MAX_CMD_LINE) {
      QuietlySpoiled(others, vars, cheats, cheating, script);
    } else {
      LoadsOrSpoils(others, st, vars, script);
    }
  }

  /** The archived variable with the longest line. */
  lemma {:induction false} Longest(vars: seq<Cvar>) returns (i: nat)
    requires !LinesWithin(vars, MAX_CMD_LINE)
    ensures i < |vars| && ARCHIVE in vars[i].flags && LineLength(vars[i]) > MAX_CMD_LINE
    ensures LinesWithin(vars, LineLength(vars[i]))
    decreases |vars|
  {
    hide SavedText;
    var n := |vars| - 1;
    if LinesWithin(vars[..n], MAX_CMD_LINE) {
      i := n;
    } else {
      i := Longest(vars[..n]);
      if ARCHIVE in vars[n].flags && LineLength(vars[n]) > LineLength(vars[i]) {
        i := n;
      }
    }
  }
}
