/** Saving the cvars as commands, and loading them through the command buffer and the tokenizer. */
module Config {
  import opened CString
  import opened CommandBuffer
  import opened Tokenizer
  import opened Cvars

  /** The part of Cmd_ExecuteString that concerns cvars: the set commands, and a variable's own name as a command. */
  function ExecuteArgs(st: State, args: seq<string>): State {
    if args == [] then st
    else if EqualFold(args[0], "seta") then SetACommand(st, args)
    else if EqualFold(args[0], "set") then SetCommand(st, args)
    else if ScanVar(st.vars, args[0]) >= 0 && |args| > 1 then
      SetByName(st, st.vars[ScanVar(st.vars, args[0])].name, args[1], false)
    else st
  }

  function ExecuteLine(st: State, line: string): State {
    ExecuteArgs(st, Tokens(line, false, MAX_STRING_TOKENS, BUFFER_SIZE))
  }

  function ExecuteAll(st: State, lines: seq<string>): State
    decreases |lines|
  {
    if lines == [] then st else ExecuteAll(ExecuteLine(st, lines[0]), lines[1..])
  }

  /** A registry without variables. */
  function Empty(cheats: bool, cheating: bool): State { State([], cheats, cheating, false) }

  /** Cbuf_InsertText into an empty buffer, then Cbuf_Execute: set commands leave the buffer alone. */
  function Load(st: State, text: string): State {
    ExecuteAll(st, Run(text + "\n", 0, false, false, []).lines)
  }

  // ---------------------------------------------------------------------------------------------
  // One saved line

  /** A name that is one plain token and a valid cvar name. */
  predicate GoodName(name: string) { Plain(name, false) && ValidName(name) }

  /** A text that stays inside its quotes and on its line. */
  predicate GoodText(text: string) { NoQuote(text) && '\n' !in text && '\r' !in text }

  function Command(name: string, text: string): string {
    "seta " + (name + (" " + (['"'] + (text + ['"']))))
  }

  lemma CommandTokens(name: string, text: string)
    requires GoodName(name) && GoodText(text) && |name| + |text| + 20 <= BUFFER_SIZE
    ensures Tokens(Command(name, text), false, MAX_STRING_TOKENS, BUFFER_SIZE) == ["seta", name, text]
  {
    hide Tokens, TokenStart, FirstToken, Plain;
    var tail2 := ['"'] + (text + ['"']);
    var tail1 := " " + tail2;
    var tail0 := " " + (name + tail1);
    assert Plain("seta", false) by {
      SetaIsPlain();
    }
    assert Command(name, text) == "seta" + tail0 && text + ['"'] == text + (['"'] + []);
    PlainTokenFirst("seta", tail0, false, 1024, 9216);
    BlankSkipped(name + tail1, false, 1023, 9211);
    PlainTokenFirst(name, tail1, false, 1023, 9211);
    BlankSkipped(tail2, false, 1022, 9210 - |name|);
    QuotedTokenFirst(text, [], 1022, 9210 - |name|);
    NoTokens(false, 1021, 9209 - |name| - |text|);
  }

  lemma SetaIsPlain()
    ensures Plain("seta", false)
  {
  }

  lemma NameIsBare(name: string)
    requires GoodName(name)
    ensures Bare("seta " + (name + " "))
  {
    var p := "seta " + (name + " ");
    forall k | 0 <= k < |p|
      ensures p[k] != '"' && p[k] != ';' && !IsNewline(p[k])
      ensures !(p[k] == '/' && k + 1 < |p| && (p[k + 1] == '/' || p[k + 1] == '*'))
    {
      if 5 <= k < 5 + |name| {
        var i := k - 5;
        assert name[i] == p[k] && name[i] in name;
        if i + 1 < |name| {
          assert name[i..][1] == p[k + 1] && !SlashComment(name[i..]) && !StarComment(name[i..]);
        }
      }
    }
  }

  /** The end of a saved line is its newline, wherever the text behind it leads. */
  lemma ScanCommand(p: string, text: string, more: string)
    requires Bare(p) && p != [] && p[|p| - 1] == ' ' && GoodText(text)
    ensures var line := p + (['"'] + (text + ['"']));
            Scan(line + ("\n" + more), 0, Mode(false, false, false)) == (|line|, Mode(false, false, false))
  {
    var line := p + (['"'] + (text + ['"']));
    var all := line + ("\n" + more);
    var out, quoted := Mode(false, false, false), Mode(true, false, false);
    var n, q := |p|, |p| + 1 + |text|;
    forall k | 0 <= k < n
      ensures Step(Pair(all, k), out) == (out, Go)
    {
      assert all[k] == p[k] && (k + 1 < n ==> all[k + 1] == p[k + 1]);
    }
    ScanOver(all, 0, n, out);
    assert all[n] == '"';
    assert Step(Pair(all, n), out) == (quoted, Go);
    forall k | n + 1 <= k < q
      ensures Step(Pair(all, k), quoted) == (quoted, Go)
    {
      assert all[k] == text[k - n - 1] && text[k - n - 1] in text;
    }
    ScanOver(all, n + 1, q, quoted);
    assert all[q] == '"' && all[q + 1] == '\n';
    assert Step(Pair(all, q), quoted) == (out, Go);
    assert Step(Pair(all, q + 1), out) == (out, Here);
  }

  /** A saved line that fits the line buffer is handed out whole. */
  lemma TakeCommand(name: string, text: string, more: string)
    requires GoodName(name) && GoodText(text) && |name| + |text| + 8 <= MAX_CMD_LINE - 1
    ensures Take(Command(name, text) + ("\n" + more), false, false)
        == Taken(Command(name, text), "\n", more, false, false)
  {
    hide Scan, Bare;
    var p := "seta " + (name + " ");
    NameIsBare(name);
    ScanCommand(p, text, more);
    var line := Command(name, text);
    assert line == p + (['"'] + (text + ['"']));
    var all := line + ("\n" + more);
    assert all[..|line|] == line && all[|line|] == '\n' && all[|line| + 1..] == more;
  }

  // ---------------------------------------------------------------------------------------------
  // A saved line that is cut off

  /** The first 1023 characters of a longer line: the closing quote is missing, and part of the value may be. */
  function CutCommand(name: string, part: string): string { "seta " + (name + (" " + (['"'] + part))) }

  lemma {:induction false} UnclosedLen(u: string, space: int)
    requires NoQuote(u) && |u| < space
    ensures QuotedLen(u, space) == |u|
    decreases |u|
  {
    if u != [] {
      assert u[0] in u;
      UnclosedLen(u[1..], space - 1);
    }
  }

  /** A quote that is never closed takes in the rest of the text. */
  lemma UnclosedFirst(u: string, slots: nat, space: int)
    requires NoQuote(u) && slots > 0 && space - |u| - 1 >= 2
    ensures Tokens(['"'] + u, false, slots, space) == [u]
  {
    var t := ['"'] + u;
    assert t[1..] == u && u[..|u|] == u && u[|u|..] == [];
    UnclosedLen(u, space);
    UnclosedRead(u, space);
    NoTokens(false, slots - 1, space - |u| - 1);
    hide TokenStart, FirstToken, QuotedLen;
    assert [u] + [] == [u];
  }

  lemma UnclosedRead(u: string, space: int)
    requires QuotedLen(u, space) == |u|
    ensures var t := ['"'] + u;
            TokenStart(t) == t && FirstToken(t, false, space) == First(u, [], space - |u| - 1)
  {
    var t := ['"'] + u;
    assert t[1..] == u && u[..|u|] == u && u[|u|..] == [];
  }

  lemma CutTokens(name: string, part: string)
    requires GoodName(name) && NoQuote(part) && |name| + |part| + 20 <= BUFFER_SIZE
    ensures Tokens(CutCommand(name, part), false, MAX_STRING_TOKENS, BUFFER_SIZE) == ["seta", name, part]
  {
    hide Tokens, TokenStart, FirstToken, Plain;
    var tail1 := " " + (['"'] + part);
    var tail0 := " " + (name + tail1);
    SetaIsPlain();
    assert CutCommand(name, part) == "seta" + tail0;
    PlainTokenFirst("seta", tail0, false, 1024, 9216);
    BlankSkipped(name + tail1, false, 1023, 9211);
    PlainTokenFirst(name, tail1, false, 1023, 9211);
    BlankSkipped(['"'] + part, false, 1022, 9210 - |name|);
    UnclosedFirst(part, 1022, 9210 - |name|);
  }

  /** How much of the value a cut line carries. */
  function Carried(name: string, text: string): string
    requires |name| <= MAX_CMD_LINE - 8 <= |name| + |text|
  {
    text[..MAX_CMD_LINE - 8 - |name|]
  }

  /** A saved line that does not fit is cut after 1023 characters, inside the value or in front of its last quote. */
  lemma TakeCut(name: string, text: string, more: string)
    requires GoodName(name) && GoodText(text) && |name| <= MAX_CMD_LINE - 8 <= |name| + |text|
    ensures var t := Take(Command(name, text) + ("\n" + more), false, false);
            t.line == CutCommand(name, Carried(name, text)) && !t.star && !t.slash
            && (|name| + |text| == MAX_CMD_LINE - 8 ==> t.rest == "\n" + more)
  {
    hide Scan, Bare;
    var p := "seta " + (name + " ");
    NameIsBare(name);
    ScanCommand(p, text, more);
    CutAt(name, text, "\n" + more);
    assert Command(name, text) == p + (['"'] + (text + ['"']));
  }

  lemma CutAt(name: string, text: string, more: string)
    requires |name| <= MAX_CMD_LINE - 8 <= |name| + |text|
    ensures var all := Command(name, text) + more;
            all[..MAX_CMD_LINE - 1] == CutCommand(name, Carried(name, text))
            && (|name| + |text| == MAX_CMD_LINE - 8 ==> all[MAX_CMD_LINE..] == more)
  {
    var all, k := Command(name, text) + more, MAX_CMD_LINE - 8 - |name|;
    var head := "seta " + (name + (" " + ['"']));
    assert |head| == |name| + 7;
    assert text == text[..k] + text[k..];
    assert all == head + text[..k] + (text[k..] + ['"'] + more);
    assert CutCommand(name, text[..k]) == head + text[..k];
  }

  lemma ExecuteCut(st: State, name: string, part: string)
    requires GoodName(name) && NoQuote(part) && |name| + |part| + 8 <= MAX_CMD_LINE
    requires ScanVar(st.vars, name) < 0 && |st.vars| < MAX_CVARS
    ensures ExecuteLine(st, CutCommand(name, part))
         == st.(vars := st.vars + [Fresh(name, {USER_CREATED, ARCHIVE}, Str(part), 0, 0)])
  {
    hide Tokens, SetACommand, GoodName, NoQuote, CutCommand;
    CutTokens(name, part);
    SelfFold("seta");
    SetaAdds(st, name, part);
  }

  lemma FrontNoQuote(text: string, k: nat)
    requires NoQuote(text) && k <= |text|
    ensures NoQuote(text[..k])
  {
  }

  /** The first line handed out gives the variable its whole value if and only if the saved line has at most 1024
      characters, the closing quote being dispensable; of a longer one it gets only what 1023 characters hold. */
  lemma LineCarriesValueIff(st: State, name: string, text: string, more: string)
    requires GoodName(name) && GoodText(text) && |name| <= MAX_CMD_LINE - 8
    requires ScanVar(st.vars, name) < 0 && |st.vars| < MAX_CVARS
    ensures var line := Take(Command(name, text) + ("\n" + more), false, false).line;
            var whole := Fresh(name, {USER_CREATED, ARCHIVE}, Str(text), 0, 0);
            ExecuteLine(st, line) == st.(vars := st.vars + [whole]) <==> |name| + |text| + 8 <= MAX_CMD_LINE
  {
    hide Take, ExecuteLine, GoodName, NoQuote, ScanVar, Command, CutCommand;
    if |name| + |text| + 8 <= MAX_CMD_LINE - 1 {
      TakeCommand(name, text, more);
      ExecuteCommand(st, name, text);
    } else {
      var part := Carried(name, text);
      TakeCut(name, text, more);
      FrontNoQuote(text, |part|);
      ExecuteCut(st, name, part);
      var a, b := Fresh(name, {USER_CREATED, ARCHIVE}, Str(part), 0, 0),
          Fresh(name, {USER_CREATED, ARCHIVE}, Str(text), 0, 0);
      assert (st.vars + [a])[|st.vars|] == a && (st.vars + [b])[|st.vars|] == b;
      assert |part| == |text| ==> part == text;
    }
  }

  // ---------------------------------------------------------------------------------------------
  // The whole text

  /** A variable whose saved line can be read back. */
  predicate Saveable(v: Cvar) {
    ARCHIVE in v.flags ==>
      GoodName(v.name) && GoodText(SavedText(v)) && |v.name| + |SavedText(v)| + 8 <= MAX_CMD_LINE
  }

  /** What loading makes of a saved variable: a user-created archived string. */
  function Loaded(v: Cvar): Cvar { Fresh(v.name, {USER_CREATED, ARCHIVE}, Str(SavedText(v)), 0, 0) }

  /** The archived variables in the order in which they are saved, as loading recreates them. */
  function LoadedAll(vars: seq<Cvar>): (r: seq<Cvar>)
    ensures |r| <= |vars|
  {
    if vars == [] then [] else
    var v := vars[|vars| - 1];
    (if ARCHIVE in v.flags then [Loaded(v)] else []) + LoadedAll(vars[..|vars| - 1])
  }

  lemma SavedLineIsCommand(v: Cvar)
    requires Saved(v)
    ensures SavedLine(v) == Command(v.name, SavedText(v)) + "\n"
  {
  }

  lemma SaveableIsSaved(v: Cvar)
    requires Saveable(v)
    ensures ARCHIVE in v.flags ==> Saved(v)
  {
  }

  /** The seta command adds the variable, if its name is new. */
  lemma SetaAdds(st: State, name: string, text: string)
    requires GoodName(name) && ScanVar(st.vars, name) < 0 && |st.vars| < MAX_CVARS && |text| < COMBINED_BUFFER - 2
    ensures SetACommand(st, ["seta", name, text])
         == st.(vars := st.vars + [Fresh(name, {USER_CREATED, ARCHIVE}, Str(text), 0, 0)])
  {
    hide Plain;
    var args := ["seta", name, text];
    assert args[2..] == [text] && Combine([text], 0) == text by {
      assert [text][1..] == [] && text + "" + Combine([], 0) == text;
    }
    var v := Fresh(name, {USER_CREATED}, Str(text), 0, 0);
    assert SetCommand(st, args) == st.(vars := st.vars + [v]);
    SelfFold(name);
    assert ScanVar(st.vars + [v], name) == |st.vars|;
    assert {USER_CREATED} + {ARCHIVE} == {USER_CREATED, ARCHIVE};
    assert (st.vars + [v])[|st.vars| := Fresh(name, {USER_CREATED, ARCHIVE}, Str(text), 0, 0)]
        == st.vars + [Fresh(name, {USER_CREATED, ARCHIVE}, Str(text), 0, 0)];
  }

  lemma ExecuteCommand(st: State, name: string, text: string)
    requires GoodName(name) && GoodText(text) && |name| + |text| + 8 <= MAX_CMD_LINE - 1
    requires ScanVar(st.vars, name) < 0 && |st.vars| < MAX_CVARS
    ensures ExecuteLine(st, Command(name, text))
         == st.(vars := st.vars + [Fresh(name, {USER_CREATED, ARCHIVE}, Str(text), 0, 0)])
  {
    hide Tokens, SetACommand, GoodName, GoodText;
    CommandTokens(name, text);
    SelfFold("seta");
    SetaAdds(st, name, text);
  }

  /** No variable of `done` has the name of an archived one of `vars`. */
  ghost predicate Apart(done: seq<Cvar>, vars: seq<Cvar>) {
    forall i, j :: 0 <= i < |done| && 0 <= j < |vars| && ARCHIVE in vars[j].flags ==>
      !EqualFold(vars[j].name, done[i].name)
  }

  lemma ApartNone(done: seq<Cvar>, vars: seq<Cvar>)
    requires Apart(done, vars) && vars != [] && ARCHIVE in vars[|vars| - 1].flags
    ensures ScanVar(done, vars[|vars| - 1].name) < 0
  {
  }

  lemma ApartPush(done: seq<Cvar>, vars: seq<Cvar>)
    requires Unique(vars) && Apart(done, vars) && vars != []
    ensures Apart(done + [Loaded(vars[|vars| - 1])], vars[..|vars| - 1]) && Unique(vars[..|vars| - 1])
    ensures Apart(done, vars[..|vars| - 1])
  {
    hide EqualFold;
    var done', rest := done + [Loaded(vars[|vars| - 1])], vars[..|vars| - 1];
    forall i, j | 0 <= i < |done'| && 0 <= j < |rest| && ARCHIVE in rest[j].flags
      ensures !EqualFold(rest[j].name, done'[i].name)
    {
      assert rest[j] == vars[j];
    }
  }

  /** One saved line in front of more text is handed out first. */
  lemma SplitCommand(name: string, text: string, more: string)
    requires GoodName(name) && GoodText(text) && |name| + |text| + 8 <= MAX_CMD_LINE - 1
    ensures SplitText(Command(name, text) + ("\n" + more), false, false).lines
         == [Command(name, text)] + SplitText(more, false, false).lines
  {
    hide Take, GoodName, GoodText, Command;
    TakeCommand(name, text, more);
    assert Command(name, text) + ("\n" + more) != [];
  }

  lemma ExecuteFirst(st: State, line: string, lines: seq<string>)
    ensures ExecuteAll(st, [line] + lines) == ExecuteAll(ExecuteLine(st, line), lines)
  {
    hide ExecuteLine;
    assert ([line] + lines)[1..] == lines;
  }

  lemma Regroup(a: string, b: string, c: string)
    ensures (a + "\n" + b) + c == a + ("\n" + (b + c))
  {
  }

  /** The text of the last variable, if it is archived, comes first. */
  lemma ConfigTextFirst(vars: seq<Cvar>)
    requires vars != [] && (ARCHIVE in vars[|vars| - 1].flags ==> Saved(vars[|vars| - 1]))
    ensures var v, more := vars[|vars| - 1], ConfigText(vars[..|vars| - 1]) + "\n";
            ConfigText(vars) + "\n"
                == if ARCHIVE in v.flags then Command(v.name, SavedText(v)) + ("\n" + more) else more
  {
    hide Command, GoodName, GoodText, SavedText, SavedLine;
    var v, rest := vars[|vars| - 1], ConfigText(vars[..|vars| - 1]);
    assert ConfigText(vars) == SavedLine(v) + rest;
    if ARCHIVE in v.flags {
      SavedLineIsCommand(v);
      Regroup(Command(v.name, SavedText(v)), rest, "\n");
    } else {
      NotSaved(v, rest);
    }
  }

  function Extended(st: State, vars: seq<Cvar>): State { st.(vars := st.vars + vars) }

  lemma ExtendedNone(st: State)
    ensures Extended(st, []) == st
  {
    assert st.vars + [] == st.vars;
  }

  lemma ExtendedBy(st: State, a: seq<Cvar>)
    ensures Extended(st, a).vars == st.vars + a
  {
  }

  lemma ExtendedTwice(st: State, a: seq<Cvar>, b: seq<Cvar>)
    ensures Extended(Extended(st, a), b) == Extended(st, a + b)
  {
    assert st.vars + a + b == st.vars + (a + b);
  }

  lemma SplitFirst(text: string)
    requires text != []
    ensures var t := Take(text, false, false);
            SplitText(text, false, false).lines == [t.line] + SplitText(t.rest, t.star, t.slash).lines
  {
    hide Take;
  }

  lemma EmptyLine(st: State, more: string)
    ensures ExecuteAll(st, SplitText("\n" + more, false, false).lines)
        == ExecuteAll(st, SplitText(more, false, false).lines)
  {
    hide ExecuteLine, SplitText, Take;
    NewlineFirst(more);
    SplitFirst("\n" + more);
    ExecuteFirst(st, "", SplitText(more, false, false).lines);
    EmptyLineIdle(st);
  }

  lemma EmptyLineIdle(st: State)
    ensures ExecuteLine(st, "") == st
  {
    assert Tokens("", false, MAX_STRING_TOKENS, BUFFER_SIZE) == [];
  }

  /** One archived variable and what follows it. */
  lemma LoadFirst(st: State, v: Cvar, more: string)
    requires Saveable(v) && ARCHIVE in v.flags && ScanVar(st.vars, v.name) < 0 && |st.vars| < MAX_CVARS
    ensures ExecuteAll(st, SplitText(Command(v.name, SavedText(v)) + ("\n" + more), false, false).lines)
         == ExecuteAll(Extended(st, [Loaded(v)]), SplitText(more, false, false).lines)
  {
    hide Command, GoodName, GoodText, SavedText, SplitText, ExecuteLine, ExecuteAll, ScanVar;
    if |v.name| + |SavedText(v)| + 8 <= MAX_CMD_LINE - 1 {
      SplitCommand(v.name, SavedText(v), more);
      ExecuteFirst(st, Command(v.name, SavedText(v)), SplitText(more, false, false).lines);
      ExecuteCommand(st, v.name, SavedText(v));
    } else {
      LoadCut(st, v, more);
    }
  }

  /** The one line that loses only its closing quote. */
  lemma LoadCut(st: State, v: Cvar, more: string)
    requires Saveable(v) && ARCHIVE in v.flags && ScanVar(st.vars, v.name) < 0 && |st.vars| < MAX_CVARS
    requires |v.name| + |SavedText(v)| == MAX_CMD_LINE - 8
    ensures ExecuteAll(st, SplitText(Command(v.name, SavedText(v)) + ("\n" + more), false, false).lines)
         == ExecuteAll(Extended(st, [Loaded(v)]), SplitText(more, false, false).lines)
  {
    hide Take, Command, CutCommand, GoodName, SavedText, SplitText, ExecuteLine, ExecuteAll, ScanVar;
    var text := SavedText(v);
    TakeCut(v.name, text, more);
    assert Carried(v.name, text) == text;
    SplitFirst(Command(v.name, text) + ("\n" + more));
    ExecuteFirst(st, CutCommand(v.name, text), SplitText("\n" + more, false, false).lines);
    ExecuteCut(st, v.name, text);
    EmptyLine(Extended(st, [Loaded(v)]), more);
  }

  lemma LoadedFirst(vars: seq<Cvar>)
    requires vars != [] && ARCHIVE in vars[|vars| - 1].flags
    ensures LoadedAll(vars) == [Loaded(vars[|vars| - 1])] + LoadedAll(vars[..|vars| - 1])
  {
    hide Loaded;
  }

  lemma LoadedOthers(vars: seq<Cvar>)
    requires vars != [] && ARCHIVE !in vars[|vars| - 1].flags
    ensures LoadedAll(vars) == LoadedAll(vars[..|vars| - 1])
  {
    hide Loaded;
  }

  lemma {:induction false} LoadLines(st: State, vars: seq<Cvar>)
    requires Unique(vars) && Apart(st.vars, vars) && |st.vars| + |vars| <= MAX_CVARS
    requires forall i :: 0 <= i < |vars| ==> Saveable(vars[i])
    ensures ExecuteAll(st, SplitText(ConfigText(vars) + "\n", false, false).lines) == Extended(st, LoadedAll(vars))
    decreases |vars|
  {
    hide ExecuteAll, SplitText, ConfigText, Command, SavedText, Saveable, Apart, Unique, ScanVar, Loaded, Extended;
    if vars == [] {
      NothingSaved();
      ExtendedNone(st);
      LastLine(st);
    } else {
      var v, rest := vars[|vars| - 1], vars[..|vars| - 1];
      SaveableIsSaved(v);
      ConfigTextFirst(vars);
      ApartPush(st.vars, vars);
      if ARCHIVE in v.flags {
        ApartNone(st.vars, vars);
        LoadedFirst(vars);
        ExtendedBy(st, [Loaded(v)]);
        LoadFirst(st, v, ConfigText(rest) + "\n");
        LoadLines(Extended(st, [Loaded(v)]), rest);
        ExtendedTwice(st, [Loaded(v)], LoadedAll(rest));
      } else {
        LoadedOthers(vars);
        LoadLines(st, rest);
      }
    }
  }

  lemma NothingSaved()
    ensures ConfigText([]) + "\n" == "\n"
  {
  }

  lemma NotSaved(v: Cvar, more: string)
    requires ARCHIVE !in v.flags
    ensures SavedLine(v) + more == more
  {
  }

  /** The newline that Cbuf_InsertText adds makes an empty line, which does nothing. */
  lemma LastLine(st: State)
    ensures ExecuteAll(st, SplitText("\n", false, false).lines) == st
  {
    var t := Take("\n", false, false);
    assert t.line == "" && t.rest == "";
    assert SplitText("\n", false, false).lines == [""];
    assert Tokens("", false, MAX_STRING_TOKENS, BUFFER_SIZE) == [];
    assert [""][1..] == [];
  }

  /** The configuration round trip: loading what was saved into an empty registry recreates exactly the archived
      variables, with their names and their values as text. */
  lemma SaveThenLoad(vars: seq<Cvar>, cheats: bool, cheating: bool)
    requires Unique(vars) && |vars| <= MAX_CVARS
    requires forall i :: 0 <= i < |vars| ==> Saveable(vars[i])
    ensures Load(Empty(cheats, cheating), ConfigText(vars)) == Empty(cheats, cheating).(vars := LoadedAll(vars))
  {
    hide SplitText, ConfigText, ExecuteAll, LoadedAll, Run, Saveable, Unique;
    QuietRun(ConfigText(vars) + "\n", 0, false, false);
    LoadLines(Empty(cheats, cheating), vars);
    assert [] + LoadedAll(vars) == LoadedAll(vars);
  }

  // ---------------------------------------------------------------------------------------------
  // What the loaded registry holds

  lemma {:induction false} LoadedFrom(vars: seq<Cvar>, k: nat) returns (i: nat)
    requires k < |LoadedAll(vars)|
    ensures i < |vars| && ARCHIVE in vars[i].flags && LoadedAll(vars)[k] == Loaded(vars[i])
  {
    hide Loaded;
    var n := |vars| - 1;
    if ARCHIVE in vars[n].flags && k == 0 {
      i := n;
    } else {
      i := LoadedFrom(vars[..n], if ARCHIVE in vars[n].flags then k - 1 else k);
    }
  }

  lemma {:induction false} LoadedAt(vars: seq<Cvar>, i: nat) returns (k: nat)
    requires i < |vars| && ARCHIVE in vars[i].flags
    ensures k < |LoadedAll(vars)| && LoadedAll(vars)[k] == Loaded(vars[i])
  {
    hide Loaded;
    var n := |vars| - 1;
    if i == n {
      k := 0;
    } else {
      var j := LoadedAt(vars[..n], i);
      k := if ARCHIVE in vars[n].flags then j + 1 else j;
    }
  }

  /** A name is found after loading exactly if it named an archived variable before saving, with that variable's own
      spelling and value. */
  lemma LoadedLookup(vars: seq<Cvar>, name: string)
    requires Unique(vars)
    ensures var i, k := ScanVar(vars, name), ScanVar(LoadedAll(vars), name);
            if i >= 0 && ARCHIVE in vars[i].flags then k >= 0 && LoadedAll(vars)[k] == Loaded(vars[i]) else k < 0
  {
    hide EqualFold, LoadedAll, Unique;
    var i, k := ScanVar(vars, name), ScanVar(LoadedAll(vars), name);
    if k >= 0 {
      var j := LoadedFrom(vars, k);
      FoundIsOnly(vars, j, name);
    }
    if i >= 0 && ARCHIVE in vars[i].flags {
      var j := LoadedAt(vars, i);
      assert EqualFold(name, LoadedAll(vars)[j].name);
    }
  }

  lemma FoundIsOnly(vars: seq<Cvar>, j: nat, name: string)
    requires Unique(vars) && j < |vars| && EqualFold(name, vars[j].name)
    ensures ScanVar(vars, name) == j
  {
    hide EqualFold;
    var i := ScanVar(vars, name);
    EqualFoldEquivalence(name, vars[j].name, vars[j].name);
    EqualFoldEquivalence(name, vars[i].name, vars[i].name);
    EqualFoldEquivalence(vars[j].name, name, vars[i].name);
    EqualFoldEquivalence(vars[i].name, name, vars[j].name);
  }

  // ---------------------------------------------------------------------------------------------
  // The next start of the program

  /** The value a variable has again once the program registers it with its type: an integer outside the limits
      gives way to zero. */
  function Regained(v: Cvar, imin: int, imax: int): Value {
    match v.latched
    case Bool(b) => Bool(b)
    case Int(i) => Int(if imin <= i <= imax then i else 0)
    case Str(s) => Str(SavedText(v))
  }

  predicate Int32(value: Value) { value.Int? ==> -0x8000_0000 <= value.i <= 0x7fff_ffff }

  lemma BoolText()
    ensures IsInteger("0") && Atoi("0") == 0 && IsInteger("1") && Atoi("1") == 1
  {
    DecRoundTrip(0);
    DecRoundTrip(1);
  }

  lemma ReregisterLoaded(v: Cvar, flags: set<Flag>, value: Value, imin: int, imax: int, cheats: bool)
    requires Int32(v.latched) && value.Kind() == v.latched.Kind() == v.current.Kind()
    ensures var w := Reregistered(Loaded(v), flags, value, imin, imax, cheats);
            w.current == w.latched == Regained(v, imin, imax)
  {
    hide IsInteger, Atoi, Dec, EqualFold;
    BoolText();
    match v.latched
    case Bool(b) =>
    case Int(i) =>
      DecRoundTrip(i);
      DecNotEmpty(i);
    case Str(s) =>
  }

  lemma DecNotEmpty(i: int)
    ensures Dec(i) != []
  {
  }

  /** A registration that does not accept what a user created: read-only, or a cheat while cheating is off. */
  predicate Overrides(flags: set<Flag>, cheating: bool) { ROM in flags || (CHEAT in flags && !cheating) }

  /** Saving, loading into an empty registry, and registering an archived variable again gives its value back, except
      that a registration that overrides user-created variables gives the default. */
  lemma RestartRegains(vars: seq<Cvar>, i: nat, flags: set<Flag>, value: Value, imin: int, imax: int,
                       cheats: bool, cheating: bool)
    requires Unique(vars) && |vars| <= MAX_CVARS && forall j :: 0 <= j < |vars| ==> Saveable(vars[j])
    requires i < |vars| && ARCHIVE in vars[i].flags
    requires value.Kind() == vars[i].latched.Kind() == vars[i].current.Kind()
    requires Int32(vars[i].latched) && ValidNew(vars[i].name, value, imin, imax)
    ensures var st := Load(Empty(cheats, cheating), ConfigText(vars));
            var st' := RegisterState(st, vars[i].name, flags, value, imin, imax);
            var k := ScanVar(st.vars, vars[i].name);
            !st'.fatal && 0 <= k < |st'.vars| && st'.vars[k].name == vars[i].name && st'.vars[k].reset == value
            && st'.vars[k].current == st'.vars[k].latched
            && st'.vars[k].current == if Overrides(flags, cheating) then value else Regained(vars[i], imin, imax)
  {
    hide Load, LoadedAll, Saveable, Unique, EqualFold, Reregistered, Regained, ScanVar, ValidNew;
    SaveThenLoad(vars, cheats, cheating);
    SelfFold(vars[i].name);
    FoundIsOnly(vars, i, vars[i].name);
    LoadedLookup(vars, vars[i].name);
    ReregisterLoaded(vars[i], flags, value, imin, imax, cheats);
  }
}
