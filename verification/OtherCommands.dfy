/** Loading a text in which other registered commands run, too. */
module OtherCommands {
  import opened CString
  import opened CommandBuffer
  import opened Tokenizer
  import opened Cvars
  import opened Config

  const MAX_STRING_CHARS := 1024

  predicate IsSet(word: string) { EqualFold(word, "set") || EqualFold(word, "seta") }

  /** The line begins with another command: commands are looked up before variables. */
  predicate IsOther(others: string -> bool, line: string) {
    var args := Tokens(line, false, MAX_STRING_TOKENS, BUFFER_SIZE);
    args != [] && !IsSet(args[0]) && others(args[0])
  }

  /** What another command does: the registry it leaves, and its edits of the buffer. */
  datatype Reply = Reply(st: State, edits: seq<Edit>)

  /** Executing a buffer. The k-th other command that runs gives the k-th reply of the script, and does nothing once
      the script is used up: any behaviour of finitely many of them is such a script. */
  function LoadWith(others: string -> bool, st: State, buffer: string, wait: int, star: bool, slash: bool,
                    script: seq<Reply>): State
    decreases |script|, |buffer|
  {
    if buffer == [] || wait > 0 then st else
    var t := Take(buffer, star, slash);
    if !IsOther(others, t.line) then
      LoadWith(others, ExecuteLine(st, t.line), t.rest, wait, t.star, t.slash, script)
    else if script == [] then
      LoadWith(others, st, t.rest, wait, t.star, t.slash, [])
    else
      var (buffer', wait') := Edited(t.rest, wait, script[0].edits);
      LoadWith(others, script[0].st, buffer', wait', t.star, t.slash, script[1..])
  }

  /** Cbuf_InsertText into an empty buffer, then Cbuf_Execute. */
  function LoadAmong(others: string -> bool, st: State, text: string, script: seq<Reply>): State {
    LoadWith(others, st, text + "\n", 0, false, false, script)
  }

  ghost predicate NoneOther(others: string -> bool, lines: seq<string>) {
    forall i :: 0 <= i < |lines| ==> !IsOther(others, lines[i])
  }

  /** No line of the text begins with another command. */
  ghost predicate NoOthers(others: string -> bool, text: string) {
    NoneOther(others, SplitText(text + "\n", false, false).lines)
  }

  lemma {:induction false} QuietBuffer(others: string -> bool, st: State, buffer: string, star: bool, slash: bool,
                                       script: seq<Reply>)
    requires NoneOther(others, SplitText(buffer, star, slash).lines)
    ensures LoadWith(others, st, buffer, 0, star, slash, script) == ExecuteAll(st, SplitText(buffer, star, slash).lines)
    decreases |buffer|
  {
    hide Take, ExecuteLine, IsOther;
    if buffer != [] {
      var t := Take(buffer, star, slash);
      var lines, rest := SplitText(buffer, star, slash).lines, SplitText(t.rest, t.star, t.slash).lines;
      assert lines == [t.line] + rest;
      assert lines[0] == t.line && lines[1..] == rest;
      assert forall i :: 0 <= i < |rest| ==> rest[i] == lines[i + 1];
      QuietBuffer(others, ExecuteLine(st, t.line), t.rest, t.star, t.slash, script);
    }
  }

  /** A text without other commands is loaded as if there were none. */
  lemma QuietLoad(others: string -> bool, st: State, text: string, script: seq<Reply>)
    requires NoOthers(others, text)
    ensures LoadAmong(others, st, text, script) == Load(st, text)
  {
    hide SplitText, Run, ExecuteAll, LoadWith, NoneOther;
    QuietBuffer(others, st, text + "\n", false, false, script);
    QuietRun(text + "\n", 0, false, false);
  }

  // ---------------------------------------------------------------------------------------------
  // Variables keep their places, names and reset values

  ghost predicate Keeps(st: State, st': State) {
    |st.vars| <= |st'.vars|
    && forall i :: 0 <= i < |st.vars| ==> st'.vars[i].name == st.vars[i].name && st'.vars[i].reset == st.vars[i].reset
  }

  lemma SetKeeps(st: State, name: string, text: string)
    ensures Keeps(st, SetByName(st, name, text, false))
  {
    hide SetFound, ScanVar, ValidName;
  }

  lemma FlagKeeps(st: State, name: string, flag: Flag)
    ensures Keeps(st, AddFlag(st, name, flag))
  {
    hide ScanVar;
  }

  lemma KeepsTwice(a: State, b: State, c: State)
    requires Keeps(a, b) && Keeps(b, c)
    ensures Keeps(a, c)
  {
  }

  lemma LineKeeps(st: State, line: string)
    ensures Keeps(st, ExecuteLine(st, line))
  {
    hide Tokens, SetByName, AddFlag, Combine, EqualFold, ScanVar, Keeps;
    var args := Tokens(line, false, MAX_STRING_TOKENS, BUFFER_SIZE);
    Same(st);
    if |args| >= 2 {
      var mid := SetByName(st, args[1], Combine(args[2..], 0), false);
      SetKeeps(st, args[1], Combine(args[2..], 0));
      FlagKeeps(mid, args[1], ARCHIVE);
      KeepsTwice(st, mid, AddFlag(mid, args[1], ARCHIVE));
      if ScanVar(st.vars, args[0]) >= 0 {
        SetKeeps(st, st.vars[ScanVar(st.vars, args[0])].name, args[1]);
      }
    }
  }

  lemma Same(st: State)
    ensures Keeps(st, st)
  {
  }

  /** The other commands that run may do what they like, but for the variables there are they keep to that. */
  ghost predicate Keeping(others: string -> bool, st: State, buffer: string, wait: int, star: bool, slash: bool,
                          script: seq<Reply>)
    decreases |script|, |buffer|
  {
    if buffer == [] || wait > 0 then true else
    var t := Take(buffer, star, slash);
    if !IsOther(others, t.line) then
      Keeping(others, ExecuteLine(st, t.line), t.rest, wait, t.star, t.slash, script)
    else if script == [] then
      Keeping(others, st, t.rest, wait, t.star, t.slash, [])
    else
      var (buffer', wait') := Edited(t.rest, wait, script[0].edits);
      Keeps(st, script[0].st) && Keeping(others, script[0].st, buffer', wait', t.star, t.slash, script[1..])
  }

  lemma {:induction false} LoadKeeps(others: string -> bool, st: State, buffer: string, wait: int, star: bool,
                                     slash: bool, script: seq<Reply>)
    requires Keeping(others, st, buffer, wait, star, slash, script)
    ensures Keeps(st, LoadWith(others, st, buffer, wait, star, slash, script))
    decreases |script|, |buffer|
  {
    hide Take, ExecuteLine, IsOther, Edited, Keeps;
    Same(st);
    if buffer != [] && wait <= 0 {
      var t := Take(buffer, star, slash);
      if !IsOther(others, t.line) {
        LineKeeps(st, t.line);
        var st' := ExecuteLine(st, t.line);
        LoadKeeps(others, st', t.rest, wait, t.star, t.slash, script);
        KeepsTwice(st, st', LoadWith(others, st', t.rest, wait, t.star, t.slash, script));
      } else if script == [] {
        LoadKeeps(others, st, t.rest, wait, t.star, t.slash, []);
      } else {
        var (buffer', wait') := Edited(t.rest, wait, script[0].edits);
        LoadKeeps(others, script[0].st, buffer', wait', t.star, t.slash, script[1..]);
        KeepsTwice(st, script[0].st, LoadWith(others, script[0].st, buffer', wait', t.star, t.slash, script[1..]));
      }
    }
  }

  // ---------------------------------------------------------------------------------------------
  // Saved lines are set commands

  lemma OwnStep(others: string -> bool, st: State, buffer: string, script: seq<Reply>)
    requires buffer != [] && !IsOther(others, Take(buffer, false, false).line)
    ensures var t := Take(buffer, false, false);
            var st' := ExecuteLine(st, t.line);
            && LoadWith(others, st, buffer, 0, false, false, script)
               == LoadWith(others, st', t.rest, 0, t.star, t.slash, script)
            && (Keeping(others, st, buffer, 0, false, false, script)
                <==> Keeping(others, st', t.rest, 0, t.star, t.slash, script))
  {
    hide Take, ExecuteLine, IsOther;
  }

  lemma SetaIsOwn(others: string -> bool, line: string)
    requires var args := Tokens(line, false, MAX_STRING_TOKENS, BUFFER_SIZE); args != [] ==> args[0] == "seta"
    ensures !IsOther(others, line)
  {
    hide Tokens, EqualFold;
    SelfFold("seta");
  }

  lemma EmptyIsOwn(others: string -> bool, more: string)
    ensures !IsOther(others, "") && Take("\n" + more, false, false) == Taken("", "\n", more, false, false)
  {
    NewlineFirst(more);
    assert Tokens("", false, MAX_STRING_TOKENS, BUFFER_SIZE) == [];
  }

  /** One archived variable whose line fits is loaded as it was, before anything else runs. */
  lemma FitsStep(others: string -> bool, st: State, v: Cvar, more: string, script: seq<Reply>)
    requires Saveable(v) && ARCHIVE in v.flags && ScanVar(st.vars, v.name) < 0 && |st.vars| < MAX_CVARS
    ensures var buffer := Command(v.name, SavedText(v)) + ("\n" + more);
            && LoadWith(others, st, buffer, 0, false, false, script)
               == LoadWith(others, Extended(st, [Loaded(v)]), more, 0, false, false, script)
            && (Keeping(others, st, buffer, 0, false, false, script)
                <==> Keeping(others, Extended(st, [Loaded(v)]), more, 0, false, false, script))
  {
    hide Take, Command, CutCommand, GoodName, NoQuote, SavedText, ExecuteLine, LoadWith, Keeping, IsOther, ScanVar;
    var name, text := v.name, SavedText(v);
    var buffer := Command(name, text) + ("\n" + more);
    if |name| + |text| + 8 < MAX_CMD_LINE {
      TakeCommand(name, text, more);
      CommandTokens(name, text);
      SetaIsOwn(others, Command(name, text));
      ExecuteCommand(st, name, text);
      OwnStep(others, st, buffer, script);
    } else {
      TakeCut(name, text, more);
      assert Carried(name, text) == text;
      CutTokens(name, text);
      SetaIsOwn(others, CutCommand(name, text));
      ExecuteCut(st, name, text);
      OwnStep(others, st, buffer, script);
      EmptyIsOwn(others, more);
      EmptyLineIdle(Extended(st, [Loaded(v)]));
      OwnStep(others, Extended(st, [Loaded(v)]), "\n" + more, script);
    }
  }

  /** A variable whose line does not fit, but reaches into its value. */
  predicate CutInside(v: Cvar) {
    Saved(v) && |v.name| <= MAX_CMD_LINE - 8 && |v.name| + |SavedText(v)| + 8 > MAX_CMD_LINE
  }

  /** It gets a wrong reset value, which nothing that runs later mends. */
  lemma CutStep(others: string -> bool, st: State, v: Cvar, more: string, script: seq<Reply>)
    requires CutInside(v) && GoodName(v.name) && GoodText(SavedText(v))
    requires ScanVar(st.vars, v.name) < 0 && |st.vars| < MAX_CVARS
    requires Keeping(others, st, Command(v.name, SavedText(v)) + ("\n" + more), 0, false, false, script)
    ensures var st' := LoadWith(others, st, Command(v.name, SavedText(v)) + ("\n" + more), 0, false, false, script);
            |st'.vars| > |st.vars| && st'.vars[|st.vars|].reset != Str(SavedText(v))
  {
    hide Take, Command, CutCommand, GoodName, NoQuote, SavedText, ExecuteLine, LoadWith, Keeping, IsOther, ScanVar;
    var name, text := v.name, SavedText(v);
    var part := Carried(name, text);
    TakeCut(name, text, more);
    FrontNoQuote(text, |part|);
    CutTokens(name, part);
    SetaIsOwn(others, CutCommand(name, part));
    ExecuteCut(st, name, part);
    var buffer := Command(name, text) + ("\n" + more);
    OwnStep(others, st, buffer, script);
    var t := Take(buffer, false, false);
    var st1 := ExecuteLine(st, t.line);
    LoadKeeps(others, st1, t.rest, 0, t.star, t.slash, script);
    assert st1.vars[|st.vars|].reset == Str(part) && |part| < |text|;
  }

  // ---------------------------------------------------------------------------------------------
  // A command that loads more than a line can hold

  /** Cvar_SetFromCvar_f. */
  function SetFromCvar(st: State, args: seq<string>): State {
    if |args| < 3 then st else
    var k := ScanVar(st.vars, args[2]);
    if k < 0 then st else SetByName(st, args[1], ToStr(st.vars[k].current), false)
  }

  /** `setfromcvar name from` */
  function SetFromLine(name: string, from: string): string { "setfromcvar " + (name + (" " + from)) }

  /** Cvar_VariableString, as Cmd_Vstr_f prints it into its buffer. */
  function VariableString(st: State, name: string): string {
    var k := ScanVar(st.vars, name);
    if k < 0 then "" else
    var s := ToStr(st.vars[k].current);
    if |s| < MAX_STRING_CHARS then s else s[..MAX_STRING_CHARS - 1]
  }

  /** The commands that copy the value of a variable: to another one, and into the buffer. */
  predicate IsCopying(word: string) { EqualFold(word, "setfromcvar") || EqualFold(word, "vstr") }

  /** What they do. */
  function Copying(st: State, line: string): Reply {
    var args := Tokens(line, false, MAX_STRING_TOKENS, BUFFER_SIZE);
    if args == [] then Reply(st, [])
    else if EqualFold(args[0], "setfromcvar") then Reply(SetFromCvar(st, args), [])
    else if |args| != 2 then Reply(st, [])
    else Reply(st, [Insert(VariableString(st, args[1]))])
  }

  lemma SetFromTokens(name: string, from: string)
    requires Plain(name, false) && Plain(from, false) && |name| + |from| + 13 < MAX_CMD_LINE
    ensures Tokens(SetFromLine(name, from), false, MAX_STRING_TOKENS, BUFFER_SIZE) == ["setfromcvar", name, from]
  {
    hide Tokens, Plain, Blank;
    var words := name + (" " + from);
    SetFromIsPlain();
    assert "setfromcvar " + words == "setfromcvar" + (" " + words);
    BlankBefore(words);
    PlainTokenFirst("setfromcvar", " " + words, false, MAX_STRING_TOKENS, BUFFER_SIZE);
    BlankSkipped(words, false, MAX_STRING_TOKENS - 1, BUFFER_SIZE - 12);
    TwoWords(name, from, MAX_STRING_TOKENS - 1, BUFFER_SIZE - 12);
  }

  lemma SetFromIsPlain()
    ensures Plain("setfromcvar", false) && !IsSet("setfromcvar")
  {
    hide Plain;
    LowerIsPlain("setfromcvar");
  }

  lemma LowerIsPlain(w: string)
    requires w != "" && forall i :: 0 <= i < |w| ==> 'a' <= w[i] <= 'z'
    ensures Plain(w, false)
  {
  }

  /** Two plain words at the end of a line. */
  lemma TwoWords(name: string, text: string, slots: nat, space: int)
    requires Plain(name, false) && Plain(text, false) && slots >= 2 && space >= |name| + |text| + 4
    ensures Tokens(name + (" " + text), false, slots, space) == [name, text]
  {
    hide *;
    BlankBefore(text);
    PlainTokenFirst(name, " " + text, false, slots, space);
    BlankSkipped(text, false, slots - 1, space - |name| - 1);
    LastWord(text, slots - 1, space - |name| - 1);
  }

  lemma LastWord(text: string, slots: nat, space: int)
    requires Plain(text, false) && slots >= 1 && space >= |text| + 3
    ensures Tokens(text, false, slots, space) == [text]
  {
    hide Tokens, Plain;
    NothingBehind(text);
    PlainTokenFirst(text, "", false, slots, space);
    NoTokens(false, slots - 1, space - |text| - 1);
  }

  lemma BlankBefore(t: string)
    ensures Blank(" " + t)
  {
  }

  lemma NothingBehind(t: string)
    ensures t + "" == t
  {
  }

  /** A bare line is handed out whole. */
  lemma TakeBare(line: string, end: char, more: string)
    requires Bare(line) && |line| < MAX_CMD_LINE - 1 && (end == '\n' || end == ';')
    ensures Take(line + ([end] + more), false, false) == Taken(line, [end], more, false, false)
  {
    hide Scan;
    var all, out := line + ([end] + more), Mode(false, false, false);
    forall k | 0 <= k < |line|
      ensures Step(Pair(all, k), out) == (out, Go)
    {
      assert all[k] == line[k] && (k + 1 < |line| ==> all[k + 1] == line[k + 1]);
    }
    ScanOver(all, 0, |line|, out);
    EndStops(all, |line|);
    assert all[..|line|] == line && all[|line| + 1..] == more;
  }

  lemma EndStops(all: string, n: nat)
    requires n < |all| && (all[n] == '\n' || all[n] == ';')
    ensures Scan(all, n, Mode(false, false, false)) == (n, Mode(false, false, false))
  {
  }

  /** The bound on what a text can load holds only without other commands: a value as long as a line can carry, copied
      to a variable with a long name. */
  lemma SetFromLoadsLonger(from: Cvar, name: string, cheats: bool, cheating: bool) returns (script: seq<Reply>)
    requires ARCHIVE in from.flags && Saveable(from) && |from.name| + |SavedText(from)| + 8 < MAX_CMD_LINE
    requires GoodName(name) && !EqualFold(name, from.name) && Bare(SetFromLine(name, from.name))
    requires |name| + |from.name| + 14 < MAX_CMD_LINE
    ensures var text := Command(from.name, SavedText(from)) + ("\n" + SetFromLine(name, from.name));
            script == [Copying(Extended(Empty(cheats, cheating), [Loaded(from)]), SetFromLine(name, from.name))]
            && Fresh(name, {USER_CREATED}, Str(SavedText(from)), 0, 0)
               in LoadAmong(IsCopying, Empty(cheats, cheating), text, script).vars
  {
    hide Take, Command, SavedText, ExecuteLine, LoadWith, Keeping, IsOther, ScanVar, Plain, SetFromLine, Bare,
         EqualFold;
    var st, line := Empty(cheats, cheating), SetFromLine(name, from.name);
    var text := Command(from.name, SavedText(from)) + ("\n" + line);
    NoneScanned(from.name);
    var st1 := Extended(st, [Loaded(from)]);
    var st2 := SetFromCvar(st1, ["setfromcvar", name, from.name]);
    script := [Reply(st2, [])];
    SetFromLength(name, from.name);
    SetFromCopies(st1, from, name);
    assert text + "\n" == Command(from.name, SavedText(from)) + ("\n" + (line + ("\n" + "")));
    FitsStep(IsCopying, st, from, line + ("\n" + ""), script);
    TakeBare(line, '\n', "");
    SetFromTokens(name, from.name);
    SetFromIsOther(line);
    SetFromCopying(st1, line);
    OtherEnds(IsCopying, st1, line + ("\n" + ""), script);
  }

  lemma SetFromLength(name: string, from: string)
    ensures |SetFromLine(name, from)| == |name| + |from| + 13
  {
  }

  lemma NoneScanned(name: string)
    ensures ScanVar([], name) < 0
  {
  }

  lemma SetFromIsOther(line: string)
    requires var args := Tokens(line, false, MAX_STRING_TOKENS, BUFFER_SIZE); args != [] && args[0] == "setfromcvar"
    ensures IsOther(IsCopying, line)
  {
    hide Tokens, EqualFold;
    SetFromIsPlain();
    SelfFold("setfromcvar");
  }

  lemma SetFromCopying(st: State, line: string)
    requires var args := Tokens(line, false, MAX_STRING_TOKENS, BUFFER_SIZE); args != [] && args[0] == "setfromcvar"
    ensures Copying(st, line) == Reply(SetFromCvar(st, Tokens(line, false, MAX_STRING_TOKENS, BUFFER_SIZE)), [])
  {
    hide Tokens, EqualFold;
    SelfFold("setfromcvar");
  }

  lemma OtherEnds(others: string -> bool, st: State, buffer: string, script: seq<Reply>)
    requires buffer != [] && IsOther(others, Take(buffer, false, false).line) && Take(buffer, false, false).rest == ""
    requires |script| == 1 && script[0].edits == []
    ensures LoadWith(others, st, buffer, 0, false, false, script) == script[0].st
  {
    hide Take, IsOther;
  }

  lemma SetFromCopies(st: State, from: Cvar, name: string)
    requires st.vars == [Loaded(from)] && GoodName(name) && !EqualFold(name, from.name)
    ensures Fresh(name, {USER_CREATED}, Str(SavedText(from)), 0, 0)
            in SetFromCvar(st, ["setfromcvar", name, from.name]).vars
  {
    hide SavedText, EqualFold, Plain;
    SelfFold(from.name);
    assert ScanVar(st.vars, from.name) == 0;
    assert ScanVar(st.vars, name) < 0;
  }
}
