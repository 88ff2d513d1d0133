/** Values that come back although their saved lines are cut. */
module BroughtBack {
  import opened CString
  import opened CommandBuffer
  import opened Tokenizer
  import opened Cvars
  import opened Config
  import opened OtherCommands
  import opened ConfigLimit

  // ---------------------------------------------------------------------------------------------
  // A line that gives a value back

  /** `set name text` */
  function SetLine(name: string, text: string): string { "set " + (name + (" " + text)) }

  /** A cut value, though not its reset value, can come back: what is left of another long line may be this one. */
  lemma ValueComesBack(st: State, k: nat, name: string, text: string)
    requires k == ScanVar(st.vars, name) && st.vars[k].flags == {USER_CREATED, ARCHIVE}
    requires st.vars[k].current.Str? && !EqualFold(st.vars[k].current.s, text)
    requires GoodName(name) && Plain(text, false) && |name| + |text| + 5 < MAX_CMD_LINE
    ensures ExecuteLine(st, SetLine(name, text))
         == st.(vars := st.vars[k := st.vars[k].(current := Str(text), latched := Str(text))])
  {
    hide Tokens, TokenStart, FirstToken, Plain, ScanVar, Combine, EqualFold, SetLine;
    SetTokens(name, text);
    CombineOne(text);
    assert ["set", name, text][2..] == [text];
    SelfFold("set");
    SetIsNotSeta();
  }

  lemma SetIsNotSeta()
    ensures !EqualFold("set", "seta")
  {
  }

  lemma SetTokens(name: string, text: string)
    requires Plain(name, false) && Plain(text, false) && |name| + |text| + 5 < MAX_CMD_LINE
    ensures Tokens(SetLine(name, text), false, MAX_STRING_TOKENS, BUFFER_SIZE) == ["set", name, text]
  {
    hide Tokens, Plain, Blank;
    var words := name + (" " + text);
    SetIsPlain();
    SetSpace(words);
    BlankBefore(words);
    PlainTokenFirst("set", " " + words, false, MAX_STRING_TOKENS, BUFFER_SIZE);
    BlankSkipped(words, false, MAX_STRING_TOKENS - 1, BUFFER_SIZE - 4);
    TwoWords(name, text, MAX_STRING_TOKENS - 1, BUFFER_SIZE - 4);
  }

  lemma SetSpace(t: string)
    ensures "set " + t == "set" + (" " + t)
  {
  }

  lemma SetIsPlain()
    ensures Plain("set", false)
  {
  }

  // ---------------------------------------------------------------------------------------------
  // A registry whose cut value comes back

  function Archived(name: string, text: string): Cvar { Fresh(name, {USER_CREATED, ARCHIVE}, Str(text), 0, 0) }

  /** A line that is one quote names no variable. */
  lemma QuoteLine(st: State, more: string)
    ensures Take("\"" + ("\n" + more), false, false) == Taken("\"", "\n", more, false, false)
    ensures ExecuteLine(st, "\"") == st
  {
    hide Scan, TokenStart, FirstToken;
    var all := "\"" + ("\n" + more);
    QuoteScan(all);
    assert all[..1] == "\"" && all[2..] == more;
    UnclosedFirst("", MAX_STRING_TOKENS, BUFFER_SIZE);
    assert ['"'] + "" == "\"";
  }

  lemma QuoteScan(all: string)
    requires |all| >= 2 && all[0] == '"' && all[1] == '\n'
    ensures Scan(all, 0, Mode(false, false, false)) == (1, Mode(true, false, false))
  {
    assert Step(Pair(all, 0), Mode(false, false, false)) == (Mode(true, false, false), Go);
    assert Step(Pair(all, 1), Mode(true, false, false)) == (Mode(true, false, false), Here);
  }

  /** What the lines of a buffer do, line by line. */
  function Lines(st: State, buffer: string): State { ExecuteAll(st, SplitText(buffer, false, false).lines) }

  lemma NextLine(st: State, buffer: string)
    requires buffer != [] && !Take(buffer, false, false).star && !Take(buffer, false, false).slash
    ensures var t := Take(buffer, false, false); Lines(st, buffer) == Lines(ExecuteLine(st, t.line), t.rest)
  {
    hide Take, SplitText, ExecuteLine;
    SplitFirst(buffer);
    ExecuteFirst(st, Take(buffer, false, false).line, SplitText(Take(buffer, false, false).rest, false, false).lines);
  }

  /** The older variable's value begins with what its cut line holds, and goes on with a command for the newer one. */
  function Carrier(front: string, name: string, text: string): string { front + ("z" + (SetLine(name, text) + ";")) }

  lemma CarrierCut(b: string, front: string, name: string, text: string)
    requires |front| + |b| == MAX_CMD_LINE - 8
    ensures var c := Command(b, Carrier(front, name, text));
            |c| >= MAX_CMD_LINE && c[MAX_CMD_LINE..] == SetLine(name, text) + (";" + "\"")
    ensures Carried(b, Carrier(front, name, text)) == front
  {
    hide SetLine;
    var line := SetLine(name, text);
    var c, head := Command(b, Carrier(front, name, text)), "seta " + (b + (" " + ['"'])) + front;
    assert c == head + ("z" + (line + (";" + "\"")));
    assert |head| == MAX_CMD_LINE - 1;
    assert c[MAX_CMD_LINE..] == line + (";" + "\"");
    assert Carrier(front, name, text)[..|front|] == front;
  }

  lemma OneQuoteLeft(name: string, text: string)
    requires |name| + |text| + 8 == MAX_CMD_LINE + 1
    ensures Command(name, text)[MAX_CMD_LINE..] == "\""
  {
  }

  lemma CarrierLength(front: string, name: string, text: string)
    ensures |Carrier(front, name, text)| == |front| + |name| + |text| + 7
    ensures |SetLine(name, text)| == |name| + |text| + 5
  {
  }

  lemma CarrierFront(front: string, name: string, text: string)
    ensures |Carrier(front, name, text)| >= |front| && Carrier(front, name, text)[..|front|] == front
  {
  }

  lemma LinesOfNewline(st: State)
    ensures Lines(st, "\n") == st
  {
    hide ExecuteAll, SplitText;
    LastLine(st);
  }

  lemma SetBack(st: State, a: string, text: string) returns (st2: State)
    requires GoodName(a) && Plain(text, false) && |a| <= 100 && |a| + |text| + 8 == MAX_CMD_LINE + 1
    requires |st.vars| == 2 && st.vars[0] == Archived(a, Carried(a, text)) && !EqualFold(a, st.vars[1].name)
    ensures st2 == ExecuteLine(st, SetLine(a, text))
    ensures |st2.vars| == 2 && st2.vars[0].name == a && st2.vars[0].current == Str(text)
  {
    hide ExecuteLine, Plain, EqualFold, ScanVar;
    FirstScanned(st.vars, a);
    if EqualFold(Carried(a, text), text) {
      FoldLength(Carried(a, text), text);
    }
    ValueComesBack(st, 0, a, text);
    st2 := ExecuteLine(st, SetLine(a, text));
  }

  lemma OtherScanned(vars: seq<Cvar>, name: string)
    requires |vars| == 1 && !EqualFold(name, vars[0].name)
    ensures ScanVar(vars, name) < 0
  {
  }

  lemma FirstScanned(vars: seq<Cvar>, name: string)
    requires |vars| == 2 && vars[0].name == name && !EqualFold(name, vars[1].name)
    ensures ScanVar(vars, name) == 0
  {
    hide EqualFold;
    SelfFold(name);
    assert vars[..1] + [vars[1]] == vars;
  }

  lemma TwoSaved(a: string, b: string, text: string, front: string)
    requires |a| + |text| + 8 == MAX_CMD_LINE + 1 && |front| + |b| == MAX_CMD_LINE - 8 && |a| + |b| <= 100
    ensures var vars := [Archived(b, Carrier(front, a, text)), Archived(a, text)];
            ConfigText(vars) + "\n"
                == Command(a, text) + ("\n" + (Command(b, Carrier(front, a, text)) + ("\n" + "\n")))
  {
    hide Command, ConfigText, Carrier;
    var value := Carrier(front, a, text);
    var one := [Archived(b, value)];
    var vars := [Archived(b, value), Archived(a, text)];
    assert vars[..1] == one && one[..0] == [];
    assert Saved(vars[1]) && Saved(one[0]) by { CarrierLength(front, a, text); }
    ConfigTextFirst(vars);
    ConfigTextFirst(one);
    NothingSaved();
  }

  /** The newer variable's line is cut, and its last quote is left behind. */
  lemma CutLineOf(st: State, a: string, text: string, more: string) returns (st1: State)
    requires GoodName(a) && GoodText(text) && |a| <= 100 && |a| + |text| + 8 == MAX_CMD_LINE + 1
    requires ScanVar(st.vars, a) < 0 && |st.vars| < MAX_CVARS
    ensures st1 == Extended(st, [Archived(a, Carried(a, text))])
    ensures Lines(st, Command(a, text) + ("\n" + more)) == Lines(st1, more)
  {
    hide Take, Command, CutCommand, ExecuteLine, ScanVar, GoodName, NoQuote, Lines;
    var buffer, part := Command(a, text) + ("\n" + more), Carried(a, text);
    st1 := Extended(st, [Archived(a, part)]);
    TakeLong(a, text, more);
    TakeCut(a, text, more);
    FrontNoQuote(text, |part|);
    ExecuteCut(st, a, part);
    OneQuoteLeft(a, text);
    NextLine(st, buffer);
    QuoteLine(st1, more);
    NextLine(st1, "\"" + ("\n" + more));
  }

  /** The older variable's line is cut in front of the command for the newer one, which comes to run. */
  lemma CarrierLineOf(st1: State, b: string, front: string, a: string, text: string) returns (st2: State)
    requires GoodName(b) && GoodText(Carrier(front, a, text)) && |b| <= 100 && |front| + |b| == MAX_CMD_LINE - 8
    requires |a| <= 100 && |a| + |text| + 8 == MAX_CMD_LINE + 1 && !EqualFold(a, b)
    requires st1.vars == [Archived(a, Carried(a, text))] && ScanVar(st1.vars, b) < 0
    requires GoodName(a) && Plain(text, false) && Bare(SetLine(a, text)) && ';' !in text
    ensures |st2.vars| == 2 && st2.vars[0].name == a && st2.vars[0].current == Str(text)
    ensures Lines(st1, Command(b, Carrier(front, a, text)) + ("\n" + "\n")) == st2
  {
    hide Take, Command, CutCommand, ExecuteLine, ScanVar, GoodName, NoQuote, Lines, Carrier, Carried, SetLine, Bare,
         Plain;
    var value := Carrier(front, a, text);
    var buffer := Command(b, value) + ("\n" + "\n");
    CarrierLength(front, a, text);
    CarrierCut(b, front, a, text);
    TakeLong(b, value, "\n");
    TakeCut(b, value, "\n");
    assert NoQuote(front) by { FrontNoQuote(value, |front|); CarrierFront(front, a, text); }
    ExecuteCut(st1, b, front);
    var mid := Extended(st1, [Archived(b, front)]);
    NextLine(st1, buffer);
    var rest := SetLine(a, text) + (";" + ("\"" + ("\n" + "\n")));
    assert SetLine(a, text) + (";" + "\"") + ("\n" + "\n") == rest;
    TakeBare(SetLine(a, text), ';', "\"" + ("\n" + "\n"));
    st2 := SetBack(mid, a, text);
    NextLine(mid, rest);
    QuoteLine(st2, "\n");
    NextLine(st2, "\"" + ("\n" + "\n"));
    LinesOfNewline(st2);
  }

  /** Two saved variables, of which the newer is cut: what is left of the older one's line gives it its value back. */
  lemma CutComesBack(a: string, b: string, text: string, front: string, cheats: bool, cheating: bool)
    requires GoodName(a) && GoodName(b) && !EqualFold(a, b) && !EqualFold(b, a)
    requires |a| + |text| + 8 == MAX_CMD_LINE + 1 && |front| + |b| == MAX_CMD_LINE - 8
    requires Plain(text, false) && GoodText(text) && GoodText(front) && Bare(SetLine(a, text)) && ';' !in text
    requires GoodText(Carrier(front, a, text)) && |a| + |b| <= 100
    ensures var vars := [Archived(b, Carrier(front, a, text)), Archived(a, text)];
            LineLength(vars[1]) > MAX_CMD_LINE && Regains(Load(Empty(cheats, cheating), ConfigText(vars)), vars[1])
  {
    hide Take, Command, CutCommand, SplitText, ExecuteLine, ExecuteAll, ScanVar, GoodName, GoodText, NoQuote, Plain,
         Bare, EqualFold, ConfigText, SetLine, Carrier, Lines, Carried;
    var vars := [Archived(b, Carrier(front, a, text)), Archived(a, text)];
    var cb := Command(b, Carrier(front, a, text)) + ("\n" + "\n");
    TwoSaved(a, b, text, front);
    var st := Empty(cheats, cheating);
    var st1 := CutLineOf(st, a, text, cb);
    NoneScanned(a);
    OtherScanned(st1.vars, b);
    var st2 := CarrierLineOf(st1, b, front, a, text);
    LoadIsLines(st, ConfigText(vars));
    SelfFold(a);
    assert st2.vars[0].current == Str(text);
  }

  lemma LoadIsLines(st: State, text: string)
    ensures Load(st, text) == Lines(st, text + "\n")
  {
    hide SplitText, ExecuteAll, Run;
    QuietRun(text + "\n", 0, false, false);
  }

  /** A plain word of one letter. */
  function Letters(n: nat, c: char): string { seq(n, _ => c) }

  lemma LettersPlain(n: nat, c: char)
    requires n > 0 && 'a' <= c <= 'z'
    ensures Plain(Letters(n, c), false) && GoodText(Letters(n, c)) && ';' !in Letters(n, c)
    ensures GoodName(Letters(n, c))
  {
  }

  lemma SetLineBare(c: char, n: nat, x: char)
    requires 'a' <= c <= 'z' && 'a' <= x <= 'z'
    ensures Bare(SetLine([c], Letters(n, x)))
  {
  }

  /** There is such a registry: its values are runs of one letter, but for the command. */
  lemma SomeCutComesBack(cheats: bool, cheating: bool) returns (vars: seq<Cvar>)
    ensures |vars| == 2 && Unique(vars) && AllReadable(vars)
    ensures ARCHIVE in vars[1].flags && LineLength(vars[1]) > MAX_CMD_LINE
    ensures Regains(Load(Empty(cheats, cheating), ConfigText(vars)), vars[1])
  {
    hide Plain, NoQuote, GoodName, SetLine, Bare, Load, ConfigText, Regains;
    var text, front := Letters(1016, 'x'), Letters(1015, 'y');
    LettersPlain(1016, 'x');
    LettersPlain(1015, 'y');
    LettersPlain(1, 'a');
    LettersPlain(1, 'b');
    assert Letters(1, 'a') == "a" && Letters(1, 'b') == "b";
    SetLineBare('a', 1016, 'x');
    OneLetterNames();
    CarrierGood(front, "a", text);
    CutComesBack("a", "b", text, front, cheats, cheating);
    vars := [Archived("b", Carrier(front, "a", text)), Archived("a", text)];
  }

  lemma OneLetterNames()
    ensures !EqualFold("a", "b") && !EqualFold("b", "a")
  {
    assert Upper("a"[0]) != Upper("b"[0]);
  }

  lemma CarrierGood(front: string, name: string, text: string)
    requires GoodText(front) && Bare(SetLine(name, text))
    ensures GoodText(Carrier(front, name, text))
  {
    hide SetLine;
  }

  // ---------------------------------------------------------------------------------------------
  // With other commands all values can come back

  /** `vstr name` */
  function VstrLine(name: string): string { "vstr " + name }

  /** The beginning of the value fills the line that is cut; behind it the value goes on with a command. */
  function Calling(front: string, c: string): string { front + ("z" + (VstrLine(c) + ";")) }

  lemma CallingCut(a: string, front: string, c: string)
    requires |front| + |a| == MAX_CMD_LINE - 8
    ensures var l := Command(a, Calling(front, c));
            |l| == |a| + |Calling(front, c)| + 8 >= MAX_CMD_LINE
            && l[MAX_CMD_LINE..] == VstrLine(c) + (";" + "\"")
    ensures Carried(a, Calling(front, c)) == front
  {
    hide VstrLine;
    var line, text := VstrLine(c), Calling(front, c);
    VstrLength(c);
    var l, head := Command(a, text), "seta " + (a + (" " + ['"'])) + front;
    assert l == head + ("z" + (line + (";" + "\"")));
    assert |head| == MAX_CMD_LINE - 1;
    assert text[..|front|] == front;
  }

  lemma VstrLength(c: string)
    ensures |VstrLine(c)| == |c| + 5
  {
  }

  lemma VstrTokens(c: string)
    requires Plain(c, false) && |c| < MAX_CMD_LINE
    ensures Tokens(VstrLine(c), false, MAX_STRING_TOKENS, BUFFER_SIZE) == ["vstr", c]
  {
    hide Tokens, Plain;
    VstrIsPlain();
    assert VstrLine(c) == "vstr" + (" " + c);
    TwoWords("vstr", c, MAX_STRING_TOKENS, BUFFER_SIZE);
  }

  lemma VstrIsPlain()
    ensures Plain("vstr", false) && !IsSet("vstr") && !EqualFold("vstr", "setfromcvar")
  {
    hide Plain;
    LowerIsPlain("vstr");
    assert Upper("vstr"[0]) != Upper("seta"[0]);
  }

  lemma VstrCopying(st: State, c: string)
    requires Plain(c, false) && |c| < MAX_CMD_LINE
    ensures IsOther(IsCopying, VstrLine(c)) && Copying(st, VstrLine(c)) == Reply(st, [Insert(VariableString(st, c))])
  {
    hide Tokens, EqualFold, VstrLine, Plain;
    VstrTokens(c);
    VstrIsPlain();
    SelfFold("vstr");
  }

  /** Another command and its reply. */
  lemma OtherStep(others: string -> bool, st: State, buffer: string, script: seq<Reply>)
    requires buffer != [] && IsOther(others, Take(buffer, false, false).line) && script != []
    requires var t := Take(buffer, false, false); !t.star && !t.slash
    ensures var e := Edited(Take(buffer, false, false).rest, 0, script[0].edits);
            LoadWith(others, st, buffer, 0, false, false, script)
            == LoadWith(others, script[0].st, e.0, e.1, false, false, script[1..])
  {
    hide Take, IsOther, Edited;
  }

  /** `vstr` of a short value puts it in front. */
  lemma VstrStep(st: State, c: string, more: string, script: seq<Reply>)
    requires Plain(c, false) && Bare(VstrLine(c)) && |c| < 100
    requires script != [] && script[0] == Copying(st, VstrLine(c))
    ensures LoadWith(IsCopying, st, VstrLine(c) + (";" + more), 0, false, false, script)
         == LoadWith(IsCopying, st, VariableString(st, c) + "\n" + more, 0, false, false, script[1..])
  {
    hide LoadWith, VstrLine, Bare, VariableString, IsOther, Copying, Take, Plain;
    VstrLength(c);
    VstrCopying(st, c);
    TakeBare(VstrLine(c), ';', more);
    assert VstrLine(c) + (";" + more) != [];
    OtherStep(IsCopying, st, VstrLine(c) + (";" + more), script);
    Inserted(more, VariableString(st, c));
  }

  lemma Inserted(more: string, text: string)
    ensures Edited(more, 0, [Insert(text)]) == (text + "\n" + more, 0)
  {
    assert [Insert(text)][1..] == [];
  }

  /** `setfromcvar`. */
  lemma SetFromStep(st: State, name: string, from: string, more: string, script: seq<Reply>)
    requires Plain(name, false) && Plain(from, false) && Bare(SetFromLine(name, from)) && |name| + |from| < 200
    requires script != [] && script[0] == Copying(st, SetFromLine(name, from))
    ensures LoadWith(IsCopying, st, SetFromLine(name, from) + "\n" + more, 0, false, false, script)
         == LoadWith(IsCopying, SetFromCvar(st, ["setfromcvar", name, from]), more, 0, false, false, script[1..])
  {
    hide LoadWith, SetFromLine, Bare, IsOther, Copying, Take, Plain, SetFromCvar;
    var line := SetFromLine(name, from);
    SetFromLength(name, from);
    SetFromTokens(name, from);
    SetFromIsOther(line);
    SetFromCopying(st, line);
    TakeBare(line, '\n', more);
    assert line + "\n" + more == line + ("\n" + more) != [];
    OtherStep(IsCopying, st, line + ("\n" + more), script);
    NoEdits(more, 0);
  }

  /** What is left at the end: the quote of the cut line, and two newlines. */
  lemma QuoteEnds(st: State)
    ensures LoadWith(IsCopying, st, "\"" + ("\n" + "\n"), 0, false, false, []) == st
  {
    hide LoadWith, ExecuteLine, Take, IsOther, Keeping;
    QuoteLine(st, "\n");
    QuoteIsOwn();
    OwnStep(IsCopying, st, "\"" + ("\n" + "\n"), []);
    NewlineLoads(IsCopying, st, []);
  }

  lemma QuoteIsOwn()
    ensures !IsOther(IsCopying, "\"")
  {
    assert ['"'] + "" == "\"";
    UnclosedFirst("", MAX_STRING_TOKENS, BUFFER_SIZE);
  }

  lemma ThreeSaved(a: Cvar, c: Cvar, d: Cvar)
    requires Saved(a) && Saved(c) && Saved(d)
    ensures ConfigText([a, c, d]) + "\n"
         == Command(d.name, SavedText(d)) + ("\n" + (Command(c.name, SavedText(c)) + ("\n"
            + (Command(a.name, SavedText(a)) + ("\n" + "\n")))))
  {
    hide Command, ConfigText, SavedText;
    assert [a, c, d][..2] == [a, c] && [a, c][..1] == [a] && [a][..0] == [];
    ConfigTextFirst([a, c, d]);
    ConfigTextFirst([a, c]);
    ConfigTextFirst([a]);
    NothingSaved();
  }

  /** Three variables: one that calls, the command that it calls, and one that has its value under a shorter name. */
  function Trio(a: string, c: string, d: string, front: string): seq<Cvar> {
    [Archived(a, Calling(front, c)), Archived(c, SetFromLine(a, d)), Archived(d, Calling(front, c))]
  }

  /** When the rest of the cut line comes to run. */
  function Caught(a: string, c: string, d: string, front: string, cheats: bool, cheating: bool): State {
    var st := Empty(cheats, cheating);
    st.(vars := [Archived(d, Calling(front, c)), Archived(c, SetFromLine(a, d)), Archived(a, front)])
  }

  predicate GoodTrio(a: string, c: string, d: string, front: string) {
    && GoodName(a) && GoodName(c) && GoodName(d) && GoodText(Calling(front, c)) && GoodText(SetFromLine(a, d))
    && |front| + |a| == MAX_CMD_LINE - 8 && |a| <= 100 && |c| + |d| + 7 <= |a|
    && !EqualFold(a, c) && !EqualFold(a, d) && !EqualFold(c, a) && !EqualFold(c, d) && !EqualFold(d, a)
    && !EqualFold(d, c)
  }

  lemma ScanTrio(x: Cvar, y: Cvar, z: Cvar)
    requires !EqualFold(x.name, y.name) && !EqualFold(x.name, z.name) && !EqualFold(y.name, z.name)
    requires !EqualFold(y.name, x.name) && !EqualFold(z.name, x.name) && !EqualFold(z.name, y.name)
    ensures ScanVar([x, y, z], x.name) == 0 && ScanVar([x, y, z], y.name) == 1 && ScanVar([x, y, z], z.name) == 2
  {
    hide EqualFold;
    SelfFold(x.name);
    SelfFold(y.name);
    SelfFold(z.name);
    var vars := [x, y, z];
    assert vars[0] == x && vars[1] == y && vars[2] == z;
  }

  /** The saved line of the caller, and the end of the text. */
  function CallerText(a: string, c: string, front: string): string {
    Command(a, Calling(front, c)) + ("\n" + "\n")
  }

  /** What is left of it once it is cut. */
  function CallerRest(c: string): string { VstrLine(c) + (";" + ("\"" + ("\n" + "\n"))) }

  /** The first two saved lines fit. */
  lemma TwoFit(x: Cvar, y: Cvar, st: State, end: string, script: seq<Reply>)
    requires Saveable(x) && Saveable(y) && ARCHIVE in x.flags && ARCHIVE in y.flags && st.vars == []
    requires !EqualFold(y.name, x.name) && Loaded(x) == x && Loaded(y) == y
    ensures LoadWith(IsCopying, st, Command(x.name, SavedText(x)) + ("\n" + (Command(y.name, SavedText(y))
                     + ("\n" + end))), 0, false, false, script)
         == LoadWith(IsCopying, st.(vars := [x, y]), end, 0, false, false, script)
  {
    hide Command, LoadWith, Keeping, GoodName, GoodText, SavedText, EqualFold, ScanVar, Fresh;
    NoneScanned(x.name);
    FitsStep(IsCopying, st, x, Command(y.name, SavedText(y)) + ("\n" + end), script);
    var st1 := Extended(st, [x]);
    assert st1.vars == [x];
    OtherScanned(st1.vars, y.name);
    FitsStep(IsCopying, st1, y, end, script);
    assert st1.vars + [y] == [x, y];
  }

  /** The third is cut. */
  lemma CallerIsCut(a: string, c: string, front: string, st: State, script: seq<Reply>)
    requires GoodName(a) && GoodText(Calling(front, c)) && |front| + |a| == MAX_CMD_LINE - 8
    requires ScanVar(st.vars, a) < 0 && |st.vars| < MAX_CVARS
    ensures LoadWith(IsCopying, st, CallerText(a, c, front), 0, false, false, script)
         == LoadWith(IsCopying, Extended(st, [Archived(a, front)]), CallerRest(c), 0, false, false, script)
  {
    hide Take, Command, CutCommand, ExecuteLine, LoadWith, Keeping, IsOther, ScanVar, GoodName, NoQuote, Calling,
         VstrLine, Carried;
    var text := Calling(front, c);
    CallingCut(a, front, c);
    TakeLong(a, text, "\n");
    TakeCut(a, text, "\n");
    FrontOfCalling(front, c);
    CutTokens(a, front);
    SetaIsOwn(IsCopying, CutCommand(a, front));
    ExecuteCut(st, a, front);
    OwnStep(IsCopying, st, CallerText(a, c, front), script);
    RestGroups(VstrLine(c));
  }

  lemma RestGroups(line: string)
    ensures line + (";" + "\"") + ("\n" + "\n") == line + (";" + ("\"" + ("\n" + "\n")))
  {
  }

  /** The saved lines up to the cut. */
  lemma TrioCaught(a: string, c: string, d: string, front: string, cheats: bool, cheating: bool, script: seq<Reply>)
    requires GoodTrio(a, c, d, front)
    ensures LoadAmong(IsCopying, Empty(cheats, cheating), ConfigText(Trio(a, c, d, front)), script)
         == LoadWith(IsCopying, Caught(a, c, d, front, cheats, cheating), CallerRest(c), 0, false, false, script)
  {
    hide Command, LoadWith, ScanVar, ConfigText, GoodName, GoodText, Calling, SetFromLine, EqualFold, CallerRest;
    var st, text := Empty(cheats, cheating), Calling(front, c);
    var va, vc, vd := Archived(a, text), Archived(c, SetFromLine(a, d)), Archived(d, text);
    CallingLength(front, c);
    SetFromLength(a, d);
    ThreeSaved(va, vc, vd);
    TwoFit(vd, vc, st, CallerText(a, c, front), script);
    TwoScanned(vd, vc, a);
    CallerIsCut(a, c, front, st.(vars := [vd, vc]), script);
    assert [vd, vc] + [Archived(a, front)] == Caught(a, c, d, front, cheats, cheating).vars;
  }

  lemma CallingLength(front: string, c: string)
    ensures |Calling(front, c)| == |front| + |c| + 7
  {
  }

  lemma TwoScanned(x: Cvar, y: Cvar, name: string)
    requires !EqualFold(name, x.name) && !EqualFold(name, y.name)
    ensures ScanVar([x, y], name) < 0
  {
    hide EqualFold;
    var vars := [x, y];
    assert vars[0] == x && vars[1] == y;
  }

  lemma FrontOfCalling(front: string, c: string)
    requires NoQuote(Calling(front, c))
    ensures NoQuote(front)
  {
    assert forall i :: 0 <= i < |front| ==> Calling(front, c)[i] == front[i];
  }

  /** With `setfromcvar` and `vstr` all values can come back, though a line does not fit. */
  lemma OthersBringBack(a: string, c: string, d: string, front: string, cheats: bool, cheating: bool)
    returns (script: seq<Reply>)
    requires GoodTrio(a, c, d, front) && Bare(SetFromLine(a, d)) && Bare(VstrLine(c))
    ensures var vars, st := Trio(a, c, d, front), Caught(a, c, d, front, cheats, cheating);
            && script == [Copying(st, VstrLine(c)), Copying(st, SetFromLine(a, d))]
            && ARCHIVE in vars[0].flags && LineLength(vars[0]) > MAX_CMD_LINE
            && forall i :: 0 <= i < 3 ==>
                 Regains(LoadAmong(IsCopying, Empty(cheats, cheating), ConfigText(vars), script), vars[i])
  {
    hide LoadAmong, LoadWith, ConfigText, Calling, SetFromLine, VstrLine, Copying, Bare, NoQuote, EqualFold, ScanVar,
         VariableString, SetFromCvar, Plain;
    var st, text := Caught(a, c, d, front, cheats, cheating), Calling(front, c);
    var line := SetFromLine(a, d);
    script := [Copying(st, VstrLine(c)), Copying(st, line)];
    assert script[1..] == [Copying(st, line)] && script[1..][1..] == [];
    CallingCut(a, front, c);
    SetFromLength(a, d);
    TrioCaught(a, c, d, front, cheats, cheating, script);
    VstrStep(st, c, "\"" + ("\n" + "\n"), script);
    ScanTrio(st.vars[0], st.vars[1], st.vars[2]);
    CalledLine(st, c, line);
    SetFromStep(st, a, d, "\"" + ("\n" + "\n"), script[1..]);
    Copied(st, a, d, front, text);
    QuoteEnds(SetFromCvar(st, ["setfromcvar", a, d]));
    SelfFold(a);
    SelfFold(c);
    SelfFold(d);
  }

  lemma CalledLine(st: State, c: string, line: string)
    requires |st.vars| == 3 && ScanVar(st.vars, c) == 1 && st.vars[1].current == Str(line) && |line| < MAX_STRING_CHARS
    ensures VariableString(st, c) == line
  {
    hide ScanVar;
  }

  lemma Copied(st: State, a: string, d: string, front: string, text: string)
    requires |st.vars| == 3 && ScanVar(st.vars, d) == 0 && ScanVar(st.vars, a) == 2 && ValidName(a)
    requires st.vars[0].current == Str(text) && st.vars[2] == Archived(a, front) && |front| != |text|
    ensures var st' := SetFromCvar(st, ["setfromcvar", a, d]);
            |st'.vars| == 3 && st'.vars[0] == st.vars[0] && st'.vars[1] == st.vars[1]
            && st'.vars[2].name == a && st'.vars[2].current == Str(text)
  {
    hide ScanVar, EqualFold;
    if EqualFold(front, text) {
      FoldLength(front, text);
    }
  }

  /** There is such a registry, with a line of 1032 characters. */
  lemma SomeBroughtBack(cheats: bool, cheating: bool) returns (vars: seq<Cvar>, script: seq<Reply>)
    ensures Unique(vars) && AllReadable(vars) && !LinesWithin(vars, MAX_CMD_LINE)
    ensures forall i :: 0 <= i < |vars| ==>
              Regains(LoadAmong(IsCopying, Empty(cheats, cheating), ConfigText(vars), script), vars[i])
  {
    hide LoadAmong, ConfigText, Calling, SetFromLine, VstrLine, Bare, Regains, Plain, GoodName, GoodText;
    var a, c, d, front := Letters(9, 'a'), Letters(1, 'c'), Letters(1, 'd'), Letters(1007, 'y');
    TrioNames();
    LettersPlain(9, 'a');
    LettersPlain(1, 'c');
    LettersPlain(1, 'd');
    LettersPlain(1007, 'y');
    SetFromBare(9, 'a', 1, 'd');
    VstrBare(1, 'c');
    CallingGood(front, c);
    assert GoodTrio(a, c, d, front);
    script := OthersBringBack(a, c, d, front, cheats, cheating);
    vars := Trio(a, c, d, front);
    assert !LinesWithin(vars, MAX_CMD_LINE);
  }

  lemma SetFromBare(n: nat, x: char, m: nat, y: char)
    requires 'a' <= x <= 'z' && 'a' <= y <= 'z'
    ensures Bare(SetFromLine(Letters(n, x), Letters(m, y))) && GoodText(SetFromLine(Letters(n, x), Letters(m, y)))
  {
  }

  lemma VstrBare(n: nat, x: char)
    requires 'a' <= x <= 'z'
    ensures Bare(VstrLine(Letters(n, x)))
  {
  }

  lemma TrioNames()
    ensures var a, c, d := Letters(9, 'a'), Letters(1, 'c'), Letters(1, 'd');
            && !EqualFold(a, c) && !EqualFold(a, d) && !EqualFold(c, a) && !EqualFold(c, d) && !EqualFold(d, a)
            && !EqualFold(d, c)
  {
    assert Upper(Letters(1, 'c')[0]) != Upper(Letters(1, 'd')[0]);
  }

  lemma CallingGood(front: string, c: string)
    requires GoodText(front) && Bare(VstrLine(c))
    ensures GoodText(Calling(front, c))
  {
    hide VstrLine;
  }
}
