/** What the flags of a variable mean over a run of calls. */
module CvarLife {
  import opened CString
  import opened Cvars
  import opened Config
  import Tokenizer

  // ---------------------------------------------------------------------------------------------
  // What a call asks of a variable

  predicate IsSetCall(c: Call) { c.CallSet? }

  /** A set that the user asks for. */
  predicate Unforced(c: Call) { c.CallSet? && !c.force }

  ghost predicate AllUnforced(calls: seq<Call>) { forall i :: 0 <= i < |calls| ==> Unforced(calls[i]) }

  ghost predicate AllSets(calls: seq<Call>) { forall i :: 0 <= i < |calls| ==> IsSetCall(calls[i]) }

  predicate Aims(c: Call, v: Cvar)
    requires c.CallSet?
  {
    ValidName(c.name) && EqualFold(c.name, v.name)
  }

  /** The value that the call asks the variable to take, if any. */
  function Asked(c: Call, v: Cvar): Parsed
    requires c.CallSet?
  {
    if Aims(c, v) then Parse(v.current.Kind(), c.text) else None
  }

  /** The same value; of strings the case does not count. */
  predicate Agrees(a: Value, b: Value) {
    if a.Str? && b.Str? then EqualFold(a.s, b.s) else a == b
  }

  predicate InRange(v: Cvar, value: Value) { value.Int? ==> v.imin <= value.i <= v.imax }

  /** The flags, and the cheats being off, keep the user from setting it. */
  predicate Protected(v: Cvar, cheats: bool) { {ROM, INIT} * v.flags != {} || (CHEAT in v.flags && !cheats) }

  lemma KindKept(v: Cvar, text: string, force: bool, cheats: bool)
    requires v.Typed()
    ensures SetFound(v, text, force, cheats).Typed()
  {
  }

  /** A set changes at most the variable that it names. */
  lemma SetAt(st: State, c: Call, k: nat)
    requires Sound(st) && c.CallSet? && k < |st.vars|
    ensures var st' := Do(st, c);
            && Sound(st') && st'.cheats == st.cheats && |st'.vars| >= |st.vars|
            && st'.vars[k] == if Aims(c, st.vars[k]) then SetFound(st.vars[k], c.text, c.force, st.cheats)
                              else st.vars[k]
  {
    hide EqualFold, SetFound, ValidName, AllTyped;
    CallKeepsSound(st, c);
    var j := ScanVar(st.vars, c.name);
    if j >= 0 {
      EqualFoldEquivalence(c.name, st.vars[j].name, c.name);
      EqualFoldEquivalence(c.name, st.vars[k].name, c.name);
      EqualFoldEquivalence(st.vars[k].name, c.name, st.vars[j].name);
      EqualFoldEquivalence(st.vars[j].name, c.name, st.vars[k].name);
    }
  }

  lemma LastCall(st: State, calls: seq<Call>)
    requires calls != []
    ensures DoAll(st, calls) == Do(DoAll(st, calls[..|calls| - 1]), calls[|calls| - 1])
  {
  }

  // ---------------------------------------------------------------------------------------------
  // Protected, latched and free variables

  /** A protected variable stays as it is. */
  lemma {:induction false} ProtectedStays(st: State, calls: seq<Call>, k: nat)
    requires Sound(st) && AllUnforced(calls) && k < |st.vars| && Protected(st.vars[k], st.cheats)
    ensures var st' := DoAll(st, calls);
            Sound(st') && st'.cheats == st.cheats && |st'.vars| >= |st.vars| && st'.vars[k] == st.vars[k]
  {
    hide Sound, Do, Parse, Aims;
    if calls != [] {
      var front := calls[..|calls| - 1];
      ProtectedStays(st, front, k);
      SetAt(DoAll(st, front), calls[|calls| - 1], k);
    }
  }

  /** The last value asked for that is in the limits and is not the current one; the latched one if there is none. */
  function Pending(v: Cvar, calls: seq<Call>): Value
    requires forall i :: 0 <= i < |calls| ==> calls[i].CallSet?
  {
    if calls == [] then v.latched else
    match Asked(calls[|calls| - 1], v)
    case Some(value) =>
      if InRange(v, value) && !Agrees(v.current, value) then value else Pending(v, calls[..|calls| - 1])
    case None => Pending(v, calls[..|calls| - 1])
  }

  lemma PendingKind(v: Cvar, calls: seq<Call>)
    requires v.Typed() && forall i :: 0 <= i < |calls| ==> calls[i].CallSet?
    ensures Pending(v, calls).Kind() == v.current.Kind()
  {
    hide Parse, Aims, InRange, Agrees;
    if calls != [] {
      PendingKind(v, calls[..|calls| - 1]);
    }
  }

  lemma SetLatched(v: Cvar, w: Cvar, c: Call, cheats: bool)
    requires Unforced(c) && v.Typed() && LATCH in v.flags && !Protected(v, cheats)
    requires w == v.(latched := w.latched) && w.Typed()
    ensures var r := if Aims(c, w) then SetFound(w, c.text, c.force, cheats) else w;
            r == match Asked(c, v)
                 case Some(value) => if InRange(v, value) && !Agrees(v.current, value) then v.(latched := value) else w
                 case None => w
  {
    hide Parse, EqualFold, ValidName;
    assert ROM !in v.flags && INIT !in v.flags by {
      assert ROM in v.flags ==> ROM in {ROM, INIT} * v.flags;
      assert INIT in v.flags ==> INIT in {ROM, INIT} * v.flags;
    }
  }

  /** A latched variable keeps its current value; the last new value asked for waits. */
  lemma {:induction false} LatchedWaits(st: State, calls: seq<Call>, k: nat)
    requires Sound(st) && AllUnforced(calls) && k < |st.vars|
    requires LATCH in st.vars[k].flags && !Protected(st.vars[k], st.cheats)
    ensures var v, st' := st.vars[k], DoAll(st, calls);
            && Sound(st') && st'.cheats == st.cheats && |st'.vars| >= |st.vars|
            && st'.vars[k] == v.(latched := Pending(v, calls))
  {
    hide Unique, Do, Parse, Aims, Protected, SetFound, InRange, Agrees;
    if calls != [] {
      var v, front, c := st.vars[k], calls[..|calls| - 1], calls[|calls| - 1];
      LatchedWaits(st, front, k);
      var mid := DoAll(st, front);
      SetAt(mid, c, k);
      SetLatched(v, mid.vars[k], c, st.cheats);
    }
  }

  /** The last value asked for that is in the limits, or `start`. */
  function LastAsked(v: Cvar, calls: seq<Call>, start: Value): Value
    requires forall i :: 0 <= i < |calls| ==> calls[i].CallSet?
  {
    if calls == [] then start else
    match Asked(calls[|calls| - 1], v)
    case Some(value) => if InRange(v, value) then value else LastAsked(v, calls[..|calls| - 1], start)
    case None => LastAsked(v, calls[..|calls| - 1], start)
  }

  predicate Free(v: Cvar, cheats: bool) { LATCH !in v.flags && !Protected(v, cheats) }

  /** The variable has a value, current and latched, that agrees with the given one, and is else as it was. */
  predicate Holds(w: Cvar, v: Cvar, value: Value) {
    w == v.(current := w.current, latched := w.current) && Agrees(w.current, value)
  }

  lemma SetFree(v: Cvar, w: Cvar, c: Call, cheats: bool, before: Value)
    requires Unforced(c) && v.Typed() && Free(v, cheats) && w.Typed() && Holds(w, v, before)
    requires w.current.Kind() == v.current.Kind()
    ensures var r := if Aims(c, w) then SetFound(w, c.text, c.force, cheats) else w;
            Holds(r, v, match Asked(c, v) case Some(value) => if InRange(v, value) then value else before
                                          case None => before)
  {
    hide Parse, EqualFold, ValidName;
    assert ROM !in v.flags && INIT !in v.flags by {
      assert ROM in v.flags ==> ROM in {ROM, INIT} * v.flags;
      assert INIT in v.flags ==> INIT in {ROM, INIT} * v.flags;
    }
    if Aims(c, w) {
      match Parse(v.current.Kind(), c.text)
      case Some(value) =>
        if value.Str? {
          SelfFold(value.s);
        }
      case None =>
    }
  }

  /** A variable without these flags has the last value asked for that is in its limits; a string up to case. */
  lemma {:induction false} FreeFollows(st: State, calls: seq<Call>, k: nat)
    requires Sound(st) && AllUnforced(calls) && k < |st.vars|
    requires Free(st.vars[k], st.cheats) && st.vars[k].current == st.vars[k].latched
    ensures var v, st' := st.vars[k], DoAll(st, calls);
            && Sound(st') && st'.cheats == st.cheats && |st'.vars| >= |st.vars|
            && Holds(st'.vars[k], v, LastAsked(v, calls, v.current))
  {
    hide Unique, Do, Parse, Aims, Free, SetFound, InRange, Holds;
    var v := st.vars[k];
    if calls == [] {
      HoldsItself(v);
    } else {
      var front, c := calls[..|calls| - 1], calls[|calls| - 1];
      FreeFollows(st, front, k);
      var mid := DoAll(st, front);
      SetAt(mid, c, k);
      HoldsKind(mid.vars[k], v, LastAsked(v, front, v.current));
      LastKind(v, front, v.current);
      SetFree(v, mid.vars[k], c, st.cheats, LastAsked(v, front, v.current));
    }
  }

  lemma HoldsItself(v: Cvar)
    requires v.current == v.latched
    ensures Holds(v, v, v.current)
  {
    if v.current.Str? {
      SelfFold(v.current.s);
    }
  }

  lemma LastKind(v: Cvar, calls: seq<Call>, start: Value)
    requires start.Kind() == v.current.Kind() && forall i :: 0 <= i < |calls| ==> calls[i].CallSet?
    ensures LastAsked(v, calls, start).Kind() == v.current.Kind()
  {
    hide Parse, Aims, InRange;
    if calls != [] {
      LastKind(v, calls[..|calls| - 1], start);
    }
  }

  lemma HoldsKind(w: Cvar, v: Cvar, value: Value)
    requires Holds(w, v, value)
    ensures w.current.Kind() == value.Kind()
  {
    hide EqualFold;
  }

  /** A forced set heeds no flag: the value counts at once, unless it is out of the limits or the variable has it. */
  lemma ForcedCounts(st: State, c: Call, k: nat)
    requires Sound(st) && c.CallSet? && c.force && k < |st.vars| && Aims(c, st.vars[k])
    ensures var v, w := st.vars[k], Do(st, c).vars[k];
            match Asked(c, v)
            case Some(value) =>
              w == if InRange(v, value) && !Agrees(v.current, value) then v.(current := value, latched := value) else v
            case None => w == v
  {
    hide Parse, EqualFold, ValidName, Unique;
    SetAt(st, c, k);
  }

  /** An integer in its limits stays there, whatever is set and how. */
  lemma {:induction false} LimitsKept(st: State, calls: seq<Call>, k: nat)
    requires Sound(st) && AllSets(calls) && k < |st.vars|
    requires InRange(st.vars[k], st.vars[k].current) && InRange(st.vars[k], st.vars[k].latched)
    ensures var v, st' := st.vars[k], DoAll(st, calls);
            && Sound(st') && |st'.vars| >= |st.vars|
            && st'.vars[k] == v.(current := st'.vars[k].current, latched := st'.vars[k].latched)
            && InRange(v, st'.vars[k].current) && InRange(v, st'.vars[k].latched)
  {
    hide Unique, Do, Parse, Aims, SetFound;
    if calls != [] {
      var front, c := calls[..|calls| - 1], calls[|calls| - 1];
      LimitsKept(st, front, k);
      var mid := DoAll(st, front);
      SetAt(mid, c, k);
      SetInRange(mid.vars[k], c.text, c.force, mid.cheats);
    }
  }

  lemma SetInRange(v: Cvar, text: string, force: bool, cheats: bool)
    requires InRange(v, v.current) && InRange(v, v.latched) && v.Typed()
    ensures var w := SetFound(v, text, force, cheats);
            InRange(v, w.current) && InRange(v, w.latched) && w == v.(current := w.current, latched := w.latched)
  {
    hide Parse, EqualFold;
  }

  // ---------------------------------------------------------------------------------------------
  // Registration

  /** What a registration takes the place of: a user's variable where the program allows none. */
  predicate Replaces(st: State, v: Cvar, flags: set<Flag>) { Overrides(flags, st.cheating) && USER_CREATED in v.flags }

  /** A registration ends in a fatal error exactly for a bad name or value, with no room left, or if the program itself
      gave the variable another type; and then nothing is changed. */
  lemma RegisterFatalIff(st: State, name: string, flags: set<Flag>, value: Value, imin: int, imax: int)
    requires !st.fatal
    ensures var st', k := RegisterState(st, name, flags, value, imin, imax), ScanVar(st.vars, name);
            && (st'.fatal <==> !ValidName(name) || (value.Int? && !(imin <= value.i <= imax))
                               || (k < 0 && |st.vars| >= MAX_CVARS)
                               || (k >= 0 && USER_CREATED !in st.vars[k].flags
                                   && st.vars[k].current.Kind() != value.Kind()))
            && (st'.fatal ==> st'.vars == st.vars)
  {
    hide ScanVar, ValidName, Reregistered;
  }

  /** A new variable has the value in all places, and nothing is lost. */
  lemma RegisterAdds(st: State, name: string, flags: set<Flag>, value: Value, imin: int, imax: int)
    requires !st.fatal && ScanVar(st.vars, name) < 0 && !RegisterState(st, name, flags, value, imin, imax).fatal
    ensures var vars, n := RegisterState(st, name, flags, value, imin, imax).vars, |st.vars|;
            && |vars| == n + 1 && vars[..n] == st.vars && vars[n].name == name && vars[n].flags == flags
            && vars[n].current == vars[n].latched == vars[n].reset == value
            && vars[n].imin == imin && vars[n].imax == imax && ScanVar(vars, name) == n
  {
    hide ValidName, EqualFold;
    SelfFold(name);
  }

  /** One that takes the place of a user's variable forgets the user's value. */
  lemma RegisterReplaces(st: State, name: string, flags: set<Flag>, value: Value, imin: int, imax: int, k: nat)
    requires ScanVar(st.vars, name) == k && Replaces(st, st.vars[k], flags) && ValidNew(name, value, imin, imax)
    ensures var w := RegisterState(st, name, flags, value, imin, imax).vars[k];
            && w.flags == flags && w.current == w.latched == w.reset == value && w.name == name
            && w.imin == imin && w.imax == imax
  {
    hide ScanVar, ValidName;
  }

  /** A user's text that means nothing in the program's type counts as zero. */
  lemma NothingMeant(v: Cvar, flags: set<Flag>, value: Value, imin: int, imax: int, cheats: bool)
    requires v.Typed() && v.latched.Str? && !value.Str? && Parse(value.Kind(), v.latched.s) == None
    ensures var w := Reregistered(v, flags, value, imin, imax, cheats);
            w.current == w.latched == (if value.Bool? then Bool(false) else Int(0)) && w.reset == value
  {
    hide Parse;
  }

  lemma SameBack(v: Value)
    requires Int32(v)
    ensures Parse(v.Kind(), ToStr(v)) == Some(v)
  {
    hide IsInteger, Atoi, Dec, EqualFold;
    BoolText();
    if v.Int? {
      DecRoundTrip(v.i);
    }
  }

  /** A later registration of the same type takes what waits as the current value, if it is in the new limits. */
  lemma ReregisterTakes(v: Cvar, flags: set<Flag>, value: Value, imin: int, imax: int, cheats: bool)
    requires v.Typed() && value.Kind() == v.current.Kind() && Int32(v.latched)
    ensures var w := Reregistered(v, flags, value, imin, imax, cheats);
            && w.name == v.name && w.reset == value
            && w.imin == (if value.Int? then imin else v.imin) && w.imax == (if value.Int? then imax else v.imax)
            && w.flags == (if USER_CREATED in flags then v.flags else v.flags - {USER_CREATED}) + flags
            && (InRange(w, v.latched) && (v.latched.Str? || v.latched != v.current) ==>
                  w.current == w.latched == v.latched)
            && (!InRange(w, v.latched) || v.latched == v.current ==> w.current == v.current && w.latched == v.latched)
  {
    hide IsInteger, Atoi, Dec, EqualFold, Parse;
    SameBack(v.latched);
    assert USER_CREATED !in v.flags ==> v.flags - {USER_CREATED} == v.flags;
  }

  /** The life of a latched variable: what the user asks for last waits while it is in use, and counts when the program
      registers it again. */
  lemma LatchTakesEffect(st: State, calls: seq<Call>, k: nat, flags: set<Flag>, value: Value, imin: int, imax: int)
    requires Sound(st) && !st.fatal && AllUnforced(calls) && k < |st.vars|
    requires LATCH in st.vars[k].flags && !Protected(st.vars[k], st.cheats)
    requires ValidNew(st.vars[k].name, value, imin, imax) && value.Kind() == st.vars[k].current.Kind()
    requires !Replaces(DoAll(st, calls), st.vars[k], flags)
    requires var waits := Pending(st.vars[k], calls); Int32(waits) && (waits.Int? ==> imin <= waits.i <= imax)
    ensures var v, used := st.vars[k], DoAll(st, calls);
            var again := RegisterState(used, v.name, flags, value, imin, imax);
            && k < |used.vars| == |again.vars| && used.vars[k].current == v.current
            && again.vars[k].current == again.vars[k].latched == Pending(v, calls) && again.vars[k].reset == value
            && forall j :: 0 <= j < |used.vars| && j != k ==> again.vars[j] == used.vars[j]
  {
    hide Do, DoAll, Parse, Protected, SetFound, InRange, Agrees, Reregistered, EqualFold, ValidName, ScanVar,
         AllTyped, Pending;
    var v, used := st.vars[k], DoAll(st, calls);
    LatchedWaits(st, calls, k);
    SelfFold(v.name);
    FoundIsOnly(used.vars, k, v.name);
    TypedAt(st, k);
    TypedAt(used, k);
    PendingKind(v, calls);
    ReregisterTakes(used.vars[k], flags, value, imin, imax, used.cheats);
    var w := Reregistered(used.vars[k], flags, value, imin, imax, used.cheats);
    RangeIs(w, Pending(v, calls));
    assert value.Int? <==> Pending(v, calls).Int?;
    assert InRange(w, Pending(v, calls));
    assert w.current == w.latched == Pending(v, calls);
  }

  lemma TypedAt(st: State, k: nat)
    requires Sound(st) && k < |st.vars|
    ensures st.vars[k].Typed()
  {
  }

  lemma RangeIs(w: Cvar, value: Value)
    ensures InRange(w, value) <==> (value.Int? ==> w.imin <= value.i <= w.imax)
  {
  }

  /** What waits cannot be taken back by asking for the current value: that is refused as no change. */
  lemma LatchCannotBeUndone(st: State, name: string, k: nat, other: int)
    requires Sound(st) && k < |st.vars| && st.vars[k].name == name && ValidName(name)
    requires LATCH in st.vars[k].flags && !Protected(st.vars[k], st.cheats)
    requires st.vars[k].current.Int? && Int32(st.vars[k].current) && Int32(Int(other))
    requires st.vars[k].imin <= other <= st.vars[k].imax && other != st.vars[k].current.i
    ensures var calls := [CallSet(name, Dec(other), false), CallSet(name, Dec(st.vars[k].current.i), false)];
            var vars := DoAll(st, calls).vars;
            k < |vars| && vars[k].latched == Int(other) && vars[k].current == st.vars[k].current
  {
    hide Do, DoAll, SetFound, EqualFold, Dec, Protected, ValidName, Sound, IsInteger, Atoi;
    var v := st.vars[k];
    var first, second := CallSet(name, Dec(other), false), CallSet(name, Dec(v.current.i), false);
    assert [first, second][..1] == [first] && [first][..0] == [];
    SelfFold(name);
    DecRoundTrip(other);
    DecRoundTrip(v.current.i);
    LatchedWaits(st, [first, second], k);
    assert Pending(v, [first, second]) == Pending(v, [first]) == Int(other);
  }

  // ---------------------------------------------------------------------------------------------
  // What texts mean

  /** A boolean takes the low byte of a number, or a word in any case. */
  lemma BoolTexts(i: int, text: string)
    requires -0x8000_0000 <= i <= 0x7fff_ffff
    ensures Parse(KBool, Dec(i)) == Some(Bool(i % 256 != 0))
    ensures EqualFold(text, "true") ==> Parse(KBool, text) == Some(Bool(true))
    ensures EqualFold(text, "false") ==> Parse(KBool, text) == Some(Bool(false))
    ensures !IsInteger(text) && !EqualFold(text, "true") && !EqualFold(text, "false") ==> Parse(KBool, text) == None
    ensures IsInteger(text) ==> Parse(KInt, text) == Some(Int(Atoi(text)))
    ensures !IsInteger(text) ==> Parse(KInt, text) == None
  {
    hide Dec, Atoi;
    DecRoundTrip(i);
    if EqualFold(text, "true") {
      WordIsNoNumber(text, 't');
    }
    if EqualFold(text, "false") {
      WordIsNoNumber(text, 'f');
      assert Upper('t') != Upper('f');
    }
  }

  lemma WordIsNoNumber(text: string, c: char)
    requires text != [] && Upper(text[0]) == Upper(c) && 'a' <= c <= 'z'
    ensures !IsInteger(text)
  {
  }

  /** What waits is what is saved, unless it is the empty text; then the current value is. */
  lemma WaitingIsSaved(v: Cvar)
    ensures ToStr(v.latched) != "" ==> SavedText(v) == ToStr(v.latched)
    ensures ToStr(v.latched) == "" ==> SavedText(v) == ToStr(v.current)
    ensures v.latched == Str("") && v.current.Str? ==> SavedText(v) == v.current.s
  {
  }

  /** A line is saved if with its end it fits the buffer it is written to. */
  lemma SavedFits(v: Cvar)
    ensures var line := "seta " + v.name + " \"" + SavedText(v) + "\"\n";
            && (Saved(v) <==> ARCHIVE in v.flags && |line| < LINE_BUFFER)
            && SavedLine(v) == if Saved(v) then line else ""
  {
  }

  /** A line that begins with the name of a variable sets it to the next word, whatever stands behind that; alone it
      sets nothing, and neither does a word that names none. */
  lemma NamedLineSets(st: State, word: string, value: string, more: seq<string>, k: nat)
    requires Sound(st) && k < |st.vars| && EqualFold(word, st.vars[k].name) && ValidName(st.vars[k].name)
    requires !EqualFold(word, "set") && !EqualFold(word, "seta")
    requires Free(st.vars[k], st.cheats) && st.vars[k].current.Str? && !EqualFold(st.vars[k].current.s, value)
    ensures ExecuteArgs(st, [word, value] + more)
         == st.(vars := st.vars[k := st.vars[k].(current := Str(value), latched := Str(value))])
    ensures ExecuteArgs(st, [word]) == st
  {
    hide Unique, EqualFold, ValidName, ScanVar, AllTyped;
    SelfFold(st.vars[k].name);
    FoundIsOnly(st.vars, k, word);
    FoundIsOnly(st.vars, k, st.vars[k].name);
    var v := st.vars[k];
    assert ROM !in v.flags && INIT !in v.flags by {
      assert ROM in v.flags ==> ROM in {ROM, INIT} * v.flags;
      assert INIT in v.flags ==> INIT in {ROM, INIT} * v.flags;
    }
  }

  lemma UnknownLineDoesNothing(st: State, args: seq<string>)
    requires args != [] && !EqualFold(args[0], "set") && !EqualFold(args[0], "seta")
    requires forall i :: 0 <= i < |st.vars| ==> !EqualFold(args[0], st.vars[i].name)
    ensures ExecuteArgs(st, args) == st
  {
    hide EqualFold;
  }

  /** The words of a set command are joined by blanks, as long as they are not very long. */
  lemma {:induction false} CombineJoins(args: seq<string>, l: nat)
    requires l + |Tokenizer.Layout(args)| < COMBINED_BUFFER - 2
    ensures Combine(args, l) == Tokenizer.Join(args)
    decreases |args|
  {
    if args != [] {
      CombineJoins(args[1..], l + if args[0] == [] then 0 else |args[0]| - 1);
      assert |args| == 1 ==> args[1..] == [] && args[0] + "" + "" == args[0];
      assert |args| > 1 ==> args[0] + " " + Combine(args[1..], l + if args[0] == [] then 0 else |args[0]| - 1)
                            == args[0] + (" " + Tokenizer.Join(args[1..]));
    }
  }

  /** A value of the hash: characters count by their place, from 119 on, in small letters. */
  lemma HashSample()
    ensures Hash("Ab") == (97 * 119 + 98 * 120) % 512
  {
    assert HashSum("Ab", 0) == 0;
    assert HashSum("Ab", 1) == 97 * 119 && HashSum("Ab", 2) == HashSum("Ab", 1) + 98 * 120;
  }

  /** Backslashes, quotes and semicolons do not make names. */
  lemma NamesAre(name: string)
    ensures ValidName(name) <==> forall i :: 0 <= i < |name| ==> name[i] !in "\\\";"
  {
  }
}
