/** The console command buffer of src/cmd.c. */
module CommandBuffer {

  const MAX_CMD_BUFFER := 1024
  const MAX_CMD_LINE := 1024

  // ---------------------------------------------------------------------------------------------
  // Specification: where a line ends

  /** What the scan remembers: inside quotes, inside a star comment, inside a slash comment. */
  datatype Mode = Mode(quoted: bool, star: bool, slash: bool)

  /** Where the scan stops at a character: not at all, at it, or at the one after it. */
  datatype Stop = Go | Here | Next

  predicate IsNewline(c: char) { c == '\n' || c == '\r' }

  /** The character at `i` and, unless it is the last one, its successor. */
  function Pair(text: string, i: nat): (p: string)
    requires i < |text|
    ensures p != [] && p[0] == text[i]
  {
    if i + 1 < |text| then [text[i], text[i + 1]] else [text[i]]
  }

  /** One character of the scan; `pair` is the character and its successor. */
  function Step(pair: string, m: Mode): (Mode, Stop)
    requires pair != []
  {
    var c := pair[0];
    var quoted := if c == '"' then !m.quoted else m.quoted;
    if !quoted && m.star && pair == "*/" then
      (Mode(quoted, false, m.slash), Next)
    else
      var slash := m.slash || (!quoted && !m.star && pair == "//");
      var star := m.star || (!quoted && !m.slash && pair == "/*");
      if !quoted && !slash && !star && c == ';' then (Mode(quoted, star, slash), Here)
      else if !star && IsNewline(c) then (Mode(quoted, star, false), Here)
      else (Mode(quoted, star, slash), Go)
  }

  /** The scan from position `i` on: the position of the character that ends the line, and what is remembered. */
  function Scan(text: string, i: nat, m: Mode): (r: (nat, Mode))
    requires i <= |text|
    ensures i <= r.0 <= |text|
    decreases |text| - i
  {
    if i == |text| then (i, m) else
    var (m', stop) := Step(Pair(text, i), m);
    match stop
    case Here => (i, m')
    case Next => (i + 1, m')
    case Go => Scan(text, i + 1, m')
  }

  /** The line at the front of the buffer, the byte removed behind it (none if the line ends the buffer), the text
      behind that, and the comment flags, which outlive the line. */
  datatype Taken = Taken(line: string, removed: string, rest: string, star: bool, slash: bool)

  function Cut(text: string, n: nat, star: bool, slash: bool): (t: Taken)
    requires n <= |text|
    ensures t.line + t.removed + t.rest == text && |t.line| == n
    ensures if n < |text| then t.removed == [text[n]] else t.removed == [] && t.rest == []
  {
    if n < |text| then Taken(text[..n], [text[n]], text[n + 1..], star, slash) else Taken(text, [], [], star, slash)
  }

  /** A line is cut off after 1023 characters. */
  function Clamp(at: nat): (n: nat)
    ensures n <= at && n < MAX_CMD_LINE
  {
    if at >= MAX_CMD_LINE - 1 then MAX_CMD_LINE - 1 else at
  }

  function Take(text: string, star: bool, slash: bool): (t: Taken)
    requires text != []
    ensures |t.rest| < |text| && |t.line| < MAX_CMD_LINE
    ensures t.line + t.removed + t.rest == text && |t.removed| <= 1
    ensures t.removed == [] ==> t.rest == []
  {
    var (at, m) := Scan(text, 0, Mode(false, star, slash));
    Cut(text, Clamp(at), m.star, m.slash)
  }

  /** The lines of a text, the bytes removed between them, and the comment flags at the end. */
  datatype Split = Split(lines: seq<string>, removed: string, star: bool, slash: bool)

  function SplitText(text: string, star: bool, slash: bool): (s: Split)
    decreases |text|
  {
    if text == [] then Split([], [], star, slash) else
    var t := Take(text, star, slash);
    var s := SplitText(t.rest, t.star, t.slash);
    Split([t.line] + s.lines, t.removed + s.removed, s.star, s.slash)
  }

  // ---------------------------------------------------------------------------------------------
  // Nothing is lost

  /** Each line followed by its removed byte, while there are any. */
  function Unsplit(lines: seq<string>, removed: string): string {
    if lines == [] then []
    else if removed == [] then lines[0] + Unsplit(lines[1..], [])
    else lines[0] + [removed[0]] + Unsplit(lines[1..], removed[1..])
  }

  /** Every buffer is rebuilt from the lines handed out and the removed bytes; only the line that ends the buffer
      may have none. */
  lemma {:induction false} SplitRebuilds(text: string, star: bool, slash: bool)
    ensures var s := SplitText(text, star, slash);
            Unsplit(s.lines, s.removed) == text && |s.lines| - 1 <= |s.removed| <= |s.lines|
    decreases |text|
  {
    hide Take;
    if text != [] {
      var t, s := Take(text, star, slash), SplitText(text, star, slash);
      var r := SplitText(t.rest, t.star, t.slash);
      SplitRebuilds(t.rest, t.star, t.slash);
      assert s.lines[1..] == r.lines;
      if t.removed != [] {
        assert s.removed[1..] == r.removed && [s.removed[0]] == t.removed;
      }
    }
  }

  lemma StepStops(text: string, i: nat, m: Mode)
    requires i < |text|
    ensures Step(Pair(text, i), m).1 == Here ==> IsNewline(text[i]) || text[i] == ';'
    ensures Step(Pair(text, i), m).1 == Next ==> i + 1 < |text| && text[i..i + 2] == "*/"
  {
    assert i + 1 < |text| ==> text[i..i + 2] == Pair(text, i);
  }

  /** A byte that ends a scan is a separator: a newline, a semicolon, or the slash of a closing comment mark. */
  lemma {:induction false} ScanStopsAtSeparator(text: string, i: nat, m: Mode)
    requires i <= |text|
    ensures var at := Scan(text, i, m).0;
            at < |text| ==> IsNewline(text[at]) || text[at] == ';' || (at > 0 && text[at - 1..at + 1] == "*/")
    decreases |text| - i
  {
    hide Step, Pair;
    if i < |text| {
      var (m', stop) := Step(Pair(text, i), m);
      StepStops(text, i, m);
      if stop == Go {
        ScanStopsAtSeparator(text, i + 1, m');
      }
    }
  }

  // ---------------------------------------------------------------------------------------------
  // Text that ends with a newline is split on its own

  predicate EndsLine(a: string) { a != [] && a[|a| - 1] == '\n' }

  lemma {:induction false} ScanAppend(a: string, b: string, i: nat, m: Mode)
    requires EndsLine(a) && i <= |a|
    ensures if Scan(a, i, m).0 < |a| then Scan(a + b, i, m) == Scan(a, i, m)
            else i < |a| ==> Scan(a, i, m).1.star && (b != [] ==> Scan(a + b, i, m).0 > |a|)
    decreases |a| - i
  {
    if i < |a| {
      var (m', stop) := Step(Pair(a, i), m);
      assert Step(Pair(a + b, i), m) == Step(Pair(a, i), m) by {
        if i + 1 < |a| {
          assert Pair(a + b, i) == Pair(a, i);
        }
      }
      if stop == Go {
        ScanAppend(a, b, i + 1, m');
        if i + 1 == |a| {
          assert m'.star;
          if b != [] {
            StarGoesOn(a + b, |a|, m');
          }
        }
      }
    }
  }

  /** Inside a star comment no line ends at the next character. */
  lemma StarGoesOn(text: string, i: nat, m: Mode)
    requires i < |text| && m.star
    ensures Scan(text, i, m).0 > i
  {
  }

  /** Every scan of `a` stops inside `a`: no star comment is left open. */
  ghost predicate Closed(a: string, star: bool, slash: bool)
    decreases |a|
  {
    a == [] ||
    (Scan(a, 0, Mode(false, star, slash)).0 < |a| && var t := Take(a, star, slash); Closed(t.rest, t.star, t.slash))
  }

  function Then(s: Split, more: Split): Split {
    Split(s.lines + more.lines, s.removed + more.removed, more.star, more.slash)
  }

  lemma CutAppend(a: string, b: string, n: nat, star: bool, slash: bool)
    requires EndsLine(a) && n < |a|
    ensures var t := Cut(a, n, star, slash);
            Cut(a + b, n, star, slash) == t.(rest := t.rest + b) && (t.rest == [] || EndsLine(t.rest))
  {
    assert (a + b)[n + 1..] == a[n + 1..] + b;
  }

  lemma TakeAppend(a: string, b: string, star: bool, slash: bool)
    requires EndsLine(a) && Scan(a, 0, Mode(false, star, slash)).0 < |a|
    ensures var t := Take(a, star, slash);
            && Take(a + b, star, slash) == t.(rest := t.rest + b)
            && (t.rest == [] || EndsLine(t.rest))
  {
    var m := Mode(false, star, slash);
    ScanAppend(a, b, 0, m);
    var (at, m') := Scan(a, 0, m);
    CutAppend(a, b, Clamp(at), m'.star, m'.slash);
  }

  lemma SplitTake(text: string, star: bool, slash: bool)
    requires text != []
    ensures var t := Take(text, star, slash);
            SplitText(text, star, slash)
                == Then(Split([t.line], t.removed, t.star, t.slash), SplitText(t.rest, t.star, t.slash))
  {
  }

  lemma SplitEmpty(star: bool, slash: bool, more: Split)
    ensures SplitText([], star, slash) == Split([], [], star, slash)
    ensures Then(Split([], [], star, slash), more) == more
  {
  }

  lemma ThenAssoc(a: Split, b: Split, c: Split)
    ensures Then(a, Then(b, c)) == Then(Then(a, b), c)
  {
    assert a.lines + (b.lines + c.lines) == a.lines + b.lines + c.lines;
    assert a.removed + (b.removed + c.removed) == a.removed + b.removed + c.removed;
  }

  /** Closed text in front of a buffer is handed out exactly as it would be alone, before anything behind it. */
  lemma {:induction false} ClosedTextFirst(a: string, b: string, star: bool, slash: bool)
    requires a == [] || EndsLine(a)
    requires Closed(a, star, slash)
    ensures var s := SplitText(a, star, slash);
            SplitText(a + b, star, slash) == Then(s, SplitText(b, s.star, s.slash))
    decreases |a|
  {
    hide Take, Scan, SplitText;
    SplitEmpty(star, slash, SplitText(b, star, slash));
    if a == [] {
      assert a + b == b;
    } else {
      ClosedStep(a, star, slash);
      var t := Take(a, star, slash);
      TakeAppend(a, b, star, slash);
      ClosedTextFirst(t.rest, b, t.star, t.slash);
      SplitTake(a, star, slash);
      SplitTake(a + b, star, slash);
      var r := SplitText(t.rest, t.star, t.slash);
      ThenAssoc(Split([t.line], t.removed, t.star, t.slash), r, SplitText(b, r.star, r.slash));
    }
  }

  /** Text that leaves a star comment open draws what is behind it into its own last line. */
  lemma OpenTextRunsOn(a: string, b: string, star: bool, slash: bool)
    requires EndsLine(a) && |a| < MAX_CMD_LINE - 1 && b != []
    requires Scan(a, 0, Mode(false, star, slash)).0 == |a|
    ensures SplitText(a, star, slash).lines[0] == a
    ensures forall more :: SplitText(a + b, star, slash) != Then(SplitText(a, star, slash), more)
  {
    ScanAppend(a, b, 0, Mode(false, star, slash));
    SplitTake(a, star, slash);
    SplitTake(a + b, star, slash);
    var s, long := SplitText(a, star, slash), SplitText(a + b, star, slash);
    assert |long.lines[0]| > |a|;
    forall more
      ensures long != Then(s, more)
    {
      assert Then(s, more).lines[0] == s.lines[0];
    }
  }

  lemma ClosedStep(a: string, star: bool, slash: bool)
    requires a != []
    ensures var stop, t := Scan(a, 0, Mode(false, star, slash)).0, Take(a, star, slash);
            Closed(a, star, slash) <==> stop < |a| && Closed(t.rest, t.star, t.slash)
  {
  }

  /** A closed first line splits off both sides alike. */
  lemma PeelLine(a: string, b: string, star: bool, slash: bool)
    requires EndsLine(a) && Scan(a, 0, Mode(false, star, slash)).0 < |a|
    ensures var t := Take(a, star, slash);
            var s, r := SplitText(a, star, slash), SplitText(t.rest, t.star, t.slash);
            SplitText(a + b, star, slash) == Then(s, SplitText(b, s.star, s.slash))
            <==> SplitText(t.rest + b, t.star, t.slash) == Then(r, SplitText(b, r.star, r.slash))
  {
    TakeAppend(a, b, star, slash);
    SplitTake(a, star, slash);
    SplitTake(a + b, star, slash);
    var t := Take(a, star, slash);
    var r := SplitText(t.rest, t.star, t.slash);
    var more := SplitText(b, r.star, r.slash);
    ThenAssoc(Split([t.line], t.removed, t.star, t.slash), r, more);
    if SplitText(a + b, star, slash) == Then(SplitText(a, star, slash), more) {
      ThenInjective(Split([t.line], t.removed, t.star, t.slash), SplitText(t.rest + b, t.star, t.slash), Then(r, more));
    }
  }

  /** For text short enough not to be cut off this is exact: it is handed out on its own if and only if it is closed.
      For longer text it is not (`OpenYetFirst`). */
  lemma {:induction false} OnlyClosedTextFirst(a: string, b: string, star: bool, slash: bool)
    requires EndsLine(a) && |a| < MAX_CMD_LINE - 1 && b != []
    ensures var s := SplitText(a, star, slash);
            SplitText(a + b, star, slash) == Then(s, SplitText(b, s.star, s.slash)) <==> Closed(a, star, slash)
    decreases |a|
  {
    ClosedStep(a, star, slash);
    if Scan(a, 0, Mode(false, star, slash)).0 == |a| {
      OpenTextRunsOn(a, b, star, slash);
    } else {
      var t := Take(a, star, slash);
      TakeAppend(a, b, star, slash);
      PeelLine(a, b, star, slash);
      if t.rest == [] {
        ClosedTextFirst(t.rest, b, t.star, t.slash);
      } else {
        OnlyClosedTextFirst(t.rest, b, t.star, t.slash);
      }
    }
  }

  lemma ThenInjective(a: Split, b: Split, c: Split)
    requires Then(a, b) == Then(a, c)
    ensures b == c
  {
    assert b.lines == (a.lines + b.lines)[|a.lines|..] && c.lines == (a.lines + c.lines)[|a.lines|..];
    assert b.removed == (a.removed + b.removed)[|a.removed|..] && c.removed == (a.removed + c.removed)[|a.removed|..];
  }

  // ---------------------------------------------------------------------------------------------
  // Running the buffer

  /** What a command does to the buffer while it runs. */
  datatype Edit = Add(text: string) | Insert(text: string) | Wait(frames: int)

  /** Text and wait counter after the edits of one command. */
  function Edited(text: string, wait: int, edits: seq<Edit>): (string, int)
    decreases |edits|
  {
    if edits == [] then (text, wait) else
    match edits[0]
    case Add(t) => Edited(text + t, wait, edits[1..])
    case Insert(t) => Edited(t + "\n" + text, wait, edits[1..])
    case Wait(n) => Edited(text, n, edits[1..])
  }

  /** The lines executed, and the text and wait counter left. */
  datatype Outcome = Outcome(lines: seq<string>, text: string, wait: int)

  /** Cbuf_Execute. The k-th command executed makes the edits `script[k]`, and none once the script is used up: any
      behaviour of commands over finitely many of them is such a script. */
  function Run(text: string, wait: int, star: bool, slash: bool, script: seq<seq<Edit>>): Outcome
    decreases |script|, |text|
  {
    if text == [] then Outcome([], text, wait)
    else if wait > 0 then Outcome([], text, wait - 1)
    else
      var t := Take(text, star, slash);
      var (text', wait') := Edited(t.rest, wait, if script == [] then [] else script[0]);
      var r := Run(text', wait', t.star, t.slash, if script == [] then [] else script[1..]);
      r.(lines := [t.line] + r.lines)
  }

  lemma RunStep(text: string, wait: int, star: bool, slash: bool, script: seq<seq<Edit>>, done: seq<string>)
    requires wait <= 0 && text != []
    ensures var t := Take(text, star, slash);
            var (text', wait') := Edited(t.rest, wait, if script == [] then [] else script[0]);
            var whole, r := Run(text, wait, star, slash, script),
                Run(text', wait', t.star, t.slash, if script == [] then [] else script[1..]);
            done + whole.lines == done + [t.line] + r.lines && whole.text == r.text && whole.wait == r.wait
  {
    hide Take, Edited;
  }

  lemma NoEdits(text: string, wait: int)
    ensures Edited(text, wait, []) == (text, wait)
  {
  }

  lemma RunStops(text: string, wait: int, star: bool, slash: bool, script: seq<seq<Edit>>)
    requires text == [] || wait > 0
    ensures Run(text, wait, star, slash, script) == Outcome([], text, if text == [] then wait else wait - 1)
  {
  }

  /** Commands that leave the buffer alone: the lines executed are those of the splitter, and the buffer ends empty. */
  lemma {:induction false} QuietRun(text: string, wait: int, star: bool, slash: bool)
    requires wait <= 0
    ensures Run(text, wait, star, slash, []) == Outcome(SplitText(text, star, slash).lines, [], wait)
    decreases |text|
  {
    if text != [] {
      var t := Take(text, star, slash);
      QuietRun(t.rest, wait, t.star, t.slash);
    }
  }

  // ---------------------------------------------------------------------------------------------
  // Text that commands insert, to any depth

  /** What the edits of a command put in front of the text, what they put behind it, and the wait counter they leave. */
  function Inserts(edits: seq<Edit>): string {
    if edits == [] then [] else
    match edits[|edits| - 1]
    case Insert(t) => t + "\n" + Inserts(edits[..|edits| - 1])
    case _ => Inserts(edits[..|edits| - 1])
  }

  function Adds(edits: seq<Edit>): string {
    if edits == [] then [] else
    match edits[|edits| - 1]
    case Add(t) => Adds(edits[..|edits| - 1]) + t
    case _ => Adds(edits[..|edits| - 1])
  }

  function Waits(wait: int, edits: seq<Edit>): int {
    if edits == [] then wait else
    match edits[|edits| - 1]
    case Wait(n) => n
    case _ => Waits(wait, edits[..|edits| - 1])
  }

  lemma {:induction false} EditedLast(text: string, wait: int, edits: seq<Edit>, last: Edit)
    ensures var (text', wait') := Edited(text, wait, edits);
            Edited(text, wait, edits + [last]) == match last
                                                  case Add(t) => (text' + t, wait')
                                                  case Insert(t) => (t + "\n" + text', wait')
                                                  case Wait(n) => (text', n)
    decreases |edits|
  {
    if edits == [] {
      assert [last][1..] == [];
    } else {
      assert (edits + [last])[1..] == edits[1..] + [last];
      match edits[0]
      case Add(t) => EditedLast(text + t, wait, edits[1..], last);
      case Insert(t) => EditedLast(t + "\n" + text, wait, edits[1..], last);
      case Wait(n) => EditedLast(text, n, edits[1..], last);
    }
  }

  lemma Surround(t: string, a: string, m: string, b: string)
    ensures t + (a + m + b) == t + a + m + b && (a + m + b) + t == a + m + (b + t)
  {
  }

  /** Insertions gather in front of the text that waits and additions behind it, in whatever order they are made. */
  lemma {:induction false} EditedAround(text: string, wait: int, edits: seq<Edit>)
    ensures Edited(text, wait, edits) == (Inserts(edits) + text + Adds(edits), Waits(wait, edits))
    ensures Inserts(edits) == [] || EndsLine(Inserts(edits))
    decreases |edits|
  {
    hide Edited;
    if edits == [] {
      NoEdits(text, wait);
      assert [] + text + [] == text;
    } else {
      var front, last := edits[..|edits| - 1], edits[|edits| - 1];
      EditedAround(text, wait, front);
      EditedLast(text, wait, front, last);
      assert edits == front + [last];
      match last
      case Add(t) => Surround(t, Inserts(front), text, Adds(front));
      case Insert(t) => Surround(t + "\n", Inserts(front), text, Adds(front));
      case Wait(n) =>
    }
  }

  /** What executing a text does before anything behind it is looked at: the lines handed out, with all that they
      insert in turn; what of the text a wait leaves; what was added behind everything; and how the run goes on. */
  datatype Front = Front(lines: seq<string>, left: string, added: string, wait: int, star: bool, slash: bool,
                         script: seq<seq<Edit>>)

  function Head(script: seq<seq<Edit>>): seq<Edit> { if script == [] then [] else script[0] }

  function Tail(script: seq<seq<Edit>>): seq<seq<Edit>> { if script == [] then [] else script[1..] }

  function RunFront(a: string, wait: int, star: bool, slash: bool, script: seq<seq<Edit>>): Front
    decreases |script|, |a|
  {
    if a == [] || wait > 0 then Front([], a, [], wait, star, slash, script) else
    var t, edits := Take(a, star, slash), Head(script);
    var next := if script == [] then t.rest else Inserts(edits) + t.rest;
    var f := RunFront(next, Waits(wait, edits), t.star, t.slash, Tail(script));
    f.(lines := [t.line] + f.lines, added := Adds(edits) + f.added)
  }

  /** Every scan on the way stops inside the text: neither it nor anything inserted leaves a star comment open. */
  ghost predicate NestClosed(a: string, wait: int, star: bool, slash: bool, script: seq<seq<Edit>>)
    decreases |script|, |a|
  {
    a == [] || wait > 0 ||
    (Scan(a, 0, Mode(false, star, slash)).0 < |a| &&
     var t, edits := Take(a, star, slash), Head(script);
     var next := if script == [] then t.rest else Inserts(edits) + t.rest;
     NestClosed(next, Waits(wait, edits), t.star, t.slash, Tail(script)))
  }

  lemma RunFrontStep(a: string, wait: int, star: bool, slash: bool, script: seq<seq<Edit>>)
    requires a != [] && wait <= 0
    ensures var t, edits := Take(a, star, slash), Head(script);
            var next := Inserts(edits) + t.rest;
            var g := RunFront(next, Waits(wait, edits), t.star, t.slash, Tail(script));
            && RunFront(a, wait, star, slash, script) == g.(lines := [t.line] + g.lines, added := Adds(edits) + g.added)
            && (NestClosed(a, wait, star, slash, script) <==>
                  Scan(a, 0, Mode(false, star, slash)).0 < |a|
                  && NestClosed(next, Waits(wait, edits), t.star, t.slash, Tail(script)))
  {
    hide Take, Scan;
    var t := Take(a, star, slash);
    assert Inserts([]) + t.rest == t.rest;
  }

  lemma RunHeadTail(text: string, wait: int, star: bool, slash: bool, script: seq<seq<Edit>>)
    requires text != [] && wait <= 0
    ensures var t, edits := Take(text, star, slash), Head(script);
            var r := Run(Inserts(edits) + t.rest + Adds(edits), Waits(wait, edits), t.star, t.slash, Tail(script));
            Run(text, wait, star, slash, script) == r.(lines := [t.line] + r.lines)
  {
    hide Take, Edited;
    EditedAround(Take(text, star, slash).rest, wait, Head(script));
  }

  function Prefixed(lines: seq<string>, o: Outcome): Outcome { o.(lines := lines + o.lines) }

  lemma Between(a: string, m: string, b: string, c: string, d: string)
    ensures a + (m + b) + c == (a + m) + (b + c) && m + (b + c) + d == m + b + (c + d)
  {
  }

  /** Whatever the commands do: closed text runs to its end, with everything that it inserts to any depth, as if
      nothing stood behind it; only then does the rest of the buffer run, followed by what was added meanwhile. */
  lemma {:induction false} NestedTextFirst(a: string, b: string, wait: int, star: bool, slash: bool,
      script: seq<seq<Edit>>)
    requires a == [] || EndsLine(a)
    requires NestClosed(a, wait, star, slash, script)
    ensures var f := RunFront(a, wait, star, slash, script);
            Run(a + b, wait, star, slash, script)
            == Prefixed(f.lines, Run(f.left + b + f.added, f.wait, f.star, f.slash, f.script))
    decreases |script|, |a|
  {
    hide Run, RunFront, NestClosed, Take, Scan, Inserts, Adds, Waits;
    if a == [] || wait > 0 {
      FrontStops(a, wait, star, slash, script);
      assert a + b + [] == a + b;
    } else {
      var t, edits := Take(a, star, slash), Head(script);
      RunFrontStep(a, wait, star, slash, script);
      TakeAppend(a, b, star, slash);
      RunHeadTail(a + b, wait, star, slash, script);
      EditedAround(t.rest, wait, edits);
      var ins, adds := Inserts(edits), Adds(edits);
      Between(ins, t.rest, b, adds, []);
      NothingInserted(script);
      NestedTextFirst(ins + t.rest, b + adds, Waits(wait, edits), t.star, t.slash, Tail(script));
      var g := RunFront(ins + t.rest, Waits(wait, edits), t.star, t.slash, Tail(script));
      Between([], g.left, b, adds, g.added);
      var rest := Run(g.left + (b + adds) + g.added, g.wait, g.star, g.slash, g.script);
      assert [t.line] + (g.lines + rest.lines) == [t.line] + g.lines + rest.lines;
    }
  }

  lemma NothingInserted(script: seq<seq<Edit>>)
    ensures script == [] ==> Inserts(Head(script)) == []
    ensures script != [] ==> |Tail(script)| < |script|
    ensures |Tail(script)| <= |script|
  {
  }

  lemma FrontStops(a: string, wait: int, star: bool, slash: bool, script: seq<seq<Edit>>)
    requires a == [] || wait > 0
    ensures RunFront(a, wait, star, slash, script) == Front([], a, [], wait, star, slash, script)
    ensures forall o: Outcome :: Prefixed([], o) == o
  {
    assert forall o: Outcome :: [] + o.lines == o.lines;
  }

  /** Text that a command inserts runs before all text that waited, whatever it and its lines insert, add or wait for,
      and in the same way as if no text had waited. */
  lemma InsertedTextFirst(text: string, wait: int, star: bool, slash: bool, script: seq<seq<Edit>>)
    requires wait <= 0 && text != []
    requires var t := Take(text, star, slash);
             NestClosed(Inserts(Head(script)), Waits(wait, Head(script)), t.star, t.slash, Tail(script))
    ensures var t, edits := Take(text, star, slash), Head(script);
            var f := RunFront(Inserts(edits), Waits(wait, edits), t.star, t.slash, Tail(script));
            Run(text, wait, star, slash, script)
            == Prefixed([t.line] + f.lines,
                        Run(f.left + (t.rest + Adds(edits)) + f.added, f.wait, f.star, f.slash, f.script))
  {
    hide Run, RunFront, NestClosed, Take, Inserts, Adds, Waits;
    var t, edits := Take(text, star, slash), Head(script);
    var ins, adds, wait' := Inserts(edits), Adds(edits), Waits(wait, edits);
    RunHeadTail(text, wait, star, slash, script);
    EditedAround(t.rest, wait, edits);
    Between(ins, [], t.rest, adds, []);
    assert ins + ([] + t.rest) + adds == ins + t.rest + adds && ins + [] == ins;
    NestedTextFirst(ins, t.rest + adds, wait', t.star, t.slash, Tail(script));
    var f := RunFront(ins, wait', t.star, t.slash, Tail(script));
    var rest := Run(f.left + (t.rest + adds) + f.added, f.wait, f.star, f.slash, f.script);
    assert [t.line] + (f.lines + rest.lines) == [t.line] + f.lines + rest.lines;
  }

  /** If commands leave the buffer alone, being closed to any depth is being closed, and the front is the splitter's. */
  lemma {:induction false} QuietFront(a: string, star: bool, slash: bool)
    ensures NestClosed(a, 0, star, slash, []) <==> Closed(a, star, slash)
    ensures RunFront(a, 0, star, slash, []).lines == SplitText(a, star, slash).lines
    decreases |a|
  {
    hide Take, Scan;
    if a != [] {
      var t := Take(a, star, slash);
      QuietFront(t.rest, t.star, t.slash);
      assert Waits(0, []) == 0;
    }
  }

  // ---------------------------------------------------------------------------------------------
  // Waiting

  /** Cbuf_Execute in each of `k` frames, with commands that leave the buffer alone. */
  function Frames(text: string, wait: int, k: nat): Outcome
    decreases k
  {
    if k == 0 then Outcome([], text, wait) else
    var o := Run(text, wait, false, false, []);
    var later := Frames(o.text, o.wait, k - 1);
    Outcome(o.lines + later.lines, later.text, later.wait)
  }

  lemma OneFrame(text: string, wait: int, k: nat)
    ensures Frames(text, wait, 0) == Outcome([], text, wait)
    ensures var o := Run(text, wait, false, false, []);
            var later := Frames(o.text, o.wait, k);
            Frames(text, wait, k + 1) == Outcome(o.lines + later.lines, later.text, later.wait)
  {
    hide Run;
  }

  lemma NoLines(lines: seq<string>)
    ensures [] + lines == lines && lines + [] == lines
  {
  }

  /** A wait of `n` holds all text back for `n` frames; in the one after, all of it runs. */
  lemma {:induction false} WaitHolds(text: string, n: nat)
    requires text != []
    ensures Frames(text, n, n) == Outcome([], text, 0)
    ensures Frames(text, n, n + 1) == Outcome(SplitText(text, false, false).lines, [], 0)
  {
    hide Run, SplitText, Frames;
    NoLines(SplitText(text, false, false).lines);
    OneFrame(text, n, n);
    if n == 0 {
      QuietRun(text, 0, false, false);
      OneFrame([], 0, 0);
    } else {
      RunStops(text, n, false, false, []);
      OneFrame(text, n, n - 1);
      WaitHolds(text, n - 1);
      NoLines(Frames(text, n - 1, n - 1).lines);
    }
  }

  /** Of several waits the last counts; a wait in the last edits of a command holds back what the command added. */
  lemma WaitThenRest(text: string, added: string, n: nat)
    requires n > 0 && text + added != []
    ensures Edited(text, 0, [Wait(5), Add(added), Wait(n)]) == (text + added, n)
    ensures Run(text + added, n, false, false, []) == Outcome([], text + added, n - 1)
  {
    hide Run;
    RunStops(text + added, n, false, false, []);
    var three, two, one := [Wait(5), Add(added), Wait(n)], [Add(added), Wait(n)], [Wait(n)];
    assert three[1..] == two && two[1..] == one && one[1..] == [];
    assert Edited(text, 0, three) == Edited(text, 5, two) == Edited(text + added, 5, one);
    assert Edited(text + added, n, []) == (text + added, n);
  }

  /** The scan passes over characters that change nothing. */
  lemma {:induction false} ScanOver(text: string, i: nat, j: nat, m: Mode)
    requires i <= j <= |text| && forall k :: i <= k < j ==> Step(Pair(text, k), m) == (m, Go)
    ensures Scan(text, i, m) == Scan(text, j, m)
    decreases j - i
  {
    hide Step, Pair;
    if i < j {
      ScanOver(text, i + 1, j, m);
    }
  }

  lemma TakesAll(text: string, star: bool, slash: bool)
    requires text != [] && |text| < MAX_CMD_LINE - 1
        && Scan(text, 0, Mode(false, false, false)) == (|text|, Mode(false, star, slash))
    ensures SplitText(text, false, false).lines == [text]
  {
    hide Scan;
    assert SplitText([], star, slash).lines == [];
  }

  lemma TakesLine(text: string, at: nat)
    requires at + 1 == |text| < MAX_CMD_LINE - 1
        && Scan(text, 0, Mode(false, false, false)) == (at, Mode(false, false, false))
    ensures SplitText(text, false, false).lines == [text[..at]]
  {
    hide Scan;
    assert text[at + 1..] == [];
    assert SplitText([], false, false).lines == [];
  }

  lemma PairAt(text: string, i: nat)
    requires i < |text|
    ensures i + 1 < |text| ==> Pair(text, i) == [text[i], text[i + 1]]
    ensures i + 1 == |text| ==> Pair(text, i) == [text[i]]
  {
  }

  /** Being closed matters: an open comment in front of a command takes the command into its own line. */
  lemma OpenCommentSwallows(a: string, b: string)
    requires a == "/*\n" && b == "say\n"
    ensures !Closed(a, false, false) && EndsLine(a)
    ensures SplitText(b, false, false).lines == ["say"] && SplitText(a + b, false, false).lines == [a + b]
  {
    hide SplitText, Scan;
    OpenStays(a);
    OpenStays(a + b);
    TakesAll(a + b, true, false);
    SayIsALine(b);
    ClosedStep(a, false, false);
  }

  lemma SayIsALine(b: string)
    requires b == "say\n"
    ensures SplitText(b, false, false).lines == ["say"]
  {
    hide Scan;
    var out := Mode(false, false, false);
    forall i | 0 <= i < 3
      ensures Step(Pair(b, i), out) == (out, Go)
    {
      PairAt(b, i);
    }
    ScanOver(b, 0, 3, out);
    PairAt(b, 3);
    ScanHere(b, 3, out);
    TakesLine(b, 3);
    assert b[..3] == "say";
  }

  lemma ScanHere(text: string, i: nat, m: Mode)
    requires i < |text| && Step(Pair(text, i), m) == (m, Here)
    ensures Scan(text, i, m) == (i, m)
  {
  }

  lemma OpenStays(text: string)
    requires "/*" <= text && forall i :: 2 <= i < |text| ==> text[i] != '*' && text[i] != '"' && text[i] != '/'
    ensures Scan(text, 0, Mode(false, false, false)) == (|text|, Mode(false, true, false))
  {
    hide Step, Pair;
    var star := Mode(false, true, false);
    forall i | 1 <= i < |text|
      ensures Step(Pair(text, i), star) == (star, Go)
    {
      StepInStar(text, i);
    }
    assert Step(Pair(text, 0), Mode(false, false, false)) == (star, Go) by {
      OpensStar(text);
    }
    ScanOver(text, 1, |text|, star);
  }

  lemma OpensStar(text: string)
    requires "/*" <= text
    ensures Step(Pair(text, 0), Mode(false, false, false)) == (Mode(false, true, false), Go)
  {
  }

  lemma StepInStar(text: string, i: nat)
    requires i < |text| && text[i] != '"' && (i + 1 < |text| ==> text[i + 1] != '/')
    ensures Step(Pair(text, i), Mode(false, true, false)) == (Mode(false, true, false), Go)
  {
  }

  // ---------------------------------------------------------------------------------------------
  // The buffer object

  class Cbuf {
    const static_buf: array<char>
    var data: array<char>
    var cursize: nat
    var wait: int

    ghost predicate Valid()
      reads this, data
    {
      static_buf.Length == MAX_CMD_BUFFER && cursize <= data.Length
    }

    ghost function Text(): string
      reads this, data
      requires Valid()
    {
      data[..cursize]
    }

    constructor ()
      ensures Valid() && Text() == [] && wait == 0 && fresh(data) && data == static_buf
    {
      var buf := new char[MAX_CMD_BUFFER];
      static_buf, data, cursize, wait := buf, buf, 0, 0;
    }

    /** Makes room for `len` more characters, moving the text to a new buffer if need be. */
    method Reserve(len: nat)
      requires Valid()
      modifies this`data
      ensures Valid() && Text() == old(Text()) && cursize + len <= data.Length
      ensures data == old(data) || fresh(data)
    {
      if len + cursize > data.Length {
        var new_buf := new char[len + cursize];
        forall i | 0 <= i < cursize {
          new_buf[i] := data[i];
        }
        data := new_buf;
      }
    }

    method AddText(text: string)
      requires Valid()
      modifies this`data, this`cursize, data
      ensures Valid() && Text() == old(Text()) + text
      ensures data == old(data) || fresh(data)
    {
      var len := |text| + 1;
      Reserve(len);
      forall i | 0 <= i < len - 1 {
        data[cursize + i] := text[i];
      }
      cursize := cursize + len - 1;
    }

    /** Moves the text up by `len`, last character first. */
    method MoveUp(len: nat)
      requires Valid() && cursize + len <= data.Length
      modifies data
      ensures data[len..len + cursize] == old(Text())
    {
      ghost var was := Text();
      var i := cursize - 1;
      while i >= 0
        invariant -1 <= i < cursize
        invariant forall k :: 0 <= k <= i ==> data[k] == was[k]
        invariant forall k :: i < k < cursize ==> data[k + len] == was[k]
      {
        data[i + len] := data[i];
        i := i - 1;
      }
      assert forall k :: len <= k < len + cursize ==> data[k] == was[k - len] by {
        forall k | len <= k < len + cursize
          ensures data[k] == was[k - len]
        {
          assert data[(k - len) + len] == was[k - len];
        }
      }
    }

    method InsertText(text: string)
      requires Valid()
      modifies this`data, this`cursize, data
      ensures Valid() && Text() == text + "\n" + old(Text())
      ensures data == old(data) || fresh(data)
    {
      var len := |text| + 1;
      Reserve(len);
      MoveUp(len);
      forall k | 0 <= k < len - 1 {
        data[k] := text[k];
      }
      data[len - 1] := '\n';
      cursize := cursize + len;
    }

    /** The scan for the end of the line. */
    method FindLineEnd(star_in: bool, slash_in: bool) returns (i: nat, star: bool, slash: bool)
      requires Valid()
      ensures var (at, m) := Scan(Text(), 0, Mode(false, star_in, slash_in));
              i == at && star == m.star && slash == m.slash
    {
      ghost var text, start := Text(), Mode(false, star_in, slash_in);
      var quotes := 0;
      i, star, slash := 0, star_in, slash_in;
      while i < cursize
        invariant i <= cursize
        invariant Scan(text, i, Mode(quotes % 2 == 1, star, slash)) == Scan(text, 0, start)
      {
        assert Pair(text, i) == if i < cursize - 1 then [data[i], data[i + 1]] else [data[i]];
        if data[i] == '"' {
          quotes := quotes + 1;
        }
        if quotes % 2 == 0 {
          if i < cursize - 1 {
            if !star && data[i] == '/' && data[i + 1] == '/' {
              slash := true;
            } else if !slash && data[i] == '/' && data[i + 1] == '*' {
              star := true;
            } else if star && data[i] == '*' && data[i + 1] == '/' {
              star := false;
              i := i + 1;
              break;
            }
          }
          if !slash && !star && data[i] == ';' {
            break;
          }
        }
        if !star && (data[i] == '\n' || data[i] == '\r') {
          slash := false;
          break;
        }
        i := i + 1;
      }
    }

    /** Copies the line out, and moves the rest of the text down over it. */
    method TakeLine(star_in: bool, slash_in: bool) returns (line: string, star: bool, slash: bool)
      requires Valid() && cursize > 0
      modifies this`cursize, data
      ensures Valid()
      ensures var t := Take(old(Text()), star_in, slash_in);
              line == t.line && Text() == t.rest && star == t.star && slash == t.slash
    {
      var i: nat;
      i, star, slash := FindLineEnd(star_in, slash_in);
      if i >= MAX_CMD_LINE - 1 {
        i := MAX_CMD_LINE - 1;
      }
      line := data[..i];
      RemoveFront(i);
    }

    /** Removes the first `n` characters and the one behind them. */
    method RemoveFront(n: nat)
      requires Valid() && n <= cursize
      modifies this`cursize, data
      ensures Valid() && Text() == if n < old(cursize) then old(Text())[n + 1..] else []
    {
      if n == cursize {
        cursize := 0;
      } else {
        cursize := cursize - (n + 1);
        forall k | 0 <= k < cursize {
          data[k] := data[k + (n + 1)];
        }
      }
    }

    /** The edits of one command, made through the buffer's own operations. */
    method Perform(edits: seq<Edit>)
      requires Valid()
      modifies this`data, this`cursize, this`wait, data
      ensures Valid() && (Text(), wait) == Edited(old(Text()), old(wait), edits)
      ensures data == old(data) || fresh(data)
    {
      var k := 0;
      while k < |edits|
        invariant 0 <= k <= |edits| && Valid()
        invariant Edited(Text(), wait, edits[k..]) == Edited(old(Text()), old(wait), edits)
        invariant data == old(data) || fresh(data)
      {
        match edits[k] {
          case Add(t) => AddText(t);
          case Insert(t) => InsertText(t);
          case Wait(n) => wait := n;
        }
        k := k + 1;
      }
    }

    /** Runs the buffer; returns the lines handed to the command interpreter. */
    method Execute(script: seq<seq<Edit>>) returns (lines: seq<string>)
      requires Valid()
      modifies this`data, this`cursize, this`wait, data
      ensures Valid() && Outcome(lines, Text(), wait) == Run(old(Text()), old(wait), false, false, script)
    {
      hide Run, Take, Edited;
      ghost var whole := Run(Text(), wait, false, false, script);
      var star, slash, rest := false, false, script;
      lines := [];
      while cursize > 0
        invariant Valid() && (data == old(data) || fresh(data))
        invariant var r := Run(Text(), wait, star, slash, rest);
                  whole.lines == lines + r.lines && whole.text == r.text && whole.wait == r.wait
        decreases |rest|, cursize
      {
        if wait > 0 {
          RunStops(Text(), wait, star, slash, rest);
          wait := wait - 1;
          break;
        }
        RunStep(Text(), wait, star, slash, rest, lines);
        var line;
        line, star, slash := TakeLine(star, slash);
        lines := lines + [line];
        if rest != [] {
          Perform(rest[0]);
          rest := rest[1..];
        } else {
          NoEdits(Text(), wait);
        }
      }
      if cursize == 0 {
        RunStops(Text(), wait, star, slash, rest);
      }
      if cursize == 0 && data != static_buf {
        data := static_buf;
      }
    }
  }

  // ---------------------------------------------------------------------------------------------
  // Text that is cut off can be open and yet stay on its own

  /** Inside a star comment no slash comment begins, and the end of the star comment ends the scan. */
  lemma {:induction false} StarHasNoSlash(text: string, i: nat, m: Mode)
    requires i <= |text| && m.star && !m.slash
    ensures !Scan(text, i, m).1.slash
    decreases |text| - i
  {
    if i < |text| {
      var (m', stop) := Step(Pair(text, i), m);
      if stop == Go {
        StarHasNoSlash(text, i + 1, m');
      }
    }
  }

  /** Quoted characters do not end a star comment. */
  lemma QuotedGoesOn(text: string, i: nat)
    requires i < |text| && text[i] != '"'
    ensures Step(Pair(text, i), Mode(true, true, false)) == (Mode(true, true, false), Go)
  {
  }

  /** A comment opened and closed reads alike whether or not a comment was open in front of it. */
  lemma CommentEnds(b: string, star: bool)
    ensures Take("/* */\n" + b, star, false) == Taken("/* *", "/", "\n" + b, false, false)
  {
    hide Scan;
    var all, m := "/* */\n" + b, Mode(false, true, false);
    assert all[0] == '/' && all[1] == '*' && all[2] == ' ' && all[3] == '*' && all[4] == '/';
    OpensStar(all);
    assert Step(Pair(all, 0), Mode(false, star, false)) == (m, Go);
    StepInStar(all, 1);
    StepInStar(all, 2);
    ScanNext(all, 0, Mode(false, star, false));
    ScanNext(all, 1, m);
    ScanNext(all, 2, m);
    ScanNext(all, 3, m);
    assert all[..4] == "/* *" && all[5..] == "\n" + b;
  }

  lemma ScanNext(text: string, i: nat, m: Mode)
    requires i < |text|
    ensures var (m', stop) := Step(Pair(text, i), m);
            Scan(text, i, m) == if stop == Go then Scan(text, i + 1, m') else (if stop == Here then i else i + 1, m')
  {
  }

  lemma NewlineFirst(b: string)
    ensures Take("\n" + b, false, false) == Taken("", "\n", b, false, false)
  {
    var all := "\n" + b;
    assert all[..0] == "" && all[1..] == b;
  }

  lemma CommentSplits(b: string, star: bool)
    ensures SplitText("/* */\n" + b, star, false)
         == Then(Split(["/* *", ""], "/\n", false, false), SplitText(b, false, false))
  {
    hide Take, SplitText;
    SplitTake("/* */\n" + b, star, false);
    SplitTake("\n" + b, false, false);
    CommentEnds(b, star);
    NewlineFirst(b);
    ThenAssoc(Split(["/* *"], "/", false, false), Split([""], "\n", false, false), SplitText(b, false, false));
  }

  /** It opens a comment with a quote in it, and behind 1024 characters one without. */
  function OpenText(filler: string): (a: string)
    ensures |filler| == MAX_CMD_LINE - 3 ==> |a| > MAX_CMD_LINE
  {
    "/*\"" + (filler + "/* */\n")
  }

  /** Where the line is cut off in a comment, the scan of this text runs out of it whatever comes behind. */
  lemma TakeOpen(filler: string, b: string)
    requires |filler| == MAX_CMD_LINE - 3 && '"' !in filler
    ensures var a := OpenText(filler);
            && Scan(a + b, 0, Mode(false, false, false)).0 >= |a|
            && var t := Take(a + b, false, false);
               t == Taken(a[..MAX_CMD_LINE - 1], [a[MAX_CMD_LINE - 1]], "/* */\n" + b, t.star, false)
  {
    hide Scan, Step;
    var a := OpenText(filler);
    var all, m := a + b, Mode(true, true, false);
    OpensStar(all);
    StepInStar(all, 1);
    QuoteInStar(all, 2);
    ScanNext(all, 0, Mode(false, false, false));
    ScanNext(all, 1, Mode(false, true, false));
    ScanNext(all, 2, Mode(false, true, false));
    forall k | 3 <= k < |a|
      ensures Step(Pair(all, k), m) == (m, Go)
    {
      assert all[k] == (filler + "/* */\n")[k - 3];
      assert k - 3 < |filler| ==> filler[k - 3] in filler;
      QuotedGoesOn(all, k);
    }
    ScanOver(all, 3, |a|, m);
    StarHasNoSlash(all, |a|, m);
    assert all[MAX_CMD_LINE..] == "/* */\n" + b && all[..MAX_CMD_LINE - 1] == a[..MAX_CMD_LINE - 1];
  }

  lemma QuoteInStar(text: string, i: nat)
    requires i < |text| && text[i] == '"'
    ensures Step(Pair(text, i), Mode(false, true, false)) == (Mode(true, true, false), Go)
  {
  }

  /** How it is split, on its own or not. */
  function OpenSplit(filler: string): Split
    requires |filler| == MAX_CMD_LINE - 3
  {
    var a := OpenText(filler);
    Split([a[..MAX_CMD_LINE - 1], "/* *", ""], [a[MAX_CMD_LINE - 1]] + "/\n", false, false)
  }

  lemma OpenSplits(filler: string, b: string)
    requires |filler| == MAX_CMD_LINE - 3 && '"' !in filler
    ensures SplitText(OpenText(filler) + b, false, false) == Then(OpenSplit(filler), SplitText(b, false, false))
  {
    hide Take, Scan, SplitText, OpenText;
    var a := OpenText(filler);
    TakeOpen(filler, b);
    var t, more := Take(a + b, false, false), SplitText(b, false, false);
    SplitTake(a + b, false, false);
    CommentSplits(b, t.star);
    ThenAssoc(Split([t.line], t.removed, false, false), Split(["/* *", ""], "/\n", false, false), more);
  }

  lemma OpenIsOpen(filler: string)
    requires |filler| == MAX_CMD_LINE - 3 && '"' !in filler
    ensures EndsLine(OpenText(filler)) && !Closed(OpenText(filler), false, false)
  {
    hide Take, Scan;
    var a := OpenText(filler);
    assert a + "" == a;
    TakeOpen(filler, "");
    ClosedStep(a, false, false);
  }

  /** For text of more than a line being closed is not necessary: a comment left open by the part that is cut off does
      no harm if the rest opens and closes one itself. */
  lemma OpenYetFirst(filler: string, b: string)
    requires |filler| == MAX_CMD_LINE - 3 && '"' !in filler
    ensures var a := OpenText(filler);
            var s := SplitText(a, false, false);
            EndsLine(a) && !Closed(a, false, false)
            && SplitText(a + b, false, false) == Then(s, SplitText(b, s.star, s.slash))
  {
    hide SplitText, OpenText, EndsLine, Closed;
    var a := OpenText(filler);
    assert a + "" == a;
    OpenIsOpen(filler);
    OpenSplits(filler, "");
    OpenSplits(filler, b);
    SplitEmpty(false, false, SplitText(b, false, false));
    assert Then(OpenSplit(filler), Split([], [], false, false)) == OpenSplit(filler);
  }

  // ---------------------------------------------------------------------------------------------
  // Where a line ends, told without a scan

  /** The number of quotes among the first `n` characters. */
  function Quotes(text: string, n: nat): nat
    requires n <= |text|
  {
    if n == 0 then 0 else Quotes(text, n - 1) + if text[n - 1] == '"' then 1 else 0
  }

  /** An even number of quotes stands in front of the character, itself counted. */
  predicate Unquoted(text: string, k: nat)
    requires k < |text|
  {
    Quotes(text, k + 1) % 2 == 0
  }

  /** Two characters outside quotes. */
  predicate Sign(text: string, k: nat, c: char, d: char) {
    k + 1 < |text| && text[k] == c && text[k + 1] == d && Unquoted(text, k)
  }

  /** Neither a separator nor the beginning of a comment. */
  predicate Ordinary(text: string, k: nat)
    requires k < |text|
  {
    && !IsNewline(text[k]) && !(text[k] == ';' && Unquoted(text, k))
    && !Sign(text, k, '/', '/') && !Sign(text, k, '/', '*')
  }

  /** From `i` to `n` there is nothing that ends the line, and at `n` there is, or the end of the text. */
  ghost predicate EndsPlain(text: string, i: nat, n: nat) {
    && i <= n <= |text| && (forall k :: i <= k < n ==> Ordinary(text, k))
    && (n < |text| ==> IsNewline(text[n]) || (text[n] == ';' && Unquoted(text, n)))
  }

  /** Behind `//` only a newline ends the line. */
  ghost predicate EndsSlash(text: string, i: nat, n: nat) {
    i <= n <= |text| && (forall k :: i <= k < n ==> !IsNewline(text[k])) && (n < |text| ==> IsNewline(text[n]))
  }

  /** Behind the opening mark of a star comment only a closing one outside quotes ends the line, with its second
      character. */
  ghost predicate EndsStar(text: string, i: nat, n: nat) {
    && i <= n <= |text| && (forall k :: i <= k < n - 1 ==> !Sign(text, k, '*', '/'))
    && (n < |text| ==> i < n && Sign(text, n - 1, '*', '/'))
  }

  /** A comment of a kind begins at `o`, in front of anything that ends the line. */
  ghost predicate Opens(text: string, i: nat, o: nat, kind: char) {
    i <= o < |text| && (forall k :: i <= k < o ==> Ordinary(text, k)) && Sign(text, o, '/', kind)
  }

  /** Where the line ends from position `i` on, and whether a star or a slash comment is open then. */
  ghost predicate LineEnd(text: string, i: nat, star: bool, slash: bool, n: nat, star': bool, slash': bool) {
    if slash then EndsSlash(text, i, n) && !star' && slash' == (n == |text|)
    else if star then EndsStar(text, i, n) && star' == (n == |text|) && !slash'
    else
      || (EndsPlain(text, i, n) && !star' && !slash')
      || (exists o: nat :: Opens(text, i, o, '/') && EndsSlash(text, o, n) && !star' && slash' == (n == |text|))
      || (exists o: nat :: Opens(text, i, o, '*') && EndsStar(text, o + 1, n) && star' == (n == |text|) && !slash')
  }

  ghost predicate Tracks(text: string, i: nat, quoted: bool)
    requires i <= |text|
  {
    quoted == (Quotes(text, i) % 2 == 1)
  }

  /** One character in a slash comment. */
  lemma StepSlash(text: string, i: nat, quoted: bool)
    requires i < |text|
    ensures var (m, stop) := Step(Pair(text, i), Mode(quoted, false, true));
            if IsNewline(text[i]) then stop == Here && !m.star && !m.slash
            else stop == Go && !m.star && m.slash
  {
  }

  lemma {:induction false} SlashScan(text: string, i: nat, quoted: bool)
    requires i <= |text|
    ensures var (n, m) := Scan(text, i, Mode(quoted, false, true));
            EndsSlash(text, i, n) && !m.star && m.slash == (n == |text|)
    decreases |text| - i
  {
    hide Step, Pair;
    if i < |text| {
      StepSlash(text, i, quoted);
      var (m, stop) := Step(Pair(text, i), Mode(quoted, false, true));
      if stop == Go {
        SlashScan(text, i + 1, m.quoted);
      }
    }
  }

  /** One character in a star comment. */
  lemma StepStar(text: string, i: nat, quoted: bool)
    requires i < |text| && Tracks(text, i, quoted)
    ensures var (m, stop) := Step(Pair(text, i), Mode(quoted, true, false));
            && Tracks(text, i + 1, m.quoted) && !m.slash && m.star == !Sign(text, i, '*', '/')
            && stop == if m.star then Go else Next
  {
    PairAt(text, i);
  }

  lemma {:induction false} StarScan(text: string, i: nat, quoted: bool)
    requires i <= |text| && Tracks(text, i, quoted)
    ensures var (n, m) := Scan(text, i, Mode(quoted, true, false));
            EndsStar(text, i, n) && m.star == (n == |text|) && !m.slash
    decreases |text| - i
  {
    hide Step, Pair, Tracks, Unquoted;
    if i < |text| {
      StepStar(text, i, quoted);
      var (m, stop) := Step(Pair(text, i), Mode(quoted, true, false));
      if stop == Go {
        StarScan(text, i + 1, m.quoted);
      }
    }
  }

  /** One character outside comments. */
  lemma StepOut(text: string, i: nat, quoted: bool)
    requires i < |text| && Tracks(text, i, quoted)
    ensures var (m, stop) := Step(Pair(text, i), Mode(quoted, false, false));
            && Tracks(text, i + 1, m.quoted)
            && m.slash == Sign(text, i, '/', '/') && m.star == Sign(text, i, '/', '*') && !(m.slash && m.star)
            && stop == if Ordinary(text, i) || m.slash || m.star then Go else Here
  {
    PairAt(text, i);
  }

  lemma {:induction false} OutScan(text: string, i: nat, quoted: bool)
    requires i <= |text| && Tracks(text, i, quoted)
    ensures var (n, m) := Scan(text, i, Mode(quoted, false, false)); LineEnd(text, i, false, false, n, m.star, m.slash)
    decreases |text| - i
  {
    hide Step, Pair, Tracks, EndsSlash, EndsStar, Ordinary, Sign;
    if i < |text| {
      StepOut(text, i, quoted);
      var (m, stop) := Step(Pair(text, i), Mode(quoted, false, false));
      if m.slash {
        SlashScan(text, i + 1, m.quoted);
        SlashFrom(text, i, Scan(text, i + 1, m).0);
        assert Opens(text, i, i, '/');
      } else if m.star {
        StarScan(text, i + 1, m.quoted);
        assert Opens(text, i, i, '*');
      } else if stop == Go {
        OutScan(text, i + 1, m.quoted);
        var (n, m') := Scan(text, i + 1, m);
        EndFrom(text, i, i + 1, n, m'.star, m'.slash);
      } else {
        OrdinaryNot(text, i);
      }
    }
  }

  lemma SlashFrom(text: string, i: nat, n: nat)
    requires i < |text| && Sign(text, i, '/', '/') && EndsSlash(text, i + 1, n)
    ensures EndsSlash(text, i, n)
  {
  }

  lemma OrdinaryNot(text: string, i: nat)
    requires i < |text| && !Ordinary(text, i) && !Sign(text, i, '/', '/') && !Sign(text, i, '/', '*')
    ensures EndsPlain(text, i, i)
  {
  }

  lemma EndFrom(text: string, i: nat, next: nat, n: nat, star: bool, slash: bool)
    requires next == i + 1 <= |text| && Ordinary(text, i) && LineEnd(text, next, false, false, n, star, slash)
    ensures LineEnd(text, i, false, false, n, star, slash)
  {
    hide Ordinary, Sign, EndsSlash, EndsStar;
    if o: nat :| Opens(text, next, o, '/') && EndsSlash(text, o, n) && !star && slash == (n == |text|) {
      assert Opens(text, i, o, '/');
    }
    if o: nat :| Opens(text, next, o, '*') && EndsStar(text, o + 1, n) && star == (n == |text|) && !slash {
      assert Opens(text, i, o, '*');
    }
  }

  /** For every text the line ends, and leaves a comment open, where it is said to. */
  lemma ScanEnds(text: string, star: bool, slash: bool)
    requires !(star && slash)
    ensures var (n, m) := Scan(text, 0, Mode(false, star, slash)); LineEnd(text, 0, star, slash, n, m.star, m.slash)
  {
    hide Scan, EndsSlash, EndsStar;
    if slash {
      SlashScan(text, 0, false);
    } else if star {
      StarScan(text, 0, false);
    } else {
      OutScan(text, 0, false);
    }
  }

  lemma OneOpening(text: string, i: nat, o: nat, kind: char, p: nat, other: char)
    requires Opens(text, i, o, kind) && Opens(text, i, p, other) && kind in "/*" && other in "/*"
    ensures o == p && kind == other
  {
    hide Unquoted;
    assert o < p ==> Ordinary(text, o);
    assert p < o ==> Ordinary(text, p);
    assert (kind == '/' || kind == '*') && (other == '/' || other == '*');
  }

  lemma NoOpening(text: string, i: nat, n: nat, o: nat, kind: char)
    requires EndsPlain(text, i, n) && kind in "/*"
    ensures !Opens(text, i, o, kind)
  {
    hide Unquoted;
    assert kind == '/' || kind == '*';
    assert i <= o < n ==> Ordinary(text, o);
    assert Opens(text, i, o, kind) && n < o ==> Ordinary(text, n);
  }

  lemma OneSlashEnd(text: string, i: nat, n: nat, m: nat)
    requires EndsSlash(text, i, n) && EndsSlash(text, i, m)
    ensures n == m
  {
  }

  lemma OneStarEnd(text: string, i: nat, n: nat, m: nat)
    requires EndsStar(text, i, n) && EndsStar(text, i, m)
    ensures n == m
  {
  }

  lemma OnePlainEnd(text: string, i: nat, n: nat, m: nat)
    requires EndsPlain(text, i, n) && EndsPlain(text, i, m)
    ensures n == m
  {
    hide Unquoted;
    assert n < m ==> Ordinary(text, n);
    assert m < n ==> Ordinary(text, m);
  }

  /** A line that ends plainly, or in a slash comment, or in a star comment, ends in no other way. */
  lemma EndIsPlain(text: string, i: nat, n: nat, m: nat, star: bool, slash: bool)
    requires EndsPlain(text, i, n) && LineEnd(text, i, false, false, m, star, slash)
    ensures m == n && !star && !slash
  {
    hide EndsPlain, Opens, EndsSlash, EndsStar;
    forall o: nat
      ensures !Opens(text, i, o, '/') && !Opens(text, i, o, '*')
    {
      NoOpening(text, i, n, o, '/');
      NoOpening(text, i, n, o, '*');
    }
    OnePlainEnd(text, i, n, m);
  }

  lemma EndIsSlash(text: string, i: nat, o: nat, n: nat, m: nat, star: bool, slash: bool)
    requires Opens(text, i, o, '/') && EndsSlash(text, o, n) && LineEnd(text, i, false, false, m, star, slash)
    ensures m == n && !star && slash == (n == |text|)
  {
    hide EndsPlain, Opens, EndsSlash, EndsStar;
    forall k: nat, c: char | Opens(text, i, k, c) && c in "/*"
      ensures k == o && c == '/'
    {
      OneOpening(text, i, o, '/', k, c);
    }
    if EndsPlain(text, i, m) {
      NoOpening(text, i, m, o, '/');
    } else {
      OneSlashEnd(text, o, n, m);
    }
  }

  lemma EndIsStar(text: string, i: nat, o: nat, n: nat, m: nat, star: bool, slash: bool)
    requires Opens(text, i, o, '*') && EndsStar(text, o + 1, n) && LineEnd(text, i, false, false, m, star, slash)
    ensures m == n && star == (n == |text|) && !slash
  {
    hide EndsPlain, Opens, EndsSlash, EndsStar;
    forall k: nat, c: char | Opens(text, i, k, c) && c in "/*"
      ensures k == o && c == '*'
    {
      OneOpening(text, i, o, '*', k, c);
    }
    if EndsPlain(text, i, m) {
      NoOpening(text, i, m, o, '*');
    } else {
      OneStarEnd(text, o + 1, n, m);
    }
  }

  /** No other place will do. */
  lemma OneEnd(text: string, i: nat, star: bool, slash: bool, n: nat, star1: bool, slash1: bool, m: nat, star2: bool,
               slash2: bool)
    requires LineEnd(text, i, star, slash, n, star1, slash1) && LineEnd(text, i, star, slash, m, star2, slash2)
    ensures n == m && star1 == star2 && slash1 == slash2
  {
    hide EndsPlain, Opens, EndsSlash, EndsStar;
    if slash {
      OneSlashEnd(text, i, n, m);
    } else if star {
      OneStarEnd(text, i, n, m);
    } else if EndsPlain(text, i, n) && !star1 && !slash1 {
      EndIsPlain(text, i, n, m, star2, slash2);
    } else if o: nat :| Opens(text, i, o, '/') && EndsSlash(text, o, n) && !star1 && slash1 == (n == |text|) {
      EndIsSlash(text, i, o, n, m, star2, slash2);
    } else {
      var o: nat :| Opens(text, i, o, '*') && EndsStar(text, o + 1, n) && star1 == (n == |text|) && !slash1;
      EndIsStar(text, i, o, n, m, star2, slash2);
    }
  }

  /** The scan ends the line at a place, with a star or a slash comment left open, if and only if it ends there by the
      rules for quotes and comments. */
  lemma ScanEndsIff(text: string, star: bool, slash: bool, n: nat, star': bool, slash': bool)
    requires !(star && slash)
    ensures var (at, m) := Scan(text, 0, Mode(false, star, slash));
            at == n && m.star == star' && m.slash == slash' <==> LineEnd(text, 0, star, slash, n, star', slash')
  {
    hide Scan, LineEnd;
    var (at, m) := Scan(text, 0, Mode(false, star, slash));
    ScanEnds(text, star, slash);
    if LineEnd(text, 0, star, slash, n, star', slash') {
      OneEnd(text, 0, star, slash, n, star', slash', at, m.star, m.slash);
    }
  }

  /** Text with no quote, no separator, and no comment mark. */
  ghost predicate Bare(p: string) {
    forall k :: 0 <= k < |p| ==> p[k] != '"' && p[k] != ';' && !IsNewline(p[k])
                                 && !(p[k] == '/' && k + 1 < |p| && (p[k + 1] == '/' || p[k + 1] == '*'))
  }

  lemma {:induction false} NoneQuoted(text: string, n: nat)
    requires n <= |text| && forall k :: 0 <= k < n ==> text[k] != '"'
    ensures Quotes(text, n) == 0
  {
    if n > 0 {
      NoneQuoted(text, n - 1);
    }
  }

  /** The mark of a slash comment is met at the end of the bare text, or with the slash it ends with. */
  lemma SlashOpens(a: string, text: string)
    requires Bare(a) && |a| + 2 <= |text| && text[..|a|] == a && text[|a|] == '/' && text[|a| + 1] == '/'
    ensures exists o: nat :: o <= |a| && Opens(text, 0, o, '/')
  {
    var o := if a != "" && a[|a| - 1] == '/' then |a| - 1 else |a|;
    assert forall k :: 0 <= k < |a| ==> text[k] == a[k];
    forall k | 0 <= k <= o
      ensures Quotes(text, k + 1) == 0 && (k < o ==> Ordinary(text, k))
    {
      NoneQuoted(text, k + 1);
      assert k < o ==> text[k] == a[k] && (k + 1 < |a| ==> text[k + 1] == a[k + 1]);
    }
    NoneQuoted(text, o + 1);
    assert Opens(text, 0, o, '/');
  }

  lemma SlashTake(text: string, slash: bool, n: nat)
    requires n < |text| && n < MAX_CMD_LINE - 1 && IsNewline(text[n])
    requires LineEnd(text, 0, false, slash, n, false, false)
    ensures Take(text, false, slash) == Taken(text[..n], [text[n]], text[n + 1..], false, false)
  {
    hide Scan, LineEnd;
    ScanEndsIff(text, false, slash, n, false, false);
  }

  /** Behind `//` everything belongs to the line up to the newline: semicolons, quotes and comment marks. */
  lemma SlashCommentLine(a: string, c: string, newline: char, more: string)
    requires Bare(a) && IsNewline(newline) && (forall k :: 0 <= k < |c| ==> !IsNewline(c[k]))
    requires |a| + 2 + |c| < MAX_CMD_LINE - 1
    ensures var line := a + ("//" + c);
            Take(line + ([newline] + more), false, false) == Taken(line, [newline], more, false, false)
  {
    hide Take, Opens;
    var line := a + ("//" + c);
    var text := line + ([newline] + more);
    assert text[..|a|] == a && text[..|line|] == line && text[|line| + 1..] == more;
    SlashOpens(a, text);
    var o: nat :| o <= |a| && Opens(text, 0, o, '/');
    forall k | o <= k < |line|
      ensures !IsNewline(text[k])
    {
      assert k < |a| ==> text[k] == a[k];
      assert k >= |a| + 2 ==> text[k] == c[k - |a| - 2];
    }
    assert EndsSlash(text, o, |line|);
    SlashTake(text, false, |line|);
  }

  /** A slash comment that the end of the buffer left open goes on to the newline, and not beyond. */
  lemma SlashCommentGoesOn(c: string, newline: char, more: string)
    requires IsNewline(newline) && (forall k :: 0 <= k < |c| ==> !IsNewline(c[k])) && |c| < MAX_CMD_LINE - 1
    ensures Take(c + ([newline] + more), false, true) == Taken(c, [newline], more, false, false)
  {
    hide Take;
    var text := c + ([newline] + more);
    assert text[..|c|] == c && text[|c| + 1..] == more;
    forall k | 0 <= k < |c|
      ensures !IsNewline(text[k])
    {
      assert text[k] == c[k];
    }
    assert EndsSlash(text, 0, |c|);
    SlashTake(text, true, |c|);
  }

  /** A buffer that ends in a slash comment leaves it open. */
  lemma SlashCommentStays(a: string, c: string)
    requires Bare(a) && (forall k :: 0 <= k < |c| ==> !IsNewline(c[k])) && |a| + 2 + |c| < MAX_CMD_LINE
    ensures var line := a + ("//" + c); Take(line, false, false) == Taken(line, "", "", false, true)
  {
    hide Scan, Opens, LineEnd;
    var text := a + ("//" + c);
    assert text[..|a|] == a && text[..|text|] == text;
    SlashOpens(a, text);
    var o: nat :| o <= |a| && Opens(text, 0, o, '/');
    forall k | o <= k < |text|
      ensures !IsNewline(text[k])
    {
      assert k < |a| ==> text[k] == a[k];
      assert k >= |a| + 2 ==> text[k] == c[k - |a| - 2];
    }
    SlashEnd(text, o);
    ScanEndsIff(text, false, false, |text|, false, true);
  }

  lemma SlashEnd(text: string, o: nat)
    requires Opens(text, 0, o, '/') && forall k :: o <= k < |text| ==> !IsNewline(text[k])
    ensures LineEnd(text, 0, false, false, |text|, false, true)
  {
    assert EndsSlash(text, o, |text|);
  }
}
