/** The timed events of src/common.c: a buffer sorted by descending trigger time, taken from its end. */
module TimedEvents {
  import opened Common

  const MAX_TIMED_EVENTS := 1024

  /** `id` stands for the function and its arguments. */
  datatype Event = Event(time: int, trigger: int, id: nat)

  /** A call of Com_AddTimedEvent at clock time `now`. */
  datatype Add = Add(delay: int, now: int, id: nat)

  function Made(a: Add): Event { Event(a.now, Wrap(a.delay + a.now), a.id) }

  // ---------------------------------------------------------------------------------------------
  // Specification

  /** Where an event goes: behind every one from the end that triggers earlier. */
  function Place(s: seq<Event>, e: Event): (p: nat)
    ensures p <= |s|
    ensures forall i :: p <= i < |s| ==> s[i].trigger < e.trigger
    ensures p > 0 ==> s[p - 1].trigger >= e.trigger
  {
    if s == [] || s[|s| - 1].trigger >= e.trigger then |s| else Place(s[..|s| - 1], e)
  }

  lemma {:induction false} PlaceIs(s: seq<Event>, e: Event, p: nat)
    requires p <= |s| && (p > 0 ==> s[p - 1].trigger >= e.trigger)
        && forall i :: p <= i < |s| ==> s[i].trigger < e.trigger
    ensures Place(s, e) == p
  {
    if p < |s| {
      PlaceIs(s[..|s| - 1], e, p);
    }
  }

  function Insert(s: seq<Event>, e: Event): (r: seq<Event>)
    ensures |r| == |s| + 1
  {
    s[..Place(s, e)] + [e] + s[Place(s, e)..]
  }

  /** A full buffer loses the event. */
  function Added(s: seq<Event>, a: Add): seq<Event> {
    if |s| >= MAX_TIMED_EVENTS then s else Insert(s, Made(a))
  }

  function AddedAll(s: seq<Event>, adds: seq<Add>): (r: seq<Event>)
    ensures |s| <= MAX_TIMED_EVENTS ==> |s| <= |r| <= MAX_TIMED_EVENTS
    ensures |s| + |adds| <= MAX_TIMED_EVENTS ==> |r| == |s| + |adds|
  {
    if adds == [] then s else Added(AddedAll(s, adds[..|adds| - 1]), adds[|adds| - 1])
  }

  predicate NoneDue(s: seq<Event>, time: int): (none: bool)
    ensures !none ==> s != []
  {
    s == [] || s[|s| - 1].trigger > time
  }

  /** A run of the loop: the events fired, the buffer left, and what the handlers still had to add. The handler of
      the k-th event fired adds the k-th list of the script; further ones add nothing. */
  datatype Outcome = Outcome(fired: seq<Event>, rest: seq<Event>, script: seq<seq<Add>>)

  function Run(s: seq<Event>, time: int, script: seq<seq<Add>>): (o: Outcome)
    decreases |script|, |s|
  {
    if NoneDue(s, time) then Outcome([], s, script) else
    var o := if script == [] then Run(s[..|s| - 1], time, [])
             else Run(AddedAll(s[..|s| - 1], script[0]), time, script[1..]);
    Outcome([s[|s| - 1]] + o.fired, o.rest, o.script)
  }

  // ---------------------------------------------------------------------------------------------
  // The order, and that nothing is lost or duplicated

  /** `a` fires before `b`: it triggers earlier, or at the same time but was added later. */
  predicate Before(a: Event, b: Event) { a.trigger < b.trigger || (a.trigger == b.trigger && a.id > b.id) }

  ghost predicate Sorted(s: seq<Event>) {
    forall i, j :: 0 <= i < j < |s| ==> s[i].trigger >= s[j].trigger
  }

  ghost predicate Ordered(s: seq<Event>) {
    forall i, j :: 0 <= i < j < |s| ==> Before(s[j], s[i])
  }

  lemma InsertSorted(s: seq<Event>, e: Event)
    requires Sorted(s)
    ensures Sorted(Insert(s, e))
  {
  }

  /** Ties go behind, so that the event added last fires first. */
  lemma InsertOrdered(s: seq<Event>, e: Event)
    requires Ordered(s) && forall i :: 0 <= i < |s| ==> s[i].id < e.id
    ensures Ordered(Insert(s, e))
  {
  }

  ghost predicate IdsBelow(s: seq<Event>, bound: nat) { forall i :: 0 <= i < |s| ==> s[i].id < bound }

  lemma InsertIds(s: seq<Event>, e: Event, bound: nat)
    requires IdsBelow(s, bound) && e.id < bound
    ensures IdsBelow(Insert(s, e), bound)
  {
  }

  /** Events numbered in the order of their addition keep the buffer ordered. */
  lemma {:induction false} AddedAllOrdered(s: seq<Event>, adds: seq<Add>, first: nat)
    requires Ordered(s) && IdsBelow(s, first) && forall i :: 0 <= i < |adds| ==> adds[i].id == first + i
    ensures Ordered(AddedAll(s, adds)) && IdsBelow(AddedAll(s, adds), first + |adds|)
  {
    hide Ordered, Insert;
    if adds != [] {
      var before := AddedAll(s, adds[..|adds| - 1]);
      AddedAllOrdered(s, adds[..|adds| - 1], first);
      InsertOrdered(before, Made(adds[|adds| - 1]));
      InsertIds(before, Made(adds[|adds| - 1]), first + |adds|);
    }
  }

  ghost predicate Numbered(adds: seq<Add>, first: nat) { forall i :: 0 <= i < |adds| ==> adds[i].id == first + i }

  ghost predicate AllNumbered(script: seq<seq<Add>>, first: nat)
    decreases |script|
  {
    script == [] || (Numbered(script[0], first) && AllNumbered(script[1..], first + |script[0]|))
  }

  /** The loop, too: what its handlers add takes its place among the events that wait. */
  lemma {:induction false} RunKeepsOrdered(s: seq<Event>, time: int, script: seq<seq<Add>>, first: nat)
    requires Ordered(s) && IdsBelow(s, first) && AllNumbered(script, first)
    ensures var rest := Run(s, time, script).rest; Ordered(rest) && IdsBelow(rest, first + Total(script))
    decreases |script|, |s|
  {
    hide AddedAll, Numbered;
    if !NoneDue(s, time) {
      var front := s[..|s| - 1];
      if script == [] {
        RunKeepsOrdered(front, time, [], first);
      } else {
        NumberedOrdered(front, script[0], first);
        RunKeepsOrdered(AddedAll(front, script[0]), time, script[1..], first + |script[0]|);
      }
    }
  }

  lemma NumberedOrdered(s: seq<Event>, adds: seq<Add>, first: nat)
    requires Ordered(s) && IdsBelow(s, first) && Numbered(adds, first)
    ensures Ordered(AddedAll(s, adds)) && IdsBelow(AddedAll(s, adds), first + |adds|)
  {
    hide Ordered, IdsBelow, AddedAll;
    AddedAllOrdered(s, adds, first);
  }

  /** What happens to a timer: additions from elsewhere, and runs of the loop. */
  datatype Call = Adds(adds: seq<Add>) | Loop(time: int, script: seq<seq<Add>>)

  function Do(s: seq<Event>, c: Call): seq<Event> {
    match c
    case Adds(adds) => AddedAll(s, adds)
    case Loop(time, script) => Run(s, time, script).rest
  }

  function DoAll(s: seq<Event>, calls: seq<Call>): seq<Event>
    decreases |calls|
  {
    if calls == [] then s else DoAll(Do(s, calls[0]), calls[1..])
  }

  function Count(c: Call): nat {
    match c
    case Adds(adds) => |adds|
    case Loop(_, script) => Total(script)
  }

  /** The events of a history are numbered in the order in which they are added. */
  ghost predicate History(calls: seq<Call>, first: nat)
    decreases |calls|
  {
    calls == [] ||
    ((match calls[0]
      case Adds(adds) => Numbered(adds, first)
      case Loop(_, script) => AllNumbered(script, first))
     && History(calls[1..], first + Count(calls[0])))
  }

  /** Over any history of additions and loops the buffer stays ordered, ties included. */
  lemma {:induction false} HistoryOrdered(s: seq<Event>, calls: seq<Call>, first: nat)
    requires Ordered(s) && IdsBelow(s, first) && History(calls, first)
    ensures Ordered(DoAll(s, calls))
    decreases |calls|
  {
    hide Ordered, IdsBelow, Run, AddedAll, Numbered, AllNumbered, Total;
    if calls != [] {
      match calls[0] {
        case Adds(adds) => NumberedOrdered(s, adds, first);
        case Loop(time, script) => RunKeepsOrdered(s, time, script, first);
      }
      HistoryOrdered(Do(s, calls[0]), calls[1..], first + Count(calls[0]));
    }
  }

  lemma InsertAdds(s: seq<Event>, e: Event)
    ensures multiset(Insert(s, e)) == multiset(s) + multiset{e}
  {
    assert s == s[..Place(s, e)] + s[Place(s, e)..];
  }

  function MadeAll(adds: seq<Add>): seq<Event> { seq(|adds|, i requires 0 <= i < |adds| => Made(adds[i])) }

  lemma {:induction false} AddedAllSorted(s: seq<Event>, adds: seq<Add>)
    requires Sorted(s)
    ensures Sorted(AddedAll(s, adds))
  {
    hide Sorted, Insert;
    if adds != [] {
      AddedAllSorted(s, adds[..|adds| - 1]);
      InsertSorted(AddedAll(s, adds[..|adds| - 1]), Made(adds[|adds| - 1]));
    }
  }

  /** Below capacity exactly the new events come in. */
  lemma {:induction false} AddedAllAdds(s: seq<Event>, adds: seq<Add>)
    requires |s| + |adds| <= MAX_TIMED_EVENTS
    ensures multiset(AddedAll(s, adds)) == multiset(s) + multiset(MadeAll(adds))
  {
    hide Insert, Made;
    if adds == [] {
      assert MadeAll(adds) == [];
    } else {
      var front, last := adds[..|adds| - 1], adds[|adds| - 1];
      AddedAllAdds(s, front);
      InsertAdds(AddedAll(s, front), Made(last));
      assert MadeAll(adds) == MadeAll(front) + [Made(last)];
    }
  }

  function Total(script: seq<seq<Add>>): nat
    decreases |script|
  {
    if script == [] then 0 else |script[0]| + Total(script[1..])
  }

  /** The events that the first `n` handlers make. */
  function Flat(script: seq<seq<Add>>, n: nat): seq<Event>
    decreases |script|
  {
    if script == [] || n == 0 then [] else MadeAll(script[0]) + Flat(script[1..], n - 1)
  }

  /** Whatever the handlers add, the loop ends with a sorted buffer without due events, and has fired only due ones. */
  lemma {:induction false} RunFiresDue(s: seq<Event>, time: int, script: seq<seq<Add>>)
    requires Sorted(s)
    ensures var o := Run(s, time, script);
            Sorted(o.rest) && (forall i :: 0 <= i < |o.fired| ==> o.fired[i].trigger <= time)
            && (forall i :: 0 <= i < |o.rest| ==> o.rest[i].trigger > time)
    decreases |script|, |s|
  {
    if NoneDue(s, time) {
    } else {
      var front := s[..|s| - 1];
      if script == [] {
        RunFiresDue(front, time, []);
      } else {
        AddedAllSorted(front, script[0]);
        RunFiresDue(AddedAll(front, script[0]), time, script[1..]);
      }
    }
  }

  lemma ConserveStep<T>(e: T, fired: seq<T>, rest: seq<T>, front: seq<T>, made: seq<T>, more: seq<T>)
    requires multiset(fired) + multiset(rest) == multiset(front) + multiset(made) + multiset(more)
    ensures multiset([e] + fired) + multiset(rest) == multiset(front + [e]) + multiset(made + more)
  {
    var f, r, t, m, n := multiset(fired), multiset(rest), multiset(front), multiset(made), multiset(more);
    assert multiset([e] + fired) == multiset{e} + f && multiset(front + [e]) == t + multiset{e}
        && multiset(made + more) == m + n;
    BagStep(multiset{e}, f, r, t, m, n);
  }

  lemma BagStep<T>(e: multiset<T>, f: multiset<T>, r: multiset<T>, t: multiset<T>, m: multiset<T>, n: multiset<T>)
    requires f + r == t + m + n
    ensures e + f + r == t + e + (m + n)
  {
    assert e + f + r == e + (f + r);
    assert t + e + (m + n) == e + (t + m + n);
  }

  lemma RunStep(s: seq<Event>, time: int, script: seq<seq<Add>>)
    requires !NoneDue(s, time)
    ensures var next := if script == [] then s[..|s| - 1] else AddedAll(s[..|s| - 1], script[0]);
            var o, o' := Run(s, time, script), Run(next, time, if script == [] then [] else script[1..]);
            o.fired == [s[|s| - 1]] + o'.fired && o.rest == o'.rest
  {
    hide AddedAll;
  }

  lemma NothingRuns(s: seq<Event>, time: int, script: seq<seq<Add>>)
    requires NoneDue(s, time)
    ensures Run(s, time, script).fired == [] && Run(s, time, script).rest == s && Flat(script, 0) == []
  {
    hide MadeAll;
  }

  lemma FlatStep(script: seq<seq<Add>>, n: nat)
    ensures var m := if script == [] then [] else MadeAll(script[0]);
            Flat(script, n + 1) == m + Flat(if script == [] then [] else script[1..], n)
  {
    hide MadeAll;
  }

  /** At every event fired there is room for what its handler adds. */
  ghost predicate RunFits(s: seq<Event>, time: int, script: seq<seq<Add>>)
    decreases |script|
  {
    NoneDue(s, time) || script == [] ||
    (|s| - 1 + |script[0]| <= MAX_TIMED_EVENTS && RunFits(AddedAll(s[..|s| - 1], script[0]), time, script[1..]))
  }

  lemma RunFitsStep(s: seq<Event>, time: int, script: seq<seq<Add>>)
    requires !NoneDue(s, time)
    ensures var next := if script == [] then s[..|s| - 1] else AddedAll(s[..|s| - 1], script[0]);
            RunFits(s, time, script) <==>
              (script == [] || |s| - 1 + |script[0]| <= MAX_TIMED_EVENTS)
              && RunFits(next, time, if script == [] then [] else script[1..])
  {
    hide AddedAll;
  }

  lemma {:induction false} AddedAllSize(s: seq<Event>, adds: seq<Add>)
    requires |s| <= MAX_TIMED_EVENTS
    ensures |AddedAll(s, adds)|
            == if |s| + |adds| <= MAX_TIMED_EVENTS then |s| + |adds| else MAX_TIMED_EVENTS
  {
    hide Insert;
    if adds != [] {
      AddedAllSize(s, adds[..|adds| - 1]);
    }
  }

  lemma MadeSize(adds: seq<Add>)
    ensures |MadeAll(adds)| == |adds|
  {
  }

  /** A run never has more events than came in, and as many only if it always had room. */
  lemma {:induction false} RunSize(s: seq<Event>, time: int, script: seq<seq<Add>>)
    requires |s| <= MAX_TIMED_EVENTS
    ensures var o := Run(s, time, script);
            var made := |s| + |Flat(script, |o.fired|)|;
            && |o.rest| <= MAX_TIMED_EVENTS && |o.fired| + |o.rest| <= made
            && (|o.fired| + |o.rest| == made ==> RunFits(s, time, script))
    decreases |script|, |s|
  {
    hide MadeAll, AddedAll, Run, Flat, RunFits;
    if NoneDue(s, time) {
      NothingRuns(s, time, script);
      RunFitsNone(s, time, script);
    } else {
      var front := s[..|s| - 1];
      var made := if script == [] then [] else script[0];
      var next := if script == [] then front else AddedAll(front, made);
      var more := if script == [] then [] else script[1..];
      RunStep(s, time, script);
      RunFitsStep(s, time, script);
      AddedAllSize(front, made);
      MadeSize(made);
      RunSize(next, time, more);
      FlatStep(script, |Run(next, time, more).fired|);
    }
  }

  lemma RunFitsNone(s: seq<Event>, time: int, script: seq<seq<Add>>)
    requires NoneDue(s, time)
    ensures RunFits(s, time, script)
  {
  }

  lemma NextAdds(front: seq<Event>, script: seq<seq<Add>>)
    requires script == [] || |front| + |script[0]| <= MAX_TIMED_EVENTS
    ensures var next := if script == [] then front else AddedAll(front, script[0]);
            multiset(next) == multiset(front) + multiset(if script == [] then [] else MadeAll(script[0]))
  {
    hide MadeAll, AddedAll;
    if script != [] {
      AddedAllAdds(front, script[0]);
    }
  }

  /** With room at every event, each one is fired once or still waits, whatever the handlers add. */
  lemma {:induction false} RunConserves(s: seq<Event>, time: int, script: seq<seq<Add>>)
    requires RunFits(s, time, script)
    ensures var o := Run(s, time, script);
            multiset(o.fired) + multiset(o.rest) == multiset(s) + multiset(Flat(script, |o.fired|))
    decreases |script|, |s|
  {
    hide MadeAll, AddedAll, Run, Flat, RunFits, NoneDue;
    if NoneDue(s, time) {
      NothingRuns(s, time, script);
    } else {
      var front, last := s[..|s| - 1], s[|s| - 1];
      var made := if script == [] then [] else script[0];
      var next := if script == [] then front else AddedAll(front, made);
      var more := if script == [] then [] else script[1..];
      var o' := Run(next, time, more);
      RunStep(s, time, script);
      RunFitsStep(s, time, script);
      RunConserves(next, time, more);
      assert s == front + [last];
      var m := if script == [] then [] else MadeAll(made);
      NextAdds(front, script);
      FlatStep(script, |o'.fired|);
      ConserveStep(last, o'.fired, o'.rest, front, m, Flat(more, |o'.fired|));
    }
  }

  lemma SameSize<T>(fired: seq<T>, rest: seq<T>, s: seq<T>, made: seq<T>)
    requires multiset(fired) + multiset(rest) == multiset(s) + multiset(made)
    ensures |fired| + |rest| == |s| + |made|
  {
    assert |multiset(fired) + multiset(rest)| == |fired| + |rest|;
    assert |multiset(s) + multiset(made)| == |s| + |made|;
  }

  /** In a loop nothing is lost or duplicated if and only if there is room for what handlers add when they add it. */
  lemma RunConservesIff(s: seq<Event>, time: int, script: seq<seq<Add>>)
    requires |s| <= MAX_TIMED_EVENTS
    ensures var o := Run(s, time, script);
            multiset(o.fired) + multiset(o.rest) == multiset(s) + multiset(Flat(script, |o.fired|))
            <==> RunFits(s, time, script)
  {
    hide Run, Flat, RunFits;
    var o := Run(s, time, script);
    RunSize(s, time, script);
    if RunFits(s, time, script) {
      RunConserves(s, time, script);
    } else if multiset(o.fired) + multiset(o.rest) == multiset(s) + multiset(Flat(script, |o.fired|)) {
      SameSize(o.fired, o.rest, s, Flat(script, |o.fired|));
    }
  }

  /** The sum that a 32-bit int keeps. */
  lemma WrapIs(v: int)
    ensures -0x8000_0000 <= Wrap(v) < 0x8000_0000 && (Wrap(v) - v) % 0x1_0000_0000 == 0
    ensures -0x8000_0000 <= v < 0x8000_0000 ==> Wrap(v) == v
  {
  }

  /** An event fires once its delay has passed, and not before. */
  lemma OneEventFires(a: Add, time: int)
    requires -0x8000_0000 <= a.now + a.delay < 0x8000_0000
    ensures var o := Run(AddedAll([], [a]), time, []);
            if a.now + a.delay <= time then |o.fired| == 1 && o.rest == [] && o.fired[0].id == a.id
                                            && o.fired[0].time == a.now && o.fired[0].trigger == a.now + a.delay
            else o.fired == [] && |o.rest| == 1
  {
    WrapIs(a.now + a.delay);
    var s := AddedAll([], [a]);
    assert [a][..0] == [];
    assert s == [Made(a)] && s[..0] == [];
    if !NoneDue(s, time) {
      RunStep(s, time, []);
      NothingRuns([], time, []);
    }
  }

  // ---------------------------------------------------------------------------------------------
  // Handlers that add only later events

  ghost predicate AllLater(adds: seq<Add>, time: int) {
    forall i :: 0 <= i < |adds| ==> Made(adds[i]).trigger > time
  }

  /** How many events of a sorted buffer are not due: they lie in front. */
  function Waiting(s: seq<Event>, time: int): (p: nat)
    ensures p <= |s| && NoneDue(s[..p], time)
    ensures forall i :: p <= i < |s| ==> s[i].trigger <= time
  {
    if NoneDue(s, time) then |s| else Waiting(s[..|s| - 1], time)
  }

  function Reversed(s: seq<Event>): (r: seq<Event>)
    ensures |r| == |s| && forall i :: 0 <= i < |s| ==> r[i] == s[|s| - 1 - i]
  {
    if s == [] then [] else [s[|s| - 1]] + Reversed(s[..|s| - 1])
  }

  lemma Spliced<T>(s: seq<T>, e: T, p: nat, w: nat)
    requires p <= w <= |s|
    ensures var r := s[..p] + [e] + s[p..];
            r[w + 1..] == s[w..] && r[w] == if p == w then e else s[w - 1]
  {
  }

  lemma SpliceIs<T>(r: seq<T>, s: seq<T>, e: T, p: nat)
    requires p <= |s| && |r| == |s| + 1 && r[p] == e
    requires forall i :: 0 <= i < p ==> r[i] == s[i]
    requires forall i :: p <= i < |s| ==> s[i] == r[i + 1]
    ensures r == s[..p] + [e] + s[p..]
  {
    var t := s[..p] + [e] + s[p..];
    forall i | 0 <= i < |r|
      ensures r[i] == t[i]
    {
      if i > p {
        assert s[i - 1] == r[i - 1 + 1];
      }
    }
  }

  /** The shifted buffer with the event in its place. */
  lemma InsertIs(r: seq<Event>, s: seq<Event>, e: Event, p: nat)
    requires p <= |s| && |r| == |s| + 1 && r[p] == e && (p > 0 ==> s[p - 1].trigger >= e.trigger)
    requires forall i :: 0 <= i < p ==> r[i] == s[i]
    requires forall i :: p <= i < |s| ==> s[i].trigger < e.trigger && s[i] == r[i + 1]
    ensures r == Insert(s, e)
  {
    hide Place;
    PlaceIs(s, e, p);
    SpliceIs(r, s, e, p);
  }

  /** `r` is `s` with the events from `index` to `head`, all earlier than `trigger`, moved up by one place. */
  ghost predicate ShiftedFrom(s: seq<Event>, r: seq<Event>, index: nat, head: nat, trigger: int) {
    && index <= head < |s| && |r| == |s|
    && (forall i :: index <= i < head ==> s[i].trigger < trigger && r[i + 1] == s[i])
    && (forall i :: 0 <= i < index ==> r[i] == s[i])
  }

  lemma NotShifted(s: seq<Event>, head: nat, trigger: int)
    requires head < |s|
    ensures ShiftedFrom(s, s, head, head, trigger)
  {
  }

  lemma ShiftOne(s: seq<Event>, r: seq<Event>, index: nat, head: nat, trigger: int)
    requires ShiftedFrom(s, r, index, head, trigger) && index > 0 && r[index - 1].trigger < trigger
    ensures ShiftedFrom(s, r[index := r[index - 1]], index - 1, head, trigger)
  {
  }

  lemma SameFront(s: seq<Event>, r: seq<Event>, index: nat, head: nat, trigger: int)
    requires ShiftedFrom(s, r, index, head, trigger)
    ensures index <= head < |r| == |s| && (index > 0 ==> r[index - 1] == s[index - 1])
  {
  }

  /** A later event leaves the due ones where they are. */
  lemma InsertLater(s: seq<Event>, e: Event, time: int)
    requires e.trigger > time
    ensures Insert(s, e)[Waiting(Insert(s, e), time)..] == s[Waiting(s, time)..]
  {
    hide Place, Waiting;
    var p, w := Place(s, e), Waiting(s, time);
    assert w > 0 ==> s[..w][w - 1].trigger > time;
    Spliced(s, e, p, w);
    BackDue(s, Insert(s, e), w, time);
    WaitingIs(Insert(s, e), time, w + 1);
  }

  lemma BackDue(s: seq<Event>, r: seq<Event>, w: nat, time: int)
    requires w <= |s| && |r| == |s| + 1 && r[w + 1..] == s[w..]
    requires forall i :: w <= i < |s| ==> s[i].trigger <= time
    ensures forall i :: w + 1 <= i < |r| ==> r[i].trigger <= time
  {
    forall i | w + 1 <= i < |r|
      ensures r[i].trigger <= time
    {
      assert r[w + 1..][i - w - 1] == s[w..][i - w - 1];
    }
  }

  /** The split is the only one. */
  lemma WaitingIs(s: seq<Event>, time: int, p: nat)
    requires p <= |s| && (p == 0 || s[p - 1].trigger > time) && forall i :: p <= i < |s| ==> s[i].trigger <= time
    ensures Waiting(s, time) == p
  {
  }

  lemma {:induction false} AddedAllLater(s: seq<Event>, adds: seq<Add>, time: int)
    requires AllLater(adds, time)
    ensures AddedAll(s, adds)[Waiting(AddedAll(s, adds), time)..] == s[Waiting(s, time)..]
  {
    hide Insert, Waiting, Made;
    if adds != [] {
      var front := AddedAll(s, adds[..|adds| - 1]);
      AddedAllLater(s, adds[..|adds| - 1], time);
      InsertLater(front, Made(adds[|adds| - 1]), time);
    }
  }

  /** With such handlers the loop fires exactly the events due at its start, from the end of the buffer on. */
  lemma {:induction false} RunFiresExactlyDue(s: seq<Event>, time: int, script: seq<seq<Add>>)
    requires forall k :: 0 <= k < |script| ==> AllLater(script[k], time)
    ensures Run(s, time, script).fired == Reversed(s[Waiting(s, time)..])
    decreases |script|, |s|
  {
    hide AllLater;
    var w := Waiting(s, time);
    if NoneDue(s, time) {
      assert s[w..] == [];
    } else {
      var front, last := s[..|s| - 1], s[|s| - 1];
      assert s[w..] == front[w..] + [last];
      assert s[w..][..|s[w..]| - 1] == front[w..];
      if script == [] {
        RunFiresExactlyDue(front, time, []);
      } else {
        AddedAllLater(front, script[0], time);
        RunFiresExactlyDue(AddedAll(front, script[0]), time, script[1..]);
      }
    }
  }

  /** In which order: non-decreasing trigger time, and of equal ones the last added first; and every event that is
      due is among them. */
  lemma FiredInOrder(s: seq<Event>, time: int, script: seq<seq<Add>>)
    requires Ordered(s) && forall k :: 0 <= k < |script| ==> AllLater(script[k], time)
    ensures var fired := Run(s, time, script).fired;
            (forall i, j :: 0 <= i < j < |fired| ==> Before(fired[i], fired[j]))
            && (forall e :: e in fired <==> e in s && e.trigger <= time)
  {
    hide Run, Waiting, AllLater, Reversed;
    RunFiresExactlyDue(s, time, script);
    var w := Waiting(s, time);
    var fired := Run(s, time, script).fired;
    BackOrdered(s, w);
    forall e
      ensures e in fired <==> e in s && e.trigger <= time
    {
      if e in s && e.trigger <= time {
        DueIsBehind(s, e, time);
      }
      ReversedHas(s[w..], e);
    }
  }

  /** What a history fires, and what it adds, the handlers' events among it. */
  function FiredBy(s: seq<Event>, c: Call): seq<Event> {
    match c
    case Adds(_) => []
    case Loop(time, script) => Run(s, time, script).fired
  }

  function MadeBy(s: seq<Event>, c: Call): seq<Event> {
    match c
    case Adds(adds) => MadeAll(adds)
    case Loop(time, script) => Flat(script, |Run(s, time, script).fired|)
  }

  function FiredInAll(s: seq<Event>, calls: seq<Call>): seq<Event>
    decreases |calls|
  {
    if calls == [] then [] else FiredBy(s, calls[0]) + FiredInAll(Do(s, calls[0]), calls[1..])
  }

  function MadeInAll(s: seq<Event>, calls: seq<Call>): seq<Event>
    decreases |calls|
  {
    if calls == [] then [] else MadeBy(s, calls[0]) + MadeInAll(Do(s, calls[0]), calls[1..])
  }

  /** There is room for what a call adds when it adds it. */
  ghost predicate CallFits(s: seq<Event>, c: Call) {
    match c
    case Adds(adds) => |s| + |adds| <= MAX_TIMED_EVENTS
    case Loop(time, script) => RunFits(s, time, script)
  }

  ghost predicate AllFit(s: seq<Event>, calls: seq<Call>)
    decreases |calls|
  {
    calls == [] || (CallFits(s, calls[0]) && AllFit(Do(s, calls[0]), calls[1..]))
  }

  lemma CallConserves(s: seq<Event>, c: Call)
    requires CallFits(s, c)
    ensures multiset(FiredBy(s, c)) + multiset(Do(s, c)) == multiset(s) + multiset(MadeBy(s, c))
  {
    hide Run, AddedAll, MadeAll, Flat, RunFits;
    match c
    case Adds(adds) => AddedAllAdds(s, adds);
    case Loop(time, script) => RunConserves(s, time, script);
  }

  lemma CallSize(s: seq<Event>, c: Call)
    requires |s| <= MAX_TIMED_EVENTS
    ensures |Do(s, c)| <= MAX_TIMED_EVENTS && |FiredBy(s, c)| + |Do(s, c)| <= |s| + |MadeBy(s, c)|
    ensures |FiredBy(s, c)| + |Do(s, c)| == |s| + |MadeBy(s, c)| ==> CallFits(s, c)
  {
    hide Run, AddedAll, MadeAll, Flat, RunFits;
    match c
    case Adds(adds) =>
      AddedAllSize(s, adds);
      MadeSize(adds);
    case Loop(time, script) => RunSize(s, time, script);
  }

  lemma {:induction false} HistorySize(s: seq<Event>, calls: seq<Call>)
    requires |s| <= MAX_TIMED_EVENTS
    ensures |FiredInAll(s, calls)| + |DoAll(s, calls)| <= |s| + |MadeInAll(s, calls)|
    ensures |FiredInAll(s, calls)| + |DoAll(s, calls)| == |s| + |MadeInAll(s, calls)| ==> AllFit(s, calls)
    decreases |calls|
  {
    hide Do, FiredBy, MadeBy, CallFits;
    if calls != [] {
      CallSize(s, calls[0]);
      HistorySize(Do(s, calls[0]), calls[1..]);
    }
  }

  lemma Joined<T>(fired: seq<T>, mid: seq<T>, s: seq<T>, made: seq<T>, fired': seq<T>, rest: seq<T>, made': seq<T>)
    requires multiset(fired) + multiset(mid) == multiset(s) + multiset(made)
    requires multiset(fired') + multiset(rest) == multiset(mid) + multiset(made')
    ensures multiset(fired + fired') + multiset(rest) == multiset(s) + multiset(made + made')
  {
    var f, m, a, d := multiset(fired), multiset(mid), multiset(s), multiset(made);
    var f', r, d' := multiset(fired'), multiset(rest), multiset(made');
    assert multiset(fired + fired') == f + f' && multiset(made + made') == d + d';
    BagJoin(f, m, a, d, f', r, d');
  }

  lemma BagJoin<T>(f: multiset<T>, m: multiset<T>, a: multiset<T>, d: multiset<T>,
                   f': multiset<T>, r: multiset<T>, d': multiset<T>)
    requires f + m == a + d && f' + r == m + d'
    ensures f + f' + r == a + (d + d')
  {
    assert f + f' + r == f + (f' + r);
    assert f + (m + d') == f + m + d';
    assert a + d + d' == a + (d + d');
  }

  lemma {:induction false} HistoryConserves(s: seq<Event>, calls: seq<Call>)
    requires AllFit(s, calls)
    ensures multiset(FiredInAll(s, calls)) + multiset(DoAll(s, calls)) == multiset(s) + multiset(MadeInAll(s, calls))
    decreases |calls|
  {
    hide Do, FiredBy, MadeBy, CallFits;
    if calls != [] {
      var c, mid := calls[0], Do(s, calls[0]);
      CallConserves(s, c);
      HistoryConserves(mid, calls[1..]);
      Joined(FiredBy(s, c), mid, s, MadeBy(s, c),
             FiredInAll(mid, calls[1..]), DoAll(mid, calls[1..]), MadeInAll(mid, calls[1..]));
    }
  }

  /** Over any history, however long, the events fired and those that still wait are exactly the events added, if and
      only if the buffer had room at each addition. */
  lemma HistoryConservesIff(s: seq<Event>, calls: seq<Call>)
    requires |s| <= MAX_TIMED_EVENTS
    ensures multiset(FiredInAll(s, calls)) + multiset(DoAll(s, calls)) == multiset(s) + multiset(MadeInAll(s, calls))
            <==> AllFit(s, calls)
  {
    hide FiredInAll, DoAll, MadeInAll, AllFit;
    HistorySize(s, calls);
    if AllFit(s, calls) {
      HistoryConserves(s, calls);
    } else if multiset(FiredInAll(s, calls)) + multiset(DoAll(s, calls))
              == multiset(s) + multiset(MadeInAll(s, calls)) {
      SameSize(FiredInAll(s, calls), DoAll(s, calls), s, MadeInAll(s, calls));
    }
  }

  /** One event added and fired, over and over. */
  function Ticks(a: Add, n: nat): seq<Call> {
    if n == 0 then [] else [Adds([a]), Loop(Made(a).trigger, [])] + Ticks(a, n - 1)
  }

  /** Such a history has room however long it is. */
  lemma {:induction false} TicksFit(a: Add, n: nat)
    ensures AllFit([], Ticks(a, n)) && |Ticks(a, n)| == 2 * n
  {
    if n > 0 {
      var calls, tick := Ticks(a, n), Loop(Made(a).trigger, []);
      OneTick(a);
      assert calls[1..] == [tick] + Ticks(a, n - 1) && calls[1..][1..] == Ticks(a, n - 1);
      TicksFit(a, n - 1);
      hide Do, CallFits;
    }
  }

  lemma OneTick(a: Add)
    ensures var tick := Loop(Made(a).trigger, []);
            && CallFits([], Adds([a])) && Do([], Adds([a])) == [Made(a)]
            && CallFits([Made(a)], tick) && Do([Made(a)], tick) == []
  {
    assert [a][..0] == [] && AddedAll([], []) == [];
    assert Place([], Made(a)) == 0;
    var t := Made(a).trigger;
    assert [Made(a)][..0] == [] && !NoneDue([Made(a)], t);
    assert Run([], t, []).rest == [];
    assert Run([Made(a)], t, []).rest == Run([], t, []).rest;
  }

  /** The same after any history of additions and loops that began with an empty buffer. */
  lemma HistoryFiresInOrder(calls: seq<Call>, time: int, script: seq<seq<Add>>)
    requires History(calls, 0) && forall k :: 0 <= k < |script| ==> AllLater(script[k], time)
    ensures var s := DoAll([], calls);
            var fired := Run(s, time, script).fired;
            (forall i, j :: 0 <= i < j < |fired| ==> Before(fired[i], fired[j]))
            && (forall e :: e in fired <==> e in s && e.trigger <= time)
  {
    hide Run, History, DoAll, AllLater;
    HistoryOrdered([], calls, 0);
    FiredInOrder(DoAll([], calls), time, script);
  }

  lemma ReversedHas(s: seq<Event>, e: Event)
    ensures e in Reversed(s) <==> e in s
  {
    if e in s {
      var i :| 0 <= i < |s| && s[i] == e;
      assert Reversed(s)[|s| - 1 - i] == e;
    }
  }

  lemma BackOrdered(s: seq<Event>, w: nat)
    requires Ordered(s) && w <= |s|
    ensures var fired := Reversed(s[w..]); forall i, j :: 0 <= i < j < |fired| ==> Before(fired[i], fired[j])
  {
    var fired := Reversed(s[w..]);
    forall i, j | 0 <= i < j < |fired|
      ensures Before(fired[i], fired[j])
    {
      assert fired[i] == s[|s| - 1 - i] && fired[j] == s[|s| - 1 - j];
    }
  }

  lemma DueIsBehind(s: seq<Event>, e: Event, time: int)
    requires Ordered(s) && e in s && e.trigger <= time
    ensures e in s[Waiting(s, time)..]
  {
    hide Waiting;
    var w := Waiting(s, time);
    var i :| 0 <= i < |s| && s[i] == e;
    assert w > 0 ==> s[..w][w - 1] == s[w - 1];
    assert i >= w;
    assert s[w..][i - w] == e;
  }

  // ---------------------------------------------------------------------------------------------
  // The program

  class Timer {
    const buffer: array<Event>
    var head: nat

    ghost predicate Valid()
      reads this, buffer
    {
      buffer.Length == MAX_TIMED_EVENTS && head <= MAX_TIMED_EVENTS && Sorted(buffer[..head])
    }

    ghost function Events(): seq<Event>
      reads this, buffer
      requires Valid()
    {
      buffer[..head]
    }

    constructor ()
      ensures Valid() && Events() == [] && fresh(buffer)
    {
      buffer := new Event[MAX_TIMED_EVENTS](_ => Event(0, 0, 0));
      head := 0;
    }

    /** The shifting loop of Com_AddTimedEvent. */
    method Shift(trigger: int) returns (index: nat)
      requires Valid() && head < MAX_TIMED_EVENTS
      modifies buffer
      ensures ShiftedFrom(old(buffer[..]), buffer[..], index, head, trigger)
      ensures index > 0 ==> old(buffer[index - 1]).trigger >= trigger
    {
      hide Sorted, ShiftedFrom;
      index := head;
      ghost var s := buffer[..];
      NotShifted(s, head, trigger);
      while index > 0 && buffer[index - 1].trigger < trigger
        invariant index <= head && ShiftedFrom(s, buffer[..], index, head, trigger)
      {
        ghost var r := buffer[..];
        ShiftOne(s, r, index, head, trigger);
        buffer[index] := buffer[index - 1];
        assert buffer[..] == r[index := r[index - 1]];
        index := index - 1;
      }
      SameFront(s, buffer[..], index, head, trigger);
    }

    /** Com_AddTimedEvent: the index of the new event, or -1 if it is lost. */
    method AddTimedEvent(a: Add) returns (index: int)
      requires Valid()
      modifies this`head, buffer
      ensures Valid() && Events() == Added(old(Events()), a)
      ensures if |old(Events())| < MAX_TIMED_EVENTS then 0 <= index < |Events()| && Events()[index] == Made(a)
              else index == -1
    {
      hide Made, Sorted, Insert;
      if head >= MAX_TIMED_EVENTS {
        return -1;
      }
      ghost var s := Events();
      var e := Made(a);
      InsertSorted(s, e);
      var at := Shift(e.trigger);
      index := at;
      buffer[at] := e;
      head := head + 1;
      InsertIs(buffer[..head], s, e, at);
    }

    /** Com_GetTimedEvent: takes the event that triggers first, if it is due. */
    method GetTimedEvent(time: int) returns (r: Option<Event>)
      requires Valid()
      modifies this`head
      ensures Valid()
      ensures if NoneDue(old(Events()), time) then r == None && Events() == old(Events())
              else r == Some(old(Events())[|old(Events())| - 1]) && Events() == old(Events())[..|old(Events())| - 1]
    {
      r := None;
      if head > 0 {
        var e := buffer[head - 1];
        if e.trigger <= time {
          head := head - 1;
          r := Some(e);
        }
      }
    }

    /** What a handler does to the timer. */
    method Handle(adds: seq<Add>)
      requires Valid()
      modifies this`head, buffer
      ensures Valid() && Events() == AddedAll(old(Events()), adds)
    {
      hide Added;
      var i := 0;
      while i < |adds|
        invariant 0 <= i <= |adds| && Valid() && Events() == AddedAll(old(Events()), adds[..i])
      {
        var _ := AddTimedEvent(adds[i]);
        i := i + 1;
        assert adds[..i][..|adds[..i]| - 1] == adds[..i - 1];
      }
      assert adds[..i] == adds;
    }

    /** The body of the loop: one event is taken and handled, unless none is due. */
    method FireNext(time: int, script: seq<seq<Add>>) returns (e: Option<Event>, left: seq<seq<Add>>)
      requires Valid()
      modifies this`head, buffer
      ensures Valid()
      ensures var o, o' := Run(old(Events()), time, script), Run(Events(), time, left);
              if e == None then o.fired == [] && o.rest == Events()
              else o.fired == [e.value] + o'.fired && o.rest == o'.rest
      ensures e != None ==> |left| < |script| || (|left| == |script| && head < old(head))
    {
      hide AddedAll, Sorted, Run, NoneDue;
      ghost var s := Events();
      left := script;
      e := GetTimedEvent(time);
      if e == None {
        NothingRuns(s, time, script);
        return;
      }
      RunStep(s, time, script);
      if left != [] {
        Handle(left[0]);
        left := left[1..];
      }
    }

    /** Com_TimedEventLoop. */
    method TimedEventLoop(time: int, script: seq<seq<Add>>) returns (fired: seq<Event>)
      requires Valid()
      modifies this`head, buffer
      ensures Valid()
      ensures var o := Run(old(Events()), time, script); fired == o.fired && Events() == o.rest
    {
      hide Run, Sorted;
      fired := [];
      var left := script;
      ghost var o := Run(Events(), time, script);
      assert [] + o.fired == o.fired;
      while true
        invariant Valid()
        invariant fired + Run(Events(), time, left).fired == o.fired && Run(Events(), time, left).rest == o.rest
        decreases |left|, head
      {
        ghost var before := fired;
        var e;
        e, left := FireNext(time, left);
        if e == None {
          break;
        }
        fired := fired + [e.value];
        assert before + ([e.value] + Run(Events(), time, left).fired) == fired + Run(Events(), time, left).fired;
      }
      assert fired + [] == fired;
    }

    /** Any history of additions and loops. */
    method Perform(calls: seq<Call>) returns (fired: seq<Event>)
      requires Valid()
      modifies this`head, buffer
      ensures Valid() && Events() == DoAll(old(Events()), calls) && fired == FiredInAll(old(Events()), calls)
    {
      hide Do, FiredBy, Sorted;
      ghost var start := Events();
      fired := [];
      var i := 0;
      assert calls[0..] == calls && [] + FiredInAll(start, calls) == FiredInAll(start, calls);
      while i < |calls|
        invariant 0 <= i <= |calls| && Valid() && DoAll(Events(), calls[i..]) == DoAll(start, calls)
        invariant fired + FiredInAll(Events(), calls[i..]) == FiredInAll(start, calls)
      {
        ghost var before, s := fired, Events();
        var now := PerformOne(calls[i]);
        assert calls[i..][1..] == calls[i + 1..];
        ghost var later := FiredInAll(Events(), calls[i + 1..]);
        assert before + (now + later) == before + now + later;
        fired := fired + now;
        i := i + 1;
      }
      assert fired + [] == fired;
    }

    method PerformOne(c: Call) returns (fired: seq<Event>)
      requires Valid()
      modifies this`head, buffer
      ensures Valid() && Events() == Do(old(Events()), c) && fired == FiredBy(old(Events()), c)
    {
      hide Run, AddedAll, Sorted;
      fired := [];
      match c {
        case Adds(adds) => Handle(adds);
        case Loop(time, script) => fired := TimedEventLoop(time, script);
      }
    }
  }
}
