/**
 * The headline animator `TypewriterText` (app/page.tsx:134-177).
 *
 * Its four pieces of React state are updated by timer callbacks.  The
 * timers are modelled as abstract events:
 *   - Tick: the effect's timeout, due TickDelay(deleting) ms after the last
 *     change of (text, deleting, index);
 *   - PauseElapsed: the nested timeout armed when the full name is shown;
 *   - CursorToggle: the 500 ms blink interval.
 * `clock` is the virtual time of the typing timer chain and `cursorClock`
 * that of the blink interval; the two chains run independently.
 */
module Typewriter {
  import opened Wrappers

  const TypeDelay: nat := 100
  const DeleteDelay: nat := 50
  const PauseDelay: nat := 2000
  const BlinkPeriod: nat := 500

  /** Delay of the next tick: faster when deleting (app/page.tsx:141). */
  function TickDelay(deleting: bool): nat {
    if deleting then DeleteDelay else TypeDelay
  }

  /** Delay of the pause armed by a tick (app/page.tsx:142). */
  function PauseDuration(deleting: bool): nat {
    if deleting then 0 else PauseDelay
  }

  /** The index after `index`, wrapping to 0 after the last name. */
  function NextIndex(names: seq<string>, index: nat): (r: nat)
    requires index < |names|
    ensures r < |names|
  {
    if index + 1 == |names| then 0 else index + 1
  }

  /** NextIndex is the source's `(prevIndex + 1) % names.length` (app/page.tsx:156). */
  lemma NextIndexIsModulo(names: seq<string>, index: nat)
    requires index < |names|
    ensures NextIndex(names, index) == (index + 1) % |names|
  {
    if index + 1 == |names| {
      assert (index + 1) % |names| == |names| % |names| == 0;
    }
  }

  /** JavaScript's `str.substring(0, end)`: the end is clamped to [0, |str|]. */
  function SubstringTo(str: string, end: int): (r: string)
    ensures r <= str
    ensures |r| == if end < 0 then 0 else if end > |str| then |str| else end
  {
    if end < 0 then "" else if end > |str| then str else str[..end]
  }

  /**
   * The animator's state.  `pausePending` is true while the pause timeout is
   * armed; during that time no tick is scheduled, because no state changed
   * and the effect did not run again.
   */
  datatype Anim = Anim(
    index: nat,
    text: string,
    deleting: bool,
    pausePending: bool,
    clock: nat,
    cursor: bool,
    cursorClock: nat)

  datatype Event = Tick | PauseElapsed | CursorToggle

  /** The invariant: the index is in bounds and the text is a prefix of the current name. */
  predicate Inv(names: seq<string>, s: Anim) {
    && |names| > 0
    && s.index < |names|
    && s.text <= names[s.index]
    && (s.pausePending ==> !s.deleting && s.text == names[s.index])
  }

  /** The state on mount. */
  function Initial(): Anim {
    Anim(0, "", false, false, 0, true, 0)
  }

  lemma InitialValid(names: seq<string>)
    requires |names| > 0
    ensures Inv(names, Initial())
  {
  }

  /** The effect's timeout fires (app/page.tsx:144-165). */
  function TickStep(names: seq<string>, s: Anim): (r: Anim)
    requires Inv(names, s) && !s.pausePending
    ensures Inv(names, r)
    ensures r.clock == s.clock + TickDelay(s.deleting)
    ensures r.cursor == s.cursor && r.cursorClock == s.cursorClock
  {
    var name := names[s.index];
    var at := s.clock + TickDelay(s.deleting);
    if !s.deleting && s.text == name then
      s.(pausePending := true, clock := at)
    else if s.deleting && s.text == "" then
      s.(deleting := false, index := NextIndex(names, s.index), clock := at)
    else if s.deleting then
      s.(text := SubstringTo(name, |s.text| - 1), clock := at)
    else
      s.(text := SubstringTo(name, |s.text| + 1), clock := at)
  }

  /** Typing: a tick adds exactly the next character of the current name, 100 ms later. */
  lemma TypingTickAddsNextChar(names: seq<string>, s: Anim)
    requires Inv(names, s) && !s.pausePending && !s.deleting && s.text != names[s.index]
    ensures var r := TickStep(names, s);
      r == s.(text := s.text + [names[s.index][|s.text|]], clock := s.clock + TypeDelay)
  {
    var name := names[s.index];
    assert |s.text| < |name|;
    assert name[..|s.text| + 1] == s.text + [name[|s.text|]];
  }

  /** Deleting: a tick removes exactly the last character, 50 ms later. */
  lemma DeletingTickDropsLastChar(names: seq<string>, s: Anim)
    requires Inv(names, s) && !s.pausePending && s.deleting && s.text != ""
    ensures var r := TickStep(names, s);
      r == s.(text := s.text[..|s.text| - 1], clock := s.clock + DeleteDelay) &&
      r.text + [s.text[|s.text| - 1]] == s.text
  {
    var name := names[s.index];
    assert name[..|s.text| - 1] == s.text[..|s.text| - 1];
  }

  /** At the full name a tick changes no text and no index; it only arms the pause. */
  lemma FullTextTickArmsPause(names: seq<string>, s: Anim)
    requires Inv(names, s) && !s.pausePending && !s.deleting && s.text == names[s.index]
    ensures TickStep(names, s) == s.(pausePending := true, clock := s.clock + TypeDelay)
  {
  }

  /** Empty while deleting: a tick moves to the next name, wrapping after the last one. */
  lemma EmptyTickAdvances(names: seq<string>, s: Anim)
    requires Inv(names, s) && !s.pausePending && s.deleting && s.text == ""
    ensures var r := TickStep(names, s);
      r == s.(deleting := false, index := NextIndex(names, s.index), clock := s.clock + DeleteDelay) &&
      r.index == (s.index + 1) % |names| && r.index < |names|
  {
    NextIndexIsModulo(names, s.index);
  }

  /** The nested pause timeout fires (app/page.tsx:149). */
  function PauseStep(names: seq<string>, s: Anim): (r: Anim)
    requires Inv(names, s) && s.pausePending
    ensures Inv(names, r)
    ensures r.clock == s.clock + PauseDelay
    ensures r.deleting && !r.pausePending
    ensures r.index == s.index && r.text == s.text
    ensures r.cursor == s.cursor && r.cursorClock == s.cursorClock
  {
    s.(deleting := true, pausePending := false, clock := s.clock + PauseDuration(s.deleting))
  }

  /** The blink interval fires (app/page.tsx:171-174). */
  function ToggleStep(s: Anim): (r: Anim)
    ensures r.cursor != s.cursor && r.cursorClock == s.cursorClock + BlinkPeriod
    ensures r.index == s.index && r.text == s.text && r.deleting == s.deleting
    ensures r.pausePending == s.pausePending && r.clock == s.clock
  {
    s.(cursor := !s.cursor, cursorClock := s.cursorClock + BlinkPeriod)
  }

  /** Whether the timer behind an event is armed in a state. */
  predicate Enabled(s: Anim, e: Event) {
    match e
    case Tick => !s.pausePending
    case PauseElapsed => s.pausePending
    case CursorToggle => true
  }

  function Step(names: seq<string>, s: Anim, e: Event): (r: Anim)
    requires Inv(names, s) && Enabled(s, e)
    ensures Inv(names, r)
  {
    match e
    case Tick => TickStep(names, s)
    case PauseElapsed => PauseStep(names, s)
    case CursorToggle => ToggleStep(s)
  }

  /** The state after a sequence of timer firings, or None if one of them was not armed. */
  function Run(names: seq<string>, s: Anim, events: seq<Event>): (r: Option<Anim>)
    requires Inv(names, s)
    ensures r.Some? ==> Inv(names, r.value)
    decreases |events|
  {
    if events == [] then Some(s)
    else if !Enabled(s, events[0]) then None
    else Run(names, Step(names, s, events[0]), events[1..])
  }

  function Repeat(e: Event, n: nat): (r: seq<Event>)
    ensures |r| == n
  {
    if n == 0 then [] else [e] + Repeat(e, n - 1)
  }

  /** The events of one cycle over a name of length n: type, pause, delete, advance. */
  function CycleEvents(n: nat): seq<Event> {
    Repeat(Tick, n) + [Tick, PauseElapsed] + Repeat(Tick, n) + [Tick]
  }

  /** The time one cycle over a name of length n takes on the typing clock. */
  function CycleTime(n: nat): nat {
    Span(TypeDelay, n) + TypeDelay + PauseDelay + Span(DeleteDelay, n) + DeleteDelay
  }

  /** The time n ticks of the given delay take. */
  function Span(delay: nat, n: nat): nat {
    if n == 0 then 0 else Span(delay, n - 1) + delay
  }

  lemma {:induction false} SpanIsProduct(delay: nat, n: nat)
    ensures Span(delay, n) == delay * n
  {
    if n > 0 {
      SpanIsProduct(delay, n - 1);
    }
  }

  /** One cycle over a name of n characters takes 150 ms per character plus 2150 ms. */
  lemma CycleTimeValue(n: nat)
    ensures CycleTime(n) == 150 * n + 2150
  {
    SpanIsProduct(TypeDelay, n);
    SpanIsProduct(DeleteDelay, n);
  }

  /** A state in which typing of name i starts. */
  predicate StartOf(names: seq<string>, s: Anim, i: nat) {
    Inv(names, s) && s.index == i && s.text == "" && !s.deleting && !s.pausePending
  }

  // ---------------------------------------------------------------------------
  // Cycle closure
  // ---------------------------------------------------------------------------

  lemma {:induction false} RunAppend(names: seq<string>, s: Anim, a: seq<Event>, b: seq<Event>)
    requires Inv(names, s)
    ensures Run(names, s, a + b) ==
      match Run(names, s, a)
      case None => None
      case Some(t) => Run(names, t, b)
    decreases |a|
  {
    if a == [] {
      assert a + b == b;
    } else {
      assert (a + b)[0] == a[0];
      assert (a + b)[1..] == a[1..] + b;
      if Enabled(s, a[0]) {
        RunAppend(names, Step(names, s, a[0]), a[1..], b);
      }
    }
  }

  /** Two runs that succeed one after the other make one run. */
  lemma RunThrough(names: seq<string>, s: Anim, a: seq<Event>, t: Anim, b: seq<Event>, u: Anim)
    requires Inv(names, s) && Run(names, s, a) == Some(t) && Run(names, t, b) == Some(u)
    ensures Run(names, s, a + b) == Some(u)
  {
    RunAppend(names, s, a, b);
  }

  /** Typing from a prefix of length k reaches the full name, one tick per character. */
  lemma {:induction false} TypingPhase(names: seq<string>, s: Anim, k: nat, t: Anim)
    requires Inv(names, s) && !s.deleting && !s.pausePending
    requires k <= |names[s.index]| && s.text == names[s.index][..k]
    requires t == s.(text := names[s.index], clock := s.clock + Span(TypeDelay, |names[s.index]| - k))
    ensures Run(names, s, Repeat(Tick, |names[s.index]| - k)) == Some(t)
    decreases |names[s.index]| - k
  {
    var name := names[s.index];
    if k == |name| {
      assert name[..k] == name;
    } else {
      TypingTickAddsNextChar(names, s);
      var next := TickStep(names, s);
      assert next.text == name[..k + 1];
      var es := Repeat(Tick, |name| - k);
      assert es[1..] == Repeat(Tick, |name| - (k + 1));
      TypingPhase(names, next, k + 1, t);
    }
  }

  /** Deleting from a prefix of length k empties the text, one tick per character. */
  lemma {:induction false} DeletingPhase(names: seq<string>, s: Anim, k: nat, t: Anim)
    requires Inv(names, s) && s.deleting && !s.pausePending
    requires k <= |names[s.index]| && s.text == names[s.index][..k]
    requires t == s.(text := "", clock := s.clock + Span(DeleteDelay, k))
    ensures Run(names, s, Repeat(Tick, k)) == Some(t)
    decreases k
  {
    if k > 0 {
      var name := names[s.index];
      DeletingTickDropsLastChar(names, s);
      var next := TickStep(names, s);
      assert next.text == name[..k - 1];
      var es := Repeat(Tick, k);
      assert es[1..] == Repeat(Tick, k - 1);
      DeletingPhase(names, next, k - 1, t);
    }
  }

  /** At the full name: the idle tick arms the pause, whose firing starts deleting. */
  lemma PauseSegment(names: seq<string>, s: Anim, t: Anim)
    requires Inv(names, s) && !s.deleting && !s.pausePending && s.text == names[s.index]
    requires t == s.(deleting := true, clock := s.clock + TypeDelay + PauseDelay)
    ensures Run(names, s, [Tick, PauseElapsed]) == Some(t)
  {
    FullTextTickArmsPause(names, s);
    var armed := TickStep(names, s);
    assert [Tick, PauseElapsed][1..] == [PauseElapsed];
    assert Run(names, armed, [PauseElapsed]) == Some(PauseStep(names, armed));
  }

  /** At the empty text while deleting: the tick moves on to the next name. */
  lemma AdvanceSegment(names: seq<string>, s: Anim, t: Anim)
    requires Inv(names, s) && s.deleting && !s.pausePending && s.text == ""
    requires t == s.(index := NextIndex(names, s.index), deleting := false, clock := s.clock + DeleteDelay)
    ensures Run(names, s, [Tick]) == Some(t)
  {
    EmptyTickAdvances(names, s);
    assert Run(names, s, [Tick]) == Run(names, TickStep(names, s), []);
  }

  /** One cycle, with the state it ends in given as t. */
  lemma CycleReach(names: seq<string>, s: Anim, t: Anim)
    requires StartOf(names, s, s.index)
    requires t == s.(index := NextIndex(names, s.index), clock := s.clock + CycleTime(|names[s.index]|))
    ensures Run(names, s, CycleEvents(|names[s.index]|)) == Some(t)
  {
    var name := names[s.index];
    var n := |name|;
    var full := s.(text := name, clock := s.clock + Span(TypeDelay, n));
    var erasing := full.(deleting := true, clock := full.clock + TypeDelay + PauseDelay);
    var empty := erasing.(text := "", clock := erasing.clock + Span(DeleteDelay, n));
    assert name[..0] == "" && name[..n] == name;
    TypingPhase(names, s, 0, full);
    PauseSegment(names, full, erasing);
    DeletingPhase(names, erasing, n, empty);
    AdvanceSegment(names, empty, t);
    RunThrough(names, s, Repeat(Tick, n), full, [Tick, PauseElapsed], erasing);
    RunThrough(names, s, Repeat(Tick, n) + [Tick, PauseElapsed], erasing, Repeat(Tick, n), empty);
    RunThrough(names, s, Repeat(Tick, n) + [Tick, PauseElapsed] + Repeat(Tick, n), empty, [Tick], t);
  }

  /**
   * Cycle closure: from the start of name i, typing it, the idle tick at the
   * full name, the pause, deleting it and the advance tick lead to the start
   * of name (i + 1) % |names|, CycleTime(|names[i]|) ms later.
   */
  lemma CycleCloses(names: seq<string>, s: Anim, i: nat)
    requires StartOf(names, s, i)
    ensures Run(names, s, CycleEvents(|names[i]|)) ==
      Some(s.(index := NextIndex(names, i), clock := s.clock + CycleTime(|names[i]|)))
  {
    CycleReach(names, s, s.(index := NextIndex(names, i), clock := s.clock + CycleTime(|names[i]|)));
  }

  /** With a single name the index wraps back to itself after one cycle. */
  lemma SingleNameWraps(names: seq<string>, s: Anim)
    requires |names| == 1 && StartOf(names, s, 0)
    ensures Run(names, s, CycleEvents(|names[0]|)) == Some(s.(clock := s.clock + CycleTime(|names[0]|)))
  {
    CycleReach(names, s, s.(clock := s.clock + CycleTime(|names[0]|)));
  }

  // ---------------------------------------------------------------------------
  // Rotation through all the names
  // ---------------------------------------------------------------------------

  /** The events of k consecutive cycles starting at name i. */
  function Rounds(names: seq<string>, i: nat, k: nat): seq<Event>
    requires i < |names|
    decreases k
  {
    if k == 0 then [] else CycleEvents(|names[i]|) + Rounds(names, NextIndex(names, i), k - 1)
  }

  /** The time k consecutive cycles starting at name i take. */
  function RoundsTime(names: seq<string>, i: nat, k: nat): nat
    requires i < |names|
    decreases k
  {
    if k == 0 then 0 else CycleTime(|names[i]|) + RoundsTime(names, NextIndex(names, i), k - 1)
  }

  /** Position j taken once round the list of names. */
  function Wrapped(names: seq<string>, j: nat): nat {
    if j < |names| then j else j - |names|
  }

  /** Within one lap, Wrapped is the source's `% names.length`. */
  lemma WrappedIsModulo(names: seq<string>, i: nat, k: nat)
    requires i < |names| && k <= |names|
    ensures Wrapped(names, i + k) == (i + k) % |names|
  {
    if i + k >= |names| {
      assert i + k == |names| + (i + k - |names|);
    }
  }

  /**
   * Up to one lap: k cycles from the start of name i lead to the start of
   * name i + k, wrapped once past the last name.
   */
  lemma {:induction false} RoundsReach(names: seq<string>, s: Anim, k: nat, t: Anim)
    requires StartOf(names, s, s.index) && k <= |names|
    requires t == s.(index := Wrapped(names, s.index + k),
                     clock := s.clock + RoundsTime(names, s.index, k))
    ensures Run(names, s, Rounds(names, s.index, k)) == Some(t)
    decreases k
  {
    if k == 0 {
      assert Rounds(names, s.index, k) == [];
    } else {
      var i := s.index;
      var mid := s.(index := NextIndex(names, i), clock := s.clock + CycleTime(|names[i]|));
      CycleReach(names, s, mid);
      RoundsReach(names, mid, k - 1, t);
      RunThrough(names, s, CycleEvents(|names[i]|), mid, Rounds(names, mid.index, k - 1), t);
    }
  }

  /**
   * Full cycle closure: one cycle per name brings the animator back to the
   * state it started from; only the clock has moved.
   */
  lemma FullRotationReturns(names: seq<string>, s: Anim)
    requires StartOf(names, s, s.index)
    ensures Run(names, s, Rounds(names, s.index, |names|)) ==
      Some(s.(clock := s.clock + RoundsTime(names, s.index, |names|)))
  {
    var t := s.(clock := s.clock + RoundsTime(names, s.index, |names|));
    assert t == s.(index := Wrapped(names, s.index + |names|),
                   clock := s.clock + RoundsTime(names, s.index, |names|));
    RoundsReach(names, s, |names|, t);
  }

  /** On the single name "ab" the text runs "", "a", "ab", (pause), "a", "" and typing starts over. */
  lemma SingleShortNameTrace(names: seq<string>, s: Anim)
    requires names == ["ab"] && StartOf(names, s, 0)
    ensures Run(names, s, [Tick]) == Some(s.(text := "a", clock := s.clock + 100))
    ensures Run(names, s, [Tick, Tick]) == Some(s.(text := "ab", clock := s.clock + 200))
    ensures Run(names, s, [Tick, Tick, Tick, PauseElapsed, Tick]) ==
      Some(s.(text := "a", deleting := true, clock := s.clock + 2350))
    ensures Run(names, s, CycleEvents(2)) == Some(s.(clock := s.clock + 2450))
  {
    var a := s.(text := "a", clock := s.clock + 100);
    var ab := s.(text := "ab", clock := s.clock + 200);
    var erasing := ab.(deleting := true, clock := s.clock + 2300);
    var one := erasing.(text := "a", clock := s.clock + 2350);
    assert names[0][..1] == "a" && names[0][..2] == "ab";
    TypingTickAddsNextChar(names, s);
    TypingTickAddsNextChar(names, a);
    RunThrough(names, s, [Tick], a, [Tick], ab);
    PauseSegment(names, ab, erasing);
    RunThrough(names, s, [Tick, Tick], ab, [Tick, PauseElapsed], erasing);
    DeletingTickDropsLastChar(names, erasing);
    RunThrough(names, s, [Tick, Tick, Tick, PauseElapsed], erasing, [Tick], one);
    CycleTimeValue(2);
    CycleReach(names, s, s.(clock := s.clock + 2450));
  }

  /** On two names the first cycle moves to the second name and the next one wraps back to the first. */
  lemma TwoNamesAlternate(names: seq<string>, s: Anim)
    requires names == ["x", "yz"] && StartOf(names, s, 0)
    ensures Run(names, s, CycleEvents(1)) == Some(s.(index := 1, clock := s.clock + CycleTime(1)))
    ensures Run(names, s, CycleEvents(1) + CycleEvents(2)) ==
      Some(s.(clock := s.clock + CycleTime(1) + CycleTime(2)))
  {
    var second := s.(index := 1, clock := s.clock + CycleTime(1));
    var back := s.(clock := s.clock + CycleTime(1) + CycleTime(2));
    CycleReach(names, s, second);
    CycleReach(names, second, back);
    RunThrough(names, s, CycleEvents(1), second, CycleEvents(2), back);
  }

  // ---------------------------------------------------------------------------
  // The cursor runs independently of the typing
  // ---------------------------------------------------------------------------

  /** Two blinks restore the cursor's visibility. */
  lemma ToggleTwiceRestores(s: Anim)
    ensures ToggleStep(ToggleStep(s)).cursor == s.cursor
    ensures ToggleStep(ToggleStep(s)) == s.(cursorClock := s.cursorClock + 2 * BlinkPeriod)
  {
  }

  /** A blink commutes with every other timer firing and does not arm or disarm any. */
  lemma ToggleCommutes(names: seq<string>, s: Anim, e: Event)
    requires Inv(names, s) && Enabled(s, e)
    ensures Inv(names, ToggleStep(s)) && Enabled(ToggleStep(s), e)
    ensures Step(names, ToggleStep(s), e) == ToggleStep(Step(names, s, e))
  {
  }

  /** The typing part of a state: everything but the cursor. */
  function TypingPart(s: Anim): Anim {
    s.(cursor := true, cursorClock := 0)
  }

  function WithoutToggles(events: seq<Event>): (r: seq<Event>)
    ensures CursorToggle !in r
    ensures |r| <= |events|
  {
    if events == [] then []
    else if events[0] == CursorToggle then WithoutToggles(events[1..])
    else [events[0]] + WithoutToggles(events[1..])
  }

  /** Dropping the blinks keeps every other firing, in order. */
  lemma {:induction false} WithoutTogglesAppend(a: seq<Event>, b: seq<Event>)
    ensures WithoutToggles(a + b) == WithoutToggles(a) + WithoutToggles(b)
    decreases |a|
  {
    if a == [] {
      assert a + b == b;
    } else {
      assert (a + b)[0] == a[0];
      assert (a + b)[1..] == a[1..] + b;
      WithoutTogglesAppend(a[1..], b);
    }
  }

  /** A sequence without blinks is left as it is. */
  lemma {:induction false} WithoutTogglesKeepsOthers(events: seq<Event>)
    requires CursorToggle !in events
    ensures WithoutToggles(events) == events
    decreases |events|
  {
    if events != [] {
      assert events == [events[0]] + events[1..];
      WithoutTogglesKeepsOthers(events[1..]);
    }
  }

  lemma StepIgnoresCursor(names: seq<string>, s: Anim, t: Anim, e: Event)
    requires Inv(names, s) && Inv(names, t) && TypingPart(s) == TypingPart(t)
    requires e != CursorToggle && Enabled(s, e)
    ensures Enabled(t, e) && TypingPart(Step(names, s, e)) == TypingPart(Step(names, t, e))
  {
    assert s.index == t.index && s.text == t.text && s.deleting == t.deleting;
    assert s.pausePending == t.pausePending && s.clock == t.clock;
  }

  /**
   * Blinks never disturb the typing: running a sequence of firings with or
   * without its blinks arms the same timers and shows the same text.
   */
  lemma {:induction false} TypingIgnoresBlinks(names: seq<string>, s: Anim, t: Anim, events: seq<Event>)
    requires Inv(names, s) && Inv(names, t) && TypingPart(s) == TypingPart(t)
    ensures Run(names, s, events).Some? <==> Run(names, t, WithoutToggles(events)).Some?
    ensures Run(names, s, events).Some? ==>
      TypingPart(Run(names, s, events).value) == TypingPart(Run(names, t, WithoutToggles(events)).value)
    decreases |events|
  {
    if events != [] {
      var e := events[0];
      if e == CursorToggle {
        TypingIgnoresBlinks(names, ToggleStep(s), t, events[1..]);
      } else if Enabled(s, e) {
        StepIgnoresCursor(names, s, t, e);
        assert ([e] + WithoutToggles(events[1..]))[1..] == WithoutToggles(events[1..]);
        TypingIgnoresBlinks(names, Step(names, s, e), Step(names, t, e), events[1..]);
      } else {
        assert TypingPart(s).pausePending == TypingPart(t).pausePending;
      }
    }
  }

  /**
   * The component instance: its four pieces of React state, the armed pause
   * and the two timer clocks, updated in place as the timers fire.
   */
  class Animator {
    const names: seq<string>
    var currentIndex: nat
    var currentText: string
    var isDeleting: bool
    var showCursor: bool
    var pausePending: bool
    var clock: nat
    var cursorClock: nat

    /** The instance's state as a value of the pure model. */
    function State(): Anim
      reads this
    {
      Anim(currentIndex, currentText, isDeleting, pausePending, clock, showCursor, cursorClock)
    }

    predicate Valid()
      reads this
    {
      Inv(names, State())
    }

    /** Mounting: index 0, empty text, typing, cursor shown (app/page.tsx:135-138). */
    constructor (names: seq<string>)
      requires |names| > 0
      ensures this.names == names
      ensures State() == Initial() && Valid()
    {
      this.names := names;
      currentIndex := 0;
      currentText := "";
      isDeleting := false;
      showCursor := true;
      pausePending := false;
      clock := 0;
      cursorClock := 0;
    }

    /** The typing timeout fires (app/page.tsx:144-165). */
    method Tick()
      requires Valid() && !pausePending
      modifies this
      ensures State() == TickStep(names, old(State())) && Valid()
    {
      var currentName := names[currentIndex];
      clock := clock + TickDelay(isDeleting);
      if !isDeleting && currentText == currentName {
        pausePending := true;
        return;
      }
      if isDeleting && currentText == "" {
        isDeleting := false;
        currentIndex := NextIndex(names, currentIndex);
        return;
      }
      if isDeleting {
        currentText := SubstringTo(currentName, |currentText| - 1);
      } else {
        currentText := SubstringTo(currentName, |currentText| + 1);
      }
    }

    /** The pause timeout armed by a full-text tick fires (app/page.tsx:149). */
    method PauseElapsed()
      requires Valid() && pausePending
      modifies this
      ensures State() == PauseStep(names, old(State())) && Valid()
    {
      clock := clock + PauseDuration(isDeleting);
      isDeleting := true;
      pausePending := false;
    }

    /** The blink interval fires (app/page.tsx:171-174). */
    method ToggleCursor()
      requires Valid()
      modifies this
      ensures State() == ToggleStep(old(State())) && Valid()
    {
      showCursor := !showCursor;
      cursorClock := cursorClock + BlinkPeriod;
    }
  }
}
