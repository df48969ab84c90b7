/**
 * The "iron house" strike surface: every click on the box counts a hit, moves the quoted
 * dialogue forward one stage per three hits, and from the fifteenth hit on schedules a
 * break that fires 500 ms later, reveals the dawn scene and tells the page through
 * `onBreak`. The delayed break is modelled as a count of pending timers and a separate
 * step that fires one of them.
 */
module IronHouseComponent {
  import opened Wrappers

  datatype Dialogue = Dialogue(luxun: string, reality: string)

  /** The quotation pairs, shown one stage at a time. */
  const DIALOGUES: seq<Dialogue> := [
    Dialogue("从来如此，便对么？", "所有人都补课，我就得补，这真的对吗？"),
    Dialogue("救救孩子……", "谁来救救被题海淹没的我们？"),
    Dialogue("愿中国青年都摆脱冷气，只是向上走。", "我们不想做冷漠的刷题机器，我们要热气腾腾地活着。"),
    Dialogue("真的猛士，敢于直面惨淡的人生。", "哪怕在分数至上的世界里，我也要守住我的灵魂。"),
    Dialogue("不在沉默中爆发，就在沉默中灭亡。", "我不再沉默，我要发出我的声音。")
  ]

  /** Hits per dialogue stage. */
  const HITS_PER_STAGE: nat := 3

  /** From this many hits on, every strike schedules a break. */
  const BREAK_HITS: nat := 15

  /** `Math.min(Math.floor(hits / 3), DIALOGUES.length - 1)`: the stage reached, capped at the last pair. */
  function DialogueIndex(hits: nat): (d: nat)
    ensures d < |DIALOGUES|
    ensures d * HITS_PER_STAGE <= hits
    ensures d == |DIALOGUES| - 1 || hits < (d + 1) * HITS_PER_STAGE
  {
    var stage := hits / HITS_PER_STAGE;
    if stage < |DIALOGUES| - 1 then stage else |DIALOGUES| - 1
  }

  lemma DialogueIndexMonotone(a: nat, b: nat)
    requires a <= b
    ensures DialogueIndex(a) <= DialogueIndex(b)
  {
    if DialogueIndex(b) < |DIALOGUES| - 1 {
      assert a < (DialogueIndex(b) + 1) * HITS_PER_STAGE;
    }
  }

  /**
   * Width of the progress bar in percent, `Math.min((hits / 15) * 100, 100)`, over the
   * reals: it grows with the hits, never passes 100, and is full from 15 hits on.
   */
  function ProgressPercent(hits: nat): (p: real)
    ensures 0.0 <= p <= 100.0
    ensures hits >= BREAK_HITS ==> p == 100.0
    ensures hits < BREAK_HITS ==> p < 100.0 && p * (BREAK_HITS as real) == (hits as real) * 100.0
  {
    var raw := (hits as real / BREAK_HITS as real) * 100.0;
    if raw < 100.0 then raw else 100.0
  }

  /**
   * The component's state. `currentDialogue` is -1 until the first strike;
   * `pendingBreaks` counts the 500 ms break timers not yet fired, `firedBreaks` those
   * that fired, and `onBreakCalls` how often `onBreak` ran (it only runs when supplied).
   */
  datatype Surface = Surface(
    hits: nat,
    currentDialogue: int,
    isBroken: bool,
    pendingBreaks: nat,
    firedBreaks: nat,
    onBreakCalls: nat,
    hasOnBreak: bool)

  function Initial(hasOnBreak: bool): Surface
  {
    Surface(0, -1, false, 0, 0, 0, hasOnBreak)
  }

  /** `handleStrike` as a transition. */
  function Strike(s: Surface): Surface
  {
    if s.isBroken then s
    else
      var newHits := s.hits + 1;
      var dialogueIndex := DialogueIndex(newHits);
      s.(hits := newHits,
         currentDialogue := if dialogueIndex != s.currentDialogue then dialogueIndex else s.currentDialogue,
         pendingBreaks := if newHits >= BREAK_HITS then s.pendingBreaks + 1 else s.pendingBreaks)
  }

  /** One scheduled break timer fires: `setIsBroken(true); if (onBreak) onBreak();`. */
  function FireBreak(s: Surface): Surface
    requires s.pendingBreaks > 0
  {
    s.(isBroken := true,
       pendingBreaks := s.pendingBreaks - 1,
       firedBreaks := s.firedBreaks + 1,
       onBreakCalls := if s.hasOnBreak then s.onBreakCalls + 1 else s.onBreakCalls)
  }

  /** Number of break timers the strikes so far have scheduled: one per strike from the fifteenth on. */
  function BreaksScheduled(hits: nat): nat
  {
    if hits >= BREAK_HITS then hits - BREAK_HITS + 1 else 0
  }

  /** What holds in every state the component can reach. */
  ghost predicate Inv(s: Surface)
  {
    && (s.hits == 0 ==> s.currentDialogue == -1)
    && (s.hits > 0 ==> s.currentDialogue == DialogueIndex(s.hits))
    && s.pendingBreaks + s.firedBreaks == BreaksScheduled(s.hits)
    && (s.isBroken <==> s.firedBreaks > 0)
    && s.onBreakCalls == (if s.hasOnBreak then s.firedBreaks else 0)
  }

  /**
   * The quotation pair the overlay shows: one exists after the first strike until the
   * break, and `DIALOGUES[currentDialogue]` is then always in bounds.
   */
  function Overlay(s: Surface): (r: Option<Dialogue>)
    requires Inv(s)
    ensures r.Some? <==> s.hits > 0 && !s.isBroken
    ensures r.Some? ==> r.value in DIALOGUES
  {
    if s.currentDialogue >= 0 && !s.isBroken then Some(DIALOGUES[s.currentDialogue]) else None
  }

  /** The inputs the component reacts to: a click, or one pending break timer firing. */
  datatype Event = Click | TimerFires

  /** One event; a timer can only fire when one is pending. */
  function Step(s: Surface, e: Event): Surface
  {
    match e
    case Click => Strike(s)
    case TimerFires => if s.pendingBreaks > 0 then FireBreak(s) else s
  }

  /** The state after a sequence of events. */
  function Run(s: Surface, events: seq<Event>): Surface
    decreases |events|
  {
    if events == [] then s else Run(Step(s, events[0]), events[1..])
  }

  function Clicks(n: nat): (events: seq<Event>)
    ensures |events| == n && forall i :: 0 <= i < n ==> events[i] == Click
  {
    seq(n, _ => Click)
  }

  lemma InitialInv(hasOnBreak: bool)
    ensures Inv(Initial(hasOnBreak))
  {
  }

  /** A strike while broken changes nothing; otherwise it adds exactly one hit and keeps the invariant. */
  lemma StrikeStep(s: Surface)
    requires Inv(s)
    ensures s.isBroken ==> Strike(s) == s
    ensures !s.isBroken ==> Strike(s).hits == s.hits + 1 && Inv(Strike(s))
    ensures !s.isBroken ==> Strike(s).currentDialogue == DialogueIndex(s.hits + 1)
  {
  }

  /** Firing a break sets `isBroken`, calls `onBreak` when supplied, and keeps the invariant. */
  lemma FireBreakStep(s: Surface)
    requires Inv(s) && s.pendingBreaks > 0
    ensures FireBreak(s).isBroken && Inv(FireBreak(s))
    ensures FireBreak(s).onBreakCalls == s.onBreakCalls + (if s.hasOnBreak then 1 else 0)
    ensures FireBreak(s).hits == s.hits
  {
  }

  lemma {:induction false} RunKeepsInv(s: Surface, events: seq<Event>)
    requires Inv(s)
    ensures Inv(Run(s, events))
    decreases |events|
  {
    if events != [] {
      RunKeepsInv(Step(s, events[0]), events[1..]);
    }
  }

  /** The dialogue stage never moves backwards, whatever the user and the timers do. */
  lemma {:induction false} DialogueNeverDecreases(s: Surface, events: seq<Event>)
    requires Inv(s)
    ensures Run(s, events).currentDialogue >= s.currentDialogue
    decreases |events|
  {
    if events != [] {
      if events[0] == Click && !s.isBroken && s.hits > 0 {
        DialogueIndexMonotone(s.hits, s.hits + 1);
      }
      DialogueNeverDecreases(Step(s, events[0]), events[1..]);
    }
  }

  /** Once broken, the surface stays broken and its hits and dialogue are frozen. */
  lemma {:induction false} BrokenIsFinal(s: Surface, events: seq<Event>)
    requires s.isBroken
    ensures Run(s, events).isBroken
    ensures Run(s, events).hits == s.hits
    ensures Run(s, events).currentDialogue == s.currentDialogue
    decreases |events|
  {
    if events != [] {
      BrokenIsFinal(Step(s, events[0]), events[1..]);
    }
  }

  /**
   * Below the threshold nothing is scheduled: after n < 15 clicks from the start there are
   * n hits, the dialogue is at stage n/3 (or -1 for no click), and no break is pending.
   */
  lemma {:induction false} ClicksBelowThreshold(hasOnBreak: bool, n: nat)
    requires n < BREAK_HITS
    ensures Run(Initial(hasOnBreak), Clicks(n)) ==
      Surface(n, if n == 0 then -1 else DialogueIndex(n), false, 0, 0, 0, hasOnBreak)
  {
    ClicksFrom(Initial(hasOnBreak), n);
  }

  lemma {:induction false} ClicksFrom(s: Surface, n: nat)
    requires Inv(s) && !s.isBroken && s.pendingBreaks == 0 && s.hits + n < BREAK_HITS
    ensures Run(s, Clicks(n)) ==
      s.(hits := s.hits + n, currentDialogue := if s.hits + n == 0 then -1 else DialogueIndex(s.hits + n))
    decreases n
  {
    if n > 0 {
      assert Clicks(n)[1..] == Clicks(n - 1);
      ClicksFrom(Strike(s), n - 1);
    }
  }

  /**
   * The fifteenth click schedules exactly one break; when it fires the surface is broken
   * and `onBreak` has run once.
   */
  lemma FifteenClicksThenBreak(hasOnBreak: bool)
    ensures Run(Initial(hasOnBreak), Clicks(BREAK_HITS)).pendingBreaks == 1
    ensures !Run(Initial(hasOnBreak), Clicks(BREAK_HITS)).isBroken
    ensures Run(Initial(hasOnBreak), Clicks(BREAK_HITS) + [TimerFires]).isBroken
    ensures Run(Initial(hasOnBreak), Clicks(BREAK_HITS) + [TimerFires]).onBreakCalls ==
      (if hasOnBreak then 1 else 0)
  {
    var s14 := Run(Initial(hasOnBreak), Clicks(BREAK_HITS - 1));
    ClicksBelowThreshold(hasOnBreak, BREAK_HITS - 1);
    RunAppend(Initial(hasOnBreak), Clicks(BREAK_HITS - 1), [Click]);
    assert Clicks(BREAK_HITS - 1) + [Click] == Clicks(BREAK_HITS);
    RunAppend(Initial(hasOnBreak), Clicks(BREAK_HITS), [TimerFires]);
  }

  /**
   * A second click inside the 500 ms window schedules a second break, so `onBreak` runs
   * twice: the callback is not guaranteed to run only once.
   */
  lemma OnBreakCanRunTwice()
    ensures Run(Initial(true), Clicks(BREAK_HITS + 1) + [TimerFires, TimerFires]).onBreakCalls == 2
    ensures Run(Initial(true), Clicks(BREAK_HITS + 1)).hits == BREAK_HITS + 1
  {
    ClicksBelowThreshold(true, BREAK_HITS - 1);
    RunAppend(Initial(true), Clicks(BREAK_HITS - 1), [Click, Click]);
    assert Clicks(BREAK_HITS - 1) + [Click, Click] == Clicks(BREAK_HITS + 1);
    RunAppend(Initial(true), Clicks(BREAK_HITS + 1), [TimerFires, TimerFires]);
  }

  lemma {:induction false} RunAppend(s: Surface, a: seq<Event>, b: seq<Event>)
    ensures Run(s, a + b) == Run(Run(s, a), b)
    decreases |a|
  {
    if a != [] {
      assert (a + b)[1..] == a[1..] + b;
      RunAppend(Step(s, a[0]), a[1..], b);
    } else {
      assert a + b == b;
    }
  }

  /** The component instance, with the state fields `handleStrike` and its timer update. */
  class IronHouse {
    const hasOnBreak: bool
    var hits: nat
    var currentDialogue: int
    var isBroken: bool
    var pendingBreaks: nat
    var firedBreaks: nat
    var onBreakCalls: nat

    function Model(): Surface
      reads this
    {
      Surface(hits, currentDialogue, isBroken, pendingBreaks, firedBreaks, onBreakCalls, hasOnBreak)
    }

    constructor(hasOnBreak: bool)
      ensures Model() == Initial(hasOnBreak)
    {
      this.hasOnBreak := hasOnBreak;
      hits := 0;
      currentDialogue := -1;
      isBroken := false;
      pendingBreaks := 0;
      firedBreaks := 0;
      onBreakCalls := 0;
    }

    /** A click on the box (the crack drawing, shake and vibration are not modelled). */
    method HandleStrike()
      modifies this
      ensures Model() == Strike(old(Model()))
    {
      if isBroken {
        return;
      }
      var newHits := hits + 1;
      hits := newHits;
      var dialogueIndex := DialogueIndex(newHits);
      if dialogueIndex != currentDialogue {
        currentDialogue := dialogueIndex;
      }
      if newHits >= BREAK_HITS {
        pendingBreaks := pendingBreaks + 1;
      }
    }

    /** One pending 500 ms break timer fires. */
    method FireBreakTimer()
      requires pendingBreaks > 0
      modifies this
      ensures Model() == FireBreak(old(Model()))
    {
      isBroken := true;
      pendingBreaks := pendingBreaks - 1;
      firedBreaks := firedBreaks + 1;
      if hasOnBreak {
        onBreakCalls := onBreakCalls + 1;
      }
    }

    /** The progress bar's width as drawn. */
    function Progress(): (p: real)
      reads this
      ensures p <= 100.0
      ensures hits >= BREAK_HITS ==> p == 100.0
    {
      ProgressPercent(hits)
    }
  }
}
