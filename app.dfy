/**
 * The page shell: two flags decide whether scrolling is locked (while the iron house holds
 * the reader) and whether the sections after the iron house exist at all (once it is
 * broken). The iron house's engage and break callbacks are independent operations here:
 * `App` hands over `onEngage`, but the iron house component only ever calls `onBreak`.
 */
module Site {

  datatype Section =
    | Hero
    | Timeline
    | IronHouseSection
    | DataVisuals
    | Manifesto
    | AIListener
    | ShareCard
    | Guestbook
    | Footer

  /** The sections rendered on every visit, in page order. */
  const ALWAYS_SHOWN: seq<Section> := [Hero, Timeline, IronHouseSection]

  /** The sections rendered only after awakening, in page order. */
  const AFTER_AWAKENING: seq<Section> := [DataVisuals, Manifesto, AIListener, ShareCard, Guestbook, Footer]

  datatype Page = Page(isAwakened: bool, isIronhouseLocked: bool)

  const INITIAL: Page := Page(false, false)

  /** `handleIronhouseEngage`: lock the page unless the reader is already awake. */
  function Engage(p: Page): Page
  {
    if p.isAwakened then p else p.(isIronhouseLocked := true)
  }

  /** `handleIronhouseBreak`: unlock and awaken. */
  function Break(p: Page): Page
  {
    p.(isIronhouseLocked := false, isAwakened := true)
  }

  /** `isScrollLocked`: derived from the lock flag alone. */
  predicate IsScrollLocked(p: Page)
  {
    p.isIronhouseLocked
  }

  /** The sections the page renders, in order. */
  function RenderedSections(p: Page): (r: seq<Section>)
    ensures |ALWAYS_SHOWN| <= |r| && r[..|ALWAYS_SHOWN|] == ALWAYS_SHOWN
    ensures forall x :: x in AFTER_AWAKENING ==> (x in r <==> p.isAwakened)
  {
    ALWAYS_SHOWN + if p.isAwakened then AFTER_AWAKENING else []
  }

  /** Engage locks only a page not yet awake; break always unlocks and awakens. */
  lemma EngageThenBreak(p: Page)
    ensures p.isAwakened ==> Engage(p) == p
    ensures !p.isAwakened ==> IsScrollLocked(Engage(p)) && !Engage(p).isAwakened
    ensures Break(p) == Page(true, false) && !IsScrollLocked(Break(p))
  {
  }

  datatype PageEvent = EngageCalled | BreakCalled

  function Step(p: Page, e: PageEvent): Page
  {
    match e
    case EngageCalled => Engage(p)
    case BreakCalled => Break(p)
  }

  function Run(p: Page, events: seq<PageEvent>): Page
    decreases |events|
  {
    if events == [] then p else Run(Step(p, events[0]), events[1..])
  }

  /** Once awake, and so unlocked, no callback changes the page any more. */
  lemma {:induction false} AwakeIsFinal(p: Page, events: seq<PageEvent>)
    requires p.isAwakened && !p.isIronhouseLocked
    ensures Run(p, events) == p
    decreases |events|
  {
    if events != [] {
      AwakeIsFinal(Step(p, events[0]), events[1..]);
    }
  }

  /**
   * From the initial page: the page is awake exactly when a break has been reported, and it
   * is scroll-locked exactly when an engage came and no break yet.
   */
  lemma {:induction false} RunFromStart(p: Page, events: seq<PageEvent>)
    requires !p.isAwakened
    ensures Run(p, events).isAwakened <==> BreakCalled in events
    ensures IsScrollLocked(Run(p, events)) <==>
      BreakCalled !in events && (p.isIronhouseLocked || EngageCalled in events)
    decreases |events|
  {
    if events != [] {
      if events[0] == BreakCalled {
        AwakeIsFinal(Break(p), events[1..]);
      } else {
        RunFromStart(Engage(p), events[1..]);
        assert events == [events[0]] + events[1..];
      }
    }
  }

  /** Once awake the page can never be locked again, whatever callbacks follow. */
  lemma NeverLockedAfterAwakening(events: seq<PageEvent>)
    ensures Run(INITIAL, events).isAwakened ==> !IsScrollLocked(Run(INITIAL, events))
  {
    RunFromStart(INITIAL, events);
  }

  /** Awake pages are never locked: breaking the iron house unlocks, and engaging an awake page does nothing. */
  predicate Consistent(p: Page)
  {
    p.isAwakened ==> !p.isIronhouseLocked
  }

  /** The App component's state. */
  class App {
    var isAwakened: bool
    var isIronhouseLocked: bool

    function Model(): Page
      reads this
    {
      Page(isAwakened, isIronhouseLocked)
    }

    ghost predicate Valid()
      reads this
    {
      Consistent(Model())
    }

    constructor()
      ensures Model() == INITIAL && Valid()
    {
      isAwakened := false;
      isIronhouseLocked := false;
    }

    method HandleIronhouseEngage()
      requires Valid()
      modifies this
      ensures Model() == Engage(old(Model())) && Valid()
    {
      if isAwakened {
        return;
      }
      isIronhouseLocked := true;
    }

    method HandleIronhouseBreak()
      requires Valid()
      modifies this
      ensures Model() == Break(old(Model())) && Valid()
    {
      isIronhouseLocked := false;
      isAwakened := true;
    }

    /**
     * Scrolling is locked exactly when the iron-house lock flag is set, and never once the
     * reader is awake.
     */
    function ScrollLocked(): (locked: bool)
      requires Valid()
      reads this
      ensures locked <==> isIronhouseLocked
      ensures locked ==> !isAwakened
    {
      IsScrollLocked(Model())
    }

    /** The later sections are rendered exactly when awake. */
    function Sections(): (r: seq<Section>)
      reads this
      ensures forall x :: x in AFTER_AWAKENING ==> (x in r <==> isAwakened)
    {
      RenderedSections(Model())
    }
  }
}
