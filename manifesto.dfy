/**
 * The manifesto panel: its eight lines appear one per typewriter tick, a reader signs at
 * most once, and the signature is remembered in the browser's storage so that a later
 * visit shows the panel signed and fully revealed. The storage is modelled as a map from
 * keys to the strings `getItem` returns; the 800 ms tick timer as a separate tick step.
 */
module ManifestoComponent {

  const MANIFESTO_TEXT: seq<string> := [
    "我们拒绝成为分数的奴隶。",
    "我们拒绝用健康换取毫无意义的排名。",
    "在这台巨大的绞肉机停止转动之前，",
    "我们发誓：",
    "哪怕在深夜，也要仰望星空。",
    "哪怕被压弯，决不被折断。",
    "我不止是一个学号，我是鲜活的生命。",
    "活着，清醒地活着，就是最大的反抗。"
  ]

  /** The signature counter starts from this fixed seed on every visit. */
  const SIGNED_SEED: int := 14892

  const STORAGE_KEY: string := "dawn_manifesto_signed"

  datatype Panel = Panel(
    signedCount: int,
    hasSigned: bool,
    visibleLines: nat,
    storage: map<string, string>)

  /** A fresh mount over whatever the storage already holds. */
  function Initial(storage: map<string, string>): Panel
  {
    Panel(SIGNED_SEED, false, 0, storage)
  }

  /** `if (signed)` on the value of `getItem`: absent (null) and empty are both falsy. */
  predicate StoredFlag(storage: map<string, string>)
  {
    STORAGE_KEY in storage && storage[STORAGE_KEY] != ""
  }

  /** The load effect: a stored flag marks the panel signed and reveals every line. */
  function LoadStored(m: Panel): Panel
  {
    if StoredFlag(m.storage) then m.(hasSigned := true, visibleLines := |MANIFESTO_TEXT|) else m
  }

  /** The typewriter effect: a tick is only scheduled while some line is still hidden. */
  function Tick(m: Panel): Panel
  {
    if m.visibleLines < |MANIFESTO_TEXT| then m.(visibleLines := m.visibleLines + 1) else m
  }

  /** `handleSign`. */
  function Sign(m: Panel): Panel
  {
    if m.hasSigned then m
    else m.(hasSigned := true, signedCount := m.signedCount + 1, storage := m.storage[STORAGE_KEY := "true"])
  }

  /** Line `index` is drawn visible exactly when `index < visibleLines`. */
  function LineVisible(m: Panel, index: nat): (visible: bool)
    requires index < |MANIFESTO_TEXT|
    ensures visible ==> m.visibleLines > 0
    ensures m.visibleLines >= |MANIFESTO_TEXT| ==> visible
    ensures m.visibleLines == 0 ==> !visible
  {
    index < m.visibleLines
  }

  /** Signing when signed changes nothing; a first signing adds one and writes the flag. */
  lemma SignStep(m: Panel)
    ensures m.hasSigned ==> Sign(m) == m
    ensures !m.hasSigned ==> Sign(m).hasSigned && Sign(m).signedCount == m.signedCount + 1
    ensures !m.hasSigned ==> StoredFlag(Sign(m).storage) && Sign(m).visibleLines == m.visibleLines
    ensures Sign(Sign(m)) == Sign(m)
  {
  }

  /** Loading a stored flag signs and reveals everything but leaves the counter alone. */
  lemma LoadStep(m: Panel)
    ensures StoredFlag(m.storage) ==> LoadStored(m).hasSigned && LoadStored(m).visibleLines == |MANIFESTO_TEXT|
    ensures LoadStored(m).signedCount == m.signedCount
  {
  }

  datatype PanelEvent = Loaded | Ticked | SignClicked

  function Step(m: Panel, e: PanelEvent): Panel
  {
    match e
    case Loaded => LoadStored(m)
    case Ticked => Tick(m)
    case SignClicked => Sign(m)
  }

  function Run(m: Panel, events: seq<PanelEvent>): Panel
    decreases |events|
  {
    if events == [] then m else Run(Step(m, events[0]), events[1..])
  }

  /** What every reachable panel satisfies: at most one signature counted, at most eight lines. */
  ghost predicate Inv(m: Panel)
  {
    && m.visibleLines <= |MANIFESTO_TEXT|
    && (m.signedCount == SIGNED_SEED || (m.signedCount == SIGNED_SEED + 1 && m.hasSigned && StoredFlag(m.storage)))
  }

  lemma {:induction false} RunKeepsInv(m: Panel, events: seq<PanelEvent>)
    requires Inv(m)
    ensures Inv(Run(m, events))
    decreases |events|
  {
    if events != [] {
      RunKeepsInv(Step(m, events[0]), events[1..]);
    }
  }

  /**
   * However often the reader clicks sign, and whatever the timers and the load effect do,
   * the counter rises at most one above its seed, and never more than eight lines show.
   */
  lemma SignatureCountedOnce(storage: map<string, string>, events: seq<PanelEvent>)
    ensures SIGNED_SEED <= Run(Initial(storage), events).signedCount <= SIGNED_SEED + 1
    ensures Run(Initial(storage), events).visibleLines <= |MANIFESTO_TEXT|
  {
    RunKeepsInv(Initial(storage), events);
  }

  function Ticks(n: nat): (events: seq<PanelEvent>)
    ensures |events| == n && forall i :: 0 <= i < n ==> events[i] == Ticked
  {
    seq(n, _ => Ticked)
  }

  /** The typewriter reveals one line per tick until all eight are shown, then stops. */
  lemma {:induction false} TypewriterReveal(m: Panel, n: nat)
    requires m.visibleLines <= |MANIFESTO_TEXT|
    ensures Run(m, Ticks(n)).visibleLines ==
      if m.visibleLines + n < |MANIFESTO_TEXT| then m.visibleLines + n else |MANIFESTO_TEXT|
    ensures Run(m, Ticks(n)).signedCount == m.signedCount
    decreases n
  {
    if n > 0 {
      assert Ticks(n)[1..] == Ticks(n - 1);
      TypewriterReveal(Tick(m), n - 1);
    }
  }

  /**
   * Starting from no lines, after `n` ticks exactly the first `n` lines are drawn visible
   * (all eight once `n` reaches eight): the lines appear in order, one per tick.
   */
  lemma LinesShownAfterTicks(m: Panel, n: nat, index: nat)
    requires m.visibleLines == 0 && index < |MANIFESTO_TEXT|
    ensures LineVisible(Run(m, Ticks(n)), index) <==> index < n
  {
    TypewriterReveal(m, n);
  }

  /**
   * After a signing, a new visit over the same storage loads the flag: signed and fully
   * revealed, while the counter is back at its seed (the count itself is not stored).
   */
  lemma RevisitAfterSigning(storage: map<string, string>)
    ensures var signed := Sign(Initial(storage));
      var revisit := LoadStored(Initial(signed.storage));
      revisit.hasSigned && revisit.visibleLines == |MANIFESTO_TEXT| && revisit.signedCount == SIGNED_SEED
  {
  }

  /** The Manifesto component's state, with the browser storage it reads and writes. */
  class Manifesto {
    var signedCount: int
    var hasSigned: bool
    var visibleLines: nat
    var storage: map<string, string>

    function Model(): Panel
      reads this
    {
      Panel(signedCount, hasSigned, visibleLines, storage)
    }

    constructor(storage: map<string, string>)
      ensures Model() == Initial(storage)
    {
      signedCount := SIGNED_SEED;
      hasSigned := false;
      visibleLines := 0;
      this.storage := storage;
    }

    /** The mount-time effect reading `dawn_manifesto_signed`. */
    method LoadStoredFlag()
      modifies this
      ensures Model() == LoadStored(old(Model()))
    {
      if STORAGE_KEY in storage && storage[STORAGE_KEY] != "" {
        hasSigned := true;
        visibleLines := |MANIFESTO_TEXT|;
      }
    }

    /** One typewriter timer firing. */
    method TypewriterTick()
      modifies this
      ensures Model() == Tick(old(Model()))
    {
      if visibleLines < |MANIFESTO_TEXT| {
        visibleLines := visibleLines + 1;
      }
    }

    /** A click on the sign button (the vibration is not modelled). */
    method HandleSign()
      modifies this
      ensures Model() == Sign(old(Model()))
    {
      if hasSigned {
        return;
      }
      hasSigned := true;
      signedCount := signedCount + 1;
      storage := storage[STORAGE_KEY := "true"];
    }
  }
}
