/** The violation state of the detection loop: the operator's three exclusive
    manual scenarios, the key codes that switch them, the precedence that
    picks the frame's violation type, and the choice of the offender. */
module Violations {
  import opened Wrappers

  /** The three manual scenario flags the loop keeps between frames. */
  datatype Flags = Flags(littering: bool, kickboard: bool, flyer: bool)

  const Idle := Flags(false, false, false)

  predicate Any(f: Flags) {
    f.littering || f.kickboard || f.flyer
  }

  predicate AtMostOne(f: Flags) {
    (f.littering ==> !f.kickboard && !f.flyer) && (f.kickboard ==> !f.flyer)
  }

  // Key codes, as `ord` of the operator's keys.
  const KeyQuit := 'q' as int
  const KeyReset := 'u' as int
  const KeyLittering := 'l' as int
  const KeyKickboard := 'k' as int
  const KeyFlyer := 'j' as int

  /** An announcement request handed to the announcer. */
  datatype Cue = CueUndo | CueLittering | CuePmViolation | CueFlyer | CueSmoking

  /** The scenario name the announcer receives for a cue. */
  function Scenario(c: Cue): string {
    match c
    case CueUndo => "UNDO"
    case CueLittering => "LITTERING"
    case CuePmViolation => "PM_VIOLATION"
    case CueFlyer => "FLYER"
    case CueSmoking => "SMOKING"
  }

  /** `waitKey(1) & 0xFF`: the low byte of the raw key value (255 when no key
      was pressed, since waitKey then gives -1). */
  function KeyCode(raw: int): (code: int)
    ensures 0 <= code < 256
    ensures (raw - code) % 256 == 0
    ensures 0 <= raw < 256 ==> code == raw
    ensures raw == -1 ==> code == 255
  {
    raw % 256
  }

  predicate IsCommand(code: int) {
    code == KeyReset || code == KeyLittering || code == KeyKickboard || code == KeyFlyer
  }

  /** The flags after one key code: reset clears all three, each scenario key
      sets its own flag and clears the other two, any other code changes
      nothing. */
  function ApplyKey(f: Flags, code: int): (r: Flags)
    ensures code == KeyReset ==> !Any(r)
    ensures code == KeyLittering ==> r.littering && !r.kickboard && !r.flyer
    ensures code == KeyKickboard ==> !r.littering && r.kickboard && !r.flyer
    ensures code == KeyFlyer ==> !r.littering && !r.kickboard && r.flyer
    ensures !IsCommand(code) ==> r == f
    ensures IsCommand(code) || AtMostOne(f) ==> AtMostOne(r)
  {
    if code == KeyReset then Idle
    else if code == KeyLittering then Flags(true, false, false)
    else if code == KeyKickboard then Flags(false, true, false)
    else if code == KeyFlyer then Flags(false, false, true)
    else f
  }

  /** The announcement a key code requests, if any. */
  function CommandCues(code: int): (r: seq<Cue>)
    ensures |r| <= 1
    ensures r != [] <==> IsCommand(code)
    ensures code == KeyReset ==> r == [CueUndo] && Scenario(r[0]) == "UNDO"
    ensures code == KeyLittering ==> r == [CueLittering] && Scenario(r[0]) == "LITTERING"
    ensures code == KeyKickboard ==> r == [CuePmViolation] && Scenario(r[0]) == "PM_VIOLATION"
    ensures code == KeyFlyer ==> r == [CueFlyer] && Scenario(r[0]) == "FLYER"
    ensures CueSmoking !in r
  {
    if code == KeyReset then [CueUndo]
    else if code == KeyLittering then [CueLittering]
    else if code == KeyKickboard then [CuePmViolation]
    else if code == KeyFlyer then [CueFlyer]
    else []
  }

  // ---------------------------------------------------------------------------
  // Violation type and precedence

  datatype ViolationType = FlyerPosting | IllegalParking | Littering | Smoking

  /** The type label stored in the status snapshot and in alert records. */
  function Label(t: ViolationType): string {
    match t
    case FlyerPosting => "전단지 부착"
    case IllegalParking => "불법 주차"
    case Littering => "무단 투기"
    case Smoking => "흡연 감지"
  }

  function LabelOf(u: Option<ViolationType>): Option<string> {
    if u.Some? then Some(Label(u.value)) else None
  }

  /** Distinct types carry distinct labels, so a stored label (or its absence)
      names exactly one frame outcome. */
  lemma LabelsDistinct(u: Option<ViolationType>, v: Option<ViolationType>)
    requires u != v
    ensures LabelOf(u) != LabelOf(v)
  {
  }

  /** Whether condition `t` holds this frame. */
  predicate Holds(f: Flags, smoking: bool, t: ViolationType) {
    match t
    case FlyerPosting => f.flyer
    case IllegalParking => f.kickboard
    case Littering => f.littering
    case Smoking => smoking
  }

  /** Display precedence: posting over parking over littering over smoking. */
  function Rank(t: ViolationType): nat {
    match t
    case FlyerPosting => 4
    case IllegalParking => 3
    case Littering => 2
    case Smoking => 1
  }

  /** The frame's violation type: the highest-ranked condition that holds, or
      None when no condition holds. */
  function UpdateType(f: Flags, smoking: bool): (r: Option<ViolationType>)
    ensures r.None? <==> !Any(f) && !smoking
    ensures r.Some? ==> Holds(f, smoking, r.value)
    ensures r.Some? ==> forall t :: Holds(f, smoking, t) ==> Rank(t) <= Rank(r.value)
  {
    if f.flyer then Some(FlyerPosting)
    else if f.kickboard then Some(IllegalParking)
    else if f.littering then Some(Littering)
    else if smoking then Some(Smoking)
    else None
  }

  const NormalBanner := "NORMAL - Monitoring"

  /** The top status-bar text for the frame's violation type. */
  function Banner(u: Option<ViolationType>): (r: string)
    ensures r == NormalBanner <==> u.None?
  {
    match u
    case None => NormalBanner
    case Some(FlyerPosting) => "VIOLATION: ILLEGAL POSTING"
    case Some(IllegalParking) => "WARNING: PM VIOLATION"
    case Some(Littering) => "ALERT: ILLEGAL DUMPING"
    case Some(Smoking) => "WARNING: SMOKING DETECTED"
  }

  /** The event flag that switches redaction on. */
  function EventActive(f: Flags, smoking: bool): (r: bool)
    ensures r <==> UpdateType(f, smoking).Some?
  {
    smoking || Any(f)
  }

  // ---------------------------------------------------------------------------
  // Offender

  /** The offender index of the frame: a manual scenario with at least one
      skeleton designates skeleton 0, whatever the smoking scan found;
      otherwise the smoker (or -1). */
  function SelectOffender(f: Flags, smoker: int, n: nat): (r: int)
    requires -1 <= smoker < n
    ensures -1 <= r < n
    ensures Any(f) && n > 0 ==> r == 0
    ensures !Any(f) ==> r == smoker
    ensures EventActive(f, smoker != -1) && n > 0 <==> r != -1
  {
    if Any(f) && n > 0 then 0 else smoker
  }
}
