/** The game-session engine of the colour-matching game, as values.

    A `Session` is the whole state one render of the component sees; every event
    handler reads that state and writes its new values once, so each handler is a
    function from the old session to the new one. The class in game.dfy performs
    the same updates in place and is specified by these functions. */
module ColorMatch {

  /** Seconds on the countdown at the start of every attempt. */
  const TimerDuration: int := 10
  /** Number of resolved attempts after which the final score is shown. */
  const MaxAttempts: int := 10
  /** The tolerance every attempt starts with. */
  const DefaultTolerance: real := 20.0
  /** Brightness at the start of every attempt. */
  const ResetBrightness: real := 0.5
  /** Upper end of the hue interval; hue draws are taken from [0, MaxHue). */
  const MaxHue: real := 360.0
  /** Pixels of vertical drag per unit of brightness. */
  const DragPerBrightness: real := 150.0

  /** The state of one game session. */
  datatype Session = Session(
    hue: real,
    brightness: real,
    tolerance: real,
    isCorrect: bool,
    timeLeft: int,
    isTimerRunning: bool,
    score: int,
    attempts: int)

  /** The three views the component can show. */
  datatype View =
    | FinalScore(score: int)
    | CorrectFeedback(score: int)
    | Countdown(secondsShown: int, submitEnabled: bool, score: int)

  /** Bounds every session reached from a fresh game keeps. */
  predicate Inv(s: Session) {
    0.0 <= s.hue <= MaxHue &&
    0.0 <= s.brightness <= 1.0 &&
    s.tolerance == DefaultTolerance &&
    0 <= s.timeLeft <= TimerDuration &&
    0 <= s.attempts
  }

  /** A hue drawn as `Math.random() * 360`. */
  predicate HueDraw(h: real) {
    0.0 <= h < MaxHue
  }

  function Abs(x: real): (r: real)
    ensures 0.0 <= r
    ensures r == x || r == -x
  {
    if x < 0.0 then -x else x
  }

  function Min(x: real, y: real): (r: real)
    ensures r <= x && r <= y
    ensures r == x || r == y
  {
    if x <= y then x else y
  }

  function Max(x: real, y: real): (r: real)
    ensures x <= r && y <= r
    ensures r == x || r == y
  {
    if x >= y then x else y
  }

  /** `Math.min(Math.max(x, lo), hi)`: `x` pulled into `[lo, hi]`. */
  function Clamp(x: real, lo: real, hi: real): (r: real)
    requires lo <= hi
    ensures lo <= r <= hi
    ensures lo <= x <= hi ==> r == x
    ensures x < lo ==> r == lo
    ensures hi < x ==> r == hi
  {
    Min(Max(x, lo), hi)
  }

  /** The session at mount, and after "New Game": `h` is the random hue. */
  function Initial(h: real): (s: Session)
  {
    Session(h, ResetBrightness, DefaultTolerance, false, TimerDuration, false, 0, 0)
  }

  /** The pan gesture: hue follows the horizontal translation, brightness the
      inverted vertical one scaled by 1/150, each clamped to its range. The
      eased animation towards the target is taken as an immediate assignment. */
  function AfterGesture(s: Session, tx: real, ty: real): (r: Session)
  {
    s.(hue := Clamp(s.hue + tx, 0.0, MaxHue),
       brightness := Clamp(s.brightness - ty / DragPerBrightness, 0.0, 1.0))
  }

  /** The effect that (re)starts the countdown while the attempt is unresolved. */
  function AfterAutoStart(s: Session): (r: Session)
  {
    if !s.isCorrect && !s.isTimerRunning then
      s.(isTimerRunning := true, timeLeft := TimerDuration)
    else
      s
  }

  /** The expiry step both timer paths perform: stop the timer and, unless the
      attempt was already answered correctly, charge `timeLeft * 10` and count
      the attempt. */
  function Forfeited(s: Session): (r: Session)
  {
    s.(isTimerRunning := false,
       score := if s.isCorrect then s.score else s.score - s.timeLeft * 10,
       attempts := if s.isCorrect then s.attempts else s.attempts + 1)
  }

  /** The body of the one-second interval. It does not look at `isTimerRunning`. */
  function AfterTick(s: Session): (r: Session)
  {
    if s.timeLeft > 0 then s.(timeLeft := s.timeLeft - 1) else Forfeited(s)
  }

  /** The zero check the timer effect makes each time `timeLeft` changes. */
  function AfterExpiryCheck(s: Session): (r: Session)
  {
    if s.timeLeft == 0 then Forfeited(s) else s
  }

  /** The brightness the answer is compared against: `|b - 0.5| * 2`. */
  function TargetBrightness(b: real): (t: real)
    ensures 0.0 <= b <= 1.0 ==> 0.0 <= t <= 1.0
  {
    Abs(b - 0.5) * 2.0
  }

  /** The match distance. The target hue is the current hue itself, so the hue
      term compares `hue` with `hue`. */
  function Distance(hue: real, brightness: real): (d: real)
    ensures 0.0 <= d
    ensures d == Abs(TargetBrightness(brightness) - brightness) * 100.0
  {
    var targetHue := hue;
    Abs(TargetBrightness(brightness) - brightness) * 100.0 + Abs(targetHue - hue)
  }

  /** The verdict a submit gives in session `s`. */
  predicate Matches(s: Session) {
    Distance(s.hue, s.brightness) <= s.tolerance
  }

  /** The submit handler: record the verdict, stop the timer, add or subtract
      `timeLeft * 10` and count the attempt. */
  function AfterSubmit(s: Session): (r: Session)
  {
    var correct := Matches(s);
    s.(isCorrect := correct,
       isTimerRunning := false,
       score := if correct then s.score + s.timeLeft * 10 else s.score - s.timeLeft * 10,
       attempts := s.attempts + 1)
  }

  /** "New Game": everything back to the start, with a freshly drawn hue `h`. */
  function AfterNewGame(s: Session, h: real): (r: Session)
  {
    s.(hue := h, brightness := ResetBrightness, tolerance := DefaultTolerance,
       isCorrect := false, isTimerRunning := false, timeLeft := TimerDuration,
       score := 0, attempts := 0)
  }

  /** "Next": a fresh attempt while attempts remain, otherwise a new game. */
  function AfterNext(s: Session, h: real): (r: Session)
  {
    if s.attempts < MaxAttempts then
      s.(hue := h, brightness := ResetBrightness, tolerance := DefaultTolerance,
         isCorrect := false, isTimerRunning := false, timeLeft := TimerDuration)
    else
      AfterNewGame(s, h)
  }

  /** The view the component renders for session `s`. */
  function Phase(s: Session): (v: View)
    ensures v.FinalScore? <==> s.attempts >= MaxAttempts
    ensures v.CorrectFeedback? <==> s.attempts < MaxAttempts && s.isCorrect
    ensures v.Countdown? <==> s.attempts < MaxAttempts && !s.isCorrect
    ensures v.Countdown? ==> v.secondsShown == s.timeLeft && (v.submitEnabled <==> s.isTimerRunning)
    ensures v.score == s.score
  {
    if s.attempts >= MaxAttempts then FinalScore(s.score)
    else if s.isCorrect then CorrectFeedback(s.score)
    else Countdown(s.timeLeft, s.isTimerRunning, s.score)
  }

  /** Whether the Submit button can be pressed in session `s`. */
  predicate SubmitEnabled(s: Session) {
    Phase(s).Countdown? && Phase(s).submitEnabled
  }

  /** Everything that can happen to a session: a drag, the timer effects, and
      the three buttons; `Next` and `NewGame` carry the random hue they draw. */
  datatype Event =
    | Drag(tx: real, ty: real)
    | TimerStart
    | IntervalTick
    | ZeroCheck
    | SubmitPressed
    | NextPressed(nextHue: real)
    | NewGamePressed(newHue: real)

  /** The random draw an event carries is in range. */
  predicate DrawInRange(e: Event) {
    match e
    case NextPressed(h) => HueDraw(h)
    case NewGamePressed(h) => HueDraw(h)
    case _ => true
  }

  function Step(s: Session, e: Event): (r: Session)
  {
    match e
    case Drag(tx, ty) => AfterGesture(s, tx, ty)
    case TimerStart => AfterAutoStart(s)
    case IntervalTick => AfterTick(s)
    case ZeroCheck => AfterExpiryCheck(s)
    case SubmitPressed => AfterSubmit(s)
    case NextPressed(h) => AfterNext(s, h)
    case NewGamePressed(h) => AfterNewGame(s, h)
  }

  /** The session after the events `es`, in order. */
  function Run(s: Session, es: seq<Event>): (r: Session)
    decreases |es|
  {
    if es == [] then s else Run(Step(s, es[0]), es[1..])
  }

  /** `n` interval ticks in a row. */
  function Ticks(n: nat): (es: seq<Event>)
    ensures |es| == n
    ensures forall i :: 0 <= i < n ==> es[i] == IntervalTick
  {
    if n == 0 then [] else [IntervalTick] + Ticks(n - 1)
  }
}
