/** The component's state as an object whose handlers overwrite its fields.

    Each method reads the fields as they are when it starts (the values of the
    current render) and assigns the new values once; its postcondition ties the
    new state to the matching transition function of `ColorMatch`. */
module GameEngine {
  import opened ColorMatch

  class Game {
    var hue: real
    var brightness: real
    var tolerance: real
    var isCorrect: bool
    var timeLeft: int
    var isTimerRunning: bool
    var score: int
    var attempts: int

    /** The fields as one session value. */
    function State(): (s: Session)
      reads this
    {
      Session(hue, brightness, tolerance, isCorrect, timeLeft, isTimerRunning, score, attempts)
    }

    ghost predicate Valid()
      reads this
    {
      Inv(State())
    }

    /** Mounting the component; `initialHue` is the random starting hue. */
    constructor (initialHue: real)
      requires HueDraw(initialHue)
      ensures Valid()
      ensures State() == Initial(initialHue)
    {
      hue := initialHue;
      brightness := ResetBrightness;
      tolerance := DefaultTolerance;
      isCorrect := false;
      timeLeft := TimerDuration;
      isTimerRunning := false;
      score := 0;
      attempts := 0;
    }

    /** The pan gesture's active callback with translations `tx`, `ty`. */
    method Gesture(tx: real, ty: real)
      requires Valid()
      modifies this
      ensures Valid()
      ensures State() == AfterGesture(old(State()), tx, ty)
    {
      hue := Clamp(hue + tx, 0.0, MaxHue);
      brightness := Clamp(brightness - ty / DragPerBrightness, 0.0, 1.0);
    }

    /** The effect that starts the countdown of an unresolved attempt. */
    method AutoStart()
      requires Valid()
      modifies this
      ensures Valid()
      ensures State() == AfterAutoStart(old(State()))
    {
      if !isCorrect && !isTimerRunning {
        isTimerRunning, timeLeft := true, TimerDuration;
      }
    }

    /** The expiry step shared by the interval body and the zero check. */
    method Forfeit()
      requires Valid() && timeLeft == 0
      modifies this
      ensures Valid()
      ensures State() == Forfeited(old(State()))
    {
      isTimerRunning := false;
      if !isCorrect {
        score, attempts := score - timeLeft * 10, attempts + 1;
      }
    }

    /** The body of the one-second interval. */
    method Tick()
      requires Valid()
      modifies this
      ensures Valid()
      ensures State() == AfterTick(old(State()))
    {
      if timeLeft > 0 {
        timeLeft := timeLeft - 1;
      } else {
        Forfeit();
      }
    }

    /** The zero check made whenever `timeLeft` changes. */
    method Expire()
      requires Valid()
      modifies this
      ensures Valid()
      ensures State() == AfterExpiryCheck(old(State()))
    {
      if timeLeft == 0 {
        Forfeit();
      }
    }

    /** The Submit button. */
    method Submit()
      requires Valid()
      modifies this
      ensures Valid()
      ensures State() == AfterSubmit(old(State()))
    {
      var distance := Distance(hue, brightness);
      var correct := distance <= tolerance;
      isCorrect, isTimerRunning := correct, false;
      if correct {
        score, attempts := score + timeLeft * 10, attempts + 1;
      } else {
        score, attempts := score - timeLeft * 10, attempts + 1;
      }
    }

    /** The New Game button; `newHue` is the freshly drawn random hue. */
    method NewGame(newHue: real)
      requires Valid() && HueDraw(newHue)
      modifies this
      ensures Valid()
      ensures State() == AfterNewGame(old(State()), newHue)
    {
      hue, brightness, tolerance := newHue, ResetBrightness, DefaultTolerance;
      isCorrect, isTimerRunning, timeLeft := false, false, TimerDuration;
      score, attempts := 0, 0;
    }

    /** The Next button; `newHue` is the freshly drawn random hue. */
    method Next(newHue: real)
      requires Valid() && HueDraw(newHue)
      modifies this
      ensures Valid()
      ensures State() == AfterNext(old(State()), newHue)
    {
      if attempts < MaxAttempts {
        hue, brightness, tolerance := newHue, ResetBrightness, DefaultTolerance;
        isCorrect, isTimerRunning, timeLeft := false, false, TimerDuration;
      } else {
        NewGame(newHue);
      }
    }
  }
}
