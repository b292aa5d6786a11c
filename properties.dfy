/** What the session engine guarantees, stated over the transition functions. */
module SessionProperties {
  import opened ColorMatch

  // ---------------------------------------------------------------------------
  // Gestures

  /** A drag keeps hue in [0, 360] and brightness in [0, 1]; inside those ranges
      hue moves by the horizontal translation and brightness by minus the
      vertical translation over 150. Nothing else changes. */
  lemma GestureClamps(s: Session, tx: real, ty: real)
    ensures var r := AfterGesture(s, tx, ty);
      0.0 <= r.hue <= MaxHue && 0.0 <= r.brightness <= 1.0 &&
      (0.0 <= s.hue + tx <= MaxHue ==> r.hue == s.hue + tx) &&
      (0.0 <= s.brightness - ty / DragPerBrightness <= 1.0 ==> r.brightness == s.brightness - ty / DragPerBrightness) &&
      (s.hue + tx < 0.0 ==> r.hue == 0.0) && (MaxHue < s.hue + tx ==> r.hue == MaxHue) &&
      (s.brightness - ty / DragPerBrightness < 0.0 ==> r.brightness == 0.0) &&
      (1.0 < s.brightness - ty / DragPerBrightness ==> r.brightness == 1.0) &&
      r == s.(hue := r.hue, brightness := r.brightness)
  {
  }

  // ---------------------------------------------------------------------------
  // The countdown

  /** A tick with time left lowers `timeLeft` by exactly one and changes nothing
      else, whether or not the timer is flagged as running. */
  lemma TickCountsDown(s: Session)
    requires s.timeLeft > 0
    ensures AfterTick(s).timeLeft == s.timeLeft - 1
    ensures AfterTick(s) == s.(timeLeft := s.timeLeft - 1)
  {
  }

  /** At zero both expiry paths make the same single step: the timer stops and,
      if the attempt is unresolved, the attempt is counted while the score stays
      put (the penalty is `0 * 10`); after a correct answer neither changes. */
  lemma ExpiryOutcome(s: Session)
    requires s.timeLeft == 0
    ensures AfterTick(s) == AfterExpiryCheck(s)
    ensures var r := AfterExpiryCheck(s);
      !r.isTimerRunning && r.score == s.score &&
      r.attempts == (if s.isCorrect then s.attempts else s.attempts + 1) &&
      r == s.(isTimerRunning := false, attempts := r.attempts)
  {
  }

  /** The zero check does nothing while time is left. */
  lemma ExpiryCheckWaits(s: Session)
    requires s.timeLeft != 0
    ensures AfterExpiryCheck(s) == s
  {
  }

  /** The start effect fires exactly when the attempt is unresolved and the timer
      is stopped, and then it starts a full countdown. */
  lemma AutoStartFiresExactly(s: Session)
    ensures AfterAutoStart(s) != s <==> !s.isCorrect && !s.isTimerRunning
    ensures !s.isCorrect && !s.isTimerRunning ==>
      AfterAutoStart(s) == s.(isTimerRunning := true, timeLeft := TimerDuration)
  {
  }

  /** `n` ticks from `n` seconds bring the countdown to zero and change nothing else. */
  lemma {:induction false} TicksToZero(s: Session, n: nat)
    requires s.timeLeft == n
    ensures Run(s, Ticks(n)) == s.(timeLeft := 0)
    decreases n
  {
    if n > 0 {
      var t := AfterTick(s);
      assert t == s.(timeLeft := n - 1);
      assert Ticks(n)[1..] == Ticks(n - 1);
      TicksToZero(t, n - 1);
    }
  }

  // ---------------------------------------------------------------------------
  // Matching

  /** The hue never influences the verdict: the target hue is the hue itself. */
  lemma DistanceIgnoresHue(h1: real, h2: real, b: real)
    ensures Distance(h1, b) == Distance(h2, b)
  {
  }

  /** The distance in closed form over the brightness range. */
  lemma DistanceClosedForm(h: real, b: real)
    requires 0.0 <= b <= 1.0
    ensures b >= 0.5 ==> Distance(h, b) == 100.0 * (1.0 - b)
    ensures b < 0.5 ==> Distance(h, b) == 100.0 * Abs(1.0 - 3.0 * b)
  {
  }

  /** At the default tolerance a submit is correct exactly when the brightness
      lies in [4/15, 2/5] or in [4/5, 1]. */
  lemma PassRegionAtDefaultTolerance(h: real, b: real)
    requires 0.0 <= b <= 1.0
    ensures Distance(h, b) <= DefaultTolerance <==>
      (4.0 / 15.0 <= b <= 2.0 / 5.0) || (4.0 / 5.0 <= b <= 1.0)
  {
    DistanceClosedForm(h, b);
  }

  /** The brightness every attempt starts with is 50 away from its target, so it
      always fails at the default tolerance. */
  lemma ResetBrightnessFails(h: real)
    ensures Distance(h, ResetBrightness) == 50.0
    ensures Distance(h, ResetBrightness) > DefaultTolerance
  {
  }

  // ---------------------------------------------------------------------------
  // Submitting

  /** Every submit records the verdict, stops the timer and counts one attempt;
      the score moves by `timeLeft * 10`, up if correct and down otherwise; the
      colours, tolerance and countdown are untouched. */
  lemma SubmitOutcome(s: Session)
    ensures var r := AfterSubmit(s);
      (r.isCorrect <==> Distance(s.hue, s.brightness) <= s.tolerance) &&
      !r.isTimerRunning &&
      r.attempts == s.attempts + 1 &&
      r.score == (if r.isCorrect then s.score + s.timeLeft * 10 else s.score - s.timeLeft * 10) &&
      r.hue == s.hue && r.brightness == s.brightness &&
      r.tolerance == s.tolerance && r.timeLeft == s.timeLeft
  {
  }

  /** A submit straight after an attempt starts never succeeds at the default
      tolerance: it costs the full `timeLeft * 10`. */
  lemma ImmediateSubmitFails(s: Session, h: real)
    requires s.attempts < MaxAttempts
    ensures var r := AfterSubmit(AfterAutoStart(AfterNext(s, h)));
      !r.isCorrect && r.score == s.score - TimerDuration * 10 && r.attempts == s.attempts + 1
  {
    ResetBrightnessFails(h);
  }

  /** After an incorrect submit the start effect puts the attempt back in
      progress: a fresh, running countdown, the colours as they were, and the
      countdown view with Submit enabled unless the attempt limit was reached. */
  lemma IncorrectSubmitRestarts(s: Session)
    requires !Matches(s)
    ensures var r := AfterAutoStart(AfterSubmit(s));
      r.isTimerRunning && r.timeLeft == TimerDuration && !r.isCorrect &&
      r.hue == s.hue && r.brightness == s.brightness &&
      r.attempts == s.attempts + 1 && r.score == s.score - s.timeLeft * 10 &&
      Phase(r) == (if r.attempts >= MaxAttempts then FinalScore(r.score)
                   else Countdown(TimerDuration, true, r.score))
  {
  }

  /** A correct submit below the limit shows the "Correct" view, which offers
      Next and no Submit. */
  lemma CorrectSubmitShowsFeedback(s: Session)
    requires Matches(s) && s.attempts + 1 < MaxAttempts
    ensures Phase(AfterSubmit(s)) == CorrectFeedback(AfterSubmit(s).score)
    ensures !SubmitEnabled(AfterSubmit(s))
  {
  }

  // ---------------------------------------------------------------------------
  // Next and New Game

  /** Next below the limit starts a new attempt and keeps score and attempts;
      at the limit it is a new game. */
  lemma NextOutcome(s: Session, h: real)
    ensures var r := AfterNext(s, h);
      if s.attempts < MaxAttempts then
        r.hue == h && r.brightness == ResetBrightness && r.tolerance == DefaultTolerance &&
        !r.isCorrect && !r.isTimerRunning && r.timeLeft == TimerDuration &&
        r.score == s.score && r.attempts == s.attempts
      else
        r == Initial(h)
  {
  }

  /** New Game from any session is the session the component mounts with. */
  lemma NewGameResets(s: Session, h: real)
    ensures var r := AfterNewGame(s, h);
      r.score == 0 && r.attempts == 0 && r.hue == h &&
      r.brightness == ResetBrightness && r.tolerance == DefaultTolerance &&
      !r.isCorrect && !r.isTimerRunning && r.timeLeft == TimerDuration
    ensures AfterNewGame(s, h) == Initial(h)
  {
  }

  // ---------------------------------------------------------------------------
  // Reachable sessions

  /** Every event keeps the bounds of `Inv`. */
  lemma StepKeepsInv(s: Session, e: Event)
    requires Inv(s) && DrawInRange(e)
    ensures Inv(Step(s, e))
  {
    match e
    case Drag(tx, ty) => GestureClamps(s, tx, ty);
    case _ =>
  }

  /** Any sequence of events keeps the bounds of `Inv`. */
  lemma {:induction false} RunKeepsInv(s: Session, es: seq<Event>)
    requires Inv(s)
    requires forall i :: 0 <= i < |es| ==> DrawInRange(es[i])
    ensures Inv(Run(s, es))
    decreases |es|
  {
    if es != [] {
      StepKeepsInv(s, es[0]);
      RunKeepsInv(Step(s, es[0]), es[1..]);
    }
  }

  /** From any session reachable from a fresh game, hue stays in [0, 360],
      brightness in [0, 1], the tolerance at 20 and `timeLeft` in [0, 10]. */
  lemma ReachableBounds(h: real, es: seq<Event>)
    requires HueDraw(h)
    requires forall i :: 0 <= i < |es| ==> DrawInRange(es[i])
    ensures var r := Run(Initial(h), es);
      0.0 <= r.hue <= MaxHue && 0.0 <= r.brightness <= 1.0 &&
      r.tolerance == DefaultTolerance && 0 <= r.timeLeft <= TimerDuration && 0 <= r.attempts
  {
    RunKeepsInv(Initial(h), es);
  }

  // ---------------------------------------------------------------------------
  // Scenarios

  /** An attempt left alone forfeits: after the start effect, ten ticks and the
      zero check, the attempt is counted once, the score is unchanged and the
      timer is stopped. The stop does not last: see `TimeoutRestarts`. */
  lemma UntouchedAttemptForfeits(s: Session)
    requires !s.isCorrect && !s.isTimerRunning
    ensures var r := AfterExpiryCheck(Run(AfterAutoStart(s), Ticks(TimerDuration)));
      r.attempts == s.attempts + 1 && r.score == s.score && !r.isTimerRunning &&
      r.hue == s.hue && r.brightness == s.brightness
  {
    TicksToZero(AfterAutoStart(s), TimerDuration);
  }

  /** One attempt can be counted twice: an incorrect submit counts it, the start
      effect restarts the countdown for the same attempt, and its expiry counts
      it again. From the last attempt this takes `attempts` past the limit while
      the final-score view is shown. */
  lemma IncorrectSubmitThenTimeoutCountsTwice(s: Session)
    requires !Matches(s)
    ensures var r := AfterExpiryCheck(Run(AfterAutoStart(AfterSubmit(s)), Ticks(TimerDuration)));
      r.attempts == s.attempts + 2 && r.score == s.score - s.timeLeft * 10 &&
      (s.attempts == MaxAttempts - 1 ==> r.attempts == MaxAttempts + 1 && Phase(r).FinalScore?)
  {
    IncorrectSubmitRestarts(s);
    TicksToZero(AfterAutoStart(AfterSubmit(s)), TimerDuration);
  }

  /** A forfeit is not a resting phase: once the zero check has stopped the
      timer of an unresolved attempt, the start effect restarts a full countdown
      with the same colours and no button pressed, one attempt further on. */
  lemma TimeoutRestarts(s: Session)
    requires s.timeLeft == 0 && !s.isCorrect
    ensures AfterAutoStart(AfterExpiryCheck(s)) ==
      s.(isTimerRunning := true, timeLeft := TimerDuration, attempts := s.attempts + 1)
  {
  }

  /** Replaying `a` and then `b` is replaying `a + b`. */
  lemma {:induction false} RunAppend(s: Session, a: seq<Event>, b: seq<Event>)
    ensures Run(s, a + b) == Run(Run(s, a), b)
    decreases |a|
  {
    if a == [] {
      assert a + b == b;
    } else {
      assert (a + b)[0] == a[0];
      assert (a + b)[1..] == a[1..] + b;
      RunAppend(Step(s, a[0]), a[1..], b);
    }
  }

  /** What an idle player lets happen in one countdown: the start effect, ten
      ticks and the zero check. */
  function IdleRound(): seq<Event>
  {
    [TimerStart] + Ticks(TimerDuration) + [ZeroCheck]
  }

  /** `k` idle countdowns in a row. */
  function IdleRounds(k: nat): seq<Event>
  {
    if k == 0 then [] else IdleRounds(k - 1) + IdleRound()
  }

  /** One idle countdown counts one attempt, leaves the score alone and ends
      with the timer stopped at zero. */
  lemma IdleRoundCounts(s: Session)
    requires !s.isCorrect && !s.isTimerRunning
    ensures Run(s, IdleRound()) == s.(timeLeft := 0, attempts := s.attempts + 1)
  {
    RunAppend(s, [TimerStart] + Ticks(TimerDuration), [ZeroCheck]);
    RunAppend(s, [TimerStart], Ticks(TimerDuration));
    TicksToZero(AfterAutoStart(s), TimerDuration);
  }

  /** A game nobody plays never ends: after `k` idle countdowns from mount,
      `attempts` is `k`, for every `k`, and from the tenth on the final-score
      view is shown while the countdowns go on. */
  lemma {:induction false} IdleGameNeverEnds(h: real, k: nat)
    ensures var r := Run(Initial(h), IdleRounds(k));
      r == Initial(h).(timeLeft := if k == 0 then TimerDuration else 0, attempts := k) &&
      (Phase(r).FinalScore? <==> k >= MaxAttempts)
    decreases k
  {
    if k > 0 {
      IdleGameNeverEnds(h, k - 1);
      RunAppend(Initial(h), IdleRounds(k - 1), IdleRound());
      IdleRoundCounts(Run(Initial(h), IdleRounds(k - 1)));
    }
  }
}
