/** The rules of one play-through: the time charged for an answer, the points a
    correct answer earns, and how a submitted answer moves score, lives, total
    time and the current equation. `Session` is the value of the game screen's
    state; the `Game.MathGame` class updates its fields in place by these rules. */
module SessionRules {
  import opened Wrappers
  import opened Equations

  /** `MAX_LIVES`: the lives a game starts with. */
  const MaxLives: int := 3

  /** The ceiling, in seconds, on the time charged for one answer. */
  const TimeCap: nat := 20

  /** `minOf(timeTaken, 20L)`: the seconds an answer is charged. */
  function EffectiveTime(elapsed: nat): (t: nat)
    ensures t <= TimeCap && t <= elapsed
    ensures t == elapsed || t == TimeCap
  {
    if elapsed < TimeCap then elapsed else TimeCap
  }

  /** The points for a correct answer charged `t` seconds:
      `(10 * (1 + (20 - t) / 20)).toInt()` in exact arithmetic, which is
      `10 + (20 - t) / 2` rounded down. */
  function Points(t: nat): (p: int)
    requires t <= TimeCap
    ensures p == (10.0 * (1.0 + (TimeCap as real - t as real) / TimeCap as real)).Floor
    ensures 10 <= p <= 20
  {
    10 + (TimeCap - t) / 2
  }

  /** Answering faster never earns fewer points; an instant answer earns 20 and
      one charged the full 20 seconds earns 10. */
  lemma PointsNonIncreasing(t1: nat, t2: nat)
    requires t1 <= t2 <= TimeCap
    ensures Points(t2) <= Points(t1)
    ensures Points(0) == 20 && Points(TimeCap) == 10
  {
  }

  /** The state of the game screen that the answer rules change. `showDialog`
      is the game-over dialog: once it is up, no further answer is taken. */
  datatype Session = Session(
    equation: Equation,
    feedback: string,
    score: int,
    lives: int,
    totalTime: int,
    showDialog: bool)

  /** What every reachable state satisfies: lives within [0, MAX_LIVES], score
      and total time non-negative, and the game-over dialog up exactly when no
      life is left. */
  predicate Inv(s: Session)
  {
    && 0 <= s.lives <= MaxLives
    && s.score >= 0
    && s.totalTime >= 0
    && (s.showDialog <==> s.lives == 0)
  }

  /** The state a game starts in, and the one both restart buttons return to. */
  function NewSession(d: Draw): (s: Session)
    requires ValidDraw(d)
    ensures Inv(s) && !s.showDialog && s.lives == MaxLives
  {
    Session(Generate(d), "", 0, MaxLives, 0, false)
  }

  /** `userAnswer != null && userAnswer == equation.answer`: an answer text
      that does not parse is never correct. */
  predicate IsCorrect(answer: Option<int>, e: Equation): (b: bool)
    ensures answer.None? ==> !b
    ensures b <==> answer == Some(e.answer)
  {
    answer.Some? && answer.value == e.answer
  }

  /** The Submit button: charge the clamped time, then either award points and
      draw a new equation, or take a life and draw a new equation while lives
      remain, raising the game-over dialog when none do. `elapsed` is the whole
      seconds since the question start was last stamped, `answer` the parsed input (None when
      it is not an integer) and `d` the draws for the next equation. */
  function SubmitAnswer(s: Session, elapsed: nat, answer: Option<int>, d: Draw): (r: Session)
    requires Inv(s) && !s.showDialog && ValidDraw(d)
    ensures Inv(r)
    ensures s.totalTime <= r.totalTime <= s.totalTime + TimeCap
  {
    var t := EffectiveTime(elapsed);
    var charged := s.(totalTime := s.totalTime + t);
    if IsCorrect(answer, s.equation) then
      charged.(score := charged.score + Points(t), feedback := "Correct!", equation := Generate(d))
    else
      var wrong := charged.(lives := charged.lives - 1, feedback := "Wrong answer!");
      if wrong.lives > 0 then wrong.(equation := Generate(d)) else wrong.(showDialog := true)
  }

  /** Every answer, right or wrong, adds the clamped time, at most 20 seconds. */
  lemma SubmitChargesTime(s: Session, elapsed: nat, answer: Option<int>, d: Draw)
    requires Inv(s) && !s.showDialog && ValidDraw(d)
    ensures var r := SubmitAnswer(s, elapsed, answer, d);
      && r.totalTime - s.totalTime == EffectiveTime(elapsed)
      && (elapsed <= TimeCap ==> r.totalTime - s.totalTime == elapsed)
      && (elapsed >= TimeCap ==> r.totalTime - s.totalTime == TimeCap)
  {
  }

  /** A correct answer adds between 10 and 20 points, fewer the longer it took,
      keeps every life and puts a freshly drawn equation up. */
  lemma SubmitCorrect(s: Session, elapsed: nat, answer: Option<int>, d: Draw)
    requires Inv(s) && !s.showDialog && ValidDraw(d)
    requires IsCorrect(answer, s.equation)
    ensures var r := SubmitAnswer(s, elapsed, answer, d);
      && 10 <= r.score - s.score <= 20
      && r.score - s.score == Points(EffectiveTime(elapsed))
      && r.lives == s.lives && !r.showDialog
      && r.equation == Generate(d) && r.feedback == "Correct!"
  {
  }

  /** A wrong or unparsable answer costs exactly one life and no points; a new
      equation is drawn while lives remain, otherwise the game-over dialog
      opens over the unanswered equation. */
  lemma SubmitWrong(s: Session, elapsed: nat, answer: Option<int>, d: Draw)
    requires Inv(s) && !s.showDialog && ValidDraw(d)
    requires !IsCorrect(answer, s.equation)
    ensures var r := SubmitAnswer(s, elapsed, answer, d);
      && r.lives == s.lives - 1 && r.score == s.score
      && (r.showDialog <==> r.lives == 0)
      && r.equation == (if r.lives > 0 then Generate(d) else s.equation)
      && r.feedback == "Wrong answer!"
  {
  }

  /** Answering "7" to "3 + 4 = ?" when charged 3 seconds earns 18 points. */
  lemma QuickCorrectAnswer(s: Session, d: Draw)
    requires Inv(s) && !s.showDialog && ValidDraw(d)
    requires s.equation == Generate(Draw(3, 4, 0))
    ensures SubmitAnswer(s, 3, Some(7), d).score == s.score + 18
  {
  }

  /** One press of Submit: the seconds taken, the parsed answer and the draws
      that make the next equation. */
  datatype Attempt = Attempt(elapsed: nat, answer: Option<int>, next: Draw)

  predicate ValidAttempts(attempts: seq<Attempt>)
  {
    forall i :: 0 <= i < |attempts| ==> ValidDraw(attempts[i].next)
  }

  /** The state after the given presses of Submit; presses made once the
      game-over dialog is up do not reach the game. */
  function Play(s: Session, attempts: seq<Attempt>): (r: Session)
    requires Inv(s) && ValidAttempts(attempts)
    ensures Inv(r)
    decreases |attempts|
  {
    if attempts == [] || s.showDialog then s
    else
      var a := attempts[0];
      Play(SubmitAnswer(s, a.elapsed, a.answer, a.next), attempts[1..])
  }

  /** How many of those presses were wrong answers taken by the game. */
  function Misses(s: Session, attempts: seq<Attempt>): nat
    requires Inv(s) && ValidAttempts(attempts)
    decreases |attempts|
  {
    if attempts == [] || s.showDialog then 0
    else
      var a := attempts[0];
      (if IsCorrect(a.answer, s.equation) then 0 else 1)
        + Misses(SubmitAnswer(s, a.elapsed, a.answer, a.next), attempts[1..])
  }

  /** Lives accounting over any run of answers: each wrong answer costs one
      life and nothing else does, the dialog opens exactly when the misses use
      up the lives, the score never falls and each answer adds at most 20
      seconds. */
  lemma {:induction false} PlayAccounting(s: Session, attempts: seq<Attempt>)
    requires Inv(s) && ValidAttempts(attempts)
    ensures var r, m := Play(s, attempts), Misses(s, attempts);
      && m <= s.lives
      && r.lives == s.lives - m
      && (r.showDialog <==> m == s.lives)
      && r.score >= s.score
      && s.totalTime <= r.totalTime <= s.totalTime + TimeCap * |attempts|
    decreases |attempts|
  {
    if attempts != [] && !s.showDialog {
      var a := attempts[0];
      var next := SubmitAnswer(s, a.elapsed, a.answer, a.next);
      if IsCorrect(a.answer, s.equation) {
        SubmitCorrect(s, a.elapsed, a.answer, a.next);
      } else {
        SubmitWrong(s, a.elapsed, a.answer, a.next);
      }
      PlayAccounting(next, attempts[1..]);
    }
  }

  /** From a new game, whatever mix of right and wrong answers is given, the
      game is over exactly when three answers were wrong, and then no life is
      left. */
  lemma ThreeMissesEndTheGame(d: Draw, attempts: seq<Attempt>)
    requires ValidDraw(d) && ValidAttempts(attempts)
    ensures var r, m := Play(NewSession(d), attempts), Misses(NewSession(d), attempts);
      && m <= MaxLives
      && r.lives == MaxLives - m
      && (r.showDialog <==> m == 3)
      && (r.showDialog ==> r.lives == 0)
  {
    PlayAccounting(NewSession(d), attempts);
  }
}
