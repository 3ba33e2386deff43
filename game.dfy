/** The game screen's state holder and the persisted leaderboard, as objects
    whose fields the button handlers update in place. Clock readings, the
    random draws, the parsed answer text and the formatted date are passed in. */
module Game {
  import opened Wrappers
  import opened Equations
  import opened SessionRules
  import opened Leaderboard

  /** The "high_scores" entry of the app's preferences. A key that was never
      written reads as the empty list. */
  class HighScoreStore {
    var highScores: seq<HighScore>

    /** Only saves write the entry, so it is always in leaderboard order and
        holds at most ten records. */
    ghost predicate Valid()
      reads this
    {
      SortedDesc(highScores) && |highScores| <= Capacity
    }

    constructor ()
      ensures Valid() && highScores == []
    {
      highScores := [];
    }
  }

  /** The state variables of the game screen. */
  class MathGame {
    const prefs: HighScoreStore
    var equation: Equation
    var feedback: string
    var score: int
    var lives: int
    var showDialog: bool
    var playerName: string
    var totalTime: int
    var lastHighScore: Option<HighScore>

    /** The part of the screen state the answer rules govern. */
    function State(): Session
      reads this
    {
      Session(equation, feedback, score, lives, totalTime, showDialog)
    }

    ghost predicate Valid()
      reads this, prefs
    {
      prefs.Valid() && Inv(State())
    }

    /** The name field exists only in the game-over dialog, so while the
        dialog is closed the name is blank. Every handler keeps this, and
        while it holds the save at game over in `Submit` never runs. */
    ghost predicate NameOnlyInDialog()
      reads this
    {
      !showDialog ==> IsBlank(playerName)
    }

    /** The screen as first composed: a fresh equation, no score, full lives,
        an empty name field and no best record shown yet. */
    constructor (store: HighScoreStore, d: Draw)
      requires store.Valid() && ValidDraw(d)
      ensures Valid() && prefs == store
      ensures State() == NewSession(d)
      ensures playerName == "" && lastHighScore == None
      ensures NameOnlyInDialog()
    {
      prefs := store;
      equation := Generate(d);
      feedback := "";
      score := 0;
      lives := MaxLives;
      showDialog := false;
      playerName := "";
      totalTime := 0;
      lastHighScore := None;
    }

    /** The start-up effect that shows the best stored record: when the entry
        exists, `lastHighScore` becomes its first record of maximal score,
        which for the stored order is its head. */
    method LoadLastHighScore()
      requires Valid()
      modifies this`lastHighScore
      ensures Valid()
      ensures old(prefs.highScores) == [] ==> lastHighScore == old(lastHighScore)
      ensures old(prefs.highScores) != [] ==>
        lastHighScore == MaxByOrNull(prefs.highScores) == Some(prefs.highScores[0])
    {
      var highScores := prefs.highScores;
      if highScores != [] {
        BestOfSortedIsHead(highScores);
        lastHighScore := MaxByOrNull(highScores);
      }
    }

    /** The name field of the game-over dialog: it can be typed into only
        while the dialog is up. */
    method EnterPlayerName(name: string)
      requires Valid() && showDialog
      modifies this`playerName
      ensures Valid() && playerName == name
      ensures NameOnlyInDialog()
    {
      playerName := name;
    }

    /** `saveHighScore`: a blank name changes nothing; otherwise the record is
        appended to the stored list, the list is sorted by descending score and
        cut to ten entries, and the new record becomes `lastHighScore` whether
        or not it is the best. `date` is the formatted current time. */
    method SaveHighScore(name: string, score: int, totalTime: int, date: string)
      requires prefs.Valid()
      modifies this`lastHighScore, prefs
      ensures prefs.Valid()
      ensures IsBlank(name) ==>
        prefs.highScores == old(prefs.highScores) && lastHighScore == old(lastHighScore)
      ensures !IsBlank(name) ==>
        && prefs.highScores == Saved(old(prefs.highScores), HighScore(name, score, date, totalTime))
        && lastHighScore == Some(HighScore(name, score, date, totalTime))
    {
      if IsBlank(name) {
        return;
      }
      var newHighScore := HighScore(name, score, date, totalTime);
      var highScores := prefs.highScores;
      highScores := highScores + [newHighScore];
      highScores := SortByDescending(highScores);
      var limitedHighScores := Take(highScores, Capacity);
      prefs.highScores := limitedHighScores;
      lastHighScore := Some(newHighScore);
    }

    /** The Submit button, by the rules of `SubmitAnswer`. When the last life
        goes and a name has been typed, the result is also saved. */
    method Submit(elapsed: nat, answer: Option<int>, d: Draw, date: string)
      requires Valid() && !showDialog && ValidDraw(d)
      modifies this, prefs
      ensures Valid()
      ensures State() == SubmitAnswer(old(State()), elapsed, answer, d)
      ensures playerName == old(playerName)
      ensures showDialog && !IsBlank(playerName) ==>
        && prefs.highScores == Saved(old(prefs.highScores), HighScore(playerName, score, date, totalTime))
        && lastHighScore == Some(HighScore(playerName, score, date, totalTime))
      ensures !(showDialog && !IsBlank(playerName)) ==>
        prefs.highScores == old(prefs.highScores) && lastHighScore == old(lastHighScore)
      ensures old(NameOnlyInDialog()) ==>
        && NameOnlyInDialog()
        && prefs.highScores == old(prefs.highScores) && lastHighScore == old(lastHighScore)
    {
      var timeTaken := elapsed;
      var effectiveTime := EffectiveTime(timeTaken);
      totalTime := totalTime + effectiveTime;

      var userAnswer := answer;
      if userAnswer.Some? && userAnswer.value == equation.answer {
        score := score + Points(effectiveTime);
        feedback := "Correct!";
        equation := Generate(d);
      } else {
        lives := lives - 1;
        feedback := "Wrong answer!";
        if lives > 0 {
          equation := Generate(d);
        } else {
          if !IsBlank(playerName) {
            SaveHighScore(playerName, score, totalTime, date);
          }
          showDialog := true;
        }
      }
    }

    /** The dialog's Restart button: with a non-blank name, save the result
        and start a new game with an empty name field; with a blank name,
        nothing happens. */
    method Restart(d: Draw, date: string)
      requires Valid() && showDialog && ValidDraw(d)
      modifies this, prefs
      ensures Valid() && NameOnlyInDialog()
      ensures IsBlank(old(playerName)) ==>
        && State() == old(State()) && playerName == old(playerName)
        && prefs.highScores == old(prefs.highScores) && lastHighScore == old(lastHighScore)
      ensures !IsBlank(old(playerName)) ==>
        && State() == NewSession(d) && playerName == ""
        && prefs.highScores == Saved(old(prefs.highScores), HighScore(old(playerName), old(score), date, old(totalTime)))
        && lastHighScore == Some(HighScore(old(playerName), old(score), date, old(totalTime)))
    {
      if !IsBlank(playerName) {
        SaveHighScore(playerName, score, totalTime, date);
        score := 0;
        lives := MaxLives;
        equation := Generate(d);
        feedback := "";
        totalTime := 0;
        playerName := "";
        showDialog := false;
      }
    }

    /** The dialog's Main menu button: the same as Restart, after which the
        screen is left (`leave`) exactly when the name was not blank. */
    method MainMenu(d: Draw, date: string) returns (leave: bool)
      requires Valid() && showDialog && ValidDraw(d)
      modifies this, prefs
      ensures Valid() && NameOnlyInDialog()
      ensures leave == !IsBlank(old(playerName))
      ensures !leave ==>
        && State() == old(State()) && playerName == old(playerName)
        && prefs.highScores == old(prefs.highScores) && lastHighScore == old(lastHighScore)
      ensures leave ==>
        && State() == NewSession(d) && playerName == ""
        && prefs.highScores == Saved(old(prefs.highScores), HighScore(old(playerName), old(score), date, old(totalTime)))
        && lastHighScore == Some(HighScore(old(playerName), old(score), date, old(totalTime)))
    {
      leave := !IsBlank(playerName);
      Restart(d, date);
    }
  }

  /** A caller's view: three wrong answers in a row end a new game with no
      life left, and the store is untouched since no name can be typed before
      the dialog opens. */
  method ThreeWrongAnswers(d: Draw)
    requires ValidDraw(d)
  {
    var store := new HighScoreStore();
    var game := new MathGame(store, d);
    game.Submit(5, None, d, "2024-01-01 00:00:00");
    game.Submit(5, None, d, "2024-01-01 00:00:00");
    assert game.lives == 1 && !game.showDialog;
    game.Submit(5, None, d, "2024-01-01 00:00:00");
    assert game.lives == 0 && game.showDialog;
    assert store.highScores == [];
  }

  /** A caller's view of the dialog: a name typed into it is saved by Restart
      with the finished game's score and time, and a new game starts. */
  method NameThenRestart(game: MathGame, d: Draw, date: string)
    requires game.Valid() && game.showDialog && ValidDraw(d)
    requires game.prefs.highScores == []
    modifies game, game.prefs
  {
    var score, totalTime := game.score, game.totalTime;
    var name := "Ann";
    assert !IsWhitespace(name[0]);
    game.EnterPlayerName(name);
    game.Restart(d, date);
    FirstSave(HighScore(name, score, date, totalTime));
    assert game.prefs.highScores == [HighScore(name, score, date, totalTime)];
    assert game.lives == MaxLives && !game.showDialog && game.playerName == "";
  }
}
