/**
 * The non-graphical state of the alien-invasion scoreboard: the texts it renders
 * for score, high score and level, the positions of the remaining-lives icons,
 * and the high-score bookkeeping against the persisted high-score file.
 * A rendered image is represented by the text it shows; fonts, colours and
 * screen rectangles are not part of this model.
 */
module Scoreboard {
  import opened Wrappers
  import opened Decimal
  import opened Rounding
  import opened Thousands

  /** `f"Score: {round(score, -1)}"`. */
  function ScoreText(score: int): string {
    "Score: " + IntToDecimal(Round10(score))
  }

  /** `f"High Score: {round(high_score, -1):,}"`. */
  function HighScoreText(highScore: int): string {
    "High Score: " + FormatThousands(Round10(highScore))
  }

  /** `f"Level: {level}"`. */
  function LevelText(level: int): string {
    "Level: " + IntToDecimal(level)
  }

  /** What the score line shows: its label, then text that reads back as the score rounded to 10. */
  lemma ScoreTextMeaning(score: int)
    ensures |ScoreText(score)| > 7 && ScoreText(score)[..7] == "Score: "
    ensures ParseInt(ScoreText(score)[7..]) == Some(Round10(score))
    ensures IsCanonical(ScoreText(score)[7..])
  {
    assert ScoreText(score)[7..] == IntToDecimal(Round10(score));
    ParseIntToDecimal(Round10(score));
    IntToDecimalIsCanonical(Round10(score));
  }

  /**
   * What the high-score line shows: its label, then a minus sign exactly when the
   * rounded high score is negative, then digits grouped in threes by commas that,
   * without their commas, are `str` of the rounded high score.
   */
  lemma HighScoreTextMeaning(highScore: int)
    ensures |HighScoreText(highScore)| > 12 && HighScoreText(highScore)[..12] == "High Score: "
    ensures ParseInt(RemoveCommas(HighScoreText(highScore)[12..])) == Some(Round10(highScore))
    ensures RemoveCommas(HighScoreText(highScore)[12..]) == IntToDecimal(Round10(highScore))
    ensures HighScoreText(highScore)[12] == '-' <==> Round10(highScore) < 0
    ensures IsGrouped(if Round10(highScore) < 0 then HighScoreText(highScore)[13..]
                      else HighScoreText(highScore)[12..])
  {
    assert HighScoreText(highScore)[12..] == FormatThousands(Round10(highScore));
    FormatThousandsMeaning(Round10(highScore));
  }

  /** What the level line shows: its label, then text that reads back as the level. */
  lemma LevelTextMeaning(level: int)
    ensures |LevelText(level)| > 7 && LevelText(level)[..7] == "Level: "
    ensures ParseInt(LevelText(level)[7..]) == Some(level)
    ensures IsCanonical(LevelText(level)[7..])
  {
    assert LevelText(level)[7..] == IntToDecimal(level);
    ParseIntToDecimal(level);
    IntToDecimalIsCanonical(level);
  }

  /**
   * The high score `load_high_score` obtains from the file: the value `int` parses
   * from its content, or 0 when the file is absent or its content does not parse.
   */
  function LoadedHighScore(file: Option<string>): (r: int)
    ensures file.Some? && ParseInt(file.value).Some? ==> r == ParseInt(file.value).value
    ensures r != 0 ==> file.Some? && ParseInt(file.value) == Some(r)
  {
    match file
    case None => 0
    case Some(text) =>
      match ParseInt(text)
      case None => 0
      case Some(v) => v
  }

  /** Content that `str` could have written is exactly `str` of what it loads as. */
  lemma LoadCanonical(text: string)
    requires IsCanonical(text)
    ensures IntToDecimal(LoadedHighScore(Some(text))) == text
  {
    DecimalOfParseInt(text);
  }

  /**
   * Writing back what was loaded is harmless: the written text loads as the same
   * value, and content `str` could have written is written back unchanged.
   */
  lemma WriteBackLoaded(file: Option<string>)
    ensures LoadedHighScore(Some(IntToDecimal(LoadedHighScore(file)))) == LoadedHighScore(file)
    ensures file.Some? && IsCanonical(file.value) ==> Some(IntToDecimal(LoadedHighScore(file))) == file
  {
    LoadAfterWrite(LoadedHighScore(file));
    if file.Some? && IsCanonical(file.value) {
      LoadCanonical(file.value);
    }
  }

  /** What the scoreboard writes into the file, it reads back unchanged. */
  lemma LoadAfterWrite(highScore: int)
    ensures LoadedHighScore(Some(IntToDecimal(highScore))) == highScore
  {
    ParseIntToDecimal(highScore);
  }

  lemma LoadedHighScoreExamples()
    ensures LoadedHighScore(Some("1234")) == 1234
    ensures LoadedHighScore(Some("abc")) == 0
    ensures LoadedHighScore(Some("")) == 0
    ensures LoadedHighScore(None) == 0
  {
    assert DigitsValue("1") == 1;
    assert DigitsValue("12") == 12;
    assert DigitsValue("123") == 123;
    assert "1234"[..3] == "123";
    assert !IsDigit("abc"[0]);
  }

  /** Top-left corner of a remaining-lives icon. */
  datatype Icon = Icon(x: int, y: int)

  /**
   * The icons `prep_ships` lays out for `n` lives with icons `w` wide: one per
   * remaining life (none for zero or fewer), icon i at (5 + i * w, 5).
   */
  function ShipLayout(n: int, w: nat): (icons: seq<Icon>)
    ensures |icons| == if n <= 0 then 0 else n
    ensures forall i :: 0 <= i < |icons| ==> icons[i] == Icon(5 + i * w, 5)
  {
    if n <= 0 then [] else ShipLayout(n - 1, w) + [Icon(5 + (n - 1) * w, 5)]
  }

  /** The game statistics the scoreboard reads; it writes only `highScore`. */
  class GameStats {
    var score: int
    var highScore: int
    var level: int
    var shipsLeft: int

    constructor (score: int, highScore: int, level: int, shipsLeft: int)
      ensures this.score == score && this.highScore == highScore
      ensures this.level == level && this.shipsLeft == shipsLeft
    {
      this.score, this.highScore := score, highScore;
      this.level, this.shipsLeft := level, shipsLeft;
    }
  }

  class Scoreboard {
    const stats: GameStats
    /** Width of a ship icon, in pixels. */
    const shipWidth: nat
    /** Content of the high-score file; None while it does not exist. */
    var file: Option<string>
    var scoreText: string
    var highScoreText: string
    var levelText: string
    var ships: seq<Icon>

    /** The file holds the unrounded high score in decimal. */
    ghost predicate Persisted()
      reads this, stats
    {
      file == Some(IntToDecimal(stats.highScore))
    }

    /**
     * Loads the high score from `file` (the file as found at start-up), writes it
     * back, and prepares every display.
     */
    constructor (stats: GameStats, file: Option<string>, shipWidth: nat)
      modifies stats
      ensures this.stats == stats && this.shipWidth == shipWidth
      ensures stats.highScore == LoadedHighScore(file)
      ensures stats.score == old(stats.score) && stats.level == old(stats.level)
      ensures stats.shipsLeft == old(stats.shipsLeft)
      ensures Persisted()
      ensures LoadedHighScore(this.file) == stats.highScore
      ensures file.Some? && IsCanonical(file.value) ==> this.file == file
      ensures scoreText == ScoreText(stats.score)
      ensures highScoreText == HighScoreText(stats.highScore)
      ensures levelText == LevelText(stats.level)
      ensures ships == ShipLayout(stats.shipsLeft, shipWidth)
    {
      this.stats := stats;
      this.shipWidth := shipWidth;
      this.file := file;
      scoreText, highScoreText, levelText := "", "", "";
      ships := [];
      new;
      LoadHighScore();
      WriteBackLoaded(file);
      PrepScore();
      PrepHighScore();
      PrepLevel();
      PrepShips();
    }

    /** Rebuilds the lives icons from scratch for the current number of ships left. */
    method PrepShips()
      modifies this`ships
      ensures ships == ShipLayout(stats.shipsLeft, shipWidth)
    {
      ships := [];
      var shipNumber := 0;
      while shipNumber < stats.shipsLeft
        invariant 0 <= shipNumber <= (if stats.shipsLeft < 0 then 0 else stats.shipsLeft)
        invariant ships == ShipLayout(shipNumber, shipWidth)
      {
        ships := ships + [Icon(5 + shipNumber * shipWidth, 5)];
        shipNumber := shipNumber + 1;
      }
    }

    method PrepLevel()
      modifies this`levelText
      ensures levelText == LevelText(stats.level)
    {
      levelText := "Level: " + IntToDecimal(stats.level);
    }

    method PrepScore()
      modifies this`scoreText
      ensures scoreText == ScoreText(stats.score)
    {
      var roundedScore := Round10(stats.score);
      scoreText := "Score: " + IntToDecimal(roundedScore);
    }

    /** Refreshes the high-score text and overwrites the file with the unrounded high score. */
    method PrepHighScore()
      modifies this`highScoreText, this`file
      ensures highScoreText == HighScoreText(stats.highScore)
      ensures Persisted()
    {
      var highScore := Round10(stats.highScore);
      highScoreText := "High Score: " + FormatThousands(highScore);
      file := Some(IntToDecimal(stats.highScore));
    }

    /** Raises the high score to the score when the score beats it, persisting the new value. */
    method CheckHighScore()
      modifies stats`highScore, this`highScoreText, this`file
      ensures stats.highScore >= old(stats.highScore) && stats.highScore >= stats.score
      ensures stats.highScore == old(stats.highScore) || stats.highScore == stats.score
      ensures stats.score == old(stats.score) && stats.level == old(stats.level)
      ensures stats.shipsLeft == old(stats.shipsLeft)
      ensures old(stats.score) <= old(stats.highScore) ==>
        stats.highScore == old(stats.highScore) && file == old(file) && highScoreText == old(highScoreText)
      ensures old(stats.score) > old(stats.highScore) ==>
        file == Some(IntToDecimal(stats.score)) && highScoreText == HighScoreText(stats.score)
      ensures old(stats.score) > old(stats.highScore) ==> LoadedHighScore(file) == stats.highScore
      ensures old(Persisted()) ==> Persisted()
    {
      if stats.score > stats.highScore {
        stats.highScore := stats.score;
        PrepHighScore();
        LoadAfterWrite(stats.highScore);
      }
    }

    /** Sets the high score from the file, falling back to 0. */
    method LoadHighScore()
      modifies stats`highScore
      ensures stats.highScore == LoadedHighScore(file)
    {
      if file.Some? {
        var parsed := ParseInt(file.value);
        if parsed.Some? {
          stats.highScore := parsed.value;
        } else {
          stats.highScore := 0;
        }
      } else {
        stats.highScore := 0;
      }
    }
  }

  /**
   * One game session: the scoreboard starts from the file as found, the score
   * reaches `score`, and the high score is checked. The file is left holding the
   * larger of the loaded high score and the score.
   */
  method PlaySession(file: Option<string>, score: int, shipWidth: nat) returns (saved: Option<string>)
    ensures var best := if score > LoadedHighScore(file) then score else LoadedHighScore(file);
      saved == Some(IntToDecimal(best)) && LoadedHighScore(saved) == best
  {
    var stats := new GameStats(0, 0, 1, 3);
    var board := new Scoreboard(stats, file, shipWidth);
    stats.score := score;
    board.CheckHighScore();
    saved := board.file;
    LoadAfterWrite(stats.highScore);
  }

  /**
   * Two sessions: the first starts without a file and reaches 150, the second
   * starts from the file the first left behind and only reaches 140.
   */
  method TwoSessions()
  {
    assert IntToDecimal(150) == "150" by {
      assert NatToDecimal(1) == "1" && NatToDecimal(15) == "15";
    }
    var first := PlaySession(None, 150, 60);
    assert first == Some("150");
    var second := PlaySession(first, 140, 60);
    assert second == Some("150");
  }
}
