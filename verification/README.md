# Alien Invasion scoreboard, modelled in Dafny

A model of the non-graphical logic of the `Scoreboard` class of the Alien
Invasion game (`alien_invasion/scoreboard.py`): the high-score bookkeeping
against the persisted file `high_score.txt`, the round-to-nearest-10 applied to
the score and the high score before display, the thousands-separated high-score
text, the plain decimal texts of score and level, and the layout of the
remaining-lives icons.

- `Wrappers.dfy`: the `Option` type used for an absent file and a failed parse.
- `Decimal.dfy`: `str` on an int (`IntToDecimal`) and `int` on a string
  (`ParseInt`), with the round trip between them in both directions and the
  effect of a sign or leading zeros on what is parsed.
- `Rounding.dfy`: `round(n, -1)` on an int (`Round10`), round half to even.
- `Thousands.dfy`: the `,` format option (`FormatThousands`) and where its commas sit.
- `Scoreboard.dfy`: the display texts, the lives-icon layout, the loaded high
  score, and the classes `GameStats` and `Scoreboard`. A rendered image is
  represented by the text it shows; the file is the field `file: Option<string>`
  (`None` while the file does not exist); the ship icon's width is the
  constructor parameter `shipWidth`. `PlaySession` runs one game session
  against the file, and `TwoSessions` plays two: the first starts without a
  file and reaches 150, the second loads 150 and only reaches 140, leaving the
  file at `"150"`.

Rounding is not a floor: Python's `round(n, -1)` on an int gives the nearest
multiple of 10 and breaks an exact tie toward the multiple whose quotient by 10
is even (25 gives 20, 35 gives 40, -25 gives -20).

## Model

| member | source | states |
|---|---|---|
| Decimal.IntToDecimal | alien_invasion/scoreboard.py:85 | `str(n)` is non-empty, all digits for n >= 0, `-` then digits for n < 0 |
| Decimal.NatToDecimal | alien_invasion/scoreboard.py:85 | the digits of a natural number are non-empty, with a leading `0` exactly when the number is 0 |
| Decimal.ParseInt | alien_invasion/scoreboard.py:98 | `int(text)` succeeds exactly on an optional `+`/`-` followed by one or more ASCII digits; its value on every such text is fixed by the sign, leading-zero and canonical-text lemmas below |
| Decimal.ParseIntToDecimal | alien_invasion/scoreboard.py:98 | reading back what `str` wrote yields the same integer, for every integer (no digit limit, see Left out) |
| Decimal.DigitsValueOfDecimal | alien_invasion/scoreboard.py:85 | the digits written for n have the value n |
| Decimal.ParseIntPlusSign | alien_invasion/scoreboard.py:98 | a `+` before digits parses to the same value as the digits alone |
| Decimal.ParseIntMinusSign | alien_invasion/scoreboard.py:98 | a `-` before digits parses to the negated value of the digits, so `-0` parses as 0 |
| Decimal.ParseIntLeadingZero | alien_invasion/scoreboard.py:98 | a leading `0` before digits does not change the parsed value |
| Decimal.DigitsValueLeadingZero | alien_invasion/scoreboard.py:98 | a leading `0` does not change the value of a digit string |
| Decimal.DecimalOfParseInt | alien_invasion/scoreboard.py:98 | every canonical decimal text parses, and writing the parsed value back gives the same text |
| Decimal.IntToDecimalIsCanonical | alien_invasion/scoreboard.py:85 | `str` never writes a superfluous sign, leading zero or `-0` |
| Rounding.Round10 | alien_invasion/scoreboard.py:56 | `round(n, -1)` is a multiple of 10 within 5 of n, and at distance exactly 5 its quotient by 10 is even |
| Rounding.Round10Nearest | alien_invasion/scoreboard.py:56 | no multiple of 10 is closer to n than `round(n, -1)` |
| Rounding.Round10Unique | alien_invasion/scoreboard.py:74 | any multiple of 10 within 5 of n that breaks ties toward an even quotient is `round(n, -1)` |
| Rounding.Round10Monotonic | alien_invasion/scoreboard.py:56 | a larger value never rounds to a smaller one |
| Rounding.Round10Idempotent | alien_invasion/scoreboard.py:74 | rounding a rounded value changes nothing |
| Rounding.Round10Examples | alien_invasion/scoreboard.py:56 | 25 and 15 give 20, 35 gives 40, -25 gives -20, 1235 gives 1240 |
| Thousands.FormatThousandsMeaning | alien_invasion/scoreboard.py:75 | the contract of `FormatThousands`, i.e. `f"{n:,}"`: it starts with `-` exactly when n < 0, the rest is grouped digits, and without its commas it is `str(n)`, which parses back to n |
| Thousands.RemoveCommasGroup3 | alien_invasion/scoreboard.py:75 | grouping digits and then removing the commas gives back the digits |
| Thousands.Group3Layout | alien_invasion/scoreboard.py:75 | grouped digits have (d - 1) / 3 commas, each exactly where the distance to the end is a multiple of 4, so the first group has 1 to 3 digits and every later group 3 |
| Thousands.GroupedAppend | alien_invasion/scoreboard.py:75 | a further comma and 3-digit group keeps grouped text grouped |
| Thousands.FormatThousandsSmallExamples | alien_invasion/scoreboard.py:75 | 0 and 999 format as `0` and `999`, without a comma |
| Thousands.FormatThousandsGroupedExamples | alien_invasion/scoreboard.py:75 | 1000 and -1234 format as `1,000` and `-1,234` |
| Scoreboard.ScoreTextMeaning | alien_invasion/scoreboard.py:56-57 | the contract of `ScoreText`: the score line is `Score: ` followed by the canonical decimal (no leading zeros, no `+`) that parses to the score rounded to 10 |
| Scoreboard.HighScoreTextMeaning | alien_invasion/scoreboard.py:74-75 | the contract of `HighScoreText`: the line is `High Score: ` followed by a minus sign exactly when the rounded high score is negative, then digits grouped in threes by commas that, without the commas, are `str` of the rounded high score and parse back to it |
| Scoreboard.LevelTextMeaning | alien_invasion/scoreboard.py:46 | the contract of `LevelText`: the level line is `Level: ` followed by the canonical decimal that parses to the level |
| Scoreboard.LoadedHighScore | alien_invasion/scoreboard.py:95-104 | what `load_high_score` obtains: whenever the content parses as `int` (leading zeros and a sign included) the result is that value, and a non-zero result only comes from such content, so a missing or unparsable file gives 0 |
| Scoreboard.LoadAfterWrite | alien_invasion/scoreboard.py:95-98 | loading a file that holds the written high score yields that high score |
| Scoreboard.LoadCanonical | alien_invasion/scoreboard.py:95-104 | content `str` could have written loads as the value whose `str` is exactly that content |
| Scoreboard.WriteBackLoaded | alien_invasion/scoreboard.py:27-31 | the value `__init__` loads and then writes back loads again as itself, and a file holding text `str` could have written keeps exactly that text |
| Scoreboard.LoadedHighScoreExamples | alien_invasion/scoreboard.py:93-104 | `"1234"` loads as 1234; `"abc"`, empty content and a missing file load as 0 |
| Scoreboard.ShipLayout | alien_invasion/scoreboard.py:37-42 | the icons for n lives: max(0, n) of them, icon i at (5 + i * w, 5) |
| Scoreboard.Scoreboard.constructor | alien_invasion/scoreboard.py:10-33 | the high score is the loaded one, the file afterwards exists and holds it (unchanged if it was canonical), and every display is prepared |
| Scoreboard.Scoreboard.PrepShips | alien_invasion/scoreboard.py:35-42 | the previous icons are replaced by the layout for the current ships left |
| Scoreboard.Scoreboard.PrepLevel | alien_invasion/scoreboard.py:44-47 | the level text is refreshed from the level |
| Scoreboard.Scoreboard.PrepScore | alien_invasion/scoreboard.py:54-58 | the score text is refreshed from the rounded score |
| Scoreboard.Scoreboard.PrepHighScore | alien_invasion/scoreboard.py:72-85 | the high-score text is refreshed and the file overwritten with the unrounded high score |
| Scoreboard.Scoreboard.CheckHighScore | alien_invasion/scoreboard.py:87-91 | the high score becomes the larger of itself and the score; when the score does not beat it nothing changes, file included (so a second call is a no-op); otherwise the file holds the new high score, which loads back unchanged; score, level and ships left are untouched |
| Scoreboard.Scoreboard.LoadHighScore | alien_invasion/scoreboard.py:93-104 | the high score is set to what the file loads as, 0 for a missing or unparsable file |
| Scoreboard.PlaySession | alien_invasion/scoreboard.py:87-91 | a session that starts from a file and reaches a score leaves the file holding the larger of the loaded high score and the score, which loads back as that value |

The display-text functions `ScoreText`, `HighScoreText` and `LevelText`, and
`FormatThousands`, state their contracts in the lemmas named `...Meaning` in the
rows above, rather than in `ensures` clauses of their own.

## Left out

- Font creation, text rendering, colours and the `get_rect` rectangles, including the screen-relative placement of the score, level and high-score texts: these are graphics-library calls; a text stands for its rendered image.
- `show_score`: drawing onto the screen, with nothing to state beyond the calls it makes.
- The `Ship` sprite: only its width matters, given as `shipWidth`; `ship.py` is not part of this model.
- `GameStats` is not part of this model beyond its four integer fields.
- Real file-system access: existence checks, opening and truncation are not modelled; the file is a field holding text. Errors raised by `open` or `write` (permissions, a full disk) propagate to the caller in Python and are not modelled. Reading happens inside the `try`, and content that does not decode as text raises `UnicodeDecodeError`, a kind of `ValueError`, so it loads as 0; such content cannot be represented in `file: Option<string>`, which only holds decoded text.
- Decimal.ParseInt: accepts only an optional sign and ASCII digits; Python's `int` also allows surrounding whitespace, `_` between digits and non-ASCII decimal digits. It also has no digit limit: since Python 3.11 (and the 2022 security releases of 3.7 to 3.10), `int` raises `ValueError` on more than 4300 digits, which `load_high_score` then turns into 0.
- Decimal.IntToDecimal: has no digit limit; under the same Python versions `str` raises `ValueError` for a value of more than 4300 digits, so `prep_high_score` would fail instead of writing such a high score, and the f-strings of `prep_score`, `prep_high_score` and `prep_level` would fail instead of showing it. `ParseIntToDecimal`, `LoadAfterWrite`, `WriteBackLoaded`, `PrepHighScore`, `ScoreText`, `LevelText`, `FormatThousands` and `HighScoreText` likewise assume values below that limit.
