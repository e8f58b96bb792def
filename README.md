# Word labyrinth: move state machine and launcher helpers

A console puzzle in which the player walks a token through a graph of lettered
vertices, spelling dictionary words on the way to an exit vertex. This project models,
in Dafny, the part of the game with exact rules:

- **`Game.start`'s move loop.** Each command line is trimmed and lower-cased. A line
  starting with `help` costs 30 points. Any other line is consumed one character at a
  time. Each character is one of four outcomes:
  - an invalid move (a penalty of 5 per remaining character, and the rest of the line is dropped);
  - a step onto the end vertex (the game ends; a 200-point bonus if the counted moves
    equal the shortest path length; a won or lost message by the sign of the score);
  - an accepted move (counted; a completed word earns 10 per letter and clears the buffer);
  - a rejected move (5 or 10 points off, the position put back and the letter dropped).
- **`Game.help`'s scoring and pause length**, and the order in which it walks the
  distinct paths.
- **The launcher's pure helpers**:
  - `stripAnsi`, written as a scanner for the pattern `ESC [ [;0-9]* m`;
  - `centerText`, with Java's truncating division written out;
  - the W/S wrap-around menu and its key loop;
  - the level-number `switch` that picks the difficulty.

The labyrinth, the player and the dictionary are not part of this model. Their
operations are fields of the datatype `Game.Labyrinth`: function values for the queries,
and plain values for the end vertex, the shortest path length and the distinct paths.
Nothing is assumed about any of them:
- `neighbor`: `None` where `Player.move` throws `InvalidMoveException`;
- `end`;
- `labelOf`;
- `endIsReachable`;
- `doesPrefixExist`;
- `dictionaryContains`;
- `shortestPathLength`;
- `distinctPaths`.

Vertices are compared with `==`, which is identity, as in the source.

The modules are:
- `Wrappers`: `Option`.
- `JavaLang`: the Java library semantics that the code relies on: `trim`,
  `toLowerCase`, `startsWith`, `repeat`, `/` and `%`.
- `Game`:
  - `Difficulty`, the enum at src/Game.java:11-15;
  - the pure specification of the move loop: `MoveStep` for one character, `Run`
    for one command, `HandleLine` for one input line and `Play` for the whole input;
  - the lemmas about it;
  - the class `Game`. Its `RunCommand`, `Help` and `Start` update the fields in place
    and are proved to end in the state the pure functions give.
- `Main`: `StripAnsi`, `CenterText`, the menu and `LevelDifficulty`.

The player's score and position are fields of the class `Game`, because `Player` is not
part of this model. The local counter `steps` of `start` is passed into `RunCommand` and
returned from it.

## Model

| member | source | states |
|---|---|---|
| `JavaLang.JavaDiv` | src/Main.java:53 | Java's `/`: the remainder is smaller than the divisor in magnitude and has the dividend's sign; for non-negative operands it is floor division |
| `JavaLang.JavaRem` | src/Main.java:123-125 | Java's `%`: smaller than the divisor in magnitude, with the dividend's sign, and differing from the dividend by a multiple of the divisor; together these fix the value; equal to Dafny's `%` for non-negative operands |
| `JavaLang.Trim` | src/Game.java:74 | `trim()`: the result is a contiguous slice of the line with no blank at either end, and every character cut off is a blank (code point at or below U+0020) |
| `JavaLang.ToLower` | src/Game.java:74 | `toLowerCase()` on ASCII: same length, each character lower-cased in place, no upper-case ASCII letter left |
| `JavaLang.ToLowerIdempotent` | src/Game.java:74 | lower-casing twice equals lower-casing once |
| `JavaLang.StartsWith` | src/Game.java:77 | `startsWith`: holds exactly when the string is the prefix followed by some rest |
| `JavaLang.Spaces` | src/Main.java:55 | `" ".repeat(n)` is `n` characters, all spaces |
| `Game.FinalMessage` | src/Game.java:114 | the end-of-game message has "lost" framing iff the score is negative, and "won" framing otherwise; it carries that score |
| `Game.MoveStep` | src/Game.java:85-160 | one iteration of the move loop adds 0 or 1 to `steps` and never sets `isRunning` back to true |
| `Game.Run` | src/Game.java:84-161 | the loop over one command runs at most once per character and at least once for a non-empty command; `steps` never decreases and grows by at most one per iteration |
| `Game.InvalidMoveAbortsCommand` | src/Game.java:90-98 | a refused move ends the command in one iteration; the score drops by exactly 5 × the remaining length, the failed character included; buffer, steps, position and running flag are unchanged |
| `Game.EndVertexFinishesGame` | src/Game.java:101-116 | reaching the end vertex stops the game and the command; the buffer is not extended and the move is not counted; the score rises by 200 iff `steps == shortestPathLength` and by 0 otherwise; lost iff the score is negative |
| `Game.AcceptedMoveIsCounted` | src/Game.java:118-135 | when the end stays reachable with the extended word, `steps` rises by exactly 1 and the player stays on the new vertex; a dictionary word earns 10 × its length and empties the buffer; otherwise the score is unchanged and the buffer grows by exactly the new label |
| `Game.RejectedMoveIsUndone` | src/Game.java:136-151 | when the end is not reachable, position, buffer and steps are those before the move; the score drops by 5 if the extended word is a dictionary prefix and by 10 otherwise |
| `Game.EarlyExitOnlyOnAbortOrEnd` | src/Game.java:84-160 | a command stops before its last character only through an invalid move or by reaching the end; otherwise each character is consumed by one iteration |
| `Game.FinishedExactlyAtEnd` | src/Game.java:101-116 | starting from a running game off the end vertex, the game is finished after a command iff the player stands on the end vertex |
| `Game.BufferStaysViable` | src/Game.java:118-151 | in a running game the collected word is empty, or an unfinished word with which the end is reachable from the player's position; every command preserves this |
| `Game.NormalizeCommand` | src/Game.java:74 | `trim().toLowerCase()`: no longer than the line, no blank at either end, no upper-case letter left |
| `Game.NormalizeCommandIdempotent` | src/Game.java:74 | normalizing a normalized command changes nothing |
| `Game.IsHelpCommand` | src/Game.java:77 | a command asks for help exactly when it is `help` followed by anything |
| `Game.HelpInAnyCase` | src/Game.java:74-77 | the padded, mixed-case line " HeLp " asks for help |
| `Game.HelpPrefixOnly` | src/Game.java:74-77 | "helpme" asks for help, because only the prefix is tested; "hel" does not |
| `Game.HandleLine` | src/Game.java:74-161 | one line of input never restarts a finished game, and `steps` never decreases and grows by at most the length of the line |
| `Game.Play` | src/Game.java:69-162 | the `while (isRunning)` loop never restarts a finished game, and `steps` never decreases |
| `Game.PlayFinishedExactlyAtEnd` | src/Game.java:69-162 | over a whole game started off the end vertex, the game is finished exactly when the player stands on the end vertex |
| `Game.HelpLineCosts30` | src/Game.java:74-81 | a line that starts with `help` in any letter case moves nothing and changes the score by exactly −30, whatever the difficulty |
| `Game.PlayStepsBounded` | src/Game.java:66-161 | over the whole input the step counter never decreases and grows by at most the number of characters typed |
| `Game.FinishedGameIgnoresInput` | src/Game.java:69 | once the game is not running, further lines change nothing |
| `Game.HelpLevel` | src/Game.java:170-173 | `helpLevel` is 3 iff EASY, 2 iff MEDIUM and 1 iff HARD |
| `Game.HintPauseMs` | src/Game.java:182 | the pause per hint path is a positive multiple of 500 ms, at most 1500 ms |
| `Game.HintPausesByDifficulty` | src/Game.java:170-182 | the pause per hint path is 1500, 1000 and 500 ms: longer for easier levels |
| `Game.CatCorridorScenarios` | src/Game.java:84-161 | on a corridor spelling "cat", "eeee" scores 30 + 200 and wins with 3 counted steps; "eew" loses 5 for the one invalid character and keeps "ca" |
| `Game.Game.constructor` | src/Game.java:45-53 | a new session is not running, has an empty buffer and message, and the player stands on the start vertex |
| `Game.Game.RunCommand` | src/Game.java:84-161 | the in-place loop leaves score, position, buffer, running flag, message and `steps` exactly as `Run` specifies |
| `Game.Game.Help` | src/Game.java:169-187 | the score drops by 30; each distinct path is shown in order, each for 500 × `helpLevel` ms |
| `Game.Game.HandleCommandLine` | src/Game.java:74-81 | one input line, trimmed and lower-cased, either runs `help` or the moves, leaving the state `HandleLine` specifies |
| `Game.Game.Start` | src/Game.java:55-166 | marks the game running, then handles the lines until the game ends or the input runs out; the final state is `Play`'s |
| `Main.IsSgr` | src/Main.java:60 | a match of `ESC [ [;0-9]* m` has `m` only as its last character, which is why a match cannot be extended |
| `Main.SgrLength` | src/Main.java:60 | a positive result is the length of a whole match of the escape pattern at the front of the string |
| `Main.SgrMatchUnique` | src/Main.java:60 | at most one prefix matches the pattern, and `SgrLength` finds it, so the regex match is deterministic |
| `Main.StripAnsi` | src/Main.java:59-61 | stripping never lengthens the text |
| `Main.StripAnsiKeepsEscFreePrefix` | src/Main.java:60 | an ESC-free prefix is kept unchanged in front of the stripped rest |
| `Main.StripAnsiWithoutEsc` | src/Main.java:60 | a string without ESC is returned unchanged |
| `Main.StripAnsiDropsLeadingSgr` | src/Main.java:60 | a whole escape sequence at the front is removed |
| `Main.StripAnsiColouredCaption` | src/Main.java:9-12 | a caption coloured with GREEN, YELLOW or CYAN and closed with RESET strips back to the ESC-free caption |
| `Main.StripAnsiNotIdempotent` | src/Main.java:60 | "ESC ESC [ m [ m" strips to "ESC [ m", which strips again to "": stripping is not idempotent |
| `Main.CenterText` | src/Main.java:52-56 | the result is `max(0, (w − visible length) / 2)` spaces followed by the text; Java's truncating quotient agrees with floor division after the clamp; the text is a suffix |
| `Main.CenterTextWide` | src/Main.java:53-55 | when the visible text is at least `w` wide, the text is returned unchanged |
| `Main.CenterTextCentred` | src/Main.java:52-56 | for a narrower text, what is visible is `pad = (w − visible length) / 2` spaces followed by the visible text, and the width left on the right is `pad` or `pad + 1` |
| `Main.MenuStep` | src/Main.java:119-126 | only Enter (LF or CR) ends the menu; a selection in `[0, 3)` stays in `[0, 3)` |
| `Main.MenuUpDownInverse` | src/Main.java:122-125 | `w` and `W` map `s` to `(s + 2) % 3`; `s` and `S` map it to `(s + 1) % 3`; up then down, or down then up, restores the selection |
| `Main.MenuIgnoresOtherKeys` | src/Main.java:119-126 | any key other than Enter, w, W, s, S leaves the selection unchanged and the menu open |
| `Main.MenuChoice` | src/Main.java:103-129 | a level is chosen iff some key read is Enter, and it lies in 1..3 |
| `Main.DisplayLevelMenu` | src/Main.java:97-130 | the key loop returns `MenuChoice` of the keys read: a level in 1..3 iff an Enter is read |
| `Main.LevelDifficulty` | src/Main.java:32-45 | 1 gives EASY, 3 gives HARD, and 2 or any other integer gives MEDIUM |
| `Main.MenuLevelsCoverDifficulties` | src/Main.java:22-45 | a level returned by the menu maps to EASY, MEDIUM or HARD in menu order, never through the default branch |

## Left out

- Rendering: `Game.render`, `displayWelcomeScreen`, the hint highlight styles, and the
  `addStyles`/`removeStyles` calls. They only produce terminal output.
- Console I/O: `Scanner`, `System.in.read`, `flushInput`, `clearConsole`, and the splash
  and instruction screens. Input lines and menu keys are parameters instead. Each menu
  key stands for the first byte of one read, because `flushInput` discards the rest of
  the line.
- End of input: when the input runs out, `Start` and `DisplayLevelMenu` stop
  (`DisplayLevelMenu` returns `None`). The source would throw at the end of input
  (`Scanner`) or spin on the value −1 (`System.in.read`).
- `Thread.sleep`: only the duration of each pause is modelled, in `Help`'s result and in
  `HintPauseMs`.
- Loading a labyrinth from a file in the constructor. The constructor takes the
  labyrinth, the start vertex and the initial score as parameters instead.
- Internals of `Labyrinth`, `Player`, `Vertex`, `Style` and the dictionary: path
  enumeration, shortest path, distinct paths, the trie, and `Player.move`. They are not
  part of this model and appear only as the fields of `Labyrinth`.
- The wording of the status messages. `Message` records only which branch set the
  message, with the word or score that branch inserts, except the exception text of the
  invalid-move message.
- The bonus message at src/Game.java:109 is overwritten by src/Game.java:114 before
  anyone can see it, so `Message` has no variant for it.
- `ToLower`: maps only the ASCII letters `A`–`Z`. Java's `toLowerCase` also folds other
  Unicode letters, and it depends on the locale. Direction characters are ASCII.
- `Game.MoveStep`, `Game.InvalidMoveAbortsCommand` and `Game.Game.RunCommand`: a command
  is consumed one Unicode scalar value at a time, while Java's `charAt(0)`,
  `substring(1)` and `length()` work on UTF-16 code units. So for characters above
  U+FFFF, the number of iterations and the invalid-move penalty differ from Java's: Java
  charges 5 for each surrogate half.
- `Main.CenterText`: counts the visible length in Unicode scalar values, while Java's
  `length()` counts UTF-16 code units, so the padding differs for text with characters
  above U+FFFF. It also does not model the 32-bit wrap-around of `consoleWidth −
  length`, which only extreme widths reach. The program calls it with widths 80 and 170
  and with captions inside the Basic Multilingual Plane.
- `Game.Game.RunCommand`: does not model the 32-bit wrap-around of Java `int` for
  the score and the counters. An overflow would need scores beyond ±2^31.
