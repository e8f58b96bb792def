/** One play-through of the word labyrinth: the per-character move state machine of
    `Game.start` and the score part of `Game.help`.

    The labyrinth, the player's movement and the dictionary are not part of this model;
    they enter as the uninterpreted oracles of `Labyrinth`. The pure functions `MoveStep`,
    `Run`, `HandleLine` and `Play` state what one character, one command, one input line and
    a whole input do to the session; the class `Game` performs the same updates in place and
    is proved against them. */
module Game {
  import opened Wrappers
  import opened JavaLang

  /** The three levels of the game. */
  datatype Difficulty = EASY | MEDIUM | HARD

  /** Which branch of the move loop last set the status message. Only the scores and
      words the messages carry are kept, not their wording. */
  datatype Message =
    | NoMessage
    | InvalidMove
    | Lost(finalScore: int)
    | Won(finalScore: int)
    | FoundWord(word: string)
    | KeepGoing
    | DeadEnd
    | NoWordStartsWith(prefix: string)

  /** What the session asks of the labyrinth, the player and the dictionary.
      `neighbor` yields `None` where `Player.move` throws `InvalidMoveException`;
      `shortestPathLength` is computed once when the game starts. Vertices are
      compared by `==`, i.e. by identity. */
  datatype Labyrinth<!V> = Labyrinth(
    neighbor: (V, char) -> Option<V>,
    end: V,
    labelOf: V -> char,
    endIsReachable: (V, string) -> bool,
    doesPrefixExist: string -> bool,
    dictionaryContains: string -> bool,
    shortestPathLength: int,
    distinctPaths: seq<seq<V>>)

  const INVALID_MOVE_PENALTY: int := 5
  const DEAD_END_PENALTY: int := 5
  const NO_PREFIX_PENALTY: int := 10
  const SHORTEST_PATH_BONUS: int := 200
  const LETTER_BONUS: int := 10
  const HELP_COST: int := 30
  const HINT_PAUSE_UNIT_MS: int := 500

  /** The mutable part of a session, together with the `steps` counter kept by `start`. */
  datatype State<V> = State(
    score: int,
    position: V,
    collectedWord: string,
    steps: int,
    isRunning: bool,
    message: Message)

  /** One iteration of the move loop either goes on with the next character or leaves the loop. */
  datatype Step<V> = Continue(state: State<V>) | Stop(state: State<V>)

  /** The state after a whole command and the number of loop iterations it took. */
  datatype Outcome<V> = Outcome(state: State<V>, iterations: nat)

  /** The message shown when the end vertex is reached: "lost" framing exactly when
      the score (bonus included) is negative. */
  function FinalMessage(score: int): (m: Message)
    ensures m.Lost? <==> score < 0
    ensures m.Won? <==> score >= 0
    ensures (m.Lost? || m.Won?) && m.finalScore == score
  {
    if score < 0 then Lost(score) else Won(score)
  }

  /** One iteration of the move loop, for the command `moves` whose first character
      is the direction to take. */
  function MoveStep<V(==)>(lab: Labyrinth<V>, st: State<V>, moves: string): (r: Step<V>)
    requires moves != []
    ensures r.state.steps == st.steps || r.state.steps == st.steps + 1
    ensures r.state.isRunning ==> st.isRunning
  {
    match lab.neighbor(st.position, moves[0])
    case None =>
      Stop(st.(score := st.score - |moves| * INVALID_MOVE_PENALTY, message := InvalidMove))
    case Some(p) =>
      if p == lab.end then
        var score := if st.steps == lab.shortestPathLength then st.score + SHORTEST_PATH_BONUS else st.score;
        Stop(st.(position := p, isRunning := false, score := score, message := FinalMessage(score)))
      else
        var word := st.collectedWord + [lab.labelOf(p)];
        if lab.endIsReachable(p, word) then
          if lab.dictionaryContains(word) then
            Continue(st.(position := p, steps := st.steps + 1, score := st.score + |word| * LETTER_BONUS,
                         collectedWord := [], message := FoundWord(word)))
          else
            Continue(st.(position := p, steps := st.steps + 1, collectedWord := word, message := KeepGoing))
        else if lab.doesPrefixExist(word) then
          Continue(st.(score := st.score - DEAD_END_PENALTY, collectedWord := word[..|word| - 1],
                       message := DeadEnd))
        else
          Continue(st.(score := st.score - NO_PREFIX_PENALTY, collectedWord := word[..|word| - 1],
                       message := NoWordStartsWith(word)))
  }

  /** The `while (!moves.isEmpty())` loop over one command: at most one iteration per
      character, at least one for a non-empty command, and each iteration adds at most
      one to `steps`, which never decreases. */
  function Run<V(==)>(lab: Labyrinth<V>, st: State<V>, moves: string): (r: Outcome<V>)
    ensures r.iterations <= |moves|
    ensures moves != [] ==> 1 <= r.iterations
    ensures st.steps <= r.state.steps <= st.steps + r.iterations
    ensures r.state.isRunning ==> st.isRunning
    decreases |moves|
  {
    if moves == [] then Outcome(st, 0)
    else
      match MoveStep(lab, st, moves)
      case Stop(s) => Outcome(s, 1)
      case Continue(s) =>
        var o := Run(lab, s, moves[1..]);
        Outcome(o.state, o.iterations + 1)
  }

  /** A command line is trimmed and lower-cased before anything else.
      The result is no longer than the line, has no blank at either end and no
      upper-case letter. */
  function NormalizeCommand(line: string): (m: string)
    ensures |m| <= |line|
    ensures m == [] || (!IsBlank(m[0]) && !IsBlank(m[|m| - 1]))
    ensures forall i :: 0 <= i < |m| ==> !IsUpperAscii(m[i])
  {
    ToLower(Trim(line))
  }

  /** Normalizing a normalized command changes nothing. */
  lemma NormalizeCommandIdempotent(line: string)
    ensures NormalizeCommand(NormalizeCommand(line)) == NormalizeCommand(line)
  {
    var m := NormalizeCommand(line);
    TrimOfTrimmed(m);
    ToLowerIdempotent(Trim(line));
  }

  /** A line with no blank at either end is its own trim. */
  lemma TrimOfTrimmed(s: string)
    requires s == [] || (!IsBlank(s[0]) && !IsBlank(s[|s| - 1]))
    ensures Trim(s) == s
  {
    assert LeadingBlanks(s) == 0 || |s| == 0;
    assert KeptLength(s) == |s|;
    assert s[0..|s|] == s;
  }

  /** A (normalized) command asks for help exactly when it is "help" followed by anything. */
  predicate IsHelpCommand(moves: string)
    ensures IsHelpCommand(moves) <==> exists rest :: moves == "help" + rest
  {
    StartsWith(moves, "help")
  }

  /** Upper-case and padded spellings ask for help too. */
  lemma HelpInAnyCase()
    ensures IsHelpCommand(NormalizeCommand(" HeLp "))
  {
    var s := " HeLp ";
    assert LeadingBlanks(s) == 1 by {
      assert s[1..][0] == 'H';
    }
    assert KeptLength(s) == 5 by {
      assert s[..5][4] == 'p';
    }
    assert Trim(s) == "HeLp";
    assert ToLower("HeLp") == "help";
  }

  /** Any longer word starting with "help" asks for help; a shorter word does not. */
  lemma HelpPrefixOnly()
    ensures IsHelpCommand(NormalizeCommand("helpme"))
    ensures !IsHelpCommand(NormalizeCommand("hel"))
  {
    TrimOfTrimmed("helpme");
  }

  /** One iteration of the outer `while (isRunning)` loop: one input line. It never
      restarts a finished game, and `steps` grows by at most the length of the line. */
  function HandleLine<V(==)>(lab: Labyrinth<V>, st: State<V>, line: string): (r: State<V>)
    ensures st.steps <= r.steps <= st.steps + |line|
    ensures r.isRunning ==> st.isRunning
  {
    var moves := NormalizeCommand(line);
    if IsHelpCommand(moves) then st.(score := st.score - HELP_COST)
    else Run(lab, st, moves).state
  }

  /** The outer loop over the lines read, until the game stops or the input runs out.
      A finished game is never restarted and `steps` never decreases. */
  function Play<V(==)>(lab: Labyrinth<V>, st: State<V>, lines: seq<string>): (r: State<V>)
    ensures r.isRunning ==> st.isRunning
    ensures st.steps <= r.steps
    decreases |lines|
  {
    if !st.isRunning || lines == [] then st
    else Play(lab, HandleLine(lab, st, lines[0]), lines[1..])
  }

  /** The per-path pause factor of `help`. */
  function HelpLevel(d: Difficulty): (r: int)
    ensures r == 3 <==> d == EASY
    ensures r == 2 <==> d == MEDIUM
    ensures r == 1 <==> d == HARD
  {
    match d
    case EASY => 3
    case MEDIUM => 2
    case HARD => 1
  }

  /** How long each hint path stays highlighted, in milliseconds. */
  function HintPauseMs(d: Difficulty): (ms: int)
    ensures 0 < ms <= 3 * HINT_PAUSE_UNIT_MS && ms % HINT_PAUSE_UNIT_MS == 0
  {
    HINT_PAUSE_UNIT_MS * HelpLevel(d)
  }

  /** Easier levels show each hint longer: 1500, 1000 and 500 ms. */
  lemma HintPausesByDifficulty()
    ensures HintPauseMs(EASY) == 1500 && HintPauseMs(MEDIUM) == 1000 && HintPauseMs(HARD) == 500
    ensures HintPauseMs(EASY) > HintPauseMs(MEDIUM) > HintPauseMs(HARD) > 0
  {
  }

  /** A move the labyrinth refuses ends the command: the score drops by 5 for every
      character still in the command (the failed one included), the rest is discarded,
      and nothing else changes; the game keeps running if it was. */
  lemma InvalidMoveAbortsCommand<V>(lab: Labyrinth<V>, st: State<V>, moves: string)
    requires moves != [] && lab.neighbor(st.position, moves[0]).None?
    ensures Run(lab, st, moves) ==
            Outcome(st.(score := st.score - INVALID_MOVE_PENALTY * |moves|, message := InvalidMove), 1)
  {
  }

  /** Reaching the end vertex finishes the game and the command at once: the word is not
      extended, the move is not counted, and the score rises by 200 exactly when the
      accepted moves so far equal the shortest path length. */
  lemma EndVertexFinishesGame<V>(lab: Labyrinth<V>, st: State<V>, moves: string)
    requires moves != [] && lab.neighbor(st.position, moves[0]) == Some(lab.end)
    ensures var r := Run(lab, st, moves);
      && r.iterations == 1
      && !r.state.isRunning
      && r.state.position == lab.end
      && r.state.collectedWord == st.collectedWord
      && r.state.steps == st.steps
      && (st.steps == lab.shortestPathLength ==> r.state.score == st.score + SHORTEST_PATH_BONUS)
      && (st.steps != lab.shortestPathLength ==> r.state.score == st.score)
      && (r.state.message.Lost? <==> r.state.score < 0)
      && (r.state.message.Won? <==> r.state.score >= 0)
  {
  }

  /** A move to a vertex from which the end stays reachable with the extended word is
      counted. A completed dictionary word earns 10 points per letter and empties the
      buffer; otherwise the score stays and the buffer grows by the vertex's label. */
  lemma AcceptedMoveIsCounted<V>(lab: Labyrinth<V>, st: State<V>, moves: string, p: V)
    requires moves != [] && lab.neighbor(st.position, moves[0]) == Some(p) && p != lab.end
    requires lab.endIsReachable(p, st.collectedWord + [lab.labelOf(p)])
    ensures var word := st.collectedWord + [lab.labelOf(p)];
      var r := MoveStep(lab, st, moves);
      && r.Continue?
      && r.state.steps == st.steps + 1
      && r.state.position == p
      && r.state.isRunning == st.isRunning
      && (lab.dictionaryContains(word) ==>
            r.state.score == st.score + LETTER_BONUS * |word| && r.state.collectedWord == [])
      && (!lab.dictionaryContains(word) ==>
            r.state.score == st.score && r.state.collectedWord == word
            && |r.state.collectedWord| == |st.collectedWord| + 1)
  {
  }

  /** A move after which the end is no longer reachable is undone: position, buffer and
      step count are as before, and the score drops by 5 if the extended word is still a
      dictionary prefix and by 10 otherwise. */
  lemma RejectedMoveIsUndone<V>(lab: Labyrinth<V>, st: State<V>, moves: string, p: V)
    requires moves != [] && lab.neighbor(st.position, moves[0]) == Some(p) && p != lab.end
    requires !lab.endIsReachable(p, st.collectedWord + [lab.labelOf(p)])
    ensures var word := st.collectedWord + [lab.labelOf(p)];
      var r := MoveStep(lab, st, moves);
      && r.Continue?
      && r.state.position == st.position
      && r.state.collectedWord == st.collectedWord
      && r.state.steps == st.steps
      && r.state.isRunning == st.isRunning
      && (lab.doesPrefixExist(word) ==> r.state.score == st.score - DEAD_END_PENALTY)
      && (!lab.doesPrefixExist(word) ==> r.state.score == st.score - NO_PREFIX_PENALTY)
  {
    var word := st.collectedWord + [lab.labelOf(p)];
    assert word[..|word| - 1] == st.collectedWord;
  }

  /** The loop leaves a command before its last character only by an invalid move or by
      reaching the end; otherwise every character is consumed by one iteration. */
  lemma {:induction false} EarlyExitOnlyOnAbortOrEnd<V>(lab: Labyrinth<V>, st: State<V>, moves: string)
    ensures var r := Run(lab, st, moves);
      r.iterations < |moves| ==> r.state.message == InvalidMove || !r.state.isRunning
    decreases |moves|
  {
    if moves != [] {
      match MoveStep(lab, st, moves)
      case Stop(s) =>
      case Continue(s) => EarlyExitOnlyOnAbortOrEnd(lab, s, moves[1..]);
    }
  }

  /** While the game runs, the player is never on the end vertex: the game is finished
      after a command exactly when the player stands on the end vertex. */
  lemma {:induction false} FinishedExactlyAtEnd<V>(lab: Labyrinth<V>, st: State<V>, moves: string)
    requires st.isRunning && st.position != lab.end
    ensures var r := Run(lab, st, moves).state;
      r.isRunning <==> r.position != lab.end
    decreases |moves|
  {
    if moves != [] {
      match MoveStep(lab, st, moves)
      case Stop(s) =>
      case Continue(s) => FinishedExactlyAtEnd(lab, s, moves[1..]);
    }
  }

  /** The collected word of a running game is empty, or an unfinished word with which the
      end is still reachable from the player's position. */
  predicate BufferViable<V(==)>(lab: Labyrinth<V>, st: State<V>)
  {
    st.isRunning && st.collectedWord != [] ==>
      lab.endIsReachable(st.position, st.collectedWord) && !lab.dictionaryContains(st.collectedWord)
  }

  lemma {:induction false} BufferStaysViable<V>(lab: Labyrinth<V>, st: State<V>, moves: string)
    requires BufferViable(lab, st)
    ensures BufferViable(lab, Run(lab, st, moves).state)
    decreases |moves|
  {
    if moves != [] {
      match lab.neighbor(st.position, moves[0])
      case None =>
      case Some(p) =>
        if p != lab.end && !lab.endIsReachable(p, st.collectedWord + [lab.labelOf(p)]) {
          RejectedMoveIsUndone(lab, st, moves, p);
        }
      match MoveStep(lab, st, moves)
      case Stop(s) =>
      case Continue(s) => BufferStaysViable(lab, s, moves[1..]);
    }
  }

  /** A line that starts with "help" in any letter case moves nothing and costs exactly
      30 points, whatever the difficulty. */
  lemma HelpLineCosts30<V>(lab: Labyrinth<V>, st: State<V>, line: string)
    requires IsHelpCommand(NormalizeCommand(line))
    ensures HandleLine(lab, st, line) == st.(score := st.score - HELP_COST)
  {
  }

  /** Over a whole game the step counter never decreases and grows by at most the number
      of characters typed. */
  lemma {:induction false} PlayStepsBounded<V>(lab: Labyrinth<V>, st: State<V>, lines: seq<string>)
    ensures st.steps <= Play(lab, st, lines).steps <= st.steps + TotalLength(lines)
    decreases |lines|
  {
    if st.isRunning && lines != [] {
      PlayStepsBounded(lab, HandleLine(lab, st, lines[0]), lines[1..]);
    }
  }

  function TotalLength(lines: seq<string>): nat
  {
    if lines == [] then 0 else |lines[0]| + TotalLength(lines[1..])
  }

  /** Over a whole game started off the end vertex, the game is finished exactly when the
      player stands on the end vertex. */
  lemma {:induction false} PlayFinishedExactlyAtEnd<V>(lab: Labyrinth<V>, st: State<V>, lines: seq<string>)
    requires st.isRunning && st.position != lab.end
    ensures var r := Play(lab, st, lines);
      r.isRunning <==> r.position != lab.end
    decreases |lines|
  {
    if lines != [] {
      var moves := NormalizeCommand(lines[0]);
      if !IsHelpCommand(moves) {
        FinishedExactlyAtEnd(lab, st, moves);
      }
      var next := HandleLine(lab, st, lines[0]);
      if next.isRunning {
        PlayFinishedExactlyAtEnd(lab, next, lines[1..]);
      }
    }
  }

  /** Once the game is finished, further input changes nothing. */
  lemma FinishedGameIgnoresInput<V>(lab: Labyrinth<V>, st: State<V>, lines: seq<string>)
    requires !st.isRunning
    ensures Play(lab, st, lines) == st
  {
  }

  /** A corridor 0 -e-> 1 -e-> 2 -e-> 3 -e-> 4 labelled "c", "a", "t" on 1..3, with
      end vertex 4 and the single word "cat". */
  function CatCorridor(): Labyrinth<int>
  {
    Labyrinth(
      (v: int, d: char) => if d == 'e' && 0 <= v < 4 then Some(v + 1) else None,
      4,
      (v: int) => if v == 1 then 'c' else if v == 2 then 'a' else if v == 3 then 't' else '#',
      (v: int, w: string) => w == "c" || w == "ca" || w == "cat",
      (w: string) => w == "" || w == "c" || w == "ca" || w == "cat",
      (w: string) => w == "cat",
      3,
      [[0, 1, 2, 3, 4]])
  }

  /** Walking the corridor spells "cat" for 30 points, and reaching the end after the
      three counted moves adds the 200-point bonus; a move that does not exist half way
      through "eew" costs 5 for the one character left and keeps what was collected. */
  lemma CatCorridorScenarios()
    ensures Run(CatCorridor(), State(0, 0, [], 0, true, NoMessage), "eeee").state
            == State(230, 4, [], 3, false, Won(230))
    ensures Run(CatCorridor(), State(0, 0, [], 0, true, NoMessage), "eew").state
            == State(-5, 2, "ca", 2, true, InvalidMove)
  {
    var lab := CatCorridor();
    var s0 := State(0, 0, [], 0, true, NoMessage);
    var s1 := State(0, 1, "c", 1, true, KeepGoing);
    var s2 := State(0, 2, "ca", 2, true, KeepGoing);
    var s3 := State(30, 3, [], 3, true, FoundWord("cat"));
    assert MoveStep(lab, s0, "eeee") == Continue(s1);
    assert MoveStep(lab, s1, "eee") == Continue(s2);
    assert MoveStep(lab, s2, "ee") == Continue(s3);
    assert MoveStep(lab, s3, "e") == Stop(State(230, 4, [], 3, false, Won(230)));
    assert "eeee"[1..] == "eee" && "eee"[1..] == "ee" && "ee"[1..] == "e";
    assert MoveStep(lab, s0, "eew") == Continue(s1);
    assert MoveStep(lab, s1, "ew") == Continue(s2);
    assert MoveStep(lab, s2, "w") == Stop(State(-5, 2, "ca", 2, true, InvalidMove));
    assert "eew"[1..] == "ew" && "ew"[1..] == "w";
  }

  /** A highlighted hint: one distinct path and how long it stays on screen. */
  datatype Highlight<V> = Highlight(path: seq<V>, pauseMs: int)

  /** A running session. The player's score and position are kept here as fields,
      and `steps`, a local variable of `start`, is threaded through `RunCommand`. */
  class Game<V(==)> {
    const difficulty: Difficulty
    const labyrinth: Labyrinth<V>
    var isRunning: bool
    var score: int
    var position: V
    var collectedWord: string
    var message: Message

    /** The state right after construction, for a labyrinth already loaded and a player
        standing on its start vertex with the score `Player` starts with. */
    constructor (labyrinth: Labyrinth<V>, start: V, initialScore: int, difficulty: Difficulty)
      ensures this.labyrinth == labyrinth && this.difficulty == difficulty
      ensures Snapshot(0) == State(initialScore, start, [], 0, false, NoMessage)
    {
      this.isRunning := false;
      this.difficulty := difficulty;
      this.labyrinth := labyrinth;
      this.position := start;
      this.score := initialScore;
      this.collectedWord := [];
      this.message := NoMessage;
    }

    function Snapshot(steps: int): State<V>
      reads this
    {
      State(score, position, collectedWord, steps, isRunning, message)
    }

    /** The inner `while (!moves.isEmpty())` loop of `start`: processes one command
        character by character and leaves the session as `Run` says. */
    method RunCommand(command: string, steps0: int) returns (steps: int)
      modifies this
      ensures Snapshot(steps) == Run(labyrinth, old(Snapshot(steps0)), command).state
    {
      var moves := command;
      steps := steps0;
      while moves != []
        invariant |moves| <= |command|
        invariant steps0 <= steps <= steps0 + (|command| - |moves|)
        invariant Run(labyrinth, Snapshot(steps), moves).state == Run(labyrinth, old(Snapshot(steps0)), command).state
        decreases |moves|
      {
        ghost var before := Snapshot(steps);
        var direction := moves[0];
        var oldPosition := position;
        var next := labyrinth.neighbor(position, direction);
        if next.None? {
          score := score - |moves| * INVALID_MOVE_PENALTY;
          message := InvalidMove;
          assert Snapshot(steps) == MoveStep(labyrinth, before, moves).state;
          break;
        }
        position := next.value;
        if position == labyrinth.end {
          isRunning := false;
          if steps == labyrinth.shortestPathLength {
            score := score + SHORTEST_PATH_BONUS;
          }
          message := FinalMessage(score);
          assert Snapshot(steps) == MoveStep(labyrinth, before, moves).state;
          break;
        }
        collectedWord := collectedWord + [labyrinth.labelOf(position)];
        if labyrinth.endIsReachable(position, collectedWord) {
          steps := steps + 1;
          if labyrinth.dictionaryContains(collectedWord) {
            message := FoundWord(collectedWord);
            score := score + |collectedWord| * LETTER_BONUS;
            collectedWord := [];
          } else {
            message := KeepGoing;
          }
        } else {
          if labyrinth.doesPrefixExist(collectedWord) {
            score := score - DEAD_END_PENALTY;
            message := DeadEnd;
          } else {
            score := score - NO_PREFIX_PENALTY;
            message := NoWordStartsWith(collectedWord);
          }
          position := oldPosition;
          collectedWord := collectedWord[..|collectedWord| - 1];
        }
        assert MoveStep(labyrinth, before, moves) == Continue(Snapshot(steps));
        moves := moves[1..];
      }
    }

    /** `help`: costs 30 points, then shows every distinct path in order, each for
        500 ms times the difficulty's help level. */
    method Help() returns (schedule: seq<Highlight<V>>)
      modifies this`score
      ensures score == old(score) - HELP_COST
      ensures |schedule| == |labyrinth.distinctPaths|
      ensures forall i :: 0 <= i < |schedule| ==>
                schedule[i] == Highlight(labyrinth.distinctPaths[i], HintPauseMs(difficulty))
    {
      var helpLevel := HelpLevel(difficulty);
      score := score - HELP_COST;
      schedule := [];
      var i := 0;
      while i < |labyrinth.distinctPaths|
        invariant 0 <= i <= |labyrinth.distinctPaths|
        invariant |schedule| == i
        invariant forall k :: 0 <= k < i ==>
                    schedule[k] == Highlight(labyrinth.distinctPaths[k], HINT_PAUSE_UNIT_MS * helpLevel)
      {
        schedule := schedule + [Highlight(labyrinth.distinctPaths[i], HINT_PAUSE_UNIT_MS * helpLevel)];
        i := i + 1;
      }
    }

    /** One iteration of `start`'s outer loop: normalizes the line, then either asks
        for help or runs the moves, as `HandleLine` says. */
    method HandleCommandLine(line: string, steps0: int) returns (steps: int)
      modifies this
      ensures Snapshot(steps) == HandleLine(labyrinth, old(Snapshot(steps0)), line)
    {
      var moves := NormalizeCommand(line);
      if IsHelpCommand(moves) {
        var _ := Help();
        steps := steps0;
      } else {
        steps := RunCommand(moves, steps0);
      }
    }

    /** `start`: marks the game running and handles the given input lines, one per
        iteration, until the end vertex is reached or the input runs out. */
    method Start(lines: seq<string>)
      modifies this
      ensures var final := Play(labyrinth, old(Snapshot(0)).(isRunning := true), lines);
        Snapshot(final.steps) == final
    {
      isRunning := true;
      ghost var initial := Snapshot(0);
      var steps := 0;
      var i := 0;
      while isRunning && i < |lines|
        invariant 0 <= i <= |lines|
        invariant Play(labyrinth, Snapshot(steps), lines[i..]) == Play(labyrinth, initial, lines)
        decreases |lines| - i
      {
        ghost var before := Snapshot(steps);
        assert lines[i..][0] == lines[i] && lines[i..][1..] == lines[i + 1..];
        steps := HandleCommandLine(lines[i], steps);
        assert Play(labyrinth, before, lines[i..]) == Play(labyrinth, Snapshot(steps), lines[i + 1..]);
        i := i + 1;
      }
    }
  }
}
