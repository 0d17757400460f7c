/** The puzzle page (app/puzzle/page.js): a list of puzzles loaded once,
    a cursor into it, the board, the last move, a message and a hint. */
module PuzzlePage {
  import opened Wrappers
  import opened Collaborators

  /** One entry of `/api/puzzles`. */
  datatype Puzzle = Puzzle(gameId: string, fen: Fen)

  /** The fetch of `/api/puzzles` when the page mounts. */
  datatype PuzzlesReply = LoadFailed | Loaded(entries: seq<Puzzle>)

  const MoveMadeMessage: string :=
    "Move made. In a complete implementation, this would check if the move is correct."
  const CompletedMessage: string := "You've completed all puzzles!"
  const HintApology: string := "Sorry, I couldn't generate a hint at this time."

  /** `userMove || "None"`, the text shown as "Your last move": an
      undefined or empty move shows as "None". */
  function LastMoveLabel(userMove: Option<string>): (shown: string)
    ensures shown != ""
    ensures userMove.Some? && userMove.value != "" ==> shown == userMove.value
    ensures userMove.None? || userMove == Some("") ==> shown == "None"
  {
    FalsyOr(userMove, "None")
  }

  /** What handleMove stores as the user's move as the page is written:
      `move.san`, read from the `{from, to, promotion}` object the board
      hands over (or from a plain string), neither of which has a `san`
      property, so it is always undefined. */
  function UserMoveAsWritten(move: MoveIntent): (recorded: Option<string>)
    ensures recorded.None?
  {
    match move
    case San(_) => None
    case Drag(_, _, _) => None
  }

  /** As written, even a legal drag that chess.js records as "e4" leaves
      "Your last move" at "None"; the corrected page shows "e4". */
  lemma LastMoveLostAsWritten(after: Fen)
    ensures LastMoveLabel(UserMoveAsWritten(Drag("e2", "e4", 'q'))) == "None"
    ensures LastMoveLabel(RecordedUserMove(Applied(after, "e4"))) == "e4"
  {
  }

  /** The corrected record: the notation chess.js reports for the move it
      played. */
  function RecordedUserMove(applied: Applied): (recorded: Option<string>)
    ensures applied.san != "" ==> LastMoveLabel(recorded) == applied.san
  {
    Some(applied.san)
  }

  class PuzzleSession {
    const engine: Engine
    var puzzles: seq<Puzzle>
    var currentPuzzleIndex: int
    var game: Fen
    var userMove: Option<string>
    var message: string
    var hint: string
    var isLoadingHint: bool

    /** The cursor is never negative, and once there are puzzles it
        points at one of them. */
    ghost predicate Valid()
      reads this
    {
      0 <= currentPuzzleIndex && (currentPuzzleIndex == 0 || currentPuzzleIndex < |puzzles|)
    }

    constructor (engine: Engine)
      ensures Valid() && this.engine == engine
      ensures puzzles == [] && currentPuzzleIndex == 0 && game == StartFen
      ensures userMove == Some("") && message == "" && hint == "" && !isLoadingHint
    {
      this.engine := engine;
      puzzles := [];
      currentPuzzleIndex := 0;
      game := StartFen;
      userMove := Some("");
      message := "";
      hint := "";
      isLoadingHint := false;
    }

    /** The mount effect: the loaded list replaces the puzzles, and the
        board moves to the first puzzle only when there is one; a failed
        fetch changes nothing. The cursor stays at 0. */
    method LoadPuzzles(reply: PuzzlesReply)
      requires Valid() && currentPuzzleIndex == 0
      modifies this`puzzles, this`game
      ensures Valid()
      ensures reply.LoadFailed? ==> puzzles == old(puzzles) && game == old(game)
      ensures reply.Loaded? ==> puzzles == reply.entries
      ensures reply.Loaded? && reply.entries != [] ==> game == reply.entries[0].fen
      ensures reply.Loaded? && reply.entries == [] ==> game == old(game)
    {
      match reply
      case LoadFailed =>
      case Loaded(entries) =>
        puzzles := entries;
        if |entries| > 0 {
          game := entries[0].fen;
        }
    }

    /** checkMove: the fixed placeholder message. */
    method CheckMove()
      modifies this`message
      ensures message == MoveMadeMessage
    {
      message := MoveMadeMessage;
    }

    /** handleMove: a move chess.js accepts updates the board, records the
        move's notation and sets the placeholder message; a rejected move
        changes nothing. */
    method HandleMove(move: MoveIntent) returns (result: Option<Applied>)
      modifies this`game, this`userMove, this`message
      ensures result == engine.apply(old(game), move)
      ensures result.Some? ==>
                && game == result.value.fen
                && userMove == RecordedUserMove(result.value)
                && message == MoveMadeMessage
      ensures result.None? ==>
                game == old(game) && userMove == old(userMove) && message == old(message)
    {
      result := engine.apply(game, move);
      if result.Some? {
        game := result.value.fen;
        userMove := RecordedUserMove(result.value);
        CheckMove();
      }
    }

    /** nextPuzzle: before the last puzzle, the cursor advances, the board
        shows the next puzzle and the move, message and hint are cleared;
        at the last puzzle (or with none) only the message changes, to the
        completion notice. */
    method NextPuzzle()
      requires Valid()
      modifies this`currentPuzzleIndex, this`game, this`userMove, this`message, this`hint
      ensures Valid()
      ensures if old(currentPuzzleIndex) < |puzzles| - 1
              then && currentPuzzleIndex == old(currentPuzzleIndex) + 1
                   && game == puzzles[currentPuzzleIndex].fen
                   && userMove == Some("") && message == "" && hint == ""
              else && currentPuzzleIndex == old(currentPuzzleIndex) && game == old(game)
                   && userMove == old(userMove) && hint == old(hint)
                   && message == CompletedMessage
    {
      if currentPuzzleIndex < |puzzles| - 1 {
        var newIndex := currentPuzzleIndex + 1;
        currentPuzzleIndex := newIndex;
        game := puzzles[newIndex].fen;
        userMove := Some("");
        message := "";
        hint := "";
      } else {
        message := CompletedMessage;
      }
    }

    /** resetPuzzle: when a puzzle is under the cursor, the board goes back
        to its position and the move, message and hint are cleared;
        otherwise nothing changes. The cursor never moves. */
    method ResetPuzzle()
      requires Valid()
      modifies this`game, this`userMove, this`message, this`hint
      ensures Valid()
      ensures if currentPuzzleIndex < |puzzles|
              then && game == puzzles[currentPuzzleIndex].fen
                   && userMove == Some("") && message == "" && hint == ""
              else && game == old(game) && userMove == old(userMove)
                   && message == old(message) && hint == old(hint)
    {
      if currentPuzzleIndex < |puzzles| {
        game := puzzles[currentPuzzleIndex].fen;
        userMove := Some("");
        message := "";
        hint := "";
      }
    }

    /** getHint: with a puzzle under the cursor, the hint becomes the
        oracle's reply, or the fixed apology when the call fails, and the
        loading flag ends false either way. With no puzzle, reading its
        FEN throws before the request is made, so the flag stays set. */
    method GetHint(reply: OracleReply)
      requires Valid()
      modifies this`hint, this`isLoadingHint
      ensures currentPuzzleIndex < |puzzles| ==>
                && !isLoadingHint
                && hint == (if reply.Replied? then reply.text else HintApology)
      ensures currentPuzzleIndex >= |puzzles| ==> isLoadingHint && hint == old(hint)
    {
      isLoadingHint := true;
      if currentPuzzleIndex >= |puzzles| {
        return;
      }
      hint := if reply.Replied? then reply.text else HintApology;
      isLoadingHint := false;
    }
  }
}
